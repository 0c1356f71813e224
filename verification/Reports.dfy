/** What a run's events and contacts say about its ports: a host's result carries exactly what its
    ports reported, contacts are the connects made, and a failed run leaves no host scanning. */
module Reports {
  import opened Wrappers
  import opened Guard
  import opened Progress
  import opened Conservation
  import opened ScanRun
  import opened Liveness
  import opened RunCounters

  // ---- results are the reports ---------------------------------------------------------

  /** The reports in the stream are those of the ports that have sent one. */
  ghost predicate ReportsExact(s: State) {
    && (forall h, p :: 0 <= h < |s.hosts| && 0 <= p < |s.hosts[h].ports| && s.hosts[h].ports[p].Sent? ==>
                         PortDone(h, PortResult(p, s.hosts[h].ports[p].reading)) in s.AllSent())
    && (forall e :: e in s.AllSent() && e.PortDone? ==>
                      HasPort(s, e.host, e.result.port)
                      && s.hosts[e.host].ports[e.result.port] == Sent(e.result.reading))
  }

  /** The `i`th event carries one result a port, in port order, each reported before. */
  ghost predicate Carries(log: seq<Event>, i: nat, ports: nat)
    requires i < |log| && log[i].HostDone?
  {
    var rs := log[i].results;
    |rs| == ports && forall p :: 0 <= p < ports ==> rs[p].port == p && PortDone(log[i].host, rs[p]) in log[..i]
  }

  ghost predicate ResultsCarried(log: seq<Event>, ports: nat) {
    forall i :: 0 <= i < |log| && log[i].HostDone? ==> Carries(log, i, ports)
  }

  /** The same ports have been sent, with the same readings. */
  predicate SameSent(hs: HostState, hs': HostState) {
    |hs'.ports| == |hs.ports|
    && forall p :: 0 <= p < |hs.ports| && (hs.ports[p].Sent? || hs'.ports[p].Sent?) ==> hs'.ports[p] == hs.ports[p]
  }

  lemma PortQuiet(s: State, h: nat, p: nat, t: PortTask)
    requires HasPort(s, h, p) && !s.hosts[h].ports[p].Sent? && !t.Sent?
    ensures forall k :: 0 <= k < |s.hosts| ==> SameSent(s.hosts[k], SetPort(s.hosts, h, p, t)[k])
  {
  }

  lemma StartQuiet(cfg: Config, s: State, h: nat)
    requires Inv(cfg, s) && h < |s.hosts| && s.hosts[h].task.Pending?
    ensures SameSent(s.hosts[h], StartHost(cfg, h, s.hosts[h]))
  {
    assert HostOk(cfg, s.hosts[h], h, s.AllSent());
  }

  lemma CancelQuiet(hosts: seq<HostState>)
    ensures forall h :: 0 <= h < |hosts| ==> SameSent(hosts[h], CancelAll(hosts)[h])
  {
  }

  lemma {:induction false} QuietStep(cfg: Config, s: State, step: Step, s': State)
    requires Inv(cfg, s) && Next(cfg, s, step, s') && !step.Report? && !step.End?
    ensures s'.AllSent() == s.AllSent() && |s'.hosts| == |s.hosts|
    ensures forall h :: 0 <= h < |s.hosts| ==> SameSent(s.hosts[h], s'.hosts[h])
  {
    if step.Acquire? || step.Connect? || step.Settle? {
      var h, p := step.h, step.p;
      PortQuiet(s, h, p, s'.hosts[h].ports[p]);
    } else if step.Start? {
      StartQuiet(cfg, s, step.h);
    } else if step.Abort? {
      CancelQuiet(s.hosts);
    }
  }

  lemma {:induction false} QuietKeeps(s: State, s': State, ports: nat)
    requires ReportsExact(s) && ResultsCarried(s.AllSent(), ports)
    requires s'.AllSent() == s.AllSent() && |s'.hosts| == |s.hosts|
    requires forall h :: 0 <= h < |s.hosts| ==> SameSent(s.hosts[h], s'.hosts[h])
    ensures ReportsExact(s') && ResultsCarried(s'.AllSent(), ports)
  {
    forall h, p | 0 <= h < |s'.hosts| && 0 <= p < |s'.hosts[h].ports| && s'.hosts[h].ports[p].Sent?
      ensures PortDone(h, PortResult(p, s'.hosts[h].ports[p].reading)) in s'.AllSent()
    {
      assert SameSent(s.hosts[h], s'.hosts[h]);
    }
    forall e | e in s'.AllSent() && e.PortDone?
      ensures HasPort(s', e.host, e.result.port)
              && s'.hosts[e.host].ports[e.result.port] == Sent(e.result.reading)
    {
      assert SameSent(s.hosts[e.host], s'.hosts[e.host]);
    }
  }

  lemma CarriedSnoc(log: seq<Event>, e: Event, ports: nat)
    requires ResultsCarried(log, ports) && (e.HostDone? ==> Carries(log + [e], |log|, ports))
    ensures ResultsCarried(log + [e], ports)
  {
    var more := log + [e];
    forall i | 0 <= i < |more| && more[i].HostDone? ensures Carries(more, i, ports) {
      if i < |log| {
        assert Carries(log, i, ports);
        assert more[..i] == log[..i];
      }
    }
  }

  lemma {:induction false} ReportKeeps(cfg: Config, s: State, h: nat, p: nat, s': State)
    requires ReportsExact(s) && ResultsCarried(s.AllSent(), cfg.ports) && Next(cfg, s, Report(h, p), s')
    ensures ReportsExact(s') && ResultsCarried(s'.AllSent(), cfg.ports)
  {
    var e := PortDone(h, PortResult(p, s.hosts[h].ports[p].reading));
    assert s'.AllSent() == s.AllSent() + [e];
    CarriedSnoc(s.AllSent(), e, cfg.ports);
  }

  lemma {:induction false} EndReports(s: State, e: Event, s': State)
    requires ReportsExact(s) && s'.AllSent() == s.AllSent() + [e] && !e.PortDone?
    requires |s'.hosts| == |s.hosts| && forall h :: 0 <= h < |s.hosts| ==> s'.hosts[h].ports == s.hosts[h].ports
    ensures ReportsExact(s')
  {
  }

  lemma {:induction false} EndCarries(cfg: Config, s: State, h: nat, sent: seq<Event>, e: Event)
    requires ReportsExact(s) && sent == s.AllSent() && h < |s.hosts| && |s.hosts[h].ports| == cfg.ports
    requires s.hosts[h].task.Ending? && (s.hosts[h].task.ok ==> AllPortsSent(s.hosts[h])) && e == EndEvent(s.hosts[h], h)
    ensures e.HostDone? ==> Carries(sent + [e], |sent|, cfg.ports)
  {
    assert (sent + [e])[..|sent|] == sent;
  }

  lemma {:induction false} EndKeeps(cfg: Config, s: State, h: nat, s': State)
    requires Inv(cfg, s) && ReportsExact(s) && ResultsCarried(s.AllSent(), cfg.ports) && Next(cfg, s, End(h), s')
    ensures ReportsExact(s') && ResultsCarried(s'.AllSent(), cfg.ports)
  {
    var sent, e := s.AllSent(), EndEvent(s.hosts[h], h);
    assert s'.AllSent() == sent + [e];
    assert HostOk(cfg, s.hosts[h], h, sent);
    EndReports(s, e, s');
    EndCarries(cfg, s, h, sent, e);
    CarriedSnoc(sent, e, cfg.ports);
  }

  /** No port is reported twice. */
  ghost predicate ReportsOnce(log: seq<Event>) {
    forall i, j :: 0 <= i < j < |log| && log[i].PortDone? && log[j].PortDone? && log[i].host == log[j].host ==>
                     log[i].result.port != log[j].result.port
  }

  lemma OnceSnoc(log: seq<Event>, e: Event)
    requires ReportsOnce(log)
    requires e.PortDone? ==> forall f :: f in log && f.PortDone? && f.host == e.host ==> f.result.port != e.result.port
    ensures ReportsOnce(log + [e])
  {
  }

  lemma {:induction false} OnceStep(cfg: Config, s: State, step: Step, s': State)
    requires Inv(cfg, s) && Next(cfg, s, step, s') && ReportsExact(s) && ReportsOnce(s.AllSent())
    ensures ReportsOnce(s'.AllSent())
  {
    if step.Report? || step.End? {
      var e := s'.queue[|s.queue|];
      assert s'.AllSent() == s.AllSent() + [e];
      OnceSnoc(s.AllSent(), e);
    } else {
      QuietStep(cfg, s, step, s');
    }
  }

  // ---- contacts are the connects made ------------------------------------------------------

  predicate Connected(t: PortTask) { t.Connecting? || t.Holding? || t.Sent? || t.Raised? }

  ghost predicate HasConnected(cfg: Config, s: State, c: Contact, h: nat) {
    && h < |s.hosts| == |cfg.ips| && HasPort(s, h, c.port) && cfg.ips[h] == c.addr
    && (Connected(s.hosts[h].ports[c.port]) || s.hosts[h].ports[c.port].Dropped?)
  }

  ghost predicate ContactsExact(cfg: Config, s: State) {
    && |s.hosts| == |cfg.ips|
    && (forall h, p :: 0 <= h < |s.hosts| && 0 <= p < |s.hosts[h].ports| && Connected(s.hosts[h].ports[p]) ==>
                         Contact(cfg.ips[h], p) in s.contacts)
    && (forall c :: c in s.contacts ==> exists h: nat :: HasConnected(cfg, s, c, h))
  }

  /** A follow-up probe goes to a port the scan has connected to and found open. */
  lemma {:induction false} ProbesRevisit(cfg: Config, s: State, probes: set<nat>)
    requires ReportsExact(s) && ResultsCarried(s.AllSent(), cfg.ports) && ContactsExact(cfg, s)
    requires s.queue != [] && ProbesOf(s.queue[0], probes)
    ensures ProbeContacts(cfg, s.queue[0], probes) <= s.contacts
    ensures forall q :: q in probes ==>
              var h := s.queue[0].host;
              HasPort(s, h, q) && s.hosts[h].ports[q].Sent? && s.hosts[h].ports[q].reading.state.Open?
  {
    var e, k := s.queue[0], |s.log|;
    assert s.AllSent()[k] == e;
    forall q | q in probes
      ensures HasPort(s, e.host, q) && s.hosts[e.host].ports[q].Sent? && s.hosts[e.host].ports[q].reading.state.Open?
    {
      assert Carries(s.AllSent(), k, cfg.ports);
      var r :| r in e.results && r.reading.state.Open? && r.port == q;
      assert PortDone(e.host, r) in s.AllSent()[..k];
    }
  }

  /** A port that has connected stays so or is dropped, and is never a new contact unless it connects now. */
  predicate Onward(hs: HostState, hs': HostState) {
    |hs'.ports| == |hs.ports|
    && forall p :: 0 <= p < |hs.ports| ==>
         && (Connected(hs.ports[p]) ==> Connected(hs'.ports[p]) || hs'.ports[p].Dropped?)
         && (hs.ports[p].Dropped? ==> hs'.ports[p].Dropped?)
         && (Connected(hs'.ports[p]) ==> Connected(hs.ports[p]) || (hs'.ports[p].Connecting? && hs.ports[p].Ready?))
  }

  lemma {:induction false} StepOnward(cfg: Config, s: State, step: Step, s': State)
    requires Inv(cfg, s) && Next(cfg, s, step, s')
    ensures |s'.hosts| == |s.hosts| && forall h :: 0 <= h < |s.hosts| ==> Onward(s.hosts[h], s'.hosts[h])
  {
    if step.Acquire? || step.Connect? || step.Settle? || step.Report? {
      var h, p := step.h, step.p;
      PortOnward(s, h, p, s'.hosts[h].ports[p]);
    } else if step.Start? {
      StartOnward(cfg, s, step.h);
    } else if step.Abort? {
      CancelOnward(s.hosts);
    }
  }

  lemma StartOnward(cfg: Config, s: State, h: nat)
    requires Inv(cfg, s) && h < |s.hosts| && s.hosts[h].task.Pending?
    ensures Onward(s.hosts[h], StartHost(cfg, h, s.hosts[h]))
  {
    assert HostOk(cfg, s.hosts[h], h, s.AllSent());
  }

  lemma CancelOnward(hosts: seq<HostState>)
    ensures forall h :: 0 <= h < |hosts| ==> Onward(hosts[h], CancelAll(hosts)[h])
  {
  }

  lemma PortOnward(s: State, h: nat, p: nat, t: PortTask)
    requires HasPort(s, h, p)
    requires var was := s.hosts[h].ports[p];
             && !was.Dropped? && (Connected(was) ==> Connected(t))
             && (Connected(t) ==> Connected(was) || (t.Connecting? && was.Ready?))
    ensures forall k :: 0 <= k < |s.hosts| ==> Onward(s.hosts[k], SetPort(s.hosts, h, p, t)[k])
  {
  }

  lemma {:induction false} OldContacts(cfg: Config, s: State, s': State)
    requires ContactsExact(cfg, s) && |s'.hosts| == |s.hosts| && s.contacts <= s'.contacts
    requires forall h :: 0 <= h < |s.hosts| ==> Onward(s.hosts[h], s'.hosts[h])
    ensures forall c :: c in s.contacts ==> exists h: nat :: HasConnected(cfg, s', c, h)
    ensures forall h, p :: 0 <= h < |s.hosts| && 0 <= p < |s.hosts[h].ports| && Connected(s.hosts[h].ports[p]) ==>
                             Contact(cfg.ips[h], p) in s'.contacts
  {
    forall c | c in s.contacts ensures exists h: nat :: HasConnected(cfg, s', c, h) {
      var h: nat :| HasConnected(cfg, s, c, h);
      assert Onward(s.hosts[h], s'.hosts[h]);
      assert HasConnected(cfg, s', c, h);
    }
  }

  lemma {:induction false} ConnectContacts(cfg: Config, s: State, h: nat, p: nat, s': State)
    requires Next(cfg, s, Connect(h, p), s') && ContactsExact(cfg, s)
    ensures ContactsExact(cfg, s')
  {
    PortOnward(s, h, p, Connecting);
    OldContacts(cfg, s, s');
    assert HasConnected(cfg, s', Contact(cfg.ips[h], p), h);
  }

  predicate NoConnect(hosts: seq<HostState>, hosts': seq<HostState>) {
    |hosts'| == |hosts|
    && forall h, p :: 0 <= h < |hosts| && 0 <= p < |hosts[h].ports| && 0 <= p < |hosts'[h].ports| ==>
         (Connected(hosts'[h].ports[p]) ==> Connected(hosts[h].ports[p]))
  }

  lemma {:induction false} SameContacts(cfg: Config, s: State, s': State)
    requires ContactsExact(cfg, s) && |s'.hosts| == |s.hosts| && s'.contacts == s.contacts
    requires forall h :: 0 <= h < |s.hosts| ==> Onward(s.hosts[h], s'.hosts[h])
    requires NoConnect(s.hosts, s'.hosts)
    ensures ContactsExact(cfg, s')
  {
    OldContacts(cfg, s, s');
    forall h, p | 0 <= h < |s'.hosts| && 0 <= p < |s'.hosts[h].ports| && Connected(s'.hosts[h].ports[p])
      ensures Contact(cfg.ips[h], p) in s'.contacts
    {
      assert Onward(s.hosts[h], s'.hosts[h]);
    }
  }

  lemma PortNoConnect(s: State, h: nat, p: nat, t: PortTask)
    requires HasPort(s, h, p) && (Connected(t) ==> Connected(s.hosts[h].ports[p]))
    ensures NoConnect(s.hosts, SetPort(s.hosts, h, p, t))
  {
  }

  lemma StartNoConnect(cfg: Config, s: State, h: nat)
    requires h < |s.hosts| == |cfg.ips|
    ensures NoConnect(s.hosts, s.hosts[h := StartHost(cfg, h, s.hosts[h])])
  {
  }

  lemma CancelNoConnect(hosts: seq<HostState>)
    ensures NoConnect(hosts, CancelAll(hosts))
  {
  }

  lemma {:induction false} NoNewConnection(cfg: Config, s: State, step: Step, s': State)
    requires Next(cfg, s, step, s') && !step.Connect?
    ensures NoConnect(s.hosts, s'.hosts)
  {
    if step.Acquire? || step.Settle? || step.Report? {
      var h, p := step.h, step.p;
      PortNoConnect(s, h, p, s'.hosts[h].ports[p]);
    } else if step.Start? {
      StartNoConnect(cfg, s, step.h);
    } else if step.Abort? {
      CancelNoConnect(s.hosts);
    }
  }

  lemma {:induction false} ContactsStep(cfg: Config, s: State, step: Step, s': State)
    requires Inv(cfg, s) && Next(cfg, s, step, s')
    requires ReportsExact(s) && ResultsCarried(s.AllSent(), cfg.ports) && ContactsExact(cfg, s)
    ensures ContactsExact(cfg, s')
  {
    if step.Connect? {
      ConnectContacts(cfg, s, step.h, step.p, s');
    } else {
      if step.Consume? || step.Abort? { ProbesRevisit(cfg, s, step.probes); }
      StepOnward(cfg, s, step, s');
      NoNewConnection(cfg, s, step, s');
      SameContacts(cfg, s, s');
    }
  }

  // ---- a failed run comes to rest ------------------------------------------------------------

  /** After a failure no host is scanning, and only a gather that had already raised leaves
      ports behind that go on by themselves. */
  ghost predicate Stopped(s: State) {
    s.aborted ==>
      forall h :: 0 <= h < |s.hosts| ==>
        && (s.hosts[h].task.Cancelled? || s.hosts[h].task.Ended?)
        && (SomeRaised(s.hosts[h].ports)
            || forall p :: 0 <= p < |s.hosts[h].ports| ==>
                 s.hosts[h].ports[p].Idle? || s.hosts[h].ports[p].Sent? || s.hosts[h].ports[p].Dropped?)
  }

  lemma {:induction false} CancelStops(cfg: Config, hs: HostState, h: nat, sent: seq<Event>)
    requires h < |cfg.ips| && HostOk(cfg, hs, h, sent) && !hs.task.Cancelled?
    ensures var hs' := Cancel(hs);
            && (hs'.task.Cancelled? || hs'.task.Ended?)
            && (SomeRaised(hs'.ports) || forall p :: 0 <= p < |hs'.ports| ==>
                                           hs'.ports[p].Idle? || hs'.ports[p].Sent? || hs'.ports[p].Dropped?)
  {
    if hs.task.Gathering? && SomeRaised(hs.ports) {
      var i :| 0 <= i < |hs.ports| && hs.ports[i].Raised?;
      assert DropAll(hs.ports)[i].Raised?;
    }
  }

  lemma {:induction false} AbortStops(cfg: Config, s: State, probes: set<nat>, s': State)
    requires Inv(cfg, s) && Next(cfg, s, Abort(probes), s')
    ensures Stopped(s')
  {
    forall h | 0 <= h < |s.hosts|
      ensures (s'.hosts[h].task.Cancelled? || s'.hosts[h].task.Ended?)
      ensures SomeRaised(s'.hosts[h].ports)
              || forall p :: 0 <= p < |s'.hosts[h].ports| ==>
                   s'.hosts[h].ports[p].Idle? || s'.hosts[h].ports[p].Sent? || s'.hosts[h].ports[p].Dropped?
    {
      assert HostOk(cfg, s.hosts[h], h, s.AllSent());
      CancelStops(cfg, s.hosts[h], h, s.AllSent());
    }
  }

  lemma {:induction false} StopStep(cfg: Config, s: State, step: Step, s': State)
    requires Inv(cfg, s) && Next(cfg, s, step, s') && Stopped(s)
    ensures Stopped(s')
  {
    if step.Abort? {
      AbortStops(cfg, s, step.probes, s');
    } else if s.aborted && (step.Acquire? || step.Connect? || step.Settle? || step.Report?) {
      var ports := s.hosts[step.h].ports;
      assert SomeRaised(ports);
      RaisedStays(ports, step.p, s'.hosts[step.h].ports[step.p]);
    }
  }

  // ---- semaphores, counted -------------------------------------------------------------------

  ghost function Gatherers(hosts: seq<HostState>): set<int> {
    set h | 0 <= h < |hosts| && hosts[h].task.Gathering?
  }

  ghost function Connections(hosts: seq<HostState>): set<(int, int)> {
    set h, p | 0 <= h < |hosts| && 0 <= p < |hosts[h].ports| && hosts[h].ports[p].Connecting? :: (h, p)
  }

  ghost function ConnectionsOf(h: int, ports: seq<PortTask>): set<(int, int)> {
    set p | 0 <= p < |ports| && ports[p].Connecting? :: (h, p)
  }

  lemma {:induction false} GatherersCount(hosts: seq<HostState>)
    ensures |Gatherers(hosts)| == Scans(hosts)
  {
    if hosts == [] {
      assert Gatherers(hosts) == {};
    } else {
      var k := |hosts| - 1;
      GatherersCount(hosts[..k]);
      assert Gatherers(hosts) == Gatherers(hosts[..k]) + if hosts[k].task.Gathering? then {k} else {};
    }
  }

  lemma {:induction false} ConnectionsOfCount(h: int, ports: seq<PortTask>)
    ensures |ConnectionsOf(h, ports)| == SumBy(ports, IsConnecting)
  {
    if ports == [] {
      assert ConnectionsOf(h, ports) == {};
    } else {
      var k := |ports| - 1;
      ConnectionsOfCount(h, ports[..k]);
      assert ConnectionsOf(h, ports) == ConnectionsOf(h, ports[..k]) + if ports[k].Connecting? then {(h, k)} else {};
    }
  }

  lemma {:induction false} ConnectionsCount(hosts: seq<HostState>)
    ensures |Connections(hosts)| == Connects(hosts)
  {
    if hosts == [] {
      assert Connections(hosts) == {};
    } else {
      var k := |hosts| - 1;
      ConnectionsCount(hosts[..k]);
      ConnectionsOfCount(k, hosts[k].ports);
      assert Connections(hosts) == Connections(hosts[..k]) + ConnectionsOf(k, hosts[k].ports);
      assert Connections(hosts[..k]) !! ConnectionsOf(k, hosts[k].ports);
    }
  }

  // ---- runs -------------------------------------------------------------------------------------

  ghost predicate Faithful(cfg: Config, s: State) {
    && ReportsExact(s) && ResultsCarried(s.AllSent(), cfg.ports) && ReportsOnce(s.AllSent())
    && ContactsExact(cfg, s) && Stopped(s)
  }

  lemma {:induction false} FaithfulStep(cfg: Config, s: State, step: Step, s': State)
    requires Inv(cfg, s) && Next(cfg, s, step, s') && Faithful(cfg, s)
    ensures Faithful(cfg, s')
  {
    match step {
      case Report(h, p) => ReportKeeps(cfg, s, h, p, s');
      case End(h) => EndKeeps(cfg, s, h, s');
      case _ =>
        QuietStep(cfg, s, step, s');
        QuietKeeps(s, s', cfg.ports);
    }
    OnceStep(cfg, s, step, s');
    ContactsStep(cfg, s, step, s');
    StopStep(cfg, s, step, s');
  }

  lemma FaithfulAfter(cfg: Config, s: State, s': State)
    requires Inv(cfg, s) && Faithful(cfg, s) && StepsTo(cfg, s, s')
    ensures Faithful(cfg, s')
  {
    var step :| Next(cfg, s, step, s');
    FaithfulStep(cfg, s, step, s');
  }

  lemma InitFaithful(cfg: Config)
    ensures Faithful(cfg, Init(cfg))
  {
  }

  lemma {:induction false} RunFaithful(cfg: Config, run: seq<State>, i: nat)
    requires IsRun(cfg, run) && i < |run|
    ensures Faithful(cfg, run[i])
  {
    if i == 0 {
      InitFaithful(cfg);
    } else {
      RunFaithful(cfg, run, i - 1);
      RunInv(cfg, run, i - 1);
      RunStep(cfg, run, i);
      FaithfulAfter(cfg, run[i - 1], run[i]);
    }
  }

  /** In every state of every run, a host's result has one entry a port, in port order, and its
      entries are exactly what the host's ports have reported before it. */
  lemma {:induction false} ResultsAreTheReports(cfg: Config, run: seq<State>, i: nat, k: nat)
    requires IsRun(cfg, run) && i < |run| && k < |run[i].log| && run[i].log[k].HostDone?
    ensures var log, h, rs := run[i].log, run[i].log[k].host, run[i].log[k].results;
            && |rs| == cfg.ports
            && (forall p :: 0 <= p < cfg.ports ==> rs[p].port == p && PortDone(h, rs[p]) in log[..k])
            && (forall r :: PortDone(h, r) in log ==> r.port < cfg.ports && rs[r.port] == r)
  {
    RunFaithful(cfg, run, i);
    RunInv(cfg, run, i);
    var s, log := run[i], run[i].log;
    var sent, h, rs := s.AllSent(), log[k].host, log[k].results;
    assert sent[k] == log[k] && sent[..k] == log[..k];
    assert Carries(sent, k, cfg.ports);
    forall r | PortDone(h, r) in log ensures r.port < cfg.ports && rs[r.port] == r {
      assert PortDone(h, r) in sent;
      assert HostOk(cfg, s.hosts[h], h, sent);
      assert PortDone(h, rs[r.port]) in sent;
    }
  }

  /** In every state of every run, no port has been reported twice. */
  lemma {:induction false} PortsReportOnce(cfg: Config, run: seq<State>, i: nat)
    requires IsRun(cfg, run) && i < |run|
    ensures var log := run[i].log;
            forall j, k :: 0 <= j < k < |log| && log[j].PortDone? && log[k].PortDone? && log[j].host == log[k].host ==>
                             log[j].result.port != log[k].result.port
  {
    RunFaithful(cfg, run, i);
    var sent, log := run[i].AllSent(), run[i].log;
    assert forall j :: 0 <= j < |log| ==> sent[j] == log[j];
  }

  /** In every state of every run, the contacts are the connects made: every port that has begun to
      connect is one, every one is a port that has (a cancelled port may have), and follow-up probes
      go to no others. */
  lemma {:induction false} ContactsAreConnects(cfg: Config, run: seq<State>, i: nat)
    requires IsRun(cfg, run) && i < |run|
    ensures var s := run[i];
            && |s.hosts| == |cfg.ips|
            && (forall h, p :: 0 <= h < |s.hosts| && 0 <= p < |s.hosts[h].ports| && Connected(s.hosts[h].ports[p]) ==>
                                 Contact(cfg.ips[h], p) in s.contacts)
            && (forall c :: c in s.contacts ==> exists h: nat :: HasConnected(cfg, s, c, h))
  {
    RunFaithful(cfg, run, i);
  }

  /** Once a result could not be handled, every host task has ended or is cancelled, and ports
      still on their way belong to a host one of whose ports has raised. */
  lemma {:induction false} FailedRunStops(cfg: Config, run: seq<State>, i: nat, h: nat)
    requires IsRun(cfg, run) && i < |run| && run[i].aborted && h < |run[i].hosts|
    ensures run[i].hosts[h].task.Cancelled? || run[i].hosts[h].task.Ended?
    ensures forall p :: 0 <= p < |run[i].hosts[h].ports| ==>
              var t := run[i].hosts[h].ports[p];
              t.Waiting? || t.Ready? || t.Connecting? || t.Holding? ==> SomeRaised(run[i].hosts[h].ports)
  {
    RunFaithful(cfg, run, i);
  }

  /** In every state of every run, no more hosts are being scanned than the host semaphore lets
      in, and no more ports are connecting than the connection semaphore does. */
  lemma SemaphoresHold(cfg: Config, run: seq<State>, i: nat)
    requires IsRun(cfg, run) && i < |run|
    ensures var hosts := run[i].hosts;
            && |set h | 0 <= h < |hosts| && hosts[h].task.Gathering?| <= cfg.hostLimit
            && |set h, p | 0 <= h < |hosts| && 0 <= p < |hosts[h].ports| && hosts[h].ports[p].Connecting? :: (h, p)|
               <= cfg.connectLimit
  {
    RunInv(cfg, run, i);
    GatherersCount(run[i].hosts);
    ConnectionsCount(run[i].hosts);
    assert Gatherers(run[i].hosts) == set h | 0 <= h < |run[i].hosts| && run[i].hosts[h].task.Gathering?;
    assert Connections(run[i].hosts) == set h, p | 0 <= h < |run[i].hosts| && 0 <= p < |run[i].hosts[h].ports|
                                                   && run[i].hosts[h].ports[p].Connecting? :: (h, p);
  }

  // ---- every outcome can happen -------------------------------------------------------------

  lemma {:induction false} EndInLog(log: seq<Event>, h: nat, f: Fact) returns (k: nat)
    requires f != Reported && Tell(log, h, f) > 0
    ensures k < |log| && log[k].host == h && (if f == Finished then log[k].HostDone? else log[k].HostFailed?)
  {
    k := |log| - 1;
    if !Counts(log[k], h, f) { k := EndInLog(log[..k], h, f); }
  }

  /** What a consumed run says of host `h` when its ports were fated to `f`. */
  ghost predicate EndedAs(cfg: Config, log: seq<Event>, h: nat, f: Outcomes)
    requires h < |cfg.ips|
  {
    if cfg.guard.Admits(cfg.ips[h]) && forall p: nat :: p < cfg.ports ==> f(h, p).Some?
    then exists rs: seq<PortResult> :: HostDone(h, rs) in log && |rs| == cfg.ports
                                       && forall p :: 0 <= p < cfg.ports ==> f(h, p) == Some(rs[p].reading)
    else HostFailed(h) in log
  }

  lemma {:induction false} ResultFollows(cfg: Config, run: seq<State>, s: State, k: nat, f: Outcomes)
    requires LeadsTo(cfg, run, s) && Follows(s, f) && k < |s.log| && s.log[k].HostDone?
    ensures var rs := s.log[k].results;
            |rs| == cfg.ports && forall p :: 0 <= p < cfg.ports ==> f(s.log[k].host, p) == Some(rs[p].reading)
  {
    ResultsAreTheReports(cfg, run, |run| - 1, k);
    RunFaithful(cfg, run, |run| - 1);
    var h, rs := s.log[k].host, s.log[k].results;
    forall p | 0 <= p < cfg.ports ensures f(h, p) == Some(rs[p].reading) {
      var e := PortDone(h, rs[p]);
      assert e in s.log[..k];
      assert e in s.AllSent();
    }
  }

  lemma {:induction false} WhichEnd(cfg: Config, s: State, h: nat, f: Outcomes)
    requires Inv(cfg, s) && Follows(s, f) && HostsFinished(s.log) == |cfg.ips| && h < |cfg.ips|
    ensures if cfg.guard.Admits(cfg.ips[h]) && forall p: nat :: p < cfg.ports ==> f(h, p).Some?
            then Tell(s.log, h, Finished) == 1 else Tell(s.log, h, Errored) == 1
  {
    DrainedRunIsComplete(cfg, s);
    assert HostOk(cfg, s.hosts[h], h, s.AllSent());
    TellPrefix(s.AllSent(), |s.log|, h, Finished);
    TellPrefix(s.AllSent(), |s.log|, h, Errored);
    assert s.AllSent()[..|s.log|] == s.log;
    if s.hosts[h].task.ok {
      assert forall p: nat :: p < cfg.ports ==> s.hosts[h].ports[p].Sent?;
    } else if cfg.guard.Admits(cfg.ips[h]) {
      var p :| 0 <= p < cfg.ports && s.hosts[h].ports[p].Raised?;
      assert f(h, p) == None;
    }
  }

  lemma {:induction false} HostEndedAs(cfg: Config, run: seq<State>, s: State, h: nat, f: Outcomes)
    requires LeadsTo(cfg, run, s) && Inv(cfg, s) && Follows(s, f) && HostsFinished(s.log) == |cfg.ips| && h < |cfg.ips|
    ensures EndedAs(cfg, s.log, h, f)
  {
    WhichEnd(cfg, s, h, f);
    if cfg.guard.Admits(cfg.ips[h]) && forall p: nat :: p < cfg.ports ==> f(h, p).Some? {
      var k := EndInLog(s.log, h, Finished);
      ResultFollows(cfg, run, s, k, f);
      assert HostDone(h, s.log[k].results) in s.log;
    } else {
      var k := EndInLog(s.log, h, Errored);
      assert s.log[k] == HostFailed(h);
    }
  }

  /** Whatever each port of each host is fated to yield, a scan that has what it needs has a run in
      which exactly that happens: every admitted host none of whose ports raises ends with those
      readings, and every other host with an error. */
  lemma AnyOutcomeHappens(cfg: Config, f: Outcomes)
    requires CanWork(cfg)
    ensures exists s :: Reachable(cfg, s) && HostsFinished(s.log) == |cfg.ips|
                        && forall h :: 0 <= h < |cfg.ips| ==> EndedAs(cfg, s.log, h, f)
  {
    var run, s := CompleteRun(cfg, f);
    forall h | 0 <= h < |cfg.ips| ensures EndedAs(cfg, s.log, h, f) {
      HostEndedAs(cfg, run, s, h, f);
    }
    assert Reachable(cfg, s);
  }

  // ---- follow-up probes ---------------------------------------------------------------------

  /** While the coordinator has a host's result to handle, the ports it may probe are exactly those
      of that host that were found open. */
  lemma {:induction false} ProbesAreOpenPorts(cfg: Config, run: seq<State>, i: nat, probes: set<nat>)
    requires IsRun(cfg, run) && i < |run| && !run[i].aborted && HostsFinished(run[i].log) < |cfg.ips|
    requires run[i].queue != [] && run[i].queue[0].HostDone?
    ensures var s, h := run[i], run[i].queue[0].host;
            (exists s' :: Next(cfg, s, Consume(probes), s')) <==>
            forall q :: q in probes ==>
              HasPort(s, h, q) && s.hosts[h].ports[q].Sent? && s.hosts[h].ports[q].reading.state == Open
  {
    RunFaithful(cfg, run, i);
    var s, e := run[i], run[i].queue[0];
    if s' :| Next(cfg, s, Consume(probes), s') { ProbesRevisit(cfg, s, probes); }
    if forall q :: q in probes ==> HasPort(s, e.host, q) && s.hosts[e.host].ports[q].Sent?
                                   && s.hosts[e.host].ports[q].reading.state == Open {
      RunInv(cfg, run, i);
      forall q | q in probes ensures exists r :: r in e.results && r.reading.state.Open? && r.port == q {
        PortBound(cfg, s, e.host, q);
        OpenMayBeProbed(cfg, s, e, q);
      }
      var s' := s.(log := s.log + [e], queue := s.queue[1..], contacts := s.contacts + ProbeContacts(cfg, e, probes));
      assert Next(cfg, s, Consume(probes), s');
    }
  }

  lemma {:induction false} OpenMayBeProbed(cfg: Config, s: State, e: Event, q: nat)
    requires ReportsExact(s) && ResultsCarried(s.AllSent(), cfg.ports)
    requires s.queue != [] && e == s.queue[0] && e.HostDone? && q < cfg.ports
    requires HasPort(s, e.host, q) && s.hosts[e.host].ports[q].Sent? && s.hosts[e.host].ports[q].reading.state == Open
    ensures exists r :: r in e.results && r.reading.state.Open? && r.port == q
  {
    var k := |s.log|;
    var sent := s.AllSent();
    assert sent[k] == e && Carries(sent, k, cfg.ports);
    var r := e.results[q];
    assert PortDone(e.host, r) in sent[..k];
    assert PortDone(e.host, r) in sent && r in e.results;
  }

  lemma PortBound(cfg: Config, s: State, h: nat, q: nat)
    requires Inv(cfg, s) && HasPort(s, h, q)
    ensures q < cfg.ports
  {
    assert HostOk(cfg, s.hosts[h], h, s.AllSent());
  }
}
