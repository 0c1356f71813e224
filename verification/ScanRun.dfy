/** A scan as a protocol: host tasks under a semaphore, port tasks under another, a bounded
    FIFO queue, and one coordinator. Any task may take the next step. */
module ScanRun {
  import opened Wrappers
  import opened Guard
  import opened Progress
  import opened Conservation

  // ---- sums over sequences --------------------------------------------------------

  function SumBy<T>(s: seq<T>, f: T -> nat): nat {
    if s == [] then 0 else SumBy(s[..|s| - 1], f) + f(s[|s| - 1])
  }

  lemma {:induction false} SumUpdate<T>(s: seq<T>, f: T -> nat, i: nat, x: T)
    requires i < |s|
    ensures SumBy(s[i := x], f) + f(s[i]) == SumBy(s, f) + f(x)
  {
    var last := |s| - 1;
    if i == last {
      assert s[i := x][..last] == s[..last];
    } else {
      assert s[i := x][..last] == s[..last][i := x];
      SumUpdate(s[..last], f, i, x);
    }
  }

  lemma {:induction false} SumPointwise<T>(s: seq<T>, t: seq<T>, f: T -> nat)
    requires |s| == |t| && forall i :: 0 <= i < |s| ==> f(s[i]) <= f(t[i])
    ensures SumBy(s, f) <= SumBy(t, f)
  {
    if s != [] { SumPointwise(s[..|s| - 1], t[..|t| - 1], f); }
  }

  lemma {:induction false} SumConst<T>(s: seq<T>, f: T -> nat, k: nat)
    ensures (forall i :: 0 <= i < |s| ==> f(s[i]) == k) ==> SumBy(s, f) == |s| * k
    ensures (forall i :: 0 <= i < |s| ==> f(s[i]) <= k) ==> SumBy(s, f) <= |s| * k
  {
    if s != [] {
      SumConst(s[..|s| - 1], f, k);
      assert |s| * k == (|s| - 1) * k + k;
    }
  }

  // ---- states -----------------------------------------------------------------------

  datatype PortTask =
    | Idle                         // not created yet
    | Waiting                      // for the rate limiter
    | Ready                        // has its token, waits for the connection semaphore
    | Connecting                   // holds the semaphore
    | Holding(reading: Reading)     // has a result, waits for room in the queue
    | Sent(reading: Reading)
    | Raised
    | Dropped                      // cancelled

  datatype HostTask =
    | Pending                      // waits for the host semaphore
    | Gathering                     // holds it, gathers its port tasks
    | Ending(ok: bool)             // has released it, waits for room in the queue
    | Ended(ok: bool)
    | Cancelled

  datatype HostState = HostState(task: HostTask, ports: seq<PortTask>)

  /** A packet sent to a target: a port connect, or a later HTTP or TLS probe. */
  datatype Contact = Contact(addr: Host, port: nat)

  datatype State = State(hosts: seq<HostState>, queue: seq<Event>, log: seq<Event>,
                         aborted: bool, contacts: set<Contact>) {
    /** All events in the order the tasks sent them. */
    function AllSent(): seq<Event> { log + queue }
  }

  /** The scanner's limiter has a capacity equal to its rate, and every port takes one token. */
  datatype Config = Config(guard: ScopeGuard, ips: seq<Host>, ports: nat,
                           hostLimit: nat, connectLimit: nat, rate: real) {
    const queueLimit: nat := 2000

    predicate Authorized(h: nat) requires h < |ips| { guard.AssertAuthorized(AddressText(ips[h])).Ok? }

    /** The limiter ever grants a token (`Liveness.PacesIff`). */
    predicate Paces() { rate <= 0.0 || rate >= 1.0 }
  }

  function Repeat<T>(n: nat, x: T): (r: seq<T>)
    ensures |r| == n && forall i :: 0 <= i < n ==> r[i] == x
  {
    if n == 0 then [] else Repeat(n - 1, x) + [x]
  }

  function Init(cfg: Config): State {
    State(Repeat(|cfg.ips|, HostState(Pending, Repeat(cfg.ports, Idle))), [], [], false, {})
  }

  function InScan(hs: HostState): nat { if hs.task.Gathering? then 1 else 0 }
  function IsConnecting(p: PortTask): nat { if p.Connecting? then 1 else 0 }
  function IsSent(p: PortTask): nat { if p.Sent? then 1 else 0 }
  function ConnectsOf(hs: HostState): nat { SumBy(hs.ports, IsConnecting) }

  /** Hosts holding the host semaphore, and ports holding the connection semaphore. */
  function Scans(hosts: seq<HostState>): nat { SumBy(hosts, InScan) }
  function Connects(hosts: seq<HostState>): nat { SumBy(hosts, ConnectsOf) }

  function Results(ports: seq<PortTask>): (r: seq<PortResult>)
    requires forall i :: 0 <= i < |ports| ==> ports[i].Sent?
    ensures |r| == |ports| && forall i :: 0 <= i < |r| ==> r[i] == PortResult(i, ports[i].reading)
  {
    if ports == [] then []
    else Results(ports[..|ports| - 1]) + [PortResult(|ports| - 1, ports[|ports| - 1].reading)]
  }

  /** `hosts_finished` after the coordinator has consumed the log. */
  function HostsFinished(log: seq<Event>): nat {
    if log == [] then 0 else HostsFinished(log[..|log| - 1]) + if Terminal(log[|log| - 1]) then 1 else 0
  }

  // ---- steps --------------------------------------------------------------------------

  datatype Step =
    | Start(h: nat)
    | Acquire(h: nat, p: nat)
    | Connect(h: nat, p: nat)
    | Settle(h: nat, p: nat, outcome: Option<Reading>)  // None: an exception
    | Report(h: nat, p: nat)
    | Gathered(h: nat)
    | GatherRaised(h: nat)
    | End(h: nat)
    | Consume(probes: set<nat>)
    | Abort(probes: set<nat>)

  function SetPort(hosts: seq<HostState>, h: nat, p: nat, t: PortTask): seq<HostState>
    requires h < |hosts| && p < |hosts[h].ports|
  {
    hosts[h := hosts[h].(ports := hosts[h].ports[p := t])]
  }

  function SetTask(hosts: seq<HostState>, h: nat, t: HostTask): seq<HostState>
    requires h < |hosts|
  {
    hosts[h := hosts[h].(task := t)]
  }

  predicate HasPort(s: State, h: nat, p: nat) { h < |s.hosts| && p < |s.hosts[h].ports| }

  predicate AllPortsSent(hs: HostState) { forall i :: 0 <= i < |hs.ports| ==> hs.ports[i].Sent? }

  predicate SomeRaised(ports: seq<PortTask>) { exists i :: 0 <= i < |ports| && ports[i].Raised? }

  /** What cancelling its task does to a host: an unfinished gather takes its ports along,
      but ports whose gather has already raised go on by themselves. */
  function Cancel(hs: HostState): HostState {
    match hs.task
    case Ended(_) => hs
    case Gathering => HostState(Cancelled, DropAll(hs.ports))
    case _ => hs.(task := Cancelled)
  }

  function DropAll(ports: seq<PortTask>): (r: seq<PortTask>)
    ensures |r| == |ports|
    ensures forall i :: 0 <= i < |r| ==> r[i] == if ports[i].Sent? || ports[i].Raised? then ports[i] else Dropped
  {
    if ports == [] then []
    else
      var last := ports[|ports| - 1];
      DropAll(ports[..|ports| - 1]) + [if last.Sent? || last.Raised? then last else Dropped]
  }

  function CancelAll(hosts: seq<HostState>): (r: seq<HostState>)
    ensures |r| == |hosts| && forall i :: 0 <= i < |r| ==> r[i] == Cancel(hosts[i])
  {
    if hosts == [] then [] else CancelAll(hosts[..|hosts| - 1]) + [Cancel(hosts[|hosts| - 1])]
  }

  /** Handling a host's result may probe ports of that host found open. */
  predicate ProbesOf(e: Event, probes: set<nat>) {
    forall q :: q in probes ==> e.HostDone? && exists r :: r in e.results && r.reading.state.Open? && r.port == q
  }

  function ProbeContacts(cfg: Config, e: Event, probes: set<nat>): set<Contact> {
    if e.host < |cfg.ips| then set q | q in probes :: Contact(cfg.ips[e.host], q) else {}
  }

  ghost predicate Next(cfg: Config, s: State, step: Step, s': State) {
    match step
    case Start(h) =>
      && h < |s.hosts| == |cfg.ips| && s.hosts[h].task.Pending? && Scans(s.hosts) < cfg.hostLimit
      && s' == s.(hosts := s.hosts[h := StartHost(cfg, h, s.hosts[h])])
    case Acquire(h, p) =>
      && HasPort(s, h, p) && s.hosts[h].ports[p].Waiting? && cfg.Paces()
      && s' == s.(hosts := SetPort(s.hosts, h, p, Ready))
    case Connect(h, p) =>
      && HasPort(s, h, p) && |s.hosts| == |cfg.ips| && s.hosts[h].ports[p].Ready?
      && Connects(s.hosts) < cfg.connectLimit
      && s' == s.(hosts := SetPort(s.hosts, h, p, Connecting), contacts := s.contacts + {Contact(cfg.ips[h], p)})
    case Settle(h, p, outcome) =>
      && HasPort(s, h, p) && s.hosts[h].ports[p].Connecting?
      && s' == s.(hosts := SetPort(s.hosts, h, p, if outcome.Some? then Holding(outcome.value) else Raised))
    case Report(h, p) =>
      && HasPort(s, h, p) && s.hosts[h].ports[p].Holding? && |s.queue| < cfg.queueLimit
      && var reading := s.hosts[h].ports[p].reading;
         s' == s.(hosts := SetPort(s.hosts, h, p, Sent(reading)), queue := s.queue + [PortDone(h, PortResult(p, reading))])
    case Gathered(h) =>
      && h < |s.hosts| && s.hosts[h].task.Gathering? && AllPortsSent(s.hosts[h])
      && s' == s.(hosts := SetTask(s.hosts, h, Ending(true)))
    case GatherRaised(h) =>
      && h < |s.hosts| && s.hosts[h].task.Gathering? && SomeRaised(s.hosts[h].ports)
      && s' == s.(hosts := SetTask(s.hosts, h, Ending(false)))
    case End(h) =>
      && h < |s.hosts| && s.hosts[h].task.Ending? && |s.queue| < cfg.queueLimit
      && (s.hosts[h].task.ok ==> AllPortsSent(s.hosts[h]))
      && s' == s.(hosts := SetTask(s.hosts, h, Ended(s.hosts[h].task.ok)),
                  queue := s.queue + [EndEvent(s.hosts[h], h)])
    case Consume(probes) =>
      && !s.aborted && HostsFinished(s.log) < |cfg.ips| && s.queue != [] && ProbesOf(s.queue[0], probes)
      && s' == s.(log := s.log + [s.queue[0]], queue := s.queue[1..],
                  contacts := s.contacts + ProbeContacts(cfg, s.queue[0], probes))
    case Abort(probes) =>
      && !s.aborted && HostsFinished(s.log) < |cfg.ips| && s.queue != [] && ProbesOf(s.queue[0], probes)
      && s' == s.(hosts := CancelAll(s.hosts), aborted := true,
                  contacts := s.contacts + ProbeContacts(cfg, s.queue[0], probes))
  }

  // ---- the invariant --------------------------------------------------------------------

  /** What a host's task says about its ports, its events and its address. */
  ghost predicate HostOk(cfg: Config, hs: HostState, h: nat, sent: seq<Event>)
    requires h < |cfg.ips|
  {
    && |hs.ports| == cfg.ports
    && Tell(sent, h, Reported) == SumBy(hs.ports, IsSent)
    && Tell(sent, h, Finished) == (if hs.task == Ended(true) then 1 else 0)
    && Tell(sent, h, Errored) == (if hs.task == Ended(false) then 1 else 0)
    && TaskOk(hs) && FailOk(cfg, hs, h)
    && ((hs.task.Gathering? || hs.task == Ending(true) || hs.task == Ended(true)
         || exists i :: 0 <= i < |hs.ports| && !hs.ports[i].Idle?) ==> cfg.Authorized(h))
  }

  predicate TaskOk(hs: HostState) {
    match hs.task
    case Pending => AllIdle(hs.ports)
    case Gathering => forall i :: 0 <= i < |hs.ports| ==> !hs.ports[i].Idle? && !hs.ports[i].Dropped?
    case Ending(ok) => ok ==> AllPortsSent(hs)
    case Ended(ok) => ok ==> AllPortsSent(hs)
    case Cancelled => true
  }

  predicate AllIdle(ports: seq<PortTask>) { forall i :: 0 <= i < |ports| ==> ports[i].Idle? }

  /** Why a host failed: the gate refused it before any port started, or a port raised. */
  predicate FailOk(cfg: Config, hs: HostState, h: nat)
    requires h < |cfg.ips|
  {
    hs.task == Ending(false) || hs.task == Ended(false) ==>
      if cfg.Authorized(h) then SomeRaised(hs.ports) else AllIdle(hs.ports)
  }

  ghost predicate Inv(cfg: Config, s: State) {
    && |s.hosts| == |cfg.ips|
    && (forall h :: 0 <= h < |s.hosts| ==> HostOk(cfg, s.hosts[h], h, s.AllSent()))
    && LogOk(s.AllSent(), |cfg.ips|, cfg.ports)
    && Scans(s.hosts) <= cfg.hostLimit && Connects(s.hosts) <= cfg.connectLimit && |s.queue| <= cfg.queueLimit
    && (!s.aborted ==> forall h :: 0 <= h < |s.hosts| ==> !s.hosts[h].task.Cancelled?)
    && (forall c :: c in s.contacts ==> cfg.guard.AssertAuthorized(AddressText(c.addr)).Ok?)
  }

  lemma InitInv(cfg: Config)
    ensures Inv(cfg, Init(cfg))
  {
    var s := Init(cfg);
    forall h | 0 <= h < |s.hosts| ensures HostOk(cfg, s.hosts[h], h, []) {
      SumConst(s.hosts[h].ports, IsSent, 0);
      SumConst(s.hosts[h].ports, IsConnecting, 0);
    }
    SumConst(s.hosts, InScan, 0);
    forall h | 0 <= h < |s.hosts| ensures ConnectsOf(s.hosts[h]) == 0 {
      SumConst(s.hosts[h].ports, IsConnecting, 0);
    }
    SumConst(s.hosts, ConnectsOf, 0);
  }

  // ---- every step keeps the invariant -----------------------------------------------------

  /** An event of host `h` leaves the facts of every other host alone. */
  lemma {:induction false} OtherHosts(cfg: Config, hosts: seq<HostState>, h: nat, sent: seq<Event>, e: Event)
    requires |hosts| == |cfg.ips| && e.host == h
    ensures forall k :: 0 <= k < |hosts| && k != h && HostOk(cfg, hosts[k], k, sent) ==>
                        HostOk(cfg, hosts[k], k, sent + [e])
  {
    forall k | 0 <= k < |hosts| && k != h && HostOk(cfg, hosts[k], k, sent)
      ensures HostOk(cfg, hosts[k], k, sent + [e])
    {
      TellSnoc(sent, e, k, Reported);
      TellSnoc(sent, e, k, Finished);
      TellSnoc(sent, e, k, Errored);
    }
  }

  lemma HostChanged(hosts: seq<HostState>, h: nat, hs: HostState)
    requires h < |hosts|
    ensures Scans(hosts[h := hs]) + InScan(hosts[h]) == Scans(hosts) + InScan(hs)
    ensures Connects(hosts[h := hs]) + ConnectsOf(hosts[h]) == Connects(hosts) + ConnectsOf(hs)
  {
    SumUpdate(hosts, InScan, h, hs);
    SumUpdate(hosts, ConnectsOf, h, hs);
  }

  lemma PortChanged(ports: seq<PortTask>, p: nat, t: PortTask)
    requires p < |ports|
    ensures SumBy(ports[p := t], IsSent) + IsSent(ports[p]) == SumBy(ports, IsSent) + IsSent(t)
    ensures SumBy(ports[p := t], IsConnecting) + IsConnecting(ports[p]) == SumBy(ports, IsConnecting) + IsConnecting(t)
  {
    SumUpdate(ports, IsSent, p, t);
    SumUpdate(ports, IsConnecting, p, t);
  }

  /** One host has moved, sending at most one event: what is left to check is that host. */
  lemma {:induction false} OneHostInv(cfg: Config, s: State, h: nat, hs: HostState, e: Option<Event>, s': State)
    requires Inv(cfg, s) && h < |s.hosts| && (hs.task.Cancelled? ==> s.aborted)
    requires s'.hosts == s.hosts[h := hs] && s'.log == s.log && s'.aborted == s.aborted
    requires s'.queue == s.queue + if e.Some? then [e.value] else []
    requires e.Some? ==> |s.queue| < cfg.queueLimit && e.value.host == h
                         && MayFollow(s.AllSent(), e.value, |cfg.ips|, cfg.ports)
    requires HostOk(cfg, hs, h, s.AllSent() + if e.Some? then [e.value] else [])
    requires Scans(s'.hosts) <= cfg.hostLimit && Connects(s'.hosts) <= cfg.connectLimit
    requires forall c :: c in s'.contacts ==> cfg.guard.AssertAuthorized(AddressText(c.addr)).Ok?
    ensures Inv(cfg, s')
  {
    var sent := s.AllSent();
    if e.Some? {
      assert s'.AllSent() == sent + [e.value];
      OkSnoc(sent, e.value, |cfg.ips|, cfg.ports);
      OtherHosts(cfg, s.hosts, h, sent, e.value);
    } else {
      assert s'.AllSent() == sent == sent + [];
    }
  }

  function StartHost(cfg: Config, h: nat, hs: HostState): HostState
    requires h < |cfg.ips|
  {
    if cfg.Authorized(h) then HostState(Gathering, Repeat(cfg.ports, Waiting)) else hs.(task := Ending(false))
  }

  lemma HostStarts(cfg: Config, hs: HostState, h: nat, sent: seq<Event>)
    requires h < |cfg.ips| && HostOk(cfg, hs, h, sent) && hs.task.Pending?
    ensures HostOk(cfg, StartHost(cfg, h, hs), h, sent)
    ensures ConnectsOf(StartHost(cfg, h, hs)) == 0
  {
    SumConst(hs.ports, IsSent, 0);
    SumConst(hs.ports, IsConnecting, 0);
    SumConst(Repeat(cfg.ports, Waiting), IsSent, 0);
    SumConst(Repeat(cfg.ports, Waiting), IsConnecting, 0);
  }

  lemma {:induction false} StartInv(cfg: Config, s: State, h: nat, s': State)
    requires Inv(cfg, s) && Next(cfg, s, Start(h), s')
    ensures Inv(cfg, s')
  {
    assert HostOk(cfg, s.hosts[h], h, s.AllSent());
    HostStarts(cfg, s.hosts[h], h, s.AllSent());
    HostChanged(s.hosts, h, s'.hosts[h]);
    assert s.AllSent() + [] == s.AllSent();
    OneHostInv(cfg, s, h, s'.hosts[h], None, s');
  }

  /** A port that is neither idle, sent nor raised may move on without an event. */
  lemma {:induction false} PortMoves(cfg: Config, hs: HostState, h: nat, p: nat, t: PortTask, sent: seq<Event>)
    requires h < |cfg.ips| && HostOk(cfg, hs, h, sent) && p < |hs.ports|
    requires !hs.ports[p].Idle? && !hs.ports[p].Sent? && !hs.ports[p].Raised?
    requires !t.Idle? && !t.Sent? && !t.Dropped?
    ensures HostOk(cfg, hs.(ports := hs.ports[p := t]), h, sent)
  {
    PortChanged(hs.ports, p, t);
    RaisedStays(hs.ports, p, t);
  }

  lemma RaisedStays(ports: seq<PortTask>, p: nat, t: PortTask)
    requires p < |ports| && !ports[p].Idle? && !ports[p].Raised?
    ensures SomeRaised(ports) ==> SomeRaised(ports[p := t])
  {
    if i :| 0 <= i < |ports| && ports[i].Raised? { assert ports[p := t][i].Raised?; }
  }

  /** Getting a token, connecting and settling send no event. */
  lemma {:induction false} PortStepInv(cfg: Config, s: State, h: nat, p: nat, t: PortTask, s': State)
    requires Inv(cfg, s) && HasPort(s, h, p) && s'.hosts == SetPort(s.hosts, h, p, t)
    requires s' == s.(hosts := s'.hosts, contacts := s'.contacts)
    requires s.hosts[h].ports[p].Waiting? || s.hosts[h].ports[p].Ready? || s.hosts[h].ports[p].Connecting?
    requires t.Ready? || t.Holding? || t.Raised? || (t.Connecting? && Connects(s.hosts) < cfg.connectLimit)
    requires s'.contacts == s.contacts || s'.contacts == s.contacts + {Contact(cfg.ips[h], p)}
    ensures Inv(cfg, s')
  {
    HostChanged(s.hosts, h, s'.hosts[h]);
    PortChanged(s.hosts[h].ports, p, t);
    assert HostOk(cfg, s.hosts[h], h, s.AllSent());
    PortMoves(cfg, s.hosts[h], h, p, t, s.AllSent());
    assert s.AllSent() + [] == s.AllSent();
    OneHostInv(cfg, s, h, s'.hosts[h], None, s');
  }

  /** A port that has not been sent keeps the sent count below the number of ports, and a
      raised one beside it keeps it below that even after the first is sent. */
  lemma {:induction false} UnsentBound(ports: seq<PortTask>, p: nat)
    requires p < |ports| && !ports[p].Sent?
    ensures SumBy(ports, IsSent) < |ports|
    ensures SomeRaised(ports) && !ports[p].Raised? ==> SumBy(ports, IsSent) + 1 < |ports|
  {
    SumConst(ports[p := Sent(Reading(Open, 0))], IsSent, 1);
    PortChanged(ports, p, Sent(Reading(Open, 0)));
    if i :| 0 <= i < |ports| && ports[i].Raised? && !ports[p].Raised? {
      var more := ports[p := Sent(Reading(Open, 0))];
      SumConst(more[i := Sent(Reading(Open, 0))], IsSent, 1);
      PortChanged(more, i, Sent(Reading(Open, 0)));
    }
  }

  lemma {:induction false} HostSends(hs: HostState, h: nat, sent: seq<Event>, e: Event)
    requires e.host == h
    ensures forall f :: Tell(sent + [e], h, f) == Tell(sent, h, f) + if Counts(e, h, f) then 1 else 0
  {
    forall f ensures Tell(sent + [e], h, f) == Tell(sent, h, f) + if Counts(e, h, f) then 1 else 0 {
      TellSnoc(sent, e, h, f);
    }
  }

  lemma {:induction false} ReportInv(cfg: Config, s: State, h: nat, p: nat, s': State)
    requires Inv(cfg, s) && Next(cfg, s, Report(h, p), s')
    ensures Inv(cfg, s')
  {
    var hs, st, sent := s.hosts[h], s.hosts[h].ports[p].reading, s.AllSent();
    var e := PortDone(h, PortResult(p, st));
    assert HostOk(cfg, hs, h, sent);
    HostChanged(s.hosts, h, s'.hosts[h]);
    PortSent(cfg, hs, h, p, sent);
    OneHostInv(cfg, s, h, s'.hosts[h], Some(e), s');
  }

  lemma {:induction false} PortSent(cfg: Config, hs: HostState, h: nat, p: nat, sent: seq<Event>)
    requires h < |cfg.ips| && HostOk(cfg, hs, h, sent) && p < |hs.ports| && hs.ports[p].Holding?
    ensures var e := PortDone(h, PortResult(p, hs.ports[p].reading));
            var hs' := hs.(ports := hs.ports[p := Sent(hs.ports[p].reading)]);
            && MayFollow(sent, e, |cfg.ips|, cfg.ports) && HostOk(cfg, hs', h, sent + [e])
            && ConnectsOf(hs') == ConnectsOf(hs)
  {
    var st := hs.ports[p].reading;
    PortChanged(hs.ports, p, Sent(st));
    RaisedStays(hs.ports, p, Sent(st));
    UnsentBound(hs.ports, p);
    HostSends(hs, h, sent, PortDone(h, PortResult(p, st)));
  }

  lemma {:induction false} GatherInv(cfg: Config, s: State, h: nat, ok: bool, s': State)
    requires Inv(cfg, s) && Next(cfg, s, if ok then Gathered(h) else GatherRaised(h), s')
    ensures Inv(cfg, s')
  {
    HostChanged(s.hosts, h, s'.hosts[h]);
    assert HostOk(cfg, s.hosts[h], h, s.AllSent());
    assert s.AllSent() + [] == s.AllSent();
    OneHostInv(cfg, s, h, s'.hosts[h], None, s');
  }

  lemma {:induction false} EndInv(cfg: Config, s: State, h: nat, s': State)
    requires Inv(cfg, s) && Next(cfg, s, End(h), s')
    ensures Inv(cfg, s')
  {
    var hs := s.hosts[h];
    assert HostOk(cfg, hs, h, s.AllSent());
    HostChanged(s.hosts, h, s'.hosts[h]);
    HostEnds(cfg, hs, h, s.AllSent());
    OneHostInv(cfg, s, h, s'.hosts[h], Some(EndEvent(hs, h)), s');
  }

  function EndEvent(hs: HostState, h: nat): Event
    requires hs.task.Ending? && (hs.task.ok ==> AllPortsSent(hs))
  {
    if hs.task.ok then HostDone(h, Results(hs.ports)) else HostFailed(h)
  }

  lemma {:induction false} HostEnds(cfg: Config, hs: HostState, h: nat, sent: seq<Event>)
    requires h < |cfg.ips| && HostOk(cfg, hs, h, sent) && hs.task.Ending?
    ensures var e := EndEvent(hs, h);
            && MayFollow(sent, e, |cfg.ips|, cfg.ports)
            && HostOk(cfg, hs.(task := Ended(hs.task.ok)), h, sent + [e])
  {
    if hs.task.ok {
      SumConst(hs.ports, IsSent, 1);
    } else if hs.ports != [] {
      var p :| 0 <= p < |hs.ports| && !hs.ports[p].Sent?;
      UnsentBound(hs.ports, p);
    }
    HostSends(hs, h, sent, EndEvent(hs, h));
  }

  lemma {:induction false} DoneWasSent(log: seq<Event>, i: nat, h: nat)
    requires i < |log| && log[i].HostDone? && log[i].host == h
    ensures Tell(log, h, Finished) > 0
  {
    if i < |log| - 1 { DoneWasSent(log[..|log| - 1], i, h); }
  }

  lemma {:induction false} HostsBelow(log: seq<Event>, n: nat, p: nat, i: nat)
    requires LogOk(log, n, p) && i < |log|
    ensures log[i].host < n
  {
    if i < |log| - 1 { HostsBelow(log[..|log| - 1], n, p, i); }
  }

  /** Probes go to a host that was scanned, hence to an authorized one. */
  lemma {:induction false} ProbesAuthorized(cfg: Config, s: State, probes: set<nat>)
    requires Inv(cfg, s) && s.queue != [] && ProbesOf(s.queue[0], probes)
    ensures forall c :: c in ProbeContacts(cfg, s.queue[0], probes) ==>
                        cfg.guard.AssertAuthorized(AddressText(c.addr)).Ok?
  {
    var e := s.queue[0];
    assert s.AllSent()[|s.log|] == e;
    HostsBelow(s.AllSent(), |cfg.ips|, cfg.ports, |s.log|);
    assert HostOk(cfg, s.hosts[e.host], e.host, s.AllSent());
    if e.HostDone? {
      DoneWasSent(s.AllSent(), |s.log|, e.host);
      assert cfg.Authorized(e.host);
    }
  }

  lemma {:induction false} ConsumeInv(cfg: Config, s: State, probes: set<nat>, s': State)
    requires Inv(cfg, s) && Next(cfg, s, Consume(probes), s')
    ensures Inv(cfg, s')
  {
    ProbesAuthorized(cfg, s, probes);
    assert s'.AllSent() == s.AllSent();
  }

  lemma {:induction false} DropKeepsSent(ports: seq<PortTask>)
    ensures SumBy(DropAll(ports), IsSent) == SumBy(ports, IsSent)
    ensures SumBy(DropAll(ports), IsConnecting) <= SumBy(ports, IsConnecting)
  {
    if ports != [] {
      DropKeepsSent(ports[..|ports| - 1]);
      assert DropAll(ports)[..|ports| - 1] == DropAll(ports[..|ports| - 1]);
    }
  }

  lemma {:induction false} CancelOk(cfg: Config, hs: HostState, h: nat, sent: seq<Event>)
    requires h < |cfg.ips| && HostOk(cfg, hs, h, sent)
    ensures HostOk(cfg, Cancel(hs), h, sent)
    ensures InScan(Cancel(hs)) <= InScan(hs) && ConnectsOf(Cancel(hs)) <= ConnectsOf(hs)
  {
    DropKeepsSent(hs.ports);
  }

  lemma {:induction false} AbortInv(cfg: Config, s: State, probes: set<nat>, s': State)
    requires Inv(cfg, s) && Next(cfg, s, Abort(probes), s')
    ensures Inv(cfg, s')
  {
    ProbesAuthorized(cfg, s, probes);
    assert s'.AllSent() == s.AllSent();
    forall h | 0 <= h < |s.hosts|
      ensures HostOk(cfg, s'.hosts[h], h, s.AllSent())
      ensures InScan(s'.hosts[h]) <= InScan(s.hosts[h]) && ConnectsOf(s'.hosts[h]) <= ConnectsOf(s.hosts[h])
    {
      CancelOk(cfg, s.hosts[h], h, s.AllSent());
    }
    SumPointwise(s'.hosts, s.hosts, InScan);
    SumPointwise(s'.hosts, s.hosts, ConnectsOf);
  }

  lemma {:induction false} NextInv(cfg: Config, s: State, step: Step, s': State)
    requires Inv(cfg, s) && Next(cfg, s, step, s')
    ensures Inv(cfg, s')
  {
    match step
    case Start(h) => StartInv(cfg, s, h, s');
    case Acquire(h, p) => PortStepInv(cfg, s, h, p, Ready, s');
    case Connect(h, p) => PortStepInv(cfg, s, h, p, Connecting, s');
    case Settle(h, p, o) => PortStepInv(cfg, s, h, p, if o.Some? then Holding(o.value) else Raised, s');
    case Report(h, p) => ReportInv(cfg, s, h, p, s');
    case Gathered(h) => GatherInv(cfg, s, h, true, s');
    case GatherRaised(h) => GatherInv(cfg, s, h, false, s');
    case End(h) => EndInv(cfg, s, h, s');
    case Consume(probes) => ConsumeInv(cfg, s, probes, s');
    case Abort(probes) => AbortInv(cfg, s, probes, s');
  }

  // ---- runs ------------------------------------------------------------------------------

  ghost predicate StepsTo(cfg: Config, s: State, s': State) {
    exists step :: Next(cfg, s, step, s')
  }

  /** The run's `i`th step is a step of the protocol. */
  ghost predicate StepAt(cfg: Config, run: seq<State>, i: nat)
    requires i + 1 < |run|
  {
    StepsTo(cfg, run[i], run[i + 1])
  }

  ghost predicate IsRun(cfg: Config, run: seq<State>) {
    && run != [] && run[0] == Init(cfg)
    && forall i :: 0 <= i < |run| - 1 ==> StepAt(cfg, run, i)
  }

  lemma {:induction false} RunInv(cfg: Config, run: seq<State>, i: nat)
    requires IsRun(cfg, run) && i < |run|
    ensures Inv(cfg, run[i])
  {
    if i == 0 {
      InitInv(cfg);
    } else {
      RunInv(cfg, run, i - 1);
      assert StepAt(cfg, run, i - 1) && run[i - 1 + 1] == run[i];
      var step :| Next(cfg, run[i - 1], step, run[i]);
      NextInv(cfg, run[i - 1], step, run[i]);
    }
  }

  /** Safety: whatever list of addresses a run is given, every connect and every probe goes to
      an address the run's guard authorizes; and the semaphores and the queue keep their bounds. */
  lemma OnlyAuthorizedContacts(cfg: Config, run: seq<State>, i: nat)
    requires IsRun(cfg, run) && i < |run|
    ensures forall c :: c in run[i].contacts ==> cfg.guard.Admits(c.addr)
    ensures Scans(run[i].hosts) <= cfg.hostLimit && Connects(run[i].hosts) <= cfg.connectLimit
    ensures |run[i].queue| <= cfg.queueLimit
  {
    RunInv(cfg, run, i);
    forall c | c in run[i].contacts ensures cfg.guard.Admits(c.addr) {
      assert cfg.guard.AssertAuthorized(AddressText(c.addr)).Ok?;
    }
  }

  /** The coordinator of any run consumes a stream of the shape the counters rely on. */
  lemma RunLogOk(cfg: Config, run: seq<State>, i: nat)
    requires IsRun(cfg, run) && i < |run|
    ensures LogOk(run[i].log, |cfg.ips|, cfg.ports)
  {
    RunInv(cfg, run, i);
    LogPrefix(cfg, run[i]);
  }

  lemma LogPrefix(cfg: Config, s: State)
    requires Inv(cfg, s)
    ensures LogOk(s.log, |cfg.ips|, cfg.ports)
  {
    PrefixOk(s.AllSent(), |s.log|, |cfg.ips|, cfg.ports);
    assert s.AllSent()[..|s.log|] == s.log;
  }

  lemma {:induction false} TellPrefix(log: seq<Event>, k: nat, h: nat, f: Fact)
    requires k <= |log|
    ensures Tell(log[..k], h, f) <= Tell(log, h, f)
  {
    if k < |log| {
      TellPrefix(log[..|log| - 1], k, h, f);
      assert log[..|log| - 1][..k] == log[..k];
    } else {
      assert log[..k] == log;
    }
  }

  /** A host fails only because the gate refused it before any port started, or because one
      of its ports raised; with a list the guard admits, as of a job planned under it, never
      because of the gate. */
  lemma WhyHostsFail(cfg: Config, run: seq<State>, i: nat, h: nat)
    requires IsRun(cfg, run) && i < |run| && h < |run[i].hosts| == |cfg.ips|
    requires run[i].hosts[h].task == Ended(false)
    ensures if cfg.guard.Admits(cfg.ips[h]) then SomeRaised(run[i].hosts[h].ports) else AllIdle(run[i].hosts[h].ports)
  {
    RunInv(cfg, run, i);
    assert HostOk(cfg, run[i].hosts[h], h, run[i].AllSent());
  }
}
