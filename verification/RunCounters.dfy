/** The progress counters of a scan, which the accumulator keys by address: when they are
    conserved over a run, and when they are not. */
module RunCounters {
  import opened Wrappers
  import opened Guard
  import opened Progress
  import opened Conservation
  import opened ScanRun
  import opened Liveness

  // ---- what the accumulator is told ------------------------------------------------------

  function FirstIndex(ips: seq<Host>, a: Host): (k: nat)
    requires a in ips
    ensures k < |ips| && ips[k] == a && forall j :: 0 <= j < k ==> ips[j] != a
  {
    if ips[0] == a then 0 else 1 + FirstIndex(ips[1..], a)
  }

  /** The first position of the address at position `h`: positions of one address share it. */
  function Key(ips: seq<Host>, h: nat): nat { if h < |ips| then FirstIndex(ips, ips[h]) else h }

  function Named(ips: seq<Host>, e: Event): Event {
    match e
    case PortDone(h, r) => PortDone(Key(ips, h), r)
    case HostDone(h, rs) => HostDone(Key(ips, h), rs)
    case HostFailed(h) => HostFailed(Key(ips, h))
  }

  /** The log with hosts named by address. */
  function Told(ips: seq<Host>, log: seq<Event>): (r: seq<Event>)
    ensures |r| == |log|
  {
    if log == [] then [] else Told(ips, log[..|log| - 1]) + [Named(ips, log[|log| - 1])]
  }

  lemma {:induction false} ToldPrefix(ips: seq<Host>, log: seq<Event>, k: nat)
    requires k <= |log|
    ensures Told(ips, log)[..k] == Told(ips, log[..k])
  {
    if k < |log| {
      ToldPrefix(ips, log[..|log| - 1], k);
      assert log[..|log| - 1][..k] == log[..k];
    } else {
      assert log[..k] == log;
    }
  }

  /** The counters after the coordinator has consumed the log. */
  function Seen(cfg: Config, log: seq<Event>): Counters { Replay(Told(cfg.ips, log), cfg.ports).counters }

  /** No admitted address is listed twice. */
  ghost predicate OnceEach(cfg: Config) {
    forall i, j :: 0 <= i < j < |cfg.ips| && cfg.ips[i] == cfg.ips[j] ==> !cfg.guard.Admits(cfg.ips[i])
  }

  /** Only admitted hosts report ports or results. */
  ghost predicate LogAdmitted(cfg: Config, log: seq<Event>) {
    forall i :: 0 <= i < |log| ==>
      log[i].host < |cfg.ips| && (log[i].HostFailed? || cfg.guard.Admits(cfg.ips[log[i].host]))
  }

  lemma {:induction false} ReportWasSent(log: seq<Event>, i: nat, h: nat)
    requires i < |log| && log[i].PortDone? && log[i].host == h
    ensures Tell(log, h, Reported) > 0
  {
    if i < |log| - 1 { ReportWasSent(log[..|log| - 1], i, h); }
  }

  lemma {:induction false} SentPort(ports: seq<PortTask>) returns (p: nat)
    requires SumBy(ports, IsSent) > 0
    ensures p < |ports| && ports[p].Sent?
  {
    p := |ports| - 1;
    if !ports[p].Sent? { p := SentPort(ports[..|ports| - 1]); }
  }

  lemma SentAdmitted(cfg: Config, s: State)
    requires Inv(cfg, s)
    ensures LogAdmitted(cfg, s.AllSent()) && LogAdmitted(cfg, s.log)
  {
    var sent := s.AllSent();
    forall i | 0 <= i < |sent|
      ensures sent[i].host < |cfg.ips| && (sent[i].HostFailed? || cfg.guard.Admits(cfg.ips[sent[i].host]))
    {
      HostsBelow(sent, |cfg.ips|, cfg.ports, i);
      var h := sent[i].host;
      assert HostOk(cfg, s.hosts[h], h, sent);
      if sent[i].PortDone? {
        ReportWasSent(sent, i, h);
        var p := SentPort(s.hosts[h].ports);
        assert cfg.Authorized(h);
      } else if sent[i].HostDone? {
        DoneWasSent(sent, i, h);
        assert cfg.Authorized(h);
      }
    }
    assert forall i :: 0 <= i < |s.log| ==> sent[i] == s.log[i];
  }

  // ---- where addresses are not repeated, names do not matter ---------------------------------

  lemma {:induction false} SeenIsReplay(cfg: Config, log: seq<Event>)
    requires OnceEach(cfg) && LogAdmitted(cfg, log)
    ensures Seen(cfg, log) == Replay(log, cfg.ports).counters
  {
    if log != [] {
      var front, e := log[..|log| - 1], log[|log| - 1];
      SeenIsReplay(cfg, front);
      assert Told(cfg.ips, log)[..|log| - 1] == Told(cfg.ips, front);
      assert !e.HostFailed? ==> Key(cfg.ips, e.host) == e.host;
    }
  }

  lemma {:induction false} EndsCounted(cfg: Config, log: seq<Event>)
    ensures Seen(cfg, log).hostsAnalyzed + Seen(cfg, log).errors == HostsFinished(log)
    ensures Seen(cfg, log).errors == Replay(log, cfg.ports).counters.errors
    ensures SumStates(Seen(cfg, log)) == Seen(cfg, log).portsScanned
  {
    if log != [] {
      var front, e := log[..|log| - 1], log[|log| - 1];
      EndsCounted(cfg, front);
      assert Told(cfg.ips, log)[..|log| - 1] == Told(cfg.ips, front);
      if e.PortDone? { StatesStep(Seen(cfg, front), e.result.reading.state); }
    }
  }

  // ---- no ports: only errors count as scanned -------------------------------------------------

  /** With an empty port list a host is counted scanned exactly if it failed. */
  lemma {:induction false} NoPortsSeen(cfg: Config, log: seq<Event>)
    requires cfg.ports == 0 && LogOk(log, |cfg.ips|, 0)
    ensures Seen(cfg, log).hostsScanned == Seen(cfg, log).errors && Seen(cfg, log).portsScanned == 0
  {
    if log != [] {
      var front := log[..|log| - 1];
      NoPortsSeen(cfg, front);
      assert Told(cfg.ips, log)[..|log| - 1] == Told(cfg.ips, front);
    }
  }

  /** The condition a caller can establish before the scan. */
  ghost predicate CountsSafely(cfg: Config) {
    if cfg.ports == 0 then NoneAdmitted(cfg) else OnceEach(cfg)
  }

  predicate OnlyFailures(log: seq<Event>) { forall i :: 0 <= i < |log| ==> log[i].HostFailed? }

  /** Where no host reports anything, exactly the failed hosts count as scanned. */
  lemma {:induction false} FailuresSeen(cfg: Config, log: seq<Event>)
    requires OnlyFailures(log)
    ensures var c := Seen(cfg, log); c.hostsAnalyzed == 0 == c.portsScanned && c.hostsScanned == c.errors
  {
    if log != [] {
      var front := log[..|log| - 1];
      FailuresSeen(cfg, front);
      assert Told(cfg.ips, log)[..|log| - 1] == Told(cfg.ips, front);
    }
  }

  lemma FinishedAtMost(log: seq<Event>, n: nat, p: nat)
    requires LogOk(log, n, p)
    ensures HostsFinished(log) <= n
  {
    FinishedIsSum(log, n, p);
    Pigeonhole(log, n, p, n);
  }

  lemma FailuresConserved(cfg: Config, log: seq<Event>)
    requires OnlyFailures(log) && LogOk(log, |cfg.ips|, cfg.ports)
    ensures Conserved(Seen(cfg, log), |cfg.ips|, cfg.ports)
  {
    FailuresSeen(cfg, log);
    EndsCounted(cfg, log);
    FinishedAtMost(log, |cfg.ips|, cfg.ports);
    OnlyErrors(Seen(cfg, log), |cfg.ips|, cfg.ports);
  }

  lemma OnlyErrors(c: Counters, n: nat, p: nat)
    requires c.hostsAnalyzed == 0 && c.hostsScanned == c.errors <= n && SumStates(c) == c.portsScanned == 0
    ensures Conserved(c, n, p)
  {
    assert 0 <= n * p;
  }

  lemma NoneAdmittedOnlyFail(cfg: Config, log: seq<Event>)
    requires NoneAdmitted(cfg) && LogAdmitted(cfg, log)
    ensures OnlyFailures(log)
  {
    forall i | 0 <= i < |log| ensures log[i].HostFailed? {
      assert !cfg.guard.Admits(cfg.ips[log[i].host]);
    }
  }

  /** Conservation for every log of the shape the coordinator consumes. */
  lemma SeenConserved(cfg: Config, log: seq<Event>)
    requires CountsSafely(cfg) && LogOk(log, |cfg.ips|, cfg.ports) && LogAdmitted(cfg, log)
    ensures Conserved(Seen(cfg, log), |cfg.ips|, cfg.ports)
  {
    if cfg.ports > 0 {
      SeenIsReplay(cfg, log);
      ProgressConserved(log, |cfg.ips|, cfg.ports);
    } else {
      NoneAdmittedOnlyFail(cfg, log);
      FailuresConserved(cfg, log);
    }
  }

  /** Conservation, in every reachable state. */
  lemma RunConserves(cfg: Config, run: seq<State>, i: nat)
    requires IsRun(cfg, run) && i < |run| && CountsSafely(cfg)
    ensures Conserved(Seen(cfg, run[i].log), |cfg.ips|, cfg.ports)
  {
    RunInv(cfg, run, i);
    StateConserves(cfg, run[i]);
  }

  lemma StateConserves(cfg: Config, s: State)
    requires Inv(cfg, s) && CountsSafely(cfg)
    ensures Conserved(Seen(cfg, s.log), |cfg.ips|, cfg.ports)
  {
    LogPrefix(cfg, s);
    SentAdmitted(cfg, s);
    SeenConserved(cfg, s.log);
  }

  // ---- normal completion -----------------------------------------------------------------------

  /** When the drain loop ends every host task has already ended, so the final `gather` has
      nothing to wait for. */
  lemma DrainedRunIsComplete(cfg: Config, s: State)
    requires Inv(cfg, s) && HostsFinished(s.log) == |cfg.ips|
    ensures forall h :: 0 <= h < |s.hosts| ==> s.hosts[h].task.Ended? && Ends(s.log, h) == 1
  {
    LogPrefix(cfg, s);
    FinishedIsSum(s.log, |cfg.ips|, cfg.ports);
    Pigeonhole(s.log, |cfg.ips|, cfg.ports, |cfg.ips|);
    forall h | 0 <= h < |s.hosts| ensures s.hosts[h].task.Ended? && Ends(s.log, h) == 1 {
      assert HostOk(cfg, s.hosts[h], h, s.AllSent());
      assert Ends(s.log, h) == 1;
      TellPrefix(s.AllSent(), |s.log|, h, Finished);
      TellPrefix(s.AllSent(), |s.log|, h, Errored);
      assert s.AllSent()[..|s.log|] == s.log;
    }
  }

  /** And then the counters are exact. */
  lemma DrainedCountersExact(cfg: Config, s: State)
    requires Inv(cfg, s) && HostsFinished(s.log) == |cfg.ips| && cfg.ports > 0 && OnceEach(cfg)
    ensures var c := Seen(cfg, s.log);
            && c.hostsAnalyzed + c.errors == c.hostsScanned == |cfg.ips|
            && (c.errors == 0 ==> c.portsScanned == |cfg.ips| * cfg.ports)
  {
    DrainedRunIsComplete(cfg, s);
    LogPrefix(cfg, s);
    SentAdmitted(cfg, s);
    SeenIsReplay(cfg, s.log);
    CompletionExact(s.log, |cfg.ips|, cfg.ports);
  }

  // ---- and otherwise they are not conserved ------------------------------------------------------

  /** A run to the end: every host has ended, admitted ones with a result unless one of their
      ports was to raise. */
  lemma CompleteRun(cfg: Config, f: Outcomes) returns (run: seq<State>, s: State)
    requires CanWork(cfg)
    ensures LeadsTo(cfg, run, s) && Inv(cfg, s) && Follows(s, f) && HostsFinished(s.log) == |cfg.ips|
  {
    run, s := FinalState(cfg, f);
    if Unfinished(cfg, s) { NeverStuck(cfg, s); }
    LogPrefix(cfg, s);
    FinishedIsSum(s.log, |cfg.ips|, cfg.ports);
    Pigeonhole(s.log, |cfg.ips|, cfg.ports, |cfg.ips|);
  }

  lemma NoErrorAdmitted(cfg: Config, s: State, f: Outcomes, h: nat)
    requires Inv(cfg, s) && Follows(s, f) && h < |cfg.ips| && cfg.guard.Admits(cfg.ips[h])
    requires forall p: nat :: p < cfg.ports ==> f(h, p).Some?
    ensures Tell(s.log, h, Errored) == 0
  {
    assert HostOk(cfg, s.hosts[h], h, s.AllSent());
    assert cfg.Authorized(h) && !SomeRaised(s.hosts[h].ports);
    TellPrefix(s.AllSent(), |s.log|, h, Errored);
    assert s.AllSent()[..|s.log|] == s.log;
  }

  lemma {:induction false} AnalyzedAtLeast(cfg: Config, log: seq<Event>, h: nat)
    ensures Tell(log, h, Finished) <= Seen(cfg, log).hostsAnalyzed
  {
    if log != [] {
      AnalyzedAtLeast(cfg, log[..|log| - 1], h);
      assert Told(cfg.ips, log)[..|log| - 1] == Told(cfg.ips, log[..|log| - 1]);
    }
  }

  /** The number of names below `m` with at least `p` reported ports. */
  function Reached(log: seq<Event>, p: nat, m: nat): nat {
    if m == 0 then 0 else Reached(log, p, m - 1) + if Tell(log, m - 1, Reported) >= p then 1 else 0
  }

  lemma {:induction false} ReachedStep(log: seq<Event>, e: Event, p: nat, m: nat)
    ensures Reached(log + [e], p, m) == Reached(log, p, m) +
            if e.PortDone? && e.host < m && Tell(log, e.host, Reported) + 1 == p then 1 else 0
  {
    if m > 0 {
      ReachedStep(log, e, p, m - 1);
      TellSnoc(log, e, m - 1, Reported);
    }
  }

  lemma {:induction false} ReachedNothing(p: nat, m: nat)
    requires p > 0
    ensures Reached([], p, m) == 0
  {
    if m > 0 { ReachedNothing(p, m - 1); }
  }

  /** For any log at all, `hosts_scanned` is errors plus names that have reported `p` ports. */
  lemma {:induction false} ScannedIsReached(log: seq<Event>, p: nat, m: nat)
    requires p > 0 && forall i :: 0 <= i < |log| ==> log[i].host < m
    ensures var c := Replay(log, p).counters; c.hostsScanned == c.errors + Reached(log, p, m)
    ensures forall h: nat :: Count(Replay(log, p).counters.hostPorts, h) == Tell(log, h, Reported)
  {
    if log == [] {
      ReachedNothing(p, m);
    } else {
      var front, e := log[..|log| - 1], log[|log| - 1];
      assert log == front + [e];
      ScannedIsReached(front, p, m);
      ReachedStep(front, e, p, m);
    }
  }

  lemma {:induction false} ToldBelow(ips: seq<Host>, log: seq<Event>)
    requires forall i :: 0 <= i < |log| ==> log[i].host < |ips|
    ensures forall i :: 0 <= i < |log| ==> Told(ips, log)[i].host < |ips|
  {
    if log != [] { ToldBelow(ips, log[..|log| - 1]); }
  }

  /** A name with reported ports is the first position of an admitted address. */
  lemma {:induction false} ReportedName(cfg: Config, log: seq<Event>, k: nat)
    requires LogAdmitted(cfg, log) && Tell(Told(cfg.ips, log), k, Reported) > 0
    ensures k < |cfg.ips| && Key(cfg.ips, k) == k && cfg.guard.Admits(cfg.ips[k])
  {
    var front, e := log[..|log| - 1], log[|log| - 1];
    assert Told(cfg.ips, log)[..|log| - 1] == Told(cfg.ips, front);
    if Tell(Told(cfg.ips, front), k, Reported) > 0 {
      ReportedName(cfg, front, k);
    } else {
      assert k == Key(cfg.ips, e.host) && cfg.ips[k] == cfg.ips[e.host];
    }
  }

  lemma ScannedAt(cfg: Config, log: seq<Event>, h: nat, j: nat)
    requires cfg.ports > 0 && h < |cfg.ips| && j < |cfg.ips|
    requires LogOk(log, |cfg.ips|, cfg.ports) && LogAdmitted(cfg, log)
    requires cfg.guard.Admits(cfg.ips[j]) && Key(cfg.ips, j) != j
    requires cfg.guard.Admits(cfg.ips[h]) ==> Tell(log, h, Errored) == 0
    ensures (if Tell(Told(cfg.ips, log), h, Reported) >= cfg.ports then 1 else 0)
            + Tell(log, h, Errored) + (if h == j then 1 else 0) <= 1
  {
    HostFacts(log, |cfg.ips|, cfg.ports, h);
    if Tell(Told(cfg.ips, log), h, Reported) > 0 { ReportedName(cfg, log, h); }
  }

  /** Each position adds at most one to `hosts_scanned`, a repeated admitted one nothing. */
  lemma {:induction false} ScannedBelow(cfg: Config, log: seq<Event>, m: nat, j: nat)
    requires cfg.ports > 0 && m <= |cfg.ips| && j < |cfg.ips|
    requires LogOk(log, |cfg.ips|, cfg.ports) && LogAdmitted(cfg, log)
    requires cfg.guard.Admits(cfg.ips[j]) && Key(cfg.ips, j) != j
    requires forall h :: 0 <= h < |cfg.ips| && cfg.guard.Admits(cfg.ips[h]) ==> Tell(log, h, Errored) == 0
    ensures Reached(Told(cfg.ips, log), cfg.ports, m) + Total(log, m, cfg.ports, Some(Errored)) + (if j < m then 1 else 0) <= m
  {
    if m > 0 {
      ScannedBelow(cfg, log, m - 1, j);
      ScannedAt(cfg, log, m - 1, j);
    }
  }

  lemma RepeatedBreaks(cfg: Config, s: State, i: nat, j: nat)
    requires Inv(cfg, s) && HostsFinished(s.log) == |cfg.ips| && cfg.ports > 0
    requires forall h :: 0 <= h < |cfg.ips| && cfg.guard.Admits(cfg.ips[h]) ==> Tell(s.log, h, Errored) == 0
    requires i < j < |cfg.ips| && cfg.ips[i] == cfg.ips[j] && cfg.guard.Admits(cfg.ips[i])
    ensures !Conserved(Seen(cfg, s.log), |cfg.ips|, cfg.ports)
  {
    LogPrefix(cfg, s);
    SentAdmitted(cfg, s);
    ScannedBelow(cfg, s.log, |cfg.ips|, j);
    CountersBalance(s.log, |cfg.ips|, cfg.ports);
    ToldBelow(cfg.ips, s.log);
    ScannedIsReached(Told(cfg.ips, s.log), cfg.ports, |cfg.ips|);
    EndsCounted(cfg, s.log);
  }

  lemma NoPortsBreaks(cfg: Config, s: State, h: nat)
    requires Inv(cfg, s) && HostsFinished(s.log) == |cfg.ips| && cfg.ports == 0
    requires h < |cfg.ips| && Tell(s.log, h, Errored) == 0
    ensures !Conserved(Seen(cfg, s.log), |cfg.ips|, cfg.ports)
  {
    LogPrefix(cfg, s);
    DrainedRunIsComplete(cfg, s);
    AnalyzedAtLeast(cfg, s.log, h);
    NoPortsSeen(cfg, s.log);
    assert Ends(s.log, h) == 1;
  }

  // ---- scans that cannot get through count nothing but failures -----------------------------------

  lemma RunStep(cfg: Config, run: seq<State>, i: nat)
    requires IsRun(cfg, run) && 0 < i < |run|
    ensures StepsTo(cfg, run[i - 1], run[i])
  {
    assert StepAt(cfg, run, i - 1);
  }

  lemma NoFirstStep(cfg: Config)
    requires cfg.hostLimit == 0
    ensures forall s :: !StepsTo(cfg, Init(cfg), s)
  {
  }

  /** With a host limit of zero nothing ever happens. */
  lemma {:induction false} NothingHappens(cfg: Config, run: seq<State>, i: nat)
    requires cfg.hostLimit == 0 && IsRun(cfg, run) && i < |run|
    ensures run[i] == Init(cfg)
  {
    if i > 0 {
      NothingHappens(cfg, run, i - 1);
      NoFirstStep(cfg);
      RunStep(cfg, run, i);
    }
  }

  lemma StillOnlyFails(cfg: Config, s: State)
    requires Inv(cfg, s) && AllStill(cfg, s) && cfg.ports > 0
    ensures OnlyFailures(s.log)
  {
    var sent := s.AllSent();
    forall i | 0 <= i < |s.log| ensures s.log[i].HostFailed? {
      assert sent[i] == s.log[i];
      HostsBelow(sent, |cfg.ips|, cfg.ports, i);
      var h := sent[i].host;
      assert HostOk(cfg, s.hosts[h], h, sent);
      NoneSent(cfg, s, h);
      if sent[i].PortDone? { ReportWasSent(sent, i, h); }
      if sent[i].HostDone? { DoneWasSent(sent, i, h); }
    }
  }

  lemma NoneSent(cfg: Config, s: State, h: nat)
    requires Inv(cfg, s) && AllStill(cfg, s) && cfg.ports > 0 && h < |cfg.ips|
    ensures Tell(s.AllSent(), h, Reported) == 0 == Tell(s.AllSent(), h, Finished)
  {
    var hs := s.hosts[h];
    assert HostOk(cfg, hs, h, s.AllSent());
    assert Still(cfg, hs.ports[0]);
    assert !AllPortsSent(hs);
    SumConst(hs.ports, IsSent, 0);
  }

  lemma StuckConserves(cfg: Config, run: seq<State>, s: State)
    requires LeadsTo(cfg, run, s) && !CanWork(cfg)
    ensures Conserved(Seen(cfg, s.log), |cfg.ips|, cfg.ports)
  {
    LastInv(cfg, run, s);
    if cfg.hostLimit == 0 {
      NothingHappens(cfg, run, |run| - 1);
    } else {
      RunStill(cfg, run, |run| - 1);
      StillOnlyFails(cfg, s);
    }
    LogPrefix(cfg, s);
    FailuresConserved(cfg, s.log);
  }

  lemma AlwaysConserved(cfg: Config, s: State)
    requires Reachable(cfg, s) && (CountsSafely(cfg) || !CanWork(cfg))
    ensures Conserved(Seen(cfg, s.log), |cfg.ips|, cfg.ports)
  {
    var run :| LeadsTo(cfg, run, s);
    if CountsSafely(cfg) {
      LastInv(cfg, run, s);
      StateConserves(cfg, s);
    } else {
      StuckConserves(cfg, run, s);
    }
  }

  /** Exactly when the counters of a scan are conserved in every reachable state: with ports, if no
      admitted address is listed twice; without, if no listed address is admitted at all; and in a
      scan that cannot get through, which counts nothing but failures. */
  lemma ConservedIff(cfg: Config)
    ensures (forall s :: Reachable(cfg, s) ==> Conserved(Seen(cfg, s.log), |cfg.ips|, cfg.ports))
            <==> CountsSafely(cfg) || !CanWork(cfg)
  {
    if CountsSafely(cfg) || !CanWork(cfg) {
      forall s | Reachable(cfg, s) ensures Conserved(Seen(cfg, s.log), |cfg.ips|, cfg.ports) {
        AlwaysConserved(cfg, s);
      }
    } else {
      var s := SomeStateBreaks(cfg);
    }
  }

  lemma SomeStateBreaks(cfg: Config) returns (s: State)
    requires CanWork(cfg) && !CountsSafely(cfg)
    ensures Reachable(cfg, s) && !Conserved(Seen(cfg, s.log), |cfg.ips|, cfg.ports)
  {
    var run;
    var f: Outcomes := (h, p) => Some(Reading(Open, 0));
    run, s := CompleteRun(cfg, f);
    forall h | 0 <= h < |cfg.ips| && cfg.guard.Admits(cfg.ips[h]) ensures Tell(s.log, h, Errored) == 0 {
      NoErrorAdmitted(cfg, s, f, h);
    }
    if cfg.ports == 0 {
      var h :| 0 <= h < |cfg.ips| && cfg.guard.Admits(cfg.ips[h]);
      NoPortsBreaks(cfg, s, h);
    } else {
      var i, j :| 0 <= i < j < |cfg.ips| && cfg.ips[i] == cfg.ips[j] && cfg.guard.Admits(cfg.ips[i]);
      RepeatedBreaks(cfg, s, i, j);
    }
  }

  /** One admitted address listed twice, one port: some reachable counters are wrong. */
  lemma TwiceListed(cfg: Config, a: Host)
    requires cfg.ips == [a, a] && cfg.ports == 1 && cfg.guard.Admits(a) && CanWork(cfg)
    ensures exists s :: Reachable(cfg, s) && !Conserved(Seen(cfg, s.log), 2, 1)
  {
    assert cfg.ips[0] == cfg.ips[1];
    ConservedIff(cfg);
  }

  /** One admitted address and no ports, likewise. */
  lemma NothingToScan(cfg: Config, a: Host)
    requires cfg.ips == [a] && cfg.ports == 0 && cfg.guard.Admits(a) && cfg.hostLimit > 0
    ensures exists s :: Reachable(cfg, s) && !Conserved(Seen(cfg, s.log), 1, 0)
  {
    assert cfg.ips[0] == a;
    ConservedIff(cfg);
  }
}
