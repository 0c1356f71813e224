/** How long runs of a scan last, and when they can get stuck. */
module Liveness {
  import opened Wrappers
  import opened Progress
  import opened Conservation
  import opened ScanRun
  import RateLimit

  // ---- termination: every step lowers a rank ---------------------------------------------

  function PortRank(p: PortTask): nat {
    match p
    case Idle => 5 case Waiting => 5 case Ready => 4 case Connecting => 3 case Holding(_) => 2
    case _ => 0
  }

  function TaskRank(t: HostTask): nat {
    match t
    case Pending => 4 case Gathering => 3 case Ending(_) => 2
    case _ => 0
  }

  function HostRank(hs: HostState): nat { TaskRank(hs.task) + SumBy(hs.ports, PortRank) }

  function Rank(s: State): nat {
    SumBy(s.hosts, HostRank) + |s.queue| + if s.aborted then 0 else 1
  }

  lemma PortStepRank(s: State, h: nat, p: nat, t: PortTask)
    requires HasPort(s, h, p)
    ensures SumBy(SetPort(s.hosts, h, p, t), HostRank) + PortRank(s.hosts[h].ports[p])
            == SumBy(s.hosts, HostRank) + PortRank(t)
  {
    SumUpdate(s.hosts[h].ports, PortRank, p, t);
    SumUpdate(s.hosts, HostRank, h, s.hosts[h].(ports := s.hosts[h].ports[p := t]));
  }

  lemma {:induction false} DropRank(ports: seq<PortTask>)
    ensures SumBy(DropAll(ports), PortRank) <= SumBy(ports, PortRank)
  {
    if ports != [] {
      DropRank(ports[..|ports| - 1]);
      assert DropAll(ports)[..|ports| - 1] == DropAll(ports[..|ports| - 1]);
    }
  }

  lemma StartRank(cfg: Config, s: State, h: nat)
    requires Inv(cfg, s) && h < |s.hosts| && s.hosts[h].task.Pending?
    ensures HostRank(StartHost(cfg, h, s.hosts[h])) < HostRank(s.hosts[h])
  {
    assert HostOk(cfg, s.hosts[h], h, s.AllSent());
    SumConst(s.hosts[h].ports, PortRank, 5);
    SumConst(Repeat(cfg.ports, Waiting), PortRank, 5);
  }

  lemma TaskStepRank(s: State, h: nat, t: HostTask)
    requires h < |s.hosts|
    ensures SumBy(SetTask(s.hosts, h, t), HostRank) + TaskRank(s.hosts[h].task)
            == SumBy(s.hosts, HostRank) + TaskRank(t)
  {
    SumUpdate(s.hosts, HostRank, h, s.hosts[h].(task := t));
  }

  lemma CancelHostRank(hs: HostState)
    ensures HostRank(Cancel(hs)) <= HostRank(hs)
  {
    DropRank(hs.ports);
  }

  lemma {:induction false} CancelRank(hosts: seq<HostState>)
    ensures SumBy(CancelAll(hosts), HostRank) <= SumBy(hosts, HostRank)
  {
    if hosts != [] {
      CancelRank(hosts[..|hosts| - 1]);
      CancelHostRank(hosts[|hosts| - 1]);
      assert CancelAll(hosts)[..|hosts| - 1] == CancelAll(hosts[..|hosts| - 1]);
    }
  }

  lemma PortStepFalls(cfg: Config, s: State, step: Step, s': State)
    requires Next(cfg, s, step, s') && (step.Acquire? || step.Connect? || step.Settle? || step.Report?)
    ensures Rank(s') < Rank(s)
  {
    var h, p := step.h, step.p;
    PortStepRank(s, h, p, s'.hosts[h].ports[p]);
  }

  lemma TaskStepFalls(cfg: Config, s: State, step: Step, s': State)
    requires Next(cfg, s, step, s') && (step.Gathered? || step.GatherRaised? || step.End?)
    ensures Rank(s') < Rank(s)
  {
    var h := step.h;
    TaskStepRank(s, h, s'.hosts[h].task);
  }

  lemma StepRank(cfg: Config, s: State, step: Step, s': State)
    requires Inv(cfg, s) && Next(cfg, s, step, s')
    ensures Rank(s') < Rank(s)
  {
    if step.Acquire? || step.Connect? || step.Settle? || step.Report? {
      PortStepFalls(cfg, s, step, s');
    } else if step.Gathered? || step.GatherRaised? || step.End? {
      TaskStepFalls(cfg, s, step, s');
    } else if step.Start? {
      StartRank(cfg, s, step.h);
      SumUpdate(s.hosts, HostRank, step.h, s'.hosts[step.h]);
    } else {
      CancelRank(s.hosts);
    }
  }

  lemma InitRank(cfg: Config)
    ensures Rank(Init(cfg)) == |cfg.ips| * (4 + 5 * cfg.ports) + 1
  {
    SumConst(Repeat(cfg.ports, Idle), PortRank, 5);
    SumConst(Init(cfg).hosts, HostRank, 4 + 5 * cfg.ports);
  }

  lemma {:induction false} RankFalls(cfg: Config, run: seq<State>, i: nat)
    requires IsRun(cfg, run) && i < |run|
    ensures Rank(run[i]) + i <= Rank(Init(cfg))
  {
    if i > 0 {
      RankFalls(cfg, run, i - 1);
      RunInv(cfg, run, i - 1);
      assert StepAt(cfg, run, i - 1) && run[i - 1 + 1] == run[i];
      var step :| Next(cfg, run[i - 1], step, run[i]);
      StepRank(cfg, run[i - 1], step, run[i]);
    }
  }

  /** Termination: no schedule takes more than four steps a host and five a port, plus one. */
  lemma RunsEnd(cfg: Config, run: seq<State>)
    requires IsRun(cfg, run)
    ensures |run| <= |cfg.ips| * (4 + 5 * cfg.ports) + 2
  {
    RankFalls(cfg, run, |run| - 1);
    InitRank(cfg);
  }

  // ---- liveness: a run can only stop once every host has ended ---------------------------------

  lemma {:induction false} FinishedIsSum(log: seq<Event>, n: nat, p: nat)
    requires LogOk(log, n, p)
    ensures HostsFinished(log) == EndsUpTo(log, n)
  {
    if log == [] {
      NoEnds(n);
    } else {
      var front, e := log[..|log| - 1], log[|log| - 1];
      assert log == front + [e];
      FinishedIsSum(front, n, p);
      EndsStep(front, e, n);
    }
  }

  function EndsUpTo(log: seq<Event>, n: nat): nat {
    if n == 0 then 0 else EndsUpTo(log, n - 1) + Ends(log, n - 1)
  }

  lemma {:induction false} NoEnds(n: nat)
    ensures EndsUpTo([], n) == 0
  {
    if n > 0 { NoEnds(n - 1); }
  }

  lemma {:induction false} EndsStep(log: seq<Event>, e: Event, n: nat)
    ensures EndsUpTo(log + [e], n) == EndsUpTo(log, n) + if e.host < n && Terminal(e) then 1 else 0
  {
    if n > 0 {
      EndsStep(log, e, n - 1);
      TellSnoc(log, e, n - 1, Finished);
      TellSnoc(log, e, n - 1, Errored);
    }
  }

  /** If fewer than `n` hosts have ended, some host has not; if `n` have, all have. */
  lemma {:induction false} Pigeonhole(log: seq<Event>, n: nat, p: nat, m: nat)
    requires LogOk(log, n, p)
    ensures EndsUpTo(log, m) <= m
    ensures EndsUpTo(log, m) < m ==> exists h: nat :: h < m && Ends(log, h) == 0
    ensures EndsUpTo(log, m) == m ==> forall h: nat :: h < m ==> Ends(log, h) == 1
  {
    if m > 0 {
      Pigeonhole(log, n, p, m - 1);
      HostFacts(log, n, p, m - 1);
    }
  }

  lemma SomeHostUnfinished(cfg: Config, s: State) returns (h: nat)
    requires Inv(cfg, s) && HostsFinished(s.log) < |cfg.ips|
    ensures h < |s.hosts| && Ends(s.log, h) == 0
  {
    LogPrefix(cfg, s);
    FinishedIsSum(s.log, |cfg.ips|, cfg.ports);
    Pigeonhole(s.log, |cfg.ips|, cfg.ports, |cfg.ips|);
    h :| h < |cfg.ips| && Ends(s.log, h) == 0;
  }

  /** Something other than a failure of the coordinator can happen. */
  ghost predicate CanStep(cfg: Config, s: State) {
    exists step, s' :: Next(cfg, s, step, s') && !step.Abort?
  }

  lemma CanDo(cfg: Config, s: State, step: Step, s': State)
    requires Next(cfg, s, step, s') && !step.Abort?
    ensures CanStep(cfg, s)
  {
  }

  ghost predicate Unfinished(cfg: Config, s: State) {
    !s.aborted && HostsFinished(s.log) < |cfg.ips|
  }

  ghost predicate NoneAdmitted(cfg: Config) {
    forall h :: 0 <= h < |cfg.ips| ==> !cfg.guard.Admits(cfg.ips[h])
  }

  /** What a scan needs to get through: hosts may start, and if a port of an admitted host is
      to be connected, the limiter grants tokens and a connection may be open. */
  ghost predicate CanWork(cfg: Config) {
    cfg.hostLimit > 0 && (cfg.ports == 0 || NoneAdmitted(cfg) || (cfg.connectLimit > 0 && cfg.Paces()))
  }

  /** `Paces` is what the limiter does with the one token every port asks for, its capacity
      being its rate. */
  lemma PacesIff(cfg: Config, tokens: real, last: real)
    requires tokens <= cfg.rate
    ensures cfg.Paces() <==>
            cfg.rate <= 0.0
            || exists times :: times != [] && RateLimit.Readings(cfg.rate, cfg.rate, tokens, last, times) >= 1.0
  {
    if cfg.rate > 0.0 { RateLimit.GrantedIffCapacity(cfg.rate, cfg.rate, tokens, last, 1.0); }
  }

  /** A port task that has not come to rest, with an empty queue. */
  lemma PortCanStep(cfg: Config, s: State, h: nat, p: nat)
    requires Inv(cfg, s) && s.queue == [] && cfg.connectLimit > 0 && cfg.Paces()
    requires HasPort(s, h, p)
    requires var t := s.hosts[h].ports[p];
             t.Waiting? || t.Connecting? || t.Holding? || (t.Ready? && Connects(s.hosts) == 0)
    ensures CanStep(cfg, s)
  {
    match s.hosts[h].ports[p]
    case Waiting => CanDo(cfg, s, Acquire(h, p), s.(hosts := SetPort(s.hosts, h, p, Ready)));
    case Connecting => CanDo(cfg, s, Settle(h, p, None), s.(hosts := SetPort(s.hosts, h, p, Raised)));
    case Holding(st) =>
      CanDo(cfg, s, Report(h, p), s.(hosts := SetPort(s.hosts, h, p, Sent(st)),
                                     queue := s.queue + [PortDone(h, PortResult(p, st))]));
    case Ready =>
      CanDo(cfg, s, Connect(h, p), s.(hosts := SetPort(s.hosts, h, p, Connecting),
                                      contacts := s.contacts + {Contact(cfg.ips[h], p)}));
  }

  lemma {:induction false} ConnectingPort(ports: seq<PortTask>) returns (p: nat)
    requires SumBy(ports, IsConnecting) > 0
    ensures p < |ports| && ports[p].Connecting?
  {
    p := |ports| - 1;
    if !ports[p].Connecting? { p := ConnectingPort(ports[..|ports| - 1]); }
  }

  lemma {:induction false} ConnectingHost(hosts: seq<HostState>) returns (h: nat, p: nat)
    requires Connects(hosts) > 0
    ensures h < |hosts| && p < |hosts[h].ports| && hosts[h].ports[p].Connecting?
  {
    h := |hosts| - 1;
    if ConnectsOf(hosts[h]) > 0 {
      p := ConnectingPort(hosts[h].ports);
    } else {
      h, p := ConnectingHost(hosts[..|hosts| - 1]);
    }
  }

  lemma {:induction false} ScanningHost(hosts: seq<HostState>) returns (h: nat)
    requires Scans(hosts) > 0
    ensures h < |hosts| && hosts[h].task.Gathering?
  {
    h := |hosts| - 1;
    if !hosts[h].task.Gathering? { h := ScanningHost(hosts[..|hosts| - 1]); }
  }

  lemma GatheringCanStep(cfg: Config, s: State, h: nat)
    requires Inv(cfg, s) && !s.aborted && s.queue == [] && CanWork(cfg)
    requires h < |s.hosts| && s.hosts[h].task.Gathering?
    ensures CanStep(cfg, s)
  {
    var hs := s.hosts[h];
    assert HostOk(cfg, hs, h, s.AllSent());
    assert cfg.Authorized(h) && cfg.guard.Admits(cfg.ips[h]);
    if cfg.ports > 0 && Connects(s.hosts) > 0 {
      var k, p := ConnectingHost(s.hosts);
      PortCanStep(cfg, s, k, p);
    } else if p :| 0 <= p < |hs.ports| && !hs.ports[p].Sent? && !hs.ports[p].Raised? {
      PortCanStep(cfg, s, h, p);
    } else if SomeRaised(hs.ports) {
      CanDo(cfg, s, GatherRaised(h), s.(hosts := SetTask(s.hosts, h, Ending(false))));
    } else {
      assert AllPortsSent(hs);
      CanDo(cfg, s, Gathered(h), s.(hosts := SetTask(s.hosts, h, Ending(true))));
    }
  }

  /** Deadlock freedom: while a host is unfinished something other than a failure can happen. */
  lemma NeverStuck(cfg: Config, s: State)
    requires Inv(cfg, s) && Unfinished(cfg, s) && CanWork(cfg)
    ensures CanStep(cfg, s)
  {
    if s.queue != [] {
      CanDo(cfg, s, Consume({}), s.(log := s.log + [s.queue[0]], queue := s.queue[1..],
                                    contacts := s.contacts + ProbeContacts(cfg, s.queue[0], {})));
    } else {
      var h := SomeHostUnfinished(cfg, s);
      assert s.AllSent() == s.log;
      assert HostOk(cfg, s.hosts[h], h, s.log);
      match s.hosts[h].task {
        case Pending =>
          if Scans(s.hosts) == 0 {
            CanDo(cfg, s, Start(h), s.(hosts := s.hosts[h := StartHost(cfg, h, s.hosts[h])]));
          } else {
            var k := ScanningHost(s.hosts);
            GatheringCanStep(cfg, s, k);
          }
        case Gathering => GatheringCanStep(cfg, s, h);
        case Ending(ok) =>
          CanDo(cfg, s, End(h), s.(hosts := SetTask(s.hosts, h, Ended(ok)), queue := s.queue + [EndEvent(s.hosts[h], h)]));
        case Ended(ok) => assert false;
        case Cancelled => assert false;
      }
    }
  }

  // ---- runs that go as far as they can without a failure of the coordinator -----------------

  /** Says what becomes of each port of each host: its reading, or an exception. */
  type Outcomes = (nat, nat) -> Option<Reading>

  /** What has become of each port so far is what `f` says. */
  ghost predicate Follows(s: State, f: Outcomes) {
    forall h, p :: 0 <= h < |s.hosts| && 0 <= p < |s.hosts[h].ports| ==>
      match s.hosts[h].ports[p]
      case Holding(reading) => f(h, p) == Some(reading)
      case Sent(reading) => f(h, p) == Some(reading)
      case Raised => f(h, p) == None
      case _ => true
  }

  lemma FollowStep(cfg: Config, s: State, f: Outcomes) returns (step: Step, s': State)
    requires CanStep(cfg, s) && !s.aborted && Follows(s, f)
    ensures Next(cfg, s, step, s') && !s'.aborted && Follows(s', f)
  {
    step, s' :| Next(cfg, s, step, s') && !step.Abort?;
    if step.Settle? {
      var h, p := step.h, step.p;
      var t := if f(h, p).Some? then Holding(f(h, p).value) else Raised;
      step, s' := Settle(h, p, f(h, p)), s.(hosts := SetPort(s.hosts, h, p, t));
    }
  }

  lemma RunExtends(cfg: Config, run: seq<State>, step: Step, s': State)
    requires IsRun(cfg, run) && Next(cfg, run[|run| - 1], step, s')
    ensures IsRun(cfg, run + [s'])
  {
    var more := run + [s'];
    forall i | 0 <= i < |more| - 1 ensures StepAt(cfg, more, i) {
      if i < |run| - 1 { assert StepAt(cfg, run, i); } else { assert StepsTo(cfg, more[i], more[i + 1]); }
    }
  }

  /** Whatever the ports have been fated to yield, a run that has kept to it so far can go on so
      until nothing is left to do. */
  lemma {:induction false} Furthest(cfg: Config, run: seq<State>, f: Outcomes) returns (more: seq<State>)
    requires IsRun(cfg, run) && !run[|run| - 1].aborted && Follows(run[|run| - 1], f)
    ensures IsRun(cfg, more) && !more[|more| - 1].aborted && Follows(more[|more| - 1], f)
    ensures run <= more && !CanStep(cfg, more[|more| - 1])
    decreases Rank(run[|run| - 1])
  {
    var s := run[|run| - 1];
    if !CanStep(cfg, s) { return run; }
    var step, s' := FollowStep(cfg, s, f);
    RunInv(cfg, run, |run| - 1);
    StepRank(cfg, s, step, s');
    RunExtends(cfg, run, step, s');
    more := Furthest(cfg, run + [s'], f);
  }

  ghost predicate LeadsTo(cfg: Config, run: seq<State>, s: State) { IsRun(cfg, run) && run[|run| - 1] == s }

  ghost predicate Reachable(cfg: Config, s: State) { exists run :: LeadsTo(cfg, run, s) }

  lemma LastInv(cfg: Config, run: seq<State>, s: State)
    requires LeadsTo(cfg, run, s)
    ensures Inv(cfg, s)
  {
    RunInv(cfg, run, |run| - 1);
  }

  lemma ReachableInv(cfg: Config, s: State)
    requires Reachable(cfg, s)
    ensures Inv(cfg, s)
  {
    var run :| LeadsTo(cfg, run, s);
    LastInv(cfg, run, s);
  }

  /** A run from the start to a state where nothing can happen any more. */
  lemma FinalState(cfg: Config, f: Outcomes) returns (run: seq<State>, s: State)
    ensures LeadsTo(cfg, run, s) && Inv(cfg, s)
    ensures !s.aborted && Follows(s, f) && !CanStep(cfg, s)
  {
    run := Furthest(cfg, [Init(cfg)], f);
    s := run[|run| - 1];
    RunInv(cfg, run, |run| - 1);
  }

  // ---- the limits can be reached ----------------------------------------------------------------

  /** The first `k` hosts are being scanned and connecting at their first port, the others wait. */
  ghost predicate Busy(cfg: Config, s: State, k: nat) {
    && k <= |s.hosts| == |cfg.ips| && Scans(s.hosts) == Connects(s.hosts) == k
    && (forall h :: 0 <= h < k ==> s.hosts[h].task.Gathering? && |s.hosts[h].ports| > 0 && s.hosts[h].ports[0].Connecting?)
    && (forall h :: k <= h < |s.hosts| ==> s.hosts[h] == HostState(Pending, Repeat(cfg.ports, Idle)))
  }

  lemma InitBusy(cfg: Config)
    ensures Busy(cfg, Init(cfg), 0)
  {
    var s := Init(cfg);
    SumConst(s.hosts, InScan, 0);
    SumConst(Repeat(cfg.ports, Idle), IsConnecting, 0);
    SumConst(s.hosts, ConnectsOf, 0);
  }

  lemma {:induction false} OneMoreBusy(cfg: Config, run: seq<State>, s: State, h: nat) returns (more: seq<State>, s': State)
    requires LeadsTo(cfg, run, s) && Busy(cfg, s, h) && h < |cfg.ips| && cfg.guard.Admits(cfg.ips[h])
    requires h < cfg.hostLimit && h < cfg.connectLimit && cfg.ports > 0 && cfg.Paces()
    ensures LeadsTo(cfg, more, s') && Busy(cfg, s', h + 1)
  {
    var started := HostState(Gathering, Repeat(cfg.ports, Waiting));
    var s1 := s.(hosts := s.hosts[h := started]);
    more := run + [s1];
    RunExtends(cfg, run, Start(h), s1);
    var s2 := s1.(hosts := SetPort(s1.hosts, h, 0, Ready));
    RunExtends(cfg, more, Acquire(h, 0), s2);
    more := more + [s2];
    s' := s2.(hosts := SetPort(s2.hosts, h, 0, Connecting), contacts := s2.contacts + {Contact(cfg.ips[h], 0)});
    BusyCounts(cfg, s, h, s1, s2, s');
    RunExtends(cfg, more, Connect(h, 0), s');
    more := more + [s'];
  }

  lemma OneChanged(hosts: seq<HostState>, h: nat, was: HostState, hs: HostState, hosts': seq<HostState>)
    requires h < |hosts| && hosts[h] == was && hosts' == hosts[h := hs]
    ensures Scans(hosts') + InScan(was) == Scans(hosts) + InScan(hs)
    ensures Connects(hosts') + ConnectsOf(was) == Connects(hosts) + ConnectsOf(hs)
  {
    HostChanged(hosts, h, hs);
  }

  lemma PortsOf(n: nat)
    requires n > 0
    ensures SumBy(Repeat(n, Idle), IsConnecting) == SumBy(Repeat(n, Waiting), IsConnecting) == 0
    ensures SumBy(Repeat(n, Waiting)[0 := Ready], IsConnecting) == 0
    ensures SumBy(Repeat(n, Waiting)[0 := Ready][0 := Connecting], IsConnecting) == 1
  {
    SumConst(Repeat(n, Idle), IsConnecting, 0);
    SumConst(Repeat(n, Waiting), IsConnecting, 0);
    PortChanged(Repeat(n, Waiting), 0, Ready);
    PortChanged(Repeat(n, Waiting)[0 := Ready], 0, Connecting);
  }

  lemma {:induction false} BusyCounts(cfg: Config, s: State, h: nat, s1: State, s2: State, s3: State)
    requires Busy(cfg, s, h) && h < |s.hosts| && cfg.ports > 0
    requires s1.hosts == s.hosts[h := HostState(Gathering, Repeat(cfg.ports, Waiting))]
    requires s2.hosts == SetPort(s1.hosts, h, 0, Ready) && s3.hosts == SetPort(s2.hosts, h, 0, Connecting)
    ensures Connects(s2.hosts) == h && Scans(s3.hosts) == Connects(s3.hosts) == h + 1
  {
    var idle, waiting := HostState(Pending, Repeat(cfg.ports, Idle)), HostState(Gathering, Repeat(cfg.ports, Waiting));
    var ready := HostState(Gathering, Repeat(cfg.ports, Waiting)[0 := Ready]);
    var busy := HostState(Gathering, Repeat(cfg.ports, Waiting)[0 := Ready][0 := Connecting]);
    PortsOf(cfg.ports);
    OneChanged(s.hosts, h, idle, waiting, s1.hosts);
    OneChanged(s1.hosts, h, waiting, ready, s2.hosts);
    OneChanged(s2.hosts, h, ready, busy, s3.hosts);
  }

  lemma {:induction false} BusyReached(cfg: Config, k: nat) returns (run: seq<State>, s: State)
    requires k <= |cfg.ips| && k <= cfg.hostLimit && k <= cfg.connectLimit && cfg.ports > 0 && cfg.Paces()
    requires forall h :: 0 <= h < k ==> cfg.guard.Admits(cfg.ips[h])
    ensures LeadsTo(cfg, run, s) && Busy(cfg, s, k)
  {
    if k == 0 {
      run, s := [Init(cfg)], Init(cfg);
      InitBusy(cfg);
    } else {
      run, s := BusyReached(cfg, k - 1);
      run, s := OneMoreBusy(cfg, run, s, k - 1);
    }
  }

  /** Up to the two limits hosts are scanned at once: if the first `k` addresses are admitted, some
      reachable state has all `k` hosts connecting. */
  lemma ManyAtOnce(cfg: Config, k: nat)
    requires k <= |cfg.ips| && k <= cfg.hostLimit && k <= cfg.connectLimit && cfg.ports > 0 && cfg.Paces()
    requires forall h :: 0 <= h < k ==> cfg.guard.Admits(cfg.ips[h])
    ensures exists s :: Reachable(cfg, s) && k <= |s.hosts|
                        && forall h :: 0 <= h < k ==> s.hosts[h].task.Gathering? && |s.hosts[h].ports| > 0
                                                      && s.hosts[h].ports[0].Connecting?
  {
    var run, s := BusyReached(cfg, k);
    assert Reachable(cfg, s);
  }

  // ---- when a scan gets stuck -----------------------------------------------------------------

  /** With a host semaphore of zero the first state is stuck. */
  lemma ZeroHostLimitIsStuck(cfg: Config)
    requires cfg.hostLimit == 0 && cfg.ips != []
    ensures Reachable(cfg, Init(cfg)) && Unfinished(cfg, Init(cfg)) && !CanStep(cfg, Init(cfg))
  {
    var s := Init(cfg);
    assert LeadsTo(cfg, [s], s);
    forall step, s' ensures !(Next(cfg, s, step, s') && !step.Abort?) {
    }
  }

  /** No port gets as far as a connection. */
  predicate Still(cfg: Config, t: PortTask) {
    t.Idle? || t.Waiting? || t.Dropped? || (t.Ready? && cfg.Paces())
  }

  predicate AllStill(cfg: Config, s: State) {
    forall h, p :: 0 <= h < |s.hosts| && 0 <= p < |s.hosts[h].ports| ==> Still(cfg, s.hosts[h].ports[p])
  }

  lemma StillStays(cfg: Config, s: State, step: Step, s': State)
    requires cfg.connectLimit == 0 || !cfg.Paces()
    requires AllStill(cfg, s) && Next(cfg, s, step, s')
    ensures AllStill(cfg, s')
  {
  }

  lemma {:induction false} RunStill(cfg: Config, run: seq<State>, i: nat)
    requires cfg.connectLimit == 0 || !cfg.Paces()
    requires IsRun(cfg, run) && i < |run|
    ensures AllStill(cfg, run[i])
  {
    if i > 0 {
      RunStill(cfg, run, i - 1);
      assert StepAt(cfg, run, i - 1);
      var step :| Next(cfg, run[i - 1], step, run[i]);
      StillStays(cfg, run[i - 1], step, run[i]);
    }
  }

  /** Then an admitted host never ends. */
  lemma StillNeverEnds(cfg: Config, s: State, h: nat)
    requires Inv(cfg, s) && AllStill(cfg, s) && cfg.ports > 0
    requires h < |cfg.ips| && cfg.guard.Admits(cfg.ips[h])
    ensures Ends(s.AllSent(), h) == 0
  {
    var hs := s.hosts[h];
    assert HostOk(cfg, hs, h, s.AllSent());
    assert Still(cfg, hs.ports[0]);
    assert !AllPortsSent(hs);
    assert !SomeRaised(hs.ports);
  }

  lemma SomeUnendedIsUnfinished(cfg: Config, s: State, h: nat)
    requires Inv(cfg, s) && h < |cfg.ips| && Ends(s.AllSent(), h) == 0
    ensures HostsFinished(s.log) < |cfg.ips|
  {
    TellPrefix(s.AllSent(), |s.log|, h, Finished);
    TellPrefix(s.AllSent(), |s.log|, h, Errored);
    assert s.AllSent()[..|s.log|] == s.log;
    assert Ends(s.log, h) == 0;
    LogPrefix(cfg, s);
    FinishedIsSum(s.log, |cfg.ips|, cfg.ports);
    Pigeonhole(s.log, |cfg.ips|, cfg.ports, |cfg.ips|);
  }

  lemma BlockedIsStuck(cfg: Config, h: nat) returns (s: State)
    requires cfg.connectLimit == 0 || !cfg.Paces()
    requires cfg.ports > 0 && h < |cfg.ips| && cfg.guard.Admits(cfg.ips[h])
    ensures Reachable(cfg, s) && Unfinished(cfg, s) && !CanStep(cfg, s)
  {
    var run;
    run, s := FinalState(cfg, (h, p) => None);
    RunStill(cfg, run, |run| - 1);
    StillNeverEnds(cfg, s, h);
    SomeUnendedIsUnfinished(cfg, s, h);
  }

  /** Exactly when no scan can get stuck: a host limit of zero blocks every host; a connection
      limit of zero, or a limiter of less than one token a second, every port of an admitted one. */
  lemma NeverStuckIff(cfg: Config)
    ensures (forall s :: Reachable(cfg, s) && Unfinished(cfg, s) ==> CanStep(cfg, s))
            <==> cfg.ips == [] || CanWork(cfg)
  {
    if cfg.ips == [] || CanWork(cfg) {
      forall s | Reachable(cfg, s) && Unfinished(cfg, s) ensures CanStep(cfg, s) {
        ReachableInv(cfg, s);
        NeverStuck(cfg, s);
      }
    } else if cfg.hostLimit == 0 {
      ZeroHostLimitIsStuck(cfg);
    } else {
      var h :| 0 <= h < |cfg.ips| && cfg.guard.Admits(cfg.ips[h]);
      var s := BlockedIsStuck(cfg, h);
    }
  }
}
