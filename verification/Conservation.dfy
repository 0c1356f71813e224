/** What the progress counters add up to, for every event stream a scan can produce. */
module Conservation {
  import opened Wrappers
  import opened Progress

  /** Per-host facts of an event stream: ports reported, and ends with and without a result. */
  datatype Fact = Reported | Finished | Errored

  predicate Counts(e: Event, h: nat, f: Fact) {
    e.host == h && match f
                   case Reported => e.PortDone?
                   case Finished => e.HostDone?
                   case Errored => e.HostFailed?
  }

  function Tell(log: seq<Event>, h: nat, f: Fact): nat {
    if log == [] then 0
    else Tell(log[..|log| - 1], h, f) + if Counts(log[|log| - 1], h, f) then 1 else 0
  }

  /** The event may follow the log on a scan of `p` ports per host: at most `p` reports a host,
      one end a host, and a result only after all reports. */
  predicate MayFollow(log: seq<Event>, e: Event, n: nat, p: nat) {
    && e.host < n
    && match e
       case PortDone(h, _) => Tell(log, h, Reported) < p && (Tell(log, h, Errored) > 0 ==> Tell(log, h, Reported) + 1 < p)
       case HostDone(h, _) => Ends(log, h) == 0 && Tell(log, h, Reported) == p
       case HostFailed(h) => Ends(log, h) == 0 && (Tell(log, h, Reported) < p || p == 0)
  }

  function Ends(log: seq<Event>, h: nat): nat { Tell(log, h, Finished) + Tell(log, h, Errored) }

  /** The shape of every stream the coordinator consumes. A failed host never reports all its
      ports, however late its other ports report. */
  predicate LogOk(log: seq<Event>, n: nat, p: nat) {
    log == [] || (LogOk(log[..|log| - 1], n, p) && MayFollow(log[..|log| - 1], log[|log| - 1], n, p))
  }

  lemma TellSnoc(log: seq<Event>, e: Event, h: nat, f: Fact)
    ensures Tell(log + [e], h, f) == Tell(log, h, f) + if Counts(e, h, f) then 1 else 0
  {
    assert (log + [e])[..|log|] == log;
  }

  lemma OkSnoc(log: seq<Event>, e: Event, n: nat, p: nat)
    ensures LogOk(log + [e], n, p) <==> LogOk(log, n, p) && MayFollow(log, e, n, p)
  {
    assert (log + [e])[..|log|] == log;
  }

  lemma {:induction false} PrefixOk(log: seq<Event>, k: nat, n: nat, p: nat)
    requires LogOk(log, n, p) && k <= |log|
    ensures LogOk(log[..k], n, p)
  {
    if k < |log| {
      PrefixOk(log[..|log| - 1], k, n, p);
      assert log[..|log| - 1][..k] == log[..k];
    } else {
      assert log[..k] == log;
    }
  }

  lemma {:induction false} HostFacts(log: seq<Event>, n: nat, p: nat, h: nat)
    requires LogOk(log, n, p)
    ensures Tell(log, h, Reported) <= p && Ends(log, h) <= 1
    ensures Tell(log, h, Finished) > 0 ==> Tell(log, h, Reported) == p
    ensures Tell(log, h, Errored) > 0 ==> Tell(log, h, Reported) < p || p == 0
  {
    if log != [] { HostFacts(log[..|log| - 1], n, p, h); }
  }

  // ---- the counters are sums of these facts over the hosts ---------------------------

  /** One host's share of a counter; `None` is `hosts_scanned`. */
  function Share(log: seq<Event>, h: nat, p: nat, f: Option<Fact>): nat {
    match f
    case Some(fact) => Tell(log, h, fact)
    case None => Tell(log, h, Errored) + if Tell(log, h, Reported) == p then 1 else 0
  }

  /** No host is counted scanned twice, not even one whose late ports report after its error. */
  lemma HostScannedOnce(log: seq<Event>, n: nat, p: nat, h: nat)
    requires LogOk(log, n, p) && p > 0
    ensures Share(log, h, p, None) <= 1
    ensures Share(log, h, p, Some(Finished)) + Share(log, h, p, Some(Errored)) <= Share(log, h, p, None)
  {
    HostFacts(log, n, p, h);
  }

  function Total(log: seq<Event>, n: nat, p: nat, f: Option<Fact>): nat {
    if n == 0 then 0 else Total(log, n - 1, p, f) + Share(log, n - 1, p, f)
  }

  lemma {:induction false} TotalStep(log: seq<Event>, e: Event, n: nat, p: nat, f: Option<Fact>, d: nat)
    requires Share(log + [e], e.host, p, f) == Share(log, e.host, p, f) + d
    ensures Total(log + [e], n, p, f) == Total(log, n, p, f) + if e.host < n then d else 0
  {
    if n > 0 {
      TotalStep(log, e, n - 1, p, f, d);
      if e.host != n - 1 {
        TellSnoc(log, e, n - 1, Reported);
        TellSnoc(log, e, n - 1, Finished);
        TellSnoc(log, e, n - 1, Errored);
      }
    }
  }

  lemma {:induction false} TotalEmpty(n: nat, p: nat, f: Option<Fact>)
    requires p > 0
    ensures Total([], n, p, f) == 0
  {
    if n > 0 { TotalEmpty(n - 1, p, f); }
  }

  function SumStates(c: Counters): nat {
    Count(c.states, Open) + Count(c.states, Closed) + Count(c.states, Filtered)
  }

  ghost predicate Balanced(c: Counters, log: seq<Event>, n: nat, p: nat) {
    && SumStates(c) == c.portsScanned == Total(log, n, p, Some(Reported))
    && c.hostsScanned == Total(log, n, p, None)
    && c.hostsAnalyzed == Total(log, n, p, Some(Finished))
    && c.errors == Total(log, n, p, Some(Errored))
    && forall h: nat :: Count(c.hostPorts, h) == Tell(log, h, Reported)
  }

  lemma StatesStep(c: Counters, s: PortState)
    ensures SumStates(c.(states := c.states[s := Count(c.states, s) + 1])) == SumStates(c) + 1
  {
    match s case Open => case Closed => case Filtered =>
  }

  /** How much one event adds to a counter. */
  function Delta(log: seq<Event>, e: Event, p: nat, f: Option<Fact>): nat {
    match f
    case Some(fact) => if Counts(e, e.host, fact) then 1 else 0
    case None => if e.HostFailed? || (e.PortDone? && Tell(log, e.host, Reported) + 1 == p) then 1 else 0
  }

  lemma {:induction false} TotalsAdvance(log: seq<Event>, e: Event, n: nat, p: nat, f: Option<Fact>)
    requires MayFollow(log, e, n, p)
    ensures Total(log + [e], n, p, f) == Total(log, n, p, f) + Delta(log, e, p, f)
  {
    TellSnoc(log, e, e.host, Reported);
    TellSnoc(log, e, e.host, Finished);
    TellSnoc(log, e, e.host, Errored);
    TotalStep(log, e, n, p, f, Delta(log, e, p, f));
  }

  lemma {:induction false} HostPortsStep(c: Counters, log: seq<Event>, e: Event, p: nat)
    requires forall h: nat :: Count(c.hostPorts, h) == Tell(log, h, Reported)
    ensures forall h: nat :: Count(Tally(c, e, p).hostPorts, h) == Tell(log + [e], h, Reported)
  {
    forall h: nat ensures Count(Tally(c, e, p).hostPorts, h) == Tell(log + [e], h, Reported) {
      TellSnoc(log, e, h, Reported);
    }
  }

  lemma {:induction false} BalanceStep(c: Counters, log: seq<Event>, e: Event, n: nat, p: nat)
    requires Balanced(c, log, n, p) && MayFollow(log, e, n, p)
    ensures Balanced(Tally(c, e, p), log + [e], n, p)
  {
    HostPortsStep(c, log, e, p);
    if e.PortDone? { StatesStep(c, e.result.reading.state); }
    TellSnoc(log, e, e.host, Reported);
    TotalsAdvance(log, e, n, p, Some(Reported));
    TotalsAdvance(log, e, n, p, Some(Finished));
    TotalsAdvance(log, e, n, p, Some(Errored));
    TotalsAdvance(log, e, n, p, None);
  }

  lemma {:induction false} CountersBalance(log: seq<Event>, n: nat, p: nat)
    requires LogOk(log, n, p) && p > 0
    ensures Balanced(Replay(log, p).counters, log, n, p)
  {
    if log == [] {
      TotalEmpty(n, p, None);
      TotalEmpty(n, p, Some(Reported));
      TotalEmpty(n, p, Some(Finished));
      TotalEmpty(n, p, Some(Errored));
    } else {
      var front, e := log[..|log| - 1], log[|log| - 1];
      CountersBalance(front, n, p);
      BalanceStep(Replay(front, p).counters, front, e, n, p);
      assert log == front + [e];
    }
  }

  lemma {:induction false} TotalsBounded(log: seq<Event>, n: nat, p: nat, m: nat)
    requires LogOk(log, n, p) && p > 0
    ensures Total(log, m, p, Some(Finished)) + Total(log, m, p, Some(Errored)) <= Total(log, m, p, None) <= m
    ensures Total(log, m, p, Some(Reported)) <= m * p
  {
    if m > 0 {
      TotalsBounded(log, n, p, m - 1);
      HostScannedOnce(log, n, p, m - 1);
      HostFacts(log, n, p, m - 1);
      assert m * p == (m - 1) * p + p;
    }
  }

  // ---- the counters of any stream at all, counted in the stream -----------------------------

  /** Where the events with property `f` are. */
  ghost function Positions(log: seq<Event>, f: Event -> bool): set<int> {
    set i | 0 <= i < |log| && f(log[i])
  }

  lemma PositionsSnoc(log: seq<Event>, e: Event, f: Event -> bool)
    ensures |Positions(log + [e], f)| == |Positions(log, f)| + if f(e) then 1 else 0
  {
    assert Positions(log + [e], f) == Positions(log, f) + if f(e) then {|log|} else {};
  }

  /** A port was reported to be in this state. */
  function Reports(state: PortState): Event -> bool {
    (e: Event) => e.PortDone? && e.result.reading.state == state
  }

  /** A result with an open or a closed port. */
  predicate Answers(e: Event) {
    e.HostDone? && exists r :: r in e.results && (r.reading.state == Open || r.reading.state == Closed)
  }

  predicate IsResult(e: Event) { e.HostDone? }

  predicate IsFailure(e: Event) { e.HostFailed? }

  ghost predicate Counted(c: Counters, log: seq<Event>) {
    && (forall state :: Count(c.states, state) == |Positions(log, Reports(state))|)
    && c.hostsUp == |Positions(log, Answers)|
    && c.hostsAnalyzed == |Positions(log, IsResult)| && c.errors == |Positions(log, IsFailure)|
  }

  lemma CountedStep(c: Counters, log: seq<Event>, e: Event, p: nat)
    requires Counted(c, log)
    ensures Counted(Tally(c, e, p), log + [e])
  {
    assert e.HostDone? ==> (Alive(e.results) <==> Answers(e));
    PositionsSnoc(log, e, Answers);
    PositionsSnoc(log, e, IsResult);
    PositionsSnoc(log, e, IsFailure);
    forall state ensures Count(Tally(c, e, p).states, state) == |Positions(log + [e], Reports(state))| {
      PositionsSnoc(log, e, Reports(state));
    }
  }

  /** For every stream, however long and in whatever order: each state counter is the number of
      reports of that state, `hosts_up` the number of results with an open or a closed port,
      `hosts_analyzed` and `errors` the numbers of results and of failures. */
  lemma {:induction false} CountersCount(log: seq<Event>, p: nat)
    ensures var c := Replay(log, p).counters;
            && (forall state :: Count(c.states, state) == |Positions(log, Reports(state))|)
            && c.hostsUp == |Positions(log, Answers)|
            && c.hostsAnalyzed == |Positions(log, IsResult)| && c.errors == |Positions(log, IsFailure)|
  {
    if log == [] {
      assert forall f :: Positions(log, f) == {};
    } else {
      var front, e := log[..|log| - 1], log[|log| - 1];
      assert log == front + [e];
      CountersCount(front, p);
      CountedStep(Replay(front, p).counters, front, e, p);
    }
  }

  /** What a scan of `n` hosts with `p` ports each promises of its counters at any moment. */
  predicate Conserved(c: Counters, n: nat, p: nat) {
    && c.hostsAnalyzed + c.errors <= c.hostsScanned <= n
    && SumStates(c) == c.portsScanned <= n * p
  }

  /** Main result: the counters are conserved after every prefix of every scan. */
  lemma {:induction false} ProgressConserved(log: seq<Event>, n: nat, p: nat)
    requires LogOk(log, n, p) && p > 0
    ensures Conserved(Replay(log, p).counters, n, p)
  {
    CountersBalance(log, n, p);
    TotalsBounded(log, n, p, n);
  }

  lemma EndedShare(log: seq<Event>, n: nat, p: nat, h: nat)
    requires LogOk(log, n, p) && p > 0 && Ends(log, h) == 1
    ensures Share(log, h, p, Some(Finished)) + Share(log, h, p, Some(Errored)) == Share(log, h, p, None) == 1
    ensures Share(log, h, p, Some(Errored)) == 0 ==> Share(log, h, p, Some(Reported)) == p
  {
    HostFacts(log, n, p, h);
  }

  lemma {:induction false} TotalsComplete(log: seq<Event>, n: nat, p: nat, m: nat)
    requires LogOk(log, n, p) && p > 0 && forall h: nat :: h < m ==> Ends(log, h) == 1
    ensures Total(log, m, p, Some(Finished)) + Total(log, m, p, Some(Errored)) == Total(log, m, p, None) == m
    ensures Total(log, m, p, Some(Errored)) == 0 ==> Total(log, m, p, Some(Reported)) == m * p
  {
    if m > 0 {
      TotalsComplete(log, n, p, m - 1);
      EndedShare(log, n, p, m - 1);
      assert m * p == (m - 1) * p + p;
    }
  }

  /** Once every host has ended, every host is scanned and counted exactly once; with no
      error, every port of every host has been counted too. */
  lemma {:induction false} CompletionExact(log: seq<Event>, n: nat, p: nat)
    requires LogOk(log, n, p) && p > 0 && forall h: nat :: h < n ==> Ends(log, h) == 1
    ensures var c := Replay(log, p).counters;
            && c.hostsAnalyzed + c.errors == c.hostsScanned == n
            && (c.errors == 0 ==> c.portsScanned == n * p)
  {
    CountersBalance(log, n, p);
    TotalsComplete(log, n, p, n);
  }
}
