/** The coordinator of a run: the loop that drains the event queue into the progress
    accumulator and publishes snapshots. */
module Runner {
  import opened Progress
  import opened Conservation
  import opened ScanRun
  import opened RunCounters
  import Planning

  /** A published snapshot and the number of events consumed when it was taken. */
  datatype Publication = Publication(consumed: nat, stats: Counters)

  function Stats(events: seq<Event>, k: nat, p: nat): Publication
    requires k <= |events|
  {
    Publication(k, Replay(events[..k], p).counters)
  }

  /** The new event's snapshot may not wait: the host has an open service, or is the last. */
  predicate Urgent(events: seq<Event>, i: nat, n: nat)
    requires i < |events|
  {
    || (events[i].HostDone? && exists r :: r in events[i].results && r.reading.state == Open)
    || HostsFinished(events[..i + 1]) == n
  }

  lemma {:induction false} SomeOpen(results: seq<PortResult>)
    ensures OpenPorts(results) != [] <==> exists r :: r in results && r.reading.state == Open
  {
    if results != [] {
      assert forall r :: r in results <==> r == results[0] || r in results[1..];
      SomeOpen(results[1..]);
    }
  }

  /** When the last snapshot before event `k` was published; the run begins with one. */
  function LastEmit(events: seq<Event>, clock: seq<real>, start: real, n: nat, k: nat): real
    requires k <= |events| == |clock|
    decreases k, 0
  {
    if k == 0 then start
    else if Due(events, clock, start, n, k - 1) then clock[k - 1] else LastEmit(events, clock, start, n, k - 1)
  }

  /** A snapshot follows event `k`: half a second has passed, or it may not wait. */
  predicate Due(events: seq<Event>, clock: seq<real>, start: real, n: nat, k: nat)
    requires k < |events| == |clock|
    decreases k, 1
  {
    clock[k] - LastEmit(events, clock, start, n, k) >= 0.5 || Urgent(events, k, n)
  }

  /** Snapshots follow exactly the events after which one is due. */
  ghost predicate Prompt(events: seq<Event>, p: nat, n: nat, clock: seq<real>, start: real,
                         published: seq<Publication>, consumed: nat)
    requires consumed <= |events| == |clock|
  {
    forall k :: 0 <= k < consumed ==> (Stats(events, k + 1, p) in published <==> Due(events, clock, start, n, k))
  }

  lemma PromptStep(events: seq<Event>, p: nat, n: nat, clock: seq<real>, start: real,
                   published: seq<Publication>, consumed: nat, more: seq<Publication>)
    requires consumed < |events| == |clock| && PublishedOk(events, p, n, published, consumed)
    requires Prompt(events, p, n, clock, start, published, consumed)
    requires more == if Due(events, clock, start, n, consumed) then [Stats(events, consumed + 1, p)] else []
    ensures Prompt(events, p, n, clock, start, published + more, consumed + 1)
  {
    var all := published + more;
    forall k | 0 <= k < consumed + 1
      ensures Stats(events, k + 1, p) in all <==> Due(events, clock, start, n, k)
    {
      assert forall x :: x in all <==> x in published || x in more;
    }
  }

  /** Publications come in order, each shows exactly a prefix of the events, and no urgent
      one is missing. */
  ghost predicate PublishedOk(events: seq<Event>, p: nat, n: nat, published: seq<Publication>, consumed: nat)
    requires consumed <= |events|
  {
    && (forall i :: 0 <= i < |published| ==>
          published[i].consumed <= consumed && published[i] == Stats(events, published[i].consumed, p))
    && (forall i, j :: 0 <= i < j < |published| ==> published[i].consumed <= published[j].consumed)
    && (forall k :: 0 <= k < consumed && Urgent(events, k, n) ==> Stats(events, k + 1, p) in published)
  }

  lemma PublishStep(events: seq<Event>, p: nat, n: nat, published: seq<Publication>, consumed: nat, more: seq<Publication>)
    requires consumed < |events| && PublishedOk(events, p, n, published, consumed)
    requires more == [] || more == [Stats(events, consumed + 1, p)]
    requires more == [] ==> !Urgent(events, consumed, n)
    ensures PublishedOk(events, p, n, published + more, consumed + 1)
  {
    assert more != [] ==> (published + more)[|published|] == more[0];
  }

  lemma FinishedSnoc(log: seq<Event>, e: Event)
    ensures HostsFinished(log + [e]) == HostsFinished(log) + if Terminal(e) then 1 else 0
  {
    assert (log + [e])[..|log|] == log;
  }

  /** The body of the drain loop up to the publishing decision. */
  method Handle(progress: ScanProgress, event: Event)
    requires progress.Valid()
    modifies progress
    ensures progress.Valid() && progress.log == old(progress.log) + [event]
    ensures progress.phase == if event.PortDone? && progress.portsScanned == progress.hostsTotal * progress.portsPerHost
                              then Analyzing else old(progress.phase)
  {
    match event
    case PortDone(h, result) =>
      progress.RecordPort(h, result);
      if progress.portsScanned == progress.PortsTotal() { progress.SetPhase(Analyzing); }
    case HostFailed(h) => progress.RecordScanError(h);
    case HostDone(h, results) => progress.RecordHostResult(h, results);
  }

  /** What the drain loop has established after consuming `consumed` events. */
  ghost predicate DrainedTo(events: seq<Event>, p: nat, n: nat, log: seq<Event>,
                            published: seq<Publication>, consumed: nat, hostsFinished: nat) {
    && consumed <= |events| && log == events[..consumed]
    && hostsFinished == HostsFinished(log) <= n
    && (forall k :: 0 <= k < consumed ==> HostsFinished(events[..k]) < n)
    && PublishedOk(events, p, n, published, consumed)
  }

  lemma DrainOne(events: seq<Event>, p: nat, n: nat, log: seq<Event>, published: seq<Publication>,
                 consumed: nat, hostsFinished: nat, more: seq<Publication>)
    requires DrainedTo(events, p, n, log, published, consumed, hostsFinished)
    requires hostsFinished < n && consumed < |events|
    requires more == [] || more == [Stats(events, consumed + 1, p)]
    requires more == [] ==> !Urgent(events, consumed, n)
    ensures DrainedTo(events, p, n, log + [events[consumed]], published + more, consumed + 1,
                      hostsFinished + if Terminal(events[consumed]) then 1 else 0)
  {
    assert events[..consumed + 1] == log + [events[consumed]];
    FinishedSnoc(log, events[consumed]);
    PublishStep(events, p, n, published, consumed, more);
  }

  lemma {:induction false} MoreToCome(events: seq<Event>, consumed: nat)
    requires consumed <= |events| && HostsFinished(events[..consumed]) < HostsFinished(events)
    ensures consumed < |events|
    ensures HostsFinished(events[..consumed + 1])
            == HostsFinished(events[..consumed]) + if Terminal(events[consumed]) then 1 else 0
  {
    assert events[..|events|] == events;
    assert events[..consumed + 1] == events[..consumed] + [events[consumed]];
    FinishedSnoc(events[..consumed], events[consumed]);
  }

  /** Fingerprinting, enriching or storing the host's result raises. */
  predicate Raises(events: seq<Event>, faulty: seq<bool>, k: nat)
    requires k < |events| == |faulty|
  {
    events[k].HostDone? && faulty[k]
  }

  /** None of the first events has raised. */
  predicate Handled(events: seq<Event>, faulty: seq<bool>, consumed: nat)
    requires consumed <= |events| == |faulty|
  {
    consumed == 0 || (Handled(events, faulty, consumed - 1) && !Raises(events, faulty, consumed - 1))
  }

  lemma {:induction false} HandledMeans(events: seq<Event>, faulty: seq<bool>, consumed: nat)
    requires consumed <= |events| == |faulty| && Handled(events, faulty, consumed)
    ensures forall k :: 0 <= k < consumed ==> !(events[k].HostDone? && faulty[k])
  {
    if consumed > 0 { HandledMeans(events, faulty, consumed - 1); }
  }

  /** Consumes `events`, as the queue delivers them, until `n` hosts have ended or one result
      cannot be handled. `clock[i]` is the time after handling event `i`. */
  method Drain(progress: ScanProgress, n: nat, events: seq<Event>, faulty: seq<bool>, clock: seq<real>, start: real)
    returns (published: seq<Publication>, consumed: nat, failed: bool)
    requires progress.Valid() && progress.log == []
    requires HostsFinished(events) >= n && |clock| == |faulty| == |events|
    modifies progress
    ensures progress.Valid()
    ensures DrainedTo(events, progress.portsPerHost, n, progress.log, published, consumed, HostsFinished(progress.log))
    ensures Prompt(events, progress.portsPerHost, n, clock, start, published, consumed)
    ensures progress.phase == if AllPortsIn(progress.log, progress.portsPerHost, progress.hostsTotal * progress.portsPerHost)
                              then Analyzing else old(progress.phase)
    ensures forall k :: 0 <= k < consumed ==> !(events[k].HostDone? && faulty[k])
    ensures if failed then HostsFinished(progress.log) < n && consumed < |events|
                           && events[consumed].HostDone? && faulty[consumed]
            else HostsFinished(progress.log) == n
  {
    published := [];
    consumed := 0;
    failed := false;
    var hostsFinished: nat, lastEmit: real := 0, start;
    while hostsFinished < n && !failed
      invariant progress.Valid()
      invariant DrainedTo(events, progress.portsPerHost, n, progress.log, published, consumed, hostsFinished)
      invariant Prompt(events, progress.portsPerHost, n, clock, start, published, consumed)
      invariant lastEmit == LastEmit(events, clock, start, n, consumed)
      invariant PhaseOk(progress, old(progress.phase))
      invariant Handled(events, faulty, consumed)
      invariant failed ==> hostsFinished < n && consumed < |events| && Raises(events, faulty, consumed)
      decreases |events| - consumed, !failed
    {
      MoreToCome(events, consumed);
      if Raises(events, faulty, consumed) {
        failed := true;
      } else {
        var more;
        hostsFinished, lastEmit, more :=
          DrainTurn(progress, n, events, consumed, hostsFinished, clock, start, lastEmit, old(progress.phase), published);
        published := published + more;
        consumed := consumed + 1;
      }
    }
    HandledMeans(events, faulty, consumed);
  }

  /** The body of the drain loop: handle one event, publish if due. */
  method DrainTurn(progress: ScanProgress, n: nat, events: seq<Event>, consumed: nat, finished: nat,
                   clock: seq<real>, ghost start: real, last: real, ghost first: Phase, ghost published: seq<Publication>)
    returns (hostsFinished: nat, lastEmit: real, more: seq<Publication>)
    requires progress.Valid() && finished < n && consumed < |events|
    requires DrainedTo(events, progress.portsPerHost, n, progress.log, published, consumed, finished)
    requires |clock| == |events| && Prompt(events, progress.portsPerHost, n, clock, start, published, consumed)
    requires last == LastEmit(events, clock, start, n, consumed) && PhaseOk(progress, first)
    modifies progress
    ensures progress.Valid()
    ensures DrainedTo(events, progress.portsPerHost, n, progress.log, published + more, consumed + 1, hostsFinished)
    ensures Prompt(events, progress.portsPerHost, n, clock, start, published + more, consumed + 1)
    ensures more == if clock[consumed] - last >= 0.5 || Urgent(events, consumed, n)
                    then [Stats(events, consumed + 1, progress.portsPerHost)] else []
    ensures PhaseOk(progress, first)
    ensures lastEmit == (if more != [] then clock[consumed] else last) == LastEmit(events, clock, start, n, consumed + 1)
  {
    var now := clock[consumed];
    var event := events[consumed];
    AllPortsStep(progress.log, event, progress.portsPerHost, progress.hostsTotal * progress.portsPerHost);
    ghost var before := progress.log;
    assert events[..consumed + 1] == before + [event];
    FinishedSnoc(before, event);
    var stats := HandleAndSnapshot(progress, event);
    hostsFinished := if Terminal(event) then finished + 1 else finished;
    if event.HostDone? { SomeOpen(event.results); }
    var hasNewService := event.HostDone? && OpenPorts(event.results) != [];
    more, lastEmit := [], last;
    if now - last >= 0.5 || hasNewService || hostsFinished == n {
      more := [Publication(consumed + 1, stats)];
      lastEmit := now;
    }
    DrainOne(events, progress.portsPerHost, n, before, published, consumed, finished, more);
    PromptStep(events, progress.portsPerHost, n, clock, start, published, consumed, more);
  }

  /** Some port report was the one that made the ports counted the ports to scan. */
  ghost predicate AllPortsIn(log: seq<Event>, p: nat, total: nat) {
    exists k :: 0 <= k < |log| && log[k].PortDone? && Replay(log[..k + 1], p).counters.portsScanned == total
  }

  /** The phase shown has turned to "analyzing" exactly if all ports are in. */
  ghost predicate PhaseOk(progress: ScanProgress, first: Phase)
    reads progress
  {
    progress.phase == if AllPortsIn(progress.log, progress.portsPerHost, progress.hostsTotal * progress.portsPerHost)
                      then Analyzing else first
  }

  lemma AllPortsStep(log: seq<Event>, e: Event, p: nat, total: nat)
    ensures AllPortsIn(log + [e], p, total) <==>
            AllPortsIn(log, p, total) || (e.PortDone? && Replay(log + [e], p).counters.portsScanned == total)
  {
    var more := log + [e];
    assert more[..|log| + 1] == more && more[|log|] == e;
    forall k | 0 <= k < |log| ensures more[..k + 1] == log[..k + 1] && more[k] == log[k] {}
    if AllPortsIn(log, p, total) {
      var k :| 0 <= k < |log| && log[k].PortDone? && Replay(log[..k + 1], p).counters.portsScanned == total;
      assert more[..k + 1] == log[..k + 1] && more[k].PortDone?;
    }
  }

  method HandleAndSnapshot(progress: ScanProgress, event: Event) returns (stats: Counters)
    requires progress.Valid()
    modifies progress
    ensures progress.Valid() && progress.log == old(progress.log) + [event]
    ensures progress.phase == if event.PortDone? && stats.portsScanned == progress.hostsTotal * progress.portsPerHost
                              then Analyzing else old(progress.phase)
    ensures stats == Replay(progress.log, progress.portsPerHost).counters
  {
    Handle(progress, event);
    stats := progress.Snapshot();
  }

  /** Every publication is the exact replay of some prefix of the events. */
  ghost predicate AllShown(events: seq<Event>, p: nat, published: seq<Publication>) {
    forall i :: 0 <= i < |published| ==>
      published[i].consumed <= |events| && published[i] == Stats(events, published[i].consumed, p)
  }

  lemma ShownTogether(events: seq<Event>, p: nat, a: seq<Publication>, b: seq<Publication>)
    requires AllShown(events, p, a) && AllShown(events, p, b)
    ensures AllShown(events, p, a + b)
  {
  }

  /** What the drain loop has published shows prefixes of what it has consumed. */
  lemma ShownByLog(events: seq<Event>, p: nat, n: nat, published: seq<Publication>, consumed: nat)
    requires consumed <= |events| && PublishedOk(events, p, n, published, consumed)
    ensures AllShown(events[..consumed], p, published)
    ensures AllShown(events[..consumed], p, [Stats(events, 0, p)])
  {
    forall i | 0 <= i < |published|
      ensures published[i].consumed <= consumed && published[i] == Stats(events[..consumed], published[i].consumed, p)
    {
      assert events[..consumed][..published[i].consumed] == events[..published[i].consumed];
    }
    assert events[..consumed][..0] == events[..0];
  }

  /** How the run ends, with the statistics the job row is left with. */
  datatype Outcome = Completed(stats: Counters) | Failed(stats: Counters)

  /** A run from its first snapshot on: publish the empty progress, drain, and finish. A run that
      fails rolls back to the last snapshot it published; one that does not has published every
      consumed event. */
  method Coordinate(progress: ScanProgress, n: nat, events: seq<Event>, faulty: seq<bool>, clock: seq<real>, start: real)
    returns (published: seq<Publication>, outcome: Outcome)
    requires progress.Valid() && progress.log == []
    requires HostsFinished(events) >= n && |clock| == |faulty| == |events|
    modifies progress
    ensures progress.Valid() && progress.log <= events
    ensures AllShown(progress.log, progress.portsPerHost, published)
    ensures exists drained ::
              && PublishedOk(events, progress.portsPerHost, n, drained, |progress.log|)
              && Prompt(events, progress.portsPerHost, n, clock, start, drained, |progress.log|)
              && published == [Stats(events, 0, progress.portsPerHost)] + drained
                              + if outcome.Completed?
                                   && !AllPortsIn(progress.log, progress.portsPerHost, progress.hostsTotal * progress.portsPerHost)
                                   && (outcome.stats.portsScanned > 0 || outcome.stats.errors > 0)
                                then [Stats(events, |progress.log|, progress.portsPerHost)] else []
    ensures published != [] && published[|published| - 1].stats == outcome.stats
    ensures forall k :: 0 <= k < |progress.log| ==> !(events[k].HostDone? && faulty[k])
    ensures outcome.Completed? ==>
              && progress.phase == Phase.Completed && HostsFinished(progress.log) == n
              && outcome.stats == Replay(progress.log, progress.portsPerHost).counters
    ensures outcome.Failed? ==>
              && HostsFinished(progress.log) < n && |progress.log| < |events|
              && events[|progress.log|].HostDone? && faulty[|progress.log|]
  {
    progress.SetPhase(Scanning);
    assert events[..0] == progress.log;
    published := [Publication(0, progress.Snapshot())];
    assert published == [Stats(events, 0, progress.portsPerHost)];
    var drained, consumed, failed := Drain(progress, n, events, faulty, clock, start);
    assert progress.log == events[..consumed] <= events;
    ShownByLog(events, progress.portsPerHost, n, drained, consumed);
    ShownTogether(progress.log, progress.portsPerHost, published, drained);
    published := published + drained;
    if failed { return published, Failed(published[|published| - 1].stats); }
    LastShows(events, progress.portsPerHost, n, published, drained, consumed);
    var again, final := Conclude(progress);
    if again {
      assert progress.log[..consumed] == progress.log;
      ShownTogether(progress.log, progress.portsPerHost, published, [Publication(consumed, final)]);
      published := published + [Publication(consumed, final)];
    }
    outcome := Outcome.Completed(final);
  }

  lemma {:induction false} LastShows(events: seq<Event>, p: nat, n: nat, published: seq<Publication>, drained: seq<Publication>, consumed: nat)
    requires consumed <= |events| && PublishedOk(events, p, n, drained, consumed)
    requires HostsFinished(events[..consumed]) == n && forall k :: 0 <= k < consumed ==> HostsFinished(events[..k]) < n
    requires published == [Stats(events, 0, p)] + drained
    ensures published[|published| - 1].stats == Replay(events[..consumed], p).counters
  {
    if n > 0 {
      LastIsUrgent(events, p, n, drained, consumed);
    } else {
      assert consumed > 0 ==> HostsFinished(events[..0]) < n;
      assert drained != [] ==> drained[|drained| - 1].consumed <= consumed;
    }
  }

  /** Walks the phases to the end; an extra snapshot goes out if "analyzing" was never shown. */
  method Conclude(progress: ScanProgress) returns (again: bool, final: Counters)
    requires progress.Valid()
    modifies progress`phase
    ensures progress.Valid() && progress.phase == Phase.Completed
    ensures final == progress.Snapshot()
    ensures again <==> old(progress.phase) != Analyzing && (final.portsScanned > 0 || final.errors > 0)
  {
    again := false;
    if progress.phase != Analyzing {
      progress.SetPhase(Analyzing);
      again := progress.portsScanned > 0 || progress.errors > 0;
    }
    progress.SetPhase(Phase.Completed);
    final := progress.Snapshot();
  }

  lemma {:induction false} LastIsUrgent(events: seq<Event>, p: nat, n: nat, published: seq<Publication>, consumed: nat)
    requires consumed <= |events| && PublishedOk(events, p, n, published, consumed)
    requires n > 0 && HostsFinished(events[..consumed]) == n
    ensures published != [] && published[|published| - 1] == Stats(events, consumed, p)
  {
    assert Urgent(events, consumed - 1, n);
    assert Stats(events, consumed, p) in published;
  }

  /** Every snapshot published during a run, failed or not, is conserved: whatever the schedule, if
      the accumulator's log is what the run consumed, named by address. */
  lemma PublicationsConserved(cfg: Config, run: seq<State>, i: nat, log: seq<Event>, published: seq<Publication>)
    requires IsRun(cfg, run) && i < |run| && CountsSafely(cfg)
    requires log == Told(cfg.ips, run[i].log) && AllShown(log, cfg.ports, published)
    ensures forall x :: x in published ==> Conserved(x.stats, |cfg.ips|, cfg.ports)
  {
    RunInv(cfg, run, i);
    StatePublicationsConserved(cfg, run[i], published);
  }

  lemma StatePublicationsConserved(cfg: Config, s: State, published: seq<Publication>)
    requires Inv(cfg, s) && CountsSafely(cfg) && AllShown(Told(cfg.ips, s.log), cfg.ports, published)
    ensures forall x :: x in published ==> Conserved(x.stats, |cfg.ips|, cfg.ports)
  {
    LogPrefix(cfg, s);
    SentAdmitted(cfg, s);
    forall x | x in published ensures Conserved(x.stats, |cfg.ips|, cfg.ports) {
      PrefixOk(s.log, x.consumed, |cfg.ips|, cfg.ports);
      ToldPrefix(cfg.ips, s.log, x.consumed);
      SeenConserved(cfg, s.log[..x.consumed]);
    }
  }

  /** A job planned under a guard and run under the same guard never fails a host at the
      gate: every failed host had a port that raised. */
  lemma PlannedRunHasNoGateErrors(g: Guard.ScopeGuard, requested: seq<Guard.Text>, cap: nat, job: Planning.Job,
                                  cfg: Config, run: seq<State>, i: nat, h: nat)
    requires Planning.Planned(g, requested, cap, job)
    requires cfg.guard == g && cfg.ips == Planning.Expansion(job.authorized)
    requires IsRun(cfg, run) && i < |run| && h < |run[i].hosts| == |cfg.ips| && run[i].hosts[h].task == Ended(false)
    ensures SomeRaised(run[i].hosts[h].ports)
  {
    Planning.PlannedJobPassesTheGate(g, requested, cap, job);
    assert cfg.ips[h] in cfg.ips;
    WhyHostsFail(cfg, run, i, h);
  }

  /** From the accepted plan to the counters: whatever happens in a run of a planned job, its
      counters are conserved. */
  lemma {:induction false} PlannedRunConserves(g: Guard.ScopeGuard, requested: seq<Guard.Text>, cap: nat, job: Planning.Job,
                            cfg: Config, run: seq<State>, i: nat)
    requires Planning.Planned(g, requested, cap, job) && cfg.ips == Planning.Expansion(job.authorized)
    requires cfg.ports > 0 && IsRun(cfg, run) && i < |run|
    ensures Conserved(Seen(cfg, run[i].log), |cfg.ips|, cfg.ports) && |cfg.ips| <= cap
  {
    Planning.PlannedJobPassesTheGate(g, requested, cap, job);
    RunConserves(cfg, run, i);
  }

  /** And when its drain loop ends, they are exact. */
  lemma {:induction false} PlannedRunCompletes(g: Guard.ScopeGuard, requested: seq<Guard.Text>, cap: nat, job: Planning.Job,
                            cfg: Config, run: seq<State>, i: nat)
    requires Planning.Planned(g, requested, cap, job) && cfg.ips == Planning.Expansion(job.authorized)
    requires cfg.ports > 0 && IsRun(cfg, run) && i < |run| && HostsFinished(run[i].log) == |cfg.ips|
    ensures var c := Seen(cfg, run[i].log);
            && c.hostsAnalyzed + c.errors == c.hostsScanned == |cfg.ips|
            && (c.errors == 0 ==> c.portsScanned == |cfg.ips| * cfg.ports)
  {
    Planning.PlannedJobPassesTheGate(g, requested, cap, job);
    RunInv(cfg, run, i);
    DrainedCountersExact(cfg, run[i]);
  }
}
