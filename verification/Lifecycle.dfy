/** The life of one job row under any number of concurrent run requests: committed state,
    uncommitted session overlays, and what is published. */
module Lifecycle {
  import opened Wrappers

  datatype Status = Pending | Running | Completed | Failed

  datatype Audit = Submitted | Started | Finished(verdict: Status)

  /** A committed job row with its audit rows; `stats` stands for the JSON progress. */
  datatype Row = Row(status: Status, stats: nat, audit: seq<Audit>)

  /** What a commit is followed by. */
  datatype Stage = Claim | Progress | Last

  /** One run request: the claim, then the runner in its own session. */
  datatype Phase =
    | Arrived
    | Refused                              // 404 or 409
    | Claiming(overlay: Row)               // the conditional UPDATE matched; row lock held
    | Committed(stage: Stage)              // before `session.refresh`
    | Refreshed(stage: Stage, seen: Row)   // before the publish
    | Starting                             // the runner is about to load the job
    | Looping                              // inside the `try` block
    | Dirty(overlay: Row, stage: Stage)    // changes in the session, not committed
    | Completing(overlay: Row)             // status set to completed, still inside `try`
    | Over

  datatype State = State(row: Option<Row>, requests: seq<Phase>, history: seq<Row>, notes: seq<Row>)

  datatype Step =
    | Submit
    | TryClaim | Commit | Refresh | Publish | Load
    | Change(stats: nat) | Complete(stats: nat) | Seal | Fail(stats: nat)

  function Init(n: nat): State {
    State(None, seq(n, _ => Arrived), [], [])
  }

  predicate Terminal(s: Status) { s.Completed? || s.Failed? }

  function AfterPublish(stage: Stage): Phase {
    match stage
    case Claim => Starting
    case Progress => Looping
    case Last => Over
  }

  function Become(s: State, i: nat, p: Phase): State
    requires i < |s.requests|
  {
    s.(requests := s.requests[i := p])
  }

  function Store(s: State, i: nat, row: Row, stage: Stage): State
    requires i < |s.requests|
  {
    Become(s, i, Committed(stage)).(row := Some(row), history := s.history + [row])
  }

  /** Some other session holds the row lock, so an UPDATE has to wait. */
  predicate Locked(s: State) {
    exists j :: 0 <= j < |s.requests| && s.requests[j].Claiming?
  }

  /** Request `i` takes a step; `Submit` ignores `i`. */
  ghost predicate Next(s: State, i: nat, step: Step, s': State) {
    && i < |s.requests|
    && var p := s.requests[i];
    match step
    case Submit =>
      && s.row.None?
      && var row := Row(Pending, 0, [Submitted]); s' == s.(row := Some(row), history := [row])
    case TryClaim =>
      && p.Arrived? && !Locked(s)
      && s' == Become(s, i, if s.row.Some? && s.row.value.status.Pending?
                            then Claiming(s.row.value.(status := Running, audit := s.row.value.audit + [Started]))
                            else Refused)
    case Commit =>
      || (p.Claiming? && s' == Store(s, i, p.overlay, Claim))
      || (p.Dirty? && s' == Store(s, i, p.overlay, p.stage))
    case Refresh =>
      p.Committed? && s.row.Some? && s' == Become(s, i, Refreshed(p.stage, s.row.value))
    case Publish =>
      p.Refreshed? && s' == Become(s, i, AfterPublish(p.stage)).(notes := s.notes + [p.seen])
    case Load =>
      && p.Starting? && s.row.Some?
      && s' == Become(s, i, match s.row.value.status
                            case Running => Looping
                            case Pending => Dirty(s.row.value.(status := Running, audit := s.row.value.audit + [Started]), Claim)
                            case _ => Over)
    case Change(stats) =>
      p.Looping? && s.row.Some? && s' == Become(s, i, Dirty(s.row.value.(stats := stats), Progress))
    case Complete(stats) =>
      && p.Looping? && s.row.Some?
      && s' == Become(s, i, Completing(s.row.value.(status := Completed, stats := stats)))
    case Seal =>
      && p.Completing?
      && s' == Become(s, i, Dirty(p.overlay.(audit := p.overlay.audit + [Finished(Completed)]), Last))
    case Fail(stats) =>
      // any exception inside `try`: roll back, reload, mark failed
      && (p.Looping? || p.Completing? || (p.Dirty? && p.stage == Progress)) && s.row.Some?
      && s' == Become(s, i, Dirty(s.row.value.(status := Failed, stats := stats,
                                               audit := s.row.value.audit + [Finished(Failed)]), Last))
  }

  // ---- the invariant --------------------------------------------------------------------

  predicate Active(p: Phase) { !p.Arrived? && !p.Refused? }

  /** The audit trail that goes with a status: both directions, row by row. */
  function Trail(status: Status): seq<Audit> {
    match status
    case Pending => [Submitted]
    case Running => [Submitted, Started]
    case _ => [Submitted, Started, Finished(status)]
  }

  /** What the request that owns the job may be doing, given the committed row. */
  predicate OwnerOk(p: Phase, row: Row) {
    match p
    case Claiming(o) => row.status.Pending? && o == Row(Running, row.stats, Trail(Running))
    case Committed(stage) => if stage == Last then Terminal(row.status) else row.status.Running?
    case Refreshed(stage, seen) => seen == row && if stage == Last then Terminal(row.status) else row.status.Running?
    case Starting => row.status.Running?
    case Looping => row.status.Running?
    case Dirty(o, stage) =>
      && row.status.Running? && stage != Claim && o.audit == Trail(o.status)
      && if stage == Last then Terminal(o.status) else o.status.Running?
    case Completing(o) => row.status.Running? && o.status.Completed? && o.audit == Trail(Running)
    case Over => Terminal(row.status)
    case _ => true
  }

  /** All commits but the submission have been announced, except one just made. */
  predicate NotesOk(s: State) {
    if s.history == [] then s.notes == []
    else if exists i :: 0 <= i < |s.requests| && (s.requests[i].Committed? || s.requests[i].Refreshed?)
    then s.notes + [s.history[|s.history| - 1]] == s.history[1..]
    else s.notes == s.history[1..]
  }

  ghost predicate Inv(s: State) {
    && (forall i, j :: 0 <= i < j < |s.requests| ==> !(Active(s.requests[i]) && Active(s.requests[j])))
    && (s.row.None? ==> s.history == [] && forall i :: 0 <= i < |s.requests| ==> !Active(s.requests[i]))
    && (s.row.Some? ==>
          && s.history != [] && s.history[|s.history| - 1] == s.row.value
          && s.row.value.audit == Trail(s.row.value.status)
          && (forall i :: 0 <= i < |s.requests| && Active(s.requests[i]) ==> OwnerOk(s.requests[i], s.row.value))
          && (!s.row.value.status.Pending? ==> exists i :: 0 <= i < |s.requests| && Active(s.requests[i])))
    && NotesOk(s)
  }

  lemma InitInv(n: nat)
    ensures Inv(Init(n))
  {
  }

  lemma OthersInactive(s: State, i: nat)
    requires Inv(s) && i < |s.requests| && Active(s.requests[i])
    ensures forall j :: 0 <= j < |s.requests| && j != i ==> !Active(s.requests[j])
  {
  }

  /** Steps that neither commit nor announce, of an owner that stays an owner. */
  lemma QuietInv(s: State, i: nat, p: Phase, s': State)
    requires Inv(s) && i < |s.requests| && Active(s.requests[i]) && Active(p) && s' == Become(s, i, p)
    requires s.row.Some? && OwnerOk(p, s.row.value)
    requires s.requests[i].Committed? || s.requests[i].Refreshed? <==> p.Committed? || p.Refreshed?
    ensures Inv(s')
  {
    OthersInactive(s, i);
    assert s'.requests[i] == p;
    assert forall j :: 0 <= j < |s.requests| && j != i ==> s'.requests[j] == s.requests[j];
  }

  lemma CommitInv(s: State, i: nat, row: Row, stage: Stage, s': State)
    requires Inv(s) && i < |s.requests| && Active(s.requests[i]) && s.row.Some? && s' == Store(s, i, row, stage)
    requires !s.requests[i].Committed? && !s.requests[i].Refreshed?
    requires row.audit == Trail(row.status) && OwnerOk(Committed(stage), row)
    ensures Inv(s')
  {
    OthersInactive(s, i);
    assert s'.requests[i] == Committed(stage);
    assert forall j :: 0 <= j < |s.requests| && j != i ==> s'.requests[j] == s.requests[j];
    assert s'.history[1..] == s.history[1..] + [row];
  }

  lemma PublishInv(s: State, i: nat, s': State)
    requires Inv(s) && Next(s, i, Publish, s')
    ensures Inv(s')
  {
    OthersInactive(s, i);
    assert s'.requests[i] == AfterPublish(s.requests[i].stage);
    assert forall j :: 0 <= j < |s.requests| && j != i ==> s'.requests[j] == s.requests[j];
  }

  lemma ClaimInv(s: State, i: nat, s': State)
    requires Inv(s) && Next(s, i, TryClaim, s')
    ensures Inv(s')
  {
    assert forall j :: 0 <= j < |s.requests| && j != i ==> s'.requests[j] == s.requests[j];
    if s.row.Some? && s.row.value.status.Pending? {
      forall j | 0 <= j < |s.requests| ensures !Active(s.requests[j]) {
        assert Active(s.requests[j]) ==> OwnerOk(s.requests[j], s.row.value);
      }
      assert s'.requests[i].Claiming?;
    } else {
      assert s.row.Some? && !s.row.value.status.Pending? ==> exists k :: 0 <= k < |s.requests| && Active(s.requests[k]) && Active(s'.requests[k]);
    }
  }

  lemma {:induction false} NextInv(s: State, i: nat, step: Step, s': State)
    requires Inv(s) && Next(s, i, step, s')
    ensures Inv(s')
  {
    var p := s.requests[i];
    match step
    case Submit =>
    case TryClaim => ClaimInv(s, i, s');
    case Commit => CommitInv(s, i, p.overlay, if p.Claiming? then Claim else p.stage, s');
    case Publish => PublishInv(s, i, s');
    case _ => QuietInv(s, i, s'.requests[i], s');
  }

  // ---- main results -----------------------------------------------------------------------

  ghost predicate StepsTo(s: State, s': State) {
    exists i, step :: Next(s, i, step, s')
  }

  /** The run's `k`th step is a step of the protocol. */
  ghost predicate StepAt(run: seq<State>, k: nat)
    requires k + 1 < |run|
  {
    StepsTo(run[k], run[k + 1])
  }

  ghost predicate IsRun(n: nat, run: seq<State>) {
    && run != [] && run[0] == Init(n)
    && forall k :: 0 <= k < |run| - 1 ==> StepAt(run, k)
  }

  lemma {:induction false} RunInv(n: nat, run: seq<State>, k: nat)
    requires IsRun(n, run) && k < |run|
    ensures Inv(run[k])
  {
    if k == 0 {
      InitInv(n);
    } else {
      RunInv(n, run, k - 1);
      assert StepAt(run, k - 1);
      var i, step :| Next(run[k - 1], i, step, run[k]);
      NextInv(run[k - 1], i, step, run[k]);
    }
  }

  /** At most one request ever gets past the claim; the audit trail and the status determine
      each other; and the announcements are the committed rows, in order, all but the last
      at most. */
  lemma LifecycleSound(n: nat, run: seq<State>, k: nat)
    requires IsRun(n, run) && k < |run|
    ensures forall i, j :: 0 <= i < j < |run[k].requests| ==>
                             !(Active(run[k].requests[i]) && Active(run[k].requests[j]))
    ensures run[k].row.Some? ==>
              run[k].row.value.audit ==
              match run[k].row.value.status
              case Pending => [Submitted]
              case Running => [Submitted, Started]
              case Completed => [Submitted, Started, Finished(Completed)]
              case Failed => [Submitted, Started, Finished(Failed)]
    ensures run[k].row.Some? ==> run[k].history != [] && run[k].row.value == run[k].history[|run[k].history| - 1]
    ensures run[k].row.Some? ==>
              run[k].notes == run[k].history[1..] || run[k].notes + [run[k].row.value] == run[k].history[1..]
  {
    RunInv(n, run, k);
  }

  /** What a runner announces is the row committed at that moment. */
  lemma AnnouncementIsCommittedRow(n: nat, run: seq<State>, k: nat, i: nat, s': State)
    requires IsRun(n, run) && k < |run| && Next(run[k], i, Publish, s')
    ensures run[k].row == s'.row == Some(s'.notes[|s'.notes| - 1])
  {
    RunInv(n, run, k);
  }

  /** The runner always finds the job already running: its own start branch and its refusal
      are never taken after a claim. */
  lemma RunnerFindsItRunning(n: nat, run: seq<State>, k: nat, i: nat, s': State)
    requires IsRun(n, run) && k < |run| && Next(run[k], i, Load, s')
    ensures s'.requests[i].Looping?
  {
    RunInv(n, run, k);
  }

  /** A terminal row never changes again, and the trail of any row only ever grows. */
  lemma {:induction false} TerminalIsFinal(n: nat, run: seq<State>, k: nat, m: nat)
    requires IsRun(n, run) && k <= m < |run| && run[k].row.Some?
    ensures run[m].row.Some? && run[k].row.value.audit <= run[m].row.value.audit
    ensures run[k].row.value.status == Completed || run[k].row.value.status == Failed ==> run[m].row == run[k].row
  {
    if k < m {
      TerminalIsFinal(n, run, k, m - 1);
      RunInv(n, run, m - 1);
      assert StepAt(run, m - 1);
      var i, step :| Next(run[m - 1], i, step, run[m]);
      StepGrows(run[m - 1], i, step, run[m]);
    }
  }

  lemma StepGrows(s: State, i: nat, step: Step, s': State)
    requires Inv(s) && s.row.Some? && Next(s, i, step, s')
    ensures s'.row.Some? && s.row.value.audit <= s'.row.value.audit
    ensures Terminal(s.row.value.status) ==> s'.row == s.row
  {
    NextInv(s, i, step, s');
    assert OwnerOk(s.requests[i], s.row.value) || !Active(s.requests[i]);
  }

  // ---- what can happen ------------------------------------------------------------------------

  ghost predicate LeadsTo(n: nat, run: seq<State>, s: State) { IsRun(n, run) && run[|run| - 1] == s }

  ghost predicate Reachable(n: nat, s: State) { exists run :: LeadsTo(n, run, s) }

  lemma Reaches(n: nat, s: State, i: nat, step: Step, s': State)
    requires Reachable(n, s) && Next(s, i, step, s')
    ensures Reachable(n, s')
  {
    var run :| LeadsTo(n, run, s);
    var more := run + [s'];
    forall k | 0 <= k < |more| - 1 ensures StepAt(more, k) {
      if k < |run| - 1 { assert StepAt(run, k); } else { assert StepsTo(more[k], more[k + 1]); }
    }
    assert LeadsTo(n, more, s');
  }

  /** The state after the request's overlay is committed, refreshed and announced. */
  function Announced(s: State, i: nat, row: Row, stage: Stage): State
    requires i < |s.requests|
  {
    Become(s, i, AfterPublish(stage)).(row := Some(row), history := s.history + [row], notes := s.notes + [row])
  }

  lemma CommitReaches(n: nat, s: State, i: nat, row: Row, stage: Stage)
    requires Reachable(n, s) && i < |s.requests|
    requires s.requests[i] == Dirty(row, stage) || (s.requests[i] == Claiming(row) && stage == Claim)
    ensures Reachable(n, Announced(s, i, row, stage))
  {
    var committed := Store(s, i, row, stage);
    Reaches(n, s, i, Commit, committed);
    var refreshed := Become(committed, i, Refreshed(stage, row));
    Reaches(n, committed, i, Refresh, refreshed);
    Reaches(n, refreshed, i, Publish, Announced(s, i, row, stage));
  }

  /** Rows with the progress of a running job. */
  function RunningRows(progress: seq<nat>): seq<Row> {
    seq(|progress|, k requires 0 <= k < |progress| => Row(Running, progress[k], [Submitted, Started]))
  }

  /** The job is running for request `i`, and all its rows but the first have been announced. */
  ghost predicate RunningFor(s: State, i: nat, rows: seq<Row>) {
    && i < |s.requests| && s.requests[i] == Looping && rows != []
    && s.history == [Row(Pending, 0, [Submitted])] + rows && s.notes == rows
    && s.row == Some(rows[|rows| - 1]) && s.row.value == Row(Running, s.row.value.stats, [Submitted, Started])
  }

  lemma ClaimReaches(n: nat, i: nat) returns (s: State)
    requires i < n
    ensures Reachable(n, s) && RunningFor(s, i, [Row(Running, 0, [Submitted, Started])])
  {
    var init, pending, running := Init(n), Row(Pending, 0, [Submitted]), Row(Running, 0, [Submitted, Started]);
    assert LeadsTo(n, [init], init);
    var submitted := init.(row := Some(pending), history := [pending]);
    Reaches(n, init, i, Submit, submitted);
    var claiming := Become(submitted, i, Claiming(running));
    assert pending.audit + [Started] == running.audit;
    Reaches(n, submitted, i, TryClaim, claiming);
    CommitReaches(n, claiming, i, running, Claim);
    var starting := Announced(claiming, i, running, Claim);
    s := Become(starting, i, Looping);
    Reaches(n, starting, i, Load, s);
  }

  lemma {:induction false} ProgressReaches(n: nat, s: State, i: nat, rows: seq<Row>, progress: seq<nat>) returns (s': State)
    requires Reachable(n, s) && RunningFor(s, i, rows)
    ensures Reachable(n, s') && RunningFor(s', i, rows + RunningRows(progress))
  {
    if progress == [] {
      s' := s;
      assert rows + RunningRows(progress) == rows;
    } else {
      var front, last := progress[..|progress| - 1], progress[|progress| - 1];
      var mid := ProgressReaches(n, s, i, rows, front);
      var row := Row(Running, last, [Submitted, Started]);
      var dirty := Become(mid, i, Dirty(row, Progress));
      Reaches(n, mid, i, Change(last), dirty);
      CommitReaches(n, dirty, i, row, Progress);
      s' := Announced(dirty, i, row, Progress);
      assert rows + RunningRows(progress) == rows + RunningRows(front) + [row];
    }
  }

  lemma EndReaches(n: nat, s: State, i: nat, rows: seq<Row>, last: Row) returns (s': State)
    requires Reachable(n, s) && RunningFor(s, i, rows)
    requires last.status == Completed || last.status == Failed
    requires last.audit == [Submitted, Started, Finished(last.status)]
    ensures Reachable(n, s') && i < |s'.requests| && s'.requests[i] == Over
    ensures s'.history == [Row(Pending, 0, [Submitted])] + rows + [last] && s'.notes == rows + [last]
  {
    var dirty := Become(s, i, Dirty(last, Last));
    assert [Submitted, Started] + [Finished(last.status)] == last.audit;
    if last.status == Completed {
      var completing := Become(s, i, Completing(s.row.value.(status := Completed, stats := last.stats)));
      Reaches(n, s, i, Complete(last.stats), completing);
      Reaches(n, completing, i, Seal, dirty);
    } else {
      Reaches(n, s, i, Fail(last.stats), dirty);
    }
    CommitReaches(n, dirty, i, last, Last);
    s' := Announced(dirty, i, last, Last);
  }

  /** Whichever request comes first, the job can run for it with any progress and end either way: its
      rows are then pending, running with each progress in turn, and ended, with the audit trail of
      each, and all but the first have been announced in that order. */
  lemma AnyLifeHappens(n: nat, i: nat, progress: seq<nat>, verdict: Status, stats: nat) returns (s: State)
    requires i < n && (verdict == Completed || verdict == Failed)
    ensures Reachable(n, s) && i < |s.requests| && s.requests[i] == Over
    ensures s.history == [Row(Pending, 0, [Submitted]), Row(Running, 0, [Submitted, Started])] + RunningRows(progress)
                         + [Row(verdict, stats, [Submitted, Started, Finished(verdict)])]
    ensures s.notes == s.history[1..]
  {
    var first, last := Row(Running, 0, [Submitted, Started]), Row(verdict, stats, [Submitted, Started, Finished(verdict)]);
    var running := ClaimReaches(n, i);
    var mid := ProgressReaches(n, running, i, [first], progress);
    s := EndReaches(n, mid, i, [first] + RunningRows(progress), last);
    assert [Row(Pending, 0, [Submitted])] + ([first] + RunningRows(progress)) + [last]
        == [Row(Pending, 0, [Submitted]), first] + RunningRows(progress) + [last];
  }

  /** A request that comes while the job is running or after it has ended is refused, and changes nothing. */
  lemma LateRequestIsRefused(s: State, j: nat, s': State)
    requires s.row.Some? && s.row.value.status != Pending && Next(s, j, TryClaim, s')
    ensures s' == s.(requests := s'.requests) && s'.requests == s.requests[j := Refused]
  {
  }
}
