/** Live job updates: the server's hub, the client's list, and why they converge. */
module LiveUpdates {
  /** One version of a job row of the engagement in view; `body` is everything else. */
  datatype Job = Job(id: nat, createdAt: int, updatedAt: int, body: nat)

  // ---- the client's merge ---------------------------------------------------------------

  /** Newest version wins, an equal timestamp replaces. */
  function Newest(held: map<nat, Job>, j: Job): map<nat, Job> {
    if j.id in held && j.updatedAt < held[j.id].updatedAt then held else held[j.id := j]
  }

  function MergeAll(held: map<nat, Job>, jobs: seq<Job>): map<nat, Job> {
    if jobs == [] then held else Newest(MergeAll(held, jobs[..|jobs| - 1]), jobs[|jobs| - 1])
  }

  /** Why timestamps have to increase: two versions of a job, neither older than the one held,
      may arrive in either order if and only if their timestamps differ. */
  lemma OrderIrrelevantIffTimesDiffer(held: map<nat, Job>, a: Job, b: Job)
    requires a.id == b.id && a != b
    requires a.id in held ==> held[a.id].updatedAt <= a.updatedAt && held[a.id].updatedAt <= b.updatedAt
    ensures Newest(Newest(held, a), b) == Newest(Newest(held, b), a) <==> a.updatedAt != b.updatedAt
  {
    assert held[a.id := a][a.id := b] == held[a.id := b];
    assert held[a.id := b][a.id := a] == held[a.id := a];
    assert held[a.id := a][a.id] != held[a.id := b][a.id];
  }

  ghost predicate UniqueIds(jobs: seq<Job>) {
    forall i, j :: 0 <= i < j < |jobs| ==> jobs[i].id != jobs[j].id
  }

  ghost predicate NewestFirst(jobs: seq<Job>) {
    forall i, j :: 0 <= i < j < |jobs| ==> jobs[i].createdAt >= jobs[j].createdAt
  }

  /** The list shows exactly the map. */
  ghost predicate Shows(jobs: seq<Job>, held: map<nat, Job>) {
    && UniqueIds(jobs)
    && (forall j :: j in jobs ==> j.id in held && held[j.id] == j)
    && (forall id :: id in held ==> held[id] in jobs && held[id].id == id)
  }

  /** Stable insertion behind every job created at the same time or later. */
  function InsertJob(jobs: seq<Job>, j: Job): seq<Job> {
    if jobs == [] || jobs[|jobs| - 1].createdAt >= j.createdAt then jobs + [j]
    else InsertJob(jobs[..|jobs| - 1], j) + [jobs[|jobs| - 1]]
  }

  lemma {:induction false} InsertJobKeeps(jobs: seq<Job>, j: Job)
    ensures multiset(InsertJob(jobs, j)) == multiset(jobs) + multiset{j}
  {
    if jobs != [] && jobs[|jobs| - 1].createdAt < j.createdAt {
      var front, last := jobs[..|jobs| - 1], jobs[|jobs| - 1];
      assert jobs == front + [last];
      InsertJobKeeps(front, j);
    }
  }

  lemma {:induction false} InsertJobSorts(jobs: seq<Job>, j: Job)
    requires NewestFirst(jobs)
    ensures NewestFirst(InsertJob(jobs, j))
  {
    if jobs != [] && jobs[|jobs| - 1].createdAt < j.createdAt {
      var front, last := jobs[..|jobs| - 1], jobs[|jobs| - 1];
      InsertJobSorts(front, j);
      var r := InsertJob(front, j);
      InsertJobKeeps(front, j);
      forall i | 0 <= i < |r| ensures r[i].createdAt >= last.createdAt {
        assert r[i] in multiset(r);
        assert r[i] in front || r[i] == j;
      }
    }
  }

  /** The jobs created at one instant, in list order. */
  function CreatedAt(jobs: seq<Job>, time: int): seq<Job> {
    if jobs == [] then []
    else
      var last := jobs[|jobs| - 1];
      CreatedAt(jobs[..|jobs| - 1], time) + if last.createdAt == time then [last] else []
  }

  /** Jobs created at one instant stand in the same order in both lists. */
  ghost predicate SameTies(s: seq<Job>, t: seq<Job>) {
    forall time :: CreatedAt(s, time) == CreatedAt(t, time)
  }

  lemma CreatedSnoc(jobs: seq<Job>, j: Job, time: int)
    ensures CreatedAt(jobs + [j], time) == CreatedAt(jobs, time) + if j.createdAt == time then [j] else []
  {
    assert (jobs + [j])[..|jobs|] == jobs;
  }

  lemma {:induction false} InsertJobStable(jobs: seq<Job>, j: Job, time: int)
    ensures CreatedAt(InsertJob(jobs, j), time) == CreatedAt(jobs, time) + if j.createdAt == time then [j] else []
  {
    if jobs == [] || jobs[|jobs| - 1].createdAt >= j.createdAt {
      CreatedSnoc(jobs, j, time);
    } else {
      var front, last := jobs[..|jobs| - 1], jobs[|jobs| - 1];
      InsertJobStable(front, j, time);
      CreatedSnoc(InsertJob(front, j), last, time);
    }
  }

  /** `sort` by descending creation time; a stable sort. */
  method SortJobs(jobs: seq<Job>) returns (r: seq<Job>)
    ensures NewestFirst(r) && multiset(r) == multiset(jobs) && SameTies(r, jobs)
  {
    r := [];
    for i := 0 to |jobs|
      invariant NewestFirst(r) && multiset(r) == multiset(jobs[..i]) && SameTies(r, jobs[..i])
    {
      assert jobs[..i + 1] == jobs[..i] + [jobs[i]];
      InsertJobSorts(r, jobs[i]);
      InsertJobKeeps(r, jobs[i]);
      TiesStep(r, jobs[..i], jobs[i]);
      r := InsertJob(r, jobs[i]);
    }
    assert jobs[..|jobs|] == jobs;
  }

  lemma TiesStep(r: seq<Job>, jobs: seq<Job>, j: Job)
    requires SameTies(r, jobs)
    ensures SameTies(InsertJob(r, j), jobs + [j])
  {
    forall time ensures CreatedAt(InsertJob(r, j), time) == CreatedAt(jobs + [j], time) {
      InsertJobStable(r, j, time);
      CreatedSnoc(jobs, j, time);
    }
  }

  lemma UniqueByCount(jobs: seq<Job>)
    ensures UniqueIds(jobs) <==> forall x, y :: x in jobs && y in jobs && x.id == y.id ==> x == y && multiset(jobs)[x] == 1
  {
    if UniqueIds(jobs) {
      forall x | x in jobs ensures multiset(jobs)[x] == 1 { OneOccurrence(jobs, x); }
    }
    if forall x, y :: x in jobs && y in jobs && x.id == y.id ==> x == y && multiset(jobs)[x] == 1 {
      forall i, j | 0 <= i < j < |jobs| ensures jobs[i].id != jobs[j].id {
        assert jobs == jobs[..j] + jobs[j..];
        assert jobs[i] in jobs[..j] && jobs[j] in jobs[j..];
      }
    }
  }

  lemma {:induction false} OneOccurrence(jobs: seq<Job>, x: Job)
    requires UniqueIds(jobs) && x in jobs
    ensures multiset(jobs)[x] == 1
  {
    var last := jobs[|jobs| - 1];
    var front := jobs[..|jobs| - 1];
    assert jobs == front + [last];
    if x == last {
      assert x !in front;
    } else {
      OneOccurrence(front, x);
    }
  }

  lemma SortShows(jobs: seq<Job>, sorted: seq<Job>, held: map<nat, Job>)
    requires Shows(jobs, held) && multiset(sorted) == multiset(jobs)
    ensures Shows(sorted, held)
  {
    assert forall x :: x in sorted <==> x in multiset(sorted);
    assert forall x :: x in jobs <==> x in multiset(jobs);
    UniqueByCount(jobs);
    UniqueByCount(sorted);
  }

  /** `findIndex`; the length if there is none. */
  function IndexOf(jobs: seq<Job>, id: nat): (k: nat)
    ensures k <= |jobs| && (k < |jobs| ==> jobs[k].id == id) && forall i :: 0 <= i < k ==> jobs[i].id != id
  {
    if jobs == [] || jobs[0].id == id then 0 else 1 + IndexOf(jobs[1..], id)
  }

  method FindIndex(jobs: seq<Job>, id: nat) returns (index: nat)
    ensures index == IndexOf(jobs, id)
  {
    index := 0;
    while index < |jobs| && jobs[index].id != id
      invariant index <= |jobs| && IndexOf(jobs, id) == index + IndexOf(jobs[index..], id)
    {
      assert jobs[index..][1..] == jobs[index + 1..];
      index := index + 1;
    }
  }

  /** The list before sorting: a known job is replaced in its place unless the incoming version is
      older, a new one goes to the end. */
  function Placed(jobs: seq<Job>, incoming: Job): seq<Job> {
    var k := IndexOf(jobs, incoming.id);
    if k == |jobs| then jobs + [incoming]
    else if incoming.updatedAt < jobs[k].updatedAt then jobs
    else jobs[k := incoming]
  }

  class JobsView {
    var jobs: seq<Job>
    ghost var held: map<nat, Job>

    ghost predicate Valid()
      reads this
    {
      Shows(jobs, held) && NewestFirst(jobs)
    }

    constructor ()
      ensures Valid() && held == map[]
    {
      jobs, held := [], map[];
    }

    method UpsertJob(incoming: Job)
      requires Valid()
      modifies this
      ensures Valid() && held == Newest(old(held), incoming)
      ensures forall j :: j in jobs <==>
                if forall k :: k in old(jobs) && k.id == incoming.id ==> k.updatedAt <= incoming.updatedAt
                then j == incoming || (j in old(jobs) && j.id != incoming.id)
                else j in old(jobs)
      ensures SameTies(jobs, Placed(old(jobs), incoming))
    {
      var index := FindIndex(jobs, incoming.id);
      var next := jobs;
      if index < |jobs| {
        if incoming.updatedAt < jobs[index].updatedAt {
          UpsertShown(jobs, jobs, held, incoming);
          return;
        }
        next := jobs[index := incoming];
        ReplaceShows(jobs, held, index, incoming);
      } else {
        next := jobs + [incoming];
        AppendShows(jobs, held, incoming);
      }
      jobs := SortJobs(next);
      held := Newest(held, incoming);
      SortShows(next, jobs, held);
      UpsertShown(old(jobs), jobs, old(held), incoming);
    }

    method MergeJobs(incoming: seq<Job>)
      requires Valid()
      modifies this
      ensures Valid() && held == MergeAll(old(held), incoming)
    {
      for i := 0 to |incoming|
        invariant Valid() && held == MergeAll(old(held), incoming[..i])
      {
        assert incoming[..i + 1][..i] == incoming[..i];
        UpsertJob(incoming[i]);
      }
      assert incoming[..|incoming|] == incoming;
    }
  }

  /** The list after one job has come in, job by job. */
  lemma UpsertShown(jobs: seq<Job>, jobs': seq<Job>, held: map<nat, Job>, incoming: Job)
    requires Shows(jobs, held) && Shows(jobs', Newest(held, incoming))
    ensures forall j :: j in jobs' <==>
              if forall k :: k in jobs && k.id == incoming.id ==> k.updatedAt <= incoming.updatedAt
              then j == incoming || (j in jobs && j.id != incoming.id)
              else j in jobs
  {
    var id := incoming.id;
    var wins := forall k :: k in jobs && k.id == id ==> k.updatedAt <= incoming.updatedAt;
    assert wins <==> !(id in held && incoming.updatedAt < held[id].updatedAt);
    forall j ensures j in jobs' <==> if wins then j == incoming || (j in jobs && j.id != id) else j in jobs {
      ShownJob(jobs, held, j);
      ShownJob(jobs', Newest(held, incoming), j);
    }
  }

  lemma ShownJob(jobs: seq<Job>, held: map<nat, Job>, j: Job)
    requires Shows(jobs, held)
    ensures j in jobs <==> j.id in held && held[j.id] == j
  {
  }

  /** Merging two lists one after the other is merging their concatenation. */
  lemma {:induction false} MergeInOrder(held: map<nat, Job>, s: seq<Job>, t: seq<Job>)
    ensures MergeAll(held, s + t) == MergeAll(MergeAll(held, s), t)
  {
    if t == [] {
      assert s + t == s;
    } else {
      assert (s + t)[..|s + t| - 1] == s + t[..|t| - 1];
      MergeInOrder(held, s, t[..|t| - 1]);
    }
  }

  lemma ReplaceShows(jobs: seq<Job>, held: map<nat, Job>, k: nat, j: Job)
    requires Shows(jobs, held) && k < |jobs| && jobs[k].id == j.id && jobs[k].updatedAt <= j.updatedAt
    ensures Shows(jobs[k := j], Newest(held, j))
  {
    var next, held' := jobs[k := j], Newest(held, j);
    assert next[k] == j;
    forall id | id in held' ensures held'[id] in next && held'[id].id == id {
      if id != j.id {
        var i :| 0 <= i < |jobs| && jobs[i] == held[id];
        assert next[i] == held[id];
      }
    }
    forall x | x in next ensures x.id in held' && held'[x.id] == x {
      var i :| 0 <= i < |next| && next[i] == x;
      if i != k { assert jobs[i] in jobs && jobs[i].id != jobs[k].id; }
    }
  }

  lemma AppendShows(jobs: seq<Job>, held: map<nat, Job>, j: Job)
    requires Shows(jobs, held) && forall i :: 0 <= i < |jobs| ==> jobs[i].id != j.id
    ensures Shows(jobs + [j], Newest(held, j))
  {
    assert j.id !in held;
    assert (jobs + [j])[|jobs|] == j;
  }

  // ---- the server's hub -----------------------------------------------------------------

  function SocketsOf(connections: map<nat, set<nat>>, engagement: nat): set<nat> {
    if engagement in connections then connections[engagement] else {}
  }

  /** The table without the dead sockets of an engagement; an emptied entry is dropped. */
  function Pruned(connections: map<nat, set<nat>>, engagement: nat, dead: set<nat>): map<nat, set<nat>> {
    var left := SocketsOf(connections, engagement) - dead;
    if left == {} then connections - {engagement} else connections[engagement := left]
  }

  lemma PrunedTwice(connections: map<nat, set<nat>>, engagement: nat, dead: set<nat>, dead': set<nat>)
    ensures Pruned(Pruned(connections, engagement, dead), engagement, dead')
            == Pruned(connections, engagement, dead + dead')
  {
    var left := SocketsOf(connections, engagement);
    assert left - dead - dead' == left - (dead + dead');
  }

  /** Pruning takes exactly the dead sockets from their engagement and nothing from others. */
  lemma PrunedExactly(connections: map<nat, set<nat>>, engagement: nat, dead: set<nat>, e: nat)
    ensures SocketsOf(Pruned(connections, engagement, dead), e)
            == SocketsOf(connections, e) - if e == engagement then dead else {}
  {
  }

  lemma PrunedMember(connections: map<nat, set<nat>>, engagement: nat, dead: set<nat>, e: nat, x: nat)
    ensures var after := Pruned(connections, engagement, dead);
            e in after && x in after[e] <==> e in connections && x in connections[e] && !(e == engagement && x in dead)
  {
    var after := Pruned(connections, engagement, dead);
    assert e in after && x in after[e] <==> x in SocketsOf(after, e);
    assert e in connections && x in connections[e] <==> x in SocketsOf(connections, e);
    PrunedExactly(connections, engagement, dead, e);
  }

  class JobEventHub {
    var connections: map<nat, set<nat>>

    /** Empty entries are dropped. */
    ghost predicate Valid()
      reads this
    {
      forall e :: e in connections ==> connections[e] != {}
    }

    constructor ()
      ensures Valid() && connections == map[]
    {
      connections := map[];
    }

    method Connect(engagement: nat, socket: nat)
      requires Valid()
      modifies this
      ensures Valid()
      ensures forall e, x :: e in connections && x in connections[e] <==>
                (e in old(connections) && x in old(connections)[e]) || (e == engagement && x == socket)
    {
      connections := connections[engagement := SocketsOf(connections, engagement) + {socket}];
    }

    method Disconnect(engagement: nat, socket: nat)
      requires Valid()
      modifies this
      ensures Valid()
      ensures connections == Pruned(old(connections), engagement, {socket})
      ensures forall e, x :: e in connections && x in connections[e] <==>
                e in old(connections) && x in old(connections)[e] && !(e == engagement && x == socket)
    {
      forall e, x { PrunedMember(connections, engagement, {socket}, e, x); }
      if engagement !in connections {
        assert connections == connections - {engagement};
        return;
      }
      var sockets := connections[engagement] - {socket};
      if sockets == {} {
        connections := connections - {engagement};
      } else {
        connections := connections[engagement := sockets];
      }
      assert connections == Pruned(old(connections), engagement, {socket});
    }

    /** Sends to every socket registered when called; sockets whose send fails are pruned. */
    method PublishJob(engagement: nat, failing: set<nat>) returns (delivered: set<nat>)
      requires Valid()
      modifies this
      ensures Valid()
      ensures forall x :: x in delivered <==>
                engagement in old(connections) && x in old(connections)[engagement] && x !in failing
      ensures connections == Pruned(old(connections), engagement, failing)
      ensures forall e, x :: e in connections && x in connections[e] <==>
                e in old(connections) && x in old(connections)[e] && !(e == engagement && x in failing)
    {
      var all := SocketsOf(connections, engagement);
      var todo := all;
      ghost var dead: set<nat> := {};
      delivered := {};
      PrunedNothing(connections, engagement);
      while todo != {}
        invariant Valid() && delivered + dead + todo == all
        invariant delivered !! failing && dead <= failing
        invariant connections == Pruned(old(connections), engagement, dead)
        decreases |todo|
      {
        var socket :| socket in todo;
        if socket in failing {
          PrunedTwice(old(connections), engagement, dead, {socket});
          Disconnect(engagement, socket);
          dead := dead + {socket};
        } else {
          delivered := delivered + {socket};
        }
        todo := todo - {socket};
      }
      PrunedAlike(old(connections), engagement, dead, failing);
      forall e, x { PrunedMember(old(connections), engagement, failing, e, x); }
    }
  }

  lemma PrunedNothing(connections: map<nat, set<nat>>, engagement: nat)
    requires forall e :: e in connections ==> connections[e] != {}
    ensures Pruned(connections, engagement, {}) == connections
  {
    if engagement in connections {
      assert connections[engagement] - {} == connections[engagement];
    } else {
      assert connections == connections - {engagement};
    }
  }

  lemma PrunedAlike(connections: map<nat, set<nat>>, engagement: nat, dead: set<nat>, dead': set<nat>)
    requires forall x :: x in SocketsOf(connections, engagement) ==> (x in dead <==> x in dead')
    ensures Pruned(connections, engagement, dead) == Pruned(connections, engagement, dead')
  {
    var all := SocketsOf(connections, engagement);
    assert all - dead == all - dead';
  }

  // ---- the protocol ------------------------------------------------------------------------

  /** The server's side of one socket: accepted, registered with the hub, snapshot read but
      not yet sent, and live. Every phase but the first receives published events. */
  datatype Phase = Opening | Registered | Taken(rows: seq<Job>) | Live

  datatype Msg = Msg(gen: nat, jobs: seq<Job>)

  /** `pending` holds commits not yet published; `gen` is the client's connection generation;
      `http` holds list responses on their way. */
  datatype State = State(committed: map<nat, Job>, pending: set<Job>, sockets: map<nat, Phase>,
                         wire: multiset<Msg>, http: multiset<seq<Job>>, gen: nat, held: map<nat, Job>)

  datatype Step =
    | Commit(job: Job)
    | Reread(job: Job)
    | Publish(job: Job)
    | Open
    | Register(g: nat)
    | TakeSnapshot(g: nat, rows: seq<Job>)
    | SendSnapshot(g: nat)
    | Close(g: nat)
    | Deliver(m: Msg)
    | HttpRead(rows: seq<Job>)
    | HttpDeliver(rows: seq<Job>)

  /** `rows` lists the committed jobs, in some order. */
  ghost predicate Lists(rows: seq<Job>, committed: map<nat, Job>) {
    && (forall j :: j in rows ==> j.id in committed && committed[j.id] == j)
    && (forall id :: id in committed ==> committed[id] in rows)
  }

  ghost predicate Init(s: State) {
    && s.pending == {} && s.sockets == map[] && s.wire == multiset{} && s.http == multiset{}
    && s.held == map[] && (forall id :: id in s.committed ==> s.committed[id].id == id)
  }

  /** The event goes to every registered socket, and only to those. */
  ghost predicate Broadcast(s: State, job: Job, wire: multiset<Msg>) {
    && s.wire <= wire
    && (forall g :: g in s.sockets && !s.sockets[g].Opening? ==> Msg(g, [job]) in wire)
    && (forall m :: m in wire ==> m in s.wire || (m.jobs == [job] && m.gen in s.sockets))
  }

  ghost predicate Next(s: State, step: Step, s': State) {
    match step
    case Commit(j) =>
      && (j.id in s.committed ==> s.committed[j.id].updatedAt < j.updatedAt)
      && s' == s.(committed := s.committed[j.id := j], pending := s.pending + {j})
    case Reread(j) =>
      && j in s.pending && j.id in s.committed
      && s' == s.(pending := s.pending - {j} + {s.committed[j.id]})
    case Publish(j) =>
      && j in s.pending
      && Broadcast(s, j, s'.wire) && s' == s.(pending := s.pending - {j}, wire := s'.wire)
    case Open =>
      s' == s.(gen := s.gen + 1, sockets := s.sockets[s.gen + 1 := Opening])
    case Register(g) =>
      g in s.sockets && s.sockets[g].Opening? && s' == s.(sockets := s.sockets[g := Registered])
    case TakeSnapshot(g, rows) =>
      && g in s.sockets && s.sockets[g].Registered? && Lists(rows, s.committed)
      && s' == s.(sockets := s.sockets[g := Taken(rows)])
    case SendSnapshot(g) =>
      && g in s.sockets && s.sockets[g].Taken?
      && s' == s.(sockets := s.sockets[g := Live], wire := s.wire + multiset{Msg(g, s.sockets[g].rows)})
    case Close(g) =>
      && g in s.sockets
      && s'.wire <= s.wire && (forall m :: m in s.wire && m.gen != g ==> m in s'.wire)
      && s' == s.(sockets := s.sockets - {g}, wire := s'.wire)
    case Deliver(m) =>
      && m in s.wire
      && s' == s.(wire := s.wire - multiset{m},
                  held := if m.gen == s.gen then MergeAll(s.held, m.jobs) else s.held)
    case HttpRead(rows) =>
      Lists(rows, s.committed) && s' == s.(http := s.http + multiset{rows})
    case HttpDeliver(rows) =>
      rows in s.http && s' == s.(http := s.http - multiset{rows}, held := MergeAll(s.held, rows))
  }

  // ---- the invariant ------------------------------------------------------------------------

  /** The job is the last committed version, or one with an older timestamp. */
  predicate Known(committed: map<nat, Job>, j: Job) {
    j.id in committed && (j == committed[j.id] || j.updatedAt < committed[j.id].updatedAt)
  }

  ghost predicate AllKnown(committed: map<nat, Job>, jobs: seq<Job>) {
    forall j :: j in jobs ==> Known(committed, j)
  }

  ghost predicate HeldOk(committed: map<nat, Job>, held: map<nat, Job>) {
    forall id :: id in held ==> held[id].id == id && Known(committed, held[id])
  }

  ghost predicate Authentic(s: State) {
    && HeldOk(s.committed, s.held)
    && (forall id :: id in s.committed ==> s.committed[id].id == id)
    && (forall j :: j in s.pending ==> Known(s.committed, j))
    && (forall m :: m in s.wire ==> AllKnown(s.committed, m.jobs))
    && (forall rows :: rows in s.http ==> AllKnown(s.committed, rows))
    && (forall g :: g in s.sockets && s.sockets[g].Taken? ==> AllKnown(s.committed, s.sockets[g].rows))
  }

  ghost predicate OnWire(s: State, j: Job) {
    exists m :: m in s.wire && m.gen == s.gen && j in m.jobs
  }

  /** The last version of job `id` is with the client or on its way to it. */
  ghost predicate Owed(s: State, id: nat)
    requires id in s.committed
  {
    var last := s.committed[id];
    || (id in s.held && s.held[id] == last)
    || OnWire(s, last)
    || last in s.pending
    || (s.gen in s.sockets && s.sockets[s.gen].Taken? && last in s.sockets[s.gen].rows)
  }

  predicate PastSnapshot(s: State) {
    s.gen in s.sockets && (s.sockets[s.gen].Taken? || s.sockets[s.gen].Live?)
  }

  /** Connections are numbered upwards, so the next number is new. */
  ghost predicate Numbered(s: State) {
    (forall g :: g in s.sockets ==> g <= s.gen) && (forall m :: m in s.wire ==> m.gen <= s.gen)
  }

  ghost predicate Inv(s: State) {
    && Authentic(s) && Numbered(s)
    && (PastSnapshot(s) ==> forall id :: id in s.committed ==> Owed(s, id))
  }

  lemma {:induction false} MergeKnown(committed: map<nat, Job>, held: map<nat, Job>, jobs: seq<Job>)
    requires HeldOk(committed, held) && AllKnown(committed, jobs)
    ensures HeldOk(committed, MergeAll(held, jobs))
    ensures forall id :: id in committed && ((id in held && held[id] == committed[id]) || (committed[id] in jobs && committed[id].id == id))
                         ==> id in MergeAll(held, jobs) && MergeAll(held, jobs)[id] == committed[id]
    ensures forall id :: id in held ==> id in MergeAll(held, jobs)
                                        && held[id].updatedAt <= MergeAll(held, jobs)[id].updatedAt
  {
    if jobs != [] {
      var front, j := jobs[..|jobs| - 1], jobs[|jobs| - 1];
      assert forall x :: x in jobs <==> x in front || x == j;
      MergeKnown(committed, held, front);
    }
  }

  lemma CommitInv(s: State, j: Job, s': State)
    requires Inv(s) && Next(s, Commit(j), s')
    ensures Inv(s')
  {
    forall x | Known(s.committed, x) ensures Known(s'.committed, x) {}
    forall id | id in s'.committed && PastSnapshot(s') ensures Owed(s', id) {
      if id != j.id { assert Owed(s, id); }
    }
  }

  lemma RereadInv(s: State, j: Job, s': State)
    requires Inv(s) && Next(s, Reread(j), s')
    ensures Inv(s')
  {
    forall id | id in s'.committed && PastSnapshot(s') ensures Owed(s', id) {
      assert Owed(s, id);
    }
  }

  lemma PublishInv(s: State, j: Job, s': State)
    requires Inv(s) && Next(s, Publish(j), s')
    ensures Inv(s')
  {
    forall id | id in s'.committed && PastSnapshot(s') ensures Owed(s', id) {
      assert Owed(s, id);
      assert Msg(s.gen, [j]) in s'.wire && j in [j];
      if m :| m in s.wire && m.gen == s.gen && s.committed[id] in m.jobs { assert m in s'.wire; }
    }
  }

  lemma SocketInv(s: State, step: Step, s': State)
    requires Inv(s) && Next(s, step, s')
    requires step.Open? || step.Register? || step.TakeSnapshot? || step.Close? || step.HttpRead?
    ensures Inv(s')
  {
    forall id | id in s'.committed && PastSnapshot(s') ensures Owed(s', id) {
      if PastSnapshot(s) {
        assert Owed(s, id);
        if m :| m in s.wire && m.gen == s.gen && s.committed[id] in m.jobs { assert s'.gen == s.gen ==> m in s'.wire; }
      }
    }
  }

  lemma SendInv(s: State, g: nat, s': State)
    requires Inv(s) && Next(s, SendSnapshot(g), s')
    ensures Inv(s')
  {
    var snapshot := Msg(g, s.sockets[g].rows);
    assert snapshot in s'.wire;
    forall id | id in s'.committed && PastSnapshot(s') ensures Owed(s', id) {
      assert Owed(s, id);
      if m :| m in s.wire && m.gen == s.gen && s.committed[id] in m.jobs { assert m in s'.wire; }
    }
  }

  lemma DeliverInv(s: State, m: Msg, s': State)
    requires Inv(s) && Next(s, Deliver(m), s')
    ensures Inv(s')
  {
    MergeKnown(s.committed, s.held, m.jobs);
    forall id | id in s'.committed && PastSnapshot(s') ensures Owed(s', id) {
      assert Owed(s, id);
      if k :| k in s.wire && k.gen == s.gen && s.committed[id] in k.jobs { assert k != m ==> k in s'.wire; }
    }
  }

  lemma HttpInv(s: State, rows: seq<Job>, s': State)
    requires Inv(s) && Next(s, HttpDeliver(rows), s')
    ensures Inv(s')
  {
    MergeKnown(s.committed, s.held, rows);
    forall id | id in s'.committed && PastSnapshot(s') ensures Owed(s', id) {
      assert Owed(s, id);
    }
  }

  lemma NextInv(s: State, step: Step, s': State)
    requires Inv(s) && Next(s, step, s')
    ensures Inv(s')
  {
    match step
    case Commit(j) => CommitInv(s, j, s');
    case Reread(j) => RereadInv(s, j, s');
    case Publish(j) => PublishInv(s, j, s');
    case SendSnapshot(g) => SendInv(s, g, s');
    case Deliver(m) => DeliverInv(s, m, s');
    case HttpDeliver(rows) => HttpInv(s, rows, s');
    case _ => SocketInv(s, step, s');
  }

  // ---- main results -----------------------------------------------------------------------------

  ghost predicate StepsTo(s: State, s': State) {
    exists step :: Next(s, step, s')
  }

  /** The run's `k`th step is a step of the protocol. */
  ghost predicate StepAt(run: seq<State>, k: nat)
    requires k + 1 < |run|
  {
    StepsTo(run[k], run[k + 1])
  }

  ghost predicate IsRun(run: seq<State>) {
    && run != [] && Init(run[0])
    && forall k :: 0 <= k < |run| - 1 ==> StepAt(run, k)
  }

  lemma {:induction false} RunInv(run: seq<State>, k: nat)
    requires IsRun(run) && k < |run|
    ensures Inv(run[k])
  {
    if k > 0 {
      RunInv(run, k - 1);
      assert StepAt(run, k - 1);
      var step :| Next(run[k - 1], step, run[k]);
      NextInv(run[k - 1], step, run[k]);
    }
  }

  /** Everything committed has been published, and everything sent on the live connection of
      the client has arrived. */
  ghost predicate Quiet(s: State) {
    && s.gen in s.sockets && s.sockets[s.gen].Live?
    && s.pending == {} && forall m :: m in s.wire ==> m.gen != s.gen
  }

  /** Convergence: whatever the interleaving, and through any number of reconnects, at a quiet
      moment the client holds the last committed version of every job, and nothing else. */
  lemma ClientConverges(run: seq<State>, k: nat)
    requires IsRun(run) && k < |run| && Quiet(run[k])
    ensures run[k].held == run[k].committed
  {
    RunInv(run, k);
    var s := run[k];
    forall id | id in s.committed ensures id in s.held && s.held[id] == s.committed[id] {
      assert Owed(s, id);
    }
  }

  // ---- a quiet moment can always come --------------------------------------------------------------

  ghost predicate LeadsTo(run: seq<State>, s: State) { IsRun(run) && run[|run| - 1] == s }

  lemma Extend(run: seq<State>, step: Step, s': State) returns (more: seq<State>)
    requires IsRun(run) && Next(run[|run| - 1], step, s')
    ensures LeadsTo(more, s') && run <= more
  {
    more := run + [s'];
    forall k | 0 <= k < |more| - 1 ensures StepAt(more, k) {
      if k < |run| - 1 { assert StepAt(run, k); } else { assert StepsTo(more[k], more[k + 1]); }
    }
  }

  /** Events for every registered socket, on top of what is on the wire. */
  ghost function Sent(sockets: map<nat, Phase>, job: Job): (r: multiset<Msg>)
    ensures forall m :: m in r <==> m.jobs == [job] && m.gen in sockets && !sockets[m.gen].Opening?
  {
    multiset(set g | g in sockets && !sockets[g].Opening? :: Msg(g, [job]))
  }

  lemma {:induction false} PublishAll(run: seq<State>) returns (more: seq<State>)
    requires IsRun(run)
    ensures IsRun(more) && run <= more
    ensures var s := more[|more| - 1]; s.pending == {} && s.committed == run[|run| - 1].committed
    decreases |run[|run| - 1].pending|
  {
    var s := run[|run| - 1];
    if s.pending == {} { return run; }
    var j :| j in s.pending;
    var s' := s.(pending := s.pending - {j}, wire := s.wire + Sent(s.sockets, j));
    assert Broadcast(s, j, s'.wire);
    assert Next(s, Publish(j), s');
    var next := Extend(run, Publish(j), s');
    more := PublishAll(next);
  }

  lemma {:induction false} ListingOf(committed: map<nat, Job>, ids: set<nat>) returns (rows: seq<Job>)
    requires ids <= committed.Keys && forall id :: id in committed ==> committed[id].id == id
    ensures forall j :: j in rows <==> j.id in ids && committed[j.id] == j
    decreases |ids|
  {
    if ids == {} {
      rows := [];
    } else {
      var id :| id in ids;
      var rest := ListingOf(committed, ids - {id});
      rows := rest + [committed[id]];
    }
  }

  /** The client opens its next connection, which sends the snapshot and goes live. */
  lemma Reconnect(run: seq<State>, rows: seq<Job>) returns (more: seq<State>, s': State)
    requires IsRun(run) && Lists(rows, run[|run| - 1].committed)
    ensures LeadsTo(more, s') && run <= more
    ensures var s, g := run[|run| - 1], run[|run| - 1].gen + 1;
            s' == s.(gen := g, sockets := s.sockets[g := Live], wire := s.wire + multiset{Msg(g, rows)})
  {
    var s := run[|run| - 1];
    var g := s.gen + 1;
    s' := s.(gen := g, sockets := s.sockets[g := Opening]);
    more := Extend(run, Open, s');
    var registered := s'.(sockets := s'.sockets[g := Registered]);
    more := Extend(more, Register(g), registered);
    var taken := registered.(sockets := registered.sockets[g := Taken(rows)]);
    more := Extend(more, TakeSnapshot(g, rows), taken);
    s' := taken.(sockets := taken.sockets[g := Live], wire := taken.wire + multiset{Msg(g, rows)});
    more := Extend(more, SendSnapshot(g), s');
  }

  lemma SnapshotArrives(run: seq<State>, s: State) returns (more: seq<State>)
    requires LeadsTo(run, s) && s.pending == {}
    ensures IsRun(more) && run <= more
    ensures Quiet(more[|more| - 1]) && more[|more| - 1].committed == s.committed
  {
    LastNumbered(run, s);
    var rows := ListingOf(s.committed, s.committed.Keys);
    var live;
    more, live := Reconnect(run, rows);
    var m := Msg(s.gen + 1, rows);
    assert live.wire - multiset{m} == s.wire;
    var quiet := live.(wire := s.wire, held := MergeAll(live.held, rows));
    more := Extend(more, Deliver(m), quiet);
  }

  lemma LastNumbered(run: seq<State>, s: State)
    requires LeadsTo(run, s)
    ensures Numbered(s) && forall id :: id in s.committed ==> s.committed[id].id == id
  {
    RunInv(run, |run| - 1);
  }

  /** From whatever point a run has reached, without anything more being committed, it can go on
      until the client holds exactly the committed jobs. */
  lemma QuietCanCome(run: seq<State>) returns (more: seq<State>)
    requires IsRun(run)
    ensures IsRun(more) && run <= more && Quiet(more[|more| - 1])
    ensures more[|more| - 1].held == more[|more| - 1].committed == run[|run| - 1].committed
  {
    var published := PublishAll(run);
    more := SnapshotArrives(published, published[|published| - 1]);
    ClientConverges(more, |more| - 1);
  }

  /** What an earlier connection still delivers is ignored. */
  lemma StaleIsIgnored(run: seq<State>, k: nat, m: Msg, s': State)
    requires IsRun(run) && k < |run| && Next(run[k], Deliver(m), s') && m.gen < run[k].gen
    ensures s'.held == run[k].held && s'.wire == run[k].wire - multiset{m}
  {
  }

  lemma {:induction false} MergeTakes(held: map<nat, Job>, jobs: seq<Job>)
    requires forall id :: id in held ==> held[id].id == id
    ensures forall id :: id in MergeAll(held, jobs) ==> MergeAll(held, jobs)[id].id == id
    ensures forall j :: j in jobs ==> j.id in MergeAll(held, jobs) && j.updatedAt <= MergeAll(held, jobs)[j.id].updatedAt
  {
    if jobs != [] {
      var front, last := jobs[..|jobs| - 1], jobs[|jobs| - 1];
      MergeTakes(held, front);
      assert forall j :: j in jobs <==> j in front || j == last;
    }
  }

  /** Whatever the client's own connection or a list response delivers, the client then shows each of
      its jobs in that version or a newer one. */
  lemma DeliveredIsShown(run: seq<State>, k: nat, step: Step, s': State, j: Job)
    requires IsRun(run) && k < |run| && Next(run[k], step, s')
    requires (step.HttpDeliver? && j in step.rows) || (step.Deliver? && step.m.gen == run[k].gen && j in step.m.jobs)
    ensures j.id in s'.held && j.updatedAt <= s'.held[j.id].updatedAt
  {
    RunInv(run, k);
    MergeTakes(run[k].held, if step.Deliver? then step.m.jobs else step.rows);
  }

  /** A published event is sent to every socket the hub has for the engagement: those that have been
      registered, with or without their snapshot. */
  lemma EventReachesRegistered(s: State, j: Job, s': State, hub: map<nat, set<nat>>, engagement: nat)
    requires Next(s, Publish(j), s') && engagement in hub
    requires forall g :: g in hub[engagement] ==> g in s.sockets && s.sockets[g] != Opening
    ensures forall g :: g in hub[engagement] ==> Msg(g, [j]) in s'.wire
  {
  }

  /** One step never drops a job the client holds, nor replaces it by an older version. */
  lemma StepNeverStepsBack(s: State, step: Step, s': State, id: nat)
    requires Authentic(s) && Next(s, step, s') && id in s.held
    ensures id in s'.held && s.held[id].updatedAt <= s'.held[id].updatedAt
  {
    match step
    case Deliver(m) => MergeKnown(s.committed, s.held, m.jobs);
    case HttpDeliver(rows) => MergeKnown(s.committed, s.held, rows);
    case _ =>
  }

  /** Even before that, the client only ever shows committed versions, and never steps back. */
  lemma ClientNeverStepsBack(run: seq<State>, k: nat, id: nat)
    requires IsRun(run) && k + 1 < |run| && id in run[k].held
    ensures id in run[k + 1].held && run[k].held[id].updatedAt <= run[k + 1].held[id].updatedAt
    ensures Known(run[k].committed, run[k].held[id])
  {
    RunInv(run, k);
    assert StepAt(run, k);
    var step :| Next(run[k], step, run[k + 1]);
    StepNeverStepsBack(run[k], step, run[k + 1], id);
  }
}
