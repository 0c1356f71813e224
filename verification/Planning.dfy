/** Loading a guard for an engagement, planning a job under it, and expanding the plan. */
module Planning {
  import opened Wrappers
  import opened Cidr
  import opened Guard

  // ---- expand_targets ----------------------------------------------------------

  /** First value and end (exclusive) of `net.hosts()`: IPv4 leaves out the network and
      broadcast addresses, IPv6 the Subnet-Router anycast address (section 2.6.1 of
      RFC 4291); blocks of one or two addresses keep all of them. */
  function HostsFrom(n: Net): nat {
    if n.plen >= n.version.Width() - 1 then n.base else n.base + 1
  }

  function HostsTo(n: Net): nat {
    if n.plen >= n.version.Width() - 1 || n.version.V6? then n.base + n.Size() else n.base + n.Size() - 1
  }

  /** What a scan may send packets to, on the block's own terms. */
  predicate Usable(n: Net, a: Addr) {
    && n.Has(a)
    && (n.version.V4? && n.plen < 31 ==> a.value != n.base && a.value != n.base + n.Size() - 1)
    && (n.version.V6? && n.plen < 127 ==> a.value != n.base)
  }

  lemma HostsFit(n: Net)
    ensures n.base <= HostsFrom(n) < HostsTo(n) <= n.base + n.Size() <= Pow2(n.version.Width())
  {
    if n.plen < n.version.Width() - 1 {
      assert Pow2(n.HostBits()) == 2 * Pow2(n.HostBits() - 1) == 4 * Pow2(n.HostBits() - 2);
    }
  }

  function Hosts(n: Net): (r: seq<Host>)
    ensures |r| == HostsTo(n) - HostsFrom(n) > 0
  {
    HostsFit(n);
    seq(HostsTo(n) - HostsFrom(n), i requires 0 <= i < HostsTo(n) - HostsFrom(n) => Addr(n.version, HostsFrom(n) + i))
  }

  function HostsOf(n: Net): seq<Host> {
    if n.Size() == 1 then [n.First()] else Hosts(n)
  }

  function Expansion(nets: seq<Net>): seq<Host> {
    if nets == [] then [] else Expansion(nets[..|nets| - 1]) + HostsOf(nets[|nets| - 1])
  }

  method ExpandTargets(nets: seq<Net>) returns (out: seq<Host>)
    ensures out == Expansion(nets)
  {
    out := [];
    for i := 0 to |nets|
      invariant out == Expansion(nets[..i])
    {
      assert nets[..i + 1][..i] == nets[..i];
      out := out + HostsOf(nets[i]);
    }
    assert nets[..|nets|] == nets;
  }

  ghost predicate NoDuplicates<T>(s: seq<T>) {
    forall i, j :: 0 <= i < j < |s| ==> s[i] != s[j]
  }

  /** The usable addresses of a block, each once, in ascending order. */
  lemma HostsOfBlock(n: Net)
    ensures 0 < |HostsOf(n)| <= n.Size() && NoDuplicates(HostsOf(n))
    ensures forall i, j :: 0 <= i < j < |HostsOf(n)| ==> HostsOf(n)[i].value < HostsOf(n)[j].value
    ensures forall a :: a in HostsOf(n) <==> Usable(n, a)
    ensures forall a :: Usable(n, a) ==> n.Has(a)
  {
    HostsFit(n);
    if n.Size() == 1 {
      if n.plen < n.version.Width() { Pow2Monotone(0, n.HostBits()); }
    } else {
      var r := Hosts(n);
      forall a ensures a in r <==> Usable(n, a) {
        if Usable(n, a) { assert r[a.value - HostsFrom(n)] == a; }
      }
    }
  }

  lemma {:induction false} HostCountAppend(s: seq<Net>, n: Net)
    ensures HostCount(s + [n]) == HostCount(s) + n.Size()
  {
    if s == [] {
      assert s + [n] == [n];
    } else {
      HostCountAppend(s[1..], n);
      assert (s + [n])[1..] == s[1..] + [n];
    }
  }

  /** The last of disjoint blocks shares no usable address with an earlier one. */
  lemma BlocksApart(nets: seq<Net>, m: Net, x: Addr, y: Addr)
    requires nets != [] && PairwiseDisjoint(nets) && m in nets[..|nets| - 1]
    requires Usable(m, x) && Usable(nets[|nets| - 1], y)
    ensures x != y
  {
    HostsOfBlock(m);
    HostsOfBlock(nets[|nets| - 1]);
    var k :| 0 <= k < |nets| - 1 && nets[k] == m;
    assert Disjoint(nets[k], nets[|nets| - 1]);
  }

  lemma {:induction false} ExpansionMembers(nets: seq<Net>, a: Addr)
    ensures a in Expansion(nets) <==> exists n :: n in nets && Usable(n, a)
  {
    if nets != [] {
      var front, n := nets[..|nets| - 1], nets[|nets| - 1];
      assert forall m :: m in nets <==> m in front || m == n;
      ExpansionMembers(front, a);
      HostsOfBlock(n);
    }
  }

  /** Expansion lists every usable address of every block once, and never more than the planner counts. */
  lemma {:induction false} ExpansionExact(nets: seq<Net>)
    requires PairwiseDisjoint(nets)
    ensures NoDuplicates(Expansion(nets))
    ensures |Expansion(nets)| <= HostCount(nets) && (nets != [] ==> Expansion(nets) != [])
    ensures forall a :: a in Expansion(nets) <==> exists n :: n in nets && Usable(n, a)
  {
    if nets != [] {
      var front, n := nets[..|nets| - 1], nets[|nets| - 1];
      assert nets == front + [n];
      ExpansionExact(front);
      HostsOfBlock(n);
      HostCountAppend(front, n);
      var e, h := Expansion(front), HostsOf(n);
      forall i, j | 0 <= i < |e| && 0 <= j < |h| ensures e[i] != h[j] {
        assert e[i] in e && h[j] in h;
        var m :| m in front && Usable(m, e[i]);
        BlocksApart(nets, m, e[i], h[j]);
      }
      DistinctAppend(e, h);
    }
    forall a ensures a in Expansion(nets) <==> exists n :: n in nets && Usable(n, a) {
      ExpansionMembers(nets, a);
    }
  }

  lemma DistinctAppend(s: seq<Host>, t: seq<Host>)
    requires NoDuplicates(s) && NoDuplicates(t)
    requires forall i, j :: 0 <= i < |s| && 0 <= j < |t| ==> s[i] != t[j]
    ensures NoDuplicates(s + t)
  {
  }

  // ---- load_guard -----------------------------------------------------------------

  /** An engagement row with its scope entries. */
  datatype Engagement = Engagement(isActive: bool, startsAt: int, endsAt: int, rows: seq<Entry>)

  function Cap(e: Entry, endsAt: int): Entry {
    e.(expires := Some(if e.expires.Some? && e.expires.value < endsAt then e.expires.value else endsAt))
  }

  function Capped(rows: seq<Entry>, endsAt: int): (r: seq<Entry>)
    ensures |r| == |rows|
    ensures forall e, now :: e in r && e.IsActive(now) ==> now < endsAt
  {
    seq(|rows|, i requires 0 <= i < |rows| => Cap(rows[i], endsAt))
  }

  predicate Open(eng: Engagement, now: int) {
    eng.isActive && eng.startsAt <= now <= eng.endsAt
  }

  /** `g` is the guard of `eng` at `now`. */
  ghost predicate GuardOf(eng: Engagement, now: int, g: ScopeGuard) {
    && g.Loaded() && g.now == now
    && g.allow == Filter(Capped(eng.rows, eng.endsAt), Allow, now)
    && g.deny == Filter(Capped(eng.rows, eng.endsAt), Deny, now)
  }

  method LoadGuard(eng: Option<Engagement>, now: int) returns (r: Result<ScopeGuard, Error>)
    ensures eng.None? ==> r == Err(NotFound)
    ensures eng.Some? ==>
              (r.Ok? <==> eng.value.isActive && eng.value.startsAt <= now && now <= eng.value.endsAt)
    ensures eng.Some? && r.Err? ==> r.error == EngagementInactive
    ensures r.Ok? ==> GuardOf(eng.value, now, r.value)
    ensures r.Ok? ==> forall a: Host :: r.value.AssertAuthorized(AddressText(a)).Ok? <==> RowsPermit(eng.value, now, a)
  {
    if eng.None? { return Err(NotFound); }
    var e := eng.value;
    if !e.isActive || !(e.startsAt <= now <= e.endsAt) { return Err(EngagementInactive); }
    var entries: seq<Entry> := [];
    for i := 0 to |e.rows|
      invariant entries == Capped(e.rows, e.endsAt)[..i]
    {
      var effExpiry := e.endsAt;
      if e.rows[i].expires.Some? {
        effExpiry := if e.rows[i].expires.value < effExpiry then e.rows[i].expires.value else effExpiry;
      }
      entries := entries + [e.rows[i].(expires := Some(effExpiry))];
    }
    assert entries == Capped(e.rows, e.endsAt);
    var g := FromEntries(entries, now);
    GuardPermits(e, now, g);
    r := Ok(g);
  }

  /** Capping ends every rule with the engagement and changes nothing before. */
  lemma CappedRule(rows: seq<Entry>, endsAt: int, kind: Kind, now: int, a: Addr)
    ensures RuleApplies(Capped(rows, endsAt), kind, now, a) <==> now < endsAt && RuleApplies(rows, kind, now, a)
  {
    var capped := Capped(rows, endsAt);
    if RuleApplies(capped, kind, now, a) {
      var e :| e in capped && e.kind == kind && (e.expires.None? || now < e.expires.value) && e.cidr.Has(a);
      var i :| 0 <= i < |capped| && capped[i] == e;
      assert rows[i] in rows;
    }
    if now < endsAt && RuleApplies(rows, kind, now, a) {
      var e :| e in rows && e.kind == kind && (e.expires.None? || now < e.expires.value) && e.cidr.Has(a);
      var i :| 0 <= i < |rows| && rows[i] == e;
      assert capped[i] in capped;
    }
  }

  /** The gate of an engagement's guard, on the engagement's own rows. */
  ghost predicate RowsPermit(eng: Engagement, now: int, a: Addr) {
    now < eng.endsAt && RuleApplies(eng.rows, Allow, now, a) && !RuleApplies(eng.rows, Deny, now, a)
  }

  lemma GuardPermits(eng: Engagement, now: int, g: ScopeGuard)
    requires GuardOf(eng, now, g)
    ensures forall a :: g.Admits(a) <==> RowsPermit(eng, now, a)
  {
    forall a ensures g.Admits(a) <==> RowsPermit(eng, now, a) {
      FilterApplies(Capped(eng.rows, eng.endsAt), Allow, now);
      FilterApplies(Capped(eng.rows, eng.endsAt), Deny, now);
      CappedRule(eng.rows, eng.endsAt, Allow, now, a);
      CappedRule(eng.rows, eng.endsAt, Deny, now, a);
    }
  }

  /** Inside the window the cap changes no verdict (an expiring deny never opens anything);
      at the closing instant nothing is authorized any more. */
  lemma {:induction false} EffectiveExpiryIsFaithful(eng: Engagement, now: int, g: ScopeGuard, plain: ScopeGuard, a: Addr)
    requires Open(eng, now) && GuardOf(eng, now, g)
    requires plain.allow == Filter(eng.rows, Allow, now) && plain.deny == Filter(eng.rows, Deny, now)
    ensures now < eng.endsAt ==> g.Decide(a).verdict == plain.Decide(a).verdict
    ensures now == eng.endsAt ==> g.Decide(a).verdict.NotInAllowlist?
  {
    FilterApplies(Capped(eng.rows, eng.endsAt), Allow, now);
    FilterApplies(Capped(eng.rows, eng.endsAt), Deny, now);
    FilterApplies(eng.rows, Allow, now);
    FilterApplies(eng.rows, Deny, now);
    CappedRule(eng.rows, eng.endsAt, Allow, now, a);
    CappedRule(eng.rows, eng.endsAt, Deny, now, a);
  }

  // ---- plan_job and authorize_host ----------------------------------------------------

  datatype Job = Job(requested: seq<Text>, authorized: seq<Net>, rejected: seq<Net>, hostCount: nat)

  datatype AuditVerdict = FullyAuthorized | Partial | Rejected | Gate(decision: Decision)

  /** One row added to the session: the job it names, if any, by position. */
  datatype AuditRow = AuditRow(job: Option<nat>, target: seq<Text>, verdict: AuditVerdict)

  /** What planning decides once the targets are partitioned: the cap is checked first. */
  function Outcome(requested: seq<Text>, res: ScopeResult, cap: nat): Result<Job, Error> {
    if HostCount(res.authorized) > cap then Err(JobTooLarge)
    else if res.authorized == [] then Err(OutOfScope)
    else Ok(Job(requested, res.authorized, res.rejected, HostCount(res.authorized)))
  }

  ghost predicate Planned(g: ScopeGuard, requested: seq<Text>, cap: nat, job: Job) {
    && ParseAll(requested).Ok?
    && Partitions(g, ParseAll(requested).value, ScopeResult(job.authorized, job.rejected))
    && Outcome(requested, ScopeResult(job.authorized, job.rejected), cap) == Ok(job)
  }

  /** An address planning lets through, on the engagement's own rows. */
  ghost predicate MayScan(eng: Engagement, now: int, reqs: seq<Net>, a: Addr) {
    Covers(reqs, a) && a.version.V4? && RowsPermit(eng, now, a)
  }

  /** What an accepted job promises of its engagement: exactly the requested addresses that may be
      scanned are authorized, the others are rejected, and there are between one and `cap` of them. */
  ghost predicate JobOk(eng: Engagement, now: int, requested: seq<Text>, reqs: seq<Net>, cap: nat, job: Job) {
    && job.requested == requested
    && (forall a :: Covers(job.authorized, a) <==> MayScan(eng, now, reqs, a))
    && (forall a :: Covers(job.rejected, a) <==> Covers(reqs, a) && !MayScan(eng, now, reqs, a))
    && 0 < job.hostCount <= cap && job.hostCount == |AllAddresses(job.authorized)|
  }

  /** Why a job was not accepted. */
  ghost predicate RefusalOk(eng: Engagement, now: int, reqs: seq<Net>, cap: nat, error: Error) {
    match error
    case OutOfScope => forall a :: !MayScan(eng, now, reqs, a)
    case JobTooLarge => exists s: set<Addr> :: |s| > cap && forall a :: a in s ==> MayScan(eng, now, reqs, a)
    case _ => false
  }

  lemma OutcomeMeans(eng: Engagement, now: int, g: ScopeGuard, requested: seq<Text>, reqs: seq<Net>, cap: nat, res: ScopeResult)
    requires GuardOf(eng, now, g) && Partitions(g, reqs, res)
    ensures match Outcome(requested, res, cap)
            case Ok(job) => JobOk(eng, now, requested, reqs, cap, job)
            case Err(error) => RefusalOk(eng, now, reqs, cap, error)
  {
    GuardPermits(eng, now, g);
    HostCountIsCardinality(res.authorized);
    AllAddressesCovers(res.authorized);
    CoversSomething(res.authorized);
  }

  /** The audit row of a planning decision. */
  function PlanRow(id: nat, requested: seq<Text>, r: Result<Job, Error>): AuditRow {
    match r
    case Ok(job) => AuditRow(Some(id), requested, if job.rejected == [] then FullyAuthorized else Partial)
    case Err(_) => AuditRow(None, requested, Rejected)
  }

  /** The row names the job if there is one, and tells whether all requested addresses are in it. */
  lemma AuditTells(g: ScopeGuard, requested: seq<Text>, cap: nat, job: Job, id: nat, error: Error)
    requires Planned(g, requested, cap, job)
    ensures var row := PlanRow(id, requested, Ok(job));
            && row.job == Some(id) && row.target == requested
            && (row.verdict.FullyAuthorized? <==>
                forall a :: Covers(ParseAll(requested).value, a) ==> Covers(job.authorized, a))
            && (row.verdict.Partial? <==> !row.verdict.FullyAuthorized?)
    ensures PlanRow(id, requested, Err(error)) == AuditRow(None, requested, Rejected)
  {
    CoversSomething(job.rejected);
  }

  /** The rows one request adds to its session; the caller commits or rolls back. */
  class ScopeSession {
    var jobs: seq<Job>
    var audit: seq<AuditRow>

    constructor ()
      ensures jobs == [] && audit == []
    {
      jobs, audit := [], [];
    }

    /** Writes one audit row for every decision, refused or not. */
    method AuthorizeHost(g: ScopeGuard, host: Text) returns (r: Result<(), Error>)
      modifies this
      ensures r.Ok? <==> g.AssertAuthorized(host).Ok?
      ensures r.Err? ==> g.AssertAuthorized(host) == Err(r.error)
      ensures jobs == old(jobs)
      ensures audit == if g.Evaluate(host).Ok?
                       then old(audit) + [AuditRow(None, [host], Gate(g.Evaluate(host).value))]
                       else old(audit)
    {
      var decision := g.Evaluate(host);
      if decision.Err? { return Err(decision.error); }
      audit := audit + [AuditRow(None, [host], Gate(decision.value))];
      r := if decision.value.verdict.Authorized? then Ok(()) else Err(OutOfScope);
    }

    method PlanJob(eng: Option<Engagement>, now: int, requested: seq<Text>, cap: nat) returns (r: Result<Job, Error>)
      modifies this
      ensures eng.None? ==> r == Err(NotFound) && audit == old(audit)
      ensures eng.Some? && !Open(eng.value, now) ==> r == Err(EngagementInactive) && audit == old(audit)
      ensures eng.Some? && Open(eng.value, now) && ParseAll(requested).Err? ==>
                r == Err(InvalidTarget) && audit == old(audit)
      ensures eng.Some? && Open(eng.value, now) && ParseAll(requested).Ok? ==>
                && (forall g, res :: GuardOf(eng.value, now, g) && Partitions(g, ParseAll(requested).value, res)
                                     ==> r == Outcome(requested, res, cap))
                && audit == old(audit) + [PlanRow(|old(jobs)|, requested, r)]
      ensures r.Ok? ==> exists g :: GuardOf(eng.value, now, g) && Planned(g, requested, cap, r.value)
      ensures eng.Some? && eng.value.isActive && eng.value.startsAt <= now && now <= eng.value.endsAt
              && ParseAll(requested).Ok? ==>
                match r
                case Ok(job) => JobOk(eng.value, now, requested, ParseAll(requested).value, cap, job)
                case Err(error) => RefusalOk(eng.value, now, ParseAll(requested).value, cap, error)
      ensures jobs == old(jobs) + if r.Ok? then [r.value] else []
    {
      var loaded := LoadGuard(eng, now);
      if loaded.Err? { return Err(loaded.error); }
      forall g | GuardOf(eng.value, now, g) ensures g == loaded.value { GuardUnique(g, loaded.value); }
      r := PlanUnder(loaded.value, requested, cap);
      if ParseAll(requested).Ok? {
        ghost var res :| Partitions(loaded.value, ParseAll(requested).value, res) && r == Outcome(requested, res, cap);
        OutcomeMeans(eng.value, now, loaded.value, requested, ParseAll(requested).value, cap, res);
      }
    }

    method PlanUnder(g: ScopeGuard, requested: seq<Text>, cap: nat) returns (r: Result<Job, Error>)
      requires g.Loaded()
      modifies this
      ensures r.Ok? ==> Planned(g, requested, cap, r.value)
      ensures ParseAll(requested).Err? ==> r == Err(InvalidTarget) && audit == old(audit)
      ensures ParseAll(requested).Ok? ==>
                && (forall res :: Partitions(g, ParseAll(requested).value, res) ==> r == Outcome(requested, res, cap))
                && (exists res :: Partitions(g, ParseAll(requested).value, res) && r == Outcome(requested, res, cap))
                && audit == old(audit) + [PlanRow(|old(jobs)|, requested, r)]
      ensures jobs == old(jobs) + if r.Ok? then [r.value] else []
    {
      var filtered := FilterTargets(g, requested);
      if filtered.Err? { return Err(filtered.error); }
      var result := filtered.value;
      forall res | Partitions(g, ParseAll(requested).value, res) ensures res == result {
        PartitionUnique(g, ParseAll(requested).value, res, ParseAll(requested).value, result);
      }
      var hostCount := HostCount(result.authorized);
      if hostCount > cap {
        audit := audit + [AuditRow(None, requested, Rejected)];
        return Err(JobTooLarge);
      }
      if result.authorized == [] {
        audit := audit + [AuditRow(None, requested, Rejected)];
        return Err(OutOfScope);
      }
      var job := Job(requested, result.authorized, result.rejected, hostCount);
      jobs := jobs + [job];
      audit := audit + [AuditRow(Some(|jobs| - 1), requested,
                                 if result.FullyAuthorized() then FullyAuthorized else Partial)];
      r := Ok(job);
    }
  }

  // ---- end to end ---------------------------------------------------------------------

  /** An accepted job expands to a non-empty duplicate-free list within the cap, and the gate
      of the same guard admits every address on it. */
  lemma {:induction false} PlannedJobPassesTheGate(g: ScopeGuard, requested: seq<Text>, cap: nat, job: Job)
    requires Planned(g, requested, cap, job)
    ensures var ips := Expansion(job.authorized);
            && NoDuplicates(ips) && 0 < |ips| <= job.hostCount <= cap
            && forall ip :: ip in ips ==> g.AssertAuthorized(AddressText(ip)).Ok?
  {
    ExpansionExact(job.authorized);
    forall ip | ip in Expansion(job.authorized) ensures g.AssertAuthorized(AddressText(ip)).Ok? {
      var n :| n in job.authorized && Usable(n, ip);
      HostsOfBlock(n);
      assert Covers(job.authorized, ip);
      BulkImpliesGate(g, ParseAll(requested).value, ScopeResult(job.authorized, job.rejected), ip);
    }
  }

  /** On the engagement's own rows: every address an accepted job expands to has an allow rule
      and no deny rule in force. */
  lemma PlannedJobObeysTheRows(eng: Engagement, now: int, g: ScopeGuard, requested: seq<Text>, cap: nat, job: Job)
    requires GuardOf(eng, now, g) && Planned(g, requested, cap, job)
    ensures forall ip :: ip in Expansion(job.authorized) ==>
              && now < eng.endsAt && ip.version.V4?
              && (exists e :: e in eng.rows && e.kind.Allow? && (e.expires.None? || now < e.expires.value) && e.cidr.Has(ip))
              && !exists e :: e in eng.rows && e.kind.Deny? && (e.expires.None? || now < e.expires.value) && e.cidr.Has(ip)
  {
    GuardPermits(eng, now, g);
    ExpansionExact(job.authorized);
    forall ip | ip in Expansion(job.authorized) ensures ip.version.V4? && RowsPermit(eng, now, ip) {
      var n :| n in job.authorized && Usable(n, ip);
      assert Covers(job.authorized, ip);
    }
  }

  /** At the instant the engagement closes nothing can be planned. */
  lemma NothingPlannedAtClosing(eng: Engagement, g: ScopeGuard, requested: seq<Text>, cap: nat, job: Job)
    requires Open(eng, eng.endsAt) && GuardOf(eng, eng.endsAt, g)
    ensures !Planned(g, requested, cap, job)
  {
    if Planned(g, requested, cap, job) {
      CoversSomething(job.authorized);
      EffectiveExpiryIsFaithful(eng, eng.endsAt, g,
        ScopeGuard(eng.endsAt, Filter(eng.rows, Allow, eng.endsAt), Filter(eng.rows, Deny, eng.endsAt), [], []),
        job.authorized[0].First());
    }
  }
}
