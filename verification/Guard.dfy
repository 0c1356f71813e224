/** The scope guard: CIDR set arithmetic over allow and deny rules. */
module Guard {
  import opened Wrappers
  import opened Cidr
  import opened Collapse

  datatype Error = InvalidTarget | NotFound | OutOfScope | EngagementInactive | JobTooLarge

  // ---- _intersection, address_exclude, _subtract -----------------------------

  /** The smaller block if the two are nested, else None; always the exact set intersection. */
  function Intersection(a: Net, b: Net): (r: Option<Net>)
    ensures r.None? ==> Disjoint(a, b)
    ensures r.Some? ==> forall x :: r.value.Has(x) <==> a.Has(x) && b.Has(x)
    ensures r.Some? ==> r.value == a || (r.value == b && b.SubnetOf(a))
  {
    IntersectionExact(a, b);
    if a.version != b.version then None
    else if a.SubnetOf(b) then Some(a)
    else if b.SubnetOf(a) then Some(b)
    else None
  }

  lemma IntersectionExact(a: Net, b: Net)
    ensures !a.SubnetOf(b) && !b.SubnetOf(a) ==> Disjoint(a, b)
  {
    if x :| a.Has(x) && b.Has(x) { DisjointOrNested(a, b, x); }
  }

  /** `net.address_exclude(other)` by repeated halving: one block is split off per level. */
  method AddressExclude(net: Net, other: Net) returns (out: seq<Net>)
    requires other.SubnetOf(net)
    ensures forall a :: Covers(out, a) <==> net.Has(a) && !other.Has(a)
    ensures PairwiseDisjoint(out)
    ensures |out| == other.plen - net.plen
  {
    out := [];
    SubnetPlen(other, net);
    if other == net { return; }
    var whole := net;
    var s1, s2 := Lower(net), Upper(net);
    while s1 != other && s2 != other
      invariant whole.plen < whole.version.Width() && s1 == Lower(whole) && s2 == Upper(whole)
      invariant other.SubnetOf(whole) && other != whole && whole.SubnetOf(net)
      invariant forall a :: Covers(out, a) <==> net.Has(a) && !whole.Has(a)
      invariant PairwiseDisjoint(out) && |out| == whole.plen - net.plen
      decreases other.plen - whole.plen
    {
      InOneHalf(other, whole);
      if other.SubnetOf(s1) {
        out := SplitOff(out, net, whole, s1, s2);
        whole := s1;
        SubnetPlen(other, s1);
        s1, s2 := Lower(whole), Upper(whole);
      } else {
        out := SplitOff(out, net, whole, s2, s1);
        whole := s2;
        SubnetPlen(other, s2);
        s1, s2 := Lower(whole), Upper(whole);
      }
    }
    if s1 == other {
      out := SplitOff(out, net, whole, s1, s2);
    } else {
      out := SplitOff(out, net, whole, s2, s1);
    }
  }

  /** One `yield` of the halving loop: `whole` shrinks to `keep`, its other half is emitted. */
  method SplitOff(out: seq<Net>, ghost net: Net, ghost whole: Net, ghost keep: Net, emit: Net) returns (r: seq<Net>)
    requires whole.plen < whole.version.Width() && whole.SubnetOf(net)
    requires (keep == Lower(whole) && emit == Upper(whole)) || (keep == Upper(whole) && emit == Lower(whole))
    requires forall a :: Covers(out, a) <==> net.Has(a) && !whole.Has(a)
    requires PairwiseDisjoint(out)
    ensures r == out + [emit] && PairwiseDisjoint(r)
    ensures forall a :: Covers(r, a) <==> net.Has(a) && !keep.Has(a)
  {
    HalvesAreSiblings(whole);
    CoversConcat(out, [emit]);
    CoversOne(emit);
    r := out + [emit];
    forall i, j | 0 <= i < j < |r| ensures Disjoint(r[i], r[j]) {
      if j == |out| {
        forall a ensures !(r[i].Has(a) && r[j].Has(a)) {
          if r[i].Has(a) { assert Covers(out, a); }
        }
      }
    }
  }

  lemma InOneHalf(n: Net, whole: Net)
    requires whole.plen < whole.version.Width() && n.SubnetOf(whole) && n != whole
    ensures n.SubnetOf(Lower(whole)) || n.SubnetOf(Upper(whole))
  {
    SubnetPlen(n, whole);
    HalvesAreSiblings(whole);
    if Lower(whole).Has(n.First()) {
      DisjointOrNested(n, Lower(whole), n.First());
    } else {
      DisjointOrNested(n, Upper(whole), n.First());
    }
  }

  /** The portions of `net` outside every hole, as disjoint blocks. */
  method Subtract(net: Net, holes: seq<Net>) returns (remaining: seq<Net>)
    ensures forall a :: Covers(remaining, a) <==> net.Has(a) && !Covers(holes, a)
    ensures PairwiseDisjoint(remaining)
  {
    remaining := [net];
    CoversOne(net);
    for i := 0 to |holes|
      invariant forall a :: Covers(remaining, a) <==> net.Has(a) && !Covers(holes[..i], a)
      invariant PairwiseDisjoint(remaining)
    {
      assert holes[..i + 1] == holes[..i] + [holes[i]];
      CoversConcat(holes[..i], [holes[i]]);
      CoversOne(holes[i]);
      remaining := PunchHole(remaining, holes[i]);
    }
    assert holes[..|holes|] == holes;
  }

  /** The inner loop: every piece loses the hole. */
  method PunchHole(pieces: seq<Net>, hole: Net) returns (nxt: seq<Net>)
    requires PairwiseDisjoint(pieces)
    ensures forall a :: Covers(nxt, a) <==> Covers(pieces, a) && !hole.Has(a)
    ensures PairwiseDisjoint(nxt)
  {
    nxt := [];
    for i := 0 to |pieces|
      invariant forall a :: Covers(nxt, a) <==> Covers(pieces[..i], a) && !hole.Has(a)
      invariant PairwiseDisjoint(nxt)
    {
      var piece := pieces[i];
      var inter := Intersection(piece, hole);
      var left: seq<Net> := [];
      if inter.None? {
        left := [piece];
      } else if inter.value == piece {
      } else if inter.value.SubnetOf(piece) {
        left := AddressExclude(piece, inter.value);
      }
      CoversOne(piece);
      assert forall a :: Covers(left, a) <==> piece.Has(a) && !hole.Has(a);
      assert pieces[..i + 1] == pieces[..i] + [piece];
      CoversConcat(pieces[..i], [piece]);
      DisjointAppend(nxt, left, pieces, i);
      CoversConcat(nxt, left);
      nxt := nxt + left;
    }
    assert pieces[..|pieces|] == pieces;
  }

  lemma DisjointAppend(nxt: seq<Net>, left: seq<Net>, pieces: seq<Net>, i: nat)
    requires i < |pieces| && PairwiseDisjoint(pieces) && PairwiseDisjoint(nxt) && PairwiseDisjoint(left)
    requires forall a :: Covers(nxt, a) ==> Covers(pieces[..i], a)
    requires forall a :: Covers(left, a) ==> pieces[i].Has(a)
    ensures PairwiseDisjoint(nxt + left)
  {
    var r := nxt + left;
    forall j, k | 0 <= j < k < |r| ensures Disjoint(r[j], r[k]) {
      if j < |nxt| <= k {
        forall a ensures !(r[j].Has(a) && r[k].Has(a)) {
          assert r[j].Has(a) ==> Covers(nxt, a);
          assert r[k].Has(a) ==> Covers(left, a);
        }
      }
    }
  }

  // ---- entries and decisions ---------------------------------------------------

  datatype Kind = Allow | Deny

  /** Times are instants on one clock; `None` never expires. */
  datatype Entry = Entry(cidr: Net, kind: Kind, expires: Option<int>) {
    predicate IsActive(now: int) { expires.None? || expires.value > now }
  }

  datatype Verdict = Authorized | Denied | NotInAllowlist

  datatype Decision = Decision(verdict: Verdict, matched: Option<Entry>)

  type Host = a: Addr | a.value < Pow2(a.version.Width()) witness Addr(V4, 0)

  /** A target string, after text parsing: an address, `address/prefix`, or neither. */
  datatype Text = AddressText(addr: Host) | NetworkText(addr: Host, plen: nat) | Garbage

  function HostNet(a: Host): (n: Net)
    ensures n.Size() == 1 && n.First() == a
    ensures forall x :: n.Has(x) <==> x == a
  {
    Net(a.version, a.value, a.version.Width())
  }

  /** The text denotes an address or a network: a prefix may not exceed the address width. */
  predicate IsTarget(t: Text) { !t.Garbage? && (t.NetworkText? ==> t.plen <= t.addr.version.Width()) }

  /** `ip_network(text, strict=False)`: host bits are cleared. */
  function NetOf(a: Host, plen: nat): (n: Net)
    requires plen <= a.version.Width()
    ensures n.plen == plen && n.Has(a)
  {
    var k := a.version.Width() - plen;
    FullSpaceAligned(Masked(a.value, k), k, a.version.Width());
    Net(a.version, Masked(a.value, k), plen)
  }

  /** `parse_target`: bare addresses become one-address blocks. */
  function ParseTarget(t: Text): (r: Result<Net, Error>)
    ensures r.Err? <==> t.Garbage? || (t.NetworkText? && t.plen > t.addr.version.Width())
    ensures r.Err? ==> r.error == InvalidTarget
    ensures r.Ok? ==> r.value.Has(t.addr) && r.value.plen == if t.AddressText? then t.addr.version.Width() else t.plen
  {
    if !IsTarget(t) then Err(InvalidTarget)
    else if t.AddressText? then Ok(HostNet(t.addr))
    else Ok(NetOf(t.addr, t.plen))
  }

  predicate AnyHas(entries: seq<Entry>, a: Addr) {
    exists e :: e in entries && e.cidr.Has(a)
  }

  /** The active entries of one kind, in list order. */
  function Kept(entries: seq<Entry>, kind: Kind, now: int): seq<Entry> {
    if entries == [] then []
    else
      (if entries[0].kind == kind && entries[0].IsActive(now) then [entries[0]] else [])
      + Kept(entries[1..], kind, now)
  }

  lemma {:induction false} KeptMembers(entries: seq<Entry>, kind: Kind, now: int)
    ensures forall e :: e in Kept(entries, kind, now) <==>
                        e in entries && e.kind == kind && (e.expires.None? || now < e.expires.value)
    ensures |Kept(entries, kind, now)| <= |entries|
  {
    if entries != [] {
      KeptMembers(entries[1..], kind, now);
      assert forall e :: e in entries <==> e == entries[0] || e in entries[1..];
    }
  }

  /** Filtering keeps list order and repetition: it works entry by entry. */
  lemma {:induction false} KeptInOrder(s: seq<Entry>, t: seq<Entry>, kind: Kind, now: int)
    ensures Kept(s + t, kind, now) == Kept(s, kind, now) + Kept(t, kind, now)
  {
    if s == [] {
      assert s + t == t;
    } else {
      assert (s + t)[1..] == s[1..] + t && (s + t)[0] == s[0];
      KeptInOrder(s[1..], t, kind, now);
      var head := if s[0].kind == kind && s[0].IsActive(now) then [s[0]] else [];
      assert Kept(s, kind, now) == head + Kept(s[1..], kind, now);
      assert Kept(s + t, kind, now) == head + (Kept(s[1..], kind, now) + Kept(t, kind, now));
    }
  }

  function Filter(entries: seq<Entry>, kind: Kind, now: int): (r: seq<Entry>)
    ensures forall e :: e in r <==> e in entries && e.kind == kind && (e.expires.None? || now < e.expires.value)
    ensures |r| <= |entries|
  {
    KeptMembers(entries, kind, now);
    Kept(entries, kind, now)
  }

  function Cidrs(entries: seq<Entry>): (r: seq<Net>)
    ensures |r| == |entries| && forall i :: 0 <= i < |r| ==> r[i] == entries[i].cidr
  {
    seq(|entries|, i requires 0 <= i < |entries| => entries[i].cidr)
  }

  lemma CidrsCover(entries: seq<Entry>)
    ensures forall a :: Covers(Cidrs(entries), a) <==> AnyHas(entries, a)
  {
    forall e | e in entries ensures e.cidr in Cidrs(entries) {
      var i :| 0 <= i < |entries| && entries[i] == e;
      assert Cidrs(entries)[i] == e.cidr;
    }
  }

  function FirstMatch(entries: seq<Entry>, a: Addr): (r: Option<Entry>)
    ensures r.Some? <==> AnyHas(entries, a)
  {
    if entries == [] then None
    else if entries[0].cidr.Has(a) then Some(entries[0])
    else
      assert forall e :: e in entries <==> e == entries[0] || e in entries[1..];
      FirstMatch(entries[1..], a)
  }

  /** The reported rule is the first of the list that contains the address. */
  lemma {:induction false} FirstMatchIsFirst(entries: seq<Entry>, a: Addr) returns (i: nat)
    requires AnyHas(entries, a)
    ensures i < |entries| && FirstMatch(entries, a) == Some(entries[i]) && entries[i].cidr.Has(a)
    ensures forall j :: 0 <= j < i ==> !entries[j].cidr.Has(a)
  {
    if entries[0].cidr.Has(a) {
      i := 0;
    } else {
      assert FirstMatch(entries, a) == FirstMatch(entries[1..], a);
      var k := FirstMatchIsFirst(entries[1..], a);
      i := k + 1;
    }
  }

  /** A rule of the kind that has not expired at `now` contains the address. */
  ghost predicate RuleApplies(entries: seq<Entry>, kind: Kind, now: int, a: Addr) {
    exists e :: e in entries && e.kind == kind && (e.expires.None? || now < e.expires.value) && e.cidr.Has(a)
  }

  lemma FilterApplies(entries: seq<Entry>, kind: Kind, now: int)
    ensures forall a :: AnyHas(Filter(entries, kind, now), a) <==> RuleApplies(entries, kind, now, a)
  {
    forall a ensures AnyHas(Filter(entries, kind, now), a) <==> RuleApplies(entries, kind, now, a) {
      if AnyHas(Filter(entries, kind, now), a) {
        var e :| e in Filter(entries, kind, now) && e.cidr.Has(a);
        assert e in entries;
      }
      if RuleApplies(entries, kind, now, a) {
        var e :| e in entries && e.kind == kind && (e.expires.None? || now < e.expires.value) && e.cidr.Has(a);
        assert e in Filter(entries, kind, now);
      }
    }
  }

  /** The guard: active rules as given, and the same rules collapsed for bulk planning. */
  datatype ScopeGuard = ScopeGuard(now: int, allow: seq<Entry>, deny: seq<Entry>,
                                   allowNets: seq<Net>, denyNets: seq<Net>) {

    /** Allowed by an active rule and by no active deny rule: deny always wins. */
    predicate Admits(a: Addr) { AnyHas(allow, a) && !AnyHas(deny, a) }

    /** Ties the collapsed lists to the rules. They hold the IPv4 part only: the constructor
        hands `_collapse` a generator. */
    ghost predicate Loaded() {
      && Canonical(allowNets) && Canonical(denyNets)
      && (forall a :: Covers(allowNets, a) <==> AnyHas(allow, a) && a.version.V4?)
      && (forall a :: Covers(denyNets, a) <==> AnyHas(deny, a) && a.version.V4?)
    }

    function Decide(a: Addr): (d: Decision)
      ensures d.verdict.Authorized? <==> Admits(a)
      ensures d.verdict.Denied? <==> AnyHas(deny, a)
      ensures d.matched == (if d.verdict.Denied? then FirstMatch(deny, a) else FirstMatch(allow, a))
    {
      var denied := FirstMatch(deny, a);
      if denied.Some? then Decision(Denied, denied)
      else
        var allowed := FirstMatch(allow, a);
        if allowed.Some? then Decision(Authorized, allowed) else Decision(NotInAllowlist, None)
    }

    /** `evaluate`: a range is denied, text that is no target raises. */
    function Evaluate(target: Text): (r: Result<Decision, Error>)
      ensures r.Err? <==> target.Garbage? || (target.NetworkText? && target.plen > target.addr.version.Width())
      ensures r.Err? ==> r.error == InvalidTarget
      ensures r.Ok? ==>
                var net := ParseTarget(target).value;
                && (r.value.verdict.Authorized? <==> net.Size() == 1 && Admits(net.First()))
                && (r.value.verdict.Denied? <==> net.Size() != 1 || AnyHas(deny, net.First()))
    {
      if target.AddressText? then Ok(Decide(target.addr))
      else
        match ParseTarget(target)
        case Err(e) => Err(e)
        case Ok(net) => Ok(if net.Size() != 1 then Decision(Denied, None) else Decide(net.First()))
    }

    /** `assert_authorized`, the gate in front of every socket. */
    function AssertAuthorized(target: Text): (r: Result<Decision, Error>)
      ensures r.Ok? <==> Evaluate(target).Ok? && Evaluate(target).value.verdict.Authorized?
    {
      match Evaluate(target)
      case Err(e) => Err(e)
      case Ok(d) => if d.verdict.Authorized? then Ok(d) else Err(OutOfScope)
    }
  }

  method FromEntries(entries: seq<Entry>, now: int) returns (g: ScopeGuard)
    ensures g.Loaded() && g.now == now
    ensures g.allow == Filter(entries, Allow, now) && g.deny == Filter(entries, Deny, now)
    ensures forall a :: AnyHas(g.allow, a) <==> RuleApplies(entries, Allow, now, a)
    ensures forall a :: AnyHas(g.deny, a) <==> RuleApplies(entries, Deny, now, a)
    ensures forall a: Host :: g.AssertAuthorized(AddressText(a)).Ok? <==>
                              RuleApplies(entries, Allow, now, a) && !RuleApplies(entries, Deny, now, a)
  {
    FilterApplies(entries, Allow, now);
    FilterApplies(entries, Deny, now);
    var allow, deny := Filter(entries, Allow, now), Filter(entries, Deny, now);
    var allowNets := CollapseNets(Generator(Cidrs(allow)));
    var denyNets := CollapseNets(Generator(Cidrs(deny)));
    CidrsCover(allow);
    CidrsCover(deny);
    g := ScopeGuard(now, allow, deny, allowNets, denyNets);
  }

  // ---- filter_targets -----------------------------------------------------------

  datatype ScopeResult = ScopeResult(authorized: seq<Net>, rejected: seq<Net>) {
    predicate FullyAuthorized() { authorized != [] && rejected == [] }
  }

  function ParseAll(requested: seq<Text>): (r: Result<seq<Net>, Error>)
    ensures r.Ok? <==> forall t :: t in requested ==> ParseTarget(t).Ok?
    ensures r.Ok? ==> |r.value| == |requested|
                      && forall i :: 0 <= i < |requested| ==> r.value[i] == ParseTarget(requested[i]).value
  {
    if requested == [] then Ok([])
    else
      assert forall t :: t in requested <==> t == requested[0] || t in requested[1..];
      match ParseTarget(requested[0])
      case Err(e) => Err(e)
      case Ok(n) =>
        match ParseAll(requested[1..])
        case Err(e) => Err(e)
        case Ok(ns) => Ok([n] + ns)
  }

  /** What bulk planning lets through. */
  predicate BulkAdmits(g: ScopeGuard, a: Addr) { a.version.V4? && g.Admits(a) }

  /** Determines the result completely: canonical lists are fixed by their addresses. */
  ghost predicate Partitions(g: ScopeGuard, reqs: seq<Net>, r: ScopeResult) {
    && Canonical(r.authorized) && Canonical(r.rejected)
    && (forall a :: Covers(r.authorized, a) <==> Covers(reqs, a) && BulkAdmits(g, a))
    && (forall a :: Covers(r.rejected, a) <==> Covers(reqs, a) && !BulkAdmits(g, a))
  }

  method FilterTargets(g: ScopeGuard, requested: seq<Text>) returns (r: Result<ScopeResult, Error>)
    requires g.Loaded()
    ensures r.Ok? <==> ParseAll(requested).Ok?
    ensures r.Err? ==> r.error == InvalidTarget
    ensures r.Ok? ==> Partitions(g, ParseAll(requested).value, r.value)
  {
    var parsed := ParseAll(requested);
    if parsed.Err? { return Err(InvalidTarget); }
    var reqs := parsed.value;
    var authorized, rejected: seq<Net> := [], [];
    for i := 0 to |reqs|
      invariant forall a :: Covers(authorized, a) <==> Covers(reqs[..i], a) && BulkAdmits(g, a)
      invariant forall a :: Covers(rejected, a) <==> Covers(reqs[..i], a) && !BulkAdmits(g, a)
    {
      assert reqs[..i + 1] == reqs[..i] + [reqs[i]];
      CoversConcat(reqs[..i], [reqs[i]]);
      CoversOne(reqs[i]);
      var ok, bad := FilterOne(g, reqs[i]);
      CoversConcat(authorized, ok);
      CoversConcat(rejected, bad);
      authorized := authorized + ok;
      rejected := rejected + bad;
    }
    assert reqs[..|reqs|] == reqs;
    authorized := CollapseNets(List(authorized));
    rejected := CollapseNets(List(rejected));
    r := Ok(ScopeResult(authorized, rejected));
  }

  /** The body of the loop over requests. */
  method FilterOne(g: ScopeGuard, req: Net) returns (authorized: seq<Net>, rejected: seq<Net>)
    requires g.Loaded()
    ensures forall a :: Covers(authorized, a) <==> req.Has(a) && BulkAdmits(g, a)
    ensures forall a :: Covers(rejected, a) <==> req.Has(a) && !BulkAdmits(g, a)
  {
    var covered := MeetAll(req, g.allowNets);
    covered := CollapseNets(List(covered));
    var pieces: seq<Net> := [];
    for i := 0 to |covered|
      invariant forall a :: Covers(pieces, a) <==> Covers(covered[..i], a) && !Covers(g.denyNets, a)
    {
      var left := Subtract(covered[i], g.denyNets);
      assert covered[..i + 1] == covered[..i] + [covered[i]];
      CoversConcat(covered[..i], [covered[i]]);
      CoversOne(covered[i]);
      CoversConcat(pieces, left);
      pieces := pieces + left;
    }
    assert covered[..|covered|] == covered;
    authorized := CollapseNets(List(pieces));
    rejected := Subtract(req, authorized);
  }

  method MeetAll(req: Net, nets: seq<Net>) returns (covered: seq<Net>)
    ensures forall a :: Covers(covered, a) <==> req.Has(a) && Covers(nets, a)
  {
    covered := [];
    for i := 0 to |nets|
      invariant forall a :: Covers(covered, a) <==> req.Has(a) && Covers(nets[..i], a)
    {
      assert nets[..i + 1] == nets[..i] + [nets[i]];
      CoversConcat(nets[..i], [nets[i]]);
      CoversOne(nets[i]);
      var inter := Intersection(req, nets[i]);
      if inter.Some? {
        CoversOne(inter.value);
        CoversConcat(covered, [inter.value]);
        covered := covered + [inter.value];
      }
    }
    assert nets[..|nets|] == nets;
  }

  // ---- the two ways of deciding, compared ---------------------------------------

  /** The failing family in one instance: a prefix one longer than an IPv4 address makes
      `evaluate` raise, whatever the rules. */
  lemma EvaluateRaises(g: ScopeGuard, a: Host)
    requires a.version.V4?
    ensures g.Evaluate(NetworkText(a, 33)) == Err(InvalidTarget)
    ensures g.AssertAuthorized(NetworkText(a, 33)) == Err(InvalidTarget)
  {
  }

  /** The gate's word on one address is `Admits`, and it names the first matching rule. */
  lemma GateVerdict(g: ScopeGuard, a: Host)
    ensures g.Evaluate(AddressText(a)).Ok?
    ensures g.AssertAuthorized(AddressText(a)).Ok? <==> g.Admits(a)
    ensures g.Evaluate(AddressText(a)) == g.Evaluate(NetworkText(a, a.version.Width()))
  {
    assert ParseTarget(NetworkText(a, a.version.Width())).value == HostNet(a);
  }

  /** The result of planning depends on the requested addresses only. */
  lemma PartitionUnique(g: ScopeGuard, reqs: seq<Net>, r: ScopeResult, reqs': seq<Net>, r': ScopeResult)
    requires Partitions(g, reqs, r) && Partitions(g, reqs', r') && SameCover(reqs, reqs')
    ensures r == r'
  {
    CanonicalUnique(r.authorized, r'.authorized);
    CanonicalUnique(r.rejected, r'.rejected);
  }

  /** Nothing is lost, nothing is in both parts, for overlapping requests too. */
  lemma PartitionExact(g: ScopeGuard, reqs: seq<Net>, r: ScopeResult)
    requires Partitions(g, reqs, r)
    ensures forall a :: Covers(reqs, a) <==> Covers(r.authorized, a) || Covers(r.rejected, a)
    ensures forall m, n :: m in r.authorized && n in r.rejected ==> Disjoint(m, n)
    ensures PairwiseDisjoint(r.authorized + r.rejected)
  {
    forall m, n | m in r.authorized && n in r.rejected ensures Disjoint(m, n) {
      forall a ensures !(m.Has(a) && n.Has(a)) {
        assert m.Has(a) ==> Covers(r.authorized, a);
        assert n.Has(a) ==> Covers(r.rejected, a);
      }
    }
  }

  /** Planning the authorized blocks again changes nothing and rejects nothing. */
  lemma RefilterIsIdentity(g: ScopeGuard, reqs: seq<Net>, r: ScopeResult, again: ScopeResult)
    requires Partitions(g, reqs, r) && Partitions(g, r.authorized, again)
    ensures again == ScopeResult(r.authorized, [])
  {
    CanonicalUnique(r.authorized, again.authorized);
    CoversSomething(again.rejected);
  }

  /** Every bulk-authorized address passes the gate. */
  lemma BulkImpliesGate(g: ScopeGuard, reqs: seq<Net>, r: ScopeResult, a: Host)
    requires Partitions(g, reqs, r) && Covers(r.authorized, a)
    ensures g.AssertAuthorized(AddressText(a)).Ok?
  {
  }

  ghost predicate BulkAgreesWithGate(g: ScopeGuard, reqs: seq<Net>, r: ScopeResult) {
    forall a :: Covers(r.authorized, a) <==> Covers(reqs, a) && g.Decide(a).verdict.Authorized?
  }

  /** The part of the request that an allow rule meets lies under deny rules. */
  ghost predicate MeetsOnlyDenied(g: ScopeGuard, req: Net, allow: Entry) {
    var meet := Intersection(req, allow.cidr);
    meet.Some? ==> forall a :: meet.value.Has(a) ==> AnyHas(g.deny, a)
  }

  /** Bulk planning agrees with the gate exactly when no IPv6 request meets an IPv6 allow
      rule outside the deny rules. */
  lemma BulkAgreesIff(g: ScopeGuard, reqs: seq<Net>, r: ScopeResult)
    requires Partitions(g, reqs, r)
    ensures BulkAgreesWithGate(g, reqs, r) <==>
            forall req, e :: req in reqs && e in g.allow && req.version.V6? ==> MeetsOnlyDenied(g, req, e)
  {
    if BulkAgreesWithGate(g, reqs, r) {
      forall req, e | req in reqs && e in g.allow && req.version.V6? ensures MeetsOnlyDenied(g, req, e) {
        var meet := Intersection(req, e.cidr);
        if meet.Some? {
          forall a | meet.value.Has(a) ensures AnyHas(g.deny, a) {
            assert Covers(reqs, a) && AnyHas(g.allow, a);
            assert !Covers(r.authorized, a);
          }
        }
      }
    }
    if forall req, e :: req in reqs && e in g.allow && req.version.V6? ==> MeetsOnlyDenied(g, req, e) {
      forall a | Covers(reqs, a) && g.Admits(a) ensures a.version.V4? {
        var req :| req in reqs && req.Has(a);
        var e :| e in g.allow && e.cidr.Has(a);
        assert req.version.V6? ==> MeetsOnlyDenied(g, req, e);
      }
    }
  }

  /** The failing family in one instance: `::1` is allowed, the gate admits it, planning rejects it. */
  lemma Ipv6PlanningRejectsWhatTheGateAdmits(g: ScopeGuard, r: ScopeResult, a: Host)
    requires a == Addr(V6, 1) && g.allow == [Entry(HostNet(a), Allow, None)] && g.deny == []
    requires Partitions(g, [HostNet(a)], r)
    ensures g.AssertAuthorized(AddressText(a)).Ok?
    ensures r == ScopeResult([], [HostNet(a)])
  {
    CoversOne(HostNet(a));
    var e := Entry(HostNet(a), Allow, None);
    assert g.allow[0] == e && e in g.allow && e.cidr.Has(a);
    CoversSomething(r.authorized);
    assert NoSiblings([HostNet(a)]);
    CanonicalUnique(r.rejected, [HostNet(a)]);
  }

  /** The rules and the clock fix the whole guard, its collapsed lists included. */
  lemma GuardUnique(g: ScopeGuard, g': ScopeGuard)
    requires g.Loaded() && g'.Loaded()
    requires g.now == g'.now && g.allow == g'.allow && g.deny == g'.deny
    ensures g == g'
  {
    CanonicalUnique(g.allowNets, g'.allowNets);
    CanonicalUnique(g.denyNets, g'.denyNets);
  }

  /** Another allow rule never shrinks, and another deny rule never grows, what the gate admits. */
  lemma RulesAreMonotone(entries: seq<Entry>, e: Entry, more: seq<Entry>, now: int,
                         g: ScopeGuard, g': ScopeGuard, a: Addr)
    requires forall x :: x in more <==> x == e || x in entries
    requires g.allow == Filter(entries, Allow, now) && g.deny == Filter(entries, Deny, now)
    requires g'.allow == Filter(more, Allow, now) && g'.deny == Filter(more, Deny, now)
    ensures e.kind.Allow? && g.Decide(a).verdict.Authorized? ==> g'.Decide(a).verdict.Authorized?
    ensures e.kind.Deny? && g'.Decide(a).verdict.Authorized? ==> g.Decide(a).verdict.Authorized?
    ensures e.expires.Some? && e.expires.value <= now ==> g'.Decide(a).verdict == g.Decide(a).verdict
  {
    forall x | x in entries ensures x in more {}
    assert AnyHas(g.allow, a) ==> AnyHas(g'.allow, a);
    assert AnyHas(g.deny, a) ==> AnyHas(g'.deny, a);
  }

  // ---- host counts ---------------------------------------------------------------

  function HostCount(nets: seq<Net>): nat {
    if nets == [] then 0 else nets[0].Size() + HostCount(nets[1..])
  }

  ghost function Addresses(n: Net): set<Addr> {
    set v | n.base <= v <= n.Last() :: Addr(n.version, v)
  }

  ghost function AllAddresses(nets: seq<Net>): set<Addr> {
    if nets == [] then {} else Addresses(nets[0]) + AllAddresses(nets[1..])
  }

  lemma {:induction false} IntervalSize(v: Version, lo: nat, hi: nat)
    requires lo <= hi
    ensures |set x | lo <= x < hi :: Addr(v, x)| == hi - lo
    decreases hi - lo
  {
    var s := set x | lo <= x < hi :: Addr(v, x);
    if lo == hi {
      assert s == {};
    } else {
      IntervalSize(v, lo, hi - 1);
      assert s == (set x | lo <= x < hi - 1 :: Addr(v, x)) + {Addr(v, hi - 1)};
    }
  }

  lemma {:induction false} AllAddressesCovers(nets: seq<Net>)
    ensures forall a :: a in AllAddresses(nets) <==> Covers(nets, a)
  {
    if nets != [] {
      AllAddressesCovers(nets[1..]);
      assert nets == [nets[0]] + nets[1..];
      CoversConcat([nets[0]], nets[1..]);
      CoversOne(nets[0]);
    }
  }

  lemma {:induction false} HeadApart(nets: seq<Net>)
    requires nets != [] && PairwiseDisjoint(nets)
    ensures Addresses(nets[0]) !! AllAddresses(nets[1..])
  {
    AllAddressesCovers(nets[1..]);
    forall m | m in nets[1..] ensures Disjoint(nets[0], m) {
      var j :| 0 <= j < |nets[1..]| && nets[1..][j] == m;
      assert nets[j + 1] == m;
    }
  }

  /** For disjoint blocks, `authorized_host_count` is the number of distinct addresses. */
  lemma {:induction false} HostCountIsCardinality(nets: seq<Net>)
    requires PairwiseDisjoint(nets)
    ensures HostCount(nets) == |AllAddresses(nets)|
  {
    if nets != [] {
      HostCountIsCardinality(nets[1..]);
      var n := nets[0];
      IntervalSize(n.version, n.base, n.base + n.Size());
      assert Addresses(n) == set x | n.base <= x < n.base + n.Size() :: Addr(n.version, x);
      HeadApart(nets);
    }
  }

  lemma {:induction false} AddressesSplit(whole: seq<Net>, s: seq<Net>, t: seq<Net>)
    requires forall a :: Covers(whole, a) <==> Covers(s, a) || Covers(t, a)
    requires forall a :: !(Covers(s, a) && Covers(t, a))
    ensures |AllAddresses(whole)| == |AllAddresses(s)| + |AllAddresses(t)|
  {
    AllAddressesCovers(whole);
    AllAddressesCovers(s);
    AllAddressesCovers(t);
    assert AllAddresses(whole) == AllAddresses(s) + AllAddresses(t);
    assert AllAddresses(s) !! AllAddresses(t);
  }

  /** Host counts balance: authorized plus rejected hosts are the distinct requested hosts. */
  lemma {:induction false} HostCountsBalance(g: ScopeGuard, reqs: seq<Net>, r: ScopeResult)
    requires Partitions(g, reqs, r)
    ensures HostCount(r.authorized) + HostCount(r.rejected) == |AllAddresses(reqs)|
  {
    AddressesSplit(reqs, r.authorized, r.rejected);
    HostCountIsCardinality(r.authorized);
    HostCountIsCardinality(r.rejected);
  }
}
