/** `_collapse`: the canonical list of blocks with a given set of addresses. */
module Collapse {
  import opened Cidr
  import opened Summarize

  /** `a` lies wholly before `b`, IPv4 before IPv6. */
  predicate Before(a: Net, b: Net) {
    (a.version.V4? && b.version.V6?) || (a.version == b.version && a.Last() < b.base)
  }

  predicate Ascending(s: seq<Net>) {
    forall i, j :: 0 <= i < j < |s| ==> Before(s[i], s[j])
  }

  ghost predicate NoSiblings(s: seq<Net>) {
    forall m, n :: m in s && n in s ==> !Siblings(m, n)
  }

  /** Sorted, pairwise disjoint, and no two blocks could be merged. */
  ghost predicate Canonical(s: seq<Net>) {
    Ascending(s) && NoSiblings(s)
  }

  // ---- the canonical form is the set of maximal blocks, so it is unique ------

  ghost predicate Within(b: Net, s: seq<Net>) {
    forall a :: b.Has(a) ==> Covers(s, a)
  }

  /** `b` is a largest block among those all of whose addresses are covered by `s`. */
  ghost predicate Maximal(b: Net, s: seq<Net>) {
    Within(b, s) && forall c: Net :: Within(c, s) && b.SubnetOf(c) ==> c == b
  }

  /** A block inside the union of unmergeable blocks is inside one of them. */
  lemma {:induction false} WithinOne(b: Net, s: seq<Net>) returns (m: Net)
    requires NoSiblings(s) && Within(b, s)
    ensures m in s && b.SubnetOf(m)
    decreases b.version.Width() - b.plen
  {
    assert Covers(s, b.First());
    if b.plen == b.version.Width() {
      m :| m in s && m.Has(b.First());
    } else {
      HalvesAreSiblings(b);
      var lo := WithinOne(Lower(b), s);
      var hi := WithinOne(Upper(b), s);
      SubnetPlen(Lower(b), lo);
      SubnetPlen(Upper(b), hi);
      if lo.plen <= b.plen {
        m := lo;
        DisjointOrNested(m, b, Lower(b).First());
      } else {
        m := hi;
        assert hi.plen <= b.plen;
        DisjointOrNested(m, b, Upper(b).First());
      }
    }
  }

  lemma AscendingDisjoint(s: seq<Net>, m: Net, n: Net)
    requires Ascending(s) && m in s && n in s && m.SubnetOf(n)
    ensures m == n
  {
  }

  /** Main result: the members of a canonical list are exactly the maximal blocks of its union. */
  lemma CanonicalIsMaximal(s: seq<Net>, b: Net)
    requires Canonical(s)
    ensures b in s <==> Maximal(b, s)
  {
    if b in s {
      forall c: Net | Within(c, s) && b.SubnetOf(c) ensures c == b {
        var m := WithinOne(c, s);
        AscendingDisjoint(s, b, m);
        SubnetPlen(b, c);
        SubnetPlen(c, b);
      }
    }
    if Maximal(b, s) {
      var m := WithinOne(b, s);
      assert Within(m, s);
    }
  }

  lemma {:induction false} AscendingUnique(s: seq<Net>, t: seq<Net>)
    requires Ascending(s) && Ascending(t)
    requires forall b :: b in s <==> b in t
    ensures s == t
  {
    assert s != [] ==> s[0] in s && s[0] in t;
    assert t != [] ==> t[0] in t && t[0] in s;
    if s != [] {
      assert s[0] == t[0];
      forall b ensures b in s[1..] <==> b in t[1..] {
        if b in s[1..] { assert b in s; assert b != s[0]; }
        if b in t[1..] { assert b in t; assert b != t[0]; }
      }
      AscendingUnique(s[1..], t[1..]);
    }
  }

  /** Equal unions have equal canonical lists, whatever lists they were collapsed from. */
  lemma CanonicalUnique(s: seq<Net>, t: seq<Net>)
    requires Canonical(s) && Canonical(t) && SameCover(s, t)
    ensures s == t
  {
    forall b ensures b in s <==> b in t {
      CanonicalIsMaximal(s, b);
      CanonicalIsMaximal(t, b);
    }
    AscendingUnique(s, t);
  }

  // ---- collapse_addresses: merge through a table keyed by supernet ----------

  ghost predicate CoversTable(table: map<Net, Net>, a: Addr) {
    exists k :: k in table && table[k].Has(a)
  }

  ghost predicate TableOk(table: map<Net, Net>, toMerge: seq<Net>, nets: seq<Net>) {
    && (forall k :: k in table ==> Supernet(table[k]) == k)
    && (forall a :: CoversTable(table, a) || Covers(toMerge, a) <==> Covers(nets, a))
    && (forall n :: n in toMerge || n in table ==> exists o :: o in nets && o.version == n.version)
  }

  /** Merges siblings until every remaining block is alone under its supernet. */
  method MergeBySupernet(nets: seq<Net>) returns (table: map<Net, Net>)
    ensures TableOk(table, [], nets)
  {
    table := map[];
    var toMerge := nets;
    StartTable(nets);
    while toMerge != []
      invariant TableOk(table, toMerge, nets)
      decreases 2 * |toMerge| + |table|
    {
      table, toMerge := MergeLast(table, toMerge, nets);
    }
  }

  method MergeLast(table: map<Net, Net>, toMerge: seq<Net>, ghost nets: seq<Net>)
    returns (table': map<Net, Net>, toMerge': seq<Net>)
    requires toMerge != [] && TableOk(table, toMerge, nets)
    ensures TableOk(table', toMerge', nets)
    ensures 2 * |toMerge'| + |table'| < 2 * |toMerge| + |table|
  {
    var net := toMerge[|toMerge| - 1];
    toMerge' := toMerge[..|toMerge| - 1];
    assert toMerge == toMerge' + [net];
    var supernet := Supernet(net);
    if supernet !in table {
      StoreStep(table, toMerge', net, nets);
      table' := table[supernet := net];
    } else if table[supernet] != net {
      MergeStep(table, toMerge', net, nets);
      TableShrinks(table, supernet);
      table' := table - {supernet};
      toMerge' := toMerge' + [supernet];
    } else {
      DropStep(table, toMerge', net, nets);
      table' := table;
    }
  }

  lemma TableShrinks(table: map<Net, Net>, k: Net)
    requires k in table
    ensures |table - {k}| == |table| - 1
  {
    assert table == (table - {k})[k := table[k]];
  }

  lemma StartTable(nets: seq<Net>)
    ensures TableOk(map[], nets, nets)
  {
  }

  lemma {:induction false} StoreStep(table: map<Net, Net>, rest: seq<Net>, n: Net, nets: seq<Net>)
    requires TableOk(table, rest + [n], nets) && Supernet(n) !in table
    ensures TableOk(table[Supernet(n) := n], rest, nets)
  {
    CoversAdded(table, Supernet(n), n);
    CoversConcat(rest, [n]);
    CoversOne(n);
    assert n in rest + [n];
  }

  lemma {:induction false} MergeStep(table: map<Net, Net>, rest: seq<Net>, n: Net, nets: seq<Net>)
    requires TableOk(table, rest + [n], nets)
    requires Supernet(n) in table && table[Supernet(n)] != n
    ensures TableOk(table - {Supernet(n)}, rest + [Supernet(n)], nets)
  {
    MergeSiblings(table[Supernet(n)], n);
    CoversRemoved(table, Supernet(n));
    CoversConcat(rest, [n]);
    CoversConcat(rest, [Supernet(n)]);
    CoversOne(n);
    CoversOne(Supernet(n));
    assert n in rest + [n];
  }

  lemma {:induction false} DropStep(table: map<Net, Net>, rest: seq<Net>, n: Net, nets: seq<Net>)
    requires TableOk(table, rest + [n], nets)
    requires Supernet(n) in table && table[Supernet(n)] == n
    ensures TableOk(table, rest, nets)
  {
    CoversConcat(rest, [n]);
    CoversOne(n);
  }

  lemma CoversAdded(table: map<Net, Net>, k: Net, n: Net)
    requires k !in table
    ensures forall a :: CoversTable(table[k := n], a) <==> CoversTable(table, a) || n.Has(a)
  {
    var t := table[k := n];
    forall a ensures CoversTable(t, a) <==> CoversTable(table, a) || n.Has(a) {
      if n.Has(a) { assert t[k].Has(a); }
      if CoversTable(table, a) {
        var j :| j in table && table[j].Has(a);
        assert t[j].Has(a);
      }
    }
  }

  lemma CoversRemoved(table: map<Net, Net>, k: Net)
    requires k in table
    ensures forall a :: CoversTable(table, a) <==> CoversTable(table - {k}, a) || table[k].Has(a)
  {
    assert table == (table - {k})[k := table[k]];
    CoversAdded(table - {k}, k, table[k]);
  }

  // ---- sorted(): by address, then larger block first ------------------------

  predicate SortsBefore(a: Net, b: Net) {
    a.base < b.base || (a.base == b.base && a.plen <= b.plen)
  }

  predicate Sorted(s: seq<Net>) {
    forall i, j :: 0 <= i < j < |s| ==> SortsBefore(s[i], s[j])
  }

  function Insert(s: seq<Net>, n: Net): (r: seq<Net>)
    requires Sorted(s)
    ensures Sorted(r) && forall x :: x in r <==> x == n || x in s
  {
    if s == [] || SortsBefore(n, s[0]) then [n] + s
    else
      var t := Insert(s[1..], n);
      assert forall x :: x in s <==> x == s[0] || x in s[1..];
      assert forall x :: x in s[1..] ==> SortsBefore(s[0], x);
      assert forall x :: x in t ==> SortsBefore(s[0], x);
      [s[0]] + t
  }

  method SortedValues(table: map<Net, Net>) returns (s: seq<Net>)
    ensures Sorted(s)
    ensures forall n :: n in s <==> n in table.Values
  {
    s := [];
    var rest := table.Keys;
    while rest != {}
      invariant rest <= table.Keys && Sorted(s)
      invariant forall n :: n in s <==> exists k :: k in table.Keys - rest && table[k] == n
      decreases |rest|
    {
      var k :| k in rest;
      ghost var old_s, old_rest := s, rest;
      s := Insert(s, table[k]);
      rest := rest - {k};
      assert table.Keys - rest == table.Keys - old_rest + {k};
    }
  }

  // ---- the sweep -------------------------------------------------------------

  /** Drops every block subsumed by the block kept before it. */
  method DropSubsumed(sorted: seq<Net>) returns (out: seq<Net>)
    requires Sorted(sorted)
    requires forall m, n :: m in sorted && n in sorted ==> m.version == n.version
    ensures Ascending(out)
    ensures forall n :: n in out ==> n in sorted
    ensures SameCover(out, sorted)
  {
    out := [];
    for i := 0 to |sorted|
      invariant Ascending(out)
      invariant forall n :: n in out ==> n in sorted[..i]
      invariant SameCover(out, sorted[..i])
    {
      var net := sorted[i];
      assert sorted[..i + 1] == sorted[..i] + [net];
      CoversConcat(sorted[..i], [net]);
      CoversConcat(out, [net]);
      CoversOne(net);
      if out != [] && out[|out| - 1].Last() >= net.Last() {
        assert out[|out| - 1] in out && net.SubnetOf(out[|out| - 1]);
      } else {
        if out != [] {
          assert out[|out| - 1] in sorted[..i];
          SweepGap(out[|out| - 1], net);
        }
        out := out + [net];
      }
    }
    assert sorted[..|sorted|] == sorted;
  }

  lemma SweepGap(last: Net, net: Net)
    requires SortsBefore(last, net) && last.version == net.version && last.Last() < net.Last()
    ensures last.Last() < net.base
  {
    if net.base <= last.Last() { DisjointOrNested(last, net, net.First()); }
  }

  method CollapseAddresses(nets: seq<Net>) returns (out: seq<Net>)
    requires forall m, n :: m in nets && n in nets ==> m.version == n.version
    ensures Canonical(out) && SameCover(out, nets)
    ensures forall n :: n in out ==> exists m :: m in nets && m.version == n.version
  {
    if nets == [] { return []; }
    var gathered := GatherSingles(nets[0].version, nets);
    var table := MergeBySupernet(gathered);
    var sorted := SortedValues(table);
    forall n | n in sorted
      ensures Supernet(n) in table && table[Supernet(n)] == n
    {
      var k :| k in table && table[k] == n;
    }
    out := DropSubsumed(sorted);
    forall a ensures Covers(out, a) <==> Covers(nets, a) {
      if CoversTable(table, a) {
        var k :| k in table && table[k].Has(a);
        assert table[k] in sorted;
      }
    }
  }

  // ---- _collapse ---------------------------------------------------------------

  /** What a caller passes as an `Iterable`: a list can be read again and again, a
      generator expression is exhausted by its first complete reading. */
  datatype Iterable<T> = List(items: seq<T>) | Generator(items: seq<T>) {
    function ReadAgain(): Iterable<T> { if List? then this else Generator([]) }
  }

  function OfVersion(nets: seq<Net>, v: Version): (r: seq<Net>)
    ensures forall n :: n in r <==> n in nets && n.version == v
  {
    if nets == [] then []
    else
      assert forall n :: n in nets <==> n == nets[0] || n in nets[1..];
      (if nets[0].version == v then [nets[0]] else []) + OfVersion(nets[1..], v)
  }

  lemma VersionsCover(nets: seq<Net>)
    ensures forall a :: Covers(OfVersion(nets, V4), a) <==> Covers(nets, a) && a.version.V4?
    ensures forall a :: Covers(OfVersion(nets, V6), a) <==> Covers(nets, a) && a.version.V6?
  {
  }

  /** The addresses `_collapse` keeps: all of a list, only IPv4 of a generator. */
  ghost predicate CollapseKeeps(nets: Iterable<Net>, a: Addr) {
    Covers(nets.items, a) && (nets.List? || a.version.V4?)
  }

  method CollapseNets(nets: Iterable<Net>) returns (out: seq<Net>)
    ensures Canonical(out)
    ensures forall a :: Covers(out, a) <==> CollapseKeeps(nets, a)
  {
    var v4 := OfVersion(nets.items, V4);
    var again := nets.ReadAgain();
    var v6 := OfVersion(again.items, V6);
    out := [];
    if v4 != [] {
      var c4 := CollapseAddresses(v4);
      out := out + c4;
    }
    ghost var out4 := out;
    assert forall a :: Covers(out4, a) <==> Covers(v4, a);
    if v6 != [] {
      var c6 := CollapseAddresses(v6);
      CoversConcat(out4, c6);
      out := out + c6;
    }
    assert forall a :: Covers(out, a) <==> Covers(v4, a) || Covers(v6, a);
    VersionsCover(nets.items);
    VersionsCover(again.items);
  }
}
