/** The first half of `collapse_addresses`: one-address blocks are gathered into runs of
    consecutive addresses, and every run is cut into aligned blocks. */
module Summarize {
  import opened Cidr

  // ---- summarize_address_range ----------------------------------------------------

  /** The number of low zero bits of `x`, at most `bits`. */
  function TrailingZeros(x: nat, bits: nat): (k: nat)
    ensures k <= bits && Aligned(x, k)
  {
    if bits == 0 || x % 2 == 1 then 0 else 1 + TrailingZeros(x / 2, bits - 1)
  }

  /** `n.bit_length() - 1` */
  function Log2(n: nat): (k: nat)
    requires n > 0
    ensures Pow2(k) <= n < 2 * Pow2(k)
  {
    if n == 1 then 0 else 1 + Log2(n / 2)
  }

  lemma {:induction false} AlignedLess(x: nat, j: nat, k: nat)
    requires j <= k && Aligned(x, k)
    ensures Aligned(x, j)
  {
    if j < k {
      AlignedWeaken(x, k);
      AlignedLess(x, j, k - 1);
    }
  }

  /** The next block of a range: as large as alignment and the end of the range allow. */
  function FirstBlock(v: Version, first: nat, last: nat): (n: Net)
    requires first <= last < Pow2(v.Width())
    ensures n.version == v && n.base == first && n.Last() <= last
  {
    var zeros, size := TrailingZeros(first, v.Width()), Log2(last - first + 1);
    var bits := if zeros <= size then zeros else size;
    AlignedLess(first, bits, zeros);
    PowLess(bits, size);
    Net(v, first, v.Width() - bits)
  }

  lemma PowLess(j: nat, k: nat)
    requires j <= k
    ensures Pow2(j) <= Pow2(k)
  {
    if j < k { Pow2Monotone(j, k); }
  }

  lemma {:induction false} TrailingZerosMost(x: nat, bits: nat, j: nat)
    requires j <= bits && Aligned(x, j)
    ensures j <= TrailingZeros(x, bits)
  {
    if j > 0 { TrailingZerosMost(x / 2, bits - 1, j - 1); }
  }

  /** No block that starts there and stays in the range is larger. */
  lemma FirstBlockIsLargest(v: Version, first: nat, last: nat, m: Net)
    requires first <= last < Pow2(v.Width())
    requires m.version == v && m.base == first && m.Last() <= last
    ensures m.SubnetOf(FirstBlock(v, first, last))
  {
    var n := FirstBlock(v, first, last);
    TrailingZerosMost(first, v.Width(), m.HostBits());
    if n.HostBits() < m.HostBits() {
      PowLess(n.HostBits() + 1, m.HostBits());
    } else {
      PowLess(m.HostBits(), n.HostBits());
    }
  }

  /** Cuts an address range into blocks; the range may end at the last address of all. */
  method SummarizeRange(v: Version, first: nat, last: nat) returns (out: seq<Net>)
    requires first <= last < Pow2(v.Width())
    ensures forall a :: Covers(out, a) <==> a.version == v && first <= a.value <= last
    ensures PairwiseDisjoint(out)
  {
    out := [];
    var next := first;
    while next <= last
      invariant first <= next <= last + 1
      invariant forall a :: Covers(out, a) <==> a.version == v && first <= a.value < next
      invariant PairwiseDisjoint(out)
    {
      var net := FirstBlock(v, next, last);
      CoversOne(net);
      CoversConcat(out, [net]);
      forall i | 0 <= i < |out| ensures Disjoint(out[i], net) {
        forall a | out[i].Has(a) ensures !net.Has(a) { assert Covers(out, a); }
      }
      out := out + [net];
      next := next + net.Size();
    }
  }

  // ---- runs of consecutive addresses ------------------------------------------------

  ghost predicate Rising(s: seq<nat>) {
    forall i, j :: 0 <= i < j < |s| ==> s[i] < s[j]
  }

  /** Insertion into `sorted(set(...))`: a value already there stays single. */
  function InsertValue(s: seq<nat>, x: nat): (r: seq<nat>)
    requires Rising(s)
    ensures Rising(r) && forall y :: y in r <==> y == x || y in s
  {
    if s == [] || x < s[0] then [x] + s
    else if x == s[0] then s
    else
      var t := InsertValue(s[1..], x);
      assert forall y :: y in s <==> y == s[0] || y in s[1..];
      assert forall y :: y in t ==> s[0] < y;
      assert forall i :: 0 <= i < |t| ==> t[i] in t && s[0] < t[i];
      assert forall i :: 0 < i < |[s[0]] + t| ==> ([s[0]] + t)[i] == t[i - 1];
      [s[0]] + t
  }

  datatype Range = Range(first: nat, last: nat)

  ghost predicate InRanges(ranges: seq<Range>, x: nat) {
    exists r :: r in ranges && r.first <= x <= r.last
  }

  lemma RangeAdded(ranges: seq<Range>, r: Range)
    ensures forall x: nat :: InRanges(ranges + [r], x) <==> InRanges(ranges, x) || r.first <= x <= r.last
  {
    assert r in ranges + [r];
  }

  /** The runs of a list, built value by value. */
  function Runs(values: seq<nat>): seq<Range> {
    if values == [] then [] else Joined(Runs(values[..|values| - 1]), values[|values| - 1])
  }

  function Joined(runs: seq<Range>, x: nat): seq<Range> {
    if runs != [] && x == runs[|runs| - 1].last + 1 then
      runs[..|runs| - 1] + [Range(runs[|runs| - 1].first, x)]
    else runs + [Range(x, x)]
  }

  /** Runs in order, with a gap between any two. */
  ghost predicate Apart(runs: seq<Range>) {
    && (forall i :: 0 <= i < |runs| ==> runs[i].first <= runs[i].last)
    && forall i :: 0 <= i < |runs| - 1 ==> runs[i].last + 1 < runs[i + 1].first
  }

  lemma JoinedExact(runs: seq<Range>, x: nat)
    requires Apart(runs) && (runs != [] ==> runs[|runs| - 1].last < x)
    ensures Apart(Joined(runs, x)) && Joined(runs, x)[|Joined(runs, x)| - 1].last == x
    ensures forall y: nat :: InRanges(Joined(runs, x), y) <==> InRanges(runs, y) || y == x
  {
    if runs != [] && x == runs[|runs| - 1].last + 1 {
      var front, last := runs[..|runs| - 1], runs[|runs| - 1];
      assert runs == front + [last];
      RangeAdded(front, last);
      RangeAdded(front, Range(last.first, x));
    } else {
      RangeAdded(runs, Range(x, x));
    }
  }

  /** The runs of a rising list hold exactly its values and are maximal. */
  lemma {:induction false} RunsExact(values: seq<nat>)
    requires Rising(values)
    ensures Apart(Runs(values)) && (values == [] <==> Runs(values) == [])
    ensures values != [] ==> Runs(values)[|Runs(values)| - 1].last == values[|values| - 1]
    ensures forall x: nat :: InRanges(Runs(values), x) <==> x in values
  {
    if values != [] {
      var front, x := values[..|values| - 1], values[|values| - 1];
      assert values == front + [x];
      assert front != [] ==> front[|front| - 1] == values[|front| - 1] < x;
      RunsExact(front);
      JoinedExact(Runs(front), x);
      assert forall y: nat :: y in values <==> y in front || y == x;
    }
  }

  lemma RunEnds(values: seq<nat>, i: nat)
    requires Rising(values) && i < |Runs(values)|
    ensures Runs(values)[i].first <= Runs(values)[i].last && Runs(values)[i].last in values
  {
    RunsExact(values);
    assert InRanges(Runs(values), Runs(values)[i].last);
  }

  /** `_find_address_range` */
  method FindRanges(values: seq<nat>) returns (ranges: seq<Range>)
    ensures ranges == Runs(values)
  {
    ranges := [];
    if values == [] { return; }
    var first, last := values[0], values[0];
    assert values[..1][..0] == [] && Runs(values[..1]) == [Range(first, last)];
    for i := 1 to |values|
      invariant Runs(values[..i]) == ranges + [Range(first, last)]
    {
      assert values[..i + 1][..i] == values[..i];
      if values[i] != last + 1 {
        ranges := ranges + [Range(first, last)];
        first := values[i];
      }
      last := values[i];
    }
    assert values[..|values|] == values;
    ranges := ranges + [Range(first, last)];
  }

  method SummarizeValues(v: Version, values: seq<nat>) returns (out: seq<Net>)
    requires Rising(values) && forall x :: x in values ==> x < Pow2(v.Width())
    ensures forall a :: Covers(out, a) <==> a.version == v && a.value in values
  {
    var ranges := FindRanges(values);
    out := [];
    for i := 0 to |ranges|
      invariant forall a :: Covers(out, a) <==> a.version == v && InRanges(ranges[..i], a.value)
    {
      assert ranges[..i + 1] == ranges[..i] + [ranges[i]];
      RangeAdded(ranges[..i], ranges[i]);
      RunEnds(values, i);
      var blocks := SummarizeRange(v, ranges[i].first, ranges[i].last);
      CoversConcat(out, blocks);
      out := out + blocks;
    }
    assert ranges[..|ranges|] == ranges;
    RunsExact(values);
  }

  // ---- the pre-pass -----------------------------------------------------------------

  /** One-address blocks summarized, followed by the other blocks as they came. */
  method GatherSingles(v: Version, nets: seq<Net>) returns (out: seq<Net>)
    requires forall n :: n in nets ==> n.version == v
    ensures SameCover(out, nets) && forall n :: n in out ==> n.version == v
  {
    var values: seq<nat>, blocks: seq<Net> := [], [];
    for i := 0 to |nets|
      invariant Rising(values) && forall x :: x in values ==> x < Pow2(v.Width())
      invariant forall n :: n in blocks ==> n.version == v
      invariant forall a :: Covers(nets[..i], a) <==> Covers(blocks, a) || (a.version == v && a.value in values)
    {
      var net := nets[i];
      assert nets[..i + 1] == nets[..i] + [net];
      CoversConcat(nets[..i], [net]);
      CoversOne(net);
      if net.plen == v.Width() {
        values := InsertValue(values, net.base);
      } else {
        CoversConcat(blocks, [net]);
        blocks := blocks + [net];
      }
    }
    assert nets[..|nets|] == nets;
    var singles := SummarizeValues(v, values);
    forall n | n in singles ensures n.version == v {
      assert n.Has(n.First()) && Covers(singles, n.First());
    }
    CoversConcat(singles, blocks);
    out := singles + blocks;
  }
}
