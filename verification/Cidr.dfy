/** CIDR blocks as the `ipaddress` networks used by the scope guard: a version, an
    aligned base address and a prefix length (section 3.1 of RFC 4632). */
module Cidr {

  datatype Version = V4 | V6 {
    function Width(): nat { if V4? then 32 else 128 }
  }

  datatype Addr = Addr(version: Version, value: nat)

  function Pow2(k: nat): (p: nat)
    ensures p > 0
  {
    if k == 0 then 1 else 2 * Pow2(k - 1)
  }

  /** The low `k` bits of `x` are zero. */
  predicate Aligned(x: nat, k: nat) {
    k == 0 || (x % 2 == 0 && Aligned(x / 2, k - 1))
  }

  /** `x` with its low `k` bits cleared: `x & netmask`. */
  function Masked(x: nat, k: nat): (m: nat)
    ensures Aligned(m, k)
    ensures m <= x < m + Pow2(k)
  {
    if k == 0 then x else 2 * Masked(x / 2, k - 1)
  }

  datatype RawNet = Net(version: Version, base: nat, plen: nat) {
    function HostBits(): nat
      requires plen <= version.Width()
    {
      version.Width() - plen
    }

    predicate Valid() {
      && plen <= version.Width()
      && Aligned(base, HostBits())
      && base + Pow2(HostBits()) <= Pow2(version.Width())
    }

    /** `num_addresses` */
    function Size(): (s: nat)
      requires plen <= version.Width()
      ensures s > 0
    {
      Pow2(HostBits())
    }

    /** `broadcast_address` */
    function Last(): nat
      requires plen <= version.Width()
    {
      base + Size() - 1
    }

    /** `addr in net` */
    predicate Has(a: Addr)
      requires plen <= version.Width()
    {
      a.version == version && base <= a.value <= Last()
    }

    /** `self.subnet_of(other)`, false across versions. */
    predicate SubnetOf(other: RawNet)
      requires plen <= version.Width() && other.plen <= other.version.Width()
    {
      version == other.version && other.base <= base && Last() <= other.Last()
    }

    function First(): Addr { Addr(version, base) }
  }

  /** A well-formed block; every operation below takes and yields these only. */
  type Net = n: RawNet | n.Valid() witness Net(V4, 0, 32)

  /** The address lies in some block of the list. */
  ghost predicate Covers(nets: seq<Net>, a: Addr) {
    exists n :: n in nets && n.Has(a)
  }

  ghost predicate SameCover(s: seq<Net>, t: seq<Net>) {
    forall a :: Covers(s, a) <==> Covers(t, a)
  }

  lemma CoversConcat(s: seq<Net>, t: seq<Net>)
    ensures forall a :: Covers(s + t, a) <==> Covers(s, a) || Covers(t, a)
  {
  }

  lemma CoversOne(n: Net)
    ensures forall a :: Covers([n], a) <==> n.Has(a)
  {
    assert n in [n];
  }

  lemma CoversSomething(s: seq<Net>)
    ensures s != [] ==> Covers(s, s[0].First())
  {
    if s != [] { assert s[0] in s && s[0].Has(s[0].First()); }
  }

  ghost predicate Disjoint(m: Net, n: Net) {
    forall a :: !(m.Has(a) && n.Has(a))
  }

  ghost predicate PairwiseDisjoint(nets: seq<Net>) {
    forall i, j :: 0 <= i < j < |nets| ==> Disjoint(nets[i], nets[j])
  }

  // ---- arithmetic of aligned intervals -------------------------------------

  lemma {:induction false} Pow2Monotone(j: nat, k: nat)
    requires j < k
    ensures Pow2(j) < Pow2(k)
  {
    if j + 1 < k { Pow2Monotone(j, k - 1); }
  }

  /** Aligned intervals that share a point are nested, the shorter in the longer. */
  lemma {:induction false} NestedIntervals(b: nat, p: nat, c: nat, q: nat, x: nat)
    requires p <= q && Aligned(b, p) && Aligned(c, q)
    requires b <= x < b + Pow2(p) && c <= x < c + Pow2(q)
    ensures c <= b && b + Pow2(p) <= c + Pow2(q)
  {
    if p > 0 { NestedIntervals(b / 2, p - 1, c / 2, q - 1, x / 2); }
  }

  /** Membership as the code computes it, by masking, is membership in the interval. */
  lemma HasIsMasking(n: Net, a: Addr)
    requires a.version == n.version
    ensures n.Has(a) <==> Masked(a.value, n.HostBits()) == n.base
  {
    if n.Has(a) {
      var m := Masked(a.value, n.HostBits());
      NestedIntervals(m, n.HostBits(), n.base, n.HostBits(), a.value);
    }
  }

  /** The law stated by the guard: two blocks that share an address are nested. */
  lemma DisjointOrNested(m: Net, n: Net, a: Addr)
    requires m.Has(a) && n.Has(a)
    ensures m.plen >= n.plen ==> m.SubnetOf(n)
    ensures m.plen <= n.plen ==> n.SubnetOf(m)
  {
    if m.plen >= n.plen { NestedIntervals(m.base, m.HostBits(), n.base, n.HostBits(), a.value); }
    if m.plen <= n.plen { NestedIntervals(n.base, n.HostBits(), m.base, m.HostBits(), a.value); }
  }

  lemma SubnetMeansSubset(m: Net, n: Net)
    ensures m.SubnetOf(n) <==> forall a :: m.Has(a) ==> n.Has(a)
  {
    assert m.Has(m.First()) && m.Has(Addr(m.version, m.Last()));
  }

  lemma SubnetPlen(m: Net, n: Net)
    requires m.SubnetOf(n)
    ensures m.plen >= n.plen
    ensures m.plen == n.plen ==> m == n
  {
    if m.plen < n.plen { Pow2Monotone(n.HostBits(), m.HostBits()); }
  }

  /** Blocks of one length that share an address are the same block. */
  lemma SameBlock(m: Net, n: Net, a: Addr)
    requires m.Has(a) && n.Has(a) && m.plen == n.plen
    ensures m == n
  {
    DisjointOrNested(m, n, a);
    SubnetPlen(m, n);
  }

  /** IPv4 addresses have 32 bits and IPv6 addresses 128. */
  lemma AddressSpaces()
    ensures Pow2(V4.Width()) == 0x1_0000_0000
    ensures Pow2(V6.Width()) == Pow2(32) * Pow2(32) * Pow2(32) * Pow2(32)
  {
    Pow2Adds(16, 16);
    Pow2Of16();
    Pow2Adds(32, 32);
    Pow2Adds(64, 64);
    assert Pow2(64) * Pow2(64) == Pow2(32) * Pow2(32) * Pow2(32) * Pow2(32);
  }

  lemma Pow2Of16()
    ensures Pow2(16) == 0x1_0000
  {
    assert Pow2(4) == 16;
    Pow2Adds(4, 4);
    Pow2Adds(8, 8);
  }

  lemma {:induction false} Pow2Adds(j: nat, k: nat)
    ensures Pow2(j + k) == Pow2(j) * Pow2(k)
  {
    if j > 0 {
      Pow2Adds(j - 1, k);
      assert Pow2(j) * Pow2(k) == 2 * (Pow2(j - 1) * Pow2(k));
    }
  }

  // ---- supernet and halves --------------------------------------------------

  lemma {:induction false} AlignedWeaken(x: nat, k: nat)
    requires k > 0 && Aligned(x, k)
    ensures Aligned(x, k - 1) && Aligned(x + Pow2(k - 1), k - 1)
  {
    if k > 1 {
      AlignedWeaken(x / 2, k - 1);
      assert (x + Pow2(k - 1)) / 2 == x / 2 + Pow2(k - 2);
    }
  }

  /** `subnets()`: the two halves, lower first. */
  function Lower(n: Net): (h: Net)
    requires n.plen < n.version.Width()
    ensures h.plen == n.plen + 1 && h.SubnetOf(n) && h.First() == n.First()
  {
    AlignedWeaken(n.base, n.HostBits());
    Net(n.version, n.base, n.plen + 1)
  }

  function Upper(n: Net): (h: Net)
    requires n.plen < n.version.Width()
    ensures h.plen == n.plen + 1 && h.SubnetOf(n) && h.Last() == n.Last()
  {
    AlignedWeaken(n.base, n.HostBits());
    Net(n.version, n.base + Pow2(n.HostBits() - 1), n.plen + 1)
  }

  /** `supernet()`; a /0 is its own supernet. */
  function Supernet(n: Net): (s: Net)
    ensures n.SubnetOf(s)
    ensures s.plen == if n.plen == 0 then 0 else n.plen - 1
  {
    if n.plen == 0 then n
    else
      var k := n.HostBits() + 1;
      SupernetFits(n);
      Net(n.version, Masked(n.base, k), n.plen - 1)
  }

  lemma {:induction false} FullSpaceAligned(x: nat, k: nat, w: nat)
    requires k <= w && Aligned(x, k) && x < Pow2(w)
    ensures x + Pow2(k) <= Pow2(w)
  {
    if k > 0 { FullSpaceAligned(x / 2, k - 1, w - 1); }
  }

  lemma SupernetFits(n: Net)
    requires n.plen > 0
    ensures var k := n.HostBits() + 1; var m := Masked(n.base, k);
            m + Pow2(k) <= Pow2(n.version.Width()) && n.base + n.Size() <= m + Pow2(k)
  {
    var k := n.HostBits() + 1;
    var m := Masked(n.base, k);
    FullSpaceAligned(m, k, n.version.Width());
    NestedIntervals(n.base, n.HostBits(), m, k, n.base);
  }

  /** The upper half starts right after the lower one. */
  lemma HalvesMeet(s: Net)
    requires s.plen < s.version.Width()
    ensures Lower(s).Last() + 1 == Upper(s).base
  {
    assert s.Size() == 2 * Lower(s).Size();
  }

  lemma HalvesCover(s: Net, a: Addr)
    requires s.plen < s.version.Width() && s.Has(a)
    ensures Lower(s).Has(a) || Upper(s).Has(a)
  {
    HalvesMeet(s);
  }

  /** A block one bit longer than `s` and inside it is one of the halves of `s`. */
  lemma HalfOf(n: Net, s: Net)
    requires n.plen == s.plen + 1 && n.SubnetOf(s)
    ensures n == Lower(s) || n == Upper(s)
  {
    var a := n.First();
    assert n.Has(a) && s.Has(a);
    HalvesCover(s, a);
    if Lower(s).Has(a) {
      SameBlock(n, Lower(s), a);
    } else {
      SameBlock(n, Upper(s), a);
    }
  }

  /** Two different blocks with one supernet make up that supernet exactly. */
  lemma MergeSiblings(m: Net, n: Net)
    requires m != n && Supernet(m) == Supernet(n)
    ensures forall a :: Supernet(n).Has(a) <==> m.Has(a) || n.Has(a)
  {
    if m.plen > 0 && n.plen > 0 {
      HalfOf(m, Supernet(n));
      HalfOf(n, Supernet(n));
    }
  }

  /** Blocks other than /0 with the same supernet. */
  ghost predicate Siblings(m: Net, n: Net) {
    m != n && m.plen > 0 && n.plen > 0 && Supernet(m) == Supernet(n)
  }

  lemma HalvesAreSiblings(s: Net)
    requires s.plen < s.version.Width()
    ensures Siblings(Lower(s), Upper(s))
    ensures forall a :: s.Has(a) <==> Lower(s).Has(a) || Upper(s).Has(a)
    ensures Disjoint(Lower(s), Upper(s))
  {
    var lo, hi := Lower(s), Upper(s);
    HalvesMeet(s);
    SameBlock(Supernet(lo), s, lo.First());
    SameBlock(Supernet(hi), s, hi.First());
  }
}
