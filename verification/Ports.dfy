/** Port specifications. */
module Ports {
  import opened Wrappers
  import opened Lexer
  import opened PyText

  datatype Failure = ValueError

  datatype Port = Port(number: int)

  /** The ports `lo..hi`, bounds in either order. */
  function Span(lo: int, hi: int): (r: set<Port>)
    ensures forall p :: p in r <==> lo <= p.number <= hi || hi <= p.number <= lo
    decreases lo > hi
  {
    if lo > hi then Span(hi, lo) else UpFrom(lo, hi + 1 - lo)
  }

  /** `range(lo, lo + n)` as a set. */
  function UpFrom(lo: int, n: nat): (r: set<Port>)
    ensures forall p :: p in r <==> lo <= p.number < lo + n
  {
    if n == 0 then {} else UpFrom(lo, n - 1) + {Port(lo + n - 1)}
  }

  /** What one comma-separated chunk denotes; a blank chunk denotes nothing. */
  function ChunkPorts(chunk: string): Result<set<Port>, Failure> {
    var c := Strip(chunk);
    if c == "" then Ok({})
    else if '-' in c then
      var k := Find(c, '-');
      match (ParseInt(c[..k]), ParseInt(c[k + 1..]))
      case (Some(lo), Some(hi)) => Ok(Span(lo, hi))
      case _ => Err(ValueError)
    else
      match ParseInt(c)
      case Some(p) => Ok({Port(p)})
      case None => Err(ValueError)
  }

  /** All chunks together. */
  function SpecPorts(chunks: seq<string>): Result<set<Port>, Failure> {
    if chunks == [] then Ok({})
    else
      match (SpecPorts(chunks[..|chunks| - 1]), ChunkPorts(chunks[|chunks| - 1]))
      case (Ok(s), Ok(t)) => Ok(s + t)
      case _ => Err(ValueError)
  }

  predicate InRange(ports: set<Port>) { forall p :: p in ports ==> 0 <= p.number <= 65535 }

  ghost predicate Ascending(s: seq<Port>) {
    forall i, j :: 0 <= i < j < |s| ==> s[i].number < s[j].number
  }

  /** `sorted(ports)` of a set: the ascending list is determined by the set. */
  method SortedPorts(ports: set<Port>) returns (s: seq<Port>)
    ensures Ascending(s) && forall p :: p in s <==> p in ports
  {
    s := [];
    var rest := ports;
    while rest != {}
      invariant rest <= ports && Ascending(s)
      invariant forall p :: p in s <==> p in ports && p !in rest
      invariant forall p, q :: p in s && q in rest ==> p.number < q.number
      decreases |rest|
    {
      var p := Least(rest);
      s := s + [p];
      rest := rest - {p};
    }
  }

  method Least(s: set<Port>) returns (p: Port)
    requires s != {}
    ensures p in s && forall q :: q in s ==> p.number <= q.number
  {
    p :| p in s;
    var rest := s - {p};
    while rest != {}
      invariant p in s && rest <= s && forall q :: q in s && q !in rest ==> p.number <= q.number
      decreases |rest|
    {
      var q :| q in rest;
      rest := rest - {q};
      if q.number < p.number { p := q; }
    }
  }

  lemma {:induction false} AscendingUnique(s: seq<Port>, t: seq<Port>)
    requires Ascending(s) && Ascending(t) && forall p :: p in s <==> p in t
    ensures s == t
  {
    assert s != [] ==> s[0] in s && s[0] in t;
    assert t != [] ==> t[0] in t && t[0] in s;
    if s != [] {
      assert s[0] == t[0];
      forall p ensures p in s[1..] <==> p in t[1..] {
        if p in s[1..] { assert p in s && p != s[0]; }
        if p in t[1..] { assert p in t && p != t[0]; }
      }
      AscendingUnique(s[1..], t[1..]);
    }
  }

  method ParsePortSpec(spec: string) returns (r: Result<seq<Port>, Failure>)
    ensures r.Ok? <==> SpecPorts(Split(spec, ',')).Ok?
                       && forall p :: p in SpecPorts(Split(spec, ',')).value ==> 0 <= p.number <= 65535
    ensures r.Ok? ==> Ascending(r.value) && forall p :: p in r.value <==> p in SpecPorts(Split(spec, ',')).value
  {
    var chunks := Split(spec, ',');
    var ports: set<Port> := {};
    for i := 0 to |chunks|
      invariant SpecPorts(chunks[..i]) == Ok(ports)
    {
      assert chunks[..i + 1][..i] == chunks[..i];
      var chunk := ChunkPorts(chunks[i]);
      if chunk.Err? {
        BadChunk(chunks, i);
        return Err(ValueError);
      }
      ports := ports + chunk.value;
    }
    assert chunks[..|chunks|] == chunks;
    if !InRange(ports) { return Err(ValueError); }
    var sorted := SortedPorts(ports);
    r := Ok(sorted);
  }

  lemma {:induction false} BadChunk(chunks: seq<string>, i: nat)
    requires i < |chunks| && ChunkPorts(chunks[i]).Err?
    ensures SpecPorts(chunks).Err?
  {
    if i < |chunks| - 1 { BadChunk(chunks[..|chunks| - 1], i); }
  }

  /** A specification denotes the union of its chunks, so neither their order nor repetition
      matters, and it is malformed exactly when some chunk is. */
  lemma {:induction false} SpecIsUnion(chunks: seq<string>)
    ensures SpecPorts(chunks).Ok? <==> forall c :: c in chunks ==> ChunkPorts(c).Ok?
    ensures SpecPorts(chunks).Ok? ==>
              forall p :: p in SpecPorts(chunks).value <==> exists c :: c in chunks && p in ChunkPorts(c).value
  {
    if chunks != [] {
      var front, last := chunks[..|chunks| - 1], chunks[|chunks| - 1];
      assert forall c :: c in chunks <==> c in front || c == last;
      SpecIsUnion(front);
    }
  }

  /** Separators alone are a valid specification, of no ports at all. */
  lemma CommaMeansNoPorts()
    ensures SpecPorts(Split(",", ',')) == Ok({})
  {
    assert Split(",", ',') == ["", ""];
    assert Strip("") == "";
    assert ChunkPorts("") == Ok({});
    assert [""][..0] == [];
    assert SpecPorts([""]) == Ok({} + {});
    assert ["", ""][..1] == [""];
  }

  lemma SameNumbers(a: string, b: string)
    ensures ParseInt(StripLeft(a)) == ParseInt(a) && ParseInt(StripRight(b)) == ParseInt(b)
  {
    StripOneSide(a);
    SameStripped(StripLeft(a), a);
    StripOneSide(b);
    SameStripped(StripRight(b), b);
  }

  lemma CutChunk(chunk: string, left: string, right: string)
    requires Strip(chunk) == left + ("-" + right) && '-' !in left
    ensures ChunkPorts(chunk) ==
            match (ParseInt(left), ParseInt(right))
            case (Some(lo), Some(hi)) => Ok(Span(lo, hi))
            case _ => Err(ValueError)
  {
    var c := left + ("-" + right);
    FindAt(left, '-', right);
    assert c[|left|] == '-' && c[..|left|] == left && c[|left| + 1..] == right;
  }

  /** A chunk without a minus sign denotes the one port it names, or nothing if it is blank. */
  lemma SingleChunk(chunk: string)
    requires '-' !in chunk
    ensures ChunkPorts(chunk) ==
            if forall i :: 0 <= i < |chunk| ==> IsSpace(chunk[i]) then Ok({})
            else match ParseInt(chunk) case Some(n) => Ok({Port(n)}) case None => Err(ValueError)
  {
    var k, h := StripWindow(chunk);
    assert forall i :: k <= i < h ==> chunk[i] in chunk;
    StripTwice(chunk);
    SameStripped(Strip(chunk), chunk);
  }

  /** A range splits at its first minus sign; blanks around the bounds do not matter. */
  lemma RangeChunk(a: string, b: string)
    requires '-' !in a
    ensures ChunkPorts(a + ("-" + b)) ==
            match (ParseInt(a), ParseInt(b))
            case (Some(lo), Some(hi)) => Ok(Span(lo, hi))
            case _ => Err(ValueError)
  {
    var k := LeftEdge(a);
    LeftAt(a, k);
    StripAround(a, b);
    SameNumbers(a, b);
    CutChunk(a + ("-" + b), StripLeft(a), StripRight(b));
  }

  /** Bounds without a minus sign may come in either order, well-formed or not. */
  lemma RangeBoundsCommute(a: string, b: string)
    requires '-' !in a && '-' !in b
    ensures ChunkPorts(a + ("-" + b)) == ChunkPorts(b + ("-" + a))
  {
    RangeChunk(a, b);
    RangeChunk(b, a);
    if ParseInt(a).Some? && ParseInt(b).Some? { SpanCommutes(ParseInt(a).value, ParseInt(b).value); }
  }

  lemma SpanCommutes(lo: int, hi: int)
    ensures Span(lo, hi) == Span(hi, lo)
  {
  }

  lemma NegativeFirst(a: string, b: string)
    requires ParseInt(a).Some? && '-' in a
    ensures ChunkPorts(a + ("-" + b)) == Err(ValueError)
  {
    var k, d := NumberShape(a);
    var i :| 0 <= i < |a| && a[i] == '-';
    LeftAt(a, k);
    StripAround(a, b);
    var left := StripLeft(a);
    assert left[0] == a[k] == '-';
    assert left + ("-" + StripRight(b)) == "" + ("-" + (left[1..] + ("-" + StripRight(b))));
    CutChunk(a + ("-" + b), "", left[1..] + ("-" + StripRight(b)));
    BlankIsNoNumber("");
  }

  /** Any two numbers may be exchanged as bounds exactly if both or neither are written with a
      minus sign: the chunk is cut at its first one. */
  lemma RangeBoundsCommuteIff(a: string, b: string)
    requires ParseInt(a).Some? && ParseInt(b).Some?
    ensures ChunkPorts(a + ("-" + b)) == ChunkPorts(b + ("-" + a)) <==> ('-' in a <==> '-' in b)
  {
    if '-' in a { NegativeFirst(a, b); } else { RangeChunk(a, b); }
    if '-' in b { NegativeFirst(b, a); } else { RangeChunk(b, a); }
    if '-' !in a && '-' !in b { RangeBoundsCommute(a, b); }
  }
}
