/** Running a compiled query: what the driver and the database refuse, and what is selected. */
module Execution {
  import opened Wrappers
  import opened Cidr
  import opened Lexer
  import opened PyText
  import opened SearchQuery
  import opened Ilike
  import opened Compiler
  import Guard

  // ---- bound values ------------------------------------------------------------------------

  /** The range of an `Integer` column, to which the driver holds the values bound to it. */
  predicate Int4(n: int) { -0x8000_0000 <= n < 0x8000_0000 }

  /** PostgreSQL text cannot hold the character NUL. */
  predicate HasNul(s: string) { '\0' in s }

  /** Address bits beyond the prefix, which a CIDR value may not have. */
  predicate HostBits(text: NetText) { text.addr.value != Guard.ParseTarget(text).value.base }

  /** The values bound to the condition can be sent. */
  predicate Accepts(cond: Cond) {
    match cond
    case IntCmp(_, _, n) => Int4(n)
    case Between(_, lo, hi) => Int4(lo) && Int4(hi)
    case ILike(_, pattern) => !HasNul(pattern)
    case CountryIs(c) => !HasNul(c)
    case HasTag(tag) => !HasNul(tag)
    case Matches(q) => !HasNul(q)
    case IpWithin(text) => !HostBits(text)
    case Not(c) => Accepts(c)
    case _ => true
  }

  predicate AllAccepted(conds: seq<Cond>) { forall c :: c in conds ==> Accepts(c) }

  /** What running the statement says about a row; None if the statement is refused. */
  function Answer(env: Env, stmt: Statement, row: Row): Option<bool> {
    if AllAccepted(stmt.conditions) then Some(Selects(env, stmt, row)) else None
  }

  // ---- the same, read off the query -----------------------------------------------------------

  /** The text is a number outside the four-byte range. */
  predicate WideNumber(text: string) {
    match ParseInt(text)
    case None => false
    case Some(n) => n < -2147483648 || n > 2147483647
  }

  /** A number or a bound of the filter's text does not fit an `Integer` column. */
  predicate TooWide(op: Op, v: string) {
    if IsRange(op, v) then WideNumber(v[..Find(v, '-')]) || WideNumber(v[Find(v, '-') + 1..]) else WideNumber(v)
  }

  /** A filter that the compiler builds and the database refuses. */
  predicate Refused(env: Env, f: Filter) {
    if f.field == "port" || f.field == "asn" then TooWide(f.op, f.value)
    else if TextField(f.field) || f.field == "country" || f.field == "tag" then '\0' in f.value
    else
      && (f.field == "net" || f.field == "cidr")
      && var net := Guard.ParseTarget(env.netOf(f.value)); net.Ok? && net.value.base != env.netOf(f.value).addr.value
  }

  predicate NoneRefused(env: Env, fs: seq<Filter>) { forall f :: f in fs ==> !Refused(env, f) }

  predicate NoNul(terms: seq<TextTerm>) { forall t :: t in terms ==> '\0' !in t.value }

  predicate RefusedQuery(env: Env, q: Query) { !NoneRefused(env, q.filters) || !NoNul(q.terms) }

  lemma {:induction false} UpperNul(s: string)
    ensures HasNul(Compiler.Upper(s)) <==> HasNul(s)
  {
    if s != "" {
      UpperNul(s[1..]);
      assert s == [s[0]] + s[1..];
    }
  }

  lemma {:induction false} JoinNul(parts: seq<string>)
    ensures HasNul(Join(parts, " ")) <==> exists p :: p in parts && HasNul(p)
  {
    if |parts| == 1 {
      assert parts[0] in parts;
    } else if |parts| > 1 {
      JoinNul(parts[1..]);
      assert forall p :: p in parts <==> p == parts[0] || p in parts[1..];
      SpacedNul(parts[0], Join(parts[1..], " "));
    }
  }

  lemma SpacedNul(s: string, t: string)
    ensures HasNul(s + " " + t) <==> HasNul(s) || HasNul(t)
  {
    assert forall c :: c in s + " " + t <==> c in s || c == ' ' || c in t;
  }

  lemma NumberAccepted(col: IntCol, op: Op, v: string)
    requires Numeric(col, op, v).Ok?
    ensures Accepts(Numeric(col, op, v).value) <==> !TooWide(op, v)
  {
  }

  lemma TextAccepted(env: Env, field: string, op: Op, v: string)
    requires TextField(field)
    ensures TextColumn(field).Some?
    ensures BuildField(env, field, op, v) == Ok(ILike(TextColumn(field).value, Around(v)))
    ensures HasNul(Around(v)) <==> HasNul(v)
  {
  }

  lemma FieldAccepted(env: Env, f: Filter)
    requires BuildField(env, f.field, f.op, f.value).Ok?
    ensures Accepts(BuildField(env, f.field, f.op, f.value).value) <==> !Refused(env, f)
  {
    if f.field == "port" {
      NumberAccepted(Port, f.op, f.value);
    } else if f.field == "asn" {
      NumberAccepted(Asn, f.op, f.value);
    } else if TextField(f.field) {
      TextAccepted(env, f.field, f.op, f.value);
    } else {
      UpperNul(f.value);
    }
  }

  lemma AcceptsSnoc(conds: seq<Cond>, c: Cond)
    ensures AllAccepted(conds + [c]) <==> AllAccepted(conds) && Accepts(c)
  {
    assert forall x :: x in conds + [c] <==> x in conds || x == c;
  }

  lemma RefusedSnoc(env: Env, fs: seq<Filter>, f: Filter)
    ensures NoneRefused(env, fs + [f]) <==> NoneRefused(env, fs) && !Refused(env, f)
  {
    assert forall x :: x in fs + [f] <==> x in fs || x == f;
  }

  lemma OneMoreFilter(env: Env, fs: seq<Filter>, f: Filter, conds: seq<Cond>, c: Cond)
    requires AllAccepted(conds) <==> NoneRefused(env, fs)
    requires Accepts(c) <==> !Refused(env, f)
    ensures AllAccepted(conds + [c]) <==> NoneRefused(env, fs + [f])
  {
    AcceptsSnoc(conds, c);
    RefusedSnoc(env, fs, f);
  }

  lemma FilterAccepted(env: Env, f: Filter)
    requires BuildFilter(env, f).Ok?
    ensures Accepts(BuildFilter(env, f).value) <==> !Refused(env, f)
  {
    FieldAccepted(env, f);
  }

  lemma BuiltSnoc(env: Env, fs: seq<Filter>)
    requires fs != [] && BuildAll(env, fs).Ok?
    ensures BuildAll(env, fs[..|fs| - 1]).Ok? && BuildFilter(env, fs[|fs| - 1]).Ok?
    ensures BuildAll(env, fs).value == BuildAll(env, fs[..|fs| - 1]).value + [BuildFilter(env, fs[|fs| - 1]).value]
  {
  }

  lemma {:induction false} FiltersAccepted(env: Env, fs: seq<Filter>)
    requires BuildAll(env, fs).Ok?
    ensures AllAccepted(BuildAll(env, fs).value) <==> NoneRefused(env, fs)
  {
    if fs != [] {
      var front, last := fs[..|fs| - 1], fs[|fs| - 1];
      assert front + [last] == fs;
      BuiltSnoc(env, fs);
      FiltersAccepted(env, front);
      FilterAccepted(env, last);
      OneMoreFilter(env, front, last, BuildAll(env, front).value, BuildFilter(env, last).value);
    }
  }

  lemma PositiveAccepted(values: seq<string>)
    ensures AllAccepted(PositiveConds(values)) <==> forall v :: v in values ==> !HasNul(v)
  {
    JoinNul(values);
    if values != [] { assert Matches(Join(values, " ")) in PositiveConds(values); }
  }

  lemma {:induction false} NegativeAccepted(values: seq<string>)
    ensures AllAccepted(NegativeConds(values)) <==> forall v :: v in values ==> !HasNul(v)
  {
    if values != [] {
      var front, last := values[..|values| - 1], values[|values| - 1];
      NegativeAccepted(front);
      var c := Not(Matches(last));
      assert Accepts(c) <==> !HasNul(last);
      assert forall v :: v in values <==> v in front || v == last;
      assert forall x :: x in NegativeConds(values) <==> x in NegativeConds(front) || x == c;
    }
  }

  lemma {:induction false} ValuesNul(terms: seq<TextTerm>)
    ensures NoNul(terms) <==>
            (forall v :: v in Values(terms, false) ==> !HasNul(v)) && (forall v :: v in Values(terms, true) ==> !HasNul(v))
  {
    if terms != [] {
      var front, last := terms[..|terms| - 1], terms[|terms| - 1];
      ValuesNul(front);
      assert forall t :: t in terms <==> t in front || t == last;
      assert NoNul(terms) <==> NoNul(front) && !HasNul(last.value);
      assert forall v :: v in Values(terms, last.negate) <==> v in Values(front, last.negate) || v == last.value;
      assert Values(terms, !last.negate) == Values(front, !last.negate);
    }
  }

  /** All bound values can be sent exactly if no filter and no text term of the query is refused. */
  lemma {:induction false} StatementAccepted(env: Env, q: Query, engagement: nat)
    requires Compiled(env, q, engagement).Ok?
    ensures AllAccepted(Compiled(env, q, engagement).value.conditions) <==> !RefusedQuery(env, q)
  {
    var pos, neg := Values(q.terms, false), Values(q.terms, true);
    FiltersAccepted(env, q.filters);
    PositiveAccepted(pos);
    NegativeAccepted(neg);
    ValuesNul(q.terms);
    AcceptsParts(BuildAll(env, q.filters).value, PositiveConds(pos), NegativeConds(neg));
  }

  lemma AcceptsParts(a: seq<Cond>, b: seq<Cond>, c: seq<Cond>)
    ensures AllAccepted(a + b + c) <==> AllAccepted(a) && AllAccepted(b) && AllAccepted(c)
  {
    assert forall x :: x in a + b + c <==> x in a || x in b || x in c;
  }

  /** A compiled query is refused exactly if one of its values is; otherwise it selects exactly the
      rows of its engagement on which every clause is true; unknown is not true. */
  lemma {:induction false} SelectsExactly(env: Env, q: Query, engagement: nat, row: Row)
    requires Compiled(env, q, engagement).Ok?
    ensures Answer(env, Compiled(env, q, engagement).value, row) ==
            if RefusedQuery(env, q) then None
            else Some(&& row.engagement == engagement
                      && (forall f :: f in q.filters ==> Meaning(env, row, f) == True)
                      && TextHolds(env, row, q))
  {
    StatementSelects(env, q, engagement, row);
    StatementAccepted(env, q, engagement);
  }

  // ---- instances ---------------------------------------------------------------------------------

  /** A query of one filter. */
  function Only(field: string, v: string): Query { Query([Filter(field, Is, v, false)], []) }

  lemma OnlyRefused(env: Env, field: string, v: string, engagement: nat, row: Row)
    requires BuildField(env, field, Is, v).Ok? && Refused(env, Filter(field, Is, v, false))
    ensures Compiled(env, Only(field, v), engagement).Ok?
    ensures Answer(env, Compiled(env, Only(field, v), engagement).value, row) == None
  {
    var f := Filter(field, Is, v, false);
    var fs := [f];
    assert fs[..0] == [] && fs[0] == f && f in Only(field, v).filters;
    assert BuildAll(env, fs[..0]) == Ok([]);
    assert BuildAll(env, fs).Ok?;
    SelectsExactly(env, Only(field, v), engagement, row);
  }

  lemma DigitAppended(s: string, d: char, n: nat, t: string)
    requires ParseDigits(s) == Some(n) && IsDigit(d) && t == s + [d]
    ensures ParseDigits(t) == Some(10 * n + (d as int - '0' as int))
  {
    assert t[..|s|] == s;
    DigitsShape(s);
  }

  lemma DigitsAreNumber(s: string, n: nat)
    requires ParseDigits(s) == Some(n) && IsDigit(s[0])
    ensures ParseInt(s) == Some(n)
  {
    DigitsShape(s);
    LeftAt(s, 0);
    RightAt(s, |s|);
    assert s[0..] == s && s[..|s|] == s;
  }

  /** Some text parses to the query of one filter. */
  lemma OnlyRoundTrips(field: string, v: string)
    requires field in KnownFields && v != "" && '"' !in v
    ensures ParsedQuery(Print(Only(field, v))) == Ok(Only(field, v))
  {
    RoundTrip(Only(field, v));
  }

  lemma FortyTwoThousand()
    ensures ParseDigits("42000") == Some(42000)
  {
    assert ParseDigits("4") == Some(4) by { assert "4"[..0] == ""; }
    DigitAppended("4", '2', 4, "42");
    DigitAppended("42", '0', 42, "420");
    DigitAppended("420", '0', 420, "4200");
    DigitAppended("4200", '0', 4200, "42000");
  }

  lemma FortyTwoMillion()
    ensures ParseDigits("42000000") == Some(42000000)
  {
    FortyTwoThousand();
    DigitAppended("42000", '0', 42000, "420000");
    DigitAppended("420000", '0', 420000, "4200000");
    DigitAppended("4200000", '0', 4200000, "42000000");
  }

  lemma BigAsnParses()
    ensures ParseInt("4200000000") == Some(4200000000)
  {
    FortyTwoMillion();
    DigitAppended("42000000", '0', 42000000, "420000000");
    DigitAppended("420000000", '0', 420000000, "4200000000");
    DigitsAreNumber("4200000000", 4200000000);
  }

  lemma WideAsn(env: Env, v: string, n: int, engagement: nat, row: Row)
    requires ParseInt(v) == Some(n) && '-' !in v && !Int4(n)
    ensures Compiled(env, Only("asn", v), engagement).Ok?
    ensures Answer(env, Compiled(env, Only("asn", v), engagement).value, row) == None
  {
    OnlyRefused(env, "asn", v, engagement, row);
  }

  /** A four-byte ASN parses, compiles, and is refused by the driver. */
  lemma WideAsnIsRefused(env: Env, engagement: nat, row: Row)
    ensures ParsedQuery(Print(Only("asn", "4200000000"))) == Ok(Only("asn", "4200000000"))
    ensures Compiled(env, Only("asn", "4200000000"), engagement).Ok?
    ensures Answer(env, Compiled(env, Only("asn", "4200000000"), engagement).value, row) == None
  {
    OnlyRoundTrips("asn", "4200000000");
    BigAsnParses();
    WideAsn(env, "4200000000", 4200000000, engagement, row);
  }

  lemma OddHost(env: Env, v: string, a: Guard.Host, plen: nat, engagement: nat, row: Row)
    requires env.netOf(v) == Guard.NetworkText(a, plen) && plen < a.version.Width() && a.value % 2 == 1
    ensures Compiled(env, Only("net", v), engagement).Ok?
    ensures Answer(env, Compiled(env, Only("net", v), engagement).value, row) == None
  {
    var block := Guard.ParseTarget(env.netOf(v)).value;
    assert Aligned(block.base, block.HostBits());
    OnlyRefused(env, "net", v, engagement, row);
  }

  /** So does a network text with host bits. */
  lemma HostBitsAreRefused(env: Env, a: Guard.Host, engagement: nat, row: Row)
    requires a == Addr(V4, 0x0A00_0005) && env.netOf("10.0.0.5/24") == Guard.NetworkText(a, 24)
    ensures ParsedQuery(Print(Only("net", "10.0.0.5/24"))) == Ok(Only("net", "10.0.0.5/24"))
    ensures Compiled(env, Only("net", "10.0.0.5/24"), engagement).Ok?
    ensures Answer(env, Compiled(env, Only("net", "10.0.0.5/24"), engagement).value, row) == None
  {
    OnlyRoundTrips("net", "10.0.0.5/24");
    OddHost(env, "10.0.0.5/24", a, 24, engagement, row);
  }
}
