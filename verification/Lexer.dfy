/** The search lexer: an index-based scanner, and the same scanner as a function of the
    text that is left. */
module Lexer {
  import opened Wrappers

  /** `str.isspace` for one character. */
  predicate IsSpace(c: char) {
    var n := c as int;
    || 0x09 <= n <= 0x0d || 0x1c <= n <= 0x20 || n == 0x85 || n == 0xa0 || n == 0x1680
    || 0x2000 <= n <= 0x200a || n == 0x2028 || n == 0x2029 || n == 0x202f || n == 0x205f || n == 0x3000
  }

  predicate IsQuote(c: char) { c == '"' || c == '\'' }

  /** Where a possible field name stops. */
  predicate EndsWord(c: char) { c == ':' || c == ' ' || c == '\t' }

  datatype Op = Is | Ge | Le | Gt | Lt

  /** `field` is None for a free-text term. */
  datatype RawToken = RawToken(negate: bool, field: Option<string>, op: Op, value: string, quoted: bool)

  function LowerChar(c: char): char {
    if 'A' <= c <= 'Z' then (c as int + 32) as char else c
  }

  function LowerText(s: string): string {
    if s == [] then [] else [LowerChar(s[0])] + LowerText(s[1..])
  }

  /** Each capital letter becomes its small one. */
  lemma {:induction false} LowerTextIs(s: string)
    ensures |LowerText(s)| == |s|
    ensures forall i :: 0 <= i < |s| ==>
              if 'A' <= s[i] <= 'Z' then LowerText(s)[i] as int == s[i] as int + 32 else LowerText(s)[i] == s[i]
  {
    if s != "" { LowerTextIs(s[1..]); }
  }

  // ---- the scanner on the remaining text --------------------------------------------------

  /** What stops each of the three inner scans. */
  datatype Stop = AtQuote(quote: char) | AtWordEnd | AtSpace {
    predicate Stops(c: char) {
      match this
      case AtQuote(quote) => c == quote
      case AtWordEnd => EndsWord(c)
      case AtSpace => IsSpace(c)
    }
  }

  /** The position of the first character that stops the scan, or the end. */
  function Scan(s: string, stop: Stop): (k: nat)
    ensures k <= |s|
  {
    if s == [] || stop.Stops(s[0]) then 0 else 1 + Scan(s[1..], stop)
  }

  lemma {:induction false} ScanStops(s: string, stop: Stop)
    ensures var k := Scan(s, stop);
            (forall i :: 0 <= i < k ==> !stop.Stops(s[i])) && (k < |s| ==> stop.Stops(s[k]))
  {
    if s != [] && !stop.Stops(s[0]) { ScanStops(s[1..], stop); }
  }

  /** A quoted value, and how much text it took: an unclosed quote runs to the end. */
  function Quoted(s: string): (r: (string, nat))
    requires s != []
    ensures 0 < r.1 <= |s|
  {
    var quote := s[0];
    var k := Scan(s[1..], AtQuote(quote));
    (s[1..][..k], if k + 1 < |s| then k + 2 else k + 1)
  }

  function OpLength(op: Op): nat {
    match op
    case Is => 0
    case Ge => 2
    case Le => 2
    case _ => 1
  }

  /** The longest operator at the front. */
  function LeadingOp(s: string): (op: Op)
    ensures OpLength(op) <= |s|
  {
    if |s| >= 2 && s[0] == '>' && s[1] == '=' then Ge
    else if |s| >= 2 && s[0] == '<' && s[1] == '=' then Le
    else if |s| >= 1 && s[0] == '>' then Gt
    else if |s| >= 1 && s[0] == '<' then Lt
    else Is
  }

  /** The value after `field:op`, whether it was quoted, and how much text it took. */
  function FieldValue(s: string): (r: (string, bool, nat))
    ensures r.2 <= |s|
  {
    if s != [] && IsQuote(s[0]) then
      var (v, n) := Quoted(s);
      (v, true, n)
    else
      var n := Scan(s, AtSpace);
      (s[..n], false, n)
  }

  /** Operator and value of a field term. */
  function AfterColon(negate: bool, field: string, s: string): (r: (RawToken, nat))
    ensures r.1 <= |s|
  {
    var op := LeadingOp(s);
    var value := FieldValue(s[OpLength(op)..]);
    (RawToken(negate, Some(LowerText(field)), op, value.0, value.1), OpLength(op) + value.2)
  }

  /** One term after its optional minus sign. */
  function Term(negate: bool, s: string): (r: (RawToken, nat))
    requires s != []
    ensures r.1 <= |s| && (r.1 == 0 ==> s[0] == ' ' || s[0] == '\t')
  {
    if IsQuote(s[0]) then
      var (v, n) := Quoted(s);
      (RawToken(negate, None, Is, v, true), n)
    else
      ScanStops(s, AtWordEnd);
      var j := Scan(s, AtWordEnd);
      if j < |s| && s[j] == ':' then
        var r := AfterColon(negate, s[..j], s[j + 1..]);
        (r.0, j + 1 + r.1)
      else
        (RawToken(negate, None, Is, s[..j], false), j)
  }

  /** One turn of the outer loop: it always advances. */
  function LexOne(s: string): (r: (seq<RawToken>, nat))
    requires s != []
    ensures 0 < r.1 <= |s|
  {
    if IsSpace(s[0]) then ([], 1)
    else if s[0] == '-' then
      if |s| == 1 then ([], 1)
      else
        var (t, n) := Term(true, s[1..]);
        ([t], n + 1)
    else
      var (t, n) := Term(false, s);
      ([t], n)
  }

  function Lex(s: string): seq<RawToken> {
    if s == [] then []
    else
      var (ts, n) := LexOne(s);
      ts + Lex(s[n..])
  }

  // ---- the index-based scanner ---------------------------------------------------------------

  method ScanFrom(q: string, start: nat, stop: Stop) returns (i: nat)
    requires start <= |q|
    ensures start <= i <= |q| && i - start == Scan(q[start..], stop)
  {
    i := start;
    while i < |q| && !stop.Stops(q[i])
      invariant start <= i <= |q| && Scan(q[start..], stop) == i - start + Scan(q[i..], stop)
    {
      assert q[i..][1..] == q[i + 1..];
      i := i + 1;
    }
  }

  method ReadQuoted(q: string, start: nat) returns (val: string, i: nat)
    requires start < |q|
    ensures start < i <= |q| && (val, i - start) == Quoted(q[start..])
  {
    var quote := q[start];
    i := start + 1;
    var first := i;
    assert q[start..][1..] == q[first..];
    i := ScanFrom(q, first, AtQuote(quote));
    val := q[first..i];
    Part(q, first, i);
    if i < |q| { i := i + 1; }
  }

  method ReadAfterColon(q: string, start: nat, negate: bool, field: string) returns (token: RawToken, i: nat)
    requires start <= |q|
    ensures start <= i <= |q| && (token, i - start) == AfterColon(negate, field, q[start..])
  {
    var op := LeadingOp(q[start..]);
    i := start + OpLength(op);
    assert q[start..][OpLength(op)..] == q[i..];
    var quoted := i < |q| && IsQuote(q[i]);
    var val;
    if quoted {
      val, i := ReadQuoted(q, i);
    } else {
      var from := i;
      i := ScanFrom(q, i, AtSpace);
      val := q[from..i];
      Part(q, from, i);
    }
    token := RawToken(negate, Some(LowerText(field)), op, val, quoted);
  }

  lemma Part(q: string, from: nat, to: nat)
    requires from <= to <= |q|
    ensures q[from..to] == q[from..][..to - from]
  {
  }

  lemma Slices(q: string, start: nat, j: nat)
    requires start <= j < |q|
    ensures q[start..j] == q[start..][..j - start]
    ensures q[start..][j - start + 1..] == q[j + 1..]
  {
  }

  method ReadTerm(q: string, start: nat, negate: bool) returns (token: RawToken, i: nat)
    requires start < |q|
    ensures start <= i <= |q| && (token, i - start) == Term(negate, q[start..])
  {
    if IsQuote(q[start]) {
      var val;
      val, i := ReadQuoted(q, start);
      token := RawToken(negate, None, Is, val, true);
    } else {
      token, i := ReadWord(q, start, negate);
    }
  }

  method ReadWord(q: string, start: nat, negate: bool) returns (token: RawToken, i: nat)
    requires start < |q| && !IsQuote(q[start])
    ensures start <= i <= |q| && (token, i - start) == Term(negate, q[start..])
  {
    var j := ScanFrom(q, start, AtWordEnd);
    if j < |q| && q[j] == ':' {
      token, i := ReadField(q, start, j, negate);
    } else {
      token, i := ReadText(q, start, j, negate);
    }
  }

  method ReadField(q: string, start: nat, j: nat, negate: bool) returns (token: RawToken, i: nat)
    requires start <= j < |q| && !IsQuote(q[start]) && j - start == Scan(q[start..], AtWordEnd) && q[j] == ':'
    ensures start <= i <= |q| && (token, i - start) == Term(negate, q[start..])
  {
    token, i := ReadAfterColon(q, j + 1, negate, q[start..j]);
    FieldByIndex(q, start, j, negate, token, i - (j + 1));
  }

  method ReadText(q: string, start: nat, j: nat, negate: bool) returns (token: RawToken, i: nat)
    requires start < |q| && start <= j <= |q| && !IsQuote(q[start]) && j - start == Scan(q[start..], AtWordEnd)
    requires !(j < |q| && q[j] == ':')
    ensures start <= i <= |q| && (token, i - start) == Term(negate, q[start..])
  {
    Part(q, start, j);
    TermOfText(negate, q[start..], j - start);
    token, i := RawToken(negate, None, Is, q[start..j], false), j;
  }

  lemma TermIs(negate: bool, s: string, j: nat, tok: RawToken, n: nat)
    requires s != [] && !IsQuote(s[0]) && j == Scan(s, AtWordEnd) && j < |s| && s[j] == ':'
    requires AfterColon(negate, s[..j], s[j + 1..]) == (tok, n)
    ensures Term(negate, s) == (tok, j + 1 + n)
  {
  }

  lemma FieldByIndex(q: string, start: nat, j: nat, negate: bool, tok: RawToken, n: nat)
    requires start <= j < |q| && !IsQuote(q[start]) && j - start == Scan(q[start..], AtWordEnd) && q[j] == ':'
    requires AfterColon(negate, q[start..j], q[j + 1..]) == (tok, n)
    ensures Term(negate, q[start..]) == (tok, j - start + 1 + n)
  {
    Slices(q, start, j);
    TermIs(negate, q[start..], j - start, tok, n);
  }

  lemma TermOfField(negate: bool, s: string, j: nat)
    requires s != [] && !IsQuote(s[0]) && j == Scan(s, AtWordEnd) && j < |s| && s[j] == ':'
    ensures Term(negate, s).0 == AfterColon(negate, s[..j], s[j + 1..]).0
    ensures Term(negate, s).1 == j + 1 + AfterColon(negate, s[..j], s[j + 1..]).1
  {
  }

  lemma TermOfText(negate: bool, s: string, j: nat)
    requires s != [] && !IsQuote(s[0]) && j == Scan(s, AtWordEnd) && !(j < |s| && s[j] == ':')
    ensures Term(negate, s) == (RawToken(negate, None, Is, s[..j], false), j)
  {
  }

  /** The body of the outer loop. */
  method ReadOne(q: string, start: nat) returns (found: seq<RawToken>, i: nat)
    requires start < |q|
    ensures start < i <= |q| && (found, i - start) == LexOne(q[start..])
  {
    found := [];
    if IsSpace(q[start]) { return found, start + 1; }
    var negate := q[start] == '-';
    i := if negate then start + 1 else start;
    if i < |q| {
      assert negate ==> q[start..][1..] == q[i..];
      var token;
      token, i := ReadTerm(q, i, negate);
      found := [token];
    }
  }

  method Tokenize(query: string) returns (tokens: seq<RawToken>)
    ensures tokens == Lex(query)
  {
    tokens := [];
    var i := 0;
    assert query[0..] == query;
    while i < |query|
      invariant i <= |query| && tokens + Lex(query[i..]) == Lex(query)
      decreases |query| - i
    {
      var found, next := ReadOne(query, i);
      LexAdvances(query, i, next, tokens, found);
      tokens := tokens + found;
      i := next;
    }
  }

  lemma LexUnfolds(s: string, found: seq<RawToken>, n: nat)
    requires s != [] && (found, n) == LexOne(s)
    ensures Lex(s) == found + Lex(s[n..])
  {
  }

  lemma Regroup<T>(a: seq<T>, b: seq<T>, c: seq<T>)
    ensures a + (b + c) == (a + b) + c
  {
  }

  lemma Suffix(q: string, i: nat, next: nat)
    requires i <= next <= |q|
    ensures q[i..][next - i..] == q[next..]
  {
  }

  lemma LexAdvances(q: string, i: nat, next: nat, tokens: seq<RawToken>, found: seq<RawToken>)
    requires i < next <= |q| && (found, next - i) == LexOne(q[i..])
    ensures tokens + Lex(q[i..]) == tokens + found + Lex(q[next..])
  {
    Suffix(q, i, next);
    LexUnfolds(q[i..], found, next - i);
  }
}
