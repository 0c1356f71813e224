/** The search parser, and a printer that is its exact inverse. */
module SearchQuery {
  import opened Wrappers
  import opened Lexer

  datatype Error = SyntaxError

  const KnownFields: set<string> := {
    "port", "transport", "product", "version", "service", "cpe", "banner",
    "country", "asn", "org", "os", "hostname", "city", "ip", "net", "cidr",
    "tag", "has_tls", "has_cpe" }

  predicate TakesNoValue(field: string) { field == "has_tls" || field == "has_cpe" }

  datatype Filter = Filter(field: string, op: Op, value: string, negate: bool)

  datatype TextTerm = TextTerm(value: string, negate: bool)

  datatype Query = Query(filters: seq<Filter>, terms: seq<TextTerm>)

  const Empty := Query([], [])

  // ---- the parser -------------------------------------------------------------------------

  function AddToken(q: Query, tok: RawToken): Result<Query, Error> {
    if tok.field.None? then
      Ok(if tok.value == "" then q else q.(terms := q.terms + [TextTerm(tok.value, tok.negate)]))
    else if tok.field.value !in KnownFields then Err(SyntaxError)
    else if tok.value == "" && !TakesNoValue(tok.field.value) then Err(SyntaxError)
    else Ok(q.(filters := q.filters + [Filter(tok.field.value, tok.op, tok.value, tok.negate)]))
  }

  function AddTokens(q: Query, toks: seq<RawToken>): Result<Query, Error>
    decreases toks
  {
    if toks == [] then Ok(q)
    else
      match AddToken(q, toks[0])
      case Ok(more) => AddTokens(more, toks[1..])
      case Err(e) => Err(e)
  }

  function ParsedQuery(s: string): Result<Query, Error> { AddTokens(Empty, Lex(s)) }

  method Parse(s: string) returns (r: Result<Query, Error>)
    ensures r == ParsedQuery(s)
  {
    var tokens := Tokenize(s);
    var filters, terms: seq<TextTerm> := [], [];
    for i := 0 to |tokens|
      invariant AddTokens(Query(filters, terms), tokens[i..]) == ParsedQuery(s)
    {
      var tok := tokens[i];
      assert tokens[i..][1..] == tokens[i + 1..];
      if tok.field.None? {
        if tok.value != "" { terms := terms + [TextTerm(tok.value, tok.negate)]; }
        continue;
      }
      if tok.field.value !in KnownFields { return Err(SyntaxError); }
      if tok.value == "" && !TakesNoValue(tok.field.value) { return Err(SyntaxError); }
      filters := filters + [Filter(tok.field.value, tok.op, tok.value, tok.negate)];
    }
    r := Ok(Query(filters, terms));
  }

  // ---- the printer ------------------------------------------------------------------------

  function OpText(op: Op): string {
    match op
    case Is => ""
    case Ge => ">="
    case Le => "<="
    case Gt => ">"
    case Lt => "<"
  }

  /** No quote character can enclose such a value: it has to be printed bare. */
  predicate NeedsBare(v: string) { '"' in v && '\'' in v }

  function QuoteFor(v: string): char { if '"' in v then '\'' else '"' }

  function PrintValue(v: string): string {
    if NeedsBare(v) then v else [QuoteFor(v)] + v + [QuoteFor(v)]
  }

  function Minus(negate: bool): string { if negate then "-" else "" }

  function PrintFilter(f: Filter): string {
    Minus(f.negate) + FilterBody(f)
  }

  function PrintTerm(t: TextTerm): string { Minus(t.negate) + PrintValue(t.value) }

  function PrintTerms(terms: seq<TextTerm>): string {
    if terms == [] then "" else PrintTerm(terms[0]) + (" " + PrintTerms(terms[1..]))
  }

  function PrintFilters(filters: seq<Filter>, rest: string): string {
    if filters == [] then rest else PrintFilter(filters[0]) + (" " + PrintFilters(filters[1..], rest))
  }

  function Print(q: Query): string { PrintFilters(q.filters, PrintTerms(q.terms)) }

  // ---- what can be printed ------------------------------------------------------------------

  predicate NoneOf(v: string, stop: Stop) { forall i :: 0 <= i < |v| ==> !stop.Stops(v[i]) }

  /** A bare filter value: unquoted, without white space, and not continuing the operator. */
  predicate BareValueOk(op: Op, v: string) {
    && v != "" && !IsQuote(v[0]) && NoneOf(v, AtSpace)
    && (op.Is? ==> v[0] != '>' && v[0] != '<')
    && (op.Gt? || op.Lt? ==> v[0] != '=')
  }

  predicate BareTermOk(negate: bool, v: string) {
    && v != "" && !IsQuote(v[0]) && NoneOf(v, AtWordEnd)
    && (!negate ==> !IsSpace(v[0]) && v[0] != '-')
  }

  predicate FilterOk(f: Filter) {
    && f.field in KnownFields && (f.value == "" ==> TakesNoValue(f.field))
    && (NeedsBare(f.value) ==> BareValueOk(f.op, f.value))
  }

  predicate TermOk(t: TextTerm) {
    t.value != "" && (NeedsBare(t.value) ==> BareTermOk(t.negate, t.value))
  }

  /** Every query without a value that contains both quote characters is printable; one with
      such a value is if the value can stand bare in its place. */
  predicate Printable(q: Query) {
    (forall f :: f in q.filters ==> FilterOk(f)) && (forall t :: t in q.terms ==> TermOk(t))
  }

  // ---- lexing printed text ---------------------------------------------------------------------

  lemma {:induction false} ScanTo(v: string, rest: string, stop: Stop)
    requires NoneOf(v, stop) && (rest == "" || stop.Stops(rest[0]))
    ensures Scan(v + rest, stop) == |v|
  {
    if v == "" {
      assert v + rest == rest;
    } else {
      assert (v + rest)[1..] == v[1..] + rest;
      ScanTo(v[1..], rest, stop);
    }
  }

  lemma QuotedPrints(v: string, quote: char, rest: string)
    requires quote !in v
    ensures Quoted([quote] + v + [quote] + rest) == (v, |v| + 2)
  {
    var s := [quote] + v + [quote] + rest;
    assert s[1..] == v + ([quote] + rest);
    ScanTo(v, [quote] + rest, AtQuote(quote));
    assert s[1..][..|v|] == v;
  }

  /** A printed filter value, followed by a space, is read back whole. */
  lemma ValuePrints(op: Op, v: string, rest: string)
    requires NeedsBare(v) ==> BareValueOk(op, v)
    ensures FieldValue(PrintValue(v) + (" " + rest)) == (v, !NeedsBare(v), |PrintValue(v)|)
  {
    var s := PrintValue(v) + (" " + rest);
    if NeedsBare(v) {
      ScanTo(v, " " + rest, AtSpace);
      assert s[0] == v[0] && s[..|v|] == v;
    } else {
      QuotedPrints(v, QuoteFor(v), " " + rest);
      assert s == [QuoteFor(v)] + v + [QuoteFor(v)] + (" " + rest);
      assert s[0] == QuoteFor(v);
    }
  }

  lemma OpPrints(op: Op, v: string, rest: string)
    requires NeedsBare(v) ==> BareValueOk(op, v)
    ensures var s := OpText(op) + (PrintValue(v) + (" " + rest));
            LeadingOp(s) == op && |OpText(op)| == OpLength(op) && s[OpLength(op)..] == PrintValue(v) + (" " + rest)
  {
    var s := OpText(op) + (PrintValue(v) + (" " + rest));
    var first := if NeedsBare(v) then v[0] else QuoteFor(v);
    assert s[OpLength(op)] == first;
  }

  predicate PlainWord(f: string) {
    f != "" && forall i :: 0 <= i < |f| ==> 'a' <= f[i] <= 'z' || f[i] == '_'
  }

  lemma FieldsArePlain(f: string)
    requires f in KnownFields
    ensures PlainWord(f)
  {
  }

  lemma {:induction false} LowerKeeps(f: string)
    requires forall i :: 0 <= i < |f| ==> 'a' <= f[i] <= 'z' || f[i] == '_'
    ensures LowerText(f) == f
  {
    if f != "" { LowerKeeps(f[1..]); }
  }

  function FilterToken(f: Filter): RawToken {
    RawToken(f.negate, Some(f.field), f.op, f.value, !NeedsBare(f.value))
  }

  function TermToken(t: TextTerm): RawToken {
    RawToken(t.negate, None, Is, t.value, !NeedsBare(t.value))
  }

  function FilterBody(f: Filter): string { f.field + (":" + (OpText(f.op) + PrintValue(f.value))) }

  /** Where the pieces of a printed filter lie. */
  lemma FilterPieces(field: string, optext: string, value: string, tail: string)
    requires field != ""
    ensures var s := (field + (":" + (optext + value))) + tail;
            && |s| > |field| && s[0] == field[0] && s[|field|] == ':' && s[..|field|] == field
            && s[|field| + 1..] == optext + (value + tail)
            && s == field + (":" + (optext + (value + tail)))
  {
  }

  /** All the lexer needs to know of a filter. */
  predicate Lexable(f: Filter) {
    PlainWord(f.field) && (NeedsBare(f.value) ==> BareValueOk(f.op, f.value))
  }

  lemma AfterColonPrints(f: Filter, rest: string)
    requires Lexable(f)
    ensures AfterColon(f.negate, f.field, OpText(f.op) + (PrintValue(f.value) + (" " + rest)))
            == (FilterToken(f), |OpText(f.op)| + |PrintValue(f.value)|)
  {
    LowerKeeps(f.field);
    OpPrints(f.op, f.value, rest);
    ValuePrints(f.op, f.value, rest);
  }

  lemma {:induction false} PiecesLex(negate: bool, field: string, optext: string, value: string, tail: string, tok: RawToken)
    requires PlainWord(field)
    requires AfterColon(negate, field, optext + (value + tail)) == (tok, |optext| + |value|)
    ensures Term(negate, (field + (":" + (optext + value))) + tail) == (tok, |field| + 1 + |optext| + |value|)
  {
    var after := optext + (value + tail);
    FilterPieces(field, optext, value, tail);
    WordScans(field, after);
    TermFromPieces(negate, (field + (":" + (optext + value))) + tail, field, after, tok, |optext| + |value|);
  }

  lemma {:induction false} WordScans(field: string, after: string)
    requires PlainWord(field)
    ensures Scan(field + (":" + after), AtWordEnd) == |field| && !IsQuote(field[0])
  {
    ScanTo(field, ":" + after, AtWordEnd);
  }

  lemma TermFromPieces(negate: bool, s: string, field: string, after: string, tok: RawToken, n: nat)
    requires |field| < |s| && !IsQuote(s[0]) && |field| == Scan(s, AtWordEnd) && s[|field|] == ':'
    requires s[..|field|] == field && s[|field| + 1..] == after && AfterColon(negate, field, after) == (tok, n)
    ensures Term(negate, s) == (tok, |field| + 1 + n)
  {
    TermIs(negate, s, |field|, tok, n);
  }

  lemma {:induction false} TermBodyLexes(t: TextTerm, rest: string)
    requires TermOk(t)
    ensures Term(t.negate, PrintValue(t.value) + (" " + rest)) == (TermToken(t), |PrintValue(t.value)|)
  {
    var v := t.value;
    var s := PrintValue(v) + (" " + rest);
    if NeedsBare(v) {
      ScanTo(v, " " + rest, AtWordEnd);
      assert s[0] == v[0] && s[|v|] == ' ' && s[..|v|] == v;
      TermOfText(t.negate, s, |v|);
    } else {
      QuotedPrints(v, QuoteFor(v), " " + rest);
      assert s == [QuoteFor(v)] + v + [QuoteFor(v)] + (" " + rest);
      assert s[0] == QuoteFor(v);
    }
  }

  lemma ItemPieces(minus: string, body: string, rest: string)
    requires body != ""
    ensures var s := (minus + body) + (" " + rest);
            && s[|minus|..] == body + (" " + rest) && s[|minus| + |body|..] == " " + rest
            && (minus == "" ==> s == body + (" " + rest) && s[0] == body[0])
            && (minus != "" ==> s[0] == minus[0])
  {
  }

  lemma SpaceLexes(rest: string)
    ensures Lex(" " + rest) == Lex(rest)
  {
    LexUnfolds(" " + rest, [], 1);
    assert (" " + rest)[1..] == rest;
  }

  lemma {:induction false} LexItem(s: string, tok: RawToken, n: nat, rest: string)
    requires s != "" && LexOne(s) == ([tok], n) && s[n..] == " " + rest
    ensures Lex(s) == [tok] + Lex(rest)
  {
    LexUnfolds(s, [tok], n);
    SpaceLexes(rest);
  }

  lemma LexOneItem(negate: bool, s: string, tail: string, tok: RawToken, n: nat)
    requires tail != "" && Term(negate, tail) == (tok, n)
    requires if negate then s != "" && s[0] == '-' && s[1..] == tail
             else s == tail && !IsSpace(s[0]) && s[0] != '-'
    ensures LexOne(s) == ([tok], n + if negate then 1 else 0)
  {
  }

  /** One printed item followed by a space yields its token and then the rest. */
  lemma {:induction false} ItemLexes(negate: bool, body: string, tok: RawToken, rest: string)
    requires body != "" && Term(negate, body + (" " + rest)) == (tok, |body|)
    requires !negate ==> !IsSpace(body[0]) && body[0] != '-'
    ensures Lex((Minus(negate) + body) + (" " + rest)) == [tok] + Lex(rest)
  {
    var s := (Minus(negate) + body) + (" " + rest);
    ItemPieces(Minus(negate), body, rest);
    LexOneItem(negate, s, body + (" " + rest), tok, |body|);
    LexItem(s, tok, |Minus(negate)| + |body|, rest);
  }

  // ---- round trip ------------------------------------------------------------------------------

  function FilterTokens(fs: seq<Filter>): seq<RawToken> {
    if fs == [] then [] else [FilterToken(fs[0])] + FilterTokens(fs[1..])
  }

  function TermTokens(ts: seq<TextTerm>): seq<RawToken> {
    if ts == [] then [] else [TermToken(ts[0])] + TermTokens(ts[1..])
  }

  lemma {:induction false} PrintedTermLexes(t: TextTerm, rest: string)
    requires TermOk(t)
    ensures Lex(PrintTerm(t) + (" " + rest)) == [TermToken(t)] + Lex(rest)
  {
    TermBodyLexes(t, rest);
    ItemLexes(t.negate, PrintValue(t.value), TermToken(t), rest);
  }

  lemma {:induction false} PrintedFilterLexes(f: Filter, rest: string)
    requires Lexable(f)
    ensures Lex(PrintFilter(f) + (" " + rest)) == [FilterToken(f)] + Lex(rest)
  {
    var optext, value := OpText(f.op), PrintValue(f.value);
    AfterColonPrints(f, rest);
    PiecesLex(f.negate, f.field, optext, value, " " + rest, FilterToken(f));
    BodyItem(f.negate, f.field, ":" + (optext + value), FilterToken(f), rest);
  }

  lemma {:induction false} BodyItem(negate: bool, field: string, more: string, tok: RawToken, rest: string)
    requires PlainWord(field) && Term(negate, (field + more) + (" " + rest)) == (tok, |field| + |more|)
    ensures Lex((Minus(negate) + (field + more)) + (" " + rest)) == [tok] + Lex(rest)
  {
    assert (field + more)[0] == field[0];
    ItemLexes(negate, field + more, tok, rest);
  }

  lemma {:induction false} TermsLex(ts: seq<TextTerm>)
    requires forall t :: t in ts ==> TermOk(t)
    ensures Lex(PrintTerms(ts)) == TermTokens(ts)
  {
    if ts != [] {
      TermsLex(ts[1..]);
      PrintedTermLexes(ts[0], PrintTerms(ts[1..]));
    }
  }

  lemma FilterStep(f: Filter, text: string, toks: seq<RawToken>, more: seq<RawToken>)
    requires Lexable(f) && Lex(text) == toks + more
    ensures Lex(PrintFilter(f) + (" " + text)) == ([FilterToken(f)] + toks) + more
  {
    PrintedFilterLexes(f, text);
    Regroup([FilterToken(f)], toks, more);
  }

  lemma {:induction false} FiltersLex(fs: seq<Filter>, rest: string, more: seq<RawToken>)
    requires (forall f :: f in fs ==> Lexable(f)) && Lex(rest) == more
    ensures Lex(PrintFilters(fs, rest)) == FilterTokens(fs) + more
  {
    if fs != [] {
      FiltersLex(fs[1..], rest, more);
      FilterStep(fs[0], PrintFilters(fs[1..], rest), FilterTokens(fs[1..]), more);
    }
  }

  /** `FilterOk` of every filter, one by one. */
  predicate FiltersOk(fs: seq<Filter>) {
    fs == [] || (FilterOk(fs[0]) && FiltersOk(fs[1..]))
  }

  lemma {:induction false} AllFiltersOk(fs: seq<Filter>)
    requires forall f :: f in fs ==> FilterOk(f)
    ensures FiltersOk(fs)
  {
    if fs != [] { AllFiltersOk(fs[1..]); }
  }

  lemma OneFilterAdds(q: Query, f: Filter, rest: seq<RawToken>)
    requires FilterOk(f)
    ensures AddTokens(q, [FilterToken(f)] + rest) == AddTokens(Query(q.filters + [f], q.terms), rest)
  {
    FilterAdds(q, f);
    AddFirst(q, FilterToken(f), Query(q.filters + [f], q.terms), [FilterToken(f)] + rest);
    assert ([FilterToken(f)] + rest)[1..] == rest;
  }

  lemma {:induction false} AddFilters(q: Query, fs: seq<Filter>, more: seq<RawToken>)
    requires FiltersOk(fs)
    ensures AddTokens(q, FilterTokens(fs) + more) == AddTokens(Query(q.filters + fs, q.terms), more)
    decreases fs
  {
    if fs == [] {
      assert q.filters + fs == q.filters;
      assert FilterTokens(fs) + more == more;
    } else {
      var toks := FilterTokens(fs[1..]);
      Regroup([FilterToken(fs[0])], toks, more);
      OneFilterAdds(q, fs[0], toks + more);
      AddFilters(Query(q.filters + [fs[0]], q.terms), fs[1..], more);
      assert q.filters + [fs[0]] + fs[1..] == q.filters + fs;
    }
  }

  lemma AddFirst(q: Query, tok: RawToken, q1: Query, toks: seq<RawToken>)
    requires toks != [] && toks[0] == tok && AddToken(q, tok) == Ok(q1)
    ensures AddTokens(q, toks) == AddTokens(q1, toks[1..])
  {
  }

  lemma FilterAdds(q: Query, f: Filter)
    requires FilterOk(f)
    ensures AddToken(q, FilterToken(f)) == Ok(Query(q.filters + [f], q.terms))
  {
  }

  lemma {:induction false} AddTerms(q: Query, ts: seq<TextTerm>)
    requires forall t :: t in ts ==> t.value != ""
    ensures AddTokens(q, TermTokens(ts)) == Ok(Query(q.filters, q.terms + ts))
    decreases ts
  {
    if ts == [] {
      assert q.terms + ts == q.terms;
    } else {
      assert TermTokens(ts)[1..] == TermTokens(ts[1..]);
      AddTerms(Query(q.filters, q.terms + [ts[0]]), ts[1..]);
      assert q.terms + [ts[0]] + ts[1..] == q.terms + ts;
    }
  }

  /** Printing and parsing gives the query back. */
  lemma {:induction false} RoundTrip(q: Query)
    requires Printable(q)
    ensures ParsedQuery(Print(q)) == Ok(q)
  {
    TermsLex(q.terms);
    forall f | f in q.filters ensures Lexable(f) { FieldsArePlain(f.field); }
    FiltersLex(q.filters, PrintTerms(q.terms), TermTokens(q.terms));
    AllFiltersOk(q.filters);
    AddFilters(Empty, q.filters, TermTokens(q.terms));
    assert Empty.filters + q.filters == q.filters;
    AddTerms(Query(q.filters, []), q.terms);
    assert [] + q.terms == q.terms;
  }

  // ---- the parser only yields printable queries ---------------------------------------------------

  predicate TokenOk(t: RawToken) {
    NeedsBare(t.value) ==>
      match t.field
      case None => BareTermOk(t.negate, t.value)
      case Some(_) => BareValueOk(t.op, t.value)
  }

  lemma QuotedNeedsNoBare(s: string)
    requires s != "" && IsQuote(s[0])
    ensures !NeedsBare(Quoted(s).0)
  {
    ScanStops(s[1..], AtQuote(s[0]));
    assert s[0] !in Quoted(s).0;
  }

  lemma ScanNone(s: string, stop: Stop)
    ensures NoneOf(s[..Scan(s, stop)], stop)
  {
    ScanStops(s, stop);
  }

  lemma AfterColonOk(negate: bool, field: string, s: string)
    ensures TokenOk(AfterColon(negate, field, s).0)
  {
    var op := LeadingOp(s);
    var rest := s[OpLength(op)..];
    if rest != "" && IsQuote(rest[0]) {
      QuotedNeedsNoBare(rest);
    } else {
      ScanNone(rest, AtSpace);
      var v := FieldValue(rest).0;
      if v != "" { assert v[0] == rest[0] == s[OpLength(op)]; }
    }
  }

  lemma TermIsOk(negate: bool, s: string)
    requires s != "" && (!negate ==> !IsSpace(s[0]) && s[0] != '-')
    ensures TokenOk(Term(negate, s).0)
  {
    if IsQuote(s[0]) {
      QuotedNeedsNoBare(s);
    } else {
      var j := Scan(s, AtWordEnd);
      if j < |s| && s[j] == ':' {
        TermOfField(negate, s, j);
        AfterColonOk(negate, s[..j], s[j + 1..]);
      } else {
        TermOfText(negate, s, j);
        ScanNone(s, AtWordEnd);
        if j > 0 { assert s[..j][0] == s[0]; }
      }
    }
  }

  lemma LexOneOk(s: string)
    requires s != ""
    ensures forall t :: t in LexOne(s).0 ==> TokenOk(t)
  {
    if !IsSpace(s[0]) {
      if s[0] != '-' {
        TermIsOk(false, s);
      } else if |s| > 1 {
        TermIsOk(true, s[1..]);
      }
    }
  }

  lemma {:induction false} LexOk(s: string)
    ensures forall t :: t in Lex(s) ==> TokenOk(t)
    decreases |s|
  {
    if s != "" {
      var one := LexOne(s);
      LexOneOk(s);
      LexOk(s[one.1..]);
      LexUnfolds(s, one.0, one.1);
    }
  }

  lemma {:induction false} AddedIsPrintable(q: Query, toks: seq<RawToken>)
    requires Printable(q) && forall t :: t in toks ==> TokenOk(t)
    requires AddTokens(q, toks).Ok?
    ensures Printable(AddTokens(q, toks).value)
    decreases toks
  {
    if toks != [] {
      OneAdded(q, toks[0]);
      AddedIsPrintable(AddToken(q, toks[0]).value, toks[1..]);
    }
  }

  lemma OneAdded(q: Query, t: RawToken)
    requires Printable(q) && TokenOk(t) && AddToken(q, t).Ok?
    ensures Printable(AddToken(q, t).value)
  {
  }

  /** A query can be parsed from some text if and only if it is printable. */
  lemma ParserImage(q: Query)
    ensures Printable(q) <==> exists s :: ParsedQuery(s) == Ok(q)
  {
    if Printable(q) { RoundTrip(q); }
    if s :| ParsedQuery(s) == Ok(q) {
      LexOk(s);
      AddedIsPrintable(Empty, Lex(s));
    }
  }

  /** Whatever was parsed, printing and parsing again changes nothing. */
  lemma ReparseIsIdentity(s: string)
    requires ParsedQuery(s).Ok?
    ensures ParsedQuery(Print(ParsedQuery(s).value)) == ParsedQuery(s)
  {
    LexOk(s);
    AddedIsPrintable(Empty, Lex(s));
    RoundTrip(ParsedQuery(s).value);
  }

  // ---- a minus sign with nothing to negate ----------------------------------------------------------

  /** The tokens read before the outer loop of the lexer takes a turn at index `k`, if it does. */
  function TokensBefore(s: string, k: nat): Option<seq<RawToken>>
    requires k <= |s|
    decreases |s|
  {
    if k == 0 then Some([])
    else
      var (found, n) := LexOne(s);
      if n > k then None else Prepend(found, TokensBefore(s[n..], k - n))
  }

  function Prepend(found: seq<RawToken>, more: Option<seq<RawToken>>): Option<seq<RawToken>> {
    match more
    case Some(toks) => Some(found + toks)
    case None => None
  }

  /** Where the loop takes a turn the text splits: the rest is read as a text of its own. */
  lemma {:induction false} LexSplits(s: string, k: nat, before: seq<RawToken>)
    requires k <= |s| && TokensBefore(s, k) == Some(before)
    ensures Lex(s) == before + Lex(s[k..])
    decreases |s|
  {
    if k == 0 {
      assert s[0..] == s;
    } else {
      var found, n := LexOne(s).0, LexOne(s).1;
      var toks := TokensBefore(s[n..], k - n).value;
      LexSplits(s[n..], k - n, toks);
      SplitJoins(s, k, found, n, toks);
    }
  }

  lemma SplitJoins(s: string, k: nat, found: seq<RawToken>, n: nat, toks: seq<RawToken>)
    requires n <= k <= |s| && s != "" && LexOne(s) == (found, n) && Lex(s[n..]) == toks + Lex(s[n..][k - n..])
    ensures Lex(s) == found + toks + Lex(s[k..])
  {
    Suffix(s, n, k);
    LexUnfolds(s, found, n);
    Regroup(found, toks, Lex(s[k..]));
  }

  /** The token of a minus sign without a term. */
  const NothingNegated := RawToken(true, None, Is, "", false)

  /** A minus sign anywhere in the text, unless it is the last character, is read as a term of its
      own if and only if a space or a tab follows it. */
  lemma DetachedMinusIff(s: string, k: nat)
    requires k + 1 < |s| && s[k] == '-'
    ensures LexOne(s[k..]) == ([NothingNegated], 1) <==> s[k + 1] == ' ' || s[k + 1] == '\t'
  {
    var rest := s[k..][1..];
    assert rest[0] == s[k + 1];
    if s[k + 1] == ' ' || s[k + 1] == '\t' { TermOfText(true, rest, 0); }
  }

  lemma {:induction false} NothingIsDropped(q: Query, before: seq<RawToken>, after: seq<RawToken>)
    ensures AddTokens(q, before + [NothingNegated] + after) == AddTokens(q, before + after)
    decreases before
  {
    if before == [] {
      assert [] + [NothingNegated] + after == [NothingNegated] + after && [] + after == after;
      AddFirst(q, NothingNegated, q, [NothingNegated] + after);
      assert ([NothingNegated] + after)[1..] == after;
    } else {
      assert (before + [NothingNegated] + after)[1..] == before[1..] + [NothingNegated] + after;
      assert (before + after)[1..] == before[1..] + after;
      match AddToken(q, before[0]) {
        case Ok(more) => NothingIsDropped(more, before[1..], after);
        case Err(_) =>
      }
    }
  }

  lemma DetachedMinusLexes(s: string, k: nat)
    requires k + 1 < |s| && LexOne(s[k..]) == ([NothingNegated], 1)
    ensures Lex(s[k..]) == [NothingNegated] + Lex(s[k + 1..])
  {
    Suffix(s, k, k + 1);
    LexUnfolds(s[k..], [NothingNegated], 1);
  }

  lemma NothingFalls(toks: seq<RawToken>, before: seq<RawToken>, after: seq<RawToken>)
    requires toks == before + ([NothingNegated] + after)
    ensures AddTokens(Empty, toks) == AddTokens(Empty, before + after)
  {
    Regroup(before, [NothingNegated], after);
    NothingIsDropped(Empty, before, after);
  }

  /** And then it negates nothing: what follows is read as if the minus were not there. */
  lemma DetachedMinusIsIgnored(s: string, k: nat, before: seq<RawToken>)
    requires k + 1 < |s| && TokensBefore(s, k) == Some(before)
    requires s[k] == '-' && (s[k + 1] == ' ' || s[k + 1] == '\t')
    ensures ParsedQuery(s) == AddTokens(Empty, before + Lex(s[k + 1..]))
  {
    DetachedMinusIff(s, k);
    DetachedMinusLexes(s, k);
    LexSplits(s, k, before);
    NothingFalls(Lex(s), before, Lex(s[k + 1..]));
  }

  /** A minus sign adds nothing to the query exactly if it ends the text, or a space, a tab or an
      empty quotation follows; before any other blank, such as a line break, it starts a word. */
  lemma MinusAddsNothingIff(s: string, k: nat, q: Query)
    requires k < |s| && s[k] == '-'
    ensures AddTokens(q, LexOne(s[k..]).0) == Ok(q) <==>
            || k + 1 == |s| || s[k + 1] == ' ' || s[k + 1] == '\t'
            || (IsQuote(s[k + 1]) && Quoted(s[k..][1..]).0 == "")
  {
    if k + 1 < |s| {
      var rest := s[k..][1..];
      assert rest[0] == s[k + 1];
      var j := Scan(rest, AtWordEnd);
      if !IsQuote(rest[0]) {
        if j < |rest| && rest[j] == ':' { TermOfField(true, rest, j); } else { TermOfText(true, rest, j); }
      }
      AddOne(q, Term(true, rest).0);
    }
  }

  lemma AddOne(q: Query, tok: RawToken)
    ensures AddTokens(q, [tok]) == Ok(q) <==> tok.field.None? && tok.value == ""
  {
    assert AddTokens(q, [tok]) == AddToken(q, tok);
    AddGrows(q, tok);
  }

  lemma AddGrows(q: Query, tok: RawToken)
    ensures AddToken(q, tok) == Ok(q) <==> tok.field.None? && tok.value == ""
  {
    assert |q.terms + [TextTerm(tok.value, tok.negate)]| == |q.terms| + 1;
    if tok.field.Some? {
      assert |q.filters + [Filter(tok.field.value, tok.op, tok.value, tok.negate)]| == |q.filters| + 1;
    }
  }

  // ---- what the parser makes of tokens -----------------------------------------------------------------

  /** Clauses and terms are gathered in the order of their tokens. */
  predicate JoinedBy(q: Query, a: Query, both: Query) {
    both.filters == q.filters + a.filters && both.terms == q.terms + a.terms
  }

  lemma {:induction false} StartsAnywhere(q: Query, toks: seq<RawToken>)
    ensures AddTokens(q, toks).Ok? <==> AddTokens(Empty, toks).Ok?
    ensures AddTokens(q, toks).Ok? ==> JoinedBy(q, AddTokens(Empty, toks).value, AddTokens(q, toks).value)
    decreases toks
  {
    if toks != [] {
      var first, rest := toks[0], toks[1..];
      if AddToken(q, first).Ok? {
        var q1, e1 := AddToken(q, first).value, AddToken(Empty, first).value;
        assert JoinedBy(q, e1, q1);
        StartsAnywhere(q1, rest);
        StartsAnywhere(e1, rest);
        if AddTokens(Empty, rest).Ok? { JoinsOver(q, e1, q1, AddTokens(Empty, rest).value); }
      }
    }
  }

  lemma JoinsOver(q: Query, e: Query, q1: Query, a: Query)
    requires JoinedBy(q, e, q1)
    ensures q1.filters + a.filters == q.filters + (e.filters + a.filters)
    ensures q1.terms + a.terms == q.terms + (e.terms + a.terms)
  {
  }

  lemma {:induction false} AddedInTwo(q: Query, s: seq<RawToken>, t: seq<RawToken>)
    ensures AddTokens(q, s + t) == match AddTokens(q, s) case Ok(mid) => AddTokens(mid, t) case Err(e) => Err(e)
    decreases s
  {
    if s == [] {
      assert s + t == t;
    } else {
      assert (s + t)[0] == s[0] && (s + t)[1..] == s[1..] + t;
      if AddToken(q, s[0]).Ok? { AddedInTwo(AddToken(q, s[0]).value, s[1..], t); }
    }
  }

  /** The query of a sequence of tokens is that of its parts, one after the other; it is an error
      if either part is. */
  lemma ClausesInOrder(s: seq<RawToken>, t: seq<RawToken>)
    ensures var a, b, both := AddTokens(Empty, s), AddTokens(Empty, t), AddTokens(Empty, s + t);
            && (both.Ok? <==> a.Ok? && b.Ok?)
            && (both.Ok? ==> both.value == Query(a.value.filters + b.value.filters, a.value.terms + b.value.terms))
  {
    AddedInTwo(Empty, s, t);
    if AddTokens(Empty, s).Ok? { StartsAnywhere(AddTokens(Empty, s).value, t); }
  }

  /** What one token stands for: a text term unless it is empty, a clause on a known field with a
      value, which only the two presence fields may lack; anything else is an error. */
  lemma OneClause(t: RawToken)
    ensures AddTokens(Empty, [t]) ==
            match t.field
            case None => Ok(Query([], if t.value == "" then [] else [TextTerm(t.value, t.negate)]))
            case Some(field) =>
              if field in KnownFields && (t.value != "" || field == "has_tls" || field == "has_cpe")
              then Ok(Query([Filter(field, t.op, t.value, t.negate)], []))
              else Err(SyntaxError)
  {
    assert [t][1..] == [];
    assert AddTokens(Empty, [t]) == AddToken(Empty, t);
    var term := TextTerm(t.value, t.negate);
    assert Empty.terms + [term] == [term];
    if t.field.Some? {
      var clause := Filter(t.field.value, t.op, t.value, t.negate);
      assert Empty.filters + [clause] == [clause];
    }
  }
}
