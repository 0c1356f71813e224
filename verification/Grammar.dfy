/** The lexer's grammar, stated on how a text is written, and the proof that the scanner reads
    every text by it and that no text can be read in two ways. */
module Grammar {
  import opened Wrappers
  import opened Lexer
  import opened SearchQuery

  // ---- the grammar ---------------------------------------------------------------------------

  predicate QuotedBy(quote: char, text: string, value: string, rest: string) {
    quote !in value && (text == [quote] + value + [quote] || (text == [quote] + value && rest == ""))
  }

  /** `quoted`: between two equal quote characters; one left open runs to the end of the query. */
  predicate Quotation(text: string, value: string, rest: string) {
    QuotedBy('"', text, value, rest) || QuotedBy('\'', text, value, rest)
  }

  predicate Opens(text: string) { text != "" && (text[0] == '"' || text[0] == '\'') }

  /** `bareword`: up to the end of the query or a character that stops it. */
  predicate Bareword(text: string, stop: Stop, rest: string) {
    !Opens(text) && NoneOf(text, stop) && (rest == "" || stop.Stops(rest[0]))
  }

  /** `freetext := quoted | bareword` */
  predicate FreeText(text: string, t: RawToken, rest: string) {
    && t.field == None && t.op == Is
    && if t.quoted then Quotation(text, t.value, rest)
       else text == t.value && Bareword(text, AtWordEnd, rest) && (rest == "" || rest[0] != ':')
  }

  /** The operator is read as far as it goes. */
  predicate EndsOp(op: Op, value: string) {
    value != "" ==>
      && (op == Is ==> value[0] != '>' && value[0] != '<')
      && (op == Gt || op == Lt ==> value[0] != '=')
  }

  /** `op? value`, after the field's colon. */
  predicate Operand(text: string, t: RawToken, value: string, rest: string) {
    && text == OpText(t.op) + value && EndsOp(t.op, value)
    && if t.quoted then Quotation(value, t.value, rest)
       else value == t.value && Bareword(value, AtSpace, rest)
  }

  /** `filter := field ':' op? value`; the field's case does not matter. */
  predicate FilterText(text: string, t: RawToken, name: string, value: string, rest: string) {
    && t.field == Some(LowerText(name)) && !Opens(name) && NoneOf(name, AtWordEnd)
    && text == name + (":" + (OpText(t.op) + value))
    && Operand(OpText(t.op) + value, t, value, rest)
  }

  /** `filter | freetext` */
  ghost predicate Body(text: string, t: RawToken, rest: string) {
    FreeText(text, t, rest) || exists name, value :: FilterText(text, t, name, value, rest)
  }

  /** `term := negation? (filter | freetext)`: `text`, with `rest` behind it, is one term, a blank
      between terms, or a minus sign that ends the query. */
  ghost predicate ReadsAs(text: string, found: seq<RawToken>, rest: string) {
    || (|text| == 1 && IsSpace(text[0]) && found == [])
    || (text == "-" && rest == "" && found == [])
    || (|found| == 1 && !found[0].negate && text != "" && !IsSpace(text[0]) && text[0] != '-'
        && Body(text, found[0], rest))
    || (|found| == 1 && found[0].negate && text != "" && text[0] == '-' && text + rest != "-"
        && Body(text[1..], found[0], rest))
  }

  /** A whole query, term by term. */
  ghost predicate Reading(s: string, toks: seq<RawToken>)
    decreases |s|
  {
    if s == "" then toks == []
    else exists n, k :: 0 < n <= |s| && 0 <= k <= |toks|
                        && ReadsAs(s[..n], toks[..k], s[n..]) && Reading(s[n..], toks[k..])
  }

  // ---- what the scanner reads is by the grammar --------------------------------------------------

  lemma QuotedReads(s: string)
    requires s != "" && IsQuote(s[0])
    ensures var r := Quoted(s); Quotation(s[..r.1], r.0, s[r.1..])
  {
    var k := Scan(s[1..], AtQuote(s[0]));
    ScanStops(s[1..], AtQuote(s[0]));
    var v := s[1..][..k];
    assert s[0] !in v;
    if k + 1 < |s| {
      assert s[1..][k] == s[0];
      assert s[..k + 2] == [s[0]] + v + [s[0]];
    } else {
      assert s[..k + 1] == [s[0]] + v;
    }
  }

  lemma ScanReads(s: string, stop: Stop)
    requires !Opens(s)
    ensures var k := Scan(s, stop); Bareword(s[..k], stop, s[k..])
  {
    ScanStops(s, stop);
  }

  lemma ValueReads(s: string, t: RawToken, n: nat)
    requires FieldValue(s) == (t.value, t.quoted, n)
    ensures if t.quoted then Quotation(s[..n], t.value, s[n..])
            else s[..n] == t.value && Bareword(s[..n], AtSpace, s[n..])
  {
    if s != "" && IsQuote(s[0]) { QuotedReads(s); } else { ScanReads(s, AtSpace); }
  }

  lemma OpIs(s: string)
    ensures var op := LeadingOp(s);
            && s[..OpLength(op)] == OpText(op)
            && forall n :: OpLength(op) <= n <= |s| ==> EndsOp(op, s[OpLength(op)..n])
  {
  }

  lemma OpReads(s: string, op: Op, n: nat)
    requires op == LeadingOp(s) && OpLength(op) <= n <= |s|
    ensures s[..n] == OpText(op) + s[OpLength(op)..n] && EndsOp(op, s[OpLength(op)..n])
  {
    OpIs(s);
    assert s[..n] == s[..OpLength(op)] + s[OpLength(op)..n];
  }

  lemma OperandReads(negate: bool, field: string, s: string, t: RawToken, n: nat) returns (value: string)
    requires AfterColon(negate, field, s) == (t, n)
    ensures n <= |s| && t.negate == negate && t.field == Some(LowerText(field))
    ensures s[..n] == OpText(t.op) + value && Operand(OpText(t.op) + value, t, value, s[n..])
  {
    var k := OpLength(t.op);
    value := s[k..n];
    OpReads(s, t.op, n);
    ValueReads(s[k..], t, n - k);
    Middle(s, k, n);
  }

  lemma Middle(s: string, k: nat, n: nat)
    requires k <= n <= |s|
    ensures s[k..][..n - k] == s[k..n] && s[k..][n - k..] == s[n..]
  {
  }

  lemma FilterPieces(s: string, j: nat, n: nat)
    requires j < |s| && s[j] == ':' && n <= |s[j + 1..]|
    ensures s[..j + 1 + n] == s[..j] + (":" + s[j + 1..][..n]) && s[j + 1 + n..] == s[j + 1..][n..]
  {
  }

  lemma NameReads(s: string, j: nat)
    requires s != "" && !IsQuote(s[0]) && j == Scan(s, AtWordEnd) && j < |s|
    ensures !Opens(s[..j]) && NoneOf(s[..j], AtWordEnd)
  {
    ScanReads(s, AtWordEnd);
  }

  lemma FilterReads(negate: bool, s: string, j: nat, t: RawToken, n: nat)
    requires s != "" && !IsQuote(s[0]) && j == Scan(s, AtWordEnd) && j < |s| && s[j] == ':'
    requires AfterColon(negate, s[..j], s[j + 1..]) == (t, n)
    ensures t.negate == negate && Body(s[..j + 1 + n], t, s[j + 1 + n..])
  {
    var value := OperandReads(negate, s[..j], s[j + 1..], t, n);
    NameReads(s, j);
    FilterPieces(s, j, n);
    assert FilterText(s[..j + 1 + n], t, s[..j], value, s[j + 1 + n..]);
  }

  lemma TermReads(negate: bool, s: string, t: RawToken, n: nat)
    requires s != "" && Term(negate, s) == (t, n)
    ensures n <= |s| && t.negate == negate && Body(s[..n], t, s[n..])
  {
    var j := Scan(s, AtWordEnd);
    if IsQuote(s[0]) {
      QuotedReads(s);
    } else if j < |s| && s[j] == ':' {
      TermOfField(negate, s, j);
      FilterReads(negate, s, j, t, n - (j + 1));
    } else {
      TermOfText(negate, s, j);
      WordReads(negate, s, j);
    }
  }

  lemma WordReads(negate: bool, s: string, j: nat)
    requires s != "" && !IsQuote(s[0]) && j == Scan(s, AtWordEnd) && !(j < |s| && s[j] == ':')
    ensures FreeText(s[..j], RawToken(negate, None, Is, s[..j], false), s[j..])
  {
    ScanReads(s, AtWordEnd);
  }

  lemma PlainReads(s: string, t: RawToken, n: nat)
    requires s != "" && !IsSpace(s[0]) && s[0] != '-' && Term(false, s) == (t, n)
    ensures 0 < n <= |s| && ReadsAs(s[..n], [t], s[n..])
  {
    TermReads(false, s, t, n);
  }

  lemma NegatedReads(s: string, t: RawToken, n: nat)
    requires |s| > 1 && s[0] == '-' && Term(true, s[1..]) == (t, n)
    ensures n + 1 <= |s| && ReadsAs(s[..n + 1], [t], s[n + 1..])
  {
    TermReads(true, s[1..], t, n);
    assert s[..n + 1][1..] == s[1..][..n] && s[n + 1..] == s[1..][n..];
    assert |s[..n + 1] + s[n + 1..]| == |s|;
  }

  /** One turn of the outer loop reads what the grammar says is there. */
  lemma LexOneReads(s: string)
    requires s != ""
    ensures var r := LexOne(s); ReadsAs(s[..r.1], r.0, s[r.1..])
  {
    if !IsSpace(s[0]) {
      if s[0] != '-' {
        var t := Term(false, s);
        PlainReads(s, t.0, t.1);
      } else if |s| > 1 {
        var t := Term(true, s[1..]);
        NegatedReads(s, t.0, t.1);
      } else {
        assert s[..1] == "-" && s[1..] == "";
      }
    }
  }

  // ---- and nothing else is ---------------------------------------------------------------------------

  lemma QuotationQuoted(text: string, value: string, rest: string)
    requires Quotation(text, value, rest)
    ensures Opens(text) && Quoted(text + rest) == (value, |text|)
  {
    var s, quote := text + rest, text[0];
    assert quote !in value && IsQuote(quote);
    if text == [quote] + value + [quote] {
      assert s[1..] == value + ([quote] + rest);
      ScanTo(value, [quote] + rest, AtQuote(quote));
    } else {
      assert s[1..] == value + "";
      ScanTo(value, "", AtQuote(quote));
    }
    assert s[1..][..|value|] == value;
  }

  lemma OperandValue(text: string, t: RawToken, value: string, rest: string)
    requires Operand(text, t, value, rest)
    ensures FieldValue(value + rest) == (t.value, t.quoted, |value|)
  {
    var s := value + rest;
    if t.quoted {
      QuotationQuoted(value, t.value, rest);
      assert s[0] == value[0];
    } else {
      ScanTo(value, rest, AtSpace);
      assert s != "" ==> s[0] == if value != "" then value[0] else rest[0];
      assert s[..|value|] == value;
    }
  }

  lemma OpFront(op: Op, tail: string)
    requires EndsOp(op, tail)
    ensures LeadingOp(OpText(op) + tail) == op && OpLength(op) == |OpText(op)|
    ensures (OpText(op) + tail)[OpLength(op)..] == tail
  {
    var s := OpText(op) + tail;
    assert |s| == |OpText(op)| + |tail|;
    assert tail != "" ==> s[|OpText(op)|] == tail[0];
  }

  lemma OperandOp(text: string, t: RawToken, value: string, rest: string)
    requires Operand(text, t, value, rest)
    ensures LeadingOp(text + rest) == t.op && OpLength(t.op) == |OpText(t.op)|
    ensures (text + rest)[OpLength(t.op)..] == value + rest
  {
    var tail := value + rest;
    assert text + rest == OpText(t.op) + tail;
    assert tail != "" ==> tail[0] == if value != "" then value[0] else rest[0];
    OpFront(t.op, tail);
  }

  lemma OperandIs(negate: bool, field: string, text: string, t: RawToken, value: string, rest: string)
    requires Operand(text, t, value, rest) && t.field == Some(LowerText(field)) && t.negate == negate
    ensures AfterColon(negate, field, text + rest) == (t, |text|)
  {
    OperandOp(text, t, value, rest);
    OperandValue(text, t, value, rest);
  }

  lemma FilterTerm(text: string, t: RawToken, name: string, value: string, rest: string)
    requires FilterText(text, t, name, value, rest)
    ensures text != "" && Term(t.negate, text + rest) == (t, |text|)
  {
    var after := OpText(t.op) + value;
    NamePieces(name, after, rest);
    ScanTo(name, ":" + (after + rest), AtWordEnd);
    OperandIs(t.negate, name, after, t, value, rest);
    TermIs(t.negate, text + rest, |name|, t, |after|);
  }

  lemma NamePieces(name: string, after: string, rest: string)
    ensures var s := (name + (":" + after)) + rest;
            && s == name + (":" + (after + rest)) && s[0] == (if name != "" then name[0] else ':')
            && s[|name|] == ':' && s[..|name|] == name && s[|name| + 1..] == after + rest
  {
  }

  lemma FreeTextTerm(text: string, t: RawToken, rest: string)
    requires FreeText(text, t, rest) && text + rest != ""
    ensures Term(t.negate, text + rest) == (t, |text|)
  {
    if t.quoted {
      QuotationQuoted(text, t.value, rest);
      assert (text + rest)[0] == text[0];
    } else {
      WordPieces(text, rest);
      ScanTo(text, rest, AtWordEnd);
      TermOfText(t.negate, text + rest, |text|);
    }
  }

  lemma WordPieces(text: string, rest: string)
    requires text + rest != ""
    ensures var s := text + rest;
            && s[0] == (if text != "" then text[0] else rest[0]) && s[..|text|] == text
            && (rest != "" ==> s[|text|] == rest[0]) && (rest == "" ==> |s| == |text|)
  {
  }

  lemma BodyTerm(text: string, t: RawToken, rest: string)
    requires Body(text, t, rest) && text + rest != ""
    ensures Term(t.negate, text + rest) == (t, |text|)
  {
    if FreeText(text, t, rest) {
      FreeTextTerm(text, t, rest);
    } else {
      var name, value :| FilterText(text, t, name, value, rest);
      FilterTerm(text, t, name, value, rest);
    }
  }

  /** What the grammar allows at the front of a text is what the scanner reads there. */
  lemma ReadsOnce(text: string, found: seq<RawToken>, rest: string)
    requires ReadsAs(text, found, rest)
    ensures text != "" && LexOne(text + rest) == (found, |text|)
  {
    var s := text + rest;
    assert s[0] == text[0];
    if |found| == 1 {
      assert found == [found[0]];
      if found[0].negate {
        assert s[1..] == text[1..] + rest;
        assert s != "-" && [s[0]] == "-";
        BodyTerm(text[1..], found[0], rest);
      } else {
        BodyTerm(text, found[0], rest);
      }
    }
  }

  lemma ReadingStarts(s: string, n: nat, found: seq<RawToken>)
    requires 0 < n <= |s| && ReadsAs(s[..n], found, s[n..])
    ensures LexOne(s) == (found, n)
  {
    ReadsOnce(s[..n], found, s[n..]);
    assert s[..n] + s[n..] == s;
  }

  lemma ReadingUnfolds(s: string, toks: seq<RawToken>)
    requires s != ""
    ensures var r := LexOne(s); Reading(s, toks) <==> r.0 <= toks && Reading(s[r.1..], toks[|r.0|..])
  {
    var r := LexOne(s);
    if Reading(s, toks) {
      var n, k :| 0 < n <= |s| && 0 <= k <= |toks|
                  && ReadsAs(s[..n], toks[..k], s[n..]) && Reading(s[n..], toks[k..]);
      ReadingStarts(s, n, toks[..k]);
    }
    if r.0 <= toks && Reading(s[r.1..], toks[|r.0|..]) {
      LexOneReads(s);
      assert toks[..|r.0|] == r.0;
    }
  }

  /** The scanner implements the grammar, and the grammar is unambiguous: a sequence of tokens is a
      reading of a query exactly if it is what the scanner returns. */
  lemma {:induction false} LexIsTheReading(s: string, toks: seq<RawToken>)
    ensures Reading(s, toks) <==> toks == Lex(s)
    decreases |s|
  {
    if s != "" {
      var r := LexOne(s);
      ReadingUnfolds(s, toks);
      LexUnfolds(s, r.0, r.1);
      if r.0 <= toks {
        LexIsTheReading(s[r.1..], toks[|r.0|..]);
        assert toks == r.0 + toks[|r.0|..];
      } else {
        assert !(toks == Lex(s));
      }
    }
  }

  /** Which characters are which operator: the longest that fits. */
  lemma OperatorsAre(s: string)
    ensures LeadingOp(">=" + s) == Ge && LeadingOp("<=" + s) == Le
    ensures s == "" || s[0] != '=' ==> LeadingOp(">" + s) == Gt && LeadingOp("<" + s) == Lt
    ensures s == "" || (s[0] != '>' && s[0] != '<') ==> LeadingOp(s) == Is
  {
    assert (">=" + s)[0] == '>' && (">=" + s)[1] == '=' && ("<=" + s)[0] == '<' && ("<=" + s)[1] == '=';
    assert (">" + s)[0] == '>' && ("<" + s)[0] == '<';
    assert s != "" ==> (">" + s)[1] == s[0] && ("<" + s)[1] == s[0];
  }

  /** The white space of `str.isspace`, by code point. */
  lemma SpacesAre(c: char)
    ensures IsSpace(c) <==>
            c as int in {9, 10, 11, 12, 13, 28, 29, 30, 31, 32, 133, 160, 5760, 8192, 8193, 8194, 8195, 8196, 8197,
                         8198, 8199, 8200, 8201, 8202, 8232, 8233, 8239, 8287, 12288}
  {
  }
}
