/** The search compiler: filters become SQL conditions under three-valued logic. */
module Compiler {
  import opened Wrappers
  import opened Cidr
  import opened Lexer
  import opened PyText
  import opened SearchQuery
  import opened Ilike
  import Guard

  /** SQL truth values. */
  datatype Tri = True | False | Null

  function TriNot(t: Tri): Tri {
    match t case True => False case False => True case Null => Null
  }

  function TriAnd(a: Tri, b: Tri): Tri {
    if a.False? || b.False? then False else if a.True? && b.True? then True else Null
  }

  function Truth(b: bool): Tri { if b then True else False }

  // ---- rows ---------------------------------------------------------------------------------

  datatype IntCol = Port | Asn
  datatype TextCol = Product | Version | Banner | AsOrg | OsGuess | Hostname | City | Service | Cpe

  /** A service joined with its host; None is SQL NULL. `cpe` and `tags` are never NULL. */
  datatype Row = Row(engagement: nat, port: int, asn: Option<int>, transport: string,
                     product: Option<string>, version: Option<string>, banner: Option<string>,
                     asOrg: Option<string>, osGuess: Option<string>, hostname: Option<string>, city: Option<string>,
                     service: Option<string>, country: Option<string>, cpe: seq<string>, tags: seq<string>, ip: Addr,
                     tls: bool, document: Option<nat>)

  function IntOf(row: Row, col: IntCol): Option<int> {
    match col case Port => Some(row.port) case Asn => row.asn
  }

  function TextOf(row: Row, col: TextCol): Option<string> {
    match col
    case Product => row.product
    case Version => row.version
    case Banner => row.banner
    case AsOrg => row.asOrg
    case OsGuess => row.osGuess
    case Hostname => row.hostname
    case City => row.city
    case Service => row.service
    case Cpe => Some(Join(row.cpe, " "))
  }

  /** A network text that `ip_network(..., strict=False)` accepts. */
  type NetText = t: Guard.Text | Guard.IsTarget(t) witness Guard.AddressText(Addr(V4, 0))

  /** What is outside the compiler: address and network texts, and the database's text search. */
  datatype Env = Env(ipOf: string -> Option<Addr>, netOf: string -> Guard.Text, matches: (string, nat) -> bool)

  // ---- letters -----------------------------------------------------------------------------------

  function UpperChar(c: char): char { if 'a' <= c <= 'z' then (c as int - 32) as char else c }

  function Upper(s: string): string {
    if s == "" then "" else [UpperChar(s[0])] + Upper(s[1..])
  }

  // ---- conditions -----------------------------------------------------------------------------

  datatype Cmp = Eq | Greater | Less | AtLeast | AtMost

  predicate Compare(cmp: Cmp, a: int, b: int) {
    match cmp
    case Eq => a == b
    case Greater => a > b
    case Less => a < b
    case AtLeast => a >= b
    case AtMost => a <= b
  }

  datatype Cond =
    | IntCmp(icol: IntCol, cmp: Cmp, n: int)
    | Between(icol: IntCol, lo: int, hi: int)
    | ILike(tcol: TextCol, pattern: string)
    | CountryIs(country: string)
    | TransportIs(transport: string)
    | HasTag(tag: string)
    | IpIs(addr: Addr)
    | IpWithin(text: NetText)
    | TlsNotNull
    | CpeNotEmpty
    | Matches(query: string)
    | Not(cond: Cond)

  function Eval(env: Env, row: Row, cond: Cond): Tri {
    match cond
    case IntCmp(col, cmp, n) =>
      (match IntOf(row, col) case None => Null case Some(x) => Truth(Compare(cmp, x, n)))
    case Between(col, lo, hi) =>
      (match IntOf(row, col) case None => Null case Some(x) => TriAnd(Truth(x >= lo), Truth(x <= hi)))
    case ILike(col, pattern) =>
      (match TextOf(row, col) case None => Null case Some(t) => Truth(Like(pattern, t)))
    case CountryIs(c) =>
      (match row.country case None => Null case Some(x) => Truth(x == c))
    case TransportIs(t) => Truth(row.transport == t)
    case HasTag(t) => Truth(t in row.tags)
    case IpIs(a) => Truth(row.ip == a)
    case IpWithin(text) => Truth(Guard.ParseTarget(text).value.Has(row.ip))
    case TlsNotNull => Truth(row.tls)
    case CpeNotEmpty => Truth(|row.cpe| > 0)
    case Matches(q) =>
      (match row.document case None => Null case Some(d) => Truth(env.matches(q, d)))
    case Not(c) => TriNot(Eval(env, row, c))
  }

  function EvalAll(env: Env, row: Row, conds: seq<Cond>): Tri {
    if conds == [] then True
    else TriAnd(EvalAll(env, row, conds[..|conds| - 1]), Eval(env, row, conds[|conds| - 1]))
  }

  /** `KeyError` would be a field or an operator missing from the compiler's tables. */
  datatype Failure = Bad | KeyError

  /** `_numeric`: a range for the default operator, else a comparison. */
  function Numeric(col: IntCol, op: Op, value: string): Result<Cond, Failure> {
    if op.Is? && '-' in value && value[0] != '-' then
      var k := Find(value, '-');
      match (ParseInt(value[..k]), ParseInt(value[k + 1..]))
      case (Some(lo), Some(hi)) => Ok(Between(col, if lo <= hi then lo else hi, if lo <= hi then hi else lo))
      case _ => Err(Bad)
    else
      match ParseInt(value)
      case None => Err(Bad)
      case Some(n) => Ok(IntCmp(col, match op case Is => Eq case Gt => Greater case Lt => Less case Ge => AtLeast case Le => AtMost, n))
  }

  predicate Falsey(value: string) {
    var v := LowerText(value); v == "false" || v == "no" || v == "0" || v == "off"
  }

  /** `_bool_present` */
  function Present(cond: Cond, value: string): Cond { if Falsey(value) then Not(cond) else cond }

  function TextColumn(field: string): Option<TextCol> {
    if field == "product" then Some(Product)
    else if field == "version" then Some(Version)
    else if field == "banner" then Some(Banner)
    else if field == "org" then Some(AsOrg)
    else if field == "os" then Some(OsGuess)
    else if field == "hostname" then Some(Hostname)
    else if field == "city" then Some(City)
    else if field == "service" then Some(Service)
    else if field == "cpe" then Some(Cpe)
    else None
  }

  /** The builder table. */
  function BuildField(env: Env, field: string, op: Op, v: string): Result<Cond, Failure> {
    if field == "port" then Numeric(Port, op, v)
    else if field == "asn" then Numeric(Asn, op, v)
    else if field == "transport" then
      if LowerText(v) == "tcp" || LowerText(v) == "udp" then Ok(TransportIs(LowerText(v))) else Err(Bad)
    else if TextColumn(field).Some? then Ok(ILike(TextColumn(field).value, Around(v)))
    else if field == "country" then Ok(CountryIs(Upper(v)))
    else if field == "tag" then Ok(HasTag(v))
    else if field == "ip" then (match env.ipOf(v) case None => Err(Bad) case Some(a) => Ok(IpIs(a)))
    else if field == "net" || field == "cidr" then
      if Guard.IsTarget(env.netOf(v)) then Ok(IpWithin(env.netOf(v))) else Err(Bad)
    else if field == "has_tls" then Ok(Present(TlsNotNull, v))
    else if field == "has_cpe" then Ok(Present(CpeNotEmpty, v))
    else Err(KeyError)
  }

  function BuildFilter(env: Env, f: Filter): Result<Cond, Failure> {
    match BuildField(env, f.field, f.op, f.value)
    case Ok(c) => Ok(if f.negate then Not(c) else c)
    case Err(e) => Err(e)
  }

  function BuildAll(env: Env, fs: seq<Filter>): Result<seq<Cond>, Failure> {
    if fs == [] then Ok([])
    else
      match BuildAll(env, fs[..|fs| - 1])
      case Err(e) => Err(e)
      case Ok(cs) =>
        match BuildFilter(env, fs[|fs| - 1])
        case Err(e) => Err(e)
        case Ok(c) => Ok(cs + [c])
  }

  function Values(terms: seq<TextTerm>, negate: bool): seq<string> {
    if terms == [] then []
    else
      var last := terms[|terms| - 1];
      Values(terms[..|terms| - 1], negate) + if last.negate == negate then [last.value] else []
  }

  function PositiveConds(values: seq<string>): seq<Cond> {
    if values == [] then [] else [Matches(Join(values, " "))]
  }

  function NegativeConds(values: seq<string>): seq<Cond> {
    if values == [] then []
    else NegativeConds(values[..|values| - 1]) + [Not(Matches(values[|values| - 1]))]
  }

  /** A SELECT of services joined with hosts; `ranked` stands for the ordering. */
  datatype Statement = Statement(engagement: nat, conditions: seq<Cond>, ranked: bool)

  predicate Selects(env: Env, stmt: Statement, row: Row) {
    row.engagement == stmt.engagement && EvalAll(env, row, stmt.conditions) == True
  }

  function Compiled(env: Env, q: Query, engagement: nat): Result<Statement, Failure> {
    match BuildAll(env, q.filters)
    case Err(e) => Err(e)
    case Ok(conds) =>
      var pos := Values(q.terms, false);
      Ok(Statement(engagement,
                      conds + PositiveConds(pos) + NegativeConds(Values(q.terms, true)),
                      pos != []))
  }

  method BuildConditions(env: Env, filters: seq<Filter>) returns (r: Result<seq<Cond>, Failure>)
    ensures r == BuildAll(env, filters)
  {
    var conditions: seq<Cond> := [];
    for i := 0 to |filters|
      invariant BuildAll(env, filters[..i]) == Ok(conditions)
    {
      assert filters[..i + 1][..i] == filters[..i];
      var built := BuildFilter(env, filters[i]);
      if !built.Ok? {
        FirstFailure(env, filters, i);
        return Err(built.error);
      }
      conditions := conditions + [built.value];
    }
    assert filters[..|filters|] == filters;
    r := Ok(conditions);
  }

  method Compile(env: Env, query: Query, engagement: nat) returns (r: Result<Statement, Failure>)
    ensures r == Compiled(env, query, engagement)
  {
    var built := BuildConditions(env, query.filters);
    if !built.Ok? { return Err(built.error); }
    var conditions := built.value;
    var posTerms, negTerms := Values(query.terms, false), Values(query.terms, true);
    if posTerms != [] { conditions := conditions + [Matches(Join(posTerms, " "))]; }
    ghost var before := conditions;
    for i := 0 to |negTerms|
      invariant conditions == before + NegativeConds(negTerms[..i])
    {
      assert negTerms[..i + 1][..i] == negTerms[..i];
      conditions := conditions + [Not(Matches(negTerms[i]))];
    }
    assert negTerms[..|negTerms|] == negTerms;
    r := Ok(Statement(engagement, conditions, posTerms != []));
  }

  lemma {:induction false} FirstFailure(env: Env, fs: seq<Filter>, i: nat)
    requires i < |fs| && BuildAll(env, fs[..i]).Ok? && !BuildFilter(env, fs[i]).Ok?
    ensures BuildAll(env, fs) == Err(BuildFilter(env, fs[i]).error)
  {
    if i < |fs| - 1 {
      assert fs[..|fs| - 1][..i] == fs[..i];
      FirstFailure(env, fs[..|fs| - 1], i);
    }
  }

  // ---- what a query means, without SQL ---------------------------------------------------------

  predicate IsRange(op: Op, v: string) { op.Is? && '-' in v && v[0] != '-' }

  /** The number satisfies the text of a numeric filter. */
  predicate NumberFits(x: int, op: Op, v: string) {
    if IsRange(op, v) then
      var k := Find(v, '-');
      && ParseInt(v[..k]).Some? && ParseInt(v[k + 1..]).Some?
      && var a, b := ParseInt(v[..k]).value, ParseInt(v[k + 1..]).value;
         a <= x <= b || b <= x <= a
    else
      && ParseInt(v).Some?
      && var n := ParseInt(v).value;
         match op
         case Is => x == n
         case Gt => n < x
         case Lt => x < n
         case Ge => n <= x
         case Le => x <= n
  }

  /** Fields whose filters look for text in a column, and what is there on a row. */
  predicate TextField(field: string) {
    || field == "product" || field == "version" || field == "banner" || field == "org" || field == "os"
    || field == "hostname" || field == "city" || field == "service" || field == "cpe"
  }

  function ColumnText(row: Row, field: string): Option<string>
    requires TextField(field)
  {
    if field == "product" then row.product
    else if field == "version" then row.version
    else if field == "banner" then row.banner
    else if field == "org" then row.asOrg
    else if field == "os" then row.osGuess
    else if field == "hostname" then row.hostname
    else if field == "city" then row.city
    else if field == "service" then row.service
    else Some(Join(row.cpe, " "))
  }

  lemma ColumnsAgree(field: string)
    ensures TextField(field) <==> TextColumn(field).Some?
    ensures forall row :: TextField(field) ==> ColumnText(row, field) == TextOf(row, TextColumn(field).value)
  {
  }

  /** The column the filter looks at is NULL. */
  predicate Unknown(row: Row, field: string) {
    || (field == "asn" && row.asn.None?)
    || (field == "country" && row.country.None?)
    || (TextField(field) && ColumnText(row, field).None?)
  }

  /** The row has what the filter asks for, where the column is known. */
  predicate Fits(env: Env, row: Row, field: string, op: Op, v: string)
    requires !Unknown(row, field)
  {
    if field == "port" then NumberFits(row.port, op, v)
    else if field == "asn" then NumberFits(row.asn.value, op, v)
    else if field == "transport" then row.transport == LowerText(v)
    else if TextField(field) then
      var text := ColumnText(row, field).value;
      if NoWildcard(v) then Contains(text, v) else Like(Around(v), text)
    else if field == "country" then row.country.value == Upper(v)
    else if field == "tag" then v in row.tags
    else if field == "ip" then env.ipOf(v) == Some(row.ip)
    else if field == "net" || field == "cidr" then Guard.IsTarget(env.netOf(v)) && Guard.ParseTarget(env.netOf(v)).value.Has(row.ip)
    else if field == "has_tls" then row.tls == !Falsey(v)
    else field == "has_cpe" && (row.cpe != []) == !Falsey(v)
  }

  /** The truth of a clause on a row: unknown columns are unknown under negation too. */
  function Meaning(env: Env, row: Row, f: Filter): Tri {
    if Unknown(row, f.field) then Null else Truth(Fits(env, row, f.field, f.op, f.value) != f.negate)
  }

  lemma NumericMeans(env: Env, row: Row, col: IntCol, op: Op, v: string)
    requires Numeric(col, op, v).Ok?
    ensures Eval(env, row, Numeric(col, op, v).value) ==
            match IntOf(row, col) case None => Null case Some(x) => Truth(NumberFits(x, op, v))
  {
  }

  lemma TextBuilds(env: Env, field: string, op: Op, v: string)
    requires TextField(field)
    ensures TextColumn(field).Some?
    ensures BuildField(env, field, op, v) == Ok(ILike(TextColumn(field).value, Around(v)))
  {
  }

  lemma TextFits(env: Env, row: Row, field: string, op: Op, v: string)
    requires TextField(field)
    ensures Unknown(row, field) <==> ColumnText(row, field).None?
    ensures !Unknown(row, field) ==>
              var text := ColumnText(row, field).value;
              Fits(env, row, field, op, v) == if NoWildcard(v) then Contains(text, v) else Like(Around(v), text)
  {
  }

  lemma {:induction false} TextMeans(env: Env, row: Row, field: string, op: Op, v: string)
    requires TextField(field)
    ensures TextColumn(field).Some?
    ensures BuildField(env, field, op, v) == Ok(ILike(TextColumn(field).value, Around(v)))
    ensures Eval(env, row, BuildField(env, field, op, v).value) ==
            if Unknown(row, field) then Null else Truth(Fits(env, row, field, op, v))
  {
    TextBuilds(env, field, op, v);
    TextFits(env, row, field, op, v);
    ColumnsAgree(field);
    var text := ColumnText(row, field);
    if text.Some? && NoWildcard(v) { LikeIsContains(v, text.value); }
  }

  lemma {:induction false} OtherMeans(env: Env, row: Row, field: string, op: Op, v: string)
    requires field != "port" && field != "asn" && !TextField(field)
    requires BuildField(env, field, op, v).Ok?
    ensures Eval(env, row, BuildField(env, field, op, v).value) ==
            if Unknown(row, field) then Null else Truth(Fits(env, row, field, op, v))
  {
  }

  lemma {:induction false} FieldMeans(env: Env, row: Row, field: string, op: Op, v: string)
    requires BuildField(env, field, op, v).Ok?
    ensures Eval(env, row, BuildField(env, field, op, v).value) ==
            if Unknown(row, field) then Null else Truth(Fits(env, row, field, op, v))
  {
    if field == "port" {
      NumericMeans(env, row, Port, op, v);
    } else if field == "asn" {
      NumericMeans(env, row, Asn, op, v);
    } else if TextField(field) {
      TextMeans(env, row, field, op, v);
    } else {
      OtherMeans(env, row, field, op, v);
    }
  }

  /** The condition built for a clause has the clause's truth value, on every row. */
  lemma {:induction false} FilterMeans(env: Env, row: Row, f: Filter)
    requires BuildFilter(env, f).Ok?
    ensures Eval(env, row, BuildFilter(env, f).value) == Meaning(env, row, f)
  {
    FieldMeans(env, row, f.field, f.op, f.value);
  }

  // ---- main results --------------------------------------------------------------------------

  lemma {:induction false} EvalAllTrue(env: Env, row: Row, conds: seq<Cond>)
    ensures EvalAll(env, row, conds) == True <==> forall c :: c in conds ==> Eval(env, row, c) == True
  {
    if conds != [] {
      var front, last := conds[..|conds| - 1], conds[|conds| - 1];
      EvalAllTrue(env, row, front);
      assert last in conds && forall c :: c in front ==> c in conds;
      assert EvalAll(env, row, conds) == TriAnd(EvalAll(env, row, front), Eval(env, row, last));
      forall c | c in conds ensures c in front || c == last {}
    }
  }

  lemma {:induction false} BuiltAll(env: Env, row: Row, fs: seq<Filter>)
    requires BuildAll(env, fs).Ok?
    ensures (forall c :: c in BuildAll(env, fs).value ==> Eval(env, row, c) == True)
            <==> forall f :: f in fs ==> Meaning(env, row, f) == True
  {
    if fs != [] {
      var front, last := fs[..|fs| - 1], fs[|fs| - 1];
      assert forall f :: f in fs <==> f in front || f == last;
      BuiltAll(env, row, front);
      FilterMeans(env, row, last);
      var c := BuildFilter(env, last).value;
      assert forall x :: x in BuildAll(env, fs).value <==> x in BuildAll(env, front).value || x == c;
    }
  }

  lemma {:induction false} NegativeConditions(env: Env, row: Row, values: seq<string>)
    ensures (forall c :: c in NegativeConds(values) ==> Eval(env, row, c) == True)
            <==> (values == [] || (row.document.Some? && forall v :: v in values ==> !env.matches(v, row.document.value)))
  {
    if values != [] {
      var front, last := values[..|values| - 1], values[|values| - 1];
      NegativeConditions(env, row, front);
      var c := Not(Matches(last));
      assert Eval(env, row, c) == TriNot(Eval(env, row, Matches(last)));
      assert Eval(env, row, c) == True <==> row.document.Some? && !env.matches(last, row.document.value);
      var conds, before := NegativeConds(values), NegativeConds(front);
      assert conds == before + [c];
      assert c in conds && (forall x :: x in before ==> x in conds) && forall x :: x in conds ==> x in before || x == c;
      assert (forall x :: x in conds ==> Eval(env, row, x) == True)
             <==> (forall x :: x in before ==> Eval(env, row, x) == True) && Eval(env, row, c) == True;
      assert last in values && (forall v :: v in front ==> v in values) && forall v :: v in values ==> v in front || v == last;
    }
  }

  /** `at` are the places of the terms without a minus sign, in order. */
  ghost predicate Picks(terms: seq<TextTerm>, at: seq<nat>) {
    && (forall i :: 0 <= i < |at| ==> at[i] < |terms| && !terms[at[i]].negate)
    && (forall i, j :: 0 <= i < j < |at| ==> at[i] < at[j])
    && (forall k: nat :: k < |terms| && !terms[k].negate ==> k in at)
  }

  function ValuesAt(terms: seq<TextTerm>, at: seq<nat>): seq<string>
    requires forall i :: 0 <= i < |at| ==> at[i] < |terms|
  {
    seq(|at|, i requires 0 <= i < |at| => terms[at[i]].value)
  }

  /** The text part of a query: no term with a minus sign matches, and the others, joined by
      blanks in their order, match as one search; a service that was never indexed satisfies no
      text part at all. */
  ghost predicate TextHolds(env: Env, row: Row, q: Query) {
    q.terms != [] ==>
      && row.document.Some?
      && (forall t :: t in q.terms && t.negate ==> !env.matches(t.value, row.document.value))
      && ((exists t :: t in q.terms && !t.negate) ==>
            exists at :: Picks(q.terms, at) && env.matches(Join(ValuesAt(q.terms, at), " "), row.document.value))
  }

  lemma {:induction false} PicksOnce(terms: seq<TextTerm>, at: seq<nat>)
    requires Picks(terms, at)
    ensures ValuesAt(terms, at) == Values(terms, false)
  {
    if terms == [] {
      assert at == [];
    } else if terms[|terms| - 1].negate {
      PicksOnce(terms[..|terms| - 1], at);
      assert ValuesAt(terms, at) == ValuesAt(terms[..|terms| - 1], at);
    } else {
      LastPick(terms, at);
      PicksOnce(terms[..|terms| - 1], at[..|at| - 1]);
      LastValue(terms, at);
    }
  }

  lemma LastValue(terms: seq<TextTerm>, at: seq<nat>)
    requires at != [] && at[|at| - 1] == |terms| - 1 && forall i :: 0 <= i < |at| - 1 ==> at[i] < |terms| - 1
    ensures ValuesAt(terms, at) == ValuesAt(terms[..|terms| - 1], at[..|at| - 1]) + [terms[|terms| - 1].value]
  {
  }

  lemma LastPick(terms: seq<TextTerm>, at: seq<nat>)
    requires terms != [] && !terms[|terms| - 1].negate && Picks(terms, at)
    ensures at != [] && at[|at| - 1] == |terms| - 1 && Picks(terms[..|terms| - 1], at[..|at| - 1])
  {
    var k := |terms| - 1;
    var i :| 0 <= i < |at| && at[i] == k;
    assert i == |at| - 1;
    forall j: nat | j < k && !terms[j].negate ensures j in at[..i] {
      var m :| 0 <= m < |at| && at[m] == j;
      assert at[..i][m] == j;
    }
  }

  lemma PickMore(terms: seq<TextTerm>, before: seq<nat>)
    requires terms != [] && Picks(terms[..|terms| - 1], before)
    ensures var k := |terms| - 1; Picks(terms, if terms[k].negate then before else before + [k])
  {
    var k := |terms| - 1;
    var at := if terms[k].negate then before else before + [k];
    forall j: nat | j < |terms| && !terms[j].negate ensures j in at {
      if j < k { assert !terms[..k][j].negate; } else { assert at[|before|] == k; }
    }
  }

  lemma {:induction false} SomePicks(terms: seq<TextTerm>) returns (at: seq<nat>)
    ensures Picks(terms, at)
  {
    if terms == [] {
      at := [];
    } else {
      var k := |terms| - 1;
      var before := SomePicks(terms[..k]);
      PickMore(terms, before);
      at := if terms[k].negate then before else before + [k];
    }
  }

  lemma {:induction false} ValueOrigin(terms: seq<TextTerm>, negate: bool)
    ensures forall v :: v in Values(terms, negate) <==> exists t :: t in terms && t.negate == negate && t.value == v
    ensures Values(terms, negate) == [] <==> forall t :: t in terms ==> t.negate != negate
  {
    if terms != [] {
      var front, last := terms[..|terms| - 1], terms[|terms| - 1];
      ValueOrigin(front, negate);
      assert forall t :: t in terms <==> t in front || t == last;
    }
  }

  /** The two lists of the compiler say what `TextHolds` says. */
  lemma TextParts(env: Env, row: Row, q: Query)
    ensures var pos, neg := Values(q.terms, false), Values(q.terms, true);
            TextHolds(env, row, q) <==>
            && (pos == [] || (row.document.Some? && env.matches(Join(pos, " "), row.document.value)))
            && (neg == [] || (row.document.Some? && forall v :: v in neg ==> !env.matches(v, row.document.value)))
  {
    ValueOrigin(q.terms, false);
    ValueOrigin(q.terms, true);
    var at := SomePicks(q.terms);
    PicksOnce(q.terms, at);
    forall other | Picks(q.terms, other) ensures ValuesAt(q.terms, other) == Values(q.terms, false) {
      PicksOnce(q.terms, other);
    }
    if q.terms != [] { assert q.terms[0] in q.terms; }
  }

  lemma PositiveCondition(env: Env, row: Row, pos: seq<string>)
    ensures (forall c :: c in PositiveConds(pos) ==> Eval(env, row, c) == True) <==>
            (pos == [] || (row.document.Some? && env.matches(Join(pos, " "), row.document.value)))
  {
    if pos != [] {
      var m := Matches(Join(pos, " "));
      assert PositiveConds(pos) == [m] && m in PositiveConds(pos);
      assert Eval(env, row, m) == True <==> row.document.Some? && env.matches(Join(pos, " "), row.document.value);
    }
  }

  lemma {:induction false} EvalParts(env: Env, row: Row, a: seq<Cond>, b: seq<Cond>, c: seq<Cond>)
    ensures EvalAll(env, row, a + b + c) == True <==>
            && (forall x :: x in a ==> Eval(env, row, x) == True)
            && (forall x :: x in b ==> Eval(env, row, x) == True)
            && (forall x :: x in c ==> Eval(env, row, x) == True)
  {
    EvalAllTrue(env, row, a + b + c);
    assert forall x :: x in a + b + c <==> x in a || x in b || x in c;
  }

  /** The conditions of a compiled query are true on exactly the rows of its engagement on which
      every clause is true; unknown is not true. */
  lemma {:induction false} StatementSelects(env: Env, q: Query, engagement: nat, row: Row)
    requires Compiled(env, q, engagement).Ok?
    ensures Selects(env, Compiled(env, q, engagement).value, row) <==>
            && row.engagement == engagement
            && (forall f :: f in q.filters ==> Meaning(env, row, f) == True)
            && TextHolds(env, row, q)
  {
    var pos, neg := Values(q.terms, false), Values(q.terms, true);
    EvalParts(env, row, BuildAll(env, q.filters).value, PositiveConds(pos), NegativeConds(neg));
    BuiltAll(env, row, q.filters);
    PositiveCondition(env, row, pos);
    NegativeConditions(env, row, neg);
    TextParts(env, row, q);
  }

  /** A search is ranked by relevance exactly if some term stands without a minus sign. */
  lemma {:induction false} RankedIff(env: Env, q: Query, engagement: nat)
    requires Compiled(env, q, engagement).Ok?
    ensures Compiled(env, q, engagement).value.ranked <==> exists t :: t in q.terms && !t.negate
  {
    ValueOrigin(q.terms, false);
  }

  // ---- what compiles ----------------------------------------------------------------------------

  /** The clause's field is known and its text is of the field's kind. */
  predicate Readable(env: Env, f: Filter) {
    if f.field == "port" || f.field == "asn" then
      if IsRange(f.op, f.value)
      then ParseInt(f.value[..Find(f.value, '-')]).Some? && ParseInt(f.value[Find(f.value, '-') + 1..]).Some?
      else ParseInt(f.value).Some?
    else if f.field == "transport" then LowerText(f.value) == "tcp" || LowerText(f.value) == "udp"
    else if f.field == "ip" then env.ipOf(f.value).Some?
    else if f.field == "net" || f.field == "cidr" then
      var t := env.netOf(f.value);
      t.AddressText? || (t.NetworkText? && t.plen <= t.addr.version.Width())
    else TextField(f.field) || f.field == "country" || f.field == "tag" || f.field == "has_tls" || f.field == "has_cpe"
  }

  lemma BuildsIff(env: Env, f: Filter)
    ensures BuildFilter(env, f).Ok? <==> Readable(env, f)
  {
    ColumnsAgree(f.field);
  }

  /** A query compiles exactly if every clause can be read. */
  lemma {:induction false} CompilesIff(env: Env, q: Query, engagement: nat)
    ensures Compiled(env, q, engagement).Ok? <==> forall f :: f in q.filters ==> Readable(env, f)
  {
    AllBuildIff(env, q.filters);
  }

  lemma {:induction false} AllBuildIff(env: Env, fs: seq<Filter>)
    ensures BuildAll(env, fs).Ok? <==> forall f :: f in fs ==> Readable(env, f)
  {
    if fs != [] {
      var front, last := fs[..|fs| - 1], fs[|fs| - 1];
      AllBuildIff(env, front);
      BuildsIff(env, last);
      assert forall f :: f in fs <==> f in front || f == last;
    }
  }

  /** The parser's list of fields and the compiler's table have the same fields. */
  lemma KnownFieldsAreBuilt(env: Env, field: string, op: Op, v: string)
    ensures field in KnownFields <==> BuildField(env, field, op, v) != Err(KeyError)
  {
    if field in KnownFields { KnownFieldBuilds(env, Filter(field, op, v, false)); }
  }

  /** Each small letter of a country becomes its capital. */
  lemma {:induction false} UpperIs(s: string)
    ensures |Upper(s)| == |s|
    ensures forall i :: 0 <= i < |s| ==>
              if 'a' <= s[i] <= 'z' then Upper(s)[i] as int == s[i] as int - 32 else Upper(s)[i] == s[i]
  {
    if s != "" { UpperIs(s[1..]); }
  }

  /** The words that turn a presence filter round, in any case. */
  lemma FalseyWords(v: string)
    ensures Falsey(v) <==> LowerText(v) in {"false", "no", "0", "off"}
  {
  }

  /** The conditions built for a clause and for its negation never both hold, and together
      they cover exactly the rows whose column is not NULL. */
  lemma {:induction false} NegationPartitions(env: Env, row: Row, f: Filter)
    requires BuildFilter(env, f).Ok?
    ensures var g := f.(negate := !f.negate);
            && BuildFilter(env, g).Ok?
            && var c, d := Eval(env, row, BuildFilter(env, f).value), Eval(env, row, BuildFilter(env, g).value);
               && !(c == True && d == True)
               && (c == True || d == True <==> !Unknown(row, f.field))
  {
    FilterMeans(env, row, f);
    FilterMeans(env, row, f.(negate := !f.negate));
  }

  lemma RangeSplits(a: string, b: string)
    requires '-' !in a && a != ""
    ensures var s := a + ("-" + b);
            IsRange(Is, s) && s[..Find(s, '-')] == a && s[Find(s, '-') + 1..] == b
  {
    FindAt(a, '-', b);
    var s := a + ("-" + b);
    assert s[|a|] == '-' && s[0] == a[0];
  }

  function RangeOf(col: IntCol, a: string, b: string): Result<Cond, Failure> {
    match (ParseInt(a), ParseInt(b))
    case (Some(lo), Some(hi)) => Ok(Between(col, if lo <= hi then lo else hi, if lo <= hi then hi else lo))
    case _ => Err(Bad)
  }

  lemma RangeBuilds(col: IntCol, s: string, a: string, b: string)
    requires IsRange(Is, s) && s[..Find(s, '-')] == a && s[Find(s, '-') + 1..] == b
    ensures Numeric(col, Is, s) == RangeOf(col, a, b)
  {
  }

  /** Bounds without a minus sign may come in either order, well-formed or not. */
  lemma RangeBoundsCommute(col: IntCol, a: string, b: string)
    requires '-' !in a && '-' !in b && a != "" && b != ""
    ensures Numeric(col, Is, a + ("-" + b)) == Numeric(col, Is, b + ("-" + a))
  {
    RangeSplits(a, b);
    RangeSplits(b, a);
    RangeBuilds(col, a + ("-" + b), a, b);
    RangeBuilds(col, b + ("-" + a), b, a);
  }

  /** A range whose first bound is written with a minus sign is a syntax error. */
  lemma NegativeFirst(col: IntCol, a: string, b: string)
    requires ParseInt(a).Some? && '-' in a
    ensures Numeric(col, Is, a + ("-" + b)) == Err(Bad)
  {
    var k, d := NumberShape(a);
    var i :| 0 <= i < |a| && a[i] == '-';
    var s := a + ("-" + b);
    assert s[k] == '-' && s[d] == a[d] && s[|a|] == '-';
    if k == 0 {
      MinusInside(s, d, |a|);
    } else {
      assert forall j :: 0 <= j < k ==> s[j] == a[j];
      FindAt(s[..k], '-', s[k + 1..]);
      assert s == s[..k] + (['-'] + s[k + 1..]);
      BlankIsNoNumber(s[..k]);
    }
  }

  /** Any two numbers may be exchanged as bounds exactly if both or neither are written with a
      minus sign: `5--3` is the range from -3 to 5, `-3-5` a syntax error. */
  lemma RangeBoundsCommuteIff(col: IntCol, a: string, b: string)
    requires ParseInt(a).Some? && ParseInt(b).Some?
    ensures Numeric(col, Is, a + ("-" + b)) == Numeric(col, Is, b + ("-" + a)) <==> ('-' in a <==> '-' in b)
  {
    BoundsBuild(col, a, b);
    BoundsBuild(col, b, a);
    if '-' !in a && '-' !in b { RangeBoundsCommute(col, a, b); }
  }

  lemma BoundsBuild(col: IntCol, a: string, b: string)
    requires ParseInt(a).Some? && ParseInt(b).Some?
    ensures Numeric(col, Is, a + ("-" + b)) == if '-' in a then Err(Bad) else RangeOf(col, a, b)
  {
    var k, d := NumberShape(a);
    if '-' in a {
      NegativeFirst(col, a, b);
    } else {
      RangeSplits(a, b);
      RangeBuilds(col, a + ("-" + b), a, b);
    }
  }

  lemma {:induction false} KnownBuilds(env: Env, fs: seq<Filter>)
    requires forall f :: f in fs ==> f.field in KnownFields
    ensures BuildAll(env, fs) != Err(KeyError)
  {
    if fs != [] {
      KnownBuilds(env, fs[..|fs| - 1]);
      KnownFieldBuilds(env, fs[|fs| - 1]);
    }
  }

  lemma KnownFieldBuilds(env: Env, f: Filter)
    requires f.field in KnownFields
    ensures BuildFilter(env, f) != Err(KeyError)
  {
  }

  /** Whatever text is parsed, compiling it either succeeds or is a syntax error: no field is
      missing from the builder table. */
  lemma ParsedQueriesCompile(env: Env, s: string, engagement: nat)
    requires ParsedQuery(s).Ok?
    ensures Compiled(env, ParsedQuery(s).value, engagement) != Err(KeyError)
  {
    ParserImageFields(s);
    KnownBuilds(env, ParsedQuery(s).value.filters);
  }

  lemma ParserImageFields(s: string)
    requires ParsedQuery(s).Ok?
    ensures forall f :: f in ParsedQuery(s).value.filters ==> f.field in KnownFields
  {
    ParserImage(ParsedQuery(s).value);
  }
}
