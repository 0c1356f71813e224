/** The few Python string operations the parsers lean on. */
module PyText {
  import opened Wrappers
  import opened Lexer

  /** `str.strip()` */
  function Strip(s: string): string { StripRight(StripLeft(s)) }

  function StripLeft(s: string): string {
    if s != "" && IsSpace(s[0]) then StripLeft(s[1..]) else s
  }

  function StripRight(s: string): string {
    if s != "" && IsSpace(s[|s| - 1]) then StripRight(s[..|s| - 1]) else s
  }

  predicate IsDigit(c: char) { '0' <= c <= '9' }

  /** Digits, with single underscores allowed between them. */
  function ParseDigits(s: string): Option<nat>
    decreases |s|
  {
    if s == "" || !IsDigit(s[|s| - 1]) then None
    else
      var d: nat := s[|s| - 1] as int - '0' as int;
      var front := s[..|s| - 1];
      if front == "" then Some(d)
      else
        match ParseDigits(if front[|front| - 1] == '_' then front[..|front| - 1] else front)
        case None => None
        case Some(n) => Some(10 * n + d)
  }

  /** `int(text)` for ASCII digits; None stands for ValueError. */
  function ParseInt(text: string): Option<int> {
    var s := Strip(text);
    var signed := s != "" && (s[0] == '+' || s[0] == '-');
    match ParseDigits(if signed then s[1..] else s)
    case None => None
    case Some(n) =>
      var value: int := n;
      Some(if signed && s[0] == '-' then -value else value)
  }

  /** `text.split(sep)` for one character: always at least one piece. */
  function Split(s: string, sep: char): (r: seq<string>)
    ensures r != []
  {
    if s == "" then [""]
    else
      var rest := Split(s[1..], sep);
      if s[0] == sep then [""] + rest else [[s[0]] + rest[0]] + rest[1..]
  }

  /** `sep.join(parts)` */
  function Join(parts: seq<string>, sep: string): string {
    if parts == [] then ""
    else if |parts| == 1 then parts[0]
    else parts[0] + sep + Join(parts[1..], sep)
  }

  /** The separator stands between any two neighbours and nowhere else. */
  lemma {:induction false} JoinInOrder(s: seq<string>, t: seq<string>, sep: string)
    ensures Join([], sep) == "" && forall x :: Join([x], sep) == x
    ensures s != [] && t != [] ==> Join(s + t, sep) == Join(s, sep) + sep + Join(t, sep)
  {
    if s != [] && t != [] {
      assert (s + t)[1..] == s[1..] + t && (s + t)[0] == s[0];
      if |s| == 1 {
        assert s[1..] + t == t;
      } else {
        JoinInOrder(s[1..], t, sep);
        Regroup(s[0] + sep, Join(s[1..], sep), sep);
        Regroup(s[0] + sep, Join(s[1..], sep) + sep, Join(t, sep));
      }
    }
  }

  lemma JoinHead(head: string, more: string, rest: seq<string>, sep: string)
    ensures Join([head + more] + rest, sep) == head + Join([more] + rest, sep)
  {
    if rest != [] {
      assert ([head + more] + rest)[1..] == rest == ([more] + rest)[1..];
      Regroup(head, more, sep);
      Regroup(head, more + sep, Join(rest, sep));
    }
  }

  /** The pieces of a text contain no separator and, joined by it, are the text again. */
  lemma {:induction false} SplitExact(s: string, sep: char)
    ensures Join(Split(s, sep), [sep]) == s
    ensures forall p :: p in Split(s, sep) ==> sep !in p
  {
    if s != "" {
      SplitExact(s[1..], sep);
      var rest := Split(s[1..], sep);
      assert s == [s[0]] + s[1..];
      if s[0] == sep {
        assert ([""] + rest)[1..] == rest;
      } else {
        JoinHead([s[0]], rest[0], rest[1..], [sep]);
        assert rest == [rest[0]] + rest[1..];
        assert rest[0] in rest && forall p :: p in rest[1..] ==> p in rest;
      }
    }
  }

  /** The position of the first `c`, or the length. */
  function Find(s: string, c: char): (k: nat)
    ensures k <= |s| && (k < |s| ==> s[k] == c) && (k < |s| <==> c in s)
  {
    if s == "" || s[0] == c then 0 else 1 + Find(s[1..], c)
  }

  lemma {:induction false} FindAt(a: string, c: char, b: string)
    requires c !in a
    ensures Find(a + ([c] + b), c) == |a|
  {
    var s := a + ([c] + b);
    if a == "" {
      assert s[0] == c;
    } else {
      assert s[1..] == a[1..] + ([c] + b);
      FindAt(a[1..], c, b);
    }
  }

  // ---- what stripping and `int` see ---------------------------------------------------------

  predicate Blanks(s: string, lo: nat, hi: nat)
    requires lo <= hi <= |s|
  {
    forall i :: lo <= i < hi ==> IsSpace(s[i])
  }

  lemma {:induction false} LeftAt(s: string, k: nat)
    requires k <= |s| && Blanks(s, 0, k) && (k < |s| ==> !IsSpace(s[k]))
    ensures StripLeft(s) == s[k..]
  {
    if k > 0 {
      LeftAt(s[1..], k - 1);
      assert s[1..][k - 1..] == s[k..];
    }
  }

  lemma {:induction false} RightAt(s: string, k: nat)
    requires k <= |s| && Blanks(s, k, |s|) && (k > 0 ==> !IsSpace(s[k - 1]))
    ensures StripRight(s) == s[..k]
  {
    if k < |s| {
      RightAt(s[..|s| - 1], k);
      assert s[..|s| - 1][..k] == s[..k];
    }
  }

  /** Where the leading blanks end. */
  lemma LeftEdge(s: string) returns (k: nat)
    ensures k <= |s| && Blanks(s, 0, k) && (k < |s| ==> !IsSpace(s[k]))
  {
    k := 0;
    while k < |s| && IsSpace(s[k])
      invariant k <= |s| && Blanks(s, 0, k)
    {
      k := k + 1;
    }
  }

  /** Where the trailing blanks begin. */
  lemma RightEdge(s: string) returns (k: nat)
    ensures k <= |s| && Blanks(s, k, |s|) && (k > 0 ==> !IsSpace(s[k - 1]))
  {
    k := |s|;
    while k > 0 && IsSpace(s[k - 1])
      invariant k <= |s| && Blanks(s, k, |s|)
    {
      k := k - 1;
    }
  }

  /** Where the text without its outer blanks lies. */
  lemma StripWindow(s: string) returns (k: nat, h: nat)
    ensures k <= h <= |s| && Strip(s) == s[k..h] && Blanks(s, 0, k) && Blanks(s, h, |s|)
    ensures k < h ==> !IsSpace(s[k]) && !IsSpace(s[h - 1])
  {
    k := LeftEdge(s);
    LeftAt(s, k);
    var n := RightEdge(s[k..]);
    RightAt(s[k..], n);
    h := k + n;
    assert s[k..][..n] == s[k..h];
    assert forall i :: h <= i < |s| ==> s[i] == s[k..][i - k];
  }

  /** Stripping one side first makes no difference to stripping both. */
  lemma StripOneSide(s: string)
    ensures Strip(StripLeft(s)) == Strip(s) == Strip(StripRight(s))
  {
    var k := LeftEdge(s);
    var h := RightEdge(s);
    LeftAt(s, k);
    RightAt(s, h);
    LeftAt(s[k..], 0);
    if k < |s| {
      LeftAt(s[..h], k);
      RightAt(s[k..], h - k);
      assert s[..h][k..] == s[k..h] == s[k..][..h - k];
      RightAt(s[k..h], h - k);
    }
  }

  lemma StripTwice(s: string)
    ensures Strip(Strip(s)) == Strip(s)
  {
    var k, h := StripWindow(s);
    LeftAt(s[k..h], 0);
    RightAt(s[k..h], h - k);
  }

  lemma LeftOfPrefix(a: string, rest: string)
    requires rest != "" && !IsSpace(rest[0])
    ensures StripLeft(a + rest) == StripLeft(a) + rest
  {
    var k := LeftEdge(a);
    LeftAt(a, k);
    LeftAt(a + rest, k);
    assert (a + rest)[k..] == a[k..] + rest;
  }

  lemma RightOfSuffix(front: string, b: string)
    requires front != "" && !IsSpace(front[|front| - 1])
    ensures StripRight(front + b) == front + StripRight(b)
  {
    var h := RightEdge(b);
    RightAt(b, h);
    RightAt(front + b, |front| + h);
    assert (front + b)[..|front| + h] == front + b[..h];
  }

  lemma StripParts(s: string, front: string, b: string)
    requires StripLeft(s) == front + b && front != "" && !IsSpace(front[|front| - 1])
    ensures Strip(s) == front + StripRight(b)
  {
    RightOfSuffix(front, b);
  }

  /** Around a minus sign only the outer sides are stripped. */
  lemma StripAround(a: string, b: string)
    ensures Strip(a + ("-" + b)) == StripLeft(a) + ("-" + StripRight(b))
  {
    var left, right := StripLeft(a), StripRight(b);
    LeftOfPrefix(a, "-" + b);
    Regroup(left, "-", b);
    StripParts(a + ("-" + b), left + "-", b);
    Regroup(left, "-", right);
  }

  lemma SameStripped(x: string, y: string)
    requires Strip(x) == Strip(y)
    ensures ParseInt(x) == ParseInt(y)
  {
  }

  lemma {:induction false} DigitsShape(s: string)
    requires ParseDigits(s).Some?
    ensures s != "" && IsDigit(s[|s| - 1]) && '-' !in s
    decreases |s|
  {
    var front := s[..|s| - 1];
    if front != "" {
      var more := if front[|front| - 1] == '_' then front[..|front| - 1] else front;
      DigitsShape(more);
      assert s == front + [s[|s| - 1]];
      assert front == more || front == more + ['_'];
    }
  }

  /** Digits with single underscores between them. */
  predicate WellFormed(s: string) {
    && s != "" && IsDigit(s[0]) && IsDigit(s[|s| - 1])
    && (forall i :: 0 <= i < |s| ==> IsDigit(s[i]) || s[i] == '_')
    && (forall i :: 0 <= i < |s| - 1 ==> s[i] != '_' || s[i + 1] != '_')
  }

  /** The value read from left to right. */
  function Horner(s: string, value: int): int {
    if s == "" then value
    else Horner(s[1..], if IsDigit(s[0]) then 10 * value + (s[0] as int - '0' as int) else value)
  }

  lemma {:induction false} HornerSnoc(s: string, c: char, value: int)
    ensures Horner(s + [c], value) ==
            if IsDigit(c) then 10 * Horner(s, value) + (c as int - '0' as int) else Horner(s, value)
  {
    if s == "" {
      assert s + [c] == [c] && [c][1..] == "";
    } else {
      assert (s + [c])[1..] == s[1..] + [c];
      HornerSnoc(s[1..], c, if IsDigit(s[0]) then 10 * value + (s[0] as int - '0' as int) else value);
    }
  }

  /** The digits before the last one, without the underscore between. */
  function Fore(s: string): (r: string)
    requires |s| > 1
    ensures |r| < |s|
  {
    var front := s[..|s| - 1];
    if front[|front| - 1] == '_' then front[..|front| - 1] else front
  }

  lemma WellFormedStep(s: string)
    requires |s| > 1
    ensures WellFormed(s) <==> IsDigit(s[|s| - 1]) && WellFormed(Fore(s))
  {
    var r := Fore(s);
    assert forall i :: 0 <= i < |r| ==> r[i] == s[i];
    assert |s| - |r| <= 2;
  }

  /** Digits are accepted exactly when well-formed, with the value they have read from the left. */
  lemma {:induction false} DigitsExact(s: string)
    ensures ParseDigits(s).Some? <==> WellFormed(s)
    ensures ParseDigits(s).Some? ==> ParseDigits(s).value == Horner(s, 0)
    decreases |s|
  {
    if |s| == 1 {
      assert s[1..] == "" && s[..0] == "";
    } else if |s| > 1 {
      var r, c := Fore(s), s[|s| - 1];
      DigitsExact(r);
      WellFormedStep(s);
      assert s == s[..|s| - 1] + [c];
      HornerSnoc(s[..|s| - 1], c, 0);
      if s[|s| - 2] == '_' {
        assert s[..|s| - 1] == r + ['_'];
        HornerSnoc(r, '_', 0);
      }
    }
  }

  /** A number in decimal. */
  function Decimal(n: nat): (r: string)
    ensures r != "" && forall i :: 0 <= i < |r| ==> IsDigit(r[i])
  {
    var digit := [('0' as int + n % 10) as char];
    if n < 10 then digit else Decimal(n / 10) + digit
  }

  lemma {:induction false} DecimalDigits(n: nat)
    ensures ParseDigits(Decimal(n)) == Some(n)
  {
    var s := Decimal(n);
    if n < 10 {
      assert s[..0] == "";
    } else {
      DecimalDigits(n / 10);
      assert s[..|s| - 1] == Decimal(n / 10);
    }
  }

  /** A number printed in decimal is read back, with either sign or none, whatever blanks surround it. */
  lemma {:induction false} DecimalReadsBack(n: nat, a: string, b: string)
    requires Blanks(a, 0, |a|) && Blanks(b, 0, |b|)
    ensures ParseInt(a + Decimal(n) + b) == Some(n)
    ensures ParseInt(a + ("+" + Decimal(n)) + b) == Some(n)
    ensures ParseInt(a + ("-" + Decimal(n)) + b) == Some(-(n as int))
  {
    DecimalDigits(n);
    var s := Decimal(n);
    Unpadded(a, s, b);
    Unsigned(a + s + b, s, n);
    Unpadded(a, "+" + s, b);
    Signed(a + ("+" + s) + b, "+", s, n);
    Unpadded(a, "-" + s, b);
    Signed(a + ("-" + s) + b, "-", s, n);
  }

  lemma Unsigned(t: string, s: string, n: nat)
    requires Strip(t) == s && s != "" && IsDigit(s[0]) && ParseDigits(s) == Some(n)
    ensures ParseInt(t) == Some(n)
  {
  }

  lemma Signed(t: string, sign: string, s: string, n: nat)
    requires (sign == "+" || sign == "-") && Strip(t) == sign + s && ParseDigits(s) == Some(n)
    ensures ParseInt(t) == Some(if sign == "-" then -(n as int) else n)
  {
    assert (sign + s)[1..] == s && (sign + s)[0] == sign[0];
  }

  lemma Unpadded(a: string, s: string, b: string)
    requires Blanks(a, 0, |a|) && Blanks(b, 0, |b|) && s != "" && !IsSpace(s[0]) && !IsSpace(s[|s| - 1])
    ensures Strip(a + s + b) == s
  {
    var t := a + s + b;
    LeftAt(t, |a|);
    assert t[|a|..] == s + b;
    RightAt(s + b, |s|);
    assert (s + b)[..|s|] == s;
  }

  /** A text that `int` accepts: blanks up to `k`, then possibly a sign, and a digit at `d`; a
      minus sign stands nowhere but at `k`. */
  lemma NumberShape(v: string) returns (k: nat, d: nat)
    requires ParseInt(v).Some?
    ensures k <= d < |v| && IsDigit(v[d]) && Blanks(v, 0, k) && !IsSpace(v[k])
    ensures forall i :: 0 <= i < |v| && v[i] == '-' ==> i == k
  {
    k := LeftEdge(v);
    LeftAt(v, k);
    var h := RightEdge(v[k..]);
    RightAt(v[k..], h);
    var s := v[k..][..h];
    var signed := s != "" && (s[0] == '+' || s[0] == '-');
    var start := if signed then 1 else 0;
    DigitsShape(s[start..]);
    assert s[start..][h - 1 - start] == s[h - 1] == v[k + h - 1];
    d := k + h - 1;
    forall i | k < i < |v| ensures v[i] != '-' {
      if i < k + h {
        assert v[i] == s[i - k] == s[start..][i - k - start];
      } else {
        assert v[i] == v[k..][i - k];
      }
    }
  }

  /** Blanks are no number. */
  lemma BlankIsNoNumber(v: string)
    requires Blanks(v, 0, |v|)
    ensures ParseInt(v).None?
  {
    if ParseInt(v).Some? { var k, d := NumberShape(v); }
  }

  /** A minus sign after a digit is not part of a number. */
  lemma MinusInside(v: string, d: nat, m: nat)
    requires d < m < |v| && IsDigit(v[d]) && v[m] == '-'
    ensures ParseInt(v).None?
  {
    if ParseInt(v).Some? { var k, last := NumberShape(v); }
  }
}
