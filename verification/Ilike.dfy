/** SQL `ILIKE`: patterns, what they match, and when they mean "contains, ignoring case". */
module Ilike {
  import opened Lexer

  predicate SameLetter(c: char, d: char) { LowerChar(c) == LowerChar(d) }

  /** `text ILIKE pattern`: `%` any text, `_` any character, backslash quotes the next one. */
  predicate Like(pattern: string, text: string)
    decreases |pattern| + |text|
  {
    if pattern == "" then text == ""
    else if pattern[0] == '%' then
      Like(pattern[1..], text) || (text != "" && Like(pattern, text[1..]))
    else if text == "" then false
    else if pattern[0] == '_' then Like(pattern[1..], text[1..])
    else if pattern[0] == '\\' && |pattern| > 1 then
      SameLetter(pattern[1], text[0]) && Like(pattern[2..], text[1..])
    else SameLetter(pattern[0], text[0]) && Like(pattern[1..], text[1..])
  }

  function Around(v: string): string { ['%'] + (v + ['%']) }

  /** `v` occurs at the front of `text`, ignoring case. */
  predicate StartsWith(text: string, v: string)
    decreases v
  {
    v == "" || (text != "" && SameLetter(v[0], text[0]) && StartsWith(text[1..], v[1..]))
  }

  predicate Contains(text: string, v: string) {
    exists k :: 0 <= k <= |text| && StartsWith(text[k..], v)
  }

  predicate NoWildcard(v: string) { forall i :: 0 <= i < |v| ==> v[i] != '%' && v[i] != '_' && v[i] != '\\' }

  lemma {:induction false} LikeRest(text: string)
    ensures Like("%", text)
    decreases text
  {
    if text == "" { assert "%"[1..] == ""; } else { LikeRest(text[1..]); }
  }

  lemma {:induction false} LikePrefix(v: string, text: string)
    requires NoWildcard(v)
    ensures Like(v + ['%'], text) <==> StartsWith(text, v)
    decreases v
  {
    if v == "" {
      assert v + ['%'] == "%";
      LikeRest(text);
    } else {
      var p := v + ['%'];
      assert p[0] == v[0] && p[1..] == v[1..] + ['%'];
      if text != "" { LikePrefix(v[1..], text[1..]); }
    }
  }

  /** A value without wildcard characters matches exactly where it occurs. */
  lemma {:induction false} LikeIsContains(v: string, text: string)
    requires NoWildcard(v)
    ensures Like(Around(v), text) <==> Contains(text, v)
    decreases text
  {
    var p := Around(v);
    assert p[0] == '%' && p[1..] == v + ['%'];
    LikePrefix(v, text);
    assert text[0..] == text;
    if text == "" {
      assert Contains(text, v) <==> StartsWith(text, v);
    } else {
      LikeIsContains(v, text[1..]);
      if Contains(text, v) && !StartsWith(text, v) {
        var k :| 0 <= k <= |text| && StartsWith(text[k..], v);
        assert text[1..][k - 1..] == text[k..];
      }
      if Contains(text[1..], v) {
        var k :| 0 <= k <= |text[1..]| && StartsWith(text[1..][k..], v);
        assert text[k + 1..] == text[1..][k..];
      }
    }
  }

  /** A text that a pattern matches: no character for `%`, an `a` for `_`. */
  function Sample(pattern: string): string
    decreases |pattern|
  {
    if pattern == "" then ""
    else if pattern[0] == '%' then Sample(pattern[1..])
    else if pattern[0] == '_' then ['a'] + Sample(pattern[1..])
    else if pattern[0] == '\\' && |pattern| > 1 then [pattern[1]] + Sample(pattern[2..])
    else [pattern[0]] + Sample(pattern[1..])
  }

  lemma {:induction false} SampleMatches(pattern: string)
    ensures Like(pattern, Sample(pattern))
    decreases |pattern|
  {
    if pattern != "" {
      if pattern[0] == '\\' && |pattern| > 1 {
        SampleMatches(pattern[2..]);
        assert Sample(pattern)[1..] == Sample(pattern[2..]);
      } else {
        SampleMatches(pattern[1..]);
        assert pattern[0] != '%' ==> Sample(pattern)[1..] == Sample(pattern[1..]);
      }
    }
  }

  lemma {:induction false} StartsWithLength(text: string, v: string)
    requires StartsWith(text, v)
    ensures |v| <= |text|
    decreases v
  {
    if v != "" { StartsWithLength(text[1..], v[1..]); }
  }

  lemma {:induction false} SampleAvoids(v: string)
    ensures |Sample(v + ['%'])| <= |v|
    ensures StartsWith(Sample(v + ['%']), v) ==> NoWildcard(v)
    decreases |v|
  {
    var p := v + ['%'];
    var sample := Sample(p);
    if v == "" {
      assert p == "%" && p[1..] == "";
    } else if v[0] == '\\' {
      if |v| == 1 {
        assert p[1] == '%' && p[2..] == "";
      } else {
        SampleAvoids(v[2..]);
        assert p[1] == v[1] && p[2..] == v[2..] + ['%'];
        if StartsWith(sample, v) { StartsWithLength(sample, v); }
      }
    } else {
      SampleAvoids(v[1..]);
      assert p[0] == v[0] && p[1..] == v[1..] + ['%'];
      if v[0] == '%' {
        if StartsWith(sample, v) { StartsWithLength(sample, v); }
      } else if v[0] != '_' {
        assert sample[1..] == Sample(v[1..] + ['%']);
        if StartsWith(sample, v) {
          assert forall i :: 0 < i < |v| ==> v[i] == v[1..][i - 1];
        }
      }
    }
  }

  /** Text filters mean "contains, ignoring case" exactly for values without a wildcard: with
      one, some text matches in which the value does not occur. */
  lemma SubstringIffNoWildcard(v: string)
    ensures (forall text :: Like(Around(v), text) <==> Contains(text, v)) <==> NoWildcard(v)
  {
    if NoWildcard(v) {
      forall text ensures Like(Around(v), text) <==> Contains(text, v) { LikeIsContains(v, text); }
    } else {
      var text := Sample(v + ['%']);
      SampleMatches(v + ['%']);
      SampleAvoids(v);
      assert Around(v)[0] == '%' && Around(v)[1..] == v + ['%'];
      assert Like(Around(v), text);
      assert text[0..] == text;
      if k :| 0 <= k <= |text| && StartsWith(text[k..], v) {
        StartsWithLength(text[k..], v);
      }
      assert !Contains(text, v);
    }
  }

  // ---- what patterns match ------------------------------------------------------------------

  /** No backslash at the end is left without a character to quote. */
  predicate Complete(pattern: string)
    decreases |pattern|
  {
    pattern == "" || if pattern[0] == '\\' then |pattern| > 1 && Complete(pattern[2..]) else Complete(pattern[1..])
  }

  ghost predicate CutsInto(p: string, q: string, text: string) {
    exists k :: 0 <= k <= |text| && Like(p, text[..k]) && Like(q, text[k..])
  }

  /** Two patterns one after the other match exactly the texts that can be cut into a match of each. */
  lemma {:induction false} LikeInTwo(p: string, q: string, text: string)
    requires Complete(p)
    ensures Like(p + q, text) <==> CutsInto(p, q, text)
    decreases |p| + |text|
  {
    if p == "" {
      assert p + q == q && text[..0] == "" && text[0..] == text;
      assert forall k :: 0 <= k <= |text| && Like(p, text[..k]) ==> k == 0;
    } else if p[0] == '%' {
      AnyTextInTwo(p, q, text);
    } else if p[0] == '\\' {
      if text != "" {
        assert (p + q)[1] == p[1] && (p + q)[2..] == p[2..] + q;
        LikeInTwo(p[2..], q, text[1..]);
      }
      OneInTwo(p, p[2..], q, text);
    } else {
      if text != "" {
        assert (p + q)[1..] == p[1..] + q;
        LikeInTwo(p[1..], q, text[1..]);
      }
      OneInTwo(p, p[1..], q, text);
    }
  }

  /** A pattern that begins with one character. */
  lemma {:induction false} OneInTwo(p: string, rest: string, q: string, text: string)
    requires p != "" && p[0] != '%' && rest == if p[0] == '\\' && |p| > 1 then p[2..] else p[1..]
    ensures text == "" ==> !CutsInto(p, q, text)
    ensures text != "" ==>
              (CutsInto(p, q, text) <==> CutsInto(rest, q, text[1..]) && Like(p[..|p| - |rest|], text[..1]))
  {
    if text != "" {
      HeadMatches(p, rest, text);
      forall k | 0 < k <= |text|
        ensures Like(p, text[..k]) <==> Like(rest, text[1..][..k - 1]) && Like(p[..|p| - |rest|], text[..1])
      {
        assert text[..k][1..] == text[1..][..k - 1] && text[..k][..1] == text[..1];
        HeadMatches(p, rest, text[..k]);
      }
      if k :| 0 <= k <= |text| && Like(p, text[..k]) && Like(q, text[k..]) {
        assert k > 0 && text[k..] == text[1..][k - 1..];
      }
      if k :| 0 <= k <= |text[1..]| && Like(rest, text[1..][..k]) && Like(q, text[1..][k..])
              && Like(p[..|p| - |rest|], text[..1]) {
        assert text[1..][k..] == text[k + 1..] && Like(p, text[..k + 1]);
      }
    }
  }

  lemma HeadMatches(p: string, rest: string, text: string)
    requires p != "" && p[0] != '%' && rest == if p[0] == '\\' && |p| > 1 then p[2..] else p[1..]
    requires text != ""
    ensures Like(p, text) <==> Like(p[..|p| - |rest|], text[..1]) && Like(rest, text[1..])
  {
    var head, c := p[..|p| - |rest|], text[..1];
    assert head[0] == p[0] && c[0] == text[0] && c[1..] == "";
    assert |head| == 2 ==> head[1] == p[1] && head[2..] == "";
    assert |head| == 1 ==> head[1..] == "";
  }

  lemma {:induction false} AnyTextInTwo(p: string, q: string, text: string)
    requires p != "" && p[0] == '%' && Complete(p)
    ensures Like(p + q, text) <==> CutsInto(p, q, text)
    decreases |p| + |text|, 0
  {
    assert (p + q)[1..] == p[1..] + q;
    LikeInTwo(p[1..], q, text);
    if text != "" { AnyTextInTwo(p, q, text[1..]); }
    if k :| 0 <= k <= |text| && Like(p[1..], text[..k]) && Like(q, text[k..]) {
      assert Like(p, text[..k]);
    }
    if text != "" && CutsInto(p, q, text[1..]) {
      var k :| 0 <= k <= |text[1..]| && Like(p, text[1..][..k]) && Like(q, text[1..][k..]);
      assert text[..k + 1][1..] == text[1..][..k] && text[k + 1..] == text[1..][k..];
      assert Like(p, text[..k + 1]);
    }
    if k :| 0 <= k <= |text| && Like(p, text[..k]) && Like(q, text[k..]) && !Like(p[1..], text[..k]) {
      assert text[..k][1..] == text[1..][..k - 1] && text[k..] == text[1..][k - 1..];
    }
  }

  /** The pieces of a pattern: `%` matches every text, `_` every single character, and a backslash
      and its character, or any other character, itself in either case. */
  lemma LikePiece(c: char, text: string)
    ensures Like("%", text)
    ensures Like("_", text) <==> |text| == 1
    ensures Like(['\\', c], text) <==> |text| == 1 && LowerChar(text[0]) == LowerChar(c)
    ensures c != '%' && c != '_' ==> (Like([c], text) <==> |text| == 1 && LowerChar(text[0]) == LowerChar(c))
  {
    LikeRest(text);
    assert "_"[1..] == "" && ['\\', c][2..] == "" && [c][1..] == "";
  }

  lemma {:induction false} StartsWithIs(text: string, v: string)
    ensures StartsWith(text, v) <==> |v| <= |text| && LowerText(text[..|v|]) == LowerText(v)
    decreases v
  {
    if v == "" {
      assert text[..0] == "";
    } else if text != "" {
      StartsWithIs(text[1..], v[1..]);
      if |v| <= |text| {
        var m := text[..|v|];
        assert m[1..] == text[1..][..|v| - 1] && m[0] == text[0];
        assert LowerText(m)[0] == LowerChar(m[0]) && LowerText(m)[1..] == LowerText(m[1..]);
        assert LowerText(v)[0] == LowerChar(v[0]) && LowerText(v)[1..] == LowerText(v[1..]);
      }
    }
  }

  /** The text between two others has the same letters as `v`. */
  ghost predicate Between(text: string, a: string, m: string, b: string, v: string) {
    text == a + m + b && LowerText(m) == LowerText(v)
  }

  lemma InThree(text: string, k: nat, n: nat)
    requires k + n <= |text|
    ensures text == text[..k] + text[k..][..n] + text[k..][n..]
  {
  }

  lemma OccursAt(text: string, v: string, k: nat)
    requires k <= |text| && StartsWith(text[k..], v)
    ensures |v| <= |text[k..]| && Between(text, text[..k], text[k..][..|v|], text[k..][|v|..], v)
  {
    var rest := text[k..];
    StartsWithIs(rest, v);
    InThree(text, k, |v|);
  }

  lemma BetweenOccurs(text: string, a: string, m: string, b: string, v: string)
    requires Between(text, a, m, b, v)
    ensures |a| <= |text| && StartsWith(text[|a|..], v)
  {
    LowerTextIs(m);
    LowerTextIs(v);
    assert text[|a|..] == m + b && (m + b)[..|v|] == m;
    StartsWithIs(text[|a|..], v);
  }

  /** Containment ignores case and nothing else. */
  lemma ContainsIs(text: string, v: string)
    ensures Contains(text, v) <==> exists a, m, b :: Between(text, a, m, b, v)
  {
    if Contains(text, v) {
      var k :| 0 <= k <= |text| && StartsWith(text[k..], v);
      OccursAt(text, v, k);
    }
    if a, m, b :| Between(text, a, m, b, v) { BetweenOccurs(text, a, m, b, v); }
  }
}
