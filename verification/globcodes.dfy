/** Glob patterns by their character codes: 42 is `*`, 63 is `?`, 92 is a backslash, 91
    and 93 are the brackets of a class, 45 is the dash of a range and 33 the complement. */
module GlobCodes {
  import opened Values
  import opened Glob

  /** Characters that stand for themselves outside a class. */
  predicate Plain(p: Text) {
    forall i :: 0 <= i < |p| ==> p[i] != 42 && p[i] != 63 && p[i] != 91 && p[i] != 92
  }

  /** The matcher's answer for s and pattern p can only be b. */
  ghost predicate Decides(s: Text, p: Text, b: bool) {
    !ReadsPast(s, Tokens(p)) && (Matches(s, Tokens(p)) <==> b)
  }

  lemma AnswerIs(s: Text, p: Text, b: bool, r: Option<bool>)
    requires Decides(s, p, b)
    ensures Answers(s, Tokens(p), r) <==> r == Some(b)
  {
  }

  /** Plain text in front of a pattern has to be in front of the string. */
  lemma {:induction false} PlainFirst(s: Text, p: Text, q: Text, b: bool)
    requires Plain(p) && (p <= s ==> Decides(s[|p|..], q, b))
    ensures Decides(s, p + q, p <= s && b)
    decreases |p|
  {
    if p == [] {
      assert p + q == q && s[0..] == s;
    } else {
      assert (p + q)[1..] == p[1..] + q;
      assert NextTok(p + q) == (Lit(p[0]), p[1..] + q);
      var ts := Tokens(p + q);
      assert ts == [Lit(p[0])] + Tokens(p[1..] + q);
      assert ts[1..] == Tokens(p[1..] + q);
      if s != [] && s[0] == p[0] {
        assert p <= s <==> p[1..] <= s[1..] by {
          if p[1..] <= s[1..] { assert p == [p[0]] + p[1..] && s == [s[0]] + s[1..]; }
        }
        if p <= s { assert s[1..][|p[1..]|..] == s[|p|..]; }
        PlainFirst(s[1..], p[1..], q, b);
      }
    }
  }

  /** One token at the end. */
  lemma LastToken(s: Text, q: Text, t: Tok)
    requires q != [] && NextTok(q) == (t, []) && !t.Star? && !t.Open? && !t.Cut?
    ensures Decides(s, q, |s| == 1 && TokMatches(t, s[0]))
  {
    assert Tokens(q) == [t] + Tokens([]);
    assert Tokens(q)[1..] == [];
    if s != [] { assert s[1..] == [] <==> |s| == 1; }
  }

  /** `p*` matches the strings that start with p. */
  lemma StarCode(s: Text, p: Text)
    requires Plain(p)
    ensures Decides(s, p + [42], p <= s)
  {
    if p <= s {
      var q: Text := [42];
      assert NextTok(q) == (Star, []);
      assert Tokens(q) == [Star] + Tokens([]);
      assert Tokens(q) == [Star];
      StarAlone(s[|p|..]);
    }
    PlainFirst(s, p, [42], true);
  }

  /** `p?` matches p and one more character. */
  lemma QueryCode(s: Text, p: Text)
    requires Plain(p)
    ensures Decides(s, p + [63], |s| == |p| + 1 && p <= s)
  {
    if p <= s { LastToken(s[|p|..], [63], Any); }
    PlainFirst(s, p, [63], |s| == |p| + 1);
  }

  /** A backslash takes its meaning from any character. */
  lemma EscapeCode(s: Text, p: Text, c: Ch)
    requires Plain(p)
    ensures Decides(s, p + [92, c], s == p + [c])
  {
    var q: Text := [92, c];
    if p <= s {
      assert NextTok(q) == (Lit(c), []);
      LastToken(s[|p|..], q, Lit(c));
      assert s == p + s[|p|..];
    }
    PlainFirst(s, p, q, s == p + [c]);
  }

  /** Plain text matches itself. */
  lemma PlainCode(s: Text, p: Text)
    requires Plain(p)
    ensures Decides(s, p, s == p)
  {
    if p <= s {
      assert Tokens([]) == [];
      assert s == p + s[|p|..];
      assert Decides(s[|p|..], [], s == p);
    }
    PlainFirst(s, p, [], s == p);
    assert p + [] == p;
  }

  /** `p*q` matches the strings that start with p and end with q, one behind the other. */
  lemma StarBetween(s: Text, p: Text, q: Text)
    requires Plain(p) && Plain(q)
    ensures Decides(s, p + ([42] + q), p <= s && |s| >= |p| + |q| && s[|s| - |q|..] == q)
  {
    var d := |s| >= |p| + |q| && s[|s| - |q|..] == q;
    if p <= s {
      var r := s[|p|..];
      StarThen(r, q);
      if |r| >= |q| { assert r[|r| - |q|..] == s[|s| - |q|..]; }
    }
    PlainFirst(s, p, [42] + q, d);
  }

  lemma StarThen(r: Text, q: Text)
    requires Plain(q)
    ensures Decides(r, [42] + q, |r| >= |q| && r[|r| - |q|..] == q)
  {
    assert ([42] + q)[1..] == q;
    var ts := Tokens([42] + q);
    assert ts == [Star] + Tokens(q) && ts[1..] == Tokens(q);
    assert q != [] ==> Tokens(q)[0] == Lit(q[0]);
    forall k | 0 <= k <= |r|
      ensures !ReadsPast(r[k..], ts[1..]) && (Matches(r[k..], ts[1..]) <==> r[k..] == q)
    {
      PlainCode(r[k..], q);
    }
    if |r| >= |q| && r[|r| - |q|..] == q { assert Matches(r[|r| - |q|..], ts[1..]); }
    if k :| 0 <= k <= |r| && r[k..] == q { assert k == |r| - |q|; }
  }

  // -- Classes --------------------------------------------------------------------------------------

  /** A class with its brackets. */
  function ClassText(neg: bool, b: Text): Text {
    [91] + (if neg then [33] else []) + b + [93]
  }

  /** The body of a class: it has no bracket behind its first character, and does not
      start with the complement sign unless that is there already. */
  predicate IsBody(neg: bool, b: Text) {
    b != [] && (neg || b[0] != 33) && forall i :: 1 <= i < |b| ==> b[i] != 93
  }

  lemma ClassIs(neg: bool, b: Text)
    requires IsBody(neg, b)
    ensures NextTok(ClassText(neg, b)) == (Class(neg, b), [])
  {
    var t := ClassText(neg, b)[1..];
    var d := b + [93];
    assert t == (if neg then [33] else []) + d;
    assert Glob.Body(t) == d;
    CloseIs(d, 1, |b|);
    assert d[..|b|] == b && d[|b| + 1..] == [];
  }

  lemma ClassCode(s: Text, p: Text, neg: bool, b: Text)
    requires Plain(p) && IsBody(neg, b)
    ensures Decides(s, p + ClassText(neg, b), p <= s && |s| == |p| + 1 && TokMatches(Class(neg, b), s[|p|]))
  {
    hide Decides, TokMatches;
    var q := ClassText(neg, b);
    var d := p <= s && |s| == |p| + 1 && TokMatches(Class(neg, b), s[|p|]);
    if p <= s {
      ClassIs(neg, b);
      LastToken(s[|p|..], q, Class(neg, b));
    }
    PlainFirst(s, p, q, d);
  }

  /** `p[x-y]` and `p[!x-y]`. A range the wrong way round has its first character only,
      and its complement has none. */
  lemma RangeCode(s: Text, p: Text, neg: bool, x: Ch, y: Ch)
    requires Plain(p) && (neg || x != 33) && y != 93
    ensures var c := if s == [] then 1 else s[|s| - 1];
            Decides(s, p + [91] + (if neg then [33] else []) + [x, 45, y, 93],
                    && p <= s && |s| == |p| + 1
                    && if neg then x <= y && !(x <= c <= y) else c == x || x <= c <= y)
  {
    var b: Text := [x, 45, y];
    ClassCode(s, p, neg, b);
    assert p + ClassText(neg, b) == p + [91] + (if neg then [33] else []) + [x, 45, y, 93];
    assert Items(b, 3) == [];
    assert Items(b, 1) == [(x, y)] + [];
    assert ItemsOf(b) == [(x, x), (x, y)];
    if s != [] { RangeIs(b, x, y, s[|s| - 1]); }
  }

  lemma RangeIs(b: Text, x: Ch, y: Ch, c: Ch)
    requires b != [] && ItemsOf(b) == [(x, x), (x, y)]
    ensures TokMatches(Class(false, b), c) <==> c == x || x <= c <= y
    ensures TokMatches(Class(true, b), c) <==> x <= y && !(x <= c <= y)
  {
    var rs := ItemsOf(b);
    if c == x { assert Covers(rs[0], c); }
    if x <= c <= y { assert Covers(rs[1], c); }
    assert x > y ==> Broken(rs[1]);
  }

  /** `p[abc]` and `p[!abc]`: the characters themselves. */
  lemma SetCode(s: Text, p: Text, neg: bool, b: Text)
    requires Plain(p) && IsBody(neg, b) && forall i :: 1 <= i < |b| ==> b[i] != 45
    ensures Decides(s, p + [91] + (if neg then [33] else []) + b + [93],
                    p <= s && |s| == |p| + 1 && (s[|p|] in b) != neg)
  {
    ClassCode(s, p, neg, b);
    assert p + ClassText(neg, b) == p + [91] + (if neg then [33] else []) + b + [93];
    if |s| == |p| + 1 { SetIs(neg, b, s[|p|]); }
  }

  lemma SetIs(neg: bool, b: Text, c: Ch)
    requires b != [] && forall i :: 1 <= i < |b| ==> b[i] != 45
    ensures TokMatches(Class(neg, b), c) <==> (c in b) != neg
  {
    var rs := ItemsOf(b);
    SinglesAre(b, 1);
    assert forall i :: 0 <= i < |b| ==> rs[i] == (b[i], b[i]);
    if c in b {
      var i :| 0 <= i < |b| && b[i] == c;
      assert Covers(rs[i], c);
    }
  }

  lemma {:induction false} SinglesAre(b: Text, i: nat)
    requires 1 <= i <= |b| && forall j :: 1 <= j < |b| ==> b[j] != 45
    ensures |Items(b, i)| == |b| - i && forall j :: i <= j < |b| ==> Items(b, i)[j - i] == (b[j], b[j])
    decreases |b| - i
  {
    if i < |b| { SinglesAre(b, i + 1); }
  }
}
