/** Glob patterns: the backtracking matcher against what patterns mean. */
module Glob {
  import opened Values

  // -- Characters --------------------------------------------------------------------------------

  /** A signed char that does not end a string. */
  type Ch = x: int | -128 <= x < 128 && x != 0 witness 1

  type Text = seq<Ch>

  const STAR: Ch := 42
  const QUERY: Ch := 63
  const OPEN: Ch := 91
  const CLOSE: Ch := 93
  const BANG: Ch := 33
  const DASH: Ch := 45
  const BACKSLASH: Ch := 92

  // -- Patterns as tokens ---------------------------------------------------------------------

  /** A class keeps the text between its brackets. Never is a class without an end or a
      backslash at the end. At the last two the matcher may read on past the end of the
      pattern: Open is an opening bracket, or one with its complement sign, that ends the
      pattern, and Cut a class cut off behind a dash, with the text before the dash. */
  datatype Tok = Star | Any | Lit(c: Ch) | Class(neg: bool, body: Text) | Never | Open | Cut(body: Text)

  /** First closing bracket from index i on. */
  function Close(t: Text, i: nat): (k: nat)
    ensures k <= |t| || k == i
    ensures i <= |t| ==> i <= k <= |t|
    decreases |t| - i
  {
    if i >= |t| || t[i] == CLOSE then i else Close(t, i + 1)
  }

  /** The text of a class without its complement sign. */
  function Body(t: Text): Text {
    if t != [] && t[0] == BANG then t[1..] else t
  }

  /** Reading ranges from index i on, the last character is a dash that starts one. */
  predicate DashLast(b: Text, i: nat)
    decreases |b| - i
  {
    if i >= |b| then false
    else if b[i] == DASH then i + 1 == |b| || DashLast(b, i + 2)
    else DashLast(b, i + 1)
  }

  /** A range up to the end of the text is not broken if it starts below zero. */
  predicate IsCut(b: Text) {
    |b| >= 2 && DashLast(b, 1) && b[|b| - 2] < 0
  }

  /** The class behind an opening bracket; its first character may be a bracket. */
  function ClassTok(t: Text): (r: (Tok, Text))
    ensures |r.1| <= |t|
  {
    var b := Body(t);
    if b == [] then (Open, [])
    else
      var k := Close(b, 1);
      if k < |b| then (Class(b != t, b[..k]), b[k + 1..])
      else if IsCut(b) then (Cut(b[..|b| - 1]), [])
      else (Never, [])
  }

  /** The first token of a pattern and what is left. */
  function NextTok(p: Text): (r: (Tok, Text))
    requires p != []
    ensures |r.1| < |p|
  {
    if p[0] == STAR then (Star, p[1..])
    else if p[0] == QUERY then (Any, p[1..])
    else if p[0] == OPEN then ClassTok(p[1..])
    else if p[0] == BACKSLASH then if |p| == 1 then (Never, []) else (Lit(p[1]), p[2..])
    else (Lit(p[0]), p[1..])
  }

  function Tokens(p: Text): seq<Tok>
    decreases |p|
  {
    if p == [] then [] else [NextTok(p).0] + Tokens(NextTok(p).1)
  }

  // -- What patterns mean -----------------------------------------------------------------------

  /** A class is a list of ranges; a character is a range of one. */
  function Items(body: Text, i: nat): seq<(Ch, Ch)>
    requires 0 < i
    decreases |body| - i
  {
    if i >= |body| then []
    else if body[i] == DASH && i + 1 < |body| then [(body[i - 1], body[i + 1])] + Items(body, i + 2)
    else [(body[i], body[i])] + Items(body, i + 1)
  }

  function ItemsOf(body: Text): seq<(Ch, Ch)>
    requires body != []
  {
    [(body[0], body[0])] + Items(body, 1)
  }

  predicate Covers(r: (Ch, Ch), c: Ch) {
    r.0 <= c <= r.1
  }

  predicate Broken(r: (Ch, Ch)) {
    r.0 > r.1
  }

  /** Some range has c, and no broken range comes before. */
  ghost predicate InClass(rs: seq<(Ch, Ch)>, c: Ch) {
    exists k :: 0 <= k < |rs| && Covers(rs[k], c) && forall j :: 0 <= j < k ==> !Broken(rs[j])
  }

  /** No range has c, and none is broken. */
  ghost predicate NotInClass(rs: seq<(Ch, Ch)>, c: Ch) {
    forall k :: 0 <= k < |rs| ==> !Covers(rs[k], c) && !Broken(rs[k])
  }

  ghost predicate TokMatches(t: Tok, c: Ch) {
    match t
    case Star => false
    case Any => true
    case Lit(x) => c == x
    case Class(neg, body) => body != [] && if neg then NotInClass(ItemsOf(body), c) else InClass(ItemsOf(body), c)
    case Never => false
    case Open => false
    case Cut(_) => false
  }

  /** A star stands for any stretch, every other token for one character. */
  ghost predicate Matches(s: Text, ts: seq<Tok>)
    decreases |ts|
  {
    if ts == [] then s == []
    else if ts[0].Star? then exists k :: 0 <= k <= |s| && Matches(s[k..], ts[1..])
    else s != [] && TokMatches(ts[0], s[0]) && Matches(s[1..], ts[1..])
  }

  // -- Broken patterns -------------------------------------------------------------------------------

  ghost predicate BrokenBody(body: Text) {
    body != [] && exists k :: 0 <= k < |ItemsOf(body)| && Broken(ItemsOf(body)[k])
  }

  /** A token that is not well-formed. */
  ghost predicate BrokenTok(t: Tok) {
    t.Never? || t.Open? || t.Cut? || (t.Class? && BrokenBody(t.body))
  }

  ghost predicate BrokenPattern(p: Text) {
    exists i :: 0 <= i < |Tokens(p)| && BrokenTok(Tokens(p)[i])
  }

  ghost predicate InSome(rs: seq<(Ch, Ch)>, c: Ch) {
    exists k :: 0 <= k < |rs| && Covers(rs[k], c)
  }

  /** Every character is in some range. */
  ghost predicate CoversAll(body: Text) {
    body != [] && forall c: Ch :: InSome(ItemsOf(body), c)
  }

  /** No character passes the token: it has no end, or it is a complemented class with a
      broken range or with all characters. */
  ghost predicate Refuses(t: Tok) {
    t.Never? || t.Open? || t.Cut? || (t.Class? &&
        (t.body == [] || (t.neg && (BrokenBody(t.body) || CoversAll(t.body)))))
  }

  lemma RefusesIs(t: Tok)
    ensures Refuses(t) <==> !t.Star? && forall c: Ch :: !TokMatches(t, c)
  {
    hide ItemsOf, BrokenBody, CoversAll;
    if t.Lit? { assert TokMatches(t, t.c); }
    if t.Any? { assert TokMatches(t, 1); }
    if t.Class? && t.body != [] { ClassRefuses(t.neg, t.body); }
  }

  lemma ClassRefuses(neg: bool, body: Text)
    requires body != []
    ensures (forall c: Ch :: !TokMatches(Class(neg, body), c)) <==> neg && (BrokenBody(body) || CoversAll(body))
  {
    hide Items, Covers;
    var rs := ItemsOf(body);
    if !neg {
      FirstIn(body);
      assert TokMatches(Class(neg, body), body[0]);
    } else {
      forall c: Ch
        ensures TokMatches(Class(neg, body), c) <==> !BrokenBody(body) && !InSome(rs, c)
      {
      }
      if !BrokenBody(body) && !CoversAll(body) {
        var c: Ch :| !InSome(rs, c);
        assert TokMatches(Class(neg, body), c);
      }
    }
  }

  lemma FirstIn(body: Text)
    requires body != []
    ensures InClass(ItemsOf(body), body[0])
  {
    hide Items;
    assert Covers(ItemsOf(body)[0], body[0]);
  }

  ghost predicate MatchesNone(ts: seq<Tok>) {
    forall s: Text :: !Matches(s, ts)
  }

  ghost predicate SomeRefuses(ts: seq<Tok>) {
    exists i :: 0 <= i < |ts| && Refuses(ts[i])
  }

  lemma SomeRefusesStep(ts: seq<Tok>)
    requires ts != []
    ensures SomeRefuses(ts) <==> Refuses(ts[0]) || SomeRefuses(ts[1..])
  {
    hide Refuses;
    var rest := ts[1..];
    if SomeRefuses(rest) {
      var i :| 0 <= i < |rest| && Refuses(rest[i]);
      assert Refuses(ts[i + 1]);
    }
    if SomeRefuses(ts) && !Refuses(ts[0]) {
      var i :| 0 <= i < |ts| && Refuses(ts[i]);
      assert Refuses(rest[i - 1]);
    }
  }

  /** A pattern matches no string if and only if some token refuses every character. */
  lemma {:induction false} NeverMatches(ts: seq<Tok>)
    ensures MatchesNone(ts) <==> SomeRefuses(ts)
    decreases |ts|
  {
    hide Refuses, TokMatches, SomeRefuses;
    if ts == [] {
      assert Matches([], ts);
      NoneRefuses();
    } else {
      var rest := ts[1..];
      NeverMatches(rest);
      RefusesIs(ts[0]);
      SomeRefusesStep(ts);
      if MatchesNone(rest) || Refuses(ts[0]) {
        forall s: Text
          ensures !Matches(s, ts)
        {
          if !ts[0].Star? && s != [] { assert !TokMatches(ts[0], s[0]) || !Matches(s[1..], rest); }
        }
      } else {
        var s: Text :| Matches(s, rest);
        if ts[0].Star? {
          assert s[0..] == s;
          assert Matches(s, ts);
        } else {
          var c: Ch :| TokMatches(ts[0], c);
          assert ([c] + s)[1..] == s;
          assert Matches([c] + s, ts);
        }
      }
    }
  }

  lemma NoneRefuses()
    ensures !SomeRefuses([])
  {
  }

  lemma {:induction false} BodiesNotEmpty(p: Text, i: nat)
    requires i < |Tokens(p)| && Tokens(p)[i].Class?
    ensures Tokens(p)[i].body != []
    decreases |p|
  {
    if i > 0 { BodiesNotEmpty(NextTok(p).1, i - 1); }
  }

  /** The promise that a broken pattern never matches, and exactly when it holds: it does if
      a token has no end or a complemented class is broken. If only uncomplemented classes
      are broken, it does exactly if some complemented class has all characters. */
  lemma BrokenPatternRefused(p: Text)
    requires BrokenPattern(p)
    ensures var ts := Tokens(p);
            MatchesNone(ts) <==>
            || (exists i :: 0 <= i < |ts| && BrokenTok(ts[i]) && !(ts[i].Class? && !ts[i].neg))
            || (exists i :: 0 <= i < |ts| && ts[i].Class? && ts[i].neg && CoversAll(ts[i].body))
  {
    hide Tokens, MatchesNone, CoversAll, BrokenBody;
    var ts := Tokens(p);
    NeverMatches(ts);
    if SomeRefuses(ts) {
      var i :| 0 <= i < |ts| && Refuses(ts[i]);
      if ts[i].Class? { BodiesNotEmpty(p, i); }
    }
    if i :| 0 <= i < |ts| && BrokenTok(ts[i]) && !(ts[i].Class? && !ts[i].neg) {
      assert Refuses(ts[i]);
    }
    if i :| 0 <= i < |ts| && ts[i].Class? && ts[i].neg && CoversAll(ts[i].body) {
      assert Refuses(ts[i]);
    }
  }

  /** A broken pattern that matches: "[cz-a]" and "c". */
  lemma BrokenPatternMatches()
    ensures var p: Text := [OPEN, 99, 122, DASH, 97, CLOSE]; BrokenPattern(p) && Matches([99], Tokens(p))
  {
    var body: Text, p: Text := [99, 122, DASH, 97], [OPEN, 99, 122, DASH, 97, CLOSE];
    assert Items(body, 2) == [(122, 97)] + Items(body, 4);
    assert ItemsOf(body) == [(99, 99), (122, 122), (122, 97)];
    var t: Text := [99, 122, DASH, 97, CLOSE];
    assert p[1..] == t && Body(t) == t;
    CloseIs(t, 1, 4);
    assert t[..4] == body && t[5..] == [];
    assert ClassTok(t) == (Class(false, body), []);
    assert Tokens(p) == [Class(false, body)];
    assert Broken(ItemsOf(body)[2]);
    assert BrokenTok(Tokens(p)[0]);
    assert Covers(ItemsOf(body)[0], 99);
    assert TokMatches(Class(false, body), 99);
    assert Matches([], []);
  }

  /** A complemented class of everything from 1 to 255 refuses every character: the range
      goes from 1 to -1 and is broken. */
  lemma AllBytesRefused()
    ensures BrokenBody([1, DASH, -1]) && Refuses(Class(true, [1, DASH, -1]))
  {
    var body: Text := [1, DASH, -1];
    assert Items(body, 1) == [(1, -1)] + Items(body, 3);
    assert Broken(ItemsOf(body)[1]);
  }

  // -- Reading past the end -----------------------------------------------------------------------------

  /** With this character the matcher steps over the end of the pattern: the class has
      nothing behind its bracket, or ends in a dash and has not been decided before it. */
  ghost predicate PastTok(t: Tok, c: Ch) {
    || t.Open?
    || (t.Cut? && t.body != [] && NotInClass(ItemsOf(t.body), c) && !(t.body[|t.body| - 1] <= c < 0))
  }

  /** The matcher comes to such a token with such a character. Of the places a star can
      reach, those before a match are tried. */
  ghost predicate ReadsPast(s: Text, ts: seq<Tok>)
    decreases |ts|
  {
    if ts == [] || s == [] then false
    else if ts[0].Star? then
      if |ts| > 1 && ts[1].Star? then ReadsPast(s, ts[1..])
      else exists i :: 0 <= i < |s| && ReadsPast(s[i..], ts[1..]) && forall k :: 0 <= k < i ==>
          !Matches(s[k..], ts[1..])
    else PastTok(ts[0], s[0]) || (TokMatches(ts[0], s[0]) && ReadsPast(s[1..], ts[1..]))
  }

  ghost predicate PastSome(t: Tok) {
    exists c: Ch :: PastTok(t, c)
  }

  /** Some string gets past the end: all tokens before can match. */
  ghost predicate CanPast(ts: seq<Tok>) {
    exists i :: 0 <= i < |ts| && PastSome(ts[i]) && forall j :: 0 <= j < i ==> !Refuses(ts[j])
  }

  lemma CanPastStep(ts: seq<Tok>)
    requires ts != []
    ensures CanPast(ts) <==> PastSome(ts[0]) || (!Refuses(ts[0]) && CanPast(ts[1..]))
  {
    hide PastSome, Refuses;
    var rest := ts[1..];
    if !Refuses(ts[0]) && CanPast(rest) {
      var i :| 0 <= i < |rest| && PastSome(rest[i]) && forall j :: 0 <= j < i ==> !Refuses(rest[j]);
      forall j | 0 <= j < i + 1
        ensures !Refuses(ts[j])
      {
        if j > 0 { assert ts[j] == rest[j - 1]; }
      }
      assert PastSome(ts[i + 1]);
    }
    if CanPast(ts) && !PastSome(ts[0]) {
      var i :| 0 <= i < |ts| && PastSome(ts[i]) && forall j :: 0 <= j < i ==> !Refuses(ts[j]);
      assert PastSome(rest[i - 1]) && forall j :: 0 <= j < i - 1 ==> !Refuses(rest[j]);
    }
  }

  /** There is a string for which the matcher reads past the end of the pattern exactly if
      it can come to a class that is cut off. */
  lemma {:induction false} PastExactly(ts: seq<Tok>)
    ensures (exists s: Text :: ReadsPast(s, ts)) <==> CanPast(ts)
    decreases |ts|
  {
    hide Refuses, TokMatches, CanPast, PastTok, Matches;
    if ts == [] {
      NonePast();
    } else {
      var rest := ts[1..];
      PastExactly(rest);
      CanPastStep(ts);
      RefusesIs(ts[0]);
      StarNeverPast(ts[0]);
      if s: Text :| ReadsPast(s, ts) {
        PastSplit(s, ts);
      }
      if CanPast(ts) {
        PastJoin(ts);
      }
    }
  }

  /** Only a pattern with a class that is cut off makes it read past the end. */
  lemma PastOpen(s: Text, ts: seq<Tok>)
    requires ReadsPast(s, ts)
    ensures exists i :: 0 <= i < |ts| && (ts[i].Open? || ts[i].Cut?)
  {
    PastExactly(ts);
    assert CanPast(ts) by { assert ReadsPast(s, ts); }
    var i :| 0 <= i < |ts| && PastSome(ts[i]);
  }

  lemma NonePast()
    ensures !CanPast([])
  {
  }

  lemma StarNeverPast(t: Tok)
    ensures t.Star? ==> !PastSome(t)
  {
  }

  lemma PastSplit(s: Text, ts: seq<Tok>)
    requires ts != [] && ReadsPast(s, ts)
    ensures PastSome(ts[0]) || ((ts[0].Star? || exists c: Ch :: TokMatches(ts[0], c)) &&
              exists r: Text :: ReadsPast(r, ts[1..]))
  {
    hide TokMatches, PastTok, Matches;
    var rest := ts[1..];
    if ts[0].Star? {
      if |ts| > 1 && ts[1].Star? {
        assert ReadsPast(s, rest);
      } else {
        var i :| 0 <= i < |s| && ReadsPast(s[i..], rest);
        var r: Text := s[i..];
        assert ReadsPast(r, rest);
      }
    } else if PastTok(ts[0], s[0]) {
      assert PastSome(ts[0]);
    } else {
      assert TokMatches(ts[0], s[0]) && ReadsPast(s[1..], rest);
    }
  }

  lemma PastJoin(ts: seq<Tok>)
    requires ts != []
    requires PastSome(ts[0]) || ((ts[0].Star? || exists c: Ch :: TokMatches(ts[0], c)) &&
               exists r: Text :: ReadsPast(r, ts[1..]))
    ensures exists s: Text :: ReadsPast(s, ts)
  {
    hide TokMatches, PastTok, Matches;
    var rest := ts[1..];
    StarNeverPast(ts[0]);
    if PastSome(ts[0]) {
      var c: Ch :| PastTok(ts[0], c);
      assert ReadsPast([c], ts);
    } else {
      var r: Text :| ReadsPast(r, rest);
      if ts[0].Star? {
        assert r[0..] == r;
        assert ReadsPast(r, ts);
      } else {
        var c: Ch :| TokMatches(ts[0], c);
        assert ([c] + r)[1..] == r;
        assert ReadsPast([c] + r, ts);
      }
    }
  }

  // -- Character classes -----------------------------------------------------------------------------

  lemma {:induction false} CloseIs(t: Text, i: nat, k: nat)
    requires i <= k <= |t| && (k < |t| ==> t[k] == CLOSE) && forall j :: i <= j < k ==> t[j] != CLOSE
    ensures Close(t, i) == k
    decreases k - i
  {
    if i < k { CloseIs(t, i + 1, k); }
  }

  lemma {:induction false} CloseFirst(t: Text, i: nat)
    requires i <= |t|
    ensures var k := Close(t, i); (k < |t| ==> t[k] == CLOSE) && forall j :: i <= j < k ==> t[j] != CLOSE
    decreases |t| - i
  {
    if i < |t| && t[i] != CLOSE { CloseFirst(t, i + 1); }
  }

  /** How a scan over ranges ends. */
  datatype Scan = Yes | No | Bad

  function ScanItems(rs: seq<(Ch, Ch)>, c: Ch): Scan {
    if rs == [] then No
    else if Covers(rs[0], c) then Yes
    else if Broken(rs[0]) then Bad
    else ScanItems(rs[1..], c)
  }

  lemma {:induction false} ScanIs(rs: seq<(Ch, Ch)>, c: Ch)
    ensures ScanItems(rs, c).Yes? <==> InClass(rs, c)
    ensures ScanItems(rs, c).No? <==> NotInClass(rs, c)
  {
    if rs != [] {
      var rest := rs[1..];
      ScanIs(rest, c);
      if InClass(rest, c) && !Broken(rs[0]) {
        var k :| 0 <= k < |rest| && Covers(rest[k], c) && forall j :: 0 <= j < k ==> !Broken(rest[j]);
        assert Covers(rs[k + 1], c) && forall j :: 0 <= j < k + 1 ==> !Broken(rs[j]);
      }
      if InClass(rs, c) && !Covers(rs[0], c) {
        var k :| 0 <= k < |rs| && Covers(rs[k], c) && forall j :: 0 <= j < k ==> !Broken(rs[j]);
        assert Covers(rest[k - 1], c) && forall j :: 0 <= j < k - 1 ==> !Broken(rest[j]);
      }
      assert NotInClass(rs, c) <==> !Covers(rs[0], c) && !Broken(rs[0]) && NotInClass(rest, c) by {
        if !Covers(rs[0], c) && !Broken(rs[0]) && NotInClass(rest, c) {
          forall k | 0 <= k < |rs|
            ensures !Covers(rs[k], c) && !Broken(rs[k])
          {
            if k > 0 { assert rs[k] == rest[k - 1]; }
          }
        }
      }
    }
  }

  /** The rest of a scan from index i of the class text. */
  lemma ScanStep(body: Text, i: nat, c: Ch)
    requires 0 < i < |body|
    ensures ScanItems(Items(body, i), c) ==
            if body[i] == DASH && i + 1 < |body| then
              if body[i - 1] <= c <= body[i + 1] then Yes
              else if body[i - 1] > body[i + 1] then Bad
              else ScanItems(Items(body, i + 2), c)
            else if body[i] == c then Yes else ScanItems(Items(body, i + 1), c)
  {
    var rs := Items(body, i);
    assert rs[1..] == Items(body, if body[i] == DASH && i + 1 < |body| then i + 2 else i + 1);
  }

  lemma ScanStart(body: Text, c: Ch)
    requires body != []
    ensures ScanItems(ItemsOf(body), c) == if body[0] == c then Yes else ScanItems(Items(body, 1), c)
  {
    assert ItemsOf(body)[1..] == Items(body, 1);
  }

  /** Up to a dash at the end, the text and the text without the dash are read alike. */
  lemma DashStep(b: Text, i: nat, c: Ch)
    requires 0 < i < |b| - 1 && DashLast(b, i)
    ensures var body := b[..|b| - 1];
            && (b[i] == DASH ==> i + 2 < |b| && DashLast(b, i + 2) && body[i + 1] == b[i + 1])
            && (b[i] != DASH ==> DashLast(b, i + 1))
            && ScanItems(Items(body, i), c) ==
               if b[i] == DASH then
                 if b[i - 1] <= c <= b[i + 1] then Yes
                 else if b[i - 1] > b[i + 1] then Bad
                 else ScanItems(Items(body, i + 2), c)
               else if b[i] == c then Yes else ScanItems(Items(body, i + 1), c)
  {
    ScanStep(b[..|b| - 1], i, c);
  }

  /** How the search in a class ends: the character is there or not, the class is broken
      or has no end, or the search has gone past the end of the pattern. */
  datatype Search = Found | Missing | Error | Past

  /** What the search in the text of a class has to answer. */
  ghost predicate SearchIs(b: Text, c: Ch, r: Search)
    requires b != []
  {
    var k := Close(b, 1);
    if k < |b| then
      match ScanItems(ItemsOf(b[..k]), c) case Yes => r == Found case No => r == Missing case Bad => r == Error
    else
      r != Missing && (r == Past <==> IsCut(b) && PastTok(Cut(b[..|b| - 1]), c))
  }

  /** While the search is under way: what is left decides. */
  ghost predicate Searching(b: Text, c: Ch, i: nat)
    requires b != []
  {
    var k := Close(b, 1);
    && 1 <= i <= k <= |b|
    && (k < |b| ==> ScanItems(ItemsOf(b[..k]), c) == ScanItems(Items(b[..k], i), c))
    && (k == |b| ==> (DashLast(b, 1) <==> DashLast(b, i)))
    && (k == |b| && DashLast(b, i) ==>
          ScanItems(ItemsOf(b[..|b| - 1]), c) == ScanItems(Items(b[..|b| - 1], i), c))
  }

  lemma SearchStarts(b: Text, c: Ch)
    requires b != []
    ensures b[0] != c ==> Searching(b, c, 1)
    ensures b[0] == c ==> SearchIs(b, c, Found)
  {
    hide Items, ItemsOf, ScanItems;
    var k := Close(b, 1);
    CloseFirst(b, 1);
    if k < |b| {
      ScanStart(b[..k], c);
    } else if DashLast(b, 1) {
      var body := b[..|b| - 1];
      ScanStart(body, c);
      ScanIs(ItemsOf(body), c);
    }
  }

  /** A dash at the end of the text. */
  lemma SearchDash(b: Text, c: Ch)
    requires b != [] && Searching(b, c, |b| - 1) && Close(b, 1) == |b| && b[|b| - 1] == DASH
    ensures SearchIs(b, c, if b[|b| - 2] <= c < 0 then Found else if b[|b| - 2] > 0 then Error else Past)
  {
    hide ItemsOf, ScanItems;
    var body := b[..|b| - 1];
    assert DashLast(b, |b| - 1);
    ScanIs(ItemsOf(body), c);
    ItemsEnd(body, c);
  }

  /** What one step of the search at index i does. */
  ghost predicate StepsOn(b: Text, c: Ch, i: nat)
    requires 0 < i < |b| && (b[i] == DASH ==> i + 1 < |b|)
  {
    if b[i] == DASH && b[i + 1] != CLOSE then
      if b[i - 1] <= c <= b[i + 1] then SearchIs(b, c, Found)
      else if b[i - 1] > b[i + 1] then SearchIs(b, c, Error)
      else Searching(b, c, i + 2)
    else if b[i] == c then SearchIs(b, c, Found)
    else Searching(b, c, i + 1)
  }

  lemma DashInside(b: Text, i: nat)
    requires i < |b| && DashLast(b, i) && (b[i] == DASH ==> i + 1 < |b|)
    ensures i < |b| - 1
  {
    assert !DashLast(b, |b|);
  }

  lemma SearchClosed(b: Text, c: Ch, i: nat)
    requires b != [] && Searching(b, c, i) && i < Close(b, 1) < |b| && (b[i] == DASH ==> i + 1 < |b|)
    ensures StepsOn(b, c, i)
  {
    hide Items, ItemsOf, ScanItems;
    CloseFirst(b, 1);
    ScanStep(b[..Close(b, 1)], i, c);
  }

  lemma SearchOpen(b: Text, c: Ch, i: nat)
    requires b != [] && Searching(b, c, i) && i < Close(b, 1) == |b| && (b[i] == DASH ==> i + 1 < |b|)
    ensures StepsOn(b, c, i)
  {
    hide Items, ItemsOf, ScanItems, NotInClass;
    CloseFirst(b, 1);
    assert b[i] == DASH ==> b[i + 1] != CLOSE;
    if DashLast(b, i) {
      DashInside(b, i);
      DashStep(b, i, c);
      ScanIs(ItemsOf(b[..|b| - 1]), c);
    } else {
      assert !IsCut(b);
      assert b[i] == DASH ==> !DashLast(b, i + 2);
      assert b[i] != DASH ==> !DashLast(b, i + 1);
    }
  }

  /** One step of the search inside the text. */
  lemma SearchStep(b: Text, c: Ch, i: nat)
    requires b != [] && Searching(b, c, i) && i < Close(b, 1) && (b[i] == DASH ==> i + 1 < |b|)
    ensures StepsOn(b, c, i)
  {
    hide StepsOn;
    if Close(b, 1) < |b| { SearchClosed(b, c, i); } else { SearchOpen(b, c, i); }
  }

  lemma SearchEnds(b: Text, c: Ch, i: nat)
    requires b != [] && Searching(b, c, i) && i == Close(b, 1)
    ensures SearchIs(b, c, if i < |b| then Missing else Error)
  {
    hide ItemsOf;
    if i < |b| { ItemsEnd(b[..i], c); }
  }

  /** The first part of __match_charclass, behind the complement sign: whether c is
      found, and where the search stopped. */
  method ScanClass(b: Text, c: Ch) returns (r: Search, i: nat)
    requires b != []
    ensures 1 <= i <= |b| && i <= Close(b, 1) && SearchIs(b, c, r)
  {
    hide SearchIs, Searching, Close;
    CloseFirst(b, 1);
    SearchStarts(b, c);
    i := 1;
    if b[0] == c { return Found, 1; }
    while i < |b| && b[i] != CLOSE
      invariant 1 <= i <= Close(b, 1) <= |b| && Searching(b, c, i)
      decreases |b| - i
    {
      assert i < Close(b, 1);
      if b[i] == DASH && i + 1 == |b| {  // a range up to the terminating zero
        SearchDash(b, c);
        if b[i - 1] <= c < 0 { return Found, i; }
        if b[i - 1] > 0 { return Error, i; }
        return Past, i;
      }
      SearchStep(b, c, i);
      if b[i] == DASH && b[i + 1] != CLOSE {
        if b[i - 1] <= c <= b[i + 1] { return Found, i; }
        if b[i - 1] > b[i + 1] { return Error, i; }
        SearchInside(b, c, i + 2);
        i := i + 2;
      } else {
        if b[i] == c { return Found, i + 1; }
        SearchInside(b, c, i + 1);
        i := i + 1;
      }
    }
    SearchEnds(b, c, i);
    return if i == |b| then Error else Missing, i;
  }

  lemma SearchInside(b: Text, c: Ch, i: nat)
    requires b != []
    ensures Searching(b, c, i) ==> 1 <= i <= Close(b, 1) <= |b|
  {
  }

  lemma ItemsEnd(body: Text, c: Ch)
    ensures |body| > 0 ==> ScanItems(Items(body, |body|), c) == No
  {
  }

  /** __match_charclass: t is the text behind the bracket; n is where the pattern goes
      on, which does not depend on the character. None is a read past the end. */
  method MatchCharclass(t: Text, c: Ch) returns (r: Option<bool>, n: nat)
    ensures r.None? <==> PastTok(ClassTok(t).0, c)
    ensures r.Some? ==> (r.value <==> TokMatches(ClassTok(t).0, c))
    ensures r == Some(true) ==> n <= |t| && t[n..] == ClassTok(t).1
  {
    hide Items, ItemsOf, ScanItems, Close, IsCut;
    n := 0;
    if t == [] { return None, 0; }
    var complement := t[0] == BANG;
    var off := if complement then 1 else 0;
    var b := t[off..];
    assert b == Body(t);
    if b == [] { return None, 0; }
    ghost var k := Close(b, 1);
    CloseFirst(b, 1);
    var e, i := ScanClass(b, c);
    if k < |b| { ScanIs(ItemsOf(b[..k]), c); }
    if e == Past { return None, 0; }
    if e == Error { return Some(false), 0; }
    while i < |b| && b[i] != CLOSE
      invariant 1 <= i <= k <= |b|
    {
      i := i + 1;
    }
    if i == |b| { return Some(false), 0; }
    assert i == k;
    n := off + i + 1;
    assert t[n..] == b[k + 1..];
    r := Some(if complement then e != Found else e == Found);
  }

  // -- The matcher --------------------------------------------------------------------------------------

  /** One character against one token that is no star. */
  lemma MatchStep(s: Text, p: Text)
    requires s != [] && p != [] && p[0] != STAR
    ensures !NextTok(p).0.Star?
    ensures Matches(s, Tokens(p)) <==> TokMatches(NextTok(p).0, s[0]) && Matches(s[1..], Tokens(NextTok(p).1))
    ensures ReadsPast(s, Tokens(p)) <==>
            PastTok(NextTok(p).0, s[0]) || (TokMatches(NextTok(p).0, s[0]) && ReadsPast(s[1..], Tokens(NextTok(p).1)))
  {
    hide TokMatches, PastTok, ClassTok;
    ClassNoStar(p[1..]);
    var (t, rest) := NextTok(p);
    assert ([t] + Tokens(rest))[1..] == Tokens(rest);
  }

  lemma ClassNoStar(t: Text)
    ensures !ClassTok(t).0.Star?
  {
  }

  /** Stars one after the other are one star. */
  lemma TwoStars(s: Text, ts: seq<Tok>)
    ensures Matches(s, [Star, Star] + ts) <==> Matches(s, [Star] + ts)
    ensures ReadsPast(s, [Star, Star] + ts) <==> ReadsPast(s, [Star] + ts)
  {
    var one := [Star] + ts;
    assert one[1..] == ts && ([Star, Star] + ts)[1..] == one;
    if Matches(s, one) {
      assert s[0..] == s;
      assert Matches(s[0..], one);
    }
    if k :| 0 <= k <= |s| && Matches(s[k..], one) {
      var j :| 0 <= j <= |s[k..]| && Matches(s[k..][j..], ts);
      assert s[k..][j..] == s[k + j..];
    }
  }

  lemma StarAlone(s: Text)
    ensures Matches(s, [Star]) && !ReadsPast(s, [Star])
  {
    assert Matches(s[|s|..], [Star][1..]);
    assert [Star][1..] == [];
  }

  /** A pattern that starts with a character needs one. */
  lemma NeedsChar(ts: seq<Tok>)
    requires ts != [] && !ts[0].Star?
    ensures !Matches([], ts)
  {
  }

  /** What the matcher answers: whether the string matches, or nothing if it reads past the end. */
  ghost predicate Answers(str: Text, ts: seq<Tok>, r: Option<bool>) {
    if ReadsPast(str, ts) then r.None? else r == Some(Matches(str, ts))
  }

  /** What is left of string and pattern decides. */
  ghost predicate Left(str: Text, pat: Text, i: nat, j: nat) {
    && i <= |str| && j <= |pat|
    && (Matches(str, Tokens(pat)) <==> Matches(str[i..], Tokens(pat[j..])))
    && (ReadsPast(str, Tokens(pat)) <==> ReadsPast(str[i..], Tokens(pat[j..])))
  }

  lemma LeftStart(str: Text, pat: Text)
    ensures Left(str, pat, 0, 0)
  {
    assert str[0..] == str && pat[0..] == pat;
  }

  /** A token that does not let the character pass ends it. */
  lemma LeftStops(str: Text, pat: Text, i: nat, j: nat)
    requires Left(str, pat, i, j) && i < |str| && j < |pat| && pat[j] != STAR
    ensures PastTok(NextTok(pat[j..]).0, str[i]) ==> Answers(str, Tokens(pat), None)
    ensures !PastTok(NextTok(pat[j..]).0, str[i]) && !TokMatches(NextTok(pat[j..]).0, str[i]) ==>
              Answers(str, Tokens(pat), Some(false))
  {
    hide Tokens, Matches, TokMatches, NextTok, ReadsPast, PastTok;
    MatchStep(str[i..], pat[j..]);
  }

  /** One character passes, and the pattern goes on at n. */
  lemma LeftGoesOn(str: Text, pat: Text, i: nat, j: nat, n: nat)
    requires Left(str, pat, i, j) && i < |str| && j < |pat| && pat[j] != STAR && n <= |pat|
    requires var (t, rest) := NextTok(pat[j..]); !PastTok(t, str[i]) && TokMatches(t, str[i]) && pat[n..] == rest
    ensures Left(str, pat, i + 1, n)
  {
    hide Tokens, Matches, TokMatches, NextTok, ReadsPast, PastTok;
    MatchStep(str[i..], pat[j..]);
    assert str[i..][1..] == str[i + 1..];
  }

  lemma LeftEnds(str: Text, pat: Text, i: nat, j: nat)
    requires Left(str, pat, i, j) && (i == |str| || j == |pat|) && (j < |pat| ==> pat[j] != STAR)
    ensures Answers(str, Tokens(pat), Some(i == |str| && j == |pat|))
  {
    hide Tokens, Matches, ReadsPast;
    EndOf(str[i..], pat[j..]);
  }

  /** What the token at j makes of a character: past the end, refused, or passed with the
      pattern going on at n. */
  ghost predicate TokAnswer(pat: Text, j: nat, c: Ch, r: Option<bool>, n: nat)
    requires j < |pat|
  {
    var (t, rest) := NextTok(pat[j..]);
    && (r.None? <==> PastTok(t, c))
    && (r.Some? ==> (r.value <==> TokMatches(t, c)))
    && (r == Some(true) ==> n <= |pat| && pat[n..] == rest)
  }

  /** One round of __match_glob: one character against one token that is no star. */
  method OneToken(pat: Text, j: nat, c: Ch) returns (r: Option<bool>, n: nat)
    requires j < |pat| && pat[j] != STAR
    ensures TokAnswer(pat, j, c, r, n)
  {
    hide TokMatches, NextTok, PastTok, ClassTok;
    ghost var p := pat[j..];
    FirstTok(p);
    if pat[j] == QUERY {
      assert p[1..] == pat[j + 1..];
      return Some(true), j + 1;
    } else if pat[j] == OPEN {
      assert p[1..] == pat[j + 1..];
      var m, k := MatchCharclass(pat[j + 1..], c);
      if m == Some(true) { assert pat[j + 1..][k..] == pat[j + 1 + k..]; }
      return m, j + 1 + k;
    } else if pat[j] == BACKSLASH {
      if j + 1 == |pat| { return Some(false), j + 1; }
      assert p[2..] == pat[j + 2..];
      return Some(c == pat[j + 1]), j + 2;
    } else {
      assert p[1..] == pat[j + 1..];
      return Some(c == pat[j]), j + 1;
    }
  }

  lemma LeftRound(str: Text, pat: Text, i: nat, j: nat, r: Option<bool>, n: nat)
    requires Left(str, pat, i, j) && i < |str| && j < |pat| && pat[j] != STAR && TokAnswer(pat, j, str[i], r, n)
    ensures r != Some(true) ==> Answers(str, Tokens(pat), r)
    ensures r == Some(true) ==> n <= |pat| && Left(str, pat, i + 1, n)
  {
    hide Tokens, TokMatches, NextTok, PastTok, Left, Answers;
    LeftStops(str, pat, i, j);
    if r == Some(true) { LeftGoesOn(str, pat, i, j, n); }
  }

  /** __match_glob, without the lazy matching of spaces. */
  method MatchGlob(str: Text, pat: Text) returns (r: Option<bool>)
    ensures Answers(str, Tokens(pat), r)
    decreases |pat|
  {
    hide Tokens, TokAnswer, Left, Answers;
    var i, j := 0, 0;
    LeftStart(str, pat);
    while i < |str| && j < |pat| && pat[j] != STAR
      invariant 0 <= i <= |str| && 0 <= j <= |pat| && Left(str, pat, i, j)
      decreases |str| - i
    {
      var m, n := OneToken(pat, j, str[i]);
      LeftRound(str, pat, i, j, m, n);
      if m != Some(true) { return m; }
      i, j := i + 1, n;
    }
    if j < |pat| && pat[j] == STAR {
      r := MatchStars(str[i..], pat[j..]);
      LeftStars(str, pat, i, j, r);
    } else {
      r := Some(i == |str| && j == |pat|);
      LeftEnds(str, pat, i, j);
    }
  }

  lemma LeftStars(str: Text, pat: Text, i: nat, j: nat, r: Option<bool>)
    requires Left(str, pat, i, j) && Answers(str[i..], Tokens(pat[j..]), r)
    ensures Answers(str, Tokens(pat), r)
  {
    hide Tokens, Matches, ReadsPast;
  }

  /** The first token, by the first character. */
  lemma FirstTok(p: Text)
    requires p != [] && p[0] != STAR
    ensures p[0] == QUERY ==> NextTok(p) == (Any, p[1..]) && forall c: Ch :: TokMatches(NextTok(p).0, c)
    ensures p[0] == OPEN ==> NextTok(p) == ClassTok(p[1..])
    ensures p[0] != OPEN ==> forall c: Ch :: !PastTok(NextTok(p).0, c)
    ensures p[0] == BACKSLASH ==>
              if |p| == 1 then NextTok(p) == (Never, []) && forall c: Ch :: !TokMatches(NextTok(p).0, c)
              else NextTok(p) == (Lit(p[1]), p[2..]) && forall c: Ch :: TokMatches(NextTok(p).0, c) <==> c == p[1]
    ensures p[0] != QUERY && p[0] != OPEN && p[0] != BACKSLASH ==>
              NextTok(p) == (Lit(p[0]), p[1..]) && forall c: Ch :: TokMatches(NextTok(p).0, c) <==> c == p[0]
  {
  }

  lemma EndOf(s: Text, p: Text)
    requires (s == [] || p == []) && (p != [] ==> p[0] != STAR)
    ensures (Matches(s, Tokens(p)) <==> s == [] && p == []) && !ReadsPast(s, Tokens(p))
  {
  }

  /** The pattern starts with a star: try every place. */
  method MatchStars(str: Text, pat: Text) returns (r: Option<bool>)
    requires pat != [] && pat[0] == STAR
    ensures Answers(str, Tokens(pat), r)
    decreases |pat|, 0
  {
    hide Tokens, Matches, TokMatches, NextTok, ReadsPast, PastTok;
    var j := 1;
    StarFirst(pat);
    while j < |pat| && pat[j] == STAR
      invariant 1 <= j <= |pat|
      invariant Matches(str, Tokens(pat)) <==> Matches(str, [Star] + Tokens(pat[j..]))
      invariant ReadsPast(str, Tokens(pat)) <==> ReadsPast(str, [Star] + Tokens(pat[j..]))
    {
      StarFirst(pat[j..]);
      assert pat[j..][1..] == pat[j + 1..];
      assert [Star] + ([Star] + Tokens(pat[j + 1..])) == [Star, Star] + Tokens(pat[j + 1..]);
      TwoStars(str, Tokens(pat[j + 1..]));
      j := j + 1;
    }
    if j == |pat| {
      NoTokens(pat[j..]);
      assert [Star] + [] == [Star];
      StarAlone(str);
      return Some(true);
    }
    ghost var ts := Tokens(pat[j..]);
    NotStar(pat[j..]);
    StarMeans(str, ts);
    for i := 0 to |str|
      invariant forall k :: 0 <= k < i ==> !Matches(str[k..], ts) && !ReadsPast(str[k..], ts)
    {
      r := MatchGlob(str[i..], pat[j..]);
      if r.None? || r.value { return; }
    }
    NeedsChar(ts);
    assert str[|str|..] == [];
    return Some(false);
  }

  lemma StarFirst(p: Text)
    requires p != [] && p[0] == STAR
    ensures Tokens(p) == [Star] + Tokens(p[1..])
  {
  }

  lemma NoTokens(p: Text)
    requires p == []
    ensures Tokens(p) == []
  {
  }

  lemma NotStar(p: Text)
    requires p != [] && p[0] != STAR
    ensures Tokens(p) != [] && !Tokens(p)[0].Star?
  {
  }

  lemma StarMeans(s: Text, ts: seq<Tok>)
    requires ts != [] && !ts[0].Star?
    ensures Matches(s, [Star] + ts) <==> exists k :: 0 <= k <= |s| && Matches(s[k..], ts)
    ensures ReadsPast(s, [Star] + ts) <==>
            exists i :: 0 <= i < |s| && ReadsPast(s[i..], ts) && forall k :: 0 <= k < i ==> !Matches(s[k..], ts)
  {
    assert ([Star] + ts)[1..] == ts;
  }
}
