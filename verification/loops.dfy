/** The loops the parser emits: control goes back only past a LOOP that nothing skips,
    or through FORL and ITERN, so that every cycle is counted. */
module Loops {
  import opened Values
  import opened Frames
  import opened Termination

  // -- Fragments of code -------------------------------------------------------------------------

  predicate GoesIn(c: seq<Ins>, at: nat, pc: nat, t: nat) {
    at <= pc < at + |c| && Goes(c[pc - at], pc, t)
  }

  /** The LOOP at l guards the way back from pc to t, as far as this fragment goes. */
  ghost predicate GuardsIn(c: seq<Ins>, at: nat, l: nat, pc: nat, t: nat) {
    && at <= l < at + |c| && t <= l <= pc && c[l - at].Loop?
    && forall a: nat, b: nat :: GoesIn(c, at, a, b) && a < l < b ==> b > pc
  }

  ghost predicate NoTails(c: seq<Ins>) {
    forall i :: 0 <= i < |c| ==> !c[i].CallT?
  }

  /** Control stays in the fragment or goes on at one of the exits. */
  ghost predicate Stays(c: seq<Ins>, at: nat, exits: set<nat>) {
    forall pc: nat, t: nat :: GoesIn(c, at, pc, t) ==> at <= t <= at + |c| || t in exits
  }

  ghost predicate Guarded(c: seq<Ins>, at: nat) {
    forall pc: nat, t: nat :: GoesIn(c, at, pc, t) && at <= t <= pc ==> exists l :: GuardsIn(c, at, l, pc, t)
  }

  ghost predicate Good(c: seq<Ins>, at: nat, exits: set<nat>) {
    NoTails(c) && Stays(c, at, exits) && Guarded(c, at)
  }

  /** No exit leads into the stretch from lo to hi. */
  ghost predicate Clear(exits: set<nat>, lo: nat, hi: nat) {
    forall x :: x in exits ==> x <= lo || x >= hi
  }

  lemma CatGoes(c: seq<Ins>, d: seq<Ins>, at: nat, pc: nat, t: nat)
    ensures GoesIn(c + d, at, pc, t) <==> GoesIn(c, at, pc, t) || GoesIn(d, at + |c|, pc, t)
  {
    if at <= pc < at + |c| { assert (c + d)[pc - at] == c[pc - at]; }
    if at + |c| <= pc < at + |c| + |d| { assert (c + d)[pc - at] == d[pc - (at + |c|)]; }
  }

  lemma CatStays(c: seq<Ins>, d: seq<Ins>, at: nat, X: set<nat>, Y: set<nat>)
    requires Stays(c, at, X) && Stays(d, at + |c|, Y)
    ensures Stays(c + d, at, X + Y)
  {
    hide GoesIn;
    forall pc: nat, t: nat | GoesIn(c + d, at, pc, t)
      ensures at <= t <= at + |c + d| || t in X + Y
    {
      CatGoes(c, d, at, pc, t);
    }
  }

  /** One fragment behind another: the guards of each are guards of both. */
  lemma CatGuarded(c: seq<Ins>, d: seq<Ins>, at: nat, X: set<nat>, Y: set<nat>)
    requires Good(c, at, X) && Good(d, at + |c|, Y)
    requires Clear(X, at + |c|, at + |c| + |d|) && (forall y :: y in Y ==> y >= at + |c| + |d|)
    requires (forall x :: x in X ==> x >= at)
    ensures Guarded(c + d, at)
  {
    hide GoesIn, GuardsIn;
    forall pc: nat, t: nat | GoesIn(c + d, at, pc, t) && at <= t <= pc
      ensures exists l :: GuardsIn(c + d, at, l, pc, t)
    {
      CatGoes(c, d, at, pc, t);
      InRange(c, at, pc, t);
      if GoesIn(c, at, pc, t) {
        var l :| GuardsIn(c, at, l, pc, t);
        GuardLeft(c, d, at, l, pc, t);
      } else {
        assert at + |c| <= t;
        var l :| GuardsIn(d, at + |c|, l, pc, t);
        InRange(d, at + |c|, pc, t);
        GuardRight(c, d, at, X, l, pc, t);
      }
    }
  }

  lemma InRange(c: seq<Ins>, at: nat, pc: nat, t: nat)
    ensures GoesIn(c, at, pc, t) ==> at <= pc < at + |c|
  {
  }

  lemma GuardLeft(c: seq<Ins>, d: seq<Ins>, at: nat, l: nat, pc: nat, t: nat)
    requires GuardsIn(c, at, l, pc, t)
    ensures GuardsIn(c + d, at, l, pc, t)
  {
    hide GoesIn;
    forall a: nat, b: nat | GoesIn(c + d, at, a, b) && a < l < b
      ensures b > pc
    {
      CatGoes(c, d, at, a, b);
      InRange(d, at + |c|, a, b);
    }
  }

  lemma GuardRight(c: seq<Ins>, d: seq<Ins>, at: nat, X: set<nat>, l: nat, pc: nat, t: nat)
    requires GuardsIn(d, at + |c|, l, pc, t) && Stays(c, at, X) && Clear(X, at + |c|, at + |c| + |d|)
    requires pc < at + |c| + |d|
    ensures GuardsIn(c + d, at, l, pc, t)
  {
    hide GoesIn;
    forall a: nat, b: nat | GoesIn(c + d, at, a, b) && a < l < b
      ensures b > pc
    {
      CatGoes(c, d, at, a, b);
    }
    assert (c + d)[l - at] == d[l - (at + |c|)];
  }

  lemma CatGood(c: seq<Ins>, d: seq<Ins>, at: nat, X: set<nat>, Y: set<nat>)
    requires Good(c, at, X) && Good(d, at + |c|, Y)
    requires Clear(X, at + |c|, at + |c| + |d|) && (forall y :: y in Y ==> y >= at + |c| + |d|)
    requires (forall x :: x in X ==> x >= at)
    ensures Good(c + d, at, X + Y)
  {
    hide Stays, Guarded;
    CatStays(c, d, at, X, Y);
    CatGuarded(c, d, at, X, Y);
  }

  /** Exits that lie in the fragment are none. */
  lemma FewerExits(c: seq<Ins>, at: nat, X: set<nat>, Y: set<nat>)
    requires Good(c, at, X) && forall x :: x in X ==> at <= x <= at + |c| || x in Y
    ensures Good(c, at, Y)
  {
    hide GoesIn, Guarded;
  }

  lemma OneGood(i: Ins, at: nat, X: set<nat>)
    requires !i.CallT? && (i.Branch? || i.ForI? || i.Jump? ==> i.t > at && (i.t == at + 1 || i.t in X))
    ensures Good([i], at, X)
  {
  }

  // -- Statements --------------------------------------------------------------------------------------

  /** Code of an expression or a condition: straight-line instructions, jumps ahead
      within it, and jumps out of it when the condition is false. */
  datatype CondIns = Plain(i: Ins) | Ahead(k: nat, always: bool) | Out

  predicate Straight(i: Ins) {
    i.Call? || i.Write? || i.UpWrite? || i.Ret0? || i.Ret1? || i.Stop?
  }

  predicate CondOk(cs: seq<CondIns>) {
    forall i :: 0 <= i < |cs| ==> (cs[i].Plain? ==> Straight(cs[i].i)) && (cs[i].Ahead? ==> i < cs[i].k <= |cs|)
  }

  datatype Stmt =
    | Code(cs: seq<CondIns>)            // expressions and other statements
    | Seq(a: Stmt, b: Stmt)
    | When(c: seq<CondIns>, a: Stmt)    // an if statement without else
    | If(c: seq<CondIns>, a: Stmt, b: Stmt)
    | While(c: seq<CondIns>, b: Stmt)
    | Repeat(b: Stmt, c: seq<CondIns>)
    | ForNum(b: Stmt)
    | ForIter(b: Stmt)
    | Break

  predicate StmtOk(s: Stmt) {
    match s
    case Code(cs) => CondOk(cs) && forall i :: 0 <= i < |cs| ==> !cs[i].Out?
    case Seq(a, b) => StmtOk(a) && StmtOk(b)
    case When(c, a) => CondOk(c) && StmtOk(a)
    case If(c, a, b) => CondOk(c) && StmtOk(a) && StmtOk(b)
    case While(c, b) => CondOk(c) && StmtOk(b)
    case Repeat(b, c) => CondOk(c) && StmtOk(b)
    case ForNum(b) => StmtOk(b)
    case ForIter(b) => StmtOk(b)
    case Break => true
  }

  function Size(s: Stmt): nat {
    match s
    case Code(cs) => |cs|
    case Seq(a, b) => Size(a) + Size(b)
    case When(c, a) => |c| + Size(a)
    case If(c, a, b) => |c| + Size(a) + 1 + Size(b)
    case While(c, b) => |c| + 1 + Size(b) + 1
    case Repeat(b, c) => 1 + Size(b) + |c|
    case ForNum(b) => 1 + Size(b) + 1
    case ForIter(b) => 1 + Size(b) + 2
    case Break => 1
  }

  function CondAt(ci: CondIns, at: nat, out: nat): Ins {
    match ci
    case Plain(i) => i
    case Ahead(k, always) => if always then Jump(at + k) else Branch(at + k)
    case Out => Branch(out)
  }

  function CondCode(cs: seq<CondIns>, at: nat, out: nat): (c: seq<Ins>)
    ensures |c| == |cs| && forall i :: 0 <= i < |cs| ==> c[i] == CondAt(cs[i], at, out)
  {
    seq(|cs|, i requires 0 <= i < |cs| => CondAt(cs[i], at, out))
  }

  /** parse_while, parse_repeat, parse_for_num, parse_for_iter, parse_if: the code of a
      statement at position `at`; `out` is the end of the loop around it. */
  function Gen(s: Stmt, at: nat, out: nat): (c: seq<Ins>)
    ensures |c| == Size(s)
  {
    match s
    case Code(cs) => CondCode(cs, at, at)
    case Seq(a, b) => Gen(a, at, out) + Gen(b, at + Size(a), out)
    case When(c, a) => CondCode(c, at, at + Size(s)) + Gen(a, at + |c|, out)
    case If(c, a, b) =>
      var orelse := at + |c| + Size(a) + 1;
      CondCode(c, at, orelse) + Gen(a, at + |c|, out) + [Jump(orelse + Size(b))] + Gen(b, orelse, out)
    case While(c, b) =>
      var end := at + Size(s);
      CondCode(c, at, end) + [Loop] + Gen(b, at + |c| + 1, end) + [Jump(at)]
    case Repeat(b, c) =>
      [Loop] + Gen(b, at + 1, at + Size(s)) + CondCode(c, at + 1 + Size(b), at)
    case ForNum(b) =>
      var end := at + Size(s);
      [ForI(0, end)] + Gen(b, at + 1, end) + [ForL(0, at + 1)]
    case ForIter(b) =>
      [Jump(at + 1 + Size(b))] + Gen(b, at + 1, at + Size(s)) + [IterN(0, at + 1), Stop]
    case Break => [Jump(out)]
  }

  lemma CondGood(cs: seq<CondIns>, at: nat, out: nat)
    requires CondOk(cs) && (out >= at + |cs| || forall i :: 0 <= i < |cs| ==> !cs[i].Out?)
    ensures Good(CondCode(cs, at, out), at, {out})
  {
    hide CondCode;
    var c := CondCode(cs, at, out);
    forall pc: nat, t: nat | GoesIn(c, at, pc, t)
      ensures pc < t && (t <= at + |c| || t == out)
    {
      assert c[pc - at] == CondAt(cs[pc - at], at, out);
    }
  }

  /** The test of a while loop goes on at its LOOP, and the jump behind the body goes back. */
  lemma WhileGood(c: seq<Ins>, b: seq<Ins>, at: nat)
    requires var end := at + |c| + 1 + |b| + 1; Good(c, at, {end}) && Good(b, at + |c| + 1, {end})
    ensures Good(c + [Loop] + b + [Jump(at)], at, {})
  {
    hide Guarded, GoesIn;
    var end, l := at + |c| + 1 + |b| + 1, at + |c|;
    OneGood(Loop, l, {});
    CatGood(c, [Loop], at, {end}, {});
    CatGood(c + [Loop], b, at, {end}, {end});
    assert {end} + {} == {end} && {end} + {end} == {end};
    var d := c + [Loop] + b;
    assert d[l - at] == Loop && d[..|c|] == c;
    BackGood(d, at, end, l, |c|);
  }

  /** A jump back over a fragment whose LOOP at l only its exits pass. */
  lemma BackGood(d: seq<Ins>, at: nat, end: nat, l: nat, n: nat)
    requires Good(d, at, {end}) && end == at + |d| + 1 && l == at + n && n < |d| && d[n].Loop?
    requires Good(d[..n], at, {end})
    ensures Good(d + [Jump(at)], at, {})
  {
    hide GoesIn;
    var e := d + [Jump(at)];
    forall pc: nat, t: nat | GoesIn(e, at, pc, t)
      ensures at <= t <= at + |e|
      ensures t <= pc ==> exists g :: GuardsIn(e, at, g, pc, t)
    {
      CatGoes(d, [Jump(at)], at, pc, t);
      InRange(d, at, pc, t);
      if GoesIn(d, at, pc, t) {
        if t <= pc {
          var g :| GuardsIn(d, at, g, pc, t);
          GuardLeft(d, [Jump(at)], at, g, pc, t);
        }
      } else {
        OnlyJump(at, at + |d|, pc, t);
        LoopGuards(d, at, end, l, n);
      }
    }
  }

  lemma OnlyJump(target: nat, at: nat, pc: nat, t: nat)
    requires GoesIn([Jump(target)], at, pc, t)
    ensures pc == at && t == target
  {
  }

  lemma LoopGuards(d: seq<Ins>, at: nat, end: nat, l: nat, n: nat)
    requires end == at + |d| + 1 && l == at + n && n < |d| && d[n].Loop? && Stays(d[..n], at, {end})
    ensures GuardsIn(d + [Jump(at)], at, l, at + |d|, at)
  {
    var e := d + [Jump(at)];
    forall a: nat, b: nat | GoesIn(e, at, a, b) && a < l < b
      ensures b > at + |d|
    {
      assert e[a - at] == d[..n][a - at];
      assert GoesIn(d[..n], at, a, b);
    }
    assert e[l - at] == d[n];
  }

  /** A repeat loop: its LOOP comes first, so that it guards the ways back to it. */
  lemma RepeatGood(b: seq<Ins>, cs: seq<CondIns>, at: nat)
    requires CondOk(cs) && Good(b, at + 1, {at + 1 + |b| + |cs|})
    ensures Good([Loop] + b + CondCode(cs, at + 1 + |b|, at), at, {})
  {
    hide GoesIn, Guarded, CondCode;
    var end, m := at + 1 + |b| + |cs|, at + 1 + |b|;
    OneGood(Loop, at, {});
    CatGood([Loop], b, at, {}, {end});
    assert {} + {end} == {end};
    var d, c := [Loop] + b, CondCode(cs, m, at);
    var e := d + c;
    assert NoTails(e) by { CondTails(cs, m, at); }
    assert |d| == m - at && end == at + |e|;
    forall pc: nat, t: nat | GoesIn(e, at, pc, t)
      ensures at <= t <= at + |e|
      ensures t <= pc ==> exists g :: GuardsIn(e, at, g, pc, t)
    {
      CatGoes(d, c, at, pc, t);
      if GoesIn(d, at, pc, t) {
        if t <= pc { LeftBack(d, c, at, pc, t); }
      } else {
        CondGoes(cs, m, at, pc, t);
        InRange(c, m, pc, t);
        if t <= pc { FirstGuards(e, at, pc); }
      }
    }
    RepeatEnd(e, at);
  }

  lemma LeftBack(d: seq<Ins>, c: seq<Ins>, at: nat, pc: nat, t: nat)
    requires Guarded(d, at) && GoesIn(d, at, pc, t) && at <= t <= pc
    ensures exists g :: GuardsIn(d + c, at, g, pc, t)
  {
    var g :| GuardsIn(d, at, g, pc, t);
    GuardLeft(d, c, at, g, pc, t);
  }

  lemma RepeatEnd(e: seq<Ins>, at: nat)
    requires NoTails(e)
    requires forall pc: nat, t: nat :: GoesIn(e, at, pc, t) ==> at <= t <= at + |e|
    requires forall pc: nat, t: nat :: GoesIn(e, at, pc, t) && t <= pc ==> exists g :: GuardsIn(e, at, g, pc, t)
    ensures Good(e, at, {})
  {
    hide GoesIn;
  }

  lemma CondTails(cs: seq<CondIns>, at: nat, out: nat)
    requires CondOk(cs)
    ensures NoTails(CondCode(cs, at, out))
  {
  }

  lemma CondGoes(cs: seq<CondIns>, at: nat, out: nat, pc: nat, t: nat)
    requires CondOk(cs) && GoesIn(CondCode(cs, at, out), at, pc, t)
    ensures t == out || pc < t <= at + |cs|
  {
    assert CondCode(cs, at, out)[pc - at] == CondAt(cs[pc - at], at, out);
  }

  lemma FirstGuards(e: seq<Ins>, at: nat, pc: nat)
    requires e != [] && e[0].Loop? && at <= pc
    ensures GuardsIn(e, at, at, pc, at)
  {
  }

  /** The code of every statement stays in its stretch, but for breaks, and its ways back are guarded. */
  lemma {:induction false} GenGood(s: Stmt, at: nat, out: nat)
    requires StmtOk(s) && out >= at + Size(s)
    ensures Good(Gen(s, at, out), at, {out})
    decreases s
  {
    hide Good, Gen, Size;
    match s {
      case Code(cs) => LeafGen(s, at, out);
      case Break => LeafGen(s, at, out);
      case Seq(a, b) =>
        PairSize(s);
        GenGood(a, at, out);
        GenGood(b, at + Size(a), out);
        SeqGen(s, at, out);
      case When(c, a) =>
        PairSize(s);
        GenGood(a, at + |c|, out);
        WhenGen(s, at, out);
      case If(c, a, b) =>
        PairSize(s);
        GenGood(a, at + |c|, out);
        GenGood(b, at + |c| + Size(a) + 1, out);
        IfGen(s, at, out);
      case While(c, b) =>
        BodySize(s);
        GenGood(b, at + |c| + 1, at + Size(s));
        WhileGen(s, at, out);
      case Repeat(b, c) =>
        BodySize(s);
        GenGood(b, at + 1, at + Size(s));
        RepeatGen(s, at, out);
      case ForNum(b) =>
        BodySize(s);
        GenGood(b, at + 1, at + Size(s));
        ForGen(s, at, out);
      case ForIter(b) =>
        BodySize(s);
        GenGood(b, at + 1, at + Size(s));
        ForGen(s, at, out);
    }
  }

  lemma PairSize(s: Stmt)
    ensures s.Seq? ==> Size(s) == Size(s.a) + Size(s.b)
    ensures s.When? ==> Size(s) == |s.c| + Size(s.a)
    ensures s.If? ==> Size(s) == |s.c| + Size(s.a) + 1 + Size(s.b)
  {
  }

  lemma BodySize(s: Stmt)
    ensures s.While? ==> Size(s) == |s.c| + 1 + Size(s.b) + 1
    ensures s.Repeat? ==> Size(s) == 1 + Size(s.b) + |s.c|
    ensures s.ForNum? ==> Size(s) == 1 + Size(s.b) + 1
    ensures s.ForIter? ==> Size(s) == 1 + Size(s.b) + 2
  {
  }

  lemma LeafGen(s: Stmt, at: nat, out: nat)
    requires StmtOk(s) && (s.Code? || s.Break?) && out >= at + Size(s)
    ensures Good(Gen(s, at, out), at, {out})
  {
    hide Good;
    if s.Code? { CodeGood(s.cs, at, out); } else { OneGood(Jump(out), at, {out}); }
  }

  lemma SeqGen(s: Stmt, at: nat, out: nat)
    requires s.Seq? && out >= at + Size(s) && Good(Gen(s.a, at, out), at, {out})
    requires Good(Gen(s.b, at + Size(s.a), out), at + Size(s.a), {out})
    ensures Good(Gen(s, at, out), at, {out})
  {
    hide Good;
    Behind(Gen(s.a, at, out), Gen(s.b, at + Size(s.a), out), at, out);
  }

  lemma WhenGen(s: Stmt, at: nat, out: nat)
    requires s.When? && CondOk(s.c) && out >= at + Size(s) && Good(Gen(s.a, at + |s.c|, out), at + |s.c|, {out})
    ensures Good(Gen(s, at, out), at, {out})
  {
    hide Good, CondCode;
    var end := at + Size(s);
    CondGood(s.c, at, end);
    CatGood(CondCode(s.c, at, end), Gen(s.a, at + |s.c|, out), at, {end}, {out});
    FewerExits(Gen(s, at, out), at, {end} + {out}, {out});
  }

  lemma IfGen(s: Stmt, at: nat, out: nat)
    requires s.If? && CondOk(s.c) && out >= at + Size(s) && Good(Gen(s.a, at + |s.c|, out), at + |s.c|, {out})
    requires var orelse := at + |s.c| + Size(s.a) + 1; Good(Gen(s.b, orelse, out), orelse, {out})
    ensures Good(Gen(s, at, out), at, {out})
  {
    hide Good, CondCode;
    IfGood(s.c, Gen(s.a, at + |s.c|, out), Gen(s.b, at + |s.c| + Size(s.a) + 1, out), at, out);
  }

  lemma WhileGen(s: Stmt, at: nat, out: nat)
    requires s.While? && CondOk(s.c) && Good(Gen(s.b, at + |s.c| + 1, at + Size(s)), at + |s.c| + 1, {at + Size(s)})
    ensures Good(Gen(s, at, out), at, {out})
  {
    hide Good, CondCode;
    var end := at + Size(s);
    CondGood(s.c, at, end);
    WhileGood(CondCode(s.c, at, end), Gen(s.b, at + |s.c| + 1, end), at);
    MoreExits(Gen(s, at, out), at, out);
  }

  lemma RepeatGen(s: Stmt, at: nat, out: nat)
    requires s.Repeat? && CondOk(s.c) && Good(Gen(s.b, at + 1, at + Size(s)), at + 1, {at + Size(s)})
    ensures Good(Gen(s, at, out), at, {out})
  {
    hide Good, CondCode;
    RepeatGood(Gen(s.b, at + 1, at + Size(s)), s.c, at);
    MoreExits(Gen(s, at, out), at, out);
  }

  lemma ForGen(s: Stmt, at: nat, out: nat)
    requires (s.ForNum? || s.ForIter?) && Good(Gen(s.b, at + 1, at + Size(s)), at + 1, {at + Size(s)})
    ensures Good(Gen(s, at, out), at, {out})
  {
    hide Good;
    if s.ForNum? {
      ForGood(ForI(0, at + Size(s)), Gen(s.b, at + 1, at + Size(s)), [ForL(0, at + 1)], at, out);
    } else {
      ForGood(Jump(at + 1 + Size(s.b)), Gen(s.b, at + 1, at + Size(s)), [IterN(0, at + 1), Stop], at, out);
    }
  }

  lemma CodeGood(cs: seq<CondIns>, at: nat, out: nat)
    requires CondOk(cs) && (forall i :: 0 <= i < |cs| ==> !cs[i].Out?) && out >= at + |cs|
    ensures Good(CondCode(cs, at, at), at, {out})
  {
    CondGood(cs, at, at);
    FewerExits(CondCode(cs, at, at), at, {at}, {out});
  }

  lemma MoreExits(c: seq<Ins>, at: nat, out: nat)
    requires Good(c, at, {})
    ensures Good(c, at, {out})
  {
    FewerExits(c, at, {}, {out});
  }

  lemma Behind(c: seq<Ins>, d: seq<Ins>, at: nat, out: nat)
    requires Good(c, at, {out}) && Good(d, at + |c|, {out}) && out >= at + |c| + |d|
    ensures Good(c + d, at, {out})
  {
    hide Good;
    CatGood(c, d, at, {out}, {out});
    assert {out} + {out} == {out};
  }

  lemma IfGood(cs: seq<CondIns>, a: seq<Ins>, b: seq<Ins>, at: nat, out: nat)
    requires CondOk(cs)
    requires var orelse := at + |cs| + |a| + 1;
             Good(a, at + |cs|, {out}) && Good(b, orelse, {out}) && out >= orelse + |b|
    ensures var orelse := at + |cs| + |a| + 1;
            Good(CondCode(cs, at, orelse) + a + [Jump(orelse + |b|)] + b, at, {out})
  {
    hide Good, CondCode;
    var orelse := at + |cs| + |a| + 1;
    var end := orelse + |b|;
    var c := CondCode(cs, at, orelse);
    CondGood(cs, at, orelse);
    CatGood(c, a, at, {orelse}, {out});
    OneGood(Jump(end), orelse - 1, {end, orelse});
    CatGood(c + a, [Jump(end)], at, {orelse} + {out}, {end, orelse});
    CatGood(c + a + [Jump(end)], b, at, {orelse} + {out} + {end, orelse}, {out});
    FewerExits(c + a + [Jump(end)] + b, at, {orelse} + {out} + {end, orelse} + {out}, {out});
  }

  /** A for loop: a jump ahead, the body, and control instructions that are counted. */
  lemma ForGood(i: Ins, b: seq<Ins>, last: seq<Ins>, at: nat, out: nat)
    requires var end := at + 1 + |b| + |last|; Good(b, at + 1, {end})
    requires last != [] && forall k :: 0 <= k < |last| ==> last[k].ForL? || last[k].IterN? || last[k].Stop?
    requires (i.ForI? && i.t == at + 1 + |b| + |last|) || (i.Jump? && i.t == at + 1 + |b|)
    ensures Good([i] + b + last, at, {out})
  {
    hide Good;
    var end := at + 1 + |b| + |last|;
    OneGood(i, at, {i.t});
    CatGood([i], b, at, {i.t}, {end});
    EndGood(last, at + 1 + |b|);
    CatGood([i] + b, last, at, {i.t} + {end}, {});
    FewerExits([i] + b + last, at, {i.t} + {end} + {}, {out});
  }

  lemma EndGood(last: seq<Ins>, at: nat)
    requires forall k :: 0 <= k < |last| ==> last[k].ForL? || last[k].IterN? || last[k].Stop?
    ensures Good(last, at, {})
  {
  }

  // -- Programs --------------------------------------------------------------------------------------------

  /** A function: its header, its statements and the final return. */
  function FnCode(s: Stmt): seq<Ins> {
    [Stop] + Gen(s, 1, 1 + Size(s)) + [Ret0]
  }

  /** Every function of the program was emitted from some statements. */
  ghost predicate Emitted(ps: Program, body: nat -> Stmt) {
    forall fn: nat :: fn < |ps.protos| ==> StmtOk(body(fn)) && ps.protos[fn].code == FnCode(body(fn))
  }

  lemma FnGood(s: Stmt)
    requires StmtOk(s)
    ensures Good(FnCode(s), 0, {})
  {
    hide Good;
    var end := 1 + Size(s);
    GenGood(s, 1, end);
    OneGood(Stop, 0, {});
    CatGood([Stop], Gen(s, 1, end), 0, {}, {end});
    OneGood(Ret0, end, {});
    CatGood([Stop] + Gen(s, 1, end), [Ret0], 0, {} + {end}, {});
    FewerExits(FnCode(s), 0, {} + {end} + {}, {});
  }

  /** All code the parser emits for these statements has its cycles counted. */
  lemma EmittedCounted(ps: Program, body: nat -> Stmt)
    requires Emitted(ps, body)
    ensures CyclesCounted(ps)
  {
    hide CyclesCounted, FnCode, Edge;
    forall fn: nat, pc: nat
      ensures !At(ps, Ptr(fn, pc)).CallT?
    {
      if fn < |ps.protos| { FnGood(body(fn)); }
    }
    forall fn: nat, pc: nat, t: nat | Edge(ps, fn, pc, t) && t <= pc
      ensures exists l :: Guards(ps, fn, l, pc, t)
    {
      BackGuarded(ps, body, fn, pc, t);
    }
    LoopsCounted(ps);
  }

  lemma BackGuarded(ps: Program, body: nat -> Stmt, fn: nat, pc: nat, t: nat)
    requires Emitted(ps, body) && Edge(ps, fn, pc, t) && t <= pc
    ensures exists l :: Guards(ps, fn, l, pc, t)
  {
    hide FnCode, Good;
    var c := ps.protos[fn].code;
    FnGood(body(fn));
    EdgeIs(ps, fn, pc, t);
    var l := SomeGuard(c, pc, t);
    forall a: nat, b: nat | Edge(ps, fn, a, b) && a < l < b
      ensures b > pc
    {
      EdgeIs(ps, fn, a, b);
    }
    assert Guards(ps, fn, l, pc, t);
  }

  lemma EdgeIs(ps: Program, fn: nat, pc: nat, t: nat)
    requires fn < |ps.protos|
    ensures Edge(ps, fn, pc, t) <==> GoesIn(ps.protos[fn].code, 0, pc, t)
  {
  }

  lemma SomeGuard(c: seq<Ins>, pc: nat, t: nat) returns (l: nat)
    requires Good(c, 0, {}) && GoesIn(c, 0, pc, t) && t <= pc
    ensures GuardsIn(c, 0, l, pc, t)
  {
    hide GuardsIn;
    l :| GuardsIn(c, 0, l, pc, t);
  }

  // -- Threaded jumps --------------------------------------------------------------------------------------

  /** From t, jumps lead to u. */
  predicate IsChain(c: seq<Ins>, p: seq<nat>) {
    p != [] && forall i :: 0 <= i < |p| - 1 ==> p[i] < |c| && c[p[i]] == Jump(p[i + 1])
  }

  ghost predicate Leads(c: seq<Ins>, t: nat, u: nat) {
    exists p :: IsChain(c, p) && p[0] == t && p[|p| - 1] == u
  }

  /** A jump that waits for the next instruction when that is a jump goes where it goes. */
  ghost predicate ThreadedIns(c: seq<Ins>, i: Ins, j: Ins) {
    || i == j
    || (i.Branch? && j.Branch? && Leads(c, i.t, j.t))
    || (i.Jump? && j.Jump? && Leads(c, i.t, j.t))
  }

  ghost predicate Threaded(c: seq<Ins>, d: seq<Ins>) {
    |d| == |c| && forall i :: 0 <= i < |c| ==> ThreadedIns(c, c[i], d[i])
  }

  /** The program qs is ps with threaded jumps. */
  ghost predicate ThreadedProgram(ps: Program, qs: Program) {
    |qs.protos| == |ps.protos| && forall fn :: 0 <= fn < |ps.protos| ==>
        Threaded(ps.protos[fn].code, qs.protos[fn].code)
  }

  /** A chain of jumps is a path. */
  lemma {:induction false} ChainPath(ps: Program, fn: nat, a: nat, p: seq<nat>)
    requires fn < |ps.protos| && IsChain(ps.protos[fn].code, p) && Edge(ps, fn, a, p[0])
    ensures Path(ps, fn, a, p[|p| - 1])
    decreases |p|
  {
    var c := ps.protos[fn].code;
    if |p| == 1 {
      PathEdge(ps, fn, a, p[0]);
    } else {
      assert p[0] < |c| && c[p[0]] == Jump(p[1]);
      var q := p[1..];
      forall i | 0 <= i < |q| - 1
        ensures q[i] < |c| && c[q[i]] == Jump(q[i + 1])
      {
        assert c[p[i + 1]] == Jump(p[i + 2]);
      }
      ChainPath(ps, fn, p[0], q);
      PathMore(ps, fn, a, p[0], p[|p| - 1]);
    }
  }

  /** Where control goes in one step of threaded code it goes in the code before. */
  lemma EdgeThreaded(ps: Program, qs: Program, fn: nat, a: nat, b: nat)
    requires ThreadedProgram(ps, qs) && Edge(qs, fn, a, b)
    ensures Path(ps, fn, a, b)
  {
    hide Path;
    var c := ps.protos[fn].code;
    var (i, j) := (c[a], qs.protos[fn].code[a]);
    assert ThreadedIns(c, i, j);
    if Edge(ps, fn, a, b) {
      PathEdge(ps, fn, a, b);
    } else {
      var p :| IsChain(c, p) && p[0] == i.t && p[|p| - 1] == j.t;
      ChainPath(ps, fn, a, p);
    }
  }

  lemma {:induction false} PathThreaded(ps: Program, qs: Program, fn: nat, p: seq<nat>)
    requires ThreadedProgram(ps, qs) && IsPath(qs, fn, p)
    ensures Path(ps, fn, p[0], p[|p| - 1])
    decreases |p|
  {
    hide Edge, ThreadedProgram;
    assert EdgeAt(qs, fn, p, 0);
    EdgeThreaded(ps, qs, fn, p[0], p[1]);
    if |p| > 2 {
      var q := p[1..];
      forall i | 0 <= i < |q| - 1
        ensures EdgeAt(qs, fn, q, i)
      {
        assert EdgeAt(qs, fn, p, i + 1);
      }
      PathThreaded(ps, qs, fn, q);
      var r :| IsPath(ps, fn, r) && r[0] == p[0] && r[|r| - 1] == p[1];
      PathTrans(ps, fn, r, p[|p| - 1]);
    }
  }

  /** Threading jumps makes no cycle that was not there. */
  lemma ThreadedCounted(ps: Program, qs: Program)
    requires CyclesCounted(ps) && ThreadedProgram(ps, qs)
    ensures CyclesCounted(qs)
  {
    forall fn: nat, pc: nat
      ensures !At(qs, Ptr(fn, pc)).CallT? && !Path(qs, fn, pc, pc)
    {
      if Path(qs, fn, pc, pc) {
        var p :| IsPath(qs, fn, p) && p[0] == pc && p[|p| - 1] == pc;
        PathThreaded(ps, qs, fn, p);
      }
      NoTailThreaded(ps, qs, fn, pc);
    }
  }

  lemma NoTailThreaded(ps: Program, qs: Program, fn: nat, pc: nat)
    requires CyclesCounted(ps) && ThreadedProgram(ps, qs)
    ensures !At(qs, Ptr(fn, pc)).CallT?
  {
    hide Path;
    if fn < |ps.protos| && pc < |ps.protos[fn].code| {
      assert ThreadedIns(ps.protos[fn].code, ps.protos[fn].code[pc], qs.protos[fn].code[pc]);
      assert !At(ps, Ptr(fn, pc)).CallT?;
    }
  }

  /** Runs of whatever the parser emits for these statements, with its jumps threaded in
      any way, are bounded. */
  lemma EmittedBounded(ps: Program, body: nat -> Stmt, qs: Program, m: Machine)
    requires Emitted(ps, body) && ThreadedProgram(ps, qs) && Fits(qs, m)
    ensures CyclesCounted(qs) && BoundedBy(qs, m, Measure(qs, m, RankOf(qs), TopOf(qs)))
  {
    hide CyclesCounted, ThreadedProgram, Emitted, BoundedBy;
    EmittedCounted(ps, body);
    ThreadedCounted(ps, qs);
    CountedBounded(qs, m);
  }

  lemma BodyCode()
    ensures var b := When([Out], Code([Plain(UpWrite)])); Size(b) == 2 && Gen(b, 3, 6) == [Branch(5), UpWrite]
  {
    assert CondCode([Out], 3, 5) == [Branch(5)] && Gen(Code([Plain(UpWrite)]), 4, 6) == [UpWrite];
  }

  /** A conditional at the end of a while loop: its jump goes straight back to the
      condition of the loop, as no statement alone would have it. */
  lemma ThreadedExample()
    ensures var s := While([Out], When([Out], Code([Plain(UpWrite)])));
            var c := FnCode(s);
            && StmtOk(s) && c == [Stop, Branch(6), Loop, Branch(5), UpWrite, Jump(1), Ret0]
            && Threaded(c, [Stop, Branch(6), Loop, Branch(1), UpWrite, Jump(1), Ret0])
  {
    var b := When([Out], Code([Plain(UpWrite)]));
    var s := While([Out], b);
    BodyCode();
    assert Gen(s, 1, 6) == CondCode([Out], 1, 6) + [Loop] + Gen(b, 3, 6) + [Jump(1)];
    var c := FnCode(s);
    assert c == [Stop, Branch(6), Loop, Branch(5), UpWrite, Jump(1), Ret0];
    hide Gen, FnCode;
    assert IsChain(c, [5, 1]);
    assert Leads(c, 5, 1);
  }
}
