/** The main result about expressions: emitted code computes what the source says. */
module ExprTheorem {
  import opened Values
  import opened ExprCode
  import opened Emitter
  import opened EmitProof
  import opened EmitOps

  // -- Source semantics ----------------------------------------------------------------

  /** Value of an expression over the locals; None is a type error. */
  function Eval(x: Expr, R: Regs): Option<Val> {
    match x
    case EConst(k) => Some(k)
    case ELocal(r) => Some(Read(R, r))
    case EParen(y) => Eval(y, R)
    case ENot(y) =>
      var v :- Eval(y, R);
      Some(Bool(!Truthy(v)))
    case ENeg(y) =>
      var v :- Eval(y, R);
      NegVal(v)
    case EBin(op, l, r) =>
      var v :- Eval(l, R);
      if (op.OpAnd? && !Truthy(v)) || (op.OpOr? && Truthy(v)) then Some(v)
      else
        var w :- Eval(r, R);
        BinVal(op, v, w)
  }

  /** Only active locals are mentioned. */
  predicate LocalsOk(x: Expr, nact: nat) {
    match x
    case EConst(_) => true
    case ELocal(r) => r < nact
    case EParen(y) => LocalsOk(y, nact)
    case ENot(y) => LocalsOk(y, nact)
    case ENeg(y) => LocalsOk(y, nact)
    case EBin(_, l, r) => LocalsOk(l, nact) && LocalsOk(r, nact)
  }

  /** The registers below n. */
  function Below(n: nat): (b: set<nat>)
    ensures forall i: nat :: i in b <==> i < n
  {
    if n == 0 then {} else Below(n - 1) + {n - 1}
  }

  lemma EvalSame(x: Expr, R: Regs, S: Regs, nact: nat, n: nat)
    requires LocalsOk(x, nact) && nact <= n && Same(R, S, Below(n))
    ensures Eval(x, R) == Eval(x, S)
  {
  }

  // -- The theorem -----------------------------------------------------------------------

  /** What the start (q, R) leads to once x has been emitted behind s. */
  function Want(s: FS, x: Expr, q: nat, R: Regs): Expect
    requires q <= |s.code|
  {
    var o := Run(s, q, R);
    if o.Done? then Lift(o.regs, Eval(x, o.regs)) else Passes(o)
  }

  /** Correct emission of x from state s to (s', e'). */
  ghost predicate Emitted(s: FS, x: Expr, s': FS, e': Exp, q: nat, R: Regs)
    requires q <= |s.code|
  {
    && Good(s', e') && Evolves(s, NOTHING, s', e') && BaseReg(s', e') == s.free
    && Delivers(s', e', q, R, Want(s, x, q, R), Below(s.free))
  }

  lemma DeliversMono(s: FS, e: Exp, q: nat, R: Regs, x: Expect, P: set<nat>, Q: set<nat>)
    requires Delivers(s, e, q, R, x, P) && Q <= P
    ensures Delivers(s, e, q, R, x, Q)
  {
  }

  lemma Rebase(s: FS, e: Exp, q: nat, R: Regs, S: Regs, T: Regs, r: Option<Val>, P: set<nat>)
    requires Delivers(s, e, q, R, Lift(S, r), P) && Same(T, S, P) && |T| == MAX_SLOTS
    ensures Delivers(s, e, q, R, Lift(T, r), P)
  {
  }

  /** The left operand of a strict operator ends up as an operand. */
  lemma LeftOk(s: FS, op: BinOp, e: Exp, q: nat, R: Regs, x: Expect, P: set<nat>)
    requires Good(s, e) && !op.OpAnd? && !op.OpOr? && BinopLeft(s, op, e).Some?
    requires BaseReg(s, e) !in P && Start(s, q) && Delivers(s, e, q, R, x, P)
    ensures var (s', e') := BinopLeft(s, op, e).value;
            && Good(s', e') && Evolves(s, e, s', e') && BaseReg(s', e') == BaseReg(s, e)
            && Operand(e') && (e'.k.KConst? && !op.OpEq? ==> e'.IsNumK())
            && Start(s', q) && Delivers(s', e', q, R, x, P)
  {
    if ToAnyReg(s, e).Some? {
      ToAnyRegWf(s, e);
      ToAnyRegOk(s, e, q, R, x, P);
    }
  }

  lemma StrictReady(s: FS, l: Expr, s2: FS, e1: Exp, r: Expr, s3: FS, e2: Exp, q: nat, R: Regs, v1: Val)
    requires Wf(s) && Start(s, q) && |R| == MAX_SLOTS && s.nact <= s.free
    requires Good(s2, e1) && Operand(e1) && Start(s2, q) && BaseReg(s2, e1) == s.free && s2.nact == s.nact
    requires Delivers(s2, e1, q, R, Want(s, l, q, R), Below(s.free))
    requires Emitted(s2, r, s3, e2, q, R)
    requires var x := Want(s, l, q, R); x.Gets? ==> v1 == x.v
    ensures BinReady(s3, e1, e2, q, R, Want(s2, r, q, R), v1, Below(s.free), s.free)
  {
    var P := Below(s.free) + RegSet(e1);
    assert P <= Below(s2.free);
    DeliversMono(s3, e2, q, R, Want(s2, r, q, R), Below(s2.free), P);
  }

  /** From the operands' expectations to the whole expression's. */
  lemma StrictWant(s: FS, op: BinOp, l: Expr, r: Expr, s2: FS, e1: Exp, s': FS, e': Exp, q: nat, R: Regs, v1: Val)
    requires Wf(s) && Start(s, q) && |R| == MAX_SLOTS && !op.OpAnd? && !op.OpOr?
    requires LocalsOk(r, s.nact) && Operand(e1) && q <= |s2.code|
    requires Delivers(s2, e1, q, R, Want(s, l, q, R), Below(s.free))
    requires var x := Want(s, l, q, R); x.Gets? ==> v1 == x.v
    requires Delivers(s', e', q, R, BinExpect(op, v1, Want(s2, r, q, R)), Below(s.free))
    ensures Delivers(s', e', q, R, Want(s, EBin(op, l, r), q, R), Below(s.free))
  {
    var o := Run(s, q, R);
    if o.Done? && Eval(l, o.regs).Some? {
      var S := Run(s2, q, R).regs;
      assert Same(o.regs, S, Below(s.free));
      EvalSame(r, o.regs, S, s.nact, s.free);
      if Eval(r, S).Some? {
        Rebase(s', e', q, R, S, o.regs, BinVal(op, v1, Eval(r, S).value), Below(s.free));
      }
    }
  }

  lemma StrictOk(s: FS, op: BinOp, l: Expr, r: Expr, s1: FS, e0: Exp, s2: FS, e1: Exp, s3: FS, e2: Exp, q: nat, R: Regs)
    requires Wf(s) && Start(s, q) && |R| == MAX_SLOTS && !op.OpAnd? && !op.OpOr? && LocalsOk(r, s.nact)
    requires Emitted(s, l, s1, e0, q, R)
    requires BinopLeft(s1, op, e0) == Some((s2, e1)) && q <= |s2.code|
    requires Emitted(s2, r, s3, e2, q, R)
    requires Binop(s3, op, e1, e2).Some?
    ensures var (s', e') := Binop(s3, op, e1, e2).value; Emitted(s, EBin(op, l, r), s', e', q, R)
  {
    hide Binop, BinopLeft, Delivers, Evolves, Want, Below;
    EvolvesBasics(s, NOTHING, s1, e0, q);
    var x1 := Want(s, l, q, R);
    var v1 := if x1.Gets? then x1.v else Nil;
    LeftOk(s1, op, e0, q, R, x1, Below(s.free));
    EvolvesBasics(s1, e0, s2, e1, q);
    StrictReady(s, l, s2, e1, r, s3, e2, q, R, v1);
    var (s', e') := Binop(s3, op, e1, e2).value;
    StrictBin(s3, op, e1, e2, q, R, Want(s2, r, q, R), v1, Below(s.free), s.free);
    StrictWant(s, op, l, r, s2, e1, s', e', q, R, v1);
    assert Evolves(s, NOTHING, s', e') by {
      EvolvesTrans(s, NOTHING, s1, e0, s2, e1);
      PlainEvolves(s, NOTHING, s2, e1, s2);
      EvolvesTrans(s, NOTHING, s2, NOTHING, s3, e2);
      EvolvesTrans(s, NOTHING, s3, e2, s', e');
    }
  }

  lemma EvolvesBasics(s: FS, e: Exp, s': FS, e': Exp, q: nat)
    requires Evolves(s, e, s', e') && Start(s, q)
    ensures s'.nact == s.nact && Start(s', q) && q <= |s.code| <= |s'.code|
  {
  }

  lemma StrictBin(s: FS, op: BinOp, e1: Exp, e2: Exp, q: nat, R: Regs, x: Expect, v1: Val, P: set<nat>, B: nat)
    requires BinReady(s, e1, e2, q, R, x, v1, P, B) && !op.OpAnd? && !op.OpOr? && Binop(s, op, e1, e2).Some?
    requires e1.k.KConst? && !op.OpEq? ==> e1.IsNumK()
    ensures BinDone(s, e2, Binop(s, op, e1, e2).value, q, R, BinExpect(op, v1, x), P, B)
  {
    hide EmitArith, EmitEq, EmitOrd;
    match op {
      case OpArith(a) => EmitArithOk(s, a, e1, e2, q, R, x, v1, P, B);
      case OpEq(ne) => EmitEqOk(s, ne, e1, e2, q, R, x, v1, P, B);
      case OpOrd(c) => EmitOrdOk(s, c, e1, e2, q, R, x, v1, P, B);
      case OpAnd =>
      case OpOr =>
    }
  }

  lemma EmitOrdOk(s: FS, op: CmpOp, e1: Exp, e2: Exp, q: nat, R: Regs, x: Expect, v1: Val, P: set<nat>, B: nat)
    requires BinReady(s, e1, e2, q, R, x, v1, P, B) && (e1.k.KConst? ==> e1.IsNumK())
    requires EmitOrd(s, op, e1, e2).Some?
    ensures BinDone(s, e2, EmitOrd(s, op, e1, e2).value, q, R, BinExpect(OpOrd(op), v1, x), P, B)
  {
    hide EmitOrd;
    if op.LT? || op.LE? {
      OrdPlainOk(s, op, e1, e2, q, R, x, v1, P, B);
    } else {
      OrdSwappedOk(s, op, e1, e2, q, R, x, v1, P, B);
    }
  }

  // -- Short-circuit operators --------------------------------------------------------------

  /** Jumps M of the left operand join the expression emitted for the right one. */
  lemma JoinWf(s2: FS, M: set<nat>, s3: FS, e2: Exp, e: Exp)
    requires BranchWf(s2, M) && Good(s3, e2) && Evolves(s2, NOTHING, s3, e2) && e.k == Discharge(e2).k
    requires (e.t == e2.t && e.f == e2.f + M) || (e.t == e2.t + M && e.f == e2.f)
    ensures Good(s3, e) && Evolves(s2, Lists({}, M), s3, e) && BaseReg(s3, e) == BaseReg(s3, e2)
    ensures forall j :: j in M ==> Kept(s2.code, s3.code, j)
  {
    forall j | j in M
      ensures IsPending(s2.code, j) && Kept(s2.code, s3.code, j) && j !in Owns(s3, e2)
    {
      assert IsPending(s2.code, j);
      assert j !in Owns(s2, NOTHING);
    }
    assert Owns(s3, e) == Owns(s3, e2) + M;
    assert Owns(s2, Lists({}, M)) == Owns(s2, NOTHING) + M;
  }

  /** If the left operand decides, its value leaves through M and stays right. */
  lemma JoinDecided(s2: FS, M: set<nat>, s3: FS, e2: Exp, e: Exp, q: nat, R: Regs, R0: Regs, v: Val, b: bool,
                    P: set<nat>)
    requires BranchWf(s2, M) && Good(s3, e2) && Evolves(s2, NOTHING, s3, e2) && e.k == Discharge(e2).k
    requires if b then e.t == e2.t && e.f == e2.f + M else e.t == e2.t + M && e.f == e2.f
    requires q <= |s2.code| && Delivers(s3, e2, q, R, Passes(Run(s2, q, R)), Below(s2.free))
    requires var o := Run(s2, q, R);
             o.Exit? && o.j in M && Brings(s2.code, o.j, o.regs, v, !b) && Same(R0, o.regs, P) && |R0| == MAX_SLOTS
    ensures Delivers(s3, e, q, R, Gets(R0, v), P)
  {
    JoinWf(s2, M, s3, e2, e);
    assert Kept(s2.code, s3.code, Run(s2, q, R).j);
  }

  lemma ShortWant(s: FS, op: BinOp, l: Expr, r: Expr, s2: FS, M: set<nat>, s3: FS, e2: Exp, e: Exp, q: nat, R: Regs)
    requires Wf(s) && Start(s, q) && |R| == MAX_SLOTS && (op.OpAnd? || op.OpOr?) && LocalsOk(r, s.nact)
    requires BranchWf(s2, M) && Start(s2, q) && s2.free == s.free
    requires Branched(s2, M, Run(s2, q, R), Want(s, l, q, R), Below(s.free), op.OpAnd?)
    requires Emitted(s2, r, s3, e2, q, R) && e.k == Discharge(e2).k
    requires if op.OpAnd? then e.t == e2.t && e.f == e2.f + M else e.t == e2.t + M && e.f == e2.f
    ensures Delivers(s3, e, q, R, Want(s, EBin(op, l, r), q, R), Below(s.free))
  {
    hide Delivers, Evolves, Good, Below;
    var o := Run(s, q, R);
    var P := Below(s.free);
    if o.Done? && Eval(l, o.regs).Some? {
      var v := Eval(l, o.regs).value;
      if Truthy(v) == op.OpAnd? {
        ShortGoesOn(s, l, r, s2, s3, e2, e, q, R, P);
      } else {
        JoinDecided(s2, M, s3, e2, e, q, R, o.regs, v, op.OpAnd?, P);
      }
    } else {
      JoinPasses(s2, M, s3, e2, e, q, R, r, P);
    }
  }

  /** The left operand does not decide: the value is the right one's. */
  lemma ShortGoesOn(s: FS, l: Expr, r: Expr, s2: FS, s3: FS, e2: Exp, e: Exp, q: nat, R: Regs, P: set<nat>)
    requires Wf(s) && Start(s, q) && LocalsOk(r, s.nact) && q <= |s2.code| && P == Below(s.free)
    requires var o := Run(s, q, R); o.Done? && |o.regs| == MAX_SLOTS
    requires var o2 := Run(s2, q, R); o2.Done? && Same(Run(s, q, R).regs, o2.regs, P)
    requires Delivers(s3, e2, q, R, Want(s2, r, q, R), P)
    requires e.k == Discharge(e2).k && e2.t <= e.t && e2.f <= e.f
    ensures Delivers(s3, e, q, R, Lift(Run(s, q, R).regs, Eval(r, Run(s, q, R).regs)), P)
  {
    var S := Run(s2, q, R).regs;
    var o := Run(s, q, R);
    EvalSame(r, o.regs, S, s.nact, s.free);
    JoinOther(s3, e2, e, q, R, Want(s2, r, q, R), P);
    Rebase(s3, e, q, R, S, o.regs, Eval(r, S), P);
  }

  lemma JoinPasses(s2: FS, M: set<nat>, s3: FS, e2: Exp, e: Exp, q: nat, R: Regs, r: Expr, P: set<nat>)
    requires BranchWf(s2, M) && q <= |s2.code| && Good(s3, e2) && Evolves(s2, NOTHING, s3, e2) && e.k == Discharge(e2).k
    requires (e.t == e2.t && e.f == e2.f + M) || (e.t == e2.t + M && e.f == e2.f)
    requires var o := Run(s2, q, R); !o.Done? && (o.Exit? ==> o.j !in M)
    requires Delivers(s3, e2, q, R, Want(s2, r, q, R), P)
    ensures Delivers(s3, e, q, R, Passes(Run(s2, q, R)), P)
  {
    assert Owns(s3, e) == Owns(s3, e2) + M;
  }

  /** Adding jumps to the lists does not disturb what e2 delivers. */
  lemma JoinOther(s: FS, e2: Exp, e: Exp, q: nat, R: Regs, x: Expect, P: set<nat>)
    requires Delivers(s, e2, q, R, x, P) && e.k == Discharge(e2).k && e2.t <= e.t && e2.f <= e.f
    requires x.Passes? ==> x.o.Fail?
    ensures Delivers(s, e, q, R, x, P)
  {
  }

  lemma ShortOk(s: FS, op: BinOp, l: Expr, r: Expr, s1: FS, e0: Exp, s2: FS, e1: Exp, s3: FS, e2: Exp, q: nat, R: Regs)
    requires Wf(s) && Start(s, q) && |R| == MAX_SLOTS && (op.OpAnd? || op.OpOr?) && LocalsOk(r, s.nact)
    requires Emitted(s, l, s1, e0, q, R)
    requires BinopLeft(s1, op, e0) == Some((s2, e1)) && q <= |s2.code|
    requires Emitted(s2, r, s3, e2, q, R)
    ensures var (s', e') := Binop(s3, op, e1, e2).value; Emitted(s, EBin(op, l, r), s', e', q, R)
  {
    hide BranchT, BranchF;
    var x1 := Want(s, l, q, R);
    if op.OpAnd? {
      BranchTOk(s1, e0, q, R, x1, Below(s.free));
    } else {
      BranchFOk(s1, e0, q, R, x1, Below(s.free));
    }
    var M := if op.OpAnd? then e1.f else e1.t;
    var (s', e') := Binop(s3, op, e1, e2).value;
    ShortWant(s, op, l, r, s2, M, s3, e2, e', q, R);
    JoinWf(s2, M, s3, e2, e');
    EvolvesTrans(s, NOTHING, s1, e0, s2, Lists({}, M));
    EvolvesTrans(s, NOTHING, s2, Lists({}, M), s', e');
  }

  // -- Expressions ----------------------------------------------------------------------------

  /** Emitting any expression is correct: started anywhere, the code delivers the
      value of x where it used to fall off the end, and nothing else changes. */
  lemma {:induction false} CompileOk(s: FS, x: Expr, q: nat, R: Regs)
    requires Wf(s) && Start(s, q) && |R| == MAX_SLOTS && LocalsOk(x, s.nact) && Compile(s, x).Some?
    ensures var (s', e') := Compile(s, x).value; Emitted(s, x, s', e', q, R)
    decreases x
  {
    hide BinopLeft, Binop, EmitNot, EmitNeg;
    match x {
      case EConst(k) =>
      case ELocal(r) =>
      case EParen(y) =>
        CompileOk(s, y, q, R);
        var (s1, e) := Compile(s, y).value;
        DischargeOk(s1, e);
        EvolvesTrans(s, NOTHING, s1, e, s1, Discharge(e));
      case ENot(y) =>
        CompileOk(s, y, q, R);
        var (s1, e) := Compile(s, y).value;
        EmitNotOk(s1, e, q, R, Want(s, y, q, R), Below(s.free));
        var (s', e') := EmitNot(s1, e).value;
        EvolvesTrans(s, NOTHING, s1, e, s', e');
      case ENeg(y) =>
        CompileOk(s, y, q, R);
        var (s1, e) := Compile(s, y).value;
        EmitNegOk(s1, e, q, R, Want(s, y, q, R), Below(s.free));
        var (s', e') := EmitNeg(s1, e).value;
        EvolvesTrans(s, NOTHING, s1, e, s', e');
      case EBin(op, l, r) =>
        CompileOk(s, l, q, R);
        var (s1, e0) := Compile(s, l).value;
        var (s2, e1) := BinopLeft(s1, op, e0).value;
        assert Wf(s2) && Start(s2, q) && s2.nact == s.nact by { LeftState(s, s1, op, e0, q, R, Want(s, l, q, R)); }
        CompileOk(s2, r, q, R);
        var (s3, e2) := Compile(s2, r).value;
        if op.OpAnd? || op.OpOr? {
          ShortOk(s, op, l, r, s1, e0, s2, e1, s3, e2, q, R);
        } else {
          StrictOk(s, op, l, r, s1, e0, s2, e1, s3, e2, q, R);
        }
    }
  }

  lemma LeftState(s: FS, s1: FS, op: BinOp, e0: Exp, q: nat, R: Regs, x: Expect)
    requires Good(s1, e0) && Evolves(s, NOTHING, s1, e0) && Start(s, q) && BinopLeft(s1, op, e0).Some?
    requires BaseReg(s1, e0) == s.free && Delivers(s1, e0, q, R, x, Below(s.free))
    ensures var s2 := BinopLeft(s1, op, e0).value.0; Wf(s2) && Start(s2, q) && s2.nact == s.nact
  {
    hide BranchT, BranchF, ToAnyReg;
    if op.OpAnd? {
      BranchTOk(s1, e0, q, R, x, Below(s.free));
    } else if op.OpOr? {
      BranchFOk(s1, e0, q, R, x, Below(s.free));
    } else {
      LeftOk(s1, op, e0, q, R, x, Below(s.free));
    }
  }

  /** expr_next on any expression: where the code used to end with registers S,
      it now ends with the value of x in the next free register and every register
      in use unchanged; if x is a type error the run stops there; every other run
      is untouched. */
  lemma ExprNextCorrect(s: FS, x: Expr, q: nat, R: Regs)
    requires Wf(s) && Start(s, q) && |R| == MAX_SLOTS && LocalsOk(x, s.nact)
    requires Compile(s, x).Some? && ToNextReg(Compile(s, x).value.0, Compile(s, x).value.1).Some?
    ensures var s1 := Compile(s, x).value.0;
            var (s', e') := ToNextReg(s1, Compile(s, x).value.1).value;
            var o := Run(s, q, R);
            && Wf(s') && s'.free == s.free + 1 && q <= |s'.code| && e' == Exp(KReg(s.free), {}, {})
            && var o' := Run(s', q, R);
               if !o.Done? then o' == o
               else match Eval(x, o.regs)
                    case None => o'.Fail?
                    case Some(v) => o'.Done? && Read(o'.regs, s.free) == v && Same(o.regs, o'.regs, Below(s.free))
  {
    hide ToNextReg, Compile;
    var (s1, e) := Compile(s, x).value;
    CompileOk(s, x, q, R);
    ToNextRegWf(s1, e);
    ToNextRegOk(s1, e, q, R, Want(s, x, q, R), Below(s.free));
  }
}
