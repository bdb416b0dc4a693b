/** No jump is lost: every jump without a target belongs to the expression being
    emitted, waits for the next instruction, or was there before. So finished code
    has no jump without a target and no instruction without a register. */
module Leaks {
  import opened Values
  import opened ExprCode
  import opened Emitter
  import opened EmitProof
  import opened ExprTheorem

  /** The jumps without a target. */
  function Pend(c: Code): set<nat> {
    set j: nat | j < |c| && c[j] == Jmp(Pending)
  }

  /** Every jump without a target is accounted for; Q are those of others. */
  predicate Tight(s: FS, e: Exp, Q: set<nat>) {
    Pend(s.code) <= Owns(s, e) + Q
  }

  // -- Changes of code -----------------------------------------------------------------------------

  lemma PatchPend(c: Code, L: set<nat>, vt: nat, reg: nat, dt: nat)
    ensures Pend(Patch(c, L, vt, reg, dt)) <= Pend(c) - L
  {
    var p := Patch(c, L, vt, reg, dt);
    forall j | j in Pend(p)
      ensures j in Pend(c) - L
    {
      assert p[j] == PatchAt(c, L, vt, reg, dt, j);
    }
  }

  lemma AppendPend(c: Code, i: Ins)
    ensures Pend(c + [i]) == Pend(c) + if i == Jmp(Pending) then {|c|} else {}
  {
    forall j: nat
      ensures j in Pend(c + [i]) <==> j in Pend(c) + if i == Jmp(Pending) then {|c|} else {}
    {
      if j < |c| { assert (c + [i])[j] == c[j]; }
    }
  }

  lemma ReplacePend(c: Code, p: nat, i: Ins)
    requires p < |c| && (i == Jmp(Pending) ==> c[p] == i)
    ensures Pend(c[p := i]) <= Pend(c)
  {
  }

  lemma DropPend(c: Code, L: set<nat>)
    ensures Pend(DropVal(c, L)) <= Pend(c)
  {
    var d := DropVal(c, L);
    forall j | j in Pend(d)
      ensures j in Pend(c)
    {
      assert d[j] == if j + 1 in L then PatchGuard(c[j], j, NO_REG) else c[j];
    }
  }

  lemma EmitPend(s: FS, i: Ins)
    requires i != Jmp(Pending)
    ensures Pend(Emit(s, i).code) <= Pend(s.code) - s.jpc && Emit(s, i).jpc == {}
  {
    hide Pend, Patch;
    var c := Patch(s.code, s.jpc, s.Pc(), NO_REG, s.Pc());
    PatchPend(s.code, s.jpc, s.Pc(), NO_REG, s.Pc());
    AppendPend(c, i);
  }

  lemma EmitJmpPend(s: FS)
    ensures var (s', L) := EmitJmp(s);
            Pend(s'.code) == Pend(s.code) + {|s.code|} && s'.jpc == {} && L == {|s.code|} + s.jpc
  {
    hide Pend;
    AppendPend(s.code, Jmp(Pending));
  }

  lemma EmitNilPend(s: FS, from: nat, n: nat)
    requires n >= 1
    ensures var s' := EmitNil(s, from, n);
            Pend(s'.code) <= Pend(s.code) && (s'.jpc == s.jpc || (s'.jpc == {} && Pend(s'.code) !! s.jpc))
  {
    hide Pend, Emit;
    EmitPend(s, if n == 1 then LoadK(from, Nil) else KNil(from, from + n - 1));
    var m := |s.code| - 1;
    if s.Pc() > s.last {
      ReplacePend(s.code, m, KNil(from, from + n - 1));
      if s.code[m].LoadK? || s.code[m].KNil? { ReplacePend(s.code, m, KNil(s.code[m].a, from + n - 1)); }
    }
  }

  // -- Loading expressions ----------------------------------------------------------------------------

  lemma LoadTight(s: FS, e: Exp, reg: nat, Q: set<nat>)
    requires Tight(s, e, Q)
    ensures var (s', e') := ToRegNoBranch(s, e, reg); Tight(s', e', Q) && e'.t == e.t && e'.f == e.f
  {
    hide Pend, Emit, EmitNil;
    var d := Discharge(e);
    match d.k {
      case KConst(k) =>
        EmitNilPend(s, reg, 1);
        EmitPend(Pool(s, k), LoadK(reg, k));
      case KReloc(p) =>
        if p < |s.code| && s.code[p].Alu? { ReplacePend(s.code, p, Alu(s.code[p].f, reg)); }
      case KReg(r) => EmitPend(s, Mov(reg, r));
      case KJmp(_) =>
      case KLocal(_) =>
    }
  }

  lemma SettlePend(s: FS, e: Exp, reg: nat, jf: nat, jt: nat)
    ensures Pend(Settle(s, e, reg, jf, jt).code) <= Pend(s.code) - e.t - e.f && Settle(s, e, reg, jf, jt).jpc == s.jpc
  {
    hide Pend, Patch;
    PatchPend(s.code, e.f, s.Pc(), reg, jf);
    PatchPend(Patch(s.code, e.f, s.Pc(), reg, jf), e.t, s.Pc(), reg, jt);
  }

  lemma BoolsPend(s: FS, reg: nat, jval: set<nat>)
    requires s.jpc == {}
    ensures var s' := EmitBools(s, reg, jval); Pend(s'.code) <= Pend(s.code) && s'.jpc == jval
  {
    hide Pend, Emit;
    var s1 := Emit(s, LoadK(reg, False));
    var s2 := Emit(s1, Jmp(To(s1.Pc() + 2)));
    EmitPend(s, LoadK(reg, False));
    EmitPend(s1, Jmp(To(s1.Pc() + 2)));
    EmitPend(s2, LoadK(reg, True));
    assert {} + jval == jval;
  }

  lemma SettleTight(s: FS, e: Exp, reg: nat, Q: set<nat>)
    requires Tight(s, e, Q) && (e.k.KJmp? ==> s.jpc == {})
    ensures Tight(SettleAll(s, e, reg), Exp(KReg(reg), {}, {}), Q)
  {
    hide Pend, Settle, EmitBools, NoValue;
    var j := JoinJmp(e);
    assert Owns(s, e) == s.jpc + j.t + j.f;
    if j.HasJump() {
      if NoValue(s.code, j.t) || NoValue(s.code, j.f) {
        var (s1, jval) := if j.k.KJmp? then (s, {}) else EmitJmp(s);
        EmitJmpPend(s);
        BoolsPend(s1, reg, jval);
        SettlePend(EmitBools(s1, reg, jval), j, reg, s1.Pc(), s1.Pc() + 2);
      } else {
        SettlePend(s, j, reg, 0, 0);
      }
    }
  }

  /** What the emitters promise about an expression that ends in its own jump. */
  predicate JmpLast(s: FS, e: Exp) {
    e.k.KJmp? ==> s.jpc == {}
  }

  predicate Plain(e: Exp) {
    e.t == {} && e.f == {} && !e.k.KJmp?
  }

  lemma ToRegTight(s: FS, e: Exp, reg: nat, Q: set<nat>)
    requires Tight(s, e, Q) && JmpLast(s, e)
    ensures var (s', e') := ToReg(s, e, reg); Tight(s', e', Q) && Plain(e')
  {
    hide Pend, SettleAll, ToRegNoBranch, Owns;
    LoadTight(s, e, reg, Q);
    var (s1, e1) := ToRegNoBranch(s, e, reg);
    LoadJmp(s, e, reg);
    SettleTight(s1, e1, reg, Q);
  }

  lemma LoadJmp(s: FS, e: Exp, reg: nat)
    ensures var (s', e') := ToRegNoBranch(s, e, reg); e'.k.KJmp? ==> s' == s && e.k.KJmp?
  {
  }

  lemma SameTight(s: FS, e: Exp, s': FS, e': Exp, Q: set<nat>)
    requires Tight(s, e, Q) && s'.code == s.code && s'.jpc == s.jpc && Owns(s', e') == Owns(s, e)
    ensures Tight(s', e', Q)
  {
  }

  lemma ToNextRegTight(s: FS, e: Exp, Q: set<nat>)
    requires Tight(s, e, Q) && JmpLast(s, e) && ToNextReg(s, e).Some?
    ensures var (s', e') := ToNextReg(s, e).value; Tight(s', e', Q) && Plain(e')
  {
    hide Pend, Tight, ToReg;
    var d := Discharge(e);
    var s1 := Reserve(FreeExp(s, d), 1).value;
    SameTight(s, e, s1, d, Q);
    ToRegTight(s1, d, Dec(s1.free), Q);
  }

  lemma ToAnyRegTight(s: FS, e: Exp, Q: set<nat>)
    requires Tight(s, e, Q) && JmpLast(s, e) && ToAnyReg(s, e).Some?
    ensures var (s', e') := ToAnyReg(s, e).value; Tight(s', e', Q) && Plain(e')
  {
    hide Pend, Tight, ToReg, ToNextReg;
    var d := Discharge(e);
    SameTight(s, e, s, d, Q);
    if d.k.KReg? && d.k.r >= s.nact { ToRegTight(s, d, d.k.r, Q); }
    if ToNextReg(s, d).Some? { ToNextRegTight(s, d, Q); }
  }

  lemma ToValTight(s: FS, e: Exp, Q: set<nat>)
    requires Tight(s, e, Q) && JmpLast(s, e) && ToVal(s, e).Some?
    ensures var (s', e') := ToVal(s, e).value; Tight(s', e', Q) && e'.t == {} && e'.f == {} && JmpLast(s', e')
    ensures Plain(e) ==> Plain(ToVal(s, e).value.1)
  {
    hide Pend, Tight, ToAnyReg;
    if e.HasJump() { ToAnyRegTight(s, e, Q); } else { SameTight(s, e, s, Discharge(e), Q); }
  }

  // -- Branches ------------------------------------------------------------------------------------------

  /** After a branch: the new jumps L belong to the expression. */
  predicate SplitTight(s: FS, e: Exp, L: set<nat>, Q: set<nat>) {
    Pend(s.code) <= s.jpc + e.t + e.f + L + Q
  }

  lemma BranchTight(s: FS, e: Exp, cond: bool, Q: set<nat>)
    requires Tight(s, e, Q) && !e.k.KJmp? && Branch(s, e, cond).Some?
    ensures var (s', L) := Branch(s, e, cond).value; SplitTight(s', e, L, Q)
  {
    hide Pend, Emit, ToRegNoBranch;
    if e.k.KReloc? && e.k.pc < |s.code| && s.code[e.k.pc].Alu? && s.code[e.k.pc].f.Not? {
      var t := Test(!cond, s.code[e.k.pc].f.d);
      ReplacePend(s.code, e.k.pc, t);
      EmitJmpPend(s.(code := s.code[e.k.pc := t]));
    } else {
      var s0 := if e.k.KReg? then s else Reserve(s, 1).value;
      var (s1, e1) := if e.k.KReg? then (s0, e) else ToRegNoBranch(s0, e, Dec(s0.free));
      LoadTight(s0, e, Dec(s0.free), Q);
      LoadJmp(s0, e, Dec(s0.free));
      var r := if e1.k.KReg? then e1.k.r else 0;
      EmitPend(s1, TestCopy(cond, NO_REG, r));
      EmitJmpPend(Emit(s1, TestCopy(cond, NO_REG, r)));
    }
  }

  lemma BranchOnTight(s: FS, e: Exp, b: bool, Q: set<nat>)
    requires Tight(s, e, Q) && BranchOn(s, e, b).Some?
    ensures var (s', L) := BranchOn(s, e, b).value; SplitTight(s', e, L, Q)
  {
    hide Pend, ToRegNoBranch, Branch;
    match e.k {
      case KConst(k) =>
        LoadTight(s, e, NO_REG, Q);
        LoadJmp(s, e, NO_REG);
        EmitJmpPend(ToRegNoBranch(s, e, NO_REG).0);
      case KJmp(pc) =>
        if 1 <= pc <= |s.code| { ReplacePend(s.code, pc - 1, InvertTest(s.code[pc - 1])); }
      case KReg(_) => BranchTight(s, e, !b, Q);
      case KReloc(_) => BranchTight(s, e, !b, Q);
      case KLocal(_) => BranchTight(s, e, !b, Q);
    }
  }

  lemma LeftTight(s: FS, op: BinOp, e: Exp, Q: set<nat>)
    requires Tight(s, e, Q) && JmpLast(s, e) && BinopLeft(s, op, e).Some?
    ensures var (s', e') := BinopLeft(s, op, e).value;
            && Pend(s'.code) <= s'.jpc + e'.t + e'.f + Q
            && (op.OpAnd? ==> e'.t == {}) && (op.OpOr? ==> e'.f == {}) && (!op.OpAnd? && !op.OpOr? ==> Plain(e'))
  {
    hide Pend, ToAnyReg, BranchOn;
    var d := Discharge(e);
    assert Owns(s, d) == Owns(s, e);
    if op.OpAnd? {
      BranchTIs(s, e);
      BranchOnTight(s, d, true, Q);
    } else if op.OpOr? {
      BranchFIs(s, e);
      BranchOnTight(s, d, false, Q);
    } else if ToAnyReg(s, e).Some? {
      ToAnyRegTight(s, e, Q);
    }
  }

  // -- Operators -----------------------------------------------------------------------------------------

  /** Two operands: the first has no jumps. */
  lemma ArithTight(s: FS, op: ArithOp, e1: Exp, e2: Exp, Q: set<nat>)
    requires Tight(s, e2, Q) && JmpLast(s, e2) && Plain(e1) && EmitArith(s, op, e1, e2).Some?
    ensures var (s', e') := EmitArith(s, op, e1, e2).value; Tight(s', e', Q) && JmpLast(s', e')
  {
    hide Pend, ToVal, ToAnyReg, Emit;
    if !(e1.IsNumK() && !e1.HasJump() && e2.IsNumK() && !e2.HasJump()) {
      ToValTight(s, e2, Q);
      var (s1, y) := ToVal(s, e2).value;
      var (s2, yi) := if y.IsNumK() then ConstNum(s1, y.k.k.n) else (s1, 0);
      var yk := y.IsNumK() && yi <= MAX_C;
      if !yk { ToAnyRegTight(s2, y, Q); }
      var (s3, y1) := if yk then (s2, y) else ToAnyReg(s2, y).value;
      ToValTight(s3, e1, Q);
      var (s4, x) := ToVal(s3, e1).value;
      var (s5, xi) := if x.IsNumK() && !y1.IsNumK() then ConstNum(s4, x.k.k.n) else (s4, 0);
      var xk := x.IsNumK() && !y1.IsNumK() && xi <= MAX_C;
      if !xk { ToAnyRegTight(s5, x, Q); }
      var (s6, x1) := if xk then (s5, x) else ToAnyReg(s5, x).value;
      var f := if xk then ArithNV(op, RegOf(y1), x.k.k.n)
               else if yk then ArithVN(op, RegOf(x1), y.k.k.n)
               else ArithVV(op, RegOf(x1), RegOf(y1));
      EmitPend(FreeOperands(s6, x1, y1), Alu(f, 0));
    }
  }

  lemma TestTight(s: FS, i: Ins, Q: set<nat>)
    requires i != Jmp(Pending) && Pend(s.code) <= s.jpc + Q
    ensures var (s', e') := EmitTest(s, i); Tight(s', e', Q) && JmpLast(s', e')
  {
    hide Pend, Emit;
    EmitPend(s, i);
    EmitJmpPend(Emit(s, i));
  }

  lemma EqTight(s: FS, ne: bool, e1: Exp, e2: Exp, Q: set<nat>)
    requires Tight(s, e2, Q) && JmpLast(s, e2) && Plain(e1) && EmitEq(s, ne, e1, e2).Some?
    ensures var (s', e') := EmitEq(s, ne, e1, e2).value; Tight(s', e', Q) && JmpLast(s', e')
  {
    hide Pend, ToAnyReg, EmitTest;
    var l := Discharge(e1);
    assert ToVal(s, e1) == Some((s, l)) && Plain(l);
    var (x, y) := if l.IsConst() then (e2, l) else (l, e2);
    TwoTight(s, x, y, l.IsConst(), Q);
    var (s2, x1) := ToAnyReg(s, x).value;
    ToValTight(s2, y, Q);
    var (s3, y1) := ToVal(s2, y).value;
    if y1.IsConst() {
      var s4 := if y1.IsNumK() then ConstNum(s3, y1.k.k.n).0 else s3;
      TestTight(FreeOperands(s4, x1, y1), EqK(ne, RegOf(x1), y1.k.k), Q);
    } else {
      ToAnyRegTight(s3, y1, Q);
      var (s4, y2) := ToAnyReg(s3, y1).value;
      TestTight(FreeOperands(s4, x1, y2), EqV(ne, RegOf(x1), RegOf(y2)), Q);
    }
  }

  /** Loading x while y waits; one of them has no jumps. */
  lemma TwoTight(s: FS, x: Exp, y: Exp, first: bool, Q: set<nat>)
    requires ToAnyReg(s, x).Some? && (if first then Plain(y) else Plain(x))
    requires Tight(s, if first then x else y, Q) && JmpLast(s, if first then x else y)
    ensures var (s', x') := ToAnyReg(s, x).value; Tight(s', y, Q) && JmpLast(s', y) && Plain(x')
  {
    hide Pend, ToReg;
    if first {
      ToAnyRegTight(s, x, Q);
    } else {
      PlainLoad(s, x, y, Q);
    }
  }

  /** Loading an operand without jumps leaves those of another one alone. */
  lemma PlainLoad(s: FS, x: Exp, y: Exp, Q: set<nat>)
    requires ToAnyReg(s, x).Some? && Plain(x) && Tight(s, y, Q) && JmpLast(s, y)
    ensures var (s', x') := ToAnyReg(s, x).value; Tight(s', y, Q) && JmpLast(s', y) && Plain(x')
  {
    hide Pend, Tight, Owns;
    var R := Q + y.t + y.f + (if y.k.KJmp? then {y.k.pc} else {});
    OthersTight(s, x, y, Q, R);
    ToAnyRegTight(s, x, R);
    var (s', x') := ToAnyReg(s, x).value;
    OthersBack(s', x', y, Q, R);
    JpcShrinks(s, x);
  }

  lemma OthersTight(s: FS, x: Exp, y: Exp, Q: set<nat>, R: set<nat>)
    requires Plain(x) && Tight(s, y, Q) && R == Q + y.t + y.f + (if y.k.KJmp? then {y.k.pc} else {})
    ensures Tight(s, x, R) && JmpLast(s, x)
  {
    hide Pend;
  }

  lemma OthersBack(s: FS, x: Exp, y: Exp, Q: set<nat>, R: set<nat>)
    requires Plain(x) && Tight(s, x, R) && R == Q + y.t + y.f + (if y.k.KJmp? then {y.k.pc} else {})
    ensures Tight(s, y, Q)
  {
    hide Pend;
  }

  /** Loading an operand without jumps adds no jump to the next instruction. */
  lemma JpcShrinks(s: FS, x: Exp)
    requires ToAnyReg(s, x).Some? && Plain(x)
    ensures ToAnyReg(s, x).value.0.jpc <= s.jpc
  {
    hide Patch;
  }

  lemma OrdTight(s: FS, op: CmpOp, e1: Exp, e2: Exp, Q: set<nat>)
    requires Tight(s, e2, Q) && JmpLast(s, e2) && Plain(e1) && EmitOrd(s, op, e1, e2).Some?
    ensures var (s', e') := EmitOrd(s, op, e1, e2).value; Tight(s', e', Q) && JmpLast(s', e')
  {
    hide Pend, ToAnyReg, EmitTest, Tight;
    var l := Discharge(e1);
    assert ToVal(s, e1) == Some((s, l)) && Plain(l);
    var swap := op.GE? || op.GT?;
    var op1 := if op.GE? then LE else if op.GT? then LT else op;
    if swap { ToValTight(s, e2, Q); }
    var (s2, x) := if swap then ToVal(s, e2).value else (s, l);
    var y := if swap then l else e2;
    TwoTight(s2, y, x, !swap, Q);
    var (s3, y1) := ToAnyReg(s2, y).value;
    ToAnyRegTight(s3, x, Q);
    var (s4, x1) := ToAnyReg(s3, x).value;
    PlainTight(s4, x1, FreeOperands(s4, x1, y1), Q);
    TestTight(FreeOperands(s4, x1, y1), Cmp(op1, RegOf(x1), RegOf(y1)), Q);
  }

  lemma PlainTight(s: FS, x: Exp, s': FS, Q: set<nat>)
    requires Tight(s, x, Q) && Plain(x) && s'.code == s.code && s'.jpc == s.jpc
    ensures Pend(s'.code) <= s'.jpc + Q
  {
    hide Pend;
  }

  lemma NotTight(s: FS, e: Exp, Q: set<nat>)
    requires Tight(s, e, Q) && JmpLast(s, e) && EmitNot(s, e).Some?
    ensures var (s', e') := EmitNot(s, e).value; Tight(s', e', Q) && JmpLast(s', e')
  {
    hide Pend, DropVal, Emit;
    var d := Discharge(Exp(e.k, e.f, e.t));
    var c := DropVal(DropVal(s.code, d.f), d.t);
    DropPend(s.code, d.f);
    DropPend(DropVal(s.code, d.f), d.t);
    var s1 := s.(code := c);
    if d.k.KJmp? && 1 <= d.k.pc <= |c| {
      ReplacePend(c, d.k.pc - 1, InvertTest(c[d.k.pc - 1]));
    }
    if d.k.KReg? { EmitPend(FreeExp(s1, d), Alu(Not(d.k.r), 0)); }
    if d.k.KReloc? && Reserve(s1, 1).Some? {
      var s2 := Reserve(s1, 1).value;
      var reg := Dec(s2.free);
      if d.k.pc < |c| && c[d.k.pc].Alu? { ReplacePend(c, d.k.pc, Alu(c[d.k.pc].f, reg)); }
      EmitPend(FreeExp(s2.(code := SetResult(s2.code, d.k.pc, reg)), d.(k := KReg(reg))), Alu(Not(reg), 0));
    }
  }

  lemma NegTight(s: FS, e: Exp, Q: set<nat>)
    requires Tight(s, e, Q) && JmpLast(s, e) && EmitNeg(s, e).Some?
    ensures var (s', e') := EmitNeg(s, e).value; Tight(s', e', Q) && JmpLast(s', e')
  {
    hide Pend, ToAnyReg, Emit;
    if !(e.IsNumK() && !e.HasJump() && e.k.k.n != 0) {
      ToAnyRegTight(s, e, Q);
      var (s1, e1) := ToAnyReg(s, e).value;
      EmitPend(FreeExp(s1, e1), Alu(Unm(RegOf(e1)), 0));
    }
  }

  // -- Expressions -----------------------------------------------------------------------------------------

  lemma BinTight(s: FS, op: BinOp, e1: Exp, e2: Exp, Q: set<nat>)
    requires Tight(s, e2, Q + e1.t + e1.f) && JmpLast(s, e2) && Binop(s, op, e1, e2).Some?
    requires (op.OpAnd? ==> e1.t == {}) && (op.OpOr? ==> e1.f == {}) && (!op.OpAnd? && !op.OpOr? ==> Plain(e1))
    ensures var (s', e') := Binop(s, op, e1, e2).value; Tight(s', e', Q) && JmpLast(s', e')
  {
    hide Pend, EmitArith, EmitEq, EmitOrd;
    assert Plain(e1) ==> Q + e1.t + e1.f == Q;
    match op
    case OpArith(aop) => ArithTight(s, aop, e1, e2, Q);
    case OpEq(ne) => EqTight(s, ne, e1, e2, Q);
    case OpOrd(cop) => OrdTight(s, cop, e1, e2, Q);
    case OpAnd =>
    case OpOr =>
  }

  /** Emitting an expression loses no jump. */
  lemma {:induction false} CompileTight(s: FS, x: Expr, Q: set<nat>)
    requires Pend(s.code) <= s.jpc + Q && Compile(s, x).Some?
    ensures var (s', e') := Compile(s, x).value; Tight(s', e', Q) && JmpLast(s', e')
    decreases x
  {
    hide Pend, EmitNot, EmitNeg, BinopLeft, Binop;
    match x
    case EConst(_) =>
    case ELocal(_) =>
    case EParen(y) => CompileTight(s, y, Q);
    case ENot(y) =>
      CompileTight(s, y, Q);
      var (s1, e) := Compile(s, y).value;
      NotTight(s1, e, Q);
    case ENeg(y) =>
      CompileTight(s, y, Q);
      var (s1, e) := Compile(s, y).value;
      NegTight(s1, e, Q);
    case EBin(op, l, r) =>
      CompileTight(s, l, Q);
      var (s1, e0) := Compile(s, l).value;
      LeftTight(s1, op, e0, Q);
      var (s2, e1) := BinopLeft(s1, op, e0).value;
      CompileTight(s2, r, Q + e1.t + e1.f);
      var (s3, e2) := Compile(s2, r).value;
      BinTight(s3, op, e1, e2, Q);
  }

  /** The same with the value in the next register. */
  lemma NextRegTight(s: FS, x: Expr, Q: set<nat>)
    requires Pend(s.code) <= s.jpc + Q && Compile(s, x).Some?
    requires ToNextReg(Compile(s, x).value.0, Compile(s, x).value.1).Some?
    ensures var s' := ToNextReg(Compile(s, x).value.0, Compile(s, x).value.1).value.0; Pend(s'.code) <= s'.jpc + Q
  {
    hide Compile, ToNextReg, Pend;
    var (s1, e1) := Compile(s, x).value;
    CompileTight(s, x, Q);
    ToNextRegTight(s1, e1, Q);
  }

  /** An expression in the next register, and an instruction of another kind behind it: if
      all jumps waited for the next instruction before, then every jump has its target
      now, and every instruction its register. */
  lemma FinishedCode(s: FS, x: Expr)
    requires Wf(s) && LocalsOk(x, s.nact) && Pend(s.code) <= s.jpc && Compile(s, x).Some?
    requires ToNextReg(Compile(s, x).value.0, Compile(s, x).value.1).Some?
    ensures var s' := ToNextReg(Compile(s, x).value.0, Compile(s, x).value.1).value.0;
            var c := Emit(s', Other).code;
            && WfCode(c)
            && forall p :: 0 <= p < |c| ==>
                 c[p] != Jmp(Pending) && !IsOpenLoad(c[p]) && !(c[p].TestCopy? && c[p].a == NO_REG)
  {
    hide Compile, ToNextReg, Emit, Exec, Patch, LocalsOk;
    assert s.jpc + {} == s.jpc;
    NextRegTight(s, x, {});
    var s' := ToNextReg(Compile(s, x).value.0, Compile(s, x).value.1).value.0;
    ExprNextCorrect(s, x, 0, seq(MAX_SLOTS, _ => Nil));
    EmitPend(s', Other);
    EmitIsExt(s', Other);
    ExtWf(s', [Other], s'.last);
    var c := Emit(s', Other).code;
    assert forall p :: 0 <= p < |c| && c[p] == Jmp(Pending) ==> p in Pend(c);
    NothingOpen(c);
  }
}
