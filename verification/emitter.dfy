/** The expression emitters of the parser, on the state they work on. Jump
    lists are sets of positions here; FuncState threads them through code. */
module Emitter {
  import opened Values
  import opened ExprCode

  const MAX_C: nat := 255
  const MAX_D: nat := 0xffff

  /** Expression kinds: a constant, a local, a conditional jump (taken when the
      expression is true), an instruction without a result register, a register. */
  datatype Kind = KConst(k: Val) | KLocal(r: nat) | KJmp(pc: nat) | KReloc(pc: nat) | KReg(r: nat)

  /** Expression descriptor with its true and false lists. */
  datatype Exp = Exp(k: Kind, t: set<nat>, f: set<nat>) {
    predicate HasJump() { t != {} || f != {} }
    predicate IsConst() { k.KConst? }
    predicate IsNumK() { k.KConst? && k.k.Num? }
  }

  /** Per-function state. `jpc` holds the pending jumps to the next instruction,
      `last` is the position of the last jump target, `free` the first free
      register, `nact` the number of active locals. */
  datatype FS = FS(code: Code, jpc: set<nat>, last: nat, free: nat, nact: nat, frame: nat, kn: seq<int>) {
    function Pc(): nat { |code| }
  }

  function Dec(n: nat): nat {
    if n == 0 then 0 else n - 1
  }

  // -- Constants ----------------------------------------------------------------

  /** Position of a constant in the pool, or the next free position. */
  function IndexOf(kn: seq<int>, n: int): nat {
    if kn == [] || kn[0] == n then 0 else 1 + IndexOf(kn[1..], n)
  }

  /** Index of a number constant, adding it if it is new. */
  function ConstNum(s: FS, n: int): (FS, nat) {
    (if n in s.kn then s else s.(kn := s.kn + [n]), IndexOf(s.kn, n))
  }

  /** Constants that do not fit an instruction go to the pool. */
  function Pool(s: FS, k: Val): FS {
    if k.Num? && !(0 <= k.n <= MAX_D) then ConstNum(s, k.n).0 else s
  }

  // -- Registers ------------------------------------------------------------------

  function Reserve(s: FS, n: nat): Option<FS> {
    var sz := s.free + n;
    if sz <= s.frame then Some(s.(free := sz))
    else if sz >= MAX_SLOTS then None
    else Some(s.(free := sz, frame := sz))
  }

  function FreeReg(s: FS, r: nat): FS {
    if r >= s.nact then s.(free := Dec(s.free)) else s
  }

  function FreeExp(s: FS, e: Exp): FS {
    if e.k.KReg? then FreeReg(s, e.k.r) else s
  }

  // -- Instructions and jumps ------------------------------------------------------

  /** Emit an instruction; the jumps pending for this position land on it. */
  function Emit(s: FS, i: Ins): FS {
    s.(code := Patch(s.code, s.jpc, s.Pc(), NO_REG, s.Pc()) + [i], jpc := {})
  }

  /** Emit a jump without a target; jumps to the jump join its list. */
  function EmitJmp(s: FS): (FS, set<nat>) {
    (s.(code := s.code + [Jmp(Pending)], jpc := {}), {s.Pc()} + s.jpc)
  }

  /** Let a list of jumps go to the next instruction. */
  function ToHere(s: FS, L: set<nat>): FS {
    s.(last := s.Pc(), jpc := s.jpc + L)
  }

  /** Set registers from..from+n-1 to nil, merging with a preceding nil load
      when no jump leads to the current position. */
  function EmitNil(s: FS, from: nat, n: nat): FS
    requires n >= 1
  {
    var ext := Emit(s, if n == 1 then LoadK(from, Nil) else KNil(from, from + n - 1));
    if s.Pc() > s.last then
      match s.code[s.Pc() - 1]
      case LoadK(a, Nil) =>
        if from == a && n == 1 then s
        else if from == a then s.(code := s.code[s.Pc() - 1 := KNil(from, from + n - 1)])
        else if from == a + 1 then s.(code := s.code[s.Pc() - 1 := KNil(a, from + n - 1)])
        else ext
      case KNil(a, d) =>
        if a <= from <= d + 1 then
          if from + n - 1 > d then s.(code := s.code[s.Pc() - 1 := KNil(a, from + n - 1)]) else s
        else ext
      case _ => ext
    else ext
  }

  /** Fill in the result register of a relocatable instruction. */
  function SetResult(c: Code, p: nat, reg: nat): (r: Code)
    ensures |r| == |c|
  {
    if p < |c| && c[p].Alu? then c[p := Alu(c[p].f, reg)] else c
  }

  // -- Discharging expressions --------------------------------------------------------

  function Discharge(e: Exp): Exp {
    if e.k.KLocal? then e.(k := KReg(e.k.r)) else e
  }

  /** Put an expression into a register, ignoring its jump lists. */
  function ToRegNoBranch(s: FS, e0: Exp, reg: nat): (FS, Exp) {
    var e := Discharge(e0);
    var done := e.(k := KReg(reg));
    match e.k
    case KConst(k) => (if k == Nil then EmitNil(s, reg, 1) else Emit(Pool(s, k), LoadK(reg, k)), done)
    case KReloc(p) => (s.(code := SetResult(s.code, p, reg)), done)
    case KReg(r) => (if r == reg then s else Emit(s, Mov(reg, r)), done)
    case KJmp(_) => (s, e)
    case KLocal(_) => (s, e)
  }

  /** Some jump of the list does not bring a value along. */
  predicate NoValue(c: Code, L: set<nat>) {
    exists j :: j in L && !Carries(c, j)
  }

  /** Let the jumps of e arrive here with the value in reg. */
  function Settle(s: FS, e: Exp, reg: nat, jfalse: nat, jtrue: nat): FS {
    var jend := s.Pc();
    s.(last := jend,
       code := Patch(Patch(s.code, e.f, jend, reg, jfalse), e.t, jend, reg, jtrue))
  }

  /** The loads of false and true for jumps that bring no value, skipped by `jval`. */
  function EmitBools(s: FS, reg: nat, jval: set<nat>): FS {
    var s1 := Emit(s, LoadK(reg, False));
    var s2 := Emit(s1, Jmp(To(s1.Pc() + 2)));
    var s3 := Emit(s2, LoadK(reg, True));
    ToHere(s3, jval)
  }

  /** The jumps of an expression, its own conditional jump among the true ones. */
  function JoinJmp(e: Exp): Exp {
    if e.k.KJmp? then e.(t := e.t + {e.k.pc}) else e
  }

  /** Bring the value to reg on every path, jumps included. */
  function SettleAll(s: FS, e0: Exp, reg: nat): FS {
    var e := JoinJmp(e0);
    if !e.HasJump() then s
    else if NoValue(s.code, e.t) || NoValue(s.code, e.f) then
      var (s1, jval) := if e.k.KJmp? then (s, {}) else EmitJmp(s);
      Settle(EmitBools(s1, reg, jval), e, reg, s1.Pc(), s1.Pc() + 2)
    else Settle(s, e, reg, 0, 0)
  }

  /** Put an expression into a register. */
  function ToReg(s: FS, e: Exp, reg: nat): (FS, Exp) {
    var (s1, e1) := ToRegNoBranch(s, e, reg);
    (SettleAll(s1, e1, reg), Exp(KReg(reg), {}, {}))
  }

  function ToNextReg(s: FS, e0: Exp): Option<(FS, Exp)> {
    var e := Discharge(e0);
    var s1 :- Reserve(FreeExp(s, e), 1);
    Some(ToReg(s1, e, Dec(s1.free)))
  }

  function ToAnyReg(s: FS, e0: Exp): Option<(FS, Exp)> {
    var e := Discharge(e0);
    if e.k.KReg? && !e.HasJump() then Some((s, e))
    else if e.k.KReg? && e.k.r >= s.nact then Some(ToReg(s, e, e.k.r))
    else ToNextReg(s, e)
  }

  function ToVal(s: FS, e: Exp): Option<(FS, Exp)> {
    if e.HasJump() then ToAnyReg(s, e) else Some((s, Discharge(e)))
  }

  // -- Branches -----------------------------------------------------------------------

  function InvertTest(i: Ins): Ins {
    match i
    case Cmp(op, a, d) => Cmp(match op case LT => GE case GE => LT case LE => GT case GT => LE, a, d)
    case EqV(ne, a, d) => EqV(!ne, a, d)
    case EqK(ne, a, k) => EqK(!ne, a, k)
    case _ => i
  }

  /** Invert the condition of the jump at pc. */
  function InvertCond(s: FS, pc: nat): FS {
    if 1 <= pc <= |s.code| then s.(code := s.code[pc - 1 := InvertTest(s.code[pc - 1])]) else s
  }

  /** Branch away when the truth of e equals cond; returns the new jumps. */
  function Branch(s: FS, e: Exp, cond: bool): Option<(FS, set<nat>)> {
    if e.k.KReloc? && e.k.pc < |s.code| && s.code[e.k.pc].Alu? && s.code[e.k.pc].f.Not? then
      Some(EmitJmp(s.(code := s.code[e.k.pc := Test(!cond, s.code[e.k.pc].f.d)])))
    else
      var s0 :- if e.k.KReg? then Some(s) else Reserve(s, 1);
      var (s1, e1) := if e.k.KReg? then (s0, e) else ToRegNoBranch(s0, e, Dec(s0.free));
      var r := if e1.k.KReg? then e1.k.r else 0;
      var (s2, L) := EmitJmp(Emit(s1, TestCopy(cond, NO_REG, r)));
      Some((FreeExp(s2, e1), L))
  }

  /** Go on when e is true; otherwise leave through its false list. */
  function BranchT(s: FS, e0: Exp): Option<(FS, Exp)> {
    var e := Discharge(e0);
    var (s1, L) :-
      match e.k
      case KConst(k) => Some(if Truthy(k) then (s, {}) else EmitJmp(ToRegNoBranch(s, e, NO_REG).0))
      case KJmp(pc) => Some((InvertCond(s, pc), {pc}))
      case _ => Branch(s, e, false);
    Some((ToHere(s1, e.t), e.(t := {}, f := e.f + L)))
  }

  /** Go on when e is false; otherwise leave through its true list. */
  function BranchF(s: FS, e0: Exp): Option<(FS, Exp)> {
    var e := Discharge(e0);
    var (s1, L) :-
      match e.k
      case KConst(k) => Some(if Truthy(k) then EmitJmp(ToRegNoBranch(s, e, NO_REG).0) else (s, {}))
      case KJmp(pc) => Some((s, {pc}))
      case _ => Branch(s, e, true);
    Some((ToHere(s1, e.f), e.(t := e.t + L, f := {})))
  }

  // -- Operators -----------------------------------------------------------------------

  datatype BinOp = OpArith(aop: ArithOp) | OpEq(ne: bool) | OpOrd(cop: CmpOp) | OpAnd | OpOr

  /** Give back the temporary registers of two operands. */
  function FreeOperands(s: FS, e1: Exp, e2: Exp): FS {
    FreeExp(FreeExp(s, e1), e2)
  }

  function EmitArith(s: FS, op: ArithOp, e1: Exp, e2: Exp): Option<(FS, Exp)> {
    if e1.IsNumK() && !e1.HasJump() && e2.IsNumK() && !e2.HasJump() then
      Some((s, e1.(k := KConst(Num(Arith(op, e1.k.k.n, e2.k.k.n))))))
    else
      var (s1, y) :- ToVal(s, e2);
      var (s2, yi) := if y.IsNumK() then ConstNum(s1, y.k.k.n) else (s1, 0);
      var yk := y.IsNumK() && yi <= MAX_C;
      var (s3, y1) :- if yk then Some((s2, y)) else ToAnyReg(s2, y);
      var (s4, x) :- ToVal(s3, e1);
      var (s5, xi) := if x.IsNumK() && !y1.IsNumK() then ConstNum(s4, x.k.k.n) else (s4, 0);
      var xk := x.IsNumK() && !y1.IsNumK() && xi <= MAX_C;
      var (s6, x1) :- if xk then Some((s5, x)) else ToAnyReg(s5, x);
      var f := if xk then ArithNV(op, RegOf(y1), x.k.k.n)
               else if yk then ArithVN(op, RegOf(x1), y.k.k.n)
               else ArithVV(op, RegOf(x1), RegOf(y1));
      var s7 := FreeOperands(s6, x1, y1);
      Some((Emit(s7, Alu(f, 0)), x1.(k := KReloc(s7.Pc()))))
  }

  function RegOf(e: Exp): nat {
    if e.k.KReg? then e.k.r else 0
  }

  /** Emit a test with its jump; the expression is true when the jump is taken. */
  function EmitTest(s: FS, i: Ins): (FS, Exp) {
    var s1 := Emit(s, i);
    (EmitJmp(s1).0, Exp(KJmp(s1.Pc()), {}, {}))
  }

  function EmitEq(s: FS, ne: bool, e1: Exp, e2: Exp): Option<(FS, Exp)> {
    var (s1, l) :- ToVal(s, e1);
    var (x, y) := if l.IsConst() then (e2, l) else (l, e2);  // need a constant in 2nd place
    var (s2, x1) :- ToAnyReg(s1, x);
    var (s3, y1) :- ToVal(s2, y);
    if y1.IsConst() then
      var s4 := if y1.IsNumK() then ConstNum(s3, y1.k.k.n).0 else s3;
      Some(EmitTest(FreeOperands(s4, x1, y1), EqK(ne, RegOf(x1), y1.k.k)))
    else
      var (s4, y2) :- ToAnyReg(s3, y1);
      Some(EmitTest(FreeOperands(s4, x1, y2), EqV(ne, RegOf(x1), RegOf(y2))))
  }

  /** GT and GE are emitted as LT and LE with swapped operands. */
  function EmitOrd(s: FS, op: CmpOp, e1: Exp, e2: Exp): Option<(FS, Exp)> {
    var (s1, l) :- ToVal(s, e1);
    var swap := op.GE? || op.GT?;
    var op1 := if op.GE? then LE else if op.GT? then LT else op;
    var (s2, x) :- if swap then ToVal(s1, e2) else Some((s1, l));
    var y := if swap then l else e2;
    var (s3, y1) :- ToAnyReg(s2, y);
    var (s4, x1) :- ToAnyReg(s3, x);
    Some(EmitTest(FreeOperands(s4, x1, y1), Cmp(op1, RegOf(x1), RegOf(y1))))
  }

  /** Prepare the left operand before the right one is parsed. */
  function BinopLeft(s: FS, op: BinOp, e: Exp): Option<(FS, Exp)> {
    match op
    case OpAnd => BranchT(s, e)
    case OpOr => BranchF(s, e)
    case OpEq(_) => if e.IsConst() && !e.HasJump() then Some((s, e)) else ToAnyReg(s, e)
    case _ => if e.IsNumK() && !e.HasJump() then Some((s, e)) else ToAnyReg(s, e)
  }

  function Binop(s: FS, op: BinOp, e1: Exp, e2: Exp): Option<(FS, Exp)> {
    match op
    case OpArith(aop) => EmitArith(s, aop, e1, e2)
    case OpAnd => var e := Discharge(e2); Some((s, e.(f := e.f + e1.f)))
    case OpOr => var e := Discharge(e2); Some((s, e.(t := e.t + e1.t)))
    case OpEq(ne) => EmitEq(s, ne, e1, e2)
    case OpOrd(cop) => EmitOrd(s, cop, e1, e2)
  }

  /** Drop the values of all jumps of a list that stays open. */
  function DropVal(c: Code, L: set<nat>): (r: Code)
    ensures |r| == |c|
  {
    seq(|c|, i requires 0 <= i < |c| => if i + 1 in L then PatchGuard(c[i], i, NO_REG) else c[i])
  }

  function EmitNot(s0: FS, e0: Exp): Option<(FS, Exp)> {
    var e := Discharge(Exp(e0.k, e0.f, e0.t));  // swap true and false lists
    var s := s0.(code := DropVal(DropVal(s0.code, e.f), e.t));
    match e.k
    case KConst(k) => Some((s, e.(k := KConst(Bool(!Truthy(k))))))
    case KJmp(pc) => Some((InvertCond(s, pc), e))
    case KReloc(p) =>
      var s1 :- Reserve(s, 1);
      EmitUnary(s1.(code := SetResult(s1.code, p, Dec(s1.free))), e.(k := KReg(Dec(s1.free))), Not(Dec(s1.free)))
    case KReg(r) => EmitUnary(s, e, Not(r))
    case KLocal(r) => None
  }

  function EmitUnary(s: FS, e: Exp, f: AluFn): Option<(FS, Exp)> {
    var s1 := FreeExp(s, e);
    Some((Emit(s1, Alu(f, 0)), e.(k := KReloc(s1.Pc()))))
  }

  /** Unary minus folds non-zero constants. */
  function EmitNeg(s: FS, e: Exp): Option<(FS, Exp)> {
    if e.IsNumK() && !e.HasJump() && e.k.k.n != 0 then Some((s, e.(k := KConst(Num(Wrap64(-e.k.k.n))))))
    else
      var (s1, e1) :- ToAnyReg(s, e);
      EmitUnary(s1, e1, Unm(RegOf(e1)))
  }

  // -- Expressions -----------------------------------------------------------------------

  datatype Expr =
    | EConst(k: Val)
    | ELocal(r: nat)
    | ENot(x: Expr)
    | ENeg(x: Expr)
    | EBin(op: BinOp, l: Expr, r2: Expr)
    | EParen(x: Expr)

  /** The emitter calls the parser makes while it reads an expression. */
  function Compile(s: FS, x: Expr): Option<(FS, Exp)>
    decreases x
  {
    match x
    case EConst(k) => Some((s, Exp(KConst(k), {}, {})))
    case ELocal(r) => Some((s, Exp(KLocal(r), {}, {})))
    case EParen(y) =>
      var (s1, e) :- Compile(s, y);
      Some((s1, Discharge(e)))
    case ENot(y) =>
      var (s1, e) :- Compile(s, y);
      EmitNot(s1, e)
    case ENeg(y) =>
      var (s1, e) :- Compile(s, y);
      EmitNeg(s1, e)
    case EBin(op, l, r) =>
      var (s1, e0) :- Compile(s, l);
      var (s2, e1) :- BinopLeft(s1, op, e0);
      var (s3, e2) :- Compile(s2, r);
      Binop(s3, op, e1, e2)
  }
}
