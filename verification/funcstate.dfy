/** The parser's per-function state: bytecode with jump lists threaded through
    it, updated in place. Every method is proved to do what the Emitter function
    of the same name does to the abstract state. */
module FuncStates {
  import opened Values
  import opened ExprCode
  import opened Emitter
  import opened JumpList

  // -- Opcodes, in the order of the instruction definition --------------------------------

  const ISLT: nat := 0
  const ISEQV: nat := 4
  const ISEQS: nat := 6
  const ISEQN: nat := 8
  const ISEQP: nat := 10
  const ISTC: nat := 12
  const ISFC: nat := 13
  const IST: nat := 14
  const ISF: nat := 15
  const MOV: nat := 18
  const NOT: nat := 19
  const UNM: nat := 20
  const ADDVN: nat := 21
  const ADDNV: nat := 26
  const ADDVV: nat := 31
  const KSTR: nat := 38
  const KSHORT: nat := 40
  const KNUM: nat := 41
  const KPRI: nat := 42
  const KNIL: nat := 43
  const JMP: nat := 93
  const FUNCF: nat := 94

  const MAX_BCINS: nat := 0x400_0000

  /** Primitive constants by their expression kind: nil, false, true. */
  function Pri(d: nat): Val {
    if d == 0 then Nil else if d == 1 then False else True
  }

  function PriCode(v: Val): nat {
    if v == Nil then 0 else if v == False then 1 else 2
  }

  function CmpOf(op: nat): CmpOp {
    if op == ISLT then LT else if op == ISLT + 1 then GE else if op == ISLT + 2 then LE else GT
  }

  function ArithOf(n: nat): ArithOp {
    if n == 0 then Add else if n == 1 then Sub else Mul
  }

  function ArithCode(op: ArithOp): nat {
    match op case Add => 0 case Sub => 1 case Mul => 2
  }

  function Get<T>(s: seq<T>, i: nat, default: T): T {
    if i < |s| then s[i] else default
  }

  /** What an instruction means; kn and ks are the constant pools. */
  function Decode(i: BCIns, at: nat, pending: bool, kn: seq<int>, ks: seq<string>): Ins {
    if i.ABC? then
      if ADDVN <= i.op < ADDVN + 3 then Alu(ArithVN(ArithOf(i.op - ADDVN), i.b, Get(kn, i.c, 0)), i.a)
      else if ADDNV <= i.op < ADDNV + 3 then Alu(ArithNV(ArithOf(i.op - ADDNV), i.b, Get(kn, i.c, 0)), i.a)
      else if ADDVV <= i.op < ADDVV + 3 then Alu(ArithVV(ArithOf(i.op - ADDVV), i.b, i.c), i.a)
      else Other
    else if i.op < ISEQV then Cmp(CmpOf(i.op), i.a, i.d)
    else if i.op < ISEQS then EqV(i.op != ISEQV, i.a, i.d)
    else if i.op < ISEQN then EqK(i.op != ISEQS, i.a, Str(Get(ks, i.d, "")))
    else if i.op < ISEQP then EqK(i.op != ISEQN, i.a, Num(Get(kn, i.d, 0)))
    else if i.op < ISTC then EqK(i.op != ISEQP, i.a, Pri(i.d))
    else if i.op < IST then TestCopy(i.op == ISTC, i.a, i.d)
    else if i.op <= ISF then Test(i.op == IST, i.d)
    else if i.op == MOV then Mov(i.a, i.d)
    else if i.op == NOT then Alu(Not(i.d), i.a)
    else if i.op == UNM then Alu(Unm(i.d), i.a)
    else if i.op == KSTR then LoadK(i.a, Str(Get(ks, i.d, "")))
    else if i.op == KSHORT then LoadK(i.a, Num(i.d))
    else if i.op == KNUM then LoadK(i.a, Num(Get(kn, i.d, 0)))
    else if i.op == KPRI then LoadK(i.a, Pri(i.d))
    else if i.op == KNIL then KNil(i.a, i.d)
    else if i.op == JMP then
      if pending then Jmp(Pending)
      else if at + 1 + i.d >= BCBIAS_J then Jmp(To(at + 1 + i.d - BCBIAS_J)) else Jmp(To(0))
    else if i.op == FUNCF then Header
    else Other
  }

  /** Instructions the emitters may leave without a register. */
  predicate MayBeOpen(op: nat) {
    op == ISTC || op == ISFC || op == KSTR || op == KSHORT || op == KNUM || op == KPRI
  }

  /** The opcodes expressions are made of, and the function header. */
  predicate ExprOp(i: BCIns) {
    if i.ABC? then ADDVN <= i.op < ADDVN + 3 || ADDNV <= i.op < ADDNV + 3 || ADDVV <= i.op < ADDVV + 3
    else i.op <= ISF || MOV <= i.op <= UNM || i.op == KSTR || KSHORT <= i.op <= KNIL || JMP <= i.op <= FUNCF
  }

  /** Field ranges and constant indexes of an instruction. */
  predicate InsOk(i: BCIns, kn: seq<int>, ks: seq<string>) {
    && i.a <= 255 && ExprOp(i)
    && (i.a == NO_REG ==> i.AD? && MayBeOpen(i.op))
    && (i.ABC? ==> i.b <= 255 && i.c <= 255 && (i.op < ADDVV ==> i.c < |kn|))
    && (i.AD? ==>
          && i.d <= BCMAX_D
          && (i.op == KNUM || i.op == ISEQN || i.op == ISEQN + 1 ==> i.d < |kn|)
          && (i.op == KSTR || i.op == ISEQS || i.op == ISEQS + 1 ==> i.d < |ks|)
          && (i.op == KPRI || i.op == ISEQP || i.op == ISEQP + 1 ==> i.d <= 2))
  }

  lemma HeaderDecode(i: BCIns, at: nat, kn: seq<int>, ks: seq<string>)
    requires InsOk(i, kn, ks)
    ensures Decode(i, at, false, kn, ks).Header? <==> i.op == FUNCF
  {
  }

  /** The first instruction of a function, and no other, is a header. */
  predicate HeaderFirst(bc: Bytecode) {
    1 <= |bc| && forall i :: 0 <= i < |bc| ==> (bc[i].op == FUNCF <==> i == 0)
  }

  function DecodeAll(bc: Bytecode, pend: set<nat>, kn: seq<int>, ks: seq<string>): (c: Code)
    ensures |c| == |bc|
  {
    seq(|bc|, i requires 0 <= i < |bc| => Decode(bc[i], i, i in pend, kn, ks))
  }

  /** Growing the pools does not change what instructions mean. */
  lemma PoolsGrow(bc: Bytecode, pend: set<nat>, kn: seq<int>, ks: seq<string>, kn': seq<int>, ks': seq<string>)
    requires kn <= kn' && ks <= ks' && forall i :: 0 <= i < |bc| ==> InsOk(bc[i], kn, ks)
    ensures DecodeAll(bc, pend, kn', ks') == DecodeAll(bc, pend, kn, ks)
    ensures forall i :: 0 <= i < |bc| ==> InsOk(bc[i], kn', ks')
  {
    forall i | 0 <= i < |bc|
      ensures Decode(bc[i], i, i in pend, kn', ks') == Decode(bc[i], i, i in pend, kn, ks) && InsOk(bc[i], kn', ks')
    {
      assert InsOk(bc[i], kn, ks);
    }
  }

  /** Errors end the compilation. */
  datatype Status = Ok | Err {
    predicate IsFailure() { Err? }
    function PropagateFailure(): Status { this }
  }

  /** Expression descriptor: list heads instead of sets. */
  datatype ExpDesc = ExpDesc(k: Kind, t: nat, f: nat)

  // -- Patching one jump at a time -----------------------------------------------------------

  function PatchOne(c: Code, j: nat, vt: nat, reg: nat, dt: nat): Code
    requires 1 <= j < |c|
  {
    c[j := Jmp(To(if Carries(c, j) then vt else dt))][j - 1 := PatchGuard(c[j - 1], j - 1, reg)]
  }

  lemma PatchStep(c: Code, L: set<nat>, j: nat, vt: nat, reg: nat, dt: nat)
    requires AllPending(c, L + {j}) && j !in L
    ensures 1 <= j < |c| && Patch(c, L + {j}, vt, reg, dt) == PatchOne(Patch(c, L, vt, reg, dt), j, vt, reg, dt)
  {
    assert IsPending(c, j);
    var p := Patch(c, L, vt, reg, dt);
    var r := Patch(c, L + {j}, vt, reg, dt);
    assert j - 1 in L ==> IsPending(c, j - 1);
    assert p[j - 1] == PatchAt(c, L, vt, reg, dt, j - 1);
    assert Carries(p, j) == Carries(c, j);
    forall i | 0 <= i < |c|
      ensures r[i] == PatchOne(p, j, vt, reg, dt)[i]
    {
      assert r[i] == PatchAt(c, L + {j}, vt, reg, dt, i);
      assert p[i] == PatchAt(c, L, vt, reg, dt, i);
    }
  }

  lemma DropStep(c: Code, L: set<nat>, j: nat)
    requires AllPending(c, L + {j}) && j !in L
    ensures 1 <= j < |c| && DropVal(c, L + {j}) == DropVal(c, L)[j - 1 := PatchGuard(c[j - 1], j - 1, NO_REG)]
    ensures DropVal(c, L)[j - 1] == c[j - 1]
  {
    assert IsPending(c, j);
  }

  // -- Single instructions -------------------------------------------------------------------------

  lemma DecodeUpdate(bc: Bytecode, pend: set<nat>, kn: seq<int>, ks: seq<string>, p: nat, i: BCIns)
    requires p < |bc|
    ensures DecodeAll(bc[p := i], pend, kn, ks) == DecodeAll(bc, pend, kn, ks)[p := Decode(i, p, p in pend, kn, ks)]
  {
    hide Decode;
  }

  lemma DecodeResolve(bc: Bytecode, pend: set<nat>, kn: seq<int>, ks: seq<string>, p: nat)
    requires p < |bc|
    ensures DecodeAll(bc, pend - {p}, kn, ks) ==
            DecodeAll(bc, pend, kn, ks)[p := Decode(bc[p], p, false, kn, ks)]
  {
    hide Decode;
  }

  lemma DecodeAppend(bc: Bytecode, pend: set<nat>, kn: seq<int>, ks: seq<string>, i: BCIns, pending: bool)
    requires forall p :: p in pend ==> p < |bc|
    ensures DecodeAll(bc + [i], if pending then pend + {|bc|} else pend, kn, ks) ==
            DecodeAll(bc, pend, kn, ks) + [Decode(i, |bc|, pending, kn, ks)]
  {
    hide Decode;
  }

  /** The instruction produces a value that goes with the jump behind it. */
  predicate Tests(i: BCIns) {
    (i.AD? && (i.op == ISTC || i.op == ISFC)) || i.a == NO_REG
  }

  lemma TestsIsCarries(i: BCIns, at: nat, pending: bool, kn: seq<int>, ks: seq<string>)
    requires InsOk(i, kn, ks) && (pending ==> i.AD? && i.op == JMP)
    ensures var d := Decode(i, at, pending, kn, ks); Tests(i) <==> d.TestCopy? || IsOpenLoad(d)
  {
  }

  lemma CarriesIs(bc: Bytecode, pend: set<nat>, kn: seq<int>, ks: seq<string>, j: nat)
    requires 1 <= j < |bc| && InsOk(bc[j - 1], kn, ks) && (j - 1 in pend ==> bc[j - 1].AD? && bc[j - 1].op == JMP)
    ensures Carries(DecodeAll(bc, pend, kn, ks), j) == Tests(bc[j - 1])
  {
    hide Decode;
    TestsIsCarries(bc[j - 1], j - 1, j - 1 in pend, kn, ks);
  }

  /** A test instruction with its register settled; jmpA is the A field of its jump. */
  function TestRegIns(i: BCIns, reg: nat, jmpA: nat): BCIns {
    if i.AD? && (i.op == ISTC || i.op == ISFC) then
      if reg != NO_REG && reg != i.d then AD(i.op, reg, i.d)
      else AD(i.op + (IST - ISTC), 0, i.d)  // nothing to store or already in the right register
    else if i.a == NO_REG && i.AD? then
      if reg == NO_REG then AD(JMP, jmpA, BCBIAS_J) else AD(i.op, reg, i.d)
    else i
  }

  lemma TestRegDecode(i: BCIns, at: nat, pending: bool, kn: seq<int>, ks: seq<string>, reg: nat, jmpA: nat)
    requires InsOk(i, kn, ks) && (pending ==> i.AD? && i.op == JMP) && IsSlot(reg) && jmpA < 255
    ensures var r := TestRegIns(i, reg, jmpA);
            && Decode(r, at, pending, kn, ks) == PatchGuard(Decode(i, at, pending, kn, ks), at, reg)
            && InsOk(r, kn, ks) && (pending ==> r == i) && (r.op == FUNCF <==> i.op == FUNCF)
  {
  }

  /** The A field and the offset of a jump do not matter while it is pending. */
  lemma JumpDecode(a: nat, d: nat, at: nat, kn: seq<int>, ks: seq<string>)
    requires a < 255 && d <= BCMAX_D
    ensures InsOk(AD(JMP, a, d), kn, ks) && Decode(AD(JMP, a, d), at, true, kn, ks) == Jmp(Pending)
    ensures at + 1 + d >= BCBIAS_J ==> Decode(AD(JMP, a, d), at, false, kn, ks) == Jmp(To(at + 1 + d - BCBIAS_J))
  {
  }

  lemma NilDecode(i: BCIns, at: nat, pending: bool, kn: seq<int>, ks: seq<string>)
    requires InsOk(i, kn, ks) && (pending ==> i.AD? && i.op == JMP)
    ensures var d := Decode(i, at, pending, kn, ks);
            && (d.LoadK? && d.k == Nil <==> i.AD? && i.op == KPRI && i.d == 0)
            && (d.KNil? <==> i.AD? && i.op == KNIL)
            && (d.LoadK? || d.KNil? ==> d.a == i.a)
            && (d.KNil? ==> d.d == i.d)
  {
  }

  lemma KNilDecode(a: nat, d: nat, at: nat, kn: seq<int>, ks: seq<string>)
    requires a < 255 && d <= BCMAX_D
    ensures InsOk(AD(KNIL, a, d), kn, ks) && Decode(AD(KNIL, a, d), at, false, kn, ks) == KNil(a, d)
  {
  }

  /** The instruction that loads a constant; idx is its pool index, if it has one. */
  function LoadIns(reg: nat, k: Val, idx: nat): BCIns {
    match k
    case Str(_) => AD(KSTR, reg, idx)
    case Num(n) => if 0 <= n <= BCMAX_D then AD(KSHORT, reg, n) else AD(KNUM, reg, idx)
    case _ => AD(KPRI, reg, PriCode(k))
  }

  /** idx is where the pools hold k. */
  predicate InPool(k: Val, idx: nat, kn: seq<int>, ks: seq<string>) {
    && idx <= BCMAX_D
    && (k.Str? ==> idx < |ks| && ks[idx] == k.s)
    && (k.Num? ==> idx < |kn| && kn[idx] == k.n)
  }

  lemma LoadDecode(reg: nat, k: Val, idx: nat, at: nat, kn: seq<int>, ks: seq<string>)
    requires IsSlot(reg) && !k.Obj?
    requires InPool(k, idx, kn, ks) || (k.Num? && 0 <= k.n <= BCMAX_D)
    ensures InsOk(LoadIns(reg, k, idx), kn, ks) && Decode(LoadIns(reg, k, idx), at, false, kn, ks) == LoadK(reg, k)
  {
  }

  lemma MovDecode(a: nat, d: nat, at: nat, kn: seq<int>, ks: seq<string>)
    requires a < 255 && d <= BCMAX_D
    ensures InsOk(AD(MOV, a, d), kn, ks) && Decode(AD(MOV, a, d), at, false, kn, ks) == Mov(a, d)
  {
  }

  /** An instruction with another A field. */
  function SetA(i: BCIns, a: nat): BCIns {
    if i.AD? then AD(i.op, a, i.d) else ABC(i.op, a, i.b, i.c)
  }

  lemma SetADecode(i: BCIns, a: nat, at: nat, pending: bool, kn: seq<int>, ks: seq<string>)
    requires InsOk(i, kn, ks) && a < 255 && Decode(i, at, pending, kn, ks).Alu?
    ensures var r := SetA(i, a);
            InsOk(r, kn, ks) && Decode(r, at, pending, kn, ks) == Alu(Decode(i, at, pending, kn, ks).f, a)
  {
  }

  /** An instruction with its condition inverted: the opcodes come in pairs. */
  function InvertIns(i: BCIns): BCIns {
    if i.AD? then AD(if i.op % 2 == 0 then i.op + 1 else i.op - 1, i.a, i.d) else i
  }

  predicate IsCond(i: Ins) {
    i.Cmp? || i.EqV? || i.EqK?
  }

  lemma InvertDecode(i: BCIns, at: nat, pending: bool, kn: seq<int>, ks: seq<string>)
    requires InsOk(i, kn, ks) && IsCond(Decode(i, at, pending, kn, ks))
    ensures var r := InvertIns(i);
            && InsOk(r, kn, ks) && Decode(r, at, pending, kn, ks) == InvertTest(Decode(i, at, pending, kn, ks))
            && r.op != FUNCF && i.op != FUNCF
  {
  }

  lemma NotDecode(i: BCIns, at: nat, pending: bool, kn: seq<int>, ks: seq<string>)
    requires InsOk(i, kn, ks) && Decode(i, at, pending, kn, ks).Alu?
    ensures var d := Decode(i, at, pending, kn, ks); d.f.Not? <==> i.AD? && i.op == NOT
    ensures i.AD? && i.op == NOT ==> Decode(i, at, pending, kn, ks).f == Not(i.d)
  {
  }

  lemma TestDecode(sense: bool, a: nat, d: nat, at: nat, kn: seq<int>, ks: seq<string>)
    requires d <= BCMAX_D && (a < 255 || a == NO_REG)
    ensures var i := AD(if sense then IST else ISF, 0, d);
              InsOk(i, kn, ks) && Decode(i, at, false, kn, ks) == Test(sense, d)
    ensures var i := AD(if sense then ISTC else ISFC, a, d);
            InsOk(i, kn, ks) && Decode(i, at, false, kn, ks) == TestCopy(sense, a, d)
  {
  }

  lemma ArithDecode(op: ArithOp, b: nat, c: nat, at: nat, kn: seq<int>, ks: seq<string>)
    requires b <= 255 && c <= 255
    ensures var i := ABC(ADDVV + ArithCode(op), 0, b, c);
            InsOk(i, kn, ks) && Decode(i, at, false, kn, ks) == Alu(ArithVV(op, b, c), 0)
    ensures c < |kn| ==> var i := ABC(ADDVN + ArithCode(op), 0, b, c);
                         InsOk(i, kn, ks) && Decode(i, at, false, kn, ks) == Alu(ArithVN(op, b, kn[c]), 0)
    ensures c < |kn| ==> var i := ABC(ADDNV + ArithCode(op), 0, b, c);
                         InsOk(i, kn, ks) && Decode(i, at, false, kn, ks) == Alu(ArithNV(op, b, kn[c]), 0)
  {
  }

  lemma SettleAllPool(s: FS, e: Exp, reg: nat)
    ensures SettleAll(s, e, reg).kn == s.kn
  {
    hide Patch, NoValue;
  }

  lemma AnyRegPool(s: FS, e: Exp)
    ensures ToAnyReg(s, e).Some? ==> s.kn <= ToAnyReg(s, e).value.0.kn
    ensures ToVal(s, e).Some? ==> s.kn <= ToVal(s, e).value.0.kn
  {
    hide Patch, SettleAll, EmitNil, IndexOf;
    forall s1: FS, e1: Exp, reg: nat
      ensures s1.kn <= ToReg(s1, e1, reg).0.kn
    {
      ToRegPool(s1, e1, reg);
    }
  }

  lemma ToRegPool(s: FS, e: Exp, reg: nat)
    ensures s.kn <= ToReg(s, e, reg).0.kn
  {
    hide Patch, SettleAll, IndexOf;
    SettleAllPool(ToRegNoBranch(s, e, reg).0, ToRegNoBranch(s, e, reg).1, reg);
  }

  /** The equality test against a constant; idx is its pool index, if it has one. */
  function EqKIns(ne: bool, a: nat, k: Val, idx: nat): BCIns {
    var n := if ne then 1 else 0;
    match k
    case Str(_) => AD(ISEQS + n, a, idx)
    case Num(_) => AD(ISEQN + n, a, idx)
    case _ => AD(ISEQP + n, a, PriCode(k))
  }

  lemma EqKDecode(ne: bool, a: nat, k: Val, idx: nat, at: nat, kn: seq<int>, ks: seq<string>)
    requires a < 255 && !k.Obj? && (k.Str? || k.Num? ==> InPool(k, idx, kn, ks))
    ensures var i := EqKIns(ne, a, k, idx); InsOk(i, kn, ks) && Decode(i, at, false, kn, ks) == EqK(ne, a, k)
  {
  }

  lemma EqVDecode(ne: bool, a: nat, d: nat, at: nat, kn: seq<int>, ks: seq<string>)
    requires a < 255 && d <= BCMAX_D
    ensures var i := AD(ISEQV + if ne then 1 else 0, a, d);
            InsOk(i, kn, ks) && Decode(i, at, false, kn, ks) == EqV(ne, a, d)
  {
  }

  function CmpCode(op: CmpOp): nat {
    match op case LT => 0 case GE => 1 case LE => 2 case GT => 3
  }

  lemma CmpDecode(op: CmpOp, a: nat, d: nat, at: nat, kn: seq<int>, ks: seq<string>)
    requires a < 255 && d <= BCMAX_D
    ensures var i := AD(ISLT + CmpCode(op), a, d); InsOk(i, kn, ks) && Decode(i, at, false, kn, ks) == Cmp(op, a, d)
  {
  }

  lemma UnaryDecode(d: nat, at: nat, kn: seq<int>, ks: seq<string>)
    requires d <= BCMAX_D
    ensures InsOk(AD(NOT, 0, d), kn, ks) && Decode(AD(NOT, 0, d), at, false, kn, ks) == Alu(Not(d), 0)
    ensures InsOk(AD(UNM, 0, d), kn, ks) && Decode(AD(UNM, 0, d), at, false, kn, ks) == Alu(Unm(d), 0)
  {
  }

  /** Dropping the values of a list does not touch other instructions. */
  lemma DropKeeps(c: Code, L: set<nat>, p: nat)
    requires p < |c| && (c[p].Alu? || p + 1 !in L)
    ensures DropVal(c, L)[p] == c[p]
  {
  }

  // -- Operands of arithmetic ----------------------------------------------------------------------

  /** A small index into the constants, where one is allowed, or a register. */
  function ConstOrReg(s: FS, e: Exp, allowed: bool): Option<(FS, Exp, bool)> {
    var isK := e.IsNumK() && allowed;
    var (s1, i) := if isK then ConstNum(s, e.k.k.n) else (s, 0);
    if isK && i <= MAX_C then Some((s1, e, true))
    else
      var (s2, e1) :- ToAnyReg(s1, e);
      Some((s2, e1, false))
  }

  /** The second operand. */
  function RightOperand(s: FS, e2: Exp): Option<(FS, Exp, bool)> {
    var (s1, y) :- ToVal(s, e2);
    ConstOrReg(s1, y, true)
  }

  /** The first operand, a constant only if the second is not one. */
  function LeftOperand(s: FS, e1: Exp, constRight: bool): Option<(FS, Exp, bool)> {
    var (s1, x) :- ToVal(s, e1);
    ConstOrReg(s1, x, !constRight)
  }

  function ArithIns(op: ArithOp, x: Exp, xk: bool, y: Exp, yk: bool): AluFn
    requires (xk ==> x.IsNumK()) && (yk ==> y.IsNumK())
  {
    if xk then ArithNV(op, RegOf(y), x.k.k.n)
    else if yk then ArithVN(op, RegOf(x), y.k.k.n)
    else ArithVV(op, RegOf(x), RegOf(y))
  }

  lemma ArithSplit(s: FS, op: ArithOp, e1: Exp, e2: Exp)
    requires !(e1.IsNumK() && !e1.HasJump() && e2.IsNumK() && !e2.HasJump())
    requires RightOperand(s, e2).Some?
    requires var (s3, y, yk) := RightOperand(s, e2).value; LeftOperand(s3, e1, y.IsNumK()).Some?
    ensures var (s3, y, yk) := RightOperand(s, e2).value;
            var (s6, x, xk) := LeftOperand(s3, e1, y.IsNumK()).value;
            var s7 := FreeOperands(s6, x, y);
            EmitArith(s, op, e1, e2) == Some((Emit(s7, Alu(ArithIns(op, x, xk, y, yk), 0)), x.(k := KReloc(s7.Pc()))))
  {
    hide ToVal, ToAnyReg, Emit, ConstNum;
  }

  /** An equality whose first operand x is in a register. */
  function EqRight(s: FS, ne: bool, x: Exp, y: Exp): Option<(FS, Exp)> {
    var (s3, y1) :- ToVal(s, y);
    if y1.IsConst() then
      var s4 := if y1.IsNumK() then ConstNum(s3, y1.k.k.n).0 else s3;
      Some(EmitTest(FreeOperands(s4, x, y1), EqK(ne, RegOf(x), y1.k.k)))
    else
      var (s4, y2) :- ToAnyReg(s3, y1);
      Some(EmitTest(FreeOperands(s4, x, y2), EqV(ne, RegOf(x), RegOf(y2))))
  }

  /** Loading a number leaves all other code alone when no jump is pending. */
  lemma AnyRegExtends(s: FS, e: Exp)
    requires s.jpc == {} && !e.HasJump() && (e.IsNumK() || e.k.KReg?) && ToAnyReg(s, e).Some?
    ensures var r := ToAnyReg(s, e).value; s.code <= r.0.code && r.0.jpc == {}
  {
    hide NoValue, Carries, PatchGuard, IndexOf;
    if e.IsNumK() {
      var s1 := Reserve(s, 1).value;
      var s2 := Pool(s1, e.k.k);
      assert Patch(s2.code, {}, s2.Pc(), NO_REG, s2.Pc()) == s2.code;
    }
  }

  // -- The state ---------------------------------------------------------------------------------

  class FuncState {
    var bc: Bytecode         // bytecode emitted so far; the next position is |bc|
    var jpc: nat             // pending jump list to next bytecode
    var lasttarget: nat      // bytecode position of last jump target
    var freereg: nat         // first free register
    var nactvar: nat         // number of active local variables
    var framesize: nat
    var kn: seq<int>         // number constants
    var ks: seq<string>      // string constants
    ghost var pend: set<nat> // jumps that have no target yet

    ghost predicate Core()
      reads this`bc, this`pend, this`kn, this`ks, this`lasttarget, this`freereg, this`framesize
    {
      && |bc| <= MAX_BCINS && lasttarget <= |bc| && freereg <= framesize < MAX_SLOTS
      && (forall i :: 0 <= i < |bc| ==> InsOk(bc[i], kn, ks))
      && (forall p :: p in pend ==> 1 <= p < |bc| && bc[p].AD? && bc[p].op == JMP)
      && HeaderFirst(bc)
    }

    /** fs_init, and the placeholder for the function header. */
    constructor ()
      ensures Valid() && |bc| == 1 && pend == {} && jpc == NO_JMP && freereg == 0 && nactvar == 0
      ensures Abs() == FS([Header], {}, 0, 0, 0, 1, [])
    {
      bc, jpc, lasttarget, freereg, nactvar, framesize, kn, ks := [AD(FUNCF, 0, 0)], NO_JMP, 0, 0, 0, 1, [], [];
      pend := {};
      new;
      EmptyList(bc);
      assert Code() == [Header];
    }

    /** Code too long for a jump across it, too many constants, or no register left. */
    predicate AtLimit()
      reads this`bc, this`kn, this`ks, this`freereg
    {
      |bc| > BCBIAS_J || |kn| > BCMAX_D || |ks| > BCMAX_D || freereg + 1 >= MAX_SLOTS
    }

    /** pend are the jumps of the code that have no target. */
    lemma PendBelow()
      requires Valid()
      ensures forall p :: p in pend ==> p < |bc|
    {
    }

    lemma PendIs()
      requires Core()
      ensures forall p: nat :: p in pend <==> p < |bc| && Code()[p] == Jmp(Pending)
    {
      forall p: nat
        ensures p in pend <==> p < |bc| && Code()[p] == Jmp(Pending)
      {
        if p < |bc| { CodeAt(p); }
      }
    }

    /** h is the head of a list of pending jumps. */
    ghost predicate Owned(h: nat)
      reads this`bc, this`pend
    {
      WfList(bc, h) && Elems(bc, h) <= pend
    }

    ghost predicate Valid()
      reads this
    {
      Core() && Owned(jpc)
    }

    ghost function Code(): (c: ExprCode.Code)
      reads this`bc, this`pend, this`kn, this`ks
      ensures |c| == |bc|
    {
      DecodeAll(bc, pend, kn, ks)
    }

    /** The abstract state. */
    ghost function Abs(): FS
      reads this
    {
      FS(Code(), Elems(bc, jpc), lasttarget, freereg, nactvar, framesize, kn)
    }

    ghost function AbsExp(e: ExpDesc): Exp
      reads this`bc
    {
      Exp(e.k, Elems(bc, e.t), Elems(bc, e.f))
    }

    lemma CodeIs()
      ensures Code() == DecodeAll(bc, pend, kn, ks)
    {
    }

    // -- Jump lists ----------------------------------------------------------------------------

    /** jmp_patchtestreg: settle the register of the instruction before a jump. */
    method JmpPatchtestreg(pc: nat, reg: nat) returns (carries: bool)
      requires Core() && pc in pend && IsSlot(reg)
      modifies this`bc
      ensures Core() && |bc| == |old(bc)|
      ensures carries == Carries(old(Code()), pc)
      ensures Code() == old(Code())[pc - 1 := PatchGuard(old(Code())[pc - 1], pc - 1, reg)]
      ensures forall p :: p in pend ==> bc[p].D() == old(bc[p].D())
    {
      hide Decode, PatchGuard, Carries, TestRegIns;
      var i := bc[pc - 1];
      assert InsOk(i, kn, ks) && InsOk(bc[pc], kn, ks);
      carries := Tests(i);
      CarriesIs(bc, pend, kn, ks, pc);
      SetGuard(pc, TestRegIns(i, reg, bc[pc].a), reg);
      if carries && !(i.AD? && (i.op == ISTC || i.op == ISFC)) && bc[pc].a <= reg < MAX_SLOTS {
        BumpJump(pc, reg + 1);
      }
    }

    method SetGuard(pc: nat, i: BCIns, ghost reg: nat)
      requires Core() && pc in pend && IsSlot(reg) && i == TestRegIns(bc[pc - 1], reg, bc[pc].a)
      modifies this`bc
      ensures Core() && bc == old(bc)[pc - 1 := i]
      ensures Code() == old(Code())[pc - 1 := PatchGuard(old(Code())[pc - 1], pc - 1, reg)]
      ensures forall p :: p in pend ==> bc[p].D() == old(bc[p].D())
    {
      hide Decode, DecodeAll, Code, PatchGuard, TestRegIns;
      CodeAt(pc - 1);
      CodeAt(pc);
      TestRegDecode(bc[pc - 1], pc - 1, pc - 1 in pend, kn, ks, reg, bc[pc].a);
      CodeIs();
      DecodeUpdate(bc, pend, kn, ks, pc - 1, i);
      bc := bc[pc - 1 := i];
      CodeIs();
    }

    method BumpJump(pc: nat, a: nat)
      requires Core() && pc in pend && a < 255
      modifies this`bc
      ensures Core() && |bc| == |old(bc)| && Code() == old(Code())
      ensures forall p :: p in pend ==> bc[p].D() == old(bc[p].D())
    {
      hide Decode;
      assert InsOk(bc[pc], kn, ks);
      JumpDecode(a, bc[pc].d, pc, kn, ks);
      JumpDecode(bc[pc].a, bc[pc].d, pc, kn, ks);
      DecodeUpdate(bc, pend, kn, ks, pc, AD(JMP, a, bc[pc].d));
      bc := bc[pc := AD(JMP, a, bc[pc].d)];
    }

    /** jmp_novalue: some jump of the list does not produce a value. */
    method JmpNovalue(l: nat) returns (b: bool)
      requires Core() && Owned(l)
      ensures b == NoValue(Code(), Elems(bc, l))
    {
      hide Decode, Carries;
      ghost var ps := ListOf(bc, l);
      ghost var k := 0;
      var list := l;
      ListIs(bc, l, ps);
      assert ps[0..] == ps;
      while list != NO_JMP
        invariant 0 <= k <= |ps| && IsList(bc, list, ps[k..])
        invariant forall i :: 0 <= i < k ==> Carries(Code(), ps[i])
        decreases |ps| - k
      {
        assert ps[k] == list && ps[k] in Elems(bc, l);
        assert InsOk(bc[list - 1], kn, ks);
        CarriesIs(bc, pend, kn, ks, list);
        if !Tests(bc[list - 1]) {
          return true;
        }
        assert ps[k..][1..] == ps[k + 1..];
        list, k := Next(bc, list), k + 1;
      }
      return false;
    }

    /** jmp_patchins: let the jump at pc go to dest, as a link or as its final target. */
    method JmpPatchins(pc: nat, dest: nat, ghost resolve: bool) returns (st: Status)
      requires Core() && pc in pend
      modifies this`bc, this`pend
      ensures st.Err? && dest <= |old(bc)| ==> AtLimit()
      ensures st.Ok? ==>
                && Core() && |bc| == |old(bc)| && Reachable(pc, dest) && bc[pc].D() == Offset(pc, dest)
                && (forall p :: 0 <= p < |bc| && p != pc ==> bc[p] == old(bc[p]))
                && pend == (if resolve then old(pend) - {pc} else old(pend))
                && Code() == (if resolve then old(Code())[pc := Jmp(To(dest))] else old(Code()))
    {
      hide Decode, DecodeAll, Code;
      var offset := dest - (pc + 1) + BCBIAS_J;
      if offset < 0 || offset > BCMAX_D {
        return Err;
      }
      CodeAt(pc);
      CodeIs();
      JumpDecode(bc[pc].a, bc[pc].d, pc, kn, ks);
      JumpDecode(bc[pc].a, offset, pc, kn, ks);
      DecodeUpdate(bc, pend, kn, ks, pc, AD(JMP, bc[pc].a, offset));
      bc := bc[pc := AD(JMP, bc[pc].a, offset)];
      CodeIs();
      if resolve {
        DecodeResolve(bc, pend, kn, ks, pc);
        pend := pend - {pc};
        CodeIs();
      }
      return Ok;
    }

    /** The last element of a list. */
    method JmpLast(l: nat) returns (last: nat)
      requires WfList(bc, l) && l != NO_JMP
      ensures var ps := ListOf(bc, l); ps != [] && last == ps[|ps| - 1]
    {
      last := l;
      ghost var ps := ListOf(bc, l);
      ghost var k := 0;
      ListIs(bc, l, ps);
      while Next(bc, last) != NO_JMP
        invariant 0 <= k < |ps| && ps[k] == last && last < |bc|
        decreases |ps| - k
      {
        ListAt(bc, l, ps, k);
        ListAt(bc, l, ps, k + 1);
        last, k := Next(bc, last), k + 1;
      }
      ListAt(bc, l, ps, k);
    }

    /** jmp_append: concatenate two lists. */
    method JmpAppend(l1: nat, l2: nat) returns (st: Status, l: nat)
      requires Core() && Owned(l1) && Owned(l2) && Elems(bc, l1) !! Elems(bc, l2)
      modifies this`bc, this`pend
      ensures st.Err? ==> AtLimit()
      ensures st.Ok? ==>
                && Core() && |bc| == |old(bc)| && pend == old(pend) && Code() == old(Code())
                && Owned(l) && ListOf(bc, l) == old(ListOf(bc, l1) + ListOf(bc, l2))
                && Elems(bc, l) == old(Elems(bc, l1) + Elems(bc, l2))
                && (forall p :: p in pend && p !in old(Elems(bc, l1)) ==> bc[p].D() == old(bc[p].D()))
    {
      hide Code, ListOf, Elems, WfList, InsOk;
      st, l := Ok, l1;
      ListHead(bc, l1);
      ListHead(bc, l2);
      if l2 != NO_JMP {
        if l1 == NO_JMP {
          l := l2;
        } else {
          var last := JmpLast(l1);
          InElems(bc, l1, last);
          ghost var was := bc;
          :- JmpPatchins(last, l2, false);
          LinkJoins(was, bc, l1, l2);
        }
      }
    }

    /** One round of jmp_patchval. */
    method JmpPatchOne(pc: nat, vt: nat, reg: nat, dt: nat) returns (st: Status)
      requires Core() && pc in pend && IsSlot(reg)
      modifies this`bc, this`pend
      ensures st.Err? && vt <= |old(bc)| && dt <= |old(bc)| ==> AtLimit()
      ensures st.Ok? ==>
                && Core() && |bc| == |old(bc)| && pend == old(pend) - {pc}
                && Code() == PatchOne(old(Code()), pc, vt, reg, dt)
                && (forall p :: p in pend ==> bc[p].D() == old(bc[p].D()))
    {
      hide PatchGuard, Carries, Code;
      var carries := JmpPatchtestreg(pc, reg);
      st := JmpPatchins(pc, if carries then vt else dt, true);
      if st.Ok? {
        ghost var c := old(Code());
        ghost var g := PatchGuard(c[pc - 1], pc - 1, reg);
        assert c[pc - 1 := g][pc := Jmp(To(if carries then vt else dt))] ==
               c[pc := Jmp(To(if carries then vt else dt))][pc - 1 := g];
      }
    }

    /** jmp_patchval: resolve a list, keeping the values its jumps bring along. */
    method JmpPatchval(l: nat, vt: nat, reg: nat, dt: nat) returns (st: Status)
      requires Core() && Owned(l) && IsSlot(reg)
      modifies this`bc, this`pend
      ensures st.Err? && vt <= |old(bc)| && dt <= |old(bc)| ==> AtLimit()
      ensures st.Ok? ==>
                && Core() && |bc| == |old(bc)| && pend == old(pend - Elems(bc, l))
                && Code() == Patch(old(Code()), old(Elems(bc, l)), vt, reg, dt)
                && (forall p :: p in pend ==> bc[p].D() == old(bc[p].D()))
                && (l == NO_JMP ==> bc == old(bc))
    {
      hide Decode, PatchGuard, Carries, Patch, PatchOne, Code, ListOf, IsList, Next, Follow, InsOk, DecodeAll;
      ghost var ps := ListOf(bc, l);
      ghost var L := Elems(bc, l);
      ghost var k, seen := 0, {};
      ListIs(bc, l, ps);
      PatchNone(Code(), vt, reg, dt);
      AllPendingIn(L);
      assert ps[0..] == ps;
      ListStep(bc, l, ps, 0);
      var list := l;
      while list != NO_JMP
        invariant 0 <= k <= |ps| && IsList(bc, list, ps[k..])
        invariant Core() && |bc| == |old(bc)| && (k == 0 ==> bc == old(bc))
        invariant seen == (set i | 0 <= i < k :: ps[i]) && pend == old(pend) - seen
        invariant Code() == Patch(old(Code()), seen, vt, reg, dt)
        invariant forall p :: p in pend ==> bc[p].D() == old(bc[p].D())
        decreases |ps| - k
      {
        ListStep(bc, list, ps, k);
        assert list in L && list !in seen;
        var next := Next(bc, list);
        assert seen + {list} <= L;
        PatchStep(old(Code()), seen, list, vt, reg, dt);
        ghost var was := bc;
        :- JmpPatchOne(list, vt, reg, dt);
        seen, k := seen + {list}, k + 1;
        StillPending(ps, k, seen, old(pend));
        ListKept(was, bc, next, ps[k..]);
        list := next;
      }
      ListStep(bc, list, ps, k);
      assert seen == L;
      return Ok;
    }

    lemma StillPending(ps: seq<nat>, k: nat, seen: set<nat>, was: set<nat>)
      requires Core() && k <= |ps| && seen == (set i | 0 <= i < k :: ps[i]) && pend == was - seen
      requires forall i, j :: 0 <= i < j < |ps| ==> ps[i] != ps[j]
      requires forall p :: p in ps ==> p in was
      ensures forall p :: p in ps[k..] ==> p in pend && p < |bc|
    {
      forall p | p in ps[k..]
        ensures p in pend
      {
        assert p in ps;
      }
    }

    /** jmp_dropval: drop the values of a list that stays open. */
    method JmpDropval(l: nat)
      requires Core() && Owned(l)
      modifies this`bc
      ensures Core() && |bc| == |old(bc)| && Code() == DropVal(old(Code()), old(Elems(bc, l)))
      ensures forall p :: p in pend ==> bc[p].D() == old(bc[p].D())
    {
      hide Decode, PatchGuard, Carries, DropVal, Code, ListOf, IsList, Next, Follow, InsOk, DecodeAll;
      ghost var ps := ListOf(bc, l);
      ghost var L := Elems(bc, l);
      ghost var k, seen := 0, {};
      ListIs(bc, l, ps);
      DropEmpty(Code());
      AllPendingIn(L);
      assert ps[0..] == ps;
      var list := l;
      while list != NO_JMP
        invariant 0 <= k <= |ps| && IsList(bc, list, ps[k..])
        invariant Core() && |bc| == |old(bc)| && seen == set i | 0 <= i < k :: ps[i]
        invariant Code() == DropVal(old(Code()), seen)
        invariant forall p :: p in pend ==> bc[p].D() == old(bc[p].D())
        decreases |ps| - k
      {
        ListStep(bc, list, ps, k);
        assert list in L && list !in seen;
        assert seen + {list} <= L;
        DropStep(old(Code()), seen, list);
        ghost var was := bc;
        var _ := JmpPatchtestreg(list, NO_REG);
        seen, k := seen + {list}, k + 1;
        forall p | p in ps[k..]
          ensures p in pend
        {
          assert p in ps && p in L;
        }
        ListKept(was, bc, Next(was, list), ps[k..]);
        NextSame(was, bc, list);
        list := Next(bc, list);
      }
      ListStep(bc, list, ps, k);
      assert seen == L;
    }

    lemma DropEmpty(c: ExprCode.Code)
      ensures DropVal(c, {}) == c
    {
    }

    lemma AllPendingIn(L: set<nat>)
      requires Core() && L <= pend
      ensures AllPending(Code(), L)
    {
    }
  
    // -- Emitting ---------------------------------------------------------------------------------

    /** Jumps outside `mine` are still pending and linked as before. */
    twostate predicate Frame(mine: set<nat>)
      reads this
    {
      && |old(bc)| <= |bc| && old(pend) - mine <= pend
      && (forall p :: p in old(pend) - mine && p < |old(bc)| && p < |bc| ==> bc[p].D() == old(bc[p].D()))
    }

    /** Append an instruction to the code. */
    method Push(ins: BCIns, ghost pending: bool)
      requires Core() && InsOk(ins, kn, ks) && ins.op != FUNCF && |bc| < MAX_BCINS
      requires pending ==> ins.AD? && ins.op == JMP && bc != []
      modifies this`bc, this`pend
      ensures Core() && bc == old(bc) + [ins] && pend == (if pending then old(pend) + {|old(bc)|} else old(pend))
      ensures Code() == old(Code()) + [Decode(ins, |old(bc)|, pending, kn, ks)]
    {
      hide Decode, DecodeAll, Code, WfList, ListOf, IsList, Elems, Next, Follow;
      CodeIs();
      DecodeAppend(bc, pend, kn, ks, ins, pending);
      if pending {
        pend := pend + {|bc|};
      }
      bc := bc + [ins];
      CodeIs();
    }

    /** bcemit_INS: emit an instruction. */
    method BcemitINS(ins: BCIns) returns (st: Status, pc: nat)
      requires Valid() && InsOk(ins, kn, ks) && ins.op != FUNCF
      modifies this`bc, this`pend, this`jpc
      ensures st.Err? ==> AtLimit()
      ensures st.Ok? ==>
                && Valid() && pc == |old(bc)| && |bc| == pc + 1
                && Abs() == Emit(old(Abs()), Decode(ins, pc, false, kn, ks))
                && pend == old(pend - Elems(bc, jpc)) && jpc == NO_JMP
                && Frame(old(Elems(bc, jpc))) && (old(jpc) == NO_JMP ==> bc == old(bc) + [ins])
    {
      hide Decode, Patch, Code, WfList, ListOf, IsList, Elems, Next, Follow;
      pc := |bc|;
      st := JmpPatchval(jpc, pc, NO_REG, pc);
      if st.Err? { return; }
      jpc := NO_JMP;
      if pc >= MAX_BCINS { return Err, pc; }
      Push(ins, false);
      EmptyList(bc);
    }

    /** bcemit_jmp: emit a jump without a target; pending jumps to here join it. */
    method BcemitJmp() returns (st: Status, j: nat)
      requires Valid() && bc != []
      modifies this`bc, this`pend, this`jpc
      ensures st.Err? ==> AtLimit()
      ensures st.Ok? ==>
                && Valid() && Owned(j) && jpc == NO_JMP && |bc| == |old(bc)| + 1
                && Abs() == EmitJmp(old(Abs())).0 && Elems(bc, j) == EmitJmp(old(Abs())).1
                && pend == old(pend) + {|old(bc)|} && Frame({})
    {
      hide Decode, Code, WfList, ListOf, IsList, Elems, Next, Follow;
      var list := jpc;
      j := |bc|;
      jpc := NO_JMP;
      if j >= MAX_BCINS { return Err, j; }
      ghost var was := bc;
      JumpDecode(freereg, BCBIAS_J - 1, j, kn, ks);
      Push(AD(JMP, freereg, BCBIAS_J - 1), true);
      ElemsKept(was, bc, list);
      SingleList(bc, j);
      st, j := JmpAppend(j, list);
      EmptyList(bc);
    }

    /** jmp_tohere: let a list go to the next instruction. */
    method JmpTohere(list: nat) returns (st: Status)
      requires Valid() && Owned(list) && Elems(bc, list) !! Elems(bc, jpc)
      modifies this`bc, this`pend, this`jpc, this`lasttarget
      ensures st.Err? ==> AtLimit()
      ensures st.Ok? ==>
                && Valid() && Abs() == ToHere(old(Abs()), old(Elems(bc, list)))
                && Elems(bc, jpc) == old(Elems(bc, jpc) + Elems(bc, list))
                && pend == old(pend) && Frame(old(Elems(bc, jpc))) && |bc| == |old(bc)|
    {
      hide Code, WfList, ListOf, IsList, Elems, Next, Follow;
      lasttarget := |bc|;
      st, jpc := JmpAppend(jpc, list);
    }
  
    // -- Expressions ---------------------------------------------------------------------------------

    /** A well-formed expression descriptor. */
    ghost predicate ExpOk(e: ExpDesc)
      reads this`bc, this`pend, this`kn, this`ks, this`jpc
    {
      && ListsOk(e.t, e.f) && KindOk(e.k)
      && (e.k.KJmp? ==> e.k.pc !in Elems(bc, e.t) + Elems(bc, e.f))
      && (e.k.KJmp? || e.k.KReloc? ==> jpc == NO_JMP)
    }

    /** The jumps e and the state are responsible for. */
    ghost function Mine(e: ExpDesc): set<nat>
      reads this`bc, this`jpc
    {
      Elems(bc, jpc) + Elems(bc, e.t) + Elems(bc, e.f) + if e.k.KJmp? then {e.k.pc} else {}
    }

    /** Jumps outside `mine` are left alone and not taken over by e. */
    twostate predicate Within(mine: set<nat>, e: ExpDesc)
      reads this
    {
      Frame(mine) && forall p :: p in Mine(e) ==> p in mine || p >= |old(bc)|
    }

    /** From e0 to e, other jumps are left alone. */
    twostate predicate Evolve(e0: ExpDesc, e: ExpDesc)
      reads this
    {
      Within(old(Mine(e0)), e)
    }

    ghost predicate ListsOk(t: nat, f: nat)
      reads this`bc, this`pend, this`jpc
    {
      Owned(t) && Owned(f) && Elems(bc, jpc) !! Elems(bc, t) !! Elems(bc, f)
    }

    ghost predicate KindOk(k: Kind)
      reads this`bc, this`pend, this`kn, this`ks
    {
      match k
      case KConst(v) => !v.Obj?
      case KLocal(r) => r < MAX_SLOTS
      case KReg(r) => r < MAX_SLOTS
      case KReloc(p) => p < |bc| && Code()[p].Alu?
      case KJmp(pc) =>
        && pc in pend && 1 <= pc < |bc| && WfList(bc, pc) && Elems(bc, pc) == {pc}
        && IsCond(Code()[pc - 1])
    }

    /** Replace the instruction at the end. */
    method SetIns(p: nat, i: BCIns)
      requires Core() && p < |bc| && p !in pend && InsOk(i, kn, ks) && (i.op == FUNCF <==> bc[p].op == FUNCF)
      modifies this`bc
      ensures Core() && bc == old(bc)[p := i] && Code() == old(Code())[p := Decode(i, p, false, kn, ks)]
      ensures forall j :: j in pend ==> bc[j].D() == old(bc[j].D())
    {
      hide Decode, DecodeAll, Code, WfList, ListOf, IsList, Elems, Next, Follow;
      CodeIs();
      DecodeUpdate(bc, pend, kn, ks, p, i);
      bc := bc[p := i];
      CodeIs();
    }

    lemma CodeAt(p: nat)
      requires Core() && p < |bc|
      ensures Code()[p] == Decode(bc[p], p, p in pend, kn, ks) && InsOk(bc[p], kn, ks)
      ensures p in pend ==> bc[p].AD? && bc[p].op == JMP && Code()[p] == Jmp(Pending)
    {
      hide Decode;
      if p in pend { JumpDecode(bc[p].a, bc[p].d, p, kn, ks); }
    }

    /** The first half of bcemit_nil: merge with a preceding nil load. */
    method NilMerged(from: nat, n: nat) returns (done: bool)
      requires Valid() && n >= 1 && (from + n <= MAX_SLOTS || (n == 1 && from == NO_REG))
      modifies this`bc
      ensures done ==>
                && Valid() && Abs() == EmitNil(old(Abs()), from, n)
                && pend == old(pend) && Frame({}) && Elems(bc, jpc) == old(Elems(bc, jpc))
      ensures !done ==>
                && bc == old(bc)
                && EmitNil(Abs(), from, n) == Emit(Abs(), if n == 1 then LoadK(from, Nil) else KNil(from, from + n - 1))
    {
      hide Decode, Code, Patch, WfList, ListOf, IsList, Elems, Next, Follow, Emit;
      if |bc| > lasttarget {
        var last := |bc| - 1;
        var ip := bc[last];
        CodeAt(last);
        NilDecode(ip, last, last in pend, kn, ks);
        if ip.AD? && ip.op == KPRI && ip.d == 0 {
          if from == ip.a && n == 1 { return true; }
          if from == ip.a || from == ip.a + 1 {
            NilExtend(ip.a, from + n - 1);
            return true;
          }
        } else if ip.AD? && ip.op == KNIL && ip.a <= from <= ip.d + 1 {
          if from + n - 1 > ip.d {
            NilExtend(ip.a, from + n - 1);
          }
          return true;
        }
      }
      return false;
    }

    /** Let the last instruction set registers a..d to nil. */
    method NilExtend(a: nat, d: nat)
      requires Valid() && |bc| - 1 !in pend && bc[|bc| - 1].op != FUNCF && a < 255 && d <= BCMAX_D
      modifies this`bc
      ensures Valid() && |bc| == |old(bc)| && Abs() == old(Abs()).(code := old(Code())[|bc| - 1 := KNil(a, d)])
      ensures Frame({}) && Elems(bc, jpc) == old(Elems(bc, jpc))
    {
      hide Decode, Code, Patch, WfList, ListOf, IsList, Elems, Next, Follow;
      KNilDecode(a, d, |bc| - 1, kn, ks);
      ghost var was := bc;
      SetIns(|bc| - 1, AD(KNIL, a, d));
      ElemsKept(was, bc, jpc);
    }

    /** bcemit_nil: set registers to nil, merging with a preceding nil load. */
    method BcemitNil(from: nat, n: nat) returns (st: Status)
      requires Valid() && n >= 1 && (from + n <= MAX_SLOTS || (n == 1 && from == NO_REG))
      modifies this`bc, this`pend, this`jpc
      ensures st.Err? ==> AtLimit()
      ensures st.Ok? ==>
                && Valid() && Abs() == EmitNil(old(Abs()), from, n)
                && pend <= old(pend) && Frame(old(Elems(bc, jpc))) && Elems(bc, jpc) <= old(Elems(bc, jpc))
    {
      hide Decode, Code, Patch, WfList, ListOf, IsList, Elems, Next, Follow, Emit, EmitNil;
      var done := NilMerged(from, n);
      if done { return Ok; }
      EmptyList(bc);
      if n == 1 {
        LoadDecode(from, Nil, 0, |bc|, kn, ks);
        var _ :- BcemitINS(AD(KPRI, from, 0));
      } else {
        KNilDecode(from, from + n - 1, |bc|, kn, ks);
        var _ :- BcemitINS(AD(KNIL, from, from + n - 1));
      }
      EmptyList(bc);
      return Ok;
    }
  
    // -- Constants -------------------------------------------------------------------------------------

    /** const_num: index of a number constant. */
    method ConstNumber(n: int) returns (st: Status, idx: nat)
      requires Valid()
      modifies this`kn
      ensures st.Err? ==> AtLimit()
      ensures st.Ok? ==>
                && Valid() && Abs() == ConstNum(old(Abs()), n).0 && idx == ConstNum(old(Abs()), n).1
                && Code() == old(Code()) && InPool(Num(n), idx, kn, ks)
    {
      hide Decode, DecodeAll, Code, Follow, WfList, ListOf, IsList, Elems, Next;
      idx := IndexOf(kn, n);
      IndexOfIs(kn, n);
      CodeIs();
      if n !in kn {
        PoolsGrow(bc, pend, kn, ks, kn + [n], ks);
        kn := kn + [n];
        CodeIs();
      }
      st := if idx > BCMAX_D then Err else Ok;
    }

    /** const_str: index of a string constant. */
    method ConstStr(s: string) returns (st: Status, idx: nat)
      requires Valid()
      modifies this`ks
      ensures st.Err? ==> AtLimit()
      ensures st.Ok? ==> Valid() && Abs() == old(Abs()) && Code() == old(Code()) && InPool(Str(s), idx, kn, ks)
    {
      hide Decode, DecodeAll, Code, Follow, WfList, ListOf, IsList, Elems, Next;
      CodeIs();
      if i :| 0 <= i < |ks| && ks[i] == s {
        idx := i;
      } else {
        idx := |ks|;
        PoolsGrow(bc, pend, kn, ks, kn, ks + [s]);
        ks := ks + [s];
        CodeIs();
      }
      st := if idx > BCMAX_D then Err else Ok;
    }

    lemma {:induction false} IndexOfIs(s: seq<int>, n: int)
      ensures if n in s then IndexOf(s, n) < |s| && s[IndexOf(s, n)] == n else IndexOf(s, n) == |s|
    {
      if s != [] && s[0] != n {
        IndexOfIs(s[1..], n);
      }
    }

    /** Emit the load of a constant. */
    method EmitLoad(k: Val, reg: nat) returns (st: Status)
      requires Valid() && IsSlot(reg) && !k.Obj?
      modifies this`bc, this`pend, this`jpc, this`kn, this`ks
      ensures st.Err? ==> AtLimit()
      ensures st.Ok? ==>
                && Valid() && |bc| == |old(bc)| + 1 && jpc == NO_JMP
                && Abs() == Emit(Pool(old(Abs()), k), LoadK(reg, k))
                && pend == old(pend - Elems(bc, jpc)) && Frame(old(Elems(bc, jpc)))
    {
      hide Decode, DecodeAll, Code, Follow, Patch, IndexOf, WfList, ListOf, IsList, Elems, Next;
      var idx := 0;
      if k.Str? {
        idx :- ConstStr(k.s);
      } else if k.Num? && !(0 <= k.n <= BCMAX_D) {
        idx :- ConstNumber(k.n);
      }
      LoadDecode(reg, k, idx, |bc|, kn, ks);
      var _ :- BcemitINS(LoadIns(reg, k, idx));
      return Ok;
    }
  
    // -- Discharging expressions --------------------------------------------------------------------------

    /** A list that is not touched is still the same list. */
    lemma ListStays(was: Bytecode, wasPend: set<nat>, mine: set<nat>, h: nat)
      requires Core() && WfList(was, h) && Elems(was, h) <= wasPend - mine
      requires |was| <= |bc| && wasPend - mine <= pend
      requires forall p :: p in wasPend - mine && p < |was| && p < |bc| ==> bc[p].D() == was[p].D()
      ensures Owned(h) && Elems(bc, h) == Elems(was, h)
    {
      ListIs(was, h, ListOf(was, h));
      ElemsKept(was, bc, h);
    }

    /** expr_toreg_nobranch: put an expression into a register, ignoring its lists. */
    method ExprToregNobranch(e0: ExpDesc, reg: nat) returns (st: Status, e: ExpDesc)
      requires Valid() && ExpOk(e0) && IsSlot(reg) && (e0.k.KConst? || reg < MAX_SLOTS)
      modifies this
      ensures st.Err? ==> AtLimit()
      ensures st.Ok? ==>
                && Valid() && ListsOk(e.t, e.f)
                && (Abs(), AbsExp(e)) == ToRegNoBranch(old(Abs()), old(AbsExp(e0)), reg)
                && (if e0.k.KJmp? then e == e0 && unchanged(this) else e == ExpDesc(KReg(reg), e0.t, e0.f))
                && pend <= old(pend) && Frame(old(Elems(bc, jpc))) && Elems(bc, jpc) <= old(Elems(bc, jpc))
                && Elems(bc, e.t) == old(Elems(bc, e0.t)) && Elems(bc, e.f) == old(Elems(bc, e0.f))
    {
      hide Decode, DecodeAll, Code, Follow, Patch, EmitNil, WfList, ListOf, IsList, Elems, Next;
      st, e := Ok, ExpDesc(KReg(reg), e0.t, e0.f);
      var k := e0.k;
      if k.KConst? {
        if k.k == Nil {
          st := BcemitNil(reg, 1);
        } else {
          st := EmitLoad(k.k, reg);
        }
      } else if k.KReloc? {
        ghost var was := bc;
        CodeAt(k.pc);
        SetADecode(bc[k.pc], reg, k.pc, k.pc in pend, kn, ks);
        SetIns(k.pc, SetA(bc[k.pc], reg));
        ElemsKept(was, bc, jpc);
      } else if k.KJmp? {
        e := e0;
      } else if k.r != reg {
        MovDecode(reg, k.r, |bc|, kn, ks);
        var pc;
        st, pc := BcemitINS(AD(MOV, reg, k.r));
      }
      if st.Ok? {
        ListStays(old(bc), old(pend), old(Elems(bc, jpc)), e0.t);
        ListStays(old(bc), old(pend), old(Elems(bc, jpc)), e0.f);
      }
    }
  
    /** A jump over the next instruction, between the two bool loads. */
    lemma SkipDecode(a: nat, at: nat)
      requires a < 255
      ensures InsOk(AD(JMP, a, BCBIAS_J + 1), kn, ks)
      ensures Decode(AD(JMP, a, BCBIAS_J + 1), at, false, kn, ks) == Jmp(To(at + 2))
    {
    }

    /** Emit an instruction when nothing is pending. */
    method EmitPlain(ins: BCIns, ghost i: Ins) returns (st: Status)
      requires Valid() && InsOk(ins, kn, ks) && jpc == NO_JMP && Decode(ins, |bc|, false, kn, ks) == i && !i.Header?
      modifies this`bc, this`pend, this`jpc
      ensures st.Err? ==> AtLimit()
      ensures st.Ok? ==>
                && Valid() && |bc| == |old(bc)| + 1 && Abs() == Emit(old(Abs()), i)
                && pend == old(pend) && jpc == NO_JMP && bc[..|old(bc)|] == old(bc)
    {
      hide Decode, DecodeAll, Code, Follow, Patch, Emit, WfList, ListOf, IsList, Elems, Next;
      EmptyList(bc);
      HeaderDecode(ins, |bc|, kn, ks);
      var _ :- BcemitINS(ins);
      return Ok;
    }

    /** Load a truth value when nothing is pending. */
    method EmitBool(reg: nat, b: bool) returns (st: Status)
      requires Valid() && reg < MAX_SLOTS && jpc == NO_JMP
      modifies this`bc, this`pend, this`jpc
      ensures st.Err? ==> AtLimit()
      ensures st.Ok? ==>
                && Valid() && |bc| == |old(bc)| + 1 && Abs() == Emit(old(Abs()), LoadK(reg, Bool(b)))
                && pend == old(pend) && jpc == NO_JMP && bc[..|old(bc)|] == old(bc)
    {
      hide Decode, DecodeAll, Code, Follow, Patch, Emit, WfList, ListOf, IsList, Elems, Next;
      LoadDecode(reg, Bool(b), 0, |bc|, kn, ks);
      st := EmitPlain(AD(KPRI, reg, if b then 2 else 1), LoadK(reg, Bool(b)));
    }

    /** The bool loads of expr_toreg. */
    method EmitBoolLoads(reg: nat, jval: nat) returns (st: Status)
      requires Valid() && reg < MAX_SLOTS && jpc == NO_JMP && Owned(jval)
      modifies this
      ensures st.Err? ==> AtLimit()
      ensures st.Ok? ==>
                && Valid() && Abs() == EmitBools(old(Abs()), reg, old(Elems(bc, jval))) && ks == old(ks)
                && pend == old(pend) && Frame({}) && |bc| == |old(bc)| + 3
                && Elems(bc, jpc) == old(Elems(bc, jval))
    {
      hide Decode, DecodeAll, Code, Follow, Patch, Emit, ToHere, WfList, ListOf, IsList, Elems, Next, InsOk;
      :- EmitBool(reg, false);
      SkipDecode(freereg, |bc|);
      :- EmitPlain(AD(JMP, freereg, BCBIAS_J + 1), Jmp(To(|bc| + 2)));
      :- EmitBool(reg, true);
      assert bc[..|old(bc)|] == old(bc);
      ElemsKept(old(bc), bc, jval);
      EmptyList(bc);
      st := JmpTohere(jval);
    }

    /** The end of expr_toreg: all jumps arrive here. */
    method SettleLists(t: nat, f: nat, reg: nat, jf: nat, jt: nat, ghost k: Kind) returns (st: Status)
      requires Valid() && ListsOk(t, f) && reg < MAX_SLOTS
      modifies this
      ensures st.Err? && jf <= |old(bc)| && jt <= |old(bc)| ==> AtLimit()
      ensures st.Ok? ==>
                && Valid() && ks == old(ks)
                && Abs() == Settle(old(Abs()), Exp(k, Elems(old(bc), t), Elems(old(bc), f)), reg, jf, jt)
                && Elems(bc, jpc) == old(Elems(bc, jpc))
                && pend == old(pend) - (Elems(old(bc), t) + Elems(old(bc), f))
                && Frame(Elems(old(bc), t) + Elems(old(bc), f)) && |bc| == |old(bc)|
    {
      hide Decode, DecodeAll, Code, Follow, Patch, WfList, ListOf, IsList, Elems, Next;
      var jend := |bc|;
      lasttarget := jend;
      :- JmpPatchval(f, jend, reg, jf);
      ListStays(old(bc), old(pend), Elems(old(bc), f), t);
      :- JmpPatchval(t, jend, reg, jt);
      ListStays(old(bc), old(pend), Elems(old(bc), t) + Elems(old(bc), f), jpc);
      return Ok;
    }

    /** Whether e has jumps: two empty lists have the same head. */
    lemma HasJumpIs(e: ExpDesc)
      requires ListsOk(e.t, e.f)
      ensures (e.t != e.f) == AbsExp(e).HasJump()
      ensures e.t == e.f ==> Plain(e)
    {
      hide WfList, ListOf, IsList, Elems, Next, Follow;
      EmptyList(bc);
      if e.t != NO_JMP { HeadIsElem(bc, e.t); }
      if e.f != NO_JMP { HeadIsElem(bc, e.f); }
    }

    /** The jump of a conditional expression joins its true list. */
    method JoinOwnJmp(e0: ExpDesc) returns (st: Status, e: ExpDesc)
      requires Valid() && ListsOk(e0.t, e0.f) && (e0.k.KJmp? ==> ExpOk(e0))
      modifies this`bc, this`pend
      ensures st.Err? ==> AtLimit()
      ensures st.Ok? ==>
                && Valid() && Abs() == old(Abs()) && AbsExp(e) == JoinJmp(old(AbsExp(e0))) && ListsOk(e.t, e.f)
                && e.k == e0.k && pend == old(pend) && Frame(old(Elems(bc, e0.t))) && |bc| == |old(bc)|
    {
      hide Code, Follow, WfList, ListOf, IsList, Elems, Next;
      st, e := Ok, e0;
      if e.k.KJmp? {
        EmptyList(bc);
        var t;
        st, t := JmpAppend(e.t, e.k.pc);
        if st.Err? { return; }
        ListStays(old(bc), old(pend), Elems(old(bc), e0.t), e0.f);
        ListStays(old(bc), old(pend), Elems(old(bc), e0.t), jpc);
        e := e.(t := t);
      }
    }

    /** Some jump brings no value: load false and true for those. */
    method SettleBools(e: ExpDesc, reg: nat) returns (st: Status)
      requires Valid() && ListsOk(e.t, e.f) && (e.k.KJmp? ==> jpc == NO_JMP) && reg < MAX_SLOTS && bc != []
      modifies this
      ensures st.Err? ==> AtLimit()
      ensures st.Ok? ==>
                && Valid() && ks == old(ks)
                && Abs() == (var a := old(Abs());
                             var (s1, jval) := if e.k.KJmp? then (a, {}) else EmitJmp(a);
                             Settle(EmitBools(s1, reg, jval), old(AbsExp(e)), reg, s1.Pc(), s1.Pc() + 2))
                && Frame(old(Elems(bc, e.t) + Elems(bc, e.f)))
                && (forall p :: p in Elems(bc, jpc) ==> p in old(Elems(bc, jpc)) || p >= |old(bc)|)
    {
      hide Decode, DecodeAll, Code, Follow, Patch, Emit, ToHere, WfList, ListOf, IsList, Elems, Next;
      var jval := NO_JMP;
      if !e.k.KJmp? {
        st, jval := BcemitJmp();
        if st.Err? { return; }
      } else {
        EmptyList(bc);
      }
      var n := |bc|;
      ghost var s1, jv := Abs(), Elems(bc, jval);
      assert e.k.KJmp? ==> jv == {};
      assert (s1, jv) == if e.k.KJmp? then (old(Abs()), {}) else EmitJmp(old(Abs()));
      :- EmitBoolLoads(reg, jval);
      ListStays(old(bc), old(pend), {}, e.t);
      ListStays(old(bc), old(pend), {}, e.f);
      assert AbsExp(e) == old(AbsExp(e)) && Abs() == EmitBools(s1, reg, jv);
      st := SettleLists(e.t, e.f, reg, n, n + 2, e.k);
    }

    /** The second half of expr_toreg. */
    method SettleExp(e0: ExpDesc, reg: nat) returns (st: Status)
      requires Valid() && ListsOk(e0.t, e0.f) && (e0.k.KJmp? ==> ExpOk(e0)) && reg < MAX_SLOTS && bc != []
      modifies this
      ensures st.Err? ==> AtLimit()
      ensures st.Ok? ==>
                && Valid() && Abs() == SettleAll(old(Abs()), old(AbsExp(e0)), reg) && ks == old(ks)
                && Frame(old(Elems(bc, e0.t) + Elems(bc, e0.f)) + (if e0.k.KJmp? then {e0.k.pc} else {}))
                && (forall p :: p in Elems(bc, jpc) ==> p in old(Elems(bc, jpc)) || p >= |old(bc)|)
    {
      hide Decode, DecodeAll, Code, Follow, Patch, EmitBools, Settle, NoValue, WfList, ListOf, IsList, Elems, Next;
      var e;
      st, e := JoinOwnJmp(e0);
      if st.Err? { return; }
      HasJumpIs(e);
      if e.t == e.f { return Ok; }
      var nt := JmpNovalue(e.t);
      var nf := JmpNovalue(e.f);
      if nt || nf {
        st := SettleBools(e, reg);
      } else {
        st := SettleLists(e.t, e.f, reg, 0, 0, e.k);
      }
    }
  
    /** Two framed steps in a row. */
    lemma FrameTrans(was: Bytecode, wasPend: set<nat>, mine: set<nat>, mid: Bytecode, midPend: set<nat>,
                     mine': set<nat>)
      requires |was| <= |mid| <= |bc| && wasPend - mine <= midPend && midPend - mine' <= pend
      requires forall p :: p in wasPend - mine && p < |was| && p < |mid| ==> mid[p].D() == was[p].D()
      requires forall p :: p in midPend - mine' && p < |mid| && p < |bc| ==> bc[p].D() == mid[p].D()
      requires forall p :: p in mine' ==> p in mine || p >= |was|
      requires forall p :: p in wasPend ==> p < |was|
      ensures wasPend - mine <= pend
      ensures forall p :: p in wasPend - mine && p < |was| && p < |bc| ==> bc[p].D() == was[p].D()
    {
      forall p | p in wasPend - mine
        ensures p in pend && (p < |was| && p < |bc| ==> bc[p].D() == was[p].D())
      {
        assert p in midPend - mine';
      }
    }

    /** A register without jumps. */
    function RegDesc(r: nat): ExpDesc {
      ExpDesc(KReg(r), NO_JMP, NO_JMP)
    }

    lemma RegDescOk(r: nat)
      requires Valid() && r < MAX_SLOTS
      ensures ExpOk(RegDesc(r)) && AbsExp(RegDesc(r)) == Exp(KReg(r), {}, {}) && Mine(RegDesc(r)) == Elems(bc, jpc)
    {
      EmptyList(bc);
    }

    /** expr_toreg: put an expression into a register. */
    method ExprToreg(e0: ExpDesc, reg: nat) returns (st: Status, e: ExpDesc)
      requires Valid() && ExpOk(e0) && reg < MAX_SLOTS && bc != []
      modifies this
      ensures st.Err? ==> AtLimit()
      ensures st.Ok? ==>
                && Valid() && e == RegDesc(reg) && ExpOk(e) && Evolve(e0, e)
                && (Abs(), AbsExp(e)) == ToReg(old(Abs()), old(AbsExp(e0)), reg)
    {
      hide Decode, DecodeAll, Code, Follow, Patch, ToRegNoBranch, SettleAll, WfList, ListOf, IsList, Elems, Next;
      var e1;
      e := RegDesc(reg);
      st, e1 := ExprToregNobranch(e0, reg);
      if st.Err? { return; }
      ghost var mid, midPend := bc, pend;
      ghost var mine := old(Mine(e0));
      assert Mine(e1) <= mine;
      st := SettleExp(e1, reg);
      if st.Err? { return; }
      FrameTrans(old(bc), old(pend), mine, mid, midPend, mine);
      RegDescOk(reg);
    }

    // -- Registers ----------------------------------------------------------------------------------------

    /** bcreg_reserve: reserve registers; fails when the frame is full. */
    method BcregReserve(n: nat) returns (st: Status)
      requires Valid()
      modifies this`freereg, this`framesize
      ensures st.Err? ==> freereg == old(freereg) && freereg + n >= MAX_SLOTS
      ensures st.Ok? ==> Valid() && Reserve(old(Abs()), n).Some? && Abs() == Reserve(old(Abs()), n).value
    {
      hide Code, Follow, WfList, ListOf, IsList, Elems, Next;
      var sz := freereg + n;
      if sz > framesize {
        if sz >= MAX_SLOTS { return Err; }
        framesize := sz;
      }
      freereg := sz;
      return Ok;
    }

    /** expr_free: give back the register of an expression. */
    method ExprFree(k: Kind)
      requires Valid()
      modifies this`freereg
      ensures Valid() && forall e: Exp :: e.k == k ==> Abs() == FreeExp(old(Abs()), e)
    {
      hide Code, Follow, WfList, ListOf, IsList, Elems, Next;
      if k.KReg? && k.r >= nactvar {
        freereg := Dec(freereg);
      }
    }

    /** An expression without jump lists. */
    static predicate Plain(e: ExpDesc) {
      e.t == NO_JMP && e.f == NO_JMP
    }

    /** expr_discharge: a local is its register. */
    static function Discharged(e: ExpDesc): ExpDesc {
      if e.k.KLocal? then e.(k := KReg(e.k.r)) else e
    }

    /** expr_tonextreg: put an expression into the next register. */
    method ExprTonextreg(e0: ExpDesc) returns (st: Status, e: ExpDesc)
      requires Valid() && ExpOk(e0) && bc != []
      modifies this
      ensures st.Err? ==> AtLimit()
      ensures st.Ok? ==>
                && Valid() && ExpOk(e) && Evolve(e0, e) && e.k.KReg? && Plain(e)
                && ToNextReg(old(Abs()), old(AbsExp(e0))) == Some((Abs(), AbsExp(e)))
    {
      hide Decode, DecodeAll, Code, Follow, Patch, ToReg, WfList, ListOf, IsList, Elems, Next;
      e := Discharged(e0);
      assert AbsExp(e) == Discharge(AbsExp(e0)) && Mine(e) == Mine(e0);
      ExprFree(e.k);
      st := BcregReserve(1);
      if st.Err? { return; }
      st, e := ExprToreg(e, freereg - 1);
    }

    /** expr_toanyreg: put an expression into any register. */
    method ExprToanyreg(e0: ExpDesc) returns (st: Status, e: ExpDesc)
      requires Valid() && ExpOk(e0) && bc != []
      modifies this
      ensures st.Err? ==> AtLimit()
      ensures st.Ok? ==>
                && Valid() && ExpOk(e) && Evolve(e0, e) && e.k.KReg? && Plain(e)
                && ToAnyReg(old(Abs()), old(AbsExp(e0))) == Some((Abs(), AbsExp(e)))
    {
      hide Decode, DecodeAll, Code, Follow, Patch, ToReg, ToNextReg, WfList, ListOf, IsList, Elems, Next;
      st, e := Ok, Discharged(e0);
      assert AbsExp(e) == Discharge(AbsExp(e0)) && Mine(e) == Mine(e0);
      HasJumpIs(e);
      if e.k.KReg? {
        if e.t == e.f { return; }
        if e.k.r >= nactvar {
          st, e := ExprToreg(e, e.k.r);
          return;
        }
      }
      st, e := ExprTonextreg(e);
    }

    /** expr_toval: discharge an expression that has jumps. */
    method ExprToval(e0: ExpDesc) returns (st: Status, e: ExpDesc)
      requires Valid() && ExpOk(e0) && bc != []
      modifies this
      ensures st.Err? ==> AtLimit()
      ensures st.Ok? ==>
                && Valid() && ExpOk(e) && Evolve(e0, e) && !e.k.KLocal? && Plain(e)
                && ToVal(old(Abs()), old(AbsExp(e0))) == Some((Abs(), AbsExp(e)))
    {
      hide Decode, DecodeAll, Code, Follow, Patch, ToAnyReg, WfList, ListOf, IsList, Elems, Next;
      HasJumpIs(e0);
      if e0.t != e0.f {
        st, e := ExprToanyreg(e0);
      } else {
        st, e := Ok, Discharged(e0);
      }
    }

    // -- Branches ------------------------------------------------------------------------------------------

    /** invertcond: invert the condition of the jump at pc. */
    method Invertcond(pc: nat)
      requires Core() && KindOk(KJmp(pc))
      modifies this`bc
      ensures Core() && |bc| == |old(bc)| && Code() == old(Code())[pc - 1 := InvertTest(old(Code())[pc - 1])]
      ensures forall p :: p in pend ==> bc[p].D() == old(bc[p].D())
    {
      hide Decode, DecodeAll, Code, Follow, InvertIns, WfList, ListOf, IsList, Elems, Next;
      CodeAt(pc - 1);
      InvertDecode(bc[pc - 1], pc - 1, pc - 1 in pend, kn, ks);
      SetIns(pc - 1, InvertIns(bc[pc - 1]));
    }

    /** An instruction with a jump behind it. */
    method BcemitTestJmp(ins: BCIns, ghost i: Ins) returns (st: Status, j: nat)
      requires Valid() && InsOk(ins, kn, ks) && Decode(ins, |bc|, false, kn, ks) == i && !i.Header?
      modifies this`bc, this`pend, this`jpc
      ensures st.Err? ==> AtLimit()
      ensures st.Ok? ==>
                && Valid() && jpc == NO_JMP && j == |old(bc)| + 1 && |bc| == j + 1
                && Abs() == EmitJmp(Emit(old(Abs()), i)).0 && EmitJmp(Emit(old(Abs()), i)).1 == {j}
                && Owned(j) && Elems(bc, j) == {j}
                && pend == old(pend - Elems(bc, jpc)) + {j} && Frame(old(Elems(bc, jpc)))
    {
      hide Decode, DecodeAll, Code, Follow, Patch, WfList, ListOf, IsList, Elems, Next;
      HeaderDecode(ins, |bc|, kn, ks);
      st, j := BcemitINS(ins);
      if st.Err? { return; }
      EmptyList(bc);
      ghost var mid, midPend := bc, pend;
      st, j := BcemitJmp();
      if st.Err? { return; }
      FrameTrans(old(bc), old(pend), old(Elems(bc, jpc)), mid, midPend, {});
      EmptyList(bc);
      HeadIsElem(bc, j);
    }

    /** j lists jumps out of e, beside its own lists, which are still the same. */
    twostate predicate LeavesBy(e: ExpDesc, j: nat)
      reads this
    {
      && Owned(j) && ListsOk(e.t, e.f)
      && Elems(bc, e.t) == old(Elems(bc, e.t)) && Elems(bc, e.f) == old(Elems(bc, e.f))
      && Elems(bc, j) !! Elems(bc, jpc) + Elems(bc, e.t) + Elems(bc, e.f)
      && Elems(bc, jpc) <= old(Elems(bc, jpc)) && |old(bc)| <= |bc|
      && (forall p :: p in Elems(bc, j) ==> p in old(Mine(e)) || p >= |old(bc)|)
      && old(pend) - old(Elems(bc, jpc)) <= pend
      && (forall p :: p in old(pend) - old(Elems(bc, jpc)) && p < |old(bc)| && p < |bc| ==> bc[p].D() == old(bc[p].D()))
    }

    /** A jump emitted at the end leaves every expression. */
    lemma NewJumpLeaves(was: Bytecode, wasPend: set<nat>, wasJpc: nat, e: ExpDesc, j: nat)
      requires Valid() && Owned(j) && WfList(was, e.t) && WfList(was, e.f) && WfList(was, wasJpc) && jpc == NO_JMP
      requires Elems(was, wasJpc) !! Elems(was, e.t) !! Elems(was, e.f) && Elems(was, e.t) + Elems(was, e.f) <= wasPend
      requires |was| <= |bc| && wasPend - Elems(was, wasJpc) <= pend
      requires forall p :: p in wasPend - Elems(was, wasJpc) && p < |was| && p < |bc| ==> bc[p].D() == was[p].D()
      requires forall p :: p in Elems(bc, j) ==> p in Elems(was, wasJpc) || p >= |was|
      ensures ListsOk(e.t, e.f) && Elems(bc, e.t) == Elems(was, e.t) && Elems(bc, e.f) == Elems(was, e.f)
      ensures Elems(bc, j) !! Elems(bc, jpc) + Elems(bc, e.t) + Elems(bc, e.f) && Elems(bc, jpc) == {}
    {
      hide Follow;
      ListStays(was, wasPend, Elems(was, wasJpc), e.t);
      ListStays(was, wasPend, Elems(was, wasJpc), e.f);
      ListIs(was, e.t, ListOf(was, e.t));
      ListIs(was, e.f, ListOf(was, e.f));
      EmptyList(bc);
    }

    /** bcemit_branch, for a logical not: test its operand instead. */
    method BranchOnNot(e: ExpDesc, cond: bool) returns (st: Status, j: nat)
      requires Valid() && ExpOk(e) && bc != [] && e.k.KReloc? && Code()[e.k.pc].f.Not?
      modifies this
      ensures st.Err? ==> AtLimit()
      ensures st.Ok? ==>
                && Valid() && LeavesBy(e, j)
                && Branch(old(Abs()), old(AbsExp(e)), cond) == Some((Abs(), Elems(bc, j)))
    {
      hide Decode, DecodeAll, Code, Follow, Patch, WfList, ListOf, IsList, Elems, Next;
      var p := e.k.pc;
      CodeAt(p);
      var d := bc[p].D();
      NotDecode(bc[p], p, p in pend, kn, ks);
      TestDecode(!cond, 0, d, p, kn, ks);
      SetIns(p, AD(if cond then ISF else IST, 0, d));
      ElemsKept(old(bc), bc, jpc);
      ghost var mid, midPend := bc, pend;
      st, j := BcemitJmp();
      if st.Err? { return; }
      NewJumpLeaves(old(bc), old(pend), old(jpc), e, j);
    }

    /** A test of a register and its jump; the register is given back. */
    method TestReg(r: nat, cond: bool) returns (st: Status, j: nat)
      requires Valid() && r < MAX_SLOTS
      modifies this
      ensures st.Err? ==> AtLimit()
      ensures st.Ok? ==>
                && Valid() && jpc == NO_JMP && j == |old(bc)| + 1 && |bc| == j + 1
                && (var (s', L) := EmitJmp(Emit(old(Abs()), TestCopy(cond, NO_REG, r)));
                    Abs() == FreeReg(s', r) && L == Elems(bc, j) == {j})
                && Owned(j) && pend == old(pend - Elems(bc, jpc)) + {j} && Frame(old(Elems(bc, jpc)))
    {
      hide Decode, DecodeAll, Code, Follow, Patch, EmitJmp, Emit, WfList, ListOf, IsList, Elems, Next, InsOk;
      TestDecode(cond, NO_REG, r, |bc|, kn, ks);
      st, j := BcemitTestJmp(AD(if cond then ISTC else ISFC, NO_REG, r), TestCopy(cond, NO_REG, r));
      if st.Err? { return; }
      ghost var s2 := Abs();
      ExprFree(KReg(r));
      assert Abs() == FreeExp(s2, Exp(KReg(r), {}, {}));
    }

    /** bcemit_branch, for a value: a test that may copy it. */
    method BranchOnReg(e: ExpDesc, cond: bool) returns (st: Status, j: nat)
      requires Valid() && ExpOk(e) && bc != [] && (e.k.KReg? || (e.k.KReloc? && !Code()[e.k.pc].f.Not?))
      modifies this
      ensures st.Err? ==> AtLimit()
      ensures st.Ok? ==>
                && Valid() && LeavesBy(e, j)
                && Branch(old(Abs()), old(AbsExp(e)), cond) == Some((Abs(), Elems(bc, j)))
    {
      hide Decode, DecodeAll, Code, Follow, Patch, ToRegNoBranch, EmitJmp, Emit, WfList, ListOf, IsList, Elems, Next,
           InsOk;
      var e1 := e;
      st, j := Ok, 0;
      if !e.k.KReg? {
        st := BcregReserve(1);
        if st.Err? { return; }
        st, e1 := ExprToregNobranch(e, freereg - 1);
        if st.Err? { return; }
      }
      ghost var mid, midPend, midJpc := bc, pend, Elems(bc, jpc);
      st, j := TestReg(e1.k.r, cond);
      if st.Err? { return; }
      FrameTrans(old(bc), old(pend), old(Elems(bc, jpc)), mid, midPend, midJpc);
      NewJumpLeaves(old(bc), old(pend), old(jpc), e, j);
    }

    /** bcemit_branch: branch away when the truth of e is cond. */
    method BcemitBranch(e: ExpDesc, cond: bool) returns (st: Status, j: nat)
      requires Valid() && ExpOk(e) && bc != [] && (e.k.KReg? || e.k.KReloc?)
      modifies this
      ensures st.Err? ==> AtLimit()
      ensures st.Ok? ==>
                && Valid() && LeavesBy(e, j)
                && Branch(old(Abs()), old(AbsExp(e)), cond) == Some((Abs(), Elems(bc, j)))
    {
      hide Decode, DecodeAll, Code, Follow, Patch, Branch, LeavesBy, WfList, ListOf, IsList, Elems, Next;
      if e.k.KReloc? {
        CodeAt(e.k.pc);
        NotDecode(bc[e.k.pc], e.k.pc, e.k.pc in pend, kn, ks);
        if bc[e.k.pc].AD? && bc[e.k.pc].op == NOT {
          st, j := BranchOnNot(e, cond);
          return;
        }
      }
      st, j := BranchOnReg(e, cond);
    }

    /** The jump of a constant with the wrong truth; its value may be needed later. */
    method JumpWithConst(e: ExpDesc) returns (st: Status, j: nat)
      requires Valid() && ExpOk(e) && bc != [] && e.k.KConst?
      modifies this
      ensures st.Err? ==> AtLimit()
      ensures st.Ok? ==>
                && Valid() && LeavesBy(e, j)
                && EmitJmp(ToRegNoBranch(old(Abs()), old(AbsExp(e)), NO_REG).0) == (Abs(), Elems(bc, j))
    {
      hide Decode, DecodeAll, Code, Follow, Patch, ToRegNoBranch, WfList, ListOf, IsList, Elems, Next;
      var e1;
      st, e1 := ExprToregNobranch(e, NO_REG);
      j := 0;
      if st.Err? { return; }
      ghost var mid, midPend := bc, pend;
      st, j := BcemitJmp();
      if st.Err? { return; }
      FrameTrans(old(bc), old(pend), old(Elems(bc, jpc)), mid, midPend, {});
      NewJumpLeaves(old(bc), old(pend), old(jpc), e, j);
    }

    /** The list `stay` goes on here; the jumps j join the list `leave`. */
    method JoinLists(stay: nat, leave: nat, j: nat) returns (st: Status, l: nat)
      requires Valid() && ListsOk(stay, leave) && Owned(j)
      requires Elems(bc, j) !! Elems(bc, jpc) + Elems(bc, stay) + Elems(bc, leave)
      modifies this
      ensures st.Err? ==> AtLimit()
      ensures st.Ok? ==>
                && Valid() && Owned(l) && Abs() == ToHere(old(Abs()), old(Elems(bc, stay)))
                && Elems(bc, l) == old(Elems(bc, leave) + Elems(bc, j))
                && Elems(bc, jpc) == old(Elems(bc, jpc) + Elems(bc, stay))
                && Frame(old(Elems(bc, jpc) + Elems(bc, leave))) && |bc| == |old(bc)|
    {
      hide Decode, DecodeAll, Code, Follow, WfList, ListOf, IsList, Elems, Next;
      st, l := JmpAppend(leave, j);
      if st.Err? { return; }
      ghost var mid, midPend := bc, pend;
      ghost var mine := old(Elems(bc, jpc) + Elems(bc, leave));
      ListStays(old(bc), old(pend), old(Elems(bc, leave)), stay);
      ListStays(old(bc), old(pend), old(Elems(bc, leave)), jpc);
      st := JmpTohere(stay);
      if st.Err? { return; }
      ListStays(mid, midPend, old(Elems(bc, jpc)), l);
      FrameTrans(old(bc), old(pend), mine, mid, midPend, old(Elems(bc, jpc)));
    }

    /** The jumps that e takes when its truth is cond. */
    method JumpsAway(e: ExpDesc, cond: bool) returns (st: Status, j: nat)
      requires Valid() && ExpOk(e) && bc != [] && !e.k.KLocal?
      modifies this
      ensures st.Err? ==> AtLimit()
      ensures st.Ok? ==>
                && Valid() && LeavesBy(e, j)
                && (match e.k
                    case KConst(k) =>
                      (Abs(), Elems(bc, j)) == if Truthy(k) == cond then
                          EmitJmp(ToRegNoBranch(old(Abs()), old(AbsExp(e)), NO_REG).0)
                                               else (old(Abs()), {})
                    case KJmp(pc) => (Abs(), Elems(bc, j)) ==
                        (if cond then old(Abs()) else InvertCond(old(Abs()), pc), {pc})
                    case _ => Branch(old(Abs()), old(AbsExp(e)), cond) == Some((Abs(), Elems(bc, j))))
    {
      hide Decode, DecodeAll, Code, Follow, Patch, ToRegNoBranch, EmitJmp, Branch, WfList, ListOf, IsList, Elems, Next;
      st, j := Ok, NO_JMP;
      EmptyList(bc);
      if e.k.KConst? {
        if Truthy(e.k.k) == cond { st, j := JumpWithConst(e); }
      } else if e.k.KJmp? {
        j := e.k.pc;
        if !cond {
          Invertcond(j);
          ListStays(old(bc), old(pend), {}, j);
          ListStays(old(bc), old(pend), {}, e.t);
          ListStays(old(bc), old(pend), {}, e.f);
          EmptyList(bc);
        }
      } else {
        st, j := BcemitBranch(e, cond);
      }
    }

    /** bcemit_branch_t: go on when e is true. */
    method BcemitBranchT(e0: ExpDesc) returns (st: Status, e: ExpDesc)
      requires Valid() && ExpOk(e0) && bc != []
      modifies this
      ensures st.Err? ==> AtLimit()
      ensures st.Ok? ==>
                && Valid() && ListsOk(e.t, e.f) && Within(old(Mine(e0)), e)
                && BranchT(old(Abs()), old(AbsExp(e0))) == Some((Abs(), AbsExp(e)))
    {
      hide Decode, DecodeAll, Code, Follow, Patch, ToRegNoBranch, EmitJmp, Branch, InvertCond, WfList, ListOf, IsList,
           Elems, Next;
      e := Discharged(e0);
      assert AbsExp(e) == Discharge(AbsExp(e0)) && Mine(e) == Mine(e0);
      var j, f;
      st, j := JumpsAway(e, false);
      if st.Err? { return; }
      ghost var mid, midPend, mine := bc, pend, Elems(bc, jpc) + Elems(bc, e.f);
      st, f := JoinLists(e.t, e.f, j);
      if st.Err? { return; }
      FrameTrans(old(bc), old(pend), old(Mine(e0)), mid, midPend, mine);
      EmptyList(bc);
      e := e.(t := NO_JMP, f := f);
    }

    /** bcemit_branch_f: go on when e is false. */
    method BcemitBranchF(e0: ExpDesc) returns (st: Status, e: ExpDesc)
      requires Valid() && ExpOk(e0) && bc != []
      modifies this
      ensures st.Err? ==> AtLimit()
      ensures st.Ok? ==>
                && Valid() && ListsOk(e.t, e.f) && Within(old(Mine(e0)), e)
                && BranchF(old(Abs()), old(AbsExp(e0))) == Some((Abs(), AbsExp(e)))
    {
      hide Decode, DecodeAll, Code, Follow, Patch, ToRegNoBranch, EmitJmp, Branch, InvertCond, WfList, ListOf, IsList,
           Elems, Next;
      e := Discharged(e0);
      assert AbsExp(e) == Discharge(AbsExp(e0)) && Mine(e) == Mine(e0);
      var j, t;
      st, j := JumpsAway(e, true);
      if st.Err? { return; }
      ghost var mid, midPend, mine := bc, pend, Elems(bc, jpc) + Elems(bc, e.t);
      st, t := JoinLists(e.f, e.t, j);
      if st.Err? { return; }
      FrameTrans(old(bc), old(pend), old(Mine(e0)), mid, midPend, mine);
      EmptyList(bc);
      e := e.(t := t, f := NO_JMP);
    }

    // -- Operators ------------------------------------------------------------------------------------------

    /** A left operand that has been prepared: a constant or a register, no jumps. */
    static predicate Simple(e: ExpDesc) {
      Plain(e) && ((e.k.KConst? && !e.k.k.Obj?) || (e.k.KReg? && e.k.r < MAX_SLOTS))
    }

    lemma SimpleOk(e: ExpDesc)
      requires Valid() && Simple(e)
      ensures ExpOk(e) && AbsExp(e) == Exp(e.k, {}, {}) && Mine(e) == Elems(bc, jpc)
    {
      hide WfList, ListOf, IsList, Elems, Next, Follow;
      EmptyList(bc);
    }

    /** An operand as a constant index or a register. */
    method OperandIndex(e0: ExpDesc, allowed: bool) returns (st: Status, e: ExpDesc, isK: bool, r: nat)
      requires Valid() && ExpOk(e0) && Plain(e0) && bc != []
      modifies this
      ensures st.Err? ==> AtLimit()
      ensures st.Ok? ==>
                && Valid() && Simple(e) && Evolve(e0, e) && old(kn) <= kn && (isK ==> allowed)
                && ConstOrReg(old(Abs()), old(AbsExp(e0)), allowed) == Some((Abs(), AbsExp(e), isK))
                && (if isK then r <= 255 && r < |kn| && e.k == KConst(Num(kn[r])) else e.k == KReg(r))
    {
      hide Decode, DecodeAll, Code, Follow, Patch, WfList, ListOf, IsList, Elems, Next, InsOk, ToAnyReg, IndexOf;
      st, e, isK, r := Ok, e0, false, 0;
      if e0.k.KConst? && e0.k.k.Num? && allowed {
        st, r := ConstNumber(e0.k.k.n);
        if st.Err? { return; }
        if r <= 255 {
          isK := true;
          return;
        }
      }
      AnyRegPool(Abs(), AbsExp(e0));
      st, e := ExprToanyreg(e0);
      if st.Err? { return; }
      r := e.k.r;
    }

    /** Second operand of an arithmetic instruction. */
    method ArithRight(e2: ExpDesc) returns (st: Status, y: ExpDesc, isK: bool, rc: nat)
      requires Valid() && ExpOk(e2) && bc != []
      modifies this
      ensures st.Err? ==> AtLimit()
      ensures st.Ok? ==>
                && Valid() && Simple(y) && Evolve(e2, y)
                && RightOperand(old(Abs()), old(AbsExp(e2))) == Some((Abs(), AbsExp(y), isK))
                && (if isK then rc <= 255 && rc < |kn| && y.k == KConst(Num(kn[rc])) else y.k == KReg(rc))
    {
      hide Decode, DecodeAll, Code, Follow, Patch, WfList, ListOf, IsList, Elems, Next, InsOk, ToVal, ConstOrReg;
      isK, rc := false, 0;
      st, y := ExprToval(e2);
      if st.Err? { return; }
      ghost var mid, midPend, mine := bc, pend, Mine(y);
      st, y, isK, rc := OperandIndex(y, true);
      if st.Err? { return; }
      FrameTrans(old(bc), old(pend), old(Mine(e2)), mid, midPend, mine);
    }

    /** First operand of an arithmetic instruction. */
    method ArithLeft(e1: ExpDesc, constRight: bool) returns (st: Status, x: ExpDesc, isK: bool, rb: nat)
      requires Valid() && Simple(e1) && bc != []
      modifies this
      ensures st.Err? ==> AtLimit()
      ensures st.Ok? ==>
                && Valid() && Simple(x) && Evolve(e1, x)
                && LeftOperand(old(Abs()), old(AbsExp(e1)), constRight) == Some((Abs(), AbsExp(x), isK))
                && (if isK then rb <= 255 && rb < |kn| && x.k == KConst(Num(kn[rb])) else x.k == KReg(rb))
                && old(kn) <= kn && (isK ==> !constRight)
    {
      hide Decode, DecodeAll, Code, Follow, Patch, WfList, ListOf, IsList, Elems, Next, InsOk, ToVal, ConstOrReg;
      isK, rb := false, 0;
      SimpleOk(e1);
      AnyRegPool(Abs(), AbsExp(e1));
      st, x := ExprToval(e1);
      if st.Err? { return; }
      ghost var mid, midPend, mine := bc, pend, Mine(x);
      st, x, isK, rb := OperandIndex(x, !constRight);
      if st.Err? { return; }
      FrameTrans(old(bc), old(pend), old(Mine(e1)), mid, midPend, mine);
    }

    /** bcemit_arith: emit an arithmetic operator, or fold constants. */
    method BcemitArith(op: ArithOp, e1: ExpDesc, e2: ExpDesc) returns (st: Status, e: ExpDesc)
      requires Valid() && Simple(e1) && ExpOk(e2) && bc != []
      modifies this
      ensures st.Err? ==> AtLimit()
      ensures st.Ok? ==>
                && Valid() && ExpOk(e) && Evolve(e2, e)
                && EmitArith(old(Abs()), op, old(AbsExp(e1)), old(AbsExp(e2))) == Some((Abs(), AbsExp(e)))
    {
      hide Decode, DecodeAll, Code, Follow, Patch, WfList, ListOf, IsList, Elems, Next, RightOperand, LeftOperand,
           InsOk;
      HasJumpIs(e2);
      SimpleOk(e1);
      st, e := Ok, e1;
      if e1.k.KConst? && e1.k.k.Num? && e2.k.KConst? && e2.k.k.Num? && e2.t == e2.f {
        e := e.(k := KConst(Num(Arith(op, e1.k.k.n, e2.k.k.n))));
        return;
      }
      st, e := EmitArithIns(op, e1, e2);
    }

    /** Free the operands and emit the instruction; its result register is open. */
    method EmitAlu(x: ExpDesc, y: ExpDesc, ins: BCIns, ghost f: AluFn) returns (st: Status, e: ExpDesc)
      requires Valid() && Simple(x) && Simple(y) && InsOk(ins, kn, ks) && Decode(ins, |bc|, false, kn, ks) == Alu(f, 0)
      modifies this
      ensures st.Err? ==> AtLimit()
      ensures st.Ok? ==>
                && Valid() && ExpOk(e) && Within(old(Elems(bc, jpc)), e)
                && (var s7 := FreeOperands(old(Abs()), old(AbsExp(x)), old(AbsExp(y)));
                    (Abs(), AbsExp(e)) == (Emit(s7, Alu(f, 0)), old(AbsExp(x)).(k := KReloc(s7.Pc()))))
    {
      hide Decode, DecodeAll, Code, Follow, Patch, WfList, ListOf, IsList, Elems, Next, InsOk;
      e := ExpDesc(KReloc(0), NO_JMP, NO_JMP);
      SimpleOk(x);
      SimpleOk(y);
      ExprFree(x.k);
      ExprFree(y.k);
      ghost var s7 := Abs();
      assert s7 == FreeOperands(old(Abs()), old(AbsExp(x)), old(AbsExp(y)));
      HeaderDecode(ins, |bc|, kn, ks);
      var pc;
      st, pc := BcemitINS(ins);
      if st.Err? { return; }
      EmptyList(bc);
      assert Abs().code[pc] == Alu(f, 0);
      e := e.(k := KReloc(pc));
    }

    /** bcemit_arith, past folding. */
    method EmitArithIns(op: ArithOp, e1: ExpDesc, e2: ExpDesc) returns (st: Status, e: ExpDesc)
      requires Valid() && Simple(e1) && ExpOk(e2) && bc != []
      requires !(AbsExp(e1).IsNumK() && AbsExp(e2).IsNumK() && !AbsExp(e2).HasJump())
      modifies this
      ensures st.Err? ==> AtLimit()
      ensures st.Ok? ==>
                && Valid() && ExpOk(e) && Evolve(e2, e)
                && EmitArith(old(Abs()), op, old(AbsExp(e1)), old(AbsExp(e2))) == Some((Abs(), AbsExp(e)))
    {
      hide Decode, DecodeAll, Code, Follow, Patch, WfList, ListOf, IsList, Elems, Next, RightOperand, LeftOperand,
           InsOk, Emit, EmitArith, FreeOperands, Core, Owned;
      PendBelow();
      e := e1;
      SimpleOk(e1);
      var x, y, xk, yk, rb, rc;
      st, y, yk, rc := ArithRight(e2);
      if st.Err? { return; }
      SimpleOk(e1);
      SimpleOk(y);
      ghost var s3, mid, midPend, mine := Abs(), bc, pend, Elems(bc, jpc);
      st, x, xk, rb := ArithLeft(e1, y.k.KConst? && y.k.k.Num?);
      if st.Err? { return; }
      SimpleOk(x);
      SimpleOk(y);
      FrameTrans(old(bc), old(pend), old(Mine(e2)), mid, midPend, mine);
      assert (xk ==> !yk) && RightOperand(old(Abs()), old(AbsExp(e2))) == Some((s3, AbsExp(y), yk));
      ArithSplit(old(Abs()), op, old(AbsExp(e1)), old(AbsExp(e2)));
      var ins := if xk then ABC(ADDNV + ArithCode(op), 0, rc, rb)
                 else ABC((if yk then ADDVN else ADDVV) + ArithCode(op), 0, rb, rc);
      ArithDecode(op, rb, rc, |bc|, kn, ks);
      ArithDecode(op, rc, rb, |bc|, kn, ks);
      mid, midPend, mine := bc, pend, Elems(bc, jpc);
      st, e := EmitAlu(x, y, ins, ArithIns(op, AbsExp(x), xk, AbsExp(y), yk));
      if st.Err? { return; }
      FrameTrans(old(bc), old(pend), old(Mine(e2)), mid, midPend, mine);
    }

    /** Free the operands and emit a test with its jump. */
    method EmitCompare(x: ExpDesc, y: ExpDesc, ins: BCIns, ghost i: Ins) returns (st: Status, e: ExpDesc)
      requires Valid() && Simple(x) && Simple(y) && InsOk(ins, kn, ks) && Decode(ins, |bc|, false, kn, ks) == i
      requires IsCond(i)
      modifies this
      ensures st.Err? ==> AtLimit()
      ensures st.Ok? ==>
                && Valid() && ExpOk(e) && Within(old(Elems(bc, jpc)), e)
                && (Abs(), AbsExp(e)) == EmitTest(FreeOperands(old(Abs()), old(AbsExp(x)), old(AbsExp(y))), i)
    {
      hide Decode, DecodeAll, Code, Follow, Patch, WfList, ListOf, IsList, Elems, Next, InsOk;
      e := ExpDesc(KJmp(0), NO_JMP, NO_JMP);
      SimpleOk(x);
      SimpleOk(y);
      ExprFree(x.k);
      ExprFree(y.k);
      assert Abs() == FreeOperands(old(Abs()), old(AbsExp(x)), old(AbsExp(y)));
      var j;
      st, j := BcemitTestJmp(ins, i);
      if st.Err? { return; }
      EmptyList(bc);
      assert Abs().code[j - 1] == i;
      e := e.(k := KJmp(j));
    }

    /** The index of a constant for an equality test. */
    method EqConstIndex(k: Val) returns (st: Status, idx: nat)
      requires Valid() && !k.Obj?
      modifies this`kn, this`ks
      ensures st.Err? ==> AtLimit()
      ensures st.Ok? ==>
                && Valid() && Code() == old(Code()) && (k.Str? || k.Num? ==> InPool(k, idx, kn, ks))
                && Abs() == if k.Num? then ConstNum(old(Abs()), k.n).0 else old(Abs())
    {
      hide Decode, DecodeAll, Code, Follow, IndexOf;
      st, idx := Ok, 0;
      if k.Str? {
        st, idx := ConstStr(k.s);
      } else if k.Num? {
        st, idx := ConstNumber(k.n);
      }
    }

    /** The second half of an equality: x is in a register. */
    method EmitEqTo(ne: bool, x: ExpDesc, y0: ExpDesc) returns (st: Status, e: ExpDesc)
      requires Valid() && Simple(x) && x.k.KReg? && ExpOk(y0) && bc != []
      modifies this
      ensures st.Err? ==> AtLimit()
      ensures st.Ok? ==>
                && Valid() && ExpOk(e) && Evolve(y0, e)
                && EqRight(old(Abs()), ne, old(AbsExp(x)), old(AbsExp(y0))) == Some((Abs(), AbsExp(e)))
    {
      hide Decode, DecodeAll, Code, Follow, Patch, WfList, ListOf, IsList, Elems, Next, InsOk,
           ToVal, ToAnyReg, EmitTest, FreeOperands, ConstNum;
      e := x;
      SimpleOk(x);
      var y, idx;
      st, y := ExprToval(y0);
      if st.Err? { return; }
      ghost var mid, midPend, mine := bc, pend, Mine(y);
      if y.k.KConst? {
        st, idx := EqConstIndex(y.k.k);
        if st.Err? { return; }
        SimpleOk(x);
        SimpleOk(y);
        EqKDecode(ne, x.k.r, y.k.k, idx, |bc|, kn, ks);
        st, e := EmitCompare(x, y, EqKIns(ne, x.k.r, y.k.k, idx), EqK(ne, x.k.r, y.k.k));
        if st.Err? { return; }
        FrameTrans(old(bc), old(pend), old(Mine(y0)), mid, midPend, mine);
      } else {
        SimpleOk(x);
        st, e := EmitEqRegs(ne, x, y);
        if st.Err? { return; }
        FrameTrans(old(bc), old(pend), old(Mine(y0)), mid, midPend, mine);
      }
    }

    /** An equality of two registers. */
    method EmitEqRegs(ne: bool, x: ExpDesc, y0: ExpDesc) returns (st: Status, e: ExpDesc)
      requires Valid() && Simple(x) && x.k.KReg? && ExpOk(y0) && bc != []
      modifies this
      ensures st.Err? ==> AtLimit()
      ensures st.Ok? ==>
                && Valid() && ExpOk(e) && Evolve(y0, e) && ToAnyReg(old(Abs()), old(AbsExp(y0))).Some?
                && (var (s4, y2) := ToAnyReg(old(Abs()), old(AbsExp(y0))).value;
                    (Abs(), AbsExp(e)) == EmitTest(FreeOperands(s4, old(AbsExp(x)), y2), EqV(ne, x.k.r, RegOf(y2))))
    {
      hide Decode, DecodeAll, Code, Follow, Patch, WfList, ListOf, IsList, Elems, Next, InsOk,
           ToAnyReg, EmitTest, FreeOperands;
      e := x;
      SimpleOk(x);
      var y;
      st, y := ExprToanyreg(y0);
      if st.Err? { return; }
      SimpleOk(x);
      ghost var mid, midPend, mine := bc, pend, Mine(y);
      EqVDecode(ne, x.k.r, y.k.r, |bc|, kn, ks);
      st, e := EmitCompare(x, y, AD(ISEQV + if ne then 1 else 0, x.k.r, y.k.r), EqV(ne, x.k.r, y.k.r));
      if st.Err? { return; }
      FrameTrans(old(bc), old(pend), old(Mine(y0)), mid, midPend, mine);
    }

    /** bcemit_comp, for equality. */
    method BcemitEq(ne: bool, e1: ExpDesc, e2: ExpDesc) returns (st: Status, e: ExpDesc)
      requires Valid() && Simple(e1) && ExpOk(e2) && bc != []
      modifies this
      ensures st.Err? ==> AtLimit()
      ensures st.Ok? ==>
                && Valid() && ExpOk(e) && Evolve(e2, e)
                && EmitEq(old(Abs()), ne, old(AbsExp(e1)), old(AbsExp(e2))) == Some((Abs(), AbsExp(e)))
    {
      hide Decode, DecodeAll, Code, Follow, Patch, WfList, ListOf, IsList, Elems, Next, InsOk, ToNextReg, EmitTest,
           FreeOperands, ConstNum, ToReg;
      e := e1;
      SimpleOk(e1);
      if e1.k.KConst? {  // need a constant in 2nd place
        var x;
        st, x := ExprToanyreg(e2);
        if st.Err? { return; }
        ghost var mid, midPend, mine := bc, pend, Mine(x);
        SimpleOk(e1);
        st, e := EmitEqTo(ne, x, e1);
        if st.Err? { return; }
        FrameTrans(old(bc), old(pend), old(Mine(e2)), mid, midPend, mine);
      } else {
        st, e := EmitEqTo(ne, e1, e2);
      }
    }

    /** An operand that is not in a register yet is still good after another one was loaded. */
    lemma OperandStays(was: Bytecode, wasPend: set<nat>, wasCode: ExprCode.Code, x: ExpDesc)
      requires Valid() && Plain(x) && jpc == NO_JMP && |was| == |wasCode| && wasCode <= Code() && wasPend <= pend
      requires |was| <= |bc| && forall p :: p in wasPend && p < |was| && p < |bc| ==> bc[p].D() == was[p].D()
      requires match x.k
               case KReloc(p) => p < |wasCode| && wasCode[p].Alu?
               case KJmp(pc) =>
                 pc in wasPend && 1 <= pc < |was| && WfList(was, pc) && Elems(was, pc) == {pc} &&
                     IsCond(wasCode[pc - 1])
               case _ => Simple(x)
      ensures ExpOk(x) && AbsExp(x) == Exp(x.k, {}, {})
      ensures Mine(x) == if x.k.KJmp? then {x.k.pc} else {}
    {
      hide DecodeAll, Code, WfList, ListOf, IsList, Elems, Next, Follow, InsOk;
      EmptyList(bc);
      if x.k.KJmp? { ListStays(was, wasPend, {}, x.k.pc); }
    }

    /** A register with the value of y, while x waits. */
    method LoadBeside(y0: ExpDesc, x: ExpDesc) returns (st: Status, y: ExpDesc)
      requires Valid() && Simple(y0) && (y0.k.KReg? || y0.k.k.Num?) && bc != []
      requires ExpOk(x) && Plain(x) && !x.k.KLocal?
      modifies this
      ensures st.Err? ==> AtLimit()
      ensures st.Ok? ==>
                && Valid() && ExpOk(x) && AbsExp(x) == old(AbsExp(x)) && Simple(y) && y.k.KReg? &&
                    Within(old(Mine(x)), x)
                && ToAnyReg(old(Abs()), old(AbsExp(y0))) == Some((Abs(), AbsExp(y)))
    {
      hide Decode, DecodeAll, Code, Follow, Patch, WfList, ListOf, IsList, Elems, Next, InsOk, ToAnyReg;
      SimpleOk(y0);
      ghost var s0, jp := Abs(), Elems(bc, jpc);
      EmptyList(bc);
      st, y := ExprToanyreg(y0);
      if st.Err? { return; }
      EmptyList(bc);
      if Simple(x) {
        SimpleOk(x);
      } else {
        AnyRegExtends(s0, Exp(y0.k, {}, {}));
        if jpc != NO_JMP { HeadIsElem(bc, jpc); }
        OperandStays(old(bc), old(pend), s0.code, x);
      }
    }

    /** The end of an ordering test: y is in a register. */
    method EmitOrdTo(op: CmpOp, x0: ExpDesc, y: ExpDesc) returns (st: Status, e: ExpDesc)
      requires Valid() && Simple(y) && y.k.KReg? && ExpOk(x0) && bc != []
      modifies this
      ensures st.Err? ==> AtLimit()
      ensures st.Ok? ==>
                && Valid() && ExpOk(e) && Evolve(x0, e) && ToAnyReg(old(Abs()), old(AbsExp(x0))).Some?
                && (var (s4, x1) := ToAnyReg(old(Abs()), old(AbsExp(x0))).value;
                    (Abs(), AbsExp(e)) == EmitTest(FreeOperands(s4, x1, old(AbsExp(y))), Cmp(op, RegOf(x1), y.k.r)))
    {
      hide Decode, DecodeAll, Code, Follow, Patch, WfList, ListOf, IsList, Elems, Next, InsOk,
           ToAnyReg, EmitTest, FreeOperands;
      e := y;
      SimpleOk(y);
      var x;
      st, x := ExprToanyreg(x0);
      if st.Err? { return; }
      SimpleOk(y);
      ghost var mid, midPend, mine := bc, pend, Mine(x);
      CmpDecode(op, x.k.r, y.k.r, |bc|, kn, ks);
      st, e := EmitCompare(x, y, AD(ISLT + CmpCode(op), x.k.r, y.k.r), Cmp(op, x.k.r, y.k.r));
      if st.Err? { return; }
      FrameTrans(old(bc), old(pend), old(Mine(x0)), mid, midPend, mine);
    }

    /** bcemit_comp, for LT and LE. */
    method EmitLess(op: CmpOp, e1: ExpDesc, e2: ExpDesc) returns (st: Status, e: ExpDesc)
      requires Valid() && Simple(e1) && ExpOk(e2) && bc != [] && (op.LT? || op.LE?)
      modifies this
      ensures st.Err? ==> AtLimit()
      ensures st.Ok? ==>
                && Valid() && ExpOk(e) && Evolve(e2, e)
                && EmitOrd(old(Abs()), op, old(AbsExp(e1)), old(AbsExp(e2))) == Some((Abs(), AbsExp(e)))
    {
      hide Decode, DecodeAll, Code, Follow, Patch, WfList, ListOf, IsList, Elems, Next, InsOk,
           ToAnyReg, EmitTest, FreeOperands;
      e := e1;
      SimpleOk(e1);
      var y;
      st, y := ExprToanyreg(e2);
      if st.Err? { return; }
      ghost var mid, midPend, mine := bc, pend, Mine(y);
      SimpleOk(e1);
      st, e := EmitOrdTo(op, e1, y);
      if st.Err? { return; }
      FrameTrans(old(bc), old(pend), old(Mine(e2)), mid, midPend, mine);
    }

    /** bcemit_comp, for GT and GE: LT and LE with swapped operands. */
    method EmitGreater(op: CmpOp, e1: ExpDesc, e2: ExpDesc) returns (st: Status, e: ExpDesc)
      requires Valid() && Simple(e1) && (e1.k.KReg? || e1.k.k.Num?) && ExpOk(e2) && bc != [] && (op.GT? || op.GE?)
      modifies this
      ensures st.Err? ==> AtLimit()
      ensures st.Ok? ==>
                && Valid() && ExpOk(e) && Evolve(e2, e)
                && EmitOrd(old(Abs()), op, old(AbsExp(e1)), old(AbsExp(e2))) == Some((Abs(), AbsExp(e)))
    {
      hide Decode, DecodeAll, Code, Follow, Patch, WfList, ListOf, IsList, Elems, Next, InsOk,
           ToAnyReg, EmitTest, FreeOperands;
      e := e1;
      SimpleOk(e1);
      var x, y;
      st, x := ExprToval(e2);
      if st.Err? { return; }
      ghost var mid, midPend, mine := bc, pend, Mine(x);
      SimpleOk(e1);
      st, y := LoadBeside(e1, x);
      if st.Err? { return; }
      FrameTrans(old(bc), old(pend), old(Mine(e2)), mid, midPend, mine);
      mid, midPend, mine := bc, pend, Mine(x);
      st, e := EmitOrdTo(if op.GE? then LE else LT, x, y);
      if st.Err? { return; }
      FrameTrans(old(bc), old(pend), old(Mine(e2)), mid, midPend, mine);
    }

    /** What the right operand may rely on. */
    static predicate Prepared(op: BinOp, e: ExpDesc) {
      match op
      case OpArith(_) => Simple(e) && (e.k.KReg? || e.k.k.Num?)
      case OpOrd(_) => Simple(e) && (e.k.KReg? || e.k.k.Num?)
      case OpEq(_) => Simple(e)
      case OpAnd => true
      case OpOr => true
    }

    /** bcemit_binop_left: prepare the left operand before the right one is read. */
    method BcemitBinopLeft(op: BinOp, e0: ExpDesc) returns (st: Status, e: ExpDesc)
      requires Valid() && ExpOk(e0) && bc != []
      modifies this
      ensures st.Err? ==> AtLimit()
      ensures st.Ok? ==>
                && Valid() && ListsOk(e.t, e.f) && Prepared(op, e) && Within(old(Mine(e0)), e)
                && BinopLeft(old(Abs()), op, old(AbsExp(e0))) == Some((Abs(), AbsExp(e)))
    {
      hide Decode, DecodeAll, Code, Follow, Patch, WfList, ListOf, IsList, Elems, Next, InsOk,
           ToAnyReg, BranchT, BranchF;
      st, e := Ok, e0;
      HasJumpIs(e0);
      match op
      case OpAnd =>
        st, e := BcemitBranchT(e0);
      case OpOr =>
        st, e := BcemitBranchF(e0);
      case OpEq(_) =>
        if !(e0.k.KConst? && e0.t == e0.f) { st, e := ExprToanyreg(e0); }
      case OpArith(_) =>
        if !(e0.k.KConst? && e0.k.k.Num? && e0.t == e0.f) { st, e := ExprToanyreg(e0); }
      case OpOrd(_) =>
        if !(e0.k.KConst? && e0.k.k.Num? && e0.t == e0.f) { st, e := ExprToanyreg(e0); }
    }

    /** Operands of && and ||: the jumps of the left one join those of the right one. */
    method JoinAnd(e1f: nat, e2: ExpDesc) returns (st: Status, e: ExpDesc)
      requires Valid() && ExpOk(e2) && Owned(e1f) && Elems(bc, e1f) !! Mine(e2)
      modifies this`bc, this`pend
      ensures st.Err? ==> AtLimit()
      ensures st.Ok? ==>
                && Valid() && ExpOk(e) && Within(old(Mine(e2) + Elems(bc, e1f)), e) && Abs() == old(Abs())
                && AbsExp(e) == (var d := Discharge(old(AbsExp(e2))); d.(f := d.f + old(Elems(bc, e1f))))
    {
      hide Decode, DecodeAll, Code, Follow, Patch, WfList, ListOf, IsList, Elems, Next, InsOk;
      e := Discharged(e2);
      var f;
      st, f := JmpAppend(e.f, e1f);
      if st.Err? { return; }
      ListStays(old(bc), old(pend), old(Elems(bc, e2.f)), e.t);
      ListStays(old(bc), old(pend), old(Elems(bc, e2.f)), jpc);
      if e.k.KJmp? { ListStays(old(bc), old(pend), old(Elems(bc, e2.f)), e.k.pc); }
      e := e.(f := f);
    }

    method JoinOr(e1t: nat, e2: ExpDesc) returns (st: Status, e: ExpDesc)
      requires Valid() && ExpOk(e2) && Owned(e1t) && Elems(bc, e1t) !! Mine(e2)
      modifies this`bc, this`pend
      ensures st.Err? ==> AtLimit()
      ensures st.Ok? ==>
                && Valid() && ExpOk(e) && Within(old(Mine(e2) + Elems(bc, e1t)), e) && Abs() == old(Abs())
                && AbsExp(e) == (var d := Discharge(old(AbsExp(e2))); d.(t := d.t + old(Elems(bc, e1t))))
    {
      hide Decode, DecodeAll, Code, Follow, Patch, WfList, ListOf, IsList, Elems, Next, InsOk;
      e := Discharged(e2);
      var t;
      st, t := JmpAppend(e.t, e1t);
      if st.Err? { return; }
      ListStays(old(bc), old(pend), old(Elems(bc, e2.t)), e.f);
      ListStays(old(bc), old(pend), old(Elems(bc, e2.t)), jpc);
      if e.k.KJmp? { ListStays(old(bc), old(pend), old(Elems(bc, e2.t)), e.k.pc); }
      e := e.(t := t);
    }

    /** bcemit_binop: emit a binary operator. */
    method BcemitBinop(op: BinOp, e1: ExpDesc, e2: ExpDesc) returns (st: Status, e: ExpDesc)
      requires Valid() && bc != [] && Prepared(op, e1) && ExpOk(e2)
      requires Owned(e1.t) && Owned(e1.f) && Elems(bc, e1.t) + Elems(bc, e1.f) !! Mine(e2)
      modifies this
      ensures st.Err? ==> AtLimit()
      ensures st.Ok? ==>
                && Valid() && ExpOk(e) && Within(old(Mine(e2) + Elems(bc, e1.t) + Elems(bc, e1.f)), e)
                && Binop(old(Abs()), op, old(AbsExp(e1)), old(AbsExp(e2))) == Some((Abs(), AbsExp(e)))
    {
      hide Decode, DecodeAll, Code, Follow, Patch, WfList, ListOf, IsList, Elems, Next, InsOk, EmitArith, EmitEq,
           EmitOrd;
      EmptyList(bc);
      match op
      case OpArith(aop) => st, e := BcemitArith(aop, e1, e2);
      case OpEq(ne) => st, e := BcemitEq(ne, e1, e2);
      case OpOrd(cop) =>
        if cop.LT? || cop.LE? {
          st, e := EmitLess(cop, e1, e2);
        } else {
          st, e := EmitGreater(cop, e1, e2);
        }
      case OpAnd => st, e := JoinAnd(e1.f, e2);
      case OpOr => st, e := JoinOr(e1.t, e2);
    }

    /** The first half of a logical not: swap the lists and drop their values. */
    method DropLists(e0: ExpDesc) returns (e: ExpDesc)
      requires Valid() && ExpOk(e0)
      modifies this`bc
      ensures Valid() && ExpOk(e) && Within(old(Mine(e0)), e) && !e.k.KLocal?
      ensures AbsExp(e) == Discharge(Exp(e0.k, old(Elems(bc, e0.f)), old(Elems(bc, e0.t)))) && |bc| == |old(bc)|
      ensures Abs() == old(Abs()).(code := DropVal(DropVal(old(Code()), AbsExp(e).f), AbsExp(e).t))
    {
      hide Decode, DecodeAll, Code, Follow, Patch, WfList, ListOf, IsList, Elems, Next, InsOk, DropVal;
      e := Discharged(ExpDesc(e0.k, e0.f, e0.t));
      ghost var c := Code();
      JmpDropval(e.f);
      ListStays(old(bc), old(pend), {}, e.t);
      JmpDropval(e.t);
      ListStays(old(bc), old(pend), {}, jpc);
      ListStays(old(bc), old(pend), {}, e.t);
      ListStays(old(bc), old(pend), {}, e.f);
      if e.k.KJmp? {
        ListStays(old(bc), old(pend), {}, e.k.pc);
        DropKeeps(c, old(Elems(bc, e0.t)), e.k.pc - 1);
        DropKeeps(DropVal(c, old(Elems(bc, e0.t))), old(Elems(bc, e0.f)), e.k.pc - 1);
      } else if e.k.KReloc? {
        DropKeeps(c, old(Elems(bc, e0.t)), e.k.pc);
        DropKeeps(DropVal(c, old(Elems(bc, e0.t))), old(Elems(bc, e0.f)), e.k.pc);
      }
    }

    /** The end of bcemit_unop: the operand is in a register. */
    method EmitUnop(op: nat, e0: ExpDesc) returns (st: Status, e: ExpDesc)
      requires Valid() && ListsOk(e0.t, e0.f) && e0.k.KReg? && e0.k.r < MAX_SLOTS && (op == NOT || op == UNM)
      modifies this
      ensures st.Err? ==> AtLimit()
      ensures st.Ok? ==>
                && Valid() && ExpOk(e) && Evolve(e0, e)
                && EmitUnary(old(Abs()), old(AbsExp(e0)), if op == NOT then Not(e0.k.r) else Unm(e0.k.r)) ==
                    Some((Abs(), AbsExp(e)))
    {
      hide Decode, DecodeAll, Code, Follow, Patch, WfList, ListOf, IsList, Elems, Next, InsOk;
      e := e0;
      ghost var f := if op == NOT then Not(e0.k.r) else Unm(e0.k.r);
      ExprFree(e0.k);
      ghost var s1 := Abs();
      assert s1 == FreeExp(old(Abs()), old(AbsExp(e0)));
      UnaryDecode(e0.k.r, |bc|, kn, ks);
      var pc;
      st, pc := BcemitINS(AD(op, 0, e0.k.r));
      if st.Err? { return; }
      ListStays(old(bc), old(pend), old(Elems(bc, jpc)), e0.t);
      ListStays(old(bc), old(pend), old(Elems(bc, jpc)), e0.f);
      assert Abs().code[pc] == Alu(f, 0);
      EmptyList(bc);
      e := e.(k := KReloc(pc));
    }

    /** bcemit_unop, for logical not. */
    method BcemitNot(e0: ExpDesc) returns (st: Status, e: ExpDesc)
      requires Valid() && ExpOk(e0)
      modifies this
      ensures st.Err? ==> AtLimit()
      ensures st.Ok? ==>
                && Valid() && ExpOk(e) && Evolve(e0, e)
                && EmitNot(old(Abs()), old(AbsExp(e0))) == Some((Abs(), AbsExp(e)))
    {
      hide Decode, DecodeAll, Code, Follow, Patch, WfList, ListOf, IsList, Elems, Next, InsOk, DropVal, EmitUnary;
      e := DropLists(e0);
      st := Ok;
      ghost var mid, midPend, mine := bc, pend, Mine(e);
      if e.k.KConst? {
        e := e.(k := KConst(Bool(!Truthy(e.k.k))));
        return;
      }
      if e.k.KJmp? {
        InvertOwn(e);
        FrameTrans(old(bc), old(pend), old(Mine(e0)), mid, midPend, mine);
        return;
      }
      if e.k.KReloc? {
        st, e := SettleReloc(e);
        if st.Err? { return; }
      }
      st, e := EmitUnop(NOT, e);
      if st.Err? { return; }
      FrameTrans(old(bc), old(pend), old(Mine(e0)), mid, midPend, mine);
    }

    /** Invert the conditional jump of e. */
    method InvertOwn(e: ExpDesc)
      requires Valid() && ExpOk(e) && e.k.KJmp?
      modifies this`bc
      ensures Valid() && ExpOk(e) && Evolve(e, e) && AbsExp(e) == old(AbsExp(e)) && |bc| == |old(bc)|
      ensures Abs() == InvertCond(old(Abs()), e.k.pc)
    {
      hide Decode, DecodeAll, Code, Follow, Patch, WfList, ListOf, IsList, Elems, Next, InsOk;
      Invertcond(e.k.pc);
      ListStays(old(bc), old(pend), {}, e.k.pc);
      ListStays(old(bc), old(pend), {}, e.t);
      ListStays(old(bc), old(pend), {}, e.f);
      EmptyList(bc);
      EmptyList(old(bc));
    }

    /** Give a relocatable expression the next register as its result. */
    method SettleReloc(e0: ExpDesc) returns (st: Status, e: ExpDesc)
      requires Valid() && ExpOk(e0) && e0.k.KReloc?
      modifies this`bc, this`freereg, this`framesize
      ensures st.Err? ==> AtLimit()
      ensures st.Ok? ==>
                && Valid() && ListsOk(e.t, e.f) && e.k.KReg? && e.k.r < MAX_SLOTS && |bc| == |old(bc)| && Evolve(e0, e)
                && Reserve(old(Abs()), 1).Some?
                && (var s1 := Reserve(old(Abs()), 1).value;
                    && Abs() == s1.(code := SetResult(s1.code, e0.k.pc, Dec(s1.free)))
                    && AbsExp(e) == old(AbsExp(e0)).(k := KReg(Dec(s1.free))))
    {
      hide Decode, DecodeAll, Code, Follow, Patch, WfList, ListOf, IsList, Elems, Next, InsOk;
      e := e0;
      var p := e0.k.pc;
      st := BcregReserve(1);
      if st.Err? { return; }
      CodeAt(p);
      SetADecode(bc[p], freereg - 1, p, p in pend, kn, ks);
      SetIns(p, SetA(bc[p], freereg - 1));
      ListStays(old(bc), old(pend), {}, e.t);
      ListStays(old(bc), old(pend), {}, e.f);
      ListStays(old(bc), old(pend), {}, jpc);
      e := e.(k := KReg(freereg - 1));
    }

    /** bcemit_unop, for unary minus. */
    method BcemitNeg(e0: ExpDesc) returns (st: Status, e: ExpDesc)
      requires Valid() && ExpOk(e0) && bc != []
      modifies this
      ensures st.Err? ==> AtLimit()
      ensures st.Ok? ==>
                && Valid() && ExpOk(e) && Evolve(e0, e)
                && EmitNeg(old(Abs()), old(AbsExp(e0))) == Some((Abs(), AbsExp(e)))
    {
      hide Decode, DecodeAll, Code, Follow, Patch, WfList, ListOf, IsList, Elems, Next, InsOk, EmitUnary, ToAnyReg;
      st, e := Ok, e0;
      HasJumpIs(e0);
      if e.k.KConst? && e.k.k.Num? && e.t == e.f && e.k.k.n != 0 {
        e := e.(k := KConst(Num(Wrap64(-e.k.k.n))));
        return;
      }
      st, e := ExprToanyreg(e0);
      if st.Err? { return; }
      ghost var mid, midPend, mine := bc, pend, Mine(e);
      st, e := EmitUnop(UNM, e);
      if st.Err? { return; }
      FrameTrans(old(bc), old(pend), old(Mine(e0)), mid, midPend, mine);
    }

    // -- Expressions -----------------------------------------------------------------------------------------

    /** Constants and locals as the parser sees them. */
    static predicate SourceOk(x: Expr) {
      match x
      case EConst(k) => !k.Obj?
      case ELocal(r) => r < MAX_SLOTS
      case EParen(y) => SourceOk(y)
      case ENot(y) => SourceOk(y)
      case ENeg(y) => SourceOk(y)
      case EBin(_, l, r) => SourceOk(l) && SourceOk(r)
    }

    /** A leaf of an expression. */
    lemma LeafOk(k: Kind)
      requires Valid() && match k case KConst(v) => !v.Obj? case KLocal(r) => r < MAX_SLOTS case _ => false
      ensures var e := ExpDesc(k, NO_JMP, NO_JMP); ExpOk(e) && AbsExp(e) == Exp(k, {}, {}) && Mine(e) == Elems(bc, jpc)
    {
      hide WfList, ListOf, IsList, Elems, Next, Follow, DecodeAll, InsOk;
      EmptyList(bc);
    }

    /** The emitter calls made while an expression is read. */
    method CompileExpr(x: Expr) returns (st: Status, e: ExpDesc)
      requires Valid() && bc != [] && SourceOk(x)
      modifies this
      ensures st.Err? ==> AtLimit()
      ensures st.Ok? ==>
                && Valid() && ExpOk(e) && Within(old(Elems(bc, jpc)), e)
                && Compile(old(Abs()), x) == Some((Abs(), AbsExp(e)))
      decreases x, 1
    {
      hide Decode, DecodeAll, Code, Follow, Patch, WfList, ListOf, IsList, Elems, Next, InsOk, EmitNot, EmitNeg,
           BinopLeft, Binop;
      match x
      case EConst(k) =>
        st, e := Ok, ExpDesc(KConst(k), NO_JMP, NO_JMP);
        LeafOk(e.k);
      case ELocal(r) =>
        st, e := Ok, ExpDesc(KLocal(r), NO_JMP, NO_JMP);
        LeafOk(e.k);
      case EParen(y) =>
        st, e := CompileExpr(y);
        e := Discharged(e);
      case ENot(y) =>
        st, e := CompileExpr(y);
        if st.Err? { return; }
        ghost var mid, midPend, mine := bc, pend, Mine(e);
        st, e := BcemitNot(e);
        if st.Err? { return; }
        FrameTrans(old(bc), old(pend), old(Elems(bc, jpc)), mid, midPend, mine);
      case ENeg(y) =>
        st, e := CompileExpr(y);
        if st.Err? { return; }
        ghost var mid, midPend, mine := bc, pend, Mine(e);
        st, e := BcemitNeg(e);
        if st.Err? { return; }
        FrameTrans(old(bc), old(pend), old(Elems(bc, jpc)), mid, midPend, mine);
      case EBin(op, l, r) =>
        st, e := CompileBin(op, l, r);
    }

    static lemma CompileBinIs(s: FS, op: BinOp, l: Expr, r: Expr)
      requires Compile(s, l).Some? && BinopLeft(Compile(s, l).value.0, op, Compile(s, l).value.1).Some?
      ensures var (s1, e1) := BinopLeft(Compile(s, l).value.0, op, Compile(s, l).value.1).value;
              Compile(s1, r).Some? ==>
                Compile(s, EBin(op, l, r)) == Binop(Compile(s1, r).value.0, op, e1, Compile(s1, r).value.1)
    {
      hide BinopLeft, Binop;
    }

    /** expr_binop: left operand, preparation, right operand, operator. */
    method CompileBin(op: BinOp, l: Expr, r: Expr) returns (st: Status, e: ExpDesc)
      requires Valid() && bc != [] && SourceOk(l) && SourceOk(r)
      modifies this
      ensures st.Err? ==> AtLimit()
      ensures st.Ok? ==>
                && Valid() && ExpOk(e) && Within(old(Elems(bc, jpc)), e)
                && Compile(old(Abs()), EBin(op, l, r)) == Some((Abs(), AbsExp(e)))
      decreases EBin(op, l, r), 0
    {
      hide Decode, DecodeAll, Code, Follow, Patch, WfList, ListOf, IsList, Elems, Next, InsOk, BinopLeft, Binop,
           Compile, Abs, AbsExp, ExpOk, Core, Owned;
      PendBelow();
      st, e := CompileExpr(l);
      if st.Err? { return; }
      ghost var mid, midPend, mine := bc, pend, Mine(e);
      st, e := CompileRest(op, e, r);
      if st.Err? { return; }
      CompileBinIs(old(Abs()), op, l, r);
      FrameTrans(old(bc), old(pend), old(Elems(bc, jpc)), mid, midPend, mine);
    }

    /** What expr_binop does once the left operand is read. */
    method CompileRest(op: BinOp, e0: ExpDesc, r: Expr) returns (st: Status, e: ExpDesc)
      requires Valid() && bc != [] && ExpOk(e0) && SourceOk(r)
      modifies this
      ensures st.Err? ==> AtLimit()
      ensures st.Ok? ==>
                && Valid() && ExpOk(e) && Within(old(Mine(e0)), e)
                && BinopLeft(old(Abs()), op, old(AbsExp(e0))).Some?
                && (var (s2, e1) := BinopLeft(old(Abs()), op, old(AbsExp(e0))).value;
                    && Compile(s2, r).Some?
                    && (var (s3, e2) := Compile(s2, r).value; Binop(s3, op, e1, e2) == Some((Abs(), AbsExp(e)))))
      decreases r, 3
    {
      hide Decode, DecodeAll, Code, Follow, Patch, WfList, ListOf, IsList, Elems, Next, InsOk, BinopLeft, Binop,
           Compile;
      e := e0;
      var e1;
      st, e1 := BcemitBinopLeft(op, e0);
      if st.Err? { return; }
      ghost var mid, midPend, mine := bc, pend, Elems(bc, jpc) + Elems(bc, e1.t) + Elems(bc, e1.f);
      st, e := CompileRight(op, e1, r);
      if st.Err? { return; }
      FrameTrans(old(bc), old(pend), old(Mine(e0)), mid, midPend, mine);
    }

    /** The right operand and the operator. */
    method CompileRight(op: BinOp, e1: ExpDesc, r: Expr) returns (st: Status, e: ExpDesc)
      requires Valid() && bc != [] && SourceOk(r) && Prepared(op, e1) && ListsOk(e1.t, e1.f)
      modifies this
      ensures st.Err? ==> AtLimit()
      ensures st.Ok? ==>
                && Valid() && ExpOk(e) && Within(old(Elems(bc, jpc) + Elems(bc, e1.t) + Elems(bc, e1.f)), e)
                && Compile(old(Abs()), r).Some?
                && (var (s3, e2) := Compile(old(Abs()), r).value;
                    Binop(s3, op, old(AbsExp(e1)), e2) == Some((Abs(), AbsExp(e))))
      decreases r, 2
    {
      hide Decode, DecodeAll, Code, Follow, Patch, WfList, ListOf, IsList, Elems, Next, InsOk, Binop, Compile;
      ghost var jp := old(Elems(bc, jpc));
      ghost var mine := jp + Elems(bc, e1.t) + Elems(bc, e1.f);
      st, e := CompileExpr(r);
      if st.Err? { return; }
      ListStays(old(bc), old(pend), jp, e1.t);
      ListStays(old(bc), old(pend), jp, e1.f);
      ghost var mid, midPend := bc, pend;
      ghost var mine' := Mine(e) + Elems(bc, e1.t) + Elems(bc, e1.f);
      st, e := BcemitBinop(op, e1, e);
      if st.Err? { return; }
      FrameTrans(old(bc), old(pend), mine, mid, midPend, mine');
    }
  }
}
