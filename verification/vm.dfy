/** The interpreter on bytecode as it is stored, in 32-bit words: opcodes are numbers,
    operands are bit fields. Code that was compiled from an expression, and its
    instruction words run by this interpreter, give the value of the expression. */
module WordVm {
  import opened Values
  import opened ExprCode
  import opened Emitter
  import opened EmitProof
  import opened ExprTheorem
  import opened JumpList
  import opened FuncStates
  import CompiledCode
  import OnePass
  import D = Dump
  import P = Precedence

  // -- Instruction words -----------------------------------------------------------------------

  /** BCINS_ABC and BCINS_AD. */
  function Word(i: BCIns): nat {
    match i
    case ABC(op, a, b, c) => op + 0x100 * a + 0x1_0000 * c + 0x100_0000 * b
    case AD(op, a, d) => op + 0x100 * a + 0x1_0000 * d
  }

  /** fs_fixup_bc: the words of a function, with the header that its flags and its frame
      size ask for. */
  function Fixup(bc: Bytecode, flags: nat, framesize: nat): (w: seq<nat>)
    requires bc != []
    ensures |w| == |bc|
  {
    Words(bc)[0 := Word(AD(if flags / 2 % 2 == 1 then 97 else 94, framesize, 0))]
  }

  function Words(bc: Bytecode): (w: seq<nat>)
    ensures |w| == |bc|
  {
    seq(|bc|, i requires 0 <= i < |bc| => Word(bc[i]))
  }

  // -- The interpreter -------------------------------------------------------------------------

  function Reg(R: Regs, i: nat): Val {
    if i < |R| then R[i] else Nil
  }

  function SetReg(R: Regs, i: nat, v: Val): Regs {
    if i < |R| then R[i := v] else R
  }

  /** A signed 64-bit number from its low bits. */
  function Signed(n: int): int {
    var low := n % 0x1_0000_0000_0000_0000;
    if low < 0x8000_0000_0000_0000 then low else low - 0x1_0000_0000_0000_0000
  }

  function Constant<T>(k: seq<T>, i: nat, none: T): T {
    if i < |k| then k[i] else none
  }

  function Primitive(d: nat): Val {
    if d == 0 then Nil else if d == 1 then False else True
  }

  predicate IsFalse(v: Val) {
    v == Nil || v == False
  }

  /** Where one instruction leads: on to a position, to a stop with an error message, or
      out of what is modelled here. */
  datatype VmNext = Goto(pc: int, regs: Regs) | Stop | Outside

  /** dojump: the word at pc is a jump. */
  function JumpFrom(code: seq<nat>, pc: nat, R: Regs): VmNext {
    if pc < |code| then Goto(pc + 1 + code[pc] / 0x1_0000 - 0x8000, R) else Outside
  }

  /** A test: the jump behind it is taken or skipped. */
  function Branch(code: seq<nat>, pc: nat, cond: bool, R: Regs): VmNext {
    if cond then JumpFrom(code, pc + 1, R) else Goto(pc + 2, R)
  }

  function Numeric(v: Val, w: Val, pc: nat, R: Regs, a: nat, n: int): VmNext {
    if v.Num? && w.Num? then Goto(pc + 1, SetReg(R, a, Num(Signed(n)))) else Stop
  }

  function NumOf(v: Val): int {
    if v.Num? then v.n else 0
  }

  /** Comparison and test opcodes. */
  function TestStep(op: nat, a: nat, d: nat, code: seq<nat>, kn: seq<int>, ks: seq<string>, pc: nat, R: Regs): VmNext {
    var (ra, rd) := (Reg(R, a), Reg(R, d));
    if op < 4 && (!ra.Num? || !rd.Num?) then Stop
    else if op == 0 then Branch(code, pc, NumOf(ra) < NumOf(rd), R)
    else if op == 1 then Branch(code, pc, NumOf(ra) >= NumOf(rd), R)
    else if op == 2 then Branch(code, pc, NumOf(ra) <= NumOf(rd), R)
    else if op == 3 then Branch(code, pc, NumOf(ra) > NumOf(rd), R)
    else if op == 4 then Branch(code, pc, ra == rd, R)
    else if op == 5 then Branch(code, pc, ra != rd, R)
    else if op == 6 then Branch(code, pc, ra == Str(Constant(ks, d, "")), R)
    else if op == 7 then Branch(code, pc, ra != Str(Constant(ks, d, "")), R)
    else if op == 8 then Branch(code, pc, ra == Num(Constant(kn, d, 0)), R)
    else if op == 9 then Branch(code, pc, ra != Num(Constant(kn, d, 0)), R)
    else if op == 10 then Branch(code, pc, ra == Primitive(d), R)
    else if op == 11 then Branch(code, pc, ra != Primitive(d), R)
    else if op == 12 then Branch(code, pc, !IsFalse(rd), if IsFalse(rd) then R else SetReg(R, a, rd))
    else if op == 13 then Branch(code, pc, IsFalse(rd), if IsFalse(rd) then SetReg(R, a, rd) else R)
    else if op == 14 then Branch(code, pc, !IsFalse(rd), R)
    else if op == 15 then Branch(code, pc, IsFalse(rd), R)
    else Outside
  }

  /** Arithmetic opcodes. */
  function ArithStep(op: nat, a: nat, b: nat, c: nat, kn: seq<int>, pc: nat, R: Regs): VmNext {
    var (rb, rc, kc) := (Reg(R, b), Reg(R, c), Num(Constant(kn, c, 0)));
    if op == 21 then Numeric(rb, kc, pc, R, a, NumOf(rb) + NumOf(kc))
    else if op == 22 then Numeric(rb, kc, pc, R, a, NumOf(rb) - NumOf(kc))
    else if op == 23 then Numeric(rb, kc, pc, R, a, NumOf(rb) * NumOf(kc))
    else if op == 26 then Numeric(kc, rb, pc, R, a, NumOf(kc) + NumOf(rb))
    else if op == 27 then Numeric(kc, rb, pc, R, a, NumOf(kc) - NumOf(rb))
    else if op == 28 then Numeric(kc, rb, pc, R, a, NumOf(kc) * NumOf(rb))
    else if op == 31 then Numeric(rb, rc, pc, R, a, NumOf(rb) + NumOf(rc))
    else if op == 32 then Numeric(rb, rc, pc, R, a, NumOf(rb) - NumOf(rc))
    else if op == 33 then Numeric(rb, rc, pc, R, a, NumOf(rb) * NumOf(rc))
    else Outside
  }

  /** Moves, loads, the unary operators and the jump. */
  function PlainStep(op: nat, a: nat, d: nat, code: seq<nat>, kn: seq<int>, ks: seq<string>, pc: nat, R: Regs): VmNext {
    var rd := Reg(R, d);
    if op == 18 then Goto(pc + 1, SetReg(R, a, rd))
    else if op == 19 then Goto(pc + 1, SetReg(R, a, if IsFalse(rd) then True else False))
    else if op == 20 then Numeric(rd, rd, pc, R, a, -NumOf(rd))
    else if op == 38 then Goto(pc + 1, SetReg(R, a, Str(Constant(ks, d, ""))))
    else if op == 40 then Goto(pc + 1, SetReg(R, a, Num(d)))
    else if op == 41 then Goto(pc + 1, SetReg(R, a, Num(Constant(kn, d, 0))))
    else if op == 42 then Goto(pc + 1, SetReg(R, a, Primitive(d)))
    else if op == 43 then
      Goto(pc + 1, seq(|R|, i requires 0 <= i < |R| => if a <= i <= d then Nil else R[i]))
    else if op == 93 then JumpFrom(code, pc, R)
    else Outside
  }

  /** The instruction at pc. */
  function VmStep(code: seq<nat>, kn: seq<int>, ks: seq<string>, pc: nat, R: Regs): VmNext
    requires pc < |code|
  {
    var w := code[pc];
    var (op, a, d) := (w % 0x100, w / 0x100 % 0x100, w / 0x1_0000);
    if op < 16 then TestStep(op, a, d, code, kn, ks, pc, R)
    else if 21 <= op < 36 then ArithStep(op, a, w / 0x100_0000, d % 0x100, kn, pc, R)
    else PlainStep(op, a, d, code, kn, ks, pc, R)
  }

  /** How a run to position `end` ends: it gets there, it stops with an error, or it
      goes backwards, past the end or to an instruction that is not modelled. */
  datatype VmEnd = Reached(regs: Regs) | Stopped | Elsewhere

  function VmRun(code: seq<nat>, kn: seq<int>, ks: seq<string>, pc: nat, R: Regs, end: nat): VmEnd
    requires pc <= end <= |code|
    decreases end - pc
  {
    if pc == end then Reached(R)
    else
      match VmStep(code, kn, ks, pc, R)
      case Stop => Stopped
      case Outside => Elsewhere
      case Goto(p, S) => if pc < p <= end then VmRun(code, kn, ks, p, S, end) else Elsewhere
  }

  // -- Words and instructions ----------------------------------------------------------------------

  lemma Fields(i: BCIns)
    requires i.op < 0x100 && i.a < 0x100
    requires if i.ABC? then i.b < 0x100 && i.c < 0x100 else i.d < 0x1_0000
    ensures var w := Word(i);
            && w % 0x100 == i.op && w / 0x100 % 0x100 == i.a
            && (i.ABC? ==> w / 0x100_0000 == i.b && w / 0x1_0000 % 0x100 == i.c)
            && (i.AD? ==> w / 0x1_0000 == i.d)
  {
    var rest := if i.ABC? then i.c + 0x100 * i.b else i.d;
    var w := Word(i);
    assert w == i.op + 0x100 * (i.a + 0x100 * rest);
    assert w / 0x100 == i.a + 0x100 * rest && w / 0x1_0000 == rest;
    assert w / 0x100_0000 == rest / 0x100;
  }

  lemma SignedWraps(n: int)
    ensures Signed(n) == Wrap64(n)
  {
  }

  /** The words of bc, but for the header, and whatever comes behind them. */
  ghost predicate Holds(code: seq<nat>, bc: Bytecode) {
    |bc| <= |code| && forall i :: 1 <= i < |bc| ==> code[i] == Word(bc[i])
  }

  lemma WordAt(bc: Bytecode, kn: seq<int>, ks: seq<string>, code: seq<nat>, pc: nat)
    requires 1 <= pc < |bc| && InsOk(bc[pc], kn, ks) && Holds(code, bc)
    ensures pc < |code| && code[pc] == Word(bc[pc])
    ensures var (i, w) := (bc[pc], code[pc]);
            && w % 0x100 == i.op && w / 0x100 % 0x100 == i.a
            && (i.ABC? ==> w / 0x100_0000 == i.b && w / 0x1_0000 % 0x100 == i.c)
            && (i.AD? ==> w / 0x1_0000 == i.d)
  {
    Fields(bc[pc]);
  }

  /** n is what an instruction of meaning i does. */
  predicate Agrees(i: Ins, code: seq<nat>, pc: nat, R: Regs, n: VmNext) {
    if i.Jmp? then n == JumpFrom(code, pc, R)
    else if IsTest(i) then
      match TestResult(i, R)
      case None => n == Stop
      case Some(b) => if b then n == JumpFrom(code, pc + 1, TestRegs(i, R)) else n == Goto(pc + 2, R)
    else
      match Step(i, R)
      case None => n == Stop
      case Some(S) => n == Goto(pc + 1, S)
  }

  lemma TestAgrees(i: BCIns, kn: seq<int>, ks: seq<string>, code: seq<nat>, pc: nat, R: Regs)
    requires i.AD? && i.op < 16
    ensures Agrees(Decode(i, pc, false, kn, ks), code, pc, R, TestStep(i.op, i.a, i.d, code, kn, ks, pc, R))
  {
  }

  lemma ArithAgrees(i: BCIns, kn: seq<int>, ks: seq<string>, code: seq<nat>, pc: nat, R: Regs)
    requires i.ABC? && ExprOp(i)
    ensures Agrees(Decode(i, pc, false, kn, ks), code, pc, R, ArithStep(i.op, i.a, i.b, i.c, kn, pc, R))
  {
    hide Wrap64, Signed;
    forall n: int ensures Signed(n) == Wrap64(n) { SignedWraps(n); }
  }

  lemma PlainAgrees(i: BCIns, kn: seq<int>, ks: seq<string>, code: seq<nat>, pc: nat, R: Regs)
    requires i.AD? && ExprOp(i) && i.op >= 16 && i.op != FUNCF
    ensures Agrees(Decode(i, pc, false, kn, ks), code, pc, R, PlainStep(i.op, i.a, i.d, code, kn, ks, pc, R))
  {
    hide Wrap64, Signed;
    forall n: int ensures Signed(n) == Wrap64(n) { SignedWraps(n); }
  }

  lemma StepAgrees(bc: Bytecode, kn: seq<int>, ks: seq<string>, code: seq<nat>, pc: nat, R: Regs)
    requires 1 <= pc < |bc| && InsOk(bc[pc], kn, ks) && bc[pc].op != FUNCF && Holds(code, bc)
    ensures Agrees(Decode(bc[pc], pc, false, kn, ks), code, pc, R, VmStep(code, kn, ks, pc, R))
  {
    hide Decode, Agrees, TestStep, ArithStep, PlainStep, Word, Holds;
    var i := bc[pc];
    WordAt(bc, kn, ks, code, pc);
    if i.ABC? {
      ArithAgrees(i, kn, ks, code, pc, R);
    } else if i.op < 16 {
      TestAgrees(i, kn, ks, code, pc, R);
    } else {
      PlainAgrees(i, kn, ks, code, pc, R);
    }
  }

  // -- Runs ----------------------------------------------------------------------------------------

  /** Bytecode without open ends: every instruction in range, every jump with its target. */
  ghost predicate Finished(bc: Bytecode, kn: seq<int>, ks: seq<string>) {
    && (forall i :: 0 <= i < |bc| ==> InsOk(bc[i], kn, ks)) && HeaderFirst(bc)
    && WfCode(DecodeAll(bc, {}, kn, ks))
  }

  predicate SameEnd(o: Outcome, v: VmEnd) {
    match o
    case Done(S) => v == Reached(S)
    case Fail => v == Stopped
    case Back(_, _) => v == Elsewhere
    case Exit(_, _) => false
  }

  /** A run over the meanings of the instructions and a run over their words end alike. */
  lemma {:induction false} RunAgrees(bc: Bytecode, kn: seq<int>, ks: seq<string>, code: seq<nat>, pc: nat, R: Regs)
    requires Finished(bc, kn, ks) && Holds(code, bc) && 1 <= pc <= |bc|
    ensures SameEnd(Exec(DecodeAll(bc, {}, kn, ks), pc, R), VmRun(code, kn, ks, pc, R, |bc|))
    decreases |bc| - pc
  {
    hide Decode, VmStep, Word, Holds, Step, TestResult, TestRegs;
    var c := DecodeAll(bc, {}, kn, ks);
    if pc < |bc| {
      StepAgrees(bc, kn, ks, code, pc, R);
      assert WfAt(c, pc);
      if c[pc].Jmp? {
        JumpAgrees(bc, kn, ks, code, pc, R);
        if pc < c[pc].t.pos { RunAgrees(bc, kn, ks, code, c[pc].t.pos, R); }
      } else if IsTest(c[pc]) {
        TestRunAgrees(bc, kn, ks, code, pc, R);
      } else {
        NoOther(bc[pc], pc, kn, ks);
        if Step(c[pc], R).Some? { RunAgrees(bc, kn, ks, code, pc + 1, Step(c[pc], R).value); }
      }
    }
  }

  lemma {:induction false} TestRunAgrees(bc: Bytecode, kn: seq<int>, ks: seq<string>, code: seq<nat>, pc: nat, R: Regs)
    requires Finished(bc, kn, ks) && Holds(code, bc) && 1 <= pc < |bc|
    requires IsTest(DecodeAll(bc, {}, kn, ks)[pc])
    requires Agrees(Decode(bc[pc], pc, false, kn, ks), code, pc, R, VmStep(code, kn, ks, pc, R))
    ensures SameEnd(Exec(DecodeAll(bc, {}, kn, ks), pc, R), VmRun(code, kn, ks, pc, R, |bc|))
    decreases |bc| - pc, 0
  {
    hide Decode, VmStep, Word, Holds, Step, TestResult, TestRegs, Exec, Take, Finished;
    var c := DecodeAll(bc, {}, kn, ks);
    TestFacts(bc, kn, ks, pc);
    ExecAtTest(c, pc, R);
    var b := TestResult(c[pc], R);
    if b.Some? {
      if b.value {
        var S := TestRegs(c[pc], R);
        JumpAgrees(bc, kn, ks, code, pc + 1, S);
        var p := c[pc + 1].t.pos;
        if pc + 1 < p { RunAgrees(bc, kn, ks, code, p, S); }
      } else {
        RunAgrees(bc, kn, ks, code, pc + 2, R);
      }
    }
  }

  /** A test has its jump behind it, and no jump leads between the two. */
  lemma TestFacts(bc: Bytecode, kn: seq<int>, ks: seq<string>, pc: nat)
    requires Finished(bc, kn, ks) && pc < |bc| && IsTest(DecodeAll(bc, {}, kn, ks)[pc])
    ensures var c := DecodeAll(bc, {}, kn, ks);
            && pc + 1 < |c| && c[pc + 1].Jmp? && (c[pc + 1].t.To? ==> c[pc + 1].t.pos != pc + 1)
  {
    hide Decode;
    var c := DecodeAll(bc, {}, kn, ks);
    assert WfAt(c, pc) && WfAt(c, pc + 1);
  }

  /** A jump leads where its meaning says, or backwards. */
  lemma JumpAgrees(bc: Bytecode, kn: seq<int>, ks: seq<string>, code: seq<nat>, at: nat, R: Regs)
    requires Finished(bc, kn, ks) && Holds(code, bc) && 1 <= at < |bc| && DecodeAll(bc, {}, kn, ks)[at].Jmp?
    ensures var t := DecodeAll(bc, {}, kn, ks)[at].t;
            && t.To? && t.pos <= |bc| && at < |code|
            && JumpFrom(code, at, R).Goto? && JumpFrom(code, at, R).regs == R
            && (JumpFrom(code, at, R).pc == t.pos || (JumpFrom(code, at, R).pc < 0 && t.pos == 0))
  {
    hide Word, Holds;
    var c := DecodeAll(bc, {}, kn, ks);
    assert c[at] == Decode(bc[at], at, false, kn, ks);
    WordAt(bc, kn, ks, code, at);
    assert WfAt(c, at);
  }

  lemma NoOther(i: BCIns, at: nat, kn: seq<int>, ks: seq<string>)
    requires InsOk(i, kn, ks)
    ensures !Decode(i, at, false, kn, ks).Other?
  {
  }

  // -- From source to words ---------------------------------------------------------------------------

  /** The first half of bcemit_INS: jumps that wait for the next instruction lead to
      the end of the code. */
  method Flushed(fs: FuncState) returns (st: Status)
    requires fs.Valid() && Wf(fs.Abs()) && fs.pend <= Elems(fs.bc, fs.jpc)
    modifies fs
    ensures st.Err? ==> fs.AtLimit()
    ensures st.Ok? ==>
              && Finished(fs.bc, fs.kn, fs.ks) && DecodeAll(fs.bc, {}, fs.kn, fs.ks) == Flush(old(fs.Abs()))
              && fs.framesize == old(fs.framesize) && fs.kn == old(fs.kn) && fs.ks == old(fs.ks)
  {
    hide Decode, Patch, WfList, ListOf, IsList, Elems, Next, Follow, InsOk, WfCode, NoEndTarget, AllPending;
    FlushWf(fs.Abs());
    st := fs.JmpPatchval(fs.jpc, |fs.bc|, NO_REG, |fs.bc|);
    if st.Err? { return; }
    assert fs.pend == {};
    fs.jpc := NO_JMP;
  }

  /** String constants from the last to the first, as they lie in front of the numbers. */
  function StringConsts(ks: seq<string>): (kgc: seq<D.Const>)
    ensures |kgc| == |ks|
  {
    seq(|ks|, i requires 0 <= i < |ks| => D.CStr(ks[|ks| - 1 - i]))
  }

  /** fs_finish, for a function without children, upvalues and debug information. */
  function Finish(flags: nat, n: nat, framesize: nat, bc: Bytecode, kn: seq<int>, ks: seq<string>): D.Proto
    requires bc != []
  {
    D.Proto(flags, n, framesize, [], StringConsts(ks), kn, Fixup(bc, flags, framesize), None)
  }

  /** String constant d of a prototype, as the interpreter finds it. */
  function Strings(kgc: seq<D.Const>): (ks: seq<string>)
    ensures |ks| == |kgc|
  {
    seq(|kgc|, d requires 0 <= d < |kgc| => var c := kgc[|kgc| - 1 - d]; if c.CStr? then c.s else "")
  }

  /** The interpreter, on the code of a prototype and whatever comes behind it, leaves the
      value of x in register n and the registers below it as they were; it stops if x has
      none. */
  ghost predicate RunsAs(pt: D.Proto, n: nat, x: Expr) {
    && 1 <= |pt.bc|
    && forall code: seq<nat>, R: Regs :: pt.bc <= code && |R| == 250 ==>
         Leaves(VmRun(code, pt.kn, Strings(pt.kgc), 1, R, |pt.bc|), n, Eval(x, R), R)
  }

  predicate Leaves(v: VmEnd, n: nat, r: Option<Val>, R: Regs) {
    match r
    case None => v == Stopped
    case Some(y) =>
      && v.Reached? && n < |v.regs| && |v.regs| == |R|
      && v.regs[n] == y && forall i :: 0 <= i < n ==> v.regs[i] == R[i]
  }

  /** A function with n parameters, before the code of its body. */
  method OpenFunction(n: nat) returns (st: Status, fs: FuncState)
    ensures fresh(fs) && (st.Err? ==> n >= MAX_SLOTS)
    ensures st.Ok? ==>
              && fs.Valid() && Wf(fs.Abs()) && fs.pend == {} && n < MAX_SLOTS
              && fs.Abs().code == [Header] && fs.nactvar == n && fs.freereg == n
  {
    hide Elems, WfList, ListOf, IsList, Follow;
    fs := new FuncState();
    st := fs.BcregReserve(n);
    if st.Err? { return; }
    fs.nactvar := n;
    assert WfAt(fs.Abs().code, 0);
  }

  /** The prototype has the header word of its flags and frame size, and computes x. */
  ghost predicate Compiled(pt: D.Proto, flags: nat, n: nat, x: Expr) {
    && pt.flags == flags && pt.numparams == n && RunsAs(pt, n, x)
    && pt.bc[0] == (if flags / 2 % 2 == 1 then 97 else 94) + 256 * pt.framesize
  }

  /** The function `return x`, as far as the value: for every expression and all
      arguments, the words that are emitted compute the value of the expression. */
  method CompileFunction(flags: nat, n: nat, x: Expr) returns (st: Status, pt: D.Proto, fs: FuncState)
    requires FuncState.SourceOk(x) && LocalsOk(x, n)
    ensures fresh(fs) && (st.Err? ==> n >= 250 || fs.AtLimit())
    ensures st.Ok? ==> Compiled(pt, flags, n, x)
  {
    hide Run, Eval, Same, LocalsOk, NoEndTarget, WfCode, AllPending, Elems, Words, Finished, RunsAs, Flush;
    pt := D.Proto(0, 0, 0, [], [], [], [], None);
    st, fs := OpenFunction(n);
    if st.Err? { return; }
    ghost var s := fs.Abs();
    var e;
    st, e := CompiledCode.ExprNext(fs, x);
    if st.Err? { return; }
    ghost var s' := fs.Abs();
    st := Flushed(fs);
    if st.Err? { return; }
    WordsRun(s, x, s', flags, n, fs.framesize, fs.bc, fs.kn, fs.ks);
    pt := Finish(flags, n, fs.framesize, fs.bc, fs.kn, fs.ks);
  }

  /** The same from the tokens of the expression. Leaves name the operands: constants,
      and parameters by their number. */
  method CompileText(flags: nat, n: nat, toks: seq<P.Tok>, leaf: nat -> Expr)
    returns (st: Status, pt: D.Proto, fs: FuncState, ghost t: P.Tree, ghost rest: seq<P.Tok>)
    requires OnePass.LeavesOk(leaf) && forall id :: LocalsOk(leaf(id), n)
    ensures fresh(fs) && (st.Err? ==> n >= 250 || fs.AtLimit() || OnePass.Refused(P.ParseBinop(toks, 0, 0)))
    ensures st.Ok? ==>
              && P.ParseBinop(toks, 0, 0) == Some((t, rest)) && OnePass.Supported(t)
              && Compiled(pt, flags, n, OnePass.ToExpr(leaf, t))
  {
    hide Run, Eval, Same, LocalsOk, NoEndTarget, WfCode, AllPending, Elems, Words, Finished, RunsAs, Flush,
         P.ParseBinop, OnePass.ToExpr, OnePass.LeavesOk;
    pt, t, rest := D.Proto(0, 0, 0, [], [], [], [], None), P.Leaf(0), [];
    st, fs := OpenFunction(n);
    if st.Err? { return; }
    var ps := new OnePass.Parser(toks);
    ghost var s := fs.Abs();
    var e;
    st, e, t := OnePass.ExprTokens(ps, fs, leaf);
    if st.Err? { return; }
    rest := ps.Rest();
    ghost var s' := fs.Abs();
    st := Flushed(fs);
    if st.Err? { return; }
    WordsRun(s, OnePass.ToExpr(leaf, t), s', flags, n, fs.framesize, fs.bc, fs.kn, fs.ks);
    pt := Finish(flags, n, fs.framesize, fs.bc, fs.kn, fs.ks);
  }

  lemma WordsRun(s: FS, x: Expr, s': FS, flags: nat, n: nat, framesize: nat, bc: Bytecode, kn: seq<int>,
                 ks: seq<string>)
    requires Wf(s) && Wf(s') && s.code == [Header] && s.free == n
    requires forall q: nat, R: Regs :: Start(s, q) && |R| == MAX_SLOTS ==> CompiledCode.Computes(s, x, s', q, R)
    requires Finished(bc, kn, ks) && DecodeAll(bc, {}, kn, ks) == Flush(s')
    ensures bc != [] && Compiled(Finish(flags, n, framesize, bc, kn, ks), flags, n, x)
  {
    hide Eval, Exec, CompiledCode.Computes, Leaves, VmRun, Finished, Flush, Wf, DecodeAll;
    assert Start(s, 0);
    FinishedLength(bc, kn, ks);
    var pt := Finish(flags, n, framesize, bc, kn, ks);
    assert Strings(pt.kgc) == ks;
    forall code: seq<nat>, R: Regs | pt.bc <= code && |R| == 250
      ensures Leaves(VmRun(code, kn, ks, 1, R, |bc|), n, Eval(x, R), R)
    {
      assert forall i :: 1 <= i < |bc| ==> code[i] == pt.bc[i];
      assert CompiledCode.Computes(s, x, s', 0, R);
      OneRun(s, x, s', bc, kn, ks, code, R);
    }
  }

  lemma FinishedLength(bc: Bytecode, kn: seq<int>, ks: seq<string>)
    requires Finished(bc, kn, ks)
    ensures 1 <= |bc| && DecodeAll(bc, {}, kn, ks)[0] == Header
  {
    HeaderDecode(bc[0], 0, kn, ks);
  }

  /** The header does nothing. */
  lemma HeaderRun(c: Code, R: Regs)
    requires c != [] && c[0] == Header
    ensures Exec(c, 0, R) == Exec(c, 1, R)
  {
  }

  lemma OneRun(s: FS, x: Expr, s': FS, bc: Bytecode, kn: seq<int>, ks: seq<string>, code: seq<nat>, R: Regs)
    requires Wf(s) && Wf(s') && s.code == [Header] && |R| == MAX_SLOTS && CompiledCode.Computes(s, x, s', 0, R)
    requires Finished(bc, kn, ks) && DecodeAll(bc, {}, kn, ks) == Flush(s') && Holds(code, bc)
    ensures 1 <= |bc| && Leaves(VmRun(code, kn, ks, 1, R, |bc|), s.free, Eval(x, R), R)
  {
    hide Holds, Eval, Exec, VmRun, Finished, Flush, WfCode, AllPending, NoEndTarget, DecodeAll;
    FinishedLength(bc, kn, ks);
    RunAgrees(bc, kn, ks, code, 1, R);
    HeaderRun(Flush(s'), R);
    FlushRun(s', 0, R);
    assert Run(s, 0, R) == Done(R) by { HeaderRun(s.code, R); AtEnd(s.code, R); }
  }

  lemma AtEnd(c: Code, R: Regs)
    ensures Exec(c, |c|, R) == Done(R)
  {
  }
}
