/** Bytecode of expressions: the instructions the expression emitters produce,
    with the jumps that still wait for a target kept apart from resolved ones,
    and the interpreter's behaviour on such unfinished code. */
module ExprCode {
  import opened Values

  const NO_REG: nat := 255
  const MAX_SLOTS: nat := 250

  datatype CmpOp = LT | GE | LE | GT
  datatype ArithOp = Add | Sub | Mul
  datatype Target = Pending | To(pos: nat)

  /** What an instruction with a relocatable result computes. */
  datatype AluFn =
    | Not(d: nat)
    | Unm(d: nat)
    | ArithVV(op: ArithOp, b: nat, c: nat)
    | ArithVN(op: ArithOp, b: nat, kn: int)
    | ArithNV(op: ArithOp, b: nat, kn: int)

  datatype Ins =
    | Cmp(cop: CmpOp, a: nat, d: nat)              // ISLT ISGE ISLE ISGT
    | EqV(ne: bool, a: nat, d: nat)                // ISEQV ISNEV
    | EqK(ne: bool, a: nat, k: Val)                // ISEQS ISEQN ISEQP and their negations
    | TestCopy(sense: bool, a: nat, d: nat)        // ISTC ISFC
    | Test(sense: bool, d: nat)                    // IST ISF
    | Mov(a: nat, d: nat)
    | Alu(f: AluFn, a: nat)
    | LoadK(a: nat, k: Val)                        // KSTR KSHORT KNUM KPRI
    | KNil(a: nat, d: nat)
    | Jmp(t: Target)
    | Header                                       // FUNCF, in front of a function
    | Other                                        // any opcode outside expressions

  type Code = seq<Ins>
  type Regs = seq<Val>

  // -- Instruction classes ---------------------------------------------------

  /** Conditional instructions: each is followed by the jump it guards. */
  predicate IsTest(i: Ins) {
    i.Cmp? || i.EqV? || i.EqK? || i.TestCopy? || i.Test?
  }

  /** A constant load whose target register is still open. */
  predicate IsOpenLoad(i: Ins) {
    i.LoadK? && i.a == NO_REG
  }

  predicate IsGuard(i: Ins) {
    IsTest(i) || IsOpenLoad(i)
  }

  // -- Execution ---------------------------------------------------------------

  function Read(R: Regs, i: nat): Val {
    if i < |R| then R[i] else Nil
  }

  /** Register numbers outside the frame, NO_REG in particular, are not written. */
  function Write(R: Regs, i: nat, v: Val): (r: Regs)
    ensures |r| == |R|
  {
    if i < |R| then R[i := v] else R
  }

  function Compare(op: CmpOp, x: int, y: int): bool {
    match op
    case LT => x < y
    case GE => x >= y
    case LE => x <= y
    case GT => x > y
  }

  function Arith(op: ArithOp, x: int, y: int): int {
    match op
    case Add => Wrap64(x + y)
    case Sub => Wrap64(x - y)
    case Mul => Wrap64(x * y)
  }

  function ArithVal(op: ArithOp, x: Val, y: Val): Option<Val> {
    if x.Num? && y.Num? then Some(Num(Arith(op, x.n, y.n))) else None
  }

  /** Outcome of a test: None is a type error that stops the interpreter. */
  function TestResult(i: Ins, R: Regs): Option<bool>
    requires IsTest(i)
  {
    match i
    case Cmp(op, a, d) =>
      if Read(R, a).Num? && Read(R, d).Num? then Some(Compare(op, Read(R, a).n, Read(R, d).n)) else None
    case EqV(ne, a, d) => Some((Read(R, a) == Read(R, d)) != ne)
    case EqK(ne, a, k) => Some((Read(R, a) == k) != ne)
    case TestCopy(sense, _, d) => Some(Truthy(Read(R, d)) == sense)
    case Test(sense, d) => Some(Truthy(Read(R, d)) == sense)
  }

  /** Registers after a test that is about to take its jump. */
  function TestRegs(i: Ins, R: Regs): (r: Regs)
    ensures |r| == |R|
  {
    if i.TestCopy? then Write(R, i.a, Read(R, i.d)) else R
  }

  /** None is a type error. */
  function AluVal(f: AluFn, R: Regs): Option<Val> {
    match f
    case Not(d) => Some(Bool(!Truthy(Read(R, d))))
    case Unm(d) => if Read(R, d).Num? then Some(Num(Wrap64(-Read(R, d).n))) else None
    case ArithVV(op, b, c) => ArithVal(op, Read(R, b), Read(R, c))
    case ArithVN(op, b, kn) => ArithVal(op, Read(R, b), Num(kn))
    case ArithNV(op, b, kn) => ArithVal(op, Num(kn), Read(R, b))
  }

  /** Registers after slots a..d have been set to nil. */
  function NilRange(R: Regs, a: nat, d: nat): (r: Regs)
    ensures |r| == |R|
    ensures forall i :: 0 <= i < |R| ==> r[i] == if a <= i <= d then Nil else R[i]
  {
    seq(|R|, i requires 0 <= i < |R| => if a <= i <= d then Nil else R[i])
  }

  /** How a run over unfinished code ends: it falls off the end, it takes a jump
      that has no target yet, it stops with a type error, or it jumps backwards. */
  datatype Outcome = Done(regs: Regs) | Exit(j: nat, regs: Regs) | Fail | Back(pos: nat, regs: Regs)

  /** One straight-line instruction; None is a type error. */
  function Step(i: Ins, R: Regs): (r: Option<Regs>)
    requires !IsTest(i) && !i.Jmp?
    ensures r.Some? ==> |r.value| == |R|
  {
    match i
    case Mov(a, d) => Some(Write(R, a, Read(R, d)))
    case LoadK(a, k) => Some(Write(R, a, k))
    case KNil(a, d) => Some(NilRange(R, a, d))
    case Alu(f, a) =>
      var v := AluVal(f, R);
      if v.Some? then Some(Write(R, a, v.value)) else None
    case Header => Some(R)
    case Other => None
  }

  /** Where a jump at position `at` leads; `c` is run from there. */
  function Take(c: Code, at: nat, R: Regs): (o: Outcome)
    requires at < |c| && c[at].Jmp?
    ensures o.Fail? || |o.regs| == |R|
    ensures o.Exit? ==> o.j < |c| && c[o.j] == Jmp(Pending)
    decreases |c| - at, 0
  {
    match c[at].t
    case Pending => Exit(at, R)
    case To(p) => if p <= at then Back(p, R) else if p <= |c| then Exec(c, p, R) else Fail
  }

  /** Run `c` from position pc with registers R. */
  function Exec(c: Code, pc: nat, R: Regs): (o: Outcome)
    requires pc <= |c|
    ensures o.Fail? || |o.regs| == |R|
    ensures o.Exit? ==> o.j < |c| && c[o.j] == Jmp(Pending)
    decreases |c| - pc, 1
  {
    if pc == |c| then Done(R)
    else if c[pc].Jmp? then Take(c, pc, R)
    else if IsTest(c[pc]) then
      var b := TestResult(c[pc], R);
      if b.None? || pc + 1 == |c| || !c[pc + 1].Jmp? then Fail
      else if b.value then Take(c, pc + 1, TestRegs(c[pc], R))
      else Exec(c, pc + 2, R)
    else
      var r := Step(c[pc], R);
      if r.None? then Fail else Exec(c, pc + 1, r.value)
  }

  // -- Well-formed unfinished code -----------------------------------------------

  predicate IsPending(c: Code, j: nat) {
    1 <= j < |c| && c[j] == Jmp(Pending)
  }

  ghost predicate AllPending(c: Code, L: set<nat>) {
    forall j :: j in L ==> IsPending(c, j)
  }

  /** A run may start here: the position is not the jump of a preceding guard. */
  predicate IsEntry(c: Code, p: nat) {
    p <= |c| && (p == 0 || !IsGuard(c[p - 1]))
  }

  predicate IsSlot(r: nat) {
    r < MAX_SLOTS || r == NO_REG
  }

  predicate WfAt(c: Code, i: nat)
    requires i < |c|
  {
    && (c[i].Jmp? && c[i].t.To? ==> IsEntry(c, c[i].t.pos))
    && (IsTest(c[i]) ==> i + 1 < |c| && c[i + 1].Jmp?)
    && (IsOpenLoad(c[i]) ==> i + 1 < |c| && c[i + 1] == Jmp(Pending))
    && (c[i].TestCopy? ==> (c[i].a == NO_REG <==> c[i + 1] == Jmp(Pending)))
    && (c[i].LoadK? ==> IsSlot(c[i].a))
    && (c[i].KNil? ==> c[i].d < MAX_SLOTS)
  }

  ghost predicate WfCode(c: Code) {
    forall i :: 0 <= i < |c| ==> WfAt(c, i)
  }

  // -- Appending -------------------------------------------------------------------

  /** Code appended at the end only continues the runs that fell off the end. */
  lemma {:induction false} ExecAppend(c: Code, d: Code, pc: nat, R: Regs)
    requires WfCode(c) && pc <= |c|
    ensures Exec(c + d, pc, R) ==
            var o := Exec(c, pc, R);
            if o.Done? then Exec(c + d, |c|, o.regs) else o
    decreases |c| - pc, 1
  {
    var e := c + d;
    if pc < |c| {
      assert WfAt(c, pc) && e[pc] == c[pc];
      if c[pc].Jmp? {
        TakeAppend(c, d, pc, R);
      } else if IsTest(c[pc]) {
        assert e[pc + 1] == c[pc + 1];
        TakeAppend(c, d, pc + 1, TestRegs(c[pc], R));
        ExecAppend(c, d, pc + 2, R);
      } else {
        var r := Step(c[pc], R);
        if r.Some? {
          ExecAppend(c, d, pc + 1, r.value);
        }
      }
    }
  }

  lemma {:induction false} TakeAppend(c: Code, d: Code, at: nat, R: Regs)
    requires WfCode(c) && at < |c| && c[at].Jmp?
    ensures Take(c + d, at, R) ==
            var o := Take(c, at, R);
            if o.Done? then Exec(c + d, |c|, o.regs) else o
    decreases |c| - at, 0
  {
    assert WfAt(c, at) && (c + d)[at] == c[at];
    if c[at].t.To? && c[at].t.pos > at {
      ExecAppend(c, d, c[at].t.pos, R);
    }
  }

  /** Appending keeps code well-formed if the new part is. */
  lemma AppendWf(c: Code, d: Code)
    requires WfCode(c)
    requires forall i :: |c| <= i < |c + d| ==> WfAt(c + d, i)
    ensures WfCode(c + d)
  {
    var e := c + d;
    forall i | 0 <= i < |c|
      ensures WfAt(e, i)
    {
      assert WfAt(c, i) && e[i] == c[i];
      assert i + 1 < |c| ==> e[i + 1] == c[i + 1];
    }
  }

  // -- Patching ----------------------------------------------------------------------

  /** The instruction before the jump also produces the value that goes with it. */
  predicate Carries(c: Code, j: nat) {
    1 <= j <= |c| && (c[j - 1].TestCopy? || IsOpenLoad(c[j - 1]))
  }

  function CarriedVal(i: Ins, R: Regs): Val
    requires i.TestCopy? || IsOpenLoad(i)
  {
    if i.TestCopy? then Read(R, i.d) else i.k
  }

  /** Settle the register of a guard at position `at`; NO_REG drops the value. */
  function PatchGuard(i: Ins, at: nat, reg: nat): Ins {
    if i.TestCopy? then
      if reg != NO_REG && reg != i.d then TestCopy(i.sense, reg, i.d) else Test(i.sense, i.d)
    else if IsOpenLoad(i) then
      if reg == NO_REG then Jmp(To(at + 1)) else LoadK(reg, i.k)
    else i
  }

  function PatchAt(c: Code, L: set<nat>, vt: nat, reg: nat, dt: nat, i: nat): Ins
    requires i < |c|
  {
    if i in L then Jmp(To(if Carries(c, i) then vt else dt))
    else if i + 1 in L then PatchGuard(c[i], i, reg)
    else c[i]
  }

  /** Resolve the pending jumps in L: those that carry a value put it into `reg`
      and go to `vt`, the others go to `dt`. */
  function Patch(c: Code, L: set<nat>, vt: nat, reg: nat, dt: nat): (r: Code)
    ensures |r| == |c|
  {
    seq(|c|, i requires 0 <= i < |c| => PatchAt(c, L, vt, reg, dt, i))
  }

  lemma PatchNone(c: Code, vt: nat, reg: nat, dt: nat)
    ensures Patch(c, {}, vt, reg, dt) == c
  {
  }

  /** Registers on arrival of a patched jump. */
  function ArriveRegs(c: Code, j: nat, reg: nat, R: Regs): (r: Regs)
    ensures |r| == |R|
  {
    if Carries(c, j) && reg != NO_REG then Write(R, reg, CarriedVal(c[j - 1], R)) else R
  }

  /** What a run that used to end with outcome `o` does in patched code `p`. */
  function Resume(c: Code, p: Code, L: set<nat>, vt: nat, reg: nat, dt: nat, o: Outcome): Outcome
    requires |p| == |c|
  {
    if o.Exit? && o.j in L then
      var t := if Carries(c, o.j) then vt else dt;
      var R := ArriveRegs(c, o.j, reg, o.regs);
      if t <= o.j then Back(t, R) else if t <= |c| then Exec(p, t, R) else Fail
    else o
  }

  /** Patching a list redirects exactly the runs that left through its members. */
  lemma {:induction false} ExecPatch(c: Code, L: set<nat>, vt: nat, reg: nat, dt: nat, pc: nat, R: Regs)
    requires WfCode(c) && IsEntry(c, pc) && |R| <= NO_REG
    requires AllPending(c, L)
    ensures var p := Patch(c, L, vt, reg, dt);
            Exec(p, pc, R) == Resume(c, p, L, vt, reg, dt, Exec(c, pc, R))
    decreases |c| - pc
  {
    var p := Patch(c, L, vt, reg, dt);
    if pc < |c| {
      assert WfAt(c, pc);
      assert p[pc] == PatchAt(c, L, vt, reg, dt, pc);
      if c[pc].Jmp? {
        if pc !in L && c[pc].t.To? && c[pc].t.pos > pc {
          ExecPatch(c, L, vt, reg, dt, c[pc].t.pos, R);
        }
      } else if IsTest(c[pc]) {
        ExecPatchTest(c, L, vt, reg, dt, pc, R);
      } else if IsOpenLoad(c[pc]) {
        assert !IsPending(c, pc);
        assert p[pc + 1] == PatchAt(c, L, vt, reg, dt, pc + 1);
        assert Step(c[pc], R) == Some(R);
        assert Exec(c, pc, R) == Take(c, pc + 1, R);
        if pc + 1 in L {
          var S := ArriveRegs(c, pc + 1, reg, R);
          if reg == NO_REG {
            assert Exec(p, pc, R) == Exec(p, pc + 1, S);
          } else {
            assert Step(p[pc], R) == Some(S);
          }
          assert Exec(p, pc, R) == Take(p, pc + 1, S);
        } else {
          assert Exec(p, pc, R) == Exec(p, pc + 1, R);
        }
      } else {
        var r := Step(c[pc], R);
        if r.Some? {
          ExecPatch(c, L, vt, reg, dt, pc + 1, r.value);
        }
      }
    }
  }

  /** A test takes the jump behind it or goes on behind that. */
  lemma ExecAtTest(c: Code, pc: nat, R: Regs)
    requires pc + 1 < |c| && IsTest(c[pc]) && c[pc + 1].Jmp?
    ensures Exec(c, pc, R) ==
            match TestResult(c[pc], R)
            case None => Fail
            case Some(b) =>
              if !b then Exec(c, pc + 2, R)
              else match c[pc + 1].t
                case Pending => Exit(pc + 1, TestRegs(c[pc], R))
                case To(p) =>
                  if p <= pc + 1 then Back(p, TestRegs(c[pc], R))
                  else if p <= |c| then Exec(c, p, TestRegs(c[pc], R))
                  else Fail
  {
    hide TestResult, TestRegs;
  }

  lemma {:induction false} ExecPatchTest(c: Code, L: set<nat>, vt: nat, reg: nat, dt: nat, pc: nat, R: Regs)
    requires WfCode(c) && IsEntry(c, pc) && |R| <= NO_REG
    requires AllPending(c, L)
    requires pc < |c| && IsTest(c[pc])
    ensures var p := Patch(c, L, vt, reg, dt);
            Exec(p, pc, R) == Resume(c, p, L, vt, reg, dt, Exec(c, pc, R))
    decreases |c| - pc, 0
  {
    hide Exec, Take;
    var p := Patch(c, L, vt, reg, dt);
    assert WfAt(c, pc) && WfAt(c, pc + 1);
    assert p[pc] == PatchAt(c, L, vt, reg, dt, pc);
    assert p[pc + 1] == PatchAt(c, L, vt, reg, dt, pc + 1);
    ExecAtTest(c, pc, R);
    ExecAtTest(p, pc, R);
    assert TestResult(p[pc], R) == TestResult(c[pc], R);
    var b := TestResult(c[pc], R);
    if b == Some(false) {
      ExecPatch(c, L, vt, reg, dt, pc + 2, R);
    } else if b == Some(true) {
      var S := TestRegs(c[pc], R);
      if pc + 1 in L {
        assert S == R;
        assert TestRegs(p[pc], R) == ArriveRegs(c, pc + 1, reg, R);
      } else {
        assert p[pc] == c[pc];
        if c[pc + 1].t.To? && c[pc + 1].t.pos > pc + 1 {
          ExecPatch(c, L, vt, reg, dt, c[pc + 1].t.pos, S);
        }
      }
    }
  }

  /** Patching to positions where runs may start keeps code well-formed. */
  lemma PatchWf(c: Code, L: set<nat>, vt: nat, reg: nat, dt: nat)
    requires WfCode(c) && AllPending(c, L) && IsEntry(c, vt) && IsEntry(c, dt) && IsSlot(reg)
    ensures WfCode(Patch(c, L, vt, reg, dt))
  {
    var p := Patch(c, L, vt, reg, dt);
    forall t: nat | IsEntry(c, t)
      ensures IsEntry(p, t)
    {
      if t > 0 {
        assert p[t - 1] == PatchAt(c, L, vt, reg, dt, t - 1);
      }
    }
    forall i | 0 <= i < |p|
      ensures WfAt(p, i)
    {
      assert WfAt(c, i);
      assert p[i] == PatchAt(c, L, vt, reg, dt, i);
      assert i in L ==> IsPending(c, i);
      assert i + 1 in L ==> IsPending(c, i + 1);
      if i + 1 < |c| {
        assert p[i + 1] == PatchAt(c, L, vt, reg, dt, i + 1);
      }
    }
  }

  /** Once no jump is pending, no instruction is left without a register. */
  lemma NothingOpen(c: Code)
    requires WfCode(c) && forall i :: 0 <= i < |c| ==> c[i] != Jmp(Pending)
    ensures forall i :: 0 <= i < |c| ==> !IsOpenLoad(c[i]) && !(c[i].TestCopy? && c[i].a == NO_REG)
  {
    forall i | 0 <= i < |c|
      ensures !IsOpenLoad(c[i]) && !(c[i].TestCopy? && c[i].a == NO_REG)
    {
      assert WfAt(c, i);
    }
  }
}
