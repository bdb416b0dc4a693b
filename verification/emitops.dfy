/** Operators: the code for them delivers the right value, given that their operands' code does. */
module EmitOps {
  import opened Values
  import opened ExprCode
  import opened Emitter
  import opened EmitProof

  // -- Unary operators -----------------------------------------------------------------------------

  lemma DropValWf(s: FS, L: set<nat>)
    requires Wf(s) && AllPending(s.code, L)
    ensures var s' := s.(code := DropVal(s.code, L));
            && Wf(s') && Keeps(s, L, s')
            && (forall j: nat :: IsPending(s.code, j) ==> IsPending(s'.code, j))
            && (forall j: nat :: IsPending(s.code, j) && (j in L || !Carries(s.code, j)) ==> !Carries(s'.code, j))
  {
    var s' := s.(code := DropVal(s.code, L));
    forall i: nat | i < |s.code|
      ensures WfAt(s'.code, i)
    {
      assert WfAt(s.code, i);
      assert i + 1 in L ==> IsPending(s.code, i + 1);
      if i + 1 < |s.code| { assert WfAt(s.code, i + 1); }
      if s.code[i].Jmp? && s.code[i].t.To? {
        assert IsEntry(s'.code, s.code[i].t.pos);
      }
    }
  }

  /** Dropping values does not change any run. */
  lemma {:induction false} DropValRun(c: Code, L: set<nat>, pc: nat, R: Regs)
    requires WfCode(c) && IsEntry(c, pc) && |R| == MAX_SLOTS && AllPending(c, L)
    ensures Exec(DropVal(c, L), pc, R) == Exec(c, pc, R)
    decreases |c| - pc
  {
    var p := DropVal(c, L);
    if pc < |c| {
      assert WfAt(c, pc);
      assert pc + 1 in L ==> IsPending(c, pc + 1);
      if c[pc].Jmp? {
        assert p[pc] == c[pc];
        if c[pc].t.To? && c[pc].t.pos > pc {
          DropValRun(c, L, c[pc].t.pos, R);
        }
      } else if IsTest(c[pc]) {
        DropValTest(c, L, pc, R);
      } else if IsOpenLoad(c[pc]) {
        assert p[pc + 1] == c[pc + 1];
        assert Step(c[pc], R) == Some(R);
        assert Exec(c, pc + 1, R) == Exit(pc + 1, R);
        assert Exec(p, pc + 1, R) == Exit(pc + 1, R);
      } else {
        assert p[pc] == c[pc];
        var r := Step(c[pc], R);
        if r.Some? {
          DropValRun(c, L, pc + 1, r.value);
        }
      }
    }
  }

  lemma {:induction false} DropValTest(c: Code, L: set<nat>, pc: nat, R: Regs)
    requires WfCode(c) && IsEntry(c, pc) && |R| == MAX_SLOTS && AllPending(c, L)
    requires pc < |c| && IsTest(c[pc])
    ensures Exec(DropVal(c, L), pc, R) == Exec(c, pc, R)
    decreases |c| - pc, 0
  {
    var p := DropVal(c, L);
    assert WfAt(c, pc) && WfAt(c, pc + 1);
    assert p[pc + 1] == c[pc + 1];
    assert pc + 1 in L ==> IsPending(c, pc + 1);
    assert TestResult(p[pc], R) == TestResult(c[pc], R);
    var b := TestResult(c[pc], R);
    if b == Some(false) {
      DropValRun(c, L, pc + 2, R);
    } else if b == Some(true) {
      var S := TestRegs(c[pc], R);
      assert TestRegs(p[pc], R) == S;
      if c[pc + 1].t.To? && c[pc + 1].t.pos > pc + 1 {
        DropValRun(c, L, c[pc + 1].t.pos, S);
      }
    }
  }

  /** The expression with its lists swapped and their values dropped. */
  function Swapped(e: Exp): Exp {
    Discharge(Exp(e.k, e.f, e.t))
  }

  function Dropped(s: FS, e: Exp): FS {
    s.(code := DropVal(DropVal(s.code, e.f), e.t))
  }

  lemma DroppedWf(s: FS, e0: Exp)
    requires Good(s, e0)
    ensures var e := Swapped(e0);
            var s' := Dropped(s, e);
            && Good(s', e) && Evolves(s, e0, s', e) && BaseReg(s', e) == BaseReg(s, e0)
            && (forall j :: j in e.t + e.f ==> !Carries(s'.code, j))
            && (e.k.KReloc? ==> s'.code[e.k.pc] == s.code[e.k.pc])
            && SameCode(s.(code := s'.code), s') && s'.free == s.free
  {
    hide WfCode, NoEndTarget;
    var e := Swapped(e0);
    var m := s.(code := DropVal(s.code, e.f));
    DropValWf(s, e.f);
    assert AllPending(m.code, e.t);
    DropValWf(m, e.t);
    var s' := Dropped(s, e);
    KeepsTrans(s, e.f, m, e.t, s');
    KeepsMore(s, e.f + e.t, s', Owns(s, e0));
    KeepsEvolves(s, e0, s', e);
    forall j | j in e.t + e.f
      ensures !Carries(s'.code, j)
    {
      assert IsPending(s.code, j);
    }
    if e.k.KJmp? {
      assert IsPending(s.code, e.k.pc);
    }
    if e.k.KReloc? {
      assert !IsPending(s.code, |s.code|);
    }
  }

  /** Outcomes after the swap: ends still hold the operand's value, exits already
      belong to the negation. */
  predicate MeetsNot(s: FS, e: Exp, o: Outcome, x: Expect, P: set<nat>) {
    match x
    case Gets(R0, v) =>
      && |R0| == MAX_SLOTS
      && (o.Done? || o.Exit?) && Same(R0, o.regs, P)
      && (o.Done? ==> Holds(s, e, o.regs, v))
      && (o.Exit? ==>
            || (o.j in e.t && !Truthy(v))
            || (o.j in e.f && Truthy(v))
            || (e.k == KJmp(o.j) && v == True))
    case Passes(p) => o == p && !p.Done? && (p.Exit? ==> p.j !in Owns(s, e))
  }

  lemma DroppedRun(s: FS, e0: Exp, q: nat, R: Regs)
    requires Good(s, e0) && Start(s, q) && |R| == MAX_SLOTS
    ensures var e := Swapped(e0);
            var s' := Dropped(s, e);
            q <= |s'.code| && RunE(s', e, q, R) == RunE(s, e0, q, R)
  {
    var e := Swapped(e0);
    var s' := Dropped(s, e);
    if e.k.KReloc? {
      DroppedWf(s, e0);
      var n := |s.code| - 1;
      LastRun(s, Alu(s.code[n].f, NO_REG), q, R);
      LastRun(s', Alu(s.code[n].f, NO_REG), q, R);
      DropFront(s, e, q, R);
    } else {
      DropValWf(s, e.f);
      DropValRun(s.code, e.f, q, R);
      DropValRun(DropVal(s.code, e.f), e.t, q, R);
    }
  }

  lemma DroppedOk(s: FS, e0: Exp, q: nat, R: Regs, x: Expect, P: set<nat>)
    requires Good(s, e0) && Start(s, q) && Delivers(s, e0, q, R, x, P)
    ensures var e := Swapped(e0);
            var s' := Dropped(s, e);
            q <= |s'.code| && MeetsNot(s', e, RunE(s', e, q, R), x, P)
  {
    DroppedRun(s, e0, q, R);
    assert Swapped(e0).k.KReloc? ==> Dropped(s, Swapped(e0)).code[e0.k.pc] == s.code[e0.k.pc] by {
      DroppedWf(s, e0);
    }
  }

  lemma DropValFront(c: Code, L: set<nat>, n: nat)
    requires n <= |c|
    ensures DropVal(c[..n], L) == DropVal(c, L)[..n]
  {
  }

  lemma DropFront(s: FS, e: Exp, q: nat, R: Regs)
    requires Wf(s) && AllPending(s.code, e.t) && AllPending(s.code, e.f) && e.k.KReloc? && WfKind(s, e.k)
    requires Start(s, q) && |R| == MAX_SLOTS
    ensures var n := |s.code| - 1;
            q <= n && Exec(Dropped(s, e).code[..n], q, R) == Exec(s.code[..n], q, R)
  {
    var n := |s.code| - 1;
    var m := s.(code := DropVal(s.code, e.f));
    DropValWf(s, e.f);
    DropFrontStep(s, e.f, q, R);
    assert m.code[n] == s.code[n] by { assert !IsPending(s.code, |s.code|); }
    DropFrontStep(m, e.t, q, R);
  }

  lemma DropFrontStep(s: FS, L: set<nat>, q: nat, R: Regs)
    requires Wf(s) && s.last < |s.code| && s.code[|s.code| - 1].Alu? && AllPending(s.code, L)
    requires Start(s, q) && |R| == MAX_SLOTS
    ensures var n := |s.code| - 1;
            q <= n && Exec(DropVal(s.code, L)[..n], q, R) == Exec(s.code[..n], q, R)
  {
    var n := |s.code| - 1;
    var c := s.code[..n];
    FrontWf(s);
    forall j | j in L
      ensures IsPending(c, j)
    {
      assert IsPending(s.code, j);
    }
    DropValFront(s.code, L, n);
    DropValRun(c, L, q, R);
  }

  // -- Emitting a relocatable instruction ---------------------------------------------------------

  function AluExp(s: FS, t: set<nat>, f: set<nat>): Exp {
    Exp(KReloc(s.Pc()), t, f)
  }

  lemma EmitAluWf(s: FS, fn: AluFn, t: set<nat>, f: set<nat>)
    requires Good(s, Lists(t, f))
    ensures var s' := Emit(s, Alu(fn, 0));
            var e' := AluExp(s, t, f);
            && Good(s', e') && Evolves(s, Lists(t, f), s', e') && BaseReg(s', e') == s.free
            && s'.code[|s.code|] == Alu(fn, 0) && Keeps(s, s.jpc, s')
  {
    var s' := Emit(s, Alu(fn, 0));
    EmitIsExt(s, Alu(fn, 0));
    ExtWf(s, [Alu(fn, 0)], s.last);
    KeptPending(s, s.jpc, s', t);
    KeptPending(s, s.jpc, s', f);
    KeepsEvolves(s, Lists(t, f), s', AluExp(s, t, f));
  }

  lemma EmitAluRun(s: FS, fn: AluFn, t: set<nat>, f: set<nat>, q: nat, R: Regs)
    requires Good(s, Lists(t, f)) && Start(s, q) && |R| == MAX_SLOTS
    ensures var s' := Emit(s, Alu(fn, 0));
            var o := Run(s, q, R);
            && q <= |s'.code|
            && RunE(s', AluExp(s, t, f), q, R) ==
               if o.Done? && AluVal(fn, o.regs).None? then Fail else o
  {
    var s' := Emit(s, Alu(fn, 0));
    var n := Emit(s, Alu(fn, NO_REG));
    assert SetResult(s'.code, |s.code|, NO_REG) == n.code;
    EmitRun(s, Alu(fn, NO_REG), q, R);
  }

  // -- bcemit_unop -------------------------------------------------------------------------------------

  function NotExpect(x: Expect): Expect {
    match x
    case Gets(R0, v) => Gets(R0, Bool(!Truthy(v)))
    case Passes(_) => x
  }

  /** What EmitNot still needs to know about its exits. */
  ghost predicate NoCarry(s: FS, e: Exp) {
    forall j :: j in e.t + e.f ==> !Carries(s.code, j)
  }

  lemma NotConstOk(s: FS, e: Exp, q: nat, R: Regs, x: Expect, P: set<nat>)
    requires Good(s, e) && e.k.KConst? && NoCarry(s, e) && q <= |s.code| && |R| == MAX_SLOTS
    requires MeetsNot(s, e, RunE(s, e, q, R), x, P)
    ensures var e' := e.(k := KConst(Bool(!Truthy(e.k.k))));
            Good(s, e') && Evolves(s, e, s, e') && Delivers(s, e', q, R, NotExpect(x), P)
  {
  }

  lemma NotJmpOk(s: FS, e: Exp, q: nat, R: Regs, x: Expect, P: set<nat>)
    requires Good(s, e) && e.k.KJmp? && NoCarry(s, e) && Start(s, q) && |R| == MAX_SLOTS
    requires MeetsNot(s, e, RunE(s, e, q, R), x, P)
    ensures var s' := InvertCond(s, e.k.pc);
            Good(s', e) && Evolves(s, e, s', e) && Delivers(s', e, q, R, NotExpect(x), P) && s'.free == s.free
  {
    hide Exec, Take, Patch;
    var s' := InvertCond(s, e.k.pc);
    assert IsPending(s.code, e.k.pc);
    InvertWf(s);
    InvertRun(s, q, R);
    KeptPending(s, {e.k.pc}, s', e.t);
    KeptPending(s, {e.k.pc}, s', e.f);
    KeepsMore(s, {e.k.pc}, s', Owns(s, e));
    KeepsEvolves(s, e, s', e);
    forall j | j in e.t + e.f
      ensures !Carries(s'.code, j)
    {
      assert IsPending(s.code, j) && Kept(s.code, s'.code, j);
    }
  }

  lemma NotRegOk(s: FS, e: Exp, q: nat, R: Regs, x: Expect, P: set<nat>)
    requires Good(s, e) && e.k.KReg? && NoCarry(s, e) && Start(s, q) && |R| == MAX_SLOTS
    requires MeetsNot(s, e, RunE(s, e, q, R), x, P)
    ensures var (s', e') := EmitUnary(s, e, Not(e.k.r)).value;
            && Good(s', e') && Evolves(s, e, s', e') && BaseReg(s', e') == BaseReg(s, e)
            && Delivers(s', e', q, R, NotExpect(x), P)
  {
    hide Exec, Take, Patch;
    var fn := Not(e.k.r);
    var s1 := FreeExp(s, e);
    var (s', e') := EmitUnary(s, e, fn).value;
    RecountOk(s, Lists(e.t, e.f), s1);
    EmitAluWf(s1, fn, e.t, e.f);
    EmitAluRun(s1, fn, e.t, e.f, q, R);
    EvolvesTrans(s, Lists(e.t, e.f), s1, Lists(e.t, e.f), s', e');
    forall j | j in e.t + e.f
      ensures !Carries(s'.code, j)
    {
      assert IsPending(s1.code, j) && Kept(s1.code, s'.code, j);
    }
  }

  lemma NotRelocOk(s: FS, e: Exp, q: nat, R: Regs, x: Expect, P: set<nat>)
    requires Good(s, e) && e.k.KReloc? && NoCarry(s, e) && Start(s, q) && |R| == MAX_SLOTS
    requires MeetsNot(s, e, RunE(s, e, q, R), x, P) && s.free !in P && Reserve(s, 1).Some?
    ensures var s1 := Reserve(s, 1).value;
            var s2 := s1.(code := SetResult(s1.code, e.k.pc, s.free));
            var e2 := e.(k := KReg(s.free));
            && Good(s2, e2) && NoCarry(s2, e2) && Evolves(s, e, s2, e2) && BaseReg(s2, e2) == BaseReg(s, e)
            && Start(s2, q) && MeetsNot(s2, e2, RunE(s2, e2, q, R), x, P)
  {
    var s1 := Reserve(s, 1).value;
    NextRegState(s, e);
    RecountOk(s, e, s1);
    ToRegNoBranchWf(s1, e, s.free);
    RelocRun(s1, e, s.free, q, R);
    var (s2, e2) := ToRegNoBranch(s1, e, s.free);
    EvolvesTrans(s, e, s1, e, s2, e2);
    forall j | j in e.t + e.f
      ensures !Carries(s2.code, j)
    {
      assert IsPending(s1.code, j) && Kept(s1.code, s2.code, j);
    }
  }

  /** Negation: the emitted code delivers the negated value. */
  lemma EmitNotOk(s: FS, e: Exp, q: nat, R: Regs, x: Expect, P: set<nat>)
    requires Good(s, e) && EmitNot(s, e).Some? && BaseReg(s, e) !in P
    requires Start(s, q) && Delivers(s, e, q, R, x, P)
    ensures var (s', e') := EmitNot(s, e).value;
            && Good(s', e') && Evolves(s, e, s', e') && BaseReg(s', e') == BaseReg(s, e)
            && Delivers(s', e', q, R, NotExpect(x), P)
  {
    var d := Swapped(e);
    var s1 := Dropped(s, d);
    DroppedWf(s, e);
    DroppedOk(s, e, q, R, x, P);
    var (s', e') := EmitNot(s, e).value;
    match d.k {
      case KConst(_) =>
        NotConstOk(s1, d, q, R, x, P);
        EvolvesTrans(s, e, s1, d, s', e');
      case KJmp(_) =>
        NotJmpOk(s1, d, q, R, x, P);
        EvolvesTrans(s, e, s1, d, s', e');
      case KReg(_) =>
        NotRegOk(s1, d, q, R, x, P);
        EvolvesTrans(s, e, s1, d, s', e');
      case KReloc(p) =>
        NotRelocOk(s1, d, q, R, x, P);
        var s2 := Reserve(s1, 1).value;
        var s3 := s2.(code := SetResult(s2.code, p, s1.free));
        var d3 := d.(k := KReg(s1.free));
        NotRegOk(s3, d3, q, R, x, P);
        EvolvesTrans(s, e, s1, d, s3, d3);
        EvolvesTrans(s, e, s3, d3, s', e');
      case KLocal(_) =>
    }
  }

  /** An operation applied to operand values. */
  function Lift(R0: Regs, r: Option<Val>): Expect {
    if r.Some? then Gets(R0, r.value) else Passes(Fail)
  }

  /** Nothing is pending, and runs reach the end with registers that agree with x. */
  predicate Reaches(s: FS, q: nat, R: Regs, x: Expect, P: set<nat>) {
    && q <= |s.code| && |R| == MAX_SLOTS
    && var o := Run(s, q, R);
       match x
       case Gets(R0, _) => |R0| == MAX_SLOTS && o.Done? && Same(R0, o.regs, P)
       case Passes(p) => o == p && !p.Done? && (p.Exit? ==> p.j !in s.jpc)
  }

  /** A relocatable instruction over registers that hold its operands. */
  lemma EmitAluOk(s: FS, fn: AluFn, q: nat, R: Regs, x: Expect, P: set<nat>)
    requires Wf(s) && Start(s, q) && Reaches(s, q, R, x, P)
    ensures var s' := Emit(s, Alu(fn, 0));
            var e' := AluExp(s, {}, {});
            && Good(s', e') && Evolves(s, Lists({}, {}), s', e') && BaseReg(s', e') == s.free
            && Delivers(s', e', q, R, if x.Gets? then Lift(x.R0, AluVal(fn, Run(s, q, R).regs)) else x, P)
  {
    EmitAluWf(s, fn, {}, {});
    EmitAluRun(s, fn, {}, {}, q, R);
  }

  /** A test over registers that hold its operands. */
  lemma EmitTestOk(s: FS, i: Ins, q: nat, R: Regs, x: Expect, P: set<nat>)
    requires Wf(s) && Start(s, q) && Reaches(s, q, R, x, P) && (i.Cmp? || i.EqV? || i.EqK?)
    ensures var (s', e') := EmitTest(s, i);
            && Good(s', e') && Evolves(s, Lists({}, {}), s', e') && BaseReg(s', e') == s.free
            && Delivers(s', e', q, R, if x.Gets? then Lift(x.R0, BoolOf(TestResult(i, Run(s, q, R).regs))) else x, P)
  {
    var (s', e') := EmitTest(s, i);
    EmitTestIsExt(s, i);
    EmitTestWf(s, i);
    EmitTestRun(s, i, q, R);
    KeepsEvolves(s, Lists({}, {}), s', e');
  }

  function BoolOf(b: Option<bool>): Option<Val> {
    if b.Some? then Some(Bool(b.value)) else None
  }

  const NOTHING: Exp := Lists({}, {})

  /** An expression without jumps owns nothing. */
  lemma PlainEvolves(s: FS, e: Exp, s1: FS, e1: Exp, s2: FS)
    requires Evolves(s, e, s1, e1) && !e1.HasJump() && !e1.k.KJmp? && SameCode(s1, s2)
    ensures Evolves(s, e, s2, NOTHING)
  {
    assert Owns(s1, e1) == Owns(s1, NOTHING) == Owns(s2, NOTHING);
  }

  lemma NegRegOk(s: FS, e: Exp, q: nat, R: Regs, x: Expect, P: set<nat>)
    requires Good(s, e) && InReg(e) && Start(s, q) && Delivers(s, e, q, R, x, P)
    ensures var (s', e') := EmitUnary(s, e, Unm(e.k.r)).value;
            && Good(s', e') && Evolves(s, e, s', e') && BaseReg(s', e') == BaseReg(s, e)
            && Delivers(s', e', q, R, if x.Gets? then Lift(x.R0, NegVal(x.v)) else x, P)
  {
    hide Exec, Take, Patch;
    var s1 := FreeExp(s, e);
    RecountOk(s, e, s1);
    EmitAluOk(s1, Unm(e.k.r), q, R, x, P);
    PlainEvolves(s, e, s, e, s1);
    var (s', e') := EmitUnary(s, e, Unm(e.k.r)).value;
    EvolvesTrans(s, e, s1, NOTHING, s', e');
  }

  lemma EmitNegOk(s: FS, e: Exp, q: nat, R: Regs, x: Expect, P: set<nat>)
    requires Good(s, e) && EmitNeg(s, e).Some? && BaseReg(s, e) !in P
    requires Start(s, q) && Delivers(s, e, q, R, x, P)
    ensures var (s', e') := EmitNeg(s, e).value;
            && Good(s', e') && Evolves(s, e, s', e') && BaseReg(s', e') == BaseReg(s, e)
            && Delivers(s', e', q, R, if x.Gets? then Lift(x.R0, NegVal(x.v)) else x, P)
  {
    if !(e.IsNumK() && !e.HasJump() && e.k.k.n != 0) {
      var (s1, e1) := ToAnyReg(s, e).value;
      ToAnyRegWf(s, e);
      ToAnyRegOk(s, e, q, R, x, P);
      NegRegOk(s1, e1, q, R, x, P);
      var (s', e') := EmitNeg(s, e).value;
      EvolvesTrans(s, e, s1, e1, s', e');
    }
  }

  function NegVal(v: Val): Option<Val> {
    if v.Num? then Some(Num(Wrap64(-v.n))) else None
  }

  // -- Two operands ---------------------------------------------------------------------------------

  /** In a register or constant, without jumps. */
  predicate Operand(e: Exp) {
    !e.HasJump() && (e.k.KReg? || e.k.KConst?)
  }

  function OpVal(e: Exp, R: Regs): Val {
    if e.k.KConst? then e.k.k else Read(R, RegOf(e))
  }

  function RegSet(e: Exp): set<nat> {
    if e.k.KReg? then {e.k.r} else {}
  }

  /** Number of temporary registers taken by an operand. */
  function Temps(nact: nat, e: Exp): nat {
    if e.k.KReg? && e.k.r >= nact then 1 else 0
  }

  /** The left operand is done and the right one under construction: e2 delivers
      x while the register of e1 is protected; B is the first register of the pair. */
  ghost predicate BinReady(s: FS, e1: Exp, e2: Exp, q: nat, R: Regs, x: Expect, v1: Val, P: set<nat>, B: nat) {
    && Good(s, e2) && Operand(e1) && Start(s, q)
    && Delivers(s, e2, q, R, x, P + RegSet(e1))
    && (x.Gets? ==> OpVal(e1, x.R0) == v1)
    && s.nact <= B && (forall i :: i in P ==> i < B)
    && (e1.k.KReg? ==> if e1.k.r >= s.nact then e1.k.r == B else e1.k.r < B)
    && BaseReg(s, e2) == B + Temps(s.nact, e1)
  }

  /** Both operands are at hand. */
  ghost predicate Pair(s: FS, e1: Exp, e2: Exp, q: nat, R: Regs, x: Expect, v1: Val, P: set<nat>, B: nat) {
    && Wf(s) && Operand(e1) && Operand(e2) && Start(s, q) && Reaches(s, q, R, x, P)
    && (x.Gets? ==> OpVal(e1, Run(s, q, R).regs) == v1 && OpVal(e2, Run(s, q, R).regs) == x.v)
    && s.nact <= B && s.free == B + Temps(s.nact, e1) + Temps(s.nact, e2)
  }

  lemma RightToAnyReg(s: FS, e1: Exp, e2: Exp, q: nat, R: Regs, x: Expect, v1: Val, P: set<nat>, B: nat)
    requires BinReady(s, e1, e2, q, R, x, v1, P, B) && ToAnyReg(s, e2).Some?
    ensures var (s', y) := ToAnyReg(s, e2).value;
            BinReady(s', e1, y, q, R, x, v1, P, B) && InReg(y) && Evolves(s, e2, s', y)
  {
    ToAnyRegWf(s, e2);
    ToAnyRegOk(s, e2, q, R, x, P + RegSet(e1));
  }

  lemma RightToVal(s: FS, e1: Exp, e2: Exp, q: nat, R: Regs, x: Expect, v1: Val, P: set<nat>, B: nat)
    requires BinReady(s, e1, e2, q, R, x, v1, P, B) && ToVal(s, e2).Some?
    ensures var (s', y) := ToVal(s, e2).value;
            && BinReady(s', e1, y, q, R, x, v1, P, B) && Evolves(s, e2, s', y)
            && !y.HasJump() && !y.k.KLocal?
  {
    ToValWf(s, e2);
    ToValOk(s, e2, q, R, x, P + RegSet(e1));
  }

  lemma PairOf(s: FS, e1: Exp, y: Exp, q: nat, R: Regs, x: Expect, v1: Val, P: set<nat>, B: nat)
    requires BinReady(s, e1, y, q, R, x, v1, P, B) && Operand(y)
    ensures Pair(s, e1, y, q, R, x, v1, P, B)
  {
    if x.Gets? {
      var S := Run(s, q, R).regs;
      assert Same(x.R0, S, P + RegSet(e1));
      assert e1.k.KReg? ==> Read(S, e1.k.r) == Read(x.R0, e1.k.r);
    }
  }

  /** Load a constant left operand after the right one. */
  lemma LoadLeft(s: FS, e1: Exp, y: Exp, q: nat, R: Regs, x: Expect, v1: Val, P: set<nat>, B: nat)
    requires Pair(s, e1, y, q, R, x, v1, P, B) && e1.k.KConst? && ToAnyReg(s, e1).Some?
    requires (forall i :: i in P ==> i < B) && (y.k.KReg? ==> y.k.r < s.free)
    ensures var (s', l) := ToAnyReg(s, e1).value;
            && Pair(s', l, y, q, R, x, v1, P, B) && InReg(l) && Evolves(s, y, s', l)
  {
    hide ToAnyReg, Exec, WfCode, NoEndTarget;
    var (s', l) := ToAnyReg(s, e1).value;
    var Q := P + RegSet(y);
    var S := if x.Gets? then Gets(Run(s, q, R).regs, v1) else x;
    assert Good(s, e1);
    assert Delivers(s, e1, q, R, S, Q);
    assert BaseReg(s, e1) == s.free && s.free !in Q;
    ToAnyRegWf(s, e1);
    ToAnyRegOk(s, e1, q, R, S, Q);
    assert Owns(s, y) == Owns(s, e1);
    if x.Gets? {
      var T := Run(s', q, R).regs;
      assert Same(S.R0, T, Q);
      assert y.k.KReg? ==> Read(T, y.k.r) == Read(S.R0, y.k.r);
    }
  }

  lemma FreePair(s: FS, e1: Exp, y: Exp, q: nat, R: Regs, x: Expect, v1: Val, P: set<nat>, B: nat)
    requires Pair(s, e1, y, q, R, x, v1, P, B)
    ensures var s' := FreeOperands(s, e1, y);
            && Wf(s') && s'.free == B && SameCode(s, s') && Start(s', q) && Reaches(s', q, R, x, P)
    ensures FreeOperands(s, y, e1).free == B
  {
  }

  /** Value of a strict binary operator; None is a type error. */
  function BinVal(op: BinOp, v1: Val, v2: Val): Option<Val> {
    match op
    case OpArith(a) => ArithVal(a, v1, v2)
    case OpEq(ne) => Some(Bool((v1 == v2) != ne))
    case OpOrd(c) => if v1.Num? && v2.Num? then Some(Bool(Compare(c, v1.n, v2.n))) else None
    case OpAnd => Some(if Truthy(v1) then v2 else v1)
    case OpOr => Some(if Truthy(v1) then v1 else v2)
  }

  function BinExpect(op: BinOp, v1: Val, x: Expect): Expect {
    if x.Gets? then Lift(x.R0, BinVal(op, v1, x.v)) else x
  }

  /** The result of a binary operator built on pair e1, e2. */
  ghost predicate BinDone(s: FS, e2: Exp, r: (FS, Exp), q: nat, R: Regs, x: Expect, P: set<nat>, B: nat) {
    var (s', e') := r;
    Good(s', e') && Evolves(s, e2, s', e') && BaseReg(s', e') == B && Delivers(s', e', q, R, x, P)
  }

  // -- bcemit_arith ------------------------------------------------------------------------------------

  lemma ArithFinish(s: FS, e1: Exp, y: Exp, op: ArithOp, fn: AluFn, q: nat, R: Regs, x: Expect, v1: Val,
                    P: set<nat>, B: nat)
    requires Pair(s, e1, y, q, R, x, v1, P, B)
    requires x.Gets? ==> AluVal(fn, Run(s, q, R).regs) == ArithVal(op, v1, x.v)
    ensures var s1 := FreeOperands(s, e1, y);
            BinDone(s, NOTHING, (Emit(s1, Alu(fn, 0)), e1.(k := KReloc(s1.Pc()))), q, R,
                    BinExpect(OpArith(op), v1, x), P, B)
  {
    var s1 := FreeOperands(s, e1, y);
    FreePair(s, e1, y, q, R, x, v1, P, B);
    EmitAluOk(s1, fn, q, R, x, P);
    PlainEvolves(s, NOTHING, s, NOTHING, s1);
    EvolvesTrans(s, NOTHING, s1, NOTHING, Emit(s1, Alu(fn, 0)), AluExp(s1, {}, {}));
  }

  /** Constant pool changes do not matter. */
  lemma PoolOk(s: FS, n: int)
    ensures SameCode(s, ConstNum(s, n).0) && ConstNum(s, n).0.free == s.free && ConstNum(s, n).0.frame == s.frame
  {
  }

  lemma PoolReady(s: FS, n: int, e1: Exp, e2: Exp, q: nat, R: Regs, x: Expect, v1: Val, P: set<nat>, B: nat)
    requires BinReady(s, e1, e2, q, R, x, v1, P, B)
    ensures var s' := ConstNum(s, n).0;
            BinReady(s', e1, e2, q, R, x, v1, P, B) && Evolves(s, e2, s', e2)
  {
    var s' := ConstNum(s, n).0;
    PoolOk(s, n);
    RecountOk(s, e2, s');
  }

  /** Right operand: a pool constant or a register. */
  function ArithRight(s: FS, e2: Exp): Option<(FS, Exp)> {
    var (s1, y) :- ToVal(s, e2);
    var (s2, yi) := if y.IsNumK() then ConstNum(s1, y.k.k.n) else (s1, 0);
    if y.IsNumK() && yi <= MAX_C then Some((s2, y)) else ToAnyReg(s2, y)
  }

  lemma ArithRightOk(s: FS, e1: Exp, e2: Exp, q: nat, R: Regs, x: Expect, v1: Val, P: set<nat>, B: nat)
    requires BinReady(s, e1, e2, q, R, x, v1, P, B) && ArithRight(s, e2).Some?
    ensures var (s', y) := ArithRight(s, e2).value;
            BinReady(s', e1, y, q, R, x, v1, P, B) && Evolves(s, e2, s', y) &&
                (InReg(y) || (y.IsNumK() && !y.HasJump()))
  {
    var (s1, y) := ToVal(s, e2).value;
    RightToVal(s, e1, e2, q, R, x, v1, P, B);
    var (s2, yi) := if y.IsNumK() then ConstNum(s1, y.k.k.n) else (s1, 0);
    if y.IsNumK() {
      PoolReady(s1, y.k.k.n, e1, y, q, R, x, v1, P, B);
      EvolvesTrans(s, e2, s1, y, s2, y);
    }
    if !(y.IsNumK() && yi <= MAX_C) {
      RightToAnyReg(s2, e1, y, q, R, x, v1, P, B);
      var (s', y1) := ToAnyReg(s2, y).value;
      EvolvesTrans(s, e2, s2, y, s', y1);
    }
  }

  lemma EmitArithIs(s: FS, op: ArithOp, e1: Exp, e2: Exp)
    requires Operand(e1) && (e1.k.KConst? ==> e1.IsNumK()) && !(e1.IsNumK() && e2.IsNumK() && !e2.HasJump())
    requires EmitArith(s, op, e1, e2).Some?
    ensures ArithRight(s, e2).Some?
    ensures var (s1, y) := ArithRight(s, e2).value;
            var r := EmitArith(s, op, e1, e2).value;
            if InReg(e1) then
              var fn := if y.IsNumK() then ArithVN(op, RegOf(e1), y.k.k.n) else ArithVV(op, RegOf(e1), RegOf(y));
              var s2 := FreeOperands(s1, e1, y);
              r == (Emit(s2, Alu(fn, 0)), e1.(k := KReloc(s2.Pc())))
            else
              && !y.IsNumK()
              && var s2 := ConstNum(s1, e1.k.k.n).0;
              if ConstNum(s1, e1.k.k.n).1 <= MAX_C then
                var s3 := FreeOperands(s2, e1, y);
                r == (Emit(s3, Alu(ArithNV(op, RegOf(y), e1.k.k.n), 0)), e1.(k := KReloc(s3.Pc())))
              else
                && ToAnyReg(s2, e1).Some?
                && var (s3, l) := ToAnyReg(s2, e1).value;
                   var s4 := FreeOperands(s3, l, y);
                   r == (Emit(s4, Alu(ArithVV(op, RegOf(l), RegOf(y)), 0)), l.(k := KReloc(s4.Pc())))
  {
  }

  lemma EmitArithOk(s: FS, op: ArithOp, e1: Exp, e2: Exp, q: nat, R: Regs, x: Expect, v1: Val, P: set<nat>, B: nat)
    requires BinReady(s, e1, e2, q, R, x, v1, P, B) && (e1.k.KConst? ==> e1.IsNumK())
    requires EmitArith(s, op, e1, e2).Some?
    ensures BinDone(s, e2, EmitArith(s, op, e1, e2).value, q, R, BinExpect(OpArith(op), v1, x), P, B)
  {
    hide Exec, Take, Patch, SettleAll;
    var r := EmitArith(s, op, e1, e2).value;
    if e1.IsNumK() && e2.IsNumK() && !e2.HasJump() {
      assert Owns(s, r.1) == Owns(s, e2);
    } else {
      EmitArithIs(s, op, e1, e2);
      var (s1, y) := ArithRight(s, e2).value;
      ArithRightOk(s, e1, e2, q, R, x, v1, P, B);
      PairOf(s1, e1, y, q, R, x, v1, P, B);
      PlainEvolves(s, e2, s1, y, s1);
      if InReg(e1) {
        var fn := if y.IsNumK() then ArithVN(op, RegOf(e1), y.k.k.n) else ArithVV(op, RegOf(e1), RegOf(y));
        ArithFinish(s1, e1, y, op, fn, q, R, x, v1, P, B);
        EvolvesTrans(s, e2, s1, NOTHING, r.0, r.1);
      } else {
        ArithConstLeft(s1, op, e1, y, q, R, x, v1, P, B);
        EvolvesTrans(s, e2, s1, NOTHING, r.0, r.1);
      }
    }
  }

  lemma ArithConstLeft(s: FS, op: ArithOp, e1: Exp, y: Exp, q: nat, R: Regs, x: Expect, v1: Val, P: set<nat>, B: nat)
    requires BinReady(s, e1, y, q, R, x, v1, P, B) && e1.IsNumK() && InReg(y)
    ensures var s2 := ConstNum(s, e1.k.k.n).0;
            if ConstNum(s, e1.k.k.n).1 <= MAX_C then
              var s3 := FreeOperands(s2, e1, y);
              BinDone(s, NOTHING, (Emit(s3, Alu(ArithNV(op, RegOf(y), e1.k.k.n), 0)), e1.(k := KReloc(s3.Pc()))),
                      q, R, BinExpect(OpArith(op), v1, x), P, B)
            else ToAnyReg(s2, e1).Some? ==>
              var (s3, l) := ToAnyReg(s2, e1).value;
              var s4 := FreeOperands(s3, l, y);
              BinDone(s, NOTHING, (Emit(s4, Alu(ArithVV(op, RegOf(l), RegOf(y)), 0)), l.(k := KReloc(s4.Pc()))),
                      q, R, BinExpect(OpArith(op), v1, x), P, B)
  {
    hide Exec, Take, Patch;
    var s2 := ConstNum(s, e1.k.k.n).0;
    PoolReady(s, e1.k.k.n, e1, y, q, R, x, v1, P, B);
    PairOf(s2, e1, y, q, R, x, v1, P, B);
    PlainEvolves(s, NOTHING, s, NOTHING, s2);
    if ConstNum(s, e1.k.k.n).1 <= MAX_C {
      var fn := ArithNV(op, RegOf(y), e1.k.k.n);
      ArithFinish(s2, e1, y, op, fn, q, R, x, v1, P, B);
      var s3 := FreeOperands(s2, e1, y);
      EvolvesTrans(s, NOTHING, s2, NOTHING, Emit(s3, Alu(fn, 0)), e1.(k := KReloc(s3.Pc())));
    } else if ToAnyReg(s2, e1).Some? {
      var (s3, l) := ToAnyReg(s2, e1).value;
      LoadLeft(s2, e1, y, q, R, x, v1, P, B);
      assert Owns(s2, y) == Owns(s2, NOTHING);
      EvolvesTrans(s, NOTHING, s2, NOTHING, s3, l);
      PlainEvolves(s, NOTHING, s3, l, s3);
      var fn := ArithVV(op, RegOf(l), RegOf(y));
      ArithFinish(s3, l, y, op, fn, q, R, x, v1, P, B);
      var s4 := FreeOperands(s3, l, y);
      EvolvesTrans(s, NOTHING, s3, NOTHING, Emit(s4, Alu(fn, 0)), l.(k := KReloc(s4.Pc())));
    }
  }

  // -- bcemit_comp: equality ---------------------------------------------------------------------------

  lemma TestFinish(s: FS, e1: Exp, y: Exp, op: BinOp, i: Ins, q: nat, R: Regs, x: Expect, v1: Val, P: set<nat>, B: nat)
    requires Pair(s, e1, y, q, R, x, v1, P, B) && (i.Cmp? || i.EqV? || i.EqK?)
    requires x.Gets? ==> BoolOf(TestResult(i, Run(s, q, R).regs)) == BinVal(op, v1, x.v)
    ensures BinDone(s, NOTHING, EmitTest(FreeOperands(s, e1, y), i), q, R, BinExpect(op, v1, x), P, B)
    ensures BinDone(s, NOTHING, EmitTest(FreeOperands(s, y, e1), i), q, R, BinExpect(op, v1, x), P, B)
  {
    var s1 := FreeOperands(s, e1, y);
    FreePair(s, e1, y, q, R, x, v1, P, B);
    assert FreeOperands(s, y, e1) == s1;
    EmitTestOk(s1, i, q, R, x, P);
    PlainEvolves(s, NOTHING, s, NOTHING, s1);
    var (s', e') := EmitTest(s1, i);
    EvolvesTrans(s, NOTHING, s1, NOTHING, s', e');
  }

  lemma EmitEqOk(s: FS, ne: bool, e1: Exp, e2: Exp, q: nat, R: Regs, x: Expect, v1: Val, P: set<nat>, B: nat)
    requires BinReady(s, e1, e2, q, R, x, v1, P, B) && EmitEq(s, ne, e1, e2).Some?
    ensures BinDone(s, e2, EmitEq(s, ne, e1, e2).value, q, R, BinExpect(OpEq(ne), v1, x), P, B)
  {
    assert ToVal(s, e1) == Some((s, e1));
    if e1.IsConst() {
      EqConstLeft(s, ne, e1, e2, q, R, x, v1, P, B);
    } else {
      EqRegLeft(s, ne, e1, e2, q, R, x, v1, P, B);
    }
  }

  lemma EqConstLeft(s: FS, ne: bool, e1: Exp, e2: Exp, q: nat, R: Regs, x: Expect, v1: Val, P: set<nat>, B: nat)
    requires BinReady(s, e1, e2, q, R, x, v1, P, B) && e1.IsConst() && EmitEq(s, ne, e1, e2).Some?
    ensures BinDone(s, e2, EmitEq(s, ne, e1, e2).value, q, R, BinExpect(OpEq(ne), v1, x), P, B)
  {
    hide Evolves, Delivers, Good, Wf, EmitTest, Exec, Take, Patch, SettleAll, ConstNum;
    var (s1, y) := ToAnyReg(s, e2).value;
    RightToAnyReg(s, e1, e2, q, R, x, v1, P, B);
    var s2 := if e1.IsNumK() then ConstNum(s1, e1.k.k.n).0 else s1;
    if e1.IsNumK() {
      PoolReady(s1, e1.k.k.n, e1, y, q, R, x, v1, P, B);
      EvolvesTrans(s, e2, s1, y, s2, y);
    }
    PairOf(s2, e1, y, q, R, x, v1, P, B);
    PlainEvolves(s, e2, s2, y, s2);
    TestFinish(s2, e1, y, OpEq(ne), EqK(ne, RegOf(y), e1.k.k), q, R, x, v1, P, B);
    var r := EmitEq(s, ne, e1, e2).value;
    EvolvesTrans(s, e2, s2, NOTHING, r.0, r.1);
  }

  lemma EqRegLeft(s: FS, ne: bool, e1: Exp, e2: Exp, q: nat, R: Regs, x: Expect, v1: Val, P: set<nat>, B: nat)
    requires BinReady(s, e1, e2, q, R, x, v1, P, B) && InReg(e1) && EmitEq(s, ne, e1, e2).Some?
    ensures BinDone(s, e2, EmitEq(s, ne, e1, e2).value, q, R, BinExpect(OpEq(ne), v1, x), P, B)
  {
    hide Evolves, Delivers, Good, Wf, EmitTest, Exec, Take, Patch, SettleAll, ConstNum;
    var (s1, y) := ToVal(s, e2).value;
    RightToVal(s, e1, e2, q, R, x, v1, P, B);
    var r := EmitEq(s, ne, e1, e2).value;
    if y.IsConst() {
      var s2 := if y.IsNumK() then ConstNum(s1, y.k.k.n).0 else s1;
      if y.IsNumK() {
        PoolReady(s1, y.k.k.n, e1, y, q, R, x, v1, P, B);
        EvolvesTrans(s, e2, s1, y, s2, y);
      }
      PairOf(s2, e1, y, q, R, x, v1, P, B);
      PlainEvolves(s, e2, s2, y, s2);
      TestFinish(s2, e1, y, OpEq(ne), EqK(ne, RegOf(e1), y.k.k), q, R, x, v1, P, B);
      EvolvesTrans(s, e2, s2, NOTHING, r.0, r.1);
    } else {
      var (s2, z) := ToAnyReg(s1, y).value;
      RightToAnyReg(s1, e1, y, q, R, x, v1, P, B);
      EvolvesTrans(s, e2, s1, y, s2, z);
      PairOf(s2, e1, z, q, R, x, v1, P, B);
      PlainEvolves(s, e2, s2, z, s2);
      TestFinish(s2, e1, z, OpEq(ne), EqV(ne, RegOf(e1), RegOf(z)), q, R, x, v1, P, B);
      EvolvesTrans(s, e2, s2, NOTHING, r.0, r.1);
    }
  }

  // -- bcemit_comp: order --------------------------------------------------------------------------------

  lemma SwapPair(s: FS, e1: Exp, y: Exp, q: nat, R: Regs, x: Expect, v1: Val, P: set<nat>, B: nat)
    requires Pair(s, e1, y, q, R, x, v1, P, B)
    ensures Pair(s, y, e1, q, R, if x.Gets? then Gets(x.R0, v1) else x, if x.Gets? then x.v else v1, P, B)
  {
  }

  /** Both operands have been brought to registers by way of state s1. */
  lemma OrdFinish(s: FS, op: CmpOp, l: Exp, y: Exp, i: Ins, q: nat, R: Regs, x: Expect, v1: Val, P: set<nat>, B: nat)
    requires Pair(s, l, y, q, R, x, v1, P, B) && InReg(l) && InReg(y)
    requires i == OrdIns(op, RegOf(l), RegOf(y))
    ensures BinDone(s, NOTHING, EmitTest(FreeOperands(s, l, y), i), q, R, BinExpect(OpOrd(op), v1, x), P, B)
    ensures BinDone(s, NOTHING, EmitTest(FreeOperands(s, y, l), i), q, R, BinExpect(OpOrd(op), v1, x), P, B)
  {
    TestFinish(s, l, y, OpOrd(op), i, q, R, x, v1, P, B);
  }

  /** The instruction that compares register l with register r. */
  function OrdIns(op: CmpOp, l: nat, r: nat): Ins {
    match op
    case LT => Cmp(LT, l, r)
    case LE => Cmp(LE, l, r)
    case GT => Cmp(LT, r, l)
    case GE => Cmp(LE, r, l)
  }

  lemma OrdPlainOk(s: FS, op: CmpOp, e1: Exp, e2: Exp, q: nat, R: Regs, x: Expect, v1: Val, P: set<nat>, B: nat)
    requires BinReady(s, e1, e2, q, R, x, v1, P, B) && (op.LT? || op.LE?) && EmitOrd(s, op, e1, e2).Some?
    ensures BinDone(s, e2, EmitOrd(s, op, e1, e2).value, q, R, BinExpect(OpOrd(op), v1, x), P, B)
  {
    var r := EmitOrd(s, op, e1, e2).value;
    assert ToVal(s, e1) == Some((s, e1));
    var (s1, y) := ToAnyReg(s, e2).value;
    RightToAnyReg(s, e1, e2, q, R, x, v1, P, B);
    PairOf(s1, e1, y, q, R, x, v1, P, B);
    PlainEvolves(s, e2, s1, y, s1);
    var (s2, l) := ToAnyReg(s1, e1).value;
    if e1.k.KConst? {
      LoadLeft(s1, e1, y, q, R, x, v1, P, B);
      EvolvesTrans(s, e2, s1, y, s2, l);
      PlainEvolves(s, e2, s2, l, s2);
    }
    OrdFinish(s2, op, l, y, OrdIns(op, RegOf(l), RegOf(y)), q, R, x, v1, P, B);
    EvolvesTrans(s, e2, s2, NOTHING, r.0, r.1);
  }

  /** How GT and GE go: e2 to a value, e1 to a register, e2 to a register. */
  lemma EmitOrdSwapped(s: FS, op: CmpOp, e1: Exp, e2: Exp)
    requires Operand(e1) && (op.GT? || op.GE?) && EmitOrd(s, op, e1, e2).Some?
    ensures ToVal(s, e2).Some?
    ensures var (s1, z) := ToVal(s, e2).value;
            && ToAnyReg(s1, e1).Some?
            && var (s2, l) := ToAnyReg(s1, e1).value;
               && ToAnyReg(s2, z).Some?
               && var (s3, y) := ToAnyReg(s2, z).value;
                  EmitOrd(s, op, e1, e2).value ==
                  EmitTest(FreeOperands(s3, y, l), OrdIns(op, RegOf(l), RegOf(y)))
  {
  }

  lemma OrdSwappedOk(s: FS, op: CmpOp, e1: Exp, e2: Exp, q: nat, R: Regs, x: Expect, v1: Val, P: set<nat>, B: nat)
    requires BinReady(s, e1, e2, q, R, x, v1, P, B) && (op.GT? || op.GE?) && EmitOrd(s, op, e1, e2).Some?
    requires e1.k.KConst? ==> e1.IsNumK()
    ensures BinDone(s, e2, EmitOrd(s, op, e1, e2).value, q, R, BinExpect(OpOrd(op), v1, x), P, B)
  {
    EmitOrdSwapped(s, op, e1, e2);
    var (s1, z) := ToVal(s, e2).value;
    RightToVal(s, e1, e2, q, R, x, v1, P, B);
    var (s2, l) := ToAnyReg(s1, e1).value;
    var (s3, y) := ToAnyReg(s2, z).value;
    var r := EmitTest(FreeOperands(s3, y, l), OrdIns(op, RegOf(l), RegOf(y)));
    if z.k.KJmp? && e1.k.KConst? {
      OrdJmpOk(s1, op, e1, z, q, R, x, v1, P, B);
    } else {
      OrdLoadOk(s1, e1, z, q, R, x, v1, P, B);
      OrdFinish(s3, op, l, y, OrdIns(op, RegOf(l), RegOf(y)), q, R, x, v1, P, B);
      EvolvesTrans(s1, z, s3, NOTHING, r.0, r.1);
    }
    EvolvesTrans(s, e2, s1, z, r.0, r.1);
  }

  /** Loading e1, then z, brings the pair to registers. */
  lemma OrdLoadOk(s: FS, e1: Exp, z: Exp, q: nat, R: Regs, x: Expect, v1: Val, P: set<nat>, B: nat)
    requires BinReady(s, e1, z, q, R, x, v1, P, B) && !z.HasJump() && !z.k.KLocal? && (e1.k.KConst? ==> e1.IsNumK())
    requires !(z.k.KJmp? && e1.k.KConst?)
    requires ToAnyReg(s, e1).Some? && ToAnyReg(ToAnyReg(s, e1).value.0, z).Some?
    ensures var (s1, l) := ToAnyReg(s, e1).value;
            var (s2, y) := ToAnyReg(s1, z).value;
            Pair(s2, l, y, q, R, x, v1, P, B) && InReg(l) && InReg(y) && Evolves(s, z, s2, NOTHING)
  {
    var (s1, l) := ToAnyReg(s, e1).value;
    var (s2, y) := ToAnyReg(s1, z).value;
    if InReg(e1) {
      RightToAnyReg(s, e1, z, q, R, x, v1, P, B);
      PairOf(s2, e1, y, q, R, x, v1, P, B);
      PlainEvolves(s, z, s2, y, s2);
    } else if z.k.KReloc? {
      OrdRelocOk(s, e1, z, q, R, x, v1, P, B);
    } else {
      PairOf(s, e1, z, q, R, x, v1, P, B);
      LoadLeft(s, e1, z, q, R, x, v1, P, B);
      if z.k.KConst? {
        var x' := if x.Gets? then Gets(x.R0, v1) else x;
        var v' := if x.Gets? then x.v else v1;
        SwapPair(s1, l, z, q, R, x, v1, P, B);
        assert l.k.r < s1.free by { ToAnyRegWf(s, e1); }
        LoadLeft(s1, z, l, q, R, x', v', P, B);
        SwapPair(s2, y, l, q, R, x', v', P, B);
        EvolvesTrans(s, z, s1, l, s2, y);
      }
      PlainEvolves(s, z, s2, if z.k.KConst? then y else l, s2);
    }
  }

  /** Loading a number constant to the next register. */
  lemma LoadNum(s: FS, e: Exp)
    requires e.IsNumK() && !e.HasJump() && ToAnyReg(s, e).Some?
    ensures Reserve(s, 1).Some?
    ensures ToAnyReg(s, e).value ==
            (Emit(Pool(Reserve(s, 1).value, e.k.k), LoadK(s.free, e.k.k)), Exp(KReg(s.free), {}, {}))
  {
  }

  /** A relocatable right operand gets its register after the left one is loaded. */
  lemma OrdRelocShape(s: FS, e1: Exp, z: Exp)
    requires Good(s, z) && !z.HasJump() && z.k.KReloc? && e1.IsNumK() && !e1.HasJump()
    requires ToAnyReg(s, e1).Some? && ToAnyReg(ToAnyReg(s, e1).value.0, z).Some?
    ensures var (s1, l) := ToAnyReg(s, e1).value;
            var (s2, y) := ToAnyReg(s1, z).value;
            var reg := s.free;
            && l == Exp(KReg(reg), {}, {}) && y == Exp(KReg(reg + 1), {}, {})
            && s2.frame >= reg + 2 && s2.frame < MAX_SLOTS
            && s2 == Emit(s.(code := SetResult(s.code, z.k.pc, reg + 1), free := reg + 2, frame := s2.frame,
                kn := s2.kn),
                          LoadK(reg, e1.k.k))
  {
    var (s1, l) := ToAnyReg(s, e1).value;
    var (s2, y) := ToAnyReg(s1, z).value;
    LoadNum(s, e1);
    var p := z.k.pc;
    var reg := s.free;
    var c := SetResult(s.code, p, reg + 1);
    PatchNone(s.code, s.Pc(), NO_REG, s.Pc());
    PatchNone(c, s.Pc(), NO_REG, s.Pc());
    assert s1.code == s.code + [LoadK(reg, e1.k.k)];
    assert SetResult(s1.code, p, reg + 1) == c + [LoadK(reg, e1.k.k)];
  }

  lemma OrdRelocOk(s: FS, e1: Exp, z: Exp, q: nat, R: Regs, x: Expect, v1: Val, P: set<nat>, B: nat)
    requires BinReady(s, e1, z, q, R, x, v1, P, B) && !z.HasJump() && z.k.KReloc? && e1.IsNumK()
    requires ToAnyReg(s, e1).Some? && ToAnyReg(ToAnyReg(s, e1).value.0, z).Some?
    ensures var (s1, l) := ToAnyReg(s, e1).value;
            var (s2, y) := ToAnyReg(s1, z).value;
            Pair(s2, l, y, q, R, x, v1, P, B) && InReg(l) && InReg(y) && Evolves(s, z, s2, NOTHING)
  {
    hide Exec, Take, Patch, Evolves, Good, Delivers, SetResult;
    var s2 := ToAnyReg(ToAnyReg(s, e1).value.0, z).value.0;
    OrdRelocShape(s, e1, z);
    var a := s.(free := B + 2, frame := s2.frame, kn := s2.kn);
    assert P + RegSet(e1) == P;
    RelocLoaded(s, z, a, B + 1, q, R, x, P);
    var b, zb := a.(code := SetResult(s.code, z.k.pc, B + 1)), Exp(KReg(B + 1), {}, {});
    LoadPair(b, zb, LoadK(B, e1.k.k), q, R, x, P, B);
    EvolvesTrans(s, z, b, zb, s2, NOTHING);
  }

  /** A relocatable expression in its register. */
  lemma RelocLoaded(s: FS, z: Exp, a: FS, reg: nat, q: nat, R: Regs, x: Expect, P: set<nat>)
    requires Good(s, z) && !z.HasJump() && z.k.KReloc? && Start(s, q) && Delivers(s, z, q, R, x, P) && reg !in P
    requires a == s.(free := a.free, frame := a.frame, kn := a.kn) && s.nact < a.free == reg + 1 <= a.frame < MAX_SLOTS
    ensures var b, zb := a.(code := SetResult(s.code, z.k.pc, reg)), Exp(KReg(reg), {}, {});
            Good(b, zb) && Start(b, q) && Delivers(b, zb, q, R, x, P) && Evolves(s, z, b, zb)
  {
    hide Exec, Take, Patch, Evolves;
    RecountOk(s, z, a);
    ToRegNoBranchWf(a, z, reg);
    ToRegNoBranchOk(a, z, reg, q, R, x, P);
    var (b, zb) := ToRegNoBranch(a, z, reg);
    EvolvesTrans(s, z, a, z, b, zb);
    StartKept(s, z, b, zb, q);
  }

  lemma StartKept(s: FS, e: Exp, s': FS, e': Exp, q: nat)
    requires Evolves(s, e, s', e') && Start(s, q)
    ensures Start(s', q)
  {
  }

  /** Loading a constant below a register that is in use. */
  lemma LoadPair(s: FS, z: Exp, i: Ins, q: nat, R: Regs, x: Expect, P: set<nat>, B: nat)
    requires Good(s, z) && z == Exp(KReg(B + 1), {}, {}) && s.free == B + 2 && s.nact <= B
    requires i.LoadK? && i.a == B && B !in P && Start(s, q) && Delivers(s, z, q, R, x, P)
    ensures var s' := Emit(s, i);
            && Pair(s', Exp(KReg(B), {}, {}), z, q, R, x, i.k, P, B)
            && Evolves(s, z, s', NOTHING)
  {
    hide Exec, Take, Patch;
    EmitRun(s, i, q, R);
    EmitIsExt(s, i);
    ExtWf(s, [i], s.last);
    KeepsEvolves(s, z, Emit(s, i), NOTHING);
  }

  /** A comparison of a constant with a condition fails, as it must. */
  lemma OrdJmpOk(s: FS, op: CmpOp, e1: Exp, z: Exp, q: nat, R: Regs, x: Expect, v1: Val, P: set<nat>, B: nat)
    requires BinReady(s, e1, z, q, R, x, v1, P, B) && !z.HasJump() && z.k.KJmp? && e1.IsNumK()
    requires ToAnyReg(s, e1).Some? && ToAnyReg(ToAnyReg(s, e1).value.0, z).Some?
    ensures var (s1, l) := ToAnyReg(s, e1).value;
            var (s2, y) := ToAnyReg(s1, z).value;
            BinDone(s, z, EmitTest(FreeOperands(s2, y, l), OrdIns(op, RegOf(l), RegOf(y))), q, R,
                    BinExpect(OpOrd(op), v1, x), P, B)
  {
    hide ToAnyReg, EmitTest, Exec, Take, Patch, Evolves;
    var (s1, l) := ToAnyReg(s, e1).value;
    var (s2, y) := ToAnyReg(s1, z).value;
    OrdJmpState(s, e1, z, q, R, x, v1, P, B);
    var s3 := FreeOperands(s2, y, l);
    RecountOk(s2, y, s3);
    PlainEvolves(s, z, s2, y, s3);
    var i := OrdIns(op, RegOf(l), RegOf(y));
    EmitTestOk(s3, i, q, R, x, P);
    var (s4, e4) := EmitTest(s3, i);
    EvolvesTrans(s, z, s3, NOTHING, s4, e4);
  }

  lemma OrdJmpState(s: FS, e1: Exp, z: Exp, q: nat, R: Regs, x: Expect, v1: Val, P: set<nat>, B: nat)
    requires BinReady(s, e1, z, q, R, x, v1, P, B) && !z.HasJump() && z.k.KJmp? && e1.IsNumK()
    requires ToAnyReg(s, e1).Some? && ToAnyReg(ToAnyReg(s, e1).value.0, z).Some?
    ensures x.Gets? ==> !x.v.Num?
    ensures var (s1, l) := ToAnyReg(s, e1).value;
            var (s2, y) := ToAnyReg(s1, z).value;
            && Good(s2, y) && Evolves(s, z, s2, y) && Start(s2, q) && Delivers(s2, y, q, R, x, P)
            && l == Exp(KReg(B), {}, {}) && y == Exp(KReg(B + 1), {}, {}) && s2.free == B + 2
  {
    hide ToAnyReg, Evolves, Exec;
    var s1 := ToAnyReg(s, e1).value.0;
    var (s2, y) := ToAnyReg(s1, z).value;
    assert P + RegSet(e1) == P;
    assert x.Gets? ==> !x.v.Num? by { assert Meets(s, z, RunE(s, z, q, R), x, P); }
    JmpLoad(s, e1, z, q, R, x, P);
    JmpSettle(s1, z, q, R, x, P);
    EvolvesTrans(s, z, s1, z, s2, y);
  }

  lemma JmpLoad(s: FS, e1: Exp, z: Exp, q: nat, R: Regs, x: Expect, P: set<nat>)
    requires Good(s, z) && !z.HasJump() && z.k.KJmp? && e1.IsNumK() && !e1.HasJump() && s.free !in P
    requires Start(s, q) && Delivers(s, z, q, R, x, P) && ToAnyReg(s, e1).Some?
    ensures var (s1, l) := ToAnyReg(s, e1).value;
            && l == Exp(KReg(s.free), {}, {}) && s1.free == s.free + 1
            && Wf(s1) && WfExp(s1, z) && Evolves(s, z, s1, z) && Start(s1, q) && Delivers(s1, z, q, R, x, P)
  {
    LoadNum(s, e1);
    var n := Pool(Reserve(s, 1).value, e1.k.k);
    RecountOk(s, z, n);
    JmpThenLoad(n, z, LoadK(s.free, e1.k.k), q, R, x, P);
    EvolvesTrans(s, z, n, z, ToAnyReg(s, e1).value.0, z);
  }

  lemma JmpToAnyReg(s: FS, z: Exp)
    requires z.k.KJmp? && ToAnyReg(s, z).Some?
    ensures Reserve(s, 1).Some?
    ensures var m := Reserve(s, 1).value;
            ToAnyReg(s, z).value == (SettleAll(m, z, s.free), Exp(KReg(s.free), {}, {}))
  {
  }

  lemma JmpSettleIn(s: FS, z: Exp, reg: nat, q: nat, R: Regs, x: Expect, P: set<nat>)
    requires Wf(s) && WfExp(s, z) && z.k.KJmp? && RegOk(s, reg) && reg !in P
    requires Start(s, q) && Delivers(s, z, q, R, x, P)
    ensures var s' := SettleAll(s, z, reg);
            var y := Exp(KReg(reg), {}, {});
            Good(s', y) && Evolves(s, z, s', y) && Start(s', q) && Delivers(s', y, q, R, x, P) && s'.free == s.free
  {
    SettleAllWf(s, z, reg);
    SettleAllOk(s, z, reg, q, R, x, P);
  }

  lemma JmpSettle(s: FS, z: Exp, q: nat, R: Regs, x: Expect, P: set<nat>)
    requires Wf(s) && WfExp(s, z) && z.k.KJmp? && !z.HasJump() && ToAnyReg(s, z).Some? && s.free !in P
    requires Start(s, q) && Delivers(s, z, q, R, x, P)
    ensures var (s', y) := ToAnyReg(s, z).value;
            && Good(s', y) && Evolves(s, z, s', y) && Start(s', q) && Delivers(s', y, q, R, x, P)
            && y == Exp(KReg(s.free), {}, {}) && s'.free == s.free + 1
  {
    JmpToAnyReg(s, z);
    var (s', y) := ToAnyReg(s, z).value;
    var m := Reserve(s, 1).value;
    RecountOk(s, z, m);
    JmpSettleIn(m, z, s.free, q, R, x, P);
    EvolvesTrans(s, z, m, z, s', y);
  }

  /** A load behind a conditional jump does not touch what the jump delivers. */
  lemma JmpThenLoad(s: FS, z: Exp, i: Ins, q: nat, R: Regs, x: Expect, P: set<nat>)
    requires Good(s, z) && z.k.KJmp? && !z.HasJump() && i.LoadK? && i.a < MAX_SLOTS && i.a !in P
    requires Start(s, q) && Delivers(s, z, q, R, x, P)
    ensures var s' := Emit(s, i);
            Wf(s') && WfExp(s', z) && Evolves(s, z, s', z) && Start(s', q) && Delivers(s', z, q, R, x, P)
  {
    hide Exec, Take, Patch;
    var s' := Emit(s, i);
    EmitIsExt(s, i);
    ExtWf(s, [i], s.last);
    EmitRun(s, i, q, R);
    assert IsPending(s.code, z.k.pc) && Kept(s.code, s'.code, z.k.pc);
    KeepsEvolves(s, z, s', z);
  }
}
