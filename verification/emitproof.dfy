/** Correctness of the expression emitters: what a partly emitted expression
    means, and that every emitter keeps that meaning. */
module EmitProof {
  import opened Values
  import opened ExprCode
  import opened Emitter

  // -- Invariants of the emitter state -----------------------------------------------

  /** A resolved jump to the end of the code is recorded in `last`. */
  ghost predicate NoEndTarget(c: Code, last: nat) {
    forall i :: 0 <= i < |c| && c[i] == Jmp(To(|c|)) ==> last == |c|
  }

  ghost predicate Wf(s: FS) {
    && WfCode(s.code) && 1 <= |s.code|
    && AllPending(s.code, s.jpc)
    && (s.jpc != {} ==> s.last == |s.code|) && s.last <= |s.code|
    && NoEndTarget(s.code, s.last)
    && s.nact <= s.free <= s.frame < MAX_SLOTS
  }

  /** The jumps an expression under construction is responsible for. */
  function Owns(s: FS, e: Exp): set<nat> {
    s.jpc + e.t + e.f + if e.k.KJmp? then {e.k.pc} else {}
  }

  predicate WfKind(s: FS, k: Kind) {
    match k
    case KConst(_) => true
    case KLocal(r) => r < s.nact
    case KReg(r) => r < s.free && (r >= s.nact ==> r == s.free - 1)
    case KReloc(p) => p == |s.code| - 1 && s.code[p].Alu? && s.jpc == {} && s.last <= p
    case KJmp(pc) =>
      && IsPending(s.code, pc) && s.jpc == {}
      && (s.code[pc - 1].Cmp? || s.code[pc - 1].EqV? || s.code[pc - 1].EqK?)
  }

  ghost predicate WfExp(s: FS, e: Exp) {
    && AllPending(s.code, e.t) && AllPending(s.code, e.f)
    && s.jpc !! e.t !! e.f
    && WfKind(s, e.k)
    && (e.k.KJmp? ==> e.k.pc !in e.t + e.f)
  }

  /** A run may start at q, and falling off the end means passing the last instruction. */
  predicate Start(s: FS, q: nat) {
    IsEntry(s.code, q) && (q < |s.code| || s.last == |s.code|)
  }

  /** Jump j stays pending, with the same guard or still without one. */
  predicate Kept(c: Code, c': Code, j: nat)
    requires 1 <= j < |c|
  {
    && IsPending(c', j)
    && (if IsGuard(c[j - 1]) then c'[j - 1] == c[j - 1] else !IsGuard(c'[j - 1]))
  }

  /** Jumps that belong to nobody here keep their instruction and their guard. */
  ghost predicate Evolves(s: FS, e: Exp, s': FS, e': Exp) {
    && |s.code| <= |s'.code| && s'.nact == s.nact
    && (forall j :: j in Owns(s', e') ==> j in Owns(s, e) || j >= |s.code|)
    && (forall j: nat :: IsPending(s.code, j) && j !in Owns(s, e) ==>
          Kept(s.code, s'.code, j))
    && (forall q: nat :: Start(s, q) ==> Start(s', q))
  }

  lemma EvolvesTrans(s: FS, e: Exp, s1: FS, e1: Exp, s2: FS, e2: Exp)
    requires Evolves(s, e, s1, e1) && Evolves(s1, e1, s2, e2)
    ensures Evolves(s, e, s2, e2)
  {
    forall j: nat | IsPending(s.code, j) && j !in Owns(s, e)
      ensures Kept(s.code, s2.code, j)
    {
      assert Kept(s.code, s1.code, j);
      assert Kept(s1.code, s2.code, j);
    }
  }

  // -- Meaning of a partly emitted expression ---------------------------------------------

  /** Pending jumps to the next instruction arrive at the end. */
  function Norm(jpc: set<nat>, o: Outcome): Outcome {
    if o.Exit? && o.j in jpc then Done(o.regs) else o
  }

  function Run(s: FS, q: nat, R: Regs): Outcome
    requires q <= |s.code|
  {
    Norm(s.jpc, Exec(s.code, q, R))
  }

  /** The code with the result of a relocatable expression not stored yet. */
  function EffCode(s: FS, e: Exp): (c: Code)
    ensures |c| == |s.code|
  {
    if e.k.KReloc? then SetResult(s.code, e.k.pc, NO_REG) else s.code
  }

  function RunE(s: FS, e: Exp, q: nat, R: Regs): Outcome
    requires q <= |s.code|
  {
    Norm(s.jpc, Exec(EffCode(s, e), q, R))
  }

  /** The protected registers are the same. */
  predicate Same(R0: Regs, R1: Regs, P: set<nat>) {
    |R0| == |R1| && forall i :: 0 <= i < |R0| && i in P ==> R1[i] == R0[i]
  }

  /** A run that falls off the end has value v, which e describes. */
  predicate Holds(s: FS, e: Exp, R: Regs, v: Val) {
    match e.k
    case KConst(k) => v == k
    case KLocal(r) => Read(R, r) == v
    case KReg(r) => Read(R, r) == v
    case KJmp(_) => v == False
    case KReloc(p) => p < |s.code| && s.code[p].Alu? && AluVal(s.code[p].f, R) == Some(v)
  }

  predicate Brings(c: Code, j: nat, R: Regs, v: Val, b: bool) {
    && Truthy(v) == b
    && v == if Carries(c, j) then CarriedVal(c[j - 1], R) else Bool(b)
  }

  /** A run that leaves through jump j has value v. */
  predicate ExitOk(s: FS, e: Exp, j: nat, R: Regs, v: Val) {
    || (j in e.t && Brings(s.code, j, R, v, true))
    || (j in e.f && Brings(s.code, j, R, v, false))
    || (e.k == KJmp(j) && v == True)
  }

  /** What a given start is expected to lead to: value v computed from registers
      R0, or an outcome that has nothing to do with the expression. */
  datatype Expect = Gets(R0: Regs, v: Val) | Passes(o: Outcome)

  predicate Meets(s: FS, e: Exp, o: Outcome, x: Expect, P: set<nat>) {
    match x
    case Gets(R0, v) =>
      && |R0| == MAX_SLOTS
      && (o.Done? || o.Exit?) && Same(R0, o.regs, P)
      && (o.Done? ==> Holds(s, e, o.regs, v))
      && (o.Exit? ==> ExitOk(s, e, o.j, o.regs, v))
    case Passes(p) => o == p && !p.Done? && (p.Exit? ==> p.j !in Owns(s, e))
  }

  /** The code emitted so far, started at q with registers R, meets x. */
  predicate Delivers(s: FS, e: Exp, q: nat, R: Regs, x: Expect, P: set<nat>) {
    q <= |s.code| && |R| == MAX_SLOTS && Meets(s, e, RunE(s, e, q, R), x, P)
  }

  // -- Emitting ---------------------------------------------------------------------------

  /** The code with the pending jumps to the next instruction resolved. */
  function Flush(s: FS): (c: Code)
    ensures |c| == |s.code|
  {
    Patch(s.code, s.jpc, s.Pc(), NO_REG, s.Pc())
  }

  lemma FlushWf(s: FS)
    requires Wf(s)
    ensures WfCode(Flush(s))
    ensures forall j: nat :: IsPending(s.code, j) && j !in s.jpc ==> Kept(s.code, Flush(s), j)
    ensures forall q: nat :: IsEntry(s.code, q) ==> IsEntry(Flush(s), q)
  {
    var n := s.Pc();
    assert WfAt(s.code, n - 1);
    PatchWf(s.code, s.jpc, n, NO_REG, n);
    forall j: nat | IsPending(s.code, j) && j !in s.jpc
      ensures Kept(s.code, Flush(s), j)
    {
      assert Flush(s)[j] == PatchAt(s.code, s.jpc, n, NO_REG, n, j);
      assert Flush(s)[j - 1] == PatchAt(s.code, s.jpc, n, NO_REG, n, j - 1);
      assert j - 1 in s.jpc ==> IsPending(s.code, j - 1);
    }
    forall q: nat | IsEntry(s.code, q)
      ensures IsEntry(Flush(s), q)
    {
      if q > 0 {
        assert Flush(s)[q - 1] == PatchAt(s.code, s.jpc, n, NO_REG, n, q - 1);
      }
    }
  }

  lemma FlushRun(s: FS, q: nat, R: Regs)
    requires Wf(s) && IsEntry(s.code, q) && |R| == MAX_SLOTS
    ensures Exec(Flush(s), q, R) == Run(s, q, R)
  {
    ExecPatch(s.code, s.jpc, s.Pc(), NO_REG, s.Pc(), q, R);
    var o := Exec(s.code, q, R);
    if o.Exit? && o.j in s.jpc {
      assert IsPending(s.code, o.j);
    }
  }

  /** Resolve the pending jumps and append d. */
  function Ext(s: FS, d: Code, last: nat): FS {
    s.(code := Flush(s) + d, jpc := {}, last := last)
  }

  ghost predicate TailOk(s: FS, d: Code, last: nat) {
    var c := Flush(s) + d;
    && d != [] && s.last <= last <= |c|
    && (forall i :: |s.code| <= i < |c| ==> WfAt(c, i) && (c[i] == Jmp(To(|c|)) ==> last == |c|))
  }

  lemma ExtWf(s: FS, d: Code, last: nat)
    requires Wf(s) && TailOk(s, d, last)
    ensures var s' := Ext(s, d, last);
            && Wf(s')
            && (forall j: nat :: IsPending(s.code, j) && j !in s.jpc ==> Kept(s.code, s'.code, j))
            && (forall q: nat :: Start(s, q) ==> Start(s', q))
  {
    FlushWf(s);
    var s' := Ext(s, d, last);
    AppendWf(Flush(s), d);
    forall j: nat | IsPending(s.code, j) && j !in s.jpc
      ensures Kept(s.code, s'.code, j)
    {
      assert Kept(s.code, Flush(s), j);
    }
    forall q: nat | Start(s, q)
      ensures Start(s', q)
    {
      assert IsEntry(Flush(s), q);
    }
    forall i | 0 <= i < |s'.code| && s'.code[i] == Jmp(To(|s'.code|))
      ensures last == |s'.code|
    {
      if i < |s.code| {
        assert WfAt(Flush(s), i);
      }
    }
  }

  lemma ExtRun(s: FS, d: Code, last: nat, q: nat, R: Regs)
    requires Wf(s) && Start(s, q) && |R| == MAX_SLOTS
    ensures var s' := Ext(s, d, last);
            var o := Run(s, q, R);
            Exec(s'.code, q, R) == if o.Done? then Exec(s'.code, |s.code|, o.regs) else o
  {
    FlushWf(s);
    FlushRun(s, q, R);
    ExecAppend(Flush(s), d, q, R);
  }

  lemma EmitIsExt(s: FS, i: Ins)
    ensures Emit(s, i) == Ext(s, [i], s.last)
  {
  }

  lemma EmitTestIsExt(s: FS, i: Ins)
    ensures EmitTest(s, i).0 == Ext(s, [i, Jmp(Pending)], s.last)
    ensures EmitJmp(Emit(s, i)) == (Ext(s, [i, Jmp(Pending)], s.last), {s.Pc() + 1})
  {
    assert Flush(s) + [i] + [Jmp(Pending)] == Flush(s) + [i, Jmp(Pending)];
    assert {s.Pc() + 1} + {} == {s.Pc() + 1};
  }

  // -- Replacing the last instruction ---------------------------------------------------------

  /** Everything before a straight-line instruction that no jump skips. */
  lemma FrontWf(s: FS)
    requires Wf(s) && s.last < |s.code|
    requires var i := s.code[|s.code| - 1]; !i.Jmp? && !IsGuard(i)
    ensures WfCode(s.code[..|s.code| - 1])
  {
    var n := |s.code| - 1;
    var c := s.code[..n];
    forall i | 0 <= i < n
      ensures WfAt(c, i)
    {
      assert WfAt(s.code, i);
    }
  }

  /** Runs over code whose last instruction is replaced by i. */
  lemma LastRun(s: FS, i: Ins, q: nat, R: Regs)
    requires Wf(s) && Start(s, q) && s.last < |s.code|
    requires var i := s.code[|s.code| - 1]; !i.Jmp? && !IsGuard(i)
    requires !i.Jmp? && !IsTest(i)
    ensures var n := |s.code| - 1;
            && q <= n
            && var o := Exec(s.code[..n], q, R);
               Exec(s.code[n := i], q, R) ==
               if o.Done? then var r := Step(i, o.regs); if r.Some? then Done(r.value) else Fail
               else o
  {
    var n := |s.code| - 1;
    FrontWf(s);
    var c := s.code[..n];
    assert s.code[n := i] == c + [i];
    ExecAppend(c, [i], q, R);
    var o := Exec(c, q, R);
    if o.Done? {
      assert (c + [i])[n] == i;
      var r := Step(i, o.regs);
      if r.Some? {
        assert Exec(c + [i], n + 1, r.value) == Done(r.value);
      }
    }
  }

  /** Code-level part of Evolves for steps that own at most the jumps in L. */
  ghost predicate Keeps(s: FS, L: set<nat>, s': FS) {
    && |s.code| <= |s'.code| && s'.nact == s.nact
    && (forall j: nat :: IsPending(s.code, j) && j !in L ==> Kept(s.code, s'.code, j))
    && (forall q: nat :: Start(s, q) ==> Start(s', q))
  }

  /** Replacing the last instruction by another straight-line one. */
  lemma ReplaceLastWf(s: FS, i: Ins)
    requires Wf(s) && s.last < |s.code|
    requires var i := s.code[|s.code| - 1]; !i.Jmp? && !IsGuard(i)
    requires !i.Jmp? && !IsGuard(i) && !i.LoadK? && (i.KNil? ==> i.d < MAX_SLOTS)
    ensures var s' := s.(code := s.code[|s.code| - 1 := i]); Wf(s') && Keeps(s, {}, s')
  {
    var n := |s.code| - 1;
    var s' := s.(code := s.code[n := i]);
    forall k | 0 <= k < |s'.code|
      ensures WfAt(s'.code, k)
    {
      assert WfAt(s.code, k);
    }
  }

  lemma EmitNilWf(s: FS, from: nat, n: nat)
    requires Wf(s) && n >= 1 && from + n <= MAX_SLOTS
    ensures var s' := EmitNil(s, from, n);
            && Wf(s') && Keeps(s, s.jpc, s')
            && s'.free == s.free && s'.frame == s.frame && s'.kn == s.kn
            && (s'.jpc == {} || s' == s)
  {
    hide Patch;
    var i := if n == 1 then LoadK(from, Nil) else KNil(from, from + n - 1);
    EmitIsExt(s, i);
    ExtWf(s, [i], s.last);
    var m := |s.code| - 1;
    assert WfAt(s.code, m);
    if s.last < |s.code| && (s.code[m].KNil? || s.code[m].LoadK?) {
      ReplaceLastWf(s, KNil(s.code[m].a, from + n - 1));
    }
  }

  /** A nil load and the merged one that replaces it. */
  ghost predicate Merges(old0: Ins, i: Ins, from: nat, to: nat) {
    && (old0.KNil? || (old0.LoadK? && old0.k == Nil && old0.a < MAX_SLOTS)) && from <= to < MAX_SLOTS
    && (i == old0 || i.KNil?)
    && forall r: nat :: NilAt(i, r) <==> NilAt(old0, r) || from <= r <= to
  }

  predicate NilAt(i: Ins, r: nat) {
    if i.KNil? then i.a <= r <= i.d else i.LoadK? && i.a == r
  }

  lemma MergeStep(old0: Ins, i: Ins, from: nat, to: nat, R: Regs)
    requires Merges(old0, i, from, to) && |R| == MAX_SLOTS
    ensures Step(i, R).Some? && Step(old0, R).Some? && Step(i, R).value == NilRange(Step(old0, R).value, from, to)
  {
    var S := Step(old0, R).value;
    var T := Step(i, R).value;
    forall r | 0 <= r < |R|
      ensures S[r] == (if NilAt(old0, r) then Nil else R[r]) && T[r] == if NilAt(i, r) then Nil else R[r]
    {
    }
  }

  lemma MergeRun(s: FS, i: Ins, from: nat, to: nat, q: nat, R: Regs)
    requires Wf(s) && Start(s, q) && s.last < |s.code| && |R| == MAX_SLOTS
    requires Merges(s.code[|s.code| - 1], i, from, to)
    ensures var o := Run(s, q, R);
            Run(s.(code := s.code[|s.code| - 1 := i]), q, R) == if o.Done? then Done(NilRange(o.regs, from, to)) else o
  {
    hide Step;
    var m := |s.code| - 1;
    LastRun(s, s.code[m], q, R);
    LastRun(s, i, q, R);
    assert s.code[m := s.code[m]] == s.code;
    var f := Exec(s.code[..m], q, R);
    if f.Done? {
      MergeStep(s.code[m], i, from, to, f.regs);
    }
  }

  /** EmitNil emits or merges. */
  lemma EmitNilCases(s: FS, from: nat, n: nat)
    requires Wf(s) && n >= 1 && from + n <= MAX_SLOTS
    ensures var s' := EmitNil(s, from, n);
            var m := |s.code| - 1;
            || s' == Emit(s, if n == 1 then LoadK(from, Nil) else KNil(from, from + n - 1))
            || (s.last < |s.code| && Merges(s.code[m], s'.code[m], from, from + n - 1) &&
                s' == s.(code := s.code[m := s'.code[m]]))
  {
    var m := |s.code| - 1;
    assert WfAt(s.code, m);
    assert s.code[m := s.code[m]] == s.code;
  }

  /** After EmitNil the registers are nil, whether or not it merged. */
  lemma EmitNilRun(s: FS, from: nat, n: nat, q: nat, R: Regs)
    requires Wf(s) && Start(s, q) && n >= 1 && from + n <= MAX_SLOTS && |R| == MAX_SLOTS
    ensures var s' := EmitNil(s, from, n);
            var o := Run(s, q, R);
            q <= |s'.code| &&
            Run(s', q, R) == if o.Done? then Done(NilRange(o.regs, from, from + n - 1)) else o
  {
    hide EmitNil, Exec, Emit;
    var i := if n == 1 then LoadK(from, Nil) else KNil(from, from + n - 1);
    var s' := EmitNil(s, from, n);
    EmitNilCases(s, from, n);
    if s' == Emit(s, i) {
      EmitRun(s, i, q, R);
      var o := Run(s, q, R);
      if o.Done? {
        assert Step(i, o.regs).value == NilRange(o.regs, from, from + n - 1);
      }
    } else {
      MergeRun(s, s'.code[|s.code| - 1], from, from + n - 1, q, R);
    }
  }

  // -- expr_toreg_nobranch ---------------------------------------------------------------------

  lemma KeepsEvolves(s: FS, e: Exp, s': FS, e': Exp)
    requires Keeps(s, Owns(s, e), s')
    requires forall j :: j in Owns(s', e') ==> j in Owns(s, e) || j >= |s.code|
    ensures Evolves(s, e, s', e')
  {
  }

  /** Lists that are kept stay lists of pending jumps. */
  lemma KeptPending(s: FS, L: set<nat>, s': FS, T: set<nat>)
    requires Keeps(s, L, s') && AllPending(s.code, T) && T !! L
    ensures AllPending(s'.code, T)
  {
    forall j | j in T
      ensures IsPending(s'.code, j)
    {
      assert IsPending(s.code, j);
      assert Kept(s.code, s'.code, j);
    }
  }

  predicate RegOk(s: FS, reg: nat) {
    reg < s.free && (reg >= s.nact ==> reg == s.free - 1)
  }

  lemma NoBranchKeeps(s: FS, e: Exp, reg: nat)
    requires Wf(s) && WfExp(s, e) && !e.k.KJmp? && RegOk(s, reg)
    ensures var s' := ToRegNoBranch(s, e, reg).0;
            && Wf(s') && Keeps(s, s.jpc, s') && s'.jpc <= s.jpc && s'.free == s.free && s'.frame == s.frame
  {
    hide Exec, Take, Patch;
    match e.k {
      case KConst(k) =>
        EmitNilWf(s, reg, 1);
        EmitIsExt(s, LoadK(reg, k));
        ExtWf(s, [LoadK(reg, k)], s.last);
      case KReloc(p) =>
        ReplaceLastWf(s, Alu(s.code[p].f, reg));
      case KReg(r) =>
        EmitIsExt(s, Mov(reg, r));
        ExtWf(s, [Mov(reg, r)], s.last);
      case KLocal(r) =>
        EmitIsExt(s, Mov(reg, r));
        ExtWf(s, [Mov(reg, r)], s.last);
      case KJmp(_) =>
    }
  }

  lemma ToRegNoBranchWf(s: FS, e: Exp, reg: nat)
    requires Wf(s) && WfExp(s, e) && !e.k.KJmp? && RegOk(s, reg)
    ensures var (s', e') := ToRegNoBranch(s, e, reg);
            && Wf(s') && WfExp(s', e') && Evolves(s, e, s', e')
            && e' == Exp(KReg(reg), e.t, e.f)
            && s'.free == s.free && s'.frame == s.frame
            && Keeps(s, s.jpc, s') && s'.jpc <= s.jpc
  {
    hide EmitNil, Emit, WfCode, NoEndTarget;
    var (s', e') := ToRegNoBranch(s, e, reg);
    NoBranchKeeps(s, e, reg);
    KeptPending(s, s.jpc, s', e.t);
    KeptPending(s, s.jpc, s', e.f);
    KeepsEvolves(s, e, s', e');
  }

  /** A value that leaves through a kept jump still does. */
  lemma ExitKept(s: FS, e: Exp, s': FS, e': Exp, j: nat, R: Regs, v: Val)
    requires WfExp(s, e) && ExitOk(s, e, j, R, v) && j in e.t + e.f
    requires Kept(s.code, s'.code, j) || s'.code == s.code
    requires e.t <= e'.t && e.f <= e'.f
    ensures ExitOk(s', e', j, R, v)
  {
    assert IsPending(s.code, j);
  }

  /** What happens to the outcomes when code is put behind e that leaves its
      lists alone and turns Done(S) into Done(F) with the value in e'. */
  lemma MeetsStep(s: FS, e: Exp, o: Outcome, s': FS, e': Exp, o': Outcome, x: Expect, P: set<nat>)
    requires WfExp(s, e) && !e.k.KJmp? && Meets(s, e, o, x, P)
    requires s'.code == s.code || forall j :: j in e.t + e.f ==> Kept(s.code, s'.code, j)
    requires e'.t == e.t && e'.f == e.f && !e'.k.KJmp? && s'.jpc <= s.jpc
    requires if o.Done? && x.Gets? then
               o'.Done? && Same(o.regs, o'.regs, P) && Holds(s', e', o'.regs, x.v)
             else o' == o
    ensures Meets(s', e', o', x, P)
  {
    if x.Gets? && o.Exit? {
      assert IsPending(s.code, o.j);
      ExitKept(s, e, s', e', o.j, o.regs, x.v);
    }
  }

  /** Value of an expression whose code has run to its end. */
  function ValOf(s: FS, e: Exp, R: Regs): Val {
    match e.k
    case KConst(k) => k
    case KLocal(r) => Read(R, r)
    case KReg(r) => Read(R, r)
    case KJmp(_) => False
    case KReloc(p) =>
      if p < |s.code| && s.code[p].Alu? && AluVal(s.code[p].f, R).Some? then AluVal(s.code[p].f, R).value else Nil
  }

  /** Runs that reached the end now also put the value into reg. */
  lemma ToRegNoBranchRun(s: FS, e: Exp, reg: nat, q: nat, R: Regs)
    requires Wf(s) && WfExp(s, e) && !e.k.KJmp? && RegOk(s, reg) && Start(s, q) && |R| == MAX_SLOTS
    ensures var (s', e') := ToRegNoBranch(s, e, reg);
            var o := RunE(s, e, q, R);
            && q <= |s'.code|
            && RunE(s', e', q, R) == if o.Done? then Done(Write(o.regs, reg, ValOf(s, e, o.regs))) else o
  {
    hide Exec, Take, Patch;
    match e.k {
      case KConst(k) =>
        if k == Nil {
          EmitNilRun(s, reg, 1, q, R);
          var o := RunE(s, e, q, R);
          if o.Done? {
            assert NilRange(o.regs, reg, reg) == Write(o.regs, reg, Nil);
          }
        } else {
          EmitRun(s, LoadK(reg, k), q, R);
        }
      case KReloc(p) =>
        RelocRun(s, e, reg, q, R);
      case KReg(r) =>
        if r != reg { EmitRun(s, Mov(reg, r), q, R); }
      case KLocal(r) =>
        if r != reg { EmitRun(s, Mov(reg, r), q, R); }
      case KJmp(_) =>
    }
  }

  lemma ToRegNoBranchOk(s: FS, e: Exp, reg: nat, q: nat, R: Regs, x: Expect, P: set<nat>)
    requires Wf(s) && WfExp(s, e) && !e.k.KJmp? && RegOk(s, reg) && reg !in P
    requires Start(s, q) && Delivers(s, e, q, R, x, P)
    ensures var (s', e') := ToRegNoBranch(s, e, reg); Delivers(s', e', q, R, x, P)
  {
    hide Exec, Take, Patch;
    var (s', e') := ToRegNoBranch(s, e, reg);
    ToRegNoBranchWf(s, e, reg);
    ToRegNoBranchRun(s, e, reg, q, R);
    var o := RunE(s, e, q, R);
    assert forall j :: j in e.t + e.f ==> IsPending(s.code, j) && j !in s.jpc;
    MeetsStep(s, e, o, s', e', RunE(s', e', q, R), x, P);
  }

  /** Emitting one straight-line instruction. */
  lemma EmitRun(s: FS, i: Ins, q: nat, R: Regs)
    requires Wf(s) && Start(s, q) && |R| == MAX_SLOTS && !IsTest(i) && !i.Jmp?
    ensures var s' := Emit(s, i);
            var o := Run(s, q, R);
            && q <= |s'.code|
            && Run(s', q, R) ==
               if o.Done? then var r := Step(i, o.regs); if r.Some? then Done(r.value) else Fail
               else o
  {
    EmitIsExt(s, i);
    ExtRun(s, [i], s.last, q, R);
    var o := Run(s, q, R);
    if o.Done? {
      var c := Emit(s, i).code;
      var r := Step(i, o.regs);
      assert c[|s.code|] == i;
      if r.Some? {
        assert Exec(c, |c|, r.value) == Done(r.value);
      }
    }
  }

  /** Giving a relocatable instruction its register. */
  lemma RelocRun(s: FS, e: Exp, reg: nat, q: nat, R: Regs)
    requires Wf(s) && WfExp(s, e) && e.k.KReloc? && Start(s, q) && |R| == MAX_SLOTS
    ensures var c := SetResult(s.code, e.k.pc, reg);
            var o := RunE(s, e, q, R);
            var f := s.code[e.k.pc].f;
            && (o.Done? ==> AluVal(f, o.regs).Some?)
            && Exec(c, q, R) == if o.Done? then Done(Write(o.regs, reg, AluVal(f, o.regs).value)) else o
  {
    var p := e.k.pc;
    var f := s.code[p].f;
    LastRun(s, Alu(f, NO_REG), q, R);
    LastRun(s, Alu(f, reg), q, R);
  }

  // -- expr_toreg -------------------------------------------------------------------------------

  lemma PatchTail(c: Code, L: set<nat>, vt: nat, reg: nat, dt: nat, n: nat, i: nat)
    requires n <= i < |c| && forall j :: j in L ==> j < n
    ensures Patch(c, L, vt, reg, dt)[i] == c[i]
  {
    assert Patch(c, L, vt, reg, dt)[i] == PatchAt(c, L, vt, reg, dt, i);
  }

  lemma PatchKept(c: Code, L: set<nat>, vt: nat, reg: nat, dt: nat, j: nat)
    requires WfCode(c) && AllPending(c, L) && IsPending(c, j) && j !in L
    ensures Kept(c, Patch(c, L, vt, reg, dt), j)
  {
    var p := Patch(c, L, vt, reg, dt);
    assert p[j] == PatchAt(c, L, vt, reg, dt, j);
    assert p[j - 1] == PatchAt(c, L, vt, reg, dt, j - 1);
    assert j - 1 in L ==> IsPending(c, j - 1);
  }

  /** The jumps of e may be settled with these default targets. */
  ghost predicate CanSettle(s: FS, e: Exp, reg: nat, jf: nat, jt: nat) {
    && Wf(s) && reg < MAX_SLOTS
    && AllPending(s.code, e.t) && AllPending(s.code, e.f) && s.jpc !! e.t !! e.f
    && IsEntry(s.code, jf) && IsEntry(s.code, jt)
    && (forall j :: j in e.f && !Carries(s.code, j) ==> j < jf)
    && (forall j :: j in e.t && !Carries(s.code, j) ==> j < jt)
  }

  lemma SettleStages(s: FS, e: Exp, reg: nat, jf: nat, jt: nat)
    requires CanSettle(s, e, reg, jf, jt)
    ensures var c1 := Patch(s.code, e.f, s.Pc(), reg, jf);
            && WfCode(c1) && AllPending(c1, e.t) && IsEntry(c1, jt) && IsEntry(c1, s.Pc())
            && (forall j: nat :: IsPending(s.code, j) && j !in e.f ==> Kept(s.code, c1, j))
            && (forall q: nat :: IsEntry(s.code, q) ==> IsEntry(c1, q))
  {
    var n := s.Pc();
    var c1 := Patch(s.code, e.f, n, reg, jf);
    assert WfAt(s.code, n - 1);
    PatchWf(s.code, e.f, n, reg, jf);
    forall j: nat | IsPending(s.code, j) && j !in e.f
      ensures Kept(s.code, c1, j)
    {
      PatchKept(s.code, e.f, n, reg, jf, j);
    }
    forall q: nat | IsEntry(s.code, q)
      ensures IsEntry(c1, q)
    {
      if q > 0 {
        assert c1[q - 1] == PatchAt(s.code, e.f, n, reg, jf, q - 1);
      }
    }
  }

  lemma SettleWf(s: FS, e: Exp, reg: nat, jf: nat, jt: nat)
    requires CanSettle(s, e, reg, jf, jt)
    ensures var s' := Settle(s, e, reg, jf, jt); Wf(s') && Keeps(s, e.t + e.f, s')
  {
    var s' := Settle(s, e, reg, jf, jt);
    var n := s.Pc();
    SettleStages(s, e, reg, jf, jt);
    var c1 := Patch(s.code, e.f, n, reg, jf);
    PatchWf(c1, e.t, n, reg, jt);
    forall j: nat | IsPending(s.code, j) && j !in e.t + e.f
      ensures Kept(s.code, s'.code, j)
    {
      assert Kept(s.code, c1, j);
      PatchKept(c1, e.t, n, reg, jt, j);
    }
    forall j | j in s'.jpc
      ensures IsPending(s'.code, j)
    {
      assert IsPending(s.code, j);
      assert Kept(s.code, s'.code, j);
    }
    forall q: nat | Start(s, q)
      ensures Start(s', q)
    {
      assert IsEntry(c1, q);
      if q > 0 {
        assert s'.code[q - 1] == PatchAt(c1, e.t, n, reg, jt, q - 1);
      }
    }
  }

  /** Every run that left through a list of e now arrives: with its own value
      if the jump carries one, otherwise by way of the default target. */
  lemma SettleRun(s: FS, e: Exp, reg: nat, jf: nat, jt: nat, q: nat, R: Regs)
    requires CanSettle(s, e, reg, jf, jt) && Start(s, q) && |R| == MAX_SLOTS
    ensures var c := Settle(s, e, reg, jf, jt).code;
            var o := Exec(s.code, q, R);
            && |c| == |s.code|
            && Exec(c, q, R) ==
               if o.Exit? && o.j in e.t + e.f then
                 if Carries(s.code, o.j) then Done(ArriveRegs(s.code, o.j, reg, o.regs))
                 else Exec(c, if o.j in e.f then jf else jt, o.regs)
               else o
  {
    var n := s.Pc();
    SettleStages(s, e, reg, jf, jt);
    var c1 := Patch(s.code, e.f, n, reg, jf);
    var c2 := Patch(c1, e.t, n, reg, jt);
    ExecPatch(s.code, e.f, n, reg, jf, q, R);
    ExecPatch(c1, e.t, n, reg, jt, q, R);
    var o := Exec(s.code, q, R);
    if o.Exit? && o.j in e.f {
      assert IsPending(s.code, o.j);
      if !Carries(s.code, o.j) {
        assert IsEntry(c1, jf);
        ExecPatch(c1, e.t, n, reg, jt, jf, o.regs);
      }
    } else if o.Exit? && o.j in e.t {
      assert IsPending(s.code, o.j);
      assert Kept(s.code, c1, o.j);
      assert Carries(c1, o.j) == Carries(s.code, o.j);
    }
  }

  /** The code EmitBools appends when nothing is pending. */
  lemma BoolsCode(s: FS, reg: nat, jval: set<nat>)
    requires s.jpc == {}
    ensures var n := s.Pc();
            EmitBools(s, reg, jval) ==
            s.(code := s.code + [LoadK(reg, False), Jmp(To(n + 3)), LoadK(reg, True)], jpc := jval, last := n + 3)
  {
    var n := s.Pc();
    var s1 := Emit(s, LoadK(reg, False));
    var s2 := Emit(s1, Jmp(To(n + 3)));
    PatchNone(s.code, n, NO_REG, n);
    PatchNone(s1.code, n + 1, NO_REG, n + 1);
    PatchNone(s2.code, n + 2, NO_REG, n + 2);
    assert s.code + [LoadK(reg, False)] + [Jmp(To(n + 3))] + [LoadK(reg, True)] ==
           s.code + [LoadK(reg, False), Jmp(To(n + 3)), LoadK(reg, True)];
    assert {} + jval == jval;
  }

  lemma BoolsRun(c: Code, n: nat, reg: nat, R: Regs)
    requires |c| == n + 3 && c[n] == LoadK(reg, False) && c[n + 1] == Jmp(To(n + 3)) && c[n + 2] == LoadK(reg, True)
    ensures Exec(c, n, R) == Done(Write(R, reg, False))
    ensures Exec(c, n + 2, R) == Done(Write(R, reg, True))
  {
    var F := Write(R, reg, False);
    assert Exec(c, n + 3, F) == Done(F);
    assert Take(c, n + 1, F) == Done(F);
    assert Exec(c, n + 1, F) == Done(F);
    var T := Write(R, reg, True);
    assert Exec(c, n + 3, T) == Done(T);
  }

  /** Position of the first bool load: behind the jump that skips them, if any. */
  function BoolsAt(s: FS, e: Exp): nat {
    if e.k.KJmp? then |s.code| else |s.code| + 1
  }

  function BoolsTail(s: FS, e: Exp, reg: nat): (d: Code)
    ensures |d| == BoolsAt(s, e) - |s.code| + 3
  {
    var loads := [LoadK(reg, False), Jmp(To(BoolsAt(s, e) + 3)), LoadK(reg, True)];
    if e.k.KJmp? then loads else [Jmp(Pending)] + loads
  }

  /** The state expr_toreg reaches before it settles the lists. */
  function BoolsState(s: FS, e: Exp, reg: nat): FS {
    s.(code := s.code + BoolsTail(s, e, reg),
       jpc := if e.k.KJmp? then {} else {|s.code|} + s.jpc,
       last := BoolsAt(s, e) + 3)
  }

  lemma BoolsStateIs(s: FS, e: Exp, reg: nat)
    requires e.k.KJmp? ==> s.jpc == {}
    ensures var (b, jval) := if e.k.KJmp? then (s, {}) else EmitJmp(s);
            BoolsState(s, e, reg) == EmitBools(b, reg, jval) && b.Pc() == BoolsAt(s, e)
  {
    var (b, jval) := if e.k.KJmp? then (s, {}) else EmitJmp(s);
    BoolsCode(b, reg, jval);
    var n := b.Pc();
    assert s.code + [Jmp(Pending)] + [LoadK(reg, False), Jmp(To(n + 3)), LoadK(reg, True)] ==
           s.code + ([Jmp(Pending)] + [LoadK(reg, False), Jmp(To(n + 3)), LoadK(reg, True)]);
  }

  lemma BoolsCodeWf(s: FS, e: Exp, reg: nat)
    requires Wf(s) && reg < MAX_SLOTS
    ensures var s' := BoolsState(s, e, reg);
            var n := BoolsAt(s, e);
            && WfCode(s'.code) && NoEndTarget(s'.code, s'.last)
            && IsEntry(s'.code, n) && IsEntry(s'.code, n + 2)
            && s'.code[n] == LoadK(reg, False) && s'.code[n + 1] == Jmp(To(n + 3)) && s'.code[n + 2] == LoadK(reg, True)
  {
    var n := BoolsAt(s, e);
    var d := BoolsTail(s, e, reg);
    var c := s.code + d;
    assert WfAt(s.code, |s.code| - 1);
    assert c[n] == LoadK(reg, False) && c[n + 1] == Jmp(To(n + 3)) && c[n + 2] == LoadK(reg, True);
    forall i | |s.code| <= i < |c|
      ensures WfAt(c, i)
    {
      assert i == n - 1 || i == n || i == n + 1 || i == n + 2;
      if i == n - 1 { assert c[i] == Jmp(Pending); }
    }
    AppendWf(s.code, d);
  }

  lemma BoolsWf(s: FS, e: Exp, reg: nat)
    requires Wf(s) && reg < MAX_SLOTS
    ensures var s' := BoolsState(s, e, reg);
            Wf(s') && Keeps(s, {}, s') && (forall j :: j in s'.jpc ==> j in s.jpc || j == |s.code|)
  {
    BoolsCodeWf(s, e, reg);
    var s' := BoolsState(s, e, reg);
    forall j: nat | IsPending(s.code, j)
      ensures Kept(s.code, s'.code, j)
    {
    }
    forall j | j in s'.jpc
      ensures IsPending(s'.code, j)
    {
      assert j in s.jpc ==> IsPending(s.code, j);
    }
    forall q: nat | Start(s, q)
      ensures Start(s', q)
    {
    }
  }

  lemma BoolsStateRun(s: FS, e: Exp, reg: nat, q: nat, R: Regs)
    requires Wf(s) && reg < MAX_SLOTS && Start(s, q) && |R| == MAX_SLOTS && (e.k.KJmp? ==> s.jpc == {})
    ensures var s' := BoolsState(s, e, reg);
            var o := Exec(s.code, q, R);
            Exec(s'.code, q, R) ==
            if !o.Done? then o
            else if e.k.KJmp? then Done(Write(o.regs, reg, False))
            else Exit(|s.code|, o.regs)
  {
    var s' := BoolsState(s, e, reg);
    BoolsCodeWf(s, e, reg);
    ExecAppend(s.code, BoolsTail(s, e, reg), q, R);
    var o := Exec(s.code, q, R);
    if o.Done? {
      if e.k.KJmp? {
        BoolsRun(s'.code, |s.code|, reg, o.regs);
      } else {
        assert s'.code[|s.code|] == Jmp(Pending);
      }
    }
  }

  /** Ready to settle into reg: the value is there already, or the code ends in
      the expression's own jump. */
  ghost predicate AtReg(s: FS, e: Exp, reg: nat) {
    Wf(s) && WfExp(s, e) && RegOk(s, reg) && (e.k == KReg(reg) || e.k.KJmp?)
  }

  lemma JoinJmpWf(s: FS, e: Exp)
    requires Wf(s) && WfExp(s, e) && (e.k.KReg? || e.k.KJmp?)
    ensures var j := JoinJmp(e);
            && AllPending(s.code, j.t) && AllPending(s.code, j.f) && s.jpc !! j.t !! j.f
            && s.jpc + j.t + j.f == Owns(s, e)
            && (e.k.KJmp? ==> NoValue(s.code, j.t))
  {
    if e.k.KJmp? {
      assert !Carries(s.code, e.k.pc);
      assert e.k.pc in JoinJmp(e).t;
    }
  }

  lemma CanSettlePlain(s: FS, e: Exp, reg: nat)
    requires AtReg(s, e, reg)
    requires var j := JoinJmp(e); !NoValue(s.code, j.t) && !NoValue(s.code, j.f)
    ensures CanSettle(s, JoinJmp(e), reg, 0, 0)
  {
    JoinJmpWf(s, e);
  }

  lemma CanSettleBools(s: FS, e: Exp, reg: nat)
    requires AtReg(s, e, reg)
    ensures CanSettle(BoolsState(s, e, reg), JoinJmp(e), reg, BoolsAt(s, e), BoolsAt(s, e) + 2)
  {
    JoinJmpWf(s, e);
    BoolsWf(s, e, reg);
    BoolsCodeWf(s, e, reg);
    var b := BoolsState(s, e, reg);
    var j := JoinJmp(e);
    KeptPending(s, {}, b, j.t);
    KeptPending(s, {}, b, j.f);
    forall i | i in j.t + j.f
      ensures i < |s.code|
    {
      assert IsPending(s.code, i);
    }
  }

  lemma SettlePlainWf(s: FS, e: Exp, reg: nat)
    requires AtReg(s, e, reg)
    requires var j := JoinJmp(e); !NoValue(s.code, j.t) && !NoValue(s.code, j.f)
    ensures var s' := Settle(s, JoinJmp(e), reg, 0, 0);
            Wf(s') && Keeps(s, Owns(s, e), s') && s'.jpc == s.jpc
  {
    CanSettlePlain(s, e, reg);
    JoinJmpWf(s, e);
    SettleWf(s, JoinJmp(e), reg, 0, 0);
  }

  lemma SettleBoolsWf(s: FS, e: Exp, reg: nat)
    requires AtReg(s, e, reg)
    ensures var n := BoolsAt(s, e);
            var s' := Settle(BoolsState(s, e, reg), JoinJmp(e), reg, n, n + 2);
            && Wf(s') && Keeps(s, Owns(s, e), s')
            && (forall j :: j in s'.jpc ==> j in s.jpc || j == |s.code|)
  {
    hide Patch, Keeps, WfCode, NoEndTarget, AllPending, BoolsTail, CanSettle;
    var n := BoolsAt(s, e);
    var b := BoolsState(s, e, reg);
    var j := JoinJmp(e);
    var s' := Settle(b, j, reg, n, n + 2);
    assert Wf(s') && Keeps(b, j.t + j.f, s') by {
      CanSettleBools(s, e, reg);
      SettleWf(b, j, reg, n, n + 2);
    }
    BoolsWf(s, e, reg);
    KeepsTrans(s, {}, b, j.t + j.f, s');
    assert {} + (j.t + j.f) <= Owns(s, e) by { JoinJmpWf(s, e); }
    KeepsMore(s, {} + (j.t + j.f), s', Owns(s, e));
  }

  lemma KeepsMore(s: FS, L: set<nat>, s': FS, M: set<nat>)
    requires Keeps(s, L, s') && L <= M
    ensures Keeps(s, M, s')
  {
  }

  /** SettleAll takes one of three forms. */
  lemma SettleAllCases(s: FS, e: Exp, reg: nat)
    requires AtReg(s, e, reg)
    ensures var s' := SettleAll(s, e, reg);
            var j := JoinJmp(e);
            var n := BoolsAt(s, e);
            if !j.HasJump() then s' == s
            else if NoValue(s.code, j.t) || NoValue(s.code, j.f) then
              s' == Settle(BoolsState(s, e, reg), j, reg, n, n + 2)
            else s' == Settle(s, j, reg, 0, 0)
  {
    BoolsStateIs(s, e, reg);
  }

  lemma SettleAllWf(s: FS, e: Exp, reg: nat)
    requires AtReg(s, e, reg)
    ensures var s' := SettleAll(s, e, reg);
            var e' := Exp(KReg(reg), {}, {});
            && Wf(s') && WfExp(s', e') && Evolves(s, e, s', e')
            && s'.free == s.free && s'.frame == s.frame
  {
    hide Exec, Take, Patch;
    var s' := SettleAll(s, e, reg);
    var j := JoinJmp(e);
    SettleAllCases(s, e, reg);
    if j.HasJump() {
      if NoValue(s.code, j.t) || NoValue(s.code, j.f) {
        SettleBoolsWf(s, e, reg);
      } else {
        SettlePlainWf(s, e, reg);
      }
    }
    KeepsEvolves(s, e, s', Exp(KReg(reg), {}, {}));
  }

  lemma KeepsTrans(s: FS, L: set<nat>, s1: FS, M: set<nat>, s2: FS)
    requires Keeps(s, L, s1) && Keeps(s1, M, s2)
    ensures Keeps(s, L + M, s2)
  {
    forall j: nat | IsPending(s.code, j) && j !in L + M
      ensures Kept(s.code, s2.code, j)
    {
      assert Kept(s.code, s1.code, j) && Kept(s1.code, s2.code, j);
    }
  }

  /** Registers after a run that left through jump j has been brought to reg. */
  function Arrival(s: FS, e: Exp, reg: nat, j: nat, R: Regs): Regs {
    if Carries(s.code, j) then ArriveRegs(s.code, j, reg, R) else Write(R, reg, Bool(j in JoinJmp(e).t))
  }

  lemma ArrivalValue(s: FS, e: Exp, reg: nat, o: Outcome, x: Expect, P: set<nat>)
    requires AtReg(s, e, reg) && reg !in P && Meets(s, e, o, x, P)
    requires o.Exit? && o.j in JoinJmp(e).t + JoinJmp(e).f
    ensures x.Gets?
    ensures Same(x.R0, Arrival(s, e, reg, o.j, o.regs), P) && Read(Arrival(s, e, reg, o.j, o.regs), reg) == x.v
  {
    JoinJmpWf(s, e);
  }

  lemma SettlePlainOk(s: FS, e: Exp, reg: nat, q: nat, R: Regs, x: Expect, P: set<nat>)
    requires AtReg(s, e, reg) && reg !in P && Start(s, q) && Delivers(s, e, q, R, x, P)
    requires var j := JoinJmp(e); !NoValue(s.code, j.t) && !NoValue(s.code, j.f)
    ensures Delivers(Settle(s, JoinJmp(e), reg, 0, 0), Exp(KReg(reg), {}, {}), q, R, x, P)
  {
    var j := JoinJmp(e);
    JoinJmpWf(s, e);
    CanSettlePlain(s, e, reg);
    SettleRun(s, j, reg, 0, 0, q, R);
    var o := Exec(s.code, q, R);
    if o.Exit? && o.j in j.t + j.f {
      assert Carries(s.code, o.j);
      ArrivalValue(s, e, reg, o, x, P);
    }
  }

  lemma SettleBoolsExit(s: FS, e: Exp, reg: nat, q: nat, R: Regs)
    requires AtReg(s, e, reg) && Start(s, q) && |R| == MAX_SLOTS
    requires var o := Exec(s.code, q, R); o.Exit? && o.j in JoinJmp(e).t + JoinJmp(e).f
    ensures var n := BoolsAt(s, e);
            var s' := Settle(BoolsState(s, e, reg), JoinJmp(e), reg, n, n + 2);
            var o := Exec(s.code, q, R);
            q <= |s'.code| && Exec(s'.code, q, R) == Done(Arrival(s, e, reg, o.j, o.regs))
  {
    hide Exec, Take;
    var n := BoolsAt(s, e);
    var b := BoolsState(s, e, reg);
    var j := JoinJmp(e);
    var c := Settle(b, j, reg, n, n + 2).code;
    var o := Exec(s.code, q, R);
    assert IsPending(s.code, o.j) && !(o.j in j.f && o.j in j.t) by { JoinJmpWf(s, e); }
    assert Exec(b.code, q, R) == o by { BoolsStateRun(s, e, reg, q, R); }
    assert CanSettle(b, j, reg, n, n + 2) && Start(b, q) by {
      CanSettleBools(s, e, reg);
      BoolsWf(s, e, reg);
    }
    SettleRun(b, j, reg, n, n + 2, q, R);
    assert b.code[o.j - 1] == s.code[o.j - 1];
    if !Carries(s.code, o.j) {
      SettledBoolsRun(s, e, reg, o.regs);
    }
  }

  lemma SettleBoolsPass(s: FS, e: Exp, reg: nat, q: nat, R: Regs)
    requires AtReg(s, e, reg) && Start(s, q) && |R| == MAX_SLOTS
    requires var o := Exec(s.code, q, R); !(o.Exit? && o.j in JoinJmp(e).t + JoinJmp(e).f)
    ensures var n := BoolsAt(s, e);
            var s' := Settle(BoolsState(s, e, reg), JoinJmp(e), reg, n, n + 2);
            var o := Exec(s.code, q, R);
            q <= |s'.code| &&
            Exec(s'.code, q, R) ==
            if !o.Done? then o
            else if e.k.KJmp? then Done(Write(o.regs, reg, False))
            else Exit(|s.code|, o.regs)
  {
    hide Exec, Take;
    var n := BoolsAt(s, e);
    var b := BoolsState(s, e, reg);
    CanSettleBools(s, e, reg);
    BoolsStateRun(s, e, reg, q, R);
    assert Start(b, q) by { BoolsWf(s, e, reg); }
    SettleRun(b, JoinJmp(e), reg, n, n + 2, q, R);
    assert !IsPending(s.code, |s.code|);
    assert |s.code| !in JoinJmp(e).t + JoinJmp(e).f by { JoinJmpWf(s, e); }
  }

  lemma SettleBoolsOk(s: FS, e: Exp, reg: nat, q: nat, R: Regs, x: Expect, P: set<nat>)
    requires AtReg(s, e, reg) && reg !in P && Start(s, q) && Delivers(s, e, q, R, x, P)
    ensures var n := BoolsAt(s, e);
            var s' := Settle(BoolsState(s, e, reg), JoinJmp(e), reg, n, n + 2);
            Delivers(s', Exp(KReg(reg), {}, {}), q, R, x, P)
  {
    hide Exec, Take, Patch;
    SettleBoolsWf(s, e, reg);
    var o := Exec(s.code, q, R);
    JoinJmpWf(s, e);
    if o.Exit? && o.j in JoinJmp(e).t + JoinJmp(e).f {
      SettleBoolsExit(s, e, reg, q, R);
      ArrivalValue(s, e, reg, o, x, P);
    } else {
      SettleBoolsPass(s, e, reg, q, R);
    }
  }

  /** Every run that delivers a value now ends with that value in reg. */
  lemma SettleAllOk(s: FS, e: Exp, reg: nat, q: nat, R: Regs, x: Expect, P: set<nat>)
    requires AtReg(s, e, reg) && reg !in P && Start(s, q) && Delivers(s, e, q, R, x, P)
    ensures Delivers(SettleAll(s, e, reg), Exp(KReg(reg), {}, {}), q, R, x, P)
  {
    var j := JoinJmp(e);
    SettleAllCases(s, e, reg);
    if j.HasJump() {
      if NoValue(s.code, j.t) || NoValue(s.code, j.f) {
        SettleBoolsOk(s, e, reg, q, R, x, P);
      } else {
        SettlePlainOk(s, e, reg, q, R, x, P);
      }
    }
  }

  /** The bool loads survive settling. */
  lemma SettledBoolsRun(s: FS, e: Exp, reg: nat, R: Regs)
    requires AtReg(s, e, reg)
    ensures var n := BoolsAt(s, e);
            var c := Settle(BoolsState(s, e, reg), JoinJmp(e), reg, n, n + 2).code;
            && Exec(c, n, R) == Done(Write(R, reg, False))
            && Exec(c, n + 2, R) == Done(Write(R, reg, True))
  {
    var n := BoolsAt(s, e);
    var b := BoolsState(s, e, reg);
    var j := JoinJmp(e);
    JoinJmpWf(s, e);
    BoolsCodeWf(s, e, reg);
    assert forall i :: i in j.t + j.f ==> IsPending(s.code, i);
    var c1 := Patch(b.code, j.f, b.Pc(), reg, n);
    var c2 := Patch(c1, j.t, b.Pc(), reg, n + 2);
    forall i | n <= i < n + 3
      ensures c2[i] == b.code[i]
    {
      PatchTail(b.code, j.f, b.Pc(), reg, n, n, i);
      PatchTail(c1, j.t, b.Pc(), reg, n + 2, n, i);
    }
    BoolsRun(c2, n, reg, R);
  }

  ghost predicate Good(s: FS, e: Exp) {
    && Wf(s) && WfExp(s, e)
    && (e.k.KJmp? ==> e.k.pc == |s.code| - 1 && s.last <= e.k.pc)
  }

  /** First register not in use below the expression. */
  function BaseReg(s: FS, e: Exp): nat {
    if e.k.KReg? && e.k.r >= s.nact then Dec(s.free) else s.free
  }

  lemma ToRegWf(s: FS, e: Exp, reg: nat)
    requires Good(s, e) && RegOk(s, reg)
    ensures var (s', e') := ToReg(s, e, reg);
            && Good(s', e') && Evolves(s, e, s', e') && e' == Exp(KReg(reg), {}, {})
            && s'.free == s.free && s'.frame == s.frame
  {
    var (s1, e1) := ToRegNoBranch(s, e, reg);
    if !e.k.KJmp? {
      ToRegNoBranchWf(s, e, reg);
    }
    SettleAllWf(s1, e1, reg);
    var (s', e') := ToReg(s, e, reg);
    EvolvesTrans(s, e, s1, e1, s', e');
  }

  /** expr_toreg delivers the value in the given register. */
  lemma ToRegOk(s: FS, e: Exp, reg: nat, q: nat, R: Regs, x: Expect, P: set<nat>)
    requires Good(s, e) && RegOk(s, reg) && reg !in P && Start(s, q) && Delivers(s, e, q, R, x, P)
    ensures var (s', e') := ToReg(s, e, reg); Delivers(s', e', q, R, x, P)
  {
    var (s1, e1) := ToRegNoBranch(s, e, reg);
    if !e.k.KJmp? {
      ToRegNoBranchWf(s, e, reg);
      ToRegNoBranchOk(s, e, reg, q, R, x, P);
    }
    SettleAllOk(s1, e1, reg, q, R, x, P);
  }

  // -- expr_tonextreg, expr_toanyreg, expr_toval ---------------------------------------------------

  /** Only register counters differ. */
  predicate SameCode(s: FS, s': FS) {
    s'.code == s.code && s'.jpc == s.jpc && s'.last == s.last && s'.nact == s.nact
  }

  lemma DischargeOk(s: FS, e: Exp)
    requires Good(s, e)
    ensures Good(s, Discharge(e)) && Evolves(s, e, s, Discharge(e)) && BaseReg(s, Discharge(e)) == BaseReg(s, e)
    ensures forall q: nat, R, x, P :: Delivers(s, e, q, R, x, P) ==> Delivers(s, Discharge(e), q, R, x, P)
  {
  }

  lemma RecountOk(s: FS, e: Exp, s': FS)
    requires SameCode(s, s')
    ensures Evolves(s, e, s', e)
    ensures forall q: nat, R, x, P :: Delivers(s, e, q, R, x, P) ==> Delivers(s', e, q, R, x, P)
  {
  }

  /** The state expr_tonextreg reaches before it calls expr_toreg. */
  lemma NextRegState(s: FS, e: Exp)
    requires Good(s, e)
    ensures var n := Reserve(FreeExp(s, e), 1);
            n.Some? ==>
              && SameCode(s, n.value) && Good(n.value, e)
              && n.value.free == BaseReg(s, e) + 1 && RegOk(n.value, BaseReg(s, e))
  {
  }

  /** The expression is in a register and has no jumps. */
  predicate InReg(e: Exp) {
    e.k.KReg? && !e.HasJump()
  }

  lemma ToNextRegWf(s: FS, e: Exp)
    requires Good(s, e) && ToNextReg(s, e).Some?
    ensures var (s', e') := ToNextReg(s, e).value;
            && Good(s', e') && Evolves(s, e, s', e') && InReg(e')
            && e'.k.r == BaseReg(s, e) && s'.free == BaseReg(s, e) + 1
  {
    var d := Discharge(e);
    DischargeOk(s, e);
    NextRegState(s, d);
    var n := Reserve(FreeExp(s, d), 1).value;
    RecountOk(s, d, n);
    ToRegWf(n, d, BaseReg(s, e));
    var (s', e') := ToNextReg(s, e).value;
    EvolvesTrans(s, e, s, d, n, d);
    EvolvesTrans(s, e, n, d, s', e');
  }

  lemma ToNextRegOk(s: FS, e: Exp, q: nat, R: Regs, x: Expect, P: set<nat>)
    requires Good(s, e) && ToNextReg(s, e).Some? && BaseReg(s, e) !in P && Start(s, q) && Delivers(s, e, q, R, x, P)
    ensures var (s', e') := ToNextReg(s, e).value; Delivers(s', e', q, R, x, P)
  {
    var d := Discharge(e);
    DischargeOk(s, e);
    NextRegState(s, d);
    var n := Reserve(FreeExp(s, d), 1).value;
    RecountOk(s, d, n);
    ToRegOk(n, d, BaseReg(s, e), q, R, x, P);
  }

  lemma ToAnyRegWf(s: FS, e: Exp)
    requires Good(s, e) && ToAnyReg(s, e).Some?
    ensures var (s', e') := ToAnyReg(s, e).value;
            Good(s', e') && Evolves(s, e, s', e') && InReg(e') && BaseReg(s', e') == BaseReg(s, e)
  {
    var d := Discharge(e);
    DischargeOk(s, e);
    var (s', e') := ToAnyReg(s, e).value;
    if d.k.KReg? && !d.HasJump() {
    } else if d.k.KReg? && d.k.r >= s.nact {
      ToRegWf(s, d, d.k.r);
      EvolvesTrans(s, e, s, d, s', e');
    } else {
      ToNextRegWf(s, d);
      EvolvesTrans(s, e, s, d, s', e');
    }
  }

  lemma ToAnyRegOk(s: FS, e: Exp, q: nat, R: Regs, x: Expect, P: set<nat>)
    requires Good(s, e) && ToAnyReg(s, e).Some? && BaseReg(s, e) !in P && Start(s, q) && Delivers(s, e, q, R, x, P)
    ensures var (s', e') := ToAnyReg(s, e).value; Delivers(s', e', q, R, x, P)
  {
    var d := Discharge(e);
    DischargeOk(s, e);
    if d.k.KReg? && !d.HasJump() {
    } else if d.k.KReg? && d.k.r >= s.nact {
      ToRegOk(s, d, d.k.r, q, R, x, P);
    } else {
      ToNextRegOk(s, d, q, R, x, P);
    }
  }

  lemma ToValWf(s: FS, e: Exp)
    requires Good(s, e) && ToVal(s, e).Some?
    ensures var (s', e') := ToVal(s, e).value;
            && Good(s', e') && Evolves(s, e, s', e') && BaseReg(s', e') == BaseReg(s, e)
            && !e'.HasJump() && !e'.k.KLocal?
  {
    DischargeOk(s, e);
    if e.HasJump() { ToAnyRegWf(s, e); }
  }

  lemma ToValOk(s: FS, e: Exp, q: nat, R: Regs, x: Expect, P: set<nat>)
    requires Good(s, e) && ToVal(s, e).Some? && BaseReg(s, e) !in P && Start(s, q) && Delivers(s, e, q, R, x, P)
    ensures var (s', e') := ToVal(s, e).value; Delivers(s', e', q, R, x, P)
  {
    DischargeOk(s, e);
    if e.HasJump() { ToAnyRegOk(s, e, q, R, x, P); }
  }

  // -- Branches ----------------------------------------------------------------------------------

  /** Jumps L have been added to e such that only runs whose truth is b reach the end. */
  predicate Splits(s: FS, e: Exp, L: set<nat>, o: Outcome, x: Expect, P: set<nat>, b: bool) {
    match x
    case Gets(R0, v) =>
      && |R0| == MAX_SLOTS
      && (o.Done? || o.Exit?) && Same(R0, o.regs, P)
      && (o.Done? ==> Truthy(v) == b)
      && (o.Exit? ==>
            || (o.j in e.t && Brings(s.code, o.j, o.regs, v, true))
            || (o.j in e.f && Brings(s.code, o.j, o.regs, v, false))
            || (o.j in L && Brings(s.code, o.j, o.regs, v, !b)))
    case Passes(p) => o == p && !p.Done? && (p.Exit? ==> p.j !in s.jpc + e.t + e.f + L)
  }

  ghost predicate SplitWf(s: FS, e: Exp, L: set<nat>) {
    && Wf(s) && AllPending(s.code, e.t) && AllPending(s.code, e.f) && AllPending(s.code, L)
    && s.jpc !! e.t !! e.f !! L
  }

  lemma EmitTestWf(s: FS, i: Ins)
    requires Wf(s) && IsGuard(i) && (i.TestCopy? ==> i.a == NO_REG)
    ensures var s' := Ext(s, [i, Jmp(Pending)], s.last);
            && Wf(s') && Keeps(s, s.jpc, s') && s'.jpc == {}
            && IsPending(s'.code, |s.code| + 1) && s'.code[|s.code|] == i && |s'.code| == |s.code| + 2
  {
    ExtWf(s, [i, Jmp(Pending)], s.last);
  }

  lemma EmitTestRun(s: FS, i: Ins, q: nat, R: Regs)
    requires Wf(s) && Start(s, q) && |R| == MAX_SLOTS && IsTest(i)
    requires i.TestCopy? ==> i.a == NO_REG
    ensures var s' := Ext(s, [i, Jmp(Pending)], s.last);
            var o := Run(s, q, R);
            && q <= |s'.code|
            && Run(s', q, R) ==
               if !o.Done? then o
               else var t := TestResult(i, o.regs);
                    if t.None? then Fail else if t.value then Exit(|s.code| + 1, o.regs) else Done(o.regs)
  {
    var s' := Ext(s, [i, Jmp(Pending)], s.last);
    ExtRun(s, [i, Jmp(Pending)], s.last, q, R);
    var o := Run(s, q, R);
    if o.Done? {
      assert s'.code[|s.code|] == i && s'.code[|s.code| + 1] == Jmp(Pending);
      assert TestRegs(i, o.regs) == o.regs;
      assert Exec(s'.code, |s.code| + 2, o.regs) == Done(o.regs);
    }
  }

  lemma EmitLoadJmpRun(s: FS, k: Val, q: nat, R: Regs)
    requires Wf(s) && Start(s, q) && |R| == MAX_SLOTS
    ensures var s' := Ext(s, [LoadK(NO_REG, k), Jmp(Pending)], s.last);
            var o := Run(s, q, R);
            && q <= |s'.code|
            && Run(s', q, R) == if o.Done? then Exit(|s.code| + 1, o.regs) else o
  {
    var i := LoadK(NO_REG, k);
    var s' := Ext(s, [i, Jmp(Pending)], s.last);
    ExtRun(s, [i, Jmp(Pending)], s.last, q, R);
    var o := Run(s, q, R);
    if o.Done? {
      assert s'.code[|s.code|] == i && s'.code[|s.code| + 1] == Jmp(Pending);
      assert Step(i, o.regs) == Some(o.regs);
      assert Exec(s'.code, |s.code| + 1, o.regs) == Exit(|s.code| + 1, o.regs);
    }
  }

  /** Exits of e through its lists survive code that keeps them. */
  lemma SplitsExit(s: FS, e: Exp, o: Outcome, s': FS, L: set<nat>, x: Expect, P: set<nat>, b: bool)
    requires Good(s, e) && Meets(s, e, o, x, P) && !o.Done? && Keeps(s, s.jpc, s') && s'.jpc <= s.jpc
    requires o.Exit? && x.Gets? ==> o.j in e.t + e.f
    requires forall j :: j in L ==> j >= |s.code| || j in Owns(s, e)
    requires o.Exit? && x.Passes? ==> o.j < |s.code|
    ensures Splits(s', e, L, o, x, P, b)
  {
    if x.Gets? {
      assert IsPending(s.code, o.j);
      ExitKept(s, e, s', e, o.j, o.regs, x.v);
    }
  }

  // Case 1: an expression in a register.

  lemma SplitRegOk(s: FS, e: Exp, cond: bool, q: nat, R: Regs, x: Expect, P: set<nat>)
    requires Good(s, e) && e.k.KReg? && Start(s, q) && Delivers(s, e, q, R, x, P)
    ensures var s' := Ext(s, [TestCopy(cond, NO_REG, e.k.r), Jmp(Pending)], s.last);
            var L := {|s.code| + 1};
            && SplitWf(s', e, L) && q <= |s'.code| && Keeps(s, s.jpc, s')
            && Splits(s', e, L, Run(s', q, R), x, P, !cond)
  {
    hide Exec, Take, Patch;
    var i := TestCopy(cond, NO_REG, e.k.r);
    var s' := Ext(s, [i, Jmp(Pending)], s.last);
    var L := {|s.code| + 1};
    EmitTestWf(s, i);
    EmitTestRun(s, i, q, R);
    KeptPending(s, s.jpc, s', e.t);
    KeptPending(s, s.jpc, s', e.f);
    assert |s.code| + 1 !in e.t + e.f by { assert !IsPending(s.code, |s.code| + 1); }
    var o := Run(s, q, R);
    if !o.Done? {
      SplitsExit(s, e, o, s', L, x, P, !cond);
    }
  }

  // Case 2: a constant that always leaves.

  lemma SplitConstOk(s: FS, e: Exp, q: nat, R: Regs, x: Expect, P: set<nat>)
    requires Good(s, e) && e.k.KConst? && Start(s, q) && Delivers(s, e, q, R, x, P)
    ensures var (s', L) := EmitJmp(ToRegNoBranch(s, e, NO_REG).0);
            && L == {|s.code| + 1} && s'.free == s.free && s'.frame == s.frame && s'.jpc == {}
            && SplitWf(s', e, L) && q <= |s'.code| && Keeps(s, s.jpc, s')
            && Splits(s', e, L, Run(s', q, R), x, P, !Truthy(e.k.k))
  {
    hide Exec, Take, Patch;
    var n := Pool(s, e.k.k);
    SplitLoadOk(n, e, q, R, x, P);
    assert WfAt(s.code, |s.code| - 1);
    EmitTestIsExt(n, LoadK(NO_REG, e.k.k));
    assert ToRegNoBranch(s, e, NO_REG).0 == Emit(n, LoadK(NO_REG, e.k.k));
  }

  lemma SplitLoadOk(s: FS, e: Exp, q: nat, R: Regs, x: Expect, P: set<nat>)
    requires Good(s, e) && e.k.KConst? && Start(s, q) && Delivers(s, e, q, R, x, P)
    ensures var s' := Ext(s, [LoadK(NO_REG, e.k.k), Jmp(Pending)], s.last);
            var L := {|s.code| + 1};
            && SplitWf(s', e, L) && q <= |s'.code| && Keeps(s, s.jpc, s')
            && Splits(s', e, L, Run(s', q, R), x, P, !Truthy(e.k.k))
  {
    hide Exec, Take, Patch;
    var i := LoadK(NO_REG, e.k.k);
    var s' := Ext(s, [i, Jmp(Pending)], s.last);
    var L := {|s.code| + 1};
    EmitTestWf(s, i);
    EmitLoadJmpRun(s, e.k.k, q, R);
    KeptPending(s, s.jpc, s', e.t);
    KeptPending(s, s.jpc, s', e.f);
    assert |s.code| + 1 !in e.t + e.f by { assert !IsPending(s.code, |s.code| + 1); }
    var o := Run(s, q, R);
    if !o.Done? {
      SplitsExit(s, e, o, s', L, x, P, !Truthy(e.k.k));
    }
  }

  // Case 3: a conditional jump.

  /** Code that ends in a test and its pending jump. */
  ghost predicate EndsInTest(s: FS) {
    && Wf(s) && |s.code| >= 2 && s.jpc == {} && s.last < |s.code|
    && IsTest(s.code[|s.code| - 2]) && !s.code[|s.code| - 2].TestCopy? && s.code[|s.code| - 1] == Jmp(Pending)
  }

  lemma TestFrontWf(s: FS)
    requires EndsInTest(s)
    ensures WfCode(s.code[..|s.code| - 2])
  {
    var n := |s.code| - 2;
    var c := s.code[..n];
    forall i | 0 <= i < n
      ensures WfAt(c, i)
    {
      assert WfAt(s.code, i);
      if c[i].Jmp? && c[i].t.To? {
        assert IsEntry(s.code, c[i].t.pos);
        assert c[i].t.pos != n + 1;
        assert c[i] != Jmp(To(n + 2));
      }
    }
  }

  /** Runs over such code in terms of the test alone. */
  lemma TestEndRun(s: FS, q: nat, R: Regs)
    requires EndsInTest(s) && Start(s, q)
    ensures var n := |s.code| - 2;
            && q <= n
            && var o := Exec(s.code[..n], q, R);
               Exec(s.code, q, R) ==
               if !o.Done? then o
               else var t := TestResult(s.code[n], o.regs);
                    if t.None? then Fail else if t.value then Exit(n + 1, o.regs) else Done(o.regs)
  {
    var n := |s.code| - 2;
    assert q != n + 1;
    TestFrontWf(s);
    var c := s.code[..n];
    assert s.code == c + s.code[n..];
    ExecAppend(c, s.code[n..], q, R);
    var o := Exec(c, q, R);
    if o.Done? {
      assert Exec(s.code, n + 2, o.regs) == Done(o.regs);
    }
  }

  lemma InvertWf(s: FS)
    requires EndsInTest(s) && !s.code[|s.code| - 2].Test?
    ensures var s' := InvertCond(s, |s.code| - 1);
            && EndsInTest(s') && Keeps(s, {|s.code| - 1}, s') && |s'.code| == |s.code|
            && s'.code[..|s.code| - 2] == s.code[..|s.code| - 2]
            && s'.code[|s.code| - 2] == InvertTest(s.code[|s.code| - 2])
            && (s'.code[|s.code| - 2].Cmp? || s'.code[|s.code| - 2].EqV? || s'.code[|s.code| - 2].EqK?)
  {
    var s' := InvertCond(s, |s.code| - 1);
    forall i | 0 <= i < |s.code|
      ensures WfAt(s'.code, i)
    {
      assert WfAt(s.code, i);
    }
    forall j: nat | IsPending(s.code, j) && j != |s.code| - 1
      ensures Kept(s.code, s'.code, j)
    {
    }
    forall q: nat | Start(s, q)
      ensures Start(s', q)
    {
    }
  }

  lemma InvertResult(i: Ins, R: Regs)
    requires i.Cmp? || i.EqV? || i.EqK?
    ensures var a := TestResult(i, R);
            TestResult(InvertTest(i), R) == if a.None? then None else Some(!a.value)
  {
  }

  /** Inverting the condition exchanges taking the jump and falling through. */
  lemma InvertRun(s: FS, q: nat, R: Regs)
    requires EndsInTest(s) && !s.code[|s.code| - 2].Test? && Start(s, q)
    ensures var s' := InvertCond(s, |s.code| - 1);
            var pc := |s.code| - 1;
            var o := Exec(s.code, q, R);
            && q <= |s'.code|
            && Exec(s'.code, q, R) ==
               if o.Done? then Exit(pc, o.regs)
               else if o.Exit? && o.j == pc then Done(o.regs)
               else o
  {
    var s' := InvertCond(s, |s.code| - 1);
    var n := |s.code| - 2;
    InvertWf(s);
    TestEndRun(s, q, R);
    TestEndRun(s', q, R);
    var o := Exec(s.code[..n], q, R);
    if o.Done? {
      InvertResult(s.code[n], o.regs);
    }
  }

  /** Leaving through the expression's own jump; b is the truth that goes on. */
  lemma SplitJmpOk(s: FS, e: Exp, q: nat, R: Regs, x: Expect, P: set<nat>, b: bool)
    requires Good(s, e) && e.k.KJmp? && Start(s, q) && Delivers(s, e, q, R, x, P)
    ensures var s' := if b then InvertCond(s, e.k.pc) else s;
            var L := {e.k.pc};
            && SplitWf(s', e, L) && q <= |s'.code| && Keeps(s, L, s') && s'.jpc == {}
            && Splits(s', e, L, Run(s', q, R), x, P, b)
  {
    hide Exec, Take, Patch;
    var s' := if b then InvertCond(s, e.k.pc) else s;
    var L := {e.k.pc};
    assert IsPending(s.code, e.k.pc);
    InvertWf(s);
    InvertRun(s, q, R);
    KeptPending(s, L, s', e.t);
    KeptPending(s, L, s', e.f);
    var o := Run(s, q, R);
    assert s'.code[e.k.pc - 1].Cmp? || s'.code[e.k.pc - 1].EqV? || s'.code[e.k.pc - 1].EqK?;
    if x.Gets? && o.Exit? && o.j in e.t + e.f {
      assert IsPending(s.code, o.j);
      assert Kept(s.code, s'.code, o.j);
    }
  }

  // Case 4: a negation that becomes a test.

  lemma SplitNotOk(s: FS, e: Exp, cond: bool, q: nat, R: Regs, x: Expect, P: set<nat>)
    requires Good(s, e) && e.k.KReloc? && s.code[e.k.pc].f.Not? && Start(s, q) && Delivers(s, e, q, R, x, P)
    ensures var p := e.k.pc;
            var (s', L) := EmitJmp(s.(code := s.code[p := Test(!cond, s.code[p].f.d)]));
            && SplitWf(s', e, L) && q <= |s'.code| && Keeps(s, {}, s') && s'.jpc == {} && L == {|s.code|}
            && Splits(s', e, L, Run(s', q, R), x, P, !cond)
  {
    hide Exec, Take, Patch, WfCode, NoEndTarget, IsEntry;
    var p := e.k.pc;
    var d := s.code[p].f.d;
    var t := Test(!cond, d);
    var (s', L) := EmitJmp(s.(code := s.code[p := t]));
    assert {|s.code|} + {} == {|s.code|};
    assert L == {|s.code|};
    NotTestWf(s, e, t);
    KeptPending(s, {}, s', e.t);
    KeptPending(s, {}, s', e.f);
    assert |s.code| !in e.t + e.f by { assert !IsPending(s.code, |s.code|); }
    TestEndRun(s', q, R);
    LastRun(s, Alu(s.code[p].f, NO_REG), q, R);
    assert s'.code[..p] == s.code[..p];
    var f := Exec(s.code[..p], q, R);
    if f.Done? {
      assert TestResult(t, f.regs) == Some(Truthy(Read(f.regs, d)) != cond);
    } else if x.Gets? && f.Exit? {
      assert IsPending(s.code, f.j);
      assert Kept(s.code, s'.code, f.j);
    }
  }

  lemma NotTestWf(s: FS, e: Exp, t: Ins)
    requires Good(s, e) && e.k.KReloc? && t.Test?
    ensures var s' := EmitJmp(s.(code := s.code[e.k.pc := t])).0;
            EndsInTest(s') && Keeps(s, {}, s')
  {
    var p := e.k.pc;
    FrontWf(s);
    var c := s.code[..p];
    var d := [t, Jmp(Pending)];
    var s' := EmitJmp(s.(code := s.code[p := t])).0;
    assert s'.code == c + d;
    AppendWf(c, d);
    forall j: nat | IsPending(s.code, j)
      ensures Kept(s.code, s'.code, j)
    {
    }
    forall q: nat | Start(s, q)
      ensures Start(s', q)
    {
    }
    forall i | 0 <= i < p
      ensures c[i] != Jmp(To(|s'.code|))
    {
      assert WfAt(c, i);
    }
  }

  // -- bcemit_branch_t and bcemit_branch_f -----------------------------------------------------------

  /** Runs whose truth is b go on at the end; the others leave through L with their value. */
  predicate Branched(s: FS, L: set<nat>, o: Outcome, x: Expect, P: set<nat>, b: bool) {
    match x
    case Gets(R0, v) =>
      && |R0| == MAX_SLOTS
      && (if Truthy(v) == b then o.Done? else o.Exit? && o.j in L && Brings(s.code, o.j, o.regs, v, !b))
      && Same(R0, o.regs, P)
    case Passes(p) => o == p && !p.Done? && (p.Exit? ==> p.j !in s.jpc + L)
  }

  /** The list of e that goes on, and the one that leaves. */
  function GoOn(e: Exp, b: bool): set<nat> { if b then e.t else e.f }
  function Leave(e: Exp, b: bool): set<nat> { if b then e.f else e.t }

  ghost predicate BranchWf(s: FS, L: set<nat>) {
    Wf(s) && AllPending(s.code, L) && s.jpc !! L
  }

  lemma HereOk(s: FS, e: Exp, L: set<nat>, q: nat, R: Regs, x: Expect, P: set<nat>, b: bool)
    requires SplitWf(s, e, L) && q <= |s.code| && Splits(s, e, L, Run(s, q, R), x, P, b)
    ensures var s' := ToHere(s, GoOn(e, b));
            && BranchWf(s', Leave(e, b) + L) && Keeps(s, {}, s')
            && Branched(s', Leave(e, b) + L, Run(s', q, R), x, P, b)
  {
  }

  /** The jumps a branch adds to e, and the state it leaves. */
  function BranchOn(s: FS, e: Exp, b: bool): Option<(FS, set<nat>)> {
    match e.k
    case KConst(k) => Some(if Truthy(k) == b then (s, {}) else EmitJmp(ToRegNoBranch(s, e, NO_REG).0))
    case KJmp(pc) => Some((if b then InvertCond(s, pc) else s, {pc}))
    case _ => Branch(s, e, !b)
  }

  lemma BranchTIs(s: FS, e: Exp)
    ensures BranchT(s, e) == (var d := Discharge(e);
                              var r := BranchOn(s, d, true);
                              if r.None? then None
                              else Some((ToHere(r.value.0, d.t), d.(t := {}, f := d.f + r.value.1))))
  {
  }

  lemma BranchFIs(s: FS, e: Exp)
    ensures BranchF(s, e) == (var d := Discharge(e);
                              var r := BranchOn(s, d, false);
                              if r.None? then None
                              else Some((ToHere(r.value.0, d.f), d.(t := d.t + r.value.1, f := {}))))
  {
  }

  lemma BranchRegOk(s: FS, e: Exp, cond: bool, q: nat, R: Regs, x: Expect, P: set<nat>)
    requires Good(s, e) && e.k.KReg? && Start(s, q) && Delivers(s, e, q, R, x, P)
    ensures Branch(s, e, cond).Some?
    ensures var (s', L) := Branch(s, e, cond).value;
            && SplitWf(s', e, L) && q <= |s'.code| && Keeps(s, s.jpc, s') && s'.free == BaseReg(s, e)
            && s'.jpc == {} && L == {|s.code| + 1}
            && Splits(s', e, L, Run(s', q, R), x, P, !cond)
  {
    hide Exec, Take, Patch;
    SplitRegOk(s, e, cond, q, R, x, P);
    EmitTestIsExt(s, TestCopy(cond, NO_REG, e.k.r));
  }

  /** A relocatable expression other than a negation goes to a register first. */
  lemma BranchRelocOk(s: FS, e: Exp, cond: bool, q: nat, R: Regs, x: Expect, P: set<nat>)
    requires Good(s, e) && e.k.KReloc? && !s.code[e.k.pc].f.Not? && Branch(s, e, cond).Some?
    requires BaseReg(s, e) !in P && Start(s, q) && Delivers(s, e, q, R, x, P)
    ensures var (s', L) := Branch(s, e, cond).value;
            && SplitWf(s', e, L) && q <= |s'.code| && Keeps(s, s.jpc, s') && s'.free == BaseReg(s, e)
            && s'.jpc == {} && (forall j :: j in L ==> j >= |s.code|)
            && Splits(s', e, L, Run(s', q, R), x, P, !cond)
  {
    NextRegState(s, e);
    var n := Reserve(s, 1).value;
    RecountOk(s, e, n);
    var reg := s.free;
    ToRegNoBranchWf(n, e, reg);
    ToRegNoBranchOk(n, e, reg, q, R, x, P);
    var (s1, e1) := ToRegNoBranch(n, e, reg);
    BranchRegOk(s1, e1, cond, q, R, x, P);
    var (s', L) := Branch(s1, e1, cond).value;
    KeepsTrans(s, s.jpc, s1, s1.jpc, s');
  }

  lemma BranchOnOk(s: FS, e: Exp, b: bool, q: nat, R: Regs, x: Expect, P: set<nat>)
    requires Good(s, e) && !e.k.KLocal? && BranchOn(s, e, b).Some?
    requires BaseReg(s, e) !in P && Start(s, q) && Delivers(s, e, q, R, x, P)
    ensures var (s', L) := BranchOn(s, e, b).value;
            && SplitWf(s', e, L) && q <= |s'.code| && Keeps(s, Owns(s, e), s') && s'.free == BaseReg(s, e)
            && s'.jpc <= s.jpc && (forall j :: j in L ==> j in Owns(s, e) || j >= |s.code|)
            && Splits(s', e, L, Run(s', q, R), x, P, b)
  {
    hide Exec, Take, Patch;
    var (s', L) := BranchOn(s, e, b).value;
    match e.k {
      case KConst(k) =>
        if Truthy(k) != b {
          SplitConstOk(s, e, q, R, x, P);
          KeepsMore(s, s.jpc, s', Owns(s, e));
        }
      case KJmp(pc) =>
        SplitJmpOk(s, e, q, R, x, P, b);
        KeepsMore(s, {pc}, s', Owns(s, e));
      case KReg(r) =>
        BranchRegOk(s, e, !b, q, R, x, P);
        KeepsMore(s, s.jpc, s', Owns(s, e));
      case KReloc(p) =>
        if s.code[p].f.Not? {
          SplitNotOk(s, e, !b, q, R, x, P);
          KeepsMore(s, {}, s', Owns(s, e));
        } else {
          BranchRelocOk(s, e, !b, q, R, x, P);
          KeepsMore(s, s.jpc, s', Owns(s, e));
        }
      case KLocal(_) =>
    }
  }

  /** Only the lists of an expression. */
  function Lists(t: set<nat>, f: set<nat>): Exp {
    Exp(KConst(Nil), t, f)
  }

  lemma BranchHereOk(s: FS, e: Exp, b: bool, q: nat, R: Regs, x: Expect, P: set<nat>)
    requires Good(s, e) && !e.k.KLocal? && BranchOn(s, e, b).Some?
    requires BaseReg(s, e) !in P && Start(s, q) && Delivers(s, e, q, R, x, P)
    ensures var (s1, L) := BranchOn(s, e, b).value;
            var s' := ToHere(s1, GoOn(e, b));
            var M := Leave(e, b) + L;
            && BranchWf(s', M) && Start(s', q) && s'.free == BaseReg(s, e)
            && Evolves(s, e, s', Lists({}, M)) && Branched(s', M, Run(s', q, R), x, P, b)
  {
    var (s1, L) := BranchOn(s, e, b).value;
    BranchOnOk(s, e, b, q, R, x, P);
    HereOk(s1, e, L, q, R, x, P, b);
    var s' := ToHere(s1, GoOn(e, b));
    KeepsTrans(s, Owns(s, e), s1, {}, s');
    assert Owns(s, e) + {} == Owns(s, e);
    KeepsEvolves(s, e, s', Lists({}, Leave(e, b) + L));
  }

  /** Before the right operand of && is emitted. */
  lemma BranchTOk(s: FS, e: Exp, q: nat, R: Regs, x: Expect, P: set<nat>)
    requires Good(s, e) && BranchT(s, e).Some?
    requires BaseReg(s, e) !in P && Start(s, q) && Delivers(s, e, q, R, x, P)
    ensures var (s', e') := BranchT(s, e).value;
            && e'.t == {} && BranchWf(s', e'.f) && Start(s', q) && s'.free == BaseReg(s, e)
            && Evolves(s, e, s', Lists({}, e'.f)) && Branched(s', e'.f, Run(s', q, R), x, P, true)
  {
    BranchTIs(s, e);
    DischargeOk(s, e);
    var d := Discharge(e);
    BranchHereOk(s, d, true, q, R, x, P);
    var (s', e') := BranchT(s, e).value;
    EvolvesTrans(s, e, s, d, s', Lists({}, e'.f));
  }

  /** Before the right operand of || is emitted. */
  lemma BranchFOk(s: FS, e: Exp, q: nat, R: Regs, x: Expect, P: set<nat>)
    requires Good(s, e) && BranchF(s, e).Some?
    requires BaseReg(s, e) !in P && Start(s, q) && Delivers(s, e, q, R, x, P)
    ensures var (s', e') := BranchF(s, e).value;
            && e'.f == {} && BranchWf(s', e'.t) && Start(s', q) && s'.free == BaseReg(s, e)
            && Evolves(s, e, s', Lists({}, e'.t)) && Branched(s', e'.t, Run(s', q, R), x, P, false)
  {
    BranchFIs(s, e);
    DischargeOk(s, e);
    var d := Discharge(e);
    BranchHereOk(s, d, false, q, R, x, P);
    var (s', e') := BranchF(s, e).value;
    EvolvesTrans(s, e, s, d, s', Lists({}, e'.t));
  }
}
