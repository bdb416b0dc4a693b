/** The parser's emitters, as they update the function state, produce code that
    computes the value of the expression. */
module CompiledCode {
  import opened Values
  import opened ExprCode
  import opened Emitter
  import opened EmitProof
  import opened ExprTheorem
  import opened FuncStates
  import opened JumpList
  import Leaks

  /** From s to s', the code behind s computes x into register s.free: a run that
      ended with registers S ends with the value there and the registers in use
      unchanged; a type error in x stops it; any other run is the same. */
  predicate Computes(s: FS, x: Expr, s': FS, q: nat, R: Regs)
    requires q <= |s.code|
  {
    && q <= |s'.code| && s'.free == s.free + 1
    && var (o, o') := (Run(s, q, R), Run(s', q, R));
       if !o.Done? then o' == o
       else match Eval(x, o.regs)
            case None => o'.Fail?
            case Some(v) => o'.Done? && Read(o'.regs, s.free) == v && Same(o.regs, o'.regs, Below(s.free))
  }

  /** A function that has just been opened: expressions can be compiled. */
  method NewFunction() returns (fs: FuncState)
    ensures fresh(fs) && fs.Valid() && Wf(fs.Abs()) && fs.pend == {} && fs.freereg == fs.nactvar == 0
  {
    fs := new FuncState();
    assert WfAt(fs.Abs().code, 0);
  }

  /** expr_next: compile an expression into the next register. */
  method ExprNext(fs: FuncState, x: Expr) returns (st: Status, e: ExpDesc)
    requires fs.Valid() && Wf(fs.Abs()) && FuncState.SourceOk(x) && LocalsOk(x, fs.nactvar)
    modifies fs
    ensures st.Err? ==> fs.AtLimit()
    ensures st.Ok? ==>
              && fs.Valid() && Wf(fs.Abs()) && e == fs.RegDesc(old(fs.freereg))
              && forall q: nat, R: Regs :: Start(old(fs.Abs()), q) && |R| == MAX_SLOTS ==>
                   Computes(old(fs.Abs()), x, fs.Abs(), q, R)
    ensures st.Ok? && old(fs.pend <= Elems(fs.bc, fs.jpc)) ==> fs.pend <= Elems(fs.bc, fs.jpc)
  {
    hide Start, Run, Compile, ToNextReg, Eval, Same, LocalsOk, NoEndTarget, WfCode, AllPending;
    ghost var s := fs.Abs();
    fs.PendIs();
    st, e := fs.CompileExpr(x);
    if st.Err? { return; }
    st, e := fs.ExprTonextreg(e);
    if st.Err? { return; }
    AllRuns(s, x, fs.Abs());
    fs.PendIs();
    NothingLost(s, x, fs.Abs());
  }

  /** Jumps that only wait for the next instruction still do. */
  lemma NothingLost(s: FS, x: Expr, s': FS)
    requires Compile(s, x).Some? && ToNextReg(Compile(s, x).value.0, Compile(s, x).value.1).Some?
    requires s' == ToNextReg(Compile(s, x).value.0, Compile(s, x).value.1).value.0
    ensures (forall j: nat :: j < |s.code| && s.code[j] == Jmp(Pending) ==> j in s.jpc) ==>
              forall j: nat :: j < |s'.code| && s'.code[j] == Jmp(Pending) ==> j in s'.jpc
  {
    hide Compile, ToNextReg;
    if forall j: nat :: j < |s.code| && s.code[j] == Jmp(Pending) ==> j in s.jpc {
      Leaks.NextRegTight(s, x, {});
      assert forall j: nat :: j < |s'.code| && s'.code[j] == Jmp(Pending) ==> j in Leaks.Pend(s'.code);
    }
  }

  lemma AllRuns(s: FS, x: Expr, s': FS)
    requires Wf(s) && LocalsOk(x, s.nact) && Compile(s, x).Some?
    requires ToNextReg(Compile(s, x).value.0, Compile(s, x).value.1).Some?
    requires s' == ToNextReg(Compile(s, x).value.0, Compile(s, x).value.1).value.0
    ensures Wf(s') && ToNextReg(Compile(s, x).value.0, Compile(s, x).value.1).value.1 == Exp(KReg(s.free), {}, {})
    ensures forall q: nat, R: Regs :: Start(s, q) && |R| == MAX_SLOTS ==> Computes(s, x, s', q, R)
  {
    hide Run, Compile, ToNextReg, Eval, Same, LocalsOk, NoEndTarget, WfCode, AllPending;
    forall q: nat, R: Regs | Start(s, q) && |R| == MAX_SLOTS
      ensures Computes(s, x, s', q, R)
    {
      ExprNextCorrect(s, x, q, R);
    }
    ExprNextCorrect(s, x, 0, seq(MAX_SLOTS, i => Nil));
  }
}
