/** Assignments to local variables, on the code the parser emits: the statement
    r1, r2, ... = x1, x2, ... leaves in every local the value meant for its first
    occurrence on the left, all values being computed from the registers the
    statement started with. */
module LocalAssign {
  import opened Values
  import opened ExprCode
  import opened Emitter
  import opened EmitProof
  import opened EmitOps
  import opened ExprTheorem
  import opened FuncStates
  import opened JumpList

  // -- What the statement means -------------------------------------------------------

  /** The values of a list of expressions, all read from the same registers. */
  function EvalAll(xs: seq<Expr>, R: Regs): (r: Option<seq<Val>>)
    ensures r.Some? ==> |r.value| == |xs|
  {
    if xs == [] then Some([])
    else
      var vs :- EvalAll(xs[..|xs| - 1], R);
      var v :- Eval(xs[|xs| - 1], R);
      Some(vs + [v])
  }

  function First(rs: seq<nat>, r: nat): (i: nat)
    requires r in rs
    ensures i < |rs| && rs[i] == r && forall j :: 0 <= j < i ==> rs[j] != r
  {
    if rs[0] == r then 0 else 1 + First(rs[1..], r)
  }

  /** A target without an expression gets nil. */
  function ValueFor(vs: seq<Val>, i: nat): Val {
    if i < |vs| then vs[i] else Nil
  }

  /** What register r holds after the statement. */
  function Final(S: Regs, rs: seq<nat>, vs: seq<Val>, r: nat): Val {
    if r in rs then ValueFor(vs, First(rs, r)) else Read(S, r)
  }

  /** From s to s', the code behind s performs the assignment: a run that ended with
      registers S ends with every local assigned and the other registers in use
      unchanged; a type error stops it; any other run is the same. */
  predicate AssignsAll(s: FS, rs: seq<nat>, xs: seq<Expr>, s': FS, q: nat, R: Regs)
    requires q <= |s.code|
  {
    && q <= |s'.code|
    && var (o, o') := (Run(s, q, R), Run(s', q, R));
       if !o.Done? then o' == o
       else match EvalAll(xs, o.regs)
            case None => o'.Fail?
            case Some(vs) =>
              && o'.Done? && |o'.regs| == MAX_SLOTS
              && forall r: nat :: r < s.free ==> Read(o'.regs, r) == Final(o.regs, rs, vs, r)
  }

  // -- What the parser emits ------------------------------------------------------------

  /** bcemit_store for a local variable. */
  function Store(s: FS, e: Exp, r: nat): FS {
    ToReg(FreeExp(s, e), e, r).0
  }

  /** Store the register below the first free one. */
  function StoreTop(s: FS, r: nat): FS {
    Store(s, Exp(KReg(Dec(s.free)), {}, {}), r)
  }

  /** The targets before m get their values, the last of them first. */
  function StoreDown(s: FS, rs: seq<nat>, m: nat): FS
    requires m <= |rs|
    decreases m
  {
    if m == 0 then s else StoreDown(StoreTop(s, rs[m - 1]), rs, m - 1)
  }

  /** Compute expressions into consecutive registers. */
  function PushAll(s: FS, xs: seq<Expr>): Option<FS> {
    if xs == [] then Some(s)
    else
      var s1 :- PushAll(s, xs[..|xs| - 1]);
      var c :- Compile(s1, xs[|xs| - 1]);
      var t :- ToNextReg(c.0, c.1);
      Some(t.0)
  }

  /** assign_adjust on the registers: missing values are nil, surplus ones dropped. */
  function Adjust(s: FS, n: nat, m: nat): Option<FS> {
    if m < n then
      var s1 :- Reserve(s, n - m);
      Some(EmitNil(s1, s.free, n - m))
    else if n <= m <= s.free + n then Some(s.(free := s.free - (m - n)))
    else None
  }

  function AssignLocals(s: FS, rs: seq<nat>, xs: seq<Expr>): Option<FS>
    requires rs != []
  {
    var (n, m) := (|rs|, |xs|);
    if m == n then
      var s1 :- PushAll(s, xs[..n - 1]);
      var c :- Compile(s1, xs[n - 1]);
      Some(StoreDown(Store(c.0, c.1, rs[n - 1]), rs, n - 1))
    else
      var s1 :- PushAll(s, xs);
      var s2 :- Adjust(s1, n, m);
      Some(StoreDown(s2, rs, n))
  }

  // -- Storing ------------------------------------------------------------------------------

  /** Putting an expression into a register does not look at the register count. */
  lemma ToRegRecount(s: FS, e: Exp, r: nat, f: nat)
    ensures ToReg(s.(free := f), e, r).0 == ToReg(s, e, r).0.(free := f)
  {
    hide Patch, Settle, EmitBools, NoValue, EmitNil, Emit;
    NoBranchRecount(s, e, r, f);
    var (s1, e1) := ToRegNoBranch(s, e, r);
    SettleRecount(s1, e1, r, f);
  }

  lemma NoBranchRecount(s: FS, e: Exp, r: nat, f: nat)
    ensures ToRegNoBranch(s.(free := f), e, r) ==
            var (s1, e1) := ToRegNoBranch(s, e, r); (s1.(free := f), e1)
  {
    hide Patch;
  }

  lemma BoolsRecount(s: FS, r: nat, jval: set<nat>, f: nat)
    ensures EmitBools(s.(free := f), r, jval) == EmitBools(s, r, jval).(free := f)
  {
    hide Patch;
  }

  lemma SettleRecount(s: FS, e: Exp, r: nat, f: nat)
    ensures SettleAll(s.(free := f), e, r) == SettleAll(s, e, r).(free := f)
  {
    hide Patch, EmitBools, NoValue;
    BoolsRecount(s, r, {}, f);
    BoolsRecount(EmitJmp(s).0, r, EmitJmp(s).1, f);
  }

  /** Code can be emitted behind s, and runs from q reach its end. */
  ghost predicate Ready(s: FS, q: nat) {
    Wf(s) && Start(s, q) && q <= |s.code|
  }

  lemma StoreOk(s: FS, e: Exp, r: nat, q: nat, R: Regs, x: Expect, P: set<nat>)
    requires Good(s, e) && r < s.nact && r !in P && Start(s, q) && Delivers(s, e, q, R, x, P)
    ensures var s' := Store(s, e, r);
            && Ready(s', q) && s'.nact == s.nact && s'.free == FreeExp(s, e).free
            && var o := Run(s', q, R);
               match x
               case Gets(R0, v) => o.Done? && Read(o.regs, r) == v && Same(R0, o.regs, P)
               case Passes(p) => o == p
  {
    hide ToReg, Exec;
    var (s1, e1) := ToReg(s, e, r);
    ToRegWf(s, e, r);
    ToRegOk(s, e, r, q, R, x, P);
    ToRegRecount(s, e, r, FreeExp(s, e).free);
    assert FreeExp(s, e) == s.(free := FreeExp(s, e).free);
    StartKept(s, e, s1, e1, q);
  }

  /** What is expected of the register on top. */
  function TopValue(s: FS, q: nat, R: Regs): Expect
    requires q <= |s.code|
  {
    var o := Run(s, q, R);
    if o.Done? then Gets(o.regs, Read(o.regs, Dec(s.free))) else Passes(o)
  }

  lemma TopDelivers(s: FS, q: nat, R: Regs, P: set<nat>)
    requires Ready(s, q) && |R| == MAX_SLOTS && s.nact < s.free
    ensures var e := Exp(KReg(s.free - 1), {}, {}); Good(s, e) && Delivers(s, e, q, R, TopValue(s, q, R), P)
  {
    hide Exec, WfCode, NoEndTarget;
  }

  /** Done runs copy the register on top into the local; others are the same. */
  lemma StoreTopOk(s: FS, r: nat, q: nat, R: Regs)
    requires Ready(s, q) && |R| == MAX_SLOTS && r < s.nact < s.free
    ensures var s' := StoreTop(s, r);
            && Ready(s', q) && s'.nact == s.nact && s'.free == s.free - 1
            && var (o, o') := (Run(s, q, R), Run(s', q, R));
               if !o.Done? then o' == o
               else
                 && o'.Done? && Read(o'.regs, r) == Read(o.regs, s.free - 1)
                 && Same(o.regs, o'.regs, Below(MAX_SLOTS) - {r})
  {
    hide Store, Run, Good, Delivers, Same;
    var P := Below(MAX_SLOTS) - {r};
    TopDelivers(s, q, R, P);
    StoreOk(s, Exp(KReg(s.free - 1), {}, {}), r, q, R, TopValue(s, q, R), P);
  }

  /** Registers base, base + 1, ... hold the values vs. */
  predicate Lined(T: Regs, base: nat, vs: seq<Val>) {
    |T| == MAX_SLOTS && base + |vs| <= MAX_SLOTS && forall i :: 0 <= i < |vs| ==> T[base + i] == vs[i]
  }

  /** Taking the last value leaves the others lined up. */
  lemma LinedPrefix(T: Regs, base: nat, vs: seq<Val>, T': Regs, r: nat)
    requires Lined(T, base, vs) && vs != [] && r < base && Same(T, T', Below(MAX_SLOTS) - {r})
    ensures Lined(T', base, vs[..|vs| - 1]) && |T| == MAX_SLOTS
    ensures Read(T, base + |vs| - 1) == vs[|vs| - 1]
    ensures Same(T, T', Below(base) - {r})
  {
    assert T[base + (|vs| - 1)] == vs[|vs| - 1];
  }

  /** Register r after the first m targets got their values. */
  function Put(T: Regs, rs: seq<nat>, m: nat, vs: seq<Val>, r: nat): Val
    requires m <= |rs| && m == |vs|
  {
    if r in rs[..m] then vs[First(rs[..m], r)] else Read(T, r)
  }

  /** Whether the registers below base are as expected after the first m targets. */
  predicate PutAll(o: Outcome, o': Outcome, rs: seq<nat>, m: nat, vs: seq<Val>, base: nat)
    requires m <= |rs| && m == |vs|
  {
    if !o.Done? then o' == o
    else
      && o'.Done? && |o'.regs| == MAX_SLOTS
      && forall r: nat :: r < base ==> Read(o'.regs, r) == Put(o.regs, rs, m, vs, r)
  }

  /** The values lined up above the registers in use reach their targets; a target
      named twice keeps the value of its first occurrence. */
  lemma {:induction false} StoreDownOk(s: FS, rs: seq<nat>, m: nat, q: nat, R: Regs, vs: seq<Val>)
    requires Ready(s, q) && |R| == MAX_SLOTS && m <= |rs| && m == |vs|
    requires forall i :: 0 <= i < m ==> rs[i] < s.nact
    requires s.nact + m <= s.free
    requires Run(s, q, R).Done? ==> Lined(Run(s, q, R).regs, s.free - m, vs)
    ensures var s' := StoreDown(s, rs, m);
            && Ready(s', q) && s'.nact == s.nact && s'.free == s.free - m
            && PutAll(Run(s, q, R), Run(s', q, R), rs, m, vs, s.free - m)
    decreases m
  {
    hide StoreTop, Run, Wf, Start, Lined, Put;
    var o := Run(s, q, R);
    if m == 0 {
      PutNone(o, rs, vs, s.free);
    } else {
      var (r0, s1) := (rs[m - 1], StoreTop(s, rs[m - 1]));
      StoreTopOk(s, r0, q, R);
      var o1 := Run(s1, q, R);
      if o.Done? {
        LinedPrefix(o.regs, s.free - m, vs, o1.regs, r0);
      }
      StoreDownOk(s1, rs, m - 1, q, R, vs[..m - 1]);
      PutMore(o, o1, Run(StoreDown(s, rs, m), q, R), rs, m, vs, s.free - m);
    }
  }

  lemma PutNone(o: Outcome, rs: seq<nat>, vs: seq<Val>, base: nat)
    requires vs == [] && (o.Done? ==> Lined(o.regs, base, vs))
    ensures PutAll(o, o, rs, 0, vs, base)
  {
  }

  lemma PutMore(o: Outcome, o1: Outcome, o': Outcome, rs: seq<nat>, m: nat, vs: seq<Val>, base: nat)
    requires 1 <= m <= |rs| && m == |vs| && rs[m - 1] < base
    requires if !o.Done? then o1 == o
             else
               && o1.Done? && |o.regs| == MAX_SLOTS && Read(o1.regs, rs[m - 1]) == vs[m - 1]
               && Same(o.regs, o1.regs, Below(base) - {rs[m - 1]})
    requires PutAll(o1, o', rs, m - 1, vs[..m - 1], base)
    ensures PutAll(o, o', rs, m, vs, base)
  {
    if o.Done? {
      forall r: nat | r < base
        ensures Read(o'.regs, r) == Put(o.regs, rs, m, vs, r)
      {
        FirstMore(rs, m, r);
        assert Read(o'.regs, r) == Put(o1.regs, rs, m - 1, vs[..m - 1], r);
      }
    }
  }

  /** The first occurrence among m targets is among the first m - 1 or the last of them. */
  lemma FirstMore(rs: seq<nat>, m: nat, r: nat)
    requires 1 <= m <= |rs|
    ensures r in rs[..m] <==> r in rs[..m - 1] || r == rs[m - 1]
    ensures r in rs[..m - 1] ==> First(rs[..m], r) == First(rs[..m - 1], r)
    ensures r in rs[..m] && r !in rs[..m - 1] ==> First(rs[..m], r) == m - 1
  {
    assert rs[..m] == rs[..m - 1] + [rs[m - 1]];
  }

  // -- Computing --------------------------------------------------------------------------------

  /** The values of xs are lined up above the registers that were in use, which are
      unchanged; a type error stops the run. */
  predicate Pushed(o: Outcome, o': Outcome, xs: seq<Expr>, base: nat) {
    if !o.Done? then o' == o
    else match EvalAll(xs, o.regs)
         case None => o'.Fail?
         case Some(vs) => o'.Done? && Lined(o'.regs, base, vs) && Same(o.regs, o'.regs, Below(base))
  }

  lemma {:induction false} PushAllOk(s: FS, xs: seq<Expr>, q: nat, R: Regs)
    requires Ready(s, q) && |R| == MAX_SLOTS && PushAll(s, xs).Some?
    requires forall i :: 0 <= i < |xs| ==> LocalsOk(xs[i], s.nact)
    ensures var s' := PushAll(s, xs).value;
            && Ready(s', q) && s'.nact == s.nact && s'.free == s.free + |xs| < MAX_SLOTS
            && Pushed(Run(s, q, R), Run(s', q, R), xs, s.free)
    decreases |xs|
  {
    hide Run, Start, Compile, ToNextReg, Pushed, LocalsOk;
    var o := Run(s, q, R);
    if xs == [] {
      PushedNone(s, q, R);
    } else {
      var (l, x) := (xs[..|xs| - 1], xs[|xs| - 1]);
      PushAllOk(s, l, q, R);
      var s1 := PushAll(s, l).value;
      NextState(s1, x, q, R);
      var s' := PushAll(s, xs).value;
      ExprNextCorrect(s1, x, q, R);
      PushedMore(o, Run(s1, q, R), Run(s', q, R), xs, s.free, s.nact);
    }
  }

  lemma PushedNone(s: FS, q: nat, R: Regs)
    requires Ready(s, q) && |R| == MAX_SLOTS
    ensures var o := Run(s, q, R); Pushed(o, o, [], s.free) && s.free < MAX_SLOTS
  {
    hide Exec;
  }

  lemma NextState(s: FS, x: Expr, q: nat, R: Regs)
    requires Ready(s, q) && |R| == MAX_SLOTS && LocalsOk(x, s.nact)
    requires Compile(s, x).Some? && ToNextReg(Compile(s, x).value.0, Compile(s, x).value.1).Some?
    ensures var s' := ToNextReg(Compile(s, x).value.0, Compile(s, x).value.1).value.0;
            Start(s', q) && s'.nact == s.nact
  {
    hide Run, Start, Compile, ToNextReg, LocalsOk;
    var (s1, e) := Compile(s, x).value;
    CompileOk(s, x, q, R);
    ToNextRegWf(s1, e);
    var (s2, e2) := ToNextReg(s1, e).value;
    StartKept(s, NOTHING, s1, e, q);
    StartKept(s1, e, s2, e2, q);
  }

  lemma PushedMore(o: Outcome, o1: Outcome, o': Outcome, xs: seq<Expr>, base: nat, nact: nat)
    requires xs != [] && nact <= base && base + |xs| <= MAX_SLOTS && LocalsOk(xs[|xs| - 1], nact)
    requires Pushed(o, o1, xs[..|xs| - 1], base)
    requires var top := base + |xs| - 1;
             if !o1.Done? then o' == o1
             else match Eval(xs[|xs| - 1], o1.regs)
                  case None => o'.Fail?
                  case Some(v) => o'.Done? && Read(o'.regs, top) == v && Same(o1.regs, o'.regs, Below(top))
    ensures Pushed(o, o', xs, base)
  {
    hide Eval, LocalsOk;
    if o.Done? && o1.Done? {
      EvalSame(xs[|xs| - 1], o.regs, o1.regs, nact, base);
    }
  }

  // -- The statement -----------------------------------------------------------------------------

  /** bcemit_store of the value of an expression: the local gets the value, the other
      registers in use are unchanged. */
  lemma StoreValueOk(s: FS, x: Expr, r: nat, q: nat, R: Regs)
    requires Ready(s, q) && |R| == MAX_SLOTS && LocalsOk(x, s.nact) && r < s.nact && Compile(s, x).Some?
    ensures var s' := Store(Compile(s, x).value.0, Compile(s, x).value.1, r);
            && Ready(s', q) && s'.nact == s.nact && s'.free == s.free
            && var (o, o') := (Run(s, q, R), Run(s', q, R));
               if !o.Done? then o' == o
               else match Eval(x, o.regs)
                    case None => o'.Fail?
                    case Some(v) => o'.Done? && Read(o'.regs, r) == v && Same(o.regs, o'.regs, Below(s.free) - {r})
  {
    hide Run, Compile, Store, Good, Start, LocalsOk, Eval, Same, Delivers;
    var (s1, e) := Compile(s, x).value;
    CompileOk(s, x, q, R);
    StartKept(s, NOTHING, s1, e, q);
    DeliversMono(s1, e, q, R, Want(s, x, q, R), Below(s.free), Below(s.free) - {r});
    StoreOk(s1, e, r, q, R, Want(s, x, q, R), Below(s.free) - {r});
  }

  /** One value for each of n targets. */
  function Padded(vs: seq<Val>, n: nat): seq<Val> {
    seq(n, i requires 0 <= i => ValueFor(vs, i))
  }

  /** Whatever number of values was computed, there is one for each target. */
  lemma AdjustOk(s: FS, n: nat, m: nat, q: nat, R: Regs, vs: seq<Val>)
    requires Ready(s, q) && |R| == MAX_SLOTS && n != m == |vs| && s.nact + m <= s.free && Adjust(s, n, m).Some?
    requires Run(s, q, R).Done? ==> Lined(Run(s, q, R).regs, s.free - m, vs)
    ensures var s' := Adjust(s, n, m).value;
            && Ready(s', q) && s'.nact == s.nact && s'.free == s.free - m + n
            && var (o, o') := (Run(s, q, R), Run(s', q, R));
               if !o.Done? then o' == o
               else o'.Done? && Lined(o'.regs, s.free - m, Padded(vs, n)) && Same(o.regs, o'.regs, Below(s.free - m))
  {
    hide Exec, WfCode, NoEndTarget, AllPending, EmitNil, Below;
    if m < n {
      var s1 := Reserve(s, n - m).value;
      EmitNilWf(s1, s.free, n - m);
      EmitNilRun(s1, s.free, n - m, q, R);
    }
  }

  lemma PutFinal(o: Outcome, o2: Outcome, o': Outcome, rs: seq<nat>, vs: seq<Val>, base: nat)
    requires o.Done? && o2.Done? && PutAll(o2, o', rs, |rs|, Padded(vs, |rs|), base)
    requires Same(o.regs, o2.regs, Below(base))
    ensures o'.Done? && |o'.regs| == MAX_SLOTS
    ensures forall r: nat :: r < base ==> Read(o'.regs, r) == Final(o.regs, rs, vs, r)
  {
    assert rs[..|rs|] == rs;
    forall r: nat | r < base
      ensures Read(o'.regs, r) == Final(o.regs, rs, vs, r)
    {
      assert Read(o'.regs, r) == Put(o2.regs, rs, |rs|, Padded(vs, |rs|), r);
      assert r in Below(base);
    }
  }

  /** Fewer or more expressions than targets. */
  lemma UnevenOk(s: FS, rs: seq<nat>, xs: seq<Expr>, q: nat, R: Regs)
    requires Ready(s, q) && |R| == MAX_SLOTS && rs != [] && |xs| != |rs| && AssignLocals(s, rs, xs).Some?
    requires forall i :: 0 <= i < |rs| ==> rs[i] < s.nact
    requires forall i :: 0 <= i < |xs| ==> LocalsOk(xs[i], s.nact)
    ensures var s' := AssignLocals(s, rs, xs).value;
            Ready(s', q) && s'.nact == s.nact && s'.free == s.free && AssignsAll(s, rs, xs, s', q, R)
  {
    hide Run, Start, WfCode, AllPending, NoEndTarget, PushAll, Adjust, StoreDown, Lined, Same, Put, Final, LocalsOk;
    var (n, m, base) := (|rs|, |xs|, s.free);
    var (s1, o) := (PushAll(s, xs).value, Run(s, q, R));
    PushAllOk(s, xs, q, R);
    var o1 := Run(s1, q, R);
    var vs := if o1.Done? && o.Done? then EvalAll(xs, o.regs).value else seq(m, i => Nil);
    AdjustOk(s1, n, m, q, R, vs);
    var s2 := Adjust(s1, n, m).value;
    StoreDownOk(s2, rs, n, q, R, Padded(vs, n));
    var s' := StoreDown(s2, rs, n);
    if o.Done? && o1.Done? {
      SameTrans(o.regs, o1.regs, Run(s2, q, R).regs, base);
      PutFinal(o, Run(s2, q, R), Run(s', q, R), rs, vs, base);
    }
  }

  lemma SameTrans(S: Regs, T: Regs, U: Regs, base: nat)
    requires Same(S, T, Below(base)) && Same(T, U, Below(base))
    ensures Same(S, U, Below(base))
  {
  }

  /** As many expressions as targets: the last one goes straight to its target. */
  lemma EvenOk(s: FS, rs: seq<nat>, xs: seq<Expr>, q: nat, R: Regs)
    requires Ready(s, q) && |R| == MAX_SLOTS && rs != [] && |xs| == |rs| && AssignLocals(s, rs, xs).Some?
    requires forall i :: 0 <= i < |rs| ==> rs[i] < s.nact
    requires forall i :: 0 <= i < |xs| ==> LocalsOk(xs[i], s.nact)
    ensures var s' := AssignLocals(s, rs, xs).value;
            Ready(s', q) && s'.nact == s.nact && s'.free == s.free && AssignsAll(s, rs, xs, s', q, R)
  {
    hide Run, Start, WfCode, AllPending, NoEndTarget, PushAll, Store, StoreDown, Compile, Lined, Same, Put, Final,
         LocalsOk, Eval;
    var (n, base) := (|rs| - 1, s.free);
    var (l, x, r) := (xs[..n], xs[n], rs[n]);
    var (s1, o) := (PushAll(s, l).value, Run(s, q, R));
    PushAllOk(s, l, q, R);
    var o1 := Run(s1, q, R);
    StoreValueOk(s1, x, r, q, R);
    var s2 := Store(Compile(s1, x).value.0, Compile(s1, x).value.1, r);
    var o2 := Run(s2, q, R);
    if o.Done? && o1.Done? {
      var vs := EvalAll(l, o.regs).value;
      EvalSame(x, o.regs, o1.regs, s.nact, base);
      if o2.Done? {
        LinedKept(o1.regs, o2.regs, base, vs, r);
        StoreDownOk(s2, rs, n, q, R, vs);
        var o' := Run(StoreDown(s2, rs, n), q, R);
        var v := Eval(x, o.regs).value;
        OverLast(o, o1, o2, rs, vs, v, base);
        PutMore(o, o2, o', rs, n + 1, vs + [v], base);
        PaddedAll(vs + [v]);
        SameSelf(o.regs, base);
        PutFinal(o, o, o', rs, vs + [v], base);
        return;
      }
    }
    StoreDownOk(s2, rs, n, q, R, seq(n, i => Nil));
  }

  /** Storing into a local leaves the values lined up. */
  lemma LinedKept(T: Regs, T': Regs, base: nat, vs: seq<Val>, r: nat)
    requires Lined(T, base, vs) && r < base && Same(T, T', Below(base + |vs|) - {r})
    ensures Lined(T', base, vs)
  {
  }

  lemma OverLast(o: Outcome, o1: Outcome, o2: Outcome, rs: seq<nat>, vs: seq<Val>, v: Val, base: nat)
    requires o.Done? && o1.Done? && o2.Done? && rs != [] && |vs| == |rs| - 1 && Lined(o1.regs, base, vs)
    requires Same(o.regs, o1.regs, Below(base))
    requires Same(o1.regs, o2.regs, Below(base + |vs|) - {rs[|rs| - 1]}) && Read(o2.regs, rs[|rs| - 1]) == v
    ensures |o.regs| == MAX_SLOTS && Read(o2.regs, rs[|rs| - 1]) == (vs + [v])[|rs| - 1]
    ensures Same(o.regs, o2.regs, Below(base) - {rs[|rs| - 1]}) && (vs + [v])[..|vs|] == vs
  {
  }

  lemma PaddedAll(vs: seq<Val>)
    ensures Padded(vs, |vs|) == vs
  {
  }

  lemma SameSelf(S: Regs, base: nat)
    ensures Same(S, S, Below(base))
  {
  }

  /** An assignment to local variables, on every run of the code. */
  lemma AssignLocalsOk(s: FS, rs: seq<nat>, xs: seq<Expr>, q: nat, R: Regs)
    requires Ready(s, q) && |R| == MAX_SLOTS && rs != [] && AssignLocals(s, rs, xs).Some?
    requires forall i :: 0 <= i < |rs| ==> rs[i] < s.nact
    requires forall i :: 0 <= i < |xs| ==> LocalsOk(xs[i], s.nact)
    ensures var s' := AssignLocals(s, rs, xs).value;
            Ready(s', q) && s'.nact == s.nact && s'.free == s.free && AssignsAll(s, rs, xs, s', q, R)
  {
    hide AssignsAll, AssignLocals, LocalsOk, Ready;
    if |xs| == |rs| {
      EvenOk(s, rs, xs, q, R);
    } else {
      UnevenOk(s, rs, xs, q, R);
    }
  }

  // -- The parser's own functions -------------------------------------------------------------------

  /** bcemit_store for a local variable. */
  method BcemitStore(fs: FuncState, e: ExpDesc, r: nat) returns (st: Status)
    requires fs.Valid() && fs.ExpOk(e) && fs.bc != [] && r < MAX_SLOTS
    modifies fs
    ensures st.Err? ==> fs.AtLimit()
    ensures st.Ok? ==> fs.Valid() && fs.bc != [] && fs.Abs() == Store(old(fs.Abs()), old(fs.AbsExp(e)), r)
  {
    fs.ExprFree(e.k);
    var e1;
    st, e1 := fs.ExprToreg(e, r);
  }

  /** The expression just read goes to the next register and another is read. */
  method NextExpr(fs: FuncState, e0: ExpDesc, x: Expr) returns (st: Status, e: ExpDesc)
    requires fs.Valid() && fs.ExpOk(e0) && fs.bc != [] && FuncState.SourceOk(x)
    modifies fs
    ensures st.Err? ==> fs.AtLimit()
    ensures st.Ok? ==>
              && fs.Valid() && fs.ExpOk(e) && fs.bc != []
              && var t := ToNextReg(old(fs.Abs()), old(fs.AbsExp(e0)));
                 t.Some? && Compile(t.value.0, x) == Some((fs.Abs(), fs.AbsExp(e)))
  {
    hide Compile, ToNextReg, DecodeAll, Follow, WfList, ListOf, IsList, Elems, Next, InsOk;
    st, e := fs.ExprTonextreg(e0);
    if st.Err? { return; }
    st, e := fs.CompileExpr(x);
  }

  lemma PushOne(s: FS, xs: seq<Expr>, i: nat, s1: FS, s2: FS, e: Exp)
    requires 1 <= i <= |xs| && PushAll(s, xs[..i - 1]) == Some(s1) && Compile(s1, xs[i - 1]) == Some((s2, e))
    requires ToNextReg(s2, e).Some?
    ensures PushAll(s, xs[..i]) == Some(ToNextReg(s2, e).value.0)
  {
    assert xs[..i][..i - 1] == xs[..i - 1];
  }

  /** expr_list: every expression but the last goes to the next register. */
  method ExprList(fs: FuncState, xs: seq<Expr>) returns (st: Status, e: ExpDesc)
    requires fs.Valid() && fs.bc != [] && xs != [] && forall i :: 0 <= i < |xs| ==> FuncState.SourceOk(xs[i])
    modifies fs
    ensures st.Err? ==> fs.AtLimit()
    ensures st.Ok? ==>
              && fs.Valid() && fs.ExpOk(e) && fs.bc != []
              && var s1 := PushAll(old(fs.Abs()), xs[..|xs| - 1]);
                 s1.Some? && Compile(s1.value, xs[|xs| - 1]) == Some((fs.Abs(), fs.AbsExp(e)))
  {
    hide Compile, ToNextReg, DecodeAll, Follow, WfList, ListOf, IsList, Elems, Next, InsOk;
    ghost var (s, s1) := (fs.Abs(), fs.Abs());
    st, e := fs.CompileExpr(xs[0]);
    if st.Err? { return; }
    for i := 1 to |xs|
      invariant st.Ok? && fs.Valid() && fs.ExpOk(e) && fs.bc != []
      invariant PushAll(s, xs[..i - 1]) == Some(s1)
      invariant Compile(s1, xs[i - 1]) == Some((fs.Abs(), fs.AbsExp(e)))
    {
      ghost var (s2, e2) := (fs.Abs(), fs.AbsExp(e));
      st, e := NextExpr(fs, e, xs[i]);
      if st.Err? { return; }
      PushOne(s, xs, i, s1, s2, e2);
      s1 := ToNextReg(s2, e2).value.0;
    }
  }

  /** parse_assignment on the way back: each target gets the register on top. */
  method StoreTargets(fs: FuncState, rs: seq<nat>, m: nat) returns (st: Status)
    requires fs.Valid() && fs.bc != [] && m <= |rs| && forall i :: 0 <= i < m ==> rs[i] < MAX_SLOTS
    modifies fs
    ensures st.Err? ==> fs.AtLimit()
    ensures st.Ok? ==> fs.Valid() && fs.Abs() == StoreDown(old(fs.Abs()), rs, m)
    decreases m
  {
    hide Store, DecodeAll, Follow, WfList, ListOf, IsList, Elems, Next, InsOk;
    if m == 0 { return Ok; }
    var e := fs.RegDesc(Dec(fs.freereg));
    fs.RegDescOk(Dec(fs.freereg));
    st := BcemitStore(fs, e, rs[m - 1]);
    if st.Err? { return; }
    st := StoreTargets(fs, rs, m - 1);
  }

  lemma NextFree(s: FS, e: Exp)
    ensures ToNextReg(s, e).Some? ==> ToNextReg(s, e).value.0.free >= s.free
  {
    hide ToReg;
    var n := Reserve(FreeExp(s, Discharge(e)), 1);
    if n.Some? {
      ToRegRecount(n.value, Discharge(e), Dec(n.value.free), n.value.free);
    }
  }

  /** assign_adjust after the last expression: a missing value is nil; surplus
      registers are given back. */
  method AssignAdjust(fs: FuncState, n: nat, m: nat, e: ExpDesc) returns (st: Status)
    requires fs.Valid() && fs.ExpOk(e) && fs.bc != [] && n != m && 1 <= n && m <= fs.freereg + 1
    modifies fs
    ensures st.Err? ==> fs.AtLimit() || fs.freereg + n - m >= MAX_SLOTS
    ensures st.Ok? ==>
              && fs.Valid() && fs.bc != []
              && var t := ToNextReg(old(fs.Abs()), old(fs.AbsExp(e)));
                 t.Some? && Adjust(t.value.0, n, m) == Some(fs.Abs())
  {
    hide ToNextReg, EmitNil, DecodeAll, Follow, WfList, ListOf, IsList, Elems, Next, InsOk;
    NextFree(fs.Abs(), fs.AbsExp(e));
    var e1;
    st, e1 := fs.ExprTonextreg(e);
    if st.Err? { return; }
    if m < n {
      var reg := fs.freereg;
      st := fs.BcregReserve(n - m);
      if st.Err? { return; }
      st := fs.BcemitNil(reg, n - m);
    } else {
      fs.freereg := fs.freereg - (m - n);
    }
  }

  /** Enough registers are in use once the expressions are read. */
  lemma ListFree(s: FS, xs: seq<Expr>, s1: FS, s2: FS, e: Exp)
    requires Wf(s) && xs != [] && forall i :: 0 <= i < |xs| ==> LocalsOk(xs[i], s.nact)
    requires PushAll(s, xs[..|xs| - 1]) == Some(s1) && Compile(s1, xs[|xs| - 1]) == Some((s2, e))
    ensures |xs| <= s2.free + 1
  {
    hide Compile, Run, Exec, PushAll, WfCode, AllPending, NoEndTarget, LocalsOk;
    var R := seq(MAX_SLOTS, i => Nil);
    assert Ready(s, 0);
    PushAllOk(s, xs[..|xs| - 1], 0, R);
    CompileOk(s1, xs[|xs| - 1], 0, R);
  }

  lemma AllRuns(s: FS, rs: seq<nat>, xs: seq<Expr>)
    requires Wf(s) && rs != [] && AssignLocals(s, rs, xs).Some?
    requires forall i :: 0 <= i < |rs| ==> rs[i] < s.nact
    requires forall i :: 0 <= i < |xs| ==> LocalsOk(xs[i], s.nact)
    ensures var s' := AssignLocals(s, rs, xs).value;
            && Wf(s') && s'.free == s.free && s'.nact == s.nact
            && forall q: nat, R: Regs :: Start(s, q) && |R| == MAX_SLOTS ==> AssignsAll(s, rs, xs, s', q, R)
  {
    hide AssignLocals, AssignsAll, WfCode, AllPending, NoEndTarget, LocalsOk;
    assert Ready(s, 0);
    AssignLocalsOk(s, rs, xs, 0, seq(MAX_SLOTS, i => Nil));
    forall q: nat, R: Regs | Start(s, q) && |R| == MAX_SLOTS
      ensures AssignsAll(s, rs, xs, AssignLocals(s, rs, xs).value, q, R)
    {
      AssignLocalsOk(s, rs, xs, q, R);
    }
  }

  /** parse_assignment when every target is a local variable. */
  method ParseLocals(fs: FuncState, rs: seq<nat>, xs: seq<Expr>) returns (st: Status)
    requires fs.Valid() && Wf(fs.Abs()) && rs != [] && xs != []
    requires forall i :: 0 <= i < |rs| ==> rs[i] < fs.nactvar
    requires forall i :: 0 <= i < |xs| ==> FuncState.SourceOk(xs[i]) && LocalsOk(xs[i], fs.nactvar)
    modifies fs
    ensures st.Err? ==> fs.AtLimit() || fs.freereg + |rs| - |xs| >= MAX_SLOTS
    ensures st.Ok? ==>
              && fs.Valid() && Wf(fs.Abs()) && fs.freereg == old(fs.freereg)
              && forall q: nat, R: Regs :: Start(old(fs.Abs()), q) && |R| == MAX_SLOTS ==>
                   AssignsAll(old(fs.Abs()), rs, xs, fs.Abs(), q, R)
  {
    hide Compile, ToNextReg, PushAll, Store, StoreDown, Adjust, AssignsAll, Start, LocalsOk, WfCode, AllPending,
         NoEndTarget,
         DecodeAll, Follow, WfList, ListOf, IsList, Elems, Next, InsOk;
    ghost var s := fs.Abs();
    var e;
    st, e := ExprList(fs, xs);
    if st.Err? { return; }
    ghost var (s1, s2, x) := (PushAll(s, xs[..|xs| - 1]).value, fs.Abs(), fs.AbsExp(e));
    if |xs| == |rs| {
      st := BcemitStore(fs, e, rs[|rs| - 1]);
      if st.Err? { return; }
      st := StoreTargets(fs, rs, |rs| - 1);
      if st.Err? { return; }
    } else {
      ListFree(s, xs, s1, s2, x);
      st := AssignAdjust(fs, |rs|, |xs|, e);
      if st.Err? { return; }
      PushOne(s, xs, |xs|, s1, s2, x);
      assert xs[..|xs|] == xs;
      st := StoreTargets(fs, rs, |rs|);
      if st.Err? { return; }
    }
    AllRuns(s, rs, xs);
  }
}
