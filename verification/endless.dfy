/** Runs without end: what bounds on runs need. A cycle that is not counted, or a tail
    call, gives runs of every length as soon as control gets there without calls. */
module Endless {
  import opened Values
  import opened Frames
  import opened Termination

  // -- Choosing the way ---------------------------------------------------------------------------

  predicate Counted(i: Ins) {
    i.Loop? || i.ForL? || i.IterN?
  }

  /** Control may go from pc to t inside a function, counted or not, without a call. */
  predicate Flow(i: Ins, pc: nat, t: nat) {
    match i
    case Call(_, _) => false
    case Loop => t == pc + 1
    case ForL(_, t') => t == t' || t == pc + 1
    case IterN(_, t') => t == t' || t == pc + 2
    case _ => Goes(i, pc, t)
  }

  ghost predicate AllAre(vals: seq<Val>, v: Val) {
    forall i :: 0 <= i < |vals| ==> vals[i] == v
  }

  lemma PutSame(vals: seq<Val>, i: nat, v: Val)
    ensures |Put(vals, i, v)| == |vals| && (AllAre(vals, v) ==> Put(vals, i, v) == vals)
  {
  }

  /** Some choice takes this way; if it writes what is everywhere, nothing changes but
      the counter. */
  lemma TakeWay(ps: Program, m: Machine, t: nat, v: Val) returns (ch: Choice)
    requires m.frames != [] && Flow(At(ps, Ptr(m.Top().fn, m.Top().pc)), m.Top().pc, t)
    requires Counted(At(ps, Ptr(m.Top().fn, m.Top().pc))) ==> m.loops < ps.maxLoops
    ensures MStep(ps, m, ch).Some?
    ensures var m' := MStep(ps, m, ch).value;
            && m'.frames == Goto(m, t).frames && |m'.vals| == |m.vals| && (AllAre(m.vals, v) ==> m'.vals == m.vals)
            && m'.loops == m.loops + if Counted(At(ps, Ptr(m.Top().fn, m.Top().pc))) then 1 else 0
  {
    hide Put, PutNil, Move, IsFunc, AllAre;
    var i := At(ps, Ptr(m.Top().fn, m.Top().pc));
    var base := m.Top().func + 1;
    var taken := (i.Branch? || i.ForI? || i.ForL? || i.IterN?) && t == i.t;
    ch := Choice(v, taken, 0);
    PutSame(m.vals, 0, v);
    if i.Write? || i.ForI? || i.ForL? || i.IterN? {
      var first := Put(m.vals, base + i.a, v);
      PutSame(m.vals, base + i.a, v);
      PutSame(m.vals, base + i.a + 3, v);
      PutSame(first, base + i.a + 1, v);
      PutSame(first, base + i.a + 3, v);
    }
  }

  /** A way through function fn. */
  predicate IsWay(ps: Program, fn: nat, p: seq<nat>) {
    p != [] && forall i :: 0 <= i < |p| - 1 ==> FlowAt(ps, fn, p, i)
  }

  predicate FlowAt(ps: Program, fn: nat, p: seq<nat>, i: nat)
    requires i + 1 < |p|
  {
    Flow(At(ps, Ptr(fn, p[i])), p[i], p[i + 1])
  }

  /** A way without instructions that are counted. */
  predicate Free(ps: Program, fn: nat, p: seq<nat>) {
    forall i :: 0 <= i < |p| - 1 ==> !Counted(At(ps, Ptr(fn, p[i])))
  }

  predicate At0(m: Machine, fn: nat, pc: nat) {
    m.frames != [] && m.Top().fn == fn && m.Top().pc == pc
  }

  // -- Cycles ---------------------------------------------------------------------------------------

  /** Round a cycle that is not counted as often as one likes. */
  lemma {:induction false} CycleRun(ps: Program, m: Machine, fn: nat, p: seq<nat>, i: nat, n: nat)
    returns (chs: seq<Choice>)
    requires IsWay(ps, fn, p) && Free(ps, fn, p) && |p| >= 2 && p[|p| - 1] == p[0] && i < |p| - 1 && At0(m, fn, p[i])
    ensures |chs| == n && MRun(ps, m, chs).Some?
    decreases n
  {
    hide MStep, Flow;
    if n == 0 {
      chs := [];
    } else {
      assert FlowAt(ps, fn, p, i);
      var ch := TakeWay(ps, m, p[i + 1], Nil);
      var m' := MStep(ps, m, ch).value;
      var rest := CycleRun(ps, m', fn, p, if i + 1 == |p| - 1 then 0 else i + 1, n - 1);
      chs := [ch] + rest;
      assert chs[1..] == rest;
    }
  }

  /** First to the cycle, with the count that is left, then round it. */
  lemma {:induction false} EntryRun(ps: Program, m: Machine, fn: nat, w: seq<nat>, k: nat, p: seq<nat>, n: nat)
    returns (chs: seq<Choice>)
    requires IsWay(ps, fn, w) && k < |w| && At0(m, fn, w[k]) && m.loops + (|w| - 1 - k) <= ps.maxLoops
    requires IsWay(ps, fn, p) && Free(ps, fn, p) && |p| >= 2 && p[|p| - 1] == p[0] == w[|w| - 1]
    ensures |chs| == n && MRun(ps, m, chs).Some?
    decreases n
  {
    hide MStep, Flow;
    if n == 0 {
      chs := [];
    } else if k == |w| - 1 {
      chs := CycleRun(ps, m, fn, p, 0, n);
    } else {
      assert FlowAt(ps, fn, w, k);
      var ch := TakeWay(ps, m, w[k + 1], Nil);
      var rest := EntryRun(ps, MStep(ps, m, ch).value, fn, w, k + 1, p, n - 1);
      chs := [ch] + rest;
      assert chs[1..] == rest;
    }
  }

  /** A function from whose entry a cycle can be reached that is neither counted nor has
      calls: no number bounds its runs. */
  lemma CycleUnbounded(ps: Program, m: Machine, fn: nat, w: seq<nat>, p: seq<nat>, n: nat)
    requires IsWay(ps, fn, w) && At0(m, fn, w[0]) && m.loops + |w| - 1 <= ps.maxLoops
    requires IsWay(ps, fn, p) && Free(ps, fn, p) && |p| >= 2 && p[|p| - 1] == p[0] == w[|w| - 1]
    ensures !BoundedBy(ps, m, n)
  {
    hide MRun, Free;
    var chs := EntryRun(ps, m, fn, w, 0, p, n + 1);
  }

  // -- Tail calls ----------------------------------------------------------------------------------------

  /** A function that comes to a tail call of itself: round and round in one frame. */
  lemma {:induction false} TailRun(ps: Program, m: Machine, fn: nat, id: nat, w: seq<nat>, k: nat, n: nat)
    returns (chs: seq<Choice>)
    requires IsWay(ps, fn, w) && Free(ps, fn, w) && w[0] == 1 && k < |w| && At0(m, fn, w[k]) && m.Top().cl == id
    requires TailFits(ps, m, fn, id, w[|w| - 1])
    ensures |chs| == n && MRun(ps, m, chs).Some?
    decreases n
  {
    hide MStep, Flow, AllAre;
    if n == 0 {
      chs := [];
    } else if k == |w| - 1 {
      var ch := Choice(Nil, false, 0);
      TailAgain(ps, m, fn, id, w[k], ch);
      var rest := TailRun(ps, MStep(ps, m, ch).value, fn, id, w, 0, n - 1);
      chs := [ch] + rest;
      assert chs[1..] == rest;
    } else {
      assert FlowAt(ps, fn, w, k);
      var ch := TakeWay(ps, m, w[k + 1], Obj(id));
      var rest := TailRun(ps, MStep(ps, m, ch).value, fn, id, w, k + 1, n - 1);
      chs := [ch] + rest;
      assert chs[1..] == rest;
    }
  }

  /** The closure is in all slots, and there is room for its parameters behind the call. */
  ghost predicate TailFits(ps: Program, m: Machine, fn: nat, id: nat, pc: nat)
    requires m.frames != []
  {
    var i := At(ps, Ptr(fn, pc));
    && i.CallT? && fn < |ps.protos| && ps.protoOf(id) == Some(fn) && AllAre(m.vals, Obj(id))
    && m.Top().func + 2 + i.a + ps.protos[fn].numparams <= |m.vals|
  }

  lemma TailAgain(ps: Program, m: Machine, fn: nat, id: nat, pc: nat, ch: Choice)
    requires At0(m, fn, pc) && m.Top().cl == id && TailFits(ps, m, fn, id, pc)
    ensures MStep(ps, m, ch) == Some(Goto(m, 1))
  {
    hide Put, Move;
    var (f, a) := (m.Top(), At(ps, Ptr(fn, pc)).a);
    var nf := f.func + 1 + a;
    AllAreAt(m.vals, Obj(id), nf);
    hide AllAre;
    PutSame(m.vals, f.func, Obj(id));
    MoveSame(m.vals, nf + 1, f.func + 1, ps.protos[fn].numparams, Obj(id));
    assert Frame(fn, id, f.func, 1) == f.(pc := 1);
  }

  lemma AllAreAt(vals: seq<Val>, v: Val, i: nat)
    requires AllAre(vals, v) && i < |vals|
    ensures vals[i] == v
  {
  }

  lemma MoveSame(vals: seq<Val>, src: nat, dst: nat, n: nat, v: Val)
    requires src + n <= |vals| && dst <= src && AllAre(vals, v)
    ensures Move(vals, src, dst, n) == vals
  {
  }

  /** A function from whose entry a tail call can be reached without calls and loops: with
      itself in its registers, no number bounds its runs. */
  lemma TailUnbounded(ps: Program, m: Machine, fn: nat, id: nat, w: seq<nat>, n: nat)
    requires IsWay(ps, fn, w) && Free(ps, fn, w) && w[0] == 1 && At0(m, fn, 1) && m.Top().cl == id
    requires TailFits(ps, m, fn, id, w[|w| - 1])
    ensures !BoundedBy(ps, m, n)
  {
    hide MRun, Free;
    var chs := TailRun(ps, m, fn, id, w, 0, n + 1);
  }

  /** The shortest such program. */
  function TailLoop(limit: nat): Program {
    Program([Proto(1, 0, [Stop, CallT(0)])], _ => Some(0), limit)
  }

  /** It makes no progress at all. */
  lemma TailStandsStill(limit: nat, ch: Choice)
    ensures var m := Machine([Frame(0, 0, 0, 1)], [Obj(0), Obj(0), Obj(0)], 0);
            MStep(TailLoop(limit), m, ch) == Some(m)
  {
    var m := Machine([Frame(0, 0, 0, 1)], [Obj(0), Obj(0), Obj(0)], 0);
    TailAgain(TailLoop(limit), m, 0, 0, 1, ch);
    assert Goto(m, 1) == m;
  }

  // -- Exactly the counted cycles -----------------------------------------------------------------------------

  /** No call lies on a cycle that is not counted. */
  ghost predicate CallsOffCycles(ps: Program) {
    forall fn: nat, p: seq<nat>, i: nat ::
      IsPath(ps, fn, p) && p[0] == p[|p| - 1] && i < |p| - 1 ==> !At(ps, Ptr(fn, p[i])).Call?
  }

  ghost predicate NoTailCalls(ps: Program) {
    forall fn: nat, pc: nat :: !At(ps, Ptr(fn, pc)).CallT?
  }

  ghost predicate AllBounded(ps: Program) {
    forall m: Machine :: Fits(ps, m) ==> exists n: nat :: BoundedBy(ps, m, n)
  }

  /** From every state there is a bound on the runs if and only if every cycle is counted. */
  lemma BoundedExactly(ps: Program)
    requires NoTailCalls(ps) && CallsOffCycles(ps)
    ensures AllBounded(ps) <==> CyclesCounted(ps)
  {
    hide BoundedBy, Path;
    if CyclesCounted(ps) {
      forall m: Machine | Fits(ps, m)
        ensures exists n: nat :: BoundedBy(ps, m, n)
      {
        CountedBounded(ps, m);
      }
    } else {
      var fn: nat, pc: nat :| Path(ps, fn, pc, pc);
      UncountedRuns(ps, fn, pc);
    }
  }

  lemma UncountedRuns(ps: Program, fn: nat, pc: nat)
    requires CallsOffCycles(ps) && Path(ps, fn, pc, pc)
    ensures !AllBounded(ps)
  {
    hide BoundedBy;
    var p :| IsPath(ps, fn, p) && p[0] == pc && p[|p| - 1] == pc;
    CycleIsWay(ps, fn, p);
    var m := Machine([Frame(fn, 0, 0, pc)], [Nil], 0);
    assert Fits(ps, m);
    forall n: nat
      ensures !BoundedBy(ps, m, n)
    {
      CycleUnbounded(ps, m, fn, [pc], p, n);
    }
  }

  lemma CycleIsWay(ps: Program, fn: nat, p: seq<nat>)
    requires CallsOffCycles(ps) && IsPath(ps, fn, p) && p[0] == p[|p| - 1]
    ensures IsWay(ps, fn, p) && Free(ps, fn, p)
  {
    forall i | 0 <= i < |p| - 1
      ensures FlowAt(ps, fn, p, i) && !Counted(At(ps, Ptr(fn, p[i])))
    {
      assert EdgeAt(ps, fn, p, i);
      assert !At(ps, Ptr(fn, p[i])).Call?;
    }
  }

  // -- A call on a cycle ----------------------------------------------------------------------------------------

  /** A function that calls itself in a loop that is not counted. */
  function Recursive(limit: nat): Program {
    Program([Proto(1, 0, [Stop, Call(0, 1), Jump(1)])], _ => Some(0), limit)
  }

  /** It never comes back from the call, so the stack bounds its runs. */
  lemma {:induction false} RecursiveEnds(limit: nat, m: Machine, chs: seq<Choice>)
    requires m.frames != [] && m.Top().pc == 1 && m.Top().fn == 0 && MRun(Recursive(limit), m, chs).Some?
    ensures |chs| + m.Top().func <= |m.vals| || chs == []
    decreases |chs|
  {
    var ps := Recursive(limit);
    if chs != [] {
      assert At(ps, Ptr(0, 1)) == Call(0, 1);
      var m' := MStep(ps, m, chs[0]).value;
      RecursiveEnds(limit, m', chs[1..]);
    }
  }

  /** So an uncounted cycle with a call need not have long runs. */
  lemma CallCycleBounded(limit: nat, m: Machine)
    requires m.frames != [] && m.Top().pc == 1 && m.Top().fn == 0
    ensures Path(Recursive(limit), 0, 1, 1) && BoundedBy(Recursive(limit), m, |m.vals|)
  {
    var ps := Recursive(limit);
    assert Edge(ps, 0, 1, 2) && Edge(ps, 0, 2, 1);
    PathEdge(ps, 0, 2, 1);
    PathMore(ps, 0, 1, 2, 1);
    forall chs | MRun(ps, m, chs).Some?
      ensures |chs| <= |m.vals|
    {
      RecursiveEnds(limit, m, chs);
    }
  }
}
