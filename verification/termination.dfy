/** Runs of the interpreter end: every cycle of the code passes an instruction
    that is counted, and calls cannot nest deeper than the stack is long. */
module Termination {
  import opened Values
  import opened Frames

  // -- Code without hidden cycles ----------------------------------------------------------------

  /** Ranks of instructions: control goes down, except through LOOP, FORL and ITERN. */
  type Rank = (nat, nat) -> nat

  ghost predicate RankedAt(ps: Program, rank: Rank, fn: nat, pc: nat) {
    match At(ps, Ptr(fn, pc))
    case Call(_, _) => rank(fn, pc + 1) < rank(fn, pc)
    case Write(_) => rank(fn, pc + 1) < rank(fn, pc)
    case UpWrite => rank(fn, pc + 1) < rank(fn, pc)
    case Branch(t) => rank(fn, pc + 1) < rank(fn, pc) && rank(fn, t) < rank(fn, pc)
    case ForI(_, t) => rank(fn, pc + 1) < rank(fn, pc) && rank(fn, t) < rank(fn, pc)
    case Jump(t) => rank(fn, t) < rank(fn, pc)
    case CallT(_) => false
    case _ => true
  }

  /** No tail calls, and every cycle of a function is counted. */
  ghost predicate Ranked(ps: Program, rank: Rank, top: nat) {
    && (forall fn: nat, pc: nat :: rank(fn, pc) <= top)
    && (forall fn: nat, pc: nat :: RankedAt(ps, rank, fn, pc))
  }

  // -- Cycles -----------------------------------------------------------------------------------------

  /** From instruction i at pc control may go to t, and is not counted. */
  predicate Goes(i: Ins, pc: nat, t: nat) {
    match i
    case Call(_, _) => t == pc + 1
    case Write(_) => t == pc + 1
    case UpWrite => t == pc + 1
    case Branch(t') => t == pc + 1 || t == t'
    case ForI(_, t') => t == pc + 1 || t == t'
    case Jump(t') => t == t'
    case _ => false
  }

  predicate Edge(ps: Program, fn: nat, pc: nat, t: nat) {
    Goes(At(ps, Ptr(fn, pc)), pc, t)
  }

  predicate EdgeAt(ps: Program, fn: nat, p: seq<nat>, i: nat)
    requires i + 1 < |p|
  {
    Edge(ps, fn, p[i], p[i + 1])
  }

  predicate IsPath(ps: Program, fn: nat, p: seq<nat>) {
    |p| >= 2 && forall i :: 0 <= i < |p| - 1 ==> EdgeAt(ps, fn, p, i)
  }

  ghost predicate Path(ps: Program, fn: nat, from: nat, t: nat) {
    exists p :: IsPath(ps, fn, p) && p[0] == from && p[|p| - 1] == t
  }

  /** Every cycle of every function passes LOOP, FORL or ITERN; there are no tail calls. */
  ghost predicate CyclesCounted(ps: Program) {
    && (forall fn: nat, pc: nat :: !At(ps, Ptr(fn, pc)).CallT?)
    && (forall fn: nat, pc: nat :: !Path(ps, fn, pc, pc))
  }

  lemma PathEdge(ps: Program, fn: nat, a: nat, b: nat)
    requires Edge(ps, fn, a, b)
    ensures Path(ps, fn, a, b)
  {
    assert EdgeAt(ps, fn, [a, b], 0);
    assert IsPath(ps, fn, [a, b]);
  }

  lemma PathMore(ps: Program, fn: nat, a: nat, b: nat, c: nat)
    requires Edge(ps, fn, a, b) && Path(ps, fn, b, c)
    ensures Path(ps, fn, a, c)
  {
    hide Edge;
    var p :| IsPath(ps, fn, p) && p[0] == b && p[|p| - 1] == c;
    var q := [a] + p;
    forall i | 0 <= i < |q| - 1
      ensures EdgeAt(ps, fn, q, i)
    {
      if i > 0 { assert EdgeAt(ps, fn, p, i - 1); }
    }
    assert IsPath(ps, fn, q);
  }

  lemma {:induction false} PathTrans(ps: Program, fn: nat, p: seq<nat>, c: nat)
    requires IsPath(ps, fn, p) && Path(ps, fn, p[|p| - 1], c)
    ensures Path(ps, fn, p[0], c)
    decreases |p|
  {
    hide Edge;
    assert EdgeAt(ps, fn, p, 0);
    if |p| > 2 {
      var q := p[1..];
      forall i | 0 <= i < |q| - 1
        ensures EdgeAt(ps, fn, q, i)
      {
        assert EdgeAt(ps, fn, p, i + 1);
      }
      PathTrans(ps, fn, q, c);
    }
    PathMore(ps, fn, p[0], p[1], c);
  }

  /** Bound on all runs from a state. */
  ghost predicate BoundedBy(ps: Program, m: Machine, n: nat)
    requires m.frames != []
  {
    forall chs :: MRun(ps, m, chs).Some? ==> |chs| <= n
  }

  function CodeLen(ps: Program, fn: nat): nat {
    if fn < |ps.protos| then |ps.protos[fn].code| else 0
  }

  /** The instructions control may come to from pc without being counted. */
  ghost function ReachFrom(ps: Program, fn: nat, pc: nat): set<nat> {
    set t: nat | t < CodeLen(ps, fn) && Path(ps, fn, pc, t)
  }

  ghost function RankAt(ps: Program, fn: nat, pc: nat): nat {
    if pc < CodeLen(ps, fn) then 1 + |ReachFrom(ps, fn, pc)| else 0
  }

  ghost function RankOf(ps: Program): Rank {
    (fn: nat, pc: nat) => RankAt(ps, fn, pc)
  }

  function LongestCode(ps: seq<Proto>): nat {
    if ps == [] then 0
    else
      var n, t := 1 + |ps[|ps| - 1].code|, LongestCode(ps[..|ps| - 1]);
      if n > t then n else t
  }

  function TopOf(ps: Program): nat {
    LongestCode(ps.protos)
  }

  lemma {:induction false} TopBound(ps: seq<Proto>, fn: nat)
    requires fn < |ps|
    ensures 1 + |ps[fn].code| <= LongestCode(ps)
    decreases |ps|
  {
    if fn < |ps| - 1 {
      TopBound(ps[..|ps| - 1], fn);
    }
  }

  lemma {:induction false} SubsetSize(a: set<nat>, b: set<nat>)
    requires a <= b
    ensures |a| <= |b| && (a != b ==> |a| < |b|)
    decreases b
  {
    if x :| x in a {
      SubsetSize(a - {x}, b - {x});
      assert a != b ==> a - {x} != b - {x} by {
        if a - {x} == b - {x} { assert a == (a - {x}) + {x} == (b - {x}) + {x} == b; }
      }
    } else {
      assert a == {};
      if b != {} { var y :| y in b; }
    }
  }

  lemma {:induction false} Initial(n: nat) returns (s: set<nat>)
    ensures |s| == n && forall i :: i in s <==> 0 <= i < n
  {
    if n == 0 {
      s := {};
    } else {
      var r := Initial(n - 1);
      s := r + {n - 1};
    }
  }

  lemma RankFits(ps: Program, fn: nat, pc: nat)
    ensures RankAt(ps, fn, pc) <= TopOf(ps)
  {
    if pc < CodeLen(ps, fn) {
      var all := Initial(CodeLen(ps, fn));
      SubsetSize(ReachFrom(ps, fn, pc), all);
      TopBound(ps.protos, fn);
    }
  }

  /** Without cycles, fewer instructions can be reached after every step. */
  lemma RankDrops(ps: Program, fn: nat, pc: nat, t: nat)
    requires CyclesCounted(ps) && Edge(ps, fn, pc, t)
    ensures RankAt(ps, fn, t) < RankAt(ps, fn, pc)
  {
    hide Path;
    assert pc < CodeLen(ps, fn);
    if t < CodeLen(ps, fn) {
      PathEdge(ps, fn, pc, t);
      var a, b := ReachFrom(ps, fn, t), ReachFrom(ps, fn, pc);
      forall x | x in a
        ensures x in b
      {
        PathMore(ps, fn, pc, t, x);
      }
      assert t in b && t !in a;
      SubsetSize(a, b);
    }
  }

  /** Code has ranks exactly when its cycles are counted. */
  lemma RanksExist(ps: Program)
    requires CyclesCounted(ps)
    ensures Ranked(ps, RankOf(ps), TopOf(ps))
  {
    hide Path, RankAt, TopOf, CyclesCounted;
    forall fn: nat, pc: nat
      ensures RankOf(ps)(fn, pc) <= TopOf(ps) && RankedAt(ps, RankOf(ps), fn, pc)
    {
      RankFits(ps, fn, pc);
      NoTailCall(ps, fn, pc);
      forall t: nat | Edge(ps, fn, pc, t)
        ensures RankAt(ps, fn, t) < RankAt(ps, fn, pc)
      {
        RankDrops(ps, fn, pc, t);
      }
      RanksAt(ps, fn, pc);
    }
  }

  lemma NoTailCall(ps: Program, fn: nat, pc: nat)
    requires CyclesCounted(ps)
    ensures !At(ps, Ptr(fn, pc)).CallT?
  {
  }

  lemma RanksAt(ps: Program, fn: nat, pc: nat)
    requires !At(ps, Ptr(fn, pc)).CallT?
    requires forall t: nat :: Edge(ps, fn, pc, t) ==> RankAt(ps, fn, t) < RankAt(ps, fn, pc)
    ensures RankedAt(ps, RankOf(ps), fn, pc)
  {
    hide RankAt;
    var i := At(ps, Ptr(fn, pc));
    assert i.Call? || i.Write? || i.UpWrite? || i.Branch? || i.ForI? ==> Edge(ps, fn, pc, pc + 1);
    assert i.Branch? || i.ForI? || i.Jump? ==> Edge(ps, fn, pc, i.t);
  }

  lemma {:induction false} PathDescends(ps: Program, rank: Rank, top: nat, fn: nat, p: seq<nat>)
    requires Ranked(ps, rank, top) && IsPath(ps, fn, p)
    ensures rank(fn, p[|p| - 1]) < rank(fn, p[0])
    decreases |p|
  {
    assert RankedAt(ps, rank, fn, p[0]) && EdgeAt(ps, fn, p, 0);
    if |p| > 2 {
      var q := p[1..];
      forall i | 0 <= i < |q| - 1
        ensures EdgeAt(ps, fn, q, i)
      {
        assert EdgeAt(ps, fn, p, i + 1);
      }
      PathDescends(ps, rank, top, fn, q);
    }
  }

  lemma RankedMeansCounted(ps: Program, rank: Rank, top: nat)
    requires Ranked(ps, rank, top)
    ensures CyclesCounted(ps)
  {
    forall fn: nat, pc: nat
      ensures !At(ps, Ptr(fn, pc)).CallT? && !Path(ps, fn, pc, pc)
    {
      assert RankedAt(ps, rank, fn, pc);
      if Path(ps, fn, pc, pc) {
        var p :| IsPath(ps, fn, p) && p[0] == pc && p[|p| - 1] == pc;
        PathDescends(ps, rank, top, fn, p);
      }
    }
  }

  /** A LOOP at l guards the way back from pc to t: it lies between them, and control
      only comes past it, up to pc, by way of it. */
  ghost predicate Guards(ps: Program, fn: nat, l: nat, pc: nat, t: nat) {
    && t <= l <= pc && At(ps, Ptr(fn, l)).Loop?
    && forall a: nat, b: nat :: Edge(ps, fn, a, b) && a < l < b ==> b > pc
  }

  /** Every way back that is not counted has a guard, and there are no tail calls. */
  ghost predicate LoopsGuarded(ps: Program) {
    && (forall fn: nat, pc: nat :: !At(ps, Ptr(fn, pc)).CallT?)
    && (forall fn: nat, pc: nat, t: nat :: Edge(ps, fn, pc, t) && t <= pc ==> exists l :: Guards(ps, fn, l, pc, t))
  }

  /** The highest place of a path, other than its end. */
  lemma {:induction false} Highest(p: seq<nat>, n: nat) returns (k: nat)
    requires 0 < n <= |p|
    ensures k < n && forall i :: 0 <= i < n ==> p[i] <= p[k]
    decreases n
  {
    k := 0;
    if n > 1 {
      k := Highest(p, n - 1);
      if p[k] < p[n - 1] { k := n - 1; }
    }
  }

  /** A path from below l to above it passes l in one step, if it does not touch it. */
  lemma {:induction false} Crossing(p: seq<nat>, a: nat, b: nat, l: nat) returns (i: nat)
    requires a < b < |p| && p[a] < l < p[b] && l !in p
    ensures a <= i < b && p[i] < l < p[i + 1]
    decreases b
  {
    if p[b - 1] < l {
      i := b - 1;
    } else {
      assert p[b - 1] in p;
      i := Crossing(p, a, b - 1, l);
    }
  }

  /** Control does not go on from a LOOP uncounted, so a cycle has none. */
  lemma NotOnCycle(ps: Program, fn: nat, p: seq<nat>, l: nat)
    requires IsPath(ps, fn, p) && p[0] == p[|p| - 1] && At(ps, Ptr(fn, l)).Loop?
    ensures l !in p
  {
    forall i | 0 <= i < |p|
      ensures p[i] != l
    {
      assert EdgeAt(ps, fn, p, if i < |p| - 1 then i else 0);
    }
  }

  /** A cycle crosses the guard below its highest place k. */
  lemma GuardCrossed(ps: Program, fn: nat, p: seq<nat>, k: nat, l: nat) returns (i: nat)
    requires IsPath(ps, fn, p) && p[0] == p[|p| - 1] && k < |p| - 1 && (forall i :: 0 <= i < |p| - 1 ==> p[i] <= p[k])
    requires p[k + 1] <= l <= p[k] && At(ps, Ptr(fn, l)).Loop?
    ensures i < |p| - 1 && EdgeAt(ps, fn, p, i) && p[i] < l < p[i + 1] <= p[k]
  {
    hide EdgeAt, At;
    NotOnCycle(ps, fn, p, l);
    assert p[k] in p && p[k + 1] in p && p[0] in p;
    if p[0] < l {
      i := Crossing(p, 0, k, l);
    } else {
      i := Crossing(p, k + 1, |p| - 1, l);
    }
  }

  lemma NoCycle(ps: Program, fn: nat, p: seq<nat>)
    requires LoopsGuarded(ps) && IsPath(ps, fn, p)
    ensures p[0] != p[|p| - 1]
  {
    hide Edge;
    if p[0] == p[|p| - 1] {
      var k := Highest(p, |p| - 1);
      assert EdgeAt(ps, fn, p, k) && p[k + 1] <= p[k];
      var l: nat :| Guards(ps, fn, l, p[k], p[k + 1]);
      var i := GuardCrossed(ps, fn, p, k, l);
    }
  }

  /** Code whose ways back are guarded has its cycles counted. */
  lemma LoopsCounted(ps: Program)
    requires LoopsGuarded(ps)
    ensures CyclesCounted(ps)
  {
    hide Edge, LoopsGuarded, EdgeAt;
    forall fn: nat, pc: nat
      ensures !At(ps, Ptr(fn, pc)).CallT? && !Path(ps, fn, pc, pc)
    {
      GuardedNoTail(ps, fn, pc);
      if Path(ps, fn, pc, pc) {
        var p :| IsPath(ps, fn, p) && p[0] == pc && p[|p| - 1] == pc;
        NoCycle(ps, fn, p);
      }
    }
  }

  lemma GuardedNoTail(ps: Program, fn: nat, pc: nat)
    requires LoopsGuarded(ps)
    ensures !At(ps, Ptr(fn, pc)).CallT?
  {
  }

  // -- Numbers in base k ---------------------------------------------------------------------------

  function Pow(k: nat, n: nat): nat {
    if n == 0 then 1 else k * Pow(k, n - 1)
  }

  /** Value of digits, most significant first. */
  function Value(k: nat, ds: seq<nat>): nat {
    if ds == [] then 0 else ds[0] * Pow(k, |ds| - 1) + Value(k, ds[1..])
  }

  ghost predicate DigitsOk(k: nat, ds: seq<nat>) {
    forall i :: 0 <= i < |ds| ==> ds[i] < k
  }

  lemma {:induction false} ValueBound(k: nat, ds: seq<nat>)
    requires k > 0 && DigitsOk(k, ds)
    ensures Value(k, ds) < Pow(k, |ds|)
  {
    if ds != [] {
      var p := Pow(k, |ds| - 1);
      ValueBound(k, ds[1..]);
      assert ds[0] <= k - 1;
      MulMono(ds[0], k - 1, p);
      assert (k - 1) * p + p == k * p by { MulDistr(k - 1, p); }
    }
  }

  lemma MulMono(a: nat, b: nat, p: nat)
    requires a <= b
    ensures a * p <= b * p
  {
  }

  lemma MulDistr(a: nat, p: nat)
    ensures a * p + p == (a + 1) * p
  {
  }

  /** The first difference decides. */
  lemma {:induction false} ValueLess(k: nat, a: seq<nat>, b: seq<nat>, i: nat)
    requires k > 0 && |a| == |b| && i < |a| && DigitsOk(k, a) && a[i] < b[i] && forall j :: 0 <= j < i ==> a[j] == b[j]
    ensures Value(k, a) < Value(k, b)
    decreases i
  {
    var p := Pow(k, |a| - 1);
    if i == 0 {
      ValueBound(k, a[1..]);
      MulMono(a[0] + 1, b[0], p);
      MulDistr(a[0], p);
    } else {
      ValueLess(k, a[1..], b[1..], i - 1);
    }
  }

  // -- The measure -----------------------------------------------------------------------------------

  /** Digit of frame i: its rank, and one more while it is running. */
  function Digit(m: Machine, rank: Rank, i: nat): nat {
    if i >= |m.frames| then 0
    else rank(m.frames[i].fn, m.frames[i].pc) + if i == |m.frames| - 1 then 1 else 0
  }

  function Digits(m: Machine, rank: Rank): (ds: seq<nat>)
    ensures |ds| == |m.vals| && forall i :: 0 <= i < |ds| ==> ds[i] == Digit(m, rank, i)
  {
    seq(|m.vals|, i requires 0 <= i < |m.vals| => Digit(m, rank, i))
  }

  /** Steps that may still be made. */
  function Measure(ps: Program, m: Machine, rank: Rank, top: nat): nat {
    (if m.loops <= ps.maxLoops then ps.maxLoops - m.loops else 0) * Pow(top + 2, |m.vals|) +
    Value(top + 2, Digits(m, rank))
  }

  /** Frames have different function slots, so there are no more of them than slots;
      all but the top one wait at a call. */
  ghost predicate Fits(ps: Program, m: Machine) {
    && Rising(m) && m.Top().func < |m.vals| && m.loops <= ps.maxLoops
    && forall i :: 0 <= i < |m.frames| - 1 ==> Waits(ps, m.frames[i])
  }

  predicate Waits(ps: Program, f: Frame) {
    At(ps, Ptr(f.fn, f.pc)).Call?
  }

  lemma {:induction false} DepthBound(m: Machine, i: nat)
    requires Rising(m) && i < |m.frames|
    ensures i <= m.frames[i].func
  {
    if i > 0 { DepthBound(m, i - 1); }
  }

  lemma DigitsFit(ps: Program, m: Machine, rank: Rank, top: nat)
    requires Ranked(ps, rank, top)
    ensures DigitsOk(top + 2, Digits(m, rank))
  {
  }

  /** A step leaves the frames below alone and goes on in its frame, in a new one
      above it, or in the one below. */
  lemma StepFrames(ps: Program, m: Machine, ch: Choice)
    requires Rising(m) && m.loops <= ps.maxLoops && MStep(ps, m, ch).Some?
    ensures var (m', n) := (MStep(ps, m, ch).value, |m.frames| - 1);
            && |m'.vals| == |m.vals| && m'.loops <= ps.maxLoops
            && (|| (|m'.frames| == n + 1 && m'.frames[..n] == m.frames[..n] && m'.frames[n].func == m.frames[n].func)
                || (|m'.frames| == n + 2 && m'.frames[..n + 1] == m.frames && Waits(ps, m.frames[n]) &&
                    m'.frames[n + 1].func < |m.vals|)
                || (n >= 1 && |m'.frames| == n && m'.frames[..n - 1] == m.frames[..n - 1] &&
                    m'.frames[n - 1].func == m.frames[n - 1].func))
  {
    hide Put, PutNil, Move, IsFunc;
  }

  lemma FitsStep(ps: Program, m: Machine, ch: Choice)
    requires Fits(ps, m) && MStep(ps, m, ch).Some?
    ensures Fits(ps, MStep(ps, m, ch).value) && |MStep(ps, m, ch).value.vals| == |m.vals|
  {
    hide MStep, Waits;
    RisingStep(ps, m, ch);
    StepFrames(ps, m, ch);
    var (m', n) := (MStep(ps, m, ch).value, |m.frames| - 1);
    assert n >= 1 ==> m.frames[n - 1].func < m.frames[n].func;
    forall i | 0 <= i < |m'.frames| - 1
      ensures Waits(ps, m'.frames[i])
    {
      assert m'.frames[i] == m'.frames[..|m'.frames| - 1][i];
      assert i <= n && m'.frames[i] == m.frames[i];
    }
  }

  /** The first digit that differs is smaller, or the step is counted. */
  lemma DigitsDrop(ps: Program, m: Machine, ch: Choice, rank: Rank, top: nat) returns (i: nat)
    requires Ranked(ps, rank, top) && Fits(ps, m) && MStep(ps, m, ch).Some? && MStep(ps, m, ch).value.loops == m.loops
    ensures var m' := MStep(ps, m, ch).value;
            && i < |m.vals| && Digit(m', rank, i) < Digit(m, rank, i)
            && forall j :: 0 <= j < i ==> Digit(m', rank, j) == Digit(m, rank, j)
  {
    hide Put, PutNil, Move, IsFunc;
    var n := |m.frames| - 1;
    var f := m.Top();
    DepthBound(m, n);
    assert RankedAt(ps, rank, f.fn, f.pc);
    var ins := At(ps, Ptr(f.fn, f.pc));
    if ins.Ret0? || ins.Ret1? {
      var g := m.frames[n - 1];
      assert Waits(ps, g);
      assert RankedAt(ps, rank, g.fn, g.pc);
      i := if rank(g.fn, g.pc + 1) + 1 < rank(g.fn, g.pc) then n - 1 else n;
    } else {
      i := n;
    }
  }

  /** Every step uses up some of the measure. */
  lemma MeasureDrops(ps: Program, m: Machine, ch: Choice, rank: Rank, top: nat)
    requires Ranked(ps, rank, top) && Fits(ps, m) && MStep(ps, m, ch).Some?
    ensures Measure(ps, MStep(ps, m, ch).value, rank, top) < Measure(ps, m, rank, top)
  {
    hide MStep, Ranked, Value, Pow, Digits, Digit;
    var m' := MStep(ps, m, ch).value;
    var k := top + 2;
    FitsStep(ps, m, ch);
    DigitsFit(ps, m', rank, top);
    if m'.loops == m.loops {
      var i := DigitsDrop(ps, m, ch, rank, top);
      ValueLess(k, Digits(m', rank), Digits(m, rank), i);
    } else {
      CountedOnce(ps, m, ch);
      ValueBound(k, Digits(m', rank));
      MulDistr(ps.maxLoops - m'.loops, Pow(k, |m.vals|));
    }
  }

  lemma CountedOnce(ps: Program, m: Machine, ch: Choice)
    requires Fits(ps, m) && MStep(ps, m, ch).Some?
    ensures var l := MStep(ps, m, ch).value.loops; l == m.loops || (l == m.loops + 1 && m.loops < ps.maxLoops)
  {
  }

  /** No run is longer than the measure of its start. */
  lemma {:induction false} RunsEnd(ps: Program, m: Machine, chs: seq<Choice>, rank: Rank, top: nat)
    requires Ranked(ps, rank, top) && Fits(ps, m) && MRun(ps, m, chs).Some?
    ensures |chs| <= Measure(ps, m, rank, top)
    decreases |chs|
  {
    hide MStep, Ranked, Measure;
    if chs != [] {
      FitsStep(ps, m, chs[0]);
      MeasureDrops(ps, m, chs[0], rank, top);
      RunsEnd(ps, MStep(ps, m, chs[0]).value, chs[1..], rank, top);
    }
  }

  /** All runs of code whose cycles are counted are bounded. */
  lemma CountedBounded(ps: Program, m: Machine)
    requires CyclesCounted(ps) && Fits(ps, m)
    ensures BoundedBy(ps, m, Measure(ps, m, RankOf(ps), TopOf(ps)))
  {
    hide CyclesCounted, Ranked, Measure;
    RanksExist(ps);
    forall chs | MRun(ps, m, chs).Some?
      ensures |chs| <= Measure(ps, m, RankOf(ps), TopOf(ps))
    {
      RunsEnd(ps, m, chs, RankOf(ps), TopOf(ps));
    }
  }

  /** The dispatch loop of kp_vm_call, from any state of the interpreter; `choose`
      settles what the model leaves open in step n. The loop ends. */
  method Interpret(ps: Program, start: Vm, choose: (nat, Vm) -> Choice, ghost m0: Machine)
                   returns (last: Vm, steps: nat)
    requires CyclesCounted(ps) && Rep(ps, start, m0) && start.loops <= ps.maxLoops
    requires forall n: nat, s: Vm, m: Machine :: Rep(ps, s, m) ==> ChoiceOk(m, choose(n, s))
    ensures steps <= Measure(ps, m0, RankOf(ps), TopOf(ps)) && Step(ps, last, choose(steps, last)).None?
    ensures exists m :: Rep(ps, last, m)
  {
    hide Step, MStep, Ranked, Fits, Measure, Rep, CyclesCounted;
    RanksExist(ps);
    ghost var rank, top := RankOf(ps), TopOf(ps);
    last, steps := start, 0;
    ghost var m := m0;
    RepFits(ps, last, m);
    while true
      invariant Rep(ps, last, m) && Fits(ps, m) && steps + Measure(ps, m, rank, top) <= Measure(ps, m0, rank, top)
      decreases Measure(ps, m, rank, top)
    {
      var ch := choose(steps, last);
      StepRep(ps, last, m, ch);
      var next := Step(ps, last, ch);
      if next.None? { return; }
      MeasureDrops(ps, m, ch, rank, top);
      FitsStep(ps, m, ch);
      last, steps, m := next.value, steps + 1, MStep(ps, m, ch).value;
    }
  }

  lemma RepFits(ps: Program, s: Vm, m: Machine)
    requires Rep(ps, s, m) && s.loops <= ps.maxLoops
    ensures Fits(ps, m)
  {
    BelowTop(ps, s, m);
    forall i, j | 0 <= i < j < |m.frames|
      ensures m.frames[i].func < m.frames[j].func
    {
      FuncsRise(ps, m.frames, s.slots, i, j);
    }
    forall i | 0 <= i < |m.frames| - 1
      ensures Waits(ps, m.frames[i])
    {
      assert Linked(ps, m.frames, s.slots, i + 1);
    }
  }
}
