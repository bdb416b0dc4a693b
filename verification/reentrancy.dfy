/** Probe firings that interrupt each other. Every CPU has one thread state per
    context, guarded by a flag that is tested first and set afterwards. */
module Reentrancy {
  import opened Values

  const CONTEXTS: nat := 4  // nmi, irq, softirq, process: a smaller number interrupts a larger one

  /** Where a firing is in its handler. */
  datatype Point =
    | Begin     // before the flag is tested
    | Tested    // the flag was clear
    | Flagged   // the flag is set
    | Prepared  // the stack is reset and holds the closure
    | Running   // the event is current and the closure runs
    | Cleared   // the event is not current any more

  predicate Holds(p: Point) {
    p.Flagged? || p.Prepared? || p.Running? || p.Cleared?
  }

  /** A thread state: its stack and its current event. */
  datatype Thread = Thread(stack: seq<Val>, current: Option<nat>)

  /** A firing: its context, its event, its place, and its thread as it left it last. */
  datatype Firing = Firing(ctx: nat, event: nat, at: Point, view: Thread)

  /** A CPU: nested firings, innermost last; flags and threads by context. */
  datatype Cpu = Cpu(nest: seq<Firing>, flags: seq<bool>, threads: seq<Thread>)

  // -- Steps --------------------------------------------------------------------------------------

  /** A firing may interrupt one of the same or of a lower context. */
  predicate MayFire(c: Cpu, ctx: nat) {
    ctx < CONTEXTS && (c.nest != [] ==> ctx <= c.nest[|c.nest| - 1].ctx)
  }

  datatype Label =
    | Fire(ctx: nat, event: nat)   // an event starts a handler
    | Quit                         // the session has stopped: leave at once
    | Test                         // read the flag; leave if it is set
    | SetFlag
    | NewThread(fn: Val)           // reset the stack and push the closure
    | SetEvent
    | Work(stack: seq<Val>)        // the closure runs: the stack changes
    | ClearEvent
    | Put                          // clear the flag and leave

  ghost predicate Wf(c: Cpu) {
    && |c.flags| == CONTEXTS && |c.threads| == CONTEXTS
    && forall i :: 0 <= i < |c.nest| ==> c.nest[i].ctx < CONTEXTS
  }

  function Pop(c: Cpu): Cpu
    requires c.nest != []
  {
    c.(nest := c.nest[..|c.nest| - 1])
  }

  /** The innermost firing goes on to point p with thread t. */
  function Advance(c: Cpu, p: Point, t: Thread): Cpu
    requires Wf(c) && c.nest != []
  {
    var f := c.nest[|c.nest| - 1];
    c.(nest := c.nest[..|c.nest| - 1] + [f.(at := p, view := t)], threads := c.threads[f.ctx := t])
  }

  /** One step of a CPU; None if the step is not possible there. */
  function Step(c: Cpu, l: Label): Option<Cpu>
    requires Wf(c)
  {
    if l.Fire? then
      if MayFire(c, l.ctx) then Some(c.(nest := c.nest + [Firing(l.ctx, l.event, Begin, c.threads[l.ctx])])) else None
    else if c.nest == [] then None
    else
      var f := c.nest[|c.nest| - 1];
      var t := c.threads[f.ctx];
      match l
      case Quit => if f.at.Begin? then Some(Pop(c)) else None
      case Test => if !f.at.Begin? then None else if c.flags[f.ctx] then Some(Pop(c)) else Some(Advance(c, Tested, t))
      case SetFlag => if f.at.Tested? then Some(Advance(c, Flagged, t).(flags := c.flags[f.ctx := true])) else None
      case NewThread(fn) => if f.at.Flagged? then Some(Advance(c, Prepared, t.(stack := [fn]))) else None
      case SetEvent => if f.at.Prepared? then Some(Advance(c, Running, t.(current := Some(f.event)))) else None
      case Work(stack) => if f.at.Running? then Some(Advance(c, Running, t.(stack := stack))) else None
      case ClearEvent => if f.at.Running? then Some(Advance(c, Cleared, t.(current := None))) else None
      case Put => if f.at.Cleared? then Some(Pop(c).(flags := c.flags[f.ctx := false])) else None
  }

  // -- The invariant ---------------------------------------------------------------------------------

  /** A firing that holds its context: its flag is set, its thread is as it left it,
      and inner firings of the same context have not tested the flag yet. */
  ghost predicate Owner(c: Cpu, i: nat)
    requires Wf(c) && i < |c.nest|
  {
    var f := c.nest[i];
    && c.flags[f.ctx] && c.threads[f.ctx] == f.view
    && (f.at.Running? ==> f.view.current == Some(f.event))
    && forall j :: i < j < |c.nest| && c.nest[j].ctx == f.ctx ==> c.nest[j].at == Begin
  }

  ghost predicate Inv(c: Cpu) {
    && Wf(c)
    && (forall i, j :: 0 <= i < j < |c.nest| ==> c.nest[j].ctx <= c.nest[i].ctx)
    && (forall i :: 0 <= i < |c.nest| && Holds(c.nest[i].at) ==> Owner(c, i))
    && (forall x :: 0 <= x < CONTEXTS && c.flags[x] ==> Held(c, x))
  }

  /** Some firing holds the context. */
  ghost predicate Held(c: Cpu, x: nat) {
    exists i :: 0 <= i < |c.nest| && c.nest[i].ctx == x && Holds(c.nest[i].at)
  }

  lemma InitInv(threads: seq<Thread>)
    requires |threads| == CONTEXTS
    ensures Inv(Cpu([], seq(CONTEXTS, _ => false), threads))
  {
  }

  lemma FireInv(c: Cpu, f: Firing)
    requires Inv(c) && MayFire(c, f.ctx) && f.at == Begin
    ensures Inv(c.(nest := c.nest + [f]))
  {
    hide Owner, Held;
    var c' := c.(nest := c.nest + [f]);
    forall i | 0 <= i < |c'.nest| && Holds(c'.nest[i].at)
      ensures Owner(c', i)
    {
      FireOwner(c, f, i);
    }
    forall x | 0 <= x < CONTEXTS && c'.flags[x]
      ensures Held(c', x)
    {
      FireHeld(c, f, x);
    }
  }

  lemma FireOwner(c: Cpu, f: Firing, i: nat)
    requires Wf(c) && f.ctx < CONTEXTS && f.at == Begin && i < |c.nest| && Owner(c, i)
    ensures Owner(c.(nest := c.nest + [f]), i)
  {
  }

  lemma FireHeld(c: Cpu, f: Firing, x: nat)
    requires Held(c, x)
    ensures Held(c.(nest := c.nest + [f]), x)
  {
    var i :| 0 <= i < |c.nest| && c.nest[i].ctx == x && Holds(c.nest[i].at);
    assert (c.nest + [f])[i] == c.nest[i];
  }

  /** A firing that holds nothing leaves. */
  lemma LeaveInv(c: Cpu)
    requires Inv(c) && c.nest != [] && !Holds(c.nest[|c.nest| - 1].at)
    ensures Inv(Pop(c))
  {
    var c' := Pop(c);
    forall i | 0 <= i < |c'.nest| && Holds(c'.nest[i].at)
      ensures Owner(c', i)
    {
      assert Owner(c, i);
    }
    forall x | 0 <= x < CONTEXTS && c'.flags[x]
      ensures Held(c', x)
    {
      assert Held(c, x);
      var i :| 0 <= i < |c.nest| && c.nest[i].ctx == x && Holds(c.nest[i].at);
      assert c'.nest[i] == c.nest[i];
    }
  }

  /** The innermost firing moves on. */
  lemma AdvanceInv(c: Cpu, p: Point, t: Thread, flag: bool)
    requires Inv(c) && c.nest != []
    requires var f := c.nest[|c.nest| - 1];
             && (f.at == Begin ==> !c.flags[f.ctx]) && (Holds(f.at) ==> Holds(p)) && p != Begin
             && (Holds(p) ==> flag && (p.Running? ==> t.current == Some(f.event)))
             && (!Holds(p) ==> t == c.threads[f.ctx] && flag == c.flags[f.ctx] && !flag)
    ensures var f := c.nest[|c.nest| - 1]; Inv(Advance(c, p, t).(flags := c.flags[f.ctx := flag]))
  {
    hide Held;
    var n := |c.nest| - 1;
    var f := c.nest[n];
    var c' := Advance(c, p, t).(flags := c.flags[f.ctx := flag]);
    forall i | 0 <= i < |c'.nest| && Holds(c'.nest[i].at)
      ensures Owner(c', i)
    {
      if i < n { assert Owner(c, i); }
    }
    forall x | 0 <= x < CONTEXTS && c'.flags[x]
      ensures Held(c', x)
    {
      if x == f.ctx {
        HeldAt(c', n);
      } else {
        AdvanceHeld(c, p, t, c.flags[f.ctx := flag], x);
      }
    }
  }

  lemma HeldAt(c: Cpu, i: nat)
    requires i < |c.nest| && Holds(c.nest[i].at)
    ensures Held(c, c.nest[i].ctx)
  {
  }

  lemma AdvanceHeld(c: Cpu, p: Point, t: Thread, flags: seq<bool>, x: nat)
    requires Wf(c) && c.nest != [] && Held(c, x) && x != c.nest[|c.nest| - 1].ctx
    ensures Held(Advance(c, p, t).(flags := flags), x)
  {
    var i :| 0 <= i < |c.nest| && c.nest[i].ctx == x && Holds(c.nest[i].at);
    assert Advance(c, p, t).nest[i] == c.nest[i];
  }

  lemma PutInv(c: Cpu)
    requires Inv(c) && c.nest != [] && Holds(c.nest[|c.nest| - 1].at)
    ensures var f := c.nest[|c.nest| - 1]; Inv(Pop(c).(flags := c.flags[f.ctx := false]))
  {
    var n := |c.nest| - 1;
    var f := c.nest[n];
    var c' := Pop(c).(flags := c.flags[f.ctx := false]);
    forall i | 0 <= i < |c'.nest| && Holds(c'.nest[i].at)
      ensures Owner(c', i)
    {
      assert Owner(c, i);
    }
    forall x | 0 <= x < CONTEXTS && c'.flags[x]
      ensures Held(c', x)
    {
      assert Held(c, x);
      var i :| 0 <= i < |c.nest| && c.nest[i].ctx == x && Holds(c.nest[i].at);
      assert c'.nest[i] == c.nest[i];
    }
  }

  lemma SameFlag(c: Cpu, p: Point, t: Thread)
    requires Wf(c) && c.nest != []
    ensures var f := c.nest[|c.nest| - 1];
            Advance(c, p, t) == Advance(c, p, t).(flags := c.flags[f.ctx := c.flags[f.ctx]])
  {
    var f := c.nest[|c.nest| - 1];
    assert c.flags[f.ctx := c.flags[f.ctx]] == c.flags;
  }

  lemma StepInv(c: Cpu, l: Label)
    requires Inv(c) && Step(c, l).Some?
    ensures Inv(Step(c, l).value)
  {
    hide Inv, Advance;
    assert Wf(c) by { InvWf(c); }
    if l.Fire? {
      FireInv(c, Firing(l.ctx, l.event, Begin, c.threads[l.ctx]));
    } else {
      var f := c.nest[|c.nest| - 1];
      var t := c.threads[f.ctx];
      TopOwner(c);
      match l
      case Quit => LeaveInv(c);
      case Test => if c.flags[f.ctx] { LeaveInv(c); } else { AdvanceInv(c, Tested, t, false); SameFlag(c, Tested, t); }
      case SetFlag => AdvanceInv(c, Flagged, t, true);
      case NewThread(fn) => AdvanceInv(c, Prepared, t.(stack := [fn]), true); SameFlag(c, Prepared, t.(stack := [fn]));
      case SetEvent => AdvanceInv(c, Running, t.(current := Some(f.event)), true);
          SameFlag(c, Running, t.(current := Some(f.event)));
      case Work(stack) => AdvanceInv(c, Running, t.(stack := stack), true); SameFlag(c, Running, t.(stack := stack));
      case ClearEvent => AdvanceInv(c, Cleared, t.(current := None), true); SameFlag(c, Cleared, t.(current := None));
      case Put => PutInv(c);
    }
  }

  lemma InvWf(c: Cpu)
    requires Inv(c)
    ensures Wf(c)
  {
  }

  lemma TopOwner(c: Cpu)
    requires Inv(c) && c.nest != []
    ensures var n := |c.nest| - 1; Holds(c.nest[n].at) ==> Owner(c, n)
  {
  }

  // -- Runs of all CPUs ----------------------------------------------------------------------------------

  /** A step of one of the CPUs. */
  datatype Event = Event(cpu: nat, what: Label)

  ghost predicate Reaches(s: seq<Cpu>, run: seq<Event>, s': seq<Cpu>)
    decreases |run|
  {
    if run == [] then s' == s
    else
      var e := run[0];
      && e.cpu < |s| && Wf(s[e.cpu]) && Step(s[e.cpu], e.what).Some?
      && Reaches(s[e.cpu := Step(s[e.cpu], e.what).value], run[1..], s')
  }

  lemma {:induction false} RunInv(s: seq<Cpu>, run: seq<Event>, s': seq<Cpu>)
    requires Reaches(s, run, s') && forall i :: 0 <= i < |s| ==> Inv(s[i])
    ensures |s'| == |s| && forall i :: 0 <= i < |s'| ==> Inv(s'[i])
    decreases |run|
  {
    hide Inv, Step;
    if run != [] {
      var e := run[0];
      StepInv(s[e.cpu], e.what);
      RunInv(s[e.cpu := Step(s[e.cpu], e.what).value], run[1..], s');
    }
  }

  /** In every reachable state, a context of a CPU serves at most one firing, its
      flag is set exactly while that one holds it, and that one finds its thread as
      it left it, with its own event current while its closure runs. */
  lemma Exclusive(s: seq<Cpu>, run: seq<Event>, s': seq<Cpu>, cpu: nat, x: nat)
    requires Reaches(s, run, s') && cpu < |s'| && x < CONTEXTS
    requires forall i :: 0 <= i < |s| ==> Inv(s[i])
    ensures Inv(s'[cpu])
    ensures s'[cpu].flags[x] <==> Held(s'[cpu], x)
    ensures forall i, j :: 0 <= i < j < |s'[cpu].nest| && s'[cpu].nest[i].ctx == s'[cpu].nest[j].ctx ==>
              !(Holds(s'[cpu].nest[i].at) && Holds(s'[cpu].nest[j].at))
    ensures forall i :: 0 <= i < |s'[cpu].nest| && Holds(s'[cpu].nest[i].at) ==>
              var f := s'[cpu].nest[i];
              s'[cpu].threads[f.ctx] == f.view && (f.at.Running? ==> f.view.current == Some(f.event))
  {
    RunInv(s, run, s');
    var c := s'[cpu];
    forall i, j | 0 <= i < j < |c.nest| && c.nest[i].ctx == c.nest[j].ctx
      ensures !(Holds(c.nest[i].at) && Holds(c.nest[j].at))
    {
      if Holds(c.nest[i].at) { assert Owner(c, i); }
    }
    if Held(c, x) {
      var i :| 0 <= i < |c.nest| && c.nest[i].ctx == x && Holds(c.nest[i].at);
      assert Owner(c, i);
    }
    forall i | 0 <= i < |c.nest| && Holds(c.nest[i].at)
      ensures c.threads[c.nest[i].ctx] == c.nest[i].view
      ensures (c.nest[i].at.Running? ==> c.nest[i].view.current == Some(c.nest[i].event))
    {
      assert Owner(c, i);
    }
  }

  /** Firing n - 1 of the CPU makes no step of its own during the run: it is interrupted. */
  ghost predicate Interrupts(s: seq<Cpu>, run: seq<Event>, cpu: nat, n: nat)
    decreases |run|
  {
    run != [] ==>
      var e := run[0];
      && e.cpu < |s| && Wf(s[e.cpu]) && Step(s[e.cpu], e.what).Some?
      && (e.cpu == cpu ==> |s[cpu].nest| > n || e.what.Fire?)
      && Interrupts(s[e.cpu := Step(s[e.cpu], e.what).value], run[1..], cpu, n)
  }

  lemma StepAbove(c: Cpu, l: Label, n: nat)
    requires Wf(c) && Step(c, l).Some? && (n < |c.nest| || (n == |c.nest| && l.Fire?))
    ensures n <= |Step(c, l).value.nest| && Step(c, l).value.nest[..n] == c.nest[..n]
  {
  }

  lemma {:induction false} NestKept(s: seq<Cpu>, run: seq<Event>, s': seq<Cpu>, cpu: nat, n: nat)
    requires Reaches(s, run, s') && cpu < |s| && n <= |s[cpu].nest| && Interrupts(s, run, cpu, n)
    ensures |s'| == |s| && n <= |s'[cpu].nest| && s'[cpu].nest[..n] == s[cpu].nest[..n]
    decreases |run|
  {
    hide Step;
    if run != [] {
      var e := run[0];
      if e.cpu == cpu { StepAbove(s[cpu], e.what, n); }
      NestKept(s[e.cpu := Step(s[e.cpu], e.what).value], run[1..], s', cpu, n);
    }
  }

  /** An interrupted handler goes on with the stack and the event it had. */
  lemma ResumesIntact(s: seq<Cpu>, run: seq<Event>, s': seq<Cpu>, cpu: nat, i: nat)
    requires (forall k :: 0 <= k < |s| ==> Inv(s[k])) && Reaches(s, run, s') && cpu < |s|
    requires i < |s[cpu].nest| && Holds(s[cpu].nest[i].at) && Interrupts(s, run, cpu, i + 1)
    ensures |s'| == |s| && i < |s'[cpu].nest| && s'[cpu].nest[i] == s[cpu].nest[i]
    ensures Wf(s[cpu]) && Wf(s'[cpu]) && s'[cpu].threads[s[cpu].nest[i].ctx] == s[cpu].threads[s[cpu].nest[i].ctx]
  {
    hide Step, Reaches, Interrupts;
    RunInv(s, run, s');
    NestKept(s, run, s', cpu, i + 1);
    assert s'[cpu].nest[i] == s'[cpu].nest[..i + 1][i] == s[cpu].nest[i];
    assert Owner(s[cpu], i) && Owner(s'[cpu], i);
  }

  /** The flag test refuses a firing exactly if an outer one holds the same context. */
  lemma RefusedExactly(c: Cpu)
    requires Inv(c) && c.nest != [] && c.nest[|c.nest| - 1].at == Begin
    ensures var x := c.nest[|c.nest| - 1].ctx;
            (Step(c, Test) == Some(Pop(c))) <==>
            exists i :: 0 <= i < |c.nest| - 1 && c.nest[i].ctx == x && Holds(c.nest[i].at)
  {
    var n := |c.nest| - 1;
    var x := c.nest[n].ctx;
    assert forall i :: 0 <= i < n && Holds(c.nest[i].at) ==> Owner(c, i) && c.flags[c.nest[i].ctx];
    if c.flags[x] {
      assert Held(c, x);
    } else {
      assert |Step(c, Test).value.nest| == n + 1;
    }
  }

  /** In every reachable state, a handler that only interrupts lower contexts finds its
      flag clear: a timer callback may do without looking at the result of the test. */
  lemma NeverRefused(s: seq<Cpu>, run: seq<Event>, s': seq<Cpu>, cpu: nat, x: nat, event: nat)
    requires (forall i :: 0 <= i < |s| ==> Inv(s[i])) && Reaches(s, run, s') && cpu < |s'| && x < CONTEXTS
    requires s'[cpu].nest != [] ==> x < s'[cpu].nest[|s'[cpu].nest| - 1].ctx
    ensures Inv(s'[cpu]) && !s'[cpu].flags[x]
    ensures var c := Step(s'[cpu], Fire(x, event)).value;
            && Step(s'[cpu], Fire(x, event)).Some? && Wf(c)
            && Step(c, Test).Some? && Step(c, Test).value.nest[|s'[cpu].nest|].at == Tested
  {
    RunInv(s, run, s');
    var c := s'[cpu];
    forall i | 0 <= i < |c.nest|
      ensures c.nest[i].ctx != x
    {
      assert c.nest[|c.nest| - 1].ctx <= c.nest[i].ctx;
    }
    assert !Held(c, x);
  }

  // -- A handler from start to end ----------------------------------------------------------------------

  /** A CPU on which nothing runs: nmi, irq, softirq and process all have a clear flag. */
  predicate Idle(c: Cpu) {
    c.nest == [] && c.flags == [false, false, false, false] && |c.threads| == 4
  }

  /** Between setting the flag and clearing it. */
  predicate Inside(f: Firing) {
    f.at == Flagged || f.at == Prepared || f.at == Running || f.at == Cleared
  }

  /** However firings interrupt each other, on however many CPUs: a flag is set exactly
      while a firing of its context is inside its handler, there is never a second one,
      and while a closure runs the current event of its thread is its own. */
  lemma FromIdle(s: seq<Cpu>, run: seq<Event>, s': seq<Cpu>, cpu: nat)
    requires (forall i :: 0 <= i < |s| ==> Idle(s[i])) && Reaches(s, run, s') && cpu < |s'|
    ensures var c := s'[cpu];
            && |c.flags| == |c.threads| == 4
            && (forall x :: 0 <= x < 4 ==>
                  (c.flags[x] <==> exists i :: 0 <= i < |c.nest| && c.nest[i].ctx == x && Inside(c.nest[i])))
            && (forall i, j :: 0 <= i < j < |c.nest| && c.nest[i].ctx == c.nest[j].ctx && Inside(c.nest[i]) ==>
                  !Inside(c.nest[j]))
            && (forall i :: 0 <= i < |c.nest| ==> c.nest[i].ctx < 4)
            && forall i :: 0 <= i < |c.nest| && c.nest[i].at == Running ==>
                 c.threads[c.nest[i].ctx].current == Some(c.nest[i].event)
  {
    hide Step, Reaches;
    forall i | 0 <= i < |s|
      ensures Inv(s[i])
    {
      assert s[i] == Cpu([], seq(CONTEXTS, _ => false), s[i].threads);
      InitInv(s[i].threads);
    }
    Exclusive(s, run, s', cpu, 0);
    forall x | 0 <= x < CONTEXTS
      ensures s'[cpu].flags[x] <==> Held(s'[cpu], x)
    {
      Exclusive(s, run, s', cpu, x);
    }
  }

  /** Steps of the first CPU. */
  function First(ls: seq<Label>): (run: seq<Event>)
    ensures |run| == |ls| && forall i :: 0 <= i < |ls| ==> run[i] == Event(0, ls[i])
  {
    seq(|ls|, i requires 0 <= i < |ls| => Event(0, ls[i]))
  }

  lemma OneMore(c: Cpu, l: Label, ls: seq<Label>, c2: Cpu, all: seq<Label>)
    requires Wf(c) && Step(c, l).Some? && Reaches([Step(c, l).value], First(ls), [c2]) && all == [l] + ls
    ensures Reaches([c], First(all), [c2])
  {
    hide Step;
    var run := First(all);
    assert run[1..] == First(ls);
    assert [c][0 := Step(c, l).value] == [Step(c, l).value];
  }

  /** A handler that finds its flag clear: its closure starts on a stack of its own, with
      the event that fired it, and when it leaves, the nest and the flags are as they
      were and the event is gone. Threads of other contexts are not touched. */
  lemma HandlerRuns(c: Cpu, x: nat, event: nat, fn: Val, stack: seq<Val>)
    requires Wf(c) && x < 4 && (c.nest != [] ==> x <= c.nest[|c.nest| - 1].ctx) && !c.flags[x]
    ensures var running := Thread([fn], Some(event));
            var c1 := Cpu(c.nest + [Firing(x, event, Running, running)], c.flags[x := true], c.threads[x := running]);
            && Reaches([c], First([Fire(x, event), Test, SetFlag, NewThread(fn), SetEvent]), [c1])
            && Reaches([c1], First([Work(stack), ClearEvent, Put]),
                       [Cpu(c.nest, c.flags, c.threads[x := Thread(stack, None)])])
  {
    Enters(c, x, event, fn);
    Exits(c, x, event, fn, stack);
  }

  /** The innermost firing and its thread. */
  function With(c: Cpu, x: nat, event: nat, at: Point, t: Thread, flag: bool): Cpu
    requires Wf(c) && x < 4
  {
    Cpu(c.nest + [Firing(x, event, at, t)], c.flags[x := flag], c.threads[x := t])
  }

  lemma Moves(c: Cpu, x: nat, event: nat, at: Point, t: Thread, flag: bool, p: Point, t': Thread)
    requires Wf(c) && x < 4
    ensures var d := With(c, x, event, at, t, flag);
            Wf(d) && d.nest != [] && Advance(d, p, t') == With(c, x, event, p, t', flag)
  {
    var d := With(c, x, event, at, t, flag);
    assert d.nest[..|d.nest| - 1] == c.nest;
  }

  lemma Enters(c: Cpu, x: nat, event: nat, fn: Val)
    requires Wf(c) && x < 4 && (c.nest != [] ==> x <= c.nest[|c.nest| - 1].ctx) && !c.flags[x]
    ensures Reaches([c], First([Fire(x, event), Test, SetFlag, NewThread(fn), SetEvent]),
                    [With(c, x, event, Running, Thread([fn], Some(event)), true)])
  {
    hide Advance, Reaches;
    var t := c.threads[x];
    var (u, v) := (t.(stack := [fn]), Thread([fn], Some(event)));
    var d0, d1 := With(c, x, event, Begin, t, false), With(c, x, event, Tested, t, false);
    var d2, d3 := With(c, x, event, Flagged, t, true), With(c, x, event, Prepared, u, true);
    var d4 := With(c, x, event, Running, v, true);
    Moves(c, x, event, Begin, t, false, Tested, t);
    Moves(c, x, event, Tested, t, false, Flagged, t);
    Moves(c, x, event, Flagged, t, true, Prepared, u);
    Moves(c, x, event, Prepared, u, true, Running, v);
    assert c.flags[x := false] == c.flags && c.threads[x := t] == c.threads;
    assert Step(c, Fire(x, event)) == Some(d0) && Step(d0, Test) == Some(d1);
    assert Step(d2, NewThread(fn)) == Some(d3) && Step(d3, SetEvent) == Some(d4);
    assert Step(d1, SetFlag) == Some(d2);
    Stays(d4);
    OneMore(d3, SetEvent, [], d4, [SetEvent]);
    OneMore(d2, NewThread(fn), [SetEvent], d4, [NewThread(fn), SetEvent]);
    OneMore(d1, SetFlag, [NewThread(fn), SetEvent], d4, [SetFlag, NewThread(fn), SetEvent]);
    OneMore(d0, Test, [SetFlag, NewThread(fn), SetEvent], d4, [Test, SetFlag, NewThread(fn), SetEvent]);
    OneMore(c, Fire(x, event), [Test, SetFlag, NewThread(fn), SetEvent], d4,
            [Fire(x, event), Test, SetFlag, NewThread(fn), SetEvent]);
  }

  lemma Stays(c: Cpu)
    ensures Reaches([c], First([]), [c])
  {
  }

  lemma Exits(c: Cpu, x: nat, event: nat, fn: Val, stack: seq<Val>)
    requires Wf(c) && x < 4 && !c.flags[x]
    ensures Reaches([With(c, x, event, Running, Thread([fn], Some(event)), true)],
                    First([Work(stack), ClearEvent, Put]),
                    [Cpu(c.nest, c.flags, c.threads[x := Thread(stack, None)])])
  {
    hide Advance, Reaches;
    var (v, w, z) := (Thread([fn], Some(event)), Thread(stack, Some(event)), Thread(stack, None));
    var d4, d5 := With(c, x, event, Running, v, true), With(c, x, event, Running, w, true);
    var d6, d7 := With(c, x, event, Cleared, z, true), Cpu(c.nest, c.flags, c.threads[x := z]);
    Moves(c, x, event, Running, v, true, Running, w);
    Moves(c, x, event, Running, w, true, Cleared, z);
    Moves(c, x, event, Cleared, z, true, Cleared, z);
    assert d6.nest[..|c.nest|] == c.nest && c.flags[x := true][x := false] == c.flags;
    assert Step(d4, Work(stack)) == Some(d5) && Step(d5, ClearEvent) == Some(d6) && Step(d6, Put) == Some(d7);
    Stays(d7);
    OneMore(d6, Put, [], d7, [Put]);
    OneMore(d5, ClearEvent, [Put], d7, [ClearEvent, Put]);
    OneMore(d4, Work(stack), [ClearEvent, Put], d7, [Work(stack), ClearEvent, Put]);
  }
}
