/** Calls and returns of the interpreter. The interpreter has no list of frames:
    it finds the caller again from the program counter saved in the function
    slot and the A field of the call instruction found there. */
module Frames {
  import opened Values

  /** Instructions, as far as control and the frame are concerned. Write is any
      instruction with a result register, UpWrite a store through an upvalue, and
      Branch a test together with the jump behind it, which count as one. */
  datatype Ins =
    | Call(a: nat, c: nat) | CallT(a: nat) | Ret0 | Ret1(a: nat)
    | Write(a: nat) | UpWrite | Branch(t: nat) | Jump(t: nat)
    | Loop | ForI(a: nat, t: nat) | ForL(a: nat, t: nat) | IterN(a: nat, t: nat)
    | Stop

  datatype Proto = Proto(framesize: nat, numparams: nat, code: seq<Ins>)

  /** The prototypes, the prototype of every closure, several of which can share one, and
      the setting for how often loops may go round. */
  datatype Program = Program(protos: seq<Proto>, protoOf: nat -> Option<nat>, maxLoops: nat)

  /** The address of an instruction. */
  datatype Ptr = Ptr(proto: nat, idx: nat)

  /** A stack slot: a value, and in function slots the saved pc. */
  datatype Slot = Slot(val: Val, pcr: Option<Ptr>)

  /** What is left open by the model: values, conditions, upvalue slots. */
  datatype Choice = Choice(v: Val, taken: bool, slot: nat)

  /** The registers of the interpreter; fn is the running closure. */
  datatype Vm = Vm(pc: Ptr, func: nat, base: nat, fn: nat, slots: seq<Slot>, loops: nat)

  // -- The interpreter ------------------------------------------------------------------------

  function SetVal(ss: seq<Slot>, i: nat, v: Val): (r: seq<Slot>)
    ensures |r| == |ss|
    ensures i < |ss| ==> r[i] == Slot(v, ss[i].pcr)
    ensures forall j :: 0 <= j < |ss| && j != i ==> r[j] == ss[j]
  {
    if i < |ss| then ss[i := ss[i].(val := v)] else ss
  }

  /** Slots lo..hi-1 become nil. */
  function FillNil(ss: seq<Slot>, lo: nat, hi: nat): (r: seq<Slot>)
    ensures |r| == |ss| && forall j :: 0 <= j < |ss| && !(lo <= j < hi) ==> r[j] == ss[j]
    ensures forall j :: 0 <= j < |ss| ==> r[j].pcr == ss[j].pcr
    decreases hi - lo
  {
    if lo >= hi then ss else FillNil(SetVal(ss, lo, Nil), lo + 1, hi)
  }

  /** n values are copied downwards, one after the other. */
  function CopyDown(ss: seq<Slot>, src: nat, dst: nat, n: nat): (r: seq<Slot>)
    requires src + n <= |ss| && dst <= src
    ensures |r| == |ss| && forall j :: 0 <= j < |ss| && !(dst <= j < dst + n) ==> r[j] == ss[j]
    ensures forall j :: 0 <= j < |ss| ==> r[j].pcr == ss[j].pcr
    decreases n
  {
    if n == 0 then ss else CopyDown(SetVal(ss, dst, ss[src].val), src + 1, dst + 1, n - 1)
  }

  /** A function value that can be called. */
  predicate IsFunc(ps: Program, v: Val) {
    v.Obj? && ps.protoOf(v.id).Some? && ps.protoOf(v.id).value < |ps.protos|
  }

  /** Number of the prototype of a function value. */
  function ProtoNo(ps: Program, v: Val): (n: nat)
    requires IsFunc(ps, v)
    ensures n < |ps.protos|
  {
    ps.protoOf(v.id).value
  }

  function At(ps: Program, p: Ptr): Ins {
    if p.proto < |ps.protos| && p.idx < |ps.protos[p.proto].code| then ps.protos[p.proto].code[p.idx] else Stop
  }

  function To(p: Ptr, t: nat): Ptr {
    p.(idx := t)
  }

  /** One instruction; None when the interpreter returns. */
  function Step(ps: Program, s: Vm, ch: Choice): Option<Vm> {
    var next := s.(pc := To(s.pc, s.pc.idx + 1));
    match At(ps, s.pc)
    case Call(a, c) => DoCall(ps, s, s.base + a, c)
    case CallT(a) => DoTailCall(ps, s, s.base + a)
    case Ret0 => Return(ps, s, Nil)
    case Ret1(a) => if s.base + a < |s.slots| then Return(ps, s, s.slots[s.base + a].val) else None
    case Write(a) => Some(next.(slots := SetVal(s.slots, s.base + a, ch.v)))
    case UpWrite => Some(next.(slots := SetVal(s.slots, ch.slot, ch.v)))
    case Branch(t) => Some(if ch.taken then s.(pc := To(s.pc, t)) else next)
    case Jump(t) => Some(s.(pc := To(s.pc, t)))
    case Loop => Hot(ps, s, next)
    case ForI(a, t) => Some(if ch.taken then s.(pc := To(s.pc, t))
        else next.(slots := SetVal(s.slots, s.base + a + 3, ch.v)))
    case ForL(a, t) =>
      Hot(ps, s, if ch.taken then s.(pc := To(s.pc, t),
          slots := SetVal(SetVal(s.slots, s.base + a, ch.v), s.base + a + 3, ch.v))
             else next)
    case IterN(a, t) =>
      Hot(ps, s, if ch.taken then s.(pc := To(s.pc, t),
          slots := SetVal(SetVal(s.slots, s.base + a, ch.v), s.base + a + 1, ch.v))
             else s.(pc := To(s.pc, s.pc.idx + 2)))
    case Stop => None
  }

  /** CALL of a function in slot nf with c - 1 arguments; c is 0 where the number
      of arguments is only known at run time, which is not modelled. */
  function DoCall(ps: Program, s: Vm, nf: nat, c: nat): Option<Vm> {
    if c == 0 || nf >= |s.slots| || !IsFunc(ps, s.slots[nf].val) then None
    else
      var id, n := s.slots[nf].val.id, ProtoNo(ps, s.slots[nf].val);
      if |s.slots| <= nf + c + ps.protos[n].framesize then None  // stack overflow
      else
        var saved := s.slots[nf := s.slots[nf].(pcr := Some(s.pc))];
        Some(Vm(Ptr(n, 1), nf, nf + 1, id, FillNil(saved, nf + c, nf + 1 + ps.protos[n].numparams), s.loops))
  }

  /** CALLT: the called function takes the place of the running one. */
  function DoTailCall(ps: Program, s: Vm, nf: nat): Option<Vm> {
    if nf >= |s.slots| || !IsFunc(ps, s.slots[nf].val) || s.func >= nf then None
    else
      var id, n := s.slots[nf].val.id, ProtoNo(ps, s.slots[nf].val);
      if nf + 1 + ps.protos[n].numparams > |s.slots| then None
      else
        Some(Vm(Ptr(n, 1), s.func, s.base, id,
                CopyDown(SetVal(s.slots, s.func, s.slots[nf].val), nf + 1, s.func + 1, ps.protos[n].numparams),
                    s.loops))
  }

  /** RET0 and RET1: back behind the call instruction. */
  function Return(ps: Program, s: Vm, v: Val): Option<Vm> {
    if s.func >= |s.slots| || s.slots[s.func].pcr.None? then None  // called from outside
    else
      var pc := s.slots[s.func].pcr.value;
      var i := At(ps, pc);
      if !i.Call? || s.func < i.a + 1 then None
      else
        var slots, func := SetVal(s.slots, s.func, v), s.func - i.a - 1;
        if !IsFunc(ps, slots[func].val) then None
        else Some(Vm(To(pc, pc.idx + 1), func, func + 1, slots[func].val.id, slots, s.loops))
  }

  /** check_hot_loop. */
  function Hot(ps: Program, s: Vm, next: Vm): Option<Vm> {
    if s.loops == ps.maxLoops then None else Some(next.(loops := s.loops + 1))
  }

  // -- What a call passes ---------------------------------------------------------------------------

  /** The function value that is called, with its prototype. */
  predicate Calls(ps: Program, v: Val, id: nat, n: nat) {
    v == Obj(id) && ps.protoOf(id) == Some(n) && n < |ps.protos|
  }

  /** Register i of a frame whose first register is slot b. */
  function RegVal(ss: seq<Slot>, b: nat, i: nat): Val {
    if b + i < |ss| then ss[b + i].val else Nil
  }

  /** A call with c - 1 arguments: the function starts behind its header, its first
      register is the slot behind the call, the arguments are its first parameters and
      the missing ones are nil. The slots below the call stay. */
  lemma CallPasses(ps: Program, s: Vm, ch: Choice, a: nat, c: nat)
    requires At(ps, s.pc) == Call(a, c) && Step(ps, s, ch).Some?
    ensures var (s', nf) := (Step(ps, s, ch).value, s.base + a);
            && nf < |s.slots| == |s'.slots| && Calls(ps, s.slots[nf].val, s'.fn, s'.pc.proto) && s'.pc.idx == 1
            && s'.func == nf && s'.base == nf + 1 && s'.loops == s.loops
            && s'.slots[nf] == Slot(s.slots[nf].val, Some(s.pc))
            && (forall j :: 0 <= j < nf ==> s'.slots[j] == s.slots[j])
            && forall i: nat :: i < ps.protos[s'.pc.proto].numparams ==>
                 RegVal(s'.slots, s'.base, i) == if i < c - 1 then RegVal(s.slots, s'.base, i) else Nil
  {
    var nf := s.base + a;
    var n := ProtoNo(ps, s.slots[nf].val);
    var saved := s.slots[nf := s.slots[nf].(pcr := Some(s.pc))];
    FilledNil(saved, nf + c, nf + 1 + ps.protos[n].numparams);
  }

  lemma {:induction false} FilledNil(ss: seq<Slot>, lo: nat, hi: nat)
    ensures forall j :: lo <= j < hi && j < |ss| ==> FillNil(ss, lo, hi)[j].val == Nil
    decreases hi - lo
  {
    if lo < hi { FilledNil(SetVal(ss, lo, Nil), lo + 1, hi); }
  }

  /** A tail call: the function runs in the slots of the one that calls it, with the
      same caller, and its parameters are the arguments. */
  lemma TailCallPasses(ps: Program, s: Vm, ch: Choice, a: nat)
    requires At(ps, s.pc) == CallT(a) && Step(ps, s, ch).Some? && s.base == s.func + 1
    ensures var (s', nf) := (Step(ps, s, ch).value, s.base + a);
            && nf < |s.slots| == |s'.slots| && Calls(ps, s.slots[nf].val, s'.fn, s'.pc.proto) && s'.pc.idx == 1
            && s'.func == s.func && s'.base == s.base && s'.loops == s.loops
            && s'.slots[s.func] == Slot(s.slots[nf].val, s.slots[s.func].pcr)
            && (forall j :: 0 <= j < s.func ==> s'.slots[j] == s.slots[j])
            && forall i: nat :: i < ps.protos[s'.pc.proto].numparams ==>
                 RegVal(s'.slots, s'.base, i) == RegVal(s.slots, nf + 1, i)
  {
    hide CopyDown;
    var nf := s.base + a;
    var k := ps.protos[ProtoNo(ps, s.slots[nf].val)].numparams;
    var ss := SetVal(s.slots, s.func, s.slots[nf].val);
    var s' := Step(ps, s, ch).value;
    assert s'.slots == CopyDown(ss, nf + 1, s.base, k) && ps.protos[s'.pc.proto].numparams == k;
    forall i: nat | i < k
      ensures RegVal(s'.slots, s.base, i) == RegVal(s.slots, nf + 1, i)
    {
      CopyAt(ss, nf + 1, s.base, k, s.base + i);
      assert ss[nf + 1 + i] == s.slots[nf + 1 + i];
    }
  }

  // -- A machine with a list of frames ------------------------------------------------------------

  /** A running function: its prototype, its closure, its function slot, and where it is. */
  datatype Frame = Frame(fn: nat, cl: nat, func: nat, pc: nat)

  datatype Machine = Machine(frames: seq<Frame>, vals: seq<Val>, loops: nat) {
    function Top(): Frame
      requires frames != []
    {
      frames[|frames| - 1]
    }

    function WithTop(f: Frame): Machine
      requires frames != []
    {
      this.(frames := frames[..|frames| - 1] + [f])
    }
  }

  function Put(vs: seq<Val>, i: nat, v: Val): (r: seq<Val>)
    ensures |r| == |vs|
  {
    if i < |vs| then vs[i := v] else vs
  }

  function PutNil(vs: seq<Val>, lo: nat, hi: nat): (r: seq<Val>)
    ensures |r| == |vs|
  {
    seq(|vs|, i requires 0 <= i < |vs| => if lo <= i < hi then Nil else vs[i])
  }

  /** n values from src arrive at dst all at once. */
  function Move(vs: seq<Val>, src: nat, dst: nat, n: nat): (r: seq<Val>)
    requires src + n <= |vs| && dst <= src
    ensures |r| == |vs|
  {
    seq(|vs|, i requires 0 <= i < |vs| => if dst <= i < dst + n then vs[i - dst + src] else vs[i])
  }

  function Goto(m: Machine, t: nat): Machine
    requires m.frames != []
  {
    m.WithTop(m.Top().(pc := t))
  }

  /** One instruction on the list of frames. */
  function MStep(ps: Program, m: Machine, ch: Choice): Option<Machine>
    requires m.frames != []
  {
    var f := m.Top();
    var base := f.func + 1;
    var next := Goto(m, f.pc + 1);
    match At(ps, Ptr(f.fn, f.pc))
    case Call(a, c) =>
      var nf := base + a;
      if c == 0 || nf >= |m.vals| || !IsFunc(ps, m.vals[nf]) then None
      else
        var id, n := m.vals[nf].id, ProtoNo(ps, m.vals[nf]);
        if |m.vals| <= nf + c + ps.protos[n].framesize then None
        else Some(m.(frames := m.frames + [Frame(n, id, nf, 1)],
            vals := PutNil(m.vals, nf + c, nf + 1 + ps.protos[n].numparams)))
    case CallT(a) =>
      var nf := base + a;
      if nf >= |m.vals| || !IsFunc(ps, m.vals[nf]) then None
      else
        var id, n := m.vals[nf].id, ProtoNo(ps, m.vals[nf]);
        if nf + 1 + ps.protos[n].numparams > |m.vals| then None
        else
          Some(m.WithTop(Frame(n, id, f.func, 1)).(vals :=
              Move(Put(m.vals, f.func, Obj(id)), nf + 1, base, ps.protos[n].numparams)))
    case Ret0 => MReturn(m, Nil)
    case Ret1(a) => if base + a < |m.vals| then MReturn(m, m.vals[base + a]) else None
    case Write(a) => Some(next.(vals := Put(m.vals, base + a, ch.v)))
    case UpWrite => Some(next.(vals := Put(m.vals, ch.slot, ch.v)))
    case Branch(t) => Some(if ch.taken then Goto(m, t) else next)
    case Jump(t) => Some(Goto(m, t))
    case Loop => MHot(ps, m, next)
    case ForI(a, t) => Some(if ch.taken then Goto(m, t) else next.(vals := Put(m.vals, base + a + 3, ch.v)))
    case ForL(a, t) =>
      MHot(ps, m, if ch.taken then Goto(m, t).(vals := Put(Put(m.vals, base + a, ch.v), base + a + 3, ch.v)) else next)
    case IterN(a, t) =>
      MHot(ps, m, if ch.taken then Goto(m, t).(vals := Put(Put(m.vals, base + a, ch.v), base + a + 1, ch.v))
          else Goto(m, f.pc + 2))
    case Stop => None
  }

  /** The caller goes on behind its call, with the result in the call's slot. */
  function MReturn(m: Machine, v: Val): Option<Machine>
    requires m.frames != []
  {
    if |m.frames| == 1 then None
    else
      var rest := m.(frames := m.frames[..|m.frames| - 1], vals := Put(m.vals, m.Top().func, v));
      Some(Goto(rest, rest.Top().pc + 1))
  }

  function MHot(ps: Program, m: Machine, next: Machine): Option<Machine> {
    if m.loops == ps.maxLoops then None else Some(next.(loops := m.loops + 1))
  }

  // -- The interpreter is that machine --------------------------------------------------------------

  function Vals(ss: seq<Slot>): (r: seq<Val>)
    ensures |r| == |ss| && forall i :: 0 <= i < |ss| ==> r[i] == ss[i].val
  {
    seq(|ss|, i requires 0 <= i < |ss| => ss[i].val)
  }

  predicate IsClosure(ps: Program, cl: nat, n: nat) {
    n < |ps.protos| && ps.protoOf(cl) == Some(n)
  }

  /** The saved pc in a frame's function slot points at the call in the frame below. */
  ghost predicate Linked(ps: Program, fs: seq<Frame>, ss: seq<Slot>, i: nat)
    requires i < |fs|
  {
    && fs[i].func < |ss| && IsClosure(ps, fs[i].cl, fs[i].fn) && ss[fs[i].func].val == Obj(fs[i].cl)
    && (if i == 0 then ss[fs[i].func].pcr == None
        else
          && ss[fs[i].func].pcr == Some(Ptr(fs[i - 1].fn, fs[i - 1].pc))
          && At(ps, Ptr(fs[i - 1].fn, fs[i - 1].pc)).Call?
          && fs[i].func == fs[i - 1].func + 1 + At(ps, Ptr(fs[i - 1].fn, fs[i - 1].pc)).a)
  }

  /** The interpreter s is in the state of machine m. */
  ghost predicate Rep(ps: Program, s: Vm, m: Machine) {
    && m.frames != [] && m.vals == Vals(s.slots) && m.loops == s.loops
    && s.fn == m.Top().cl && s.func == m.Top().func && s.base == s.func + 1 && s.pc == Ptr(m.Top().fn, m.Top().pc)
    && forall i :: 0 <= i < |m.frames| ==> Linked(ps, m.frames, s.slots, i)
  }

  /** Function slots go up. */
  lemma {:induction false} FuncsRise(ps: Program, fs: seq<Frame>, ss: seq<Slot>, i: nat, j: nat)
    requires i < j < |fs| && forall k :: 0 <= k < |fs| ==> Linked(ps, fs, ss, k)
    ensures fs[i].func < fs[j].func
    decreases j - i
  {
    assert Linked(ps, fs, ss, j);
    if i < j - 1 { FuncsRise(ps, fs, ss, i, j - 1); }
  }

  /** An upvalue is a variable, not the function slot of a running function. */
  ghost predicate ChoiceOk(m: Machine, ch: Choice) {
    forall i :: 0 <= i < |m.frames| ==> m.frames[i].func != ch.slot
  }

  lemma {:induction false} FillIsPut(ss: seq<Slot>, lo: nat, hi: nat)
    ensures Vals(FillNil(ss, lo, hi)) == PutNil(Vals(ss), lo, hi)
    decreases hi - lo
  {
    if lo < hi { FillIsPut(SetVal(ss, lo, Nil), lo + 1, hi); }
  }

  lemma {:induction false} CopyAt(ss: seq<Slot>, src: nat, dst: nat, n: nat, i: nat)
    requires src + n <= |ss| && dst <= src && i < |ss|
    ensures CopyDown(ss, src, dst, n)[i].val == if dst <= i < dst + n then ss[i - dst + src].val else ss[i].val
    decreases n
  {
    if n > 0 { CopyAt(SetVal(ss, dst, ss[src].val), src + 1, dst + 1, n - 1, i); }
  }

  /** Copying downwards one by one loses nothing. */
  lemma CopyIsMove(ss: seq<Slot>, src: nat, dst: nat, n: nat)
    requires src + n <= |ss| && dst <= src
    ensures Vals(CopyDown(ss, src, dst, n)) == Move(Vals(ss), src, dst, n)
  {
    hide CopyDown;
    forall i | 0 <= i < |ss|
      ensures Vals(CopyDown(ss, src, dst, n))[i] == Move(Vals(ss), src, dst, n)[i]
    {
      CopyAt(ss, src, dst, n, i);
    }
  }

  lemma SetIsPut(ss: seq<Slot>, i: nat, v: Val)
    ensures Vals(SetVal(ss, i, v)) == Put(Vals(ss), i, v)
  {
  }

  /** Values above the function slots may change. */
  lemma LinksKept(ps: Program, fs: seq<Frame>, ss: seq<Slot>, ss': seq<Slot>)
    requires |ss| == |ss'| && (forall i :: 0 <= i < |fs| ==> Linked(ps, fs, ss, i))
    requires forall i :: 0 <= i < |fs| && fs[i].func < |ss| ==> ss'[fs[i].func] == ss[fs[i].func]
    ensures forall i :: 0 <= i < |fs| ==> Linked(ps, fs, ss', i)
  {
    forall i | 0 <= i < |fs|
      ensures Linked(ps, fs, ss', i)
    {
      assert Linked(ps, fs, ss, i);
    }
  }

  /** The pc of the top frame may change. */
  lemma LinksTop(ps: Program, fs: seq<Frame>, ss: seq<Slot>, t: nat)
    requires fs != [] && forall i :: 0 <= i < |fs| ==> Linked(ps, fs, ss, i)
    ensures var n := |fs| - 1; var fs' := fs[..n] + [fs[n].(pc := t)]; forall i :: 0 <= i < |fs'| ==>
              Linked(ps, fs', ss, i)
  {
    var n := |fs| - 1;
    var fs' := fs[..n] + [fs[n].(pc := t)];
    forall i | 0 <= i < |fs'|
      ensures Linked(ps, fs', ss, i)
    {
      assert Linked(ps, fs, ss, i);
    }
  }

  // -- Step by step ------------------------------------------------------------------------------------

  /** An instruction that stays in its frame and writes above its function slot. */
  lemma StaysInFrame(ps: Program, s: Vm, m: Machine, t: nat, ss: seq<Slot>, loops: nat)
    requires Rep(ps, s, m) && |ss| == |s.slots|
    requires forall i :: 0 <= i < |m.frames| && m.frames[i].func < |ss| ==>
               ss[m.frames[i].func] == s.slots[m.frames[i].func]
    ensures Rep(ps, s.(pc := To(s.pc, t), slots := ss, loops := loops), Goto(m, t).(vals := Vals(ss), loops := loops))
  {
    LinksKept(ps, m.frames, s.slots, ss);
    LinksTop(ps, m.frames, ss, t);
  }

  /** Slots from the base up are not function slots. */
  lemma AboveFuncs(ps: Program, s: Vm, m: Machine)
    requires Rep(ps, s, m)
    ensures forall i :: 0 <= i < |m.frames| ==> m.frames[i].func < s.base && m.frames[i].func < |s.slots|
  {
    forall i | 0 <= i < |m.frames|
      ensures m.frames[i].func < s.base && m.frames[i].func < |s.slots|
    {
      assert Linked(ps, m.frames, s.slots, i);
      if i < |m.frames| - 1 { FuncsRise(ps, m.frames, s.slots, i, |m.frames| - 1); }
    }
  }

  /** A new frame on top. */
  lemma LinksPush(ps: Program, fs: seq<Frame>, ss: seq<Slot>, ss': seq<Slot>, f: Frame)
    requires fs != [] && (forall i :: 0 <= i < |fs| ==> Linked(ps, fs, ss, i)) && |ss| == |ss'|
    requires forall i :: 0 <= i < |fs| ==> fs[i].func < |ss| && ss'[fs[i].func] == ss[fs[i].func]
    requires f.func < |ss'| && IsClosure(ps, f.cl, f.fn) && ss'[f.func].val == Obj(f.cl)
    requires var t := fs[|fs| - 1];
             && ss'[f.func].pcr == Some(Ptr(t.fn, t.pc)) && At(ps, Ptr(t.fn, t.pc)).Call?
             && f.func == t.func + 1 + At(ps, Ptr(t.fn, t.pc)).a
    ensures forall i :: 0 <= i < |fs + [f]| ==> Linked(ps, fs + [f], ss', i)
  {
    forall i | 0 <= i < |fs + [f]|
      ensures Linked(ps, fs + [f], ss', i)
    {
      if i < |fs| { assert Linked(ps, fs, ss, i); }
    }
  }

  lemma CallStep(ps: Program, s: Vm, m: Machine, ch: Choice)
    requires Rep(ps, s, m) && At(ps, s.pc).Call?
    ensures MStep(ps, m, ch).Some? <==> Step(ps, s, ch).Some?
    ensures Step(ps, s, ch).Some? ==> Rep(ps, Step(ps, s, ch).value, MStep(ps, m, ch).value)
  {
    hide Rep, FillNil, PutNil, Vals, IsFunc;
    RepTop(ps, s, m);
    if Step(ps, s, ch).Some? {
      var nf, c := s.base + At(ps, s.pc).a, At(ps, s.pc).c;
      CallFrame(ps, s, m, nf, c, Step(ps, s, ch).value.slots);
      IntoFrame(ps, Step(ps, s, ch).value, MStep(ps, m, ch).value);
    }
  }

  /** The new function slot keeps the way back, and missing arguments are nil. */
  lemma CallFrame(ps: Program, s: Vm, m: Machine, nf: nat, c: nat, ss: seq<Slot>)
    requires Rep(ps, s, m) && At(ps, s.pc).Call? && nf == s.base + At(ps, s.pc).a < |s.slots| && c > 0
    requires IsFunc(ps, s.slots[nf].val)
    requires var n := ProtoNo(ps, s.slots[nf].val);
             ss == FillNil(s.slots[nf := s.slots[nf].(pcr := Some(s.pc))], nf + c, nf + 1 + ps.protos[n].numparams)
    ensures var n, id := ProtoNo(ps, s.slots[nf].val), s.slots[nf].val.id;
            && Vals(ss) == PutNil(Vals(s.slots), nf + c, nf + 1 + ps.protos[n].numparams)
            && var fs := m.frames + [Frame(n, id, nf, 1)]; forall i :: 0 <= i < |fs| ==> Linked(ps, fs, ss, i)
  {
    hide Linked, FillNil, PutNil, At;
    var n, id := ProtoNo(ps, s.slots[nf].val), s.slots[nf].val.id;
    var saved := s.slots[nf := s.slots[nf].(pcr := Some(s.pc))];
    AboveFuncs(ps, s, m);
    FillIsPut(saved, nf + c, nf + 1 + ps.protos[n].numparams);
    assert Vals(saved) == Vals(s.slots);
    LinksPush(ps, m.frames, s.slots, ss, Frame(n, id, nf, 1));
  }

  lemma IntoFrame(ps: Program, s': Vm, m': Machine)
    requires m'.frames != [] && m'.vals == Vals(s'.slots) && m'.loops == s'.loops
    requires s'.fn == m'.Top().cl && s'.func == m'.Top().func && s'.base == s'.func + 1
    requires s'.pc == Ptr(m'.Top().fn, m'.Top().pc)
    requires forall i :: 0 <= i < |m'.frames| ==> Linked(ps, m'.frames, s'.slots, i)
    ensures Rep(ps, s', m')
  {
  }

  lemma BelowTop(ps: Program, s: Vm, m: Machine)
    requires Rep(ps, s, m)
    ensures forall i :: 0 <= i < |m.frames| - 1 ==> m.frames[i].func < s.func
    ensures s.func < |s.slots|
  {
    assert Linked(ps, m.frames, s.slots, |m.frames| - 1);
    forall i | 0 <= i < |m.frames| - 1
      ensures m.frames[i].func < s.func
    {
      FuncsRise(ps, m.frames, s.slots, i, |m.frames| - 1);
    }
  }

  lemma TailStep(ps: Program, s: Vm, m: Machine, ch: Choice)
    requires Rep(ps, s, m) && At(ps, s.pc).CallT?
    ensures MStep(ps, m, ch).Some? <==> Step(ps, s, ch).Some?
    ensures Step(ps, s, ch).Some? ==> Rep(ps, Step(ps, s, ch).value, MStep(ps, m, ch).value)
  {
    hide Linked, CopyDown, Move, SetVal, Put, Vals;
    AboveFuncs(ps, s, m);
    BelowTop(ps, s, m);
    if Step(ps, s, ch).Some? {
      var nf := s.base + At(ps, s.pc).a;
      var id, pn := s.slots[nf].val.id, ProtoNo(ps, s.slots[nf].val);
      var n, f := ps.protos[pn].numparams, s.func;
      var put := SetVal(s.slots, f, s.slots[nf].val);
      SetIsPut(s.slots, f, Obj(id));
      CopyIsMove(put, nf + 1, f + 1, n);
      LinksReplace(ps, m.frames, s.slots, CopyDown(put, nf + 1, f + 1, n), pn, id);
    }
  }

  /** Another function in the top frame. */
  lemma LinksReplace(ps: Program, fs: seq<Frame>, ss: seq<Slot>, ss': seq<Slot>, pn: nat, id: nat)
    requires fs != [] && (forall i :: 0 <= i < |fs| ==> Linked(ps, fs, ss, i)) && |ss| == |ss'| && IsClosure(ps, id, pn)
    requires forall i :: 0 <= i < |fs| - 1 ==> fs[i].func < |ss| && ss'[fs[i].func] == ss[fs[i].func]
    requires var t := fs[|fs| - 1]; t.func < |ss| && ss'[t.func] == Slot(Obj(id), ss[t.func].pcr)
    ensures var n := |fs| - 1; var fs' := fs[..n] + [Frame(pn, id, fs[n].func, 1)]; forall i :: 0 <= i < |fs'| ==>
              Linked(ps, fs', ss', i)
  {
    var n := |fs| - 1;
    var fs' := fs[..n] + [Frame(pn, id, fs[n].func, 1)];
    forall i | 0 <= i < |fs'|
      ensures Linked(ps, fs', ss', i)
    {
      assert Linked(ps, fs, ss, i);
    }
  }

  /** The frames below the top one, after the callee's function slot got the result. */
  lemma LinksPop(ps: Program, fs: seq<Frame>, ss: seq<Slot>, rest: seq<Frame>, ss': seq<Slot>, v: Val)
    requires |fs| >= 2 && forall i :: 0 <= i < |fs| ==> Linked(ps, fs, ss, i)
    requires rest == fs[..|fs| - 1] && ss' == SetVal(ss, fs[|fs| - 1].func, v)
    ensures forall i :: 0 <= i < |rest| ==> Linked(ps, rest, ss', i)
  {
    forall i | 0 <= i < |rest|
      ensures Linked(ps, rest, ss', i)
    {
      assert Linked(ps, fs, ss, i);
      FuncsRise(ps, fs, ss, i, |fs| - 1);
    }
  }

  lemma ReturnStep(ps: Program, s: Vm, m: Machine, v: Val)
    requires Rep(ps, s, m)
    ensures MReturn(m, v).Some? <==> Return(ps, s, v).Some?
    ensures Return(ps, s, v).Some? ==> Rep(ps, Return(ps, s, v).value, MReturn(m, v).value)
  {
    hide Vals;
    var n := |m.frames| - 1;
    assert Linked(ps, m.frames, s.slots, n);
    AboveFuncs(ps, s, m);
    if n > 0 {
      assert Linked(ps, m.frames, s.slots, n - 1);
      SetIsPut(s.slots, s.func, v);
      var (fs, ss) := (m.frames[..n], SetVal(s.slots, s.func, v));
      LinksPop(ps, m.frames, s.slots, fs, ss, v);
      LinksTop(ps, fs, ss, fs[n - 1].pc + 1);
    }
  }

  /** Instructions that only move the counter. */
  predicate Moves(i: Ins) {
    i.Branch? || i.Jump? || i.Loop? || i.Stop?
  }

  lemma MoveStep(ps: Program, s: Vm, m: Machine, ch: Choice)
    requires Rep(ps, s, m) && Moves(At(ps, s.pc))
    ensures m.frames != [] && (MStep(ps, m, ch).Some? <==> Step(ps, s, ch).Some?)
    ensures Step(ps, s, ch).Some? ==> Rep(ps, Step(ps, s, ch).value, MStep(ps, m, ch).value)
  {
    hide Rep, SetVal, Put, Vals, DoCall, DoTailCall, Return, MReturn, IsFunc;
    RepTop(ps, s, m);
    AboveFuncs(ps, s, m);
    if Step(ps, s, ch).Some? {
      var s' := Step(ps, s, ch).value;
      StaysInFrame(ps, s, m, s'.pc.idx, s'.slots, s'.loops);
    }
  }

  /** The frame goes on at t with other values in slots that are not function slots. */
  lemma SlotsChanged(ps: Program, s: Vm, m: Machine, s': Vm, m': Machine, t: nat)
    requires Rep(ps, s, m) && |s'.slots| == |s.slots|
    requires forall i :: 0 <= i < |m.frames| && m.frames[i].func < |s.slots| ==>
               s'.slots[m.frames[i].func] == s.slots[m.frames[i].func]
    requires s' == s.(pc := To(s.pc, t), slots := s'.slots, loops := s'.loops) && m.frames != []
    requires m' == Goto(m, t).(vals := Vals(s'.slots), loops := s'.loops)
    ensures Rep(ps, s', m')
  {
    hide Rep, Vals;
    StaysInFrame(ps, s, m, t, s'.slots, s'.loops);
  }

  lemma UpStep(ps: Program, s: Vm, m: Machine, ch: Choice)
    requires Rep(ps, s, m) && ChoiceOk(m, ch) && At(ps, s.pc).UpWrite?
    ensures m.frames != [] && MStep(ps, m, ch).Some? && Step(ps, s, ch).Some?
    ensures Rep(ps, Step(ps, s, ch).value, MStep(ps, m, ch).value)
  {
    hide Rep, Put, Vals;
    RepTop(ps, s, m);
    SetIsPut(s.slots, ch.slot, ch.v);
    SlotsChanged(ps, s, m, Step(ps, s, ch).value, MStep(ps, m, ch).value, s.pc.idx + 1);
  }

  /** Instructions that write one slot of their frame, and those that write two. */
  lemma WriteOne(ps: Program, s: Vm, m: Machine, ch: Choice)
    requires Rep(ps, s, m) && (At(ps, s.pc).Write? || At(ps, s.pc).ForI?)
    ensures m.frames != [] && MStep(ps, m, ch).Some? && Step(ps, s, ch).Some?
    ensures Rep(ps, Step(ps, s, ch).value, MStep(ps, m, ch).value)
  {
    hide Rep, SetVal, Put, Vals;
    var i := At(ps, s.pc);
    RepTop(ps, s, m);
    AboveFuncs(ps, s, m);
    SetIsPut(s.slots, s.base + i.a, ch.v);
    SetIsPut(s.slots, s.base + i.a + 3, ch.v);
    var s' := Step(ps, s, ch).value;
    SlotsChanged(ps, s, m, s', MStep(ps, m, ch).value, s'.pc.idx);
  }

  lemma WriteTwo(ps: Program, s: Vm, m: Machine, ch: Choice)
    requires Rep(ps, s, m) && (At(ps, s.pc).ForL? || At(ps, s.pc).IterN?)
    ensures m.frames != [] && (MStep(ps, m, ch).Some? <==> Step(ps, s, ch).Some?)
    ensures Step(ps, s, ch).Some? ==> Rep(ps, Step(ps, s, ch).value, MStep(ps, m, ch).value)
  {
    hide Rep, SetVal, Put, Vals;
    var i := At(ps, s.pc);
    RepTop(ps, s, m);
    AboveFuncs(ps, s, m);
    if Step(ps, s, ch).Some? {
      var s' := Step(ps, s, ch).value;
      var b := s.base + i.a + if i.ForL? then 3 else 1;
      SetIsPut(s.slots, s.base + i.a, ch.v);
      SetIsPut(SetVal(s.slots, s.base + i.a, ch.v), b, ch.v);
      SlotsChanged(ps, s, m, s', MStep(ps, m, ch).value, s'.pc.idx);
    }
  }

  lemma RepTop(ps: Program, s: Vm, m: Machine)
    requires Rep(ps, s, m)
    ensures m.frames != [] && m.vals == Vals(s.slots) && m.loops == s.loops
    ensures s.fn == m.Top().cl && s.func == m.Top().func && s.base == s.func + 1 && s.pc == Ptr(m.Top().fn, m.Top().pc)
  {
  }

  /** The interpreter does what the machine with frames does. */
  lemma StepRep(ps: Program, s: Vm, m: Machine, ch: Choice)
    requires Rep(ps, s, m) && ChoiceOk(m, ch)
    ensures m.frames != [] && (MStep(ps, m, ch).Some? <==> Step(ps, s, ch).Some?)
    ensures Step(ps, s, ch).Some? ==> Rep(ps, Step(ps, s, ch).value, MStep(ps, m, ch).value)
  {
    hide Rep;
    RepTop(ps, s, m);
    match At(ps, s.pc)
    case Call(_, _) => CallStep(ps, s, m, ch);
    case CallT(_) => TailStep(ps, s, m, ch);
    case Ret0 => ReturnStep(ps, s, m, Nil);
    case Ret1(a) => if s.base + a < |s.slots| { ReturnStep(ps, s, m, s.slots[s.base + a].val); }
    case UpWrite => UpStep(ps, s, m, ch);
    case Write(_) => WriteOne(ps, s, m, ch);
    case ForI(_, _) => WriteOne(ps, s, m, ch);
    case ForL(_, _) => WriteTwo(ps, s, m, ch);
    case IterN(_, _) => WriteTwo(ps, s, m, ch);
    case _ => MoveStep(ps, s, m, ch);
  }

  // -- Callers are left alone ----------------------------------------------------------------------------

  ghost predicate Rising(m: Machine) {
    m.frames != [] && forall i, j :: 0 <= i < j < |m.frames| ==> m.frames[i].func < m.frames[j].func
  }

  lemma RisingStep(ps: Program, m: Machine, ch: Choice)
    requires Rising(m) && MStep(ps, m, ch).Some?
    ensures Rising(MStep(ps, m, ch).value)
  {
    hide Put, PutNil, Move, IsFunc;
  }

  /** Slots a step may change below its frame: the target of an upvalue store. */
  function UpTarget(ps: Program, m: Machine, ch: Choice): set<nat>
    requires m.frames != []
  {
    if At(ps, Ptr(m.Top().fn, m.Top().pc)).UpWrite? then {ch.slot} else {}
  }

  /** A step in or above frame n leaves the frames below and their slots alone. */
  lemma FrameStep(ps: Program, m: Machine, ch: Choice, n: nat)
    requires Rising(m) && 0 < n < |m.frames| && MStep(ps, m, ch).Some? && n < |MStep(ps, m, ch).value.frames|
    ensures var m' := MStep(ps, m, ch).value;
            && m'.frames[..n] == m.frames[..n] && m'.frames[n].func == m.frames[n].func && |m'.vals| == |m.vals|
            && forall i :: 0 <= i < m.frames[n].func && i < |m.vals| && i !in UpTarget(ps, m, ch) ==>
                m'.vals[i] == m.vals[i]
  {
    assert m.frames[n].func <= m.Top().func;
  }

  function MRun(ps: Program, m: Machine, chs: seq<Choice>): Option<Machine>
    requires m.frames != []
    decreases |chs|
  {
    if chs == [] then Some(m)
    else
      var m1 :- MStep(ps, m, chs[0]);
      if m1.frames == [] then None else MRun(ps, m1, chs[1..])
  }

  /** The run never comes back to frame n - 1; `up` are the slots written through upvalues. */
  ghost predicate Above(ps: Program, m: Machine, chs: seq<Choice>, n: nat, up: set<nat>)
    decreases |chs|
  {
    && n < |m.frames|
    && (chs != [] ==>
          && UpTarget(ps, m, chs[0]) <= up && MStep(ps, m, chs[0]).Some?
          && Above(ps, MStep(ps, m, chs[0]).value, chs[1..], n, up))
  }

  lemma {:induction false} RunAbove(ps: Program, m: Machine, chs: seq<Choice>, n: nat, up: set<nat>)
    requires Rising(m) && n > 0 && Above(ps, m, chs, n, up)
    ensures MRun(ps, m, chs).Some?
    ensures var m' := MRun(ps, m, chs).value;
            && Rising(m') && n < |m'.frames| && m'.frames[..n] == m.frames[..n] && m'.frames[n].func == m.frames[n].func
            && |m'.vals| == |m.vals|
            && forall i :: 0 <= i < m.frames[n].func && i < |m.vals| && i !in up ==> m'.vals[i] == m.vals[i]
    decreases |chs|
  {
    hide MStep;
    if chs != [] {
      RisingStep(ps, m, chs[0]);
      FrameStep(ps, m, chs[0], n);
      RunAbove(ps, MStep(ps, m, chs[0]).value, chs[1..], n, up);
    }
  }

  /** A call, anything above it, tail calls among it, and the return: the caller
      goes on behind its call instruction, in the same frame with the same function,
      the result is in the slot of the call, and lower slots are unchanged except
      where an upvalue was stored. */
  lemma CallReturns(ps: Program, m: Machine, c0: Choice, chs: seq<Choice>, up: set<nat>, cr: Choice)
    requires Rising(m) && At(ps, Ptr(m.Top().fn, m.Top().pc)).Call? && MStep(ps, m, c0).Some?
    requires Above(ps, MStep(ps, m, c0).value, chs, |m.frames|, up)
    requires MRun(ps, MStep(ps, m, c0).value, chs).Some?
    requires var e := MRun(ps, MStep(ps, m, c0).value, chs).value;
             e.frames != [] && MStep(ps, e, cr).Some? && |MStep(ps, e, cr).value.frames| == |m.frames|
    ensures var e := MRun(ps, MStep(ps, m, c0).value, chs).value; var r := MStep(ps, e, cr).value;
            var nf := m.Top().func + 1 + At(ps, Ptr(m.Top().fn, m.Top().pc)).a;
            && |r.frames| == |m.frames| && r.frames[..|m.frames| - 1] == m.frames[..|m.frames| - 1]
            && r.Top() == m.Top().(pc := m.Top().pc + 1) && |r.vals| == |m.vals| && nf < |r.vals|
            && (var i := At(ps, Ptr(e.Top().fn, e.Top().pc));
                (i.Ret0? && r.vals[nf] == Nil) ||
                (i.Ret1? && e.Top().func + 1 + i.a < |e.vals| && r.vals[nf] == e.vals[e.Top().func + 1 + i.a]))
            && (forall i :: 0 <= i < nf && i !in up ==> r.vals[i] == m.vals[i])
  {
    hide MRun, Above, MStep;
    var n := |m.frames|;
    var m1 := MStep(ps, m, c0).value;
    RisingStep(ps, m, c0);
    CallPushes(ps, m, c0);
    RunAbove(ps, m1, chs, n, up);
    var e := MRun(ps, m1, chs).value;
    ReturnPops(ps, e, cr, n);
    assert e.frames[..n] == m.frames;
  }

  /** A call puts a frame at its slot; the slots below are unchanged. */
  lemma CallPushes(ps: Program, m: Machine, ch: Choice)
    requires m.frames != [] && At(ps, Ptr(m.Top().fn, m.Top().pc)).Call? && MStep(ps, m, ch).Some?
    ensures var (m', n) := (MStep(ps, m, ch).value, |m.frames|);
            var nf := m.Top().func + 1 + At(ps, Ptr(m.Top().fn, m.Top().pc)).a;
            && |m'.frames| == n + 1 && m'.frames[..n] == m.frames && m'.frames[n].func == nf < |m'.vals| == |m.vals|
            && forall i :: 0 <= i < nf ==> m'.vals[i] == m.vals[i]
  {
  }

  /** A step that leaves n frames, where there were more, is a return from frame n. */
  lemma ReturnPops(ps: Program, e: Machine, ch: Choice, n: nat)
    requires Rising(e) && 0 < n < |e.frames|
    requires MStep(ps, e, ch).Some? && |MStep(ps, e, ch).value.frames| == n
    ensures var r := MStep(ps, e, ch).value; var i := At(ps, Ptr(e.Top().fn, e.Top().pc));
            && |e.frames| == n + 1 && |r.vals| == |e.vals|
            && r.frames == e.frames[..n - 1] + [e.frames[n - 1].(pc := e.frames[n - 1].pc + 1)]
            && (e.frames[n].func < |r.vals| ==>
                  (i.Ret0? && r.vals[e.frames[n].func] == Nil) ||
                  (i.Ret1? && e.Top().func + 1 + i.a < |e.vals| &&
                      r.vals[e.frames[n].func] == e.vals[e.Top().func + 1 + i.a]))
            && forall k :: 0 <= k < e.frames[n].func && k < |e.vals| ==> r.vals[k] == e.vals[k]
  {
    hide PutNil, Move, IsFunc;
  }

  function VmRun(ps: Program, s: Vm, chs: seq<Choice>): Option<Vm>
    decreases |chs|
  {
    if chs == [] then Some(s)
    else
      var s1 :- Step(ps, s, chs[0]);
      VmRun(ps, s1, chs[1..])
  }

  /** Upvalue stores of a run hit variables only. */
  ghost predicate ChoicesOk(ps: Program, m: Machine, chs: seq<Choice>)
    decreases |chs|
  {
    chs != [] ==>
      && m.frames != [] && ChoiceOk(m, chs[0])
      && (MStep(ps, m, chs[0]).Some? ==> ChoicesOk(ps, MStep(ps, m, chs[0]).value, chs[1..]))
  }

  /** Whole runs of the interpreter are runs of the machine with frames. */
  lemma {:induction false} RunRep(ps: Program, s: Vm, m: Machine, chs: seq<Choice>)
    requires Rep(ps, s, m) && ChoicesOk(ps, m, chs)
    ensures m.frames != [] && (MRun(ps, m, chs).Some? <==> VmRun(ps, s, chs).Some?)
    ensures VmRun(ps, s, chs).Some? ==> Rep(ps, VmRun(ps, s, chs).value, MRun(ps, m, chs).value)
    decreases |chs|
  {
    hide Step, MStep;
    if chs != [] {
      StepRep(ps, s, m, chs[0]);
      if Step(ps, s, chs[0]).Some? {
        RunRep(ps, Step(ps, s, chs[0]).value, MStep(ps, m, chs[0]).value, chs[1..]);
      }
    }
  }

  /** In the interpreter itself: the return comes back to the caller's registers. */
  lemma InterpreterReturns(ps: Program, s: Vm, m: Machine, c0: Choice, chs: seq<Choice>, up: set<nat>, cr: Choice)
    requires Rep(ps, s, m) && At(ps, s.pc).Call? && ChoicesOk(ps, m, [c0] + chs + [cr])
    requires VmRun(ps, s, [c0] + chs + [cr]).Some? && m.frames != [] && MStep(ps, m, c0).Some?
    requires Above(ps, MStep(ps, m, c0).value, chs, |m.frames|, up)
    requires MRun(ps, MStep(ps, m, c0).value, chs).Some?
    requires var e := MRun(ps, MStep(ps, m, c0).value, chs).value;
             e.frames != [] && MStep(ps, e, cr).Some? && |MStep(ps, e, cr).value.frames| == |m.frames|
    ensures var r := VmRun(ps, s, [c0] + chs + [cr]).value;
            && r.pc == Ptr(s.pc.proto, s.pc.idx + 1) && r.func == s.func && r.base == s.base && r.fn == s.fn
            && |r.slots| == |s.slots|
            && (forall i :: 0 <= i < s.base + At(ps, s.pc).a && i < |s.slots| && i !in up ==>
                r.slots[i].val == s.slots[i].val)
            && (var e := MRun(ps, MStep(ps, m, c0).value, chs).value; var nf := s.base + At(ps, s.pc).a;
                var i := At(ps, Ptr(e.Top().fn, e.Top().pc));
                && nf < |r.slots|
                && ((i.Ret0? && r.slots[nf].val == Nil) ||
                    (i.Ret1? && e.Top().func + 1 + i.a < |e.vals| &&
                        r.slots[nf].val == e.vals[e.Top().func + 1 + i.a])))
  {
    hide Step, MStep, Above, ChoicesOk;
    RunRep(ps, s, m, [c0] + chs + [cr]);
    RepRising(ps, s, m);
    CallReturns(ps, m, c0, chs, up, cr);
    RunCat(ps, m, c0, chs, cr);
  }

  lemma RepRising(ps: Program, s: Vm, m: Machine)
    requires Rep(ps, s, m)
    ensures Rising(m)
  {
    forall i, j | 0 <= i < j < |m.frames|
      ensures m.frames[i].func < m.frames[j].func
    {
      FuncsRise(ps, m.frames, s.slots, i, j);
    }
  }

  lemma RunCat(ps: Program, m: Machine, c0: Choice, chs: seq<Choice>, cr: Choice)
    requires Rising(m) && MStep(ps, m, c0).Some? && MStep(ps, m, c0).value.frames != []
    requires MRun(ps, MStep(ps, m, c0).value, chs).Some?
    requires var e := MRun(ps, MStep(ps, m, c0).value, chs).value;
               e.frames != [] && MStep(ps, e, cr).Some? && MStep(ps, e, cr).value.frames != []
    ensures var e := MRun(ps, MStep(ps, m, c0).value, chs).value;
            MRun(ps, m, [c0] + chs + [cr]) == Some(MStep(ps, e, cr).value)
  {
    hide MStep;
    var all := [c0] + chs + [cr];
    assert all[1..] == chs + [cr];
    RunEnd(ps, MStep(ps, m, c0).value, chs, cr);
  }

  lemma {:induction false} RunEnd(ps: Program, m: Machine, chs: seq<Choice>, cr: Choice)
    requires m.frames != [] && MRun(ps, m, chs).Some?
    requires var e := MRun(ps, m, chs).value;
               e.frames != [] && MStep(ps, e, cr).Some? && MStep(ps, e, cr).value.frames != []
    ensures MRun(ps, m, chs + [cr]) == Some(MStep(ps, MRun(ps, m, chs).value, cr).value)
    decreases |chs|
  {
    hide MStep;
    if chs == [] {
      assert chs + [cr] == [cr] && [cr][1..] == [];
    } else {
      assert (chs + [cr])[1..] == chs[1..] + [cr];
      RunEnd(ps, MStep(ps, m, chs[0]).value, chs[1..], cr);
    }
  }
}
