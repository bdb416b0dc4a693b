/** Multiple assignment: targets are collected, right-hand sides evaluated, and
    stores made from the last target to the first. Every store uses the place and
    the value from before the assignment. Stores can fail; what was made until
    then stays. */
module Assign {
  import opened Values

  // -- Programs and their state -----------------------------------------------------------------

  type Heap = map<(Val, Val), Val>

  /** What expressions can see: active locals, upvalues, globals and tables. `tables`
      are the objects that are tables; `room` tells whether a table has a place for a key. */
  datatype World = World(loc: seq<Val>, ups: seq<Val>, glob: map<string, Val>, heap: Heap,
                         tables: set<nat>, room: (Heap, Val, Val) -> bool)

  /** A right-hand side, or an operand of a target; it has no effect. None is a type
      error, which stops the interpreter. */
  type Expr = World -> Option<Val>

  /** Table and key of an indexed target: a local in its own register, a
      constant, or something that takes a temporary register. */
  datatype Operand = OLocal(r: nat) | OConst(v: Val) | OExpr(x: Expr)

  datatype Lhs = LLocal(r: nat) | LUp(i: nat) | LGlobal(g: string) | LIndex(t: Operand, k: Operand)

  /** Emitted code: temporaries are pushed and popped above the locals. */
  datatype Ref = Loc(r: nat) | Tmp(i: nat) | Con(v: Val)
  datatype Target = TLocal(r: nat) | TUp(i: nat) | TGlobal(g: string) | TIndex(t: Ref, k: Ref)
  datatype Op =
    | Push(x: Expr)               // evaluate into the next register
    | Copy(r: nat)                // MOV of a local into the next register
    | PushNil
    | Drop(n: nat)                // give registers back
    | Store(t: Target)            // store the last register, and give it back
    | StoreExpr(t: Target, x: Expr)

  /** `err` is set once an error has been reported. */
  datatype State = State(w: World, tmp: seq<Val>, err: bool)

  /** The interpreter goes on, or has returned with an error. */
  datatype Outcome = Going(s: State) | Stopped(w: World)

  // -- Stores ---------------------------------------------------------------------------------------

  function Get(s: seq<Val>, i: nat): Val {
    if i < |s| then s[i] else Nil
  }

  function Put(s: seq<Val>, i: nat, v: Val): (r: seq<Val>)
    ensures |r| == |s|
  {
    if i < |s| then s[i := v] else s
  }

  /** A place values can be stored into. */
  datatype Place = PLocal(r: nat) | PUp(i: nat) | PGlobal(g: string) | PSlot(t: Val, k: Val)

  predicate IsTable(w: World, v: Val) {
    v.Obj? && v.id in w.tables
  }

  /** A store that ends the run: into a global, or into something that is no table. */
  predicate Fatal(w: World, p: Place) {
    p.PGlobal? || (p.PSlot? && !IsTable(w, p.t))
  }

  /** A store that is refused with an error message while the run goes on: a nil key,
      or a table that is full. */
  predicate Skipped(w: World, p: Place) {
    p.PSlot? && (p.k == Nil || !w.room(w.heap, p.t, p.k))
  }

  function Write(w: World, p: Place, v: Val): World {
    match p
    case PLocal(r) => w.(loc := Put(w.loc, r, v))
    case PUp(i) => w.(ups := Put(w.ups, i, v))
    case PGlobal(g) => w
    case PSlot(t, k) => w.(heap := w.heap[(t, k) := v])
  }

  function StoreAt(w: World, p: Place, v: Val, tmp: seq<Val>, err: bool): Outcome {
    if Fatal(w, p) then Stopped(w)
    else if Skipped(w, p) then Going(State(w, tmp, true))
    else Going(State(Write(w, p, v), tmp, err))
  }

  // -- Running the code ----------------------------------------------------------------------------

  function Deref(r: Ref, s: State): Val {
    match r case Loc(i) => Get(s.w.loc, i) case Tmp(i) => Get(s.tmp, i) case Con(v) => v
  }

  function PlaceOf(t: Target, s: State): Place {
    match t
    case TLocal(r) => PLocal(r)
    case TUp(i) => PUp(i)
    case TGlobal(g) => PGlobal(g)
    case TIndex(t, k) => PSlot(Deref(t, s), Deref(k, s))
  }

  function Last(s: seq<Val>): Val {
    if s == [] then Nil else s[|s| - 1]
  }

  function Cut(s: seq<Val>, n: nat): seq<Val> {
    if n <= |s| then s[..|s| - n] else []
  }

  function Exec1(o: Op, s: State): Outcome {
    match o
    case Push(x) => (match x(s.w) case None => Stopped(s.w) case Some(v) => Going(s.(tmp := s.tmp + [v])))
    case Copy(r) => Going(s.(tmp := s.tmp + [Get(s.w.loc, r)]))
    case PushNil => Going(s.(tmp := s.tmp + [Nil]))
    case Drop(n) => Going(s.(tmp := Cut(s.tmp, n)))
    case Store(t) => StoreAt(s.w, PlaceOf(t, s), Last(s.tmp), Cut(s.tmp, 1), s.err)
    case StoreExpr(t, x) =>
      (match x(s.w) case None => Stopped(s.w) case Some(v) => StoreAt(s.w, PlaceOf(t, s), v, s.tmp, s.err))
  }

  function Exec(os: seq<Op>, s: State): Outcome
    decreases |os|
  {
    if os == [] then Going(s)
    else match Exec1(os[0], s) case Stopped(w) => Stopped(w) case Going(s') => Exec(os[1..], s')
  }

  lemma {:induction false} ExecCat(a: seq<Op>, b: seq<Op>, s: State)
    ensures Exec(a + b, s) == match Exec(a, s) case Stopped(w) => Stopped(w) case Going(s') => Exec(b, s')
    decreases |a|
  {
    if a == [] {
      assert a + b == b;
    } else {
      assert (a + b)[1..] == a[1..] + b;
      var o := Exec1(a[0], s);
      if o.Going? { ExecCat(a[1..], b, o.s); }
    }
  }

  /** One more instruction. */
  lemma ExecOne(a: seq<Op>, o: Op, s: State)
    ensures Exec(a + [o], s) == match Exec(a, s) case Stopped(w) => Stopped(w) case Going(s') => Exec1(o, s')
  {
    ExecCat(a, [o], s);
    assert [o][1..] == [];
  }

  function Start(w: World): State {
    State(w, [], false)
  }

  // -- What an assignment means ----------------------------------------------------------------------

  function ValueOf(x: Expr, w: World): Val {
    match x(w) case Some(v) => v case None => Nil
  }

  function OperandVal(o: Operand, w: World): Val {
    match o case OLocal(r) => Get(w.loc, r) case OConst(v) => v case OExpr(x) => ValueOf(x, w)
  }

  function LhsPlace(l: Lhs, w: World): Place {
    match l
    case LLocal(r) => PLocal(r)
    case LUp(i) => PUp(i)
    case LGlobal(g) => PGlobal(g)
    case LIndex(t, k) => PSlot(OperandVal(t, w), OperandVal(k, w))
  }

  /** The value for target i: missing right-hand sides are nil. */
  function RhsVal(xs: seq<Expr>, i: nat, w: World): Val {
    if i < |xs| then ValueOf(xs[i], w) else Nil
  }

  /** All operands of the targets have a value. */
  predicate OperandOk(o: Operand, w: World) {
    o.OExpr? ==> o.x(w).Some?
  }

  predicate LhsOk(l: Lhs, w: World) {
    l.LIndex? ==> OperandOk(l.t, w) && OperandOk(l.k, w)
  }

  predicate Evaluable(ls: seq<Lhs>, xs: seq<Expr>, w: World) {
    && (forall i :: 0 <= i < |ls| ==> LhsOk(ls[i], w))
    && (forall i :: 0 <= i < |xs| ==> xs[i](w).Some?)
  }

  /** What stores have led to. */
  datatype After = After(w: World, err: bool, stop: bool)

  /** Stores for the targets from index i up, the last one first; places and
      values are those of world w0. */
  function AssignFrom(ls: seq<Lhs>, xs: seq<Expr>, w0: World, i: nat): After
    requires i <= |ls|
    decreases |ls| - i
  {
    if i == |ls| then After(w0, false, false)
    else
      var a, p := AssignFrom(ls, xs, w0, i + 1), LhsPlace(ls[i], w0);
      if a.stop then a
      else if Fatal(a.w, p) then After(a.w, true, true)
      else if Skipped(a.w, p) then a.(err := true)
      else a.(w := Write(a.w, p, RhsVal(xs, i, w0)))
  }

  // -- The effect, place by place -------------------------------------------------------------------

  /** The value at a place. */
  function At(w: World, p: Place): Option<Val> {
    match p
    case PLocal(r) => if r < |w.loc| then Some(w.loc[r]) else None
    case PUp(i) => if i < |w.ups| then Some(w.ups[i]) else None
    case PGlobal(g) => if g in w.glob then Some(w.glob[g]) else None
    case PSlot(t, k) => if (t, k) in w.heap then Some(w.heap[(t, k)]) else None
  }

  /** Registers and upvalues of the function, and everything else. */
  predicate Exists(w: World, p: Place) {
    (p.PLocal? ==> p.r < |w.loc|) && (p.PUp? ==> p.i < |w.ups|)
  }

  /** The store into target i ends the run. This can be seen before the assignment. */
  predicate FatalAt(ls: seq<Lhs>, w: World, i: nat)
    requires i < |ls|
  {
    Fatal(w, LhsPlace(ls[i], w))
  }

  /** Target i can be stored into, in its turn: it is no global, its table is a
      table, its key is not nil, and the table has a place for it then. */
  predicate Storable(ls: seq<Lhs>, xs: seq<Expr>, w: World, i: nat)
    requires i < |ls|
  {
    !FatalAt(ls, w, i) && !Skipped(AssignFrom(ls, xs, w, i + 1).w, LhsPlace(ls[i], w))
  }

  /** The store into target i is made: it is storable, and no store from there on ends the run. */
  ghost predicate Made(ls: seq<Lhs>, xs: seq<Expr>, w: World, i: nat) {
    i < |ls| && Storable(ls, xs, w, i) && forall j :: i < j < |ls| ==> !FatalAt(ls, w, j)
  }

  /** The value a place has in the end: that of the first target from i on that leads
      to it and is stored into, or else its old one. */
  ghost function FinalAt(ls: seq<Lhs>, xs: seq<Expr>, w: World, p: Place, i: nat): Option<Val>
    requires i <= |ls|
    decreases |ls| - i
  {
    if i == |ls| then At(w, p)
    else if LhsPlace(ls[i], w) == p && Made(ls, xs, w, i) then Some(RhsVal(xs, i, w))
    else FinalAt(ls, xs, w, p, i + 1)
  }

  lemma WriteAt(w: World, p: Place, v: Val, q: Place)
    requires !p.PGlobal? && Exists(w, q)
    ensures At(Write(w, p, v), q) == if p == q then Some(v) else At(w, q)
    ensures Exists(Write(w, p, v), q) && Write(w, p, v).tables == w.tables
  {
  }

  /** The stores, place by place, and whether they come to an early end. */
  lemma {:induction false} AssignFromAt(ls: seq<Lhs>, xs: seq<Expr>, w: World, i: nat, q: Place)
    requires i <= |ls| && Exists(w, q)
    ensures var a := AssignFrom(ls, xs, w, i);
            && At(a.w, q) == FinalAt(ls, xs, w, q, i) && Exists(a.w, q) && a.w.tables == w.tables
            && (a.stop <==> exists j :: i <= j < |ls| && FatalAt(ls, w, j))
            && (a.err <==> exists j :: i <= j < |ls| && !Storable(ls, xs, w, j))
    decreases |ls| - i
  {
    hide At, Write, LhsPlace, Exists, RhsVal;
    if i < |ls| {
      AssignFromAt(ls, xs, w, i + 1, q);
      var a, p := AssignFrom(ls, xs, w, i + 1), LhsPlace(ls[i], w);
      assert Fatal(a.w, p) == FatalAt(ls, w, i);
      assert Storable(ls, xs, w, i) == (!Fatal(a.w, p) && !Skipped(a.w, p));
      if a.stop {
        var j :| i < j < |ls| && FatalAt(ls, w, j);
        assert !Storable(ls, xs, w, j);
      }
      if !a.stop && !Fatal(a.w, p) && !Skipped(a.w, p) {
        WriteAt(a.w, p, RhsVal(xs, i, w), q);
      }
    }
  }

  // -- Targets that can be stored into, seen before the assignment --------------------------------------

  /** Tables that hold no other keys than those of K have a place for every key of K. A
      table whose hash part is as large as its share of K does. */
  ghost predicate Roomy(w: World, K: set<(Val, Val)>) {
    forall h: Heap, t: Val, k: Val :: h.Keys <= K && (t, k) in K ==> w.room(h, t, k)
  }

  /** The entries there are and those of the targets. */
  function KeysOf(ls: seq<Lhs>, w: World): (r: set<(Val, Val)>)
    ensures w.heap.Keys <= r
    ensures forall i :: 0 <= i < |ls| && LhsPlace(ls[i], w).PSlot? ==>
              (LhsPlace(ls[i], w).t, LhsPlace(ls[i], w).k) in r
  {
    if ls == [] then w.heap.Keys
    else
      var (r, p) := (KeysOf(ls[..|ls| - 1], w), LhsPlace(ls[|ls| - 1], w));
      if p.PSlot? then r + {(p.t, p.k)} else r
  }

  predicate NilKey(ls: seq<Lhs>, w: World, i: nat)
    requires i < |ls|
  {
    var p := LhsPlace(ls[i], w);
    p.PSlot? && p.k == Nil
  }

  lemma {:induction false} KeysStay(ls: seq<Lhs>, xs: seq<Expr>, w: World, i: nat)
    requires i <= |ls|
    ensures var w' := AssignFrom(ls, xs, w, i).w;
              w'.heap.Keys <= KeysOf(ls, w) && w'.room == w.room && w'.tables == w.tables
    decreases |ls| - i
  {
    hide LhsPlace, RhsVal;
    if i < |ls| { KeysStay(ls, xs, w, i + 1); }
  }

  /** With room for the entries there are and those of the targets, all targets can be
      stored into exactly if none of them ends the run or has a nil key. */
  lemma AllStorable(ls: seq<Lhs>, xs: seq<Expr>, w: World)
    requires Roomy(w, KeysOf(ls, w))
    ensures (forall i :: 0 <= i < |ls| ==> Storable(ls, xs, w, i)) <==>
            forall i :: 0 <= i < |ls| ==> !FatalAt(ls, w, i) && !NilKey(ls, w, i)
  {
    hide LhsPlace, RhsVal, KeysOf;
    forall i | 0 <= i < |ls|
      ensures Storable(ls, xs, w, i) <==> !FatalAt(ls, w, i) && !NilKey(ls, w, i)
    {
      KeysStay(ls, xs, w, i + 1);
    }
  }

  // -- Collecting the targets ------------------------------------------------------------------------------

  /** What has been emitted for the targets so far; n is the number of temporaries. */
  datatype Lhss = Lhss(ts: seq<Target>, ops: seq<Op>, n: nat)

  function AddOperand(o: Operand, a: Lhss): (Ref, Lhss) {
    match o
    case OLocal(r) => (Loc(r), a)
    case OConst(v) => (Con(v), a)
    case OExpr(x) => (Tmp(a.n), a.(ops := a.ops + [Push(x)], n := a.n + 1))
  }

  function AddLhs(l: Lhs, a: Lhss): (Target, Lhss) {
    match l
    case LLocal(r) => (TLocal(r), a)
    case LUp(i) => (TUp(i), a)
    case LGlobal(g) => (TGlobal(g), a)
    case LIndex(t, k) =>
      var (tr, a1) := AddOperand(t, a);
      var (kr, a2) := AddOperand(k, a1);
      (TIndex(tr, kr), a2)
  }

  predicate Uses(t: Target, r: nat) {
    t.TIndex? && (t.t == Loc(r) || t.k == Loc(r))
  }

  function RenameRef(x: Ref, r: nat, i: nat): Ref {
    if x == Loc(r) then Tmp(i) else x
  }

  function Rename(t: Target, r: nat, i: nat): Target {
    if t.TIndex? then TIndex(RenameRef(t.t, r, i), RenameRef(t.k, r, i)) else t
  }

  function RenameAll(ts: seq<Target>, r: nat, i: nat): (s: seq<Target>)
    ensures |s| == |ts| && forall j :: 0 <= j < |ts| ==> s[j] == Rename(ts[j], r, i)
  {
    seq(|ts|, j requires 0 <= j < |ts| => Rename(ts[j], r, i))
  }

  /** assign_hazard: a local about to be assigned is copied if an earlier target uses it. */
  function Hazard(a: Lhss, r: nat): Lhss {
    if exists j :: 0 <= j < |a.ts| && Uses(a.ts[j], r) then
      Lhss(RenameAll(a.ts, r, a.n), a.ops + [Copy(r)], a.n + 1)
    else a
  }

  function AddTarget(a: Lhss, l: Lhs): Lhss {
    var (t, a1) := AddLhs(l, a);
    var a2 := if t.TLocal? then Hazard(a1, t.r) else a1;
    a2.(ts := a2.ts + [t])
  }

  function Collect(ls: seq<Lhs>): Lhss
    decreases |ls|
  {
    if ls == [] then Lhss([], [], 0) else AddTarget(Collect(ls[..|ls| - 1]), ls[|ls| - 1])
  }

  // -- The targets are settled ---------------------------------------------------------------------------

  predicate RefOk(r: Ref, n: nat) {
    r.Tmp? ==> r.i < n
  }

  predicate TargetOk(t: Target, n: nat) {
    t.TIndex? ==> RefOk(t.t, n) && RefOk(t.k, n)
  }

  /** The code run so far leaves the world alone; every target leads to the place
      it stands for, and none uses a local that a later target assigns. */
  ghost predicate Settled(a: Lhss, ls: seq<Lhs>, w: World, tmp: seq<Val>) {
    && |a.ts| == |ls| && Exec(a.ops, Start(w)) == Going(State(w, tmp, false)) && |tmp| == a.n
    && (forall j :: 0 <= j < |ls| ==>
        TargetOk(a.ts[j], a.n) && PlaceOf(a.ts[j], State(w, tmp, false)) == LhsPlace(ls[j], w))
    && (forall j :: 0 <= j < |ls| ==>
        (a.ts[j].TLocal? <==> ls[j].LLocal?) && (ls[j].LLocal? ==> a.ts[j] == TLocal(ls[j].r)))
    && (forall j, k :: 0 <= j < k < |ls| && ls[k].LLocal? ==> !Uses(a.ts[j], ls[k].r))
  }

  /** An operand had no value: nothing was stored. */
  ghost predicate Halted(a: Lhss, w: World) {
    Exec(a.ops, Start(w)) == Stopped(w)
  }

  /** More temporaries do not change a target. */
  lemma PlaceKept(t: Target, w: World, tmp: seq<Val>, more: seq<Val>)
    requires TargetOk(t, |tmp|)
    ensures PlaceOf(t, State(w, tmp + more, false)) == PlaceOf(t, State(w, tmp, false))
  {
  }

  /** Another temporary keeps what is settled. */
  lemma SettledMore(a: Lhss, ls: seq<Lhs>, w: World, tmp: seq<Val>, o: Op, v: Val)
    requires Settled(a, ls, w, tmp) && Exec1(o, State(w, tmp, false)) == Going(State(w, tmp + [v], false))
    ensures Settled(a.(ops := a.ops + [o], n := a.n + 1), ls, w, tmp + [v])
  {
    ExecOne(a.ops, o, Start(w));
    forall j | 0 <= j < |ls|
      ensures TargetOk(a.ts[j], a.n + 1) && PlaceOf(a.ts[j], State(w, tmp + [v], false)) == LhsPlace(ls[j], w)
    {
      PlaceKept(a.ts[j], w, tmp, [v]);
    }
  }

  lemma OperandSettled(o: Operand, a: Lhss, ls: seq<Lhs>, w: World, tmp: seq<Val>) returns (tmp': seq<Val>)
    requires Settled(a, ls, w, tmp) && OperandOk(o, w)
    ensures var (r, a') := AddOperand(o, a);
            && Settled(a', ls, w, tmp') && tmp <= tmp' && a'.ts == a.ts
            && RefOk(r, a'.n) && Deref(r, State(w, tmp', false)) == OperandVal(o, w)
  {
    hide Settled;
    tmp' := tmp;
    SettledLen(a, ls, w, tmp);
    if o.OExpr? {
      var v := ValueOf(o.x, w);
      tmp' := tmp + [v];
      SettledMore(a, ls, w, tmp, Push(o.x), v);
    }
  }

  /** The first operand without a value stops the run. */
  lemma OperandHalts(o: Operand, a: Lhss, ls: seq<Lhs>, w: World, tmp: seq<Val>)
    requires Settled(a, ls, w, tmp) && !OperandOk(o, w)
    ensures Halted(AddOperand(o, a).1, w)
  {
    ExecOne(a.ops, Push(o.x), Start(w));
  }

  lemma HaltedMore(a: Lhss, w: World, o: Op)
    requires Halted(a, w)
    ensures Exec(a.ops + [o], Start(w)) == Stopped(w)
  {
    ExecOne(a.ops, o, Start(w));
  }

  lemma OperandHalted(o: Operand, a: Lhss, w: World)
    requires Halted(a, w)
    ensures Halted(AddOperand(o, a).1, w)
  {
    if o.OExpr? { HaltedMore(a, w, Push(o.x)); }
  }

  lemma HazardHalted(a: Lhss, w: World, r: nat)
    requires Halted(a, w)
    ensures Halted(Hazard(a, r), w)
  {
    HaltedMore(a, w, Copy(r));
  }

  lemma TargetHalted(a: Lhss, l: Lhs, w: World)
    requires Halted(AddLhs(l, a).1, w)
    ensures Halted(AddTarget(a, l), w)
  {
    hide Halted, Hazard;
    var (t, a1) := AddLhs(l, a);
    var a2 := if t.TLocal? then Hazard(a1, t.r) else a1;
    if t.TLocal? { HazardHalted(a1, w, t.r); }
    assert AddTarget(a, l).ops == a2.ops;
    HaltedSame(a2, AddTarget(a, l), w);
  }

  lemma HaltedSame(a: Lhss, b: Lhss, w: World)
    requires Halted(a, w) && b.ops == a.ops
    ensures Halted(b, w)
  {
  }

  lemma LhsHalted(l: Lhs, a: Lhss, w: World)
    requires Halted(a, w)
    ensures Halted(AddLhs(l, a).1, w)
  {
    hide Halted, AddOperand;
    if l.LIndex? {
      OperandHalted(l.t, a, w);
      OperandHalted(l.k, AddOperand(l.t, a).1, w);
    }
  }

  lemma SettledLen(a: Lhss, ls: seq<Lhs>, w: World, tmp: seq<Val>)
    requires Settled(a, ls, w, tmp)
    ensures |tmp| == a.n && |a.ts| == |ls|
  {
  }

  lemma LhsSettled(l: Lhs, a: Lhss, ls: seq<Lhs>, w: World, tmp: seq<Val>) returns (tmp': seq<Val>)
    requires Settled(a, ls, w, tmp) && LhsOk(l, w)
    ensures var (t, a') := AddLhs(l, a);
            && Settled(a', ls, w, tmp') && TargetOk(t, a'.n) && PlaceOf(t, State(w, tmp', false)) == LhsPlace(l, w)
            && (t.TLocal? <==> l.LLocal?) && (l.LLocal? ==> t == TLocal(l.r))
  {
    hide Settled;
    tmp' := tmp;
    if l.LIndex? {
      var t1 := OperandSettled(l.t, a, ls, w, tmp);
      var (tr, a1) := AddOperand(l.t, a);
      SettledLen(a1, ls, w, t1);
      tmp' := OperandSettled(l.k, a1, ls, w, t1);
      var (kr, a2) := AddOperand(l.k, a1);
      SettledLen(a2, ls, w, tmp');
    }
  }

  lemma LhsHalts(l: Lhs, a: Lhss, ls: seq<Lhs>, w: World, tmp: seq<Val>)
    requires Settled(a, ls, w, tmp) && !LhsOk(l, w)
    ensures Halted(AddLhs(l, a).1, w)
  {
    hide Settled, Halted, AddOperand;
    if OperandOk(l.t, w) {
      var t1 := OperandSettled(l.t, a, ls, w, tmp);
      OperandHalts(l.k, AddOperand(l.t, a).1, ls, w, t1);
    } else {
      OperandHalts(l.t, a, ls, w, tmp);
      OperandHalted(l.k, AddOperand(l.t, a).1, w);
    }
  }

  /** After renaming, no target uses the local; the copy has its value. */
  lemma HazardSettled(a: Lhss, ls: seq<Lhs>, w: World, tmp: seq<Val>, r: nat) returns (tmp': seq<Val>)
    requires Settled(a, ls, w, tmp)
    ensures Settled(Hazard(a, r), ls, w, tmp') && tmp <= tmp'
    ensures forall j :: 0 <= j < |ls| ==> j < |Hazard(a, r).ts| && !Uses(Hazard(a, r).ts[j], r)
  {
    hide Exec;
    tmp' := tmp;
    if exists j :: 0 <= j < |a.ts| && Uses(a.ts[j], r) {
      var v := Get(w.loc, r);
      tmp' := tmp + [v];
      SettledMore(a, ls, w, tmp, Copy(r), v);
      var b := a.(ops := a.ops + [Copy(r)], n := a.n + 1);
      var ts := RenameAll(a.ts, r, a.n);
      forall j | 0 <= j < |ls|
        ensures TargetOk(ts[j], a.n + 1) && PlaceOf(ts[j], State(w, tmp', false)) == LhsPlace(ls[j], w)
      {
        assert PlaceOf(b.ts[j], State(w, tmp', false)) == LhsPlace(ls[j], w);
      }
    }
  }

  lemma TargetSettled(a: Lhss, l: Lhs, ls: seq<Lhs>, w: World, tmp: seq<Val>) returns (tmp': seq<Val>)
    requires Settled(a, ls, w, tmp) && LhsOk(l, w)
    ensures Settled(AddTarget(a, l), ls + [l], w, tmp')
  {
    hide Exec;
    tmp' := LhsSettled(l, a, ls, w, tmp);
    var (t, a1) := AddLhs(l, a);
    if t.TLocal? {
      tmp' := HazardSettled(a1, ls, w, tmp', t.r);
    }
  }

  /** Either all operands have values and the targets are settled, or the run has stopped. */
  lemma {:induction false} CollectSettled(ls: seq<Lhs>, w: World) returns (tmp: seq<Val>)
    ensures if forall i :: 0 <= i < |ls| ==> LhsOk(ls[i], w) then Settled(Collect(ls), ls, w, tmp)
              else Halted(Collect(ls), w)
    decreases |ls|
  {
    hide Settled, Halted, AddTarget, LhsOk, AddLhs;
    tmp := [];
    if ls == [] {
      NoneSettled(w);
    } else {
      var rest, l := ls[..|ls| - 1], ls[|ls| - 1];
      var t := CollectSettled(rest, w);
      assert rest + [l] == ls;
      if forall i :: 0 <= i < |rest| ==> LhsOk(rest[i], w) {
        if LhsOk(l, w) {
          tmp := TargetSettled(Collect(rest), l, rest, w, t);
        } else {
          LhsHalts(l, Collect(rest), rest, w, t);
          TargetHalted(Collect(rest), l, w);
        }
      } else {
        LhsHalted(l, Collect(rest), w);
        TargetHalted(Collect(rest), l, w);
      }
    }
  }

  lemma NoneSettled(w: World)
    ensures Settled(Lhss([], [], 0), [], w, [])
  {
  }

  // -- Right-hand sides and stores -------------------------------------------------------------------------

  function PushAll(xs: seq<Expr>): seq<Op> {
    if xs == [] then [] else PushAll(xs[..|xs| - 1]) + [Push(xs[|xs| - 1])]
  }

  function Nils(n: nat): seq<Op> {
    if n == 0 then [] else Nils(n - 1) + [PushNil]
  }

  /** Stores for the first m targets, the last one first. */
  function Stores(ts: seq<Target>, m: nat): seq<Op>
    requires m <= |ts|
  {
    if m == 0 then [] else [Store(ts[m - 1])] + Stores(ts, m - 1)
  }

  /** parse_assignment. */
  function Compile(ls: seq<Lhs>, xs: seq<Expr>): seq<Op>
    requires ls != [] && xs != [] && |Collect(ls).ts| == |ls|
  {
    var a, n, m := Collect(ls), |ls|, |xs|;
    a.ops +
    if m == n then PushAll(xs[..m - 1]) + [StoreExpr(a.ts[n - 1], xs[m - 1])] + Stores(a.ts, n - 1)
    else PushAll(xs) + (if m < n then Nils(n - m) else [Drop(m - n)]) + Stores(a.ts, n)
  }

  function Vals(xs: seq<Expr>, w: World): (r: seq<Val>)
    ensures |r| == |xs| && forall i :: 0 <= i < |xs| ==> r[i] == ValueOf(xs[i], w)
  {
    seq(|xs|, i requires 0 <= i < |xs| => ValueOf(xs[i], w))
  }

  /** The values of n targets. */
  function TargetVals(xs: seq<Expr>, n: nat, w: World): (r: seq<Val>)
    ensures |r| == n && forall i :: 0 <= i < n ==> r[i] == RhsVal(xs, i, w)
  {
    seq(n, i requires 0 <= i < n => RhsVal(xs, i, w))
  }

  predicate AllSome(xs: seq<Expr>, w: World) {
    forall i :: 0 <= i < |xs| ==> xs[i](w).Some?
  }

  lemma {:induction false} PushAllRuns(xs: seq<Expr>, w: World, tmp: seq<Val>)
    ensures Exec(PushAll(xs), State(w, tmp, false)) ==
            if AllSome(xs, w) then Going(State(w, tmp + Vals(xs, w), false)) else Stopped(w)
    decreases |xs|
  {
    if xs == [] {
      assert tmp + Vals(xs, w) == tmp;
    } else {
      var rest, x := xs[..|xs| - 1], xs[|xs| - 1];
      PushAllRuns(rest, w, tmp);
      ExecOne(PushAll(rest), Push(x), State(w, tmp, false));
      AllSomeLast(xs, w);
      if AllSome(xs, w) { assert tmp + Vals(xs, w) == tmp + Vals(rest, w) + [ValueOf(x, w)]; }
    }
  }

  lemma {:induction false} NilsRun(n: nat, w: World, tmp: seq<Val>)
    ensures Exec(Nils(n), State(w, tmp, false)) == Going(State(w, tmp + seq(n, _ => Nil), false))
    decreases n
  {
    if n == 0 {
      assert tmp + seq(0, _ => Nil) == tmp;
    } else {
      NilsRun(n - 1, w, tmp);
      ExecOne(Nils(n - 1), PushNil, State(w, tmp, false));
      assert tmp + seq(n, _ => Nil) == tmp + seq(n - 1, _ => Nil) + [Nil];
    }
  }

  /** A local that no target from i on assigns keeps its value. */
  lemma {:induction false} LocalKept(ls: seq<Lhs>, xs: seq<Expr>, w: World, i: nat, r: nat)
    requires i <= |ls| && forall j :: i <= j < |ls| ==> ls[j] != LLocal(r)
    ensures Get(AssignFrom(ls, xs, w, i).w.loc, r) == Get(w.loc, r)
    decreases |ls| - i
  {
    if i < |ls| { LocalKept(ls, xs, w, i + 1, r); }
  }

  /** When target i is stored, it still leads to the place it stood for. */
  lemma StillThere(a: Lhss, ls: seq<Lhs>, xs: seq<Expr>, w: World, tmp: seq<Val>, i: nat, more: seq<Val>, err: bool)
    requires Settled(a, ls, w, tmp) && i < |ls|
    ensures PlaceOf(a.ts[i], State(AssignFrom(ls, xs, w, i + 1).w, tmp + more, err)) == LhsPlace(ls[i], w)
  {
    hide Exec, AssignFrom;
    var t := a.ts[i];
    assert TargetOk(t, a.n) && PlaceOf(t, State(w, tmp, false)) == LhsPlace(ls[i], w);
    if t.TIndex? {
      if t.t.Loc? { NotAssigned(a, ls, w, tmp, i, t.t.r); LocalKept(ls, xs, w, i + 1, t.t.r); }
      if t.k.Loc? { NotAssigned(a, ls, w, tmp, i, t.k.r); LocalKept(ls, xs, w, i + 1, t.k.r); }
    }
  }

  lemma NotAssigned(a: Lhss, ls: seq<Lhs>, w: World, tmp: seq<Val>, i: nat, r: nat)
    requires Settled(a, ls, w, tmp) && i < |ls| && Uses(a.ts[i], r)
    ensures forall j :: i < j < |ls| ==> ls[j] != LLocal(r)
  {
    hide Exec, PlaceOf, LhsPlace;
    forall j | i < j < |ls|
      ensures ls[j] != LLocal(r)
    {
      if ls[j].LLocal? { assert !Uses(a.ts[i], ls[j].r); }
    }
  }

  /** The outcome that stores lead to. */
  function Result(a: After, tmp: seq<Val>): Outcome {
    if a.stop then Stopped(a.w) else Going(State(a.w, tmp, a.err))
  }

  /** The stores, from target m - 1 down. */
  lemma {:induction false} StoresRun(a: Lhss, ls: seq<Lhs>, xs: seq<Expr>, w: World, tmp: seq<Val>, m: nat)
    requires Settled(a, ls, w, tmp) && m <= |ls| == |a.ts|
    requires !AssignFrom(ls, xs, w, m).stop
    ensures var b := AssignFrom(ls, xs, w, m);
            Exec(Stores(a.ts, m), State(b.w, tmp + TargetVals(xs, m, w), b.err)) ==
                Result(AssignFrom(ls, xs, w, 0), tmp)
    decreases m
  {
    hide Settled, PlaceOf, LhsPlace, Write, Fatal, Skipped;
    var b := AssignFrom(ls, xs, w, m);
    if m == 0 {
      assert tmp + TargetVals(xs, 0, w) == tmp;
    } else {
      var vs := TargetVals(xs, m, w);
      var s := State(b.w, tmp + vs, b.err);
      StillThere(a, ls, xs, w, tmp, m - 1, vs, b.err);
      assert Last(s.tmp) == RhsVal(xs, m - 1, w) && Cut(s.tmp, 1) == tmp + TargetVals(xs, m - 1, w);
      assert Stores(a.ts, m)[1..] == Stores(a.ts, m - 1);
      var c := AssignFrom(ls, xs, w, m - 1);
      assert Exec1(Store(a.ts[m - 1]), s) == Result(c, tmp + TargetVals(xs, m - 1, w));
      if c.stop {
        StopStays(ls, xs, w, m - 1);
      } else {
        StoresRun(a, ls, xs, w, tmp, m - 1);
      }
    }
  }

  lemma {:induction false} StopStays(ls: seq<Lhs>, xs: seq<Expr>, w: World, m: nat)
    requires m <= |ls| && AssignFrom(ls, xs, w, m).stop
    ensures AssignFrom(ls, xs, w, 0) == AssignFrom(ls, xs, w, m)
    decreases m
  {
    hide LhsPlace, Write, Fatal, Skipped;
    if m > 0 { StopStays(ls, xs, w, m - 1); }
  }

  lemma {:induction false} CollectLen(ls: seq<Lhs>)
    ensures |Collect(ls).ts| == |ls|
    decreases |ls|
  {
    if ls != [] { CollectLen(ls[..|ls| - 1]); }
  }

  /** What an assignment leads to: without all values, nothing; otherwise the stores. */
  function Assigned(ls: seq<Lhs>, xs: seq<Expr>, w: World): After {
    if Evaluable(ls, xs, w) then AssignFrom(ls, xs, w, 0) else After(w, true, true)
  }

  /** The run has ended as the stores say. */
  ghost predicate EndsAs(o: Outcome, a: After) {
    if a.stop then o == Stopped(a.w) else o.Going? && o.s.w == a.w && o.s.err == a.err
  }

  /** The emitted code evaluates everything before it stores, and stores every value
      into the place its target stood for before anything was stored. */
  lemma AssignRuns(ls: seq<Lhs>, xs: seq<Expr>, w: World)
    requires ls != [] && xs != []
    ensures |Collect(ls).ts| == |ls| && EndsAs(Exec(Compile(ls, xs), Start(w)), Assigned(ls, xs, w))
  {
    hide Settled, Exec, Stores, PushAll, Nils, AssignFrom, LhsOk, Collect;
    CollectLen(ls);
    var tmp := CollectSettled(ls, w);
    var a, n, m := Collect(ls), |ls|, |xs|;
    var rest := Compile(ls, xs)[|a.ops|..];
    assert Compile(ls, xs) == a.ops + rest;
    ExecCat(a.ops, rest, Start(w));
    if forall i :: 0 <= i < |ls| ==> LhsOk(ls[i], w) {
      SettledRun(a, ls, w, tmp);
      if m == n {
        LastDirect(a, ls, xs, w, tmp);
      } else {
        var fill := if m < n then Nils(n - m) else [Drop(m - n)];
        assert rest == PushAll(xs) + (fill + Stores(a.ts, n));
        ExecCat(PushAll(xs), fill + Stores(a.ts, n), State(w, tmp, false));
        PushAllRuns(xs, w, tmp);
        if AllSome(xs, w) {
          ExecCat(fill, Stores(a.ts, n), State(w, tmp + Vals(xs, w), false));
          FillRuns(xs, n, w, tmp);
          AssignNone(ls, xs, w);
          StoresRun(a, ls, xs, w, tmp, n);
        }
      }
    } else {
      HaltedRun(a, w);
    }
  }

  lemma AssignNone(ls: seq<Lhs>, xs: seq<Expr>, w: World)
    ensures AssignFrom(ls, xs, w, |ls|) == After(w, false, false)
  {
  }

  lemma SettledRun(a: Lhss, ls: seq<Lhs>, w: World, tmp: seq<Val>)
    requires Settled(a, ls, w, tmp)
    ensures Exec(a.ops, Start(w)) == Going(State(w, tmp, false))
  {
  }

  lemma HaltedRun(a: Lhss, w: World)
    requires Halted(a, w)
    ensures Exec(a.ops, Start(w)) == Stopped(w)
  {
  }

  /** Missing values are nil, extra ones are dropped. */
  lemma FillRuns(xs: seq<Expr>, n: nat, w: World, tmp: seq<Val>)
    requires |xs| != n
    ensures Exec(if |xs| < n then Nils(n - |xs|) else [Drop(|xs| - n)], State(w, tmp + Vals(xs, w), false)) ==
            Going(State(w, tmp + TargetVals(xs, n, w), false))
  {
    var m := |xs|;
    if m < n {
      NilsRun(n - m, w, tmp + Vals(xs, w));
      assert tmp + Vals(xs, w) + seq(n - m, _ => Nil) == tmp + TargetVals(xs, n, w);
    } else {
      assert [Drop(m - n)][1..] == [];
      assert Cut(tmp + Vals(xs, w), m - n) == tmp + TargetVals(xs, n, w);
    }
  }

  /** The last value is stored where it is computed. */
  lemma StoreLast(a: Lhss, ls: seq<Lhs>, xs: seq<Expr>, w: World, tmp: seq<Val>, vs: seq<Val>)
    requires Settled(a, ls, w, tmp) && ls != [] && |xs| == |ls| == |a.ts| && xs[|xs| - 1](w).Some?
    ensures var n := |ls|;
            Exec1(StoreExpr(a.ts[n - 1], xs[n - 1]), State(w, tmp + vs, false)) ==
                Result(AssignFrom(ls, xs, w, n - 1), tmp + vs)
  {
    hide Settled, PlaceOf, LhsPlace, Write, Fatal, Skipped, Exec;
    StillThere(a, ls, xs, w, tmp, |ls| - 1, vs, false);
  }

  /** As many values as targets. */
  lemma LastDirect(a: Lhss, ls: seq<Lhs>, xs: seq<Expr>, w: World, tmp: seq<Val>)
    requires Settled(a, ls, w, tmp) && ls != [] && |xs| == |ls| == |a.ts|
    ensures var n := |ls|;
            EndsAs(Exec(PushAll(xs[..n - 1]) + [StoreExpr(a.ts[n - 1], xs[n - 1])] + Stores(a.ts, n - 1),
                State(w, tmp, false)),
                   if AllSome(xs, w) then AssignFrom(ls, xs, w, 0) else After(w, true, true))
  {
    hide Settled, Stores, PushAll, StoreAt, AssignFrom, Exec, AllSome;
    var n := |ls|;
    var front, st := PushAll(xs[..n - 1]), StoreExpr(a.ts[n - 1], xs[n - 1]);
    var vs, s := Vals(xs[..n - 1], w), State(w, tmp, false);
    ExecCat(front + [st], Stores(a.ts, n - 1), s);
    ExecOne(front, st, s);
    PushAllRuns(xs[..n - 1], w, tmp);
    AllSomeLast(xs, w);
    if AllSome(xs, w) {
      StoreLast(a, ls, xs, w, tmp, vs);
      assert vs == TargetVals(xs, n - 1, w);
      if AssignFrom(ls, xs, w, n - 1).stop {
        StopStays(ls, xs, w, n - 1);
      } else {
        StoresRun(a, ls, xs, w, tmp, n - 1);
      }
    }
  }

  lemma AllSomeLast(xs: seq<Expr>, w: World)
    requires xs != []
    ensures AllSome(xs, w) <==> AllSome(xs[..|xs| - 1], w) && xs[|xs| - 1](w).Some?
  {
    if AllSome(xs[..|xs| - 1], w) {
      assert forall i :: 0 <= i < |xs| - 1 ==> xs[..|xs| - 1][i] == xs[i];
    }
  }

  // -- Parallel assignment -------------------------------------------------------------------------------

  /** Everything an assignment of these targets and values may do to a world: it
      completes without an error exactly if all values can be had and all targets can
      be stored into, and every place has the value of the first target that led to
      it and was stored into. A store that ends the run leaves those made before. */
  ghost predicate Assigns(ls: seq<Lhs>, xs: seq<Expr>, w: World, o: Outcome) {
    var w' := if o.Going? then o.s.w else o.w;
    && (o.Stopped? <==> !Evaluable(ls, xs, w) || exists i :: 0 <= i < |ls| && FatalAt(ls, w, i))
    && (o.Going? && !o.s.err <==> Evaluable(ls, xs, w) && forall i :: 0 <= i < |ls| ==> Storable(ls, xs, w, i))
    && (forall p :: Exists(w, p) ==> At(w', p) == if Evaluable(ls, xs, w) then FinalAt(ls, xs, w, p, 0) else At(w, p))
  }

  lemma AssignedIs(ls: seq<Lhs>, xs: seq<Expr>, w: World, o: Outcome)
    requires EndsAs(o, Assigned(ls, xs, w))
    ensures Assigns(ls, xs, w, o)
  {
    hide AssignFrom, FinalAt, At, FatalAt, Skipped, Exists, Evaluable;
    forall p | Exists(w, p)
      ensures At(if o.Going? then o.s.w else o.w, p) == if Evaluable(ls, xs, w) then FinalAt(ls, xs, w, p, 0)
                else At(w, p)
    {
      if Evaluable(ls, xs, w) { AssignFromAt(ls, xs, w, 0, p); }
    }
    if Evaluable(ls, xs, w) {
      GlobalExists(w);
      AssignFromAt(ls, xs, w, 0, PGlobal(""));
      if o.Stopped? {
        var j :| 0 <= j < |ls| && FatalAt(ls, w, j);
        assert !Storable(ls, xs, w, j);
      }
    }
  }

  lemma GlobalExists(w: World)
    ensures Exists(w, PGlobal(""))
  {
  }

  /** Multiple assignment is parallel: if it completes, all places have the values
      that the right-hand sides had before, at places taken from the targets as they
      were before; and it completes exactly if every target can be stored into. */
  lemma AssignIsParallel(ls: seq<Lhs>, xs: seq<Expr>, w: World)
    requires ls != [] && xs != []
    ensures |Collect(ls).ts| == |ls| && Assigns(ls, xs, w, Exec(Compile(ls, xs), Start(w)))
    ensures (forall i :: 0 <= i < |ls| ==> Storable(ls, xs, w, i)) ==>
              forall p :: FinalAt(ls, xs, w, p, 0) == ParallelAt(ls, xs, w, p, 0)
  {
    hide Exec, Compile, Assigned, Assigns, Collect, EndsAs;
    AssignRuns(ls, xs, w);
    AssignedIs(ls, xs, w, Exec(Compile(ls, xs), Start(w)));
    if forall i :: 0 <= i < |ls| ==> Storable(ls, xs, w, i) {
      forall p
        ensures FinalAt(ls, xs, w, p, 0) == ParallelAt(ls, xs, w, p, 0)
      {
        AllMade(ls, xs, w, p, 0);
      }
    }
  }

  /** Simultaneous assignment: the first target for a place decides. */
  function ParallelAt(ls: seq<Lhs>, xs: seq<Expr>, w: World, p: Place, i: nat): Option<Val>
    requires i <= |ls|
    decreases |ls| - i
  {
    if i == |ls| then At(w, p)
    else if LhsPlace(ls[i], w) == p then Some(RhsVal(xs, i, w))
    else ParallelAt(ls, xs, w, p, i + 1)
  }

  lemma {:induction false} AllMade(ls: seq<Lhs>, xs: seq<Expr>, w: World, p: Place, i: nat)
    requires i <= |ls| && forall j :: 0 <= j < |ls| ==> Storable(ls, xs, w, j)
    ensures FinalAt(ls, xs, w, p, i) == ParallelAt(ls, xs, w, p, i)
    decreases |ls| - i
  {
    hide AssignFrom, At, LhsPlace, Fatal, Skipped, RhsVal;
    if i < |ls| {
      AllMade(ls, xs, w, p, i + 1);
      forall j | i < j < |ls|
        ensures !FatalAt(ls, w, j)
      {
        assert Storable(ls, xs, w, j);
      }
    }
  }

  /** t[1], a = 1, 2 with t nil: a is stored, then the run stops. */
  lemma NilTable(w: World)
    requires |w.loc| == 2 && w.loc[0] == Nil
    ensures Exec(Compile([LIndex(OLocal(0), OConst(Num(1))), LLocal(1)], [_ => Some(Num(1)), _ => Some(Num(2))]),
              Start(w)) ==
            Stopped(w.(loc := w.loc[1 := Num(2)]))
  {
    var ls := [LIndex(OLocal(0), OConst(Num(1))), LLocal(1)];
    var xs: seq<Expr> := [_ => Some(Num(1)), _ => Some(Num(2))];
    AssignRuns(ls, xs, w);
    assert AssignFrom(ls, xs, w, 2) == After(w, false, false);
    assert AssignFrom(ls, xs, w, 1) == After(w.(loc := w.loc[1 := Num(2)]), false, false);
    assert LhsPlace(ls[0], w) == PSlot(Nil, Num(1));
  }

  // -- Globals ---------------------------------------------------------------------------------------------

  /** kp_vm_validate_code accepts the code: it has no store into a global. */
  predicate Accepted(ops: seq<Op>) {
    forall i :: 0 <= i < |ops| ==> !StoresGlobal(ops[i])
  }

  predicate StoresGlobal(o: Op) {
    (o.Store? || o.StoreExpr?) && o.t.TGlobal?
  }

  /** Collecting targets emits no store, and keeps globals globals. */
  lemma {:induction false} CollectStoresNothing(ls: seq<Lhs>)
    ensures var a := Collect(ls);
            && Accepted(a.ops) && |a.ts| == |ls|
            && forall j :: 0 <= j < |ls| ==> (a.ts[j].TGlobal? <==> ls[j].LGlobal?)
    decreases |ls|
  {
    hide Accepted;
    if ls == [] {
      NothingAccepted();
    } else {
      var rest := ls[..|ls| - 1];
      CollectStoresNothing(rest);
      TargetStoresNothing(Collect(rest), ls[|ls| - 1]);
    }
  }

  lemma NothingAccepted()
    ensures Accepted([])
  {
  }

  lemma OperandStoresNothing(o: Operand, a: Lhss)
    requires Accepted(a.ops)
    ensures Accepted(AddOperand(o, a).1.ops) && AddOperand(o, a).1.ts == a.ts
  {
  }

  lemma TargetStoresNothing(a: Lhss, l: Lhs)
    requires Accepted(a.ops)
    ensures var b := AddTarget(a, l);
            && Accepted(b.ops) && |b.ts| == |a.ts| + 1 && (b.ts[|a.ts|].TGlobal? <==> l.LGlobal?)
            && forall j :: 0 <= j < |a.ts| ==> (b.ts[j].TGlobal? <==> a.ts[j].TGlobal?)
  {
    hide Accepted, AddOperand;
    if l.LIndex? {
      OperandStoresNothing(l.t, a);
      OperandStoresNothing(l.k, AddOperand(l.t, a).1);
    }
    if l.LLocal? {
      OneAccepted(Copy(l.r));
      AcceptedCat(a.ops, [Copy(l.r)]);
    }
  }

  lemma {:induction false} PushAllStoresNothing(xs: seq<Expr>)
    ensures Accepted(PushAll(xs))
    decreases |xs|
  {
    if xs != [] { PushAllStoresNothing(xs[..|xs| - 1]); }
  }

  lemma {:induction false} NilsStoreNothing(n: nat)
    ensures Accepted(Nils(n))
  {
    if n > 0 { NilsStoreNothing(n - 1); }
  }

  lemma AcceptedCat(a: seq<Op>, b: seq<Op>)
    ensures Accepted(a + b) <==> Accepted(a) && Accepted(b)
  {
    hide StoresGlobal;
    if Accepted(a + b) {
      forall i | 0 <= i < |a|
        ensures !StoresGlobal(a[i])
      {
        assert (a + b)[i] == a[i];
      }
      forall i | 0 <= i < |b|
        ensures !StoresGlobal(b[i])
      {
        assert (a + b)[|a| + i] == b[i];
      }
    }
  }

  lemma {:induction false} StoresAccepted(ts: seq<Target>, m: nat)
    requires m <= |ts|
    ensures Accepted(Stores(ts, m)) <==> forall j :: 0 <= j < m ==> !ts[j].TGlobal?
  {
    if m > 0 {
      StoresAccepted(ts, m - 1);
      AcceptedCat([Store(ts[m - 1])], Stores(ts, m - 1));
      assert [Store(ts[m - 1])][0] == Store(ts[m - 1]);
    }
  }

  /** A program that assigns to a global is refused before it runs, and no other is. */
  lemma GlobalsRefused(ls: seq<Lhs>, xs: seq<Expr>)
    requires ls != [] && xs != []
    ensures |Collect(ls).ts| == |ls| && (Accepted(Compile(ls, xs)) <==> forall j :: 0 <= j < |ls| ==> !ls[j].LGlobal?)
  {
    hide Accepted, Collect, Stores, PushAll, Nils;
    CollectStoresNothing(ls);
    var a, n, m := Collect(ls), |ls|, |xs|;
    if m == n {
      var st := StoreExpr(a.ts[n - 1], xs[n - 1]);
      PushAllStoresNothing(xs[..m - 1]);
      StoresAccepted(a.ts, n - 1);
      OneAccepted(st);
      AcceptedCat(PushAll(xs[..m - 1]), [st]);
      AcceptedCat(PushAll(xs[..m - 1]) + [st], Stores(a.ts, n - 1));
      AcceptedCat(a.ops, PushAll(xs[..m - 1]) + [st] + Stores(a.ts, n - 1));
    } else {
      var fill := if m < n then Nils(n - m) else [Drop(m - n)];
      PushAllStoresNothing(xs);
      StoresAccepted(a.ts, n);
      if m < n { NilsStoreNothing(n - m); } else { OneAccepted(Drop(m - n)); }
      AcceptedCat(PushAll(xs), fill);
      AcceptedCat(PushAll(xs) + fill, Stores(a.ts, n));
      AcceptedCat(a.ops, PushAll(xs) + fill + Stores(a.ts, n));
    }
  }

  lemma OneAccepted(o: Op)
    ensures Accepted([o]) <==> !StoresGlobal(o)
  {
    assert [o][0] == o;
  }

  /** g = 1: the code is refused, and would stop without a store. */
  lemma GlobalNotStored(g: string, w: World)
    ensures var ops := Compile([LGlobal(g)], [_ => Some(Num(1))]);
            !Accepted(ops) && Exec(ops, Start(w)) == Stopped(w)
  {
    var ls := [LGlobal(g)];
    var xs: seq<Expr> := [_ => Some(Num(1))];
    GlobalsRefused(ls, xs);
    AssignRuns(ls, xs, w);
    assert ls[0].LGlobal?;
    assert AssignFrom(ls, xs, w, 1) == After(w, false, false);
  }

  // -- The statement parser -----------------------------------------------------------------------------

  /** The list of targets, the code emitted so far, and the registers in use above the locals. */
  class Assignment {
    var ts: seq<Target>
    var ops: seq<Op>
    var n: nat

    constructor ()
      ensures Lhss(ts, ops, n) == Lhss([], [], 0)
    {
      ts, ops, n := [], [], 0;
    }

    method Push(o: Op)
      modifies this`ops, this`n
      ensures ops == old(ops) + [o] && n == old(n) + 1
    {
      ops := ops + [o];
      n := n + 1;
    }

    method ExprOperand(o: Operand) returns (r: Ref)
      modifies this`ops, this`n
      ensures (r, Lhss(ts, ops, n)) == AddOperand(o, old(Lhss(ts, ops, n)))
    {
      match o
      case OLocal(i) => r := Loc(i);
      case OConst(v) => r := Con(v);
      case OExpr(x) => {
        r := Tmp(n);
        Push(Op.Push(x));
      }
    }

    method ExprPrimary(l: Lhs) returns (t: Target)
      modifies this`ops, this`n
      ensures (t, Lhss(ts, ops, n)) == AddLhs(l, old(Lhss(ts, ops, n)))
    {
      match l
      case LLocal(r) => t := TLocal(r);
      case LUp(i) => t := TUp(i);
      case LGlobal(g) => t := TGlobal(g);
      case LIndex(a, k) => {
        var ra := ExprOperand(a);
        var rk := ExprOperand(k);
        t := TIndex(ra, rk);
      }
    }

    /** assign_hazard: walks the targets from the last to the first. */
    method AssignHazard(r: nat)
      modifies this
      ensures Lhss(ts, ops, n) == Hazard(old(Lhss(ts, ops, n)), r)
    {
      var tmp, hazard, j := n, false, |ts|;
      while j > 0
        invariant 0 <= j <= |ts| == |old(ts)| && ops == old(ops) && n == tmp == old(n)
        invariant forall i :: 0 <= i < j ==> ts[i] == old(ts)[i]
        invariant forall i :: j <= i < |ts| ==> ts[i] == Rename(old(ts)[i], r, tmp)
        invariant hazard <==> exists i :: j <= i < |ts| && Uses(old(ts)[i], r)
      {
        j := j - 1;
        var t := ts[j];
        assert t == old(ts)[j];
        if t.TIndex? {
          if t.t == Loc(r) {
            hazard := true;
            t := t.(t := Tmp(tmp));
          }
          if t.k == Loc(r) {
            hazard := true;
            t := t.(k := Tmp(tmp));
          }
          ts := ts[j := t];
        }
      }
      ghost var a := old(Lhss(ts, ops, n));
      if hazard {
        assert exists i :: 0 <= i < |a.ts| && Uses(a.ts[i], r);
        Push(Copy(r));
        assert ts == RenameAll(a.ts, r, tmp);
      } else {
        forall i | 0 <= i < |ts|
          ensures ts[i] == old(ts)[i]
        {
          assert !Uses(old(ts)[i], r);
        }
      }
    }

    /** All right-hand sides but the last go to the next registers. */
    method ExprList(xs: seq<Expr>)
      requires xs != []
      modifies this`ops, this`n
      ensures ops == old(ops) + PushAll(xs[..|xs| - 1]) && n == old(n) + |xs| - 1
    {
      var i: nat := 0;
      assert PushAll(xs[..0]) == [];
      while i < |xs| - 1
        invariant i < |xs| && ops == old(ops) + PushAll(xs[..i]) && n == old(n) + i
      {
        assert xs[..i + 1][..i] == xs[..i];
        Push(Op.Push(xs[i]));
        i := i + 1;
      }
    }

    /** assign_adjust for a last expression that is not a call. */
    method AssignAdjust(nvars: nat, xs: seq<Expr>)
      requires xs != []
      modifies this`ops, this`n
      ensures var extra := if nvars > |xs| then nvars - |xs| else 0;
              ops == old(ops) + [Op.Push(xs[|xs| - 1])] + Nils(extra) && n == old(n) + 1 + extra
    {
      Push(Op.Push(xs[|xs| - 1]));
      var i: nat := 0;
      while i + |xs| < nvars
        invariant i == 0 || i + |xs| <= nvars
        invariant ops == old(ops) + [Op.Push(xs[|xs| - 1])] + Nils(i) && n == old(n) + 1 + i
      {
        Push(PushNil);
        i := i + 1;
      }
    }

    /** bcemit_store of the last register. */
    method BcemitStore(t: Target)
      requires n > 0
      modifies this`ops, this`n
      ensures ops == old(ops) + [Store(t)] && n == old(n) - 1
    {
      ops := ops + [Store(t)];
      n := n - 1;
    }

    /** The right-hand sides, and the store into the last target. */
    method ParseRhs(ls: seq<Lhs>, xs: seq<Expr>)
      requires ls != [] && xs != [] && |Collect(ls).ts| == |ls| && Lhss(ts, ops, n) == Collect(ls)
      modifies this`ops, this`n
      ensures ops + Stores(ts, |ls| - 1) == Compile(ls, xs) && n == Collect(ls).n + |ls| - 1
    {
      hide Collect;
      ghost var a, st := Collect(ls), Stores(ts, |ls| - 1);
      var last := xs[|xs| - 1];
      ExprList(xs);
      if |xs| == |ls| {
        ops := ops + [StoreExpr(ts[|ls| - 1], last)];
        assert ops + st == a.ops + (PushAll(xs[..|xs| - 1]) + [StoreExpr(ts[|ls| - 1], last)] + st);
        return;
      }
      AssignAdjust(|ls|, xs);
      assert ops == a.ops + (PushAll(xs) + Nils(if |ls| > |xs| then |ls| - |xs| else 0));
      if |xs| > |ls| {
        ops := ops + [Drop(|xs| - |ls|)];
        n := n - (|xs| - |ls|);
      }
      ghost var fill := if |xs| < |ls| then Nils(|ls| - |xs|) else [Drop(|xs| - |ls|)];
      assert ops == a.ops + (PushAll(xs) + fill);
      BcemitStore(ts[|ls| - 1]);
      assert ops + st == a.ops + (PushAll(xs) + fill + ([Store(ts[|ls| - 1])] + st));
    }

    /** parse_assignment, with nvars targets read: later targets may rename the
        operands of the current one before it is stored into. */
    method ParseAssignment(ls: seq<Lhs>, xs: seq<Expr>, nvars: nat)
      requires 0 < nvars <= |ls| && xs != [] && |Collect(ls).ts| == |ls| && Lhss(ts, ops, n) == Collect(ls[..nvars])
      modifies this
      ensures ts == Collect(ls).ts && ops + Stores(ts, nvars - 1) == Compile(ls, xs)
      ensures n == Collect(ls).n + nvars - 1
      decreases |ls| - nvars
    {
      hide Compile, Stores, AddLhs, Hazard;
      if nvars < |ls| {
        var t := ExprPrimary(ls[nvars]);
        if t.TLocal? {
          AssignHazard(t.r);
        }
        ts := ts + [t];
        assert Lhss(ts, ops, n) == Collect(ls[..nvars + 1]) by {
          assert ls[..nvars + 1][..nvars] == ls[..nvars];
        }
        ParseAssignment(ls, xs, nvars + 1);
        ghost var was := ops;
        BcemitStore(ts[nvars - 1]);
        StoresStep(was, ts, nvars);
      } else {
        assert ls[..nvars] == ls;
        ParseRhs(ls, xs);
      }
    }
  }

  /** An assignment statement, on any state: it completes exactly if every value can be
      had and every target stored into, and then all stores are made as if at once;
      and the code is accepted exactly if no target is a global. */
  method ParseCallAssign(ls: seq<Lhs>, xs: seq<Expr>) returns (ops: seq<Op>)
    requires ls != [] && xs != []
    ensures forall w :: Assigns(ls, xs, w, Exec(ops, Start(w)))
    ensures Accepted(ops) <==> forall j :: 0 <= j < |ls| ==> !ls[j].LGlobal?
  {
    hide Compile, Exec, Assigns, Accepted;
    CollectLen(ls);
    var a := new Assignment();
    var t := a.ExprPrimary(ls[0]);
    a.ts := [t];
    assert ls[..1][..0] == [] && Collect([]) == Lhss([], [], 0);
    FirstTarget(ls, t, Lhss([], a.ops, a.n));
    a.ParseAssignment(ls, xs, 1);
    ops := a.ops;
    assert a.ops + Stores(a.ts, 0) == a.ops;
    GlobalsRefused(ls, xs);
    forall w
      ensures Assigns(ls, xs, w, Exec(ops, Start(w)))
    {
      AssignIsParallel(ls, xs, w);
    }
  }

  lemma StoresStep(ops: seq<Op>, ts: seq<Target>, m: nat)
    requires 0 < m <= |ts|
    ensures ops + Stores(ts, m) == ops + [Store(ts[m - 1])] + Stores(ts, m - 1)
  {
  }

  /** There is no earlier target that the first one could disturb. */
  lemma FirstTarget(ls: seq<Lhs>, t: Target, a: Lhss)
    requires ls != [] && (t, a) == AddLhs(ls[0], Lhss([], [], 0))
    ensures Collect(ls[..1]) == a.(ts := [t])
  {
    assert ls[..1][..0] == [];
    assert a.ts == [];
    assert Collect([]) == Lhss([], [], 0);
  }
}
