/** Multiple assignment in plain terms: which register, upvalue or table entry has
    which value afterwards. */
module AssignPlain {
  import opened Values
  import opened Assign

  /** Register r is assigned by target i, and by none before it. */
  predicate FirstFor(rs: seq<nat>, i: nat) {
    i < |rs| && forall j :: 0 <= j < i ==> rs[j] != rs[i]
  }

  function Locals(rs: seq<nat>): (ls: seq<Lhs>)
    ensures |ls| == |rs| && forall i :: 0 <= i < |rs| ==> ls[i] == LLocal(rs[i])
  {
    seq(|rs|, i requires 0 <= i < |rs| => LLocal(rs[i]))
  }

  /** Registers assigned together: target i gets the value right-hand side i had before,
      or nil if there is none; where a register is named twice, the first counts. Nothing
      else changes. If a right-hand side has no value, nothing at all does. */
  lemma LocalsAssigned(rs: seq<nat>, xs: seq<Expr>, w: World)
    requires rs != [] && xs != [] && forall i :: 0 <= i < |rs| ==> rs[i] < |w.loc|
    ensures |Collect(Locals(rs)).ts| == |rs|
    ensures var o := Exec(Compile(Locals(rs), xs), Start(w));
            if exists i :: 0 <= i < |xs| && xs[i](w) == None then o == Stopped(w)
            else
              && o.Going? && !o.s.err && o.s.w == w.(loc := o.s.w.loc) && |o.s.w.loc| == |w.loc|
              && (forall i: nat :: FirstFor(rs, i) ==>
                    o.s.w.loc[rs[i]] == if i < |xs| then xs[i](w).value else Nil)
              && forall r :: 0 <= r < |w.loc| && r !in rs ==> o.s.w.loc[r] == w.loc[r]
  {
    hide Exec, Compile, Collect, AssignFrom, RhsVal;
    var ls := Locals(rs);
    AssignRuns(ls, xs, w);
    if forall i :: 0 <= i < |xs| ==> xs[i](w).Some? {
      LocalsFrom(rs, xs, w, 0);
      var loc' := AssignFrom(ls, xs, w, 0).w.loc;
      forall i: nat | FirstFor(rs, i)
        ensures loc'[rs[i]] == if i < |xs| then xs[i](w).value else Nil
      {
        assert rs[i] < |w.loc|;
        ValueIs(xs, i, w);
      }
    }
  }

  lemma ValueIs(xs: seq<Expr>, i: nat, w: World)
    requires forall j :: 0 <= j < |xs| ==> xs[j](w).Some?
    ensures RhsVal(xs, i, w) == if i < |xs| then xs[i](w).value else Nil
  {
  }

  lemma {:induction false} LocalsFrom(rs: seq<nat>, xs: seq<Expr>, w: World, n: nat)
    requires n <= |rs| && forall i :: 0 <= i < |rs| ==> rs[i] < |w.loc|
    ensures var a := AssignFrom(Locals(rs), xs, w, n);
            && !a.err && !a.stop && a.w == w.(loc := a.w.loc) && |a.w.loc| == |w.loc|
            && (forall i :: n <= i < |rs| && (forall j :: n <= j < i ==> rs[j] != rs[i]) ==>
                  a.w.loc[rs[i]] == RhsVal(xs, i, w))
            && forall r :: 0 <= r < |w.loc| && (forall j :: n <= j < |rs| ==> rs[j] != r) ==> a.w.loc[r] == w.loc[r]
    decreases |rs| - n
  {
    hide RhsVal;
    if n < |rs| { LocalsFrom(rs, xs, w, n + 1); }
  }

  /** a, b = b, a. */
  lemma Swap(a: nat, b: nat, w: World)
    requires a < |w.loc| && b < |w.loc|
    ensures var xs: seq<Expr> := [(u: World) => Some(Get(u.loc, b)), (u: World) => Some(Get(u.loc, a))];
            && |Collect(Locals([a, b])).ts| == 2
            && var o := Exec(Compile(Locals([a, b]), xs), Start(w));
               o.Going? && !o.s.err && o.s.w == w.(loc := w.loc[a := w.loc[b]][b := w.loc[a]])
  {
    hide Exec, Compile, Collect;
    var xs: seq<Expr> := [(u: World) => Some(Get(u.loc, b)), (u: World) => Some(Get(u.loc, a))];
    var rs := [a, b];
    LocalsAssigned(rs, xs, w);
    var o := Exec(Compile(Locals(rs), xs), Start(w));
    assert FirstFor(rs, 0) && (a != b ==> FirstFor(rs, 1));
    assert o.s.w.loc[rs[0]] == w.loc[b];
    assert o.s.w.loc == w.loc[a := w.loc[b]][b := w.loc[a]];
  }

  // -- Table entries and upvalues --------------------------------------------------------------------

  /** The operand of a target has value v: a register, a constant, or an expression. */
  predicate HasValue(o: Operand, w: World, v: Val) {
    match o
    case OLocal(r) => r < |w.loc| && w.loc[r] == v
    case OConst(c) => c == v
    case OExpr(x) => x(w) == Some(v)
  }

  /** The interpreter goes on in world w, with or without an error message. */
  ghost predicate GoesOn(o: Outcome, w: World, err: bool) {
    o.Going? && o.s.w == w && o.s.err == err
  }

  /** t[k] = x: the run stops if t is no table; a nil key or a full table is an error
      that changes nothing; otherwise the entry is stored. */
  lemma EntryAssigned(t: Operand, k: Operand, x: Expr, w: World, tv: Val, kv: Val, v: Val)
    requires HasValue(t, w, tv) && HasValue(k, w, kv) && x(w) == Some(v)
    ensures |Collect([LIndex(t, k)]).ts| == 1
    ensures var o := Exec(Compile([LIndex(t, k)], [x]), Start(w));
            if !tv.Obj? || tv.id !in w.tables then o == Stopped(w)
            else if kv == Nil || !w.room(w.heap, tv, kv) then GoesOn(o, w, true)
            else GoesOn(o, w.(heap := w.heap[(tv, kv) := v]), false)
  {
    hide Exec, Compile, Collect;
    var ls := [LIndex(t, k)];
    AssignRuns(ls, [x], w);
    assert LhsPlace(ls[0], w) == PSlot(tv, kv);
    assert AssignFrom(ls, [x], w, 1) == After(w, false, false);
  }

  /** An upvalue. */
  lemma UpvalueAssigned(i: nat, x: Expr, w: World, v: Val)
    requires i < |w.ups| && x(w) == Some(v)
    ensures |Collect([LUp(i)]).ts| == 1
    ensures GoesOn(Exec(Compile([LUp(i)], [x]), Start(w)), w.(ups := w.ups[i := v]), false)
  {
    hide Exec, Compile, Collect;
    var ls := [LUp(i)];
    AssignRuns(ls, [x], w);
    assert AssignFrom(ls, [x], w, 1) == After(w, false, false);
  }

  /** r, t[r] = x, y and t[r], r = y, x: the entry is the one r named before, also where
      the register of the table is r itself. */
  lemma EntryBesideKey(t: nat, r: nat, x: Expr, y: Expr, w: World, v: Val, u: Val)
    requires t < |w.loc| && r < |w.loc| && w.loc[t].Obj? && w.loc[t].id in w.tables && w.loc[r] != Nil
    requires x(w) == Some(v) && y(w) == Some(u) && (forall h: Heap :: w.room(h, w.loc[t], w.loc[r]))
    ensures var entry := LIndex(OLocal(t), OLocal(r));
            var after := w.(loc := w.loc[r := v], heap := w.heap[(w.loc[t], w.loc[r]) := u]);
            && |Collect([LLocal(r), entry]).ts| == 2 && |Collect([entry, LLocal(r)]).ts| == 2
            && GoesOn(Exec(Compile([LLocal(r), entry], [x, y]), Start(w)), after, false)
            && GoesOn(Exec(Compile([entry, LLocal(r)], [y, x]), Start(w)), after, false)
  {
    hide Exec, Compile, Collect;
    var entry := LIndex(OLocal(t), OLocal(r));
    var (ls, ms) := ([LLocal(r), entry], [entry, LLocal(r)]);
    AssignRuns(ls, [x, y], w);
    AssignRuns(ms, [y, x], w);
    assert LhsPlace(entry, w) == PSlot(w.loc[t], w.loc[r]);
    assert AssignFrom(ls, [x, y], w, 2) == After(w, false, false);
    assert AssignFrom(ls, [x, y], w, 1).w == w.(heap := w.heap[(w.loc[t], w.loc[r]) := u]);
    assert AssignFrom(ms, [y, x], w, 2) == After(w, false, false);
    assert AssignFrom(ms, [y, x], w, 1).w == w.(loc := w.loc[r := v]);
  }
}
