/** Closure conversion: how the parser turns the use of an outer variable into
    an upvalue index, and that at run time the index leads to that variable. */
module Scopes {
  import opened Values
  import opened Upvals

  const MAX_VSTACK: nat := 0x1_0000 - 60  // as many variables as leave room for upvalue numbers
  const MAX_UPVAL: nat := 60
  const MAX_LOCVAR: nat := 200
  const NUMBERS: nat := 0x1_0000  // a number has 16 bits

  /** An active local: the name it was declared with and its number among all variables. */
  datatype Var = Var(name: string, vidx: nat)

  /** A function being parsed: its locals by register, and its upvalues. */
  datatype Fn = Fn(vars: seq<Var>, uvmap: seq<nat>, uvtmp: seq<nat>)

  /** What a name is in a function. */
  datatype Found = InReg(reg: nat) | InUpval(i: nat)

  // -- Lexical scoping -------------------------------------------------------------------------

  /** The last local of that name. */
  function LastVar(vars: seq<Var>, name: string): Option<nat> {
    if vars == [] then None
    else if vars[|vars| - 1].name == name then Some(|vars| - 1)
    else LastVar(vars[..|vars| - 1], name)
  }

  /** The declaration a name refers to: the innermost function that has it. */
  function Scope(fns: seq<Fn>, name: string): Option<(nat, nat)> {
    if fns == [] then None
    else
      match LastVar(fns[|fns| - 1].vars, name)
      case Some(reg) => Some((|fns| - 1, reg))
      case None => Scope(fns[..|fns| - 1], name)
  }

  lemma {:induction false} LastVarIs(vars: seq<Var>, name: string)
    ensures match LastVar(vars, name)
            case None => forall i :: 0 <= i < |vars| ==> vars[i].name != name
            case Some(r) => r < |vars| && vars[r].name == name && forall i :: r < i < |vars| ==> vars[i].name != name
  {
    if vars != [] && vars[|vars| - 1].name != name { LastVarIs(vars[..|vars| - 1], name); }
  }

  lemma LastVarFound(vars: seq<Var>, name: string, r: nat)
    requires r < |vars| && vars[r].name == name && forall i :: r < i < |vars| ==> vars[i].name != name
    ensures LastVar(vars, name) == Some(r)
  {
    LastVarIs(vars, name);
  }

  // -- The upvalue maps -----------------------------------------------------------------------------

  /** Variable number v is register r of function l. */
  predicate IsVar(fns: seq<Fn>, l: nat, r: nat, v: nat) {
    l < |fns| && r < |fns[l].vars| && fns[l].vars[r].vidx == v
  }

  /** Every variable has its own number. */
  ghost predicate VarsOk(fns: seq<Fn>) {
    && (forall l: nat, r: nat, v: nat :: IsVar(fns, l, r, v) ==> v < NUMBERS)
    && (forall l: nat, r: nat, m: nat, s: nat, v: nat :: IsVar(fns, l, r, v) && IsVar(fns, m, s, v) ==>
        l == m && r == s)
  }

  /** Upvalue k is a local of the enclosing function. */
  ghost predicate FromLocal(outer: Fn, f: Fn, k: nat) {
    && k < |f.uvmap| == |f.uvtmp| && f.uvtmp[k] == f.uvmap[k]
    && exists r :: 0 <= r < |outer.vars| && outer.vars[r].vidx == f.uvmap[k]
  }

  /** Upvalue k is an upvalue of the enclosing function. */
  ghost predicate FromUpval(outer: Fn, f: Fn, k: nat) {
    && k < |f.uvmap| == |f.uvtmp| && MAX_VSTACK <= f.uvtmp[k] < MAX_VSTACK + |outer.uvmap|
    && outer.uvmap[f.uvtmp[k] - MAX_VSTACK] == f.uvmap[k]
  }

  ghost predicate UvOk(outer: Fn, f: Fn, k: nat) {
    FromLocal(outer, f, k) || FromUpval(outer, f, k)
  }

  ghost predicate FnOk(outer: Fn, f: Fn) {
    |f.uvmap| == |f.uvtmp| <= MAX_UPVAL && forall k :: 0 <= k < |f.uvmap| ==> UvOk(outer, f, k)
  }

  ghost predicate ScopesOk(fns: seq<Fn>) {
    && VarsOk(fns)
    && (forall l :: 0 < l < |fns| ==> FnOk(fns[l - 1], fns[l]))
    && (fns != [] ==> fns[0].uvmap == [] && fns[0].uvtmp == [])
  }

  /** An upvalue may have been added, nothing else. */
  ghost predicate Grown(f: Fn, g: Fn) {
    && |g.uvmap| <= |f.uvmap| + 1
    && g.vars == f.vars && f.uvmap <= g.uvmap && f.uvtmp <= g.uvtmp && |f.uvtmp| == |f.uvmap| && |g.uvtmp| == |g.uvmap|
  }

  lemma FnGrows(outer: Fn, outer': Fn, f: Fn)
    requires FnOk(outer, f) && outer'.vars == outer.vars && outer.uvmap <= outer'.uvmap
    ensures FnOk(outer', f)
  {
    forall k | 0 <= k < |f.uvmap|
      ensures UvOk(outer', f, k)
    {
      assert UvOk(outer, f, k);
    }
  }

  /** Scoping only looks at locals. */
  lemma {:induction false} ScopeVars(fns: seq<Fn>, fns': seq<Fn>, name: string)
    requires |fns| == |fns'| && forall l :: 0 <= l < |fns| ==> fns'[l].vars == fns[l].vars
    ensures Scope(fns', name) == Scope(fns, name)
  {
    if fns != [] { ScopeVars(fns[..|fns| - 1], fns'[..|fns| - 1], name); }
  }

  lemma ScopeNone(fns: seq<Fn>, name: string)
    ensures Scope(fns[..0], name) == None
  {
  }

  lemma ScopeStep(fns: seq<Fn>, n: nat, name: string)
    requires 0 < n <= |fns|
    ensures Scope(fns[..n], name) ==
            match LastVar(fns[n - 1].vars, name) case Some(reg) => Some((n - 1, reg))
                case None => Scope(fns[..n - 1], name)
  {
    assert fns[..n][..n - 1] == fns[..n - 1];
  }

  // -- Opening and closing functions and blocks ---------------------------------------------------------

  /** Where the numbers of the variables of function l end. */
  function NumbersEnd(vbase: seq<nat>, vtop: nat, l: nat): nat {
    if l + 1 < |vbase| then vbase[l + 1] else vtop
  }

  /** Variables of function l have numbers from vbase[l] on, rising with their register. */
  ghost predicate NumberedFn(f: Fn, lo: nat, hi: nat) {
    && lo <= hi
    && (forall r :: 0 <= r < |f.vars| ==> lo <= f.vars[r].vidx < hi)
    && (forall r, q :: 0 <= r < q < |f.vars| ==> f.vars[r].vidx < f.vars[q].vidx)
  }

  ghost predicate Numbered(fns: seq<Fn>, vbase: seq<nat>, vtop: nat) {
    && |vbase| == |fns| && vtop <= NUMBERS
    && (forall l :: 0 <= l < |fns| ==> NumberedFn(fns[l], vbase[l], NumbersEnd(vbase, vtop, l)))
  }

  lemma {:induction false} BasesRise(fns: seq<Fn>, vbase: seq<nat>, vtop: nat, l: nat, m: nat)
    requires Numbered(fns, vbase, vtop) && l < m < |fns|
    ensures |vbase| == |fns| && NumbersEnd(vbase, vtop, l) <= vbase[m] && vbase[m] <= vtop
    ensures NumbersEnd(vbase, vtop, l) <= vtop
    decreases m - l
  {
    hide Numbered;
    BaseBelow(fns, vbase, vtop, m);
    BaseBelow(fns, vbase, vtop, l);
    if l + 1 < m {
      BaseBelow(fns, vbase, vtop, l + 1);
      BasesRise(fns, vbase, vtop, l + 1, m);
    }
  }

  lemma {:induction false} BaseBelow(fns: seq<Fn>, vbase: seq<nat>, vtop: nat, m: nat)
    requires Numbered(fns, vbase, vtop) && m < |fns|
    ensures |vbase| == |fns| && vbase[m] <= NumbersEnd(vbase, vtop, m) <= vtop
    decreases |fns| - m
  {
    assert NumberedFn(fns[m], vbase[m], NumbersEnd(vbase, vtop, m));
    if m + 1 < |fns| { BaseBelow(fns, vbase, vtop, m + 1); }
  }

  /** Numbers tell variables apart. */
  lemma NumberedVars(fns: seq<Fn>, vbase: seq<nat>, vtop: nat)
    requires Numbered(fns, vbase, vtop)
    ensures VarsOk(fns)
  {
    hide Numbered;
    forall l: nat, r: nat, v: nat | IsVar(fns, l, r, v)
      ensures v < NUMBERS
    {
      NumberIn(fns, vbase, vtop, l, r, v);
    }
    forall l: nat, r: nat, m: nat, q: nat, v: nat | IsVar(fns, l, r, v) && IsVar(fns, m, q, v)
      ensures l == m && r == q
    {
      NumberIn(fns, vbase, vtop, l, r, v);
      NumberIn(fns, vbase, vtop, m, q, v);
      if l < m { BasesRise(fns, vbase, vtop, l, m); }
      if m < l { BasesRise(fns, vbase, vtop, m, l); }
    }
  }

  lemma NumberIn(fns: seq<Fn>, vbase: seq<nat>, vtop: nat, l: nat, r: nat, v: nat)
    requires Numbered(fns, vbase, vtop) && IsVar(fns, l, r, v)
    ensures |vbase| == |fns| && vbase[l] <= v < NumbersEnd(vbase, vtop, l) && v < NUMBERS
    ensures forall q: nat :: IsVar(fns, l, q, v) ==> q == r
  {
    BaseBelow(fns, vbase, vtop, l);
    assert NumberedFn(fns[l], vbase[l], NumbersEnd(vbase, vtop, l));
  }

  ghost predicate UvsOk(fns: seq<Fn>) {
    && (forall l :: 0 < l < |fns| ==> FnOk(fns[l - 1], fns[l]))
    && (fns != [] ==> fns[0].uvmap == [] && fns[0].uvtmp == [])
  }

  /** The locals of the innermost function do not matter to upvalues. */
  lemma InnerVars(fns: seq<Fn>, g: Fn)
    requires fns != [] && UvsOk(fns) && g.uvmap == fns[|fns| - 1].uvmap && g.uvtmp == fns[|fns| - 1].uvtmp
    ensures UvsOk(fns[|fns| - 1 := g])
  {
    var n := |fns| - 1;
    var fns' := fns[n := g];
    forall l | 0 < l < |fns'|
      ensures FnOk(fns'[l - 1], fns'[l])
    {
      assert FnOk(fns[l - 1], fns[l]);
      if l == n { SameUvs(fns[n - 1], fns[n], g); }
    }
  }

  lemma SameUvs(outer: Fn, f: Fn, g: Fn)
    requires FnOk(outer, f) && g.uvmap == f.uvmap && g.uvtmp == f.uvtmp
    ensures FnOk(outer, g)
  {
    forall k | 0 <= k < |g.uvmap|
      ensures UvOk(outer, g, k)
    {
      assert UvOk(outer, f, k);
    }
  }

  /** More upvalues do not change numbers. */
  lemma GrownNumbered(fns: seq<Fn>, fns': seq<Fn>, vbase: seq<nat>, vtop: nat)
    requires Numbered(fns, vbase, vtop) && |fns'| == |fns| && forall m :: 0 <= m < |fns| ==> fns'[m].vars == fns[m].vars
    ensures Numbered(fns', vbase, vtop)
  {
    forall l | 0 <= l < |fns'|
      ensures NumberedFn(fns'[l], vbase[l], NumbersEnd(vbase, vtop, l))
    {
      assert NumberedFn(fns[l], vbase[l], NumbersEnd(vbase, vtop, l));
    }
  }

  lemma InitNumbered(fns: seq<Fn>, vbase: seq<nat>, vtop: nat)
    requires Numbered(fns, vbase, vtop)
    ensures Numbered(fns + [Fn([], [], [])], vbase + [vtop], vtop)
  {
    hide NumberedFn;
    var fns', vbase' := fns + [Fn([], [], [])], vbase + [vtop];
    forall l | 0 <= l < |fns'|
      ensures NumberedFn(fns'[l], vbase'[l], NumbersEnd(vbase', vtop, l))
    {
      if l < |fns| {
        assert NumberedFn(fns[l], vbase[l], NumbersEnd(vbase, vtop, l));
      } else {
        NoneNumbered(vtop);
      }
    }
  }

  lemma NoneNumbered(n: nat)
    ensures NumberedFn(Fn([], [], []), n, n)
  {
  }

  lemma InitUvs(fns: seq<Fn>)
    requires UvsOk(fns)
    ensures UvsOk(fns + [Fn([], [], [])])
  {
    hide FnOk;
    var fns' := fns + [Fn([], [], [])];
    forall l | 0 < l < |fns'|
      ensures FnOk(fns'[l - 1], fns'[l])
    {
      if l < |fns| { assert FnOk(fns[l - 1], fns[l]); } else { NoUvs(fns[l - 1]); }
    }
  }

  lemma FinishOk(fns: seq<Fn>, vbase: seq<nat>, vtop: nat)
    requires Numbered(fns, vbase, vtop) && UvsOk(fns) && fns != []
    ensures var n := |fns| - 1; n < |vbase| && Numbered(fns[..n], vbase[..n], vbase[n]) && UvsOk(fns[..n])
  {
    hide NumberedFn, FnOk;
    var n := |fns| - 1;
    BaseBelow(fns, vbase, vtop, n);
    forall l | 0 <= l < n
      ensures NumberedFn(fns[l], vbase[l], NumbersEnd(vbase[..n], vbase[n], l))
    {
      assert NumberedFn(fns[l], vbase[l], NumbersEnd(vbase, vtop, l));
    }
    forall l | 0 < l < n
      ensures FnOk(fns[..n][l - 1], fns[..n][l])
    {
      assert FnOk(fns[l - 1], fns[l]);
    }
  }

  lemma NewNumbered(fns: seq<Fn>, vbase: seq<nat>, vtop: nat, name: string)
    requires Numbered(fns, vbase, vtop) && fns != [] && vtop < NUMBERS
    ensures var n := |fns| - 1; var f := fns[n];
            Numbered(fns[n := f.(vars := f.vars + [Var(name, vtop % NUMBERS)])], vbase, vtop + 1)
  {
    var n := |fns| - 1;
    var g := fns[n].(vars := fns[n].vars + [Var(name, vtop)]);
    var fns' := fns[n := g];
    assert NumberedFn(g, vbase[n], vtop + 1) by { assert NumberedFn(fns[n], vbase[n], NumbersEnd(vbase, vtop, n)); }
    hide NumberedFn;
    forall l | 0 <= l < |fns'|
      ensures NumberedFn(fns'[l], vbase[l], NumbersEnd(vbase, vtop + 1, l))
    {
      assert NumberedFn(fns[l], vbase[l], NumbersEnd(vbase, vtop, l));
    }
  }

  lemma FewerNumbered(fns: seq<Fn>, vbase: seq<nat>, vtop: nat, level: nat)
    requires Numbered(fns, vbase, vtop) && fns != [] && level <= |fns[|fns| - 1].vars|
    ensures var n := |fns| - 1; Numbered(fns[n := fns[n].(vars := fns[n].vars[..level])], vbase, vtop)
  {
    var n := |fns| - 1;
    var g := fns[n].(vars := fns[n].vars[..level]);
    var fns' := fns[n := g];
    assert NumberedFn(g, vbase[n], vtop) by { assert NumberedFn(fns[n], vbase[n], NumbersEnd(vbase, vtop, n)); }
    hide NumberedFn;
    forall l | 0 <= l < |fns'|
      ensures NumberedFn(fns'[l], vbase[l], NumbersEnd(vbase, vtop, l))
    {
      assert NumberedFn(fns[l], vbase[l], NumbersEnd(vbase, vtop, l));
    }
  }

  ghost predicate FewLocals(fns: seq<Fn>) {
    forall l :: 0 <= l < |fns| ==> |fns[l].vars| <= MAX_LOCVAR
  }

  /** A new variable below the end of the numbers takes no name away. */
  lemma NewNames(fns: seq<Fn>, names: seq<string>, vbase: seq<nat>, vtop: nat, name: string)
    requires fns != [] && NamesOk(fns, names) && Numbered(fns, vbase, vtop) && vtop < NUMBERS
    ensures var n := |fns| - 1; var f := fns[n];
            NamesOk(fns[n := f.(vars := f.vars + [Var(name, vtop % NUMBERS)])], SetName(names, vtop, name))
  {
    hide Numbered;
    var n := |fns| - 1;
    var f := fns[n];
    var (fns', names') := (fns[n := f.(vars := f.vars + [Var(name, vtop % NUMBERS)])], SetName(names, vtop, name));
    forall l: nat, r: nat, v: nat | IsVar(fns', l, r, v)
      ensures v < |names'| && names'[v] == fns'[l].vars[r].name
    {
      if l < n || r < |f.vars| {
        assert IsVar(fns, l, r, v);
        NumberIn(fns, vbase, vtop, l, r, v);
        BaseBelow(fns, vbase, vtop, l);
      }
    }
  }

  // -- Names ----------------------------------------------------------------------------------------

  /** Names are kept by number: the last local of a function that goes by a name. */
  function LastNamed(names: seq<string>, vars: seq<Var>, name: string): Option<nat>
    requires InRange(names, vars)
  {
    if vars == [] then None
    else if names[vars[|vars| - 1].vidx] == name then Some(|vars| - 1)
    else LastNamed(names, vars[..|vars| - 1], name)
  }

  predicate InRange(names: seq<string>, vars: seq<Var>) {
    forall i :: 0 <= i < |vars| ==> vars[i].vidx < |names|
  }

  /** Every variable goes by the name it was declared with. */
  ghost predicate NamesOk(fns: seq<Fn>, names: seq<string>) {
    forall l: nat, r: nat, v: nat :: IsVar(fns, l, r, v) ==> v < |names| && names[v] == fns[l].vars[r].name
  }

  lemma {:induction false} NamedIsDeclared(names: seq<string>, vars: seq<Var>, name: string)
    requires forall i :: 0 <= i < |vars| ==> vars[i].vidx < |names| && names[vars[i].vidx] == vars[i].name
    ensures LastNamed(names, vars, name) == LastVar(vars, name)
  {
    if vars != [] { NamedIsDeclared(names, vars[..|vars| - 1], name); }
  }

  lemma {:induction false} LastNamedFound(names: seq<string>, vars: seq<Var>, name: string, r: nat)
    requires InRange(names, vars) && r < |vars| && names[vars[r].vidx] == name
    requires forall i :: r < i < |vars| ==> names[vars[i].vidx] != name
    ensures LastNamed(names, vars, name) == Some(r)
  {
    if r < |vars| - 1 { LastNamedFound(names, vars[..|vars| - 1], name, r); }
  }

  lemma {:induction false} NoneNamed(names: seq<string>, vars: seq<Var>, name: string)
    requires InRange(names, vars) && forall i :: 0 <= i < |vars| ==> names[vars[i].vidx] != name
    ensures LastNamed(names, vars, name) == None
  {
    if vars != [] { NoneNamed(names, vars[..|vars| - 1], name); }
  }

  /** A stack entry is written. */
  function SetName(names: seq<string>, i: nat, name: string): (r: seq<string>)
    ensures |r| >= |names| && i < |r| && r[i] == name && forall k :: 0 <= k < |names| && k != i ==> r[k] == names[k]
  {
    if i < |names| then names[i := name] else names + seq(i - |names|, _ => "") + [name]
  }

  lemma RangeKept(fns: seq<Fn>, names: seq<string>, vtop: nat, name: string)
    ensures forall l :: 0 <= l < |fns| && InRange(names, fns[l].vars) ==>
              InRange(SetName(names, vtop, name), fns[l].vars)
  {
  }

  /** What the new variable goes by. */
  lemma NewNamed(names: seq<string>, vars: seq<Var>, vtop: nat, name: string)
    requires InRange(names, vars) && vtop <= |names|
    ensures var (names', vars') := (SetName(names, vtop, name), vars + [Var(name, vtop % NUMBERS)]);
            && InRange(names', vars')
            && (LastNamed(names', vars', name) == Some(|vars|) <==>
                vtop < NUMBERS || (vtop % NUMBERS < |names| && names[vtop % NUMBERS] == name))
  {
    var names', vars' := SetName(names, vtop, name), vars + [Var(name, vtop % NUMBERS)];
    assert vars'[..|vars|] == vars;
    LastNamedIn(names', vars, name);
  }

  lemma {:induction false} LastNamedIn(names: seq<string>, vars: seq<Var>, name: string)
    requires InRange(names, vars)
    ensures LastNamed(names, vars, name).Some? ==> LastNamed(names, vars, name).value < |vars|
  {
    if vars != [] { LastNamedIn(names, vars[..|vars| - 1], name); }
  }

  /** What the stack has room for after another entry. */
  function Doubled(vtop: nat, size: nat): nat {
    if vtop < size then size else if size == 0 then 20 else 2 * size
  }

  class ScopeStack {
    var fns: seq<Fn>        // the functions being parsed, outermost first
    var vbase: seq<nat>     // numbers of their first variables
    var vtop: nat           // next number
    var size: nat           // entries there is room for
    var names: seq<string>  // names by number

    /** Every number has an entry. */
    ghost predicate Shaped()
      reads this
    {
      && |vbase| == |fns| && (forall l :: 0 <= l < |fns| ==> InRange(names, fns[l].vars) && |fns[l].vars| <= MAX_LOCVAR)
      && vtop <= |names| && (forall l :: 0 <= l < |fns| ==> vbase[l] <= |names|)
    }

    /** No number has been given twice. */
    ghost predicate Valid()
      reads this
    {
      Shaped() && Numbered(fns, vbase, vtop) && UvsOk(fns) && NamesOk(fns, names)
    }

    lemma ValidScopes()
      requires Valid()
      ensures ScopesOk(fns) && FewLocals(fns)
    {
      NumberedVars(fns, vbase, vtop);
    }

    constructor ()
      ensures Valid() && fns == [] && vtop == size == 0
    {
      fns, vbase, vtop, size, names := [], [], 0, 0, [];
    }

    /** fs_init: another function, inside those being parsed. */
    method FsInit()
      requires Shaped()
      modifies this`fns, this`vbase
      ensures Shaped() && fns == old(fns) + [Fn([], [], [])] && (old(Valid()) ==> Valid())
    {
      hide Numbered, UvsOk;
      if Numbered(fns, vbase, vtop) { InitNumbered(fns, vbase, vtop); }
      if UvsOk(fns) { InitUvs(fns); }
      fns, vbase := fns + [Fn([], [], [])], vbase + [vtop];
    }

    /** fs_finish: the innermost function is done; its numbers are free again. */
    method FsFinish() returns (uv: seq<nat>)
      requires Shaped() && fns != []
      modifies this`fns, this`vbase, this`vtop
      ensures Shaped() && fns == old(fns)[..|old(fns)| - 1] && uv == old(fns)[|old(fns)| - 1].uvtmp
      ensures old(Valid()) ==> Valid()
    {
      hide Numbered, UvsOk;
      if Numbered(fns, vbase, vtop) && UvsOk(fns) { FinishOk(fns, vbase, vtop); }
      var n := |fns| - 1;
      uv := fns[n].uvtmp;
      vtop := vbase[n];
      fns, vbase := fns[..n], vbase[..n];
    }

    /** var_new and var_add: another local of the innermost function. Room is made by
        doubling, so the limit on numbers is only looked at when room runs out. A number
        is cut to 16 bits; the variable goes by its name if and only if that leaves it
        alone, or the entry happens to have the same name. */
    method VarNew(name: string) returns (ok: bool)
      requires Shaped() && fns != []
      modifies this
      ensures !ok <==> |old(fns)[|old(fns)| - 1].vars| >= 200 || (old(vtop) >= old(size) >= 0xffc4)
      ensures Shaped() && vbase == old(vbase) && (!ok ==> unchanged(this))
      ensures ok ==>
                var n := |old(fns)| - 1; var f := old(fns)[n];
                && fns == old(fns)[n := f.(vars := f.vars + [Var(name, old(vtop) % 0x1_0000)])]
                && vtop == old(vtop) + 1 && size == Doubled(old(vtop), old(size)) &&
                    names == SetName(old(names), old(vtop), name)
      ensures ok ==>
                var n := |fns| - 1; var t := old(vtop);
                LastNamed(names, fns[n].vars, name) == Some(|fns[n].vars| - 1) <==>
                t < 0x1_0000 || (t % 0x1_0000 < |old(names)| && old(names)[t % 0x1_0000] == name)
      ensures old(Valid()) && old(vtop) < 0x1_0000 ==> Valid()
    {
      hide Numbered, UvsOk, NamesOk, SetName, LastNamed, InRange;
      var n := |fns| - 1;
      if |fns[n].vars| >= MAX_LOCVAR { return false; }
      NewNamed(names, fns[n].vars, vtop, name);
      assert forall l :: 0 <= l < n ==> InRange(SetName(names, vtop, name),
               fns[l].vars) by { RangeKept(fns, names, vtop, name); }
      if vtop >= size {
        if size >= MAX_VSTACK { return false; }
        size := if size == 0 then 20 else 2 * size;
      }
      var f := fns[n];
      var g := f.(vars := f.vars + [Var(name, vtop % NUMBERS)]);
      if UvsOk(fns) { InnerVars(fns, g); }
      if Numbered(fns, vbase, vtop) && vtop < NUMBERS { NewNumbered(fns, vbase, vtop, name); }
      ghost var was, wasNames := fns, names;
      fns, names, vtop := fns[n := g], SetName(names, vtop, name), vtop + 1;
      if old(Valid()) && old(vtop) < NUMBERS { NewNames(was, wasNames, vbase, old(vtop), name); }
      return true;
    }

    /** var_remove: the locals of a block go. */
    method VarRemove(tolevel: nat)
      requires Shaped() && fns != []
      modifies this`fns
      ensures Shaped() && (old(Valid()) ==> Valid())
      ensures var n := |old(fns)| - 1; var f := old(fns)[n];
              fns == if tolevel < |f.vars| then old(fns)[n := f.(vars := f.vars[..tolevel])] else old(fns)
    {
      hide Numbered, UvsOk;
      var n := |fns| - 1;
      if tolevel < |fns[n].vars| {
        var g := fns[n].(vars := fns[n].vars[..tolevel]);
        if UvsOk(fns) { InnerVars(fns, g); }
        if Numbered(fns, vbase, vtop) { FewerNumbered(fns, vbase, vtop, tolevel); }
        ghost var was := fns;
        fns := fns[n := g];
        assert forall l: nat, r: nat, v: nat :: IsVar(fns, l, r, v) ==>
                 IsVar(was, l, r, v) && fns[l].vars[r] == was[l].vars[r];
      }
    }

    /** var_lookup_local: names are compared through the numbers. */
    method VarLookupLocal(l: nat, name: string) returns (r: Option<nat>)
      requires Shaped() && l < |fns|
      ensures r == LastNamed(names, fns[l].vars, name)
      ensures NamesOk(fns, names) ==> r == LastVar(fns[l].vars, name)
    {
      ghost var vars := fns[l].vars;
      if NamesOk(fns, names) {
        assert forall k :: 0 <= k < |vars| ==> IsVar(fns, l, k, vars[k].vidx);
        NamedIsDeclared(names, vars, name);
      }
      var i := |fns[l].vars|;
      while i > 0
        invariant 0 <= i <= |fns[l].vars| && forall j :: i <= j < |fns[l].vars| ==> names[fns[l].vars[j].vidx] != name
      {
        i := i - 1;
        if names[fns[l].vars[i].vidx] == name {
          LastNamedFound(names, fns[l].vars, name, i);
          return Some(i);
        }
      }
      NoneNamed(names, fns[l].vars, name);
      return None;
    }

    /** var_lookup_uv: the upvalue of function l for a variable, added if there is none. */
    method VarLookupUv(l: nat, vidx: nat, e: Found) returns (r: Option<nat>)
      requires 0 < l < |fns| && ScopesOk(fns) && Leads(fns[l - 1], vidx, e)
      modifies this`fns
      ensures r.None? <==> vidx !in old(fns)[l].uvmap && |old(fns)[l].uvmap| >= 60
      ensures r.None? ==> fns == old(fns)
      ensures r.Some? ==>
                && ScopesOk(fns) && |fns| == |old(fns)| && r.value < |fns[l].uvmap| && fns[l].uvmap[r.value] == vidx
                && Grown(old(fns)[l], fns[l]) && forall m :: 0 <= m < |fns| && m != l ==> fns[m] == old(fns)[m]
    {
      var f := fns[l];
      assert FnOk(fns[l - 1], f);
      for i := 0 to |f.uvmap|
        invariant vidx !in f.uvmap[..i] && fns == old(fns)
      {
        if f.uvmap[i] == vidx { return Some(i); }
      }
      if |f.uvmap| >= MAX_UPVAL { return None; }
      var g := Fn(f.vars, f.uvmap + [vidx], f.uvtmp + [if e.InReg? then vidx else MAX_VSTACK + e.i]);
      AddUv(fns, l, g, vidx, e);
      fns := fns[l := g];
      return Some(|f.uvmap|);
    }

    /** var_lookup_: what a name is in the innermost of the first n functions;
        functions on the way get an upvalue for it. The second result is the
        number of the variable. */
    method VarLookup(n: nat, name: string) returns (st: Lookup)
      requires n <= |fns| && ScopesOk(fns) && Shaped() && NamesOk(fns, names)
      modifies this`fns
      ensures !st.TooMany? ==> Shaped() && NamesOk(fns, names)
      ensures !st.TooMany? ==>
                && ScopesOk(fns) && |fns| == |old(fns)| && (forall m :: n <= m < |fns| ==> fns[m] == old(fns)[m])
                && (forall m :: 0 <= m < n ==> Grown(old(fns)[m], fns[m]))
      ensures st.Global? ==> Scope(old(fns)[..n], name) == None
      ensures st.TooMany? ==> exists m :: 0 < m < n && |old(fns)[m].uvmap| >= 60
      ensures st.Local? ==>
                && n > 0 && Leads(fns[n - 1], st.vidx, st.found)
                && Scope(old(fns)[..n], name).Some?
                && (var (j, reg) := Scope(old(fns)[..n], name).value;
                    && j < n && reg < |fns[j].vars| && fns[j].vars[reg].vidx == st.vidx
                    && (st.found.InReg? <==> j == n - 1) && (st.found.InReg? ==> st.found.reg == reg))
    {
      hide ScopesOk, LastVar, Scope, NamesOk, InRange, LastNamed;
      AllGrown(fns);
      if n == 0 {
        ScopeNone(fns, name);
        return Global;
      }
      var reg := VarLookupLocal(n - 1, name);
      LastVarIs(fns[n - 1].vars, name);
      ScopeStep(fns, n, name);
      if reg.Some? { return Local(InReg(reg.value), fns[n - 1].vars[reg.value].vidx); }
      st := VarLookup(n - 1, name);
      if !st.Local? { return; }
      ghost var mid, d := fns, Scope(old(fns)[..n - 1], name).value;
      assert d.1 < |mid[d.0].vars| && mid[d.0].vars[d.1].vidx == st.vidx;
      var i := VarLookupUv(n - 1, st.vidx, st.found);
      if i.None? { return TooMany; }
      assert fns[d.0] == mid[d.0];
      SameVarsNamed(mid, fns, names);
      st := Local(InUpval(i.value), st.vidx);
    }

    /** var_lookup: a name in the innermost function. Whatever closures are made of the
        functions at run time, what was found is the cell of the variable that lexical
        scoping picks, if and only if that is a local of the function or has a number
        below the limit. */
    method LookupName(name: string) returns (st: Lookup)
      requires Valid() && fns != []
      modifies this`fns
      ensures !st.TooMany? ==> Valid() && |fns| == |old(fns)| && forall m :: 0 <= m < |fns| ==>
                Grown(old(fns)[m], fns[m])
      ensures st.TooMany? ==> exists m :: 0 < m < |old(fns)| && |old(fns)[m].uvmap| >= 60
      ensures st.Global? ==> Scope(old(fns), name) == None
      ensures st.Local? ==>
                && Leads(fns[|fns| - 1], st.vidx, st.found) && Scope(old(fns), name).Some?
                && (var at := Scope(old(fns), name).value;
                    && IsVar(fns, at.0, at.1, st.vidx) && (st.found.InReg? <==> at.0 == |fns| - 1)
                    && (AlwaysReached(fns, st.found, at) <==> st.found.InReg? || st.vidx < 0xffc4))
    {
      hide ScopesOk, Scope, Numbered, UvsOk, NamesOk, AlwaysReached;
      ValidScopes();
      assert fns[..|fns|] == fns;
      st := VarLookup(|fns|, name);
      if st.TooMany? { return; }
      GrownNumbered(old(fns), fns, vbase, vtop);
      UvsAre(fns);
      ValidScopes();
      if st.Local? {
        var (j, reg) := Scope(old(fns), name).value;
        FoundReached(fns, st, j, reg);
      }
    }
  }

  lemma SameVarsNamed(fns: seq<Fn>, fns': seq<Fn>, names: seq<string>)
    requires NamesOk(fns, names) && |fns'| == |fns| && forall m :: 0 <= m < |fns| ==> fns'[m].vars == fns[m].vars
    ensures NamesOk(fns', names)
  {
    assert forall l: nat, r: nat, v: nat :: IsVar(fns', l, r, v) ==> IsVar(fns, l, r, v);
  }

  datatype Lookup = Global | Local(found: Found, vidx: nat) | TooMany

  /** What was found in a function is the variable vidx. */
  predicate Leads(f: Fn, vidx: nat, e: Found) {
    match e
    case InReg(reg) => reg < |f.vars| && f.vars[reg].vidx == vidx
    case InUpval(i) => i < |f.uvmap| && f.uvmap[i] == vidx
  }

  lemma UvsAre(fns: seq<Fn>)
    requires ScopesOk(fns)
    ensures UvsOk(fns)
  {
  }

  /** The cell of a register of some function. */
  function CellAt(frames: seq<seq<nat>>, at: (nat, nat)): nat {
    if at.0 < |frames| && at.1 < |frames[at.0]| then frames[at.0][at.1] else 0
  }

  /** The cell the innermost function reaches; None is outside of what there is. */
  function Reached(e: Found, frames: seq<seq<nat>>, ups: seq<seq<Option<nat>>>): Option<nat> {
    if frames == [] || |ups| != |frames| then None
    else match e
      case InReg(reg) => var f := frames[|frames| - 1]; if reg < |f| then Some(f[reg]) else None
      case InUpval(i) => var u := ups[|ups| - 1]; if i < |u| then u[i] else None
  }

  lemma NoUvs(outer: Fn)
    ensures FnOk(outer, Fn([], [], []))
  {
  }

  lemma AllGrown(fns: seq<Fn>)
    requires ScopesOk(fns)
    ensures forall m :: 0 <= m < |fns| ==> Grown(fns[m], fns[m])
  {
    forall m | 0 <= m < |fns|
      ensures Grown(fns[m], fns[m])
    {
      if m > 0 { assert FnOk(fns[m - 1], fns[m]); }
    }
  }

  lemma AddUv(fns: seq<Fn>, l: nat, g: Fn, vidx: nat, e: Found)
    requires 0 < l < |fns| && ScopesOk(fns) && Leads(fns[l - 1], vidx, e) && |fns[l].uvmap| < MAX_UPVAL
    requires g == Fn(fns[l].vars, fns[l].uvmap + [vidx], fns[l].uvtmp + [if e.InReg? then vidx else MAX_VSTACK + e.i])
    ensures ScopesOk(fns[l := g])
  {
    var fns' := fns[l := g];
    assert forall m: nat, r: nat, v: nat :: IsVar(fns', m, r, v) <==> IsVar(fns, m, r, v);
    forall m | 0 < m < |fns'|
      ensures FnOk(fns'[m - 1], fns'[m])
    {
      assert FnOk(fns[m - 1], fns[m]);
      if m == l {
        NewUvOk(fns[l - 1], fns[l], g, vidx, e);
      } else if m - 1 == l {
        FnGrows(fns[l], g, fns[m]);
      }
    }
  }

  lemma NewUvOk(outer: Fn, f: Fn, g: Fn, vidx: nat, e: Found)
    requires FnOk(outer, f) && Leads(outer, vidx, e) && |f.uvmap| < MAX_UPVAL
    requires g == Fn(f.vars, f.uvmap + [vidx], f.uvtmp + [if e.InReg? then vidx else MAX_VSTACK + e.i])
    ensures FnOk(outer, g)
  {
    forall k | 0 <= k < |g.uvmap|
      ensures UvOk(outer, g, k)
    {
      if k < |f.uvmap| { assert UvOk(outer, f, k); }
    }
  }

  // -- Run time ----------------------------------------------------------------------------------------

  /** fs_fixup_uv2: a register of the enclosing function or an upvalue of it.
      `slot` and `rw` are what is known about variables. */
  function Fixup(v: nat, slot: nat -> nat, rw: nat -> bool): nat {
    if v >= MAX_VSTACK then v - MAX_VSTACK
    else if rw(v) then slot(v) + UV_LOCAL
    else slot(v) + UV_LOCAL + UV_IMMUTABLE
  }

  /** The cell of a reference when a closure is made: `frame` are the cells of the
      registers of the running function, `ups` those of its upvalues. None is a
      reference to something that is not there. */
  function CellOfRef(ref: nat, frame: seq<nat>, ups: seq<Option<nat>>): Option<nat> {
    if ref >= UV_LOCAL then (if ref % 256 < |frame| then Some(frame[ref % 256]) else None)
    else if ref < |ups| then ups[ref] else None
  }

  /** The codes of references: 0x8000 marks a register of the enclosing function, 0x4000
      one that is never assigned to; without the first, the number is that of an upvalue. */
  lemma ReferenceCodes(v: nat, slot: nat -> nat, rw: nat -> bool, frame: seq<nat>, ups: seq<Option<nat>>)
    requires v < 0x1_0000 && slot(v) < 256
    ensures var ref := Fixup(v, slot, rw);
            if v >= 0xffc4 then
              ref == v - 0xffc4 && CellOfRef(ref, frame, ups) == if ref < |ups| then ups[ref] else None
            else
              && ref == slot(v) + (if rw(v) then 0x8000 else 0xc000)
              && CellOfRef(ref, frame, ups) == if slot(v) < |frame| then Some(frame[slot(v)]) else None
  {
  }

  /** This is what func_new does, seen through the cells of slots and upvalues. */
  lemma FuncNewRule(v: nat, parent: seq<nat>, base: nat, env: seq<nat>, handle: seq<nat>)
    requires RefOk(v, |parent|, base, |env|) && (forall i :: 0 <= i < |parent| ==> parent[i] < |handle|)
    requires base <= |env|
    ensures var ups := seq(|parent|, i requires 0 <= i < |parent| => Some(handle[parent[i]]));
            CellOfRef(v, env[base..], ups) == Some(RefCell(v, parent, base, env, handle))
  {
  }

  /** Nested closures, each made while the function around it runs: frames[l] are
      the cells of the registers of function l at that time, ups[l] its upvalues. */
  ghost predicate Nested(fns: seq<Fn>, slot: nat -> nat, rw: nat -> bool, frames: seq<seq<nat>>,
                         ups: seq<seq<Option<nat>>>)
  {
    && |frames| == |ups| == |fns|
    && (forall l: nat, r: nat, v: nat :: IsVar(fns, l, r, v) ==> l < |frames| && slot(v) == r < 256 && r < |frames[l]|)
    && (forall l :: 0 <= l < |fns| ==> |ups[l]| == |fns[l].uvtmp|)
    && (forall l, k :: 0 < l < |fns| && 0 <= k < |ups[l]| ==> MadeBy(fns, slot, rw, frames, ups, l, k))
  }

  ghost predicate MadeBy(fns: seq<Fn>, slot: nat -> nat, rw: nat -> bool, frames: seq<seq<nat>>,
                         ups: seq<seq<Option<nat>>>, l: nat, k: nat)
  {
    && 0 < l < |fns| && |frames| == |ups| == |fns| && k < |fns[l].uvtmp| && k < |ups[l]|
    && ups[l][k] == CellOfRef(Fixup(fns[l].uvtmp[k], slot, rw), frames[l - 1], ups[l - 1])
  }

  /** In every nest of closures, what was found is the cell of the variable at that place. */
  ghost predicate AlwaysReached(fns: seq<Fn>, e: Found, at: (nat, nat)) {
    forall slot: nat -> nat, rw: nat -> bool, frames: seq<seq<nat>>, ups: seq<seq<Option<nat>>> ::
      Nested(fns, slot, rw, frames, ups) ==> Reached(e, frames, ups) == Some(CellAt(frames, at))
  }

  /** The variable of an upvalue belongs to a function further out. */
  lemma {:induction false} UvBelow(fns: seq<Fn>, l: nat, k: nat) returns (j: nat, r: nat)
    requires ScopesOk(fns) && l < |fns| && k < |fns[l].uvmap|
    ensures j < l && IsVar(fns, j, r, fns[l].uvmap[k])
    decreases l
  {
    assert l > 0;
    var o := fns[l - 1];
    assert FnOk(o, fns[l]) && UvOk(o, fns[l], k);
    if FromLocal(o, fns[l], k) {
      r :| 0 <= r < |o.vars| && o.vars[r].vidx == fns[l].uvmap[k];
      j := l - 1;
    } else {
      j, r := UvBelow(fns, l - 1, fns[l].uvtmp[k] - MAX_VSTACK);
    }
  }

  /** Where an upvalue comes from depends on where its variable is. */
  lemma UvSource(fns: seq<Fn>, l: nat, k: nat, j: nat, reg: nat)
    requires ScopesOk(fns) && l < |fns| && k < |fns[l].uvmap| && IsVar(fns, j, reg, fns[l].uvmap[k])
    ensures j < l && |fns[l].uvtmp| == |fns[l].uvmap|
    ensures j == l - 1 ==> fns[l].uvtmp[k] == fns[l].uvmap[k]
    ensures j < l - 1 ==> FromUpval(fns[l - 1], fns[l], k)
  {
    var v := fns[l].uvmap[k];
    var j', r' := UvBelow(fns, l, k);
    assert IsVar(fns, j', r', v);
    var o := fns[l - 1];
    assert FnOk(o, fns[l]) && UvOk(o, fns[l], k);
    if FromLocal(o, fns[l], k) {
      var r :| 0 <= r < |o.vars| && o.vars[r].vidx == v;
      assert IsVar(fns, l - 1, r, v);
    } else {
      var m, q := UvBelow(fns, l - 1, fns[l].uvtmp[k] - MAX_VSTACK);
      assert IsVar(fns, m, q, v);
    }
  }

  /** An upvalue for a variable with a number below the limit is the cell of the variable. */
  lemma {:induction false} UpvalueCell(fns: seq<Fn>, slot: nat -> nat, rw: nat -> bool, frames: seq<seq<nat>>,
                                       ups: seq<seq<Option<nat>>>, l: nat, k: nat, j: nat, reg: nat)
    requires ScopesOk(fns) && Nested(fns, slot, rw, frames, ups) && l < |fns| && k < |fns[l].uvmap|
    requires IsVar(fns, j, reg, fns[l].uvmap[k]) && fns[l].uvmap[k] < MAX_VSTACK
    ensures k < |ups[l]| && reg < |frames[j]| && ups[l][k] == Some(frames[j][reg])
    decreases l
  {
    UvSource(fns, l, k, j, reg);
    assert MadeBy(fns, slot, rw, frames, ups, l, k);
    if j == l - 1 {
      LocalRef(fns[l].uvtmp[k], reg, slot, rw, frames[l - 1], ups[l - 1]);
    } else {
      assert FnOk(fns[l - 2], fns[l - 1]);
      UpvalueCell(fns, slot, rw, frames, ups, l - 1, fns[l].uvtmp[k] - MAX_VSTACK, j, reg);
    }
  }

  lemma LocalRef(v: nat, r: nat, slot: nat -> nat, rw: nat -> bool, frame: seq<nat>, ups: seq<Option<nat>>)
    requires v < MAX_VSTACK && slot(v) == r < 256 && r < |frame|
    ensures CellOfRef(Fixup(v, slot, rw), frame, ups) == Some(frame[r])
  {
  }

  /** An upvalue for a variable with a larger number is an upvalue of the function that
      has the variable, or nothing. */
  lemma {:induction false} FarUpvalue(fns: seq<Fn>, slot: nat -> nat, rw: nat -> bool, frames: seq<seq<nat>>,
                                      ups: seq<seq<Option<nat>>>, l: nat, k: nat, j: nat, reg: nat)
    requires ScopesOk(fns) && Nested(fns, slot, rw, frames, ups) && l < |fns| && k < |fns[l].uvmap|
    requires IsVar(fns, j, reg, fns[l].uvmap[k]) && fns[l].uvmap[k] >= MAX_VSTACK
    ensures var i := fns[l].uvmap[k] - MAX_VSTACK;
            j < l && k < |ups[l]| && ups[l][k] == if i < |ups[j]| then ups[j][i] else None
    decreases l
  {
    UvSource(fns, l, k, j, reg);
    assert MadeBy(fns, slot, rw, frames, ups, l, k);
    assert fns[l].uvmap[k] < NUMBERS;
    if j < l - 1 {
      assert FnOk(fns[l - 2], fns[l - 1]);
      FarUpvalue(fns, slot, rw, frames, ups, l - 1, fns[l].uvtmp[k] - MAX_VSTACK, j, reg);
    }
  }

  /** The cell of an upvalue, if there is one, is a register of a function further out. */
  lemma {:induction false} FromFrames(fns: seq<Fn>, slot: nat -> nat, rw: nat -> bool, frames: seq<seq<nat>>,
                                      ups: seq<seq<Option<nat>>>, l: nat, k: nat) returns (m: nat, r: nat)
    requires Nested(fns, slot, rw, frames, ups) && UvsOk(fns) && l < |fns| && k < |ups[l]| && ups[l][k].Some?
    ensures m < l && r < |frames[m]| && ups[l][k] == Some(frames[m][r])
    decreases l
  {
    assert l > 0;
    assert MadeBy(fns, slot, rw, frames, ups, l, k);
    var ref := Fixup(fns[l].uvtmp[k], slot, rw);
    if ref >= UV_LOCAL {
      m, r := l - 1, ref % 256;
    } else {
      m, r := FromFrames(fns, slot, rw, frames, ups, l - 1, ref);
    }
  }

  // -- A nest in which all cells differ ---------------------------------------------------------------

  ghost function SlotOf(fns: seq<Fn>, v: nat): nat {
    if x: (nat, nat) :| IsVar(fns, x.0, x.1, v) then x.1 else 0
  }

  function Frame(l: nat): (f: seq<nat>)
    ensures |f| == 256 && forall r :: 0 <= r < 256 ==> f[r] == 256 * l + r
  {
    seq(256, r => 256 * l + r)
  }

  function Frames(n: nat): (fs: seq<seq<nat>>)
    ensures |fs| == n && forall l :: 0 <= l < n ==> fs[l] == Frame(l)
  {
    seq(n, l requires 0 <= l => Frame(l))
  }

  function Ups(fns: seq<Fn>, slot: nat -> nat, rw: nat -> bool, n: nat): (ups: seq<seq<Option<nat>>>)
    requires n <= |fns|
    ensures |ups| == n
  {
    if n == 0 then []
    else
      var rest := Ups(fns, slot, rw, n - 1);
      var refs := fns[n - 1].uvtmp;
      rest + [seq(|refs|, k requires 0 <= k < |refs| =>
                    CellOfRef(Fixup(refs[k], slot, rw), if n == 1 then [] else Frame(n - 2), if n == 1 then []
                        else rest[n - 2]))]
  }

  lemma {:induction false} UpsAre(fns: seq<Fn>, slot: nat -> nat, rw: nat -> bool, n: nat, l: nat)
    requires l < n <= |fns|
    ensures var ups := Ups(fns, slot, rw, n);
            && |ups[l]| == |fns[l].uvtmp|
            && forall k :: 0 <= k < |ups[l]| && l > 0 ==>
                 ups[l][k] == CellOfRef(Fixup(fns[l].uvtmp[k], slot, rw), Frame(l - 1), ups[l - 1])
  {
    if l < n - 1 { UpsAre(fns, slot, rw, n - 1, l); }
  }

  lemma SomeNest(fns: seq<Fn>, rw: nat -> bool) returns (slot: nat -> nat, ups: seq<seq<Option<nat>>>)
    requires ScopesOk(fns) && FewLocals(fns)
    ensures Nested(fns, slot, rw, Frames(|fns|), ups)
  {
    slot := v => SlotOf(fns, v);
    ups := Ups(fns, slot, rw, |fns|);
    forall l: nat, r: nat, v: nat | IsVar(fns, l, r, v)
      ensures slot(v) == r < 256
    {
      SlotIs(fns, l, r, v);
    }
    forall l | 0 <= l < |fns|
      ensures |ups[l]| == |fns[l].uvtmp|
    {
      UpsAre(fns, slot, rw, |fns|, l);
    }
    forall l, k | 0 < l < |fns| && 0 <= k < |ups[l]|
      ensures MadeBy(fns, slot, rw, Frames(|fns|), ups, l, k)
    {
      UpsAre(fns, slot, rw, |fns|, l);
    }
  }

  lemma SlotIs(fns: seq<Fn>, l: nat, r: nat, v: nat)
    requires ScopesOk(fns) && IsVar(fns, l, r, v)
    ensures SlotOf(fns, v) == r
  {
    var x := (l, r);
    assert IsVar(fns, x.0, x.1, v);
  }

  // -- Names at run time -----------------------------------------------------------------------------------

  /** The upvalue index found for a name leads to the cell of the variable that lexical
      scoping picks, at any depth, if the number of the variable is below the limit. */
  lemma NameReachesVariable(fns: seq<Fn>, vidx: nat, i: nat, j: nat, reg: nat)
    requires ScopesOk(fns) && fns != [] && vidx < MAX_VSTACK
    requires i < |fns[|fns| - 1].uvmap| && fns[|fns| - 1].uvmap[i] == vidx && IsVar(fns, j, reg, vidx)
    ensures AlwaysReached(fns, InUpval(i), (j, reg))
  {
    hide ScopesOk;
    forall slot: nat -> nat, rw: nat -> bool, frames: seq<seq<nat>>, ups: seq<seq<Option<nat>>> |
        Nested(fns, slot, rw, frames, ups)
      ensures Reached(InUpval(i), frames, ups) == Some(CellAt(frames, (j, reg)))
    {
      UpvalueCell(fns, slot, rw, frames, ups, |fns| - 1, i, j, reg);
    }
  }

  /** If it is not, there are closures that get another variable, or nothing. */
  lemma NumberTooLarge(fns: seq<Fn>, vidx: nat, i: nat, j: nat, reg: nat)
    requires ScopesOk(fns) && FewLocals(fns) && fns != [] && vidx >= MAX_VSTACK
    requires i < |fns[|fns| - 1].uvmap| && fns[|fns| - 1].uvmap[i] == vidx && IsVar(fns, j, reg, vidx)
    ensures !AlwaysReached(fns, InUpval(i), (j, reg))
  {
    hide ScopesOk;
    UvsAre(fns);
    var (l, frames) := (|fns| - 1, Frames(|fns|));
    var rw := _ => true;
    var slot, ups := SomeNest(fns, rw);
    FarUpvalue(fns, slot, rw, frames, ups, l, i, j, reg);
    if ups[l][i].Some? {
      var m, r := FromFrames(fns, slot, rw, frames, ups, j, vidx - MAX_VSTACK);
      OtherCell(m, r, j, reg);
    }
    assert Reached(InUpval(i), frames, ups) != Some(CellAt(frames, (j, reg)));
  }

  lemma OtherCell(m: nat, r: nat, j: nat, reg: nat)
    requires m < j && r < 256
    ensures 256 * m + r != 256 * j + reg
  {
  }

  lemma FoundReached(fns: seq<Fn>, st: Lookup, j: nat, reg: nat)
    requires ScopesOk(fns) && FewLocals(fns) && fns != [] && st.Local?
    requires Leads(fns[|fns| - 1], st.vidx, st.found) && IsVar(fns, j, reg, st.vidx)
    requires (st.found.InReg? <==> j == |fns| - 1) && (st.found.InReg? ==> st.found.reg == reg)
    ensures AlwaysReached(fns, st.found, (j, reg)) <==> st.found.InReg? || st.vidx < MAX_VSTACK
  {
    hide ScopesOk;
    if st.found.InReg? {
    } else if st.vidx < MAX_VSTACK {
      NameReachesVariable(fns, st.vidx, st.found.i, j, reg);
    } else {
      NumberTooLarge(fns, st.vidx, st.found.i, j, reg);
    }
  }

  // -- Scripts that reach the limits ------------------------------------------------------------------------

  /** Sizes of the stack of variables, and whether there is room for the entries so far. */
  predicate SizeOk(vtop: nat, size: nat) {
    && vtop <= size
    && size in {0, 20, 40, 80, 160, 320, 640, 1280, 2560, 5120, 10240, 20480, 40960, 81920}
  }

  /** Blocks with one variable each, one behind the other: the variables go, their
      numbers do not come back. */
  method ManyBlocks(t: ScopeStack, n: nat)
    requires t.Valid() && t.fns != [] && t.fns[|t.fns| - 1].vars == [] && t.vtop <= n <= NUMBERS
    requires SizeOk(t.vtop, t.size)
    modifies t
    ensures t.Valid() && t.fns == old(t.fns) && t.vtop == n && SizeOk(t.vtop, t.size) && |t.names| >= n
    ensures forall i :: old(t.vtop) <= i < n ==> t.names[i] == "x"
  {
    hide Numbered, UvsOk, NamesOk, LastNamed, InRange, SizeOk;
    var start := t.vtop;
    ghost var k, f := |t.fns| - 1, t.fns[|t.fns| - 1];
    while t.vtop < n
      invariant t.Valid() && t.fns == old(t.fns) && start <= t.vtop <= n && SizeOk(t.vtop, t.size)
      invariant forall i :: start <= i < t.vtop ==> t.names[i] == "x"
      decreases n - t.vtop
    {
      RoomLeft(t.vtop, t.size);
      var ok := t.VarNew("x");
      t.VarRemove(0);
      assert t.fns[k] == f;
    }
  }

  lemma RoomLeft(vtop: nat, size: nat)
    requires SizeOk(vtop, size) && vtop < NUMBERS
    ensures !(vtop >= size >= MAX_VSTACK) && SizeOk(vtop + 1, Doubled(vtop, size))
  {
  }

  /** Upvalues of a function inside one with one variable are all that variable. */
  lemma OnlyUpvalue(fns: seq<Fn>)
    requires ScopesOk(fns) && |fns| == 2 && |fns[0].vars| == 1
    ensures forall k :: 0 <= k < |fns[1].uvmap| ==> fns[1].uvmap[k] == fns[0].vars[0].vidx
  {
    hide ScopesOk;
    forall k | 0 <= k < |fns[1].uvmap|
      ensures fns[1].uvmap[k] == fns[0].vars[0].vidx
    {
      var j, r := UvBelow(fns, 1, k);
    }
  }

  lemma TwoScopes(fns: seq<Fn>)
    requires |fns| == 3 && |fns[0].vars| == |fns[1].vars| == 1 && fns[2].vars == []
    requires fns[0].vars[0].name == "w" && fns[1].vars[0].name == "a"
    ensures Scope(fns, "w") == Some((0, 0)) && Scope(fns, "a") == Some((1, 0))
  {
    forall name: string
      ensures Scope(fns, name) == Scope(fns[..2], name)
      ensures Scope(fns[..2], name) == if name == "a" then Some((1, 0)) else Scope(fns[..1], name)
      ensures Scope(fns[..1], name) == if name == "w" then Some((0, 0)) else None
    {
      assert fns[..3] == fns;
      ScopeStep(fns, 3, name);
      ScopeStep(fns, 2, name);
      ScopeStep(fns, 1, name);
      ScopeNone(fns, name);
    }
  }

  /** The reference to the variable with the number at the limit is the first upvalue. */
  lemma FirstUpvalue(fns: seq<Fn>, i: nat)
    requires ScopesOk(fns) && |fns| == 3 && IsVar(fns, 0, 0, 0) && IsVar(fns, 1, 0, MAX_VSTACK)
    requires |fns[1].uvmap| > 0 && fns[1].uvmap[0] == 0 && i < |fns[2].uvmap| && fns[2].uvmap[i] == MAX_VSTACK
    ensures AlwaysReached(fns, InUpval(i), (0, 0))
  {
    hide ScopesOk;
    forall slot: nat -> nat, rw: nat -> bool, frames: seq<seq<nat>>, ups: seq<seq<Option<nat>>> |
        Nested(fns, slot, rw, frames, ups)
      ensures Reached(InUpval(i), frames, ups) == Some(CellAt(frames, (0, 0)))
    {
      FarUpvalue(fns, slot, rw, frames, ups, 2, i, 1, 0);
      UpvalueCell(fns, slot, rw, frames, ups, 1, 0, 0, 0);
    }
  }

  /** A function that uses a variable w of the function around it. */
  method TakesOuter() returns (t: ScopeStack)
    ensures t.Valid() && |t.fns| == 2 && t.fns[0].vars == [Var("w", 0)] && t.fns[1].vars == [] && |t.fns[1].uvmap| == 1
    ensures t.fns[1].uvmap[0] == 0 && SizeOk(t.vtop, t.size) && t.vtop == 1 && fresh(t)
  {
    hide Numbered, UvsOk, NamesOk, AlwaysReached, ScopesOk, Scope;
    t := new ScopeStack();
    t.FsInit();
    var ok := t.VarNew("w");
    t.FsInit();
    OneScope(t.fns);
    assert t.fns[1].uvmap == [];
    var outer := t.LookupName("w");
    t.ValidScopes();
    OnlyUpvalue(t.fns);
  }

  /** Then it has a variable a with the first number over the limit. A function inside
      that uses a gets w. */
  method LimitReached() returns (t: ScopeStack, st: Lookup)
    ensures t.Valid() && |t.fns| == 3 && Scope(t.fns, "w") == Some((0, 0)) && Scope(t.fns, "a") == Some((1, 0))
    ensures st.Local? && st.found.InUpval? && st.vidx == 0xffc4 && Leads(t.fns[2], st.vidx, st.found)
    ensures AlwaysReached(t.fns, st.found, (0, 0)) && !AlwaysReached(t.fns, st.found, (1, 0))
  {
    hide Numbered, UvsOk, NamesOk, AlwaysReached, ScopesOk, Scope;
    t := TakesOuter();
    ManyBlocks(t, MAX_VSTACK);
    var ok := t.VarNew("a");
    t.FsInit();
    ghost var fns := t.fns;
    TwoScopes(fns);
    assert forall m :: 0 < m < 3 ==> |fns[m].uvmap| < MAX_UPVAL;
    st := t.LookupName("a");
    assert forall m :: 0 <= m < 3 ==> Grown(fns[m], t.fns[m]);
    t.ValidScopes();
    TwoScopes(t.fns);
    FirstUpvalue(t.fns, st.found.i);
  }

  lemma OneScope(fns: seq<Fn>)
    requires |fns| == 2 && |fns[0].vars| == 1 && fns[1].vars == [] && fns[0].vars[0].name == "w"
    ensures Scope(fns, "w") == Some((0, 0))
  {
    assert fns[..2] == fns;
    ScopeStep(fns, 2, "w");
    ScopeStep(fns, 1, "w");
  }

  /** The number behind the last one is 0 again: the new variable b goes by the name of
      another one that is gone. */
  method NumbersWrap() returns (t: ScopeStack, b: Option<nat>, x: Option<nat>)
    ensures t.Shaped() && t.fns == [Fn([Var("b", 0)], [], [])]
    ensures LastVar(t.fns[0].vars, "b") == Some(0) && b == None
    ensures LastVar(t.fns[0].vars, "x") == None && x == Some(0)
  {
    hide Numbered, UvsOk, NamesOk, LastNamed, LastVar, SetName;
    t := new ScopeStack();
    t.FsInit();
    ManyBlocks(t, NUMBERS);
    ghost var names := t.names;
    var ok := t.VarNew("b");
    assert t.fns[0].vars == [Var("b", 0)];
    assert t.fns == [Fn([Var("b", 0)], [], [])];
    assert names[0] == "x" && t.names == SetName(names, NUMBERS, "b");
    SetOther(names, NUMBERS, "b", 0);
    var v := Var("b", 0);
    OneVar(t.names, v, "b");
    OneVar(t.names, v, "x");
    b := t.VarLookupLocal(0, "b");
    x := t.VarLookupLocal(0, "x");
  }

  lemma SetOther(names: seq<string>, i: nat, name: string, k: nat)
    requires k < |names| && k != i
    ensures k < |SetName(names, i, name)| && SetName(names, i, name)[k] == names[k]
  {
  }

  /** A function with one variable. */
  lemma OneVar(names: seq<string>, v: Var, name: string)
    requires v.vidx < |names|
    ensures InRange(names, [v])
    ensures LastNamed(names, [v], name) == if names[v.vidx] == name then Some(0) else None
    ensures LastVar([v], name) == if v.name == name then Some(0) else None
  {
    assert [v][..0] == [];
  }
}
