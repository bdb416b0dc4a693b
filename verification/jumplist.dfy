/** Instructions as the parser stores them, and jump lists threaded through the
    D fields of unfinished jumps. */
module JumpList {

  const BCMAX_D: nat := 0xffff
  const BCBIAS_J: nat := 0x8000
  const NO_JMP: nat := 0xffff_ffff

  /** One bytecode instruction in its two formats; D is B and C taken together. */
  datatype BCIns = AD(op: nat, a: nat, d: nat) | ABC(op: nat, a: nat, b: nat, c: nat) {
    function D(): nat {
      if AD? then d else b * 256 + c
    }
  }

  type Bytecode = seq<BCIns>

  /** Next element of the list through pc; offset -1 ends it. */
  function Next(bc: Bytecode, pc: nat): nat
    requires pc < |bc|
  {
    if bc[pc].D() == BCBIAS_J - 1 then NO_JMP
    else if pc + 1 + bc[pc].D() >= BCBIAS_J then pc + 1 + bc[pc].D() - BCBIAS_J
    else NO_JMP  // below position 0: not a position, never linked
  }

  /** ps are the elements of the list that starts at h. */
  predicate IsList(bc: Bytecode, h: nat, ps: seq<nat>)
    decreases |ps|
  {
    if ps == [] then h == NO_JMP
    else h == ps[0] && h != NO_JMP && h < |bc| && IsList(bc, Next(bc, h), ps[1..])
  }

  /** The first n elements of the list that starts at h. */
  function Follow(bc: Bytecode, h: nat, n: nat): seq<nat>
    decreases n
  {
    if n == 0 || h == NO_JMP || h >= |bc| then [] else [h] + Follow(bc, Next(bc, h), n - 1)
  }

  /** The elements of a list; a well-formed one has at most |bc| of them. */
  function ListOf(bc: Bytecode, h: nat): seq<nat> {
    Follow(bc, h, |bc|)
  }

  predicate WfList(bc: Bytecode, h: nat) {
    IsList(bc, h, ListOf(bc, h))
  }

  function Elems(bc: Bytecode, h: nat): set<nat> {
    set p | p in ListOf(bc, h)
  }

  // -- A list determines its elements ------------------------------------------------------

  lemma {:induction false} ListUnique(bc: Bytecode, h: nat, ps: seq<nat>, qs: seq<nat>)
    requires IsList(bc, h, ps) && IsList(bc, h, qs)
    ensures ps == qs
    decreases |ps|
  {
    if ps != [] {
      ListUnique(bc, Next(bc, h), ps[1..], qs[1..]);
      assert ps == [h] + ps[1..] && qs == [h] + qs[1..];
    }
  }

  lemma {:induction false} ListAt(bc: Bytecode, h: nat, ps: seq<nat>, i: nat)
    requires IsList(bc, h, ps) && i < |ps|
    ensures ps[i] < |bc| && IsList(bc, ps[i], ps[i..])
    ensures Next(bc, ps[i]) == if i + 1 < |ps| then ps[i + 1] else NO_JMP
    decreases |ps|
  {
    if i == 0 {
      assert ps[0..] == ps;
    } else {
      ListAt(bc, Next(bc, h), ps[1..], i - 1);
      assert ps[1..][i - 1..] == ps[i..];
    }
  }

  /** No element occurs twice: a list that came back would never end. */
  lemma ListDistinct(bc: Bytecode, h: nat, ps: seq<nat>, i: nat, j: nat)
    requires IsList(bc, h, ps) && i < j < |ps|
    ensures ps[i] != ps[j]
  {
    if ps[i] == ps[j] {
      ListAt(bc, h, ps, i);
      ListAt(bc, h, ps, j);
      ListUnique(bc, ps[i], ps[i..], ps[j..]);
    }
  }

  lemma {:induction false} Pigeonhole(ps: seq<nat>, n: nat)
    requires forall i, j :: 0 <= i < j < |ps| ==> ps[i] != ps[j]
    requires forall i :: 0 <= i < |ps| ==> ps[i] < n
    ensures |ps| <= n
    decreases n
  {
    if |ps| > 0 {
      assert ps[0] < n;
      if k :| 0 <= k < |ps| && ps[k] == n - 1 {
        var qs := ps[..k] + ps[k + 1..];
        forall i | 0 <= i < |qs|
          ensures qs[i] < n - 1
        {
          assert qs[i] == if i < k then ps[i] else ps[i + 1];
        }
        forall i, j | 0 <= i < j < |qs|
          ensures qs[i] != qs[j]
        {
          assert qs[i] == if i < k then ps[i] else ps[i + 1];
          assert qs[j] == if j < k then ps[j] else ps[j + 1];
        }
        Pigeonhole(qs, n - 1);
      } else {
        Pigeonhole(ps, n - 1);
      }
    }
  }

  lemma {:induction false} FollowIs(bc: Bytecode, h: nat, ps: seq<nat>, n: nat)
    requires IsList(bc, h, ps) && |ps| <= n
    ensures Follow(bc, h, n) == ps
    decreases n
  {
    if ps != [] {
      FollowIs(bc, Next(bc, h), ps[1..], n - 1);
      assert ps == [h] + ps[1..];
    }
  }

  lemma ListIs(bc: Bytecode, h: nat, ps: seq<nat>)
    requires IsList(bc, h, ps)
    ensures WfList(bc, h) && ListOf(bc, h) == ps && Elems(bc, h) == set p | p in ps
    ensures forall i, j :: 0 <= i < j < |ps| ==> ps[i] != ps[j]
    ensures forall p :: p in ps ==> p < |bc|
  {
    forall i, j | 0 <= i < j < |ps|
      ensures ps[i] != ps[j]
    {
      ListDistinct(bc, h, ps, i, j);
    }
    forall i | 0 <= i < |ps|
      ensures ps[i] < |bc|
    {
      ListAt(bc, h, ps, i);
    }
    Pigeonhole(ps, |bc|);
    FollowIs(bc, h, ps, |bc|);
  }

  lemma NextSame(bc: Bytecode, bc': Bytecode, pc: nat)
    requires pc < |bc| && pc < |bc'| && bc[pc].D() == bc'[pc].D()
    ensures Next(bc, pc) == Next(bc', pc)
  {
  }

  /** One step along a list. */
  lemma ListStep(bc: Bytecode, h: nat, ps: seq<nat>, k: nat)
    requires k <= |ps| && IsList(bc, h, ps[k..])
    ensures h == NO_JMP <==> k == |ps|
    ensures k < |ps| ==> h == ps[k] && h < |bc| && IsList(bc, Next(bc, h), ps[k + 1..])
  {
    if k < |ps| {
      assert ps[k..][1..] == ps[k + 1..];
    }
  }

  lemma EmptyList(bc: Bytecode)
    ensures WfList(bc, NO_JMP) && ListOf(bc, NO_JMP) == [] && Elems(bc, NO_JMP) == {}
  {
    ListIs(bc, NO_JMP, []);
  }

  lemma SingleList(bc: Bytecode, j: nat)
    requires j < |bc| && j != NO_JMP && bc[j].D() == BCBIAS_J - 1
    ensures WfList(bc, j) && ListOf(bc, j) == [j] && Elems(bc, j) == {j}
  {
    ListIs(bc, j, [j]);
  }

  lemma HeadIsElem(bc: Bytecode, h: nat)
    requires WfList(bc, h) && h != NO_JMP
    ensures h in Elems(bc, h)
  {
    assert ListOf(bc, h)[0] == h;
  }

  // -- Frame: a list only depends on the D fields of its elements ------------------------------

  lemma {:induction false} ListKept(bc: Bytecode, bc': Bytecode, h: nat, ps: seq<nat>)
    requires IsList(bc, h, ps)
    requires forall p :: p in ps ==> p < |bc| && p < |bc'| && bc'[p].D() == bc[p].D()
    ensures IsList(bc', h, ps)
    decreases |ps|
  {
    if ps != [] {
      assert ps[0] in ps;
      assert forall p :: p in ps[1..] ==> p in ps;
      ListKept(bc, bc', Next(bc, h), ps[1..]);
    }
  }

  lemma ElemsKept(bc: Bytecode, bc': Bytecode, h: nat)
    requires WfList(bc, h)
    requires forall p :: p in Elems(bc, h) ==> p < |bc| && p < |bc'| && bc'[p].D() == bc[p].D()
    ensures WfList(bc', h) && Elems(bc', h) == Elems(bc, h) && ListOf(bc', h) == ListOf(bc, h)
  {
    var ps := ListOf(bc, h);
    assert forall p :: p in ps ==> p in Elems(bc, h);
    ListKept(bc, bc', h, ps);
    ListIs(bc', h, ps);
  }

  // -- Linking -------------------------------------------------------------------------------------

  /** The D field that makes pc lead to dest, if the distance fits. */
  function Offset(pc: nat, dest: nat): int {
    dest - (pc + 1) + BCBIAS_J
  }

  predicate Reachable(pc: nat, dest: nat) {
    0 <= Offset(pc, dest) <= BCMAX_D
  }

  /** The end marker is not a link: no list links an element to itself. */
  lemma LinkIsNext(bc: Bytecode, pc: nat, dest: nat)
    requires pc < |bc| && Reachable(pc, dest) && bc[pc].D() == Offset(pc, dest)
    ensures Next(bc, pc) == (if dest == pc then NO_JMP else dest)
  {
  }

  /** Linking the last element of one list to another, disjoint list concatenates them. */
  lemma {:induction false} LinkAppends(bc: Bytecode, bc': Bytecode, h: nat, ps: seq<nat>, g: nat, qs: seq<nat>)
    requires IsList(bc, h, ps) && ps != [] && IsList(bc, g, qs) && qs != []
    requires forall p :: p in ps ==> p !in qs
    requires |bc'| == |bc| && forall p :: 0 <= p < |bc| && p != ps[|ps| - 1] ==> bc'[p].D() == bc[p].D()
    requires ps[|ps| - 1] < |bc| && Next(bc', ps[|ps| - 1]) == g
    ensures IsList(bc', h, ps + qs)
    decreases |ps|
  {
    var last := ps[|ps| - 1];
    if |ps| == 1 {
      ListIs(bc, g, qs);
      assert last in ps;
      ListKept(bc, bc', g, qs);
      assert (ps + qs)[1..] == qs;
    } else {
      ListDistinct(bc, h, ps, 0, |ps| - 1);
      assert ps[1..][|ps| - 2] == last;
      assert forall p :: p in ps[1..] ==> p in ps;
      LinkAppends(bc, bc', Next(bc, h), ps[1..], g, qs);
      assert (ps + qs)[1..] == ps[1..] + qs;
    }
  }

  lemma ListHead(bc: Bytecode, h: nat)
    requires WfList(bc, h)
    ensures if h == NO_JMP then ListOf(bc, h) == [] && Elems(bc, h) == {}
            else ListOf(bc, h) != [] && ListOf(bc, h)[0] == h && h in Elems(bc, h)
  {
  }

  lemma InElems(bc: Bytecode, h: nat, p: nat)
    ensures p in ListOf(bc, h) <==> p in Elems(bc, h)
  {
  }

  /** Whoever links the last element of h to g has concatenated the lists. */
  lemma LinkJoins(bc: Bytecode, bc': Bytecode, h: nat, g: nat)
    requires WfList(bc, h) && WfList(bc, g) && h != NO_JMP && g != NO_JMP && Elems(bc, h) !! Elems(bc, g)
    requires var ps := ListOf(bc, h); ps != [] && var last := ps[|ps| - 1];
             && |bc'| == |bc| && last < |bc| && Reachable(last, g) && bc'[last].D() == Offset(last, g)
             && forall p :: 0 <= p < |bc| && p != last ==> bc'[p].D() == bc[p].D()
    ensures WfList(bc', h) && ListOf(bc', h) == ListOf(bc, h) + ListOf(bc, g)
    ensures Elems(bc', h) == Elems(bc, h) + Elems(bc, g)
  {
    hide Follow, Next;
    var (ps, qs) := (ListOf(bc, h), ListOf(bc, g));
    ListHead(bc, g);
    assert forall p :: p in ps ==> p in Elems(bc, h);
    assert forall p :: p in qs ==> p in Elems(bc, g);
    assert ps[|ps| - 1] in ps && g in qs;
    LinkIsNext(bc', ps[|ps| - 1], g);
    LinkAppends(bc, bc', h, ps, g, qs);
    ListIs(bc', h, ps + qs);
  }
}
