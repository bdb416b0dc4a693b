/** Upvalues: open ones share a stack slot, closed ones own their value. */
module Upvals {
  import opened Values

  /** An upvalue; `tv` counts once it is closed, the links and the slot while it is open. */
  datatype Upval = Upval(closed: bool, slot: nat, tv: Val, nextgc: Option<nat>, prev: nat, next: nat)

  // -- The sorted open list ------------------------------------------------------------------

  function First(s: seq<nat>, i: nat): Option<nat> {
    if i < |s| then Some(s[i]) else None
  }

  /** `opens` is the list from `head`, sorted by slot from the top down. */
  ghost predicate OpenList(us: seq<Upval>, head: Option<nat>, opens: seq<nat>) {
    && (forall i :: 0 <= i < |opens| ==> 0 < opens[i] < |us| && !us[opens[i]].closed)
    && head == First(opens, 0)
    && (forall i :: 0 <= i < |opens| ==> us[opens[i]].nextgc == First(opens, i + 1))
    && Sorted(us, opens)
  }

  ghost predicate Sorted(us: seq<Upval>, opens: seq<nat>)
    requires forall i :: 0 <= i < |opens| ==> opens[i] < |us|
  {
    forall i, j :: 0 <= i < j < |opens| ==> us[opens[i]].slot > us[opens[j]].slot
  }

  // -- The ring ----------------------------------------------------------------------------------

  /** Neighbours in `c` are linked both ways. */
  ghost predicate Chain(us: seq<Upval>, c: seq<nat>) {
    && (forall i :: 0 <= i < |c| ==> c[i] < |us|)
    && (forall i :: 0 <= i < |c| - 1 ==> us[c[i]].next == c[i + 1] && us[c[i + 1]].prev == c[i])
  }

  ghost predicate Distinct(s: seq<nat>) {
    forall i, j :: 0 <= i < j < |s| ==> s[i] != s[j]
  }

  /** `ring` is the doubly linked list anchored at element 0. */
  ghost predicate Ring(us: seq<Upval>, ring: seq<nat>) {
    Chain(us, [0] + ring + [0]) && Distinct(ring) && forall i :: 0 <= i < |ring| ==> ring[i] != 0
  }

  /** A new element behind the anchor. */
  function RingPush(us: seq<Upval>, u: Upval): (r: seq<Upval>)
    requires |us| > 0 && us[0].next < |us|
    ensures |r| == |us| + 1
  {
    var uv := |us|;
    var s := us + [u.(prev := 0, next := us[0].next)];
    var s1 := s[s[uv].next := s[s[uv].next].(prev := uv)];
    s1[0 := s1[0].(next := uv)]
  }

  /** Only ring links differ. */
  ghost predicate OnlyRing(us: seq<Upval>, us': seq<Upval>) {
    && |us| <= |us'|
    && forall i :: 0 <= i < |us| ==>
         && us'[i].closed == us[i].closed && us'[i].slot == us[i].slot && us'[i].tv == us[i].tv
         && us'[i].nextgc == us[i].nextgc
  }

  lemma PushIs(us: seq<Upval>, u: Upval)
    requires |us| > 0 && us[0].next < |us|
    ensures var r := RingPush(us, u); var n := us[0].next;
            && r[|us|] == u.(prev := 0, next := n) && r[0].next == |us| && r[n].prev == |us|
            && (n != 0 ==> r[n].next == us[n].next && r[0].prev == us[0].prev)
            && (forall i :: 0 <= i < |us| && i != 0 && i != n ==> r[i] == us[i])
            && OnlyRing(us, r)
  {
  }

  lemma PushRing(us: seq<Upval>, u: Upval, ring: seq<nat>)
    requires Ring(us, ring) && |us| > 0
    ensures us[0].next < |us| && Ring(RingPush(us, u), [|us|] + ring)
  {
    hide RingPush;
    var c := [0] + ring + [0];
    assert c[0] == 0 && us[c[0]].next == c[1];
    PushIs(us, u);
    var r, uv := RingPush(us, u), |us|;
    assert forall i :: 0 <= i < |ring| ==> ring[i] == c[i + 1];
    var c' := [0] + ([uv] + ring) + [0];
    forall i | 0 <= i < |c'|
      ensures c'[i] < |r|
    {
      if i >= 2 { assert c'[i] == c[i - 1]; }
    }
    forall i | 0 <= i < |c'| - 1
      ensures r[c'[i]].next == c'[i + 1] && r[c'[i + 1]].prev == c'[i]
    {
      if i >= 2 {
        assert c'[i] == c[i - 1] && c'[i + 1] == c[i];
      } else if i == 1 {
        assert c'[1] == uv && c'[2] == c[1];
      }
    }
  }

  /** unlinkupval. */
  function Unlink(us: seq<Upval>, uv: nat): (r: seq<Upval>)
    requires uv < |us| && us[uv].next < |us| && us[uv].prev < |us|
    ensures |r| == |us|
  {
    var s := us[us[uv].next := us[us[uv].next].(prev := us[uv].prev)];
    s[us[uv].prev := s[us[uv].prev].(next := us[uv].next)]
  }

  function Without(s: seq<nat>, k: nat): (r: seq<nat>)
    requires k < |s|
    ensures |r| == |s| - 1
    ensures (forall i :: 0 <= i < k ==> r[i] == s[i]) && (forall i :: k <= i < |r| ==> r[i] == s[i + 1])
  {
    s[..k] + s[k + 1..]
  }

  lemma UnlinkIs(us: seq<Upval>, uv: nat)
    requires uv < |us| && us[uv].next < |us| && us[uv].prev < |us| && us[uv].next != uv && us[uv].prev != uv
    ensures var r := Unlink(us, uv); var (n, p) := (us[uv].next, us[uv].prev);
            && r[n].prev == p && r[p].next == n && r[uv] == us[uv]
            && (n != p ==> r[n].next == us[n].next && r[p].prev == us[p].prev)
            && (forall i :: 0 <= i < |us| && i != n && i != p ==> r[i] == us[i])
            && OnlyRing(us, r)
  {
  }

  lemma UnlinkRing(us: seq<Upval>, ring: seq<nat>, k: nat)
    requires Ring(us, ring) && k < |ring|
    ensures var uv := ring[k];
            && uv < |us| && us[uv].next < |us| && us[uv].prev < |us| && us[uv].next != uv && us[uv].prev != uv
            && Ring(Unlink(us, uv), Without(ring, k))
  {
    hide Unlink, Without;
    var c, uv := [0] + ring + [0], ring[k];
    assert c[k + 1] == uv && us[c[k]].next == c[k + 1] && us[c[k + 1]].next == c[k + 2] &&
             us[c[k + 2]].prev == c[k + 1];
    RingDistinct(ring, k);
    UnlinkIs(us, uv);
    var r := Unlink(us, uv);
    var ring' := Without(ring, k);
    var c' := [0] + ring' + [0];
    forall i | 0 <= i < |c'|
      ensures c'[i] < |r|
    {
      assert c'[i] == if i <= k then c[i] else c[i + 1];
    }
    forall i | 0 <= i < |c'| - 1
      ensures r[c'[i]].next == c'[i + 1] && r[c'[i + 1]].prev == c'[i]
    {
      UnlinkStep(us, ring, k, i);
    }
  }

  lemma RingDistinct(ring: seq<nat>, k: nat)
    requires Distinct(ring) && k < |ring| && forall i :: 0 <= i < |ring| ==> ring[i] != 0
    ensures var c := [0] + ring + [0]; c[k] != c[k + 1] && c[k + 2] != c[k + 1]
    ensures Distinct(Without(ring, k)) && forall i :: 0 <= i < |Without(ring, k)| ==> Without(ring, k)[i] != 0
  {
    hide Without;
  }

  lemma UnlinkStep(us: seq<Upval>, ring: seq<nat>, k: nat, i: nat)
    requires Ring(us, ring) && k < |ring| && i < |ring|
    requires var uv := ring[k]; uv < |us| && us[uv].next < |us| && us[uv].prev < |us|
    ensures var r := Unlink(us, ring[k]); var c' := [0] + Without(ring, k) + [0];
            c'[i] < |r| && c'[i + 1] < |r| && r[c'[i]].next == c'[i + 1] && r[c'[i + 1]].prev == c'[i]
  {
    hide Unlink, Without;
    var c, uv := [0] + ring + [0], ring[k];
    var c' := [0] + Without(ring, k) + [0];
    assert c[k + 1] == uv && us[c[k]].next == c[k + 1] && us[c[k + 1]].next == c[k + 2] &&
             us[c[k + 2]].prev == c[k + 1];
    assert us[c[k + 1]].prev == c[k];
    RingDistinct(ring, k);
    UnlinkIs(us, uv);
    assert c'[i] == if i <= k then c[i] else c[i + 1];
    assert c'[i + 1] == if i + 1 <= k then c[i + 1] else c[i + 2];
    if i < k {
      assert us[c[i]].next == c[i + 1] && us[c[i + 1]].prev == c[i];
    } else if i > k {
      assert us[c[i + 1]].next == c[i + 2] && us[c[i + 2]].prev == c[i + 1];
    }
  }

  // -- Inserting into the open list ----------------------------------------------------------------

  function PutAt(s: seq<nat>, k: nat, x: nat): (r: seq<nat>)
    requires k <= |s|
    ensures |r| == |s| + 1 && r[k] == x
    ensures (forall i :: 0 <= i < k ==> r[i] == s[i]) && (forall i :: k < i < |r| ==> r[i] == s[i - 1])
  {
    s[..k] + [x] + s[k..]
  }

  /** The list fields of the old upvalues are the same, except for the link at `pred`. */
  ghost predicate Relinked(us: seq<Upval>, us': seq<Upval>, opens: seq<nat>, k: nat, x: nat) {
    && |us| <= |us'| && k <= |opens|
    && (forall i :: 0 <= i < |opens| ==> opens[i] < |us|)
    && (forall i :: 0 <= i < |us| ==> us'[i].closed == us[i].closed && us'[i].slot == us[i].slot)
    && (forall i :: 0 <= i < |opens| ==> us'[opens[i]].nextgc == if i + 1 == k then Some(x) else us[opens[i]].nextgc)
  }

  lemma OpenInsert(us: seq<Upval>, head: Option<nat>, opens: seq<nat>, us': seq<Upval>, k: nat, x: nat, slot: nat)
    requires OpenList(us, head, opens) && Relinked(us, us', opens, k, x) && |us| <= x < |us'| && x > 0
    requires !us'[x].closed && us'[x].slot == slot && us'[x].nextgc == First(opens, k)
    requires forall i :: 0 <= i < k ==> us[opens[i]].slot > slot
    requires k < |opens| ==> us[opens[k]].slot < slot
    ensures OpenList(us', if k == 0 then Some(x) else head, PutAt(opens, k, x))
  {
    hide PutAt;
    var r := PutAt(opens, k, x);
    forall i | 0 <= i < |r|
      ensures 0 < r[i] < |us'| && !us'[r[i]].closed && us'[r[i]].nextgc == First(r, i + 1)
    {
      if i < k { assert us'[r[i]].closed == us[opens[i]].closed; }
      if i > k { assert us'[r[i]].closed == us[opens[i - 1]].closed; }
    }
    forall i, j | 0 <= i < j < |r|
      ensures us'[r[i]].slot > us'[r[j]].slot
    {
      SortedPut(us, opens, us', k, x, slot, i, j);
    }
  }

  lemma SortedPut(us: seq<Upval>, opens: seq<nat>, us': seq<Upval>, k: nat, x: nat, slot: nat, i: nat, j: nat)
    requires Relinked(us, us', opens, k, x) && x < |us'| && us'[x].slot == slot && Sorted(us, opens)
    requires (forall i :: 0 <= i < k ==> us[opens[i]].slot > slot) && (k < |opens| ==> us[opens[k]].slot < slot)
    requires i < j <= |opens| && PutAt(opens, k, x)[i] < |us'| && PutAt(opens, k, x)[j] < |us'|
    ensures us'[PutAt(opens, k, x)[i]].slot > us'[PutAt(opens, k, x)[j]].slot
  {
    hide PutAt;
    var r := PutAt(opens, k, x);
    if i < k && j < k {
      assert us[opens[i]].slot > us[opens[j]].slot;
    } else if i < k && j > k {
      assert us[opens[i]].slot > us[opens[j - 1]].slot;
    } else if i == k && j > k + 1 {
      assert us[opens[k]].slot > us[opens[j - 1]].slot;
    } else if i > k {
      assert us[opens[i - 1]].slot > us[opens[j - 1]].slot;
    }
  }

  // -- Both lists, and what upvalues stand for -----------------------------------------------------------

  /** The two lists hold the open upvalues, and these point into the stack. */
  ghost predicate ListsOk(us: seq<Upval>, height: nat, head: Option<nat>, opens: seq<nat>, ring: seq<nat>) {
    && |us| > 0 && OpenList(us, head, opens) && Ring(us, ring)
    && (forall u :: u in opens <==> u in ring)
    && (forall u :: 0 < u < |us| && !us[u].closed ==> u in opens && us[u].slot < height)
  }

  ghost function ValueOf(stack: seq<Val>, u: Upval): Val
    requires !u.closed ==> u.slot < |stack|
  {
    if u.closed then u.tv else stack[u.slot]
  }

  /** An upvalue stands for cell c: an open one for the cell of its slot, a
      closed one for a cell no slot has. */
  ghost predicate CellOk(stack: seq<Val>, u: Upval, cells: seq<Val>, env: seq<nat>, c: nat) {
    && |env| == |stack| && (!u.closed ==> u.slot < |stack|)
    && c < |cells| && cells[c] == ValueOf(stack, u)
    && (if u.closed then c !in env else c == env[u.slot])
  }

  /** Slots hold the values of their cells, upvalues stand for cells, and
      different slots and different upvalues have different cells. */
  ghost predicate CellsOk(stack: seq<Val>, us: seq<Upval>, cells: seq<Val>, env: seq<nat>, handle: seq<nat>) {
    && |env| == |stack| && |handle| == |us| && Distinct(env)
    && (forall u, w :: 0 < u < w < |us| ==> handle[u] != handle[w])
    && (forall s :: 0 <= s < |env| ==> env[s] < |cells| && cells[env[s]] == stack[s])
    && (forall u :: 0 < u < |us| ==> CellOk(stack, us[u], cells, env, handle[u]))
  }

  /** Only the links differ. */
  ghost predicate SameCells(us: seq<Upval>, us': seq<Upval>) {
    |us| <= |us'| && forall u :: 0 < u < |us| ==>
        us'[u].closed == us[u].closed && us'[u].slot == us[u].slot && us'[u].tv == us[u].tv
  }

  lemma CellsLen(stack: seq<Val>, us: seq<Upval>, cells: seq<Val>, env: seq<nat>, handle: seq<nat>)
    requires CellsOk(stack, us, cells, env, handle)
    ensures |env| == |stack| && |handle| == |us|
  {
  }

  /** A new open upvalue stands for the cell of its slot. */
  lemma AddCells(stack: seq<Val>, us: seq<Upval>, us': seq<Upval>, cells: seq<Val>, env: seq<nat>, handle: seq<nat>,
                 slot: nat)
    requires CellsOk(stack, us, cells, env, handle) && SameCells(us, us') && |us'| == |us| + 1 && |us| > 0
    requires slot < |stack|
    requires !us'[|us|].closed && us'[|us|].slot == slot
    requires forall u :: 0 < u < |us| && !us[u].closed ==> us[u].slot != slot
    ensures CellsOk(stack, us', cells, env, handle + [env[slot]])
  {
    hide CellOk;
    var handle' := handle + [env[slot]];
    forall u | 0 < u < |us'|
      ensures CellOk(stack, us'[u], cells, env, handle'[u])
    {
      if u < |us| { SameCell(stack, us[u], us'[u], cells, env, handle[u]); }
          else { OpenCell(stack, us'[u], cells, env); }
    }
    forall u, w | 0 < u < w < |us'|
      ensures handle'[u] != handle'[w]
    {
      if w == |us| { OtherCell(stack, us[u], cells, env, handle[u], slot); }
    }
  }

  lemma SameCell(stack: seq<Val>, u: Upval, u': Upval, cells: seq<Val>, env: seq<nat>, c: nat)
    requires CellOk(stack, u, cells, env, c) && u'.closed == u.closed && u'.slot == u.slot && u'.tv == u.tv
    ensures CellOk(stack, u', cells, env, c)
  {
  }

  lemma OpenCell(stack: seq<Val>, u: Upval, cells: seq<Val>, env: seq<nat>)
    requires !u.closed && u.slot < |stack| == |env| && env[u.slot] < |cells| && cells[env[u.slot]] == stack[u.slot]
    ensures CellOk(stack, u, cells, env, env[u.slot])
  {
  }

  lemma OtherCell(stack: seq<Val>, u: Upval, cells: seq<Val>, env: seq<nat>, c: nat, slot: nat)
    requires CellOk(stack, u, cells, env, c) && slot < |stack| && Distinct(env) && (!u.closed ==> u.slot != slot)
    ensures c != env[slot]
  {
  }

  // -- Steps on the lists ------------------------------------------------------------------------------

  lemma AddReady(us: seq<Upval>, height: nat, head: Option<nat>, opens: seq<nat>, ring: seq<nat>,
                 slot: nat, pred: Option<nat>, cur: Option<nat>, k: nat)
    requires ListsOk(us, height, head, opens, ring) && PlaceFor(us, opens, slot, pred, cur, k)
    ensures |us| > 0 && us[0].next < |us| && k <= |opens| && (pred.Some? ==> 0 < pred.value < |us|)
  {
    hide OpenList;
    PushRing(us, us[0], ring);
    PredOk(us, height, head, opens, ring, k);
  }

  /** The upvalues after a new one was put into both lists. */
  function Added(us: seq<Upval>, slot: nat, pred: Option<nat>, cur: Option<nat>): seq<Upval>
    requires |us| > 0 && us[0].next < |us| && (pred.Some? ==> pred.value < |us|)
  {
    var r := RingPush(us, Upval(false, slot, Nil, cur, 0, 0));
    if pred.None? then r else r[pred.value := r[pred.value].(nextgc := Some(|us|))]
  }

  lemma AddLists(us: seq<Upval>, height: nat, head: Option<nat>, opens: seq<nat>, ring: seq<nat>,
                 slot: nat, pred: Option<nat>, cur: Option<nat>, k: nat)
    requires ListsOk(us, height, head, opens, ring) && slot < height && PlaceFor(us, opens, slot, pred, cur, k)
    requires |us| > 0 && us[0].next < |us| && k <= |opens| && (pred.Some? ==> 0 < pred.value < |us|)
    ensures var us' := Added(us, slot, pred, cur);
            && ListsOk(us', height, if pred.None? then Some(|us|) else head, PutAt(opens, k, |us|), [|us|] + ring)
            && |us'| == |us| + 1 && SameCells(us, us') && !us'[|us|].closed && us'[|us|].slot == slot
  {
    hide OpenList, Ring, RingPush, Distinct, PutAt, First, SameCells, Relinked;
    var uv, u := |us|, Upval(false, slot, Nil, cur, 0, 0);
    PushRing(us, u, ring);
    PushIs(us, u);
    var pushed, us' := RingPush(us, u), Added(us, slot, pred, cur);
    OpensDistinct(us, head, opens);
    Relink(us, opens, pushed, us', slot, pred, cur, k);
    OpenInsert(us, head, opens, us', k, uv, slot);
    RingKept(pushed, us', [uv] + ring);
    StillOpen(us, height, head, opens, ring, us', k);
  }

  /** The topmost open upvalue leaves both lists. */
  lemma CloseLists(us: seq<Upval>, height: nat, head: Option<nat>, opens: seq<nat>, ring: seq<nat>, k: nat, v: Val)
    requires ListsOk(us, height, head, opens, ring) && opens != [] && k < |ring| && ring[k] == opens[0]
    requires Distinct(ring)
    ensures var uv := opens[0];
            && 0 < uv < |us| && us[uv].next < |us| && us[uv].prev < |us|
            && (var r := Unlink(us, uv); var us' := r[uv := r[uv].(tv := v, closed := true)];
                && ListsOk(us', height, us[uv].nextgc, opens[1..], Without(ring, k))
                && Others(us, us', uv))
  {
    hide OpenList, Ring, Unlink, Distinct, First, Without;
    var uv := opens[0];
    TopOf(us, height, head, opens, ring);
    UnlinkRing(us, ring, k);
    UnlinkIs(us, uv);
    var r := Unlink(us, uv);
    var us' := r[uv := r[uv].(tv := v, closed := true)];
    PopOpen(us, head, opens, us');
    WithoutIs(ring, k);
    RingOutside(r, us', Without(ring, k), uv);
    ClosedLists(us, height, head, opens, ring, us', k);
  }

  lemma NoUpvals(stack: seq<Val>, us: seq<Upval>, cells: seq<Val>, env: seq<nat>, handle: seq<nat>)
    requires us == [Upval(true, 0, Nil, None, 0, 0)] && |env| == |stack| && cells == stack && |handle| == 1
    requires forall i :: 0 <= i < |env| ==> env[i] == i
    ensures ListsOk(us, |stack|, None, [], []) && CellsOk(stack, us, cells, env, handle)
  {
    hide Sorted;
    assert [0] + [] + [0] == [0, 0];
    NothingSorted(us);
  }

  lemma NothingSorted(us: seq<Upval>)
    ensures Sorted(us, [])
  {
  }

  /** One step along the open list. */
  lemma OpenAt(us: seq<Upval>, head: Option<nat>, opens: seq<nat>, k: nat)
    requires OpenList(us, head, opens) && k <= |opens|
    ensures head == First(opens, 0) && First(opens, k) == if k < |opens| then Some(opens[k]) else None
    ensures k < |opens| ==> 0 < opens[k] < |us| && !us[opens[k]].closed && us[opens[k]].nextgc == First(opens, k + 1)
    ensures forall i :: 0 <= i < |opens| ==> opens[i] < |us|
  {
    hide Sorted;
  }

  // -- A thread with its upvalues ------------------------------------------------------------------------

  class Thread {
    var stack: seq<Val>
    var uvs: seq<Upval>          // element 0 is the anchor of the ring
    var openupval: Option<nat>
    ghost var opens: seq<nat>    // the open list
    ghost var ring: seq<nat>     // the ring

    // Variables as cells: what stack slots and upvalues stand for.
    ghost var cells: seq<Val>
    ghost var env: seq<nat>      // cell of every slot
    ghost var handle: seq<nat>   // cell of every upvalue

    ghost predicate Valid()
      reads this
    {
      ListsOk(uvs, |stack|, openupval, opens, ring) && CellsOk(stack, uvs, cells, env, handle)
    }

    /** A thread with no upvalues; every slot is a cell of its own. */
    constructor (height: nat)
      ensures Valid() && |stack| == height && |uvs| == 1
    {
      stack := seq(height, _ => Nil);
      uvs := [Upval(true, 0, Nil, None, 0, 0)];
      openupval := None;
      opens, ring := [], [];
      cells, env, handle := seq(height, _ => Nil), seq(height, i => i), [0];
      new;
      NoUpvals(stack, uvs, cells, env, handle);
    }

    // -- Finding and adding -------------------------------------------------------------------------

    /** The search of findupval: the upvalue of a slot, or the place for it. */
    method Locate(slot: nat) returns (found: Option<nat>, pred: Option<nat>, cur: Option<nat>, ghost k: nat)
      requires Valid()
      ensures found.Some? ==> found.value in opens && 0 < found.value < |uvs|
      ensures found.Some? ==> !uvs[found.value].closed && uvs[found.value].slot == slot
      ensures found.None? ==> PlaceFor(uvs, opens, slot, pred, cur, k)
    {
      hide Ring, CellsOk, OpenList, First;
      found, pred, cur, k := None, None, openupval, 0;
      OpenAt(uvs, openupval, opens, 0);
      while cur.Some? && uvs[cur.value].slot >= slot
        invariant k <= |opens| && pred == (if k == 0 then None else Some(opens[k - 1]))
        invariant cur == First(opens, k) == if k < |opens| then Some(opens[k]) else None
        invariant k < |opens| ==>
                    0 < opens[k] < |uvs| && !uvs[opens[k]].closed && uvs[opens[k]].nextgc == First(opens, k + 1)
        invariant forall i :: 0 <= i < k ==> uvs[opens[i]].slot > slot
        decreases |opens| - k
      {
        if uvs[cur.value].slot == slot {
          found := cur;
          return;
        }
        pred, cur, k := cur, uvs[cur.value].nextgc, k + 1;
        OpenAt(uvs, openupval, opens, k);
      }
    }

    /** findupval, when there is none: a new one, in both lists. */
    method Add(slot: nat, pred: Option<nat>, cur: Option<nat>, ghost k: nat) returns (uv: nat)
      requires Valid() && slot < |stack| && PlaceFor(uvs, opens, slot, pred, cur, k)
      modifies this
      ensures Valid() && stack == old(stack) && cells == old(cells) && env == old(env)
      ensures uv == |old(uvs)| && |uvs| == uv + 1 && !uvs[uv].closed && uvs[uv].slot == slot
      ensures handle == old(handle) + [env[slot]] && SameCells(old(uvs), uvs)
    {
      hide ListsOk, RingPush, Distinct, PutAt, CellsOk, First, SameCells, PlaceFor;
      uv := |uvs|;
      CellsLen(stack, uvs, cells, env, handle);
      AddReady(uvs, |stack|, openupval, opens, ring, slot, pred, cur, k);
      AddLists(uvs, |stack|, openupval, opens, ring, slot, pred, cur, k);
      NoneThere(uvs, |stack|, openupval, opens, ring, slot, pred, cur, k);
      var us := RingPush(uvs, Upval(false, slot, Nil, cur, 0, 0));
      if pred.None? {
        openupval := Some(uv);
      } else {
        us := us[pred.value := us[pred.value].(nextgc := Some(uv))];
      }
      AddCells(stack, uvs, us, cells, env, handle, slot);
      uvs := us;
      opens, ring := PutAt(opens, k, uv), [uv] + ring;
      handle := handle + [env[slot]];
    }

    /** One round of func_closeuv: close the topmost open upvalue. */
    method CloseTop()
      requires Valid() && opens != []
      modifies this
      ensures Valid() && stack == old(stack) && handle == old(handle) && opens == old(opens)[1..]
      ensures |uvs| == |old(uvs)| && 0 < old(opens)[0] < |uvs|
      ensures var uv := old(opens)[0];
              && !old(uvs)[uv].closed && uvs[uv].closed && old(uvs)[uv].slot < |stack| && |old(env)| == |stack|
              && Others(old(uvs), uvs, uv)
              && (var s := old(uvs)[uv].slot;
                  cells == old(cells) + [stack[s]] && env == old(env)[s := |old(cells)|])
    {
      hide ListsOk, Unlink, Distinct, CellsOk, First, Without;
      TopOf(uvs, |stack|, openupval, opens, ring);
      CellsLen(stack, uvs, cells, env, handle);
      var uv := openupval.value;
      var slot := uvs[uv].slot;
      ghost var k :| 0 <= k < |ring| && ring[k] == uv;
      CloseLists(uvs, |stack|, openupval, opens, ring, k, stack[slot]);
      OneThere(uvs, |stack|, openupval, opens, ring, uv);
      var us := Unlink(uvs, uv);
      us := us[uv := us[uv].(tv := stack[slot], closed := true)];
      CloseCells(stack, uvs, us, cells, env, handle, uv);
      openupval := uvs[uv].nextgc;
      uvs := us;
      opens, ring := opens[1..], Without(ring, k);
      cells, env := cells + [stack[slot]], env[slot := |cells|];
    }

    /** func_closeuv: close the upvalues at a level and above. */
    method CloseUv(level: nat)
      requires Valid()
      modifies this
      ensures Valid() && stack == old(stack) && handle == old(handle) && |uvs| == |old(uvs)|
      ensures old(cells) <= cells && |env| == |old(env)|
      ensures forall s :: 0 <= s < level && s < |env| ==> env[s] == old(env)[s]
      ensures forall u :: 0 < u < |uvs| ==> uvs[u].closed == (old(uvs)[u].closed || old(uvs)[u].slot >= level)
      ensures forall u :: 0 < u < |uvs| && !uvs[u].closed ==> uvs[u].slot == old(uvs)[u].slot
    {
      hide OpenList, Ring, Distinct, CellsOk, First;
      CellsLen(stack, uvs, cells, env, handle);
      TopSlot(uvs, |stack|, openupval, opens, ring);
      while openupval.Some? && uvs[openupval.value].slot >= level
        invariant Valid() && stack == old(stack) && handle == old(handle) && |uvs| == |old(uvs)|
        invariant old(cells) <= cells && |env| == |old(env)| == |stack| && openupval == First(opens, 0)
        invariant openupval.Some? ==> 0 < openupval.value < |uvs|
        invariant forall s :: 0 <= s < level && s < |env| ==> env[s] == old(env)[s]
        invariant forall u :: 0 < u < |uvs| ==> ClosedSince(old(uvs)[u], uvs[u], level)
        decreases |opens|
      {
        FirstIs(opens);
        CloseTop();
        TopSlot(uvs, |stack|, openupval, opens, ring);
      }
      AllBelow(uvs, |stack|, openupval, opens, ring, level);
    }

    /** findupval: the upvalue of a slot. */
    method FindUpval(slot: nat) returns (uv: nat)
      requires Valid() && slot < |stack|
      modifies this
      ensures Valid() && stack == old(stack) && cells == old(cells) && env == old(env)
      ensures 0 < uv < |uvs| && !uvs[uv].closed && uvs[uv].slot == slot
      ensures old(handle) <= handle && handle[uv] == env[slot] && SameCells(old(uvs), uvs)
      ensures |uvs| <= |old(uvs)| + 1 && (|uvs| == |old(uvs)| ==> uvs == old(uvs))
    {
      hide OpenList, Ring, PlaceFor, Distinct;
      var found, pred, cur;
      ghost var k;
      found, pred, cur, k := Locate(slot);
      if found.Some? {
        uv := found.value;
        assert CellOk(stack, uvs[uv], cells, env, handle[uv]);
      } else {
        uv := Add(slot, pred, cur, k);
      }
    }

    // -- Access ---------------------------------------------------------------------------------------

    /** UGET: an upvalue shows the value of its cell. */
    method Get(uv: nat) returns (v: Val)
      requires Valid() && 0 < uv < |uvs|
      ensures |handle| == |uvs| && handle[uv] < |cells| && v == cells[handle[uv]]
    {
      hide ListsOk, Distinct;
      assert CellOk(stack, uvs[uv], cells, env, handle[uv]);
      v := if uvs[uv].closed then uvs[uv].tv else stack[uvs[uv].slot];
    }

    /** A register shows the value of its cell. */
    method GetSlot(s: nat) returns (v: Val)
      requires Valid() && s < |stack|
      ensures |env| == |stack| && env[s] < |cells| && v == cells[env[s]]
    {
      v := stack[s];
    }

    /** A store to a register changes its cell, and no other. */
    method SetSlot(s: nat, v: Val)
      requires Valid() && s < |stack|
      modifies this`stack, this`cells
      ensures Valid() && |env| == |old(stack)| && env[s] < |old(cells)| && cells == old(cells)[env[s] := v]
      ensures stack == old(stack)[s := v]
    {
      hide ListsOk, OpenList, Ring;
      StoreSlot(stack, uvs, cells, env, handle, s, v);
      stack, cells := stack[s := v], cells[env[s] := v];
      HeightKept(uvs, |old(stack)|, |stack|, openupval, opens, ring);
    }

    /** USETV and the like: a store through an upvalue changes its cell, and no other. */
    method Set(uv: nat, v: Val)
      requires Valid() && 0 < uv < |uvs|
      modifies this`stack, this`uvs, this`cells
      ensures Valid() && |handle| == |uvs| == |old(uvs)| && handle[uv] < |old(cells)| && |stack| == |old(stack)|
      ensures cells == old(cells)[handle[uv] := v]
    {
      hide ListsOk, OpenList, Ring, Distinct, SameCells;
      assert CellOk(stack, uvs[uv], cells, env, handle[uv]);
      if uvs[uv].closed {
        ghost var us := uvs[uv := uvs[uv].(tv := v)];
        StoreClosed(stack, uvs, cells, env, handle, uv, v);
        ListsKept(uvs, |stack|, openupval, opens, ring, us);
        uvs, cells := uvs[uv := uvs[uv].(tv := v)], cells[handle[uv] := v];
      } else {
        SetSlot(uvs[uv].slot, v);
      }
    }

    // -- Closures ---------------------------------------------------------------------------------------

    /** A register and its upvalue are one variable: a store through either is seen
        through the other, and closing takes the last value along. */
    method OneVariable(slot: nat, v: Val, w: Val, level: nat) returns (seen: Val, kept: Val)
      requires Valid() && level <= slot < |stack|
      modifies this
      ensures Valid() && seen == v && kept == w
    {
      hide ListsOk, CellsOk, SameCells;
      var uv := FindUpval(slot);
      Set(uv, v);
      seen := GetSlot(slot);
      SetSlot(slot, w);
      CloseUv(level);
      kept := Get(uv);
    }

    /** func_new: the upvalues of a new closure. A reference is a register of the
        running function, or an upvalue of it. */
    method FuncNew(refs: seq<nat>, parent: seq<nat>, base: nat) returns (upvals: seq<nat>)
      requires Valid() && RefsOk(refs, parent, base, |stack|) && forall i :: 0 <= i < |parent| ==> 0 < parent[i] < |uvs|
      modifies this
      ensures Valid() && stack == old(stack) && cells == old(cells) && env == old(env) && |env| == |stack|
      ensures |handle| == |uvs| && |old(handle)| == |old(uvs)| && old(handle) <= handle && |upvals| == |refs|
      ensures forall i :: 0 <= i < |refs| ==> 0 < upvals[i] < |uvs|
      ensures forall i :: 0 <= i < |refs| ==> handle[upvals[i]] == RefCell(refs[i], parent, base, env, old(handle))
    {
      hide ListsOk, CellsOk, SameCells;
      CellsLen(stack, uvs, cells, env, handle);
      upvals := [];
      for i := 0 to |refs|
        invariant Valid() && stack == old(stack) && cells == old(cells) && env == old(env) && |env| == |stack|
        invariant |handle| == |uvs| && |old(handle)| == |old(uvs)| && old(handle) <= handle && |upvals| == i
        invariant forall j :: 0 <= j < i ==> 0 < upvals[j] < |uvs|
        invariant forall j :: 0 <= j < i ==> handle[upvals[j]] == RefCell(refs[j], parent, base, env, old(handle))
      {
        var v := refs[i];
        assert RefOk(v, |parent|, base, |stack|);
        var uv;
        if v >= UV_LOCAL {
          uv := FindUpval(base + v % 256);
          CellsLen(stack, uvs, cells, env, handle);
        } else {
          uv := parent[v];
        }
        upvals := upvals + [uv];
      }
    }
  }

  const UV_LOCAL: nat := 0x8000
  const UV_IMMUTABLE: nat := 0x4000

  predicate RefOk(v: nat, nparent: nat, base: nat, height: nat) {
    if v >= 0x8000 then base + v % 256 < height else v < nparent
  }

  predicate RefsOk(refs: seq<nat>, parent: seq<nat>, base: nat, height: nat) {
    forall i :: 0 <= i < |refs| ==> RefOk(refs[i], |parent|, base, height)
  }

  /** The cell a reference stands for. */
  ghost function RefCell(v: nat, parent: seq<nat>, base: nat, env: seq<nat>, handle: seq<nat>): nat
    requires RefOk(v, |parent|, base, |env|) && forall i :: 0 <= i < |parent| ==> parent[i] < |handle|
  {
    if v >= 0x8000 then env[base + v % 256] else handle[parent[v]]
  }

  lemma HeightKept(us: seq<Upval>, h: nat, h': nat, head: Option<nat>, opens: seq<nat>, ring: seq<nat>)
    requires ListsOk(us, h, head, opens, ring) && h == h'
    ensures ListsOk(us, h', head, opens, ring)
  {
  }

  lemma StoreSlot(stack: seq<Val>, us: seq<Upval>, cells: seq<Val>, env: seq<nat>, handle: seq<nat>, s: nat, v: Val)
    requires CellsOk(stack, us, cells, env, handle) && s < |stack|
    ensures env[s] < |cells| && CellsOk(stack[s := v], us, cells[env[s] := v], env, handle)
  {
    forall u | 0 < u < |us|
      ensures CellOk(stack[s := v], us[u], cells[env[s] := v], env, handle[u])
    {
      assert CellOk(stack, us[u], cells, env, handle[u]);
    }
  }

  lemma StoreClosed(stack: seq<Val>, us: seq<Upval>, cells: seq<Val>, env: seq<nat>, handle: seq<nat>, uv: nat, v: Val)
    requires CellsOk(stack, us, cells, env, handle) && 0 < uv < |us| && us[uv].closed
    ensures handle[uv] < |cells| && CellsOk(stack, us[uv := us[uv].(tv := v)], cells[handle[uv] := v], env, handle)
  {
    hide Distinct;
    assert CellOk(stack, us[uv], cells, env, handle[uv]);
    var us' := us[uv := us[uv].(tv := v)];
    forall u | 0 < u < |us|
      ensures CellOk(stack, us'[u], cells[handle[uv] := v], env, handle[u])
    {
      assert CellOk(stack, us[u], cells, env, handle[u]);
      if u != uv { assert handle[u] != handle[uv]; }
    }
  }

  /** The value of an upvalue does not matter to the lists. */
  lemma ListsKept(us: seq<Upval>, height: nat, head: Option<nat>, opens: seq<nat>, ring: seq<nat>, us': seq<Upval>)
    requires ListsOk(us, height, head, opens, ring) && |us| == |us'|
    requires forall i :: 0 <= i < |us| ==> us'[i] == us[i].(tv := us'[i].tv)
    ensures ListsOk(us', height, head, opens, ring)
  {
    hide First;
    RingKept(us, us', ring);
  }

  // -- Closing ------------------------------------------------------------------------------------------

  /** Everything but upvalue uv keeps its list fields. */
  ghost predicate Others(us: seq<Upval>, us': seq<Upval>, uv: nat) {
    && |us'| == |us|
    && forall i :: 0 <= i < |us| && i != uv ==>
         && us'[i].closed == us[i].closed && us'[i].slot == us[i].slot && us'[i].tv == us[i].tv
         && us'[i].nextgc == us[i].nextgc
  }

  lemma PopOpen(us: seq<Upval>, head: Option<nat>, opens: seq<nat>, us': seq<Upval>)
    requires OpenList(us, head, opens) && opens != [] && Others(us, us', opens[0])
    ensures OpenList(us', First(opens, 1), opens[1..]) && opens[0] !in opens[1..]
  {
    hide First;
    OpensDistinct(us, head, opens);
    var r := opens[1..];
    forall i | 0 <= i < |r|
      ensures 0 < r[i] < |us'| && !us'[r[i]].closed && us'[r[i]].nextgc == First(r, i + 1) && r[i] != opens[0]
    {
      assert r[i] == opens[i + 1];
      FirstOfRest(opens, i + 1);
    }
    FirstOfRest(opens, 0);
  }

  lemma FirstOfRest(s: seq<nat>, i: nat)
    requires s != []
    ensures First(s[1..], i) == First(s, i + 1)
  {
  }

  /** An element that is not in the ring may change. */
  lemma RingOutside(us: seq<Upval>, us': seq<Upval>, ring: seq<nat>, uv: nat)
    requires Ring(us, ring) && |us| == |us'| && uv != 0 && uv !in ring
    requires forall i :: 0 <= i < |us| && i != uv ==> us'[i] == us[i]
    ensures Ring(us', ring)
  {
    var c := [0] + ring + [0];
    forall i | 0 <= i < |c|
      ensures c[i] != uv
    {
      if 0 < i < |c| - 1 { assert c[i] == ring[i - 1]; }
    }
  }

  /** The closed upvalue keeps its cell; its slot gets a new one. */
  lemma CloseCells(stack: seq<Val>, us: seq<Upval>, us': seq<Upval>, cells: seq<Val>, env: seq<nat>, handle: seq<nat>,
                   uv: nat)
    requires CellsOk(stack, us, cells, env, handle) && 0 < uv < |us| && !us[uv].closed && Others(us, us', uv)
    requires us[uv].slot < |stack| && us'[uv].closed && us'[uv].tv == stack[us[uv].slot]
    requires forall u :: 0 < u < |us| && u != uv && !us[u].closed ==> us[u].slot != us[uv].slot
    ensures CellsOk(stack, us', cells + [stack[us[uv].slot]], env[us[uv].slot := |cells|], handle)
  {
    hide CellOk;
    var s := us[uv].slot;
    var cells', env' := cells + [stack[s]], env[s := |cells|];
    forall u | 0 < u < |us'|
      ensures CellOk(stack, us'[u], cells', env', handle[u])
    {
      assert CellOk(stack, us[u], cells, env, handle[u]);
      if u == uv { ClosedCell(stack, us[u], us'[u], cells, env, handle[u]); }
          else { KeptCell(stack, us[u], us'[u], cells, env, handle[u], s); }
    }
    assert Distinct(env');
  }

  lemma ClosedCell(stack: seq<Val>, u: Upval, u': Upval, cells: seq<Val>, env: seq<nat>, c: nat)
    requires CellOk(stack, u, cells, env, c) && !u.closed && u'.closed && u'.tv == stack[u.slot] && Distinct(env)
    ensures CellOk(stack, u', cells + [stack[u.slot]], env[u.slot := |cells|], c)
  {
  }

  lemma KeptCell(stack: seq<Val>, u: Upval, u': Upval, cells: seq<Val>, env: seq<nat>, c: nat, s: nat)
    requires CellOk(stack, u, cells, env, c) && s < |stack| && (!u.closed ==> u.slot != s)
    requires u'.closed == u.closed && u'.slot == u.slot && u'.tv == u.tv
    ensures CellOk(stack, u', cells + [stack[s]], env[s := |cells|], c)
  {
    assert forall i :: 0 <= i < |env| && i != s ==> env[s := |cells|][i] == env[i];
  }

  /** The upvalue is as before, or it was at the level or above and is closed. */
  ghost predicate ClosedSince(u: Upval, u': Upval, level: nat) {
    (u'.closed == u.closed && u'.slot == u.slot) || (u'.closed && !u.closed && u.slot >= level)
  }

  lemma FirstIs(s: seq<nat>)
    ensures First(s, 0).Some? <==> s != []
    ensures s != [] ==> First(s, 0) == Some(s[0])
  {
  }

  lemma WithoutIs(s: seq<nat>, k: nat)
    requires k < |s| && Distinct(s)
    ensures s[k] !in Without(s, k) && forall x :: x in Without(s, k) <==> x in s && x != s[k]
  {
    hide Without;
    var r := Without(s, k);
    forall x | x in s && x != s[k]
      ensures x in r
    {
      var i :| 0 <= i < |s| && s[i] == x;
      assert r[if i < k then i else i - 1] == x;
    }
    forall x | x in r
      ensures x in s && x != s[k]
    {
      var i :| 0 <= i < |r| && r[i] == x;
      assert x == s[if i < k then i else i + 1];
    }
  }

  lemma TopOf(us: seq<Upval>, height: nat, head: Option<nat>, opens: seq<nat>, ring: seq<nat>)
    requires ListsOk(us, height, head, opens, ring) && opens != []
    ensures head == Some(opens[0]) && 0 < opens[0] < |us| && !us[opens[0]].closed && us[opens[0]].slot < height
    ensures opens[0] in ring && Distinct(ring) && us[opens[0]].nextgc == First(opens, 1)
  {
    assert opens[0] in opens;
  }

  lemma TopSlot(us: seq<Upval>, height: nat, head: Option<nat>, opens: seq<nat>, ring: seq<nat>)
    requires ListsOk(us, height, head, opens, ring)
    ensures head == First(opens, 0) && (head.Some? ==> 0 < head.value < |us|)
  {
  }

  lemma OneThere(us: seq<Upval>, height: nat, head: Option<nat>, opens: seq<nat>, ring: seq<nat>, uv: nat)
    requires ListsOk(us, height, head, opens, ring) && 0 < uv < |us| && !us[uv].closed
    ensures forall u :: 0 < u < |us| && u != uv && !us[u].closed ==> us[u].slot != us[uv].slot
  {
    hide Ring, First;
    forall u | 0 < u < |us| && u != uv && !us[u].closed
      ensures us[u].slot != us[uv].slot
    {
      assert u in opens && uv in opens;
      var i :| 0 <= i < |opens| && opens[i] == u;
      var j :| 0 <= j < |opens| && opens[j] == uv;
      if i < j { assert us[opens[i]].slot > us[opens[j]].slot; } else { assert us[opens[j]].slot > us[opens[i]].slot; }
    }
  }

  lemma ClosedLists(us: seq<Upval>, height: nat, head: Option<nat>, opens: seq<nat>, ring: seq<nat>, us': seq<Upval>,
                    k: nat)
    requires ListsOk(us, height, head, opens, ring) && opens != [] && k < |ring| && ring[k] == opens[0]
    requires Distinct(ring)
    requires Others(us, us', opens[0]) && opens[0] < |us'| && us'[opens[0]].closed && opens[0] !in opens[1..]
    ensures forall u :: u in opens[1..] <==> u in Without(ring, k)
    ensures forall u :: 0 < u < |us'| && !us'[u].closed ==> u in opens[1..] && us'[u].slot < height
  {
    hide Ring, OpenList, Without, Distinct;
    WithoutIs(ring, k);
    assert forall u :: u in opens <==> u == opens[0] || u in opens[1..];
  }

  /** The list is sorted: if its top is below the level, all of it is. */
  lemma AllBelow(us: seq<Upval>, height: nat, head: Option<nat>, opens: seq<nat>, ring: seq<nat>, level: nat)
    requires ListsOk(us, height, head, opens, ring)
    requires head.Some? && head.value < |us| ==> us[head.value].slot < level
    ensures forall u :: 0 < u < |us| && !us[u].closed ==> us[u].slot < level
  {
    hide Ring;
    forall u | 0 < u < |us| && !us[u].closed
      ensures us[u].slot < level
    {
      assert u in opens;
      var i :| 0 <= i < |opens| && opens[i] == u;
      if i > 0 { assert us[opens[0]].slot > us[opens[i]].slot; }
    }
  }

  /** Where an upvalue for a slot belongs in the open list. */
  ghost predicate PlaceFor(us: seq<Upval>, opens: seq<nat>, slot: nat, pred: Option<nat>, cur: Option<nat>, k: nat) {
    && k <= |opens| && cur == First(opens, k) && pred == (if k == 0 then None else Some(opens[k - 1]))
    && (forall i :: 0 <= i < |opens| ==> opens[i] < |us|)
    && (forall i :: 0 <= i < k ==> us[opens[i]].slot > slot)
    && (k < |opens| ==> us[opens[k]].slot < slot)
  }

  lemma PredOk(us: seq<Upval>, height: nat, head: Option<nat>, opens: seq<nat>, ring: seq<nat>, k: nat)
    requires ListsOk(us, height, head, opens, ring) && k <= |opens|
    ensures k > 0 ==> 0 < opens[k - 1] < |us|
  {
  }

  /** The new link leaves the rest of the list alone. */
  lemma Relink(us: seq<Upval>, opens: seq<nat>, pushed: seq<Upval>, us': seq<Upval>,
               slot: nat, pred: Option<nat>, cur: Option<nat>, k: nat)
    requires Distinct(opens) && PlaceFor(us, opens, slot, pred, cur, k)
    requires |pushed| == |us'| == |us| + 1 && OnlyRing(us, pushed)
    requires us' == if pred.None? then pushed else pushed[pred.value := pushed[pred.value].(nextgc := Some(|us|))]
    ensures Relinked(us, us', opens, k, |us|) && SameCells(us, us') && us'[|us|] == pushed[|us|]
    ensures forall i :: 0 <= i < |us'| ==> us'[i].next == pushed[i].next && us'[i].prev == pushed[i].prev
  {
    hide First;
    forall i | 0 <= i < |opens|
      ensures us'[opens[i]].nextgc == if i + 1 == k then Some(|us|) else us[opens[i]].nextgc
    {
      assert i + 1 != k ==> pred != Some(opens[i]);
    }
  }

  lemma OpensDistinct(us: seq<Upval>, head: Option<nat>, opens: seq<nat>)
    requires OpenList(us, head, opens)
    ensures Distinct(opens)
  {
    forall i, j | 0 <= i < j < |opens|
      ensures opens[i] != opens[j]
    {
      assert us[opens[i]].slot > us[opens[j]].slot;
    }
  }

  /** A slot that was passed over has no open upvalue. */
  lemma NoneThere(us: seq<Upval>, height: nat, head: Option<nat>, opens: seq<nat>, ring: seq<nat>,
                  slot: nat, pred: Option<nat>, cur: Option<nat>, k: nat)
    requires ListsOk(us, height, head, opens, ring) && PlaceFor(us, opens, slot, pred, cur, k)
    ensures forall u :: 0 < u < |us| && !us[u].closed ==> us[u].slot != slot
  {
    hide Ring;
    forall u | 0 < u < |us| && !us[u].closed
      ensures us[u].slot != slot
    {
      assert u in opens;
      var i :| 0 <= i < |opens| && opens[i] == u;
      if i > k { assert us[opens[k]].slot > us[opens[i]].slot; }
    }
  }

  lemma StillOpen(us: seq<Upval>, height: nat, head: Option<nat>, opens: seq<nat>, ring: seq<nat>, us': seq<Upval>,
                  k: nat)
    requires ListsOk(us, height, head, opens, ring) && SameCells(us, us') && |us'| == |us| + 1 && k <= |opens|
    ensures forall u :: u in PutAt(opens, k, |us|) <==> u in [|us|] + ring
    ensures forall u :: 0 < u < |us| && !us'[u].closed ==> u in PutAt(opens, k, |us|) && us'[u].slot < height
  {
    hide Ring, OpenList, PutAt;
    var r := PutAt(opens, k, |us|);
    forall u
      ensures u in r <==> u == |us| || u in opens
    {
      if u in opens {
        var i :| 0 <= i < |opens| && opens[i] == u;
        assert r[if i < k then i else i + 1] == u;
      }
      if u in r {
        var i :| 0 <= i < |r| && r[i] == u;
        assert i == k || u == opens[if i < k then i else i - 1];
      }
      assert r[k] == |us|;
    }
  }

  /** The ring only depends on its own links. */
  lemma RingKept(us: seq<Upval>, us': seq<Upval>, ring: seq<nat>)
    requires Ring(us, ring) && |us| == |us'|
    requires forall i :: 0 <= i < |us| ==> us'[i].next == us[i].next && us'[i].prev == us[i].prev
    ensures Ring(us', ring)
  {
  }
}
