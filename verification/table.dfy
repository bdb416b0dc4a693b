/** Tables: an array part and a hash part, updated in place. */
module Tables {
  import opened Values
  import opened HashNodes

  // -- Hashing keys -------------------------------------------------------------------------

  const HASH_BIAS: nat := TWO32 - 0x04c1_1db7

  function Rol(x: bv32, n: nat): bv32
    requires 0 < n < 32
  {
    (x << n) | (x >> (32 - n))
  }

  /** Scramble the bits of numbers and pointers. */
  function HashRot(lo: bv32, hi: bv32): bv32 {
    var hi1 := Rol(hi, 14);
    var lo1 := (lo ^ hi) - hi1;
    var hi2 := Rol(hi1, 5) ^ lo1;
    hi2 - Rol(lo1, 13)
  }

  /** Hash of a key; strings bring their own. */
  function KeyHash(strhash: string -> nat, k: Val): nat {
    match k
    case Str(s) => strhash(s)
    case Num(n) => HashRot((n % TWO32) as bv32, 0) as nat
    case False => 0
    case True => 1
    case Obj(id) => HashRot((id % TWO32) as bv32, ((id % TWO32 + HASH_BIAS) % TWO32) as bv32) as nat
    case Nil => 0  // nil is never hashed
  }

  // -- Searching a chain ----------------------------------------------------------------------

  /** The end of a chain without k: k is not held. */
  lemma NotFound(h: Hash, ns: seq<Node>, freetop: nat, ord: seq<nat>, k: Val, p0: nat, p: nat)
    requires Inv(h, ns, freetop, ord) && k != Nil && Path(ns, ord, p0, p) && ord[p0] == MainPos(h, k, |ns|)
    requires ord[p] < |ns| && ns[ord[p]].next == None
    requires forall q :: p0 <= q <= p ==> ord[q] < |ns| && ns[ord[q]].key != k
    ensures !Held(ns, k)
  {
    hide MainPos, Home, Linked, Unique;
    if Held(ns, k) {
      var i :| 0 <= i < |ns| && ns[i].key == k;
      var q :| 0 <= q < |ord| && ord[q] == i;
      var j := GetHome(h, ns, freetop, ord, q);
    }
  }

  lemma NotFoundBlank(h: Hash, ns: seq<Node>, freetop: nat, ord: seq<nat>, k: Val)
    requires Inv(h, ns, freetop, ord) && k != Nil && ns[MainPos(h, k, |ns|)].key == Nil
    ensures !Held(ns, k)
  {
    hide MainPos, Home, Linked, Unique;
    if Held(ns, k) {
      var i :| 0 <= i < |ns| && ns[i].key == k;
      var q :| 0 <= q < |ord| && ord[q] == i;
      var j := GetHome(h, ns, freetop, ord, q);
    }
  }

  /** Keys that live in the array part. */
  predicate ArrayKey(k: Val, asize: nat) {
    k.Num? && 0 <= k.n < asize
  }

  ghost predicate NoArrayKeys(ns: seq<Node>, asize: nat) {
    forall i :: 0 <= i < |ns| ==> !ArrayKey(ns[i].key, asize)
  }

  /** The keys held after an insertion. */
  ghost predicate KeysFrom(ns: seq<Node>, ns': seq<Node>, k: Val) {
    forall i :: 0 <= i < |ns'| ==> ns'[i].key == k || exists j :: 0 <= j < |ns| && ns[j].key == ns'[i].key
  }

  lemma KeysFromNoArray(ns: seq<Node>, ns': seq<Node>, k: Val, asize: nat)
    requires KeysFrom(ns, ns', k) && NoArrayKeys(ns, asize) && !ArrayKey(k, asize)
    ensures NoArrayKeys(ns', asize)
  {
  }

  lemma MainKeys(ns: seq<Node>, n: nat, k: Val)
    requires n < |ns|
    ensures KeysFrom(ns, ns[n := ns[n].(key := k)], k)
  {
  }

  lemma BehindKeys(ns: seq<Node>, n: nat, f: nat, k: Val)
    requires n < |ns| && f < |ns| && n != f
    ensures KeysFrom(ns, LinkBehind(ns, n, f, k), k)
  {
    var ns' := LinkBehind(ns, n, f, k);
    forall i | 0 <= i < |ns'| && ns'[i].key != k
      ensures exists j :: 0 <= j < |ns| && ns[j].key == ns'[i].key
    {
      assert ns[i].key == ns'[i].key;
    }
  }

  lemma MovedKeys(ns: seq<Node>, pred: nat, n: nat, f: nat, k: Val)
    requires n < |ns| && f < |ns| && pred < |ns| && n != f && pred != n && pred != f
    ensures KeysFrom(ns, MovedNodes(ns, pred, n, f, k), k)
  {
    var ns' := MovedNodes(ns, pred, n, f, k);
    forall i | 0 <= i < |ns'| && ns'[i].key != k
      ensures exists j :: 0 <= j < |ns| && ns[j].key == ns'[i].key
    {
      assert ns[if i == f then n else i].key == ns'[i].key;
    }
  }

  /** The place of a key in the chains. */
  lemma PosOf(ns: seq<Node>, ord: seq<nat>, n: nat) returns (p: nat)
    requires Keyed(ns, ord) && n < |ns| && ns[n].key != Nil
    ensures p < |ord| && ord[p] == n
  {
    p :| 0 <= p < |ord| && ord[p] == n;
  }

  /** One step along a chain. */
  lemma ChainStep(ns: seq<Node>, ord: seq<nat>, p: nat)
    requires Keyed(ns, ord) && Linked(ns, ord) && p < |ord|
    ensures ord[p] < |ns|
    ensures ns[ord[p]].next.Some? ==> p + 1 < |ord| && ns[ord[p]].next == Some(ord[p + 1]) && ord[p + 1] < |ns|
  {
  }

  lemma LiveHasKey(ns: seq<Node>, ord: seq<nat>, i: nat)
    requires Keyed(ns, ord) && Linked(ns, ord) && i < |ns| && ns[i].val != Nil
    ensures ns[i].key != Nil
  {
  }

  lemma BlankHasNoVal(ns: seq<Node>, ord: seq<nat>, i: nat)
    requires Keyed(ns, ord) && Linked(ns, ord) && i < |ns| && ns[i].key == Nil
    ensures ns[i].val == Nil && ns[i].next == None
  {
  }

  // -- Contents ------------------------------------------------------------------------------


  ghost function ArrayMap(a: seq<Val>): map<Val, Val> {
    map i | 0 <= i < |a| && a[i] != Nil :: Num(i) := a[i]
  }

  /** A table as a finite map; absent keys are nil. */
  ghost function Contents(a: seq<Val>, ns: seq<Node>): map<Val, Val>
    requires Unique(ns)
  {
    ArrayMap(a) + Live(ns)
  }

  function Lookup(m: map<Val, Val>, k: Val): Val {
    if k in m then m[k] else Nil
  }

  function Put(m: map<Val, Val>, k: Val, v: Val): map<Val, Val> {
    if v == Nil then m - {k} else m[k := v]
  }

  lemma ArrayMapIs(a: seq<Val>, k: Val)
    ensures k in ArrayMap(a) <==> ArrayKey(k, |a|) && a[k.n] != Nil
    ensures k in ArrayMap(a) ==> ArrayMap(a)[k] == a[k.n]
  {
    if ArrayKey(k, |a|) && a[k.n] != Nil {
      assert 0 <= k.n < |a| && a[k.n] != Nil && k == Num(k.n);
    }
  }

  /** Reading an array slot, or the node that holds a key. */
  lemma ContentsIs(a: seq<Val>, ns: seq<Node>, k: Val)
    requires Unique(ns) && NoArrayKeys(ns, |a|)
    ensures ArrayKey(k, |a|) ==> Lookup(Contents(a, ns), k) == a[k.n]
    ensures !ArrayKey(k, |a|) && k != Nil ==> forall i :: 0 <= i < |ns| && ns[i].key == k ==>
              Lookup(Contents(a, ns), k) == ns[i].val
    ensures k == Nil || (!ArrayKey(k, |a|) && !Held(ns, k)) ==> Lookup(Contents(a, ns), k) == Nil
  {
    hide Live, ArrayMap, Unique;
    ArrayMapIs(a, k);
    LiveNil(ns);
    if k != Nil {
      LiveIs(ns, k);
      if ArrayKey(k, |a|) { NotLive(ns, |a|, k); }
      forall i | !ArrayKey(k, |a|) && 0 <= i < |ns| && ns[i].key == k
        ensures Lookup(Contents(a, ns), k) == ns[i].val
      {
        assert HasPair(ns, k, ns[i].val);
        if k in Live(ns) { PairUnique(ns, k, Live(ns)[k], ns[i].val); }
      }
    }
  }

  lemma PairUnique(ns: seq<Node>, k: Val, v: Val, w: Val)
    requires Unique(ns) && k != Nil && HasPair(ns, k, v) && HasPair(ns, k, w)
    ensures v == w
  {
  }

  lemma ArrayStore(a: seq<Val>, ns: seq<Node>, i: nat, v: Val)
    requires Unique(ns) && NoArrayKeys(ns, |a|) && i < |a|
    ensures Contents(a[i := v], ns) == Put(Contents(a, ns), Num(i), v)
  {
    hide Live, Unique, ArrayMap;
    var k := Num(i);
    forall k'
      ensures k' in ArrayMap(a[i := v]) <==> k' in Put(ArrayMap(a), k, v)
      ensures k' in ArrayMap(a[i := v]) ==> ArrayMap(a[i := v])[k'] == Put(ArrayMap(a), k, v)[k']
    {
      ArrayMapIs(a, k');
      ArrayMapIs(a[i := v], k');
    }
    NotLive(ns, |a|, k);
    assert ArrayMap(a[i := v]) == Put(ArrayMap(a), k, v);
  }

  lemma NotLive(ns: seq<Node>, asize: nat, k: Val)
    requires Unique(ns) && NoArrayKeys(ns, asize) && ArrayKey(k, asize)
    ensures k !in Live(ns)
  {
  }

  lemma HashStore(a: seq<Val>, ns: seq<Node>, i: nat, v: Val)
    requires Unique(ns) && NoArrayKeys(ns, |a|) && i < |ns| && ns[i].key != Nil
    ensures var ns' := ns[i := ns[i].(val := v)];
            Unique(ns') && Contents(a, ns') == Put(Contents(a, ns), ns[i].key, v)
  {
    hide Live, Unique, ArrayMap;
    StoreLive(ns, i, v);
    ArrayMapIs(a, ns[i].key);
  }

  lemma BlankTable(h: Hash, a: seq<Val>, ns: seq<Node>)
    requires |ns| > 0 && forall i :: 0 <= i < |ns| ==> ns[i] == Node(Nil, Nil, None)
    requires forall i :: 0 <= i < |a| ==> a[i] == Nil
    ensures Inv(h, ns, |ns|, []) && NoArrayKeys(ns, |a|) && Contents(a, ns) == map[]
    ensures forall i :: 0 <= i < |ns| ==> ns[i].key == Nil
  {
    forall k
      ensures k !in Contents(a, ns)
    {
      ArrayMapIs(a, k);
    }
  }

  /** Absent keys are nil, and only they. */
  lemma HoldsNoNil(a: seq<Val>, ns: seq<Node>)
    requires Unique(ns)
    ensures forall k :: k in Contents(a, ns) ==> Contents(a, ns)[k] != Nil
  {
  }

  /** Where a key has its value. */
  datatype Slot = InArray(i: nat) | InHash(i: nat)

  lemma SameKeys(ns: seq<Node>, k: Val)
    ensures KeysFrom(ns, ns, k)
  {
  }

  lemma SameMap(a: seq<Val>, ns: seq<Node>, ns': seq<Node>)
    requires Unique(ns) && Unique(ns') && Live(ns) == Live(ns')
    ensures Contents(a, ns) == Contents(a, ns')
  {
  }

  // -- Operations on the map -------------------------------------------------------------------

  datatype Op = OpGet(k: Val) | OpSet(k: Val, v: Val) | OpIncr(k: Val, n: int)

  datatype Answer = Got(v: Val) | Stored | Refused | NotNumber

  /** One operation on a finite map; a refused store changes nothing. */
  function Step(m: map<Val, Val>, op: Op, refused: bool): (map<Val, Val>, Answer) {
    match op
    case OpGet(k) => (m, Got(Lookup(m, k)))
    case OpSet(k, v) => if refused then (m, Refused) else (Put(m, k, v), Stored)
    case OpIncr(k, n) =>
      var v := Lookup(m, k);
      if refused then (m, Refused)
      else if v.Num? then (Put(m, k, Num(Wrap64(v.n + n))), Stored)
      else if v == Nil then (Put(m, k, Num(n)), Stored)
      else (m, NotNumber)
  }

  /** m' is m with n added at k: to the number there, in 64 bits, or to nothing. A value
      that is not a number stays. */
  predicate Incremented(m: map<Val, Val>, k: Val, n: int, m': map<Val, Val>) {
    if k !in m then m' == m[k := Num(n)]
    else if m[k].Num? then
      k in m' && m'[k].Num? && Fits64(m'[k].n, m[k].n + n) && m' == m[k := m'[k]]
    else m' == m
  }

  lemma StepIncrements(m: map<Val, Val>, k: Val, n: int)
    requires k in m ==> m[k] != Nil
    ensures Incremented(m, k, n, Step(m, OpIncr(k, n), false).0)
    ensures Step(m, OpIncr(k, n), false).1 == if k in m && !m[k].Num? then NotNumber else Stored
  {
    hide Fits64, Wrap64;
    if k in m && m[k].Num? { WrapFits(m[k].n + n); }
  }

  /** There is one such map only. */
  lemma IncrementedOnce(m: map<Val, Val>, k: Val, n: int, m1: map<Val, Val>, m2: map<Val, Val>)
    requires Incremented(m, k, n, m1) && Incremented(m, k, n, m2)
    ensures m1 == m2
  {
    if k in m && m[k].Num? { Fits64Unique(m1[k].n, m2[k].n, m[k].n + n); }
  }

  /** Adding n and then l is adding their sum. */
  lemma IncrementedTwice(m: map<Val, Val>, k: Val, n: int, m1: map<Val, Val>, l: int, m2: map<Val, Val>, s: int)
    requires Incremented(m, k, n, m1) && Incremented(m1, k, l, m2) && Fits64(s, n + l)
    ensures Incremented(m, k, s, m2)
  {
    hide Fits64;
    if k !in m {
      Fits64Unique(m2[k].n, s, n + l);
    } else if m[k].Num? {
      SumsFit(m1[k].n, m[k].n, n, m2[k].n, l, s);
    }
  }

  lemma SumsFit(a: int, x: int, n: int, b: int, l: int, s: int)
    requires Fits64(a, x + n) && Fits64(b, a + l) && Fits64(s, n + l)
    ensures Fits64(b, x + n + l) && Fits64(b, x + s)
  {
    Fits64Low(b, a + l, x + n + l);
    assert -(s - (n + l)) == x + n + l - (x + s);
    Negated(s - (n + l));
    Fits64Low(b, x + n + l, x + s);
  }

  lemma Negated(d: int)
    requires d % 0x1_0000_0000_0000_0000 == 0
    ensures (-d) % 0x1_0000_0000_0000_0000 == 0
  {
    var T := 0x1_0000_0000_0000_0000;
    var k := -(d / T);
    assert -d == T * k;
    assert (T * k) % T == 0;
  }

  // -- Room ---------------------------------------------------------------------------------------

  ghost function HashKeys(ns: seq<Node>): set<Val> {
    set i | 0 <= i < |ns| && ns[i].key != Nil :: ns[i].key
  }

  /** Distinct keys in all nodes: as many as nodes. */
  lemma {:induction false} FullCount(ns: seq<Node>)
    requires Unique(ns) && forall i :: 0 <= i < |ns| ==> ns[i].key != Nil
    ensures |HashKeys(ns)| == |ns|
  {
    if ns != [] {
      var n := |ns| - 1;
      var ns' := ns[..n];
      FullCount(ns');
      assert HashKeys(ns) == HashKeys(ns') + {ns[n].key} by {
        forall k | k in HashKeys(ns)
          ensures k in HashKeys(ns') + {ns[n].key}
        {
          var i :| 0 <= i < |ns| && ns[i].key != Nil && ns[i].key == k;
          if i < n { assert ns'[i].key == k; }
        }
        forall k | k in HashKeys(ns') + {ns[n].key}
          ensures k in HashKeys(ns)
        {
          if k != ns[n].key {
            var i :| 0 <= i < |ns'| && ns'[i].key != Nil && ns'[i].key == k;
            assert ns[i].key == k;
          }
        }
      }
      assert ns[n].key !in HashKeys(ns');
    }
  }

  /** A table with room for all keys of K never refuses one of them. */
  lemma RoomFor(ns: seq<Node>, K: set<Val>, k: Val)
    requires Unique(ns) && HashKeys(ns) <= K && |K| <= |ns| && k in K && k != Nil && !Held(ns, k)
    ensures exists i :: 0 <= i < |ns| && ns[i].key == Nil
  {
    if forall i :: 0 <= i < |ns| ==> ns[i].key != Nil {
      FullCount(ns);
      assert HashKeys(ns) <= K - {k};
      CardMono(HashKeys(ns), K - {k});
    }
  }

  lemma {:induction false} CardMono(a: set<Val>, b: set<Val>)
    requires a <= b
    ensures |a| <= |b|
  {
    if a != {} {
      var x :| x in a;
      CardMono(a - {x}, b - {x});
    }
  }

  lemma KeysGrow(ns: seq<Node>, ns': seq<Node>, k: Val, K: set<Val>, asize: nat)
    requires KeysFrom(ns, ns', k) && HashKeys(ns) <= K && NoArrayKeys(ns', asize) && (ArrayKey(k, asize) || k in K)
    ensures HashKeys(ns') <= K
  {
    forall k' | k' in HashKeys(ns')
      ensures k' in K
    {
      var i :| 0 <= i < |ns'| && ns'[i].key != Nil && ns'[i].key == k';
      if k' != k {
        var j :| 0 <= j < |ns| && ns[j].key == ns'[i].key;
        assert ns[j].key in HashKeys(ns);
      }
    }
  }

  class Table {
    const hash: Hash
    const arr: array<Val>
    const node: array<Node>
    var freetop: nat          // every node from here on holds a key
    var hnum: nat
    ghost var ord: seq<nat>   // nodes that hold a key, chain after chain

    ghost predicate Valid()
      reads this, arr, node
    {
      Inv(hash, node[..], freetop, ord) && NoArrayKeys(node[..], arr.Length)
      && arr.Length <= MAX_ASIZE && node.Length <= MAX_HSIZE
    }

    /** The node that holds k. */
    method FindNode(k: Val) returns (r: Option<nat>)
      requires Valid() && k != Nil
      ensures r.Some? ==> r.value < node.Length && node[r.value].key == k
      ensures r.None? ==> !Held(node[..], k)
    {
      hide MainPos, Home, Unique, Keyed, Linked, Distinct, NoArrayKeys, Held;
      ghost var ns := node[..];
      var n := MainPos(hash, k, node.Length);
      if node[n].key == Nil {
        NotFoundBlank(hash, ns, freetop, ord, k);
        return None;
      }
      ghost var p0 := PosOf(ns, ord, n);
      ghost var p := p0;
      while true
        invariant n < |ns| && Path(ns, ord, p0, p) && ord[p] == n
        invariant forall q :: p0 <= q < p ==> ord[q] < |ns| && ns[ord[q]].key != k
        decreases |ord| - p
      {
        if node[n].key == k { return Some(n); }
        if node[n].next.None? {
          NotFound(hash, ns, freetop, ord, k, p0, p);
          return None;
        }
        ChainStep(ns, ord, p);
        n, p := node[n].next.value, p + 1;
      }
    }

    /** A node without a key, searched downwards from freetop. */
    method FindFree() returns (f: Option<nat>)
      requires Valid()
      ensures f.Some? ==> f.value < freetop <= node.Length && node[f.value].key == Nil
      ensures f.Some? ==> forall i :: f.value < i < freetop ==> node[i].key != Nil
      ensures f.None? ==> forall i :: 0 <= i < node.Length ==> node[i].key != Nil
    {
      hide MainPos, Home, Unique, Linked, Keyed;
      var i: nat := freetop;
      assert forall j :: freetop <= j < node.Length ==> node[..][j].key != Nil;
      while i > 0
        invariant i <= freetop <= node.Length && forall j :: i <= j < freetop ==> node[j].key != Nil
      {
        i := i - 1;
        if node[i].key == Nil { return Some(i); }
      }
      return None;
    }

    /** The node that links to n, on the way from the main position of n's key. */
    method FindPredecessor(collide: nat, n: nat, ghost j: nat, ghost p0: nat) returns (pred: nat)
      requires Valid() && Path(node[..], ord, j, p0) && j < p0 && ord[j] == collide && ord[p0] == n
      ensures pred == ord[p0 - 1]
    {
      hide MainPos, Home, Unique;
      ghost var ns := node[..];
      pred := collide;
      ghost var p := j;
      assert ns[ord[p]].next.Some?;
      while node[pred].next != Some(n)
        invariant j <= p < p0 && ord[p] == pred && pred < node.Length
        decreases p0 - p
      {
        assert node[pred] == ns[ord[p]] && ns[ord[p]].next.Some?;
        pred, p := node[pred].next.value, p + 1;
      }
      assert node[pred] == ns[ord[p]] && ns[ord[p]].next == Some(ord[p + 1]);
    }

    // -- New keys ------------------------------------------------------------------------------

    /** What an insertion of k guarantees; slot is its node. */
    twostate predicate Inserted(k: Val, slot: nat)
      reads this, arr, node
    {
      && Valid() && old(Unique(node[..])) && slot < node.Length && node[slot].key == k && node[slot].val == Nil
      && Live(node[..]) == old(Live(node[..])) && KeysFrom(old(node[..]), node[..], k)
    }

    /** The main node has no value: it takes the key. */
    method NewInMain(k: Val)
      requires Valid() && k != Nil && !ArrayKey(k, arr.Length) && !Held(node[..], k)
      requires node[MainPos(hash, k, node.Length)].val == Nil
      modifies this`ord, node
      ensures Inserted(k, MainPos(hash, k, node.Length))
    {
      hide MainPos, Home, Unique, Linked, Keyed, Live, KeysFrom, NoArrayKeys;
      var n := MainPos(hash, k, node.Length);
      ghost var ns := node[..];
      BlankLive(ns, n, k);
      MainKeys(ns, n, k);
      KeysFromNoArray(ns, ns[n := ns[n].(key := k)], k, arr.Length);
      if node[n].key == Nil {
        InsertBlank(hash, ns, freetop, ord, n, k);
        ord := ord + [n];
      } else {
        InsertDead(hash, ns, freetop, ord, n, k);
      }
      node[n] := node[n].(key := k);
      assert node[..] == ns[n := ns[n].(key := k)];
    }

    /** The main node holds a key of its own: the free node goes behind it. */
    method NewBehind(k: Val, n: nat, f: nat)
      requires Valid() && k != Nil && !ArrayKey(k, arr.Length) && !Held(node[..], k)
      requires n == MainPos(hash, k, node.Length)
      requires f < freetop && node[f].key == Nil && forall i :: f < i < freetop ==> node[i].key != Nil
      requires node[n].key != Nil && MainPos(hash, node[n].key, node.Length) == n
      modifies this`ord, this`freetop, node
      ensures Inserted(k, f)
    {
      hide MainPos, Home, Unique, Linked, Keyed, Live, LinkBehind, PutBehind, KeysFrom, NoArrayKeys;
      ghost var ns := node[..];
      ghost var p0 := PosOf(ns, ord, n);
      BlankHasNoVal(ns, ord, f);
      InsertBehind(hash, ns, freetop, ord, n, f, k, p0);
      BehindLive(ns, n, f, k);
      BehindKeys(ns, n, f, k);
      KeysFromNoArray(ns, LinkBehind(ns, n, f, k), k, arr.Length);
      freetop := f;
      node[f] := node[f].(next := node[n].next);
      node[n] := node[n].(next := Some(f));
      node[f] := node[f].(key := k);
      ord := PutBehind(ord, p0, f);
      assert node[..] == LinkBehind(ns, n, f, k);
    }

    /** The rechain loop: whether a string key behind f belongs to node n. */
    method RechainFinds(f: nat, n: nat, ghost ns: seq<Node>, ghost ft: nat, ghost p0: nat) returns (found: bool)
      requires Inv(hash, ns, ft, ord) && |ns| == node.Length && n < |ns| && MainPos(hash, ns[n].key, |ns|) != n
      requires p0 < |ord| && f < node.Length && node[f].next == ns[ord[p0]].next
      requires forall q :: p0 < q < |ord| ==> node[ord[q]] == ns[ord[q]]
      ensures !found
    {
      hide MainPos, Home, Unique;
      var free: nat := f;
      ghost var q := p0;
      while node[free].next.Some?
        invariant p0 <= q < |ord| && free < node.Length && node[free].next == ns[ord[q]].next
        decreases |ord| - q
      {
        assert ns[ord[q]].next.Some?;
        var nn := node[free].next.value;
        assert nn == ord[q + 1] && node[nn] == ns[nn];
        NoOwner(hash, ns, ft, ord, n, nn);
        if node[nn].key.Str? && node[nn].val != Nil && MainPos(hash, node[nn].key, node.Length) == n {
          return true;
        }
        free, q := nn, q + 1;
      }
      return false;
    }

    /** The main node holds a foreign key: that moves to the free node. */
    method NewMoving(k: Val, n: nat, f: nat)
      requires Valid() && k != Nil && !ArrayKey(k, arr.Length) && !Held(node[..], k)
      requires n == MainPos(hash, k, node.Length)
      requires f < freetop && node[f].key == Nil && forall i :: f < i < freetop ==> node[i].key != Nil
      requires node[n].key != Nil && MainPos(hash, node[n].key, node.Length) != n
      modifies this`ord, this`freetop, node
      ensures Inserted(k, n)
    {
      hide MainPos, Home, Unique, Live, MovedNodes, MovedOrder, KeysFrom, NoArrayKeys, Keyed, Linked, CanMove;
      ghost var ns, ft := node[..], freetop;
      var collide := MainPos(hash, node[n].key, node.Length);
      ghost var p0 := PosOf(ns, ord, n);
      ghost var j := GetHome(hash, ns, freetop, ord, p0);
      var pred := FindPredecessor(collide, n, j, p0);
      MoveReady(ns, freetop, ord, n, f, j, p0);
      InsertMoving(hash, ns, freetop, ord, n, f, k, p0);
      MovedLive(ns, pred, n, f, k);
      MovedKeys(ns, pred, n, f, k);
      KeysFromNoArray(ns, MovedNodes(ns, pred, n, f, k), k, arr.Length);
      freetop := f;
      node[pred] := node[pred].(next := Some(f));
      node[f] := node[n];
      node[n] := node[n].(next := None, val := Nil);
      var relink := RechainFinds(f, n, ns, ft, p0);
      node[n] := node[n].(key := k);
      ord := MovedOrder(ord, p0, f, n);
      assert node[..] == MovedNodes(ns, pred, n, f, k);
    }

    lemma MoveReady(ns: seq<Node>, ft: nat, ord: seq<nat>, n: nat, f: nat, j: nat, p0: nat)
      requires Inv(hash, ns, ft, ord) && Path(ns, ord, j, p0) && j < p0 && ord[p0] == n && n < |ns|
      requires f < |ns| && ns[f].key == Nil
      ensures CanMove(ns, ord, n, f, p0) && ord[p0 - 1] < |ns|
      ensures forall q :: p0 < q < |ord| ==> ord[q] < |ns| && ord[q] != n && ord[q] != ord[p0 - 1] && ord[q] != f
    {
      hide Home, MainPos, Unique;
    }

    /** kp_tab_newkey: insert a key that is not held. */
    method NewKey(k: Val) returns (slot: Option<nat>)
      requires Valid() && k != Nil && !ArrayKey(k, arr.Length) && !Held(node[..], k)
      modifies this`ord, this`freetop, this`hnum, node
      ensures slot.Some? ==> Inserted(k, slot.value)
      ensures slot.None? <==> old(node[MainPos(hash, k, node.Length)].val != Nil && forall i :: 0 <= i < node.Length ==>
                node[i].key != Nil)
      ensures slot.None? ==> Valid() && node[..] == old(node[..]) && freetop == old(freetop) && hnum == old(hnum)
    {
      hide MainPos, Home, Unique, Live, Linked, Keyed, KeysFrom, NoArrayKeys;
      var n := MainPos(hash, k, node.Length);
      if node[n].val == Nil {
        NewInMain(k);
        slot := Some(n);
      } else {
        LiveHasKey(node[..], ord, n);
        var f := FindFree();
        if f.None? { return None; }
        var collide := MainPos(hash, node[n].key, node.Length);
        if collide != n {
          NewMoving(k, n, f.value);
          slot := Some(n);
        } else {
          NewBehind(k, n, f.value);
          slot := f;
        }
      }
      hnum := hnum + 1;
    }

    // -- Access by key -----------------------------------------------------------------------------

    ghost function Map(): map<Val, Val>
      requires Valid()
      reads this, arr, node
    {
      Contents(arr[..], node[..])
    }

    /** A table without a hash part: the node pointer is not set, so only array keys
        may be asked for. */
    ghost predicate ArrayOnly()
      reads this
    {
      node.Length == 0 && arr.Length <= MAX_ASIZE
    }

    /** The entries of a table with or without a hash part. */
    ghost function Entries(): map<Val, Val>
      requires Valid() || ArrayOnly()
      reads this, arr, node
    {
      if node.Length == 0 then ArrayMap(arr[..]) else Map()
    }

    lemma HasHash()
      ensures Valid() ==> node.Length > 0
    {
      if Valid() { InvUnique(); }
    }

    /** kp_tab_get: the value of a key. */
    method Get(k: Val) returns (v: Val)
      requires Valid() || (ArrayOnly() && (k == Nil || ArrayKey(k, arr.Length)))
      ensures v == Lookup(Entries(), k) && (Valid() ==> v == if k in Map() then Map()[k] else Nil)
    {
      hide Inv, Contents, Held, ArrayMap;
      HasHash();
      ArrayMapIs(arr[..], k);
      if k == Nil && node.Length == 0 { return Nil; }
      if k.Num? && 0 <= k.n < TWO32 && k.n < arr.Length && node.Length == 0 { return arr[k.n]; }
      InvUnique();
      ContentsIs(arr[..], node[..], k);
      if k == Nil { return Nil; }
      if k.Num? && 0 <= k.n < TWO32 && k.n < arr.Length { return arr[k.n]; }
      var r := FindNode(k);
      assert r.Some? ==> node[..][r.value].key == k;
      return if r.None? then Nil else node[r.value].val;
    }

    lemma InvUnique()
      requires Valid()
      ensures Unique(node[..]) && node.Length > 0
    {
      hide Home, Keyed, Linked, Unique, MainPos;
    }

    /** Whether a store to k finds a place. */
    ghost predicate HasPlace(k: Val)
      requires Valid()
      reads this, arr, node
    {
      && k != Nil
      && (|| ArrayKey(k, arr.Length) || Held(node[..], k)
          || node[MainPos(hash, k, node.Length)].val == Nil
          || exists i :: 0 <= i < node.Length && node[i].key == Nil)
    }

    /** The place a store to k goes to, made if there is none; None is an error.
        Making one does not change what the table holds. */
    method Place(k: Val) returns (r: Option<Slot>)
      requires Valid()
      modifies this`ord, this`freetop, this`hnum, node
      ensures Valid() && Map() == old(Map()) && KeysFrom(old(node[..]), node[..], k)
      ensures r.Some? <==> old(HasPlace(k))
      ensures r.None? ==> node[..] == old(node[..]) && freetop == old(freetop)
      ensures old(ArrayKey(k, arr.Length) || Held(node[..], k)) ==> node[..] == old(node[..])
      ensures r.Some? ==> IsPlace(r.value, k)
    {
      hide Inv, Contents, Unique, MainPos, NoArrayKeys, Live, KeysFrom;
      InvUnique();
      SameKeys(node[..], k);
      if k == Nil { return None; }
      if k.Num? && 0 <= k.n < TWO32 && k.n < arr.Length { return Some(InArray(k.n)); }
      var i := FindNode(k);
      if i.Some? {
        assert node[..][i.value].key == k;
        return Some(InHash(i.value));
      }
      i := NewKey(k);
      InvUnique();
      SameMap(arr[..], old(node[..]), node[..]);
      SameKeys(node[..], k);
      return if i.None? then None else Some(InHash(i.value));
    }

    ghost predicate IsPlace(s: Slot, k: Val)
      reads this, arr, node
    {
      match s
      case InArray(i) => i < arr.Length && k == Num(i)
      case InHash(i) => i < node.Length && node[i].key == k && k != Nil
    }

    /** Store a value in its place. */
    method Store(s: Slot, k: Val, v: Val)
      requires Valid() && IsPlace(s, k)
      modifies arr, node
      ensures Valid() && Map() == Put(old(Map()), k, v)
      ensures forall i :: 0 <= i < node.Length ==> node[i].key == old(node[i].key)
    {
      hide Inv, Contents, Unique, MainPos, Live, Put;
      InvUnique();
      ghost var a, ns := arr[..], node[..];
      match s
      case InArray(i) =>
        ArrayStore(a, ns, i, v);
        arr[i] := v;
        assert arr[..] == a[i := v];
        assert node[..] == ns;
      case InHash(i) =>
        HashStore(a, ns, i, v);
        StoreInv(hash, ns, freetop, ord, i, v);
        node[i] := node[i].(val := v);
        assert node[..] == ns[i := ns[i].(val := v)];
        assert arr[..] == a;
    }

    /** kp_tab_set: a store; false when it is refused. */
    method Set(k: Val, v: Val) returns (ok: bool)
      requires Valid()
      modifies this`ord, this`freetop, this`hnum, arr, node
      ensures Valid() && ok == old(HasPlace(k)) && Map() == if ok then Put(old(Map()), k, v) else old(Map())
      ensures ok ==> Map() == if v == Nil then old(Map()) - {k} else old(Map())[k := v]
      ensures KeysFrom(old(node[..]), node[..], k)
      ensures ok && !ArrayKey(k, arr.Length) ==> Held(node[..], k)
      ensures k != Nil && old(ArrayKey(k, arr.Length) || Held(node[..], k)) ==>
                ok && forall i :: 0 <= i < node.Length ==> node[i].key == old(node[i].key)
    {
      hide Inv, Contents, Unique, MainPos, Live, NoArrayKeys;
      var r := Place(k);
      ok := r.Some?;
      if ok {
        Store(r.value, k, v);
        assert r.value.InHash? ==> node[..][r.value.i].key == k;
      }
    }

    /** kp_tab_incr: add n to a number; nil counts as absent. */
    method Incr(k: Val, n: int) returns (a: Answer)
      requires Valid()
      modifies this`ord, this`freetop, this`hnum, arr, node
      ensures Valid() && (a.Refused? <==> !old(HasPlace(k)))
      ensures (Map(), a) == Step(old(Map()), OpIncr(k, n), a.Refused?)
      ensures if a.Refused? then Map() == old(Map()) else Incremented(old(Map()), k, n, Map())
      ensures !a.Refused? ==> a == if old(k in Map() && !Map()[k].Num?) then NotNumber else Stored
      ensures KeysFrom(old(node[..]), node[..], k)
    {
      hide Inv, Contents, Unique, MainPos, Live, Put, NoArrayKeys, Incremented, Wrap64;
      var r := Place(k);
      if r.None? { return Refused; }
      InvUnique();
      HoldsNoNil(arr[..], node[..]);
      StepIncrements(Map(), k, n);
      ContentsIs(arr[..], node[..], k);
      var v := match r.value case InArray(i) => arr[i] case InHash(i) => node[..][i].val;
      assert v == Lookup(Map(), k) by { PlaceValue(r.value, k); }
      if v.Num? {
        Store(r.value, k, Num(Wrap64(v.n + n)));
      } else if v == Nil {
        Store(r.value, k, Num(n));
      } else {
        return NotNumber;
      }
      return Stored;
    }

    lemma PlaceValue(s: Slot, k: Val)
      requires Valid() && IsPlace(s, k)
      ensures Lookup(Map(), k) == match s case InArray(i) => arr[i] case InHash(i) => node[i].val
    {
      hide Inv, Contents, Unique;
      InvUnique();
      ContentsIs(arr[..], node[..], k);
      if s.InHash? { assert node[..][s.i].key == k; }
    }

    // -- Creation ------------------------------------------------------------------------------------

    /** Allocation; strhash gives the hashes that strings carry. */
    constructor (strhash: string -> nat, asize: nat, hsize: nat)
      requires hsize <= MAX_HSIZE && asize <= MAX_ASIZE
      ensures (if hsize == 0 then ArrayOnly() else Valid()) && Entries() == map[] && HashKeys(node[..]) == {}
      ensures arr.Length == asize && node.Length == hsize && fresh(arr) && fresh(node)
    {
      hash := k => KeyHash(strhash, k);
      arr := new Val[asize];
      node := new Node[hsize](_ => Node(Nil, Nil, None));
      new;
      Clear();
    }

    /** kp_tab_clear: forget everything. */
    method Clear()
      requires node.Length <= MAX_HSIZE && arr.Length <= MAX_ASIZE
      modifies this`ord, this`freetop, this`hnum, arr, node
      ensures (if node.Length == 0 then ArrayOnly() else Valid()) && Entries() == map[] && HashKeys(node[..]) == {}
    {
      hide Inv, Contents, NoArrayKeys;
      for i := 0 to arr.Length
        invariant forall j :: 0 <= j < i ==> arr[j] == Nil
      {
        arr[i] := Nil;
      }
      if node.Length == 0 { return; }
      freetop := node.Length;
      for i := 0 to node.Length
        invariant forall j :: 0 <= j < i ==> node[j] == Node(Nil, Nil, None)
        invariant freetop == node.Length && forall j :: 0 <= j < arr.Length ==> arr[j] == Nil
      {
        node[i] := Node(Nil, Nil, None);
      }
      hnum := 0;
      ord := [];
      BlankTable(hash, arr[..], node[..]);
    }
  }

  // -- Sizes -----------------------------------------------------------------------------------------

  function Pow2(n: nat): (r: nat)
    ensures r > 0
  {
    if n == 0 then 1 else 2 * Pow2(n - 1)
  }

  lemma {:induction false} Pow2Rises(m: nat, n: nat)
    requires m <= n
    ensures Pow2(m) <= Pow2(n)
    decreases n
  {
    if m < n { Pow2Rises(m, n - 1); }
  }

  lemma HSizeLimit()
    ensures Pow2(MAX_HBITS) == MAX_HSIZE
  {
    assert Pow2(5) == 32;
    assert Pow2(10) == 1024;
    assert Pow2(15) == 32768;
    assert Pow2(20) == 0x10_0000;
    assert Pow2(25) == 0x200_0000;
  }

  /** Position of the highest bit. */
  function Fls(x: nat): nat
    requires x > 0
  {
    if x == 1 then 0 else 1 + Fls(x / 2)
  }

  /** hsize2hbits: bits for a hash part of s records. */
  function HBits(s: nat): nat {
    if s == 0 then 0 else if s == 1 then 1 else 1 + Fls(s - 1)
  }

  lemma {:induction false} FlsBounds(x: nat)
    requires x > 0
    ensures Pow2(Fls(x)) <= x < Pow2(Fls(x) + 1)
  {
    if x > 1 {
      FlsBounds(x / 2);
    }
  }

  /** The hash part has at least as many nodes as were asked for, and fewer than twice as many. */
  lemma HBitsFit(s: nat)
    requires s > 0
    ensures s <= Pow2(HBits(s)) && (s > 1 ==> Pow2(HBits(s)) < 2 * s)
  {
    if s > 1 { FlsBounds(s - 1); }
  }

  const MAX_HBITS: nat := 26
  const TABLE_NARR_ENTRIES: nat := 255
  const TABLE_NREC_ENTRIES: nat := 2048

  /** kp_tab_new: null when a size is over its limit; no bits mean no hash part. */
  method NewTable(strhash: string -> nat, asize: nat, hbits: nat) returns (t: Table?)
    ensures t == null <==> asize > 0x800_0001 || hbits > 26
    ensures t != null ==> fresh(t) && fresh(t.arr) && fresh(t.node) && t.arr.Length == asize
    ensures t != null ==> (if hbits == 0 then t.ArrayOnly() else t.Valid() && t.node.Length == Pow2(hbits))
    ensures t != null ==> t.Entries() == map[] && HashKeys(t.node[..]) == {}
  {
    if asize > MAX_ASIZE || hbits > MAX_HBITS { return null; }
    Pow2Rises(hbits, MAX_HBITS);
    HSizeLimit();
    t := new Table(strhash, asize, if hbits == 0 then 0 else Pow2(hbits));
  }

  lemma DefaultSize()
    ensures Pow2(HBits(2048)) == 2048
  {
    assert Fls(7) == 2;
    assert Fls(63) == 5;
    assert Fls(511) == 8;
    assert Fls(2047) == 10;
    assert Pow2(5) == 32;
    assert Pow2(9) == 512;
    assert Pow2(11) == 2048;
  }

  /** kp_tab_new_ah: a table for a array entries and h records; without any, for a
      default number of both. */
  method NewTableFor(strhash: string -> nat, a: int, h: nat) returns (t: Table?)
    ensures t == null <==> a >= 0x800_0001 || HBits(h) > 26
    ensures t != null ==> fresh(t) && fresh(t.arr) && fresh(t.node)
    ensures t != null ==> (if h == 0 && a != 0 then t.ArrayOnly() else t.Valid())
    ensures t != null ==> t.Entries() == map[] && HashKeys(t.node[..]) == {}
    ensures t != null && a == 0 && h == 0 ==> t.arr.Length == 256 && t.node.Length == 2048
    ensures t != null && h > 1 ==> t.node.Length < 2 * h
    ensures t != null ==> h <= t.node.Length && (forall i :: 1 <= i <= a ==> ArrayKey(Num(i), t.arr.Length))
  {
    var a1, h1 := a, h;
    if a == 0 && h == 0 {
      a1, h1 := TABLE_NARR_ENTRIES, TABLE_NREC_ENTRIES;
      DefaultSize();
    }
    if h1 > 0 { HBitsFit(h1); }
    t := NewTable(strhash, if a1 > 0 then a1 + 1 else 0, HBits(h1));
  }

  // -- Runs --------------------------------------------------------------------------------------------

  /** The map before operation i of a run with these answers. */
  function MapAt(m: map<Val, Val>, ops: seq<Op>, answers: seq<Answer>, i: nat): map<Val, Val>
    requires i <= |ops| && i <= |answers|
  {
    if i == 0 then m else Step(MapAt(m, ops, answers, i - 1), ops[i - 1], answers[i - 1].Refused?).0
  }

  lemma {:induction false} MapAtPrefix(m: map<Val, Val>, ops: seq<Op>, answers: seq<Answer>, more: seq<Answer>, i: nat)
    requires i <= |ops| && i <= |answers|
    ensures MapAt(m, ops, answers + more, i) == MapAt(m, ops, answers, i)
  {
    if i > 0 { MapAtPrefix(m, ops, answers, more, i - 1); }
  }

  /** Every operation answers what the map says, whatever was stored before. */
  ghost predicate Agrees(m: map<Val, Val>, ops: seq<Op>, answers: seq<Answer>, m': map<Val, Val>) {
    && |answers| == |ops| && m' == MapAt(m, ops, answers, |ops|)
    && forall i :: 0 <= i < |ops| ==> answers[i] == Step(MapAt(m, ops, answers, i), ops[i], answers[i].Refused?).1
  }

  // -- Counting -----------------------------------------------------------------------------------

  predicate Increments(ops: seq<Op>) {
    forall j :: 0 <= j < |ops| ==> ops[j].OpIncr?
  }

  /** What the first i operations add at k. */
  function Total(ops: seq<Op>, k: Val, i: nat): int
    requires i <= |ops| && Increments(ops)
  {
    if i == 0 then 0 else Total(ops, k, i - 1) + if ops[i - 1].k == k then ops[i - 1].n else 0
  }

  predicate Touched(ops: seq<Op>, k: Val, i: nat)
    requires i <= |ops|
  {
    exists j :: 0 <= j < i && ops[j].k == k
  }

  /** The map has the total at k once k was touched, and is as it was there before. */
  ghost predicate Counts(m: map<Val, Val>, ops: seq<Op>, k: Val, i: nat, m': map<Val, Val>)
    requires i <= |ops| && Increments(ops)
  {
    if Touched(ops, k, i) then k in m' && m'[k].Num? && Fits64(m'[k].n, Total(ops, k, i))
    else (k in m' <==> k in m) && (k in m ==> m'[k] == m[k])
  }

  /** A run of increments, all stored, of keys that were absent: in the end every key
      holds the sum of what was added to it, in 64 bits. */
  lemma {:induction false} RunCounts(m: map<Val, Val>, ops: seq<Op>, answers: seq<Answer>, i: nat, k: Val)
    requires i <= |ops| == |answers| && Increments(ops) && Refused !in answers
    requires forall j :: 0 <= j < |ops| ==> ops[j].k !in m && Fits64(ops[j].n, ops[j].n)
    ensures Counts(m, ops, k, i, MapAt(m, ops, answers, i))
  {
    hide Fits64, Step;
    if i > 0 {
      RunCounts(m, ops, answers, i - 1, k);
      var (was, op) := (MapAt(m, ops, answers, i - 1), ops[i - 1]);
      assert answers[i - 1] in answers;
      assert MapAt(m, ops, answers, i) == Step(was, op, false).0;
      if op.k == k {
        assert Touched(ops, k, i);
        StepIncrements(was, k, op.n);
        CountMore(m, ops, k, i, was, Step(was, op, false).0);
      } else {
        StepElsewhere(was, op, k);
        assert Touched(ops, k, i) <==> Touched(ops, k, i - 1);
      }
    }
  }

  lemma CountMore(m: map<Val, Val>, ops: seq<Op>, k: Val, i: nat, was: map<Val, Val>, m': map<Val, Val>)
    requires 0 < i <= |ops| && Increments(ops) && ops[i - 1].k == k && k !in m && Fits64(ops[i - 1].n, ops[i - 1].n)
    requires Counts(m, ops, k, i - 1, was) && Incremented(was, k, ops[i - 1].n, m')
    ensures k in m' && m'[k].Num? && Fits64(m'[k].n, Total(ops, k, i))
  {
    hide Fits64;
    if Touched(ops, k, i - 1) {
      var (t, n) := (Total(ops, k, i - 1), ops[i - 1].n);
      AddFits(was[k].n, t, m'[k].n, n);
    } else {
      NoTotal(ops, k, i - 1);
    }
  }

  lemma AddFits(a: int, t: int, b: int, n: int)
    requires Fits64(a, t) && Fits64(b, a + n)
    ensures Fits64(b, t + n)
  {
    Fits64Low(b, a + n, t + n);
  }

  lemma {:induction false} NoTotal(ops: seq<Op>, k: Val, i: nat)
    requires i <= |ops| && Increments(ops) && !Touched(ops, k, i)
    ensures Total(ops, k, i) == 0
  {
    if i > 0 {
      assert ops[i - 1].k != k;
      NoTotal(ops, k, i - 1);
    }
  }

  lemma StepElsewhere(m: map<Val, Val>, op: Op, k: Val)
    requires op.OpIncr? && op.k != k
    ensures var m' := Step(m, op, false).0; (k in m' <==> k in m) && (k in m ==> m'[k] == m[k])
  {
    hide Wrap64;
  }

  /** All keys of a run are in K, or in the array part. */
  ghost predicate RunWithin(ops: seq<Op>, K: set<Val>, asize: nat) {
    forall i :: 0 <= i < |ops| ==> ops[i].k != Nil && (ArrayKey(ops[i].k, asize) || ops[i].k in K)
  }

  /** One operation on a table. */
  method Apply(t: Table, op: Op) returns (a: Answer)
    requires t.Valid()
    modifies t`ord, t`freetop, t`hnum, t.arr, t.node
    ensures t.Valid() && (t.Map(), a) == Step(old(t.Map()), op, a.Refused?)
    ensures a.Refused? <==> !op.OpGet? && !old(t.HasPlace(op.k))
    ensures KeysFrom(old(t.node[..]), t.node[..], op.k)
  {
    hide Inv, Contents, Unique, MainPos, Live, Put, NoArrayKeys, KeysFrom;
    match op
    case OpGet(k) =>
      var v := t.Get(k);
      SameKeys(t.node[..], k);
      a := Got(v);
    case OpSet(k, v) =>
      var ok := t.Set(k, v);
      a := if ok then Stored else Refused;
    case OpIncr(k, n) =>
      a := t.Incr(k, n);
  }

  /** Any run of operations behaves like the same run on a finite map. If its
      keys, with those held already, are no more than the nodes, no store is refused. */
  method Run(t: Table, ops: seq<Op>, ghost K: set<Val>) returns (answers: seq<Answer>)
    requires t.Valid()
    modifies t`ord, t`freetop, t`hnum, t.arr, t.node
    ensures t.Valid() && Agrees(old(t.Map()), ops, answers, t.Map())
    ensures old(HashKeys(t.node[..]) <= K && |K| <= t.node.Length && RunWithin(ops, K, t.arr.Length)) ==>
              Refused !in answers
  {
    hide Inv, Contents, Unique, MainPos, Live, Put, NoArrayKeys, KeysFrom, Step, HashKeys, ArrayKey, MapAt, AgreesUpTo;
    answers := [];
    RunStart(t.Map(), ops);
    ghost var m := t.Map();
    ghost var fits := HashKeys(t.node[..]) <= K && |K| <= t.node.Length && RunWithin(ops, K, t.arr.Length);
    for i := 0 to |ops|
      invariant t.Valid() && |answers| == i && t.Map() == MapAt(m, ops, answers, i)
      invariant AgreesUpTo(m, ops, answers, i)
      invariant fits ==> HashKeys(t.node[..]) <= K && Refused !in answers
    {
      ghost var ns := t.node[..];
      if fits { NotRefused(t, K, ops[i].k); }
      var a := Apply(t, ops[i]);
      if fits { KeysGrow(ns, t.node[..], ops[i].k, K, t.arr.Length); }
      AgreesMore(m, ops, answers, a, i);
      answers := answers + [a];
    }
    RunEnd(m, ops, answers);
  }

  /** Every operation before i answered what the map says. */
  ghost predicate AgreesUpTo(m: map<Val, Val>, ops: seq<Op>, answers: seq<Answer>, i: nat) {
    && i <= |answers| && i <= |ops|
    && forall j :: 0 <= j < i ==> answers[j] == Step(MapAt(m, ops, answers, j), ops[j], answers[j].Refused?).1
  }

  lemma RunStart(m: map<Val, Val>, ops: seq<Op>)
    ensures AgreesUpTo(m, ops, [], 0) && MapAt(m, ops, [], 0) == m
  {
  }

  lemma RunEnd(m: map<Val, Val>, ops: seq<Op>, answers: seq<Answer>)
    requires |answers| == |ops| && AgreesUpTo(m, ops, answers, |ops|)
    ensures Agrees(m, ops, answers, MapAt(m, ops, answers, |ops|))
  {
    hide Step, MapAt;
  }

  lemma AgreesMore(m: map<Val, Val>, ops: seq<Op>, answers: seq<Answer>, a: Answer, i: nat)
    requires |answers| == i < |ops| && AgreesUpTo(m, ops, answers, i)
    requires a == Step(MapAt(m, ops, answers, i), ops[i], a.Refused?).1
    ensures AgreesUpTo(m, ops, answers + [a], i + 1)
    ensures MapAt(m, ops, answers + [a], i + 1) == Step(MapAt(m, ops, answers, i), ops[i], a.Refused?).0
  {
    hide Step;
    forall j | 0 <= j <= i
      ensures MapAt(m, ops, answers + [a], j) == MapAt(m, ops, answers, j)
    {
      MapAtPrefix(m, ops, answers, [a], j);
    }
  }

  lemma NotRefused(t: Table, K: set<Val>, k: Val)
    requires t.Valid() && HashKeys(t.node[..]) <= K && |K| <= t.node.Length
    requires k != Nil && (ArrayKey(k, t.arr.Length) || k in K)
    ensures t.HasPlace(k)
  {
    hide Inv, MainPos, NoArrayKeys, HashKeys;
    t.InvUnique();
    if !ArrayKey(k, t.arr.Length) && !Held(t.node[..], k) {
      RoomFor(t.node[..], K, k);
      var i :| 0 <= i < t.node.Length && t.node[..][i].key == Nil;
      assert t.node[i].key == Nil;
    }
  }
}
