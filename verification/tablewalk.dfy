/** Traversal of a table by its keys. */
module TableWalk {
  import opened Values
  import opened HashNodes
  import opened Tables

  // -- Traversal order ---------------------------------------------------------------------

  /** Keys in traversal order: array indexes, then nodes. */
  function KeysOf(asize: nat, ns: seq<Node>): (r: seq<Val>)
    ensures |r| == asize + |ns|
    ensures forall i :: 0 <= i < asize ==> r[i] == Num(i)
    ensures forall i :: asize <= i < |r| ==> r[i] == ns[i - asize].key
  {
    seq(asize, i => Num(i)) + seq(|ns|, i requires 0 <= i < |ns| => ns[i].key)
  }

  function ValsOf(a: seq<Val>, ns: seq<Node>): (r: seq<Val>)
    ensures |r| == |a| + |ns|
    ensures forall i :: 0 <= i < |a| ==> r[i] == a[i]
    ensures forall i :: |a| <= i < |r| ==> r[i] == ns[i - |a|].val
  {
    a + seq(|ns|, i requires 0 <= i < |ns| => ns[i].val)
  }

  /** First index from `from` on with a value. */
  function FirstLive(vals: seq<Val>, from: nat): (r: nat)
    ensures r <= |vals| || r == from
    ensures r >= from || r == |vals|
    decreases |vals| - from
  {
    if from >= |vals| then |vals| else if vals[from] != Nil then from else FirstLive(vals, from + 1)
  }

  lemma {:induction false} FirstLiveIs(vals: seq<Val>, from: nat)
    requires from <= |vals|
    ensures var r := FirstLive(vals, from);
            from <= r <= |vals| && (r < |vals| ==> vals[r] != Nil) && forall i :: from <= i < r ==> vals[i] == Nil
    decreases |vals| - from
  {
    if from < |vals| && vals[from] == Nil { FirstLiveIs(vals, from + 1); }
  }

  lemma FirstLiveFound(vals: seq<Val>, from: nat, r: nat)
    requires from <= r <= |vals| && (r < |vals| ==> vals[r] != Nil) && forall i :: from <= i < r ==> vals[i] == Nil
    ensures FirstLive(vals, from) == r
  {
    FirstLiveIs(vals, from);
  }

  // -- Walks ---------------------------------------------------------------------------------

  /** A whole traversal that visits `visited` while the values are vs[0], vs[1], … */
  ghost predicate Walk(n: nat, vs: seq<seq<Val>>, visited: seq<nat>) {
    && |vs| == |visited| + 1 && (forall t :: 0 <= t < |vs| ==> |vs[t]| == n)
    && (forall t :: 0 <= t < |visited| ==> WalkStep(n, vs, visited, t))
    && FirstLive(vs[|visited|], From(visited, |visited|)) == n
  }

  predicate WalkStep(n: nat, vs: seq<seq<Val>>, visited: seq<nat>, t: nat)
    requires t < |visited| && t < |vs|
  {
    visited[t] == FirstLive(vs[t], From(visited, t)) < n
  }

  /** Where step t starts to look. */
  function From(visited: seq<nat>, t: nat): nat
    requires t <= |visited|
  {
    if t == 0 then 0 else visited[t - 1] + 1
  }

  /** Visited indexes only go up. */
  lemma {:induction false} WalkRises(n: nat, vs: seq<seq<Val>>, visited: seq<nat>, s: nat, t: nat)
    requires Walk(n, vs, visited) && s < t < |visited|
    ensures visited[s] < visited[t]
    decreases t - s
  {
    hide FirstLive;
    assert WalkStep(n, vs, visited, t) && WalkStep(n, vs, visited, t - 1);
    FirstLiveIs(vs[t], From(visited, t));
    if s < t - 1 { WalkRises(n, vs, visited, s, t - 1); }
  }

  /** What has a value all the time is not missed. */
  lemma {:induction false} WalkMeets(n: nat, vs: seq<seq<Val>>, visited: seq<nat>, x: nat, t: nat)
    requires Walk(n, vs, visited) && x < n && t <= |visited|
    requires forall s :: t <= s < |vs| ==> vs[s][x] != Nil
    requires From(visited, t) <= x
    ensures x in visited[t..]
    decreases |visited| - t
  {
    hide FirstLive;
    if t > 0 { assert WalkStep(n, vs, visited, t - 1); }
    FirstLiveIs(vs[t], From(visited, t));
    if t < |visited| { assert WalkStep(n, vs, visited, t); }
    if t < |visited| && visited[t] != x {
      WalkMeets(n, vs, visited, x, t + 1);
      assert visited[t + 1..] == visited[t..][1..];
    }
  }

  /** A traversal visits nothing twice, only what has a value then, and
      everything that has a value all the time. */
  lemma WalkVisits(n: nat, vs: seq<seq<Val>>, visited: seq<nat>)
    requires Walk(n, vs, visited)
    ensures forall s, t :: 0 <= s < t < |visited| ==> visited[s] != visited[t]
    ensures forall t :: 0 <= t < |visited| ==> visited[t] < n && vs[t][visited[t]] != Nil
    ensures forall x :: 0 <= x < n && (forall t :: 0 <= t < |vs| ==> vs[t][x] != Nil) ==> x in visited
  {
    hide FirstLive;
    forall s, t | 0 <= s < t < |visited|
      ensures visited[s] != visited[t]
    {
      WalkRises(n, vs, visited, s, t);
    }
    forall t | 0 <= t < |visited|
      ensures visited[t] < n && vs[t][visited[t]] != Nil
    {
      assert WalkStep(n, vs, visited, t);
      if t > 0 { assert WalkStep(n, vs, visited, t - 1); }
      FirstLiveIs(vs[t], From(visited, t));
    }
    forall x | 0 <= x < n && (forall t :: 0 <= t < |vs| ==> vs[t][x] != Nil)
      ensures x in visited
    {
      WalkMeets(n, vs, visited, x, 0);
      assert visited[0..] == visited;
    }
  }

  // -- Traversal by key -------------------------------------------------------------------------

  const NO_INDEX: nat := 0xffff_ffff

  /** Keys do not occur twice in the traversal order. */
  lemma KeysDistinct(asize: nat, ns: seq<Node>, i: nat, j: nat)
    requires Unique(ns) && NoArrayKeys(ns, asize) && i < asize + |ns| && j < asize + |ns|
    requires KeysOf(asize, ns)[i] == KeysOf(asize, ns)[j] != Nil
    ensures i == j
  {
    hide KeysOf;
  }

  /** keyindex: the place of a key in the traversal order; nil is before all. */
  method KeyIndex(t: Table, k: Val) returns (i: nat, err: bool)
    requires t.Valid()
    ensures err <==> k != Nil && k !in KeysOf(t.arr.Length, t.node[..])
    ensures if err then i == 0
            else if k == Nil then i == 0xffff_ffff
            else i < t.arr.Length + t.node.Length && KeysOf(t.arr.Length, t.node[..])[i] == k
  {
    hide Inv, NoArrayKeys, KeysOf;
    ghost var ks := KeysOf(t.arr.Length, t.node[..]);
    if k.Num? && 0 <= k.n < t.arr.Length {
      assert ks[k.n] == k;
      return k.n, false;
    }
    if k != Nil {
      var n := t.FindNode(k);
      if n.Some? {
        assert ks[t.arr.Length + n.value] == t.node[..][n.value].key;
        return t.arr.Length + n.value, false;
      }
      NotAKey(t.arr.Length, t.node[..], k);
      return 0, true;
    }
    return NO_INDEX, false;
  }

  lemma NotAKey(asize: nat, ns: seq<Node>, k: Val)
    requires !ArrayKey(k, asize) && !Held(ns, k)
    ensures k !in KeysOf(asize, ns)
  {
    hide KeysOf;
    var ks := KeysOf(asize, ns);
    forall i | 0 <= i < |ks|
      ensures ks[i] != k
    {
      if i < asize { assert ks[i] == Num(i); } else { assert ks[i] == ns[i - asize].key; }
    }
  }

  /** What a traversal step reports for an index. */
  function PairAt(ks: seq<Val>, vs: seq<Val>, i: nat): Option<(Val, Val)>
    requires |ks| == |vs|
  {
    if i < |vs| then Some((ks[i], vs[i])) else None
  }

  /** The loops of kp_tab_next: the first pair from index i on. */
  method NextFrom(t: Table, i: nat) returns (r: Option<(Val, Val)>)
    requires t.Valid() && i <= t.arr.Length + t.node.Length
    ensures var vs := ValsOf(t.arr[..], t.node[..]);
            r == PairAt(KeysOf(t.arr.Length, t.node[..]), vs, FirstLive(vs, i))
  {
    hide Inv, NoArrayKeys, KeysOf, ValsOf, FirstLive, Held;
    ghost var vs := ValsOf(t.arr[..], t.node[..]);
    ghost var ks := KeysOf(t.arr.Length, t.node[..]);
    var x := i;
    while x < t.arr.Length
      invariant i <= x <= |vs| && forall j :: i <= j < x ==> vs[j] == Nil
    {
      assert vs[x] == t.arr[x];
      if t.arr[x] != Nil {
        FirstLiveFound(vs, i, x);
        assert ks[x] == Num(x);
        return Some((Num(x), t.arr[x]));
      }
      x := x + 1;
    }
    x := x - t.arr.Length;
    while x < t.node.Length
      invariant i <= x + t.arr.Length <= |vs| && forall j :: i <= j < x + t.arr.Length ==> vs[j] == Nil
    {
      ghost var j := x + t.arr.Length;
      assert vs[j] == t.node[..][x].val && ks[j] == t.node[..][x].key;
      if t.node[x].val != Nil {
        FirstLiveFound(vs, i, j);
        return Some((t.node[x].key, t.node[x].val));
      }
      x := x + 1;
    }
    FirstLiveFound(vs, i, |vs|);
    return None;
  }

  /** kp_tab_next: the pair behind key k; None at the end. */
  method Next(t: Table, k: Val) returns (r: Option<(Val, Val)>, err: bool, ghost i: nat)
    requires t.Valid()
    ensures err <==> k != Nil && k !in KeysOf(t.arr.Length, t.node[..])
    ensures err ==> i == 1
    ensures !err && k == Nil ==> i == 0
    ensures !err && k != Nil ==> 0 < i <= t.arr.Length + t.node.Length && KeysOf(t.arr.Length, t.node[..])[i - 1] == k
    ensures var vs := ValsOf(t.arr[..], t.node[..]);
            r == PairAt(KeysOf(t.arr.Length, t.node[..]), vs, FirstLive(vs, i))
  {
    hide Inv, NoArrayKeys, KeysOf, ValsOf, FirstLive, PairAt, Held;
    t.InvUnique();
    var x;
    x, err := KeyIndex(t, k);
    x := (x + 1) % TWO32;
    i := x;
    r := NextFrom(t, x);
  }

  // -- Whole traversals --------------------------------------------------------------------------

  /** Stores to keys the table has already. */
  ghost predicate OnKeys(asize: nat, ns: seq<Node>, stores: seq<(Val, Val)>) {
    forall i :: 0 <= i < |stores| ==> stores[i].0 != Nil && (ArrayKey(stores[i].0, asize) || Held(ns, stores[i].0))
  }

  /** Change values of keys the table has; no key comes or goes. */
  method StoreAll(t: Table, stores: seq<(Val, Val)>)
    requires t.Valid() && OnKeys(t.arr.Length, t.node[..], stores)
    modifies t`ord, t`freetop, t`hnum, t.arr, t.node
    ensures t.Valid() && KeysOf(t.arr.Length, t.node[..]) == old(KeysOf(t.arr.Length, t.node[..]))
    ensures forall k :: Held(t.node[..], k) <==> old(Held(t.node[..], k))
    ensures stores == [] ==> t.arr[..] == old(t.arr[..]) && t.node[..] == old(t.node[..])
  {
    hide Inv, NoArrayKeys, Contents, Put, KeysFrom, KeysOf, Held, MainPos;
    for i := 0 to |stores|
      invariant i == 0 ==> t.arr[..] == old(t.arr[..]) && t.node[..] == old(t.node[..])
      invariant t.Valid() && OnKeys(t.arr.Length, t.node[..], stores)
      invariant forall j :: 0 <= j < t.node.Length ==> t.node[j].key == old(t.node[j].key)
    {
      ghost var ns := t.node[..];
      var ok := t.Set(stores[i].0, stores[i].1);
      forall j | 0 <= j < |stores|
        ensures stores[j].0 != Nil && (ArrayKey(stores[j].0, t.arr.Length) || Held(t.node[..], stores[j].0))
      {
        SameHeld(ns, t.node[..], stores[j].0);
      }
    }
    KeysOnly(t.arr.Length, old(t.node[..]), t.node[..]);
    forall k
      ensures Held(t.node[..], k) <==> old(Held(t.node[..], k))
    {
      SameHeld(old(t.node[..]), t.node[..], k);
    }
  }

  lemma SameHeld(ns: seq<Node>, ns': seq<Node>, k: Val)
    requires |ns| == |ns'| && forall i :: 0 <= i < |ns| ==> ns'[i].key == ns[i].key
    ensures Held(ns, k) <==> Held(ns', k)
  {
    if i :| 0 <= i < |ns| && ns[i].key == k { assert ns'[i].key == k; }
    if i :| 0 <= i < |ns| && ns'[i].key == k { assert ns[i].key == k; }
  }

  lemma KeysOnly(asize: nat, ns: seq<Node>, ns': seq<Node>)
    requires |ns| == |ns'| && forall i :: 0 <= i < |ns| ==> ns'[i].key == ns[i].key
    ensures KeysOf(asize, ns) == KeysOf(asize, ns')
  {
  }

  lemma WalkExtend(n: nat, vs: seq<seq<Val>>, visited: seq<nat>, now: seq<Val>, x: nat)
    requires |vs| == |visited| && x == FirstLive(now, From(visited, |visited|)) < n
    requires forall s :: 0 <= s < |visited| ==> WalkStep(n, vs, visited, s)
    ensures forall s :: 0 <= s < |visited + [x]| ==> WalkStep(n, vs + [now], visited + [x], s)
  {
    hide FirstLive;
    forall s | 0 <= s < |visited + [x]|
      ensures WalkStep(n, vs + [now], visited + [x], s)
    {
      if s < |visited| { assert WalkStep(n, vs, visited, s); }
    }
  }

  lemma WalkEnds(n: nat, vs: seq<seq<Val>>, visited: seq<nat>, now: seq<Val>)
    requires |vs| == |visited| && n == FirstLive(now, From(visited, |visited|)) == |now|
    requires forall s :: 0 <= s < |vs| ==> |vs[s]| == n
    requires forall s :: 0 <= s < |visited| ==> WalkStep(n, vs, visited, s)
    ensures Walk(n, vs + [now], visited)
  {
    hide FirstLive;
    forall s | 0 <= s < |visited|
      ensures WalkStep(n, vs + [now], visited, s)
    {
      assert WalkStep(n, vs, visited, s);
    }
  }

  /** What has a value has a key. */
  lemma LiveKey(t: Table, i: nat)
    requires t.Valid() && i < t.arr.Length + t.node.Length && ValsOf(t.arr[..], t.node[..])[i] != Nil
    ensures KeysOf(t.arr.Length, t.node[..])[i] != Nil
  {
    hide KeysOf, ValsOf, Keyed, Linked, Home, MainPos, Unique, NoArrayKeys;
    if i >= t.arr.Length { LiveHasKey(t.node[..], t.ord, i - t.arr.Length); }
  }

  /** One step of a traversal; `last` is the index of key k, if it is not nil. */
  method WalkNext(t: Table, k: Val, ghost visited: seq<nat>) returns (r: Option<(Val, Val)>, ghost x: nat)
    requires t.Valid()
    requires visited == [] ==> k == Nil
    requires visited != [] ==> var last := visited[|visited| - 1];
                               last < t.arr.Length + t.node.Length && k == KeysOf(t.arr.Length, t.node[..])[last] != Nil
    ensures var vs := ValsOf(t.arr[..], t.node[..]);
            && x == FirstLive(vs, From(visited, |visited|)) && From(visited, |visited|) <= x <= |vs|
            && (r.None? <==> x == |vs|)
            && (r.Some? ==> r.value == (KeysOf(t.arr.Length, t.node[..])[x], vs[x]) && r.value.0 != Nil)
  {
    hide Inv, NoArrayKeys, KeysOf, ValsOf, FirstLive, Unique;
    t.InvUnique();
    var err;
    ghost var i;
    r, err, i := Next(t, k);
    ghost var vs := ValsOf(t.arr[..], t.node[..]);
    if visited != [] {
      KeysDistinct(t.arr.Length, t.node[..], i - 1, visited[|visited| - 1]);
    }
    x := FirstLive(vs, i);
    FirstLiveIs(vs, i);
    if r.Some? { LiveKey(t, x); }
  }

  lemma StillOnKeys(asize: nat, ns: seq<Node>, ns': seq<Node>, stores: seq<(Val, Val)>)
    requires OnKeys(asize, ns, stores) && forall k :: Held(ns', k) <==> Held(ns, k)
    ensures OnKeys(asize, ns', stores)
  {
  }

  /** A traversal from nil to the end, with values changed before every step.
      The pairs found are those of a walk over the values of each step. */
  method Traverse(t: Table, stores: nat -> seq<(Val, Val)>)
    returns (found: seq<(Val, Val)>, ghost vs: seq<seq<Val>>, ghost visited: seq<nat>)
    requires t.Valid() && forall s :: OnKeys(t.arr.Length, t.node[..], stores(s))
    modifies t`ord, t`freetop, t`hnum, t.arr, t.node
    ensures t.Valid() && KeysOf(t.arr.Length, t.node[..]) == old(KeysOf(t.arr.Length, t.node[..]))
    ensures Walk(t.arr.Length + t.node.Length, vs, visited) && |found| == |visited|
    ensures forall s :: 0 <= s < |found| ==>
              && visited[s] < t.arr.Length + t.node.Length
              && found[s] == (KeysOf(t.arr.Length, t.node[..])[visited[s]], vs[s][visited[s]])
    ensures (forall s :: stores(s) == []) ==>
              && t.arr[..] == old(t.arr[..]) && t.node[..] == old(t.node[..])
              && forall s :: 0 <= s < |vs| ==> vs[s] == old(ValsOf(t.arr[..], t.node[..]))
  {
    hide Inv, NoArrayKeys, KeysOf, ValsOf, FirstLive, Held, Unique, WalkStep, Walk, OnKeys;
    found, vs, visited := [], [], [];
    ghost var quiet := forall s :: stores(s) == [];
    ghost var n := t.arr.Length + t.node.Length;
    ghost var ks := KeysOf(t.arr.Length, t.node[..]);
    var k := Nil;
    while true
      invariant t.Valid() && KeysOf(t.arr.Length, t.node[..]) == ks
      invariant forall s :: OnKeys(t.arr.Length, t.node[..], stores(s))
      invariant |found| == |visited| == |vs|
      invariant forall s :: 0 <= s < |vs| ==> |vs[s]| == n
      invariant forall s :: 0 <= s < |visited| ==> WalkStep(n, vs, visited, s)
      invariant forall s :: 0 <= s < |found| ==> visited[s] < n && found[s] == (ks[visited[s]], vs[s][visited[s]])
      invariant if visited == [] then k == Nil else k == ks[visited[|visited| - 1]] != Nil
      invariant quiet ==>
                  && t.arr[..] == old(t.arr[..]) && t.node[..] == old(t.node[..])
                  && forall s :: 0 <= s < |vs| ==> vs[s] == old(ValsOf(t.arr[..], t.node[..]))
      decreases n - From(visited, |visited|)
    {
      ghost var ns := t.node[..];
      StoreAll(t, stores(|found|));
      forall s
        ensures OnKeys(t.arr.Length, t.node[..], stores(s))
      {
        StillOnKeys(t.arr.Length, ns, t.node[..], stores(s));
      }
      var r;
      ghost var x;
      r, x := WalkNext(t, k, visited);
      ghost var now := ValsOf(t.arr[..], t.node[..]);
      if r.None? {
        WalkEnds(n, vs, visited, now);
        vs := vs + [now];
        return;
      }
      WalkExtend(n, vs, visited, now, x);
      found, vs, visited, k := found + [r.value], vs + [now], visited + [x], r.value.0;
    }
  }

  /** A pair of the map is a live index, and the other way round. */
  lemma PairsOfMap(a: seq<Val>, ns: seq<Node>, k: Val, v: Val)
    requires Unique(ns) && NoArrayKeys(ns, |a|) && k != Nil && v != Nil
    ensures Lookup(Contents(a, ns), k) == v <==>
            exists i :: 0 <= i < |a| + |ns| && KeysOf(|a|, ns)[i] == k && ValsOf(a, ns)[i] == v
  {
    hide Contents, KeysOf, ValsOf;
    var ks, vs := KeysOf(|a|, ns), ValsOf(a, ns);
    ContentsIs(a, ns, k);
    if Lookup(Contents(a, ns), k) == v {
      if ArrayKey(k, |a|) {
        assert ks[k.n] == k && vs[k.n] == v;
      } else {
        var j :| 0 <= j < |ns| && ns[j].key == k;
        assert ks[|a| + j] == k && vs[|a| + j] == v;
      }
    }
    if i :| 0 <= i < |a| + |ns| && ks[i] == k && vs[i] == v {
      if i >= |a| { assert ns[i - |a|].key == k && ns[i - |a|].val == v && !ArrayKey(k, |a|); }
    }
  }

  /** An undisturbed traversal lists the map, every pair once. */
  method Enumerate(t: Table) returns (found: seq<(Val, Val)>)
    requires t.Valid()
    modifies t`ord, t`freetop, t`hnum, t.arr, t.node
    ensures t.Valid() && t.Map() == old(t.Map())
    ensures forall i, j :: 0 <= i < j < |found| ==> found[i].0 != found[j].0
    ensures forall k, v :: k != Nil && v != Nil ==> ((k, v) in found <==> Lookup(t.Map(), k) == v)
  {
    hide Inv, NoArrayKeys, KeysOf, ValsOf, Unique, Contents, Lookup, Held;
    ghost var vs, visited;
    found, vs, visited := Traverse(t, _ => []);
    ghost var n, ks, now := t.arr.Length + t.node.Length, KeysOf(t.arr.Length, t.node[..]),
        ValsOf(t.arr[..], t.node[..]);
    WalkVisits(n, vs, visited);
    t.InvUnique();
    forall i, j | 0 <= i < j < |found|
      ensures found[i].0 != found[j].0
    {
      LiveKey(t, visited[i]);
      if found[i].0 == found[j].0 { KeysDistinct(t.arr.Length, t.node[..], visited[i], visited[j]); }
    }
    forall k, v | k != Nil && v != Nil
      ensures (k, v) in found <==> Lookup(t.Map(), k) == v
    {
      PairsOfMap(t.arr[..], t.node[..], k, v);
      Listed(n, ks, now, vs, visited, found, k, v);
    }
  }

  lemma Listed(n: nat, ks: seq<Val>, now: seq<Val>, vs: seq<seq<Val>>, visited: seq<nat>, found: seq<(Val, Val)>,
               k: Val, v: Val)
    requires |ks| == |now| == n && Walk(n, vs, visited) && |found| == |visited| && v != Nil
    requires forall s :: 0 <= s < |vs| ==> vs[s] == now
    requires forall s :: 0 <= s < |found| ==> visited[s] < n && found[s] == (ks[visited[s]], vs[s][visited[s]])
    ensures (k, v) in found <==> exists i :: 0 <= i < n && ks[i] == k && now[i] == v
  {
    hide FirstLive, WalkStep;
    WalkVisits(n, vs, visited);
    if (k, v) in found {
      var s :| 0 <= s < |found| && found[s] == (k, v);
      assert ks[visited[s]] == k && now[visited[s]] == v;
    }
    if i :| 0 <= i < n && ks[i] == k && now[i] == v {
      assert i in visited;
      var s :| 0 <= s < |visited| && visited[s] == i;
      assert found[s] == (k, v);
    }
  }

  // -- Length --------------------------------------------------------------------------------------

  function CountLive(vs: seq<Val>, n: nat): nat
    requires n <= |vs|
  {
    if n == 0 then 0 else CountLive(vs, n - 1) + if vs[n - 1] != Nil then 1 else 0
  }

  /** The pairs at the first n indexes. */
  ghost function PairMap(ks: seq<Val>, vs: seq<Val>, n: nat): map<Val, Val>
    requires n <= |ks| == |vs|
  {
    if n == 0 then map[] else if vs[n - 1] != Nil then PairMap(ks, vs, n - 1)[ks[n - 1] := vs[n - 1]]
        else PairMap(ks, vs, n - 1)
  }

  /** Keys with a value are different at different indexes. */
  ghost predicate DistinctLive(ks: seq<Val>, vs: seq<Val>)
    requires |ks| == |vs|
  {
    forall i, j :: 0 <= i < j < |ks| && vs[i] != Nil && vs[j] != Nil ==> ks[i] != ks[j]
  }

  /** k is the key of a live pair below n. */
  ghost predicate KeyBelow(ks: seq<Val>, vs: seq<Val>, n: nat, k: Val)
    requires n <= |ks| == |vs|
  {
    exists i :: 0 <= i < n && vs[i] != Nil && ks[i] == k
  }

  lemma {:induction false} PairMapKeys(ks: seq<Val>, vs: seq<Val>, n: nat, k: Val)
    requires n <= |ks| == |vs|
    ensures k in PairMap(ks, vs, n) <==> KeyBelow(ks, vs, n, k)
  {
    if n > 0 {
      PairMapKeys(ks, vs, n - 1, k);
    }
  }

  lemma {:induction false} PairMapAt(ks: seq<Val>, vs: seq<Val>, n: nat, i: nat)
    requires i < n <= |ks| == |vs| && vs[i] != Nil && DistinctLive(ks, vs)
    ensures ks[i] in PairMap(ks, vs, n) && PairMap(ks, vs, n)[ks[i]] == vs[i]
  {
    if i < n - 1 {
      PairMapAt(ks, vs, n - 1, i);
    }
  }

  lemma {:induction false} PairMapSize(ks: seq<Val>, vs: seq<Val>, n: nat)
    requires n <= |ks| == |vs| && DistinctLive(ks, vs)
    ensures |PairMap(ks, vs, n)| == CountLive(vs, n)
  {
    if n > 0 {
      PairMapSize(ks, vs, n - 1);
      if vs[n - 1] != Nil {
        PairMapKeys(ks, vs, n - 1, ks[n - 1]);
      }
    }
  }

  /** The map has as many keys as there are indexes with a value. */
  lemma MapSize(t: Table)
    requires t.Valid()
    ensures |t.Map()| == CountLive(ValsOf(t.arr[..], t.node[..]), t.arr.Length + t.node.Length)
  {
    hide Inv, KeysOf, ValsOf, CountLive, Contents, PairMap, DistinctLive, NoArrayKeys, Unique;
    var ks, vs, n := KeysOf(t.arr.Length, t.node[..]), ValsOf(t.arr[..], t.node[..]), t.arr.Length + t.node.Length;
    t.InvUnique();
    TableDistinct(t);
    PairMapSize(ks, vs, n);
    forall k
      ensures k in t.Map() <==> k in PairMap(ks, vs, n)
      ensures k in t.Map() ==> t.Map()[k] == PairMap(ks, vs, n)[k]
    {
      ContentsIs(t.arr[..], t.node[..], k);
      if k in t.Map() {
        NoNilValues(t, k);
        PairsOfMap(t.arr[..], t.node[..], k, t.Map()[k]);
        var i :| 0 <= i < n && vs[i] != Nil && ks[i] == k && vs[i] == t.Map()[k];
        PairMapAt(ks, vs, n, i);
      }
      PairMapKeys(ks, vs, n, k);
      if k in PairMap(ks, vs, n) {
        var i :| 0 <= i < n && vs[i] != Nil && ks[i] == k;
        LiveKey(t, i);
        PairsOfMap(t.arr[..], t.node[..], k, vs[i]);
      }
    }
    assert t.Map() == PairMap(ks, vs, n);
  }

  lemma NoNilValues(t: Table, k: Val)
    requires t.Valid() && k in t.Map()
    ensures k != Nil && t.Map()[k] != Nil
  {
    hide Inv, NoArrayKeys;
    t.InvUnique();
  }

  lemma TableDistinct(t: Table)
    requires t.Valid()
    ensures DistinctLive(KeysOf(t.arr.Length, t.node[..]), ValsOf(t.arr[..], t.node[..]))
  {
    hide Inv, NoArrayKeys, KeysOf, ValsOf, Unique;
    var ks, vs := KeysOf(t.arr.Length, t.node[..]), ValsOf(t.arr[..], t.node[..]);
    t.InvUnique();
    forall i, j | 0 <= i < j < |ks| && vs[i] != Nil && vs[j] != Nil
      ensures ks[i] != ks[j]
    {
      LiveKey(t, i);
      if ks[i] == ks[j] { KeysDistinct(t.arr.Length, t.node[..], i, j); }
    }
  }

  /** A node that keeps a key without a value. */
  predicate Dead(n: Node) {
    n.key != Nil && n.val == Nil
  }

  function CountDead(ns: seq<Node>, n: nat): nat
    requires n <= |ns|
  {
    if n == 0 then 0 else CountDead(ns, n - 1) + if Dead(ns[n - 1]) then 1 else 0
  }

  lemma {:induction false} NoneDead(ns: seq<Node>, n: nat)
    requires n <= |ns|
    ensures CountDead(ns, n) == 0 <==> forall i :: 0 <= i < n ==> !Dead(ns[i])
  {
    if n > 0 { NoneDead(ns, n - 1); }
  }

  /** kp_tab_len counts dead keys too: it is the size of the map exactly when
      no node keeps a key without a value. */
  method Len(t: Table) returns (len: nat)
    requires t.Valid()
    ensures len == |t.Map()| + CountDead(t.node[..], t.node.Length)
    ensures len == |t.Map()| <==> forall i :: 0 <= i < t.node.Length ==> !Dead(t.node[i])
  {
    hide Inv, NoArrayKeys, Contents, ValsOf, Dead, Keyed, Linked, Unique, Home, MainPos;
    ghost var vs := ValsOf(t.arr[..], t.node[..]);
    MapSize(t);
    len := 0;
    for i := 0 to t.arr.Length
      invariant len == CountLive(vs, i)
    {
      assert vs[i] == t.arr[i];
      if t.arr[i] != Nil { len := len + 1; }
    }
    for i := 0 to t.node.Length
      invariant len == CountLive(vs, t.arr.Length + i) + CountDead(t.node[..], i)
    {
      CountNode(t, i);
      if t.node[i].key != Nil { len := len + 1; }
    }
    NoneDead(t.node[..], t.node.Length);
    assert forall i :: 0 <= i < t.node.Length ==> t.node[..][i] == t.node[i];
  }

  lemma CountNode(t: Table, i: nat)
    requires t.Valid() && i < t.node.Length
    ensures var vs, ns := ValsOf(t.arr[..], t.node[..]), t.node[..];
            CountLive(vs, t.arr.Length + i + 1) + CountDead(ns, i + 1) ==
            CountLive(vs, t.arr.Length + i) + CountDead(ns, i) + if ns[i].key != Nil then 1 else 0
  {
    hide NoArrayKeys, ValsOf, Keyed, Linked, Unique, Home, MainPos;
    if t.node[i].key == Nil { BlankHasNoVal(t.node[..], t.ord, i); }
  }

  /** One key without a value. */
  lemma {:induction false} OneDead(ns: seq<Node>, i: nat, n: nat)
    requires i < |ns| && n <= |ns| && Dead(ns[i]) && forall j :: 0 <= j < |ns| && j != i ==> ns[j].key == Nil
    ensures CountDead(ns, n) == if i < n then 1 else 0
  {
    if n > 0 { OneDead(ns, i, n - 1); }
  }

  /** A store of nil under a new key leaves a dead key: the length of the empty table is one. */
  method DeadKeyCounted(strhash: string -> nat, k: Val) returns (t: Table?, len: nat)
    requires k != Nil
    ensures t != null && t.Valid() && t.Map() == map[] && len == 1
  {
    hide Inv, NoArrayKeys, Contents, KeysFrom, Unique;
    t := NewTable(strhash, 0, 1);
    NoKeysYet(t.node[..]);
    ghost var was := t.node[..];
    var ok := t.Set(k, Nil);
    len := Len(t);
    OnlyKey(t, was, k);
  }

  lemma NoKeysYet(ns: seq<Node>)
    requires HashKeys(ns) == {}
    ensures forall i :: 0 <= i < |ns| ==> ns[i].key == Nil
  {
    assert forall i :: 0 <= i < |ns| && ns[i].key != Nil ==> ns[i].key in HashKeys(ns);
  }

  lemma OnlyKey(t: Table, was: seq<Node>, k: Val)
    requires t.Valid() && t.Map() == map[] && k != Nil && Held(t.node[..], k) && t.arr.Length == 0
    requires KeysFrom(was, t.node[..], k) && forall i :: 0 <= i < |was| ==> was[i].key == Nil
    ensures CountDead(t.node[..], t.node.Length) == 1
  {
    hide Inv, NoArrayKeys, Contents;
    var ns := t.node[..];
    t.InvUnique();
    ContentsIs(t.arr[..], ns, k);
    var i :| 0 <= i < |ns| && ns[i].key == k;
    OneDead(ns, i, |ns|);
  }
}
