/** Template tables through the dump: what the reader rebuilds holds the same map. */
module DumpTable {
  import opened Values
  import opened HashNodes
  import opened Tables
  import Dump
  import DumpIO

  /** The parts of a table the writer looks at. */
  ghost function ImageOf(t: Table): Dump.TabImage
    reads t, t.arr, t.node
  {
    Dump.TabImage(t.arr[..], NodePairs(t.node[..]))
  }

  function NodePairs(ns: seq<Node>): (r: seq<(Val, Val)>)
    ensures |r| == |ns| && forall i :: 0 <= i < |ns| ==> r[i] == (ns[i].key, ns[i].val)
  {
    seq(|ns|, i requires 0 <= i < |ns| => (ns[i].key, ns[i].val))
  }

  /** Stores one after the other. */
  function PutAll(m: map<Val, Val>, ps: seq<(Val, Val)>): map<Val, Val> {
    if ps == [] then m else Put(PutAll(m, ps[..|ps| - 1]), ps[|ps| - 1].0, ps[|ps| - 1].1)
  }

  ghost predicate NoNil(m: map<Val, Val>) {
    forall k :: k in m ==> m[k] != Nil
  }

  lemma MapsEqual(m: map<Val, Val>, m': map<Val, Val>)
    requires NoNil(m) && NoNil(m') && forall k :: Lookup(m, k) == Lookup(m', k)
    ensures m == m'
  {
    forall k
      ensures k in m <==> k in m'
      ensures k in m ==> m[k] == m'[k]
    {
      assert Lookup(m, k) == Lookup(m', k);
    }
  }

  lemma {:induction false} PutAllNoNil(m: map<Val, Val>, ps: seq<(Val, Val)>)
    requires NoNil(m)
    ensures NoNil(PutAll(m, ps))
  {
    if ps != [] { PutAllNoNil(m, ps[..|ps| - 1]); }
  }

  ghost predicate DistinctKeys(ps: seq<(Val, Val)>) {
    forall i, j :: 0 <= i < j < |ps| ==> ps[i].0 != ps[j].0
  }

  /** Every store is read back, and other keys keep their value. */
  lemma {:induction false} PutAllLookup(m: map<Val, Val>, ps: seq<(Val, Val)>, k: Val)
    requires DistinctKeys(ps)
    ensures forall i :: 0 <= i < |ps| && ps[i].0 == k ==> Lookup(PutAll(m, ps), k) == ps[i].1
    ensures (forall i :: 0 <= i < |ps| ==> ps[i].0 != k) ==> Lookup(PutAll(m, ps), k) == Lookup(m, k)
  {
    if ps != [] { PutAllLookup(m, ps[..|ps| - 1], k); }
  }

  // -- Building the table ----------------------------------------------------------------------

  /** bcread_ktab, behind the parsing: fill the array part, then store the entries;
      null when a size is over its limit. */
  method RebuildTable(strhash: string -> nat, img: Dump.TabImage) returns (t: Table?)
    requires forall i :: 0 <= i < |img.nodes| ==> img.nodes[i].0 != Nil
    ensures t == null <==> |img.arr| > 0x800_0001 || HBits(|img.nodes|) > 26
    ensures t != null ==> fresh(t) && (if img.nodes == [] then t.ArrayOnly() else t.Valid())
    ensures t != null ==> t.Entries() == PutAll(ArrayMap(img.arr), img.nodes)
  {
    hide Contents, Inv, NoArrayKeys, ArrayMap, HashKeys, Put, Agrees, RunWithin;
    var n := |img.nodes|;
    t := NewTable(strhash, |img.arr|, HBits(n));
    if t == null { return; }
    FillArray(t, img.arr);
    if n == 0 { return; }
    HBitsFit(n);
    StoreEntries(t, img.nodes);
  }

  /** The entries, stored one by one, all find room. */
  method StoreEntries(t: Table, ps: seq<(Val, Val)>)
    requires t.Valid() && HashKeys(t.node[..]) == {} && |ps| <= t.node.Length
    requires forall i :: 0 <= i < |ps| ==> ps[i].0 != Nil
    modifies t`ord, t`freetop, t`hnum, t.arr, t.node
    ensures t.Valid() && t.Map() == PutAll(old(t.Map()), ps)
  {
    hide Contents, Inv, NoArrayKeys, ArrayMap, HashKeys, Put, Agrees, RunWithin;
    var ops := seq(|ps|, i requires 0 <= i < |ps| => OpSet(ps[i].0, ps[i].1));
    ghost var K := KeySet(ps);
    assert RunWithin(ops, K, t.arr.Length) by { KeysWithin(ps, ops, K, t.arr.Length); }
    ghost var m := t.Map();
    var answers := Run(t, ops, K);
    RunIsPutAll(m, ps, ops, answers, t.Map());
  }

  /** The array part of a new table. */
  method FillArray(t: Table, a: seq<Val>)
    requires (t.Valid() || t.ArrayOnly()) && t.Entries() == map[] && HashKeys(t.node[..]) == {} && t.arr.Length == |a|
    modifies t.arr, t.node
    ensures old(t.Valid()) ==> t.Valid()
    ensures (t.Valid() || t.ArrayOnly()) && t.Entries() == ArrayMap(a) && HashKeys(t.node[..]) == {}
  {
    hide Contents, Inv, NoArrayKeys, ArrayMap, HashKeys, Put;
    EmptyArray();
    t.HasHash();
    if t.node.Length == 0 {
      ghost var ns := t.node[..];
      for i := 0 to |a|
        invariant t.arr[..i] == a[..i] && t.node[..] == ns
      {
        t.arr[i] := a[i];
        assert a[..i + 1] == a[..i] + [a[i]];
      }
      assert t.arr[..] == t.arr[..|a|] == a;
      return;
    }
    for i := 0 to |a|
      invariant t.Valid() && t.Map() == ArrayMap(a[..i]) && HashKeys(t.node[..]) == {}
    {
      ghost var ns := t.node[..];
      t.Store(InArray(i), Num(i), a[i]);
      SameHashKeys(ns, t.node[..]);
      ArrayMore(a, i);
    }
    assert a[..|a|] == a;
  }

  lemma EmptyArray()
    ensures ArrayMap([]) == map[]
  {
  }

  lemma ArrayMore(a: seq<Val>, i: nat)
    requires i < |a|
    ensures ArrayMap(a[..i + 1]) == Put(ArrayMap(a[..i]), Num(i), a[i])
  {
    forall k
      ensures k in ArrayMap(a[..i + 1]) <==> k in Put(ArrayMap(a[..i]), Num(i), a[i])
      ensures k in ArrayMap(a[..i + 1]) ==> ArrayMap(a[..i + 1])[k] == Put(ArrayMap(a[..i]), Num(i), a[i])[k]
    {
      hide ArrayMap;
      ArrayMapIs(a[..i + 1], k);
      ArrayMapIs(a[..i], k);
    }
  }

  lemma SameHashKeys(ns: seq<Node>, ns': seq<Node>)
    requires |ns| == |ns'| && forall i :: 0 <= i < |ns| ==> ns'[i].key == ns[i].key
    ensures HashKeys(ns') == HashKeys(ns)
  {
    forall k | k in HashKeys(ns)
      ensures k in HashKeys(ns')
    {
      var i :| 0 <= i < |ns| && ns[i].key != Nil && ns[i].key == k;
      assert ns'[i].key == k;
    }
  }

  ghost function KeySet(ps: seq<(Val, Val)>): (r: set<Val>)
    ensures |r| <= |ps|
  {
    if ps == [] then {} else KeySet(ps[..|ps| - 1]) + {ps[|ps| - 1].0}
  }

  lemma {:induction false} KeySetHas(ps: seq<(Val, Val)>, i: nat)
    requires i < |ps|
    ensures ps[i].0 in KeySet(ps)
  {
    if i < |ps| - 1 { KeySetHas(ps[..|ps| - 1], i); }
  }

  lemma KeysWithin(ps: seq<(Val, Val)>, ops: seq<Op>, K: set<Val>, asize: nat)
    requires |ops| == |ps| && K == KeySet(ps)
    requires forall i :: 0 <= i < |ps| ==> ops[i] == OpSet(ps[i].0, ps[i].1) && ps[i].0 != Nil
    ensures RunWithin(ops, K, asize)
  {
    forall i | 0 <= i < |ops|
      ensures ops[i].k != Nil && ops[i].k in K
    {
      KeySetHas(ps, i);
    }
  }

  /** A run of stores that are not refused. */
  lemma RunIsPutAll(m: map<Val, Val>, ps: seq<(Val, Val)>, ops: seq<Op>, answers: seq<Answer>, m': map<Val, Val>)
    requires |ops| == |ps| && Agrees(m, ops, answers, m') && Refused !in answers
    requires forall i :: 0 <= i < |ps| ==> ops[i] == OpSet(ps[i].0, ps[i].1)
    ensures m' == PutAll(m, ps)
  {
    StoresUpTo(m, ps, ops, answers, |ps|);
    assert ps[..|ps|] == ps;
  }

  lemma {:induction false} StoresUpTo(m: map<Val, Val>, ps: seq<(Val, Val)>, ops: seq<Op>, answers: seq<Answer>, n: nat)
    requires n <= |ps| == |ops| == |answers| && Refused !in answers
    requires forall i :: 0 <= i < |ps| ==> ops[i] == OpSet(ps[i].0, ps[i].1)
    ensures MapAt(m, ops, answers, n) == PutAll(m, ps[..n])
  {
    hide Put;
    if n > 0 {
      StoresUpTo(m, ps, ops, answers, n - 1);
      assert ps[..n][..n - 1] == ps[..n - 1] && answers[n - 1] in answers;
    }
  }

  // -- The image keeps the map --------------------------------------------------------------------

  /** The live nodes are the nodes with a value. */
  lemma {:induction false} LiveNodesAre(ns: seq<(Val, Val)>, p: (Val, Val))
    ensures p in Dump.LiveNodes(ns) <==> p in ns && p.1 != Nil
  {
    if ns != [] {
      LiveNodesAre(ns[1..], p);
      assert p in ns <==> p == ns[0] || p in ns[1..];
    }
  }

  lemma {:induction false} LiveNodesDistinct(ns: seq<(Val, Val)>)
    requires forall i, j :: 0 <= i < j < |ns| && ns[i].1 != Nil && ns[j].1 != Nil ==> ns[i].0 != ns[j].0
    ensures DistinctKeys(Dump.LiveNodes(ns))
  {
    if ns != [] {
      var rest := ns[1..];
      LiveNodesDistinct(rest);
      var r := Dump.LiveNodes(rest);
      if ns[0].1 != Nil {
        forall i | 0 <= i < |r|
          ensures r[i].0 != ns[0].0
        {
          LiveNodesAre(rest, r[i]);
          assert r[i] in r && r[i] in rest;
          var j :| 0 <= j < |rest| && rest[j] == r[i];
          assert ns[j + 1] == r[i];
        }
      }
    }
  }

  lemma TrimMap(a: seq<Val>)
    ensures ArrayMap(Dump.Trim(a)) == ArrayMap(a)
  {
    hide Dump.Trim;
    var r := Dump.Trim(a);
    forall k
      ensures k in ArrayMap(r) <==> k in ArrayMap(a)
      ensures k in ArrayMap(r) ==> ArrayMap(r)[k] == ArrayMap(a)[k]
    {
      hide ArrayMap;
      ArrayMapIs(a, k);
      ArrayMapIs(r, k);
    }
  }

  /** Live nodes of a table have different keys. */
  lemma PairsDistinct(t: Table)
    requires t.Valid()
    ensures var ns := NodePairs(t.node[..]);
            forall i, j :: 0 <= i < j < |ns| && ns[i].1 != Nil && ns[j].1 != Nil ==> ns[i].0 != ns[j].0
    ensures var ns := NodePairs(t.node[..]); forall i :: 0 <= i < |ns| && ns[i].1 != Nil ==> ns[i].0 != Nil
  {
    hide Home, MainPos, NodePairs;
    var ns := NodePairs(t.node[..]);
    forall i | 0 <= i < |ns| && ns[i].1 != Nil
      ensures ns[i].0 != Nil
    {
      LiveHasKey(t.node[..], t.ord, i);
    }
  }

  /** Nodes with a value have different keys, none of them nil. */
  ghost predicate LiveKeysOk(ns: seq<(Val, Val)>) {
    && (forall i, j :: 0 <= i < j < |ns| && ns[i].1 != Nil && ns[j].1 != Nil ==> ns[i].0 != ns[j].0)
    && (forall i :: 0 <= i < |ns| && ns[i].1 != Nil ==> ns[i].0 != Nil)
  }

  /** The entries in nodes. */
  ghost function NodeMap(ns: seq<(Val, Val)>): map<Val, Val>
    requires LiveKeysOk(ns)
  {
    map i | 0 <= i < |ns| && ns[i].1 != Nil :: ns[i].0 := ns[i].1
  }

  /** The map a table stands for, however its nodes are arranged. */
  ghost function ImageMap(img: Dump.TabImage): map<Val, Val>
    requires LiveKeysOk(img.nodes)
  {
    ArrayMap(img.arr) + NodeMap(img.nodes)
  }

  lemma NodeMapIs(ns: seq<(Val, Val)>, k: Val)
    requires LiveKeysOk(ns)
    ensures forall i :: 0 <= i < |ns| && ns[i].1 != Nil && ns[i].0 == k ==>
              k in NodeMap(ns) && NodeMap(ns)[k] == ns[i].1
    ensures (forall i :: 0 <= i < |ns| && ns[i].1 != Nil ==> ns[i].0 != k) ==> k !in NodeMap(ns)
  {
  }

  lemma ImageNoNil(img: Dump.TabImage)
    requires LiveKeysOk(img.nodes)
    ensures NoNil(ImageMap(img))
  {
  }

  lemma ImageLookup(img: Dump.TabImage, k: Val)
    requires LiveKeysOk(img.nodes)
    ensures forall i :: 0 <= i < |img.nodes| && img.nodes[i].1 != Nil && img.nodes[i].0 == k ==>
              Lookup(ImageMap(img), k) == img.nodes[i].1
    ensures (forall i :: 0 <= i < |img.nodes| && img.nodes[i].1 != Nil ==> img.nodes[i].0 != k) ==>
              Lookup(ImageMap(img), k) == Lookup(ArrayMap(img.arr), k)
  {
    NodeMapIs(img.nodes, k);
  }

  /** A table, written to a dump, read and rebuilt, is the same map. */
  lemma DumpKeepsMap(img: Dump.TabImage)
    requires LiveKeysOk(img.nodes)
    ensures var n := Dump.NormTab(img); PutAll(ArrayMap(n.arr), n.nodes) == ImageMap(img)
  {
    hide ArrayMap, Dump.Trim, Dump.LiveNodes, PutAll, NoNil, Lookup, ImageMap;
    var ps := Dump.LiveNodes(img.nodes);
    var m := ArrayMap(img.arr);
    TrimMap(img.arr);
    LiveNodesDistinct(img.nodes);
    ArrayNoNil(img.arr);
    PutAllNoNil(m, ps);
    ImageNoNil(img);
    forall k
      ensures Lookup(PutAll(m, ps), k) == Lookup(ImageMap(img), k)
    {
      SameLookup(img, ps, k);
    }
    MapsEqual(PutAll(m, ps), ImageMap(img));
  }

  lemma SameLookup(img: Dump.TabImage, ps: seq<(Val, Val)>, k: Val)
    requires LiveKeysOk(img.nodes) && ps == Dump.LiveNodes(img.nodes) && DistinctKeys(ps)
    ensures Lookup(PutAll(ArrayMap(img.arr), ps), k) == Lookup(ImageMap(img), k)
  {
    hide Dump.LiveNodes, PutAll, ArrayMap, ImageMap, Lookup;
    var ns := img.nodes;
    PutAllLookup(ArrayMap(img.arr), ps, k);
    ImageLookup(img, k);
    if i :| 0 <= i < |ps| && ps[i].0 == k {
      LiveNodesAre(ns, ps[i]);
      assert ps[i] in ps && ps[i] in ns;
      var j :| 0 <= j < |ns| && ns[j] == ps[i];
    } else {
      forall j | 0 <= j < |ns| && ns[j].1 != Nil
        ensures ns[j].0 != k
      {
        LiveNodesAre(ns, ns[j]);
        assert ns[j] in ns && ns[j] in ps;
      }
    }
  }

  lemma ArrayNoNil(a: seq<Val>)
    ensures NoNil(ArrayMap(a))
  {
  }

  /** The tables of the virtual machine are such tables. */
  lemma TableImage(t: Table)
    requires t.Valid()
    ensures LiveKeysOk(ImageOf(t).nodes) && ImageMap(ImageOf(t)) == t.Map()
  {
    hide Inv, NoArrayKeys, ArrayMap, Contents, NodePairs, NoNil, Lookup, ImageMap;
    var img := ImageOf(t);
    PairsDistinct(t);
    ImageNoNil(img);
    TableNoNil(t);
    forall k
      ensures Lookup(ImageMap(img), k) == Lookup(t.Map(), k)
    {
      TableLookup(t, k);
    }
    MapsEqual(ImageMap(img), t.Map());
  }

  lemma TableNoNil(t: Table)
    requires t.Valid()
    ensures NoNil(t.Map())
  {
    hide Inv, NoArrayKeys;
    t.InvUnique();
  }

  lemma TableLookup(t: Table, k: Val)
    requires t.Valid() && LiveKeysOk(ImageOf(t).nodes)
    ensures Lookup(ImageMap(ImageOf(t)), k) == Lookup(t.Map(), k)
  {
    hide Inv, Contents, NodePairs, ArrayMap, ImageMap;
    var ns := t.node[..];
    t.InvUnique();
    ContentsIs(t.arr[..], ns, k);
    ImageLookup(ImageOf(t), k);
    ArrayMapIs(t.arr[..], k);
  }

  /** bcwrite_ktab and bcread_ktab, one after the other: the table that comes out has the
      entries of the one that went in. Only strings that are too long stop it. */
  method ThroughDump(strhash: string -> nat, img: Dump.TabImage) returns (t: Table?)
    requires Dump.TabOk(img) && LiveKeysOk(img.nodes)
    ensures t == null <==> !Dump.TabShort(img)
    ensures t != null ==> fresh(t) && (t.Valid() || t.ArrayOnly()) && t.Entries() == ImageMap(img)
  {
    hide Dump.TabShort, Dump.EncTab, Dump.DecTab, Dump.NormTab, PutAll, ImageMap;
    var w := new DumpIO.BcWriter(false);
    w.PutTab(img);
    var r := new DumpIO.BcReader(w.sb);
    Dump.TabRound(img, []);
    assert w.sb + [] == w.sb;
    var read := r.GetTab();
    if read.None? { return null; }
    Dump.NormTabOk(img);
    t := RebuildTable(strhash, read.value);
    HBitsLimit(|read.value.nodes|);
    DumpKeepsMap(img);
  }

  lemma HBitsLimit(n: nat)
    requires n <= MAX_HSIZE
    ensures HBits(n) <= MAX_HBITS
  {
    if n > 1 {
      FlsBounds(n - 1);
      HSizeLimit();
      if Fls(n - 1) >= MAX_HBITS { Pow2Rises(MAX_HBITS, Fls(n - 1)); }
    }
  }
}
