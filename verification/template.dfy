/** Template tables as the parser builds them in user space: nodes are searched one by one
    and filled from the top. They come out of the dump as tables of the virtual machine. */
module Templates {
  import opened Values
  import opened Tables
  import opened DumpTable
  import Dump

  const SIZE: nat := 1024

  /** Nodes below freetop are blank, the others hold different keys. */
  ghost predicate NodesOk(ns: seq<(Val, Val)>, freetop: nat) {
    && freetop <= |ns| == SIZE
    && (forall i :: 0 <= i < freetop ==> ns[i] == (Nil, Nil))
    && (forall i :: freetop <= i < |ns| ==> ns[i].0 != Nil)
    && (forall i, j :: freetop <= i < j < |ns| ==> ns[i].0 != ns[j].0)
  }

  lemma NodesLive(ns: seq<(Val, Val)>, freetop: nat)
    requires NodesOk(ns, freetop)
    ensures LiveKeysOk(ns)
  {
  }

  /** The value of a node, or nil. */
  lemma NodeValue(ns: seq<(Val, Val)>, freetop: nat, k: Val)
    requires NodesOk(ns, freetop) && LiveKeysOk(ns) && k != Nil
    ensures forall i :: 0 <= i < |ns| && ns[i].0 == k ==> Lookup(NodeMap(ns), k) == ns[i].1
    ensures (forall i :: 0 <= i < |ns| ==> ns[i].0 != k) ==> Lookup(NodeMap(ns), k) == Nil
  {
    hide NodeMap;
    NodeMapIs(ns, k);
    forall i | 0 <= i < |ns| && ns[i].0 == k
      ensures Lookup(NodeMap(ns), k) == ns[i].1
    {
      if ns[i].1 == Nil {
        forall j | 0 <= j < |ns| && ns[j].1 != Nil
          ensures ns[j].0 != k
        {
        }
      }
    }
  }

  lemma NodeMapNoNil(ns: seq<(Val, Val)>)
    requires LiveKeysOk(ns)
    ensures NoNil(NodeMap(ns)) && Lookup(NodeMap(ns), Nil) == Nil
  {
  }

  /** One node changed: its key has the new value, other keys theirs. */
  lemma NodeStored(ns: seq<(Val, Val)>, freetop: nat, ns': seq<(Val, Val)>, freetop': nat, i: nat, k: Val, v: Val)
    requires NodesOk(ns, freetop) && NodesOk(ns', freetop') && i < |ns| && ns' == ns[i := (k, v)] && k != Nil
    requires ns[i].0 == k || (ns[i].0 == Nil && forall j :: 0 <= j < |ns| ==> ns[j].0 != k)
    requires LiveKeysOk(ns) && LiveKeysOk(ns')
    ensures NodeMap(ns') == Put(NodeMap(ns), k, v)
  {
    hide NodeMap, LiveKeysOk, NoNil;
    NodeMapNoNil(ns);
    NodeMapNoNil(ns');
    PutNoNil(NodeMap(ns), k, v);
    forall x
      ensures Lookup(NodeMap(ns'), x) == Lookup(Put(NodeMap(ns), k, v), x)
    {
      if x != Nil { SameValue(ns, freetop, ns', freetop', i, k, v, x); }
    }
    MapsEqual(NodeMap(ns'), Put(NodeMap(ns), k, v));
  }

  lemma PutNoNil(m: map<Val, Val>, k: Val, v: Val)
    requires NoNil(m)
    ensures NoNil(Put(m, k, v))
  {
  }

  lemma SameValue(ns: seq<(Val, Val)>, freetop: nat, ns': seq<(Val, Val)>, freetop': nat, i: nat, k: Val, v: Val,
                  x: Val)
    requires NodesOk(ns, freetop) && NodesOk(ns', freetop') && i < |ns| && ns' == ns[i := (k, v)] && k != Nil
    requires x != Nil
    requires ns[i].0 == k || (ns[i].0 == Nil && forall j :: 0 <= j < |ns| ==> ns[j].0 != k)
    requires LiveKeysOk(ns) && LiveKeysOk(ns')
    ensures Lookup(NodeMap(ns'), x) == Lookup(Put(NodeMap(ns), k, v), x)
  {
    hide NodeMap, LiveKeysOk, NodesOk;
    NodeValue(ns, freetop, x);
    NodeValue(ns', freetop', x);
    if x == k {
      assert ns'[i].0 == k;
    } else if j :| 0 <= j < |ns| && ns[j].0 == x {
      assert ns'[j] == ns[j];
    } else {
      assert forall j :: 0 <= j < |ns'| ==> ns'[j].0 != x;
    }
  }

  class Template {
    const node: array<(Val, Val)>
    var freetop: nat

    ghost predicate Valid()
      reads this, node
    {
      NodesOk(node[..], freetop)
    }

    ghost function Map(): map<Val, Val>
      requires Valid()
      reads this, node
    {
      NodesLive(node[..], freetop);
      NodeMap(node[..])
    }

    ghost predicate Has(k: Val)
      reads node
    {
      exists i :: 0 <= i < node.Length && node[i].0 == k
    }

    ghost function Image(): Dump.TabImage
      reads node
    {
      Dump.TabImage([], node[..])
    }

    constructor ()
      ensures Valid() && Map() == map[] && fresh(node) && freetop == node.Length == 1024
      ensures forall i :: 0 <= i < node.Length ==> node[i] == (Nil, Nil)
    {
      node := new (Val, Val)[SIZE](_ => (Nil, Nil));
      freetop := SIZE;
    }

    /** kp_tab_get: the node of a key. */
    method Find(k: Val) returns (r: Option<nat>)
      requires Valid()
      ensures r.Some? ==> r.value < node.Length && node[r.value].0 == k
      ensures r.None? ==> !Has(k)
    {
      for i := 0 to node.Length
        invariant forall j :: 0 <= j < i ==> node[j].0 != k
      {
        if node[i].0 == k { return Some(i); }
      }
      return None;
    }

    /** kp_tab_set and the store behind it; false when all nodes are in use. */
    method Set(k: Val, v: Val) returns (ok: bool)
      requires Valid() && k != Nil
      modifies this`freetop, node
      ensures Valid() && (ok <==> old(Has(k)) || old(freetop) > 0)
      ensures Map() == if ok then Put(old(Map()), k, v) else old(Map())
      ensures freetop + 1 >= old(freetop)
      ensures forall i :: 0 <= i < node.Length ==> node[i] == old(node[i]) || node[i] == (k, v)
    {
      hide NodeMap, LiveKeysOk, Put;
      ghost var ns, top := node[..], freetop;
      NodesLive(ns, top);
      var r := Find(k);
      if r.None? && freetop == 0 { return false; }
      var i: nat;
      if r.Some? {
        i := r.value;
        StoreNodes(ns, top, i, k, v);
      } else {
        freetop := freetop - 1;
        i := freetop;
        NewNode(ns, top, k, v);
      }
      node[i] := (k, v);
      assert node[..] == ns[i := (k, v)];
      NodesLive(node[..], freetop);
      NodeStored(ns, top, node[..], freetop, i, k, v);
      return true;
    }
  }

  lemma StoreNodes(ns: seq<(Val, Val)>, freetop: nat, i: nat, k: Val, v: Val)
    requires NodesOk(ns, freetop) && i < |ns| && ns[i].0 == k && k != Nil
    ensures NodesOk(ns[i := (k, v)], freetop)
  {
  }

  lemma NewNode(ns: seq<(Val, Val)>, freetop: nat, k: Val, v: Val)
    requires NodesOk(ns, freetop) && freetop > 0 && k != Nil && forall j :: 0 <= j < |ns| ==> ns[j].0 != k
    ensures NodesOk(ns[freetop - 1 := (k, v)], freetop - 1)
  {
  }

  /** What can be in a template and in the dump. */
  ghost predicate Constant(p: (Val, Val)) {
    Dump.ValOk(p.0) && Dump.ValOk(p.1) && Dump.Short(p.0) && Dump.Short(p.1)
  }

  /** The last store to a key is read back, and no other key comes up. */
  lemma {:induction false} LastWins(ps: seq<(Val, Val)>, k: Val)
    ensures forall i :: 0 <= i < |ps| && ps[i].0 == k && (forall j :: i < j < |ps| ==> ps[j].0 != k) ==>
              Lookup(PutAll(map[], ps), k) == ps[i].1
    ensures k in PutAll(map[], ps) ==> exists i :: 0 <= i < |ps| && ps[i].0 == k
  {
    if ps != [] {
      var n := |ps| - 1;
      LastWins(ps[..n], k);
      if ps[n].0 == k { assert ps[n] in ps; }
    }
  }

  /** A table constructor with constant entries: the table the virtual machine gets from
      the dump has the entries, the last one of a key winning. */
  method TemplateDumped(strhash: string -> nat, ps: seq<(Val, Val)>) returns (t: Table?)
    requires |ps| <= 1024 && forall i :: 0 <= i < |ps| ==> ps[i].0 != Nil && Constant(ps[i])
    ensures t != null && (t.Valid() || t.ArrayOnly()) && t.Entries() == PutAll(map[], ps)
    ensures forall i :: 0 <= i < |ps| && (forall j :: i < j < |ps| ==> ps[j].0 != ps[i].0) ==>
              ps[i].1 == if ps[i].0 in t.Entries() then t.Entries()[ps[i].0] else Nil
    ensures forall k :: k in t.Entries() ==> exists i :: 0 <= i < |ps| && ps[i].0 == k
  {
    hide NodeMap, LiveKeysOk, Put, NodesOk, Constant, Dump.TabOk, Dump.TabShort, ImageMap;
    var u := new Template();
    assert forall i :: 0 <= i < u.node.Length ==> Constant(u.node[i]) by { NilConstant(); }
    for n := 0 to |ps|
      invariant u.Valid() && u.freetop + n >= SIZE && u.Map() == PutAll(map[], ps[..n])
      invariant forall i :: 0 <= i < u.node.Length ==> Constant(u.node[i])
    {
      var ok := u.Set(ps[n].0, ps[n].1);
      assert ok;
      assert ps[..n + 1][..n] == ps[..n];
    }
    assert ps[..|ps|] == ps;
    var img := Dump.TabImage([], u.node[..]);
    NodesLive(u.node[..], u.freetop);
    ImageFits(img, u.freetop);
    t := ThroughDump(strhash, img);
    EntriesAre(ps, t.Entries());
  }

  lemma EntriesAre(ps: seq<(Val, Val)>, m: map<Val, Val>)
    requires m == PutAll(map[], ps)
    ensures forall i :: 0 <= i < |ps| && (forall j :: i < j < |ps| ==> ps[j].0 != ps[i].0) ==>
              ps[i].1 == if ps[i].0 in m then m[ps[i].0] else Nil
    ensures forall k :: k in m ==> exists i :: 0 <= i < |ps| && ps[i].0 == k
  {
    hide PutAll;
    forall i | 0 <= i < |ps| && (forall j :: i < j < |ps| ==> ps[j].0 != ps[i].0)
      ensures ps[i].1 == if ps[i].0 in m then m[ps[i].0] else Nil
    {
      LastWins(ps, ps[i].0);
    }
    forall k | k in m
      ensures exists i :: 0 <= i < |ps| && ps[i].0 == k
    {
      LastWins(ps, k);
    }
  }

  lemma NilConstant()
    ensures Constant((Nil, Nil))
  {
  }

  lemma ImageFits(img: Dump.TabImage, freetop: nat)
    requires NodesOk(img.nodes, freetop) && img.arr == [] && forall i :: 0 <= i < |img.nodes| ==> Constant(img.nodes[i])
    ensures LiveKeysOk(img.nodes) && Dump.TabOk(img) && Dump.TabShort(img) && ImageMap(img) == NodeMap(img.nodes)
  {
    hide NodeMap, Dump.ValOk, Dump.Short, Dump.Flatten;
    NodesLive(img.nodes, freetop);
    EmptyArray();
    var (n, ps) := (Dump.NormTab(img), Dump.LiveNodes(img.nodes));
    forall i | 0 <= i < 2 * |ps|
      ensures Dump.Short(Dump.Flatten(ps)[i])
    {
      LiveNodesAre(img.nodes, ps[i / 2]);
      assert ps[i / 2] in ps && ps[i / 2] in img.nodes;
      assert i == 2 * (i / 2) || i == 2 * (i / 2) + 1;
    }
  }
}
