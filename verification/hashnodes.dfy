/** The hash part of a table: chains threaded through one node array, with
    Brent's variation of chained scatter hashing. */
module HashNodes {
  import opened Values

  datatype Node = Node(key: Val, val: Val, next: Option<nat>)

  /** The hash of a key; nothing depends on how keys are scattered. */
  type Hash = Val -> nat

  /** Main position of a key among `size` nodes. */
  function MainPos(h: Hash, k: Val, size: nat): (p: nat)
    requires size > 0
    ensures p < size
  {
    h(k) % size
  }

  // -- The invariant -----------------------------------------------------------------------

  /** ord lists the nodes that hold a key. */
  ghost predicate Keyed(ns: seq<Node>, ord: seq<nat>) {
    && (forall p :: 0 <= p < |ord| ==> ord[p] < |ns| && ns[ord[p]].key != Nil)
    && Distinct(ord)
    && (forall i :: 0 <= i < |ns| && ns[i].key != Nil ==> i in ord)
  }

  ghost predicate Distinct(ord: seq<nat>) {
    forall p, q :: 0 <= p < q < |ord| ==> ord[p] != ord[q]
  }

  /** Links lead from a node to its successor in ord; other nodes are blank. */
  ghost predicate Linked(ns: seq<Node>, ord: seq<nat>)
    requires Keyed(ns, ord)
  {
    && (forall p :: 0 <= p < |ord| && ns[ord[p]].next.Some? ==> p + 1 < |ord| && ns[ord[p]].next == Some(ord[p + 1]))
    && (forall i :: 0 <= i < |ns| && ns[i].key == Nil ==> ns[i].val == Nil && ns[i].next == None)
  }

  /** The links from ord[j] lead to ord[p]. */
  ghost predicate Path(ns: seq<Node>, ord: seq<nat>, j: nat, p: nat) {
    j <= p < |ord| && forall i :: j <= i < p ==> ord[i] < |ns| && ns[ord[i]].next.Some?
  }

  /** The key at ord[p] can be reached from its main position, and the node
      there holds a key of the same main position. */
  ghost predicate Home(h: Hash, ns: seq<Node>, ord: seq<nat>, p: nat)
    requires Keyed(ns, ord) && p < |ord| && |ns| > 0
  {
    var m := MainPos(h, ns[ord[p]].key, |ns|);
    && (exists j: nat :: Path(ns, ord, j, p) && ord[j] == m)
    && MainPos(h, ns[m].key, |ns|) == m
  }

  ghost predicate Unique(ns: seq<Node>) {
    forall i, j :: 0 <= i < j < |ns| && ns[i].key != Nil ==> ns[i].key != ns[j].key
  }

  /** What every reachable hash part satisfies. */
  ghost predicate Inv(h: Hash, ns: seq<Node>, freetop: nat, ord: seq<nat>) {
    && |ns| > 0 && Keyed(ns, ord) && Linked(ns, ord) && Unique(ns)
    && (forall p :: 0 <= p < |ord| ==> Home(h, ns, ord, p))
    && freetop <= |ns| && (forall i :: freetop <= i < |ns| ==> ns[i].key != Nil)
  }

  /** Some node holds k. */
  ghost predicate Held(ns: seq<Node>, k: Val) {
    exists i :: 0 <= i < |ns| && ns[i].key == k
  }

  /** The live pairs. */
  ghost function Live(ns: seq<Node>): map<Val, Val>
    requires Unique(ns)
  {
    map i | 0 <= i < |ns| && ns[i].val != Nil && ns[i].key != Nil :: ns[i].key := ns[i].val
  }

  /** Where the path to a held key starts. */
  lemma GetHome(h: Hash, ns: seq<Node>, freetop: nat, ord: seq<nat>, p: nat) returns (j: nat)
    requires Inv(h, ns, freetop, ord) && p < |ord|
    ensures ord[p] < |ns| && ns[ord[p]].key != Nil && Path(ns, ord, j, p)
    ensures ord[j] == MainPos(h, ns[ord[p]].key, |ns|) && MainPos(h, ns[ord[j]].key, |ns|) == ord[j]
    ensures ns[ord[j]].key != Nil
  {
    hide Unique, Linked, MainPos;
    assert Home(h, ns, ord, p);
    j :| Path(ns, ord, j, p) && ord[j] == MainPos(h, ns[ord[p]].key, |ns|);
  }

  lemma IsHome(h: Hash, ns: seq<Node>, ord: seq<nat>, p: nat, j: nat)
    requires Keyed(ns, ord) && |ns| > 0 && Path(ns, ord, j, p)
    requires ord[j] == MainPos(h, ns[ord[p]].key, |ns|) && MainPos(h, ns[ord[j]].key, |ns|) == ord[j]
    ensures Home(h, ns, ord, p)
  {
    hide MainPos;
  }

  // -- Inserting a key that is not held -----------------------------------------------------

  /** A blank main node takes the key. */
  lemma InsertBlank(h: Hash, ns: seq<Node>, freetop: nat, ord: seq<nat>, n: nat, k: Val)
    requires Inv(h, ns, freetop, ord) && k != Nil && !Held(ns, k) && n < |ns| && n == MainPos(h, k, |ns|)
    requires ns[n].key == Nil
    ensures Inv(h, ns[n := ns[n].(key := k)], freetop, ord + [n])
  {
    hide MainPos, Home;
    var ns' := ns[n := ns[n].(key := k)];
    var ord' := ord + [n];
    BlankKeyed(ns, ord, n, k);
    forall p | 0 <= p < |ord'|
      ensures Home(h, ns', ord', p)
    {
      var j := p;
      if p < |ord| {
        j := GetHome(h, ns, freetop, ord, p);
      }
      IsHome(h, ns', ord', p, j);
    }
  }

  lemma BlankKeyed(ns: seq<Node>, ord: seq<nat>, n: nat, k: Val)
    requires Keyed(ns, ord) && Linked(ns, ord) && n < |ns| && ns[n].key == Nil && k != Nil
    ensures var ns' := ns[n := ns[n].(key := k)]; Keyed(ns', ord + [n]) && Linked(ns', ord + [n])
  {
    var ns', ord' := ns[n := ns[n].(key := k)], ord + [n];
    forall i | 0 <= i < |ns'| && ns'[i].key != Nil
      ensures i in ord'
    {
      if i == n {
        assert ord'[|ord|] == n;
      } else {
        var p :| 0 <= p < |ord| && ord[p] == i;
        assert ord'[p] == i;
      }
    }
  }

  /** A main node with a dead key is overwritten in its place. */
  lemma InsertDead(h: Hash, ns: seq<Node>, freetop: nat, ord: seq<nat>, n: nat, k: Val)
    requires Inv(h, ns, freetop, ord) && k != Nil && !Held(ns, k) && n < |ns| && n == MainPos(h, k, |ns|)
    requires ns[n].key != Nil
    ensures Inv(h, ns[n := ns[n].(key := k)], freetop, ord)
  {
    hide MainPos, Home;
    var ns' := ns[n := ns[n].(key := k)];
    assert Keyed(ns', ord);
    forall p | 0 <= p < |ord|
      ensures Home(h, ns', ord, p)
    {
      var j := p;
      if ord[p] != n {
        j := GetHome(h, ns, freetop, ord, p);
      }
      IsHome(h, ns', ord, p, j);
    }
  }

  /** f put behind position p0. */
  function PutBehind(ord: seq<nat>, p0: nat, f: nat): (r: seq<nat>)
    requires p0 < |ord|
    ensures |r| == |ord| + 1
    ensures (forall q :: 0 <= q <= p0 ==> r[q] == ord[q]) && r[p0 + 1] == f
    ensures forall q :: p0 + 1 < q < |r| ==> r[q] == ord[q - 1]
  {
    ord[..p0 + 1] + [f] + ord[p0 + 1..]
  }

  /** The nodes after linking in node f with key k behind node n. */
  function LinkBehind(ns: seq<Node>, n: nat, f: nat, k: Val): (r: seq<Node>)
    requires n < |ns| && f < |ns| && n != f
    ensures |r| == |ns| && r[f] == Node(k, Nil, ns[n].next) && r[n] == ns[n].(next := Some(f))
    ensures forall i :: 0 <= i < |ns| && i != n && i != f ==> r[i] == ns[i]
  {
    ns[f := Node(k, Nil, ns[n].next)][n := ns[n].(next := Some(f))]
  }

  lemma BehindDistinct(ord: seq<nat>, p0: nat, f: nat)
    requires Distinct(ord) && p0 < |ord| && f !in ord
    ensures Distinct(PutBehind(ord, p0, f))
  {
    hide PutBehind;
    var r := PutBehind(ord, p0, f);
    forall p, q | 0 <= p < q < |r|
      ensures r[p] != r[q]
    {
    }
  }

  lemma BehindKeyed(ns: seq<Node>, ord: seq<nat>, n: nat, f: nat, k: Val, p0: nat)
    requires Keyed(ns, ord) && k != Nil && n < |ns| && f < |ns| && ns[f].key == Nil && p0 < |ord| && ord[p0] == n
    ensures Keyed(LinkBehind(ns, n, f, k), PutBehind(ord, p0, f))
  {
    hide PutBehind, LinkBehind, Distinct;
    var ns', ord' := LinkBehind(ns, n, f, k), PutBehind(ord, p0, f);
    BehindDistinct(ord, p0, f);
    forall i | 0 <= i < |ns'| && ns'[i].key != Nil
      ensures i in ord'
    {
      InBehind(ord, p0, f, i);
      if i != f { assert ns[i].key != Nil; }
    }
    forall p | 0 <= p < |ord'|
      ensures ord'[p] < |ns'| && ns'[ord'[p]].key != Nil
    {
      InBehind(ord, p0, f, ord'[p]);
      assert ord'[p] in ord';
    }
  }

  /** The nodes after f is put behind another one. */
  lemma InBehind(ord: seq<nat>, p0: nat, f: nat, i: nat)
    requires p0 < |ord|
    ensures i in PutBehind(ord, p0, f) <==> i == f || i in ord
  {
    var r := PutBehind(ord, p0, f);
    if i in ord {
      var p :| 0 <= p < |ord| && ord[p] == i;
      assert r[if p <= p0 then p else p + 1] == i;
    }
    if i in r {
      var q :| 0 <= q < |r| && r[q] == i;
      assert q == p0 + 1 || r[q] == ord[if q <= p0 then q else q - 1];
    }
    assert r[p0 + 1] == f;
  }

  lemma BehindLinked(ns: seq<Node>, ord: seq<nat>, n: nat, f: nat, k: Val, p0: nat)
    requires Keyed(ns, ord) && Linked(ns, ord) && k != Nil
    requires n < |ns| && f < |ns| && ns[f].key == Nil && p0 < |ord| && ord[p0] == n
    ensures var ns', ord' := LinkBehind(ns, n, f, k), PutBehind(ord, p0, f); Keyed(ns', ord') && Linked(ns', ord')
  {
    hide PutBehind, LinkBehind;
    var ns', ord' := LinkBehind(ns, n, f, k), PutBehind(ord, p0, f);
    BehindKeyed(ns, ord, n, f, k, p0);
    forall q | 0 <= q < |ord'| && ns'[ord'[q]].next.Some?
      ensures q + 1 < |ord'| && ns'[ord'[q]].next == Some(ord'[q + 1])
    {
      if q < p0 {
        assert ns'[ord'[q]] == ns[ord[q]];
      } else if q == p0 + 1 {
        assert ns[ord[p0]].next.Some?;
      } else if q > p0 + 1 {
        assert ns'[ord'[q]] == ns[ord[q - 1]];
      }
    }
  }

  lemma BehindPath(ns: seq<Node>, ord: seq<nat>, n: nat, f: nat, k: Val, p0: nat, j: nat, p: nat)
    requires Keyed(ns, ord) && Linked(ns, ord)
    requires n < |ns| && f < |ns| && ns[f].key == Nil && p0 < |ord| && ord[p0] == n && Path(ns, ord, j, p)
    ensures var ns', ord' := LinkBehind(ns, n, f, k), PutBehind(ord, p0, f);
            Path(ns', ord', if j <= p0 then j else j + 1, if p <= p0 then p else p + 1)
  {
    hide PutBehind, LinkBehind;
    var ns', ord' := LinkBehind(ns, n, f, k), PutBehind(ord, p0, f);
    forall i | (if j <= p0 then j else j + 1) <= i < if p <= p0 then p else p + 1
      ensures ord'[i] < |ns'| && ns'[ord'[i]].next.Some?
    {
      if i < p0 {
        assert ns'[ord'[i]] == ns[ord[i]];
      } else if i == p0 + 1 {
        assert ns[ord[p0]].next.Some?;
      } else if i > p0 + 1 {
        assert ns'[ord'[i]] == ns[ord[i - 1]];
      }
    }
  }

  /** The main node holds a key of its own: a free node is linked in behind it. */
  lemma InsertBehind(h: Hash, ns: seq<Node>, freetop: nat, ord: seq<nat>, n: nat, f: nat, k: Val, p0: nat)
    requires Inv(h, ns, freetop, ord) && k != Nil && !Held(ns, k) && n < |ns| && n == MainPos(h, k, |ns|)
    requires f < freetop && ns[f].key == Nil && (forall i :: f < i < freetop ==> ns[i].key != Nil)
    requires p0 < |ord| && ord[p0] == n && ns[n].key != Nil && MainPos(h, ns[n].key, |ns|) == n
    ensures Inv(h, LinkBehind(ns, n, f, k), f, PutBehind(ord, p0, f))
  {
    hide MainPos, PutBehind, LinkBehind, Path, Home, Linked, Keyed;
    var ns', ord' := LinkBehind(ns, n, f, k), PutBehind(ord, p0, f);
    BehindLinked(ns, ord, n, f, k, p0);
    forall q | 0 <= q < |ord'|
      ensures Home(h, ns', ord', q)
    {
      BehindHome(h, ns, freetop, ord, n, f, k, p0, q);
    }
  }

  lemma BehindHome(h: Hash, ns: seq<Node>, freetop: nat, ord: seq<nat>, n: nat, f: nat, k: Val, p0: nat, q: nat)
    requires Inv(h, ns, freetop, ord) && k != Nil && n < |ns| && n == MainPos(h, k, |ns|)
    requires f < |ns| && ns[f].key == Nil && p0 < |ord| && ord[p0] == n && ns[n].key != Nil
    requires MainPos(h, ns[n].key, |ns|) == n && Keyed(ns, ord) && Linked(ns, ord)
    requires q < |PutBehind(ord, p0, f)| && Keyed(LinkBehind(ns, n, f, k), PutBehind(ord, p0, f))
    ensures Home(h, LinkBehind(ns, n, f, k), PutBehind(ord, p0, f), q)
  {
    hide MainPos, PutBehind, LinkBehind, Linked, Distinct, Unique, Inv, Home, Keyed;
    var ns', ord' := LinkBehind(ns, n, f, k), PutBehind(ord, p0, f);
    KeyedAt(ns', ord', q);
    if q == p0 + 1 {
      OneLink(ns', ord', p0);
      assert ns'[ord'[p0]].next.Some?;
      IsHome(h, ns', ord', q, p0);
    } else {
      var p := if q <= p0 then q else q - 1;
      KeyedAt(ns, ord, p);
      var j := GetHome(h, ns, freetop, ord, p);
      KeyedAt(ns, ord, j);
      BehindPath(ns, ord, n, f, k, p0, j, p);
      var j' := if j <= p0 then j else j + 1;
      assert ord'[j'] == ord[j] && ns'[ord'[q]].key == ns[ord[p]].key && ns'[ord[j]].key == ns[ord[j]].key;
      IsHome(h, ns', ord', q, j');
    }
  }

  lemma KeyedAt(ns: seq<Node>, ord: seq<nat>, p: nat)
    requires Keyed(ns, ord) && p < |ord|
    ensures ord[p] < |ns| && ns[ord[p]].key != Nil
  {
  }

  lemma OneLink(ns: seq<Node>, ord: seq<nat>, p: nat)
    requires p + 1 < |ord| && ord[p] < |ns| && ns[ord[p]].next.Some?
    ensures Path(ns, ord, p, p + 1)
  {
  }

  // -- Moving a colliding node away ------------------------------------------------------------

  /** The order after node n at position p0 moved to f and was used again. */
  function MovedOrder(ord: seq<nat>, p0: nat, f: nat, n: nat): (r: seq<nat>)
    requires p0 < |ord|
    ensures |r| == |ord| + 1 && r[p0] == f && r[|ord|] == n
    ensures forall q :: 0 <= q < |ord| && q != p0 ==> r[q] == ord[q]
  {
    ord[p0 := f] + [n]
  }

  /** The nodes after n moved to f, its predecessor linked to f, and n took key k. */
  function MovedNodes(ns: seq<Node>, pred: nat, n: nat, f: nat, k: Val): (r: seq<Node>)
    requires n < |ns| && f < |ns| && pred < |ns| && n != f && pred != n && pred != f
    ensures |r| == |ns| && r[f] == ns[n] && r[n] == Node(k, Nil, None) && r[pred] == ns[pred].(next := Some(f))
    ensures forall i :: 0 <= i < |ns| && i != n && i != f && i != pred ==> r[i] == ns[i]
  {
    ns[pred := ns[pred].(next := Some(f))][f := ns[n]][n := Node(k, Nil, None)]
  }

  /** The situation in which a node is moved. */
  ghost predicate CanMove(ns: seq<Node>, ord: seq<nat>, n: nat, f: nat, p0: nat) {
    && Keyed(ns, ord) && Linked(ns, ord) && 0 < p0 < |ord| && ord[p0] == n < |ns| && f < |ns| && ns[f].key == Nil
    && ord[p0 - 1] < |ns| && ns[ord[p0 - 1]].next.Some?
  }

  lemma MovedDistinct(ord: seq<nat>, p0: nat, f: nat, n: nat)
    requires Distinct(ord) && p0 < |ord| && f !in ord && ord[p0] == n
    ensures Distinct(MovedOrder(ord, p0, f, n))
  {
    hide MovedOrder;
    var r := MovedOrder(ord, p0, f, n);
    forall p, q | 0 <= p < q < |r|
      ensures r[p] != r[q]
    {
    }
  }

  lemma MovedKeyed(ns: seq<Node>, ord: seq<nat>, n: nat, f: nat, k: Val, p0: nat)
    requires CanMove(ns, ord, n, f, p0) && k != Nil
    ensures n != f && ord[p0 - 1] != n && ord[p0 - 1] != f
    ensures Keyed(MovedNodes(ns, ord[p0 - 1], n, f, k), MovedOrder(ord, p0, f, n))
  {
    hide MovedOrder, MovedNodes;
    var ns', ord' := MovedNodes(ns, ord[p0 - 1], n, f, k), MovedOrder(ord, p0, f, n);
    MovedDistinct(ord, p0, f, n);
    forall i | 0 <= i < |ns'| && ns'[i].key != Nil
      ensures i in ord'
    {
      if i == f {
        assert ord'[p0] == f;
      } else if i == n {
        assert ord'[|ord|] == n;
      } else {
        var p :| 0 <= p < |ord| && ord[p] == i;
        assert ord'[p] == i;
      }
    }
  }

  lemma MovedLinked(ns: seq<Node>, ord: seq<nat>, n: nat, f: nat, k: Val, p0: nat)
    requires CanMove(ns, ord, n, f, p0) && k != Nil && n != f && ord[p0 - 1] != n && ord[p0 - 1] != f
    requires Keyed(MovedNodes(ns, ord[p0 - 1], n, f, k), MovedOrder(ord, p0, f, n))
    ensures Linked(MovedNodes(ns, ord[p0 - 1], n, f, k), MovedOrder(ord, p0, f, n))
  {
    hide MovedOrder, MovedNodes;
    var ns', ord' := MovedNodes(ns, ord[p0 - 1], n, f, k), MovedOrder(ord, p0, f, n);
    forall q | 0 <= q < |ord'| && ns'[ord'[q]].next.Some?
      ensures q + 1 < |ord'| && ns'[ord'[q]].next == Some(ord'[q + 1])
    {
      if q == p0 {
        assert ns[ord[p0]].next.Some?;
      } else if q != p0 - 1 && q < |ord| {
        assert ns'[ord'[q]] == ns[ord[q]];
      }
    }
  }

  /** Links keep their places. */
  lemma MovedPath(ns: seq<Node>, ord: seq<nat>, n: nat, f: nat, k: Val, p0: nat, j: nat, p: nat)
    requires CanMove(ns, ord, n, f, p0) && n != f && ord[p0 - 1] != n && ord[p0 - 1] != f && Path(ns, ord, j, p)
    ensures Path(MovedNodes(ns, ord[p0 - 1], n, f, k), MovedOrder(ord, p0, f, n), j, p)
  {
    hide MovedOrder, MovedNodes;
    var ns', ord' := MovedNodes(ns, ord[p0 - 1], n, f, k), MovedOrder(ord, p0, f, n);
    forall i | j <= i < p
      ensures ord'[i] < |ns'| && ns'[ord'[i]].next.Some?
    {
      if i != p0 && i != p0 - 1 {
        assert ns'[ord'[i]] == ns[ord[i]];
      }
    }
  }

  /** No key belongs to a main node that holds a foreign key. */
  lemma NoOwner(h: Hash, ns: seq<Node>, freetop: nat, ord: seq<nat>, n: nat, i: nat)
    requires Inv(h, ns, freetop, ord) && n < |ns| && MainPos(h, ns[n].key, |ns|) != n && i < |ns| && ns[i].key != Nil
    ensures MainPos(h, ns[i].key, |ns|) != n
  {
    hide MainPos, Linked, Unique, Home;
    var p :| 0 <= p < |ord| && ord[p] == i;
    var j := GetHome(h, ns, freetop, ord, p);
  }

  /** The main node holds a foreign key, which moves to a free node. */
  lemma InsertMoving(h: Hash, ns: seq<Node>, freetop: nat, ord: seq<nat>, n: nat, f: nat, k: Val, p0: nat)
    requires Inv(h, ns, freetop, ord) && k != Nil && !Held(ns, k) && n < |ns| && n == MainPos(h, k, |ns|)
    requires f < freetop && ns[f].key == Nil && (forall i :: f < i < freetop ==> ns[i].key != Nil)
    requires ns[n].key != Nil && MainPos(h, ns[n].key, |ns|) != n && CanMove(ns, ord, n, f, p0)
    ensures n != f && ord[p0 - 1] != n && ord[p0 - 1] != f
    ensures Inv(h, MovedNodes(ns, ord[p0 - 1], n, f, k), f, MovedOrder(ord, p0, f, n))
  {
    hide MainPos, MovedOrder, MovedNodes, Path, Home, Linked, Keyed;
    MovedKeyed(ns, ord, n, f, k, p0);
    MovedLinked(ns, ord, n, f, k, p0);
    var ns', ord' := MovedNodes(ns, ord[p0 - 1], n, f, k), MovedOrder(ord, p0, f, n);
    forall q | 0 <= q < |ord'|
      ensures Home(h, ns', ord', q)
    {
      MovedHome(h, ns, freetop, ord, n, f, k, p0, q);
    }
  }

  lemma MovedHome(h: Hash, ns: seq<Node>, freetop: nat, ord: seq<nat>, n: nat, f: nat, k: Val, p0: nat, q: nat)
    requires Inv(h, ns, freetop, ord) && k != Nil && n < |ns| && n == MainPos(h, k, |ns|)
    requires ns[n].key != Nil && MainPos(h, ns[n].key, |ns|) != n && CanMove(ns, ord, n, f, p0)
    requires n != f && ord[p0 - 1] != n && ord[p0 - 1] != f
    requires q <= |ord| && Keyed(MovedNodes(ns, ord[p0 - 1], n, f, k), MovedOrder(ord, p0, f, n))
    ensures Home(h, MovedNodes(ns, ord[p0 - 1], n, f, k), MovedOrder(ord, p0, f, n), q)
  {
    hide MainPos, MovedOrder, MovedNodes, Linked, Unique, Inv, Home;
    var ns', ord' := MovedNodes(ns, ord[p0 - 1], n, f, k), MovedOrder(ord, p0, f, n);
    if q == |ord| {
      IsHome(h, ns', ord', q, q);
    } else {
      var j := GetHome(h, ns, freetop, ord, q);
      NoOwner(h, ns, freetop, ord, n, ord[q]);
      MovedPath(ns, ord, n, f, k, p0, j, q);
      assert j != p0 && ord'[j] == ord[j] && ns'[ord'[q]].key == ns[ord[q]].key && ns'[ord[j]].key == ns[ord[j]].key;
      IsHome(h, ns', ord', q, j);
    }
  }

  // -- Contents --------------------------------------------------------------------------------------

  ghost predicate HasPair(ns: seq<Node>, k: Val, v: Val) {
    exists i :: 0 <= i < |ns| && ns[i].key == k && ns[i].val == v
  }

  lemma LiveIs(ns: seq<Node>, k: Val)
    requires Unique(ns) && k != Nil
    ensures k in Live(ns) <==> exists v :: v != Nil && HasPair(ns, k, v)
    ensures k in Live(ns) ==> Live(ns)[k] != Nil && HasPair(ns, k, Live(ns)[k])
    ensures forall v :: HasPair(ns, k, v) && v != Nil ==> k in Live(ns) && Live(ns)[k] == v
  {
    if k in Live(ns) {
      var i :| 0 <= i < |ns| && ns[i].val != Nil && ns[i].key != Nil && ns[i].key == k;
      assert HasPair(ns, k, ns[i].val);
    }
  }

  /** Two node arrays with the same live pairs. */
  lemma LiveSame(ns: seq<Node>, ns': seq<Node>)
    requires Unique(ns) && Unique(ns')
    requires forall k, v :: k != Nil && v != Nil ==> HasPair(ns, k, v) == HasPair(ns', k, v)
    ensures Live(ns') == Live(ns)
  {
    hide HasPair, Live, Unique;
    assert Nil !in Live(ns) && Nil !in Live(ns') by { LiveNil(ns); LiveNil(ns'); }
    forall k | k != Nil
      ensures k in Live(ns) <==> k in Live(ns')
      ensures k in Live(ns) ==> Live(ns)[k] == Live(ns')[k]
    {
      LiveIs(ns, k);
      LiveIs(ns', k);
    }
  }

  lemma LiveNil(ns: seq<Node>)
    requires Unique(ns)
    ensures Nil !in Live(ns)
  {
  }

  lemma BlankLive(ns: seq<Node>, n: nat, k: Val)
    requires Unique(ns) && n < |ns| && ns[n].val == Nil && !Held(ns, k) && k != Nil
    ensures Unique(ns[n := ns[n].(key := k)]) && Live(ns[n := ns[n].(key := k)]) == Live(ns)
  {
    hide Live;
    var ns' := ns[n := ns[n].(key := k)];
    forall k', v | k' != Nil && v != Nil
      ensures HasPair(ns, k', v) == HasPair(ns', k', v)
    {
      if HasPair(ns, k', v) {
        var i :| 0 <= i < |ns| && ns[i].key == k' && ns[i].val == v;
        assert ns'[i] == ns[i];
      }
    }
    LiveSame(ns, ns');
  }

  lemma BehindLive(ns: seq<Node>, n: nat, f: nat, k: Val)
    requires Unique(ns) && n < |ns| && f < |ns| && n != f && ns[f].key == Nil && !Held(ns, k) && k != Nil
    ensures Unique(LinkBehind(ns, n, f, k)) && Live(LinkBehind(ns, n, f, k)) == Live(ns)
  {
    hide Live, LinkBehind;
    var ns' := LinkBehind(ns, n, f, k);
    forall k', v | k' != Nil && v != Nil
      ensures HasPair(ns, k', v) == HasPair(ns', k', v)
    {
      if HasPair(ns, k', v) {
        var i :| 0 <= i < |ns| && ns[i].key == k' && ns[i].val == v;
        assert ns'[i].key == k' && ns'[i].val == v;
      }
    }
    LiveSame(ns, ns');
  }

  lemma MovedLive(ns: seq<Node>, pred: nat, n: nat, f: nat, k: Val)
    requires Unique(ns) && n < |ns| && f < |ns| && pred < |ns| && n != f && pred != n && pred != f
    requires ns[f].key == Nil && !Held(ns, k) && k != Nil
    ensures Unique(MovedNodes(ns, pred, n, f, k)) && Live(MovedNodes(ns, pred, n, f, k)) == Live(ns)
  {
    hide Live, MovedNodes;
    var ns' := MovedNodes(ns, pred, n, f, k);
    forall k', v | k' != Nil && v != Nil
      ensures HasPair(ns, k', v) == HasPair(ns', k', v)
    {
      if HasPair(ns, k', v) {
        var i :| 0 <= i < |ns| && ns[i].key == k' && ns[i].val == v;
        var i' := if i == n then f else i;
        assert ns'[i'].key == k' && ns'[i'].val == v;
      }
    }
    LiveSame(ns, ns');
  }

  lemma OnlyAt(ns: seq<Node>, i: nat, j: nat)
    requires Unique(ns) && i < |ns| && j < |ns| && ns[i].key != Nil && ns[j].key == ns[i].key
    ensures i == j
  {
  }

  lemma StoreUnique(ns: seq<Node>, i: nat, v: Val)
    requires Unique(ns) && i < |ns|
    ensures Unique(ns[i := ns[i].(val := v)])
  {
    var ns' := ns[i := ns[i].(val := v)];
    forall a, b | 0 <= a < b < |ns'| && ns'[a].key != Nil
      ensures ns'[a].key != ns'[b].key
    {
      assert ns[a].key != ns[b].key;
    }
  }

  lemma PairStored(ns: seq<Node>, ns': seq<Node>, i: nat, v: Val, k: Val, w: Val)
    requires i < |ns| && ns' == ns[i := ns[i].(val := v)]
    requires if k == ns[i].key then w == v else HasPair(ns, k, w)
    ensures HasPair(ns', k, w)
  {
    if k == ns[i].key {
      assert ns'[i].key == k && ns'[i].val == w;
    } else {
      var j :| 0 <= j < |ns| && ns[j].key == k && ns[j].val == w;
      assert ns'[j].key == k && ns'[j].val == w;
    }
  }

  lemma StoredPair(ns: seq<Node>, ns': seq<Node>, i: nat, v: Val, k: Val, w: Val)
    requires Unique(ns) && i < |ns| && ns[i].key != Nil && ns' == ns[i := ns[i].(val := v)] && HasPair(ns', k, w)
    ensures if k == ns[i].key then w == v else HasPair(ns, k, w)
  {
    hide Unique;
    var j :| 0 <= j < |ns'| && ns'[j].key == k && ns'[j].val == w;
    assert ns[j].key == k;
    if k == ns[i].key {
      OnlyAt(ns, i, j);
    }
  }

  lemma StorePairs(ns: seq<Node>, i: nat, v: Val, k: Val, w: Val)
    requires Unique(ns) && i < |ns| && ns[i].key != Nil
    ensures var ns' := ns[i := ns[i].(val := v)];
            Unique(ns') && (HasPair(ns', k, w) <==> if k == ns[i].key then w == v else HasPair(ns, k, w))
  {
    hide Unique, HasPair;
    StoreUnique(ns, i, v);
    var ns' := ns[i := ns[i].(val := v)];
    if HasPair(ns', k, w) {
      StoredPair(ns, ns', i, v, k, w);
    }
    if if k == ns[i].key then w == v else HasPair(ns, k, w) {
      PairStored(ns, ns', i, v, k, w);
    }
  }

  /** A store into the node that holds a key. */
  lemma StoreLive(ns: seq<Node>, i: nat, v: Val)
    requires Unique(ns) && i < |ns| && ns[i].key != Nil
    ensures var ns' := ns[i := ns[i].(val := v)];
            Unique(ns') && Live(ns') == if v == Nil then Live(ns) - {ns[i].key} else Live(ns)[ns[i].key := v]
  {
    hide HasPair, Live, Unique;
    var ns' := ns[i := ns[i].(val := v)];
    StorePairs(ns, i, v, Nil, Nil);
    LiveNil(ns);
    LiveNil(ns');
    var m := if v == Nil then Live(ns) - {ns[i].key} else Live(ns)[ns[i].key := v];
    forall k | k != Nil
      ensures (k in Live(ns') <==> k in m) && (k in m ==> Live(ns')[k] == m[k])
    {
      LiveIs(ns, k);
      LiveIs(ns', k);
      forall w
        ensures HasPair(ns', k, w) <==> if k == ns[i].key then w == v else HasPair(ns, k, w)
      {
        StorePairs(ns, i, v, k, w);
      }
      if k == ns[i].key { assert HasPair(ns', k, v); }
    }
  }

  /** Values can change without harm. */
  lemma StoreInv(h: Hash, ns: seq<Node>, freetop: nat, ord: seq<nat>, i: nat, v: Val)
    requires Inv(h, ns, freetop, ord) && i < |ns| && ns[i].key != Nil
    ensures Inv(h, ns[i := ns[i].(val := v)], freetop, ord)
  {
    hide MainPos, Home;
    var ns' := ns[i := ns[i].(val := v)];
    assert Keyed(ns', ord);
    forall p | 0 <= p < |ord|
      ensures Home(h, ns', ord, p)
    {
      var j := GetHome(h, ns, freetop, ord, p);
      IsHome(h, ns', ord, p, j);
    }
  }
}
