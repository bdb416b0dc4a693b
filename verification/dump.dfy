/** The bytecode dump: what the writer puts into the file, what the reader makes
    of any file, and that the second undoes the first. */
module Dump {
  import opened Values

  type Byte = x: int | 0 <= x < 256

  const TWO31: nat := 0x8000_0000
  const TWO64: nat := 0x1_0000_0000_0000_0000
  const MAX_STR: nat := 512

  const FUNCF: nat := 94
  const FUNCV: nat := 97

  // -- Words ------------------------------------------------------------------------------

  function Pow256(n: nat): (r: nat)
    ensures r > 0
  {
    if n == 0 then 1 else 256 * Pow256(n - 1)
  }

  /** Little-endian bytes of a word. */
  function LE(x: nat, n: nat): (s: seq<Byte>)
    ensures |s| == n
  {
    if n == 0 then [] else [x % 256] + LE(x / 256, n - 1)
  }

  function FromLE(s: seq<Byte>): nat {
    if s == [] then 0 else s[0] + 256 * FromLE(s[1..])
  }

  lemma {:induction false} WordRound(x: nat, n: nat)
    requires x < Pow256(n)
    ensures FromLE(LE(x, n)) == x
  {
    if n > 0 {
      WordRound(x / 256, n - 1);
      assert LE(x, n)[1..] == LE(x / 256, n - 1);
    }
  }

  lemma Pow256Is()
    ensures Pow256(2) == 0x1_0000 && Pow256(4) == TWO32 && Pow256(8) == TWO64
  {
    assert Pow256(2) == 0x1_0000;
    assert Pow256(4) == TWO32;
    assert Pow256(6) == 0x1_0000_0000_0000;
  }

  /** bcread_mem: n bytes; reading past the end is an error. */
  function Mem(b: seq<Byte>, n: nat): Option<(seq<Byte>, seq<Byte>)> {
    if n <= |b| then Some((b[..n], b[n..])) else None
  }

  function Word(b: seq<Byte>, n: nat): Option<(nat, seq<Byte>)> {
    var (w, r) :- Mem(b, n);
    Some((FromLE(w), r))
  }

  lemma MemIs(x: seq<Byte>, r: seq<Byte>)
    ensures Mem(x + r, |x|) == Some((x, r))
  {
    assert (x + r)[..|x|] == x && (x + r)[|x|..] == r;
  }

  lemma WordIs(x: nat, n: nat, r: seq<Byte>)
    requires x < Pow256(n)
    ensures Word(LE(x, n) + r, n) == Some((x, r))
  {
    hide LE, FromLE, Pow256;
    MemIs(LE(x, n), r);
    WordRound(x, n);
  }

  /** A 32-bit word. */
  lemma U32Is(x: nat, r: seq<Byte>)
    requires x < TWO32
    ensures Word(LE(x, 4) + r, 4) == Some((x, r))
  {
    Pow256Is();
    WordIs(x, 4, r);
  }

  /** Several words of n bytes. */
  function LEs(xs: seq<nat>, n: nat): (s: seq<Byte>)
    ensures |s| == |xs| * n
  {
    if xs == [] then [] else LE(xs[0], n) + LEs(xs[1..], n)
  }

  function Words(b: seq<Byte>, k: nat, n: nat): Option<(seq<nat>, seq<Byte>)>
    decreases k
  {
    if k == 0 then Some(([], b))
    else
      var (x, r) :- Word(b, n);
      var (xs, r2) :- Words(r, k - 1, n);
      Some(([x] + xs, r2))
  }

  lemma {:induction false} WordsAre(xs: seq<nat>, n: nat, r: seq<Byte>)
    requires forall i :: 0 <= i < |xs| ==> xs[i] < Pow256(n)
    ensures Words(LEs(xs, n) + r, |xs|, n) == Some((xs, r))
  {
    hide LE, Pow256, Word;
    if xs == [] {
      assert LEs(xs, n) + r == r;
    } else {
      assert LEs(xs, n) + r == LE(xs[0], n) + (LEs(xs[1..], n) + r);
      WordIs(xs[0], n, LEs(xs[1..], n) + r);
      WordsAre(xs[1..], n, r);
      assert [xs[0]] + xs[1..] == xs;
    }
  }

  // -- Numbers and strings ------------------------------------------------------------------

  /** The bits of a 64-bit number. */
  function Bits64(n: int): nat {
    n % TWO64
  }

  function Num64(x: nat): int {
    if x < TWO63 then x else x - TWO64
  }

  predicate IsNum64(n: int) {
    -TWO63 <= n < TWO63
  }

  predicate IsByteString(s: string) {
    forall i :: 0 <= i < |s| ==> s[i] < 256 as char
  }

  function Bytes(s: string): (b: seq<Byte>)
    requires IsByteString(s)
    ensures |b| == |s|
  {
    seq(|s|, i requires 0 <= i < |s| => s[i] as int)
  }

  function Chars(b: seq<Byte>): (s: string)
    ensures |s| == |b|
  {
    seq(|b|, i requires 0 <= i < |b| => b[i] as char)
  }

  lemma CharsRound(s: string)
    requires IsByteString(s)
    ensures Chars(Bytes(s)) == s
  {
  }

  /** kp_str_new, for the reader: strings of MAX_STR bytes or more are refused. */
  function NewStr(b: seq<Byte>): Option<string> {
    if |b| >= MAX_STR then None else Some(Chars(b))
  }

  lemma StrRound(s: string, r: seq<Byte>)
    requires IsByteString(s)
    ensures Mem(Bytes(s) + r, |s|) == Some((Bytes(s), r))
    ensures NewStr(Bytes(s)) == if |s| < MAX_STR then Some(s) else None
  {
    hide Bytes, Chars;
    MemIs(Bytes(s), r);
    CharsRound(s);
  }

  // -- Template tables ------------------------------------------------------------------------

  /** The array part and the nodes of a table. */
  datatype TabImage = TabImage(arr: seq<Val>, nodes: seq<(Val, Val)>)

  /** Values the dump can hold; strings have a sensible length. */
  predicate ValOk(v: Val) {
    match v
    case Str(s) => IsByteString(s) && |s| < TWO31 - 5
    case Num(n) => IsNum64(n)
    case Obj(_) => false
    case _ => true
  }

  predicate Short(v: Val) {
    v.Str? ==> |v.s| < MAX_STR
  }

  /** bcwrite_ktabk: type code, then the data. */
  function EncVal(v: Val): seq<Byte>
    requires ValOk(v)
  {
    match v
    case Str(s) => LE(5 + |s|, 4) + Bytes(s)
    case Num(n) => LE(4, 4) + LE(Bits64(n), 8)
    case Nil => LE(0, 4)
    case False => LE(1, 4)
    case True => LE(2, 4)
  }

  /** bcread_ktabk. */
  function DecVal(b: seq<Byte>): Option<(Val, seq<Byte>)> {
    var (tp, r) :- Word(b, 4);
    if 5 <= tp < TWO31 then
      var (m, r2) :- Mem(r, tp - 5);
      var s :- NewStr(m);
      Some((Str(s), r2))
    else if tp == 4 then
      var (x, r2) :- Word(r, 8);
      Some((Num(Num64(x)), r2))
    else if tp == 0 then Some((Nil, r))
    else if tp == 1 then Some((False, r))
    else if tp == 2 then Some((True, r))
    else None
  }

  lemma ValRound(v: Val, r: seq<Byte>)
    requires ValOk(v)
    ensures DecVal(EncVal(v) + r) == if Short(v) then Some((v, r)) else None
  {
    hide LE, Word, Mem, Bytes, NewStr, Pow256, FromLE;
    match v
    case Str(s) =>
      assert EncVal(v) + r == LE(5 + |s|, 4) + (Bytes(s) + r);
      U32Is(5 + |s|, Bytes(s) + r);
      StrRound(s, r);
    case Num(n) =>
      assert EncVal(v) + r == LE(4, 4) + (LE(Bits64(n), 8) + r);
      U32Is(4, LE(Bits64(n), 8) + r);
      Pow256Is();
      WordIs(Bits64(n), 8, r);
    case Nil => U32Is(0, r);
    case False => U32Is(1, r);
    case True => U32Is(2, r);
  }

  function EncVals(vs: seq<Val>): seq<Byte>
    requires forall i :: 0 <= i < |vs| ==> ValOk(vs[i])
  {
    if vs == [] then [] else EncVal(vs[0]) + EncVals(vs[1..])
  }

  function DecVals(b: seq<Byte>, n: nat): Option<(seq<Val>, seq<Byte>)>
    decreases n
  {
    if n == 0 then Some(([], b))
    else
      var (v, r) :- DecVal(b);
      var (vs, r2) :- DecVals(r, n - 1);
      Some(([v] + vs, r2))
  }

  lemma {:induction false} ValsRound(vs: seq<Val>, r: seq<Byte>)
    requires forall i :: 0 <= i < |vs| ==> ValOk(vs[i])
    ensures DecVals(EncVals(vs) + r, |vs|) == if forall i :: 0 <= i < |vs| ==> Short(vs[i]) then Some((vs, r)) else None
  {
    hide EncVal, DecVal, ValOk, Short;
    if vs == [] {
      assert EncVals(vs) + r == r;
    } else {
      var rest := vs[1..];
      assert EncVals(vs) + r == EncVal(vs[0]) + (EncVals(rest) + r);
      ValRound(vs[0], EncVals(rest) + r);
      ValsRound(rest, r);
      assert [vs[0]] + rest == vs;
      assert (forall i :: 0 <= i < |vs| ==> Short(vs[i])) <==>
               Short(vs[0]) && (forall i :: 0 <= i < |rest| ==> Short(rest[i])) by {
        if Short(vs[0]) && (forall i :: 0 <= i < |rest| ==> Short(rest[i])) {
          forall i | 0 <= i < |vs|
            ensures Short(vs[i])
          {
            if i > 0 { assert vs[i] == rest[i - 1]; }
          }
        }
      }
    }
  }

  /** The array part without its trailing nils. */
  function Trim(a: seq<Val>): (r: seq<Val>)
    ensures r <= a && (r != [] ==> r[|r| - 1] != Nil)
    ensures forall i :: |r| <= i < |a| ==> a[i] == Nil
  {
    if a == [] || a[|a| - 1] != Nil then a else Trim(a[..|a| - 1])
  }

  /** The nodes with a value, last node first. */
  function LiveNodes(ns: seq<(Val, Val)>): (r: seq<(Val, Val)>)
    ensures |r| <= |ns|
  {
    if ns == [] then []
    else LiveNodes(ns[1..]) + if ns[0].1 != Nil then [ns[0]] else []
  }

  /** Keys and values one after the other. */
  function Flatten(ps: seq<(Val, Val)>): (r: seq<Val>)
    ensures |r| == 2 * |ps|
    ensures forall i :: 0 <= i < |ps| ==> r[2 * i] == ps[i].0 && r[2 * i + 1] == ps[i].1
  {
    var r := seq(2 * |ps|, i requires 0 <= i < 2 * |ps| => if i % 2 == 0 then ps[i / 2].0 else ps[i / 2].1);
    assert forall i :: 0 <= i < |ps| ==> (2 * i) / 2 == i && (2 * i + 1) / 2 == i;
    r
  }

  function Pairs(vs: seq<Val>): (ps: seq<(Val, Val)>)
    ensures |ps| == |vs| / 2
  {
    seq(|vs| / 2, i requires 0 <= i < |vs| / 2 => (vs[2 * i], vs[2 * i + 1]))
  }

  lemma PairsRound(ps: seq<(Val, Val)>)
    ensures Pairs(Flatten(ps)) == ps
  {
    hide Flatten;
    var vs := Flatten(ps);
    assert |vs| / 2 == |ps|;
    forall i | 0 <= i < |ps|
      ensures Pairs(vs)[i] == ps[i]
    {
      assert vs[2 * i] == ps[i].0 && vs[2 * i + 1] == ps[i].1;
    }
  }


  ghost predicate TabOk(t: TabImage) {
    && (forall i :: 0 <= i < |t.arr| ==> ValOk(t.arr[i])) && |t.arr| <= MAX_ASIZE
    && (forall i :: 0 <= i < |t.nodes| ==> ValOk(t.nodes[i].0) && ValOk(t.nodes[i].1))
    && (forall i :: 0 <= i < |t.nodes| && t.nodes[i].1 != Nil ==> t.nodes[i].0 != Nil) && |t.nodes| <= MAX_HSIZE
  }

  /** What is left of a table in the dump. */
  function NormTab(t: TabImage): TabImage {
    TabImage(Trim(t.arr), LiveNodes(t.nodes))
  }

  lemma {:induction false} LiveNodesOk(ns: seq<(Val, Val)>)
    requires forall i :: 0 <= i < |ns| ==> ValOk(ns[i].0) && ValOk(ns[i].1) && (ns[i].1 != Nil ==> ns[i].0 != Nil)
    ensures forall i :: 0 <= i < |LiveNodes(ns)| ==>
              var p := LiveNodes(ns)[i]; ValOk(p.0) && ValOk(p.1) && p.0 != Nil && p.1 != Nil
  {
    hide ValOk;
    if ns != [] { LiveNodesOk(ns[1..]); }
  }

  lemma NormTabOk(t: TabImage)
    requires TabOk(t)
    ensures TabOk(NormTab(t)) && |NormTab(t).arr| <= |t.arr|
    ensures var n := NormTab(t); forall i :: 0 <= i < |n.nodes| ==> n.nodes[i].0 != Nil
    ensures forall i :: 0 <= i < |Flatten(NormTab(t).nodes)| ==> ValOk(Flatten(NormTab(t).nodes)[i])
  {
    hide ValOk, Flatten;
    LiveNodesOk(t.nodes);
    var ps := NormTab(t).nodes;
    forall i | 0 <= i < |Flatten(ps)|
      ensures ValOk(Flatten(ps)[i])
    {
      var j := i / 2;
      assert ValOk(ps[j].0) && ValOk(ps[j].1);
      assert Flatten(ps)[2 * j] == ps[j].0 && Flatten(ps)[2 * j + 1] == ps[j].1;
    }
  }

  /** bcwrite_ktab: sizes, the array part, then keys with their values. */
  ghost function EncTab(t: TabImage): seq<Byte>
    requires TabOk(t)
  {
    NormTabOk(t);
    var n := NormTab(t);
    LE(|n.arr|, 4) + LE(|n.nodes|, 4) + EncVals(n.arr) + EncVals(Flatten(n.nodes))
  }

  /** bcread_ktab. */
  function DecTab(b: seq<Byte>): Option<(TabImage, seq<Byte>)> {
    var (na, r1) :- Word(b, 4);
    var (nh, r2) :- Word(r1, 4);
    if na > MAX_ASIZE || nh > MAX_HSIZE then None
    else
      var (a, r3) :- DecVals(r2, na);
      var (vs, r4) :- DecVals(r3, 2 * nh);
      var ps := Pairs(vs);
      if exists i :: 0 <= i < |ps| && ps[i].0 == Nil then None else Some((TabImage(a, ps), r4))
  }

  ghost predicate TabShort(t: TabImage) {
    && (forall i :: 0 <= i < |NormTab(t).arr| ==> Short(NormTab(t).arr[i]))
    && (forall i :: 0 <= i < 2 * |NormTab(t).nodes| ==> Short(Flatten(NormTab(t).nodes)[i]))
  }

  lemma TabRound(t: TabImage, r: seq<Byte>)
    requires TabOk(t)
    ensures DecTab(EncTab(t) + r) == if TabShort(t) then Some((NormTab(t), r)) else None
  {
    hide LE, Word, EncVals, DecVals, Flatten, Pairs, NormTab, ValOk, Short;
    NormTabOk(t);
    var n := NormTab(t);
    var kv := Flatten(n.nodes);
    assert EncTab(t) + r == LE(|n.arr|, 4) + (LE(|n.nodes|, 4) + (EncVals(n.arr) + (EncVals(kv) + r)));
    U32Is(|n.arr|, LE(|n.nodes|, 4) + (EncVals(n.arr) + (EncVals(kv) + r)));
    U32Is(|n.nodes|, EncVals(n.arr) + (EncVals(kv) + r));
    ValsRound(n.arr, EncVals(kv) + r);
    ValsRound(kv, r);
    PairsRound(n.nodes);
  }

  // -- Prototypes ------------------------------------------------------------------------------------

  datatype Dbg = Dbg(firstline: nat, numline: nat, info: seq<Byte>)

  datatype Proto = Proto(flags: nat, numparams: nat, framesize: nat, uv: seq<nat>, kgc: seq<Const>,
                         kn: seq<int>, bc: seq<nat>, dbg: Option<Dbg>)

  /** Constants in the order of their addresses. */
  datatype Const = CStr(s: string) | CTab(t: TabImage) | CChild(pt: Proto)

  const PROTO_CHILD: nat := 1
  const PROTO_VARARG: nat := 2

  predicate HasFlag(flags: nat, f: nat)
    requires f > 0
  {
    flags / f % 2 == 1
  }

  /** The function header instruction, which is not written. */
  function HeaderIns(flags: nat, framesize: nat): nat {
    (if HasFlag(flags, PROTO_VARARG) then FUNCV else FUNCF) + 256 * framesize
  }

  predicate HasChild(kgc: seq<Const>) {
    exists i :: 0 <= i < |kgc| && kgc[i].CChild?
  }

  ghost predicate ProtoOk(pt: Proto)
    decreases pt
  {
    && pt.numparams < 256 && pt.framesize < 256 && |pt.uv| < 256 && |pt.kgc| < TWO31 && |pt.kn| < TWO31
    && 0 < |pt.bc| <= TWO31 && (forall i :: 0 <= i < |pt.bc| ==> pt.bc[i] < TWO32)
    && (forall i :: 0 <= i < |pt.uv| ==> pt.uv[i] < 0x1_0000)
    && (forall i :: 0 <= i < |pt.kn| ==> IsNum64(pt.kn[i]))
    && (pt.dbg.Some? ==>
          var d := pt.dbg.value; 0 < |d.info| < TWO31 && d.firstline < TWO32 && d.numline < TWO32)
    && (HasChild(pt.kgc) ==> pt.flags % 2 == 1)
    && (forall i :: 0 <= i < |pt.kgc| ==> ConstOk(pt.kgc[i]))
  }

  ghost predicate ConstOk(c: Const)
    decreases c
  {
    match c
    case CStr(s) => IsByteString(s) && |s| < TWO31 - 5
    case CTab(t) => TabOk(t)
    case CChild(pt) => ProtoOk(pt)
  }

  /** What the reader can know of a prototype. */
  function Norm(pt: Proto, strip: bool): Proto
    decreases pt
  {
    Proto(pt.flags % 8, pt.numparams, pt.framesize, pt.uv, NormAll(pt.kgc, strip), pt.kn,
          [HeaderIns(pt.flags % 8, pt.framesize)] + (if pt.bc == [] then [] else pt.bc[1..]),
          if strip then None else pt.dbg)
  }

  function NormConst(c: Const, strip: bool): Const
    decreases c
  {
    match c
    case CStr(s) => c
    case CTab(t) => CTab(NormTab(t))
    case CChild(pt) => CChild(Norm(pt, strip))
  }

  function NormAll(kgc: seq<Const>, strip: bool): (r: seq<Const>)
    ensures |r| == |kgc|
    decreases kgc
  {
    if kgc == [] then [] else [NormConst(kgc[0], strip)] + NormAll(kgc[1..], strip)
  }

  // -- Constants --------------------------------------------------------------------------------------

  ghost function EncConst(c: Const): seq<Byte>
    requires ConstOk(c)
  {
    match c
    case CStr(s) => LE(5 + |s|, 4) + Bytes(s)
    case CTab(t) => LE(1, 4) + EncTab(t)
    case CChild(_) => LE(0, 4)
  }

  /** bcwrite_kgc. */
  ghost function EncConsts(kgc: seq<Const>): seq<Byte>
    requires forall i :: 0 <= i < |kgc| ==> ConstOk(kgc[i])
  {
    if kgc == [] then [] else EncConst(kgc[0]) + EncConsts(kgc[1..])
  }

  /** One constant; a child is the prototype on top of the stack. */
  function DecConst(b: seq<Byte>, st: seq<Proto>): Option<(Const, seq<Byte>, seq<Proto>)> {
    var (tp, r) :- Word(b, 4);
    if 5 <= tp < TWO31 then
      var (m, r2) :- Mem(r, tp - 5);
      var s :- NewStr(m);
      Some((CStr(s), r2, st))
    else if tp == 1 then
      var (t, r2) :- DecTab(r);
      Some((CTab(t), r2, st))
    else if tp == 0 && st != [] then Some((CChild(st[|st| - 1]), r, st[..|st| - 1]))
    else None
  }

  /** bcread_kgc. */
  function DecConsts(b: seq<Byte>, n: nat, st: seq<Proto>): Option<(seq<Const>, seq<Byte>, seq<Proto>)>
    decreases n
  {
    if n == 0 then Some(([], b, st))
    else
      var (c, r, st1) :- DecConst(b, st);
      var (cs, r2, st2) :- DecConsts(r, n - 1, st1);
      Some(([c] + cs, r2, st2))
  }

  /** The children in the order they are written: last address first. */
  function Kids(kgc: seq<Const>, strip: bool): seq<Proto> {
    if kgc == [] then []
    else Kids(kgc[1..], strip) + if kgc[0].CChild? then [Norm(kgc[0].pt, strip)] else []
  }

  ghost predicate ConstShort(c: Const) {
    match c
    case CStr(s) => |s| < MAX_STR
    case CTab(t) => TabShort(t)
    case CChild(_) => true
  }

  ghost predicate AllShort(kgc: seq<Const>) {
    forall i :: 0 <= i < |kgc| ==> ConstShort(kgc[i])
  }

  lemma ConstRound(c: Const, r: seq<Byte>, st: seq<Proto>, strip: bool)
    requires ConstOk(c)
    ensures DecConst(EncConst(c) + r, st + if c.CChild? then [Norm(c.pt, strip)] else []) ==
            if ConstShort(c) then Some((NormConst(c, strip), r, st)) else None
  {
    hide LE, Word, Mem, Bytes, NewStr, EncTab, DecTab, Norm, TabShort, NormTab, ProtoOk, TabOk;
    match c
    case CStr(s) =>
      assert EncConst(c) + r == LE(5 + |s|, 4) + (Bytes(s) + r);
      U32Is(5 + |s|, Bytes(s) + r);
      StrRound(s, r);
      assert st + [] == st;
    case CTab(t) =>
      assert EncConst(c) + r == LE(1, 4) + (EncTab(t) + r);
      U32Is(1, EncTab(t) + r);
      TabRound(t, r);
      assert st + [] == st;
    case CChild(pt) =>
      U32Is(0, r);
      assert (st + [Norm(pt, strip)])[..|st|] == st;
  }

  lemma {:induction false} ConstsRound(kgc: seq<Const>, r: seq<Byte>, st: seq<Proto>, strip: bool)
    requires forall i :: 0 <= i < |kgc| ==> ConstOk(kgc[i])
    ensures DecConsts(EncConsts(kgc) + r, |kgc|, st + Kids(kgc, strip)) ==
            if AllShort(kgc) then Some((NormAll(kgc, strip), r, st)) else None
  {
    hide EncConst, DecConst, ConstShort, NormConst, ConstOk, Norm;
    if kgc == [] {
      assert EncConsts(kgc) + r == r && st + Kids(kgc, strip) == st;
    } else {
      var c, rest := kgc[0], kgc[1..];
      var kid := if c.CChild? then [Norm(c.pt, strip)] else [];
      assert EncConsts(kgc) + r == EncConst(c) + (EncConsts(rest) + r);
      assert st + Kids(kgc, strip) == (st + Kids(rest, strip)) + kid;
      ConstRound(c, EncConsts(rest) + r, st + Kids(rest, strip), strip);
      ConstsRound(rest, r, st, strip);
      AllShortSplit(kgc);
    }
  }

  lemma AllShortSplit(kgc: seq<Const>)
    requires kgc != []
    ensures AllShort(kgc) <==> ConstShort(kgc[0]) && AllShort(kgc[1..])
  {
    hide ConstShort;
    if ConstShort(kgc[0]) && AllShort(kgc[1..]) {
      forall i | 0 <= i < |kgc|
        ensures ConstShort(kgc[i])
      {
        if i > 0 { assert kgc[i] == kgc[1..][i - 1]; }
      }
    }
  }

  // -- Records -------------------------------------------------------------------------------------------

  datatype Head = Head(flags: nat, numparams: nat, framesize: nat, sizeuv: nat, sizekgc: nat, sizekn: nat,
                       sizebc: nat, sizedbg: nat, firstline: nat, numline: nat)

  function HeadOf(pt: Proto, strip: bool): Head {
    var d := if strip || pt.dbg.None? then Dbg(0, 0, []) else pt.dbg.value;
    Head(pt.flags % 8, pt.numparams, pt.framesize, |pt.uv|, |pt.kgc|, |pt.kn|, |pt.bc|,
         |d.info|, d.firstline, d.numline)
  }

  predicate HeadOk(h: Head, strip: bool) {
    && h.flags < 256 && h.numparams < 256 && h.framesize < 256 && h.sizeuv < 256
    && h.sizekgc < TWO32 && h.sizekn < TWO32 && 0 < h.sizebc <= TWO32 && h.sizedbg < TWO32
    && h.firstline < TWO32 && h.numline < TWO32
    && (strip ==> h.sizedbg == 0) && (h.sizedbg == 0 ==> h.firstline == 0 && h.numline == 0)
  }

  function EncHead(h: Head, strip: bool): seq<Byte>
    requires HeadOk(h, strip)
  {
    [h.flags, h.numparams, h.framesize, h.sizeuv] + (LE(h.sizekgc, 4) + (LE(h.sizekn, 4) + (LE(h.sizebc - 1, 4) +
    EncDbgSize(h, strip))))
  }

  function EncDbgSize(h: Head, strip: bool): seq<Byte> {
    if strip then []
    else LE(h.sizedbg, 4) + if h.sizedbg == 0 then [] else LE(h.firstline, 4) + LE(h.numline, 4)
  }

  function DecDbgSize(b: seq<Byte>, strip: bool): Option<(nat, nat, nat, seq<Byte>)> {
    if strip then Some((0, 0, 0, b))
    else
      var (sizedbg, r1) :- Word(b, 4);
      if sizedbg == 0 then Some((0, 0, 0, r1))
      else
        var (firstline, r2) :- Word(r1, 4);
        var (numline, r3) :- Word(r2, 4);
        Some((sizedbg, firstline, numline, r3))
  }

  function DecHead(b: seq<Byte>, strip: bool): Option<(Head, seq<Byte>)> {
    if |b| < 4 then None
    else
      var (sizekgc, r1) :- Word(b[4..], 4);
      var (sizekn, r2) :- Word(r1, 4);
      var (nbc, r3) :- Word(r2, 4);
      var (sizedbg, firstline, numline, r4) :- DecDbgSize(r3, strip);
      Some((Head(b[0], b[1], b[2], b[3], sizekgc, sizekn, nbc + 1, sizedbg, firstline, numline), r4))
  }

  lemma DbgSizeRound(h: Head, strip: bool, r: seq<Byte>)
    requires HeadOk(h, strip)
    ensures DecDbgSize(EncDbgSize(h, strip) + r, strip) == Some((h.sizedbg, h.firstline, h.numline, r))
  {
    hide LE, Word;
    if strip {
      assert [] + r == r;
    } else if h.sizedbg == 0 {
      assert EncDbgSize(h, strip) + r == LE(0, 4) + r;
      U32Is(0, r);
    } else {
      assert EncDbgSize(h, strip) + r == LE(h.sizedbg, 4) + (LE(h.firstline, 4) + (LE(h.numline, 4) + r));
      U32Is(h.sizedbg, LE(h.firstline, 4) + (LE(h.numline, 4) + r));
      U32Is(h.firstline, LE(h.numline, 4) + r);
      U32Is(h.numline, r);
    }
  }

  lemma HeadRound(h: Head, strip: bool, r: seq<Byte>)
    requires HeadOk(h, strip)
    ensures DecHead(EncHead(h, strip) + r, strip) == Some((h, r))
  {
    hide LE, Word, DecDbgSize, EncDbgSize;
    var d := EncDbgSize(h, strip) + r;
    var b := EncHead(h, strip) + r;
    assert b[4..] == LE(h.sizekgc, 4) + (LE(h.sizekn, 4) + (LE(h.sizebc - 1, 4) + d));
    U32Is(h.sizekgc, LE(h.sizekn, 4) + (LE(h.sizebc - 1, 4) + d));
    U32Is(h.sizekn, LE(h.sizebc - 1, 4) + d);
    U32Is(h.sizebc - 1, d);
    DbgSizeRound(h, strip, r);
  }

  function BitsAll(kn: seq<int>): (r: seq<nat>)
    ensures |r| == |kn| && forall i :: 0 <= i < |kn| ==> r[i] == Bits64(kn[i])
  {
    seq(|kn|, i requires 0 <= i < |kn| => Bits64(kn[i]))
  }

  function NumsAll(xs: seq<nat>): (r: seq<int>)
    ensures |r| == |xs| && forall i :: 0 <= i < |xs| ==> r[i] == Num64(xs[i])
  {
    seq(|xs|, i requires 0 <= i < |xs| => Num64(xs[i]))
  }

  function DbgInfo(pt: Proto, strip: bool): seq<Byte> {
    if strip || pt.dbg.None? then [] else pt.dbg.value.info
  }

  /** Everything behind the head of a prototype. */
  ghost function EncBody(pt: Proto, strip: bool): seq<Byte>
    requires ProtoOk(pt)
  {
    LEs(pt.bc[1..], 4) + (LEs(pt.uv, 2) + (EncConsts(pt.kgc) + (LEs(BitsAll(pt.kn), 8) + DbgInfo(pt, strip))))
  }

  function DecBody(b: seq<Byte>, h: Head, st: seq<Proto>): Option<(Proto, seq<Byte>, seq<Proto>)>
    requires h.sizebc > 0
  {
    var (bc, r1) :- Words(b, h.sizebc - 1, 4);
    var (uv, r2) :- Words(r1, h.sizeuv, 2);
    var (kgc, r3, st1) :- DecConsts(r2, h.sizekgc, st);
    var (xs, r4) :- Words(r3, h.sizekn, 8);
    var (info, r5) :- Mem(r4, h.sizedbg);
    Some((Proto(h.flags, h.numparams, h.framesize, uv, kgc, NumsAll(xs), [HeaderIns(h.flags, h.framesize)] + bc,
                if h.sizedbg == 0 then None else Some(Dbg(h.firstline, h.numline, info))), r5, st1))
  }

  /** bcread_proto. */
  function DecProto(b: seq<Byte>, st: seq<Proto>, strip: bool): Option<(Proto, seq<Byte>, seq<Proto>)> {
    var (h, r) :- DecHead(b, strip);
    DecBody(r, h, st)
  }

  lemma HeadOfOk(pt: Proto, strip: bool)
    requires ProtoOk(pt)
    ensures HeadOk(HeadOf(pt, strip), strip)
  {
    hide ConstOk;
  }

  lemma NumbersRound(kn: seq<int>, r: seq<Byte>)
    requires forall i :: 0 <= i < |kn| ==> IsNum64(kn[i])
    ensures Words(LEs(BitsAll(kn), 8) + r, |kn|, 8) == Some((BitsAll(kn), r)) && NumsAll(BitsAll(kn)) == kn
  {
    hide LEs, Words;
    Pow256Is();
    WordsAre(BitsAll(kn), 8, r);
  }

  lemma BodyRound(pt: Proto, strip: bool, r: seq<Byte>, st: seq<Proto>)
    requires ProtoOk(pt)
    ensures DecBody(EncBody(pt, strip) + r, HeadOf(pt, strip), st + Kids(pt.kgc, strip)) ==
            if AllShort(pt.kgc) then Some((Norm(pt, strip), r, st)) else None
  {
    hide LEs, Words, EncConsts, DecConsts, Mem, BitsAll, NumsAll, ConstOk, AllShort, Kids, NormAll, HeaderIns;
    var h := HeadOf(pt, strip);
    var r4 := DbgInfo(pt, strip) + r;
    var r3 := LEs(BitsAll(pt.kn), 8) + r4;
    var r2 := EncConsts(pt.kgc) + r3;
    var r1 := LEs(pt.uv, 2) + r2;
    assert EncBody(pt, strip) + r == LEs(pt.bc[1..], 4) + r1;
    Pow256Is();
    assert forall i :: 0 <= i < |pt.bc[1..]| ==> pt.bc[1..][i] == pt.bc[i + 1];
    WordsAre(pt.bc[1..], 4, r1);
    WordsAre(pt.uv, 2, r2);
    ConstsRound(pt.kgc, r3, st, strip);
    NumbersRound(pt.kn, r4);
    MemIs(DbgInfo(pt, strip), r);
  }

  ghost function Payload(pt: Proto, strip: bool): seq<Byte>
    requires ProtoOk(pt)
  {
    HeadOfOk(pt, strip);
    EncHead(HeadOf(pt, strip), strip) + EncBody(pt, strip)
  }

  lemma PayloadRound(pt: Proto, strip: bool, r: seq<Byte>, st: seq<Proto>)
    requires ProtoOk(pt)
    ensures DecProto(Payload(pt, strip) + r, st + Kids(pt.kgc, strip), strip) ==
            if AllShort(pt.kgc) then Some((Norm(pt, strip), r, st)) else None
  {
    hide EncHead, DecHead, EncBody, DecBody, ProtoOk, AllShort, Kids, Norm;
    HeadOfOk(pt, strip);
    var h := HeadOf(pt, strip);
    assert Payload(pt, strip) + r == EncHead(h, strip) + (EncBody(pt, strip) + r);
    HeadRound(h, strip, EncBody(pt, strip) + r);
    BodyRound(pt, strip, r, st);
  }

  // -- The tree ------------------------------------------------------------------------------------------

  ghost function EncRecord(pt: Proto, strip: bool): seq<Byte>
    requires ProtoOk(pt)
  {
    LE(|Payload(pt, strip)|, 4) + Payload(pt, strip)
  }

  /** bcwrite_proto: the children, then the prototype. */
  ghost function EncTree(pt: Proto, strip: bool): seq<Byte>
    requires ProtoOk(pt)
    decreases pt
  {
    (if HasFlag(pt.flags, PROTO_CHILD) then EncKids(pt.kgc, strip) else []) + EncRecord(pt, strip)
  }

  ghost function EncKids(kgc: seq<Const>, strip: bool): seq<Byte>
    requires forall i :: 0 <= i < |kgc| ==> ConstOk(kgc[i])
    decreases kgc
  {
    if kgc == [] then [] else EncKids(kgc[1..], strip) + EncKid(kgc[0], strip)
  }

  ghost function EncKid(c: Const, strip: bool): seq<Byte>
    requires ConstOk(c)
    decreases c
  {
    if c.CChild? then EncTree(c.pt, strip) else []
  }

  /** No record length is a multiple of 256, and no string is too long. */
  ghost predicate Readable(pt: Proto, strip: bool)
    requires ProtoOk(pt)
    decreases pt
  {
    KidsReadable(pt.kgc, strip) && |Payload(pt, strip)| % 256 != 0 && AllShort(pt.kgc)
  }

  ghost predicate KidsReadable(kgc: seq<Const>, strip: bool)
    requires forall i :: 0 <= i < |kgc| ==> ConstOk(kgc[i])
    decreases kgc
  {
    kgc != [] ==> KidsReadable(kgc[1..], strip) && KidReadable(kgc[0], strip)
  }

  ghost predicate KidReadable(c: Const, strip: bool)
    requires ConstOk(c)
    decreases c
  {
    c.CChild? ==> Readable(c.pt, strip)
  }

  /** The loop of kp_bcread: a zero byte in front of a record ends it. */
  function ReadLoop(b: seq<Byte>, st: seq<Proto>, strip: bool): Option<(seq<Byte>, seq<Proto>)>
    decreases |b|
  {
    if b != [] && b[0] == 0 then Some((b[1..], st))
    else
      var (len, r) :- Word(b, 4);
      if len == 0 then Some((r, st))
      else
        var (pt, r2, st2) :- DecProto(r, st, strip);
        if |r| != |r2| + len then None else ReadLoop(r2, st2 + [pt], strip)
  }

  /** The loop did not get to the end of the dump. */
  predicate Stuck(o: Option<(seq<Byte>, seq<Proto>)>) {
    o.Some? ==> o.value.0 != []
  }

  lemma RecordRead(pt: Proto, strip: bool, r: seq<Byte>, st: seq<Proto>)
    requires ProtoOk(pt) && |Payload(pt, strip)| < TWO32
    ensures var o := ReadLoop(EncRecord(pt, strip) + r, st + Kids(pt.kgc, strip), strip);
            if |Payload(pt, strip)| % 256 != 0 && AllShort(pt.kgc) then o == ReadLoop(r, st + [Norm(pt, strip)], strip)
            else Stuck(o)
  {
    hide Payload, DecProto, ProtoOk, AllShort, Kids, Norm, Word;
    var p := Payload(pt, strip);
    var b := EncRecord(pt, strip) + r;
    assert b == LE(|p|, 4) + (p + r);
    assert b[0] == |p| % 256;
    if |p| % 256 != 0 {
      U32Is(|p|, p + r);
      PayloadRound(pt, strip, r, st);
    }
  }

  /** Reading a written tree pushes it on the stack, unless the reader gets stuck. */
  lemma {:induction false} TreeRead(pt: Proto, strip: bool, r: seq<Byte>, st: seq<Proto>)
    requires ProtoOk(pt) && |EncTree(pt, strip)| < TWO32
    ensures var o := ReadLoop(EncTree(pt, strip) + r, st, strip);
            if Readable(pt, strip) then o == ReadLoop(r, st + [Norm(pt, strip)], strip) else Stuck(o)
    decreases pt
  {
    hide ReadLoop, Norm, Kids, ConstOk, AllShort, Payload, EncKids, KidsReadable;
    var kids := if HasFlag(pt.flags, PROTO_CHILD) then EncKids(pt.kgc, strip) else [];
    if !HasFlag(pt.flags, PROTO_CHILD) { NoKids(pt.kgc, strip); }
    var rec := EncRecord(pt, strip);
    assert EncTree(pt, strip) + r == EncKids(pt.kgc, strip) + (rec + r);
    KidsRead(pt.kgc, strip, rec + r, st);
    RecordRead(pt, strip, r, st);
  }

  lemma {:induction false} NoKids(kgc: seq<Const>, strip: bool)
    requires (forall i :: 0 <= i < |kgc| ==> ConstOk(kgc[i])) && !HasChild(kgc)
    ensures EncKids(kgc, strip) == []
  {
    hide ConstOk;
    if kgc != [] {
      assert !kgc[0].CChild?;
      NoKids(kgc[1..], strip);
    }
  }

  lemma {:induction false} KidsRead(kgc: seq<Const>, strip: bool, r: seq<Byte>, st: seq<Proto>)
    requires (forall i :: 0 <= i < |kgc| ==> ConstOk(kgc[i])) && |EncKids(kgc, strip)| < TWO32
    ensures var o := ReadLoop(EncKids(kgc, strip) + r, st, strip);
            if KidsReadable(kgc, strip) then o == ReadLoop(r, st + Kids(kgc, strip), strip) else Stuck(o)
    decreases kgc
  {
    hide ReadLoop, Norm, ConstOk, EncKid, KidReadable;
    if kgc == [] {
      assert EncKids(kgc, strip) + r == r && st + Kids(kgc, strip) == st;
    } else {
      var c, rest := kgc[0], kgc[1..];
      assert EncKids(kgc, strip) + r == EncKids(rest, strip) + (EncKid(c, strip) + r);
      KidsRead(rest, strip, EncKid(c, strip) + r, st);
      KidRead(c, strip, r, st + Kids(rest, strip));
      assert st + Kids(kgc, strip) ==
             st + Kids(rest, strip) + if c.CChild? then [Norm(c.pt, strip)] else [];
    }
  }

  lemma {:induction false} KidRead(c: Const, strip: bool, r: seq<Byte>, st: seq<Proto>)
    requires ConstOk(c) && |EncKid(c, strip)| < TWO32
    ensures var o := ReadLoop(EncKid(c, strip) + r, st, strip);
            if KidReadable(c, strip) then o == ReadLoop(r, st + if c.CChild? then [Norm(c.pt, strip)] else [], strip)
            else Stuck(o)
    decreases c
  {
    hide ReadLoop, Norm, ProtoOk, EncTree, Readable;
    match c
    case CChild(pt) => TreeRead(pt, strip, r, st);
    case CStr(_) => assert EncKid(c, strip) + r == r && st + [] == st;
    case CTab(_) => assert EncKid(c, strip) + r == r && st + [] == st;
  }

  // -- Whole dumps --------------------------------------------------------------------------------------------

  const F_BE: nat := 1
  const F_STRIP: nat := 2
  const F_FFI: nat := 4

  /** bcwrite_header, on a little-endian host. */
  function EncHeader(name: string, strip: bool): seq<Byte>
    requires IsByteString(name)
  {
    [0x15, 0x22, 0x06, 1, if strip then F_STRIP else 0] + if strip then [] else LE(|name|, 4) + Bytes(name)
  }

  /** bcread_header, on a little-endian host: chunk name, strip flag, rest. */
  function DecHeader(b: seq<Byte>): Option<(string, bool, seq<Byte>)> {
    if |b| < 5 || b[..4] != [0x15, 0x22, 0x06, 1] || b[4] >= 8 || b[4] >= F_FFI || b[4] % 2 == F_BE then None
    else if b[4] == F_STRIP then Some(("striped", true, b[5..]))
    else
      var (len, r) :- Word(b[5..], 4);
      var (m, r2) :- Mem(r, len);
      var name :- NewStr(m);
      Some((name, false, r2))
  }

  lemma HeaderRound(name: string, strip: bool, r: seq<Byte>)
    requires IsByteString(name) && (strip || |name| < TWO32)
    ensures DecHeader(EncHeader(name, strip) + r) ==
            if strip then Some(("striped", true, r)) else if |name| < MAX_STR then Some((name, false, r)) else None
  {
    hide LE, Word, Mem, Bytes, NewStr;
    var b := EncHeader(name, strip) + r;
    if strip {
      assert b[5..] == r;
    } else {
      assert b[5..] == LE(|name|, 4) + (Bytes(name) + r);
      U32Is(|name|, Bytes(name) + r);
      StrRound(name, r);
    }
  }

  /** kp_bcwrite. */
  ghost function Write(name: string, pt: Proto, strip: bool): seq<Byte>
    requires IsByteString(name) && ProtoOk(pt)
  {
    EncHeader(name, strip) + EncTree(pt, strip) + [0]
  }

  /** The check for left-over bytes, in 32-bit arithmetic. */
  predicate LeftOver(n: nat) {
    0 < 2 * n % TWO32 < TWO31
  }

  /** kp_bcread. */
  function Read(b: seq<Byte>): Option<(string, Proto)> {
    var (name, strip, r) :- DecHeader(b);
    var (left, st) :- ReadLoop(r, [], strip);
    if LeftOver(|left|) || |st| != 1 then None else Some((name, st[0]))
  }

  lemma {:induction false} LoopShrinks(b: seq<Byte>, st: seq<Proto>, strip: bool)
    ensures var o := ReadLoop(b, st, strip); o.Some? ==> |o.value.0| <= |b|
    decreases |b|
  {
    hide DecProto, Word;
    if b != [] && b[0] == 0 {
    } else if Word(b, 4).Some? {
      WordShrinks(b, 4);
      var (len, r) := Word(b, 4).value;
      if len != 0 && DecProto(r, st, strip).Some? {
        var (pt, r2, st2) := DecProto(r, st, strip).value;
        if |r| == |r2| + len { LoopShrinks(r2, st2 + [pt], strip); }
      }
    }
  }

  lemma WordShrinks(b: seq<Byte>, n: nat)
    ensures Word(b, n).Some? ==> |Word(b, n).value.1| == |b| - n
  {
  }

  /** The round trip, and exactly when it fails: a record whose length is a
      multiple of 256 is taken for the end, and long strings are refused. */
  lemma RoundTrip(name: string, pt: Proto, strip: bool)
    requires IsByteString(name) && ProtoOk(pt) && |Write(name, pt, strip)| < 0x4000_0000
    ensures Read(Write(name, pt, strip)) ==
            if Readable(pt, strip) && (strip || |name| < MAX_STR)
            then Some((if strip then "striped" else name, Norm(pt, strip)))
            else None
  {
    hide EncHeader, DecHeader, ReadLoop, EncTree, ProtoOk, Readable, Norm;
    var tree := EncTree(pt, strip) + [0];
    assert Write(name, pt, strip) == EncHeader(name, strip) + tree;
    HeaderSize(name, strip);
    HeaderRound(name, strip, tree);
    TreeRead(pt, strip, [0], []);
    EndRead([Norm(pt, strip)], strip);
    LoopShrinks(tree, [], strip);
    assert [] + [Norm(pt, strip)] == [Norm(pt, strip)];
  }

  lemma HeaderSize(name: string, strip: bool)
    requires IsByteString(name)
    ensures |EncHeader(name, strip)| >= if strip then 0 else |name|
  {
  }

  lemma EndRead(st: seq<Proto>, strip: bool)
    ensures ReadLoop([0], st, strip) == Some(([], st))
  {
    var b: seq<Byte> := [0];
    assert b[1..] == [];
  }

  /** 60 instructions after the header make a record of 256 bytes: it is not read back. */
  lemma LengthTakenForEnd()
    ensures var pt := Proto(0, 0, 2, [], [], [], seq(61, _ => 0), None);
            ProtoOk(pt) && |Payload(pt, true)| == 256 && Read(Write("", pt, true)) == None
  {
    hide ReadLoop, LE, LEs, DecHeader;
    var pt := Proto(0, 0, 2, [], [], [], seq(61, _ => 0), None);
    assert |LEs(pt.bc[1..], 4)| == 240;
    assert |LEs(BitsAll(pt.kn), 8)| == 0 && |LEs(pt.uv, 2)| == 0 && |EncConsts(pt.kgc)| == 0;
    assert |EncBody(pt, true)| == 240;
    HeadOfOk(pt, true);
    assert |EncHead(HeadOf(pt, true), true)| == 16;
    assert |EncTree(pt, true)| == 260;
    RoundTrip("", pt, true);
  }
}
