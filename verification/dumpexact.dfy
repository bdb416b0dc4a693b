/** What comes back from a dump, field by field, and exactly when it is the prototype
    that was written. */
module DumpExact {
  import opened Values
  import opened Dump
  import opened ExprTheorem
  import opened Emitter
  import WordVm

  // -- What the reader makes of a prototype ----------------------------------------------------

  /** The first word of a function: its opcode is 97 with the vararg flag and 94
      without it, and the frame size is in its A field. */
  function HeaderWord(flags: nat, framesize: nat): nat {
    (if flags / 2 % 2 == 1 then 97 else 94) + 0x100 * framesize
  }

  /** t' has the array of t without trailing nils and the nodes of t that have a value. */
  ghost predicate TabRestored(t: TabImage, t': TabImage) {
    && t'.arr <= t.arr && (t'.arr != [] ==> t'.arr[|t'.arr| - 1] != Nil)
    && (forall i :: |t'.arr| <= i < |t.arr| ==> t.arr[i] == Nil)
    && forall p: (Val, Val) :: multiset(t'.nodes)[p] == if p.1 == Nil then 0 else multiset(t.nodes)[p]
  }

  /** pt' is pt as far as the dump has it: all fields, the code behind the header word,
      the constants one by one, and the debug information unless it is stripped. */
  ghost predicate Restored(pt: Proto, pt': Proto, strip: bool)
    decreases pt
  {
    && pt'.flags == pt.flags % 8 && pt'.numparams == pt.numparams && pt'.framesize == pt.framesize
    && pt'.uv == pt.uv && pt'.kn == pt.kn && pt'.dbg == (if strip then None else pt.dbg)
    && |pt'.bc| == |pt.bc| && pt'.bc != [] && pt'.bc[0] == HeaderWord(pt.flags, pt.framesize)
    && (forall i :: 1 <= i < |pt.bc| ==> pt'.bc[i] == pt.bc[i])
    && |pt'.kgc| == |pt.kgc| && forall i :: 0 <= i < |pt.kgc| ==> ConstRestored(pt.kgc[i], pt'.kgc[i], strip)
  }

  ghost predicate ConstRestored(c: Const, c': Const, strip: bool)
    decreases c
  {
    match c
    case CStr(_) => c' == c
    case CTab(t) => c'.CTab? && TabRestored(t, c'.t)
    case CChild(pt) => c'.CChild? && Restored(pt, c'.pt, strip)
  }

  lemma {:induction false} LiveCount(ns: seq<(Val, Val)>, p: (Val, Val))
    ensures multiset(LiveNodes(ns))[p] == if p.1 == Nil then 0 else multiset(ns)[p]
  {
    if ns != [] {
      LiveCount(ns[1..], p);
      assert ns == [ns[0]] + ns[1..];
    }
  }

  lemma TabIsRestored(t: TabImage)
    ensures TabRestored(t, NormTab(t))
  {
    forall p: (Val, Val)
      ensures multiset(NormTab(t).nodes)[p] == if p.1 == Nil then 0 else multiset(t.nodes)[p]
    {
      LiveCount(t.nodes, p);
    }
  }

  lemma {:induction false} NormRestored(pt: Proto, strip: bool)
    requires ProtoOk(pt)
    ensures Restored(pt, Norm(pt, strip), strip)
    decreases pt, 0
  {
    hide ConstRestored, NormConst, NormAll, HeaderIns, ConstOk;
    HeaderIs(pt.flags, pt.framesize);
    forall i | 0 <= i < |pt.kgc|
      ensures ConstRestored(pt.kgc[i], Norm(pt, strip).kgc[i], strip)
    {
      NormAllAt(pt.kgc, strip, i);
      ConstIsRestored(pt.kgc[i], strip);
    }
  }

  lemma {:induction false} ConstIsRestored(c: Const, strip: bool)
    requires ConstOk(c)
    ensures ConstRestored(c, NormConst(c, strip), strip)
    decreases c, 1
  {
    hide TabRestored, NormTab, Restored, Norm, ProtoOk;
    match c
    case CStr(_) =>
    case CTab(t) => TabIsRestored(t);
    case CChild(kid) => NormRestored(kid, strip);
  }

  lemma HeaderIs(flags: nat, framesize: nat)
    ensures HeaderIns(flags % 8, framesize) == HeaderWord(flags, framesize)
  {
    var (k, r) := (flags / 8, flags % 8);
    assert flags == 8 * k + r;
    HalfOf(k, r);
  }

  lemma HalfOf(k: nat, r: nat)
    ensures (8 * k + r) / 2 % 2 == r / 2 % 2
  {
    var (h, b) := (r / 2, r % 2);
    var (g, c) := (h / 2, h % 2);
    assert 8 * k + r == 2 * (4 * k + h) + b && 4 * k + h == 2 * (2 * k + g) + c;
    LowBit(4 * k + h, b);
    LowBit(2 * k + g, c);
  }

  lemma LowBit(m: nat, b: nat)
    requires b < 2
    ensures (2 * m + b) / 2 == m && (2 * m + b) % 2 == b
  {
  }

  lemma {:induction false} NormAllAt(kgc: seq<Const>, strip: bool, i: nat)
    requires i < |kgc|
    ensures NormAll(kgc, strip)[i] == NormConst(kgc[i], strip)
  {
    if i > 0 { NormAllAt(kgc[1..], strip, i - 1); }
  }

  /** Reading what was written: the prototype is restored, or the file is refused. */
  lemma ReadRestores(name: string, pt: Proto, strip: bool)
    requires IsByteString(name) && ProtoOk(pt) && |Write(name, pt, strip)| < 0x4000_0000
    ensures var r := Read(Write(name, pt, strip));
            && (r.Some? <==> Readable(pt, strip) && (strip || |name| < 512))
            && (r.Some? ==> r.value.0 == (if strip then "striped" else name) && Restored(pt, r.value.1, strip))
  {
    hide Read, Write, Restored, Norm, Readable;
    RoundTrip(name, pt, strip);
    NormRestored(pt, strip);
  }

  // -- Exactly what was written ------------------------------------------------------------------

  /** No trailing nils, no nodes without a value, and the nodes the same from both ends,
      for they come back in reverse. */
  predicate TabTidy(t: TabImage) {
    && (t.arr != [] ==> t.arr[|t.arr| - 1] != Nil)
    && forall i :: 0 <= i < |t.nodes| ==> t.nodes[i].1 != Nil && t.nodes[i] == t.nodes[|t.nodes| - 1 - i]
  }

  /** No flags but the three the dump has, the header word that goes with them, and
      tidy tables, down to the last child. */
  ghost predicate Tidy(pt: Proto)
    decreases pt
  {
    && pt.flags < 8 && pt.bc != [] && pt.bc[0] == HeaderWord(pt.flags, pt.framesize)
    && forall i :: 0 <= i < |pt.kgc| ==> ConstTidy(pt.kgc[i])
  }

  ghost predicate ConstTidy(c: Const)
    decreases c
  {
    match c
    case CStr(_) => true
    case CTab(t) => TabTidy(t)
    case CChild(pt) => Tidy(pt)
  }

  lemma {:induction false} LiveReversed(ns: seq<(Val, Val)>)
    ensures |LiveNodes(ns)| == |ns| <==> forall i :: 0 <= i < |ns| ==> ns[i].1 != Nil
    ensures |LiveNodes(ns)| == |ns| ==> forall i :: 0 <= i < |ns| ==> LiveNodes(ns)[i] == ns[|ns| - 1 - i]
  {
    if ns != [] {
      LiveReversed(ns[1..]);
      assert forall i :: 0 <= i < |ns| - 1 ==> ns[1..][i] == ns[i + 1];
    }
  }

  lemma TabExact(t: TabImage)
    ensures NormTab(t) == t <==> TabTidy(t)
  {
    LiveReversed(t.nodes);
    if TabTidy(t) { assert LiveNodes(t.nodes) == t.nodes; }
  }

  lemma {:induction false} NormExact(pt: Proto)
    requires ProtoOk(pt)
    ensures Norm(pt, false) == pt <==> Tidy(pt)
    decreases pt
  {
    hide TabTidy, NormTab;
    forall i | 0 <= i < |pt.kgc|
      ensures NormConst(pt.kgc[i], false) == pt.kgc[i] <==> ConstTidy(pt.kgc[i])
    {
      match pt.kgc[i]
      case CStr(_) =>
      case CTab(t) => TabExact(t);
      case CChild(kid) =>
        assert ConstOk(pt.kgc[i]);
        NormExact(kid);
    }
    NormAllExact(pt.kgc);
    assert pt.bc == [pt.bc[0]] + pt.bc[1..];
    if Norm(pt, false) == pt { assert pt.bc[0] == Norm(pt, false).bc[0]; }
  }

  lemma NormAllExact(kgc: seq<Const>)
    ensures NormAll(kgc, false) == kgc <==> forall i :: 0 <= i < |kgc| ==> NormConst(kgc[i], false) == kgc[i]
  {
    hide NormConst, NormAll;
    forall i | 0 <= i < |kgc| ensures NormAll(kgc, false)[i] == NormConst(kgc[i], false) {
      NormAllAt(kgc, false, i);
    }
  }

  /** A dump that is accepted gives back the prototype itself, all of it, if and only if
      the prototype is tidy. */
  lemma ReadExact(name: string, pt: Proto)
    requires IsByteString(name) && ProtoOk(pt) && |Write(name, pt, false)| < 0x4000_0000
    ensures Read(Write(name, pt, false)) == Some((name, pt)) <==>
              Tidy(pt) && Readable(pt, false) && |name| < 512
  {
    hide Read, Write, Tidy, Norm, Readable;
    RoundTrip(name, pt, false);
    NormExact(pt);
  }

  // -- Compiled functions -----------------------------------------------------------------------------

  /** What fs_finish makes of a function is tidy: its header word is the one the reader
      puts in. Compiled, written, read back and run, a function computes its expression. */
  lemma CompiledSurvives(name: string, pt: Proto, flags: nat, n: nat, x: Expr)
    requires WordVm.Compiled(pt, flags, n, x) && flags < 8 && forall i :: 0 <= i < |pt.kgc| ==> pt.kgc[i].CStr?
    requires IsByteString(name) && |name| < 512 && ProtoOk(pt) && Readable(pt, false)
    requires |Write(name, pt, false)| < 0x4000_0000
    ensures var r := Read(Write(name, pt, false));
            r.Some? && r.value.0 == name && WordVm.Compiled(r.value.1, flags, n, x)
  {
    hide Read, Write, Readable, WordVm.RunsAs;
    ReadExact(name, pt);
  }

  /** Files of another kind or version, of the other byte order, or with flags that are
      not known, are refused. */
  lemma ForeignRefused(b: seq<Byte>)
    requires |b| < 5 || b[0] != 0x15 || b[1] != 0x22 || b[2] != 0x06 || b[3] != 1 || b[4] % 2 == 1 || b[4] >= 4
    ensures Read(b) == None
  {
    if |b| >= 5 { assert b[..4] == [b[0], b[1], b[2], b[3]]; }
  }

  // -- Bytes ----------------------------------------------------------------------------------------------

  /** Words lie in the file with their low byte first. */
  lemma WordBytes(x: nat)
    ensures LE(x, 2) == [x % 0x100, x / 0x100 % 0x100]
    ensures LE(x, 4) == [x % 0x100, x / 0x100 % 0x100, x / 0x1_0000 % 0x100, x / 0x100_0000 % 0x100]
  {
    assert x / 0x100 / 0x100 == x / 0x1_0000 && x / 0x1_0000 / 0x100 == x / 0x100_0000;
    assert LE(x / 0x1_0000, 2) == [x / 0x1_0000 % 0x100, x / 0x100_0000 % 0x100];
    assert LE(x / 0x100, 3) == [x / 0x100 % 0x100] + LE(x / 0x1_0000, 2);
  }

  /** So do numbers: the low word, then the high one. */
  lemma LongBytes(x: nat)
    ensures LE(x, 8) == LE(x, 4) + LE(x / 0x1_0000_0000, 4)
  {
    NextByte(x, 7);
    NextByte(x / 0x100, 6);
    NextByte(x / 0x1_0000, 5);
    NextByte(x / 0x100_0000, 4);
    assert x / 0x100 / 0x100 == x / 0x1_0000 && x / 0x1_0000 / 0x100 == x / 0x100_0000;
    assert x / 0x100_0000 / 0x100 == x / 0x1_0000_0000;
    WordBytes(x);
  }

  lemma NextByte(x: nat, n: nat)
    ensures LE(x, n + 1) == [x % 0x100] + LE(x / 0x100, n)
  {
  }

  /** Constants of a template table to the byte: nil, false and true are type codes. */
  lemma PrimitiveBytes()
    ensures EncVal(Nil) == [0, 0, 0, 0] && EncVal(False) == [1, 0, 0, 0] && EncVal(True) == [2, 0, 0, 0]
  {
    WordBytes(0);
    WordBytes(1);
    WordBytes(2);
  }

  /** A number has its eight bytes in two's complement behind its code. */
  lemma NumberBytes(n: int)
    requires ValOk(Num(n))
    ensures var m := if n < 0 then n + 0x1_0000_0000_0000_0000 else n;
            EncVal(Num(n)) == [4, 0, 0, 0] + (LE(m, 4) + LE(m / 0x1_0000_0000, 4))
  {
    hide LE, Bits64;
    var m := if n < 0 then n + 0x1_0000_0000_0000_0000 else n;
    BitsAre(n, m);
    LongBytes(m);
    WordBytes(4);
  }

  /** A string has its characters behind its code, which has the length in it. */
  lemma StringBytes(s: string)
    requires ValOk(Str(s))
    ensures var b := EncVal(Str(s));
            |b| == 4 + |s| && b[..4] == LE(5 + |s|, 4) && forall i :: 0 <= i < |s| ==> b[4 + i] == s[i] as int
  {
    hide LE;
  }

  lemma BitsAre(n: int, m: nat)
    requires IsNum64(n) && m == if n < 0 then n + 0x1_0000_0000_0000_0000 else n
    ensures Bits64(n) == m
  {
  }

  /** A dump to the byte: a stripped function of one instruction without constants. */
  lemma SmallDump(flags: nat, params: Byte, framesize: Byte, header: nat, w: nat)
    requires flags < 8 && flags % 2 == 0 && header < TWO32 && w < TWO32
    ensures var pt := Proto(flags, params, framesize, [], [], [], [header, w], None);
            && ProtoOk(pt)
            && Write("", pt, true) ==
               [0x15, 0x22, 0x06, 1, 2,
                20, 0, 0, 0,
                flags, params, framesize, 0,
                0, 0, 0, 0,
                0, 0, 0, 0,
                1, 0, 0, 0,
                w % 0x100, w / 0x100 % 0x100, w / 0x1_0000 % 0x100, w / 0x100_0000 % 0x100,
                0]
  {
    hide LE, EncBody, ProtoOk, HeadOf;
    var pt := Proto(flags, params, framesize, [], [], [], [header, w], None);
    SmallPayload(flags, params, framesize, header, w);
    WordBytes(20);
  }

  lemma SmallPayload(flags: nat, params: Byte, framesize: Byte, header: nat, w: nat)
    requires flags < 8 && flags % 2 == 0 && header < TWO32 && w < TWO32
    ensures var pt := Proto(flags, params, framesize, [], [], [], [header, w], None);
            && ProtoOk(pt)
            && Payload(pt, true) ==
               [flags, params, framesize, 0, 0, 0, 0, 0, 0, 0, 0, 0, 1, 0, 0, 0] +
               [w % 0x100, w / 0x100 % 0x100, w / 0x1_0000 % 0x100, w / 0x100_0000 % 0x100]
  {
    hide LE, EncBody, EncHead;
    var pt := Proto(flags, params, framesize, [], [], [], [header, w], None);
    HeadOfOk(pt, true);
    WordBytes(w);
    SmallHead(HeadOf(pt, true));
    SmallBody(pt, w);
  }

  lemma SmallHead(h: Head)
    requires HeadOk(h, true) && h.sizekgc == 0 && h.sizekn == 0 && h.sizebc == 2
    ensures EncHead(h, true) == [h.flags, h.numparams, h.framesize, h.sizeuv, 0, 0, 0, 0, 0, 0, 0, 0, 1, 0, 0, 0]
  {
    hide LE;
    WordBytes(0);
    WordBytes(1);
    assert LE(1, 4) + EncDbgSize(h, true) == [1, 0, 0, 0];
    assert LE(0, 4) + [1, 0, 0, 0] == [0, 0, 0, 0, 1, 0, 0, 0];
  }

  lemma SmallBody(pt: Proto, w: nat)
    requires ProtoOk(pt) && pt.uv == [] && pt.kgc == [] && pt.kn == [] && pt.bc[1..] == [w]
    ensures EncBody(pt, true) == LE(w, 4)
  {
    hide LE, ProtoOk;
    assert LEs([w], 4) == LE(w, 4) + LEs([], 4);
    assert LEs([w], 4) == LE(w, 4);
    assert LEs(pt.uv, 2) == [] && EncConsts(pt.kgc) == [] && LEs(BitsAll(pt.kn), 8) == [] && DbgInfo(pt, true) == [];
  }
}
