/** The buffer of the dump writer. It is asked for room before every write, but grows to
    twice what has been written, whatever was asked for; a record can be too long for it. */
module DumpBuffer {
  import opened Values
  import opened Dump

  /** Bytes written, and bytes there is room for. */
  datatype Buf = Buf(len: nat, size: nat)

  /** A request for room, and the bytes written then. */
  datatype Req = Req(need: nat, used: nat)

  /** kp_buf_need: at least that size. */
  function Need(size: nat, sz: nat): nat {
    if sz > size then sz else size
  }

  /** kp_buf_more. */
  function More(b: Buf, sz: nat): Buf {
    if b.len + sz > b.size then Buf(b.len, 2 * b.len) else b
  }

  /** The buffer after the writes; None when one of them goes beyond its end. */
  function Serve(b: Buf, rs: seq<Req>): Option<Buf>
    decreases |rs|
  {
    if rs == [] then Some(b)
    else
      var b1 := More(b, rs[0].need);
      if b1.len + rs[0].used > b1.size then None else Serve(Buf(b1.len + rs[0].used, b1.size), rs[1..])
  }

  function Total(rs: seq<Req>): nat {
    if rs == [] then 0 else rs[0].used + Total(rs[1..])
  }

  /** How much is written before request i, and how large the buffer is then. */
  function SizeAt(b: Buf, rs: seq<Req>, i: nat): nat
    requires i <= |rs|
  {
    if i == 0 then b.size else More(Buf(b.len + Total(rs[..i - 1]), SizeAt(b, rs, i - 1)), rs[i - 1].need).size
  }

  /** One write stays inside if and only if it fits what is left, in case that was
      enough for the request, or is no longer than everything written before. */
  predicate Fits(len: nat, size: nat, r: Req) {
    if len + r.need <= size then len + r.used <= size else r.used <= len
  }

  lemma TotalCat(rs: seq<Req>, ss: seq<Req>)
    ensures Total(rs + ss) == Total(rs) + Total(ss)
  {
    if rs == [] {
      assert rs + ss == ss;
    } else {
      TotalCat(rs[1..], ss);
      assert (rs + ss)[1..] == rs[1..] + ss;
    }
  }

  lemma {:induction false} SizeTail(b: Buf, rs: seq<Req>, b1: Buf, i: nat)
    requires 0 < i <= |rs| && b1 == Buf(b.len + rs[0].used, More(b, rs[0].need).size)
    ensures SizeAt(b, rs, i) == SizeAt(b1, rs[1..], i - 1) && Total(rs[..i]) == rs[0].used + Total(rs[1..][..i - 1])
    decreases i
  {
    assert rs[..i][1..] == rs[1..][..i - 1];
    if i > 1 { SizeTail(b, rs, b1, i - 1); }
  }

  /** Request i, where it starts. */
  predicate FitsAt(b: Buf, rs: seq<Req>, i: nat)
    requires i < |rs|
  {
    Fits(b.len + Total(rs[..i]), SizeAt(b, rs, i), rs[i])
  }

  lemma FitsTail(b: Buf, rs: seq<Req>, b1: Buf, i: nat)
    requires 0 < i < |rs| && b1 == Buf(b.len + rs[0].used, More(b, rs[0].need).size)
    ensures FitsAt(b, rs, i) <==> FitsAt(b1, rs[1..], i - 1)
  {
    SizeTail(b, rs, b1, i);
  }

  /** All requests fit. */
  ghost predicate AllFit(b: Buf, rs: seq<Req>) {
    forall i :: 0 <= i < |rs| ==> FitsAt(b, rs, i)
  }

  /** All writes stay inside if and only if each does, where it starts. */
  lemma {:induction false} ServedExactly(b: Buf, rs: seq<Req>)
    ensures Serve(b, rs).Some? <==> AllFit(b, rs)
    ensures Serve(b, rs).Some? ==> Serve(b, rs).value.len == b.len + Total(rs)
    decreases |rs|
  {
    hide FitsAt;
    if rs != [] {
      var b1 := Buf(b.len + rs[0].used, More(b, rs[0].need).size);
      var rest := rs[1..];
      ServedExactly(b1, rest);
      FirstServed(b, rs);
      forall i | 0 < i < |rs|
        ensures FitsAt(b, rs, i) <==> FitsAt(b1, rest, i - 1)
      {
        FitsTail(b, rs, b1, i);
      }
      if Serve(b, rs).None? && FitsAt(b, rs, 0) {
        var i :| 0 <= i < |rest| && !FitsAt(b1, rest, i);
        assert !FitsAt(b, rs, i + 1);
      }
    }
  }

  lemma FirstServed(b: Buf, rs: seq<Req>)
    requires rs != []
    ensures FitsAt(b, rs, 0) <==> b.len + rs[0].used <= More(b, rs[0].need).size
  {
  }

  // -- What the writer asks for ------------------------------------------------------------------------

  /** bcwrite_ktabk. */
  function ValReqs(v: Val): seq<Req> {
    match v
    case Str(s) => [Req(11, 0), Req(5 + |s|, 4 + |s|)]
    case Num(_) => [Req(11, 12)]
    case _ => [Req(11, 4)]
  }

  function ValsReqs(vs: seq<Val>): seq<Req> {
    if vs == [] then [] else ValReqs(vs[0]) + ValsReqs(vs[1..])
  }

  /** One round of bcwrite_kgc. */
  function ConstReqs(c: Const): seq<Req> {
    match c
    case CStr(s) => [Req(5 + |s|, 4 + |s|)]
    case CTab(t) => [Req(11, 12)] + (ValsReqs(NormTab(t).arr) + ValsReqs(Flatten(NormTab(t).nodes)))
    case CChild(_) => [Req(1, 4)]
  }

  function ConstsReqs(kgc: seq<Const>): seq<Req> {
    if kgc == [] then [] else ConstReqs(kgc[0]) + ConstsReqs(kgc[1..])
  }

  /** bcwrite_kgc, bcwrite_knum and the debug information. */
  function BodyReqs(pt: Proto, strip: bool): seq<Req> {
    var d := |DbgInfo(pt, strip)|;
    ConstsReqs(pt.kgc) + ([Req(10 * |pt.kn|, 8 * |pt.kn|)] + if d == 0 then [] else [Req(d, d)])
  }

  lemma {:induction false} ValsTotal(vs: seq<Val>)
    requires forall i :: 0 <= i < |vs| ==> ValOk(vs[i])
    ensures Total(ValsReqs(vs)) == |EncVals(vs)|
  {
    hide LE, Bytes;
    if vs != [] {
      ValsTotal(vs[1..]);
      TotalCat(ValReqs(vs[0]), ValsReqs(vs[1..]));
      ValTotal(vs[0]);
    }
  }

  lemma ValTotal(v: Val)
    requires ValOk(v)
    ensures Total(ValReqs(v)) == |EncVal(v)|
  {
    var rs := ValReqs(v);
    if v.Str? {
      var last := rs[1..];
      assert last == [Req(5 + |v.s|, 4 + |v.s|)] && last[1..] == [];
      assert Total(last) == 4 + |v.s| && Total(rs) == Total(last);
    } else {
      assert rs[1..] == [];
    }
  }

  lemma TableTotal(t: TabImage)
    requires TabOk(t)
    ensures Total(ConstReqs(CTab(t))) == 4 + |EncTab(t)|
  {
    hide LE, EncVals, ValsReqs, Flatten, NormTab;
    NormTabOk(t);
    var n := NormTab(t);
    var (a, b) := (ValsReqs(n.arr), ValsReqs(Flatten(n.nodes)));
    ValsTotal(n.arr);
    ValsTotal(Flatten(n.nodes));
    TotalCat(a, b);
    TotalCat([Req(11, 12)], a + b);
    assert Total([Req(11, 12)]) == 12;
  }

  lemma ConstTotal(c: Const)
    requires ConstOk(c)
    ensures Total(ConstReqs(c)) == |EncConst(c)|
  {
    hide LE, Bytes, EncTab, ProtoOk, TabOk;
    match c
    case CStr(s) =>
    case CTab(t) => TableTotal(t);
    case CChild(_) =>
  }

  lemma {:induction false} ConstsTotal(kgc: seq<Const>)
    requires forall i :: 0 <= i < |kgc| ==> ConstOk(kgc[i])
    ensures Total(ConstsReqs(kgc)) == |EncConsts(kgc)|
  {
    hide ConstOk, EncConst, ConstReqs;
    if kgc != [] {
      ConstsTotal(kgc[1..]);
      ConstTotal(kgc[0]);
      TotalCat(ConstReqs(kgc[0]), ConstsReqs(kgc[1..]));
    }
  }

  // -- Records --------------------------------------------------------------------------------------------

  /** What bcwrite_proto asks for before it writes the head, the instructions and the
      upvalues, and how much that is. */
  function FirstNeed(pt: Proto): nat
    requires pt.bc != []
  {
    5 + 4 + 6 * 5 + 4 * (|pt.bc| - 1) + 2 * |pt.uv|
  }

  function FirstPart(pt: Proto, strip: bool): nat
    requires pt.bc != []
  {
    var d := if strip then 0 else if DbgInfo(pt, strip) == [] then 4 else 12;
    4 + 4 + 12 + d + 4 * (|pt.bc| - 1) + 2 * |pt.uv|
  }

  /** The buffer after a record, if that stays inside. */
  function RecordBuf(pt: Proto, strip: bool, size: nat): Option<Buf>
    requires pt.bc != []
  {
    Serve(Buf(FirstPart(pt, strip), Need(size, FirstNeed(pt))), BodyReqs(pt, strip))
  }

  /** The first part always fits, and the requests write exactly the record. */
  lemma RecordStays(pt: Proto, strip: bool, size: nat)
    requires ProtoOk(pt)
    ensures FirstPart(pt, strip) <= Need(size, FirstNeed(pt))
    ensures RecordBuf(pt, strip, size).Some? ==> RecordBuf(pt, strip, size).value.len == |EncRecord(pt, strip)|
    ensures RecordBuf(pt, strip, size).Some? <==>
            AllFit(Buf(FirstPart(pt, strip), Need(size, FirstNeed(pt))), BodyReqs(pt, strip))
  {
    hide FitsAt, Total, BodyReqs, EncRecord, Serve, ConstOk;
    RecordLength(pt, strip);
    var (b, rs) := (Buf(FirstPart(pt, strip), Need(size, FirstNeed(pt))), BodyReqs(pt, strip));
    assert RecordBuf(pt, strip, size) == Serve(b, rs);
    ServedExactly(b, rs);
  }

  lemma RecordLength(pt: Proto, strip: bool)
    requires ProtoOk(pt)
    ensures |EncRecord(pt, strip)| == FirstPart(pt, strip) + Total(BodyReqs(pt, strip))
  {
    hide LE, ConstOk, EncConsts, ConstsReqs;
    ConstsTotal(pt.kgc);
    var d := |DbgInfo(pt, strip)|;
    var (nums, dbg) := ([Req(10 * |pt.kn|, 8 * |pt.kn|)], if d == 0 then [] else [Req(d, d)]);
    TotalCat(ConstsReqs(pt.kgc), nums + dbg);
    TotalCat(nums, dbg);
    assert Total(nums) == 8 * |pt.kn| && Total(dbg) == d;
    BodyLength(pt, strip);
    HeadLength(pt, strip);
  }

  lemma BodyLength(pt: Proto, strip: bool)
    requires ProtoOk(pt)
    ensures |EncBody(pt, strip)| ==
            4 * (|pt.bc| - 1) + 2 * |pt.uv| + |EncConsts(pt.kgc)| + 8 * |pt.kn| + |DbgInfo(pt, strip)|
  {
    hide LEs, EncConsts, ConstOk;
  }

  lemma HeadLength(pt: Proto, strip: bool)
    requires ProtoOk(pt)
    ensures HeadOk(HeadOf(pt, strip), strip)
    ensures |EncHead(HeadOf(pt, strip), strip)| == FirstPart(pt, strip) - 4 - 4 * (|pt.bc| - 1) - 2 * |pt.uv|
  {
    hide LE, ConstOk;
    HeadOfOk(pt, strip);
  }

  lemma ServedOnce(b: Buf, r: Req)
    ensures Serve(b, [r]).Some? <==> Fits(b.len, b.size, r)
  {
    assert [r][1..] == [];
  }

  /** A stripped prototype without other constants than numbers stays inside if and only if
      the room left is enough for ten bytes a number, or as many bytes as the numbers take
      have been written before. */
  lemma NumbersStay(pt: Proto, size: nat)
    requires ProtoOk(pt) && pt.kgc == []
    ensures var (len, n) := (FirstPart(pt, true), |pt.kn|);
            RecordBuf(pt, true, size).Some? <==> len + 10 * n <= Need(size, FirstNeed(pt)) || 8 * n <= len
  {
    hide ConstOk;
    var rs := BodyReqs(pt, true);
    assert rs == [Req(10 * |pt.kn|, 8 * |pt.kn|)];
    ServedOnce(Buf(FirstPart(pt, true), Need(size, FirstNeed(pt))), rs[0]);
  }

  /** 81 instructions and 80 numbers: the buffer of 1024 bytes is left with 688. */
  lemma NumbersOverrun(pt: Proto)
    requires ProtoOk(pt) && pt.kgc == [] && pt.uv == [] && |pt.bc| == 82 && |pt.kn| == 80
    ensures FirstPart(pt, true) == 344 && RecordBuf(pt, true, 1024).None?
    ensures More(Buf(344, Need(1024, FirstNeed(pt))), 800).size == 688
  {
    hide ConstOk;
    NumbersStay(pt, 1024);
  }
}
