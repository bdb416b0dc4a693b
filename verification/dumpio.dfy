/** The dump writer, which appends to a buffer, and the reader, which moves a
    cursor and a stack of finished prototypes. */
module DumpIO {
  import opened Values
  import opened Dump

  class BcWriter {
    var sb: seq<Byte>   // buffer of the current record
    var out: seq<Byte>  // what has been written out
    const strip: bool

    constructor (strip: bool)
      ensures this.strip == strip && sb == [] && out == []
    {
      this.strip := strip;
      sb, out := [], [];
    }

    /** bcwrite_uint32. */
    method PutU32(x: nat)
      modifies this`sb
      ensures sb == old(sb) + LE(x, 4)
    {
      sb := sb + LE(x, 4);
    }

    method PutMem(b: seq<Byte>)
      modifies this`sb
      ensures sb == old(sb) + b
    {
      sb := sb + b;
    }

    /** bcwrite_ktabk. */
    method PutVal(v: Val)
      requires ValOk(v)
      modifies this`sb
      ensures sb == old(sb) + EncVal(v)
    {
      hide LE, Bytes;
      match v
      case Str(s) =>
        PutU32(5 + |s|);
        PutMem(Bytes(s));
        assert sb == old(sb) + (LE(5 + |s|, 4) + Bytes(s));
      case Num(n) =>
        PutU32(4);
        PutMem(LE(Bits64(n), 8));
        assert sb == old(sb) + (LE(4, 4) + LE(Bits64(n), 8));
      case Nil => PutU32(0);
      case False => PutU32(1);
      case True => PutU32(2);
    }

    method PutVals(vs: seq<Val>)
      requires forall i :: 0 <= i < |vs| ==> ValOk(vs[i])
      modifies this`sb
      ensures sb == old(sb) + EncVals(vs)
    {
      hide EncVal, ValOk, EncVals;
      EncValsNone();
      for i := 0 to |vs|
        invariant sb == old(sb) + EncVals(vs[..i])
      {
        PutVal(vs[i]);
        EncValsMore(vs, i);
      }
      assert vs[..|vs|] == vs;
    }

    /** The entries of the hash part, last node first. */
    method PutNodes(t: TabImage, nhash: nat)
      requires TabOk(t) && nhash == |LiveNodes(t.nodes)|
      requires forall i :: 0 <= i < 2 * nhash ==> ValOk(Flatten(LiveNodes(t.nodes))[i])
      modifies this`sb
      ensures sb == old(sb) + EncVals(Flatten(LiveNodes(t.nodes)))
    {
      hide EncVal, ValOk, EncVals, Flatten, LiveNodes;
      var ns := t.nodes;
      ghost var kv := Flatten(LiveNodes(ns));
      var i, k := nhash, |ns|;
      assert ns[k..] == [];
      LiveNodesNone();
      EncValsNone();
      while i > 0
        invariant 0 <= k <= |ns| && i == nhash - |LiveNodes(ns[k..])|
        invariant LiveNodes(ns[k..]) <= LiveNodes(ns) && sb == old(sb) + EncVals(kv[..2 * (nhash - i)])
        decreases k
      {
        LiveNodesStep(ns, k);
        k := k - 1;
        if ns[k].1 != Nil {
          FlattenAt(LiveNodes(ns), nhash - i, ns[k]);
          PutVal(ns[k].0);
          PutVal(ns[k].1);
          EncValsTwo(kv, nhash - i);
          i := i - 1;
        }
      }
      assert kv[..2 * nhash] == kv;
    }

    /** bcwrite_ktab. */
    method PutTab(t: TabImage)
      requires TabOk(t)
      modifies this`sb
      ensures sb == old(sb) + EncTab(t)
    {
      hide LE, EncVal, ValOk, EncVals, Flatten, LiveNodes, Trim;
      NormTabOk(t);
      var narray := ArrayLength(t.arr);
      var nhash := CountNodes(t.nodes);
      PutU32(narray);
      PutU32(nhash);
      PutVals(t.arr[..narray]);
      PutNodes(t, nhash);
    }

    /** bcwrite_kgc. */
    method PutConsts(kgc: seq<Const>)
      requires forall i :: 0 <= i < |kgc| ==> ConstOk(kgc[i])
      modifies this`sb
      ensures sb == old(sb) + EncConsts(kgc)
    {
      hide EncConsts, EncTab, LE, Bytes, TabOk, ProtoOk;
      EncConstsNone();
      for i := 0 to |kgc|
        invariant sb == old(sb) + EncConsts(kgc[..i])
      {
        ghost var was := sb;
        match kgc[i] {
          case CStr(s) =>
            PutU32(5 + |s|);
            PutMem(Bytes(s));
          case CTab(t) =>
            PutU32(1);
            PutTab(t);
          case CChild(_) =>
            PutU32(0);
        }
        assert sb == was + EncConst(kgc[i]);
        EncConstsMore(kgc, i);
      }
      assert kgc[..|kgc|] == kgc;
    }

    /** The words of the instructions, the upvalues or the numbers. */
    method PutWords(xs: seq<nat>, n: nat)
      modifies this`sb
      ensures sb == old(sb) + LEs(xs, n)
    {
      hide LE, LEs;
      LEsNone(n);
      for i := 0 to |xs|
        invariant sb == old(sb) + LEs(xs[..i], n)
      {
        sb := sb + LE(xs[i], n);
        LEsMore(xs, n, i);
      }
      assert xs[..|xs|] == xs;
    }

    /** The head of a prototype. */
    method PutHead(h: Head)
      requires HeadOk(h, strip)
      modifies this`sb
      ensures sb == old(sb) + EncHead(h, strip)
    {
      hide LE;
      PutMem([h.flags, h.numparams, h.framesize, h.sizeuv]);
      PutU32(h.sizekgc);
      PutU32(h.sizekn);
      PutU32(h.sizebc - 1);
      ghost var was := sb;
      if !strip {
        PutU32(h.sizedbg);
        if h.sizedbg > 0 {
          PutU32(h.firstline);
          PutU32(h.numline);
        }
      }
      assert sb == was + EncDbgSize(h, strip);
    }

    /** Instructions, upvalue references, constants and debug information. */
    method PutBody(pt: Proto)
      requires ProtoOk(pt)
      modifies this`sb
      ensures sb == old(sb) + EncBody(pt, strip)
    {
      hide LE, LEs, EncConsts, ConstOk, BitsAll;
      PutWords(pt.bc[1..], 4);
      PutWords(pt.uv, 2);
      PutConsts(pt.kgc);
      PutWords(BitsAll(pt.kn), 8);
      ghost var was := sb;
      if !strip && pt.dbg.Some? { PutMem(pt.dbg.value.info); }
      assert sb == was + DbgInfo(pt, strip);
    }

    /** One prototype into the buffer; its size is filled in at the end. */
    method PutProto(pt: Proto)
      requires ProtoOk(pt) && |Payload(pt, strip)| < TWO32
      modifies this`sb
      ensures sb == EncRecord(pt, strip)
    {
      hide LE, EncHead, EncBody, ProtoOk;
      HeadOfOk(pt, strip);
      sb := [0, 0, 0, 0];
      PutHead(HeadOf(pt, strip));
      PutBody(pt);
      assert sb[4..] == Payload(pt, strip);
      sb := LE(|sb| - 4, 4) + sb[4..];
    }

    /** bcwrite_proto: the children from the last address down, then the prototype. */
    method WriteProto(pt: Proto)
      requires ProtoOk(pt) && |EncTree(pt, strip)| < TWO32
      modifies this
      ensures out == old(out) + EncTree(pt, strip)
      decreases pt
    {
      hide LE, ConstOk, EncKids, Payload, EncKid;
      if HasFlag(pt.flags, PROTO_CHILD) {
        EncKidsNone(strip);
        assert pt.kgc[|pt.kgc|..] == [];
        for i := |pt.kgc| downto 0
          invariant out == old(out) + EncKids(pt.kgc[i..], strip)
        {
          EncKidsStep(pt.kgc, i, strip);
          KidPart(pt.kgc[i], strip);
          if pt.kgc[i].CChild? {
            WriteProto(pt.kgc[i].pt);
          }
        }
        assert pt.kgc[0..] == pt.kgc;
      }
      PutProto(pt);
      out := out + sb;
    }
  }

  lemma EncKidsNone(strip: bool)
    ensures EncKids([], strip) == []
  {
  }

  /** The children from index i on, with the child there last. */
  lemma {:induction false} EncKidsStep(kgc: seq<Const>, i: nat, strip: bool)
    requires i < |kgc| && forall j :: 0 <= j < |kgc| ==> ConstOk(kgc[j])
    ensures EncKids(kgc[i..], strip) == EncKids(kgc[i + 1..], strip) + EncKid(kgc[i], strip)
    ensures |EncKids(kgc[i..], strip)| <= |EncKids(kgc, strip)|
    decreases i
  {
    hide ConstOk, EncKid;
    assert kgc[i..][1..] == kgc[i + 1..] && kgc[i..][0] == kgc[i];
    if i == 0 {
      assert kgc[0..] == kgc;
    } else {
      EncKidsStep(kgc, i - 1, strip);
    }
  }

  lemma KidPart(c: Const, strip: bool)
    requires ConstOk(c)
    ensures if c.CChild? then ProtoOk(c.pt) && EncKid(c, strip) == EncTree(c.pt, strip) else EncKid(c, strip) == []
  {
    hide EncTree;
  }

  /** kp_bcwrite. */
  method WriteDump(name: string, pt: Proto, strip: bool) returns (out: seq<Byte>)
    requires IsByteString(name) && ProtoOk(pt) && |EncTree(pt, strip)| < TWO32
    ensures out == Write(name, pt, strip)
  {
    hide ProtoOk, EncTree, LE, Bytes;
    var w := new BcWriter(strip);
    w.PutMem([0x15, 0x22, 0x06, 1, if strip then F_STRIP else 0]);
    if !strip {
      w.PutU32(|name|);
      w.PutMem(Bytes(name));
    }
    assert w.sb == EncHeader(name, strip);
    w.out := w.sb;
    w.WriteProto(pt);
    return w.out + [0];
  }

  // -- Loops over tables ------------------------------------------------------------------------

  /** Length of the array part without its trailing nils. */
  method ArrayLength(a: seq<Val>) returns (n: nat)
    ensures n <= |a| && a[..n] == Trim(a)
  {
    n := |a|;
    assert a[..n] == a;
    while n > 0 && a[n - 1] == Nil
      invariant 0 <= n <= |a| && Trim(a[..n]) == Trim(a)
    {
      assert a[..n][..n - 1] == a[..n - 1];
      n := n - 1;
    }
  }

  /** Number of nodes with a value. */
  method CountNodes(ns: seq<(Val, Val)>) returns (n: nat)
    ensures n == |LiveNodes(ns)|
  {
    n := 0;
    for i := |ns| downto 0
      invariant n == |LiveNodes(ns[i..])|
    {
      LiveNodesStep(ns, i + 1);
      if ns[i].1 != Nil { n := n + 1; }
    }
    assert ns[0..] == ns;
  }

  lemma LiveNodesNone()
    ensures LiveNodes([]) == []
  {
  }

  lemma {:induction false} LiveNodesStep(ns: seq<(Val, Val)>, k: nat)
    requires 0 < k <= |ns|
    ensures LiveNodes(ns[k - 1..]) == LiveNodes(ns[k..]) + if ns[k - 1].1 != Nil then [ns[k - 1]] else []
    ensures LiveNodes(ns[k - 1..]) <= LiveNodes(ns)
    decreases k
  {
    assert ns[k - 1..][1..] == ns[k..] && ns[k - 1..][0] == ns[k - 1];
    if k > 1 {
      LiveNodesStep(ns, k - 1);
    } else {
      assert ns[0..] == ns;
    }
  }

  lemma FlattenAt(ps: seq<(Val, Val)>, i: nat, p: (Val, Val))
    requires i < |ps| && ps[i] == p
    ensures Flatten(ps)[2 * i] == p.0 && Flatten(ps)[2 * i + 1] == p.1
  {
    hide Flatten;
  }

  lemma EncValsNone()
    ensures EncVals([]) == []
  {
  }

  lemma {:induction false} EncValsMore(vs: seq<Val>, i: nat)
    requires i < |vs| && forall j :: 0 <= j < |vs| ==> ValOk(vs[j])
    ensures EncVals(vs[..i + 1]) == EncVals(vs[..i]) + EncVal(vs[i])
    decreases i
  {
    hide EncVal, ValOk;
    if i > 0 {
      assert vs[..i + 1][1..] == vs[1..][..i] && vs[..i][1..] == vs[1..][..i - 1];
      EncValsMore(vs[1..], i - 1);
    }
  }

  lemma EncValsTwo(vs: seq<Val>, i: nat)
    requires 2 * i + 1 < |vs| && forall j :: 0 <= j < |vs| ==> ValOk(vs[j])
    ensures EncVals(vs[..2 * (i + 1)]) == EncVals(vs[..2 * i]) + EncVal(vs[2 * i]) + EncVal(vs[2 * i + 1])
  {
    hide EncVal, ValOk, EncVals;
    EncValsMore(vs, 2 * i);
    EncValsMore(vs, 2 * i + 1);
  }

  lemma EncConstsNone()
    ensures EncConsts([]) == []
  {
  }

  lemma {:induction false} EncConstsMore(kgc: seq<Const>, i: nat)
    requires i < |kgc| && forall j :: 0 <= j < |kgc| ==> ConstOk(kgc[j])
    ensures EncConsts(kgc[..i + 1]) == EncConsts(kgc[..i]) + EncConst(kgc[i])
    decreases i
  {
    hide EncConst, ConstOk;
    if i > 0 {
      assert kgc[..i + 1][1..] == kgc[1..][..i] && kgc[..i][1..] == kgc[1..][..i - 1];
      EncConstsMore(kgc[1..], i - 1);
    }
  }

  lemma LEsNone(n: nat)
    ensures LEs([], n) == []
  {
  }

  lemma {:induction false} LEsMore(xs: seq<nat>, n: nat, i: nat)
    requires i < |xs|
    ensures LEs(xs[..i + 1], n) == LEs(xs[..i], n) + LE(xs[i], n)
    decreases i
  {
    hide LE;
    if i > 0 {
      assert xs[..i + 1][1..] == xs[1..][..i] && xs[..i][1..] == xs[1..][..i - 1];
      LEsMore(xs[1..], n, i - 1);
    }
  }

  // -- The reader ---------------------------------------------------------------------------------

  class BcReader {
    const buf: seq<Byte>
    var p: nat              // cursor
    var stack: seq<Proto>   // finished prototypes, above the old stack top

    predicate Valid()
      reads this
    {
      p <= |buf|
    }

    ghost function Rest(): seq<Byte>
      reads this
      requires Valid()
    {
      buf[p..]
    }

    constructor (buf: seq<Byte>)
      ensures Valid() && this.buf == buf && Rest() == buf && stack == []
    {
      this.buf := buf;
      p, stack := 0, [];
    }

    /** r is what `want` says, and the cursor is behind it. */
    ghost predicate Took<T>(want: Option<(T, seq<Byte>)>, r: Option<T>)
      reads this
    {
      && Valid()
      && match want
         case None => r == None
         case Some((x, rest)) => r == Some(x) && Rest() == rest
    }

    /** bcread_mem; an error past the end of the buffer. */
    method GetMem(n: nat) returns (r: Option<seq<Byte>>)
      requires Valid()
      modifies this`p
      ensures Took(Mem(old(Rest()), n), r)
    {
      if n > |buf| - p { return None; }
      r := Some(buf[p..p + n]);
      assert buf[p..][..n] == buf[p..p + n] && buf[p..][n..] == buf[p + n..];
      p := p + n;
    }

    /** bcread_uint32 and the wider and narrower words. */
    method GetWord(n: nat) returns (r: Option<nat>)
      requires Valid()
      modifies this`p
      ensures Took(Word(old(Rest()), n), r)
    {
      hide FromLE;
      var m :- GetMem(n);
      return Some(FromLE(m));
    }

    /** bcread_ktabk. */
    method GetVal() returns (r: Option<Val>)
      requires Valid()
      modifies this`p
      ensures Took(DecVal(old(Rest())), r)
    {
      hide Word, Mem, NewStr, Num64;
      var tp :- GetWord(4);
      if 5 <= tp < TWO31 {
        var m :- GetMem(tp - 5);
        var s :- NewStr(m);
        return Some(Str(s));
      } else if tp == 4 {
        var x :- GetWord(8);
        return Some(Num(Num64(x)));
      }
      return if tp == 0 then Some(Nil) else if tp == 1 then Some(False) else if tp == 2 then Some(True) else None;
    }

    method GetVals(n: nat) returns (r: Option<seq<Val>>)
      requires Valid()
      modifies this`p
      ensures Took(DecVals(old(Rest()), n), r)
    {
      hide DecVal;
      var vs: seq<Val> := [];
      ghost var all := DecVals(Rest(), n);
      assert all.Some? ==> vs + all.value.0 == all.value.0;
      for i := 0 to n
        invariant Valid() && |vs| == i
        invariant DecVals(old(Rest()), n) ==
                  match DecVals(Rest(), n - i) case None => None case Some((ws, b)) => Some((vs + ws, b))
      {
        ghost var b := Rest();
        var v := GetVal();
        if v.None? { return None; }
        ghost var more := DecVals(Rest(), n - i - 1);
        assert more.Some? ==> vs + ([v.value] + more.value.0) == (vs + [v.value]) + more.value.0;
        vs := vs + [v.value];
      }
      assert vs + [] == vs;
      return Some(vs);
    }

    /** bcread_ktab. */
    method GetTab() returns (r: Option<TabImage>)
      requires Valid()
      modifies this`p
      ensures Took(DecTab(old(Rest())), r)
    {
      hide Word, DecVals, Pairs;
      var na :- GetWord(4);
      var nh :- GetWord(4);
      if na > MAX_ASIZE || nh > MAX_HSIZE { return None; }
      var a :- GetVals(na);
      var vs :- GetVals(2 * nh);
      var ps := Pairs(vs);
      if exists i :: 0 <= i < |ps| && ps[i].0 == Nil { return None; }
      return Some(TabImage(a, ps));
    }

    /** As Took, for reads that may pop prototypes. */
    ghost predicate TookFrom<T>(want: Option<(T, seq<Byte>, seq<Proto>)>, r: Option<T>)
      reads this
    {
      && Valid()
      && match want
         case None => r == None
         case Some((x, rest, st)) => r == Some(x) && Rest() == rest && stack == st
    }

    /** One constant. */
    method GetConst() returns (r: Option<Const>)
      requires Valid()
      modifies this
      ensures TookFrom(DecConst(old(Rest()), old(stack)), r)
    {
      hide Word, Mem, NewStr, DecTab;
      var tp :- GetWord(4);
      if 5 <= tp < TWO31 {
        var m :- GetMem(tp - 5);
        var s :- NewStr(m);
        return Some(CStr(s));
      } else if tp == 1 {
        var t :- GetTab();
        return Some(CTab(t));
      } else if tp == 0 && stack != [] {
        r := Some(CChild(stack[|stack| - 1]));
        stack := stack[..|stack| - 1];
      } else {
        return None;
      }
    }

    /** bcread_kgc. */
    method GetConsts(n: nat) returns (r: Option<seq<Const>>)
      requires Valid()
      modifies this
      ensures TookFrom(DecConsts(old(Rest()), n, old(stack)), r)
    {
      hide DecConst;
      var cs: seq<Const> := [];
      ghost var all := DecConsts(Rest(), n, stack);
      assert all.Some? ==> cs + all.value.0 == all.value.0;
      for i := 0 to n
        invariant Valid() && |cs| == i
        invariant DecConsts(old(Rest()), n, old(stack)) ==
                  match DecConsts(Rest(), n - i, stack) case None => None
                      case Some((ds, b, st)) => Some((cs + ds, b, st))
      {
        var c := GetConst();
        if c.None? { return None; }
        ghost var more := DecConsts(Rest(), n - i - 1, stack);
        assert more.Some? ==> cs + ([c.value] + more.value.0) == (cs + [c.value]) + more.value.0;
        cs := cs + [c.value];
      }
      assert cs + [] == cs;
      return Some(cs);
    }

    /** Several words: instructions, upvalue references, numbers. */
    method GetWords(k: nat, n: nat) returns (r: Option<seq<nat>>)
      requires Valid()
      modifies this`p
      ensures Took(Words(old(Rest()), k, n), r)
    {
      hide Word;
      var xs: seq<nat> := [];
      ghost var all := Words(Rest(), k, n);
      assert all.Some? ==> xs + all.value.0 == all.value.0;
      for i := 0 to k
        invariant Valid() && |xs| == i
        invariant Words(old(Rest()), k, n) ==
                  match Words(Rest(), k - i, n) case None => None case Some((ys, b)) => Some((xs + ys, b))
      {
        var x := GetWord(n);
        if x.None? { return None; }
        ghost var more := Words(Rest(), k - i - 1, n);
        assert more.Some? ==> xs + ([x.value] + more.value.0) == (xs + [x.value]) + more.value.0;
        xs := xs + [x.value];
      }
      assert xs + [] == xs;
      return Some(xs);
    }

    method GetHead(strip: bool) returns (r: Option<Head>)
      requires Valid()
      modifies this`p
      ensures Took(DecHead(old(Rest()), strip), r) && (r.Some? ==> r.value.sizebc > 0)
    {
      hide Word;
      var m := GetMem(4);
      if m.None? { return None; }
      var sizekgc :- GetWord(4);
      var sizekn :- GetWord(4);
      var nbc :- GetWord(4);
      var sizedbg, firstline, numline := 0, 0, 0;
      if !strip {
        sizedbg :- GetWord(4);
        if sizedbg != 0 {
          firstline :- GetWord(4);
          numline :- GetWord(4);
        }
      }
      return Some(Head(m.value[0], m.value[1], m.value[2], m.value[3], sizekgc, sizekn, nbc + 1, sizedbg, firstline,
          numline));
    }

    /** bcread_proto. */
    method GetProto(strip: bool) returns (r: Option<Proto>)
      requires Valid()
      modifies this
      ensures TookFrom(DecProto(old(Rest()), old(stack), strip), r)
    {
      hide DecHead, Words, DecConsts, Mem, NumsAll, HeaderIns;
      var h :- GetHead(strip);
      var bc :- GetWords(h.sizebc - 1, 4);
      var uv :- GetWords(h.sizeuv, 2);
      var kgc :- GetConsts(h.sizekgc);
      var xs :- GetWords(h.sizekn, 8);
      var info :- GetMem(h.sizedbg);
      return Some(Proto(h.flags, h.numparams, h.framesize, uv, kgc, NumsAll(xs), [HeaderIns(h.flags, h.framesize)] + bc,
                        if h.sizedbg == 0 then None else Some(Dbg(h.firstline, h.numline, info))));
    }

    /** bcread_header. */
    method GetHeader() returns (r: Option<(string, bool)>)
      requires Valid()
      modifies this`p
      ensures Valid()
      ensures match DecHeader(old(Rest()))
              case None => r == None
              case Some((name, strip, rest)) => r == Some((name, strip)) && Rest() == rest
    {
      hide Word, Mem, NewStr;
      if |buf| - p < 5 || buf[p..p + 4] != [0x15, 0x22, 0x06, 1] { return None; }
      var flags := buf[p + 4];
      ghost var b := Rest();
      assert b[..4] == buf[p..p + 4] && b[5..] == buf[p + 5..];
      p := p + 5;
      if flags >= 8 || flags >= F_FFI || flags % 2 == F_BE { return None; }
      if flags == F_STRIP { return Some(("striped", true)); }
      var len :- GetWord(4);
      var m :- GetMem(len);
      var name :- NewStr(m);
      return Some((name, false));
    }

    /** One record, or the end. */
    method GetRecord(strip: bool) returns (st: Step)
      requires Valid()
      modifies this
      ensures Valid()
      ensures var o := ReadLoop(old(Rest()), old(stack), strip);
              match st
              case Bad => o == None
              case End => o == Some((Rest(), stack))
              case More => o == ReadLoop(Rest(), stack, strip) && p > old(p)
    {
      hide DecProto, Word;
      ghost var b := Rest();
      if p < |buf| && buf[p] == 0 {
        assert b[1..] == buf[p + 1..];
        p := p + 1;
        return End;
      }
      var len := GetWord(4);
      if len.None? { return Bad; }
      WordShrinks(b, 4);
      if len.value == 0 { return End; }
      var start := p;
      var pt := GetProto(strip);
      if pt.None? || p != start + len.value { return Bad; }
      stack := stack + [pt.value];
      return More;
    }

    /** All records up to the end. */
    method GetRecords(strip: bool) returns (ok: bool)
      requires Valid()
      modifies this
      ensures Valid()
      ensures ReadLoop(old(Rest()), old(stack), strip) == if ok then Some((Rest(), stack)) else None
    {
      hide ReadLoop;
      while true
        invariant Valid() && ReadLoop(Rest(), stack, strip) == ReadLoop(old(Rest()), old(stack), strip)
        decreases |buf| - p
      {
        var st := GetRecord(strip);
        if st.Bad? { return false; }
        if st.End? { return true; }
      }
    }
  }

  datatype Step = Bad | End | More

  /** kp_bcread: any byte sequence. */
  method ReadDump(buf: seq<Byte>) returns (r: Option<(string, Proto)>)
    ensures r == Read(buf)
  {
    hide DecHeader, ReadLoop, LeftOver, Read;
    var c := new BcReader(buf);
    var hdr := c.GetHeader();
    ReadSteps(buf);
    if hdr.None? { return None; }
    var ok := c.GetRecords(hdr.value.1);
    if !ok { return None; }
    if LeftOver(|c.buf| - c.p) || |c.stack| != 1 { return None; }
    return Some((hdr.value.0, c.stack[0]));
  }

  /** The header decides, then the records, then what is left. */
  lemma ReadSteps(b: seq<Byte>)
    ensures DecHeader(b) == None ==> Read(b) == None
    ensures DecHeader(b).Some? ==>
              var (name, strip, r) := DecHeader(b).value;
              var o := ReadLoop(r, [], strip);
              && (o == None ==> Read(b) == None)
              && (o.Some? ==>
                    Read(b) == if LeftOver(|o.value.0|) || |o.value.1| != 1 then None else Some((name, o.value.1[0])))
  {
    hide DecHeader, ReadLoop, LeftOver;
  }
}
