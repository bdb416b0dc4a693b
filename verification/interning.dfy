/** String interning: a word-at-a-time comparison, and one object per string. */
module Interning {
  import opened Values

  type Byte = x: bv32 | x < 256

  const MAX_STR: nat := 512
  const MAX_STRNUM: nat := 9999

  // -- Comparing words ------------------------------------------------------------------------

  /** Four bytes as a little-endian word. */
  function Word(b0: Byte, b1: Byte, b2: Byte, b3: Byte): bv32 {
    b0 | (b1 << 8) | (b2 << 16) | (b3 << 24)
  }

  function WordAt(s: seq<Byte>, i: nat): bv32
    requires i + 4 <= |s|
  {
    Word(s[i], s[i + 1], s[i + 2], s[i + 3])
  }

  lemma WordsEqual(a0: Byte, a1: Byte, a2: Byte, a3: Byte, b0: Byte, b1: Byte, b2: Byte, b3: Byte)
    ensures Word(a0, a1, a2, a3) ^ Word(b0, b1, b2, b3) == 0 <==> a0 == b0 && a1 == b1 && a2 == b2 && a3 == b3
  {
  }

  lemma OneByte(a0: Byte, a1: Byte, a2: Byte, a3: Byte, b0: Byte, b1: Byte, b2: Byte, b3: Byte)
    ensures (Word(a0, a1, a2, a3) ^ Word(b0, b1, b2, b3)) << 24 == 0 <==> a0 == b0
  {
  }

  lemma TwoBytes(a0: Byte, a1: Byte, a2: Byte, a3: Byte, b0: Byte, b1: Byte, b2: Byte, b3: Byte)
    ensures (Word(a0, a1, a2, a3) ^ Word(b0, b1, b2, b3)) << 16 == 0 <==> a0 == b0 && a1 == b1
  {
  }

  lemma ThreeBytes(a0: Byte, a1: Byte, a2: Byte, a3: Byte, b0: Byte, b1: Byte, b2: Byte, b3: Byte)
    ensures (Word(a0, a1, a2, a3) ^ Word(b0, b1, b2, b3)) << 8 == 0 <==> a0 == b0 && a1 == b1 && a2 == b2
  {
  }

  /** A difference in the first bytes of two words. */
  lemma WordDiff(a0: Byte, a1: Byte, a2: Byte, a3: Byte, b0: Byte, b1: Byte, b2: Byte, b3: Byte)
    ensures var v := Word(a0, a1, a2, a3) ^ Word(b0, b1, b2, b3);
            && (v == 0 <==> a0 == b0 && a1 == b1 && a2 == b2 && a3 == b3)
            && (v << 24 == 0 <==> a0 == b0)
            && (v << 16 == 0 <==> a0 == b0 && a1 == b1)
            && (v << 8 == 0 <==> a0 == b0 && a1 == b1 && a2 == b2)
  {
    hide Word;
    WordsEqual(a0, a1, a2, a3, b0, b1, b2, b3);
    OneByte(a0, a1, a2, a3, b0, b1, b2, b3);
    TwoBytes(a0, a1, a2, a3, b0, b1, b2, b3);
    ThreeBytes(a0, a1, a2, a3, b0, b1, b2, b3);
  }

  /** What a machine makes of a shift by the whole width of a word, which C leaves open. */
  type WideShift = bv32 -> bv32

  function Diff(a: seq<Byte>, b: seq<Byte>, i: nat): bv32
    requires i + 4 <= |a| && i + 4 <= |b|
  {
    WordAt(a, i) ^ WordAt(b, i)
  }

  /** A difference of words without the bytes behind the string, of which it has
      `left` bytes. */
  function Rest(wide: WideShift, v: bv32, left: nat): bv32 {
    if left == 0 then wide(v)
    else if left == 1 then v << 24
    else if left == 2 then v << 16
    else if left == 3 then v << 8
    else 1
  }

  /** How many bytes behind a pointer the comparison reads. */
  function Reads(len: nat): nat {
    if len == 0 then 4 else len + 3
  }

  /** The first words agree, or the machine shifts their difference away. */
  predicate Alike(wide: WideShift, a: seq<Byte>, b: seq<Byte>)
    requires 4 <= |a| && 4 <= |b|
  {
    a[..4] == b[..4] || wide(Diff(a, b, 0)) == 0
  }

  /** str_fastcmp: zero exactly for equal strings, whatever follows them in memory, if
      they are not empty. Of empty strings it compares the words behind the pointers.
      Up to three bytes behind the strings are read. */
  method FastCmp(wide: WideShift, a: seq<Byte>, b: seq<Byte>, len: nat) returns (r: bv32)
    requires Reads(len) <= |a| && Reads(len) <= |b|
    ensures len > 0 ==> (r == 0 <==> a[..len] == b[..len])
    ensures len == 0 ==> (r == 0 <==> Alike(wide, a, b))
  {
    hide Diff, Rest;
    var i := 0;
    if len == 0 { FirstWord(wide, a, b); }
    while true
      invariant 0 <= i && (i < len || len == 0 == i) && a[..i] == b[..i]
      decreases len - i
    {
      var v := Diff(a, b, i);
      if i < len { NextWord(wide, a, b, i, len); }
      if v != 0 { return Rest(wide, v, len - i); }
      i := i + 4;
      if i >= len { return 0; }
    }
  }

  lemma FirstWord(wide: WideShift, a: seq<Byte>, b: seq<Byte>)
    requires 4 <= |a| && 4 <= |b|
    ensures Diff(a, b, 0) == 0 <==> a[..4] == b[..4]
    ensures Rest(wide, Diff(a, b, 0), 0) == wide(Diff(a, b, 0))
  {
    hide Word;
    WordDiff(a[0], a[1], a[2], a[3], b[0], b[1], b[2], b[3]);
    FourBytes(a, b, 0);
    assert a[0..4] == a[..4] && b[0..4] == b[..4];
  }

  /** What the words at i tell about the strings, if these agree up to there. */
  lemma NextWord(wide: WideShift, a: seq<Byte>, b: seq<Byte>, i: nat, len: nat)
    requires i < len && len + 3 <= |a| && len + 3 <= |b| && a[..i] == b[..i]
    ensures var v := Diff(a, b, i);
            if v != 0 then Rest(wide, v, len - i) == 0 <==> a[..len] == b[..len]
            else if len - i <= 4 then a[..len] == b[..len]
            else a[..i + 4] == b[..i + 4]
  {
    hide Diff, Rest;
    DiffIs(wide, a, b, i, len - i);
    Split(a, b, i, len);
  }

  /** A difference of words, and what is left of it, in terms of their bytes. */
  lemma DiffIs(wide: WideShift, a: seq<Byte>, b: seq<Byte>, i: nat, left: nat)
    requires i + 4 <= |a| && i + 4 <= |b| && left > 0
    ensures Diff(a, b, i) == 0 <==> a[i] == b[i] && a[i + 1] == b[i + 1] && a[i + 2] == b[i + 2] && a[i + 3] == b[i + 3]
    ensures Rest(wide, Diff(a, b, i), left) == 0 <==>
            left <= 3 && a[i] == b[i] && (left >= 2 ==> a[i + 1] == b[i + 1]) && (left >= 3 ==> a[i + 2] == b[i + 2])
  {
    hide Word;
    WordDiff(a[i], a[i + 1], a[i + 2], a[i + 3], b[i], b[i + 1], b[i + 2], b[i + 3]);
  }

  /** Equality of prefixes, four bytes further. */
  lemma Split(a: seq<Byte>, b: seq<Byte>, i: nat, len: nat)
    requires i < len && len + 3 <= |a| && len + 3 <= |b| && a[..i] == b[..i]
    ensures len - i == 1 ==> (a[..len] == b[..len] <==> a[i] == b[i])
    ensures len - i == 2 ==> (a[..len] == b[..len] <==> a[i] == b[i] && a[i + 1] == b[i + 1])
    ensures len - i == 3 ==> (a[..len] == b[..len] <==> a[i] == b[i] && a[i + 1] == b[i + 1] && a[i + 2] == b[i + 2])
    ensures a[i] != b[i] ==> a[..len] != b[..len]
    ensures i + 1 < len && a[i + 1] != b[i + 1] ==> a[..len] != b[..len]
    ensures i + 2 < len && a[i + 2] != b[i + 2] ==> a[..len] != b[..len]
    ensures i + 3 < len && a[i + 3] != b[i + 3] ==> a[..len] != b[..len]
    ensures a[i..i + 4] == b[i..i + 4] <==>
              a[i] == b[i] && a[i + 1] == b[i + 1] && a[i + 2] == b[i + 2] && a[i + 3] == b[i + 3]
    ensures a[i..i + 4] == b[i..i + 4] && i + 4 <= len ==> a[..i + 4] == b[..i + 4]
    ensures a[i..i + 4] == b[i..i + 4] && i + 4 >= len ==> a[..len] == b[..len]
  {
    FourBytes(a, b, i);
    OneMore(a, b, i);
    OneMore(a, b, i + 1);
    OneMore(a, b, i + 2);
    OneMore(a, b, i + 3);
    Shorter(a, b, i + 1, len);
    Shorter(a, b, i + 2, len);
    Shorter(a, b, i + 3, len);
    Shorter(a, b, i + 4, len);
  }

  lemma FourBytes(a: seq<Byte>, b: seq<Byte>, i: nat)
    requires i + 4 <= |a| && i + 4 <= |b|
    ensures a[i..i + 4] == b[i..i + 4] <==>
              a[i] == b[i] && a[i + 1] == b[i + 1] && a[i + 2] == b[i + 2] && a[i + 3] == b[i + 3]
  {
    assert a[i..i + 4] == [a[i], a[i + 1], a[i + 2], a[i + 3]];
    assert b[i..i + 4] == [b[i], b[i + 1], b[i + 2], b[i + 3]];
  }

  lemma OneMore(a: seq<Byte>, b: seq<Byte>, i: nat)
    requires i < |a| && i < |b|
    ensures a[..i + 1] == b[..i + 1] <==> a[..i] == b[..i] && a[i] == b[i]
  {
    assert a[..i + 1] == a[..i] + [a[i]];
    assert b[..i + 1] == b[..i] + [b[i]];
  }

  /** The shorter of two prefixes is equal if the longer one is. */
  lemma Shorter(a: seq<Byte>, b: seq<Byte>, m: nat, n: nat)
    requires m <= |a| && m <= |b| && n <= |a| && n <= |b|
    ensures m <= n && a[..n] == b[..n] ==> a[..m] == b[..m]
    ensures n <= m && a[..m] == b[..m] ==> a[..n] == b[..n]
  {
    if m <= n {
      assert a[..m] == a[..n][..m] && b[..m] == b[..n][..m];
    } else {
      assert a[..n] == a[..m][..n] && b[..n] == b[..m][..n];
    }
  }

  // -- The string table ---------------------------------------------------------------------------

  /** A string object, with what happens to follow it in memory. */
  datatype StrObj = StrObj(data: seq<Byte>, after: seq<Byte>, next: Option<nat>)

  /** A string in memory: len bytes and whatever is behind them. */
  datatype Source = Source(mem: seq<Byte>, len: nat, nearPageEnd: bool) {
    predicate Ok() {
      len <= |mem| && (nearPageEnd || Reads(len) <= |mem|)
    }

    function Data(): seq<Byte> {
      if len <= |mem| then mem[..len] else mem
    }
  }

  type Hash = seq<Byte> -> nat

  function Bucket(hash: Hash, size: nat, data: seq<Byte>): (h: nat)
    requires size > 0
    ensures h < size
  {
    hash(data) % size
  }

  ghost predicate InBucket(hash: Hash, size: nat, objs: seq<StrObj>, i: int, h: nat)
    requires size > 0
  {
    0 <= i < |objs| && Bucket(hash, size, objs[i].data) == h
  }

  /** p is the newest object of bucket h below n. */
  ghost predicate Newest(hash: Hash, size: nat, objs: seq<StrObj>, p: Option<nat>, h: nat, n: nat)
    requires size > 0
  {
    match p
    case None => forall k :: 0 <= k < n ==> !InBucket(hash, size, objs, k, h)
    case Some(i) => i < n && InBucket(hash, size, objs, i, h) && forall k :: i < k < n ==>
        !InBucket(hash, size, objs, k, h)
  }

  /** Chains go from newer to older objects of their bucket and miss none;
      no two objects have the same bytes, if these are any. */
  ghost predicate TabOk(hash: Hash, heads: seq<Option<nat>>, objs: seq<StrObj>) {
    && |heads| > 0
    && (forall h :: 0 <= h < |heads| ==> Newest(hash, |heads|, objs, heads[h], h, |objs|))
    && (forall i :: 0 <= i < |objs| ==> Newest(hash, |heads|, objs, objs[i].next, Bucket(hash, |heads|, objs[i].data),
        i))
    && (forall i :: 0 <= i < |objs| ==> |objs[i].after| >= 4)
    && (forall i, j :: 0 <= i < j < |objs| && objs[i].data == objs[j].data ==> objs[i].data == [])
  }

  lemma NewestKept(hash: Hash, size: nat, objs: seq<StrObj>, o: StrObj, p: Option<nat>, h: nat, n: nat)
    requires size > 0 && n <= |objs| && Newest(hash, size, objs, p, h, n)
    ensures Newest(hash, size, objs + [o], p, h, n)
  {
    hide Bucket;
    forall k: int, g: nat | k < |objs|
      ensures InBucket(hash, size, objs + [o], k, g) <==> InBucket(hash, size, objs, k, g)
    {
    }
  }

  /** A new object in front of its chain. */
  lemma LinkOk(hash: Hash, heads: seq<Option<nat>>, objs: seq<StrObj>, o: StrObj, h: nat)
    requires TabOk(hash, heads, objs) && |o.after| >= 4
    requires h == Bucket(hash, |heads|, o.data) && o.next == heads[h]
    requires forall i :: 0 <= i < |objs| && objs[i].data == o.data ==> o.data == []
    ensures TabOk(hash, heads[h := Some(|objs|)], objs + [o])
  {
    hide Bucket, Newest;
    var n, heads', objs' := |objs|, heads[h := Some(|objs|)], objs + [o];
    forall g | 0 <= g < |heads'|
      ensures Newest(hash, |heads'|, objs', heads'[g], g, n + 1)
    {
      if g == h { NewestSelf(hash, |heads|, objs, o, h); } else {
        NewestKept(hash, |heads|, objs, o, heads[g], g, n);
        NewestMore(hash, |heads|, objs, o, heads[g], g);
      }
    }
    forall i | 0 <= i < |objs'|
      ensures Newest(hash, |heads'|, objs', objs'[i].next, Bucket(hash, |heads'|, objs'[i].data), i)
    {
      NewestKept(hash, |heads|, objs, o, objs'[i].next, Bucket(hash, |heads|, objs'[i].data), i);
    }
  }

  lemma NewestSelf(hash: Hash, size: nat, objs: seq<StrObj>, o: StrObj, h: nat)
    requires size > 0 && Bucket(hash, size, o.data) == h
    ensures Newest(hash, size, objs + [o], Some(|objs|), h, |objs| + 1)
  {
    hide Bucket;
  }

  lemma NewestMore(hash: Hash, size: nat, objs: seq<StrObj>, o: StrObj, p: Option<nat>, g: nat)
    requires size > 0 && Newest(hash, size, objs + [o], p, g, |objs|) && Bucket(hash, size, o.data) != g
    ensures Newest(hash, size, objs + [o], p, g, |objs| + 1)
  {
    hide Bucket;
    assert !InBucket(hash, size, objs + [o], |objs|, g);
  }

  lemma NotBetween(hash: Hash, size: nat, objs: seq<StrObj>, o: Option<nat>, n: nat, d: seq<Byte>)
    requires size > 0 && n <= |objs| && Newest(hash, size, objs, o, Bucket(hash, size, d), n)
    ensures forall i :: (if o.Some? then o.value + 1 else 0) <= i < n ==> objs[i].data != d
    ensures o.Some? ==> o.value < |objs|
  {
    hide Bucket;
    forall i | (if o.Some? then o.value + 1 else 0) <= i < n
      ensures objs[i].data != d
    {
      assert !InBucket(hash, size, objs, i, Bucket(hash, size, d));
    }
  }

  lemma ChainNext(hash: Hash, heads: seq<Option<nat>>, objs: seq<StrObj>, i: nat, h: nat, n: nat)
    requires TabOk(hash, heads, objs) && Newest(hash, |heads|, objs, Some(i), h, n)
    ensures i < |objs| && i < n && Newest(hash, |heads|, objs, objs[i].next, h, i) && |objs[i].after| >= 4
  {
    hide Bucket;
    assert InBucket(hash, |heads|, objs, i, h);
  }

  /** The comparison of kp_str_new takes o for the string. */
  predicate Matches(wide: WideShift, src: Source, o: StrObj)
    requires src.Ok() && |o.after| >= 4
  {
    && o.data == src.Data()
    && (src.len > 0 || src.nearPageEnd || Alike(wide, src.mem, o.after))
  }

  /** No two objects have the same bytes. */
  ghost predicate Canonical(objs: seq<StrObj>) {
    forall i, j :: 0 <= i < j < |objs| ==> objs[i].data != objs[j].data
  }

  /** A request that never makes a second object for its bytes. */
  ghost predicate Careful(wide: WideShift, src: Source) {
    src.len > 0 || src.nearPageEnd || forall v :: wide(v) == 0
  }

  class StrTab {
    const hash: Hash
    const wide: WideShift
    var heads: seq<Option<nat>>  // chains by bucket
    var objs: seq<StrObj>        // all objects ever made
    var strnum: nat

    ghost predicate Valid()
      reads this
    {
      TabOk(hash, heads, objs)
    }

    /** An empty table with that many buckets. */
    constructor (hash: Hash, wide: WideShift, size: nat)
      requires size > 0
      ensures Valid() && objs == [] && strnum == 0 && |heads| == size && this.hash == hash && this.wide == wide
    {
      this.hash, this.wide := hash, wide;
      heads, objs, strnum := seq(size, _ => None), [], 0;
    }

    ghost predicate Has(d: seq<Byte>)
      reads this`objs
    {
      exists i :: 0 <= i < |objs| && objs[i].data == d
    }

    /** Some object is taken for the string. */
    ghost predicate Found(src: Source)
      requires Valid() && src.Ok()
      reads this
    {
      exists i :: 0 <= i < |objs| && Matches(wide, src, objs[i])
    }

    /** One comparison of kp_str_new. */
    method Same(src: Source, o: nat) returns (same: bool)
      requires src.Ok() && o < |objs| && |objs[o].after| >= 4
      ensures same <==> Matches(wide, src, objs[o])
    {
      hide Diff;
      if |objs[o].data| != src.len { return false; }
      if src.nearPageEnd { return src.Data() == objs[o].data; }  // memcmp
      var other := objs[o].data + objs[o].after;
      assert other[..src.len] == objs[o].data;
      assert src.len == 0 ==> other == objs[o].after;
      var r := FastCmp(wide, src.mem, other, src.len);
      return r == 0;
    }

    /** The first object of the chain that is taken for the string. */
    method Find(src: Source) returns (r: Option<nat>)
      requires Valid() && src.Ok()
      ensures r.Some? ==> r.value < |objs| && Matches(wide, src, objs[r.value])
      ensures r.None? ==> forall i :: 0 <= i < |objs| ==> !Matches(wide, src, objs[i])
    {
      hide Bucket, Newest, TabOk, Alike;
      TabSize(hash, heads, objs);
      var h: nat := Bucket(hash, |heads|, src.Data());
      var o: Option<nat> := heads[h];
      ghost var n: nat := |objs|;
      while o.Some?
        invariant n <= |objs| && Newest(hash, |heads|, objs, o, h, n)
        invariant forall i :: n <= i < |objs| ==> !Matches(wide, src, objs[i])
        decreases n
      {
        ChainNext(hash, heads, objs, o.value, h, n);
        var same := Same(src, o.value);
        if same { return o; }
        NotBetween(hash, |heads|, objs, o, n, src.Data());
        n := o.value;
        o := objs[o.value].next;
      }
      NotBetween(hash, |heads|, objs, o, n, src.Data());
      return None;
    }

    /** kp_str_new: the object for a string, a new one if none is taken for it. `room`
        tells whether memory can be had; `after` is what follows the new object in
        memory. The count is checked when the object is in the table already. The last
        clause says exactly when the table gets two objects with the same bytes. */
    method StrNew(src: Source, room: bool, after: seq<Byte>) returns (r: Option<nat>)
      requires Valid() && src.Ok() && |after| >= 4
      modifies this
      ensures Valid() && old(objs) <= objs && |heads| == |old(heads)|
      ensures r.Some? ==> r.value < |objs| && objs[r.value].data == src.Data()
      ensures r.Some? ==> if old(Found(src)) then r.value < |old(objs)| else r.value == |old(objs)|
      ensures r.None? <==> src.len >= 512 || (!old(Found(src)) && (!room || old(strnum) > 9999))
      ensures src.len >= 512 || old(Found(src)) || !room ==> objs == old(objs)
      ensures src.len < 512 && !old(Found(src)) && room ==>
                |objs| == |old(objs)| + 1 && objs[|objs| - 1].data == src.Data()
      ensures src.len < 512 && !old(Found(src)) && room ==> objs[|objs| - 1].after == after
      ensures strnum == old(strnum) + if src.len < 512 && !old(Found(src)) && room then 1 else 0
      ensures old(Canonical(objs)) ==>
                (Canonical(objs) <==> !(src.len == 0 && room && old(Has([])) && !old(Found(src))))
    {
      hide Bucket, TabOk, Alike, Canonical;
      TabSize(hash, heads, objs);
      if src.len >= MAX_STR { return None; }
      r := Find(src);
      if r.Some? { return; }
      if !room { return None; }
      var h := Bucket(hash, |heads|, src.Data());
      var o := StrObj(src.Data(), after, heads[h]);
      LinkOk(hash, heads, objs, o, h);
      OneMoreObject(objs, o);
      heads, objs := heads[h := Some(|objs|)], objs + [o];
      r := Some(|objs| - 1);
      if strnum > MAX_STRNUM { r := None; }
      strnum := strnum + 1;
    }
  }

  lemma OneMoreObject(objs: seq<StrObj>, o: StrObj)
    ensures Canonical(objs + [o]) <==> Canonical(objs) && forall i :: 0 <= i < |objs| ==> objs[i].data != o.data
  {
    var more := objs + [o];
    if Canonical(more) {
      forall i, j | 0 <= i < j < |objs|
        ensures objs[i].data != objs[j].data
      {
        assert more[i].data != more[j].data;
      }
      forall i | 0 <= i < |objs|
        ensures objs[i].data != o.data
      {
        assert more[i].data != more[|objs|].data;
      }
    }
  }

  lemma TabSize(hash: Hash, heads: seq<Option<nat>>, objs: seq<StrObj>)
    requires TabOk(hash, heads, objs)
    ensures |heads| > 0 && forall h :: 0 <= h < |heads| ==> Newest(hash, |heads|, objs, heads[h], h, |objs|)
    ensures forall i :: 0 <= i < |objs| ==> |objs[i].after| >= 4
  {
  }

  /** Over any run of requests, results that are the same object stand for the same
      bytes, and strings that are not empty get one object each. The empty string does
      too if no request for it is at the mercy of the bytes behind it. */
  method InternAll(t: StrTab, srcs: seq<Source>, rooms: seq<bool>, afters: seq<seq<Byte>>)
                   returns (rs: seq<Option<nat>>)
    requires t.Valid() && |rooms| == |afters| == |srcs|
    requires forall i :: 0 <= i < |srcs| ==> srcs[i].Ok() && |afters[i]| >= 4
    modifies t
    ensures t.Valid() && |rs| == |srcs| && old(t.objs) <= t.objs
    ensures Stand(t.objs, srcs, rs)
    ensures forall i, j ::
              0 <= i < j < |rs| && rs[i].Some? && rs[j].Some? && (srcs[i].Data() != [] || Canonical(t.objs)) ==>
                (rs[i] == rs[j] <==> srcs[i].Data() == srcs[j].Data())
    ensures old(Canonical(t.objs)) && (forall i :: 0 <= i < |srcs| ==> Careful(t.wide, srcs[i])) ==> Canonical(t.objs)
  {
    hide Matches, Careful, Canonical, TabOk, Stand;
    rs := [];
    StandNone(t.objs, srcs);
    for k := 0 to |srcs|
      invariant t.Valid() && |rs| == k && old(t.objs) <= t.objs && Stand(t.objs, srcs, rs)
      invariant old(Canonical(t.objs)) && (forall i :: 0 <= i < |srcs| ==> Careful(t.wide, srcs[i])) ==>
                  Canonical(t.objs)
    {
      CarefulFinds(t, srcs[k]);
      ghost var was := t.objs;
      var r := t.StrNew(srcs[k], rooms[k], afters[k]);
      StandMore(was, t.objs, srcs, rs, r);
      rs := rs + [r];
    }
    OneEach(t.hash, t.heads, t.objs, srcs, rs);
  }

  /** Every result is an object with the bytes of its request. */
  ghost predicate Stand(objs: seq<StrObj>, srcs: seq<Source>, rs: seq<Option<nat>>) {
    |rs| <= |srcs| && forall i :: 0 <= i < |rs| && rs[i].Some? ==>
        rs[i].value < |objs| && objs[rs[i].value].data == srcs[i].Data()
  }

  lemma StandNone(objs: seq<StrObj>, srcs: seq<Source>)
    ensures Stand(objs, srcs, [])
  {
  }

  lemma StandMore(was: seq<StrObj>, objs: seq<StrObj>, srcs: seq<Source>, rs: seq<Option<nat>>, r: Option<nat>)
    requires was <= objs && Stand(was, srcs, rs) && |rs| < |srcs|
    requires r.Some? ==> r.value < |objs| && objs[r.value].data == srcs[|rs|].Data()
    ensures Stand(objs, srcs, rs + [r])
  {
  }

  lemma CarefulFinds(t: StrTab, src: Source)
    requires t.Valid() && src.Ok()
    ensures Careful(t.wide, src) && src.len == 0 && t.Has([]) ==> t.Found(src)
  {
    hide Diff, Newest, Bucket;
    if Careful(t.wide, src) && src.len == 0 && t.Has([]) {
      var i :| 0 <= i < |t.objs| && t.objs[i].data == [];
      assert Matches(t.wide, src, t.objs[i]);
    }
  }

  lemma OneEach(hash: Hash, heads: seq<Option<nat>>, objs: seq<StrObj>, srcs: seq<Source>, rs: seq<Option<nat>>)
    requires TabOk(hash, heads, objs) && Stand(objs, srcs, rs)
    ensures forall i, j ::
              0 <= i < j < |rs| && rs[i].Some? && rs[j].Some? && (srcs[i].Data() != [] || Canonical(objs)) ==>
                (rs[i] == rs[j] <==> srcs[i].Data() == srcs[j].Data())
  {
    hide TabOk, Canonical;
    forall i, j | 0 <= i < j < |rs| && rs[i].Some? && rs[j].Some? && (srcs[i].Data() != [] || Canonical(objs))
      ensures rs[i] == rs[j] <==> srcs[i].Data() == srcs[j].Data()
    {
      OneObject(hash, heads, objs, rs[i].value, rs[j].value);
    }
  }

  lemma OneObject(hash: Hash, heads: seq<Option<nat>>, objs: seq<StrObj>, i: nat, j: nat)
    requires TabOk(hash, heads, objs) && i < |objs| && j < |objs| && (objs[i].data != [] || Canonical(objs))
    ensures objs[i].data == objs[j].data ==> i == j
  {
    hide Newest, Bucket;
  }

  /** Two requests for the empty string that get two objects: other bytes follow, and
      the machine does not clear a word that is shifted by its width. */
  method EmptyTwice(hash: Hash) returns (t: StrTab, r1: Option<nat>, r2: Option<nat>)
    ensures t.Valid() && r1.Some? && r2.Some? && r1 != r2 && !Canonical(t.objs)
    ensures r1.value < |t.objs| && r2.value < |t.objs| && t.objs[r1.value].data == [] == t.objs[r2.value].data
  {
    hide TabOk, Diff, Rest;
    t := new StrTab(hash, v => v, 1);
    var s1, s2 := Source([0, 0, 0, 0], 0, false), Source([0, 1, 0, 0], 0, false);
    r1 := t.StrNew(s1, true, [0, 0, 0, 0]);
    assert s2.mem[..4][1] != s1.mem[..4][1];
    FirstWord(t.wide, s2.mem, s1.mem);
    assert !Alike(t.wide, s2.mem, s1.mem);
    r2 := t.StrNew(s2, true, [0, 0, 0, 0]);
  }
}
