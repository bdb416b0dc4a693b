/** The values a ktap stack slot can hold, as far as expressions look into them. */
module Values {

  /** Strings are interned, so equality of `Str` values is pointer equality;
      `Obj` stands for tables, functions and the other reference types. */
  datatype Val = Nil | False | True | Num(n: int) | Str(s: string) | Obj(id: nat)

  /** Only nil and false are false. */
  predicate Truthy(v: Val) {
    v != Nil && v != False
  }

  function Bool(b: bool): Val {
    if b then True else False
  }

  const TWO32: nat := 0x1_0000_0000

  /** Limits of the array and the hash part of a table. */
  const MAX_ASIZE: nat := 0x800_0001
  const MAX_HSIZE: nat := 0x400_0000

  const TWO63: int := 0x8000_0000_0000_0000

  /** Two's complement value of a 64-bit `long`. */
  function Wrap64(x: int): int {
    (x + TWO63) % (2 * TWO63) - TWO63
  }

  /** s is n as a signed 64-bit number: n itself where it fits, and otherwise off
      by a multiple of 2^64. */
  predicate Fits64(s: int, n: int) {
    && -0x8000_0000_0000_0000 <= s < 0x8000_0000_0000_0000
    && (s - n) % 0x1_0000_0000_0000_0000 == 0
    && (-0x8000_0000_0000_0000 <= n < 0x8000_0000_0000_0000 ==> s == n)
  }

  /** There is one such number only. */
  lemma Fits64Unique(s: int, t: int, n: int)
    requires Fits64(s, n) && Fits64(t, n)
    ensures s == t
  {
    var T := 0x1_0000_0000_0000_0000;
    var k, l := (s - n) / T, (t - n) / T;
    assert s - n == T * k && t - n == T * l;
    assert s - t == T * (k - l);
  }

  /** Only the low 64 bits matter. */
  lemma Fits64Low(s: int, p: int, q: int)
    requires Fits64(s, p) && (p - q) % 0x1_0000_0000_0000_0000 == 0
    ensures Fits64(s, q)
  {
    var T := 0x1_0000_0000_0000_0000;
    var k, l := (s - p) / T, (p - q) / T;
    assert s - p == T * k && p - q == T * l;
    assert s - q == T * (k + l);
    assert (T * (k + l)) % T == 0;
  }

  lemma WrapFits(n: int)
    ensures Fits64(Wrap64(n), n)
  {
    var T := 0x1_0000_0000_0000_0000;
    assert TWO63 == 0x8000_0000_0000_0000 && 2 * TWO63 == T;
    var k := (n + TWO63) / T;
    assert n + TWO63 == T * k + (n + TWO63) % T;
    assert Wrap64(n) - n == T * (-k);
    assert (T * (-k)) % T == 0;
  }

  datatype Option<+T> = None | Some(value: T) {
    predicate IsFailure() { None? }
    function PropagateFailure<U>(): Option<U> requires None? { None }
    function Extract(): T requires Some? { value }
  }
}
