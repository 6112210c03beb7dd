// Java's fixed-width integer arithmetic, written out over Dafny's unbounded `int`.

module JavaNum {

  const TWO_32: int := 0x1_0000_0000
  const TWO_64: int := 0x1_0000_0000_0000_0000

  /** The values of a Java `int`. */
  type Int32 = x: int | -0x8000_0000 <= x < 0x8000_0000

  /** The values of a Java `long`. */
  type Int64 = x: int | -0x8000_0000_0000_0000 <= x < 0x8000_0000_0000_0000

  /** An exact result narrowed to a Java `int`: two's-complement wrap-around. */
  function Wrap32(x: int): (r: Int32)
    ensures (r - x) % TWO_32 == 0
    ensures -0x8000_0000 <= x < 0x8000_0000 ==> r == x
  {
    var m := x % TWO_32;
    if m < 0x8000_0000 then m else m - TWO_32
  }

  /** An exact result narrowed to a Java `long`: two's-complement wrap-around. */
  function Wrap64(x: int): (r: Int64)
    ensures (r - x) % TWO_64 == 0
    ensures -0x8000_0000_0000_0000 <= x < 0x8000_0000_0000_0000 ==> r == x
  {
    var m := x % TWO_64;
    if m < 0x8000_0000_0000_0000 then m else m - TWO_64
  }

  /** Java's `/`, which rounds toward zero (Dafny's `/` is Euclidean). */
  function TruncDiv(a: int, b: int): (q: int)
    requires b > 0
    ensures a >= 0 ==> 0 <= a - q * b < b
    ensures a < 0 ==> -b < a - q * b <= 0
  {
    if a >= 0 then a / b else -((-a) / b)
  }

  /** Java's `%`, whose result takes the sign of the dividend. */
  function TruncRem(a: int, b: int): (r: int)
    requires b > 0
    ensures r == a - b * TruncDiv(a, b)
    ensures a >= 0 ==> 0 <= r < b
    ensures a < 0 ==> -b < r <= 0
  {
    a - b * TruncDiv(a, b)
  }

  /** Java's `Math.abs` on values other than `Integer.MIN_VALUE`. */
  function Abs(x: int): (r: nat)
    ensures r == x || r == -x
  {
    if x < 0 then -x else x
  }

  /** Two longs that agree modulo 2^64 are the same long. */
  lemma Wrap64Unique(x: int, y: Int64)
    requires (y - x) % TWO_64 == 0
    ensures Wrap64(x) == y
  {
  }

  /** Shifting an instant by `d` and then by `-d` restores it, even across wrap-around. */
  lemma {:induction false} Wrap64AddSub(a: Int64, d: Int64)
    ensures Wrap64(Wrap64(a + d) - d) == a
  {
    var s := Wrap64(a + d);
    assert (s - (a + d)) % TWO_64 == 0;
    assert ((s - d) - a) % TWO_64 == 0;
    Wrap64Unique(s - d, a);
  }

  /** Shifting an instant by `-d` and then by `d` restores it, even across wrap-around. */
  lemma {:induction false} Wrap64SubAdd(a: Int64, d: Int64)
    ensures Wrap64(Wrap64(a - d) + d) == a
  {
    var s := Wrap64(a - d);
    assert (s - (a - d)) % TWO_64 == 0;
    assert ((s + d) - a) % TWO_64 == 0;
    Wrap64Unique(s + d, a);
  }

  /** Adding the wrapped difference `b - a` to `a` gives `b`, even across wrap-around. */
  lemma {:induction false} Wrap64AddDifference(a: Int64, b: Int64)
    ensures Wrap64(a + Wrap64(b - a)) == b
  {
    var d := Wrap64(b - a);
    assert (d - (b - a)) % TWO_64 == 0;
    assert ((a + d) - b) % TWO_64 == 0;
    Wrap64Unique(a + d, b);
  }

  /** The 64 bits of a long in two's complement. */
  function LongBits(x: Int64): bv64
  {
    (x % TWO_64) as bv64
  }

  /**
   * XOR of a word with its arithmetic (sign-extending) right shift by 32,
   * seen through the low 32 bits, is the XOR of its two halves.
   */
  lemma FoldHalves(w: bv64)
    ensures (w ^ (if w >= 0x8000_0000_0000_0000 then (w >> 32) | 0xFFFF_FFFF_0000_0000 else w >> 32)) & 0xFFFF_FFFF
            == (w & 0xFFFF_FFFF) ^ (w >> 32)
  {
  }

  /**
   * Java's `(int)(x ^ (x >> 32))` for a long `x`: the `>>` copies the sign
   * bit into the upper half and the cast keeps the low 32 bits; the result is
   * the XOR of the low and the high word of `x`, read as a signed int.
   */
  function LongHash(x: Int64): (h: Int32)
    ensures h == Wrap32(((LongBits(x) & 0xFFFF_FFFF) ^ (LongBits(x) >> 32)) as int)
  {
    var w := LongBits(x);
    var shifted := if w >= 0x8000_0000_0000_0000 then (w >> 32) | 0xFFFF_FFFF_0000_0000 else w >> 32;
    FoldHalves(w);
    Wrap32(((w ^ shifted) & 0xFFFF_FFFF) as int)
  }
}
