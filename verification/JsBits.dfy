// The 32-bit integer operators of ECMA-262 that the web client's codec relies on
// (sections 6.1.6.1.9 to 6.1.6.1.11: leftShift, signedRightShift,
// unsignedRightShift; 6.1.6.1.17 bitwiseAND; 6.1.6.1.19 bitwiseOR), on
// mathematical integers.

module JsBits {
  import opened Arith

  const TWO_31 := 0x8000_0000
  const TWO_32 := 0x1_0000_0000

  /** One octet of a buffer. */
  type Byte = b: int | 0 <= b < 256

  function Pow2(k: nat): (r: nat)
    ensures r >= 1
  {
    if k == 0 then 1 else 2 * Pow2(k - 1)
  }

  function ToUint32(x: int): (r: nat)
    ensures r < TWO_32
  {
    x % TWO_32
  }

  function ToInt32(x: int): (r: int)
    ensures -TWO_31 <= r < TWO_31
    ensures ToUint32(r) == ToUint32(x)
  {
    if x % TWO_32 >= TWO_31 then x % TWO_32 - TWO_32 else x % TWO_32
  }

  /** Bit-by-bit conjunction and disjunction of two bit patterns. */
  function BitAnd(a: nat, b: nat): (r: nat)
    ensures r <= a && r <= b
  {
    if a == 0 || b == 0 then 0
    else (if a % 2 == 1 && b % 2 == 1 then 1 else 0) + 2 * BitAnd(a / 2, b / 2)
  }

  function BitOr(a: nat, b: nat): nat
  {
    if a == 0 then b else if b == 0 then a
    else (if a % 2 == 1 || b % 2 == 1 then 1 else 0) + 2 * BitOr(a / 2, b / 2)
  }

  function And(x: int, y: int): int {
    ToInt32(BitAnd(ToUint32(x), ToUint32(y)))
  }

  function Or(x: int, y: int): (r: int)
    ensures -TWO_31 <= r < TWO_31
  {
    ToInt32(BitOr(ToUint32(x), ToUint32(y)))
  }

  function Shl(x: int, n: nat): int {
    ToInt32(ToUint32(x) * Pow2(n % 32))
  }

  /** `>>`: the Euclidean quotient by a positive divisor is the floor. */
  function Sar(x: int, n: nat): int {
    ToInt32(x) / Pow2(n % 32)
  }

  /** `>>>` */
  function Ushr(x: int, n: nat): int {
    ToUint32(x) / Pow2(n % 32)
  }

  /** The remainder modulo 2p, from the parity and the remainder of the half modulo p. */
  lemma HalfMod(a: nat, p: nat)
    requires p > 0
    ensures a % (2 * p) == 2 * ((a / 2) % p) + a % 2
  {
    var q, r := (a / 2) / p, (a / 2) % p;
    assert a / 2 == q * p + r;
    assert q * (2 * p) == 2 * (q * p);
    DivModUnique(a, 2 * p, q, 2 * r + a % 2);
  }

  /** Masking with k ones keeps the remainder modulo 2^k. */
  lemma {:induction false} MaskIsMod(a: nat, k: nat)
    ensures BitAnd(a, Pow2(k) - 1) == a % Pow2(k)
  {
    if k > 0 {
      var p := Pow2(k - 1);
      MaskIsMod(a / 2, k - 1);
      MaskHalf(a, p);
      hide BitAnd;
      HalfMod(a, p);
    }
  }

  lemma MaskHalf(a: nat, p: nat)
    requires p > 0
    ensures BitAnd(a, 2 * p - 1) == 2 * BitAnd(a / 2, p - 1) + a % 2
  {
    assert (2 * p - 1) / 2 == p - 1 && (2 * p - 1) % 2 == 1;
  }

  /** Or-ing a pattern below 2^k with a multiple of 2^k adds them. */
  lemma {:induction false} DisjointOrIsSum(a: nat, b: nat, k: nat)
    requires a < Pow2(k)
    ensures BitOr(a, b * Pow2(k)) == a + b * Pow2(k)
  {
    if k > 0 && a > 0 && b > 0 {
      var p := Pow2(k - 1);
      assert b * Pow2(k) == 2 * (b * p);
      DisjointOrIsSum(a / 2, b, k - 1);
      assert b * p > 0;
    }
  }

  /** Isolating the top bit of a pattern of k+1 bits. */
  lemma {:induction false} TopBit(b: nat, k: nat)
    requires b < 2 * Pow2(k)
    ensures BitAnd(b, Pow2(k)) == if b < Pow2(k) then 0 else Pow2(k)
  {
    if k > 0 && b > 0 {
      TopBit(b / 2, k - 1);
      assert Pow2(k) / 2 == Pow2(k - 1) && Pow2(k) % 2 == 0;
    }
  }

  lemma ModOfMod32(x: int, d: int, e: int)
    requires d > 0 && e > 0 && d * e == TWO_32
    ensures x % TWO_32 % d == x % d
  {
    var q, r := x / TWO_32, x % TWO_32;
    assert x == q * TWO_32 + r;
    assert q * TWO_32 == (q * e) * d;
    assert (q * e + r / d) * d == (q * e) * d + (r / d) * d;
    DivModUnique(x, d, q * e + r / d, r % d);
  }

  /** The masks the codec uses, on every Number. */
  lemma And127(x: int)
    ensures And(x, 0x7F) == x % 128
  {
    hide BitAnd;
    ModOfMod32(x, 128, 0x200_0000);
    MaskIsMod(ToUint32(x), 7);
  }

  lemma And7(x: int)
    ensures And(x, 7) == x % 8
  {
    hide BitAnd;
    ModOfMod32(x, 8, 0x2000_0000);
    MaskIsMod(ToUint32(x), 3);
  }

  lemma OrOfBits(x: int, y: int, z: nat)
    requires BitOr(ToUint32(x), ToUint32(y)) == z
    ensures Or(x, y) == ToInt32(z)
  {
    hide BitOr;
  }

  lemma Or128(g: nat)
    requires g < 128
    ensures Or(g, 0x80) == 128 + g
  {
    hide BitOr;
    DisjointOrIsSum(g, 1, 7);
  }

  lemma And128(b: Byte)
    ensures And(b, 0x80) == if b < 128 then 0 else 128
  {
    hide BitAnd;
    TopBit(b, 7);
  }
}
