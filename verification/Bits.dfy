/**
 Go's shift, mask, OR and XOR operators on unsigned integers, as functions of
 naturals.  `Bit(x, k)` is bit k of x, bit 0 being the least significant; every
 operator is characterised by the bits of its result, and `SameBits` turns equal
 bits back into equal numbers.
 */
module Bits {

  type Byte = b: int | 0 <= b < 256

  /** `uint16(hi)<<8 | uint16(lo)` */
  function BE16(hi: Byte, lo: Byte): (n: int)
    ensures 0 <= n < 0x1_0000 && n / 256 == hi && n % 256 == lo
  {
    (hi as int) * 256 + lo as int
  }

  function ZeroOctets(n: nat): (z: seq<Byte>)
    ensures |z| == n
  {
    seq(n, i => 0)
  }

  function Pow2(n: nat): (p: nat)
    ensures p >= 1
  {
    if n == 0 then 1 else 2 * Pow2(n - 1)
  }

  predicate Bit(x: nat, k: nat) {
    if k == 0 then x % 2 == 1 else Bit(x / 2, k - 1)
  }

  /** x << n, before any truncation to a machine width */
  function Shl(x: nat, n: nat): nat
    decreases n
  {
    if n == 0 then x else Shl(2 * x, n - 1)
  }

  /** x >> n */
  function Shr(x: nat, n: nat): (r: nat)
    ensures r <= x
  {
    if n == 0 then x else Shr(x / 2, n - 1)
  }

  /** The n low bits of x: truncation to n bits, or `x & (1<<n - 1)` */
  function Low(x: nat, n: nat): (r: nat)
    ensures r < Pow2(n)
  {
    if n == 0 then 0 else x % 2 + 2 * Low(x / 2, n - 1)
  }

  function Or(x: nat, y: nat): nat {
    if x == 0 && y == 0 then 0
    else (if x % 2 == 1 || y % 2 == 1 then 1 else 0) + 2 * Or(x / 2, y / 2)
  }

  function Xor(x: nat, y: nat): nat {
    if x == 0 && y == 0 then 0
    else (if x % 2 != y % 2 then 1 else 0) + 2 * Xor(x / 2, y / 2)
  }

  lemma {:induction false} BitZero(k: nat)
    ensures !Bit(0, k)
  {
    if k > 0 { BitZero(k - 1); }
  }

  lemma {:induction false} BitShl(x: nat, n: nat, k: nat)
    ensures Bit(Shl(x, n), k) == (k >= n && Bit(x, k - n))
    decreases n
  {
    if n > 0 {
      BitShl(2 * x, n - 1, k);
      if k >= n {
        assert Bit(2 * x, k - n + 1) == Bit(2 * x / 2, k - n);
      }
    }
  }

  lemma {:induction false} BitShr(x: nat, n: nat, k: nat)
    ensures Bit(Shr(x, n), k) == Bit(x, k + n)
    decreases n
  {
    if n > 0 { BitShr(x / 2, n - 1, k); }
  }

  lemma {:induction false} BitLow(x: nat, n: nat, k: nat)
    ensures Bit(Low(x, n), k) == (k < n && Bit(x, k))
    decreases n
  {
    if n == 0 {
      BitZero(k);
    } else if k > 0 {
      BitLow(x / 2, n - 1, k - 1);
    }
  }

  lemma OrStep(x: nat, y: nat)
    requires x != 0 || y != 0
    ensures Or(x, y) / 2 == Or(x / 2, y / 2)
    ensures Or(x, y) % 2 == 1 <==> x % 2 == 1 || y % 2 == 1
  {
  }

  lemma XorStep(x: nat, y: nat)
    requires x != 0 || y != 0
    ensures Xor(x, y) / 2 == Xor(x / 2, y / 2)
    ensures Xor(x, y) % 2 == 1 <==> x % 2 != y % 2
  {
  }

  lemma {:induction false} BitOr(x: nat, y: nat, k: nat)
    ensures Bit(Or(x, y), k) == (Bit(x, k) || Bit(y, k))
    decreases k
  {
    if x == 0 && y == 0 {
      BitZero(k);
    } else {
      hide Or;
      OrStep(x, y);
      if k > 0 { BitOr(x / 2, y / 2, k - 1); }
    }
  }

  lemma {:induction false} BitXor(x: nat, y: nat, k: nat)
    ensures Bit(Xor(x, y), k) == (Bit(x, k) != Bit(y, k))
    decreases k
  {
    if x == 0 && y == 0 {
      BitZero(k);
    } else {
      hide Xor;
      XorStep(x, y);
      if k > 0 { BitXor(x / 2, y / 2, k - 1); }
    }
  }

  /** Numbers with equal bits are equal. */
  lemma {:induction false} SameBits(x: nat, y: nat)
    requires forall k: nat :: Bit(x, k) == Bit(y, k)
    ensures x == y
    decreases x + y
  {
    if x != 0 || y != 0 {
      assert Bit(x, 0) == Bit(y, 0);
      forall k: nat ensures Bit(x / 2, k) == Bit(y / 2, k) {
        assert Bit(x, k + 1) == Bit(y, k + 1);
      }
      SameBits(x / 2, y / 2);
    }
  }

  lemma {:induction false} LowId(x: nat, n: nat)
    requires x < Pow2(n)
    ensures Low(x, n) == x
  {
    if n > 0 { LowId(x / 2, n - 1); }
  }

  /** Bits at or above the width are clear. */
  lemma {:induction false} HighBitsClear(x: nat, n: nat, k: nat)
    requires x < Pow2(n) && k >= n
    ensures !Bit(x, k)
  {
    LowId(x, n);
    BitLow(x, n, k);
  }

  lemma {:induction false} OrBound(x: nat, y: nat, n: nat)
    requires x < Pow2(n) && y < Pow2(n)
    ensures Or(x, y) < Pow2(n)
    decreases n
  {
    if n > 0 { OrBound(x / 2, y / 2, n - 1); }
  }

  lemma {:induction false} XorBound(x: nat, y: nat, n: nat)
    requires x < Pow2(n) && y < Pow2(n)
    ensures Xor(x, y) < Pow2(n)
    decreases n
  {
    if n > 0 { XorBound(x / 2, y / 2, n - 1); }
  }

  lemma {:induction false} ShrZero(x: nat, n: nat)
    requires x < Pow2(n)
    ensures Shr(x, n) == 0
  {
    if n > 0 { ShrZero(x / 2, n - 1); }
  }

  /** Shifting in one bit less keeps one bit more. */
  lemma {:induction false} ShrStep(x: nat, n: nat)
    ensures Shr(x, n) == 2 * Shr(x, n + 1) + (if Bit(x, n) then 1 else 0)
    decreases n
  {
    if n > 0 { ShrStep(x / 2, n - 1); }
  }

  /** OR of two bytes, as `a |= b` on a Go byte */
  function OrByte(x: Byte, y: Byte): (r: Byte)
    ensures forall k: nat {:trigger Bit(r, k)} :: Bit(r, k) == (Bit(x, k) || Bit(y, k))
  {
    assert Pow2(8) == 256;
    OrBound(x, y, 8);
    assert forall k: nat :: Bit(Or(x, y), k) == (Bit(x, k) || Bit(y, k)) by {
      forall k: nat ensures Bit(Or(x, y), k) == (Bit(x, k) || Bit(y, k)) { BitOr(x, y, k); }
    }
    Or(x, y)
  }

  /** `byte(x << n)`: the shifted value truncated to eight bits */
  function ShlByte(x: Byte, n: nat): (r: Byte)
    ensures forall k: nat {:trigger Bit(r, k)} :: Bit(r, k) == (n <= k < 8 && Bit(x, k - n))
  {
    assert Pow2(8) == 256;
    assert forall k: nat :: Bit(Low(Shl(x, n), 8), k) == (n <= k < 8 && Bit(x, k - n)) by {
      forall k: nat ensures Bit(Low(Shl(x, n), 8), k) == (n <= k < 8 && Bit(x, k - n)) {
        BitLow(Shl(x, n), 8, k);
        BitShl(x, n, k);
      }
    }
    Low(Shl(x, n), 8)
  }

  /** `x >> n` on a byte */
  function ShrByte(x: Byte, n: nat): (r: Byte)
    ensures forall k: nat {:trigger Bit(r, k)} :: Bit(r, k) == Bit(x, k + n)
  {
    assert forall k: nat :: Bit(Shr(x, n), k) == Bit(x, k + n) by {
      forall k: nat ensures Bit(Shr(x, n), k) == Bit(x, k + n) { BitShr(x, n, k); }
    }
    Shr(x, n)
  }

  /** `x ^ y` on bytes */
  function XorByte(x: Byte, y: Byte): (r: Byte)
    ensures forall k: nat {:trigger Bit(r, k)} :: Bit(r, k) == (Bit(x, k) != Bit(y, k))
  {
    assert Pow2(8) == 256;
    XorBound(x, y, 8);
    assert forall k: nat :: Bit(Xor(x, y), k) == (Bit(x, k) != Bit(y, k)) by {
      forall k: nat ensures Bit(Xor(x, y), k) == (Bit(x, k) != Bit(y, k)) { BitXor(x, y, k); }
    }
    Xor(x, y)
  }

  /** A byte has eight bits. */
  lemma ByteBits(x: Byte, k: nat)
    requires k >= 8
    ensures !Bit(x, k)
  {
    assert Pow2(8) == 256;
    HighBitsClear(x, 8, k);
  }

  /** Two bytes agreeing on their eight bits are equal. */
  lemma SameByte(x: Byte, y: Byte)
    requires forall k: nat | k < 8 :: Bit(x, k) == Bit(y, k)
    ensures x == y
  {
    forall k: nat ensures Bit(x, k) == Bit(y, k) {
      if k >= 8 {
        ByteBits(x, k);
        ByteBits(y, k);
      }
    }
    SameBits(x, y);
  }

  /** XOR with the same byte twice gives the byte back. */
  lemma XorTwice(x: Byte, y: Byte)
    ensures XorByte(XorByte(x, y), y) == x
  {
    SameByte(XorByte(XorByte(x, y), y), x);
  }
}
