/**
 * Bit-level arithmetic behind the keypad codecs: binary strings read as numbers
 * (`int(s, 2)`), the low bits of a number written out (`bin(...)[-n:]`), and the
 * bits of a little-endian byte string.
 */
module Bits {

  /** A single bit as the firmware stores it: the integer 0 or 1. */
  type bit = b: int | 0 <= b < 2

  /** A byte as it comes off the bus. */
  type byte = b: int | 0 <= b < 256

  function Pow2(n: nat): (r: nat)
    ensures r >= 1
  {
    if n == 0 then 1 else 2 * Pow2(n - 1)
  }

  /** `x >> n` for a non-negative `x`. */
  function Shr(x: nat, n: nat): nat
  {
    if n == 0 then x else Shr(x / 2, n - 1)
  }

  /** Bit `k` of `x`, counting from the least significant bit. */
  function BitOf(x: nat, k: nat): bit
  {
    Shr(x, k) % 2
  }

  /** `int(''.join(map(str, bits)), 2)`: the bits read most significant first. */
  function FromBitsMsb(bits: seq<bit>): (v: nat)
    ensures v < Pow2(|bits|)
  {
    if |bits| == 0 then 0 else 2 * FromBitsMsb(bits[..|bits| - 1]) + bits[|bits| - 1]
  }

  /** The `n` lowest bits of `x`, most significant first, as `bin((1 << m) + x)[-n:]` lists them. */
  function LowBitsMsb(x: nat, n: nat): (r: seq<bit>)
    ensures |r| == n
    ensures forall i | 0 <= i < n :: r[n - 1 - i] == BitOf(x, i)
  {
    if n == 0 then []
    else
      BitOfHalf(x, n);
      LowBitsMsb(x / 2, n - 1) + [x % 2]
  }

  /** Above bit 0, the bits of `x` are those of `x / 2` moved up one place. */
  lemma BitOfHalf(x: nat, n: nat)
    ensures forall i | 0 < i < n :: BitOf(x, i) == BitOf(x / 2, i - 1)
  {
  }

  /** The bytes read as one little-endian number: byte `j` holds bits `8*j .. 8*j+7`. */
  function LittleEndian(bytes: seq<nat>): nat
  {
    if |bytes| == 0 then 0 else bytes[0] + 256 * LittleEndian(bytes[1..])
  }

  predicate AllBytes(xs: seq<nat>)
  {
    forall j | 0 <= j < |xs| :: xs[j] < 256
  }

  lemma {:induction false} ShrOfZero(n: nat)
    ensures Shr(0, n) == 0
  {
    if n > 0 {
      ShrOfZero(n - 1);
    }
  }

  /** Shifting by `m + n` is shifting by `m`, then by `n`. */
  lemma {:induction false} ShrShr(x: nat, m: nat, n: nat)
    ensures Shr(x, m + n) == Shr(Shr(x, m), n)
  {
    if m > 0 {
      ShrShr(x / 2, m - 1, n);
    }
  }

  /** Shifting out all the bits of a number leaves nothing. */
  lemma {:induction false} ShrSmall(x: nat, n: nat)
    requires x < Pow2(n)
    ensures Shr(x, n) == 0
  {
    if n > 0 {
      ShrSmall(x / 2, n - 1);
    }
  }

  /** Every bit at or above position `n` of a number below `2^n` is 0. */
  lemma BitOfSmall(x: nat, n: nat, k: nat)
    requires x < Pow2(n) && n <= k
    ensures BitOf(x, k) == 0
  {
    ShrShr(x, n, k - n);
    ShrSmall(x, n);
    ShrOfZero(k - n);
  }

  /** The high part `r` of `a + 2^m * r` is what remains after shifting out the `m` bits of `a`. */
  lemma {:induction false} ShrAddHigh(a: nat, r: nat, m: nat)
    requires a < Pow2(m)
    ensures Shr(a + Pow2(m) * r, m) == r
  {
    if m > 0 {
      var t := Pow2(m - 1) * r;
      assert Pow2(m) * r == 2 * t;
      assert (a + 2 * t) / 2 == a / 2 + t;
      ShrAddHigh(a / 2, r, m - 1);
    }
  }

  /** Adding a multiple of `2^m` does not disturb the bits below position `m`. */
  lemma {:induction false} BitOfAddHigh(a: nat, r: nat, m: nat, i: nat)
    requires i < m
    ensures BitOf(a + Pow2(m) * r, i) == BitOf(a, i)
  {
    var t := Pow2(m - 1) * r;
    assert Pow2(m) * r == 2 * t;
    if i > 0 {
      assert (a + 2 * t) / 2 == a / 2 + t;
      BitOfAddHigh(a / 2, r, m - 1, i - 1);
    }
  }

  /** Bit `k` of `int(bits, 2)` is the `k`-th entry counted from the end of the list, and 0 past its length. */
  lemma {:induction false} FromBitsMsbBit(bits: seq<bit>, k: nat)
    ensures BitOf(FromBitsMsb(bits), k) == if k < |bits| then bits[|bits| - 1 - k] else 0
  {
    if k >= |bits| {
      BitOfSmall(FromBitsMsb(bits), |bits|, k);
    } else if k > 0 {
      var init := bits[..|bits| - 1];
      assert (2 * FromBitsMsb(init) + bits[|bits| - 1]) / 2 == FromBitsMsb(init);
      FromBitsMsbBit(init, k - 1);
    }
  }

  /** Reading back the bits `bin` wrote gives the number again. */
  lemma {:induction false} FromLowBits(x: nat, n: nat)
    requires x < Pow2(n)
    ensures FromBitsMsb(LowBitsMsb(x, n)) == x
  {
    if n > 0 {
      var low := LowBitsMsb(x, n);
      assert low[..n - 1] == LowBitsMsb(x / 2, n - 1);
      FromLowBits(x / 2, n - 1);
    }
  }

  /** Writing out the bits of `int(bits, 2)` gives the bit list again. */
  lemma {:induction false} LowBitsFrom(bits: seq<bit>)
    ensures LowBitsMsb(FromBitsMsb(bits), |bits|) == bits
  {
    var n := |bits|;
    var r := LowBitsMsb(FromBitsMsb(bits), n);
    forall j | 0 <= j < n
      ensures r[j] == bits[j]
    {
      var k := n - 1 - j;
      assert r[n - 1 - k] == BitOf(FromBitsMsb(bits), k);
      FromBitsMsbBit(bits, k);
    }
  }

  /** Leading zeros do not change the value of a binary string. */
  lemma {:induction false} FromBitsMsbLeadingZeros(zs: seq<bit>, bits: seq<bit>)
    requires forall j | 0 <= j < |zs| :: zs[j] == 0
    ensures FromBitsMsb(zs + bits) == FromBitsMsb(bits)
  {
    if |bits| == 0 {
      assert zs + bits == zs;
      AllZeroBits(zs);
    } else {
      var whole := zs + bits;
      assert whole[..|whole| - 1] == zs + bits[..|bits| - 1];
      FromBitsMsbLeadingZeros(zs, bits[..|bits| - 1]);
    }
  }

  lemma {:induction false} AllZeroBits(zs: seq<bit>)
    requires forall j | 0 <= j < |zs| :: zs[j] == 0
    ensures FromBitsMsb(zs) == 0
  {
    if |zs| > 0 {
      AllZeroBits(zs[..|zs| - 1]);
    }
  }

  /** Shifting a little-endian number right by whole bytes drops the leading bytes. */
  lemma {:induction false} LittleEndianShr(bytes: seq<nat>, j: nat)
    requires AllBytes(bytes) && j <= |bytes|
    ensures Shr(LittleEndian(bytes), 8 * j) == LittleEndian(bytes[j..])
  {
    if j > 0 {
      var rest := bytes[1..];
      assert Pow2(8) == 256;
      ShrShr(LittleEndian(bytes), 8, 8 * (j - 1));
      ShrAddHigh(bytes[0], LittleEndian(rest), 8);
      LittleEndianShr(rest, j - 1);
      assert rest[j - 1..] == bytes[j..];
    } else {
      assert bytes[0..] == bytes;
    }
  }

  /** Bit `8*j + i` of a little-endian number is bit `i` of byte `j`. */
  lemma LittleEndianBit(bytes: seq<nat>, j: nat, i: nat)
    requires AllBytes(bytes) && j < |bytes| && i < 8
    ensures BitOf(LittleEndian(bytes), 8 * j + i) == BitOf(bytes[j], i)
  {
    var tail := bytes[j..];
    assert Pow2(8) == 256;
    ShrShr(LittleEndian(bytes), 8 * j, i);
    LittleEndianShr(bytes, j);
    assert tail[1..] == bytes[j + 1..];
    BitOfAddHigh(bytes[j], LittleEndian(tail[1..]), 8, i);
  }

  /** A little-endian number has no bits beyond its last byte. */
  lemma LittleEndianBeyond(bytes: seq<nat>, k: nat)
    requires AllBytes(bytes) && 8 * |bytes| <= k
    ensures BitOf(LittleEndian(bytes), k) == 0
  {
    ShrShr(LittleEndian(bytes), 8 * |bytes|, k - 8 * |bytes|);
    LittleEndianShr(bytes, |bytes|);
    ShrOfZero(k - 8 * |bytes|);
  }

  /** The single bit of `2^p` is bit `p`. */
  lemma {:induction false} BitOfPowerOfTwo(p: nat, i: nat)
    ensures BitOf(Pow2(p), i) == if i == p then 1 else 0
  {
    if p > 0 {
      if i > 0 {
        BitOfPowerOfTwo(p - 1, i - 1);
      }
    } else if i > 0 {
      BitOfSmall(0, 0, i - 1);
    }
  }

  /** A byte with no bit set is 0. */
  lemma ZeroBitsZero(x: nat)
    requires x < 256
    requires forall i | 0 <= i < 8 :: BitOf(x, i) == 0
    ensures x == 0
  {
    BitOfSmall(0, 0, 0);
    forall i | 0 <= i < 8
      ensures BitOf(x, i) == BitOf(0, i)
    {
      BitOfSmall(0, 0, i);
    }
    SameBitsSame(x, 0);
  }

  /** Two bytes with the same eight bits are equal. */
  lemma SameBitsSame(x: nat, y: nat)
    requires x < 256 && y < 256
    requires forall i | 0 <= i < 8 :: BitOf(x, i) == BitOf(y, i)
    ensures x == y
  {
    assert Pow2(8) == 256;
    FromLowBits(x, 8);
    FromLowBits(y, 8);
    var a, b := LowBitsMsb(x, 8), LowBitsMsb(y, 8);
    forall j | 0 <= j < 8
      ensures a[j] == b[j]
    {
      assert a[8 - 1 - (7 - j)] == BitOf(x, 7 - j);
      assert b[8 - 1 - (7 - j)] == BitOf(y, 7 - j);
    }
    assert a == b;
  }
}
