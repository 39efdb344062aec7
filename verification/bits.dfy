/** Java's fixed-width integers as two's-complement bit strings: index 0 is
    the least significant bit, so `Long` has 64 entries, `Int` 32 and
    `Octet` 8. Java's bitwise operators, shifts and widening or narrowing
    casts are defined bit by bit, which is exactly their meaning in the
    Java language specification (section 15.19 for shifts, section 5.1.2
    for sign-extending widening, section 5.1.3 for narrowing). */
module Bits {

  type Bits = seq<bool>
  type Long = s: Bits | |s| == 64 witness seq(64, _ => false)
  type Int = s: Bits | |s| == 32 witness seq(32, _ => false)
  type Octet = s: Bits | |s| == 8 witness seq(8, _ => false)

  /** `k` low ones in a word of `width` bits: the mask `(1 << k) - 1`. */
  function Ones(k: nat, width: nat): (r: Bits)
    ensures |r| == width
    ensures forall i | 0 <= i < width :: r[i] == (i < k)
  {
    seq(width, i => i < k)
  }

  /** The word holding only bit `k`: `1 << k`. */
  function Single(k: nat, width: nat): (r: Bits)
    ensures |r| == width
    ensures forall i | 0 <= i < width :: r[i] == (i == k)
  {
    seq(width, i => i == k)
  }

  function Zero(width: nat): (r: Bits)
    ensures |r| == width
    ensures forall i | 0 <= i < width :: !r[i]
  {
    seq(width, _ => false)
  }

  function And(a: Bits, b: Bits): (r: Bits)
    requires |a| == |b|
    ensures |r| == |a|
    ensures forall i | 0 <= i < |a| :: r[i] == (a[i] && b[i])
  {
    seq(|a|, i requires 0 <= i < |a| => a[i] && b[i])
  }

  function Or(a: Bits, b: Bits): (r: Bits)
    requires |a| == |b|
    ensures |r| == |a|
    ensures forall i | 0 <= i < |a| :: r[i] == (a[i] || b[i])
  {
    seq(|a|, i requires 0 <= i < |a| => a[i] || b[i])
  }

  /** `~a` */
  function Not(a: Bits): (r: Bits)
    ensures |r| == |a|
    ensures forall i | 0 <= i < |a| :: r[i] == !a[i]
  {
    seq(|a|, i requires 0 <= i < |a| => !a[i])
  }

  /** `a << k`: zeros shift in at the bottom. */
  function Shl(a: Bits, k: nat): (r: Bits)
    ensures |r| == |a|
    ensures forall i | 0 <= i < |a| :: r[i] == (i >= k && a[i - k])
  {
    seq(|a|, i requires 0 <= i < |a| => i >= k && a[i - k])
  }

  /** `a >> k`: the arithmetic shift, which copies the sign bit in at the top. */
  function Sar(a: Bits, k: nat): (r: Bits)
    requires |a| > 0
    ensures |r| == |a|
    ensures forall i | 0 <= i < |a| :: r[i] == if i + k < |a| then a[i + k] else a[|a| - 1]
  {
    seq(|a|, i requires 0 <= i < |a| => if i + k < |a| then a[i + k] else a[|a| - 1])
  }

  /** A widening cast (`(long) anInt`, or a byte promoted to int): sign extension. */
  function Widen(a: Bits, width: nat): (r: Bits)
    requires 0 < |a| <= width
    ensures |r| == width
    ensures forall i | 0 <= i < width :: r[i] == if i < |a| then a[i] else a[|a| - 1]
  {
    seq(width, i requires 0 <= i < width => if i < |a| then a[i] else a[|a| - 1])
  }

  /** A narrowing cast (`(int) aLong`, `(byte) aLong`): the low bits. */
  function Narrow(a: Bits, width: nat): (r: Bits)
    requires width <= |a|
    ensures |r| == width
    ensures forall i | 0 <= i < width :: r[i] == a[i]
  {
    a[..width]
  }

  /** The value is in 0 .. 2^k - 1: every bit from `k` up is clear. */
  predicate FitsUnsigned(a: Bits, k: nat)
  {
    forall i | k <= i < |a| :: !a[i]
  }

  /** The value is in -2^(k-1) .. 2^(k-1) - 1: every bit from `k - 1` up
      repeats bit `k - 1`. */
  predicate FitsSigned(a: Bits, k: nat)
    requires 0 < k <= |a|
  {
    forall i | k - 1 <= i < |a| :: a[i] == a[k - 1]
  }

  // ---------------------------------------------------------------------
  // Numeric meaning of a bit string

  function Pow2(k: nat): (r: nat)
    ensures r >= 1
  {
    if k == 0 then 1 else 2 * Pow2(k - 1)
  }

  /** The unsigned value of a bit string, least significant bit first. */
  function Unsigned(a: Bits): (r: nat)
    ensures r < Pow2(|a|)
  {
    if |a| == 0 then 0 else (if a[0] then 1 else 0) + 2 * Unsigned(a[1..])
  }

  /** The two's-complement value: the top bit weighs -2^(n-1). */
  function Signed(a: Bits): int
    requires |a| > 0
  {
    Unsigned(a) - (if a[|a| - 1] then Pow2(|a|) else 0)
  }

  /** The bit strings with every bit from `k` up clear are exactly those whose
      value is below 2^k. */
  lemma {:induction false} FitsUnsignedMeansBelow(a: Bits, k: nat)
    requires k <= |a|
    ensures FitsUnsigned(a, k) <==> Unsigned(a) < Pow2(k)
  {
    if |a| == 0 {
    } else if k == 0 {
      if !FitsUnsigned(a, 0) {
        var i :| 0 <= i < |a| && a[i];
        UnsignedOfSetBit(a, i);
      } else {
        AllClearIsZero(a);
      }
    } else {
      FitsUnsignedMeansBelow(a[1..], k - 1);
      assert FitsUnsigned(a, k) <==> FitsUnsigned(a[1..], k - 1) by {
        if FitsUnsigned(a[1..], k - 1) {
          forall i | k <= i < |a| ensures !a[i] { assert a[i] == a[1..][i - 1]; }
        }
      }
    }
  }

  lemma {:induction false} AllClearIsZero(a: Bits)
    requires FitsUnsigned(a, 0)
    ensures Unsigned(a) == 0
  {
    if |a| > 0 {
      assert FitsUnsigned(a[1..], 0) by {
        forall i | 0 <= i < |a[1..]| ensures !a[1..][i] { assert a[1..][i] == a[i + 1]; }
      }
      AllClearIsZero(a[1..]);
    }
  }

  lemma {:induction false} UnsignedOfSetBit(a: Bits, i: nat)
    requires i < |a| && a[i]
    ensures Unsigned(a) >= Pow2(i)
  {
    if i > 0 {
      assert a[1..][i - 1] == a[i];
      UnsignedOfSetBit(a[1..], i - 1);
    }
  }

  // ---------------------------------------------------------------------
  // `writeLong` / `readLong`: a long as 8 bytes, most significant first.

  /** Byte `j` of the big-endian encoding holds bits 63-8j down to 56-8j. */
  function LongToOctets(w: Long): (bytes: seq<Octet>)
    ensures |bytes| == 8
    ensures forall j, b | 0 <= j < 8 && 0 <= b < 8 :: bytes[j][b] == w[56 - 8 * j + b]
  {
    seq(8, j requires 0 <= j < 8 => w[56 - 8 * j .. 64 - 8 * j])
  }

  function OctetsToLong(bytes: seq<Octet>): (w: Long)
    requires |bytes| == 8
    ensures forall j, b | 0 <= j < 8 && 0 <= b < 8 :: w[56 - 8 * j + b] == bytes[j][b]
  {
    var w := seq(64, i requires 0 <= i < 64 => bytes[7 - i / 8][i % 8]);
    assert forall j, b | 0 <= j < 8 && 0 <= b < 8 :: w[56 - 8 * j + b] == bytes[j][b] by {
      forall j, b | 0 <= j < 8 && 0 <= b < 8 ensures w[56 - 8 * j + b] == bytes[j][b] {
        var i := 56 - 8 * j + b;
        assert i / 8 == 7 - j && i % 8 == b;
      }
    }
    w
  }

  lemma LongRoundTrip(w: Long)
    ensures OctetsToLong(LongToOctets(w)) == w
  {
    var r := OctetsToLong(LongToOctets(w));
    forall i | 0 <= i < 64 ensures r[i] == w[i] {
      var j, b := 7 - i / 8, i % 8;
      assert i == 56 - 8 * j + b;
    }
  }

  lemma OctetsRoundTrip(bytes: seq<Octet>)
    requires |bytes| == 8
    ensures LongToOctets(OctetsToLong(bytes)) == bytes
  {
    var r := LongToOctets(OctetsToLong(bytes));
    forall j | 0 <= j < 8 ensures r[j] == bytes[j] {
      forall b | 0 <= b < 8 ensures r[j][b] == bytes[j][b] {}
    }
  }

  /** Bit `k` = 56 - 8j + b of a word lands in bit `b` of byte `j`. */
  lemma OctetOfSingle(k: nat, j: nat, b: nat)
    requires j < 8 && b < 8 && k == 56 - 8 * j + b
    ensures LongToOctets(Single(k, 64))[j] == Single(b, 8)
  {
    assert forall c | 0 <= c < 8 :: LongToOctets(Single(k, 64))[j][c] == Single(b, 8)[c];
  }
}
