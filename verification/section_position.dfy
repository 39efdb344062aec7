/** The packed 64-bit section position: detail level in bits 0-7, X in bits
    8-35 and Z in bits 36-63, the coordinates as 28-bit two's complement.
    Every accessor is the Java expression over two's-complement bit strings. */
module SectionPosition {
  import opened Bits

  const DETAIL_LEVEL_OFFSET: nat := 0
  const X_OFFSET: nat := 8
  const Z_OFFSET: nat := 36

  /** The detail-level mask is a long constant; the coordinate masks are ints. */
  const DETAIL_LEVEL_MASK: Long := Ones(8, 64)
  const X_MASK: Int := Ones(28, 32)
  const Z_MASK: Int := Ones(28, 32)

  datatype SectionPosition = SectionPosition(data: Long)

  const Empty := SectionPosition(Zero(64))

  predicate InField(i: int, offset: nat, size: nat)
  {
    offset <= i < offset + size
  }

  /** The int argument is widened to long before it meets the long mask. */
  function SetDetailLevel(p: SectionPosition, detailLevel: Int): SectionPosition
  {
    var cleared := And(p.data, Not(Shl(DETAIL_LEVEL_MASK, DETAIL_LEVEL_OFFSET)));
    SectionPosition(Or(cleared, Shl(And(Widen(detailLevel, 64), DETAIL_LEVEL_MASK), DETAIL_LEVEL_OFFSET)))
  }

  /** Not sign-extended: the level reads back in 0..255. */
  function GetDetailLevel(p: SectionPosition): Int
  {
    Narrow(And(p.data, DETAIL_LEVEL_MASK), 32)
  }

  function SetX(p: SectionPosition, x: Int): SectionPosition
  {
    var cleared := And(p.data, Not(Shl(Widen(X_MASK, 64), X_OFFSET)));
    SectionPosition(Or(cleared, Shl(Widen(And(x, X_MASK), 64), X_OFFSET)))
  }

  /** Bits 8-35, sign-extended from bit 27 (the test `raw & (1 << 27)`). */
  function GetX(p: SectionPosition): Int
  {
    var raw := Narrow(And(Sar(p.data, X_OFFSET), Widen(X_MASK, 64)), 32);
    if And(raw, Shl(Single(0, 32), 27)) != Zero(32) then Or(raw, Not(X_MASK)) else raw
  }

  function SetZ(p: SectionPosition, z: Int): SectionPosition
  {
    var cleared := And(p.data, Not(Shl(Widen(Z_MASK, 64), Z_OFFSET)));
    SectionPosition(Or(cleared, Shl(Widen(And(z, Z_MASK), 64), Z_OFFSET)))
  }

  function GetZ(p: SectionPosition): Int
  {
    var raw := Narrow(And(Sar(p.data, Z_OFFSET), Widen(Z_MASK, 64)), 32);
    if And(raw, Shl(Single(0, 32), 27)) != Zero(32) then Or(raw, Not(Z_MASK)) else raw
  }

  function Encode(p: SectionPosition): (bytes: seq<Octet>)
    ensures |bytes| == 8
  {
    LongToOctets(p.data)
  }

  function Decode(bytes: seq<Octet>): SectionPosition
    requires |bytes| == 8
  {
    SectionPosition(OctetsToLong(bytes))
  }

  // ---------------------------------------------------------------------
  // Field round-trips

  /** The level keeps the low 8 bits of its argument; 0..255 comes back
      unchanged. */
  lemma DetailLevelRoundTrip(p: SectionPosition, d: Int)
    ensures GetDetailLevel(SetDetailLevel(p, d)) == And(d, Ones(8, 32))
    ensures FitsUnsigned(d, 8) ==> GetDetailLevel(SetDetailLevel(p, d)) == d
  {
    var r := GetDetailLevel(SetDetailLevel(p, d));
    assert forall i | 0 <= i < 32 :: r[i] == And(d, Ones(8, 32))[i];
    if FitsUnsigned(d, 8) {
      assert forall i | 0 <= i < 32 :: r[i] == d[i];
    }
  }

  /** The raw 28 bits a coordinate field holds, before sign extension. */
  lemma RawX(p: SectionPosition, x: Int)
    ensures forall i | 0 <= i < 32 ::
      Narrow(And(Sar(SetX(p, x).data, X_OFFSET), Widen(X_MASK, 64)), 32)[i] == (i < 28 && x[i])
  {
  }

  lemma RawZ(p: SectionPosition, z: Int)
    ensures forall i | 0 <= i < 32 ::
      Narrow(And(Sar(SetZ(p, z).data, Z_OFFSET), Widen(Z_MASK, 64)), 32)[i] == (i < 28 && z[i])
  {
  }

  /** Sign extension from bit 27 of a raw field whose bits 28-31 are clear. */
  lemma SignExtend28(raw: Int, mask: Int, v: Int)
    requires mask == Ones(28, 32)
    requires forall i | 0 <= i < 32 :: raw[i] == (i < 28 && v[i])
    ensures var r := if And(raw, Shl(Single(0, 32), 27)) != Zero(32) then Or(raw, Not(mask)) else raw;
      (forall i | 0 <= i < 32 :: r[i] == if i < 28 then v[i] else v[27])
  {
    if v[27] {
      assert And(raw, Shl(Single(0, 32), 27))[27];
    } else {
      assert And(raw, Shl(Single(0, 32), 27)) == Zero(32);
    }
  }

  /** X reads back as the 28-bit two's-complement value of its argument;
      any value in -2^27 .. 2^27 - 1 comes back unchanged. */
  lemma XRoundTrip(p: SectionPosition, x: Int)
    ensures forall i | 0 <= i < 32 :: GetX(SetX(p, x))[i] == if i < 28 then x[i] else x[27]
    ensures FitsSigned(x, 28) ==> GetX(SetX(p, x)) == x
  {
    RawX(p, x);
    SignExtend28(Narrow(And(Sar(SetX(p, x).data, X_OFFSET), Widen(X_MASK, 64)), 32), X_MASK, x);
    if FitsSigned(x, 28) {
      assert forall i | 0 <= i < 32 :: GetX(SetX(p, x))[i] == x[i];
    }
  }

  lemma ZRoundTrip(p: SectionPosition, z: Int)
    ensures forall i | 0 <= i < 32 :: GetZ(SetZ(p, z))[i] == if i < 28 then z[i] else z[27]
    ensures FitsSigned(z, 28) ==> GetZ(SetZ(p, z)) == z
  {
    RawZ(p, z);
    SignExtend28(Narrow(And(Sar(SetZ(p, z).data, Z_OFFSET), Widen(Z_MASK, 64)), 32), Z_MASK, z);
    if FitsSigned(z, 28) {
      assert forall i | 0 <= i < 32 :: GetZ(SetZ(p, z))[i] == z[i];
    }
  }

  // ---------------------------------------------------------------------
  // Frames

  lemma DetailLevelReadsOwnBits(p: SectionPosition, q: SectionPosition)
    requires forall i | InField(i, 0, 8) :: p.data[i] == q.data[i]
    ensures GetDetailLevel(p) == GetDetailLevel(q)
  {
    assert forall i | 0 <= i < 32 :: GetDetailLevel(p)[i] == GetDetailLevel(q)[i];
  }

  lemma XReadsOwnBits(p: SectionPosition, q: SectionPosition)
    requires forall i | InField(i, 8, 28) :: p.data[i] == q.data[i]
    ensures GetX(p) == GetX(q)
  {
    var rp := Narrow(And(Sar(p.data, X_OFFSET), Widen(X_MASK, 64)), 32);
    var rq := Narrow(And(Sar(q.data, X_OFFSET), Widen(X_MASK, 64)), 32);
    assert forall i | 0 <= i < 32 :: rp[i] == rq[i];
    assert rp == rq;
  }

  lemma ZReadsOwnBits(p: SectionPosition, q: SectionPosition)
    requires forall i | InField(i, 36, 28) :: p.data[i] == q.data[i]
    ensures GetZ(p) == GetZ(q)
  {
    var rp := Narrow(And(Sar(p.data, Z_OFFSET), Widen(Z_MASK, 64)), 32);
    var rq := Narrow(And(Sar(q.data, Z_OFFSET), Widen(Z_MASK, 64)), 32);
    assert forall i | 0 <= i < 32 :: rp[i] == rq[i];
    assert rp == rq;
  }

  lemma SetDetailLevelFrame(p: SectionPosition, d: Int)
    ensures forall i | 0 <= i < 64 && !InField(i, 0, 8) :: SetDetailLevel(p, d).data[i] == p.data[i]
    ensures GetX(SetDetailLevel(p, d)) == GetX(p)
    ensures GetZ(SetDetailLevel(p, d)) == GetZ(p)
  {
    XReadsOwnBits(SetDetailLevel(p, d), p);
    ZReadsOwnBits(SetDetailLevel(p, d), p);
  }

  lemma SetXFrame(p: SectionPosition, x: Int)
    ensures forall i | 0 <= i < 64 && !InField(i, 8, 28) :: SetX(p, x).data[i] == p.data[i]
    ensures GetDetailLevel(SetX(p, x)) == GetDetailLevel(p)
    ensures GetZ(SetX(p, x)) == GetZ(p)
  {
    DetailLevelReadsOwnBits(SetX(p, x), p);
    ZReadsOwnBits(SetX(p, x), p);
  }

  lemma SetZFrame(p: SectionPosition, z: Int)
    ensures forall i | 0 <= i < 64 && !InField(i, 36, 28) :: SetZ(p, z).data[i] == p.data[i]
    ensures GetDetailLevel(SetZ(p, z)) == GetDetailLevel(p)
    ensures GetX(SetZ(p, z)) == GetX(p)
  {
    DetailLevelReadsOwnBits(SetZ(p, z), p);
    XReadsOwnBits(SetZ(p, z), p);
  }

  /** Setting the three fields one after another gives back all three values. */
  lemma AllFieldsRoundTrip(p: SectionPosition, d: Int, x: Int, z: Int)
    requires FitsUnsigned(d, 8) && FitsSigned(x, 28) && FitsSigned(z, 28)
    ensures GetDetailLevel(SetZ(SetX(SetDetailLevel(p, d), x), z)) == d
    ensures GetX(SetZ(SetX(SetDetailLevel(p, d), x), z)) == x
    ensures GetZ(SetZ(SetX(SetDetailLevel(p, d), x), z)) == z
  {
    DetailLevelRoundTrip(p, d);
    SetXFrame(SetDetailLevel(p, d), x);
    XRoundTrip(SetDetailLevel(p, d), x);
    SetZFrame(SetX(SetDetailLevel(p, d), x), z);
    ZRoundTrip(SetX(SetDetailLevel(p, d), x), z);
  }

  // ---------------------------------------------------------------------
  // Encoding

  lemma EncodeDecodeRoundTrip(p: SectionPosition)
    ensures Decode(Encode(p)) == p
    ensures GetDetailLevel(Decode(Encode(p))) == GetDetailLevel(p)
    ensures GetX(Decode(Encode(p))) == GetX(p)
    ensures GetZ(Decode(Encode(p))) == GetZ(p)
  {
    LongRoundTrip(p.data);
  }

  /** The layout of the binary dump: level 1 is bit 0, x = 1 is bit 8,
      x = -1 fills bits 8-35, z = 1 is bit 36 and z = -1 fills bits 36-63. */
  lemma BinaryLayout()
    ensures SetDetailLevel(Empty, Single(0, 32)).data == Single(0, 64)
    ensures SetX(Empty, Single(0, 32)).data == Single(8, 64)
    ensures forall i | 0 <= i < 64 :: SetX(Empty, Ones(32, 32)).data[i] == InField(i, 8, 28)
    ensures SetZ(Empty, Single(0, 32)).data == Single(36, 64)
    ensures forall i | 0 <= i < 64 :: SetZ(Empty, Ones(32, 32)).data[i] == InField(i, 36, 28)
    ensures Encode(SetX(Empty, Single(0, 32)))[6] == Single(0, 8)
    ensures Encode(SetZ(Empty, Single(0, 32)))[3] == Single(4, 8)
  {
    DetailLevelBit();
    XBit();
    ZBit();
    OctetOfSingle(8, 6, 0);
    OctetOfSingle(36, 3, 4);
  }

  lemma DetailLevelBit()
    ensures SetDetailLevel(Empty, Single(0, 32)).data == Single(0, 64)
  {
    assert forall i | 0 <= i < 64 :: SetDetailLevel(Empty, Single(0, 32)).data[i] == Single(0, 64)[i];
  }

  lemma XBit()
    ensures SetX(Empty, Single(0, 32)).data == Single(8, 64)
  {
    assert forall i | 0 <= i < 64 :: SetX(Empty, Single(0, 32)).data[i] == Single(8, 64)[i];
  }

  lemma ZBit()
    ensures SetZ(Empty, Single(0, 32)).data == Single(36, 64)
  {
    assert forall i | 0 <= i < 64 :: SetZ(Empty, Single(0, 32)).data[i] == Single(36, 64)[i];
  }
}
