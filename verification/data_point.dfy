/** The packed 64-bit LOD data point: mapping id in bits 0-31, height in
    bits 32-43, start Y (12-bit two's complement) in bits 44-55, sky light
    in bits 56-59 and block light in bits 60-63. Every accessor is the
    Java expression, operator by operator, over two's-complement bit
    strings. */
module DataPoint {
  import opened Bits

  const MAPPING_ID_OFFSET: nat := 0
  const HEIGHT_OFFSET: nat := 32
  const START_Y_OFFSET: nat := 44
  const SKY_LIGHT_OFFSET: nat := 56
  const BLOCK_LIGHT_OFFSET: nat := 60

  /** The int constant 0xFFFFFFFF, that is -1. */
  const MAPPING_ID_MASK: Int := Ones(32, 32)
  const HEIGHT_MASK: Int := Ones(12, 32)
  const START_Y_MASK: Int := Ones(12, 32)
  const SKY_LIGHT_MASK: Int := Ones(4, 32)
  const BLOCK_LIGHT_MASK: Int := Ones(4, 32)

  datatype DataPoint = DataPoint(data: Long)

  const Empty := DataPoint(Zero(64))

  /** The bit positions a field occupies. */
  predicate InField(i: int, offset: nat, size: nat)
  {
    offset <= i < offset + size
  }

  /** As written: the mask -1 widened to long is all ones, so the first
      statement clears the whole word, and the id is then or-ed in after
      sign extension. */
  function SetMappingId(p: DataPoint, mappingId: Int): (r: DataPoint)
    ensures forall i | 0 <= i < 32 :: r.data[i] == mappingId[i]
    ensures forall i | 32 <= i < 64 :: r.data[i] == mappingId[31]
  {
    var cleared := And(p.data, Not(Shl(Widen(MAPPING_ID_MASK, 64), MAPPING_ID_OFFSET)));
    DataPoint(Or(cleared, Widen(And(mappingId, MAPPING_ID_MASK), 64)))
  }

  /** The evidently intended setter: clear and write bits 0-31 only, as
      `data &= ~0xFFFFFFFFL; data |= mappingId & 0xFFFFFFFFL` would. */
  function SetMappingIdMasked(p: DataPoint, mappingId: Int): DataPoint
  {
    DataPoint(Or(And(p.data, Not(Ones(32, 64))), And(Widen(mappingId, 64), Ones(32, 64))))
  }

  function GetMappingId(p: DataPoint): Int
  {
    Narrow(And(Sar(p.data, MAPPING_ID_OFFSET), Widen(MAPPING_ID_MASK, 64)), 32)
  }

  /** Writes the low 12 bits of the height into bits 32-43 and no other bit. */
  function SetHeight(p: DataPoint, height: Int): (r: DataPoint)
    ensures forall i | 0 <= i < 12 :: r.data[HEIGHT_OFFSET + i] == height[i]
    ensures forall i | 0 <= i < 64 && !InField(i, HEIGHT_OFFSET, 12) :: r.data[i] == p.data[i]
  {
    var cleared := And(p.data, Not(Shl(Widen(HEIGHT_MASK, 64), HEIGHT_OFFSET)));
    DataPoint(Or(cleared, Shl(Widen(And(height, HEIGHT_MASK), 64), HEIGHT_OFFSET)))
  }

  function GetHeight(p: DataPoint): Int
  {
    Narrow(And(Sar(p.data, HEIGHT_OFFSET), Widen(HEIGHT_MASK, 64)), 32)
  }

  /** Writes the low 12 bits of the start Y into bits 44-55 and no other bit. */
  function SetStartY(p: DataPoint, startY: Int): (r: DataPoint)
    ensures forall i | 0 <= i < 12 :: r.data[START_Y_OFFSET + i] == startY[i]
    ensures forall i | 0 <= i < 64 && !InField(i, START_Y_OFFSET, 12) :: r.data[i] == p.data[i]
  {
    var cleared := And(p.data, Not(Shl(Widen(START_Y_MASK, 64), START_Y_OFFSET)));
    DataPoint(Or(cleared, Shl(And(Widen(startY, 64), Widen(START_Y_MASK, 64)), START_Y_OFFSET)))
  }

  /** Bits 44-55, sign-extended from bit 11 (`raw |= ~START_Y_MASK` when
      `raw & 0x0800` is non-zero). */
  function GetStartY(p: DataPoint): Int
  {
    var raw := Narrow(And(Sar(p.data, START_Y_OFFSET), Widen(START_Y_MASK, 64)), 32);
    if And(raw, Single(11, 32)) != Zero(32) then Or(raw, Not(START_Y_MASK)) else raw
  }

  /** The light setters take a Java byte, promoted to int before masking. */
  function SetSkyLight(p: DataPoint, skyLight: Octet): DataPoint
  {
    var cleared := And(p.data, Not(Shl(Widen(SKY_LIGHT_MASK, 64), SKY_LIGHT_OFFSET)));
    DataPoint(Or(cleared, Shl(Widen(And(Widen(skyLight, 32), SKY_LIGHT_MASK), 64), SKY_LIGHT_OFFSET)))
  }

  function GetSkyLight(p: DataPoint): Octet
  {
    Narrow(And(Sar(p.data, SKY_LIGHT_OFFSET), Widen(SKY_LIGHT_MASK, 64)), 8)
  }

  function SetBlockLight(p: DataPoint, blockLight: Octet): DataPoint
  {
    var cleared := And(p.data, Not(Shl(Widen(BLOCK_LIGHT_MASK, 64), BLOCK_LIGHT_OFFSET)));
    DataPoint(Or(cleared, Shl(Widen(And(Widen(blockLight, 32), BLOCK_LIGHT_MASK), 64), BLOCK_LIGHT_OFFSET)))
  }

  function GetBlockLight(p: DataPoint): Octet
  {
    Narrow(And(Sar(p.data, BLOCK_LIGHT_OFFSET), Widen(BLOCK_LIGHT_MASK, 64)), 8)
  }

  /** `encode` writes the raw word as one long; `decode` reads it back. */
  function Encode(p: DataPoint): (bytes: seq<Octet>)
    ensures |bytes| == 8
  {
    LongToOctets(p.data)
  }

  function Decode(bytes: seq<Octet>): DataPoint
    requires |bytes| == 8
  {
    DataPoint(OctetsToLong(bytes))
  }

  // ---------------------------------------------------------------------
  // Field round-trips

  /** Height keeps the low 12 bits of its argument; any value in 0..4095
      comes back unchanged. */
  lemma HeightRoundTrip(p: DataPoint, h: Int)
    ensures GetHeight(SetHeight(p, h)) == And(h, HEIGHT_MASK)
    ensures FitsUnsigned(h, 12) ==> GetHeight(SetHeight(p, h)) == h
  {
    var r := GetHeight(SetHeight(p, h));
    assert forall i | 0 <= i < 32 :: r[i] == And(h, HEIGHT_MASK)[i];
    if FitsUnsigned(h, 12) {
      assert forall i | 0 <= i < 32 :: r[i] == h[i];
    }
  }

  /** Start Y reads back as the 12-bit two's-complement value of its
      argument; any value in -2048..2047 comes back unchanged. */
  lemma StartYRoundTrip(p: DataPoint, y: Int)
    ensures FitsSigned(y, 12) ==> GetStartY(SetStartY(p, y)) == y
    ensures And(GetStartY(SetStartY(p, y)), START_Y_MASK) == And(y, START_Y_MASK)
    ensures FitsSigned(GetStartY(SetStartY(p, y)), 12)
  {
    var q := SetStartY(p, y);
    var raw := Narrow(And(Sar(q.data, START_Y_OFFSET), Widen(START_Y_MASK, 64)), 32);
    assert forall i | 0 <= i < 32 :: raw[i] == (i < 12 && y[i]);
    if y[11] {
      assert And(raw, Single(11, 32))[11];
    } else {
      assert And(raw, Single(11, 32)) == Zero(32);
    }
    var r := GetStartY(q);
    assert forall i | 0 <= i < 32 :: r[i] == if i < 12 then y[i] else y[11];
    if FitsSigned(y, 12) {
      assert forall i | 0 <= i < 32 :: r[i] == y[i];
    }
  }

  lemma SkyLightRoundTrip(p: DataPoint, s: Octet)
    ensures GetSkyLight(SetSkyLight(p, s)) == And(s, Ones(4, 8))
    ensures FitsUnsigned(s, 4) ==> GetSkyLight(SetSkyLight(p, s)) == s
  {
    var r := GetSkyLight(SetSkyLight(p, s));
    assert forall i | 0 <= i < 8 :: r[i] == And(s, Ones(4, 8))[i];
    if FitsUnsigned(s, 4) {
      assert forall i | 0 <= i < 8 :: r[i] == s[i];
    }
  }

  lemma BlockLightRoundTrip(p: DataPoint, b: Octet)
    ensures GetBlockLight(SetBlockLight(p, b)) == And(b, Ones(4, 8))
    ensures FitsUnsigned(b, 4) ==> GetBlockLight(SetBlockLight(p, b)) == b
  {
    var r := GetBlockLight(SetBlockLight(p, b));
    assert forall i | 0 <= i < 8 :: r[i] == And(b, Ones(4, 8))[i];
    if FitsUnsigned(b, 4) {
      assert forall i | 0 <= i < 8 :: r[i] == b[i];
    }
  }

  // ---------------------------------------------------------------------
  // Which bits each setter may touch

  /** Every getter reads only its own field's bits: two words that agree on
      a field's bits give the same value for that field. */
  lemma GettersReadOwnBits(p: DataPoint, q: DataPoint)
    ensures (forall i | InField(i, 0, 32) :: p.data[i] == q.data[i]) ==> GetMappingId(p) == GetMappingId(q)
    ensures (forall i | InField(i, 32, 12) :: p.data[i] == q.data[i]) ==> GetHeight(p) == GetHeight(q)
    ensures (forall i | InField(i, 44, 12) :: p.data[i] == q.data[i]) ==> GetStartY(p) == GetStartY(q)
    ensures (forall i | InField(i, 56, 4) :: p.data[i] == q.data[i]) ==> GetSkyLight(p) == GetSkyLight(q)
    ensures (forall i | InField(i, 60, 4) :: p.data[i] == q.data[i]) ==> GetBlockLight(p) == GetBlockLight(q)
  {
    if forall i | InField(i, 0, 32) :: p.data[i] == q.data[i] { MappingIdReadsOwnBits(p, q); }
    if forall i | InField(i, 32, 12) :: p.data[i] == q.data[i] { HeightReadsOwnBits(p, q); }
    if forall i | InField(i, 44, 12) :: p.data[i] == q.data[i] { StartYReadsOwnBits(p, q); }
    if forall i | InField(i, 56, 4) :: p.data[i] == q.data[i] { SkyLightReadsOwnBits(p, q); }
    if forall i | InField(i, 60, 4) :: p.data[i] == q.data[i] { BlockLightReadsOwnBits(p, q); }
  }

  lemma MappingIdReadsOwnBits(p: DataPoint, q: DataPoint)
    requires forall i | InField(i, 0, 32) :: p.data[i] == q.data[i]
    ensures GetMappingId(p) == GetMappingId(q)
  {
    assert forall i | 0 <= i < 32 :: GetMappingId(p)[i] == GetMappingId(q)[i];
  }

  lemma HeightReadsOwnBits(p: DataPoint, q: DataPoint)
    requires forall i | InField(i, 32, 12) :: p.data[i] == q.data[i]
    ensures GetHeight(p) == GetHeight(q)
  {
    assert forall i | 0 <= i < 32 :: GetHeight(p)[i] == GetHeight(q)[i];
  }

  lemma StartYReadsOwnBits(p: DataPoint, q: DataPoint)
    requires forall i | InField(i, 44, 12) :: p.data[i] == q.data[i]
    ensures GetStartY(p) == GetStartY(q)
  {
    var rp := Narrow(And(Sar(p.data, START_Y_OFFSET), Widen(START_Y_MASK, 64)), 32);
    var rq := Narrow(And(Sar(q.data, START_Y_OFFSET), Widen(START_Y_MASK, 64)), 32);
    assert forall i | 0 <= i < 32 :: rp[i] == rq[i];
    assert rp == rq;
  }

  lemma SkyLightReadsOwnBits(p: DataPoint, q: DataPoint)
    requires forall i | InField(i, 56, 4) :: p.data[i] == q.data[i]
    ensures GetSkyLight(p) == GetSkyLight(q)
  {
    assert forall i | 0 <= i < 8 :: GetSkyLight(p)[i] == GetSkyLight(q)[i];
  }

  lemma BlockLightReadsOwnBits(p: DataPoint, q: DataPoint)
    requires forall i | InField(i, 60, 4) :: p.data[i] == q.data[i]
    ensures GetBlockLight(p) == GetBlockLight(q)
  {
    assert forall i | 0 <= i < 8 :: GetBlockLight(p)[i] == GetBlockLight(q)[i];
  }

  lemma SetHeightFrame(p: DataPoint, h: Int)
    ensures forall i | 0 <= i < 64 && !InField(i, 32, 12) :: SetHeight(p, h).data[i] == p.data[i]
    ensures GetMappingId(SetHeight(p, h)) == GetMappingId(p)
    ensures GetStartY(SetHeight(p, h)) == GetStartY(p)
    ensures GetSkyLight(SetHeight(p, h)) == GetSkyLight(p)
    ensures GetBlockLight(SetHeight(p, h)) == GetBlockLight(p)
  {
    GettersReadOwnBits(SetHeight(p, h), p);
  }

  lemma SetStartYFrame(p: DataPoint, y: Int)
    ensures forall i | 0 <= i < 64 && !InField(i, 44, 12) :: SetStartY(p, y).data[i] == p.data[i]
    ensures GetMappingId(SetStartY(p, y)) == GetMappingId(p)
    ensures GetHeight(SetStartY(p, y)) == GetHeight(p)
    ensures GetSkyLight(SetStartY(p, y)) == GetSkyLight(p)
    ensures GetBlockLight(SetStartY(p, y)) == GetBlockLight(p)
  {
    GettersReadOwnBits(SetStartY(p, y), p);
  }

  lemma SetSkyLightFrame(p: DataPoint, s: Octet)
    ensures forall i | 0 <= i < 64 && !InField(i, 56, 4) :: SetSkyLight(p, s).data[i] == p.data[i]
    ensures GetMappingId(SetSkyLight(p, s)) == GetMappingId(p)
    ensures GetHeight(SetSkyLight(p, s)) == GetHeight(p)
    ensures GetStartY(SetSkyLight(p, s)) == GetStartY(p)
    ensures GetBlockLight(SetSkyLight(p, s)) == GetBlockLight(p)
  {
    GettersReadOwnBits(SetSkyLight(p, s), p);
  }

  lemma SetBlockLightFrame(p: DataPoint, b: Octet)
    ensures forall i | 0 <= i < 64 && !InField(i, 60, 4) :: SetBlockLight(p, b).data[i] == p.data[i]
    ensures GetMappingId(SetBlockLight(p, b)) == GetMappingId(p)
    ensures GetHeight(SetBlockLight(p, b)) == GetHeight(p)
    ensures GetStartY(SetBlockLight(p, b)) == GetStartY(p)
    ensures GetSkyLight(SetBlockLight(p, b)) == GetSkyLight(p)
  {
    GettersReadOwnBits(SetBlockLight(p, b), p);
  }

  // ---------------------------------------------------------------------
  // setMappingId as written, and the corrected setter

  /** As written, setMappingId replaces the whole word by the sign-extended
      id: the id reads back, and every other field is reset to copies of the
      id's sign bit (all clear for a non-negative id, all set otherwise). */
  lemma SetMappingIdAsWritten(p: DataPoint, m: Int)
    ensures SetMappingId(p, m).data == Widen(m, 64)
    ensures GetMappingId(SetMappingId(p, m)) == m
    ensures GetHeight(SetMappingId(p, m)) == if m[31] then HEIGHT_MASK else Zero(32)
    ensures GetStartY(SetMappingId(p, m)) == if m[31] then Ones(32, 32) else Zero(32)
    ensures GetSkyLight(SetMappingId(p, m)) == if m[31] then Ones(4, 8) else Zero(8)
    ensures GetBlockLight(SetMappingId(p, m)) == if m[31] then Ones(4, 8) else Zero(8)
  {
    SetMappingIdWord(p, m);
    var q := DataPoint(Widen(m, 64));
    assert forall i | 0 <= i < 32 :: GetMappingId(q)[i] == m[i];
    assert forall i | 0 <= i < 32 :: GetHeight(q)[i] == (if m[31] then HEIGHT_MASK else Zero(32))[i];
    StartYOfSignExtended(m);
    assert forall i | 0 <= i < 8 :: GetSkyLight(q)[i] == (if m[31] then Ones(4, 8) else Zero(8))[i];
    assert forall i | 0 <= i < 8 :: GetBlockLight(q)[i] == (if m[31] then Ones(4, 8) else Zero(8))[i];
  }

  lemma SetMappingIdWord(p: DataPoint, m: Int)
    ensures SetMappingId(p, m).data == Widen(m, 64)
  {
    assert forall i | 0 <= i < 64 :: SetMappingId(p, m).data[i] == Widen(m, 64)[i];
  }

  lemma StartYOfSignExtended(m: Int)
    ensures GetStartY(DataPoint(Widen(m, 64))) == if m[31] then Ones(32, 32) else Zero(32)
  {
    var q := DataPoint(Widen(m, 64));
    var raw := Narrow(And(Sar(q.data, START_Y_OFFSET), Widen(START_Y_MASK, 64)), 32);
    if m[31] {
      assert And(raw, Single(11, 32))[11];
    } else {
      assert And(raw, Single(11, 32)) == Zero(32);
    }
    assert forall i | 0 <= i < 32 :: GetStartY(q)[i] == (if m[31] then Ones(32, 32) else Zero(32))[i];
  }

  /** The call order the LOD builder uses for a new point (start Y, then
      height, then mapping id) loses the start Y and the height when the
      setter is the one as written: with every argument 1, both read back 0. */
  lemma SetMappingIdErasesEarlierFields()
    ensures GetStartY(SetHeight(SetStartY(Empty, Single(0, 32)), Single(0, 32))) == Single(0, 32)
    ensures GetHeight(SetHeight(SetStartY(Empty, Single(0, 32)), Single(0, 32))) == Single(0, 32)
    ensures GetStartY(SetMappingId(SetHeight(SetStartY(Empty, Single(0, 32)), Single(0, 32)), Single(0, 32))) == Zero(32)
    ensures GetHeight(SetMappingId(SetHeight(SetStartY(Empty, Single(0, 32)), Single(0, 32)), Single(0, 32))) == Zero(32)
  {
    var one := Single(0, 32);
    assert FitsSigned(one, 12) && FitsUnsigned(one, 12);
    StartYRoundTrip(Empty, one);
    SetHeightFrame(SetStartY(Empty, one), one);
    HeightRoundTrip(SetStartY(Empty, one), one);
    SetMappingIdAsWritten(SetHeight(SetStartY(Empty, one), one), one);
  }

  /** The corrected setter stores the id in bits 0-31 and leaves every other
      bit, and so every other field, unchanged. */
  lemma SetMappingIdMaskedFrame(p: DataPoint, m: Int)
    ensures GetMappingId(SetMappingIdMasked(p, m)) == m
    ensures forall i | 0 <= i < 64 && !InField(i, 0, 32) :: SetMappingIdMasked(p, m).data[i] == p.data[i]
    ensures GetHeight(SetMappingIdMasked(p, m)) == GetHeight(p)
    ensures GetStartY(SetMappingIdMasked(p, m)) == GetStartY(p)
    ensures GetSkyLight(SetMappingIdMasked(p, m)) == GetSkyLight(p)
    ensures GetBlockLight(SetMappingIdMasked(p, m)) == GetBlockLight(p)
  {
    assert forall i | 0 <= i < 32 :: GetMappingId(SetMappingIdMasked(p, m))[i] == m[i];
    GettersReadOwnBits(SetMappingIdMasked(p, m), p);
  }

  /** With the corrected setter, the builder's call order keeps every field. */
  lemma MaskedSetterKeepsEarlierFields(p: DataPoint, y: Int, h: Int, m: Int)
    requires FitsSigned(y, 12) && FitsUnsigned(h, 12)
    ensures GetStartY(SetMappingIdMasked(SetHeight(SetStartY(p, y), h), m)) == y
    ensures GetHeight(SetMappingIdMasked(SetHeight(SetStartY(p, y), h), m)) == h
    ensures GetMappingId(SetMappingIdMasked(SetHeight(SetStartY(p, y), h), m)) == m
  {
    StartYRoundTrip(p, y);
    SetHeightFrame(SetStartY(p, y), h);
    HeightRoundTrip(SetStartY(p, y), h);
    SetMappingIdMaskedFrame(SetHeight(SetStartY(p, y), h), m);
  }

  /** A new point as the LOD builder fills it (start Y, height, mapping id,
      then the two lights), for any start Y, height, lights and any id the
      builder can hand out (a non-negative one): as written, the start Y and
      the height read back 0 whatever was set, while the id survives. */
  lemma BuilderPointAsWritten(p: DataPoint, y: Int, h: Int, m: Int, sky: Octet, block: Octet)
    requires !m[31]
    ensures GetStartY(SetBlockLight(SetSkyLight(SetMappingId(SetHeight(SetStartY(p, y), h), m), sky), block)) == Zero(32)
    ensures GetHeight(SetBlockLight(SetSkyLight(SetMappingId(SetHeight(SetStartY(p, y), h), m), sky), block)) == Zero(32)
    ensures GetMappingId(SetBlockLight(SetSkyLight(SetMappingId(SetHeight(SetStartY(p, y), h), m), sky), block)) == m
  {
    var q := SetMappingId(SetHeight(SetStartY(p, y), h), m);
    SetMappingIdAsWritten(SetHeight(SetStartY(p, y), h), m);
    SetSkyLightFrame(q, sky);
    SetBlockLightFrame(SetSkyLight(q, sky), block);
  }

  /** The same filling with the corrected setter keeps all five fields, as
      long as each value fits its width. */
  lemma BuilderPointCorrected(p: DataPoint, y: Int, h: Int, m: Int, sky: Octet, block: Octet)
    requires FitsSigned(y, 12) && FitsUnsigned(h, 12) && FitsUnsigned(sky, 4) && FitsUnsigned(block, 4)
    ensures GetStartY(SetBlockLight(SetSkyLight(SetMappingIdMasked(SetHeight(SetStartY(p, y), h), m), sky), block)) == y
    ensures GetHeight(SetBlockLight(SetSkyLight(SetMappingIdMasked(SetHeight(SetStartY(p, y), h), m), sky), block)) == h
    ensures GetMappingId(SetBlockLight(SetSkyLight(SetMappingIdMasked(SetHeight(SetStartY(p, y), h), m), sky), block)) == m
    ensures GetSkyLight(SetBlockLight(SetSkyLight(SetMappingIdMasked(SetHeight(SetStartY(p, y), h), m), sky), block)) == sky
    ensures GetBlockLight(SetBlockLight(SetSkyLight(SetMappingIdMasked(SetHeight(SetStartY(p, y), h), m), sky), block)) == block
  {
    var q := SetMappingIdMasked(SetHeight(SetStartY(p, y), h), m);
    MaskedSetterKeepsEarlierFields(p, y, h, m);
    SetSkyLightFrame(q, sky);
    SkyLightRoundTrip(q, sky);
    SetBlockLightFrame(SetSkyLight(q, sky), block);
    BlockLightRoundTrip(SetSkyLight(q, sky), block);
  }

  // ---------------------------------------------------------------------
  // Encoding

  /** Decoding an encoded point restores the word, so all five fields survive. */
  lemma EncodeDecodeRoundTrip(p: DataPoint)
    ensures Decode(Encode(p)) == p
    ensures GetMappingId(Decode(Encode(p))) == GetMappingId(p)
    ensures GetHeight(Decode(Encode(p))) == GetHeight(p)
    ensures GetStartY(Decode(Encode(p))) == GetStartY(p)
    ensures GetSkyLight(Decode(Encode(p))) == GetSkyLight(p)
    ensures GetBlockLight(Decode(Encode(p))) == GetBlockLight(p)
  {
    LongRoundTrip(p.data);
  }

  /** Each field set to 1 on an empty point sets exactly one bit (bits 0,
      32, 44, 56 and 60), and the big-endian bytes put it where the binary
      dump shows it. */
  lemma BinaryLayout()
    ensures SetMappingId(Empty, Single(0, 32)).data == Single(0, 64)
    ensures SetHeight(Empty, Single(0, 32)).data == Single(32, 64)
    ensures SetStartY(Empty, Single(0, 32)).data == Single(44, 64)
    ensures SetSkyLight(Empty, Single(0, 8)).data == Single(56, 64)
    ensures SetBlockLight(Empty, Single(0, 8)).data == Single(60, 64)
    ensures Encode(SetMappingId(Empty, Single(0, 32)))[7] == Single(0, 8)
    ensures Encode(SetHeight(Empty, Single(0, 32)))[3] == Single(0, 8)
    ensures Encode(SetStartY(Empty, Single(0, 32)))[2] == Single(4, 8)
    ensures Encode(SetSkyLight(Empty, Single(0, 8)))[0] == Single(0, 8)
    ensures Encode(SetBlockLight(Empty, Single(0, 8)))[0] == Single(4, 8)
  {
    MappingIdBit();
    HeightBit();
    StartYBit();
    SkyLightBit();
    BlockLightBit();
    OctetOfSingle(0, 7, 0);
    OctetOfSingle(32, 3, 0);
    OctetOfSingle(44, 2, 4);
    OctetOfSingle(56, 0, 0);
    OctetOfSingle(60, 0, 4);
  }

  lemma MappingIdBit()
    ensures SetMappingId(Empty, Single(0, 32)).data == Single(0, 64)
  {
    assert forall i | 0 <= i < 64 :: SetMappingId(Empty, Single(0, 32)).data[i] == Single(0, 64)[i];
  }

  lemma HeightBit()
    ensures SetHeight(Empty, Single(0, 32)).data == Single(32, 64)
  {
    assert forall i | 0 <= i < 64 :: SetHeight(Empty, Single(0, 32)).data[i] == Single(32, 64)[i];
  }

  lemma StartYBit()
    ensures SetStartY(Empty, Single(0, 32)).data == Single(44, 64)
  {
    assert forall i | 0 <= i < 64 :: SetStartY(Empty, Single(0, 32)).data[i] == Single(44, 64)[i];
  }

  lemma SkyLightBit()
    ensures SetSkyLight(Empty, Single(0, 8)).data == Single(56, 64)
  {
    assert forall i | 0 <= i < 64 :: SetSkyLight(Empty, Single(0, 8)).data[i] == Single(56, 64)[i];
  }

  lemma BlockLightBit()
    ensures SetBlockLight(Empty, Single(0, 8)).data == Single(60, 64)
  {
    assert forall i | 0 <= i < 64 :: SetBlockLight(Empty, Single(0, 8)).data[i] == Single(60, 64)[i];
  }
}
