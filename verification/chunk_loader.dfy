/** The pure parts of reading a stored chunk: the block-light and sky-light
    nibble arrays of each 16×16×16 section, the check of the stored chunk
    position against the expected one, and the chunk type named by the
    stored status. The NBT tags become the datatypes below. */
module ChunkLoader {
  import opened Wrappers
  import opened JavaInt

  const CHUNK_WIDTH: nat := 16
  const SECTION_VOLUME: nat := 4096
  const MAX_MC_LIGHT: nat := 15

  /** The index of a block inside a section's light arrays. */
  function BlockIndex(relX: int, relY: int, relZ: int): int
  {
    relY * 256 + relZ * 16 + relX
  }

  predicate InCube(relX: int, relY: int, relZ: int)
  {
    0 <= relX < 16 && 0 <= relY < 16 && 0 <= relZ < 16
  }

  /** The block of a section whose light is stored at `index`. */
  function CubeOf(index: nat): (r: (int, int, int))
    requires index < SECTION_VOLUME
    ensures InCube(r.0, r.1, r.2)
  {
    (index % 16, index / 256, (index / 16) % 16)
  }

  /** The index maps the cube one to one onto 0..4095. */
  lemma BlockIndexIsBijective(relX: int, relY: int, relZ: int, index: nat)
    ensures InCube(relX, relY, relZ) ==>
      0 <= BlockIndex(relX, relY, relZ) < SECTION_VOLUME && CubeOf(BlockIndex(relX, relY, relZ)) == (relX, relY, relZ)
    ensures index < SECTION_VOLUME ==>
      var (x, y, z) := CubeOf(index); BlockIndex(x, y, z) == index
  {
    if InCube(relX, relY, relZ) {
      var i := BlockIndex(relX, relY, relZ);
      assert i == (relY * 16 + relZ) * 16 + relX;
      assert i % 16 == relX && i / 16 == relY * 16 + relZ;
      assert i / 256 == (i / 16) / 16;
    }
    if index < SECTION_VOLUME {
      assert index / 256 == (index / 16) / 16;
    }
  }

  /** `getNibbleAtIndex`: the low half of byte `index / 2` for an even index
      and its high half for an odd one. Reading past the array throws. */
  function Nibble(arr: seq<byte>, index: nat): (r: Result<nat>)
    ensures r.Ok? <==> index / 2 < |arr|
    ensures r.Ok? ==> r.value < 16
  {
    if index / 2 >= |arr| then Err(IndexOutOfBounds)
    else if index % 2 == 0 then Ok(arr[index / 2] % 16)
    else Ok(arr[index / 2] / 16)
  }

  /** Two light values per byte, the even index in the low half: the layout
      `Nibble` reads. */
  function PackNibbles(vs: seq<nat>): (arr: seq<byte>)
    requires |vs| % 2 == 0 && forall i | 0 <= i < |vs| :: vs[i] < 16
    ensures |arr| == |vs| / 2
  {
    seq(|vs| / 2, j requires 0 <= j < |vs| / 2 => vs[2 * j] + 16 * vs[2 * j + 1])
  }

  /** Packed light values read back unchanged. */
  lemma NibbleOfPacked(vs: seq<nat>, index: nat)
    requires |vs| % 2 == 0 && forall i | 0 <= i < |vs| :: vs[i] < 16
    requires index < |vs|
    ensures Nibble(PackNibbles(vs), index) == Ok(vs[index])
  {
    var j := index / 2;
    assert PackNibbles(vs)[j] == vs[2 * j] + 16 * vs[2 * j + 1];
  }

  /** One section's light data, or `Skipped` when either array is missing. */
  datatype SectionLight =
    | Skipped
    | Lit(block: seq<nat>, sky: seq<nat>)

  /** A section tag: each light array may be absent. */
  datatype Section = Section(blockLight: Option<seq<byte>>, skyLight: Option<seq<byte>>)

  /** An element of the sections list, which need not be a compound tag. */
  datatype SectionTag = Compound(section: Section) | OtherTag

  /** The "sections" entry of the chunk tag. */
  datatype SectionsTag = Absent | NotAList | SectionList(tags: seq<SectionTag>)

  /** The light of one block from an array: 0 from an empty array, or the
      full sky light when `forceMax` (an empty sky array above sky data). */
  function LightValue(arr: seq<byte>, index: nat, forceMax: bool): (r: Result<nat>)
    ensures r.Ok? ==> r.value <= MAX_MC_LIGHT
    ensures |arr| == 0 ==> r == Ok(if forceMax then MAX_MC_LIGHT else 0)
    ensures |arr| > 0 ==> r == Nibble(arr, index)
  {
    if |arr| == 0 then Ok(if forceMax then MAX_MC_LIGHT else 0)
    else Nibble(arr, index)
  }

  /** The light values of a section's 4096 blocks; indices are checked in
      increasing order, and only array lengths decide whether one throws. */
  function ArrayLight(arr: seq<byte>, forceMax: bool, n: nat): (r: Result<seq<nat>>)
    requires n <= SECTION_VOLUME
    ensures r.Ok? <==> |arr| == 0 || n == 0 || (n - 1) / 2 < |arr|
    ensures r.Ok? ==> |r.value| == n && forall i | 0 <= i < n :: LightValue(arr, i, forceMax) == Ok(r.value[i])
  {
    if n == 0 then Ok([])
    else
      var front :- ArrayLight(arr, forceMax, n - 1);
      var v :- LightValue(arr, n - 1, forceMax);
      Ok(front + [v])
  }

  /** One section of `readLight`. `foundSky` says whether sky data was
      found in this or an earlier section. */
  function ReadSection(s: Section, foundSky: bool): (r: Result<SectionLight>)
    ensures (s.blockLight.None? || s.skyLight.None?) ==> r == Ok(Skipped)
  {
    match (s.blockLight, s.skyLight)
    case (Some(b), Some(k)) =>
      var block :- ArrayLight(b, false, SECTION_VOLUME);
      var sky :- ArrayLight(k, foundSky && |k| == 0, SECTION_VOLUME);
      Ok(Lit(block, sky))
    case _ => Ok(Skipped)
  }

  /** Whether a section contributes sky data. */
  predicate HasSky(t: SectionTag)
  {
    t.Compound? && t.section.blockLight.Some? && t.section.skyLight.Some? && |t.section.skyLight.value| > 0
  }

  /** Whether any of the first `n` sections contributes sky data. */
  predicate SkyBefore(tags: seq<SectionTag>, n: nat)
    requires n <= |tags|
  {
    exists j | 0 <= j < n :: HasSky(tags[j])
  }

  /** `readLight` over the first `n` sections: `None` (Java's null) at the
      first tag that is not a compound; an exception from a short array
      propagates. */
  function ReadSections(tags: seq<SectionTag>, n: nat): (r: Result<Option<seq<SectionLight>>>)
    requires n <= |tags|
    ensures r.Ok? && r.value.Some? ==> |r.value.value| == n
  {
    if n == 0 then Ok(Some([]))
    else
      var front :- ReadSections(tags, n - 1);
      match front
      case None => Ok(None)
      case Some(ls) =>
        match tags[n - 1]
        case OtherTag => Ok(None)
        case Compound(s) =>
          var l :- ReadSection(s, SkyBefore(tags, n));
          Ok(Some(ls + [l]))
  }

  /** `readLight`: no sections, or sections that are not a list, give null. */
  function ReadLight(sections: SectionsTag): (r: Result<Option<seq<SectionLight>>>)
    ensures sections.Absent? || sections.NotAList? ==> r == Ok(None)
    ensures sections.SectionList? && r.Ok? && r.value.Some? ==> |r.value.value| == |sections.tags|
  {
    match sections
    case SectionList(tags) => ReadSections(tags, |tags|)
    case _ => Ok(None)
  }

  /** What the light of section `k` is, once all sections read: skipped
      when an array is missing, and otherwise the nibble at the block's
      index, 0 for an empty array, and full sky light for an empty sky
      array in a section at or above one with sky data. */
  lemma {:induction false} SectionLightRule(tags: seq<SectionTag>, n: nat, k: nat, ls: seq<SectionLight>)
    requires k < n <= |tags|
    requires ReadSections(tags, n) == Ok(Some(ls))
    ensures tags[k].Compound?
    ensures var s := tags[k].section;
      if s.blockLight.None? || s.skyLight.None? then ls[k] == Skipped
      else (ls[k].Lit? && |ls[k].block| == |ls[k].sky| == SECTION_VOLUME &&
        forall i | 0 <= i < SECTION_VOLUME ::
          LightValue(s.blockLight.value, i, false) == Ok(ls[k].block[i]) &&
          LightValue(s.skyLight.value, i, |s.skyLight.value| == 0 && SkyBefore(tags, k)) == Ok(ls[k].sky[i]))
  {
    var front := ReadSections(tags, n - 1);
    assert front.Ok? && front.value.Some? && ls[..n - 1] == front.value.value;
    if k < n - 1 {
      SectionLightRule(tags, n - 1, k, front.value.value);
    } else {
      var s := tags[k].section;
      if s.blockLight.Some? && s.skyLight.Some? && |s.skyLight.value| == 0 {
        assert SkyBefore(tags, n) == SkyBefore(tags, k) by {
          if SkyBefore(tags, n) {
            var j :| 0 <= j < n && HasSky(tags[j]);
            assert j != k;
          }
        }
      }
    }
  }

  /** Whether an array can be read at every index of a section. */
  predicate ArrayFits(arr: Option<seq<byte>>)
  {
    arr.Some? ==> |arr.value| == 0 || |arr.value| >= SECTION_VOLUME / 2
  }

  /** `readLight` returns storage exactly when the sections are all
      compound tags, provided no array is too short to read. */
  lemma {:induction false} AllCompoundReads(tags: seq<SectionTag>, n: nat)
    requires n <= |tags|
    requires forall j | 0 <= j < n :: tags[j].Compound? ==> ArrayFits(tags[j].section.blockLight) && ArrayFits(tags[j].section.skyLight)
    ensures ReadSections(tags, n).Ok?
    ensures ReadSections(tags, n).value.Some? <==> forall j | 0 <= j < n :: tags[j].Compound?
  {
    if n > 0 {
      AllCompoundReads(tags, n - 1);
    }
  }

  /** The world height of a section's block layer. */
  function WorldY(relY: int, sectionIndex: int, minBuildHeight: int): int
  {
    relY + sectionIndex * CHUNK_WIDTH + minBuildHeight
  }

  /** The storage view: the (block, sky) light stored for a world
      position, if any section set it. */
  function LightAt(ls: seq<SectionLight>, minBuildHeight: int, relX: int, y: int, relZ: int): (r: Option<(nat, nat)>)
  {
    var k := (y - minBuildHeight) / 16;
    var i := BlockIndex(relX, (y - minBuildHeight) % 16, relZ);
    if 0 <= relX < 16 && 0 <= relZ < 16 && 0 <= k < |ls| && ls[k].Lit?
       && |ls[k].block| == |ls[k].sky| == SECTION_VOLUME
    then Some((ls[k].block[i], ls[k].sky[i]))
    else None
  }

  /** Every section writes its own 16 layers: block (x, relY, z) of section
      k lands at world height relY + 16k + minBuildHeight. */
  lemma WorldYPlacement(ls: seq<SectionLight>, minBuildHeight: int, k: nat, relX: int, relY: int, relZ: int)
    requires k < |ls| && InCube(relX, relY, relZ)
    requires ls[k].Lit? && |ls[k].block| == |ls[k].sky| == SECTION_VOLUME
    ensures LightAt(ls, minBuildHeight, relX, WorldY(relY, k, minBuildHeight), relZ) ==
            Some((ls[k].block[BlockIndex(relX, relY, relZ)], ls[k].sky[BlockIndex(relX, relY, relZ)]))
  {
    var y := WorldY(relY, k, minBuildHeight);
    assert y - minBuildHeight == k * 16 + relY;
    assert (y - minBuildHeight) / 16 == k && (y - minBuildHeight) % 16 == relY;
  }

  /** A concrete run: a section without sky data, a section with it, and a
      section whose sky array is empty; the third is lit at full sky light
      everywhere, and the first is dark. */
  lemma EmptySkyAboveSkyIsFullLight(b: seq<byte>, k: seq<byte>)
    requires |b| == 2048 && |k| == 2048
    ensures var tags := [Compound(Section(Some(b), Some([]))), Compound(Section(Some(b), Some(k))),
                         Compound(Section(Some(b), Some([])))];
      var r := ReadSections(tags, 3);
      r.Ok? && r.value.Some? && r.value.value[0].Lit? && r.value.value[2].Lit? &&
      |r.value.value[0].sky| == |r.value.value[2].sky| == SECTION_VOLUME &&
      forall i | 0 <= i < SECTION_VOLUME :: r.value.value[0].sky[i] == 0 && r.value.value[2].sky[i] == MAX_MC_LIGHT
  {
    var tags := [Compound(Section(Some(b), Some([]))), Compound(Section(Some(b), Some(k))),
                 Compound(Section(Some(b), Some([])))];
    assert HasSky(tags[1]) && !HasSky(tags[0]);
    assert SkyBefore(tags, 2);
    assert !SkyBefore(tags, 0);
    var r := ReadSections(tags, 3);
    AllCompoundReads(tags, 3);
    SectionLightRule(tags, 3, 0, r.value.value);
    SectionLightRule(tags, 3, 2, r.value.value);
  }

  /** The stored position of a chunk; a missing coordinate reads as 0. */
  datatype ChunkTag = ChunkTag(xPos: Option<int32>, zPos: Option<int32>, status: Option<string>)

  datatype ChunkType = ProtoChunk | LevelChunk

  /** `read`'s position check: a chunk stored at a different position is
      rejected unless its stored position is (0, 0), which external tools
      write for chunks without one. */
  function StoredPositionAccepted(expected: (int, int), tag: ChunkTag): (ok: bool)
    ensures tag.xPos.None? && tag.zPos.None? ==> ok
    ensures expected != (0, 0) && tag.xPos == Some(0) && tag.zPos.None? ==> ok
    ensures tag.xPos.Some? && tag.zPos.Some? ==>
      (ok <==> (tag.xPos.value, tag.zPos.value) == expected || (tag.xPos.value, tag.zPos.value) == (0, 0))
  {
    var actual := (tag.xPos.GetOr(0), tag.zPos.GetOr(0));
    actual == expected || actual == (0, 0)
  }

  /** `readChunkType`: the type of the stored status as `statusType`
      (`ChunkStatus.byName` and `getChunkType`) names it, and a proto-chunk
      when the status is missing or unknown. */
  function ReadChunkType(tag: ChunkTag, statusType: string -> Option<ChunkType>): (t: ChunkType)
    ensures tag.status.None? ==> t == ProtoChunk
    ensures tag.status.Some? && statusType(tag.status.value).None? ==> t == ProtoChunk
    ensures tag.status.Some? && statusType(tag.status.value).Some? ==> t == statusType(tag.status.value).value
  {
    match tag.status
    case Some(name) => statusType(name).GetOr(ProtoChunk)
    case None => ProtoChunk
  }

  /** The header part of `read`: null for a misplaced chunk, otherwise the
      chunk type to build. */
  function ReadHeader(expected: (int, int), tag: ChunkTag, statusType: string -> Option<ChunkType>): (r: Option<ChunkType>)
    ensures r.Some? <==> StoredPositionAccepted(expected, tag)
    ensures r.Some? ==> r.value == ReadChunkType(tag, statusType)
  {
    if StoredPositionAccepted(expected, tag) then Some(ReadChunkType(tag, statusType)) else None
  }
}
