/** The height bounds a chunk wrapper derives from its section array, the
    caches that keep them, the neighbour check before lighting, and the
    block-light source list that is filled once. */
module ChunkWrapper {
  import opened Wrappers
  import opened JavaInt

  /** A slot of the chunk's section array: missing (null), or a section
      that does or does not hold only air. */
  datatype Slot = Missing | Present(onlyAir: bool)

  predicate NonEmpty(s: Slot)
  {
    s.Present? && !s.onlyAir
  }

  /** `getChunkSectionMinHeight`: section `index` starts 16 blocks per
      section above the bottom of the world. */
  function SectionMinHeight(index: int, minBuildHeight: int): int
  {
    index * 16 + minBuildHeight
  }

  /** The bottom-up scan of `getMinNonEmptyHeight` from section `k`: the
      bottom of the lowest non-empty section at or above `k`, or the bottom
      of the world when there is none. */
  function MinNonEmptyFrom(sections: seq<Slot>, minBuildHeight: int, k: nat): (h: int)
    requires k <= |sections|
    ensures (forall i | k <= i < |sections| :: !NonEmpty(sections[i])) ==> h == minBuildHeight
    ensures (exists i | k <= i < |sections| :: NonEmpty(sections[i])) ==>
      exists i | k <= i < |sections| :: NonEmpty(sections[i]) && h == SectionMinHeight(i, minBuildHeight) &&
        forall j | k <= j < i :: !NonEmpty(sections[j])
    decreases |sections| - k
  {
    if k == |sections| then minBuildHeight
    else if NonEmpty(sections[k]) then SectionMinHeight(k, minBuildHeight)
    else MinNonEmptyFrom(sections, minBuildHeight, k + 1)
  }

  /** The top-down scan of `getMaxNonEmptyHeight` over the sections below
      `k`. `h` is the value held so far: each section examined first sets
      it to the top of that section, so a chunk of empty sections ends at
      the top of section 0. */
  function MaxNonEmptyBelow(sections: seq<Slot>, minBuildHeight: int, k: nat, h: int): (r: int)
    requires k <= |sections|
    ensures k == 0 ==> r == h
    ensures k > 0 && (forall i | 0 <= i < k :: !NonEmpty(sections[i])) ==> r == SectionMinHeight(0, minBuildHeight) + 16
    ensures (exists i | 0 <= i < k :: NonEmpty(sections[i])) ==>
      exists i | 0 <= i < k :: NonEmpty(sections[i]) && r == SectionMinHeight(i, minBuildHeight) + 16 &&
        forall j | i < j < k :: !NonEmpty(sections[j])
  {
    if k == 0 then h
    else
      var top := SectionMinHeight(k - 1, minBuildHeight) + 16;
      if NonEmpty(sections[k - 1]) then top
      else MaxNonEmptyBelow(sections, minBuildHeight, k - 1, top)
  }

  /** The uncached height bounds. */
  function MinNonEmpty(sections: seq<Slot>, minBuildHeight: int): int
  {
    MinNonEmptyFrom(sections, minBuildHeight, 0)
  }

  function MaxNonEmpty(sections: seq<Slot>, minBuildHeight: int, maxBuildHeight: int): int
  {
    MaxNonEmptyBelow(sections, minBuildHeight, |sections|, maxBuildHeight)
  }

  /** Every non-empty section lies between the two bounds. */
  lemma NonEmptyWithinBounds(sections: seq<Slot>, minBuildHeight: int, maxBuildHeight: int, i: nat)
    requires i < |sections| && NonEmpty(sections[i])
    ensures MinNonEmpty(sections, minBuildHeight) <= SectionMinHeight(i, minBuildHeight)
    ensures SectionMinHeight(i, minBuildHeight) + 16 <= MaxNonEmpty(sections, minBuildHeight, maxBuildHeight)
  {
  }

  /** The wrapper's state: the chunk's sections and build heights, the two
      caches (with `Integer.MIN_VALUE` and `Integer.MAX_VALUE` meaning "not
      computed"), and the block-light list (null until first asked for). */
  datatype Wrapper = Wrapper(
    sections: seq<Slot>,
    minBuildHeight: int,
    maxBuildHeight: int,
    minCache: int,
    maxCache: int,
    lightList: Option<seq<(int, int, int)>>)

  /** A wrapper as constructed: nothing cached yet. */
  function NewWrapper(sections: seq<Slot>, minBuildHeight: int, maxBuildHeight: int): (w: Wrapper)
    ensures CachesValid(w) && w.lightList.None?
  {
    Wrapper(sections, minBuildHeight, maxBuildHeight, INT_MIN, INT_MAX, None)
  }

  /** A cache holds either its sentinel or the value it caches. */
  predicate CachesValid(w: Wrapper)
  {
    (w.minCache == INT_MIN || w.minCache == MinNonEmpty(w.sections, w.minBuildHeight)) &&
    (w.maxCache == INT_MAX || w.maxCache == MaxNonEmpty(w.sections, w.minBuildHeight, w.maxBuildHeight))
  }

  /** `getMinNonEmptyHeight`: the cached value, or the scan, which is then
      cached. */
  function GetMinNonEmptyHeight(w: Wrapper): (r: (int, Wrapper))
    ensures CachesValid(w) ==> r.0 == MinNonEmpty(w.sections, w.minBuildHeight) && CachesValid(r.1)
    ensures r.1.sections == w.sections && r.1.maxCache == w.maxCache && r.1.lightList == w.lightList
  {
    if w.minCache != INT_MIN then (w.minCache, w)
    else
      var h := MinNonEmpty(w.sections, w.minBuildHeight);
      (h, w.(minCache := h))
  }

  /** `getMaxNonEmptyHeight`, cached the same way. */
  function GetMaxNonEmptyHeight(w: Wrapper): (r: (int, Wrapper))
    ensures CachesValid(w) ==> r.0 == MaxNonEmpty(w.sections, w.minBuildHeight, w.maxBuildHeight) && CachesValid(r.1)
    ensures r.1.sections == w.sections && r.1.minCache == w.minCache && r.1.lightList == w.lightList
  {
    if w.maxCache != INT_MAX then (w.maxCache, w)
    else
      var h := MaxNonEmpty(w.sections, w.minBuildHeight, w.maxBuildHeight);
      (h, w.(maxCache := h))
  }

  /** Asking again gives the same heights, and once a height is cached
      (it is, unless it equals its sentinel) the state no longer changes. */
  lemma RepeatedHeightsAgree(w: Wrapper)
    requires CachesValid(w)
    ensures var (a, w1) := GetMinNonEmptyHeight(w); var (b, w2) := GetMinNonEmptyHeight(w1);
      a == b && (a != INT_MIN ==> w2 == w1)
    ensures var (a, w1) := GetMaxNonEmptyHeight(w); var (b, w2) := GetMaxNonEmptyHeight(w1);
      a == b && (a != INT_MAX ==> w2 == w1)
  {
  }

  /** `getWorldBlockLightPosList`: filled from the chunk's light sources on
      the first call; later calls return that list whatever the sources
      have become. */
  function GetWorldBlockLightPosList(w: Wrapper, sources: seq<(int, int, int)>): (r: (seq<(int, int, int)>, Wrapper))
    ensures w.lightList.None? ==> r.0 == sources
    ensures w.lightList.Some? ==> r.0 == w.lightList.value && r.1 == w
    ensures r.1.lightList == Some(r.0) && r.1.sections == w.sections
  {
    match w.lightList
    case Some(list) => (list, w)
    case None => (sources, w.(lightList := Some(sources)))
  }

  /** Whatever the sources at the second call, it returns the first list. */
  lemma LightListIsStable(w: Wrapper, first: seq<(int, int, int)>, later: seq<(int, int, int)>)
    ensures var (a, w1) := GetWorldBlockLightPosList(w, first);
      GetWorldBlockLightPosList(w1, later) == (a, w1)
  {
  }

  /** Whether the chunk at offset (`dx`, `dz`) from (`x`, `z`) is present. */
  predicate NeighbourPresent(present: (int, int) -> bool, x: int, z: int, dx: int, dz: int)
  {
    present(x + dx, z + dz)
  }

  predicate IsNeighbourOffset(dx: int, dz: int)
  {
    -1 <= dx <= 1 && -1 <= dz <= 1 && (dx != 0 || dz != 0)
  }

  /** `doNearbyChunksExist`: a lit generation region always counts as
      having its neighbours; otherwise each of the 8 chunks around
      (`x`, `z`) is looked up and the first missing one answers false. */
  method DoNearbyChunksExist(litRegion: bool, present: (int, int) -> bool, x: int, z: int) returns (r: bool)
    ensures litRegion ==> r
    ensures !litRegion ==>
      (r <==> forall dx, dz | IsNeighbourOffset(dx, dz) :: NeighbourPresent(present, x, z, dx, dz))
  {
    if litRegion {
      return true;
    }
    var dx := -1;
    while dx <= 1
      invariant -1 <= dx <= 2
      invariant forall a, b | IsNeighbourOffset(a, b) && a < dx :: NeighbourPresent(present, x, z, a, b)
    {
      var dz := -1;
      while dz <= 1
        invariant -1 <= dz <= 2
        invariant forall a, b | IsNeighbourOffset(a, b) && (a < dx || (a == dx && b < dz)) :: NeighbourPresent(present, x, z, a, b)
      {
        if dx == 0 && dz == 0 {
        } else if !present(dx + x, dz + z) {
          assert !NeighbourPresent(present, x, z, dx, dz);
          return false;
        }
        dz := dz + 1;
      }
      dx := dx + 1;
    }
    return true;
  }
}
