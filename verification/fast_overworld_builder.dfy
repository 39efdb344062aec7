/** The fast overworld LOD builder. For every block column of a section it
    scans the world from the top down in steps of the configured
    resolution, merges neighbouring samples that carry the same
    `biome|material` pair into one data point, and interns every pair into
    the LOD's id table. The world is a record of pure functions standing
    for the server's block, biome and light queries. */
module FastOverworldBuilder {
  import opened Wrappers
  import opened JavaInt
  import opened Configuration
  import opened ConfigKeys

  const AIR := "minecraft:air"
  const VOID_AIR := "minecraft:void_air"

  predicate IsAir(material: string)
  {
    material == AIR || material == VOID_AIR
  }

  /** The materials that end the scan a little below themselves. */
  predicate IsGround(material: string)
  {
    material in {"minecraft:stone", "minecraft:grass", "minecraft:dirt", "minecraft:gravel",
                 "minecraft:sand", "minecraft:sandstone", "minecraft:mycelium"}
  }

  /** The world as the builder queries it: build limits, sea level, the
      highest block of a column, and the material, biome and light at a
      position. */
  datatype World = World(
    minY: int,
    maxY: int,
    seaLevel: int,
    highestY: (int, int) -> int,
    material: (int, int, int) -> string,
    biome: (int, int) -> string,
    skyLight: (int, int, int) -> int,
    blockLight: (int, int, int) -> int)

  /** The number of block layers between the build limits. */
  function Height(w: World): int
  {
    w.maxY - w.minY
  }

  // ---------------------------------------------------------------
  // Settings
  // ---------------------------------------------------------------

  datatype Settings = Settings(yStep: int32, scanToSeaLevel: bool, includeNonCollidingTopLayer: bool)

  /** The builder's three settings, read through the world's view of the
      configuration: the resolution has no default and is unboxed, the two
      flags default to false and true. */
  function ReadSettings(c: Config, scope: Scope): (r: Result<Settings>)
    ensures r.Ok? ==> Get(c, scope, BUILDER_RESOLUTION, Null) == Int(r.value.yStep)
    ensures r.Ok? ==> Get(c, scope, SCAN_TO_SEA_LEVEL, Bool(false)) == Bool(r.value.scanToSeaLevel)
    ensures r.Ok? ==>
      Get(c, scope, INCLUDE_NON_COLLIDING_TOP_LAYER, Bool(true)) == Bool(r.value.includeNonCollidingTopLayer)
    ensures Get(c, scope, BUILDER_RESOLUTION, Null) == Null ==> r == Err(NullPointer)
    ensures (Get(c, scope, BUILDER_RESOLUTION, Null).Int? && Get(c, scope, SCAN_TO_SEA_LEVEL, Bool(false)).Bool? &&
             Get(c, scope, INCLUDE_NON_COLLIDING_TOP_LAYER, Bool(true)).Bool?) ==> r.Ok?
  {
    var step :- GetInt(c, scope, BUILDER_RESOLUTION, None);
    if step.None? then Err(NullPointer)
    else
      var toSea :- GetBool(c, scope, SCAN_TO_SEA_LEVEL, Some(false));
      if toSea.None? then Err(NullPointer)
      else
        var topLayer :- GetBool(c, scope, INCLUDE_NON_COLLIDING_TOP_LAYER, Some(true));
        if topLayer.None? then Err(NullPointer)
        else Ok(Settings(step.value, toSea.value, topLayer.value))
  }

  // ---------------------------------------------------------------
  // The id table
  // ---------------------------------------------------------------

  /** One entry of the LOD's id table (the third, block-state, part is
      always null here). */
  datatype IdMapping = IdMapping(biome: string, material: string)

  /** The key the builder looks a pair up under. */
  function CompositeKey(biome: string, material: string): string
  {
    biome + "|" + material
  }

  function KeyOf(m: IdMapping): string
  {
    CompositeKey(m.biome, m.material)
  }

  /** `idMappings` and the `mapMap` index over it. */
  datatype IdTable = IdTable(mappings: seq<IdMapping>, ids: map<string, nat>)

  const EMPTY_TABLE := IdTable([], map[])

  /** The index and the list agree: every indexed key points at a mapping
      with that key, and every mapping is indexed under its key at its own
      position. */
  ghost predicate TableValid(t: IdTable)
  {
    (forall key | key in t.ids :: t.ids[key] < |t.mappings| && KeyOf(t.mappings[t.ids[key]]) == key) &&
    (forall i | 0 <= i < |t.mappings| :: KeyOf(t.mappings[i]) in t.ids && t.ids[KeyOf(t.mappings[i])] == i)
  }

  /** The id of a pair: its index when the key is known, otherwise a new
      mapping appended at the end. */
  function Intern(t: IdTable, biome: string, material: string): (r: (nat, IdTable))
    ensures t.mappings <= r.1.mappings
    ensures TableValid(t) ==>
      TableValid(r.1) && r.0 < |r.1.mappings| && KeyOf(r.1.mappings[r.0]) == CompositeKey(biome, material)
    ensures CompositeKey(biome, material) in t.ids ==> r.1 == t
    ensures CompositeKey(biome, material) !in t.ids ==> r.1.mappings == t.mappings + [IdMapping(biome, material)]
  {
    var key := CompositeKey(biome, material);
    if key in t.ids then (t.ids[key], t)
    else (|t.mappings|, IdTable(t.mappings + [IdMapping(biome, material)], t.ids[key := |t.mappings|]))
  }

  /** Every key has exactly one id: two positions of a valid table never
      hold the same key, and asking again returns the same id. */
  lemma TableKeysAreUnique(t: IdTable, biome: string, material: string)
    requires TableValid(t)
    ensures forall i, j | 0 <= i < j < |t.mappings| :: KeyOf(t.mappings[i]) != KeyOf(t.mappings[j])
    ensures var (id, t') := Intern(t, biome, material); Intern(t', biome, material) == (id, t')
  {
    forall i, j | 0 <= i < j < |t.mappings|
      ensures KeyOf(t.mappings[i]) != KeyOf(t.mappings[j])
    {
      assert t.ids[KeyOf(t.mappings[i])] == i;
    }
  }

  /** Resource names hold no `|`, and for them the key determines the
      pair, so a mapping found by key is the pair asked for. */
  lemma {:induction false} KeyDeterminesPair(b1: string, m1: string, b2: string, m2: string)
    requires '|' !in b1 && '|' !in b2
    ensures CompositeKey(b1, m1) == CompositeKey(b2, m2) <==> b1 == b2 && m1 == m2
  {
    var k1, k2 := CompositeKey(b1, m1), CompositeKey(b2, m2);
    if |b1| < |b2| {
      assert k1[|b1|] != k2[|b1|];
    } else if |b2| < |b1| {
      assert k2[|b2|] != k1[|b2|];
    } else if k1 == k2 {
      assert b1 == k1[..|b1|] == k2[..|b2|] == b2;
      assert m1 == k1[|b1| + 1..] == k2[|b2| + 1..] == m2;
    }
  }

  // ---------------------------------------------------------------
  // One column
  // ---------------------------------------------------------------

  /** The light just above a data point, as read when it was created:
      nothing (the data point's default of zero) when that block is past
      the top of the world. */
  datatype Light = Light(sky: int, block: int)

  /** A data point of a column: its lowest layer counted from the world's
      bottom, its height in layers, its id and its light. */
  datatype Run = Run(startY: int, height: int, mappingId: nat, light: Option<Light>)

  /** The first layer above a data point. */
  function Top(r: Run): int
  {
    r.startY + r.height
  }

  /** The non-colliding top layer: from the highest block, climb while the
      block above is inside the world and is not air. */
  function RaiseTopLayer(w: World, x: int, z: int, top: int): (r: int)
    decreases w.maxY - top
    ensures r >= top && (top < w.maxY ==> r < w.maxY)
    ensures r + 1 >= w.maxY || IsAir(w.material(x, r + 1, z))
    ensures forall y | top < y <= r :: !IsAir(w.material(x, y, z))
  {
    if top + 1 < w.maxY && !IsAir(w.material(x, top + 1, z)) then RaiseTopLayer(w, x, z, top + 1) else top
  }

  /** What a column's scan fixes before its loop: the position, the biome,
      the highest colliding block, the top layer, the step to restore
      (`originalStep`) and the first sample's relative y. */
  datatype Column = Column(x: int, z: int, biome: string, hardTopLayer: int, topLayer: int,
                           originalStep: int, firstY: int)

  /** The loop's variables. */
  datatype Scan = Scan(relativeY: int, yStep: int, solidGround: Option<int>, runs: seq<Run>, table: IdTable)

  /** A column's set-up; `yStep` is the step the column starts with. A
      top layer above the highest block switches to single steps. */
  function Setup(w: World, s: Settings, yStep: int, x: int, z: int, table: IdTable): (r: (Column, Scan))
    ensures r.1.relativeY == r.0.firstY && r.1.relativeY + r.1.yStep == Height(w)
    ensures r.1.yStep == 1 || r.1.yStep == r.0.originalStep
    ensures r.0.topLayer >= r.0.hardTopLayer
  {
    var hard := w.highestY(x, z);
    var top := if s.includeNonCollidingTopLayer then RaiseTopLayer(w, x, z, hard) else hard;
    var step := if top != hard then 1 else yStep;
    (Column(x, z, w.biome(x, z), hard, top, yStep, Height(w) - step), Scan(Height(w) - step, step, None, [], table))
  }

  /** The loop condition: above the solid-ground cut-off, and the sample
      still reaches layer 0. */
  predicate Continues(st: Scan)
  {
    (st.solidGround.None? || st.relativeY >= st.solidGround.value) && st.relativeY >= 1 - st.yStep
  }

  /** A sample reaching below the bottom is cut to start at layer 0; its
      top stays where it was. */
  function Clamp(relativeY: int, yStep: int): (r: (int, int))
    ensures r.0 >= 0 && r.0 + r.1 == relativeY + yStep
    ensures relativeY >= 0 ==> r == (relativeY, yStep)
    ensures yStep >= 1 && relativeY >= 1 - yStep ==> r.1 >= 1
  {
    if relativeY < 0 then (0, yStep - -relativeY) else (relativeY, yStep)
  }

  /** The solid-ground cut-off: set once, ten layers below the first
      ground sample or below sea level, whichever is lower, and only at or
      below sea level when the scan is told to reach it. */
  function SolidGround(w: World, s: Settings, current: Option<int>, relativeY: int, highWorldY: int,
                       material: string): (r: Option<int>)
    ensures current.Some? ==> r == current
    ensures current.None? && r.Some? ==>
      IsGround(material) && (!s.scanToSeaLevel || highWorldY <= w.seaLevel) &&
      r.value <= relativeY - 10 && r.value <= w.seaLevel - w.minY - 10 &&
      (r.value == relativeY - 10 || r.value == w.seaLevel - w.minY - 10)
    ensures current.None? && IsGround(material) && (!s.scanToSeaLevel || highWorldY <= w.seaLevel) ==> r.Some?
  {
    if current.None? && (!s.scanToSeaLevel || highWorldY <= w.seaLevel) && IsGround(material) then
      var a, b := relativeY - 10, w.seaLevel - w.minY - 10;
      Some(if a <= b then a else b)
    else current
  }

  /** The light above the layer `top` of the column. */
  function LightAbove(w: World, c: Column, top: int): Option<Light>
  {
    if w.minY + top < w.maxY then
      Some(Light(w.skyLight(c.x, w.minY + top, c.z), w.blockLight(c.x, w.minY + top, c.z)))
    else None
  }

  /** Merging a sample into the data point above it: the point grows
      downwards and keeps its top, id and light. */
  function Extend(r: Run, step: int): (e: Run)
    ensures Top(e) == Top(r) && e.height == r.height + step
    ensures e.mappingId == r.mappingId && e.light == r.light
  {
    r.(startY := r.startY - step, height := r.height + step)
  }

  /** What one pass reads before it touches the column: the clamped
      sample, the step after the top-layer restore, the sampled material,
      the cut-off and the material's id. */
  datatype Sample = Sample(relativeY: int, thisStep: int, yStep: int, material: string,
                           ground: Option<int>, id: nat, table: IdTable)

  function TakeSample(w: World, s: Settings, c: Column, st: Scan): (p: Sample)
    ensures p.relativeY >= 0 && p.relativeY + p.thisStep == st.relativeY + st.yStep
    ensures st.relativeY >= 0 ==> p.relativeY == st.relativeY && p.thisStep == st.yStep
    ensures st.yStep >= 1 && st.relativeY >= 1 - st.yStep ==> p.thisStep >= 1
    ensures p.yStep == st.yStep || p.yStep == c.originalStep
    ensures p.material == w.material(c.x, w.minY + p.relativeY + p.thisStep - 1, c.z)
    ensures st.table.mappings <= p.table.mappings
    ensures TableValid(st.table) ==>
      TableValid(p.table) && p.id < |p.table.mappings| && KeyOf(p.table.mappings[p.id]) == CompositeKey(c.biome, p.material)
    ensures st.solidGround.Some? ==> p.ground == st.solidGround
  {
    var (relativeY, thisStep) := Clamp(st.relativeY, st.yStep);
    var highWorldY := w.minY + relativeY + thisStep - 1;
    var yStep := if highWorldY == c.hardTopLayer then c.originalStep else st.yStep;
    var material := w.material(c.x, highWorldY, c.z);
    var ground := SolidGround(w, s, st.solidGround, relativeY, highWorldY, material);
    var (id, table) := Intern(st.table, c.biome, material);
    Sample(relativeY, thisStep, yStep, material, ground, id, table)
  }

  /** The rest of the pass: merge the sample into the data point above
      when the ids match, otherwise start a new data point (the air fill,
      air below something else, or a new material), then step down. */
  function Place(w: World, c: Column, st: Scan, p: Sample): (r: Scan)
    ensures r.table == p.table && r.solidGround == p.ground
  {
    if |st.runs| > 0 && st.runs[|st.runs| - 1].mappingId == p.id then
      var runs := st.runs[..|st.runs| - 1] + [Extend(st.runs[|st.runs| - 1], p.thisStep)];
      Scan(p.relativeY - p.yStep, p.yStep, p.ground, runs, p.table)
    else
      var light := LightAbove(w, c, p.relativeY + p.thisStep);
      if IsAir(p.material) && p.relativeY == c.firstY then
        var relativeTopLayer := c.topLayer - w.minY;
        var run := Run(relativeTopLayer + 1, Height(w) - relativeTopLayer, p.id, light);
        Scan(run.startY - p.yStep, p.yStep, p.ground, st.runs + [run], p.table)
      else if IsAir(p.material) then
        Scan(p.relativeY - 1, 1, p.ground, st.runs + [Run(p.relativeY, p.thisStep, p.id, light)], p.table)
      else
        Scan(p.relativeY - c.originalStep, c.originalStep, p.ground,
             st.runs + [Run(p.relativeY, p.thisStep, p.id, light)], p.table)
  }

  /** One pass of the loop body, including the final `relativeY -= yStep`. */
  function Step(w: World, s: Settings, c: Column, st: Scan): (r: Scan)
    ensures st.table.mappings <= r.table.mappings && (TableValid(st.table) ==> TableValid(r.table))
    ensures st.solidGround.Some? ==> r.solidGround == st.solidGround
  {
    Place(w, c, st, TakeSample(w, s, c, st))
  }

  /** The loop: run the body while the condition holds, for at most `fuel`
      passes. */
  function ScanColumn(w: World, s: Settings, c: Column, st: Scan, fuel: nat): (r: Scan)
    decreases fuel
    ensures st.table.mappings <= r.table.mappings && (TableValid(st.table) ==> TableValid(r.table))
    ensures st.solidGround.Some? ==> r.solidGround == st.solidGround
  {
    if fuel == 0 || !Continues(st) then st else ScanColumn(w, s, c, Step(w, s, c, st), fuel - 1)
  }

  // ---------------------------------------------------------------
  // What the loop keeps
  // ---------------------------------------------------------------

  /** Ids are table positions, and neighbouring data points never share
      one. */
  ghost predicate IdsValid(st: Scan)
  {
    TableValid(st.table) &&
    (forall k | 0 <= k < |st.runs| :: st.runs[k].mappingId < |st.table.mappings|) &&
    (forall k | 0 <= k < |st.runs| - 1 :: st.runs[k].mappingId != st.runs[k + 1].mappingId)
  }

  /** Where the loop stands: the step is the original one or 1; before the
      first sample it is at the set-up's first sample, and afterwards the
      next sample ends where the lowest data point begins. */
  predicate Positioned(w: World, c: Column, st: Scan)
  {
    (st.yStep == 1 || st.yStep == c.originalStep) &&
    (|st.runs| == 0 ==> st.relativeY == c.firstY && st.relativeY + st.yStep == Height(w)) &&
    (|st.runs| > 0 ==> st.runs[|st.runs| - 1].startY == st.relativeY + st.yStep)
  }

  /** The first sample starts at the top of the world; it is air exactly
      when it is the air fill from above the top layer. */
  predicate FirstSampleIsAir(w: World, c: Column)
  {
    c.firstY >= 0 && IsAir(w.material(c.x, w.maxY - 1, c.z))
  }

  /** The data points stack downwards without gaps or overlaps. The
      first one ends at the top of the world, or one layer above it when it
      is the air fill; an air fill is the only data point that can break
      the stack. */
  predicate Stacked(w: World, c: Column, st: Scan)
  {
    (|st.runs| > 0 ==> (Top(st.runs[0]) == Height(w) + 1 <==> FirstSampleIsAir(w, c))) &&
    (|st.runs| > 0 ==> Top(st.runs[0]) == Height(w) || Top(st.runs[0]) == Height(w) + 1) &&
    (forall k | 0 <= k < |st.runs| - 1 :: Top(st.runs[k + 1]) == st.runs[k].startY || Top(st.runs[k + 1]) == Height(w) + 1)
  }

  /** Every data point other than an air fill is labelled with the pair of
      its top block and carries the light just above that block. */
  ghost predicate Labelled(w: World, c: Column, st: Scan)
  {
    forall k | 0 <= k < |st.runs| :: RunLabelled(w, c, st.table.mappings, st.runs[k])
  }

  ghost predicate RunLabelled(w: World, c: Column, mappings: seq<IdMapping>, r: Run)
  {
    Top(r) == Height(w) + 1 ||
    (r.mappingId < |mappings| && KeyOf(mappings[r.mappingId]) == LabelAt(w, c, Top(r) - 1) &&
     r.light == LightAbove(w, c, Top(r)))
  }

  /** The key of the block at relative layer `y` of the column. */
  function LabelAt(w: World, c: Column, y: int): string
  {
    CompositeKey(c.biome, w.material(c.x, w.minY + y, c.z))
  }

  /** With a positive resolution every data point other than an air fill
      lies inside the world and is at least one layer high. */
  predicate InsideWorld(w: World, c: Column, st: Scan)
  {
    c.originalStep >= 1 ==>
      forall k | 0 <= k < |st.runs| :: Top(st.runs[k]) == Height(w) + 1 || (st.runs[k].startY >= 0 && st.runs[k].height >= 1)
  }

  ghost predicate ScanInv(w: World, c: Column, st: Scan)
  {
    IdsValid(st) && Positioned(w, c, st) && Stacked(w, c, st) && Labelled(w, c, st) && InsideWorld(w, c, st)
  }

  /** What a pass's sample is known to be, apart from how it is computed. */
  ghost predicate Sampled(w: World, c: Column, st: Scan, p: Sample)
  {
    p.relativeY >= 0 && p.relativeY + p.thisStep == st.relativeY + st.yStep &&
    (st.relativeY >= 0 ==> p.relativeY == st.relativeY && p.thisStep == st.yStep) &&
    (st.yStep >= 1 && st.relativeY >= 1 - st.yStep ==> p.thisStep >= 1) &&
    (p.yStep == st.yStep || p.yStep == c.originalStep) &&
    p.material == w.material(c.x, w.minY + p.relativeY + p.thisStep - 1, c.z) &&
    TableValid(p.table) && st.table.mappings <= p.table.mappings &&
    p.id < |p.table.mappings| && KeyOf(p.table.mappings[p.id]) == CompositeKey(c.biome, p.material)
  }

  /** A merge changes only the last data point, and only as `Extend` does. */
  lemma PlaceMerges(w: World, c: Column, st: Scan, p: Sample)
    requires |st.runs| > 0 && st.runs[|st.runs| - 1].mappingId == p.id
    ensures var r := Place(w, c, st, p);
      |r.runs| == |st.runs| && r.runs[..|st.runs| - 1] == st.runs[..|st.runs| - 1] &&
      r.runs[|st.runs| - 1] == Extend(st.runs[|st.runs| - 1], p.thisStep) &&
      r.relativeY + r.yStep == p.relativeY && r.yStep == p.yStep
  {
  }

  /** Otherwise one data point is appended, starting where the loop then
      stands; it is the air fill or exactly the sample. */
  lemma PlaceAppends(w: World, c: Column, st: Scan, p: Sample)
    requires !(|st.runs| > 0 && st.runs[|st.runs| - 1].mappingId == p.id)
    ensures var r := Place(w, c, st, p);
      var n := |st.runs|;
      |r.runs| == n + 1 && r.runs[..n] == st.runs && r.runs[n].mappingId == p.id &&
      r.runs[n].startY == r.relativeY + r.yStep &&
      (r.yStep == p.yStep || r.yStep == 1 || r.yStep == c.originalStep) &&
      (IsAir(p.material) && p.relativeY == c.firstY ==>
         r.runs[n].startY == c.topLayer - w.minY + 1 && Top(r.runs[n]) == Height(w) + 1) &&
      (!(IsAir(p.material) && p.relativeY == c.firstY) ==>
         r.runs[n] == Run(p.relativeY, p.thisStep, p.id, LightAbove(w, c, p.relativeY + p.thisStep)))
  {
  }

  lemma PlaceKeepsIds(w: World, c: Column, st: Scan, p: Sample)
    requires IdsValid(st) && Sampled(w, c, st, p)
    ensures IdsValid(Place(w, c, st, p))
  {
    var r, n := Place(w, c, st, p), |st.runs|;
    if n > 0 && st.runs[n - 1].mappingId == p.id {
      PlaceMerges(w, c, st, p);
      assert forall k | 0 <= k < n - 1 :: r.runs[k] == st.runs[k];
    } else {
      PlaceAppends(w, c, st, p);
      assert forall k | 0 <= k < n :: r.runs[k] == st.runs[k];
    }
  }

  lemma PlaceKeepsPosition(w: World, c: Column, st: Scan, p: Sample)
    requires Positioned(w, c, st) && Sampled(w, c, st, p)
    ensures Positioned(w, c, Place(w, c, st, p))
  {
    var n := |st.runs|;
    if n > 0 && st.runs[n - 1].mappingId == p.id {
      PlaceMerges(w, c, st, p);
    } else {
      PlaceAppends(w, c, st, p);
    }
  }

  lemma PlaceKeepsStack(w: World, c: Column, st: Scan, p: Sample)
    requires Positioned(w, c, st) && Stacked(w, c, st) && Sampled(w, c, st, p)
    ensures Stacked(w, c, Place(w, c, st, p))
  {
    var r, n := Place(w, c, st, p), |st.runs|;
    if n > 0 && st.runs[n - 1].mappingId == p.id {
      PlaceMerges(w, c, st, p);
      assert forall k | 0 <= k < n - 1 :: r.runs[k] == st.runs[k];
      assert Top(r.runs[0]) == Top(st.runs[0]);
    } else {
      PlaceAppends(w, c, st, p);
      assert forall k | 0 <= k < n :: r.runs[k] == st.runs[k];
      if n == 0 {
        assert p.relativeY == c.firstY <==> c.firstY >= 0;
      }
    }
  }

  /** A label stays true when the table grows. */
  lemma LabelSurvivesGrowth(w: World, c: Column, mappings: seq<IdMapping>, more: seq<IdMapping>, r: Run)
    requires RunLabelled(w, c, mappings, r) && mappings <= more
    ensures RunLabelled(w, c, more, r)
  {
    if Top(r) != Height(w) + 1 {
      assert more[r.mappingId] == mappings[r.mappingId];
    }
  }

  lemma PlaceKeepsLabels(w: World, c: Column, st: Scan, p: Sample)
    requires Labelled(w, c, st) && Positioned(w, c, st) && Sampled(w, c, st, p)
    ensures Labelled(w, c, Place(w, c, st, p))
  {
    var r, n := Place(w, c, st, p), |st.runs|;
    forall k | 0 <= k < n
      ensures RunLabelled(w, c, p.table.mappings, st.runs[k])
    {
      LabelSurvivesGrowth(w, c, st.table.mappings, p.table.mappings, st.runs[k]);
    }
    if n > 0 && st.runs[n - 1].mappingId == p.id {
      PlaceMerges(w, c, st, p);
      assert forall k | 0 <= k < n - 1 :: r.runs[k] == st.runs[k];
      assert RunLabelled(w, c, p.table.mappings, r.runs[n - 1]);
    } else {
      PlaceAppends(w, c, st, p);
      assert forall k | 0 <= k < n :: r.runs[k] == st.runs[k];
      assert RunLabelled(w, c, p.table.mappings, r.runs[n]);
    }
  }

  lemma PlaceKeepsInside(w: World, c: Column, st: Scan, p: Sample)
    requires Positioned(w, c, st) && InsideWorld(w, c, st) && Continues(st) && Sampled(w, c, st, p)
    ensures InsideWorld(w, c, Place(w, c, st, p))
  {
    var r, n := Place(w, c, st, p), |st.runs|;
    if n > 0 && st.runs[n - 1].mappingId == p.id {
      PlaceMerges(w, c, st, p);
      assert forall k | 0 <= k < n - 1 :: r.runs[k] == st.runs[k];
    } else {
      PlaceAppends(w, c, st, p);
      assert forall k | 0 <= k < n :: r.runs[k] == st.runs[k];
    }
  }

  /** One pass keeps everything the loop keeps. */
  lemma StepKeepsInv(w: World, s: Settings, c: Column, st: Scan)
    requires ScanInv(w, c, st) && Continues(st)
    ensures ScanInv(w, c, Step(w, s, c, st))
  {
    var p := TakeSample(w, s, c, st);
    assert Sampled(w, c, st, p);
    PlaceKeepsIds(w, c, st, p);
    PlaceKeepsPosition(w, c, st, p);
    PlaceKeepsStack(w, c, st, p);
    PlaceKeepsLabels(w, c, st, p);
    PlaceKeepsInside(w, c, st, p);
  }

  /** Whatever one pass keeps, the whole loop keeps. */
  lemma {:induction false} ScanKeeps(w: World, s: Settings, c: Column, st: Scan, fuel: nat, inv: Scan -> bool)
    requires inv(st)
    requires forall x: Scan | Continues(x) && inv(x) :: inv(Step(w, s, c, x))
    ensures inv(ScanColumn(w, s, c, st, fuel))
    decreases fuel
  {
    if fuel > 0 && Continues(st) {
      var next := Step(w, s, c, st);
      assert inv(next);
      ScanKeeps(w, s, c, next, fuel - 1, inv);
    }
  }

  /** So the loop keeps the invariant. */
  lemma ScanKeepsInv(w: World, s: Settings, c: Column, st: Scan, fuel: nat)
    requires ScanInv(w, c, st)
    ensures ScanInv(w, c, ScanColumn(w, s, c, st, fuel))
  {
    forall x: Scan | Continues(x) && ScanInv(w, c, x)
      ensures ScanInv(w, c, Step(w, s, c, x))
    {
      StepKeepsInv(w, s, c, x);
    }
    ScanKeeps(w, s, c, st, fuel, x => ScanInv(w, c, x));
  }

  /** The set-up establishes it. */
  lemma SetupEstablishesInv(w: World, s: Settings, yStep: int, x: int, z: int, table: IdTable)
    requires TableValid(table)
    ensures var (c, st) := Setup(w, s, yStep, x, z, table); ScanInv(w, c, st)
  {
  }

  /** One column's data points, the table after it, and the step the
      column leaves behind in the shared `yStep` variable. */
  datatype ColumnResult = ColumnResult(runs: seq<Run>, table: IdTable, yStep: int)

  /** The body of the column loop, from the top-layer search to
      `columns.add`, entered with the step `yStep`. */
  function BuildColumn(w: World, s: Settings, yStep: int, x: int, z: int, table: IdTable, fuel: nat): (r: ColumnResult)
    ensures table.mappings <= r.table.mappings && (TableValid(table) ==> TableValid(r.table))
  {
    var (c, st) := Setup(w, s, yStep, x, z, table);
    var e := ScanColumn(w, s, c, st, fuel);
    ColumnResult(e.runs, e.table, e.yStep)
  }

  /** What a column is: ids index the table and neighbours differ; the
      data points stack down from the top of the world (one layer higher
      for the air fill, which is first exactly when the first sample is
      air); every other data point is labelled by the pair of its top block
      and carries the light above it, and with a positive step lies inside
      the world; the step left behind is the entry step or 1. */
  lemma ColumnShape(w: World, s: Settings, yStep: int, x: int, z: int, table: IdTable, fuel: nat)
    requires TableValid(table)
    ensures var r := BuildColumn(w, s, yStep, x, z, table, fuel);
      var (c, st) := Setup(w, s, yStep, x, z, table);
      var e := ScanColumn(w, s, c, st, fuel);
      r.runs == e.runs && r.table == e.table &&
      IdsValid(e) && Stacked(w, c, e) && Labelled(w, c, e) && InsideWorld(w, c, e) &&
      (r.yStep == 1 || r.yStep == yStep)
  {
    var (c, st) := Setup(w, s, yStep, x, z, table);
    SetupEstablishesInv(w, s, yStep, x, z, table);
    ScanKeepsInv(w, s, c, st, fuel);
  }

  /** The first pass of a column: air at the top of the world becomes one
      data point from just above the top layer to one layer past the top
      of the world, without light; anything else becomes a data point
      ending at the top of the world. */
  lemma FirstSample(w: World, s: Settings, yStep: int, x: int, z: int, table: IdTable)
    requires TableValid(table)
    ensures var (c, st) := Setup(w, s, yStep, x, z, table);
      var r := Step(w, s, c, st);
      var relativeTopLayer := c.topLayer - w.minY;
      |r.runs| == 1 &&
      (FirstSampleIsAir(w, c) ==>
         r.runs[0].startY == relativeTopLayer + 1 && r.runs[0].height == Height(w) - relativeTopLayer &&
         r.runs[0].light.None? && r.relativeY + r.yStep == relativeTopLayer + 1) &&
      (!FirstSampleIsAir(w, c) ==> Top(r.runs[0]) == Height(w))
  {
    var (c, st) := Setup(w, s, yStep, x, z, table);
    var p := TakeSample(w, s, c, st);
    PlaceAppends(w, c, st, p);
  }

  // ---------------------------------------------------------------
  // The section
  // ---------------------------------------------------------------

  /** The columns built so far, the table, and the shared step. */
  datatype Progress = Progress(columns: seq<seq<Run>>, table: IdTable, yStep: int)

  /** The LOD handed back: the id table and the columns. */
  datatype Lod = Lod(mappings: seq<IdMapping>, columns: seq<seq<Run>>)

  /** The block position of the `k`-th column: x-major, then z. */
  function ColumnPosition(offsetX: int, offsetZ: int, width: nat, k: nat): (int, int)
    requires width > 0
  {
    (offsetX + k / width, offsetZ + k % width)
  }

  /** Which step a column enters with: the one the column before it left
      in the shared `yStep`, as the loops are written, or the configured
      resolution, as the copy in `originalStep` intends. */
  datatype StepRule = CarriedOver | Reset

  function EntryStep(s: Settings, rule: StepRule, before: Progress): int
  {
    match rule
    case CarriedOver => before.yStep
    case Reset => s.yStep
  }

  /** The first `n` columns, each entering with the step `rule` gives it;
      `yStep` is the shared variable after the last of them. */
  function Build(w: World, s: Settings, rule: StepRule, offsetX: int, offsetZ: int, width: nat, n: nat, fuel: nat)
    : (p: Progress)
    requires width > 0 || n == 0
    ensures |p.columns| == n && TableValid(p.table)
  {
    if n == 0 then Progress([], EMPTY_TABLE, s.yStep)
    else
      var before := Build(w, s, rule, offsetX, offsetZ, width, n - 1, fuel);
      var (x, z) := ColumnPosition(offsetX, offsetZ, width, n - 1);
      var col := BuildColumn(w, s, EntryStep(s, rule, before), x, z, before.table, fuel);
      Progress(before.columns + [col.runs], col.table, col.yStep)
  }

  /** `generate` as written: `width * width` columns of the section whose
      first block is (`offsetX`, `offsetZ`), the step carried from column
      to column, each scan bounded by `fuel` passes. */
  function Generate(w: World, s: Settings, offsetX: int, offsetZ: int, width: nat, fuel: nat): (lod: Lod)
    ensures |lod.columns| == width * width
  {
    var p := Build(w, s, CarriedOver, offsetX, offsetZ, width, width * width, fuel);
    Lod(p.table.mappings, p.columns)
  }

  /** `generate` with every column entering at the configured resolution. */
  function GenerateCorrected(w: World, s: Settings, offsetX: int, offsetZ: int, width: nat, fuel: nat): (lod: Lod)
    ensures |lod.columns| == width * width
  {
    var p := Build(w, s, Reset, offsetX, offsetZ, width, width * width, fuel);
    Lod(p.table.mappings, p.columns)
  }

  /** Building more columns only appends columns and table entries. */
  lemma {:induction false} BuildGrows(w: World, s: Settings, rule: StepRule, offsetX: int, offsetZ: int, width: nat,
                                      m: nat, n: nat, fuel: nat)
    requires m <= n && (width > 0 || n == 0)
    ensures var pm, pn := Build(w, s, rule, offsetX, offsetZ, width, m, fuel), Build(w, s, rule, offsetX, offsetZ, width, n, fuel);
      pm.columns <= pn.columns && pm.table.mappings <= pn.table.mappings
    decreases n
  {
    if m < n {
      var pm, pk, pn :=
        Build(w, s, rule, offsetX, offsetZ, width, m, fuel), Build(w, s, rule, offsetX, offsetZ, width, n - 1, fuel),
        Build(w, s, rule, offsetX, offsetZ, width, n, fuel);
      BuildGrows(w, s, rule, offsetX, offsetZ, width, m, n - 1, fuel);
      assert pk.columns <= pn.columns && pk.table.mappings <= pn.table.mappings;
      PrefixIsTransitive(pm.columns, pk.columns, pn.columns);
      PrefixIsTransitive(pm.table.mappings, pk.table.mappings, pn.table.mappings);
    }
  }

  lemma PrefixIsTransitive<T>(a: seq<T>, b: seq<T>, c: seq<T>)
    requires a <= b && b <= c
    ensures a <= c
  {
    assert forall i | 0 <= i < |a| :: a[i] == b[i] == c[i];
  }

  /** Column `k` of the section is the column at its x-major position,
      built against the table the earlier columns left and entered with
      the step its rule gives; as written, that step is the only other way
      one column's contents reach the next. */
  lemma BuildColumnAt(w: World, s: Settings, rule: StepRule, offsetX: int, offsetZ: int, width: nat, n: nat, k: nat,
                      fuel: nat)
    requires k < n && width > 0
    ensures var (x, z) := ColumnPosition(offsetX, offsetZ, width, k);
      var before := Build(w, s, rule, offsetX, offsetZ, width, k, fuel);
      Build(w, s, rule, offsetX, offsetZ, width, n, fuel).columns[k] ==
      BuildColumn(w, s, EntryStep(s, rule, before), x, z, before.table, fuel).runs
  {
    BuildGrows(w, s, rule, offsetX, offsetZ, width, k + 1, n, fuel);
  }

  /** In the first `n` columns every id of column `k` indexes the table,
      and every data point other than an air fill names the pair of its
      top block. */
  lemma BuildIdsValid(w: World, s: Settings, rule: StepRule, offsetX: int, offsetZ: int, width: nat, n: nat, k: nat,
                      j: nat, fuel: nat)
    requires k < n && width > 0
    ensures var p := Build(w, s, rule, offsetX, offsetZ, width, n, fuel);
      var (x, z) := ColumnPosition(offsetX, offsetZ, width, k);
      var before := Build(w, s, rule, offsetX, offsetZ, width, k, fuel);
      var c := Setup(w, s, EntryStep(s, rule, before), x, z, EMPTY_TABLE).0;
      j < |p.columns[k]| ==>
        p.columns[k][j].mappingId < |p.table.mappings| && RunLabelled(w, c, p.table.mappings, p.columns[k][j])
  {
    var (x, z) := ColumnPosition(offsetX, offsetZ, width, k);
    var before := Build(w, s, rule, offsetX, offsetZ, width, k, fuel);
    var step := EntryStep(s, rule, before);
    var col := BuildColumn(w, s, step, x, z, before.table, fuel);
    BuildColumnAt(w, s, rule, offsetX, offsetZ, width, n, k, fuel);
    ColumnShape(w, s, step, x, z, before.table, fuel);
    BuildGrows(w, s, rule, offsetX, offsetZ, width, k + 1, n, fuel);
    var p := Build(w, s, rule, offsetX, offsetZ, width, n, fuel);
    if j < |col.runs| {
      LabelSurvivesGrowth(w, Setup(w, s, step, x, z, before.table).0, col.table.mappings, p.table.mappings, col.runs[j]);
    }
  }

  /** In the finished LOD, as written and corrected, every id of every
      column indexes the table, and every data point other than an air
      fill names the pair of its top block. */
  lemma GenerateIdsValid(w: World, s: Settings, offsetX: int, offsetZ: int, width: nat, fuel: nat, k: nat, j: nat)
    requires k < width * width
    ensures width > 0
    ensures var lod := Generate(w, s, offsetX, offsetZ, width, fuel);
      var (x, z) := ColumnPosition(offsetX, offsetZ, width, k);
      var entry := Build(w, s, CarriedOver, offsetX, offsetZ, width, k, fuel).yStep;
      var c := Setup(w, s, entry, x, z, EMPTY_TABLE).0;
      j < |lod.columns[k]| ==>
        lod.columns[k][j].mappingId < |lod.mappings| && RunLabelled(w, c, lod.mappings, lod.columns[k][j])
    ensures var lod := GenerateCorrected(w, s, offsetX, offsetZ, width, fuel);
      var (x, z) := ColumnPosition(offsetX, offsetZ, width, k);
      var c := Setup(w, s, s.yStep, x, z, EMPTY_TABLE).0;
      j < |lod.columns[k]| ==>
        lod.columns[k][j].mappingId < |lod.mappings| && RunLabelled(w, c, lod.mappings, lod.columns[k][j])
  {
    BuildIdsValid(w, s, CarriedOver, offsetX, offsetZ, width, width * width, k, j, fuel);
    BuildIdsValid(w, s, Reset, offsetX, offsetZ, width, width * width, k, j, fuel);
  }

  // ---------------------------------------------------------------
  // The shared step
  // ---------------------------------------------------------------

  const PLAINS := "minecraft:plains"
  const STONE := "minecraft:stone"

  /** Four layers with one layer of stone at y = 2, everywhere. */
  function StoneLayerWorld(): World
  {
    World.World(0, 4, 1, (x, z) => 2, (x, y, z) => if y == 2 then STONE else AIR,
                (x, z) => PLAINS, (x, y, z) => 15, (x, y, z) => 0)
  }

  /** Resolution 2, the flag defaults. */
  const TWO_STEP := Settings(2, false, true)

  lemma NameFacts()
    ensures IsAir(AIR) && !IsGround(AIR) && !IsAir(STONE) && IsGround(STONE)
    ensures CompositeKey(PLAINS, AIR) != CompositeKey(PLAINS, STONE)
  {
    assert CompositeKey(PLAINS, AIR)[27] != CompositeKey(PLAINS, STONE)[27];
  }

  /** The stone-layer world's columns at (0, 0) and (0, 1) entered with
      step `step`: highest block and top layer 2, first sample at 4 - step. */
  function SlabColumn(z: int, step: int): Column
  {
    Column(0, z, PLAINS, 2, 2, step, 4 - step)
  }

  const AIR_ONLY := IdTable([IdMapping(PLAINS, AIR)], map[CompositeKey(PLAINS, AIR) := 0])
  const AIR_AND_STONE :=
    IdTable([IdMapping(PLAINS, AIR), IdMapping(PLAINS, STONE)],
            map[CompositeKey(PLAINS, AIR) := 0, CompositeKey(PLAINS, STONE) := 1])
  const LIT := Some(Light(15, 0))

  lemma SlabSetup(z: int, step: int, table: IdTable)
    requires step == 1 || step == 2
    ensures Setup(StoneLayerWorld(), TWO_STEP, step, 0, z, table) == (SlabColumn(z, step), Scan(4 - step, step, None, [], table))
  {
    NameFacts();
  }

  /** The first pass at either step: the air fill from layer 3 to one
      layer past the top. */
  lemma SlabFill(z: int, step: int, table: IdTable)
    requires step == 1 || step == 2
    requires table == EMPTY_TABLE || table == AIR_AND_STONE
    ensures Step(StoneLayerWorld(), TWO_STEP, SlabColumn(z, step), Scan(4 - step, step, None, [], table)) ==
            Scan(3 - step, step, None, [Run(3, 2, 0, None)], if table == EMPTY_TABLE then AIR_ONLY else table)
  {
    NameFacts();
  }

  /** At step 2 the stone is sampled over layers 1 and 2. */
  lemma SlabStoneAtTwo(z: int, table: IdTable)
    requires table == AIR_ONLY || table == AIR_AND_STONE
    ensures Step(StoneLayerWorld(), TWO_STEP, SlabColumn(z, 2), Scan(1, 2, None, [Run(3, 2, 0, None)], table)) ==
            Scan(-1, 2, Some(-9), [Run(3, 2, 0, None), Run(1, 2, 1, LIT)], AIR_AND_STONE)
  {
    NameFacts();
  }

  /** Then air over layer 0, cut to one layer, which drops the step to 1. */
  lemma SlabBottomAtTwo(z: int)
    ensures Step(StoneLayerWorld(), TWO_STEP, SlabColumn(z, 2),
                 Scan(-1, 2, Some(-9), [Run(3, 2, 0, None), Run(1, 2, 1, LIT)], AIR_AND_STONE)) ==
            Scan(-1, 1, Some(-9), [Run(3, 2, 0, None), Run(1, 2, 1, LIT), Run(0, 1, 0, LIT)], AIR_AND_STONE)
  {
    NameFacts();
  }

  /** At step 1 the stone is sampled over layer 2 alone. */
  lemma SlabStoneAtOne(z: int)
    ensures Step(StoneLayerWorld(), TWO_STEP, SlabColumn(z, 1), Scan(2, 1, None, [Run(3, 2, 0, None)], AIR_AND_STONE)) ==
            Scan(1, 1, Some(-9), [Run(3, 2, 0, None), Run(2, 1, 1, LIT)], AIR_AND_STONE)
  {
    NameFacts();
  }

  /** Then air over layers 1 and 0, merged into one data point. */
  lemma SlabBottomAtOne(z: int)
    ensures var w, c := StoneLayerWorld(), SlabColumn(z, 1);
      var above := [Run(3, 2, 0, None), Run(2, 1, 1, LIT)];
      Step(w, TWO_STEP, c, Scan(1, 1, Some(-9), above, AIR_AND_STONE)) ==
        Scan(0, 1, Some(-9), above + [Run(1, 1, 0, LIT)], AIR_AND_STONE) &&
      Step(w, TWO_STEP, c, Scan(0, 1, Some(-9), above + [Run(1, 1, 0, LIT)], AIR_AND_STONE)) ==
        Scan(-1, 1, Some(-9), above + [Run(0, 2, 0, LIT)], AIR_AND_STONE)
  {
    NameFacts();
    var above := [Run(3, 2, 0, None), Run(2, 1, 1, LIT)];
    assert (above + [Run(1, 1, 0, LIT)])[..2] == above;
  }

  /** A stone-layer column entered with step 2 ends with the step at 1. */
  lemma SlabColumnAtTwo(z: int, table: IdTable)
    requires table == EMPTY_TABLE || table == AIR_AND_STONE
    ensures BuildColumn(StoneLayerWorld(), TWO_STEP, 2, 0, z, table, 8) ==
            ColumnResult([Run(3, 2, 0, None), Run(1, 2, 1, LIT), Run(0, 1, 0, LIT)], AIR_AND_STONE, 1)
  {
    var w, c := StoneLayerWorld(), SlabColumn(z, 2);
    var fill := Run(3, 2, 0, None);
    var st0 := Scan(2, 2, None, [], table);
    var st1 := Scan(1, 2, None, [fill], if table == EMPTY_TABLE then AIR_ONLY else table);
    var st2 := Scan(-1, 2, Some(-9), [fill, Run(1, 2, 1, LIT)], AIR_AND_STONE);
    var st3 := Scan(-1, 1, Some(-9), [fill, Run(1, 2, 1, LIT), Run(0, 1, 0, LIT)], AIR_AND_STONE);
    SlabSetup(z, 2, table);
    SlabFill(z, 2, table);
    SlabStoneAtTwo(z, st1.table);
    SlabBottomAtTwo(z);
    assert ScanColumn(w, TWO_STEP, c, st3, 5) == st3;
    assert ScanColumn(w, TWO_STEP, c, st0, 8) == ScanColumn(w, TWO_STEP, c, st1, 7) == ScanColumn(w, TWO_STEP, c, st2, 6);
  }

  /** Below the stone, the step-1 scan ends after the merged air run. */
  lemma SlabTailAtOne(z: int)
    ensures var above := [Run(3, 2, 0, None), Run(2, 1, 1, LIT)];
      ScanColumn(StoneLayerWorld(), TWO_STEP, SlabColumn(z, 1), Scan(1, 1, Some(-9), above, AIR_AND_STONE), 6) ==
        Scan(-1, 1, Some(-9), above + [Run(0, 2, 0, LIT)], AIR_AND_STONE)
  {
    var w, c := StoneLayerWorld(), SlabColumn(z, 1);
    var above := [Run(3, 2, 0, None), Run(2, 1, 1, LIT)];
    var st2 := Scan(1, 1, Some(-9), above, AIR_AND_STONE);
    var st3 := Scan(0, 1, Some(-9), above + [Run(1, 1, 0, LIT)], AIR_AND_STONE);
    var st4 := Scan(-1, 1, Some(-9), above + [Run(0, 2, 0, LIT)], AIR_AND_STONE);
    SlabBottomAtOne(z);
    assert ScanColumn(w, TWO_STEP, c, st4, 4) == st4;
    assert ScanColumn(w, TWO_STEP, c, st2, 6) == ScanColumn(w, TWO_STEP, c, st3, 5) == ScanColumn(w, TWO_STEP, c, st4, 4);
  }

  /** The same column entered with step 1 samples the stone alone. */
  lemma SlabColumnAtOne(z: int)
    ensures BuildColumn(StoneLayerWorld(), TWO_STEP, 1, 0, z, AIR_AND_STONE, 8) ==
            ColumnResult([Run(3, 2, 0, None), Run(2, 1, 1, LIT), Run(0, 2, 0, LIT)], AIR_AND_STONE, 1)
  {
    var w, c := StoneLayerWorld(), SlabColumn(z, 1);
    var above := [Run(3, 2, 0, None), Run(2, 1, 1, LIT)];
    var st0 := Scan(3, 1, None, [], AIR_AND_STONE);
    var st1 := Scan(2, 1, None, [Run(3, 2, 0, None)], AIR_AND_STONE);
    var st2 := Scan(1, 1, Some(-9), above, AIR_AND_STONE);
    SlabSetup(z, 1, AIR_AND_STONE);
    SlabFill(z, 1, AIR_AND_STONE);
    SlabStoneAtOne(z);
    SlabTailAtOne(z);
    assert ScanColumn(w, TWO_STEP, c, st0, 8) == ScanColumn(w, TWO_STEP, c, st1, 7) == ScanColumn(w, TWO_STEP, c, st2, 6);
  }

  /** In the stone-layer world every column is the same, yet the loops as
      written build the second column of a 2-wide section differently from
      the first: the first leaves the step at 1 and the second inherits it. */
  lemma ResolutionLeaksIntoNextColumn()
    ensures Build(StoneLayerWorld(), TWO_STEP, CarriedOver, 0, 0, 2, 2, 8).columns ==
            [[Run(3, 2, 0, None), Run(1, 2, 1, LIT), Run(0, 1, 0, LIT)],
             [Run(3, 2, 0, None), Run(2, 1, 1, LIT), Run(0, 2, 0, LIT)]]
  {
    assert ColumnPosition(0, 0, 2, 1) == (0, 1);
    FirstSlabColumn(CarriedOver);
    SlabColumnAtOne(1);
  }

  /** The first column of the stone-layer grid, whichever rule is in force. */
  lemma FirstSlabColumn(rule: StepRule)
    ensures Build(StoneLayerWorld(), TWO_STEP, rule, 0, 0, 2, 1, 8) ==
            Progress([[Run(3, 2, 0, None), Run(1, 2, 1, LIT), Run(0, 1, 0, LIT)]], AIR_AND_STONE, 1)
  {
    assert ColumnPosition(0, 0, 2, 0) == (0, 0);
    SlabColumnAtTwo(0, EMPTY_TABLE);
  }

  /** Built with the configured step, both columns come out alike. */
  lemma ConfiguredResolutionPerColumn()
    ensures Build(StoneLayerWorld(), TWO_STEP, Reset, 0, 0, 2, 2, 8).columns ==
            [[Run(3, 2, 0, None), Run(1, 2, 1, LIT), Run(0, 1, 0, LIT)],
             [Run(3, 2, 0, None), Run(1, 2, 1, LIT), Run(0, 1, 0, LIT)]]
  {
    assert ColumnPosition(0, 0, 2, 1) == (0, 1);
    FirstSlabColumn(Reset);
    SlabColumnAtTwo(1, AIR_AND_STONE);
  }
}
