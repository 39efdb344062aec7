/** Splitting LOD data into the chunk messages that carry it. Both the reply
    to a LOD request and a real-time update send the data this way. */
module Chunking {
  import opened Wrappers
  import opened JavaInt

  /** `1024 * 16` */
  const CHUNK_SIZE: nat := 16384

  /** One `FullDataChunkMessage`. */
  datatype FullDataChunk = FullDataChunk(bufferId: int32, isFirst: bool, data: seq<byte>)

  /** `(int) Math.ceil((double) length / CHUNK_SIZE)`; the quotient of an
      int by a power of two is exact in a double. */
  function ChunkCount(length: nat): (n: nat)
    ensures n * CHUNK_SIZE >= length
    ensures n > 0 ==> (n - 1) * CHUNK_SIZE < length
  {
    (length + CHUNK_SIZE - 1) / CHUNK_SIZE
  }

  function Concat(chunks: seq<FullDataChunk>): seq<byte>
  {
    if |chunks| == 0 then [] else Concat(chunks[..|chunks| - 1]) + chunks[|chunks| - 1].data
  }

  lemma ConcatSnoc(chunks: seq<FullDataChunk>, c: FullDataChunk)
    ensures Concat(chunks + [c]) == Concat(chunks) + c.data
  {
    assert (chunks + [c])[..|chunks|] == chunks;
  }

  /** Chunk `k` of the data: the CHUNK_SIZE bytes from `k * CHUNK_SIZE`,
      or the rest of the data for the last chunk; only chunk 0 is first. */
  function ChunkAt(bufferId: int32, data: seq<byte>, k: nat): (c: FullDataChunk)
    requires k < ChunkCount(|data|)
    ensures c.bufferId == bufferId && (c.isFirst <==> k == 0)
    ensures 0 < |c.data| <= CHUNK_SIZE
    ensures k + 1 < ChunkCount(|data|) ==> |c.data| == CHUNK_SIZE
  {
    var from := k * CHUNK_SIZE;
    var to := if from + CHUNK_SIZE < |data| then from + CHUNK_SIZE else |data|;
    FullDataChunk(bufferId, k == 0, data[from..to])
  }

  /** The chunks the data is sent in, when every chunk end fits in an int. */
  function ChunksOf(bufferId: int32, data: seq<byte>): (cs: seq<FullDataChunk>)
    ensures |cs| == ChunkCount(|data|)
  {
    seq(ChunkCount(|data|), k requires 0 <= k < ChunkCount(|data|) => ChunkAt(bufferId, data, k))
  }

  /** The longest data whose last chunk's end, `CHUNK_SIZE * chunkNo +
      CHUNK_SIZE`, still fits in an int. */
  const LONGEST_SPLITTABLE: nat := INT_MAX + 1 - CHUNK_SIZE

  /** `chunks` are the first chunks of the data, and together hold the data
      up to the end of the last of them. */
  predicate SplitSoFar(bufferId: int32, data: seq<byte>, chunks: seq<FullDataChunk>)
  {
    |chunks| <= ChunkCount(|data|) &&
    (forall k | 0 <= k < |chunks| :: chunks[k] == ChunkAt(bufferId, data, k)) &&
    Concat(chunks) == data[..if |chunks| * CHUNK_SIZE < |data| then |chunks| * CHUNK_SIZE else |data|]
  }

  /** Appending the next chunk keeps `SplitSoFar`. */
  lemma AppendChunk(bufferId: int32, data: seq<byte>, chunks: seq<FullDataChunk>)
    requires SplitSoFar(bufferId, data, chunks) && |chunks| < ChunkCount(|data|)
    ensures SplitSoFar(bufferId, data, chunks + [ChunkAt(bufferId, data, |chunks|)])
  {
    var k := |chunks|;
    var c := ChunkAt(bufferId, data, k);
    var from := k * CHUNK_SIZE;
    var to := if from + CHUNK_SIZE < |data| then from + CHUNK_SIZE else |data|;
    assert from < |data|;
    ConcatSnoc(chunks, c);
    assert data[..from] + data[from..to] == data[..to];
    assert (k + 1) * CHUNK_SIZE == from + CHUNK_SIZE;
  }

  /** What `SplitSoFar` says about each chunk. */
  lemma SplitSoFarChunks(bufferId: int32, data: seq<byte>, chunks: seq<FullDataChunk>)
    requires SplitSoFar(bufferId, data, chunks)
    ensures forall k | 0 <= k < |chunks| :: 0 < |chunks[k].data| <= CHUNK_SIZE
    ensures forall k | 0 <= k < |chunks| :: chunks[k].isFirst <==> k == 0
    ensures forall k | 0 <= k < |chunks| :: chunks[k].bufferId == bufferId
    ensures chunks == ChunksOf(bufferId, data)[..|chunks|]
  {
    forall k | 0 <= k < |chunks|
      ensures 0 < |chunks[k].data| <= CHUNK_SIZE && (chunks[k].isFirst <==> k == 0) && chunks[k].bufferId == bufferId
    {
      assert chunks[k] == ChunkAt(bufferId, data, k);
    }
  }

  /** The chunk loop. Each chunk ends at `min(CHUNK_SIZE * chunkNo +
      CHUNK_SIZE, length)` computed in int arithmetic; for longer data that
      sum wraps negative on the last chunk and `copyOfRange` throws, after
      the chunks before it were sent. */
  method Split(bufferId: int32, data: seq<byte>) returns (chunks: seq<FullDataChunk>, failed: bool)
    requires |data| <= INT_MAX
    ensures failed <==> |data| > LONGEST_SPLITTABLE
    ensures !failed ==> |chunks| == ChunkCount(|data|) && Concat(chunks) == data
    ensures failed ==> |chunks| == ChunkCount(|data|) - 1 && Concat(chunks) == data[..|chunks| * CHUNK_SIZE]
    ensures forall k | 0 <= k < |chunks| :: 0 < |chunks[k].data| <= CHUNK_SIZE
    ensures forall k | 0 <= k < |chunks| :: chunks[k].isFirst <==> k == 0
    ensures forall k | 0 <= k < |chunks| :: chunks[k].bufferId == bufferId
    ensures chunks == ChunksOf(bufferId, data)[..|chunks|]
  {
    var count := ChunkCount(|data|);
    chunks := [];
    failed := false;
    var chunkNo := 0;
    while chunkNo < count
      invariant chunkNo <= count && |chunks| == chunkNo
      invariant chunkNo * CHUNK_SIZE <= INT_MAX
      invariant SplitSoFar(bufferId, data, chunks)
    {
      var from := CHUNK_SIZE * chunkNo;
      var end := Wrap32(from + CHUNK_SIZE);
      var to := if end < |data| then end else |data|;
      if to < from {
        assert chunkNo == count - 1;
        failed := true;
        SplitSoFarChunks(bufferId, data, chunks);
        return;
      }
      var c := FullDataChunk(bufferId, chunkNo == 0, data[from..to]);
      assert from == chunkNo * CHUNK_SIZE && end == from + CHUNK_SIZE;
      assert c == ChunkAt(bufferId, data, chunkNo);
      AppendChunk(bufferId, data, chunks);
      chunks := chunks + [c];
      chunkNo := chunkNo + 1;
    }
    SplitSoFarChunks(bufferId, data, chunks);
    assert data[..|data|] == data;
  }
}

/** The handler for a LOD request: a sequence of gates, each of which can
    answer with an exception message, then the LOD itself in chunks. */
module LodHandler {
  import opened Wrappers
  import opened JavaInt
  import opened Configuration
  import opened ConfigKeys
  import opened PluginMessages
  import opened Chunking
  import opened JavaStrings
  import opened BukkitWorldInterface

  datatype ExceptionType = SectionRequiresSplitting | RequestRejected

  /** A message the handler sends back. */
  datatype Sent =
    | ExceptionMessage(typeId: ExceptionType, message: string)
    | Chunk(chunk: FullDataChunk)
    | Response(response: FullDataSourceResponse)

  /** The only detail level the server builds. */
  const SUPPORTED_DETAIL_LEVEL: int32 := 6

  /** How far a section reaches beyond its first block: `worldX + 64`. */
  const SECTION_REACH: int := 64

  /** The border test with every sum in int arithmetic. */
  predicate OutsideBorder(worldX: int32, worldZ: int32, centerX: int32, centerZ: int32, radius: int32)
    ensures worldX + SECTION_REACH > INT_MAX && Wrap32(centerX - radius) >= INT_MIN + SECTION_REACH ==>
      OutsideBorder(worldX, worldZ, centerX, centerZ, radius)
  {
    var minX := Wrap32(centerX - radius);
    var maxX := Wrap32(centerX + radius);
    var minZ := Wrap32(centerZ - radius);
    var maxZ := Wrap32(centerZ + radius);
    var higherLodX := Wrap32(worldX + SECTION_REACH);
    var higherLodZ := Wrap32(worldZ + SECTION_REACH);
    higherLodX < minX || worldX > maxX || higherLodZ < minZ || worldZ > maxZ
  }

  predicate InSpan(p: int, lo: int, hi: int)
  {
    lo <= p <= hi
  }

  predicate NoOverflow(worldX: int32, worldZ: int32, centerX: int32, centerZ: int32, radius: int32)
  {
    InSpan(centerX - radius, INT_MIN, INT_MAX) && InSpan(centerX + radius, INT_MIN, INT_MAX) &&
    InSpan(centerZ - radius, INT_MIN, INT_MAX) && InSpan(centerZ + radius, INT_MIN, INT_MAX) &&
    InSpan(worldX + SECTION_REACH, INT_MIN, INT_MAX) && InSpan(worldZ + SECTION_REACH, INT_MIN, INT_MAX)
  }

  /** Two closed spans share a point. */
  ghost predicate Meet(a: int, b: int, c: int, d: int)
  {
    exists p :: InSpan(p, a, b) && InSpan(p, c, d)
  }

  lemma SpansMeet(a: int, b: int, c: int, d: int)
    requires a <= b && c <= d
    ensures Meet(a, b, c, d) <==> (c <= b && a <= d)
  {
    if c <= b && a <= d {
      var p := if a < c then c else a;
      assert InSpan(p, a, b) && InSpan(p, c, d);
    }
  }

  /** Without overflow, a request is outside the border exactly when the
      section's span of blocks, both ends included, shares no column with the
      border square. */
  lemma OutsideBorderMeansDisjoint(worldX: int32, worldZ: int32, centerX: int32, centerZ: int32, radius: int32)
    requires NoOverflow(worldX, worldZ, centerX, centerZ, radius) && radius >= 0
    ensures !OutsideBorder(worldX, worldZ, centerX, centerZ, radius) <==>
      Meet(worldX, worldX + SECTION_REACH, centerX - radius, centerX + radius) &&
      Meet(worldZ, worldZ + SECTION_REACH, centerZ - radius, centerZ + radius)
  {
    SpansMeet(worldX, worldX + SECTION_REACH, centerX - radius, centerX + radius);
    SpansMeet(worldZ, worldZ + SECTION_REACH, centerZ - radius, centerZ + radius);
  }

  /** What the world and the player's state say about a request. The border
      is the world's report of it, which can throw
      (`BukkitWorldInterface.BorderAsWritten`). */
  datatype Context = Context(
    worldConfig: Config,
    worldScope: Scope,
    playerConfig: Option<Config>,
    lodExists: bool,
    border: Result<WorldBorder>,
    sectionToBlock: int32 -> int32)

  /** The outcome of the gates: an exception message, or the block position
      to build at. */
  datatype Gate = Refused(reply: Sent) | Admitted

  /** The gates, in order; a thrown exception (a null flag or builder type,
      a missing player configuration, a border the world cannot report) is
      an error. */
  function Admit(detailLevel: int32, x: int32, z: int32, ctx: Context): (r: Result<Gate>)
    ensures r.Ok? && r.value.Refused? ==> r.value.reply.ExceptionMessage?
    ensures r == Ok(Admitted) ==> ctx.border.Ok?
    ensures detailLevel != SUPPORTED_DETAIL_LEVEL ==>
      r == Ok(Refused(ExceptionMessage(SectionRequiresSplitting, "Only detail level 6 is supported")))
  {
    if detailLevel != SUPPORTED_DETAIL_LEVEL then
      Ok(Refused(ExceptionMessage(SectionRequiresSplitting, "Only detail level 6 is supported")))
    else
      var worldEnabled :- UnboxBool(GetBool(ctx.worldConfig, ctx.worldScope, DISTANT_GENERATION_ENABLED, None));
      var enabled :-
        if !worldEnabled then Ok(false)
        else if ctx.playerConfig.None? then Err(NullPointer)
        else UnboxBool(GetBool(ctx.playerConfig.value, Global, DISTANT_GENERATION_ENABLED, None));
      if !enabled then
        Ok(Refused(ExceptionMessage(SectionRequiresSplitting, "Server has disabled distant generation")))
      else
        var builderType :- GetString(ctx.worldConfig, ctx.worldScope, BUILDER_TYPE, None);
        if builderType.None? then Err(NullPointer)
        else if EqualsIgnoreCase(builderType.value, "none") && !ctx.lodExists then
          Ok(Refused(ExceptionMessage(RequestRejected, "Server has disabled LOD builder")))
        else
          var b :- ctx.border;
          if b.centerX.Some? && b.centerZ.Some? && b.radius.Some? &&
             OutsideBorder(ctx.sectionToBlock(x), ctx.sectionToBlock(z), b.centerX.value, b.centerZ.value, b.radius.value)
          then
            Ok(Refused(ExceptionMessage(RequestRejected, "World border")))
          else
            Ok(Admitted)
  }

  function UnboxBool(r: Result<Option<bool>>): (u: Result<bool>)
    ensures u.Ok? <==> r.Ok? && r.value.Some?
    ensures u.Ok? ==> r.value.value == u.value
  {
    var o :- r;
    if o.Some? then Ok(o.value) else Err(NullPointer)
  }

  /** Admission with the flags and builder type read out: a detail level of
      6, distant generation on for the world and the player, a builder
      unless it is "none" with nothing stored, and a border that can be read
      and is not disjoint. A request that passes every earlier gate throws
      the world's error when the border cannot be read. */
  lemma AdmitMeaning(detailLevel: int32, x: int32, z: int32, ctx: Context)
    requires ctx.playerConfig.Some?
    requires GetBool(ctx.worldConfig, ctx.worldScope, DISTANT_GENERATION_ENABLED, None).Ok?
    requires GetBool(ctx.worldConfig, ctx.worldScope, DISTANT_GENERATION_ENABLED, None).value.Some?
    requires GetBool(ctx.playerConfig.value, Global, DISTANT_GENERATION_ENABLED, None).Ok?
    requires GetBool(ctx.playerConfig.value, Global, DISTANT_GENERATION_ENABLED, None).value.Some?
    requires GetString(ctx.worldConfig, ctx.worldScope, BUILDER_TYPE, None).Ok?
    requires GetString(ctx.worldConfig, ctx.worldScope, BUILDER_TYPE, None).value.Some?
    ensures Admit(detailLevel, x, z, ctx) == Ok(Admitted) <==>
      detailLevel == 6 &&
      GetBool(ctx.worldConfig, ctx.worldScope, DISTANT_GENERATION_ENABLED, None).value.value &&
      GetBool(ctx.playerConfig.value, Global, DISTANT_GENERATION_ENABLED, None).value.value &&
      (!EqualsIgnoreCase(GetString(ctx.worldConfig, ctx.worldScope, BUILDER_TYPE, None).value.value, "none") || ctx.lodExists) &&
      ctx.border.Ok? &&
      !(ctx.border.value.centerX.Some? && ctx.border.value.centerZ.Some? && ctx.border.value.radius.Some? &&
        OutsideBorder(ctx.sectionToBlock(x), ctx.sectionToBlock(z),
                      ctx.border.value.centerX.value, ctx.border.value.centerZ.value, ctx.border.value.radius.value))
    ensures (ctx.border.Err? && detailLevel == 6 &&
             GetBool(ctx.worldConfig, ctx.worldScope, DISTANT_GENERATION_ENABLED, None).value.value &&
             GetBool(ctx.playerConfig.value, Global, DISTANT_GENERATION_ENABLED, None).value.value &&
             (!EqualsIgnoreCase(GetString(ctx.worldConfig, ctx.worldScope, BUILDER_TYPE, None).value.value, "none") || ctx.lodExists))
            ==> Admit(detailLevel, x, z, ctx) == Err(ctx.border.error)
  {
  }

  /** Distant generation switched off for the world refuses the request
      without consulting the player's configuration, which may even be
      missing. */
  lemma WorldDisabledRefuses(x: int32, z: int32, ctx: Context)
    requires GetBool(ctx.worldConfig, ctx.worldScope, DISTANT_GENERATION_ENABLED, None) == Ok(Some(false))
    ensures Admit(SUPPORTED_DETAIL_LEVEL, x, z, ctx) ==
      Ok(Refused(ExceptionMessage(SectionRequiresSplitting, "Server has disabled distant generation")))
  {
  }

  /** What the repository holds for a section. */
  datatype LodModel = LodModel(timestamp: int, data: seq<byte>, beacons: seq<byte>)

  const BUFFER_ID_KEY := "buffer-id"

  /** Data is sent when the request carries no timestamp, or when its
      timestamp in milliseconds, truncated to seconds, is older than the
      LOD's. */
  predicate SendData(requestTimestamp: Option<int64>, lodTimestamp: int)
    ensures requestTimestamp.Some? && -1000 < requestTimestamp.value < 1000 ==>
      (SendData(requestTimestamp, lodTimestamp) <==> lodTimestamp > 0)
  {
    requestTimestamp.None? || TruncDiv(requestTimestamp.value, 1000) < lodTimestamp
  }

  /** `requestTimestamp / 1000 < lodTimestamp` for a non-negative timestamp
      is `requestTimestamp < 1000 * lodTimestamp`. */
  lemma SendDataForNonNegative(ts: int64, lodTimestamp: int)
    requires ts >= 0
    ensures SendData(Some(ts), lodTimestamp) <==> ts < 1000 * lodTimestamp
  {
  }

  /** `playerConfig.getInt("buffer-id", 0) + 1` in int arithmetic. */
  function NextBufferId(playerConfig: Config): (r: Result<int32>)
    ensures BUFFER_ID_KEY !in playerConfig ==> r == Ok(1)
    ensures r.Ok? <==> BUFFER_ID_KEY !in playerConfig || playerConfig[BUFFER_ID_KEY].Int?
  {
    var id :- GetInt(playerConfig, Global, BUFFER_ID_KEY, Some(0));
    if id.None? then Err(NullPointer) else Ok(Wrap32(id.value + 1))
  }

  /** The reply once the LOD has been looked up: the messages sent, in
      order, and the player's configuration afterwards. An exception inside
      the callback is answered with "Internal error". */
  method Reply(lod: Option<LodModel>, requestTimestamp: Option<int64>, playerConfig: Config)
    returns (sent: seq<Sent>, after: Config)
    requires lod.Some? ==> |lod.value.data| <= INT_MAX
    ensures lod.None? ==> sent == [ExceptionMessage(RequestRejected, "No LOD available")] && after == playerConfig
    ensures lod.Some? && !SendData(requestTimestamp, lod.value.timestamp) ==>
      sent == [Response(FullDataSourceResponse(None, []))] && after == playerConfig
    ensures lod.Some? && SendData(requestTimestamp, lod.value.timestamp) && NextBufferId(playerConfig).Err? ==>
      sent == [ExceptionMessage(RequestRejected, "Internal error")] && after == playerConfig
    ensures lod.Some? && SendData(requestTimestamp, lod.value.timestamp) && NextBufferId(playerConfig).Ok? ==>
      after == playerConfig[BUFFER_ID_KEY := Int(NextBufferId(playerConfig).value)] &&
      |sent| > 0 &&
      (|lod.value.data| <= LONGEST_SPLITTABLE ==>
        sent[|sent| - 1] == Response(FullDataSourceResponse(Some(NextBufferId(playerConfig).value), lod.value.beacons)) &&
        |sent| == ChunkCount(|lod.value.data|) + 1 &&
        (forall k | 0 <= k < |sent| - 1 :: sent[k].Chunk? && sent[k].chunk.bufferId == NextBufferId(playerConfig).value))
  {
    if lod.None? {
      return [ExceptionMessage(RequestRejected, "No LOD available")], playerConfig;
    }
    var model := lod.value;
    if !SendData(requestTimestamp, model.timestamp) {
      return [Response(FullDataSourceResponse(None, []))], playerConfig;
    }
    var id := NextBufferId(playerConfig);
    if id.Err? {
      return [ExceptionMessage(RequestRejected, "Internal error")], playerConfig;
    }
    after := playerConfig[BUFFER_ID_KEY := Int(id.value)];
    var chunks, failed := Split(id.value, model.data);
    sent := seq(|chunks|, k requires 0 <= k < |chunks| => Chunk(chunks[k]));
    if failed {
      sent := sent + [ExceptionMessage(RequestRejected, "Internal error")];
    } else {
      sent := sent + [Response(FullDataSourceResponse(Some(id.value), model.beacons))];
    }
  }

  /** The buffer id goes up by exactly one when data is sent, short of the
      int range's end, and stays put otherwise. */
  lemma BufferIdAdvancesByOne(playerConfig: Config, previous: int32)
    requires BUFFER_ID_KEY in playerConfig && playerConfig[BUFFER_ID_KEY] == Int(previous)
    ensures previous < INT_MAX ==> NextBufferId(playerConfig) == Ok(previous + 1)
    ensures previous == INT_MAX ==> NextBufferId(playerConfig) == Ok(INT_MIN)
  {
  }
}
