/** The plugin core's bookkeeping between requests: the map of builders in
    progress, the set of sections touched by block changes, and the
    real-time partial update pushed to nearby players once a touched
    section has been rebuilt. */
module DhSupport {
  import opened Wrappers
  import opened JavaInt
  import opened Configuration
  import opened ConfigKeys
  import opened PluginMessages
  import opened Chunking
  import opened BukkitWorldInterface
  import PlayerConfigHandler
  import opened LodHandler

  type WorldId = string
  type PlayerId = string

  /** The identity of a section's LOD: `LodModel.toString()` of the world
      id and the section coordinates, taken to tell sections apart. */
  datatype SectionKey = SectionKey(world: WorldId, x: int32, z: int32)

  // ---------------------------------------------------------------
  // queueBuilder
  // ---------------------------------------------------------------

  /** The builders in progress: each queued section holds the handle of its
      future; `next` is the handle the next future gets. */
  datatype Queue = Queue(queued: map<SectionKey, nat>, next: nat)

  /** Every handle was handed out before `next`, and no two sections share
      one. */
  predicate QueueValid(q: Queue)
  {
    (forall key | key in q.queued :: q.queued[key] < q.next) &&
    (forall k1, k2 | k1 in q.queued && k2 in q.queued && k1 != k2 :: q.queued[k1] != q.queued[k2])
  }

  /** `queueBuilder`: a section already queued gets its future back and
      nothing is started; otherwise a new future is started and recorded. */
  function QueueBuilder(q: Queue, key: SectionKey): (r: (nat, Queue))
    ensures QueueValid(q) ==> QueueValid(r.1)
    ensures key in r.1.queued && r.1.queued[key] == r.0
    ensures forall other | other != key :: (other in r.1.queued <==> other in q.queued)
    ensures forall other | other != key && other in q.queued :: r.1.queued[other] == q.queued[other]
    ensures QueueValid(q) && key !in q.queued ==> forall other | other in q.queued :: q.queued[other] != r.0
  {
    if key in q.queued then (q.queued[key], q)
    else (q.next, Queue(q.queued[key := q.next], q.next + 1))
  }

  /** The `thenApply` and `exceptionally` stages: whether the build
      succeeded or failed, the section leaves the queue. */
  function Finish(q: Queue, key: SectionKey): (r: Queue)
    ensures QueueValid(q) ==> QueueValid(r)
    ensures key !in r.queued
    ensures forall other | other != key :: (other in r.queued <==> other in q.queued)
  {
    q.(queued := q.queued - {key})
  }

  /** While a section is queued, asking again returns the same future and
      changes nothing. */
  lemma QueueBuilderDeduplicates(q: Queue, key: SectionKey)
    ensures QueueBuilder(QueueBuilder(q, key).1, key) == (QueueBuilder(q, key).0, QueueBuilder(q, key).1)
  {
  }

  /** Once the build finished, asking again starts a new future, different
      from every future still queued. */
  lemma FinishThenRequeueIsFresh(q: Queue, key: SectionKey)
    requires QueueValid(q) && key in q.queued
    ensures QueueBuilder(Finish(q, key), key).0 != q.queued[key]
    ensures forall other | other in Finish(q, key).queued :: Finish(q, key).queued[other] != QueueBuilder(Finish(q, key), key).0
  {
  }

  // ---------------------------------------------------------------
  // touchLod
  // ---------------------------------------------------------------

  /** `touchLod`: the block's section is recorded unless it already is.
      `blockToSection` is the coordinate conversion. */
  function TouchLod(touched: set<SectionKey>, world: WorldId, x: int32, z: int32, blockToSection: int32 -> int32): (r: set<SectionKey>)
    ensures SectionKey(world, blockToSection(x), blockToSection(z)) in r && touched <= r
    ensures |r| == |touched| + (if SectionKey(world, blockToSection(x), blockToSection(z)) in touched then 0 else 1)
  {
    var key := SectionKey(world, blockToSection(x), blockToSection(z));
    if key in touched then touched else touched + {key}
  }

  /** Touching the same block twice records it once. */
  lemma TouchLodIsIdempotent(touched: set<SectionKey>, world: WorldId, x: int32, z: int32, blockToSection: int32 -> int32)
    ensures TouchLod(TouchLod(touched, world, x, z, blockToSection), world, x, z, blockToSection) ==
            TouchLod(touched, world, x, z, blockToSection)
  {
  }

  /** Two blocks of one section add one entry between them, and blocks of
      different sections add two. */
  lemma TouchLodCountsSections(touched: set<SectionKey>, world: WorldId, x1: int32, z1: int32, x2: int32, z2: int32,
                               blockToSection: int32 -> int32)
    requires SectionKey(world, blockToSection(x1), blockToSection(z1)) !in touched
    requires SectionKey(world, blockToSection(x2), blockToSection(z2)) !in touched
    ensures |TouchLod(TouchLod(touched, world, x1, z1, blockToSection), world, x2, z2, blockToSection)| ==
            |touched| + (if blockToSection(x1) == blockToSection(x2) && blockToSection(z1) == blockToSection(z2) then 1 else 2)
  {
  }

  /** One pass of `updateTouchedLods` over a touched section: it leaves the
      set exactly when the stored LOD was deleted, and only then is a
      partial update pushed. */
  function AfterDeletion(touched: set<SectionKey>, key: SectionKey, deleted: bool): (r: (set<SectionKey>, bool))
    ensures r.1 <==> deleted
    ensures deleted ==> r.0 == touched - {key}
    ensures !deleted ==> r.0 == touched
  {
    if !deleted then (touched, false) else (touched - {key}, true)
  }

  // ---------------------------------------------------------------
  // The update radius
  // ---------------------------------------------------------------

  /** `Math.abs(Math.max(a, b) - Math.min(a, b))` in int arithmetic. */
  function Distance(a: int32, b: int32): (d: int32)
    ensures AbsDiff(a, b) <= INT_MAX ==> d == AbsDiff(a, b)
    ensures AbsDiff(a, b) > INT_MAX ==> d == if AbsDiff(a, b) == TWO_32 / 2 then INT_MIN else TWO_32 - AbsDiff(a, b)
  {
    Abs32(Wrap32((if a < b then b else a) - (if a < b then a else b)))
  }

  /** A player in chunk (playerX, playerZ) is in range of the LOD's chunk
      unless either distance exceeds the radius. */
  predicate InUpdateRange(lodX: int32, lodZ: int32, playerX: int32, playerZ: int32, radius: int32)
  {
    !(Distance(lodX, playerX) > radius || Distance(lodZ, playerZ) > radius)
  }

  /** The chunk coordinates of a world, far below 2^30 in size. */
  predicate ChunkCoordinate(c: int32)
  {
    -0x4000_0000 <= c < 0x4000_0000
  }

  /** The distance between two integers. */
  function AbsDiff(a: int, b: int): (d: nat)
  {
    if a < b then b - a else a - b
  }

  /** For chunk coordinates the distance is exact and symmetric. */
  lemma DistanceIsExact(a: int32, b: int32)
    requires ChunkCoordinate(a) && ChunkCoordinate(b)
    ensures Distance(a, b) == AbsDiff(a, b)
    ensures Distance(a, b) == Distance(b, a)
  {
  }

  /** The range is the Chebyshev ball: within the radius on both axes. */
  lemma InUpdateRangeIsChebyshev(lodX: int32, lodZ: int32, playerX: int32, playerZ: int32, radius: int32)
    requires ChunkCoordinate(lodX) && ChunkCoordinate(lodZ) && ChunkCoordinate(playerX) && ChunkCoordinate(playerZ)
    ensures InUpdateRange(lodX, lodZ, playerX, playerZ, radius) <==>
      AbsDiff(lodX, playerX) <= radius && AbsDiff(lodZ, playerZ) <= radius
  {
    DistanceIsExact(lodX, playerX);
    DistanceIsExact(lodZ, playerZ);
  }

  // ---------------------------------------------------------------
  // The level key of a partial update
  // ---------------------------------------------------------------

  /** The world configuration's level key prefix; a prefix that is not a
      string fails the cast. */
  function LevelKeyPrefix(worldConfig: Config, scope: Scope): Result<Option<string>>
  {
    GetString(worldConfig, scope, LEVEL_KEY_PREFIX, None)
  }

  /** The level key as `updateTouchedLods` builds it: the prefix before the
      world's NAME. */
  function UpdateLevelKeyAsWritten(worldConfig: Config, scope: Scope, worldName: string): (r: Result<string>)
    ensures r.Ok? <==> LevelKeyPrefix(worldConfig, scope).Ok?
    ensures r.Ok? ==> r.value == PlayerConfigHandler.LevelKey(LevelKeyPrefix(worldConfig, scope).value, worldName)
  {
    var prefix :- LevelKeyPrefix(worldConfig, scope);
    Ok(PlayerConfigHandler.LevelKey(prefix, worldName))
  }

  /** The level key a client was told at login: the prefix before the
      world's KEY, the sanitised name. Updates use this one. */
  function UpdateLevelKey(worldConfig: Config, scope: Scope, worldName: string): (r: Result<string>)
    ensures r.Ok? <==> LevelKeyPrefix(worldConfig, scope).Ok?
    ensures r.Ok? ==> r.value == PlayerConfigHandler.LevelKey(LevelKeyPrefix(worldConfig, scope).value, Key(worldName))
  {
    var prefix :- LevelKeyPrefix(worldConfig, scope);
    Ok(PlayerConfigHandler.LevelKey(prefix, Key(worldName)))
  }

  /** The corrected key is the one the login message announced. */
  lemma UpdateLevelKeyMatchesLogin(req: PlayerConfigHandler.Request, worldName: string)
    requires req.worldKey == Key(worldName)
    requires LevelKeyPrefix(req.server, req.scope).Ok?
    ensures UpdateLevelKey(req.server, req.scope, worldName).value ==
      PlayerConfigHandler.LevelKey(GetString(req.server, req.scope, LEVEL_KEY_PREFIX, None).value, req.worldKey)
  {
  }

  /** As written, the two keys differ exactly when the world's name holds a
      character outside `[a-zA-Z0-9_-]`, a space for one: the client files
      the update under a level it never saw. */
  lemma UpdateLevelKeyAsWrittenMismatch(worldConfig: Config, scope: Scope, worldName: string)
    requires LevelKeyPrefix(worldConfig, scope).Ok?
    ensures UpdateLevelKeyAsWritten(worldConfig, scope, worldName) != UpdateLevelKey(worldConfig, scope, worldName) <==>
      exists i | 0 <= i < |worldName| :: !KeyChar(worldName[i])
  {
    KeyKeepsOnlyAllowed(worldName);
    var prefix := LevelKeyPrefix(worldConfig, scope).value;
    if prefix.Some? && Key(worldName) != worldName {
      var a := prefix.value + worldName;
      var b := prefix.value + Key(worldName);
      assert a[|prefix.value|..] == worldName && b[|prefix.value|..] == Key(worldName);
    }
  }

  /** A world named "my world" is one such world. */
  lemma LevelKeyOfSpacedName()
    ensures Key("my world") != "my world"
  {
    assert !KeyChar("my world"[2]);
    KeyKeepsOnlyAllowed("my world");
  }

  // ---------------------------------------------------------------
  // The partial update
  // ---------------------------------------------------------------

  /** A player of the LOD's world; the chunk is `blockToChunk` of the
      player's block location. */
  datatype Player = Player(id: PlayerId, chunkX: int32, chunkZ: int32)

  /** What the plugin message handler is asked to send, and to whom. */
  datatype Delivery =
    | DeliverChunk(to: PlayerId, chunk: FullDataChunk)
    | DeliverUpdate(to: PlayerId, update: FullDataPartialUpdate)

  /** `worldConfig.getBool(REAL_TIME_UPDATES_ENABLED)` unboxed. */
  function UpdatesEnabled(worldConfig: Config, scope: Scope): (r: Result<bool>)
    ensures r.Ok? <==> Get(worldConfig, scope, REAL_TIME_UPDATES_ENABLED, Null).Bool?
  {
    var b :- GetBool(worldConfig, scope, REAL_TIME_UPDATES_ENABLED, None);
    if b.None? then Err(NullPointer) else Ok(b.value)
  }

  /** `playerConfig.getInt(REAL_TIME_UPDATE_RADIUS)` unboxed. */
  function UpdateRadius(playerConfig: Config): (r: Result<int32>)
    ensures r.Ok? <==> REAL_TIME_UPDATE_RADIUS in playerConfig && playerConfig[REAL_TIME_UPDATE_RADIUS].Int?
    ensures r.Ok? ==> playerConfig[REAL_TIME_UPDATE_RADIUS] == Int(r.value)
  {
    var radius :- GetInt(playerConfig, Global, REAL_TIME_UPDATE_RADIUS, None);
    if radius.None? then Err(NullPointer) else Ok(radius.value)
  }

  /** The messages one player in range is sent: the data chunks in order,
      then the partial update carrying the same buffer id. */
  function PlayerMessages(levelKey: string, lod: LodModel, bufferId: int32, to: PlayerId): (ds: seq<Delivery>)
    ensures |ds| == ChunkCount(|lod.data|) + 1
    ensures ds[|ds| - 1] == DeliverUpdate(to, FullDataPartialUpdate(levelKey, bufferId, lod.beacons))
    ensures forall k | 0 <= k < |ds| - 1 :: ds[k] == DeliverChunk(to, ChunkAt(bufferId, lod.data, k))
    ensures forall k | 0 <= k < |ds| :: ds[k].to == to
  {
    Deliveries(ChunksOf(bufferId, lod.data), to) + [DeliverUpdate(to, FullDataPartialUpdate(levelKey, bufferId, lod.beacons))]
  }

  function Deliveries(chunks: seq<FullDataChunk>, to: PlayerId): (ds: seq<Delivery>)
    ensures |ds| == |chunks|
    ensures forall k | 0 <= k < |ds| :: ds[k] == DeliverChunk(to, chunks[k])
  {
    seq(|chunks|, k requires 0 <= k < |chunks| => DeliverChunk(to, chunks[k]))
  }

  /** What one iteration of the player loop leaves behind: the messages
      sent to the player, the player's configuration, and the exception
      that ended the callback, if any. */
  datatype Step = Step(sent: seq<Delivery>, config: Config, failure: Option<Error>)

  /** The player loop's body for a player with a configuration. The radius
      is read first, then the range is checked, then the buffer id is
      advanced and stored before anything is sent. Data too long for the
      int chunk arithmetic throws on its last chunk. */
  function UpdatePlayer(levelKey: string, lod: LodModel, lodX: int32, lodZ: int32, p: Player, config: Config): (r: Step)
    requires |lod.data| <= INT_MAX
    ensures UpdateRadius(config).Err? ==> r == Step([], config, Some(UpdateRadius(config).error))
    ensures UpdateRadius(config).Ok? && !InUpdateRange(lodX, lodZ, p.chunkX, p.chunkZ, UpdateRadius(config).value) ==>
      r == Step([], config, None)
    ensures UpdateRadius(config).Ok? && InUpdateRange(lodX, lodZ, p.chunkX, p.chunkZ, UpdateRadius(config).value) ==>
      if NextBufferId(config).Err? then r == Step([], config, Some(NextBufferId(config).error))
      else
        r.config == config[BUFFER_ID_KEY := Int(NextBufferId(config).value)] &&
        (r.failure.None? <==> |lod.data| <= LONGEST_SPLITTABLE) &&
        (r.failure.None? ==> r.sent == PlayerMessages(levelKey, lod, NextBufferId(config).value, p.id))
    ensures forall k | 0 <= k < |r.sent| :: r.sent[k].to == p.id
  {
    match UpdateRadius(config)
    case Err(e) => Step([], config, Some(e))
    case Ok(radius) =>
      if !InUpdateRange(lodX, lodZ, p.chunkX, p.chunkZ, radius) then Step([], config, None)
      else
        match NextBufferId(config)
        case Err(e) => Step([], config, Some(e))
        case Ok(id) =>
          var after := config[BUFFER_ID_KEY := Int(id)];
          if |lod.data| > LONGEST_SPLITTABLE then
            var chunks := ChunksOf(id, lod.data);
            Step(Deliveries(chunks[..|chunks| - 1], p.id), after, Some(IllegalArgument("from > to")))
          else
            Step(PlayerMessages(levelKey, lod, id, p.id), after, None)
  }

  /** What the player loop has done after the first `k` players: the
      messages sent, every player's configuration, and the exception that
      ended the loop, if any. Players without a configuration are skipped. */
  datatype FanOutState = FanOutState(sent: seq<Delivery>, configs: map<PlayerId, Config>, failure: Option<Error>)

  function FanOut(levelKey: string, lod: LodModel, lodX: int32, lodZ: int32, players: seq<Player>,
                  configs: map<PlayerId, Config>, k: nat): (r: FanOutState)
    requires |lod.data| <= INT_MAX
    requires k <= |players|
    ensures r.configs.Keys == configs.Keys
    ensures forall j | 0 <= j < |r.sent| :: exists i | 0 <= i < k :: r.sent[j].to == players[i].id
    decreases k
  {
    if k == 0 then FanOutState([], configs, None)
    else
      var before := FanOut(levelKey, lod, lodX, lodZ, players, configs, k - 1);
      var p := players[k - 1];
      if before.failure.Some? || p.id !in before.configs then before
      else
        var step := UpdatePlayer(levelKey, lod, lodX, lodZ, p, before.configs[p.id]);
        FanOutState(before.sent + step.sent, before.configs[p.id := step.config], step.failure)
  }

  /** The callback once the rebuilt LOD is known, filing the update under
      `levelKey`: nothing happens unless the world enables real-time
      updates; then every player of the world in range is sent the data. */
  function PartialUpdateUnder(worldConfig: Config, scope: Scope, levelKey: Result<string>, lod: LodModel,
                              lodX: int32, lodZ: int32, players: seq<Player>, configs: map<PlayerId, Config>)
    : (r: FanOutState)
    requires |lod.data| <= INT_MAX
    ensures UpdatesEnabled(worldConfig, scope) != Ok(true) ==> r.sent == [] && r.configs == configs
    ensures UpdatesEnabled(worldConfig, scope) == Ok(false) ==> r.failure.None?
    ensures UpdatesEnabled(worldConfig, scope) == Ok(true) && levelKey.Err? ==>
      r == FanOutState([], configs, Some(levelKey.error))
    ensures UpdatesEnabled(worldConfig, scope) == Ok(true) && levelKey.Ok? ==>
      r == FanOut(levelKey.value, lod, lodX, lodZ, players, configs, |players|)
  {
    match UpdatesEnabled(worldConfig, scope)
    case Err(e) => FanOutState([], configs, Some(e))
    case Ok(enabled) =>
      if !enabled then FanOutState([], configs, None)
      else
        match levelKey
        case Err(e) => FanOutState([], configs, Some(e))
        case Ok(key) => FanOut(key, lod, lodX, lodZ, players, configs, |players|)
  }

  /** `updateTouchedLods`' callback as written: the update is filed under
      the prefix and the world's name. */
  function PartialUpdate(worldConfig: Config, scope: Scope, worldName: string, lod: LodModel, lodX: int32, lodZ: int32,
                         players: seq<Player>, configs: map<PlayerId, Config>): (r: FanOutState)
    requires |lod.data| <= INT_MAX
    ensures UpdatesEnabled(worldConfig, scope) != Ok(true) ==> r.sent == [] && r.configs == configs
    ensures UpdatesEnabled(worldConfig, scope) == Ok(false) ==> r.failure.None?
    ensures UpdatesEnabled(worldConfig, scope) == Ok(true) && UpdateLevelKeyAsWritten(worldConfig, scope, worldName).Ok? ==>
      r == FanOut(UpdateLevelKeyAsWritten(worldConfig, scope, worldName).value, lod, lodX, lodZ, players, configs, |players|)
  {
    PartialUpdateUnder(worldConfig, scope, UpdateLevelKeyAsWritten(worldConfig, scope, worldName), lod, lodX, lodZ,
                       players, configs)
  }

  /** The callback filing the update under the level key announced at
      login. */
  function PartialUpdateCorrected(worldConfig: Config, scope: Scope, worldName: string, lod: LodModel, lodX: int32,
                                  lodZ: int32, players: seq<Player>, configs: map<PlayerId, Config>): (r: FanOutState)
    requires |lod.data| <= INT_MAX
    ensures UpdatesEnabled(worldConfig, scope) != Ok(true) ==> r.sent == [] && r.configs == configs
    ensures UpdatesEnabled(worldConfig, scope) == Ok(true) && UpdateLevelKey(worldConfig, scope, worldName).Ok? ==>
      r == FanOut(UpdateLevelKey(worldConfig, scope, worldName).value, lod, lodX, lodZ, players, configs, |players|)
  {
    PartialUpdateUnder(worldConfig, scope, UpdateLevelKey(worldConfig, scope, worldName), lod, lodX, lodZ,
                       players, configs)
  }

  /** The two callbacks do the same thing exactly when the world's name
      has only key characters; otherwise, with updates on and a readable
      prefix, they file the update under different level keys. */
  lemma PartialUpdateAgreesOnKeyNames(worldConfig: Config, scope: Scope, worldName: string, lod: LodModel,
                                      lodX: int32, lodZ: int32, players: seq<Player>, configs: map<PlayerId, Config>)
    requires |lod.data| <= INT_MAX
    ensures (forall i | 0 <= i < |worldName| :: KeyChar(worldName[i])) ==>
      PartialUpdate(worldConfig, scope, worldName, lod, lodX, lodZ, players, configs) ==
      PartialUpdateCorrected(worldConfig, scope, worldName, lod, lodX, lodZ, players, configs)
    ensures LevelKeyPrefix(worldConfig, scope).Ok? && (exists i | 0 <= i < |worldName| :: !KeyChar(worldName[i])) ==>
      UpdateLevelKeyAsWritten(worldConfig, scope, worldName) != UpdateLevelKey(worldConfig, scope, worldName)
  {
    if LevelKeyPrefix(worldConfig, scope).Ok? {
      UpdateLevelKeyAsWrittenMismatch(worldConfig, scope, worldName);
    }
  }

  // ---------------------------------------------------------------
  // What each player receives
  // ---------------------------------------------------------------

  /** The deliveries addressed to one player, in order. */
  function SentTo(ds: seq<Delivery>, id: PlayerId): (r: seq<Delivery>)
    ensures forall k | 0 <= k < |r| :: r[k].to == id
    ensures |r| <= |ds|
  {
    if |ds| == 0 then []
    else SentTo(ds[..|ds| - 1], id) + (if ds[|ds| - 1].to == id then [ds[|ds| - 1]] else [])
  }

  lemma {:induction false} SentToConcat(a: seq<Delivery>, b: seq<Delivery>, id: PlayerId)
    ensures SentTo(a + b, id) == SentTo(a, id) + SentTo(b, id)
    decreases |b|
  {
    if |b| == 0 {
      assert a + b == a;
    } else {
      assert (a + b)[..|a + b| - 1] == a + b[..|b| - 1];
      SentToConcat(a, b[..|b| - 1], id);
    }
  }

  lemma {:induction false} SentToAll(ds: seq<Delivery>, id: PlayerId)
    requires forall k | 0 <= k < |ds| :: ds[k].to == id
    ensures SentTo(ds, id) == ds
  {
    if |ds| > 0 {
      SentToAll(ds[..|ds| - 1], id);
    }
  }

  lemma {:induction false} SentToNone(ds: seq<Delivery>, id: PlayerId)
    requires forall k | 0 <= k < |ds| :: ds[k].to != id
    ensures SentTo(ds, id) == []
  {
    if |ds| > 0 {
      SentToNone(ds[..|ds| - 1], id);
    }
  }

  /** A player gets the update when it has a configuration, its radius
      reads, and the LOD is in range. */
  predicate Receives(lodX: int32, lodZ: int32, p: Player, configs: map<PlayerId, Config>)
  {
    p.id in configs && UpdateRadius(configs[p.id]).Ok? &&
    InUpdateRange(lodX, lodZ, p.chunkX, p.chunkZ, UpdateRadius(configs[p.id]).value)
  }

  predicate DistinctPlayers(players: seq<Player>)
  {
    forall i, j | 0 <= i < j < |players| :: players[i].id != players[j].id
  }

  /** How a player with configuration `config` is handled when nothing
      throws: it is sent the chunks and the update under its next buffer
      id, with that id stored, exactly when it is in range; otherwise it is
      sent nothing and its configuration stays as it was. */
  predicate Handled(levelKey: string, lod: LodModel, lodX: int32, lodZ: int32, p: Player, config: Config,
                    sent: seq<Delivery>, after: Config)
  {
    if UpdateRadius(config).Ok? && InUpdateRange(lodX, lodZ, p.chunkX, p.chunkZ, UpdateRadius(config).value) then
      NextBufferId(config).Ok? &&
      sent == PlayerMessages(levelKey, lod, NextBufferId(config).value, p.id) &&
      after == config[BUFFER_ID_KEY := Int(NextBufferId(config).value)]
    else
      sent == [] && after == config
  }

  /** One iteration that does not throw handles its player. */
  lemma UpdatePlayerHandles(levelKey: string, lod: LodModel, lodX: int32, lodZ: int32, p: Player, config: Config)
    requires |lod.data| <= INT_MAX
    requires UpdatePlayer(levelKey, lod, lodX, lodZ, p, config).failure.None?
    ensures Handled(levelKey, lod, lodX, lodZ, p, config, UpdatePlayer(levelKey, lod, lodX, lodZ, p, config).sent,
                    UpdatePlayer(levelKey, lod, lodX, lodZ, p, config).config)
  {
  }

  /** One iteration of the loop touches one player: the others' messages
      and configurations stay as they were. */
  lemma FanOutStep(levelKey: string, lod: LodModel, lodX: int32, lodZ: int32, players: seq<Player>,
                   configs: map<PlayerId, Config>, k: nat)
    requires |lod.data| <= INT_MAX
    requires 0 < k <= |players|
    requires FanOut(levelKey, lod, lodX, lodZ, players, configs, k).failure.None?
    ensures FanOut(levelKey, lod, lodX, lodZ, players, configs, k - 1).failure.None?
    ensures forall id | id != players[k - 1].id ::
      SentTo(FanOut(levelKey, lod, lodX, lodZ, players, configs, k).sent, id) ==
        SentTo(FanOut(levelKey, lod, lodX, lodZ, players, configs, k - 1).sent, id) &&
      (id in configs ==>
        FanOut(levelKey, lod, lodX, lodZ, players, configs, k).configs[id] ==
          FanOut(levelKey, lod, lodX, lodZ, players, configs, k - 1).configs[id])
    ensures players[k - 1].id !in configs ==>
      FanOut(levelKey, lod, lodX, lodZ, players, configs, k) == FanOut(levelKey, lod, lodX, lodZ, players, configs, k - 1)
    ensures players[k - 1].id in configs ==>
      var before := FanOut(levelKey, lod, lodX, lodZ, players, configs, k - 1);
      var step := UpdatePlayer(levelKey, lod, lodX, lodZ, players[k - 1], before.configs[players[k - 1].id]);
      step.failure.None? &&
      SentTo(FanOut(levelKey, lod, lodX, lodZ, players, configs, k).sent, players[k - 1].id) ==
        SentTo(before.sent, players[k - 1].id) + step.sent &&
      FanOut(levelKey, lod, lodX, lodZ, players, configs, k).configs[players[k - 1].id] == step.config
  {
    var before := FanOut(levelKey, lod, lodX, lodZ, players, configs, k - 1);
    var p := players[k - 1];
    if p.id in configs {
      var step := UpdatePlayer(levelKey, lod, lodX, lodZ, p, before.configs[p.id]);
      forall id {
        SentToConcat(before.sent, step.sent, id);
      }
      forall id | id != p.id {
        SentToNone(step.sent, id);
      }
      SentToAll(step.sent, p.id);
    }
  }

  /** A player that is not among the first `k` is neither sent anything
      nor changed. */
  lemma {:induction false} FanOutLeavesOthers(levelKey: string, lod: LodModel, lodX: int32, lodZ: int32, players: seq<Player>,
                                              configs: map<PlayerId, Config>, k: nat, id: PlayerId)
    requires |lod.data| <= INT_MAX
    requires k <= |players|
    requires FanOut(levelKey, lod, lodX, lodZ, players, configs, k).failure.None?
    requires forall j | 0 <= j < k :: players[j].id != id
    ensures SentTo(FanOut(levelKey, lod, lodX, lodZ, players, configs, k).sent, id) == []
    ensures id in configs ==> FanOut(levelKey, lod, lodX, lodZ, players, configs, k).configs[id] == configs[id]
  {
    if k > 0 {
      FanOutStep(levelKey, lod, lodX, lodZ, players, configs, k);
      FanOutLeavesOthers(levelKey, lod, lodX, lodZ, players, configs, k - 1, id);
    }
  }

  /** Without an exception, every player of the world is handled on its
      own: each is sent its update iff it is in range, its buffer id
      advances by one iff it is sent, and a player without a configuration
      is sent nothing. */
  lemma {:induction false} FanOutDelivers(levelKey: string, lod: LodModel, lodX: int32, lodZ: int32, players: seq<Player>,
                                          configs: map<PlayerId, Config>, k: nat)
    requires |lod.data| <= INT_MAX
    requires k <= |players| && DistinctPlayers(players)
    requires FanOut(levelKey, lod, lodX, lodZ, players, configs, k).failure.None?
    ensures forall j | 0 <= j < k && players[j].id in configs ::
      Handled(levelKey, lod, lodX, lodZ, players[j], configs[players[j].id],
              SentTo(FanOut(levelKey, lod, lodX, lodZ, players, configs, k).sent, players[j].id),
              FanOut(levelKey, lod, lodX, lodZ, players, configs, k).configs[players[j].id])
    ensures forall j | 0 <= j < k && players[j].id !in configs ::
      SentTo(FanOut(levelKey, lod, lodX, lodZ, players, configs, k).sent, players[j].id) == []
  {
    if k > 0 {
      var before := FanOut(levelKey, lod, lodX, lodZ, players, configs, k - 1);
      var r := FanOut(levelKey, lod, lodX, lodZ, players, configs, k);
      var p := players[k - 1];
      FanOutStep(levelKey, lod, lodX, lodZ, players, configs, k);
      FanOutDelivers(levelKey, lod, lodX, lodZ, players, configs, k - 1);
      FanOutLeavesOthers(levelKey, lod, lodX, lodZ, players, configs, k - 1, p.id);
      forall j | 0 <= j < k - 1
        ensures players[j].id in configs ==>
          Handled(levelKey, lod, lodX, lodZ, players[j], configs[players[j].id], SentTo(r.sent, players[j].id), r.configs[players[j].id])
        ensures players[j].id !in configs ==> SentTo(r.sent, players[j].id) == []
      {
        assert players[j].id != p.id;
        assert SentTo(r.sent, players[j].id) == SentTo(before.sent, players[j].id);
      }
      if p.id in configs {
        UpdatePlayerHandles(levelKey, lod, lodX, lodZ, p, configs[p.id]);
      }
    }
  }

  /** Without an exception, only players of the world in range are sent
      anything. */
  lemma OnlyPlayersInRangeReceive(levelKey: string, lod: LodModel, lodX: int32, lodZ: int32, players: seq<Player>,
                                  configs: map<PlayerId, Config>, id: PlayerId)
    requires |lod.data| <= INT_MAX
    requires DistinctPlayers(players)
    requires FanOut(levelKey, lod, lodX, lodZ, players, configs, |players|).failure.None?
    requires SentTo(FanOut(levelKey, lod, lodX, lodZ, players, configs, |players|).sent, id) != []
    ensures exists j | 0 <= j < |players| :: players[j].id == id && Receives(lodX, lodZ, players[j], configs)
  {
    if forall j | 0 <= j < |players| :: players[j].id != id {
      FanOutLeavesOthers(levelKey, lod, lodX, lodZ, players, configs, |players|, id);
    }
    var j :| 0 <= j < |players| && players[j].id == id;
    FanOutDelivers(levelKey, lod, lodX, lodZ, players, configs, |players|);
  }

  /** A world with real-time updates switched off sends nothing to anyone. */
  lemma DisabledUpdatesSendNothing(worldConfig: Config, scope: Scope, worldName: string, lod: LodModel, lodX: int32,
                                   lodZ: int32, players: seq<Player>, configs: map<PlayerId, Config>, id: PlayerId)
    requires |lod.data| <= INT_MAX
    requires Get(worldConfig, scope, REAL_TIME_UPDATES_ENABLED, Null) == Bool(false)
    ensures SentTo(PartialUpdate(worldConfig, scope, worldName, lod, lodX, lodZ, players, configs).sent, id) == []
    ensures PartialUpdate(worldConfig, scope, worldName, lod, lodX, lodZ, players, configs).configs == configs
  {
  }
}
