/** The handler for a player's remote configuration: it answers with the
    level key, merges the client's twelve settings with the server's, stores
    the merged configuration for the player and echoes it back. */
module PlayerConfigHandler {
  import opened Wrappers
  import opened JavaInt
  import opened Configuration
  import opened ConfigKeys
  import opened RemotePlayerConfigMessage
  import opened PluginMessages
  import opened BukkitWorldInterface

  /** `"distant_horizons.worlds.%s"` */
  function UsagePermission(worldName: string): string
  {
    "distant_horizons.worlds." + worldName
  }

  /** Use is allowed unless the permission is set and not granted. */
  predicate DhUseIsAllowed(permissionSet: bool, hasPermission: bool)
  {
    !permissionSet || hasPermission
  }

  /** The level key: the configured prefix, when there is one, then the
      world's key. */
  function LevelKey(prefix: Option<string>, worldKey: string): (r: string)
    ensures prefix.None? ==> r == worldKey
    ensures prefix.Some? ==> |r| == |prefix.value| + |worldKey| && r[..|prefix.value|] == prefix.value
    ensures r[|r| - |worldKey|..] == worldKey
  {
    if prefix.Some? then prefix.value + worldKey else worldKey
  }

  /** `(int) (center * coordinateScale)`: the product, saturated to the int
      range by the cast from double. */
  function ScaleCoordinate(center: int32, scale: int): (r: int32)
    ensures INT_MIN <= center * scale <= INT_MAX ==> r == center * scale
    ensures center * scale > INT_MAX ==> r == INT_MAX
    ensures center * scale < INT_MIN ==> r == INT_MIN
  {
    Saturate32(center * scale)
  }

  /** The generic merge of a server and a client value: two booleans give
      their conjunction, two ints the smaller one, anything else null. */
  function Meet(dhs: Value, client: Value): Value
  {
    if dhs.Bool? && client.Bool? then Bool(dhs.b && client.b)
    else if dhs.Int? && client.Int? then Int(if dhs.i < client.i then dhs.i else client.i)
    else Null
  }

  /** The merge is the greatest lower bound on booleans (false below true)
      and on ints, and yields null when the kinds do not match. */
  lemma MeetIsGreatestLowerBound(dhs: Value, client: Value)
    ensures Meet(dhs, client).Bool? <==> dhs.Bool? && client.Bool?
    ensures Meet(dhs, client) == Bool(true) <==> dhs == Bool(true) && client == Bool(true)
    ensures Meet(dhs, client).Int? <==> dhs.Int? && client.Int?
    ensures Meet(dhs, client).Int? ==>
      Meet(dhs, client).i <= dhs.i && Meet(dhs, client).i <= client.i &&
      (Meet(dhs, client).i == dhs.i || Meet(dhs, client).i == client.i)
    ensures Meet(dhs, client) == Null <==> !(dhs.Bool? && client.Bool?) && !(dhs.Int? && client.Int?)
  {
  }

  function BoxInt(o: Option<int32>): Value
  {
    Box(o, i => Int(i))
  }

  /** The value a key is forced to before the generic merge: false for
      distant generation when use is denied, the world's border for the three
      border keys (the centre scaled), and null otherwise. */
  function Override(key: string, allowed: bool, border: WorldBorder, scale: int): Value
  {
    var veto := if key == DISTANT_GENERATION_ENABLED && !allowed then Bool(false) else Null;
    var fromWorld :=
      if key == BORDER_CENTER_X then BoxInt(border.centerX)
      else if key == BORDER_CENTER_Z then BoxInt(border.centerZ)
      else if key == BORDER_RADIUS then BoxInt(border.radius)
      else veto;
    if (key == BORDER_CENTER_X || key == BORDER_CENTER_Z) && fromWorld.Int? then
      Int(ScaleCoordinate(fromWorld.i, scale))
    else
      fromWorld
  }

  /** The merged value of one key. */
  function KeepValue(key: string, dhs: Value, client: Value, allowed: bool, border: WorldBorder, scale: int): Value
  {
    var forced := Override(key, allowed, border, scale);
    if forced != Null then forced else Meet(dhs, client)
  }

  /** Denied use forces distant generation off, whatever either side says. */
  lemma KeepValueVeto(dhs: Value, client: Value, border: WorldBorder, scale: int)
    ensures KeepValue(DISTANT_GENERATION_ENABLED, dhs, client, false, border, scale) == Bool(false)
  {
  }

  /** The border comes from the world, centres scaled; only a null from the
      world lets the server's and the client's values through. */
  lemma KeepValueBorder(dhs: Value, client: Value, allowed: bool, border: WorldBorder, scale: int)
    ensures border.centerX.Some? ==>
      KeepValue(BORDER_CENTER_X, dhs, client, allowed, border, scale) == Int(ScaleCoordinate(border.centerX.value, scale))
    ensures border.centerZ.Some? ==>
      KeepValue(BORDER_CENTER_Z, dhs, client, allowed, border, scale) == Int(ScaleCoordinate(border.centerZ.value, scale))
    ensures border.radius.Some? ==>
      KeepValue(BORDER_RADIUS, dhs, client, allowed, border, scale) == Int(border.radius.value)
    ensures border.centerX.None? ==> KeepValue(BORDER_CENTER_X, dhs, client, allowed, border, scale) == Meet(dhs, client)
    ensures border.centerZ.None? ==> KeepValue(BORDER_CENTER_Z, dhs, client, allowed, border, scale) == Meet(dhs, client)
    ensures border.radius.None? ==> KeepValue(BORDER_RADIUS, dhs, client, allowed, border, scale) == Meet(dhs, client)
  {
  }

  /** Every other key, and distant generation when use is allowed, is the
      generic merge. */
  lemma KeepValueOtherwiseMeet(key: string, dhs: Value, client: Value, allowed: bool, border: WorldBorder, scale: int)
    requires !IsBorderKey(key)
    requires key != DISTANT_GENERATION_ENABLED || allowed
    ensures KeepValue(key, dhs, client, allowed, border, scale) == Meet(dhs, client)
  {
  }

  /** The merge loop: starting from the client's configuration, each key in
      turn is read on both sides and set to its merged value. Each key is
      read before it is written and the keys are distinct, so every read sees
      the client's own value. */
  method Merge(server: Config, scope: Scope, msg: RemotePlayerConfig, allowed: bool, border: WorldBorder, scale: int)
    returns (merged: Config)
    ensures merged.Keys == set k | k in KEYS
    ensures forall i | 0 <= i < 12 ::
      merged[KEYS[i]] == KeepValue(KEYS[i], Get(server, scope, KEYS[i], Null), ValueOfToken(Fields(msg)[i]), allowed, border, scale)
  {
    merged := ToConfiguration(msg);
    ToConfigurationContents(msg);
    KeysDistinct();
    for i := 0 to 12
      invariant MergedUpTo(server, scope, msg, allowed, border, scale, merged, i)
    {
      var key := KEYS[i];
      var dhsValue := Get(server, scope, key, Null);
      var clientValue := Get(merged, Global, key, Null);
      MergeStep(server, scope, msg, allowed, border, scale, merged, i);
      merged := Set(merged, Global, key, KeepValue(key, dhsValue, clientValue, allowed, border, scale));
    }
  }

  /** The state of the merge loop before key `i`: the keys merged so far
      hold their merged values and the rest still hold the client's. */
  predicate MergedUpTo(server: Config, scope: Scope, msg: RemotePlayerConfig, allowed: bool, border: WorldBorder, scale: int,
                       merged: Config, i: nat)
  {
    i <= 12 &&
    merged.Keys == (set k | k in KEYS) &&
    (forall j | 0 <= j < i ::
      merged[KEYS[j]] == KeepValue(KEYS[j], Get(server, scope, KEYS[j], Null), ValueOfToken(Fields(msg)[j]), allowed, border, scale)) &&
    (forall j | i <= j < 12 :: merged[KEYS[j]] == ValueOfToken(Fields(msg)[j]))
  }

  /** Merging key `i` reads the client's own value, since no earlier key
      is the same, and moves the loop state on by one key. */
  lemma MergeStep(server: Config, scope: Scope, msg: RemotePlayerConfig, allowed: bool, border: WorldBorder, scale: int,
                  merged: Config, i: nat)
    requires i < 12 && MergedUpTo(server, scope, msg, allowed, border, scale, merged, i)
    ensures var key := KEYS[i];
      MergedUpTo(server, scope, msg, allowed, border, scale,
        Set(merged, Global, key, KeepValue(key, Get(server, scope, key, Null), Get(merged, Global, key, Null), allowed, border, scale)),
        i + 1)
  {
    KeysDistinct();
  }

  predicate ValueHasKind(v: Value, k: Kind)
  {
    match k
    case BoolKind => v.Bool?
    case IntKind => v.Int?
  }

  /** Whether the server's value lets field `i` of the echo be read back. */
  predicate ServerSupplies(server: Config, scope: Scope, allowed: bool, i: nat)
    requires i < 12
  {
    IsBorderKey(KEYS[i]) || (i == 0 && !allowed) || ValueHasKind(Get(server, scope, KEYS[i], Null), KINDS[i])
  }

  lemma MergedFieldReadable(server: Config, scope: Scope, msg: RemotePlayerConfig, allowed: bool,
                            border: WorldBorder, scale: int, i: nat)
    requires i < 12
    ensures FieldFromValue(KeepValue(KEYS[i], Get(server, scope, KEYS[i], Null), ValueOfToken(Fields(msg)[i]), allowed, border, scale), i).Some?
      <==> ServerSupplies(server, scope, allowed, i)
  {
    KeysDistinct();
    assert HasKind(Fields(msg)[i], KINDS[i]);
  }

  /** Echoing the merged configuration back fails, by unboxing a null,
      exactly when some non-border key has no server value of its kind; the
      veto on distant generation supplies that key's value itself. */
  lemma EchoSucceedsIff(server: Config, scope: Scope, msg: RemotePlayerConfig, allowed: bool,
                        border: WorldBorder, scale: int, merged: Config)
    requires merged.Keys == set k | k in KEYS
    requires forall i | 0 <= i < 12 ::
      merged[KEYS[i]] == KeepValue(KEYS[i], Get(server, scope, KEYS[i], Null), ValueOfToken(Fields(msg)[i]), allowed, border, scale)
    ensures FromConfiguration(merged, Global).Ok? <==>
      forall i | 0 <= i < 12 :: ServerSupplies(server, scope, allowed, i)
  {
    FromConfigurationMeaning(merged);
    forall i | 0 <= i < 12
      ensures FieldFromValue(ValueOf(merged, KEYS[i]), i).Some? <==> ServerSupplies(server, scope, allowed, i)
    {
      MergedFieldReadable(server, scope, msg, allowed, border, scale, i);
    }
  }

  /** Everything the handler does for one message, given the world and the
      clock. The border is the world's report of it, which can throw
      (`BukkitWorldInterface.BorderAsWritten`). */
  datatype Request = Request(
    msg: RemotePlayerConfig,
    server: Config,
    scope: Scope,
    worldKey: string,
    permissionSet: bool,
    hasPermission: bool,
    border: Result<WorldBorder>,
    coordinateScale: int,
    now: int64)

  /** The level announcement, the configuration stored for the player, and
      the echo, which can itself fail. */
  datatype Outcome = Outcome(levelInit: LevelInit, stored: Config, echo: Result<RemotePlayerConfig>)

  /** The handler. It fails before sending anything when the level key
      prefix is not a string. Otherwise it announces the level, and then
      fails inside the merge loop when the world cannot report its border. */
  method Handle(req: Request) returns (announced: Option<LevelInit>, r: Result<Outcome>)
    ensures announced.Some? <==> GetString(req.server, req.scope, LEVEL_KEY_PREFIX, None).Ok?
    ensures announced.Some? ==>
      announced.value == LevelInit(LevelKey(GetString(req.server, req.scope, LEVEL_KEY_PREFIX, None).value, req.worldKey), req.now)
    ensures r.Ok? <==> announced.Some? && req.border.Ok?
    ensures announced.None? ==> r == Err(GetString(req.server, req.scope, LEVEL_KEY_PREFIX, None).error)
    ensures announced.Some? && req.border.Err? ==> r == Err(req.border.error)
    ensures r.Ok? ==> r.value.levelInit == announced.value
    ensures r.Ok? ==> r.value.stored.Keys == set k | k in KEYS
    ensures r.Ok? ==> forall i | 0 <= i < 12 ::
      r.value.stored[KEYS[i]] == KeepValue(KEYS[i], Get(req.server, req.scope, KEYS[i], Null), ValueOfToken(Fields(req.msg)[i]),
                                           DhUseIsAllowed(req.permissionSet, req.hasPermission), req.border.value, req.coordinateScale)
    ensures r.Ok? && req.permissionSet && !req.hasPermission ==> r.value.stored[DISTANT_GENERATION_ENABLED] == Bool(false)
    ensures r.Ok? ==> r.value.echo == FromConfiguration(r.value.stored, Global)
  {
    var allowed := DhUseIsAllowed(req.permissionSet, req.hasPermission);
    var prefix := GetString(req.server, req.scope, LEVEL_KEY_PREFIX, None);
    if prefix.Err? {
      return None, Err(prefix.error);
    }
    var levelInit := LevelInit(LevelKey(prefix.value, req.worldKey), req.now);
    announced := Some(levelInit);
    if req.border.Err? {
      return announced, Err(req.border.error);
    }
    var merged := Merge(req.server, req.scope, req.msg, allowed, req.border.value, req.coordinateScale);
    assert KEYS[0] == DISTANT_GENERATION_ENABLED;
    r := Ok(Outcome(levelInit, merged, FromConfiguration(merged, Global)));
  }
}
