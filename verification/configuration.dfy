/** The plugin's configuration: a map from key to a nullable Java object,
    read either globally or through a world's overlay. A world's overlay
    stores its values under the key prefixed with `worlds.<name>.` in the
    same map, and falls back to the global key when the prefixed value is
    null or missing. */
module Configuration {
  import opened Wrappers
  import opened JavaInt

  /** The objects a configuration holds; `Null` is Java's null, which a map
      can hold as a value. */
  datatype Value = Null | Bool(b: bool) | Int(i: int32) | Str(s: string)

  type Config = map<string, Value>

  /** Which view of the configuration a caller holds: the plain map, or a
      world's overlay on it. */
  datatype Scope = Global | World(worldName: string)

  /** `"worlds.%s.".formatted(worldName) + key` */
  function WorldKey(worldName: string, key: string): (r: string)
    ensures |r| > |key|
  {
    "worlds." + worldName + "." + key
  }

  /** `set`: afterwards a non-null value is what the same view reads back,
      whatever the default, and no key is lost. */
  function Set(c: Config, scope: Scope, key: string, value: Value): (r: Config)
    ensures value != Null ==> forall d :: Get(r, scope, key, d) == value
    ensures c.Keys <= r.Keys
  {
    match scope
    case Global => c[key := value]
    case World(n) => c[WorldKey(n, key) := value]
  }

  function Unset(c: Config, scope: Scope, key: string): Config
  {
    match scope
    case Global => c - {key}
    case World(n) => c - {WorldKey(n, key)}
  }

  /** `get(key, default)`: the global view is `getOrDefault`, so a key that
      is present with a null value yields null, not the default. A world's
      view takes the prefixed value unless that is null, and otherwise the
      global value or the default. */
  function Get(c: Config, scope: Scope, key: string, default: Value): (v: Value)
    ensures v == default || v in c.Values
    ensures key !in c && (scope.Global? || WorldKey(scope.worldName, key) !in c) ==> v == default
  {
    match scope
    case Global => GetOrDefault(c, key, default)
    case World(n) =>
      var specific := GetOrDefault(c, WorldKey(n, key), Null);
      if specific == Null then GetOrDefault(c, key, default) else specific
  }

  /** `Map.getOrDefault` */
  function GetOrDefault(c: Config, key: string, default: Value): Value
  {
    if key in c then c[key] else default
  }

  /** `(Boolean) obj`: null casts to null, another type fails. */
  function AsBool(v: Value): (r: Result<Option<bool>>)
    ensures r == Ok(None) <==> v == Null
    ensures forall b :: r == Ok(Some(b)) <==> v == Bool(b)
    ensures r == Err(ClassCast) <==> !(v.Null? || v.Bool?)
  {
    match v
    case Null => Ok(None)
    case Bool(b) => Ok(Some(b))
    case _ => Err(ClassCast)
  }

  function AsInt(v: Value): (r: Result<Option<int32>>)
    ensures r == Ok(None) <==> v == Null
    ensures forall i: int32 :: r == Ok(Some(i)) <==> v == Int(i)
    ensures r == Err(ClassCast) <==> !(v.Null? || v.Int?)
  {
    match v
    case Null => Ok(None)
    case Int(i) => Ok(Some(i))
    case _ => Err(ClassCast)
  }

  function AsString(v: Value): (r: Result<Option<string>>)
    ensures r == Ok(None) <==> v == Null
    ensures forall s :: r == Ok(Some(s)) <==> v == Str(s)
    ensures r == Err(ClassCast) <==> !(v.Null? || v.Str?)
  {
    match v
    case Null => Ok(None)
    case Str(s) => Ok(Some(s))
    case _ => Err(ClassCast)
  }

  /** A nullable boxed default as a configuration value. */
  function Box<T>(o: Option<T>, wrap: T -> Value): Value
  {
    match o
    case None => Null
    case Some(x) => wrap(x)
  }

  /** The typed getters are `get` with a boxed default, then a cast; they go
      through `Get`, so a world's overlay applies to them too. */
  function GetBool(c: Config, scope: Scope, key: string, default: Option<bool>): Result<Option<bool>>
  {
    AsBool(Get(c, scope, key, Box(default, b => Bool(b))))
  }

  function GetInt(c: Config, scope: Scope, key: string, default: Option<int32>): Result<Option<int32>>
  {
    AsInt(Get(c, scope, key, Box(default, i => Int(i))))
  }

  function GetString(c: Config, scope: Scope, key: string, default: Option<string>): Result<Option<string>>
  {
    AsString(Get(c, scope, key, Box(default, s => Str(s))))
  }

  // ---------------------------------------------------------------------
  // The global map

  lemma GetAfterSet(c: Config, key: string, value: Value, default: Value)
    ensures Get(Set(c, Global, key, value), Global, key, default) == value
  {
  }

  /** The default is returned exactly when the key is absent: a key set to
      null does not fall back. */
  lemma DefaultOnlyWhenAbsent(c: Config, key: string)
    ensures (forall d :: Get(c, Global, key, d) == d) <==> key !in c
    ensures key in c && c[key] == Null ==> forall d :: Get(c, Global, key, d) == Null
  {
    if key in c {
      var d := if c[key] == Null then Bool(true) else Null;
      assert Get(c, Global, key, d) != d;
    }
  }

  lemma GetAfterUnset(c: Config, key: string, default: Value)
    ensures Get(Unset(c, Global, key), Global, key, default) == default
  {
  }

  /** `set` and `unset` leave every other key alone. */
  lemma SetUnsetFrame(c: Config, key: string, other: string, value: Value, default: Value)
    requires other != key
    ensures Get(Set(c, Global, key, value), Global, other, default) == Get(c, Global, other, default)
    ensures Get(Unset(c, Global, key), Global, other, default) == Get(c, Global, other, default)
  {
  }

  /** A typed getter yields the stored value of its type, null, or a cast
      error when the stored value has another type. */
  lemma TypedGetters(c: Config, scope: Scope, key: string, b: bool, i: int32, s: string)
    ensures GetBool(Set(c, Global, key, Bool(b)), Global, key, None) == Ok(Some(b))
    ensures GetInt(Set(c, Global, key, Int(i)), Global, key, None) == Ok(Some(i))
    ensures GetString(Set(c, Global, key, Str(s)), Global, key, None) == Ok(Some(s))
    ensures GetBool(Set(c, Global, key, Int(i)), Global, key, Some(b)) == Err(ClassCast)
    ensures GetInt(Set(c, Global, key, Str(s)), Global, key, Some(i)) == Err(ClassCast)
    ensures GetString(Set(c, Global, key, Bool(b)), Global, key, Some(s)) == Err(ClassCast)
    ensures key !in c ==> GetInt(c, Global, key, Some(i)) == Ok(Some(i))
  {
  }

  // ---------------------------------------------------------------------
  // A world's overlay

  /** A world's key never equals the plain key it is built from. */
  lemma WorldKeyDiffers(worldName: string, key: string)
    ensures WorldKey(worldName, key) != key
  {
  }

  /** A world's `set` stores the value under the prefixed key and leaves the
      global value of the same key untouched; so does `unset`. */
  lemma WorldSetUnset(c: Config, worldName: string, key: string, value: Value, default: Value)
    ensures Get(Set(c, World(worldName), key, value), Global, WorldKey(worldName, key), default) == value
    ensures Get(Set(c, World(worldName), key, value), Global, key, default) == Get(c, Global, key, default)
    ensures Get(Unset(c, World(worldName), key), Global, WorldKey(worldName, key), default) == default
    ensures Get(Unset(c, World(worldName), key), Global, key, default) == Get(c, Global, key, default)
  {
    WorldKeyDiffers(worldName, key);
  }

  /** A world's non-null value wins over the global one. */
  lemma WorldValueWins(c: Config, worldName: string, key: string, value: Value, default: Value)
    requires value != Null
    ensures Get(Set(c, World(worldName), key, value), World(worldName), key, default) == value
  {
  }

  /** Without a non-null world value, the world's view is the global view. */
  lemma WorldFallsBack(c: Config, worldName: string, key: string, default: Value)
    requires WorldKey(worldName, key) !in c || c[WorldKey(worldName, key)] == Null
    ensures Get(c, World(worldName), key, default) == Get(c, Global, key, default)
  {
  }

  /** Setting a world's value to null, or unsetting it, makes every getter,
      typed ones included, fall back to the global value. */
  lemma WorldNullFallsBack(c: Config, worldName: string, key: string, default: Value, di: Option<int32>)
    ensures Get(Set(c, World(worldName), key, Null), World(worldName), key, default) == Get(c, Global, key, default)
    ensures Get(Unset(c, World(worldName), key), World(worldName), key, default) == Get(c, Global, key, default)
    ensures GetInt(Set(c, World(worldName), key, Null), World(worldName), key, di) == GetInt(c, Global, key, di)
  {
    WorldKeyDiffers(worldName, key);
    var boxed := Box(di, i => Int(i));
    assert Get(Set(c, World(worldName), key, Null), World(worldName), key, boxed) == Get(c, Global, key, boxed);
  }
}

/** The configuration keys the modelled code reads, with the plugin's
    spelling. */
module ConfigKeys {
  const RENDER_DISTANCE := "render_distance"
  const DISTANT_GENERATION_ENABLED := "distant_generation_enabled"
  const FULL_DATA_REQUEST_CONCURRENCY_LIMIT := "full_data_request_concurrency_limit"
  const REAL_TIME_UPDATES_ENABLED := "real_time_updates_enabled"
  const REAL_TIME_UPDATE_RADIUS := "real_time_update_radius"
  const LOGIN_DATA_SYNC_ENABLED := "login_data_sync_enabled"
  const LOGIN_DATA_SYNC_RADIUS := "login_data_sync_radius"
  const LOGIN_DATA_SYNC_RC_LIMIT := "login_data_sync_rc_limit"
  const MAX_DATA_TRANSFER_SPEED := "max_data_transfer_speed"
  const LEVEL_KEY_PREFIX := "level_key_prefix"
  const BORDER_CENTER_X := "border_center_x"
  const BORDER_CENTER_Z := "border_center_z"
  const BORDER_RADIUS := "border_radius"
  const USE_VANILLA_WORLD_BORDER := "use_vanilla_world_border"
  const VANILLA_WORLD_BORDER_EXPANSION := "vanilla_world_border_expansion"
  const BUILDER_TYPE := "builder_type"
  const BUILDER_RESOLUTION := "builder_resolution"
  const SCAN_TO_SEA_LEVEL := "scan_to_sea_level"
  const INCLUDE_NON_COLLIDING_TOP_LAYER := "include_non-colliding_top_layer"
  const INCLUDE_BEACONS := "include_beacons"
  const GENERATE_NEW_CHUNKS := "generate_new_chunks"
}
