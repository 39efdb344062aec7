/** The remote player configuration message: twelve fields in a fixed wire
    order, and its mapping to and from a configuration. `encode`, `decode`,
    `toConfiguration` and `fromConfiguration` all handle the fields in the
    order of `KEYS`, so the model walks one field table: field `i` has key
    `KEYS[i]` and kind `KINDS[i]`. */
module RemotePlayerConfigMessage {
  import opened Wrappers
  import opened JavaInt
  import opened TokenStream
  import opened Configuration
  import opened ConfigKeys

  /** The setters and getters are this record's fields and updates. */
  datatype RemotePlayerConfig = RemotePlayerConfig(
    distantGenerationEnabled: bool,
    renderDistance: int32,
    borderCenterX: int32,
    borderCenterZ: int32,
    borderRadius: int32,
    fullDataRequestConcurrencyLimit: int32,
    realTimeUpdatesEnabled: bool,
    realTimeUpdateRadius: int32,
    loginDataSyncEnabled: bool,
    loginDataSyncRadius: int32,
    loginDataSyncRcLimit: int32,
    maxDataTransferSpeed: int32)

  const KEYS: seq<string> := [
    DISTANT_GENERATION_ENABLED,
    RENDER_DISTANCE,
    BORDER_CENTER_X,
    BORDER_CENTER_Z,
    BORDER_RADIUS,
    FULL_DATA_REQUEST_CONCURRENCY_LIMIT,
    REAL_TIME_UPDATES_ENABLED,
    REAL_TIME_UPDATE_RADIUS,
    LOGIN_DATA_SYNC_ENABLED,
    LOGIN_DATA_SYNC_RADIUS,
    LOGIN_DATA_SYNC_RC_LIMIT,
    MAX_DATA_TRANSFER_SPEED
  ]

  datatype Kind = BoolKind | IntKind

  /** A boolean, five ints, a boolean, an int, a boolean and three ints. */
  const KINDS: seq<Kind> := [
    BoolKind, IntKind, IntKind, IntKind, IntKind, IntKind,
    BoolKind, IntKind, BoolKind, IntKind, IntKind, IntKind
  ]

  /** The three fields a missing value maps to 0 for. */
  predicate IsBorderKey(key: string)
  {
    key == BORDER_CENTER_X || key == BORDER_CENTER_Z || key == BORDER_RADIUS
  }

  lemma KeysDistinct()
    ensures |KEYS| == |KINDS| == 12
    ensures forall i, j | 0 <= i < j < |KEYS| :: KEYS[i] != KEYS[j]
  {
  }

  predicate HasKind(t: Token, k: Kind)
  {
    match k
    case BoolKind => t.BoolToken?
    case IntKind => t.IntToken?
  }

  /** Tokens of the kinds a field table asks for, one per field. */
  predicate Fits(ts: seq<Token>, kinds: seq<Kind>)
  {
    |ts| == |kinds| && forall i | 0 <= i < |ts| :: HasKind(ts[i], kinds[i])
  }

  /** The message's fields in wire order. */
  function Fields(m: RemotePlayerConfig): (ts: seq<Token>)
    ensures Fits(ts, KINDS)
  {
    [ BoolToken(m.distantGenerationEnabled),
      IntToken(m.renderDistance),
      IntToken(m.borderCenterX),
      IntToken(m.borderCenterZ),
      IntToken(m.borderRadius),
      IntToken(m.fullDataRequestConcurrencyLimit),
      BoolToken(m.realTimeUpdatesEnabled),
      IntToken(m.realTimeUpdateRadius),
      BoolToken(m.loginDataSyncEnabled),
      IntToken(m.loginDataSyncRadius),
      IntToken(m.loginDataSyncRcLimit),
      IntToken(m.maxDataTransferSpeed) ]
  }

  function FromFields(ts: seq<Token>): RemotePlayerConfig
    requires Fits(ts, KINDS)
  {
    RemotePlayerConfig(ts[0].b, ts[1].i, ts[2].i, ts[3].i, ts[4].i, ts[5].i,
      ts[6].b, ts[7].i, ts[8].b, ts[9].i, ts[10].i, ts[11].i)
  }

  /** A message and its field list determine each other. */
  lemma FieldsBijective(m: RemotePlayerConfig, ts: seq<Token>)
    ensures FromFields(Fields(m)) == m
    ensures Fits(ts, KINDS) ==> Fields(FromFields(ts)) == ts
  {
    if Fits(ts, KINDS) {
      assert forall i | 0 <= i < 12 :: Fields(FromFields(ts))[i] == ts[i];
    }
  }

  // ---------------------------------------------------------------------
  // Wire codec

  function Encode(m: RemotePlayerConfig): (s: Stream)
    ensures |s| == 12 && Fits(s, KINDS)
  {
    Fields(m)
  }

  function ReadKind(k: Kind, s: Stream): (r: Result<Read<Token>>)
    ensures r.Ok? <==> |s| > 0 && HasKind(s[0], k)
    ensures r.Ok? ==> s == [r.value.value] + r.value.rest
  {
    match k
    case BoolKind =>
      var b :- ReadBool(s);
      Ok(Read(BoolToken(b.value), b.rest))
    case IntKind =>
      var i :- ReadInt(s);
      Ok(Read(IntToken(i.value), i.rest))
  }

  /** `decode` reads each field with the reader of its kind, in order; the
      first read that fails ends it. Whatever it reads is a prefix of the
      stream of the kinds asked for. */
  function ReadFields(kinds: seq<Kind>, s: Stream): (r: Result<Read<seq<Token>>>)
    ensures r.Ok? ==> Fits(r.value.value, kinds) && s == r.value.value + r.value.rest
    decreases |kinds|
  {
    if |kinds| == 0 then Ok(Read([], s))
    else
      match ReadKind(kinds[0], s)
      case Err(e) => Err(e)
      case Ok(t) =>
        match ReadFields(kinds[1..], t.rest)
        case Err(e) => Err(e)
        case Ok(more) =>
          ConsRead(s, t, more, kinds);
          Ok(Read([t.value] + more.value, more.rest))
  }

  function Decode(s: Stream): (r: Result<Read<RemotePlayerConfig>>)
    ensures r.Ok? ==> |s| >= 12 && Fits(s[..12], KINDS) && r.value.rest == s[12..]
  {
    var fs :- ReadFields(KINDS, s);
    Ok(Read(FromFields(fs.value), fs.rest))
  }

  lemma {:induction false} ReadFieldsInvertsWrites(ts: seq<Token>, kinds: seq<Kind>, rest: Stream)
    requires Fits(ts, kinds)
    ensures ReadFields(kinds, ts + rest) == Ok(Read(ts, rest))
  {
    if |kinds| > 0 {
      assert (ts + rest)[1..] == ts[1..] + rest;
      assert Fits(ts[1..], kinds[1..]) by {
        forall i | 0 <= i < |ts[1..]| ensures HasKind(ts[1..][i], kinds[1..][i]) {
          assert HasKind(ts[i + 1], kinds[i + 1]);
        }
      }
      assert HasKind(ts[0], kinds[0]);
      assert ReadKind(kinds[0], ts + rest) == Ok(Read(ts[0], ts[1..] + rest));
      ReadFieldsInvertsWrites(ts[1..], kinds[1..], rest);
      assert [ts[0]] + ts[1..] == ts;
    } else {
      assert ts + rest == rest;
    }
  }

  /** A token read in front of a run of fields makes a longer run. */
  lemma ConsRead(s: Stream, t: Read<Token>, more: Read<seq<Token>>, kinds: seq<Kind>)
    requires |kinds| > 0 && HasKind(t.value, kinds[0]) && Fits(more.value, kinds[1..])
    requires s == [t.value] + t.rest && t.rest == more.value + more.rest
    ensures Fits([t.value] + more.value, kinds) && s == [t.value] + more.value + more.rest
  {
    ConsFits(t.value, more.value, kinds);
  }

  lemma ConsFits(t: Token, ts: seq<Token>, kinds: seq<Kind>)
    requires |kinds| > 0 && HasKind(t, kinds[0]) && Fits(ts, kinds[1..])
    ensures Fits([t] + ts, kinds)
  {
    assert forall i | 1 <= i < |kinds| :: ([t] + ts)[i] == ts[i - 1];
  }

  /** Decoding what was encoded restores every field and leaves whatever
      followed in the stream. */
  lemma DecodeEncode(m: RemotePlayerConfig, rest: Stream)
    ensures Decode(Encode(m) + rest) == Ok(Read(m, rest))
  {
    ReadFieldsInvertsWrites(Fields(m), KINDS, rest);
    FieldsBijective(m, Fields(m));
  }

  /** The decoder accepts only encodings: whatever it reads, the stream
      began with that message's encoding. */
  lemma DecodeOnlyEncodings(s: Stream)
    ensures Decode(s).Ok? ==> s == Encode(Decode(s).value.value) + Decode(s).value.rest
  {
    if ReadFields(KINDS, s).Ok? {
      FieldsBijective(Decode(s).value.value, ReadFields(KINDS, s).value.value);
    }
  }

  // ---------------------------------------------------------------------
  // Configuration mapping

  function ValueOfToken(t: Token): Value
  {
    match t
    case BoolToken(b) => Bool(b)
    case IntToken(i) => Int(i)
    case _ => Null
  }

  /** One `set` per field, in order. */
  function SetAll(c: Config, keys: seq<string>, ts: seq<Token>): Config
    requires |keys| == |ts|
    decreases |keys|
  {
    if |keys| == 0 then c else SetAll(Set(c, Global, keys[0], ValueOfToken(ts[0])), keys[1..], ts[1..])
  }

  lemma {:induction false} SetAllContents(c: Config, keys: seq<string>, ts: seq<Token>)
    requires |keys| == |ts|
    requires forall i, j | 0 <= i < j < |keys| :: keys[i] != keys[j]
    ensures SetAll(c, keys, ts).Keys == c.Keys + set k | k in keys
    ensures forall i | 0 <= i < |keys| :: SetAll(c, keys, ts)[keys[i]] == ValueOfToken(ts[i])
    ensures forall k | k in c && k !in keys :: SetAll(c, keys, ts)[k] == c[k]
    decreases |keys|
  {
    if |keys| > 0 {
      var c' := Set(c, Global, keys[0], ValueOfToken(ts[0]));
      SetAllContents(c', keys[1..], ts[1..]);
      var r := SetAll(c, keys, ts);
      forall i | 0 <= i < |keys| ensures r[keys[i]] == ValueOfToken(ts[i]) {
        if i > 0 {
          assert keys[1..][i - 1] == keys[i];
        } else {
          assert keys[0] !in keys[1..];
        }
      }
    }
  }

  /** `toConfiguration`: a fresh configuration holding the twelve keys. */
  function ToConfiguration(m: RemotePlayerConfig): Config
  {
    SetAll(map[], KEYS, Fields(m))
  }

  /** `toConfiguration` sets exactly the twelve keys, each to its field. */
  lemma ToConfigurationContents(m: RemotePlayerConfig)
    ensures ToConfiguration(m).Keys == set k | k in KEYS
    ensures forall i | 0 <= i < 12 :: ToConfiguration(m)[KEYS[i]] == ValueOfToken(Fields(m)[i])
  {
    KeysDistinct();
    SetAllContents(map[], KEYS, Fields(m));
  }

  /** Assigning a nullable `Boolean` or `Integer` to a primitive field
      unboxes it, which fails on null. */
  function Unbox<T>(r: Result<Option<T>>): (u: Result<T>)
    ensures u.Ok? <==> r.Ok? && r.value.Some?
    ensures r.Ok? && r.value.None? ==> u == Err(NullPointer)
    ensures u.Ok? ==> r == Ok(Some(u.value))
  {
    var o :- r;
    if o.Some? then Ok(o.value) else Err(NullPointer)
  }

  /** One field of `fromConfiguration`: `getBool` or `getInt`, then unboxing,
      except that a null border value becomes 0. */
  function ReadConfigField(c: Config, scope: Scope, key: string, kind: Kind): (r: Result<Token>)
    ensures r.Ok? ==> HasKind(r.value, kind)
  {
    match kind
    case BoolKind =>
      var b :- Unbox(GetBool(c, scope, key, None));
      Ok(BoolToken(b))
    case IntKind =>
      if IsBorderKey(key) then
        var o :- GetInt(c, scope, key, None);
        Ok(IntToken(o.GetOr(0)))
      else
        var i :- Unbox(GetInt(c, scope, key, None));
        Ok(IntToken(i))
  }

  /** The fields from `from` on, read in order; the first failure wins. */
  function ReadConfigFields(c: Config, scope: Scope, from: nat): (r: Result<seq<Token>>)
    requires from <= 12
    ensures r.Ok? ==> Fits(r.value, KINDS[from..])
    decreases 12 - from
  {
    if from == 12 then Ok([])
    else
      match ReadConfigField(c, scope, KEYS[from], KINDS[from])
      case Err(e) => Err(e)
      case Ok(t) =>
        match ReadConfigFields(c, scope, from + 1)
        case Err(e) => Err(e)
        case Ok(more) =>
          ConsFits(t, more, KINDS[from..]);
          Ok([t] + more)
  }

  /** `fromConfiguration`, reading through `scope` so that a world's overlay
      applies when the configuration is one. */
  function FromConfiguration(c: Config, scope: Scope): Result<RemotePlayerConfig>
  {
    var ts :- ReadConfigFields(c, scope, 0);
    assert KINDS[0..] == KINDS;
    Ok(FromFields(ts))
  }

  /** A configuration's value of a key, or null when the key is absent. */
  function ValueOf(c: Config, key: string): Value
  {
    if key in c then c[key] else Null
  }

  /** What field `i` reads from a value: the value itself when it has the
      field's kind, 0 for a null border value, and nothing otherwise. */
  function FieldFromValue(v: Value, i: nat): Option<Token>
    requires i < 12
  {
    match KINDS[i]
    case BoolKind => if v.Bool? then Some(BoolToken(v.b)) else None
    case IntKind =>
      if v.Int? then Some(IntToken(v.i))
      else if v.Null? && IsBorderKey(KEYS[i]) then Some(IntToken(0))
      else None
  }

  lemma ReadConfigFieldMeaning(c: Config, i: nat)
    requires i < 12
    ensures ReadConfigField(c, Global, KEYS[i], KINDS[i]).Ok? <==> FieldFromValue(ValueOf(c, KEYS[i]), i).Some?
    ensures ReadConfigField(c, Global, KEYS[i], KINDS[i]).Ok? ==>
      ReadConfigField(c, Global, KEYS[i], KINDS[i]).value == FieldFromValue(ValueOf(c, KEYS[i]), i).value
  {
  }

  /** The configuration fields from `from` on are all readable. */
  predicate ReadableFrom(c: Config, from: nat)
    requires from <= 12
  {
    forall i | from <= i < 12 :: FieldFromValue(ValueOf(c, KEYS[i]), i).Some?
  }

  lemma {:induction false} ReadConfigFieldsMeaning(c: Config, from: nat)
    requires from <= 12
    ensures ReadConfigFields(c, Global, from).Ok? <==> ReadableFrom(c, from)
    ensures ReadConfigFields(c, Global, from).Ok? ==>
      |ReadConfigFields(c, Global, from).value| == 12 - from &&
      forall i | from <= i < 12 ::
        ReadConfigFields(c, Global, from).value[i - from] == FieldFromValue(ValueOf(c, KEYS[i]), i).value
    decreases 12 - from
  {
    if from < 12 {
      ReadConfigFieldMeaning(c, from);
      ReadConfigFieldsMeaning(c, from + 1);
      var r := ReadConfigFields(c, Global, from);
      var head := ReadConfigField(c, Global, KEYS[from], KINDS[from]);
      var tail := ReadConfigFields(c, Global, from + 1);
      assert r.Ok? <==> head.Ok? && tail.Ok?;
      assert ReadableFrom(c, from) <==>
        FieldFromValue(ValueOf(c, KEYS[from]), from).Some? && ReadableFrom(c, from + 1);
      if r.Ok? {
        assert r.value == [head.value] + tail.value;
        forall i | from <= i < 12
          ensures r.value[i - from] == FieldFromValue(ValueOf(c, KEYS[i]), i).value
        {
          if i > from {
            assert r.value[i - from] == tail.value[i - (from + 1)];
          }
        }
      }
    }
  }

  /** `fromConfiguration` of the global map succeeds exactly when every field
      has a value of its kind, or a null border value; field `i` of the
      result is then that value, or 0 for a null border value. */
  lemma FromConfigurationMeaning(c: Config)
    ensures FromConfiguration(c, Global).Ok? <==> ReadableFrom(c, 0)
    ensures FromConfiguration(c, Global).Ok? ==>
      forall i | 0 <= i < 12 :: Fields(FromConfiguration(c, Global).value)[i] == FieldFromValue(ValueOf(c, KEYS[i]), i).value
  {
    ReadConfigFieldsMeaning(c, 0);
    if ReadableFrom(c, 0) {
      var ts := ReadConfigFields(c, Global, 0).value;
      assert Fits(ts, KINDS) by {
        forall i | 0 <= i < 12 ensures HasKind(ts[i], KINDS[i]) {
          assert ts[i - 0] == FieldFromValue(ValueOf(c, KEYS[i]), i).value;
        }
      }
      FieldsBijective(FromFields(ts), ts);
    }
  }

  /** A missing or null border value reads as 0. */
  lemma BorderDefaultsToZero(c: Config)
    requires FromConfiguration(c, Global).Ok?
    ensures ValueOf(c, BORDER_CENTER_X) == Null ==> FromConfiguration(c, Global).value.borderCenterX == 0
    ensures ValueOf(c, BORDER_CENTER_Z) == Null ==> FromConfiguration(c, Global).value.borderCenterZ == 0
    ensures ValueOf(c, BORDER_RADIUS) == Null ==> FromConfiguration(c, Global).value.borderRadius == 0
  {
    FromConfigurationMeaning(c);
    var f := Fields(FromConfiguration(c, Global).value);
    assert f[2] == FieldFromValue(ValueOf(c, KEYS[2]), 2).value;
    assert f[3] == FieldFromValue(ValueOf(c, KEYS[3]), 3).value;
    assert f[4] == FieldFromValue(ValueOf(c, KEYS[4]), 4).value;
  }

  /** A non-border key that is absent makes `fromConfiguration` throw. */
  lemma MissingKeyFails(c: Config, i: nat)
    requires i < 12 && !IsBorderKey(KEYS[i]) && KEYS[i] !in c
    ensures FromConfiguration(c, Global).Err?
  {
    FromConfigurationMeaning(c);
    assert FieldFromValue(ValueOf(c, KEYS[i]), i).None?;
  }

  /** Field `i` of a configuration built from a message reads back as the
      message's field `i`. */
  lemma ToConfigurationFieldsReadable(m: RemotePlayerConfig)
    ensures forall i | 0 <= i < 12 ::
      FieldFromValue(ValueOf(ToConfiguration(m), KEYS[i]), i) == Some(Fields(m)[i])
  {
    ToConfigurationContents(m);
  }

  /** Reading back a configuration built from a message gives the message. */
  lemma FromToConfiguration(m: RemotePlayerConfig)
    ensures FromConfiguration(ToConfiguration(m), Global) == Ok(m)
  {
    var c := ToConfiguration(m);
    ToConfigurationFieldsReadable(m);
    FromConfigurationMeaning(c);
    var r := FromConfiguration(c, Global).value;
    assert Fields(r) == Fields(m);
    FieldsBijective(m, Fields(m));
  }
}

/** The remaining plugin messages: each fixes the order in which its fields
    are written. */
module PluginMessages {
  import opened Wrappers
  import opened JavaInt
  import opened TokenStream

  // ---------------------------------------------------------------------
  // LevelInitMessage

  datatype LevelInit = LevelInit(key: string, time: int64)

  /** The key as a short string, then the time as a long. */
  function EncodeLevelInit(m: LevelInit): Stream
  {
    [ShortStringToken(m.key), LongToken(m.time)]
  }

  function DecodeLevelInit(s: Stream): (r: Result<Read<LevelInit>>)
    ensures r.Ok? ==> s == EncodeLevelInit(r.value.value) + r.value.rest
  {
    var key :- ReadShortString(s);
    var time :- ReadLong(key.rest);
    assert s == [ShortStringToken(key.value)] + [LongToken(time.value)] + time.rest;
    Ok(Read(LevelInit(key.value, time.value), time.rest))
  }

  lemma LevelInitRoundTrip(m: LevelInit, rest: Stream)
    ensures DecodeLevelInit(EncodeLevelInit(m) + rest) == Ok(Read(m, rest))
  {
    ReadsInvertWrites([LongToken(m.time)] + rest, false, 0, m.time, m.key);
    ReadsInvertWrites(rest, false, 0, m.time, m.key);
    assert EncodeLevelInit(m) + rest == [ShortStringToken(m.key)] + ([LongToken(m.time)] + rest);
  }

  // ---------------------------------------------------------------------
  // CloseReasonMessage

  datatype CloseReason = CloseReason(reason: string)

  function EncodeCloseReason(m: CloseReason): Stream
  {
    [StringToken(m.reason)]
  }

  function DecodeCloseReason(s: Stream): (r: Result<Read<CloseReason>>)
    ensures r.Ok? ==> s == EncodeCloseReason(r.value.value) + r.value.rest
  {
    var reason :- ReadString(s);
    Ok(Read(CloseReason(reason.value), reason.rest))
  }

  lemma CloseReasonRoundTrip(m: CloseReason, rest: Stream)
    ensures DecodeCloseReason(EncodeCloseReason(m) + rest) == Ok(Read(m, rest))
  {
    ReadsInvertWrites(rest, false, 0, 0, m.reason);
  }

  // ---------------------------------------------------------------------
  // FullDataSourceResponseMessage

  /** `bufferId` is a nullable `Integer`. */
  datatype FullDataSourceResponse = FullDataSourceResponse(bufferId: Option<int32>, beacons: seq<byte>)

  /** `getBufferId` returns a primitive `int`, so it unboxes. */
  function GetBufferId(m: FullDataSourceResponse): (r: Result<int32>)
    ensures r.Ok? <==> m.bufferId.Some?
    ensures r.Ok? ==> m.bufferId == Some(r.value)
  {
    if m.bufferId.Some? then Ok(m.bufferId.value) else Err(NullPointer)
  }

  /** `writeOptional` writes a presence marker and reports whether the value
      is there; only then do the id and the raw beacon bytes follow. */
  function EncodeFullDataSourceResponse(m: FullDataSourceResponse): (s: Stream)
    ensures |s| > 0 && s[0] == PresenceToken(m.bufferId.Some?)
    ensures m.bufferId.None? ==> |s| == 1
    ensures m.bufferId.Some? ==> s[1..] == [IntToken(m.bufferId.value), RawToken(m.beacons)]
  {
    if m.bufferId.Some? then
      [PresenceToken(true), IntToken(m.bufferId.value), RawToken(m.beacons)]
    else
      [PresenceToken(false)]
  }

  /** The encoding determines the buffer id, and the beacons whenever an id
      is present; without one the beacons are not sent. */
  lemma FullDataSourceResponseEncodingDetermines(a: FullDataSourceResponse, b: FullDataSourceResponse)
    requires EncodeFullDataSourceResponse(a) == EncodeFullDataSourceResponse(b)
    ensures a.bufferId == b.bufferId
    ensures a.bufferId.Some? ==> a.beacons == b.beacons
  {
    var s := EncodeFullDataSourceResponse(a);
    if a.bufferId.Some? {
      assert s[1] == IntToken(a.bufferId.value) && s[2] == RawToken(a.beacons);
    }
  }

  // ---------------------------------------------------------------------
  // FullDataPartialUpdateMessage

  datatype FullDataPartialUpdate = FullDataPartialUpdate(levelKey: string, bufferId: int32, beacons: seq<byte>)

  /** The level key, the buffer id, then the beacon bytes verbatim. */
  function EncodeFullDataPartialUpdate(m: FullDataPartialUpdate): Stream
  {
    [ShortStringToken(m.levelKey), IntToken(m.bufferId), RawToken(m.beacons)]
  }

  lemma FullDataPartialUpdateEncodingDetermines(a: FullDataPartialUpdate, b: FullDataPartialUpdate)
    requires EncodeFullDataPartialUpdate(a) == EncodeFullDataPartialUpdate(b)
    ensures a == b
  {
    var s := EncodeFullDataPartialUpdate(a);
    assert s[0] == ShortStringToken(a.levelKey) && s[1] == IntToken(a.bufferId) && s[2] == RawToken(a.beacons);
  }
}
