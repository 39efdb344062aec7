/** The pure helpers of the Bukkit world interface: the world key, the sea
    level clamp, block-state properties, the coordinate scale, the world
    border, the beacon colour scan and the chunk snapshot cache. The server
    itself (materials, heights, the border's size) is passed in. */
module BukkitWorldInterface {
  import opened Wrappers
  import opened JavaInt
  import opened JavaStrings
  import opened Configuration
  import opened ConfigKeys

  // ---------------------------------------------------------------------
  // getKey

  predicate KeyChar(c: char)
  {
    'a' <= c <= 'z' || 'A' <= c <= 'Z' || '0' <= c <= '9' || c == '_' || c == '-'
  }

  /** `getName().replaceAll("[^a-zA-Z0-9_-]", "")` */
  function Key(name: string): (k: string)
    ensures |k| <= |name|
    ensures forall i | 0 <= i < |k| :: KeyChar(k[i])
  {
    if |name| == 0 then ""
    else (if KeyChar(name[0]) then [name[0]] else "") + Key(name[1..])
  }

  /** Filtering distributes over concatenation. */
  lemma {:induction false} KeyOfConcat(a: string, b: string)
    ensures Key(a + b) == Key(a) + Key(b)
  {
    if |a| > 0 {
      assert (a + b)[0] == a[0];
      assert (a + b)[1..] == a[1..] + b;
      KeyOfConcat(a[1..], b);
      var head := if KeyChar(a[0]) then [a[0]] else "";
      assert Key(a + b) == head + Key(a[1..] + b);
      assert Key(a) == head + Key(a[1..]);
    } else {
      assert a + b == b;
    }
  }

  /** A name is its own key exactly when every character is allowed, so
      the key of a key is itself. */
  lemma {:induction false} KeyKeepsOnlyAllowed(name: string)
    ensures Key(name) == name <==> forall i | 0 <= i < |name| :: KeyChar(name[i])
    ensures Key(Key(name)) == Key(name)
  {
    if |name| > 0 {
      KeyKeepsOnlyAllowed(name[1..]);
      if !KeyChar(name[0]) {
        assert |Key(name)| < |name|;
      } else {
        assert forall i | 1 <= i < |name| :: name[1..][i - 1] == name[i];
      }
      var k := Key(name);
      assert forall i | 0 <= i < |k| :: KeyChar(k[i]);
      AllowedIsOwnKey(k);
    }
  }

  lemma {:induction false} AllowedIsOwnKey(s: string)
    requires forall i | 0 <= i < |s| :: KeyChar(s[i])
    ensures Key(s) == s
  {
    if |s| > 0 {
      AllowedIsOwnKey(s[1..]);
    }
  }

  // ---------------------------------------------------------------------
  // getSeaLevel and getCoordinateScale

  /** The world's sea level clamped to the build height. */
  function SeaLevel(minY: int32, maxY: int32, worldSeaLevel: int32): (r: int32)
    ensures minY <= maxY ==> minY <= r <= maxY
    ensures minY <= worldSeaLevel <= maxY ==> r == worldSeaLevel
    ensures minY <= maxY && worldSeaLevel < minY ==> r == minY
    ensures minY <= maxY && worldSeaLevel > maxY ==> r == maxY
  {
    var atLeastMin := if minY > worldSeaLevel then minY else worldSeaLevel;
    if atLeastMin < maxY then atLeastMin else maxY
  }

  /** Without the reflective accessor, 8 for the Nether and 1 elsewhere;
      with it, whatever the server reports (an integral scale here). */
  function CoordinateScale(reported: Option<int>, isNether: bool): (r: int)
    ensures reported.None? ==> (r == 8 <==> isNether) && (r == 1 <==> !isNether)
    ensures reported.Some? ==> r == reported.value
  {
    if reported.Some? then reported.value else if isNether then 8 else 1
  }

  // ---------------------------------------------------------------------
  // getBlockPropertiesAt

  /** The key a part is stored under: the text before its first '='. */
  function PropertyKey(part: string): string
  {
    var i := IndexOf(part, '=');
    if i < 0 then part else part[..i]
  }

  /** The value a part stores: the text after its first '=', further '='
      included. */
  function PropertyValue(part: string): string
  {
    var i := IndexOf(part, '=');
    if i < 0 then "" else part[i + 1..]
  }

  /** `kvString.split("=", 2)`: a part without '=' has no second element,
      and reading it throws. */
  function SplitProperty(part: string): (r: Result<(string, string)>)
    ensures r.Ok? <==> '=' in part
    ensures r.Ok? ==> r.value == (PropertyKey(part), PropertyValue(part))
  {
    var i := IndexOf(part, '=');
    if i < 0 then Err(IndexOutOfBounds) else Ok((part[..i], part[i + 1..]))
  }

  /** The key and value joined by '=' give the part back, and the key holds
      no '='. */
  lemma SplitPropertyRejoins(part: string)
    requires '=' in part
    ensures var (key, value) := SplitProperty(part).value;
      part == key + "=" + value && '=' !in key
  {
    var i := IndexOf(part, '=');
    assert part == part[..i] + "=" + part[i + 1..];
  }

  /** The first `k` parts put into a map in order. */
  function PutAll(parts: seq<string>, k: nat): (r: Result<map<string, string>>)
    requires k <= |parts|
    ensures r.Ok? <==> forall i | 0 <= i < k :: '=' in parts[i]
  {
    if k == 0 then Ok(map[])
    else
      match PutAll(parts, k - 1)
      case Err(e) => Err(e)
      case Ok(m) =>
        match SplitProperty(parts[k - 1])
        case Err(e) => Err(e)
        case Ok(kv) => Ok(m[kv.0 := kv.1])
  }

  function Lookup(m: map<string, string>, key: string): Option<string>
  {
    if key in m then Some(m[key]) else None
  }

  /** The reference reading of the first `k` parts: a key's value is the
      one its last part gives, and a key no part names is absent. */
  function LastValue(parts: seq<string>, k: nat, key: string): Option<string>
    requires k <= |parts|
  {
    if k == 0 then None
    else if PropertyKey(parts[k - 1]) == key then Some(PropertyValue(parts[k - 1]))
    else LastValue(parts, k - 1, key)
  }

  /** Putting the parts in order leaves each key with its last value. */
  lemma {:induction false} PutAllIsLastWins(parts: seq<string>, k: nat, key: string)
    requires k <= |parts| && PutAll(parts, k).Ok?
    ensures Lookup(PutAll(parts, k).value, key) == LastValue(parts, k, key)
  {
    if k > 0 {
      PutAllIsLastWins(parts, k - 1, key);
    }
  }

  /** `getBlockPropertiesAt`: nothing without '['; otherwise the text
      between '[' and the last character, split on ',', each part split at
      its first '='. A '[' in last place makes the substring throw. */
  function BlockProperties(state: string): (r: Result<map<string, string>>)
    ensures '[' !in state ==> r == Ok(map[])
    ensures r.Err? ==> '[' in state
  {
    var kvStart := IndexOf(state, '[');
    if kvStart == -1 then Ok(map[])
    else if kvStart + 1 > |state| - 1 then Err(IndexOutOfBounds)
    else
      var parts := JavaSplit(state[kvStart + 1..|state| - 1], ',');
      PutAll(parts, |parts|)
  }

  /** A state `name[body]` reads the comma-separated parts of `body`: it
      fails exactly when a part has no '=', and otherwise each key has the
      value of its last part. */
  lemma BlockPropertiesMeaning(name: string, body: string, key: string)
    requires '[' !in name
    ensures var parts := JavaSplit(body, ',');
      BlockProperties(name + "[" + body + "]") == PutAll(parts, |parts|)
    ensures var parts := JavaSplit(body, ',');
      BlockProperties(name + "[" + body + "]").Ok? <==> forall i | 0 <= i < |parts| :: '=' in parts[i]
    ensures var parts := JavaSplit(body, ',');
      BlockProperties(name + "[" + body + "]").Ok? ==>
        Lookup(BlockProperties(name + "[" + body + "]").value, key) == LastValue(parts, |parts|, key)
  {
    var state := name + "[" + body + "]";
    assert state[|name|] == '[' && state[..|name|] == name;
    assert state[|name| + 1..|state| - 1] == body;
    var parts := JavaSplit(body, ',');
    if PutAll(parts, |parts|).Ok? {
      PutAllIsLastWins(parts, |parts|, key);
    }
  }

  // ---------------------------------------------------------------------
  // The world border

  /** What the world reports about its border; each part is a nullable
      `Integer`. */
  datatype WorldBorder = WorldBorder(centerX: Option<int32>, centerZ: Option<int32>, radius: Option<int32>)

  /** The server's own border and view distance. The size is in blocks;
      `(int) (size / 2.0)` of an integral size is its floored half. */
  datatype VanillaBorder = VanillaBorder(centerX: int32, centerZ: int32, size: nat, viewDistance: int32)

  /** `getBool(USE_VANILLA_WORLD_BORDER, true)`, unboxed. */
  function UseVanillaBorder(c: Config, scope: Scope): Result<bool>
  {
    var b :- GetBool(c, scope, USE_VANILLA_WORLD_BORDER, Some(true));
    if b.None? then Err(NullPointer) else Ok(b.value)
  }

  /** `getWorldBorderX` and `getWorldBorderZ`. */
  function BorderCenter(c: Config, scope: Scope, vanilla: VanillaBorder): (r: Result<(Option<int32>, Option<int32>)>)
    ensures UseVanillaBorder(c, scope) == Ok(true) ==> r == Ok((Some(vanilla.centerX), Some(vanilla.centerZ)))
  {
    var useVanilla :- UseVanillaBorder(c, scope);
    if useVanilla then Ok((Some(vanilla.centerX), Some(vanilla.centerZ)))
    else
      var x :- GetInt(c, scope, BORDER_CENTER_X, None);
      var z :- GetInt(c, scope, BORDER_CENTER_Z, None);
      Ok((x, z))
  }

  /** `getWorldBorderRadius` as written: with the vanilla border, half its
      size plus the view distance when the expansion is "auto", and
      otherwise plus the expansion read with `getInt`. The expansion has
      just been read with `getString`, so the second read throws whenever
      it is not "auto". */
  function BorderRadiusAsWritten(c: Config, scope: Scope, vanilla: VanillaBorder, chunkToBlock: int32 -> int32)
    : (r: Result<Option<int32>>)
    ensures UseVanillaBorder(c, scope) == Ok(false) ==> r == GetInt(c, scope, BORDER_RADIUS, None)
    ensures UseVanillaBorder(c, scope) == Ok(true) && Get(c, scope, VANILLA_WORLD_BORDER_EXPANSION, Str("auto")) == Str("auto") ==>
      r == Ok(Some(Wrap32(Saturate32(vanilla.size / 2) + chunkToBlock(vanilla.viewDistance))))
  {
    assert Box(Some("auto"), s => Str(s)) == Str("auto");
    var useVanilla :- UseVanillaBorder(c, scope);
    if !useVanilla then GetInt(c, scope, BORDER_RADIUS, None)
    else
      var half := Saturate32(vanilla.size / 2);
      var expansion :- GetString(c, scope, VANILLA_WORLD_BORDER_EXPANSION, Some("auto"));
      if expansion.None? then Err(NullPointer)
      else if expansion.value == "auto" then Ok(Some(Wrap32(half + chunkToBlock(vanilla.viewDistance))))
      else
        var blocks :- GetInt(c, scope, VANILLA_WORLD_BORDER_EXPANSION, Some(0));
        if blocks.None? then Err(NullPointer)
        else Ok(Some(Wrap32(half + chunkToBlock(blocks.value))))
  }

  /** A value that is not the default was found under the key, so any
      default gives it. */
  lemma GetIgnoresDefault(c: Config, scope: Scope, key: string, d1: Value, d2: Value)
    requires Get(c, scope, key, d1) != d1
    ensures Get(c, scope, key, d2) == Get(c, scope, key, d1)
  {
  }

  /** With the vanilla border, any expansion but "auto" fails: null in the
      unboxing, a number in the string read, any other string in the int
      read. */
  lemma BorderRadiusAsWrittenRejectsExpansion(c: Config, scope: Scope, vanilla: VanillaBorder,
                                              chunkToBlock: int32 -> int32)
    requires UseVanillaBorder(c, scope) == Ok(true)
    requires Get(c, scope, VANILLA_WORLD_BORDER_EXPANSION, Str("auto")) != Str("auto")
    ensures BorderRadiusAsWritten(c, scope, vanilla, chunkToBlock) ==
      Err(if Get(c, scope, VANILLA_WORLD_BORDER_EXPANSION, Str("auto")) == Null then NullPointer else ClassCast)
  {
    var expansion := Get(c, scope, VANILLA_WORLD_BORDER_EXPANSION, Str("auto"));
    assert Box(Some("auto"), s => Str(s)) == Str("auto");
    if expansion.Str? {
      var zero := Box(Some(0), i => Int(i));
      GetIgnoresDefault(c, scope, VANILLA_WORLD_BORDER_EXPANSION, Str("auto"), zero);
    }
  }

  /** A concrete case: an expansion of 16 chunks, configured globally. */
  lemma BorderRadiusAsWrittenExample(vanilla: VanillaBorder, chunkToBlock: int32 -> int32)
    ensures BorderRadiusAsWritten(map[VANILLA_WORLD_BORDER_EXPANSION := Int(16)], Global, vanilla, chunkToBlock) == Err(ClassCast)
  {
    var c := map[VANILLA_WORLD_BORDER_EXPANSION := Int(16)];
    assert USE_VANILLA_WORLD_BORDER != VANILLA_WORLD_BORDER_EXPANSION;
    assert UseVanillaBorder(c, Global) == Ok(true);
    BorderRadiusAsWrittenRejectsExpansion(c, Global, vanilla, chunkToBlock);
  }

  /** The radius as evidently intended: the expansion is "auto" (or
      missing) for the view distance, or a number of chunks. */
  function BorderRadius(c: Config, scope: Scope, vanilla: VanillaBorder, chunkToBlock: int32 -> int32): (r: Result<Option<int32>>)
    ensures UseVanillaBorder(c, scope) == Ok(false) ==> r == GetInt(c, scope, BORDER_RADIUS, None)
  {
    var useVanilla :- UseVanillaBorder(c, scope);
    if !useVanilla then GetInt(c, scope, BORDER_RADIUS, None)
    else
      var half := Saturate32(vanilla.size / 2);
      match Get(c, scope, VANILLA_WORLD_BORDER_EXPANSION, Str("auto"))
      case Str(s) =>
        if s == "auto" then Ok(Some(Wrap32(half + chunkToBlock(vanilla.viewDistance))))
        else Err(ClassCast)
      case Int(blocks) => Ok(Some(Wrap32(half + chunkToBlock(blocks))))
      case Null => Err(NullPointer)
      case Bool(_) => Err(ClassCast)
  }

  /** The corrected radius adds the configured expansion, and agrees with
      the code as written whenever the expansion is "auto". */
  lemma BorderRadiusHonoursExpansion(c: Config, scope: Scope, vanilla: VanillaBorder, chunkToBlock: int32 -> int32, n: int32)
    requires UseVanillaBorder(c, scope) == Ok(true)
    ensures Get(c, scope, VANILLA_WORLD_BORDER_EXPANSION, Str("auto")) == Int(n) ==>
      BorderRadius(c, scope, vanilla, chunkToBlock) == Ok(Some(Wrap32(Saturate32(vanilla.size / 2) + chunkToBlock(n))))
    ensures Get(c, scope, VANILLA_WORLD_BORDER_EXPANSION, Str("auto")) == Str("auto") ==>
      BorderRadius(c, scope, vanilla, chunkToBlock) == BorderRadiusAsWritten(c, scope, vanilla, chunkToBlock) ==
      Ok(Some(Wrap32(Saturate32(vanilla.size / 2) + chunkToBlock(vanilla.viewDistance))))
  {
    var boxed := Box(Some("auto"), s => Str(s));
    assert Get(c, scope, VANILLA_WORLD_BORDER_EXPANSION, boxed) == Get(c, scope, VANILLA_WORLD_BORDER_EXPANSION, Str("auto"));
  }

  /** All three parts of the border as the handlers read them, with the
      radius as written. */
  function BorderAsWritten(c: Config, scope: Scope, vanilla: VanillaBorder, chunkToBlock: int32 -> int32): Result<WorldBorder>
  {
    var center :- BorderCenter(c, scope, vanilla);
    var radius :- BorderRadiusAsWritten(c, scope, vanilla, chunkToBlock);
    Ok(WorldBorder(center.0, center.1, radius))
  }

  /** With the vanilla border and any expansion but "auto", the handlers'
      border read fails as a whole, while the corrected read of a number of
      chunks succeeds. */
  lemma BorderAsWrittenFailsOnExpansion(c: Config, scope: Scope, vanilla: VanillaBorder,
                                       chunkToBlock: int32 -> int32)
    requires UseVanillaBorder(c, scope) == Ok(true)
    requires Get(c, scope, VANILLA_WORLD_BORDER_EXPANSION, Str("auto")) != Str("auto")
    ensures BorderAsWritten(c, scope, vanilla, chunkToBlock).Err?
    ensures Get(c, scope, VANILLA_WORLD_BORDER_EXPANSION, Str("auto")).Int? ==>
      Border(c, scope, vanilla, chunkToBlock).Ok?
  {
    BorderRadiusAsWrittenRejectsExpansion(c, scope, vanilla, chunkToBlock);
    if Get(c, scope, VANILLA_WORLD_BORDER_EXPANSION, Str("auto")).Int? {
      BorderRadiusHonoursExpansion(c, scope, vanilla, chunkToBlock, Get(c, scope, VANILLA_WORLD_BORDER_EXPANSION, Str("auto")).i);
    }
  }

  /** All three parts of the border. */
  function Border(c: Config, scope: Scope, vanilla: VanillaBorder, chunkToBlock: int32 -> int32): Result<WorldBorder>
  {
    var center :- BorderCenter(c, scope, vanilla);
    var radius :- BorderRadius(c, scope, vanilla, chunkToBlock);
    Ok(WorldBorder(center.0, center.1, radius))
  }

  // ---------------------------------------------------------------------
  // getBeaconColor

  /** The sixteen `DyeColor` constants; `DyeColor.valueOf` of anything else
      throws. */
  const DYE_NAMES: set<string> := {
    "WHITE", "ORANGE", "MAGENTA", "LIGHT_BLUE", "YELLOW", "LIME", "PINK", "GRAY",
    "LIGHT_GRAY", "CYAN", "PURPLE", "BLUE", "BROWN", "GREEN", "RED", "BLACK"
  }

  /** `Color.WHITE.asRGB()` */
  const WHITE_RGB: int32 := 0xFF_FFFF

  predicate IsStainedGlass(material: string)
  {
    StartsWith(material, "minecraft:") &&
    (EndsWith(material, "stained_glass") || EndsWith(material, "stained_glass_pane"))
  }

  predicate Separator(c: char)
  {
    c == ':' || c == '_'
  }

  /** The text after the first separator, up to the next one. */
  function SecondToken(s: string): string
  {
    var rest := AfterSeparator(s);
    UpToSeparator(rest)
  }

  function AfterSeparator(s: string): (r: string)
    ensures |r| <= |s| && r == s[|s| - |r|..]
    ensures |s| > 0 ==> |r| < |s|
  {
    if |s| == 0 then "" else if Separator(s[0]) then s[1..] else AfterSeparator(s[1..])
  }

  function UpToSeparator(s: string): (r: string)
    ensures |r| <= |s| && r == s[..|r|]
    ensures forall i | 0 <= i < |r| :: !Separator(r[i])
  {
    if |s| == 0 || Separator(s[0]) then "" else [s[0]] + UpToSeparator(s[1..])
  }

  /** `material.split("[:_]")[1].toUpperCase()` */
  function ColourNameAsWritten(material: string): (r: string)
    ensures |r| < |material| || material == ""
    ensures forall i | 0 <= i < |r| :: !Separator(r[i]) && r[i] == UpperAscii(r[i])
  {
    ToUpper(SecondToken(material))
  }

  lemma {:induction false} AfterFirstSeparator(p: string, c: char, rest: string)
    requires Separator(c) && forall i | 0 <= i < |p| :: !Separator(p[i])
    ensures AfterSeparator(p + [c] + rest) == rest
    ensures UpToSeparator(p + [c] + rest) == p
  {
    if |p| > 0 {
      assert (p + [c] + rest)[1..] == p[1..] + [c] + rest;
      AfterFirstSeparator(p[1..], c, rest);
    } else {
      assert p + [c] + rest == [c] + rest;
    }
  }

  /** The second token of a namespaced material is the word after the
      namespace, up to the next underscore. */
  lemma SecondTokenOfMaterial(word: string, rest: string)
    requires forall i | 0 <= i < |word| :: !Separator(word[i])
    ensures SecondToken("minecraft:" + word + "_" + rest) == word
  {
    assert "minecraft:" + word + "_" + rest == "minecraft" + [':'] + (word + "_" + rest);
    AfterFirstSeparator("minecraft", ':', word + "_" + rest);
    assert word + "_" + rest == word + ['_'] + rest;
    AfterFirstSeparator(word, '_', rest);
  }

  /** Every `minecraft:…_stained_glass` block is stained glass to the scan. */
  lemma StainedGlassIsGlass(colour: string)
    ensures IsStainedGlass("minecraft:" + colour + "_stained_glass")
  {
    var glass := "minecraft:" + colour + "_stained_glass";
    assert glass[..10] == "minecraft:";
    assert glass[|glass| - 13..] == "_stained_glass"[1..];
  }

  /** Light blue and light gray glass (any material `minecraft:light_…`)
      name the colour "LIGHT", which is no dye, so `DyeColor.valueOf` throws
      for them. */
  lemma LightGlassHasNoDye(rest: string)
    ensures ColourNameAsWritten("minecraft:" + "light" + "_" + rest) == "LIGHT"
    ensures "LIGHT" !in DYE_NAMES
  {
    SecondTokenOfMaterial("light", rest);
    assert ToUpper("light") == "LIGHT";
  }

  /** The colour name as evidently intended: everything between the
      namespace and the "_stained_glass" or "_stained_glass_pane" suffix. */
  function ColourName(material: string): (r: string)
    ensures |r| <= |material|
    ensures forall i | 0 <= i < |r| :: r[i] == UpperAscii(r[i])
  {
    var body := if StartsWith(material, "minecraft:") then material[10..] else material;
    var suffix := if EndsWith(body, "_stained_glass_pane") then 19 else if EndsWith(body, "_stained_glass") then 14 else 0;
    ToUpper(body[..|body| - suffix])
  }

  /** The form of a dye's name: upper-case letters and underscores. */
  predicate DyeForm(name: string)
  {
    forall i | 0 <= i < |name| :: 'A' <= name[i] <= 'Z' || name[i] == '_'
  }

  lemma DyeNamesHaveDyeForm()
    ensures forall dye | dye in DYE_NAMES :: DyeForm(dye)
  {
  }

  lemma UpperOfLower(name: string)
    requires DyeForm(name)
    ensures ToUpper(ToLower(name)) == name
  {
  }

  /** A name of dye form is what its glass block and pane are named after. */
  lemma {:induction false} ColourNameOfDyeForm(name: string)
    requires DyeForm(name)
    ensures ColourName("minecraft:" + ToLower(name) + "_stained_glass") == name
    ensures ColourName("minecraft:" + ToLower(name) + "_stained_glass_pane") == name
  {
    UpperOfLower(name);
    var lower := ToLower(name);
    var glass := "minecraft:" + lower + "_stained_glass";
    var pane := "minecraft:" + lower + "_stained_glass_pane";
    assert glass[..10] == "minecraft:" && glass[10..] == lower + "_stained_glass";
    assert pane[..10] == "minecraft:" && pane[10..] == lower + "_stained_glass_pane";
    var body := lower + "_stained_glass";
    assert body[|body| - 1] == 's';
    assert !EndsWith(body, "_stained_glass_pane");
    assert body[|body| - 14..] == "_stained_glass";
    assert body[..|body| - 14] == lower;
    var paneBody := lower + "_stained_glass_pane";
    assert paneBody[|paneBody| - 19..] == "_stained_glass_pane";
    assert paneBody[..|paneBody| - 19] == lower;
  }

  /** Every dye's glass block and pane name that dye. */
  lemma ColourNameNamesEveryDye(dye: string)
    requires dye in DYE_NAMES
    ensures ColourName("minecraft:" + ToLower(dye) + "_stained_glass") == dye
    ensures ColourName("minecraft:" + ToLower(dye) + "_stained_glass_pane") == dye
  {
    DyeNamesHaveDyeForm();
    ColourNameOfDyeForm(dye);
  }

  /** For a one-word name, the name the code derives is the intended one. */
  lemma ColourNamesAgreeOnOneWord(name: string)
    requires DyeForm(name) && '_' !in name
    ensures ColourNameAsWritten("minecraft:" + ToLower(name) + "_stained_glass") == name
  {
    UpperOfLower(name);
    var lower := ToLower(name);
    assert "_stained_glass" == "_" + "stained_glass";
    assert "minecraft:" + lower + "_stained_glass" == "minecraft:" + lower + "_" + "stained_glass";
    SecondTokenOfMaterial(lower, "stained_glass");
  }

  datatype Rgb = Rgb(red: nat, green: nat, blue: nat)

  predicate ValidRgb(c: Rgb)
  {
    c.red <= 255 && c.green <= 255 && c.blue <= 255
  }

  /** The materials above the beacon, from `y + 1` to `maxY`. */
  function Column(y: int, maxY: int, materialAt: int -> string): (ms: seq<string>)
    ensures |ms| == if maxY > y then maxY - y else 0
    ensures forall i | 0 <= i < |ms| :: ms[i] == materialAt(y + 1 + i)
  {
    if maxY > y then seq(maxY - y, i => materialAt(y + 1 + i)) else []
  }

  /** How many of the first `k` blocks are not glass. */
  function CountNotGlass(ms: seq<string>, k: nat, isGlass: string -> bool): (n: nat)
    requires k <= |ms|
    ensures n <= k
  {
    if k == 0 then 0 else CountNotGlass(ms, k - 1, isGlass) + (if isGlass(ms[k - 1]) then 0 else 1)
  }

  /** One more colour averaged in: each component is the floored mean. */
  function Average(m: Rgb, c: Rgb): (r: Rgb)
    ensures ValidRgb(m) && ValidRgb(c) ==> ValidRgb(r)
    ensures m == c ==> r == m
  {
    Rgb((m.red + c.red) / 2, (m.green + c.green) / 2, (m.blue + c.blue) / 2)
  }

  /** The reference colour of the first `k` blocks: none before the first
      glass block, that block's dye colour at it, and each further glass
      block's colour averaged in; the first glass block whose colour names
      no dye is an error. */
  function MixOf(ms: seq<string>, k: nat, isGlass: string -> bool, colourName: string -> string, dyes: map<string, Rgb>)
    : (r: Result<Option<Rgb>>)
    requires k <= |ms|
    ensures (forall name | name in dyes :: ValidRgb(dyes[name])) && r.Ok? && r.value.Some? ==> ValidRgb(r.value.value)
    ensures r.Ok? && r.value.None? ==> CountNotGlass(ms, k, isGlass) == k
  {
    if k == 0 then Ok(None)
    else
      match MixOf(ms, k - 1, isGlass, colourName, dyes)
      case Err(e) => Err(e)
      case Ok(m) =>
        if !isGlass(ms[k - 1]) then Ok(m)
        else
          var name := colourName(ms[k - 1]);
          if name !in dyes then Err(IllegalArgument(name))
          else Ok(Some(if m.Some? then Average(m.value, dyes[name]) else dyes[name]))
  }

  /** `new java.awt.Color(r, g, b).getRGB()`: opaque alpha over the three
      components, as a signed int. */
  function AwtRgb(c: Rgb): (r: int32)
    requires ValidRgb(c)
    ensures -0x100_0000 <= r < 0 && r + 0x100_0000 == c.red * 0x1_0000 + c.green * 0x100 + c.blue
  {
    Wrap32(0xFF00_0000 + c.red * 0x1_0000 + c.green * 0x100 + c.blue)
  }

  /** The blocks a successful scan looks at: all of them when fewer than
      five are not glass, and otherwise up to and including the fifth. */
  predicate Window(ms: seq<string>, examined: nat, isGlass: string -> bool)
    requires examined <= |ms|
  {
    (examined == |ms| && CountNotGlass(ms, |ms|, isGlass) < 5) ||
    (examined > 0 && CountNotGlass(ms, examined, isGlass) == 5 && CountNotGlass(ms, examined - 1, isGlass) == 4)
  }

  /** What a scan of the blocks `ms` yields after looking at `examined` of
      them: on success the window has been seen and the colour is white
      without glass or the reference mix as an int; on failure the error is
      the reference's, met before the window closed. */
  predicate ScanOutcome(ms: seq<string>, isGlass: string -> bool, colourName: string -> string, dyes: map<string, Rgb>,
                        r: Result<int32>, examined: nat)
    requires examined <= |ms|
  {
    var mix := MixOf(ms, examined, isGlass, colourName, dyes);
    (r.Ok? <==> mix.Ok?) &&
    (r.Ok? ==> Window(ms, examined, isGlass)) &&
    (r.Err? ==> CountNotGlass(ms, examined, isGlass) < 5 && r.error == mix.error) &&
    (r.Ok? && mix.value.None? ==> r.value == WHITE_RGB) &&
    (r.Ok? && mix.value.Some? ==> ValidRgb(mix.value.value) && r.value == AwtRgb(mix.value.value))
  }

  /** The scan above a beacon: it walks up to `maxY`, mixing the colour of
      every stained glass block, and stops at the fifth block that is not
      glass, counted over the whole walk. The colour name is a parameter so
      the scan can be run with the code's name or the corrected one, and the
      dyes are `DyeColor`'s constants with their colours. */
  method BeaconColor(y: int, maxY: int, materialAt: int -> string, colourName: string -> string, dyes: map<string, Rgb>)
    returns (r: Result<int32>, examined: nat)
    requires forall name | name in dyes :: ValidRgb(dyes[name])
    ensures examined <= |Column(y, maxY, materialAt)|
    ensures ScanOutcome(Column(y, maxY, materialAt), IsStainedGlass, colourName, dyes, r, examined)
  {
    r, examined := Scan(Column(y, maxY, materialAt), IsStainedGlass, colourName, dyes);
  }

  /** The loop of the scan, over the blocks above the beacon. */
  method Scan(ms: seq<string>, isGlass: string -> bool, colourName: string -> string, dyes: map<string, Rgb>)
    returns (r: Result<int32>, examined: nat)
    requires forall name | name in dyes :: ValidRgb(dyes[name])
    ensures examined <= |ms|
    ensures ScanOutcome(ms, isGlass, colourName, dyes, r, examined)
  {
    var skipped := 0;
    var n := 0;
    // The code's three running sums, each halved from the second glass
    // block on; with one block they hold its colour.
    var mixed := Rgb(0, 0, 0);
    examined := 0;
    // The code's `break` at the fifth skipped block is the loop's second
    // condition here.
    while examined < |ms| && skipped < 5
      invariant examined <= |ms|
      invariant skipped == CountNotGlass(ms, examined, isGlass) && skipped <= 5
      invariant skipped == 5 ==> examined > 0 && CountNotGlass(ms, examined - 1, isGlass) == 4
      invariant MixOf(ms, examined, isGlass, colourName, dyes) == Ok(if n == 0 then None else Some(mixed))
    {
      var material := ms[examined];
      if !isGlass(material) {
        skipped := skipped + 1;
        examined := examined + 1;
      } else {
        n := n + 1;
        var name := colourName(material);
        if name !in dyes {
          examined := examined + 1;
          r := Err(IllegalArgument(name));
          return;
        }
        var colour := dyes[name];
        if n > 1 {
          mixed := Average(mixed, colour);
        } else {
          mixed := colour;
        }
        examined := examined + 1;
      }
    }
    if n == 0 {
      r := Ok(WHITE_RGB);
      return;
    }
    r := Ok(AwtRgb(mixed));
  }

  /** Glass of a single dye colours the beam that dye, however many blocks
      of it there are. */
  lemma {:induction false} OneDyeKeepsItsColour(ms: seq<string>, k: nat, isGlass: string -> bool,
                                                colourName: string -> string, dyes: map<string, Rgb>, dye: string)
    requires k <= |ms| && dye in dyes
    requires forall i | 0 <= i < k :: isGlass(ms[i]) ==> colourName(ms[i]) == dye
    ensures MixOf(ms, k, isGlass, colourName, dyes) == Ok(if CountNotGlass(ms, k, isGlass) == k then None else Some(dyes[dye]))
  {
    if k > 0 {
      OneDyeKeepsItsColour(ms, k - 1, isGlass, colourName, dyes, dye);
    }
  }

  // ---------------------------------------------------------------------
  // getChunk

  /** The snapshot cache, keyed by chunk position (the code's key is
      `chunkX + "x" + chunkZ`, which tells positions apart). */
  type ChunkCache<Snapshot> = map<(int32, int32), Snapshot>

  /** A cached snapshot, or a fresh one that is then cached. */
  function GetChunk<Snapshot>(cache: ChunkCache<Snapshot>, chunkX: int32, chunkZ: int32, load: (int32, int32) -> Snapshot)
    : (r: (Snapshot, ChunkCache<Snapshot>))
    ensures (chunkX, chunkZ) in cache ==> r == (cache[(chunkX, chunkZ)], cache)
    ensures (chunkX, chunkZ) !in cache ==> r.0 == load(chunkX, chunkZ)
    ensures r.1.Keys == cache.Keys + {(chunkX, chunkZ)}
    ensures forall p | p in cache :: r.1[p] == cache[p]
  {
    var key := (chunkX, chunkZ);
    if key in cache then (cache[key], cache)
    else
      var snapshot := load(chunkX, chunkZ);
      (snapshot, cache[key := snapshot])
  }

  /** Asking twice gives the same snapshot, and the second ask changes
      nothing. */
  lemma GetChunkIsStable<Snapshot>(cache: ChunkCache<Snapshot>, chunkX: int32, chunkZ: int32, load: (int32, int32) -> Snapshot)
    ensures var (first, cache1) := GetChunk(cache, chunkX, chunkZ, load);
      GetChunk(cache1, chunkX, chunkZ, load) == (first, cache1)
  {
  }
}
