/** Distant Horizons' biome wrapper: one wrapper per biome, kept in a
    global map; wrappers compare by their serial string, which is the
    biome's registry name "namespace:path", "EMPTY" for the empty wrapper
    or when no level was given, and "" for a biome the registry does not
    know. Biomes are values of an opaque type `B`; the registries are
    functions. */
module BiomeWrapper {
  import opened Wrappers
  import opened JavaStrings

  const EMPTY_STRING := "EMPTY"

  /** The empty wrapper, or a wrapper of a biome with its serial string. */
  datatype Wrapper<B> = Empty | Wrapped(biome: B, serial: string)

  /** A biome registry: the name of a biome and the biome of a name. */
  datatype Registry<!B> = Registry(keyOf: B -> Option<(string, string)>, lookup: (string, string) -> Option<B>)

  /** `getSerialString`. */
  function SerialString<B>(w: Wrapper<B>): (s: string)
    ensures w.Empty? ==> s == EMPTY_STRING
  {
    match w
    case Empty => EMPTY_STRING
    case Wrapped(_, s) => s
  }

  /** `equals`: wrappers are equal when their serial strings are. */
  predicate WrapperEquals<B>(a: Wrapper<B>, b: Wrapper<B>)
  {
    SerialString(a) == SerialString(b)
  }

  /** `hashCode` is a function of the serial string. */
  function HashCode<B>(w: Wrapper<B>, hash: string -> int): int
  {
    hash(SerialString(w))
  }

  /** Equal wrappers hash alike, and a wrapper built without a level is
      equal to the empty wrapper although it wraps a biome. */
  lemma EqualityFollowsSerial<B>(a: Wrapper<B>, b: Wrapper<B>, hash: string -> int, biome: B, client: Registry<B>)
    ensures WrapperEquals(a, b) ==> HashCode(a, hash) == HashCode(b, hash)
    ensures WrapperEquals(NewWrapper(biome, false, client), Empty)
  {
  }

  /** `serialize` for a wrapper whose serial string is not yet set: "EMPTY"
      without a level, "" for a biome the (client's) registry has no name
      for, and otherwise "namespace:path". */
  function Serialize<B>(biome: B, hasLevel: bool, client: Registry<B>): (s: string)
    ensures !hasLevel ==> s == EMPTY_STRING
    ensures hasLevel && client.keyOf(biome).None? ==> s == ""
    ensures hasLevel && client.keyOf(biome).Some? ==>
      var (ns, path) := client.keyOf(biome).value;
      s == ns + ":" + path && IndexOf(s, ':') <= |ns|
  {
    if !hasLevel then EMPTY_STRING
    else match client.keyOf(biome)
      case None => ""
      case Some((ns, path)) =>
        var s := ns + ":" + path;
        assert s[|ns|] == ':';
        s
  }

  /** The constructor: the serial string is computed once, on creation. */
  function NewWrapper<B>(biome: B, hasLevel: bool, client: Registry<B>): (w: Wrapper<B>)
    ensures w.Wrapped? && w.biome == biome && SerialString(w) == Serialize(biome, hasLevel, client)
  {
    Wrapped(biome, Serialize(biome, hasLevel, client))
  }

  /** `getBiomeWrapper` with its global map: null gives the empty wrapper;
      a biome seen before gives the wrapper made then; a new biome gets a
      new wrapper, which is remembered. */
  function GetBiomeWrapper<B(==)>(cache: map<B, Wrapper<B>>, biome: Option<B>, hasLevel: bool, client: Registry<B>)
    : (r: (Wrapper<B>, map<B, Wrapper<B>>))
    ensures biome.None? ==> r == (Empty, cache)
    ensures biome.Some? && biome.value in cache ==> r == (cache[biome.value], cache)
    ensures biome.Some? && biome.value !in cache ==>
      r.1 == cache[biome.value := r.0] && r.0 == NewWrapper(biome.value, hasLevel, client)
  {
    match biome
    case None => (Empty, cache)
    case Some(b) =>
      if b in cache then (cache[b], cache)
      else
        var w := NewWrapper(b, hasLevel, client);
        (w, cache[b := w])
  }

  /** The map holds, for each biome, a wrapper of that biome. */
  predicate CacheWellFormed<B(==)>(cache: map<B, Wrapper<B>>)
  {
    forall b | b in cache :: cache[b].Wrapped? && cache[b].biome == b
  }

  /** The same biome always gives the same wrapper, whatever level the
      later call passes, and every wrapper handed out wraps its biome. */
  lemma SameBiomeSameWrapper<B>(cache: map<B, Wrapper<B>>, b: B, level1: bool, level2: bool, client: Registry<B>)
    requires CacheWellFormed(cache)
    ensures var (w1, c1) := GetBiomeWrapper(cache, Some(b), level1, client);
      CacheWellFormed(c1) && w1.Wrapped? && w1.biome == b &&
      GetBiomeWrapper(c1, Some(b), level2, client) == (w1, c1)
  {
  }

  /** Java's `trim().isEmpty()`: every character is at most a space. */
  predicate IsBlank(s: string)
  {
    forall i | 0 <= i < |s| :: s[i] <= ' '
  }

  /** `deserialize`. "EMPTY" and blank strings give the empty wrapper; a
      string without ':' is an IO error; it is split at the first ':' and
      `validLocation` decides whether Minecraft accepts the two halves as a
      resource location (an unchecked exception otherwise, raised outside
      the method's catch). The lookup needs the level; any failure in it
      becomes an IO error; an unknown name gives the empty wrapper, and a
      known one the memoised wrapper of its biome. */
  function Deserialize<B(==)>(s: string, cache: map<B, Wrapper<B>>, level: Option<Registry<B>>,
                              validLocation: (string, string) -> bool, client: Registry<B>)
    : (r: Result<(Wrapper<B>, map<B, Wrapper<B>>)>)
    ensures s == EMPTY_STRING || IsBlank(s) ==> r == Ok((Empty, cache))
    ensures s != EMPTY_STRING && !IsBlank(s) && ':' !in s ==> r.Err? && r.error.IO?
    ensures CacheWellFormed(cache) && r.Ok? ==> CacheWellFormed(r.value.1)
    ensures CacheWellFormed(cache) && r.Ok? && r.value.0.Wrapped? ==>
      var i := IndexOf(s, ':');
      0 <= i && level.Some? && level.value.lookup(s[..i], s[i + 1..]) == Some(r.value.0.biome)
  {
    if s == EMPTY_STRING then Ok((Empty, cache))
    else if IsBlank(s) then Ok((Empty, cache))
    else
      var i := IndexOf(s, ':');
      if i == -1 then Err(IO("Unable to parse resource location string"))
      else
        var (ns, path) := (s[..i], s[i + 1..]);
        if !validLocation(ns, path) then Err(Unchecked("ResourceLocationException"))
        else match level
          case None => Err(IO("Failed to deserialize the string"))
          case Some(registry) =>
            match registry.lookup(ns, path)
            case None => Ok((Empty, cache))
            case Some(b) =>
              var (w, c) := GetBiomeWrapper(cache, Some(b), true, client);
              assert CacheWellFormed(cache) ==> w.Wrapped? && w.biome == b && CacheWellFormed(c);
              Ok((w, c))
  }

  /** Serial round trip: the string a wrapper was created with deserialises
      to that same wrapper, when the namespace has no ':', Minecraft accepts
      the name, and the level's registry resolves the name back to the
      biome. */
  lemma SerialRoundTrip<B>(b: B, ns: string, path: string, client: Registry<B>, level: Registry<B>,
                               validLocation: (string, string) -> bool)
    requires client.keyOf(b) == Some((ns, path)) && ':' !in ns
    requires validLocation(ns, path) && level.lookup(ns, path) == Some(b)
    ensures var w := NewWrapper(b, true, client);
      Deserialize(SerialString(w), map[], Some(level), validLocation, client) == Ok((w, map[b := w]))
  {
    var s := ns + ":" + path;
    assert s[|ns|] == ':' && s[..|ns|] == ns && s[|ns| + 1..] == path;
    assert ns + ":" + path == ns + (":" + path);
    IndexOfAfterPrefix(ns, ":" + path, ':');
    assert ':' in s && !IsBlank(s) && s != EMPTY_STRING;
  }

  /** The first ':' of `ns + rest` is the first of `rest`, when `ns` has none. */
  lemma {:induction false} IndexOfAfterPrefix(ns: string, rest: string, c: char)
    requires c !in ns && |rest| > 0 && rest[0] == c
    ensures IndexOf(ns + rest, c) == |ns|
  {
    var s := ns + rest;
    assert s[|ns|] == c && s[..|ns|] == ns;
  }

  /** The namespace is everything before the first ':', so a path may hold
      further colons: "a:b:c" is namespace "a" and path "b:c". */
  lemma SplitAtFirstColon<B>(cache: map<B, Wrapper<B>>, level: Registry<B>, client: Registry<B>)
    requires CacheWellFormed(cache)
    ensures var r := Deserialize("a:b:c", cache, Some(level), (ns, path) => true, client);
      r.Ok? && (r.value.0.Wrapped? ==> level.lookup("a", "b:c") == Some(r.value.0.biome))
      && (level.lookup("a", "b:c").None? ==> r.value.0 == Empty)
  {
    assert IndexOf("a:b:c", ':') == 1;
    assert "a:b:c"[..1] == "a" && "a:b:c"[2..] == "b:c";
  }
}
