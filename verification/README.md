# DH Support: a Dafny model of its message formats, policies and world algorithms

This project models the core of DH Support. DH Support is a Bukkit server plugin that serves Distant Horizons level-of-detail (LOD) data to clients. The model also covers the parts of Distant Horizons that the plugin relies on. It is written in Dafny, and every operation carries a contract proved against it.

The modules follow the program's structure:

- **Wire objects** (`Bits`, `DataPoint`, `SectionPosition`). A data point and a section position are 64-bit words, modelled as sequences of bits. The model covers the packed setters and getters, sign extension, and encoding to eight big-endian octets.
- **Plugin messages** (`TokenStream`, `RemotePlayerConfigMessage`, `PluginMessages`). The encoder and decoder are a stream of typed tokens. Each `readX` inverts its `writeX`. Each message proves a decode/encode round trip or proves that its encoding determines it.
- **Configuration** (`Configuration`, `ConfigKeys`). The global map is modelled with `set`, `unset`, `get` with a default, and the typed getters. A world's view prefixes every key with `worlds.<name>.` and falls back to the global value.
- **Handlers** (`PlayerConfigHandler`, `Chunking`, `LodHandler`).
  - The player-config handler merges the server and client configurations and builds the level key.
  - The LOD request handler has a gate (detail level, enabled flags, builder type, world border), a freshness check, buffer ids, and splitting into 16384-byte chunks.
- **`DhSupport` bookkeeping.** This covers the builder queue, the touched-LOD set, and partial updates sent to the players in range.
- **World algorithms over an oracle** (`PreGenerator`, `FastOverworldBuilder`). The pre-generator walks a square spiral. The fast overworld builder turns block samples into run-length columns with interned mapping ids.
- **`BukkitWorldInterface`.** This covers the world key, the sea level, block properties, the coordinate scale, the world-border radius, the chunk cache and the beacon colour.
- **Distant Horizons glue.**
  - `PacketSender` models the version/id/body framing of plugin packets and its error paths.
  - `ChunkLoader` models chunk position checks, the chunk status and light arrays.
  - `ChunkWrapper` models the height bounds and their caches.
  - `BiomeWrapper` models the biome memo and the serial string.
- **`Relocation`.** This is the build-time routine that rewrites SQLite's JNI names inside native libraries.

The world, Minecraft's registries, coordinate conversion and the message codecs are not part of this model. They appear as function parameters (oracles), so each property holds for every behaviour of them. The shared types are in `Wrappers`:
- `Result` and `Option`;
- the Java exceptions as error values;
- `int32`/`int64` with explicit wrap-around (`Wrap32`), the saturating double-to-int cast (`Saturate32`), and truncating division (`TruncDiv`).

## Model

| member | source | states |
|---|---|---|
| Bits.LongToOctets | src/test/java/DataPointTest.java:168-173 | `writeLong` puts the long's most significant octet first: octet j holds bits 63-8j down to 56-8j |
| Bits.LongRoundTrip | src/main/java/no/jckf/dhsupport/core/dataobject/DataPoint.java:116-126 | reading back the eight octets written for a long gives that long |
| Bits.OctetsRoundTrip | src/main/java/no/jckf/dhsupport/core/dataobject/SectionPosition.java:88-98 | any eight octets read as a long and written again are the same octets |
| DataPoint.Encode | src/main/java/no/jckf/dhsupport/core/dataobject/DataPoint.java:116-120 | a data point encodes to exactly the 8 octets of its long |
| DataPoint.SetMappingId | src/main/java/no/jckf/dhsupport/core/dataobject/DataPoint.java:48-53 | as written, the id is bits 0-31 of the word and every higher bit is a copy of the id's sign bit |
| DataPoint.SetHeight | src/main/java/no/jckf/dhsupport/core/dataobject/DataPoint.java:60-65 | the low 12 bits of the height land in bits 32-43, and no other bit changes |
| DataPoint.SetStartY | src/main/java/no/jckf/dhsupport/core/dataobject/DataPoint.java:72-77 | the low 12 bits of the start Y land in bits 44-55, and no other bit changes |
| DataPoint.HeightRoundTrip | src/main/java/no/jckf/dhsupport/core/dataobject/DataPoint.java:60-70 | the height read back after `setHeight(h)` is the low 12 bits of h, so h itself when 0 ≤ h < 4096 |
| DataPoint.StartYRoundTrip | src/main/java/no/jckf/dhsupport/core/dataobject/DataPoint.java:72-89 | startY in [-2048, 2047] reads back unchanged; any value reads back with the same low 12 bits, sign-extended from bit 11 |
| DataPoint.SkyLightRoundTrip | src/main/java/no/jckf/dhsupport/core/dataobject/DataPoint.java:92-102 | sky light reads back as its low nibble, so 0..15 round-trips |
| DataPoint.BlockLightRoundTrip | src/main/java/no/jckf/dhsupport/core/dataobject/DataPoint.java:104-114 | block light reads back as its low nibble, so 0..15 round-trips |
| DataPoint.GettersReadOwnBits | src/main/java/no/jckf/dhsupport/core/dataobject/DataPoint.java:55-114 | each getter depends only on its field's bits: 0-31, 32-43, 44-55, 56-59, 60-63 |
| DataPoint.SetHeightFrame | src/main/java/no/jckf/dhsupport/core/dataobject/DataPoint.java:60-65 | `setHeight` changes no bit outside 32-43, so the other four fields read as before |
| DataPoint.SetStartYFrame | src/main/java/no/jckf/dhsupport/core/dataobject/DataPoint.java:72-77 | `setStartY` changes no bit outside 44-55, so the other four fields read as before |
| DataPoint.SetSkyLightFrame | src/main/java/no/jckf/dhsupport/core/dataobject/DataPoint.java:92-97 | `setSkyLight` changes no bit outside 56-59, so the other four fields read as before |
| DataPoint.SetBlockLightFrame | src/main/java/no/jckf/dhsupport/core/dataobject/DataPoint.java:104-109 | `setBlockLight` changes no bit outside 60-63, so the other four fields read as before |
| DataPoint.SetMappingIdAsWritten | src/main/java/no/jckf/dhsupport/core/dataobject/DataPoint.java:48-58 | as written, `setMappingId(m)` leaves the whole word equal to m sign-extended: the mapping id reads m, and every other field reads all zeros (m ≥ 0) or all ones (m < 0) |
| DataPoint.SetMappingIdErasesEarlierFields | src/main/java/no/jckf/dhsupport/core/dataobject/DataPoint.java:48-53 | a height and a startY of 1, set before `setMappingId(1)`, both read back as 0 afterwards |
| DataPoint.SetMappingIdMaskedFrame | src/main/java/no/jckf/dhsupport/core/dataobject/DataPoint.java:48-53 | the corrected setter, which clears only bits 0-31, stores m and leaves bits 32-63, and so every other field, unchanged |
| DataPoint.MaskedSetterKeepsEarlierFields | src/test/java/DataPointTest.java:116-120 | with the corrected setter, a startY and a height set before the mapping id survive it |
| DataPoint.BuilderPointAsWritten | src/main/java/no/jckf/dhsupport/core/lodbuilders/FastOverworldBuilder.java:159-170 | a new data point filled in the builder's order (start Y, height, id, lights) reads start Y 0 and height 0 for every non-negative id, whatever was set; the id survives |
| DataPoint.BuilderPointCorrected | src/main/java/no/jckf/dhsupport/core/lodbuilders/FastOverworldBuilder.java:159-170 | with the corrected setter the same filling keeps all five fields, each value within its width |
| DataPoint.EncodeDecodeRoundTrip | src/test/java/DataPointTest.java:108-137 | decoding an encoded data point restores the word, so all five fields survive |
| DataPoint.BinaryLayout | src/test/java/DataPointTest.java:139-173 | a field set to 1 sets exactly bit 0, 32, 44, 56 or 60, and the big-endian octets show it where the test's bit strings put it |
| SectionPosition.Encode | src/main/java/no/jckf/dhsupport/core/dataobject/SectionPosition.java:88-92 | a section position encodes to exactly the 8 octets of its long |
| SectionPosition.DetailLevelRoundTrip | src/main/java/no/jckf/dhsupport/core/dataobject/SectionPosition.java:40-50 | the detail level reads back as its low 8 bits, so 0..255 round-trips |
| SectionPosition.XRoundTrip | src/main/java/no/jckf/dhsupport/core/dataobject/SectionPosition.java:52-68 | x reads back as its low 28 bits sign-extended from bit 27, so -2^27 ≤ x < 2^27 round-trips |
| SectionPosition.ZRoundTrip | src/main/java/no/jckf/dhsupport/core/dataobject/SectionPosition.java:70-86 | z reads back as its low 28 bits sign-extended from bit 27, so -2^27 ≤ z < 2^27 round-trips |
| SectionPosition.SetDetailLevelFrame | src/main/java/no/jckf/dhsupport/core/dataobject/SectionPosition.java:40-45 | `setDetailLevel` changes no bit outside 0-7; x and z read as before |
| SectionPosition.SetXFrame | src/main/java/no/jckf/dhsupport/core/dataobject/SectionPosition.java:52-57 | `setX` changes no bit outside 8-35; the detail level and z read as before |
| SectionPosition.SetZFrame | src/main/java/no/jckf/dhsupport/core/dataobject/SectionPosition.java:70-75 | `setZ` changes no bit outside 36-63; the detail level and x read as before |
| SectionPosition.AllFieldsRoundTrip | src/test/java/SectionPositionTest.java:89-112 | detail level, x and z set in turn, each in range, all read back |
| SectionPosition.EncodeDecodeRoundTrip | src/main/java/no/jckf/dhsupport/core/dataobject/SectionPosition.java:88-98 | decoding an encoded position restores the word, so all three fields survive |
| SectionPosition.BinaryLayout | src/test/java/SectionPositionTest.java:114-153 | a field set to 1 sets exactly bit 0, 8 or 36; x = -1 sets exactly bits 8-35 and z = -1 exactly bits 36-63 |
| Utils.BytesToHex | src/main/java/no/jckf/dhsupport/core/Utils.java:26-39 | `bytesToHex` gives 2n characters, characters 2j and 2j+1 being the upper-case Base16 digits of byte j's high and low nibble, and the result decodes back to the bytes |
| Utils.HexRoundTrip | src/main/java/no/jckf/dhsupport/core/Utils.java:26-39 | a string decodes to some bytes exactly when it is their Base16 spelling |
| Utils.HexToBytes | src/main/java/no/jckf/dhsupport/core/Utils.java:26-39 | the reference reading of a `bytesToHex` result: a string that reads as bytes has two characters per byte, and any character other than an upper-case hex digit makes it unreadable |
| Utils.ByteToBin | src/main/java/no/jckf/dhsupport/core/Utils.java:45-47 | each byte becomes exactly 8 binary digits whose value, most significant first, is the byte |
| Utils.ByteToBinSpells | src/main/java/no/jckf/dhsupport/core/Utils.java:46 | `Integer.toBinaryString` of the byte with bit 8 set has 9 digits, and dropping the leading one leaves the byte's value |
| Utils.AllDigitsLayout | src/main/java/no/jckf/dhsupport/core/Utils.java:45-47 | the appended digits are 8 per byte, in byte order: digit 8j+k is digit k of byte j |
| Utils.BytesToBinIsSpaced | src/main/java/no/jckf/dhsupport/core/Utils.java:41-50 | `bytesToBin` of no bytes is ""; otherwise it is the digits in groups of four separated by single spaces with no space at either end, of length 10n-1 |
| Utils.UcFirstKeepsRest | src/main/java/no/jckf/dhsupport/core/Utils.java:58 | the characters after the first come through unchanged, at the end of the result |
| Utils.UcFirstIdempotent | src/main/java/no/jckf/dhsupport/core/Utils.java:52-59 | with an idempotent one-character upper-casing, applying `ucFirst` twice equals applying it once |
| TokenStream.ReadsInvertWrites | src/main/java/no/jckf/dhsupport/core/message/plugin/LevelInitMessage.java:50-62 | each `readX` returns what the matching `writeX` appended and leaves the rest of the stream |
| RemotePlayerConfigMessage.KeysDistinct | src/main/java/no/jckf/dhsupport/core/message/plugin/RemotePlayerConfigMessage.java:28-41 | `KEYS` holds twelve distinct keys, one per field |
| RemotePlayerConfigMessage.Fields | src/main/java/no/jckf/dhsupport/core/message/plugin/RemotePlayerConfigMessage.java:188-207 | `encode` writes twelve fields of kinds bool, int×5, bool, int, bool, int×3, in that order |
| RemotePlayerConfigMessage.FieldsBijective | src/main/java/no/jckf/dhsupport/core/message/plugin/RemotePlayerConfigMessage.java:188-207 | a message and its twelve written fields determine each other |
| RemotePlayerConfigMessage.Encode | src/main/java/no/jckf/dhsupport/core/message/plugin/RemotePlayerConfigMessage.java:188-207 | `encode` writes twelve tokens, each of its field's kind |
| RemotePlayerConfigMessage.Decode | src/main/java/no/jckf/dhsupport/core/message/plugin/RemotePlayerConfigMessage.java:210-229 | a successful `decode` consumed exactly the twelve leading tokens, each of its field's kind, and leaves the rest |
| RemotePlayerConfigMessage.ReadFields | src/main/java/no/jckf/dhsupport/core/message/plugin/RemotePlayerConfigMessage.java:210-229 | whatever `decode`'s reads accept is a prefix of the stream holding one token of each asked-for kind |
| RemotePlayerConfigMessage.ReadFieldsInvertsWrites | src/main/java/no/jckf/dhsupport/core/message/plugin/RemotePlayerConfigMessage.java:210-229 | reading fields of the kinds written returns exactly those fields and the rest of the stream |
| RemotePlayerConfigMessage.DecodeEncode | src/main/java/no/jckf/dhsupport/core/message/plugin/RemotePlayerConfigMessage.java:188-229 | `decode` after `encode` restores every field and leaves what followed |
| RemotePlayerConfigMessage.DecodeOnlyEncodings | src/main/java/no/jckf/dhsupport/core/message/plugin/RemotePlayerConfigMessage.java:210-229 | when `decode` succeeds the stream began with the encoding of the message it returned |
| RemotePlayerConfigMessage.ToConfigurationContents | src/main/java/no/jckf/dhsupport/core/message/plugin/RemotePlayerConfigMessage.java:256-279 | `toConfiguration` sets exactly the twelve keys of `KEYS`, each to its field's value |
| RemotePlayerConfigMessage.Unbox | src/main/java/no/jckf/dhsupport/core/message/plugin/RemotePlayerConfigMessage.java:233-234 | assigning a boxed getter result to a primitive field fails with a null-pointer error exactly when the value is null |
| RemotePlayerConfigMessage.ReadConfigFieldsMeaning | src/main/java/no/jckf/dhsupport/core/message/plugin/RemotePlayerConfigMessage.java:231-254 | the typed reads succeed exactly when every remaining key is readable, and then give each key's value |
| RemotePlayerConfigMessage.FromConfigurationMeaning | src/main/java/no/jckf/dhsupport/core/message/plugin/RemotePlayerConfigMessage.java:231-254 | `fromConfiguration` succeeds exactly when each key holds a value of its field's kind, a null being allowed only for the border keys, and then takes each field from its key |
| RemotePlayerConfigMessage.BorderDefaultsToZero | src/main/java/no/jckf/dhsupport/core/message/plugin/RemotePlayerConfigMessage.java:236-242 | a missing or null border centre X, centre Z or radius becomes 0 |
| RemotePlayerConfigMessage.MissingKeyFails | src/main/java/no/jckf/dhsupport/core/message/plugin/RemotePlayerConfigMessage.java:233-234 | a missing non-border key makes `fromConfiguration` fail |
| RemotePlayerConfigMessage.FromToConfiguration | src/main/java/no/jckf/dhsupport/core/message/plugin/RemotePlayerConfigMessage.java:231-279 | `fromConfiguration(toConfiguration(m))` is m |
| PluginMessages.DecodeLevelInit | src/main/java/no/jckf/dhsupport/core/message/plugin/LevelInitMessage.java:57-62 | `decode` accepts only a short string followed by a long, and the stream began with the encoding of what it returns |
| PluginMessages.LevelInitRoundTrip | src/main/java/no/jckf/dhsupport/core/message/plugin/LevelInitMessage.java:50-62 | `decode` after `encode` restores the key and the time |
| PluginMessages.DecodeCloseReason | src/main/java/no/jckf/dhsupport/core/message/plugin/CloseReasonMessage.java:44-48 | `decode` reads only the reason, and the stream began with the encoding of what it returns |
| PluginMessages.CloseReasonRoundTrip | src/main/java/no/jckf/dhsupport/core/message/plugin/CloseReasonMessage.java:38-48 | `decode` after `encode` restores the reason |
| PluginMessages.GetBufferId | src/main/java/no/jckf/dhsupport/core/message/plugin/FullDataSourceResponseMessage.java:36-39 | `getBufferId` fails by unboxing null exactly when no buffer id was set, and otherwise returns it |
| PluginMessages.EncodeFullDataSourceResponse | src/main/java/no/jckf/dhsupport/core/message/plugin/FullDataSourceResponseMessage.java:51-58 | the encoding starts with the presence marker; nothing follows it without a buffer id, and the id then the raw beacons follow with one |
| PluginMessages.FullDataSourceResponseEncodingDetermines | src/main/java/no/jckf/dhsupport/core/message/plugin/FullDataSourceResponseMessage.java:51-58 | equal encodings mean equal buffer ids, and equal beacons whenever an id is present |
| PluginMessages.FullDataPartialUpdateEncodingDetermines | src/main/java/no/jckf/dhsupport/core/message/plugin/FullDataPartialUpdateMessage.java:61-67 | the encoding (level key, buffer id, verbatim beacons) determines the whole message |
| Configuration.AsBool | src/main/java/no/jckf/dhsupport/core/configuration/Configuration.java:49-52 | the `(Boolean)` cast gives null for null, the boolean for a boolean, and a cast error for anything else |
| Configuration.AsInt | src/main/java/no/jckf/dhsupport/core/configuration/Configuration.java:59-62 | the `(Integer)` cast gives null for null, the int for an int, and a cast error for anything else |
| Configuration.AsString | src/main/java/no/jckf/dhsupport/core/configuration/Configuration.java:69-72 | the `(String)` cast gives null for null, the string for a string, and a cast error for anything else |
| Configuration.Set | src/main/java/no/jckf/dhsupport/core/configuration/Configuration.java:29-32 | after `set(k, v)` with v non-null, the same view reads v whatever the default; no key is lost |
| Configuration.Get | src/main/java/no/jckf/dhsupport/core/configuration/Configuration.java:39-42 | `get` returns the default or a value the map holds, and the default whenever neither the key nor, in a world's view, its prefixed key is present |
| Configuration.GetAfterSet | src/main/java/no/jckf/dhsupport/core/configuration/Configuration.java:29-42 | `get(k)` after `set(k, v)` returns v, whatever the default |
| Configuration.DefaultOnlyWhenAbsent | src/main/java/no/jckf/dhsupport/core/configuration/Configuration.java:39-42 | `get(k, d)` returns every default d exactly when k is absent; a key set to null yields null |
| Configuration.GetAfterUnset | src/main/java/no/jckf/dhsupport/core/configuration/Configuration.java:34-42 | after `unset(k)`, `get(k, d)` returns d |
| Configuration.SetUnsetFrame | src/main/java/no/jckf/dhsupport/core/configuration/Configuration.java:29-37 | `set` and `unset` of one key leave every other key's value unchanged |
| Configuration.TypedGetters | src/main/java/no/jckf/dhsupport/core/configuration/Configuration.java:44-77 | the typed getters return what was set when it has their type, fail with a cast error when it does not, and give their default for an absent key |
| Configuration.WorldKeyDiffers | src/main/java/no/jckf/dhsupport/core/configuration/WorldConfiguration.java:28 | the prefixed key `worlds.<name>.<key>` is never the key itself |
| Configuration.WorldSetUnset | src/main/java/no/jckf/dhsupport/core/configuration/WorldConfiguration.java:40-50 | a world's `set`/`unset` write only the prefixed key of the parent; the global key is untouched |
| Configuration.WorldValueWins | src/main/java/no/jckf/dhsupport/core/configuration/WorldConfiguration.java:52-57 | a non-null world-specific value is what the world's `get` returns |
| Configuration.WorldFallsBack | src/main/java/no/jckf/dhsupport/core/configuration/WorldConfiguration.java:55-57 | without a non-null world-specific value the world's `get(k, d)` is the parent's `get(k, d)` |
| Configuration.WorldNullFallsBack | src/main/java/no/jckf/dhsupport/core/configuration/WorldConfiguration.java:55-57 | after a world's `set(k, null)` or `unset(k)`, its `get` and its inherited typed getters fall back to the global value |
| PlayerConfigHandler.LevelKey | src/main/java/no/jckf/dhsupport/core/handler/PlayerConfigHandler.java:59-64 | the level key is the prefix followed by the world key when a prefix is set, and the world key alone otherwise |
| PlayerConfigHandler.ScaleCoordinate | src/main/java/no/jckf/dhsupport/core/handler/PlayerConfigHandler.java:99-101 | a border centre is multiplied by the coordinate scale, and the cast to int saturates a product outside the int range |
| PlayerConfigHandler.MeetIsGreatestLowerBound | src/main/java/no/jckf/dhsupport/core/handler/PlayerConfigHandler.java:103-115 | two booleans merge to their conjunction, two ints to the smaller, and anything else to null |
| PlayerConfigHandler.KeepValueVeto | src/main/java/no/jckf/dhsupport/core/handler/PlayerConfigHandler.java:83-87 | when use is not allowed, distant generation is forced to false whatever either side says |
| PlayerConfigHandler.KeepValueBorder | src/main/java/no/jckf/dhsupport/core/handler/PlayerConfigHandler.java:89-101 | the border centre X/Z (scaled) and radius come from the world; only a null from the world lets the generic merge decide them |
| PlayerConfigHandler.KeepValueOtherwiseMeet | src/main/java/no/jckf/dhsupport/core/handler/PlayerConfigHandler.java:103-115 | every other key, and distant generation when use is allowed, gets the generic merge |
| PlayerConfigHandler.Merge | src/main/java/no/jckf/dhsupport/core/handler/PlayerConfigHandler.java:73-118 | the merge loop leaves exactly the twelve keys, each holding the merge of the server's value and the client's own value |
| PlayerConfigHandler.MergeStep | src/main/java/no/jckf/dhsupport/core/handler/PlayerConfigHandler.java:76-118 | each key is read before it is written and no earlier key equals it, so every read sees the client's value |
| PlayerConfigHandler.MergedFieldReadable | src/main/java/no/jckf/dhsupport/core/handler/PlayerConfigHandler.java:122-123 | a merged field can be read back into the echo exactly when the key is a border key, is vetoed, or has a server value of the field's kind |
| PlayerConfigHandler.EchoSucceedsIff | src/main/java/no/jckf/dhsupport/core/handler/PlayerConfigHandler.java:120-125 | building the echo from the merged configuration fails by unboxing null exactly when some non-border key lacks a server value of its kind |
| PlayerConfigHandler.Handle | src/main/java/no/jckf/dhsupport/core/handler/PlayerConfigHandler.java:44-126 | the handler fails before sending anything when the level-key prefix is not a string; otherwise it announces the level key, and then throws the world's error when the border cannot be read, or stores the merged configuration (distant generation off when permission is denied) and echoes it |
| Chunking.ChunkCount | src/main/java/no/jckf/dhsupport/core/handler/LodHandler.java:164 | the chunk count is the ceiling of length / 16384: enough chunks to hold the data, and no spare one |
| Chunking.ChunkAt | src/main/java/no/jckf/dhsupport/core/handler/LodHandler.java:166-174 | chunk k carries the buffer id, is first exactly when k is 0, and holds 1 to 16384 bytes, a full 16384 for every chunk but the last |
| Chunking.AppendChunk | src/main/java/no/jckf/dhsupport/core/handler/LodHandler.java:166-177 | appending the next chunk keeps the sent chunks equal to the data's leading bytes |
| Chunking.Split | src/main/java/no/jckf/dhsupport/core/handler/LodHandler.java:164-177 | the data splits into ⌈len/16384⌉ chunks of at most 16384 bytes whose concatenation is the data, only chunk 0 marked first; for data so long that the end index wraps past the int range, the last chunk throws after the others were sent |
| LodHandler.SpansMeet | src/main/java/no/jckf/dhsupport/core/handler/LodHandler.java:101-111 | two closed spans share a point exactly when each starts no later than the other ends |
| LodHandler.OutsideBorderMeansDisjoint | src/main/java/no/jckf/dhsupport/core/handler/LodHandler.java:101-119 | without int overflow, a request is refused at the border exactly when the section's 65-block span misses the border's square on the x or the z axis |
| LodHandler.OutsideBorder | src/main/java/no/jckf/dhsupport/core/handler/LodHandler.java:101-111 | the sums wrap in int: a section whose far edge passes the int maximum is refused at every border whose low edge is at least 64 above the int minimum |
| LodHandler.Admit | src/main/java/no/jckf/dhsupport/core/handler/LodHandler.java:55-119 | a detail level other than 6 is answered with a "section requires splitting" exception and nothing else; every refusal is an exception message; admission needs a border the world could report |
| LodHandler.AdmitMeaning | src/main/java/no/jckf/dhsupport/core/handler/LodHandler.java:55-119 | a request gets through exactly when its detail level is 6, distant generation is on for both the world and the player, the builder is not "none" (in any case) with nothing stored, and the border can be read and is not fully known with the section outside it; a request that passes the earlier gates throws when the border cannot be read |
| LodHandler.WorldDisabledRefuses | src/main/java/no/jckf/dhsupport/core/handler/LodHandler.java:72-79 | distant generation off for the world refuses the request without reading the player's configuration |
| LodHandler.SendDataForNonNegative | src/main/java/no/jckf/dhsupport/core/handler/LodHandler.java:152 | for a non-negative timestamp, data is sent exactly when the timestamp is below 1000 times the LOD's |
| LodHandler.SendData | src/main/java/no/jckf/dhsupport/core/handler/LodHandler.java:152 | the division truncates toward zero, so any timestamp strictly between -1000 and 1000 reads as 0 seconds: data is sent exactly when the LOD's timestamp is positive |
| LodHandler.NextBufferId | src/main/java/no/jckf/dhsupport/core/handler/LodHandler.java:155 | the next buffer id is 1 when none was stored, and fails exactly when the stored value is not an int |
| LodHandler.Reply | src/main/java/no/jckf/dhsupport/core/handler/LodHandler.java:138-194 | no LOD gives "No LOD available"; fresh enough data gives the chunks with the new buffer id and then the response, and raises the stored id; otherwise only an empty response; nothing else changes |
| LodHandler.BufferIdAdvancesByOne | src/main/java/no/jckf/dhsupport/core/handler/LodHandler.java:155-157 | the buffer id goes up by exactly one, wrapping at the end of the int range |
| DhSupport.QueueBuilder | src/main/java/no/jckf/dhsupport/core/DhSupport.java:233-279 | queueing records the section under a handle no other queued section holds, leaves every other section's entry alone, and keeps the queue valid |
| DhSupport.QueueBuilderDeduplicates | src/main/java/no/jckf/dhsupport/core/DhSupport.java:241-243 | queueing a section a second time returns the first future and changes nothing |
| DhSupport.Finish | src/main/java/no/jckf/dhsupport/core/DhSupport.java:263-274 | a finished or failed builder takes its section, and only its section, out of the queue |
| DhSupport.FinishThenRequeueIsFresh | src/main/java/no/jckf/dhsupport/core/DhSupport.java:263-279 | once a builder has finished, queueing its section again starts a new future, distinct from every other queued one |
| DhSupport.TouchLodIsIdempotent | src/main/java/no/jckf/dhsupport/core/DhSupport.java:369-386 | touching the same block's section twice leaves the touched set as one touch does |
| DhSupport.TouchLodCountsSections | src/main/java/no/jckf/dhsupport/core/DhSupport.java:369-386 | two fresh touches add one entry when the blocks lie in the same section and two otherwise |
| DhSupport.TouchLod | src/main/java/no/jckf/dhsupport/core/DhSupport.java:369-386 | a touch records the block's section, keeps every section recorded before, and grows the set by one exactly when the section was new |
| DhSupport.DistanceIsExact | src/main/java/no/jckf/dhsupport/core/DhSupport.java:440-441 | for chunk coordinates, the max-minus-min distance does not overflow, is the true distance and is symmetric |
| DhSupport.InUpdateRangeIsChebyshev | src/main/java/no/jckf/dhsupport/core/DhSupport.java:440-446 | a player is in range exactly when it is within the radius on both the x and the z axis |
| DhSupport.Distance | src/main/java/no/jckf/dhsupport/core/DhSupport.java:440-441 | the max-minus-min distance is the true distance when that fits an int, and otherwise wraps: 2³² minus the distance, or the int minimum for a distance of 2³¹ |
| DhSupport.UpdateLevelKeyAsWritten | src/main/java/no/jckf/dhsupport/core/DhSupport.java:416-421 | the level key of a partial update is the prefix, when there is one, before the world's name |
| DhSupport.UpdateLevelKeyAsWrittenMismatch | src/main/java/no/jckf/dhsupport/core/DhSupport.java:417 | that key differs from the one the player was told at login exactly when the world's name holds a character a namespaced key does not allow |
| DhSupport.LevelKeyOfSpacedName | src/main/java/no/jckf/dhsupport/core/DhSupport.java:417 | a world named "my world" is one such name |
| DhSupport.UpdateLevelKey | src/main/java/no/jckf/dhsupport/core/DhSupport.java:416-421 | the corrected level key is the prefix before the world's key, and fails exactly when the prefix is not a string |
| DhSupport.UpdateLevelKeyMatchesLogin | src/main/java/no/jckf/dhsupport/core/DhSupport.java:416-421 | the corrected key equals the level key the player configuration handler sends at login |
| DhSupport.UpdatesEnabled | src/main/java/no/jckf/dhsupport/core/DhSupport.java:410 | reading the real-time-updates flag fails exactly when the configured value is not a boolean, the missing value included |
| DhSupport.UpdateRadius | src/main/java/no/jckf/dhsupport/core/DhSupport.java:435 | the update radius reads exactly when the player's configuration holds an int under that key, and is that int |
| DhSupport.PlayerMessages | src/main/java/no/jckf/dhsupport/core/DhSupport.java:451-473 | a player in range is sent, in order, every chunk of the LOD's data under its buffer id and then the partial update with the beacons, all addressed to that player |
| DhSupport.UpdatePlayer | src/main/java/no/jckf/dhsupport/core/DhSupport.java:428-473 | an unreadable radius or buffer id fails; out of range sends nothing and changes nothing; in range stores the next buffer id and sends the player's messages, failing exactly when the data is too long to split |
| DhSupport.FanOut | src/main/java/no/jckf/dhsupport/core/DhSupport.java:427-474 | the player loop keeps the set of players with a configuration, and every message it sends goes to one of the players visited so far |
| DhSupport.PartialUpdate | src/main/java/no/jckf/dhsupport/core/DhSupport.java:404-475 | as written, with the key built from the world's name: with updates off or unreadable nothing is sent and no configuration changes; with them on and the key readable, every player of the world is visited in turn |
| DhSupport.PartialUpdateCorrected | src/main/java/no/jckf/dhsupport/core/DhSupport.java:404-475 | corrected, the same callback files the update under the level key announced at login |
| DhSupport.PartialUpdateAgreesOnKeyNames | src/main/java/no/jckf/dhsupport/core/DhSupport.java:416-421 | the two callbacks do the same for every world whose name has only key characters, and file the update under different keys for any other name when the prefix is readable |
| DhSupport.UpdatePlayerHandles | src/main/java/no/jckf/dhsupport/core/DhSupport.java:428-473 | a player's iteration that does not fail sends the player's messages and stores the next id exactly when the player is in range, and otherwise nothing |
| DhSupport.FanOutLeavesOthers | src/main/java/no/jckf/dhsupport/core/DhSupport.java:427-474 | a player not yet visited has been sent nothing and keeps its configuration |
| DhSupport.FanOutDelivers | src/main/java/no/jckf/dhsupport/core/DhSupport.java:427-474 | when no iteration fails, every player with a configuration is handled by its own iteration, and a player without one is sent nothing |
| DhSupport.OnlyPlayersInRangeReceive | src/main/java/no/jckf/dhsupport/core/DhSupport.java:427-474 | whoever is sent anything is a player of the world with a configuration, a readable radius and the LOD in range |
| DhSupport.DisabledUpdatesSendNothing | src/main/java/no/jckf/dhsupport/core/DhSupport.java:410-414 | with real-time updates off for the world, no player is sent anything and no configuration changes |
| PreGenerator.TotalStepsIsHalfSquared | src/main/java/no/jckf/dhsupport/core/PreGenerator.java:66 | the target is (c/2)² for an even radius of c chunks and h·(h+1) for an odd one, c = 2h + 1, with no saturation for radii that fit |
| PreGenerator.NewPlan | src/main/java/no/jckf/dhsupport/core/PreGenerator.java:57-67 | the walk is centred on the section holding the centre block and targets TotalSteps of the radius in chunks |
| PreGenerator.SidePointSteps | src/main/java/no/jckf/dhsupport/core/PreGenerator.java:83-123 | each step along a side moves one cell in the side's direction, which turns a quarter clockwise after every side; each side ends where the next begins |
| PreGenerator.IndexOfSidePoint | src/main/java/no/jckf/dhsupport/core/PreGenerator.java:83-97 | the t-th cell of a side is the spiral cell numbered by the steps taken to reach it |
| PreGenerator.StepIsAdjacent | src/main/java/no/jckf/dhsupport/core/PreGenerator.java:96-97 | every move goes to a cell next to the current one |
| PreGenerator.WalkedIsInjective | src/main/java/no/jckf/dhsupport/core/PreGenerator.java:83-112 | a walk never visits a section twice and never comes back to the centre |
| PreGenerator.RequestedMeaning | src/main/java/no/jckf/dhsupport/core/PreGenerator.java:99-108 | a request is made, at detail level 6, for exactly the visited sections that are forced or have no LOD stored |
| PreGenerator.WalkSide | src/main/java/no/jckf/dhsupport/core/PreGenerator.java:85-121 | one side of a pass visits its m + 1 cells in order, unless the walk is stopped or reaches its target first |
| PreGenerator.WalkPass | src/main/java/no/jckf/dhsupport/core/PreGenerator.java:84-124 | one pass of the outer loop walks its two sides and leaves the walk at the corner where the next pass begins |
| PreGenerator.Walk | src/main/java/no/jckf/dhsupport/core/PreGenerator.java:69-130 | the walk visits the first min(stop point, target) cells of the spiral in order, requesting as above; an unstopped walk ends with the step count at the target when the target is a whole number of passes, and one past it otherwise |
| PreGenerator.SettledProgress | src/main/java/no/jckf/dhsupport/core/PreGenerator.java:132-140 | once every request has settled, the completed count of an unstopped walk equals the target exactly when the target is pronic, and exceeds it by one otherwise |
| PreGenerator.PronicTargets | src/main/java/no/jckf/dhsupport/core/PreGenerator.java:66-93 | a radius of 7 chunks targets 12 steps, three whole passes (2 + 4 + 6); a radius of 6 targets 9, which no whole number of passes gives |
| FastOverworldBuilder.ReadSettings | src/main/java/no/jckf/dhsupport/core/lodbuilders/FastOverworldBuilder.java:54-57 | the resolution is read with no default and a missing one fails the unboxing; the two flags default to false and true; the settings are exactly the values read, and reading succeeds whenever all three have the right type |
| FastOverworldBuilder.Intern | src/main/java/no/jckf/dhsupport/core/lodbuilders/FastOverworldBuilder.java:141-150 | interning a known pair returns its id and changes nothing; a new pair is appended and gets the next id; the id returned always names the pair's key |
| FastOverworldBuilder.TableKeysAreUnique | src/main/java/no/jckf/dhsupport/core/lodbuilders/FastOverworldBuilder.java:141-150 | no two entries of the id table share a key, and interning the same pair again is a no-op |
| FastOverworldBuilder.KeyDeterminesPair | src/main/java/no/jckf/dhsupport/core/lodbuilders/FastOverworldBuilder.java:141 | for biome names without a bar, the composite key determines the biome and the material |
| FastOverworldBuilder.RaiseTopLayer | src/main/java/no/jckf/dhsupport/core/lodbuilders/FastOverworldBuilder.java:76-88 | the raised top layer stays inside the world, ends below an air block or at the top, and has no air between the highest block and it |
| FastOverworldBuilder.Setup | src/main/java/no/jckf/dhsupport/core/lodbuilders/FastOverworldBuilder.java:70-108 | the first sample starts one step below the top of the world, and the step is 1 exactly when the top layer was raised |
| FastOverworldBuilder.Clamp | src/main/java/no/jckf/dhsupport/core/lodbuilders/FastOverworldBuilder.java:111-116 | a sample reaching below the world is cut to start at layer 0 and keeps its top; a sample inside the world is unchanged |
| FastOverworldBuilder.SolidGround | src/main/java/no/jckf/dhsupport/core/lodbuilders/FastOverworldBuilder.java:128-139 | the ground mark is set once, at the first ground material at or below sea level when that is asked for, to ten layers below the lower of the sample and the sea level |
| FastOverworldBuilder.TakeSample | src/main/java/no/jckf/dhsupport/core/lodbuilders/FastOverworldBuilder.java:110-150 | a sample reads the material at its top layer, keeps inside the world, grows the id table only by appending, and its id names the column's biome and that material |
| FastOverworldBuilder.PlaceMerges | src/main/java/no/jckf/dhsupport/core/lodbuilders/FastOverworldBuilder.java:154-158 | a sample whose id equals the last data point's grows that data point downwards by the sample's height and changes nothing else |
| FastOverworldBuilder.PlaceAppends | src/main/java/no/jckf/dhsupport/core/lodbuilders/FastOverworldBuilder.java:159-186 | any other sample appends a new data point with its id and the light above it; an air sample at the top instead fills the world from the top layer up |
| FastOverworldBuilder.PlaceKeepsIds | src/main/java/no/jckf/dhsupport/core/lodbuilders/FastOverworldBuilder.java:141-189 | no two adjacent data points of a column share an id, and every id is in the table |
| FastOverworldBuilder.PlaceKeepsStack | src/main/java/no/jckf/dhsupport/core/lodbuilders/FastOverworldBuilder.java:152-189 | the data points stack downwards without gaps or overlaps; only the air fill can break the stack |
| FastOverworldBuilder.PlaceKeepsLabels | src/main/java/no/jckf/dhsupport/core/lodbuilders/FastOverworldBuilder.java:152-189 | every data point other than the air fill is labelled with the pair of its top block and carries the light read just above it |
| FastOverworldBuilder.PlaceKeepsInside | src/main/java/no/jckf/dhsupport/core/lodbuilders/FastOverworldBuilder.java:110-189 | with a positive resolution every data point other than the air fill lies inside the world and is at least one layer high |
| FastOverworldBuilder.ScanKeepsInv | src/main/java/no/jckf/dhsupport/core/lodbuilders/FastOverworldBuilder.java:110-190 | all of the above hold through the whole top-down scan of a column |
| FastOverworldBuilder.ColumnShape | src/main/java/no/jckf/dhsupport/core/lodbuilders/FastOverworldBuilder.java:70-192 | a finished column has valid ids, is stacked, is labelled and lies inside the world, and leaves the step at 1 or the configured value |
| FastOverworldBuilder.FirstSample | src/main/java/no/jckf/dhsupport/core/lodbuilders/FastOverworldBuilder.java:167-182 | an air block at the top of the world becomes one data point from the top layer up to the top of the world, without light; any other block starts a data point that ends at the top of the world |
| FastOverworldBuilder.Place | src/main/java/no/jckf/dhsupport/core/lodbuilders/FastOverworldBuilder.java:152-189 | placing a sample leaves the id table and the ground mark the sample computed |
| FastOverworldBuilder.ScanColumn | src/main/java/no/jckf/dhsupport/core/lodbuilders/FastOverworldBuilder.java:110-190 | the top-down scan of a column only appends to a valid id table, and keeps a ground mark once it is set |
| FastOverworldBuilder.BuildColumn | src/main/java/no/jckf/dhsupport/core/lodbuilders/FastOverworldBuilder.java:70-192 | building a column only appends to a valid id table |
| FastOverworldBuilder.ResolutionLeaksIntoNextColumn | src/main/java/no/jckf/dhsupport/core/lodbuilders/FastOverworldBuilder.java:74-92 | as written, a column whose scan ends at step 1 makes the next column of the same world scan at step 1 too: two identical columns come out different |
| FastOverworldBuilder.Build | src/main/java/no/jckf/dhsupport/core/lodbuilders/FastOverworldBuilder.java:64-194 | the builder makes one column per block and keeps the id table valid; each column enters with the step its rule gives: the step the previous column left, as the code is written with `yStep` declared outside the column loops, or the configured resolution, as corrected |
| FastOverworldBuilder.ConfiguredResolutionPerColumn | src/main/java/no/jckf/dhsupport/core/lodbuilders/FastOverworldBuilder.java:74 | with every column entering at the configured resolution, the same two columns come out identical |
| FastOverworldBuilder.BuildGrows | src/main/java/no/jckf/dhsupport/core/lodbuilders/FastOverworldBuilder.java:64-193 | under either step rule, building more columns only extends the columns and the id table built so far |
| FastOverworldBuilder.BuildColumnAt | src/main/java/no/jckf/dhsupport/core/lodbuilders/FastOverworldBuilder.java:64-67 | under either step rule, the k-th column is the column of the block at row k / width, column k % width, built on the id table left by the columns before it and entered with the step the rule gives |
| FastOverworldBuilder.BuildIdsValid | src/main/java/no/jckf/dhsupport/core/lodbuilders/FastOverworldBuilder.java:141-193 | under either step rule, every data point of the first n columns has an id inside the table built so far, naming the pair of its top block |
| FastOverworldBuilder.Generate | src/main/java/no/jckf/dhsupport/core/lodbuilders/FastOverworldBuilder.java:42-197 | `generate` as written, the step carried from column to column, makes a LOD of exactly width × width columns |
| FastOverworldBuilder.GenerateCorrected | src/main/java/no/jckf/dhsupport/core/lodbuilders/FastOverworldBuilder.java:42-197 | with the step reset to the configured resolution for every column, the LOD likewise holds width × width columns |
| FastOverworldBuilder.GenerateIdsValid | src/main/java/no/jckf/dhsupport/core/lodbuilders/FastOverworldBuilder.java:141-196 | in the LOD as written and in the corrected one, every data point has an id inside the LOD's table, naming its top block's biome and material |
| BukkitWorldInterface.Key | src/main/java/no/jckf/dhsupport/bukkit/BukkitWorldInterface.java:166-169 | a world's key keeps, in order, only the name's letters, digits, '_' and '-', so it is never longer than the name |
| BukkitWorldInterface.KeyOfConcat | src/main/java/no/jckf/dhsupport/bukkit/BukkitWorldInterface.java:168 | the key of a joined name is the join of the keys |
| BukkitWorldInterface.KeyKeepsOnlyAllowed | src/main/java/no/jckf/dhsupport/bukkit/BukkitWorldInterface.java:168 | a name is its own key exactly when all its characters are allowed, and taking the key twice changes nothing more |
| BukkitWorldInterface.SeaLevel | src/main/java/no/jckf/dhsupport/bukkit/BukkitWorldInterface.java:364-368 | the sea level is the world's own, clamped into the build limits |
| BukkitWorldInterface.CoordinateScale | src/main/java/no/jckf/dhsupport/bukkit/BukkitWorldInterface.java:171-185 | without the server's method the scale is 8 in the nether and 1 elsewhere; with it, the reported value |
| BukkitWorldInterface.SplitProperty | src/main/java/no/jckf/dhsupport/bukkit/BukkitWorldInterface.java:421-423 | a property part splits at its first '=', and one without '=' throws |
| BukkitWorldInterface.SplitPropertyRejoins | src/main/java/no/jckf/dhsupport/bukkit/BukkitWorldInterface.java:421 | the key and the value rejoined by '=' give the part back, and the key holds no '=' |
| BukkitWorldInterface.PutAllIsLastWins | src/main/java/no/jckf/dhsupport/bukkit/BukkitWorldInterface.java:420-424 | after putting every part, each key maps to the value of its last part, and a key no part names is absent |
| BukkitWorldInterface.BlockProperties | src/main/java/no/jckf/dhsupport/bukkit/BukkitWorldInterface.java:405-427 | a block state without '[' has no properties; only a state with '[' can fail |
| BukkitWorldInterface.BlockPropertiesMeaning | src/main/java/no/jckf/dhsupport/bukkit/BukkitWorldInterface.java:412-426 | the properties of "name[body]" are the body's comma-separated parts, read last-wins, and reading fails exactly when a part has no '=' |
| BukkitWorldInterface.BorderCenter | src/main/java/no/jckf/dhsupport/bukkit/BukkitWorldInterface.java:192-210 | with the vanilla border, the centre is the server's border centre; otherwise the configured one |
| BukkitWorldInterface.BorderRadiusAsWritten | src/main/java/no/jckf/dhsupport/bukkit/BukkitWorldInterface.java:212-228 | the radius is the configured one without the vanilla border; with it and an "auto" expansion, half the border size plus the view distance in blocks, wrapping in int |
| BukkitWorldInterface.BorderRadiusAsWrittenRejectsExpansion | src/main/java/no/jckf/dhsupport/bukkit/BukkitWorldInterface.java:212-228 | with the vanilla border, an expansion that is not "auto" makes the radius throw: a class-cast error for any value, a null-pointer error for a null one |
| BukkitWorldInterface.BorderRadiusAsWrittenExample | src/main/java/no/jckf/dhsupport/bukkit/BukkitWorldInterface.java:221-224 | an expansion of 16 chunks is one such value |
| BukkitWorldInterface.BorderRadius | src/main/java/no/jckf/dhsupport/bukkit/BukkitWorldInterface.java:212-216 | the corrected radius is the configured one when the vanilla border is off |
| BukkitWorldInterface.BorderRadiusHonoursExpansion | src/main/java/no/jckf/dhsupport/bukkit/BukkitWorldInterface.java:219-227 | with the vanilla border, the corrected radius is half the border size plus the expansion in blocks, and agrees with the code as written when the expansion is "auto" |
| BukkitWorldInterface.BorderAsWrittenFailsOnExpansion | src/main/java/no/jckf/dhsupport/bukkit/BukkitWorldInterface.java:192-228 | with the vanilla border and any expansion but "auto", reading the border as the handlers do fails, while the corrected read of a number of chunks succeeds |
| BukkitWorldInterface.AfterFirstSeparator | src/main/java/no/jckf/dhsupport/bukkit/BukkitWorldInterface.java:489 | the second token of a name is the text between its first and second ':' or '_' |
| BukkitWorldInterface.SecondTokenOfMaterial | src/main/java/no/jckf/dhsupport/bukkit/BukkitWorldInterface.java:489 | the colour token of a namespaced material is the first word after the namespace |
| BukkitWorldInterface.StainedGlassIsGlass | src/main/java/no/jckf/dhsupport/bukkit/BukkitWorldInterface.java:477 | every "minecraft:…_stained_glass" block counts as glass |
| BukkitWorldInterface.LightGlassHasNoDye | src/main/java/no/jckf/dhsupport/bukkit/BukkitWorldInterface.java:489-491 | light blue and light gray glass give the colour name "LIGHT", which names no dye, so the dye lookup throws |
| BukkitWorldInterface.ColourNameNamesEveryDye | src/main/java/no/jckf/dhsupport/bukkit/BukkitWorldInterface.java:489-491 | the corrected colour name of every dye's glass and glass pane is that dye |
| BukkitWorldInterface.ColourNamesAgreeOnOneWord | src/main/java/no/jckf/dhsupport/bukkit/BukkitWorldInterface.java:489 | for one-word dye names, the corrected colour name agrees with the code as written |
| BukkitWorldInterface.ColourNameAsWritten | src/main/java/no/jckf/dhsupport/bukkit/BukkitWorldInterface.java:489 | the colour name is one token, upper-cased and free of ':' and '_', shorter than the material name |
| BukkitWorldInterface.ColourName | src/main/java/no/jckf/dhsupport/bukkit/BukkitWorldInterface.java:489 | the corrected colour name is upper-cased and no longer than the material name |
| BukkitWorldInterface.Column | src/main/java/no/jckf/dhsupport/bukkit/BukkitWorldInterface.java:470-475 | the blocks above the beacon are read from y + 1 up to the top of the world, in order |
| BukkitWorldInterface.Average | src/main/java/no/jckf/dhsupport/bukkit/BukkitWorldInterface.java:493-501 | averaging keeps components within 0 to 255, and a colour averaged with itself is unchanged |
| BukkitWorldInterface.MixOf | src/main/java/no/jckf/dhsupport/bukkit/BukkitWorldInterface.java:487-501 | the mix of valid dye colours is a valid colour, and there is no mix only when no block examined was glass |
| BukkitWorldInterface.AwtRgb | src/main/java/no/jckf/dhsupport/bukkit/BukkitWorldInterface.java:508 | the colour packs as an int with alpha 255: red, green and blue in the low 24 bits, and negative |
| BukkitWorldInterface.Scan | src/main/java/no/jckf/dhsupport/bukkit/BukkitWorldInterface.java:461-509 | the scan stops at the fifth non-glass block or at the top; the result is white without glass and otherwise the reference mix, and it fails exactly when the reference fails, with the same error |
| BukkitWorldInterface.BeaconColor | src/main/java/no/jckf/dhsupport/bukkit/BukkitWorldInterface.java:461-509 | that holds of the blocks above the beacon |
| BukkitWorldInterface.OneDyeKeepsItsColour | src/main/java/no/jckf/dhsupport/bukkit/BukkitWorldInterface.java:487-501 | glass of a single dye mixes to that dye's colour however many blocks there are |
| BukkitWorldInterface.GetChunk | src/main/java/no/jckf/dhsupport/bukkit/BukkitWorldInterface.java:135-151 | a cached snapshot is returned as is; otherwise a fresh one is loaded and cached; no other entry changes |
| BukkitWorldInterface.GetChunkIsStable | src/main/java/no/jckf/dhsupport/bukkit/BukkitWorldInterface.java:142-143 | asking for the same chunk twice gives the same snapshot and leaves the cache alone |
| PacketSender.ReadByte | common/src/main/java/com/seibel/distanthorizons/common/AbstractPluginPacketSender.java:63 | a byte reads back as the signed value between -128 and 127 with the same low 8 bits |
| PacketSender.ReadShort | common/src/main/java/com/seibel/distanthorizons/common/AbstractPluginPacketSender.java:63 | two bytes read back, big-endian, as the signed value between -32768 and 32767 with the same low 16 bits |
| PacketSender.ReadUnsignedShort | common/src/main/java/com/seibel/distanthorizons/common/AbstractPluginPacketSender.java:69 | two bytes read back, big-endian, as the value between 0 and 65535 whose high and low bytes they are |
| PacketSender.ByteRoundTrip | common/src/main/java/com/seibel/distanthorizons/common/AbstractPluginPacketSender.java:63-103 | a version written as a byte reads back as itself exactly when it lies in -128 to 127 |
| PacketSender.ShortRoundTrip | common/src/main/java/com/seibel/distanthorizons/common/AbstractPluginPacketSender.java:63-113 | a value written as a short reads back as itself, signed, exactly when it lies in -32768 to 32767, and unsigned exactly when it lies in 0 to 65535 |
| PacketSender.Decode | common/src/main/java/com/seibel/distanthorizons/common/AbstractPluginPacketSender.java:55-94 | a message is incompatible exactly when its version field is there and differs from the protocol version; a decoded message is what the body decoder makes of the bytes after the id, with nothing left unread |
| PacketSender.DecodeMessage | common/src/main/java/com/seibel/distanthorizons/common/AbstractPluginPacketSender.java:55-94 | decoding reads the buffer's readable bytes and always leaves the reader index at the end of the buffer |
| PacketSender.Encode | common/src/main/java/com/seibel/distanthorizons/common/AbstractPluginPacketSender.java:96-129 | encoding writes the version field after what the buffer already holds, and fails only when both the message's body and the close-reason message's body fail to encode |
| PacketSender.FrameFields | common/src/main/java/com/seibel/distanthorizons/common/AbstractPluginPacketSender.java:101-114 | a framed message starts with the version, then the registry id as an unsigned short, then the body |
| PacketSender.RoundTrip | common/src/main/java/com/seibel/distanthorizons/common/AbstractPluginPacketSender.java:55-114 | encoding a message whose codec round-trips and decoding the bytes gives the message back |
| PacketSender.TrailingBytesRejected | common/src/main/java/com/seibel/distanthorizons/common/AbstractPluginPacketSender.java:72-75 | any bytes after a message's body make the decode a protocol error, raised after the message was created |
| PacketSender.WideVersionIsIncompatible | common/src/main/java/com/seibel/distanthorizons/common/AbstractPluginPacketSender.java:63-67 | a version too wide for its field reads back as a different version, so a sender's own messages are incompatible to itself |
| PacketSender.FlagsMustAgree | common/src/main/java/com/seibel/distanthorizons/common/AbstractPluginPacketSender.java:63-107 | a sender and a receiver that disagree on the one-byte version field see each other's messages as incompatible |
| PacketSender.FailedBodySendsCloseReason | common/src/main/java/com/seibel/distanthorizons/common/AbstractPluginPacketSender.java:116-128 | a message whose body fails to encode is replaced, after the version, by the close-reason message "Internal error on other side", which the other side decodes |
| ChunkLoader.BlockIndexIsBijective | common/src/main/java/com/seibel/distanthorizons/common/wrappers/worldGeneration/mimicObject/ChunkLoader.java:602-609 | the light index relY·256 + relZ·16 + relX numbers the 4096 blocks of a section one to one |
| ChunkLoader.Nibble | common/src/main/java/com/seibel/distanthorizons/common/wrappers/worldGeneration/mimicObject/ChunkLoader.java:630-640 | a nibble read succeeds exactly when its byte is inside the array, and is below 16 |
| ChunkLoader.NibbleOfPacked | common/src/main/java/com/seibel/distanthorizons/common/wrappers/worldGeneration/mimicObject/ChunkLoader.java:630-640 | reading nibble i of values packed two to a byte, low nibble first, gives value i back |
| ChunkLoader.LightValue | common/src/main/java/com/seibel/distanthorizons/common/wrappers/worldGeneration/mimicObject/ChunkLoader.java:610-615 | an empty array gives light 0, or full sky light when sky data was found at or below; otherwise the nibble at the block's index, never above 15 |
| ChunkLoader.ArrayLight | common/src/main/java/com/seibel/distanthorizons/common/wrappers/worldGeneration/mimicObject/ChunkLoader.java:602-620 | a section's light values are read in index order, and the read throws exactly when a non-empty array is too short for them |
| ChunkLoader.ReadSection | common/src/main/java/com/seibel/distanthorizons/common/wrappers/worldGeneration/mimicObject/ChunkLoader.java:589-623 | a section missing either light array is skipped |
| ChunkLoader.ReadLight | common/src/main/java/com/seibel/distanthorizons/common/wrappers/worldGeneration/mimicObject/ChunkLoader.java:547-566 | a chunk without a sections list, or with sections that are not a list, has no light storage; otherwise there is one entry per section |
| ChunkLoader.SectionLightRule | common/src/main/java/com/seibel/distanthorizons/common/wrappers/worldGeneration/mimicObject/ChunkLoader.java:574-623 | once all sections have read, each one is skipped when an array is missing, and otherwise holds, for every block, the nibble of its arrays, 0 for an empty array, and full sky light for an empty sky array at or above a section with sky data |
| ChunkLoader.AllCompoundReads | common/src/main/java/com/seibel/distanthorizons/common/wrappers/worldGeneration/mimicObject/ChunkLoader.java:574-585 | with arrays long enough, reading never throws, and yields storage exactly when every section is a compound tag |
| ChunkLoader.WorldYPlacement | common/src/main/java/com/seibel/distanthorizons/common/wrappers/worldGeneration/mimicObject/ChunkLoader.java:617-619 | block (x, relY, z) of section k is stored at world height relY + 16k + the minimum build height |
| ChunkLoader.EmptySkyAboveSkyIsFullLight | common/src/main/java/com/seibel/distanthorizons/common/wrappers/worldGeneration/mimicObject/ChunkLoader.java:596-615 | an empty sky array below any sky data is dark, and one above sky data is at full sky light |
| ChunkLoader.StoredPositionAccepted | common/src/main/java/com/seibel/distanthorizons/common/wrappers/worldGeneration/mimicObject/ChunkLoader.java:127-153 | a stored chunk is accepted exactly when its position, missing coordinates reading as 0, is the expected one or (0, 0) |
| ChunkLoader.ReadChunkType | common/src/main/java/com/seibel/distanthorizons/common/wrappers/worldGeneration/mimicObject/ChunkLoader.java:410-427 | the chunk type is the one the stored status names, and a proto-chunk when the status is missing or unknown |
| ChunkLoader.ReadHeader | common/src/main/java/com/seibel/distanthorizons/common/wrappers/worldGeneration/mimicObject/ChunkLoader.java:119-160 | a misplaced chunk reads as null, and any other gives the type of its stored status |
| ChunkWrapper.MinNonEmptyFrom | common/src/main/java/com/seibel/distanthorizons/common/wrappers/chunk/ChunkWrapper.java:184-201 | the bottom-up scan gives the bottom of the lowest section that is present and not only air, and the bottom of the world when there is none |
| ChunkWrapper.MaxNonEmptyBelow | common/src/main/java/com/seibel/distanthorizons/common/wrappers/chunk/ChunkWrapper.java:216-236 | the top-down scan gives the top of the highest non-empty section; with every section empty it gives the top of section 0, not the build height |
| ChunkWrapper.NonEmptyWithinBounds | common/src/main/java/com/seibel/distanthorizons/common/wrappers/chunk/ChunkWrapper.java:176-250 | every non-empty section lies between the two bounds |
| ChunkWrapper.NewWrapper | common/src/main/java/com/seibel/distanthorizons/common/wrappers/chunk/ChunkWrapper.java:105-108 | a new wrapper has nothing cached and no light list |
| ChunkWrapper.GetMinNonEmptyHeight | common/src/main/java/com/seibel/distanthorizons/common/wrappers/chunk/ChunkWrapper.java:176-204 | the cached minimum is the scan's value, and caching it touches nothing else |
| ChunkWrapper.GetMaxNonEmptyHeight | common/src/main/java/com/seibel/distanthorizons/common/wrappers/chunk/ChunkWrapper.java:207-239 | the cached maximum is the scan's value, and caching it touches nothing else |
| ChunkWrapper.RepeatedHeightsAgree | common/src/main/java/com/seibel/distanthorizons/common/wrappers/chunk/ChunkWrapper.java:178-181 | asking again gives the same height, and once a height is cached the wrapper no longer changes |
| ChunkWrapper.GetWorldBlockLightPosList | common/src/main/java/com/seibel/distanthorizons/common/wrappers/chunk/ChunkWrapper.java:411-439 | the first call fills the list from the chunk's light sources; later calls return that list unchanged |
| ChunkWrapper.LightListIsStable | common/src/main/java/com/seibel/distanthorizons/common/wrappers/chunk/ChunkWrapper.java:413-416 | whatever the light sources at a later call, it returns the first list |
| ChunkWrapper.DoNearbyChunksExist | common/src/main/java/com/seibel/distanthorizons/common/wrappers/chunk/ChunkWrapper.java:505-528 | a lit generation region always has its neighbours; otherwise the answer is true exactly when all 8 chunks around this one are present |
| BiomeWrapper.EqualityFollowsSerial | common/src/main/java/com/seibel/distanthorizons/common/wrappers/block/BiomeWrapper.java:148-165 | wrappers with equal serial strings hash alike, and a wrapper built without a level equals the empty wrapper although it wraps a biome |
| BiomeWrapper.Serialize | common/src/main/java/com/seibel/distanthorizons/common/wrappers/block/BiomeWrapper.java:182-236 | the serial string is "EMPTY" without a level, "" for a biome the registry has no name for, and otherwise "namespace:path", whose first ':' follows the namespace when the namespace has none |
| BiomeWrapper.NewWrapper | common/src/main/java/com/seibel/distanthorizons/common/wrappers/block/BiomeWrapper.java:118-124 | a new wrapper wraps its biome and carries the serial string computed when it was made |
| BiomeWrapper.GetBiomeWrapper | common/src/main/java/com/seibel/distanthorizons/common/wrappers/block/BiomeWrapper.java:99-116 | null gives the empty wrapper; a biome seen before gives the wrapper made then; a new biome gets a new wrapper, which is remembered, and nothing else changes |
| BiomeWrapper.SameBiomeSameWrapper | common/src/main/java/com/seibel/distanthorizons/common/wrappers/block/BiomeWrapper.java:99-116 | the same biome always gives the same wrapper, whatever level a later call passes, and every remembered wrapper wraps its own biome |
| BiomeWrapper.Deserialize | common/src/main/java/com/seibel/distanthorizons/common/wrappers/block/BiomeWrapper.java:238-303 | "EMPTY" and blank strings give the empty wrapper; a string without ':' is an IO error; a wrapper returned wraps the biome the level's registry names by the text before and after the first ':' |
| BiomeWrapper.SerialRoundTrip | common/src/main/java/com/seibel/distanthorizons/common/wrappers/block/BiomeWrapper.java:182-297 | a wrapper's serial string deserialises to that same wrapper when the namespace has no ':', the name is a valid resource location and the level resolves it back to the biome |
| BiomeWrapper.SplitAtFirstColon | common/src/main/java/com/seibel/distanthorizons/common/wrappers/block/BiomeWrapper.java:258-263 | "a:b:c" is read as namespace "a" and path "b:c" |
| Relocation.MatchLengthMeans | buildSrc/src/main/java/RelocateNatives.java:118-124 | the inner loop stops at the length of the longest prefix of the target found at the start: the whole target exactly when it occurs there, and otherwise just before the first differing byte |
| Relocation.NullFromMeans | buildSrc/src/main/java/RelocateNatives.java:131-136 | the terminator found is the first null byte after the match, and there is none exactly when no null byte follows |
| Relocation.ShiftedOutside | buildSrc/src/main/java/RelocateNatives.java:128-137 | a replacement writes the replacement at the match and changes nothing before the match or after the old terminator |
| Relocation.ShiftedEqualLength | buildSrc/src/main/java/RelocateNatives.java:128-137 | with a replacement as long as the target, the string is the same with the match replaced |
| Relocation.ScanFrom | buildSrc/src/main/java/RelocateNatives.java:116-139 | the scan keeps the array's length, and its only failure is reading past the end after a match that no null byte follows |
| Relocation.ScanKeepsPrefix | buildSrc/src/main/java/RelocateNatives.java:116-139 | the scan never changes a byte before the position it starts from |
| Relocation.ReplaceAsWritten | buildSrc/src/main/java/RelocateNatives.java:104-140 | a replacement longer than the target is refused with an illegal-argument error, and nothing else is; a result keeps the array's length |
| Relocation.MissedOccurrence | buildSrc/src/main/java/RelocateNatives.java:116-124 | in "oorg_sqlite" followed by two nulls, the occurrence at offset 1 is left unrenamed, because the scan resumes after the byte that ended the partial match at offset 0 |
| Relocation.PartialMatchAtZero | buildSrc/src/main/java/RelocateNatives.java:116-124 | the partial match at offset 0 of that string is one byte long |
| Relocation.Replace | buildSrc/src/main/java/NativeRelocator.java:96-140 | the corrected routine fails in the same cases and keeps the array's length |
| Relocation.OccurrenceFound | buildSrc/src/main/java/NativeRelocator.java:96-103 | corrected, that occurrence is renamed to "dh_1sqlite" |
| Relocation.EqualLengthChangesOnlyMatches | buildSrc/src/main/java/RelocateNatives.java:116-139 | with a replacement as long as the target, the result differs from the input only inside occurrences, each overwritten by the replacement |
| Relocation.MismatchesBefore | buildSrc/src/main/java/RelocateNatives.java:116-124 | the corrected scan passes over starts where the target does not occur without changing anything |
| Relocation.MatchReplaced | buildSrc/src/main/java/RelocateNatives.java:126-138 | where the scan meets an occurrence, the result keeps everything before it and carries the replacement at it |
| Relocation.UnterminatedMatchThrows | buildSrc/src/main/java/RelocateNatives.java:131-134 | an occurrence that no null byte follows makes the scan read past the array and throw |
| Relocation.FirstOccurrenceReplaced | buildSrc/src/main/java/NativeRelocator.java:96-140 | the corrected routine renames the first occurrence of the target, keeping everything before it, or throws when no null byte follows it |
| Relocation.Ascii | buildSrc/src/main/java/RelocateNatives.java:111-112 | a string's US-ASCII bytes are one per character, each ASCII character its own code |
| Relocation.MovedThenNull | buildSrc/src/main/java/RelocateNatives.java:130-137 | moving the string's tail left and writing a null where it ends gives the replaced string |
| Relocation.CopyAndMove | buildSrc/src/main/java/RelocateNatives.java:126-138 | the copy-and-move step finds the old terminator exactly when there is one, and then leaves the replaced string |
| Relocation.ReplaceInByteArray | buildSrc/src/main/java/RelocateNatives.java:104-140 | the loops compute, step for step, the scan as written (or, with every start tried, the corrected one) |
| Relocation.ProcessNative | buildSrc/src/main/java/RelocateNatives.java:142-156 | renaming the JNI prefix and then the class path with the scan as written keeps the binary's length, and fails only by reading past the end |
| Relocation.FirstPassChangesOnlyMatches | buildSrc/src/main/java/RelocateNatives.java:153 | the JNI renaming, with the scan as written and with the corrected one, changes only bytes inside the occurrences of "org_sqlite" it renamed |
| Relocation.ProcessNativeCorrected | buildSrc/src/main/java/RelocateNatives.java:142-156 | with the corrected scan, the two passes likewise keep the length and fail only by reading past the end |
| Relocation.ProcessNativeMissesOccurrence | buildSrc/src/main/java/RelocateNatives.java:153-154 | for "oorg_sqlite" followed by two nulls, the passes as written leave the bytes unchanged, while the corrected passes rename the occurrence |

## Left out

- Futures, the scheduler, threads and locks are left out. `queueBuilder`, `touchLod` and `updateTouchedLods` are sequential state transitions, and a build's completion is a separate step.
- The database, the network, file and process I/O, logging and metrics are left out. Stored LODs, plugin channels and the native files appear as values or parameters.
- Reflection is left out: `getBuilder`'s class lookup, `doUnsafeThings` and the reflective coordinate-scale method. The scale is modelled only through its fallback.
- Floating point is left out:
  - `getProgress` is not modelled. Only the completed-request count it divides is modelled.
  - The border size and coordinate scale are integers before the cast, and the cast is modelled as `Saturate32`.
- Timing and throttling are left out: the pre-generator's rate limit and sleeps, and the timestamps of stored LODs, which are inputs.
- The message encoder and decoder, `Coordinates`, `Lod`, `IdMapping`, `MessageRegistry`, `ModInfo` and `LodModel` are not part of this model. The encoder is a token stream, the codecs are parameters, and the coordinate conversions are functions passed in.
- Plain setter/getter pairs of the messages are not modelled as operations. They are datatype fields and updates, so they return the value last set by construction.
- The Minecraft version conditionals are left out. The model follows the newest branch. `tagGetLong` is not modelled: it is a version switch between `getInt` and `getLong(...).orElse(0)`.
- Parts of `ChunkLoader.read` are left out: blending data, heightmaps, block and biome palettes, and structure references. Only the position check, the chunk status and the light arrays are modelled.
- The client light-update queue of `ChunkWrapper` is left out, along with the Minecraft calls behind its light sources. The sources are a parameter.
- Minecraft's resource-location validity test is a parameter of `BiomeWrapper.Deserialize`. The client and level registries are functions.
- `isBeacon`, `chunkExists`, `getHighestYAt`, `getMaterialAt` and the other one-line Bukkit pass-throughs are oracle parameters. `getLod`'s chunk loading and beacon collection run Minecraft's engine and are left out.
- `processNative`'s cache lookup and its rewrite through an external Python and LIEF script are left out. Only its two in-place replacements are modelled.
- Relocation does not model the partial writes made before an `ArrayIndexOutOfBoundsException`. The model returns the error, not the half-written array.
- Relocation compares byte lengths. The source compares the Java strings' UTF-16 lengths, which are the same for the ASCII targets used.
- `encodeMessage`'s `Objects.requireNonNull(message)` is left out: a message is a value, never null.
- Wrap-around is left out in two places: the spiral walk's section coordinates and the builder's world coordinates are unbounded integers. Both stay far from the int range for any world Bukkit can load.
- `FastOverworldBuilder.ScanColumn` and `FastOverworldBuilder.BuildColumn` take a fuel bound. The scan loop's termination depends on what the world oracle returns. With too little fuel the column is cut short, which the source never does.
- LodHandler.OutsideBorderMeansDisjoint is stated only for border and world coordinates whose additions do not overflow `int`. The predicate itself models the wrapping sums.
- DhSupport.DistanceIsExact is stated only for chunk coordinates (block coordinates shifted right by 4). For arbitrary ints the subtraction may wrap, and the model's `Distance` wraps as the source does.
- PacketSender.FailedBodySendsCloseReason leaves out the notification of the session. It only states the rewound buffer and the close-reason body.
- FastOverworldBuilder.PlaceAppends stores each data point as a record of whole numbers holding the start Y and height the builder sets, which is the corrected `setMappingId`. As written, `setMappingId` (DataPoint.java:48-53) zeroes the start Y and the height of every point it creates, and only the air fill sets them again, so a later merge leaves a start Y of minus the step (DataPoint.BuilderPointAsWritten). The record also leaves out the 12-bit and 4-bit field widths.
- FastOverworldBuilder.PlaceKeepsStack holds for that corrected record only. As written, a non-air point created by `setMappingId` does not stack below its neighbour, because its start Y and height read 0.
- FastOverworldBuilder.PlaceKeepsLabels labels the corrected record. As written, the label's id is right but the start Y and height it is attached to read 0.
- FastOverworldBuilder.PlaceKeepsInside bounds the corrected record. As written, a merged point's start Y is minus the step, below the world.
- FastOverworldBuilder.ScanKeepsInv states the scan's invariant for the corrected record, not for the word as written.
- FastOverworldBuilder.ColumnShape describes a column of corrected records. Its stacking, labelling and bounds do not hold for the points as written, whose start Y and height `setMappingId` zeroes; only the ids read back intact.
- FastOverworldBuilder.FirstSample gives the first point the start Y and height the builder sets, which as written survive only for the air fill.
- Utils.UcFirst works on characters. Java's `substring(0, 1)` works on UTF-16 code units, so for a string that starts with a surrogate pair the source upper-cases half a pair.
- PacketSender.Encode takes the message id from a total function. `MessageRegistry.getMessageId` throws for a class that was never registered, and that exception is not modelled.

## Findings

| source | as written | input that shows it | evidently intended | confidence | as-written member | corrected member |
|---|---|---|---|---|---|---|
| src/main/java/no/jckf/dhsupport/core/dataobject/DataPoint.java:48-53 | `setMappingId` clears `~((long) MAPPING_ID_MASK << 0)`. The int mask widens to -1, so the whole word is cleared and then or-ed with the sign-extended id. | height 1 and startY 1, then `setMappingId(1)`: both read back as 0; so does every non-air point the LOD builder creates | clear only bits 0-31 and keep the other four fields | high, not executed | DataPoint.SetMappingIdErasesEarlierFields | DataPoint.MaskedSetterKeepsEarlierFields |
| src/main/java/no/jckf/dhsupport/bukkit/BukkitWorldInterface.java:221-224 | the vanilla-border expansion is read with `getString`, then, unless it is "auto", with `getInt`. A number fails the string cast and any other string fails the int cast. | expansion configured as the integer 16 | add `chunkToBlock(expansion)` for a numeric expansion | high, not executed | BukkitWorldInterface.BorderRadiusAsWrittenRejectsExpansion | BukkitWorldInterface.BorderRadiusHonoursExpansion |
| src/main/java/no/jckf/dhsupport/bukkit/BukkitWorldInterface.java:489-491 | the colour is the second token of `split("[:_]")`, so the light blue and light gray glass give "LIGHT", which `DyeColor.valueOf` rejects | `minecraft:light_blue_stained_glass` | the whole dye name between the namespace and the `_stained_glass` suffix | high, not executed | BukkitWorldInterface.LightGlassHasNoDye | BukkitWorldInterface.ColourNameNamesEveryDye |
| src/main/java/no/jckf/dhsupport/core/DhSupport.java:416-421 | the partial-update level key is built from `world.getName()`. The login message built it from `getKey()`, the sanitised name (PlayerConfigHandler.java:59-64). | a world named "my world" | the same key as the login message | medium, not executed | DhSupport.UpdateLevelKeyAsWrittenMismatch | DhSupport.UpdateLevelKeyMatchesLogin |
| src/main/java/no/jckf/dhsupport/core/lodbuilders/FastOverworldBuilder.java:74-92 | `yStep` is a variable outside the column loop. A column that drops it to 1 and never reaches a restore point hands step 1 to the next column. | a 2-wide section of identical stone-layer columns at resolution 2: the second column differs from the first | every column starts at the configured resolution (`originalStep`) | medium, not executed | FastOverworldBuilder.ResolutionLeaksIntoNextColumn | FastOverworldBuilder.ConfiguredResolutionPerColumn |
| buildSrc/src/main/java/RelocateNatives.java:116-124 | after a partial match the outer loop resumes after the mismatching byte, so an occurrence that starts inside the partial match is skipped | "oorg_sqlite" followed by two nulls: the output equals the input | replace every occurrence of the target, trying every start | high, not executed | Relocation.MissedOccurrence | Relocation.OccurrenceFound |
