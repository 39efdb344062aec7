/** The plugin's message encoder and decoder, which are not part of this
    model, as a stream of typed tokens: each `writeX` appends one token and
    the matching `readX` consumes it, so each read is the inverse of its
    write by construction. Reading the wrong kind of token, or reading
    past the end, is a decode error. */
module TokenStream {
  import opened Wrappers
  import opened JavaInt

  datatype Token =
    | BoolToken(b: bool)
    | IntToken(i: int32)
    | LongToken(l: int64)
    | ShortStringToken(s: string)
    | StringToken(s: string)
    | PresenceToken(present: bool)   // the marker `writeOptional` emits
    | RawToken(bytes: seq<byte>)     // `write(byte[])`: verbatim, no length prefix

  type Stream = seq<Token>

  datatype Read<T> = Read(value: T, rest: Stream)

  function ReadBool(s: Stream): (r: Result<Read<bool>>)
    ensures r.Ok? <==> (|s| > 0 && s[0].BoolToken?)
    ensures r.Ok? ==> s == [BoolToken(r.value.value)] + r.value.rest
  {
    if |s| > 0 && s[0].BoolToken? then Ok(Read(s[0].b, s[1..])) else Err(IO("expected a boolean"))
  }

  function ReadInt(s: Stream): (r: Result<Read<int32>>)
    ensures r.Ok? <==> (|s| > 0 && s[0].IntToken?)
    ensures r.Ok? ==> s == [IntToken(r.value.value)] + r.value.rest
  {
    if |s| > 0 && s[0].IntToken? then Ok(Read(s[0].i, s[1..])) else Err(IO("expected an int"))
  }

  function ReadLong(s: Stream): (r: Result<Read<int64>>)
    ensures r.Ok? <==> (|s| > 0 && s[0].LongToken?)
    ensures r.Ok? ==> s == [LongToken(r.value.value)] + r.value.rest
  {
    if |s| > 0 && s[0].LongToken? then Ok(Read(s[0].l, s[1..])) else Err(IO("expected a long"))
  }

  function ReadShortString(s: Stream): (r: Result<Read<string>>)
    ensures r.Ok? <==> (|s| > 0 && s[0].ShortStringToken?)
    ensures r.Ok? ==> s == [ShortStringToken(r.value.value)] + r.value.rest
  {
    if |s| > 0 && s[0].ShortStringToken? then Ok(Read(s[0].s, s[1..])) else Err(IO("expected a short string"))
  }

  function ReadString(s: Stream): (r: Result<Read<string>>)
    ensures r.Ok? <==> (|s| > 0 && s[0].StringToken?)
    ensures r.Ok? ==> s == [StringToken(r.value.value)] + r.value.rest
  {
    if |s| > 0 && s[0].StringToken? then Ok(Read(s[0].s, s[1..])) else Err(IO("expected a string"))
  }

  /** The inverse pairs, stated once for every stream that follows. */
  lemma ReadsInvertWrites(rest: Stream, b: bool, i: int32, l: int64, str: string)
    ensures ReadBool([BoolToken(b)] + rest) == Ok(Read(b, rest))
    ensures ReadInt([IntToken(i)] + rest) == Ok(Read(i, rest))
    ensures ReadLong([LongToken(l)] + rest) == Ok(Read(l, rest))
    ensures ReadShortString([ShortStringToken(str)] + rest) == Ok(Read(str, rest))
    ensures ReadString([StringToken(str)] + rest) == Ok(Read(str, rest))
  {
    assert ([BoolToken(b)] + rest)[1..] == rest;
    assert ([IntToken(i)] + rest)[1..] == rest;
    assert ([LongToken(l)] + rest)[1..] == rest;
    assert ([ShortStringToken(str)] + rest)[1..] == rest;
    assert ([StringToken(str)] + rest)[1..] == rest;
  }
}
