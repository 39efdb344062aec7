/** The plugin-channel framing of the Distant Horizons mod: a frame is the
    protocol version (one byte on loaders that put the "Forge byte" in
    front, two bytes elsewhere), a two-byte message id, and the message
    body. The message registry and the message classes' own codecs are not
    part of this model; they enter as a `Codec` of functions. Bytes are
    unsigned, and Netty's multi-byte integers are big-endian. */
module PacketSender {
  import opened Wrappers
  import opened JavaInt

  /** `writeByte`: the low 8 bits of the value. */
  function WriteByte(v: int): (r: seq<byte>)
    ensures |r| == 1
  {
    [v % 256]
  }

  /** `writeShort`: the low 16 bits of the value, high byte first. */
  function WriteShort(v: int): (r: seq<byte>)
    ensures |r| == 2
  {
    var u := v % 0x1_0000;
    [u / 256, u % 256]
  }

  /** `readByte`: one byte, sign-extended. */
  function ReadByte(b: byte): (v: int)
    ensures -128 <= v < 128 && v % 256 == b
  {
    if b < 128 then b else b - 256
  }

  /** `readUnsignedShort`: two bytes, high byte first. */
  function ReadUnsignedShort(hi: byte, lo: byte): (v: int)
    ensures 0 <= v < 0x1_0000 && v / 256 == hi && v % 256 == lo
  {
    hi * 256 + lo
  }

  /** `readShort`: two bytes, high byte first, sign-extended. */
  function ReadShort(hi: byte, lo: byte): (v: int)
    ensures -0x8000 <= v < 0x8000 && v % 0x1_0000 == ReadUnsignedShort(hi, lo)
  {
    var u := ReadUnsignedShort(hi, lo);
    if u < 0x8000 then u else u - 0x1_0000
  }

  /** A value survives a byte write and read exactly when it fits a signed byte. */
  lemma ByteRoundTrip(v: int)
    ensures ReadByte(WriteByte(v)[0]) == v <==> -128 <= v < 128
  {
  }

  /** A value survives a short write and signed read exactly when it fits a
      signed short, and an unsigned read exactly when it fits 16 unsigned bits. */
  lemma ShortRoundTrip(v: int)
    ensures var b := WriteShort(v); ReadShort(b[0], b[1]) == v <==> -0x8000 <= v < 0x8000
    ensures var b := WriteShort(v); ReadUnsignedShort(b[0], b[1]) == v <==> 0 <= v < 0x1_0000
  {
  }

  /** What the mod's message layer supplies: the registry's id of a message
      and whether an id is registered, a message's body encoder (which may
      throw) and the decoder of a registered id, which returns the message
      and the bytes it left unread. `closeReason` builds the close-reason
      message. */
  datatype Codec<!M> = Codec(
    idOf: M -> int,
    known: int -> bool,
    encodeBody: M -> Result<seq<byte>>,
    decodeBody: (int, seq<byte>) -> Result<(M, seq<byte>)>,
    closeReason: string -> M)

  const CLOSE_REASON_TEXT := "Internal error on other side"

  /** The sender's two settings: the flag and the mod's protocol version. */
  datatype Framing = Framing(forgeByte: bool, version: int)

  /** The bytes of the version field. */
  function VersionField(f: Framing): (r: seq<byte>)
  {
    if f.forgeByte then WriteByte(f.version) else WriteShort(f.version)
  }

  /** The width of the version field. */
  function VersionWidth(f: Framing): (n: nat)
    ensures n == |VersionField(f)|
  {
    if f.forgeByte then 1 else 2
  }

  /** Whether the version survives its own field. */
  predicate VersionFits(f: Framing)
  {
    if f.forgeByte then -128 <= f.version < 128 else -0x8000 <= f.version < 0x8000
  }

  /** The version a receiver reads from the front of `data`. */
  function ReadVersion(f: Framing, data: seq<byte>): int
    requires |data| >= VersionWidth(f)
  {
    if f.forgeByte then ReadByte(data[0]) else ReadShort(data[0], data[1])
  }

  /** What `decodeMessage` hands to the session. A protocol error records
      whether a message object had already been created when it failed. */
  datatype Event<M> =
    | Message(message: M)
    | Incompatible(version: int)
    | ProtocolError(created: bool)

  /** `decodeMessage` on the readable bytes of the buffer. Every exception
      (a short buffer, an unregistered id, a failing body decoder, unread
      bytes) becomes a protocol error. */
  function Decode<M>(f: Framing, codec: Codec<M>, data: seq<byte>): (e: Event<M>)
    ensures e.Incompatible? <==> |data| >= VersionWidth(f) && ReadVersion(f, data) != f.version
    ensures e.Incompatible? ==> e.version == ReadVersion(f, data)
    ensures e.Message? ==>
      |data| >= VersionWidth(f) + 2 &&
      codec.decodeBody(ReadUnsignedShort(data[VersionWidth(f)], data[VersionWidth(f) + 1]),
                       data[VersionWidth(f) + 2..]) == Ok((e.message, []))
  {
    var w := VersionWidth(f);
    if |data| < w then ProtocolError(false)
    else if ReadVersion(f, data) != f.version then Incompatible(ReadVersion(f, data))
    else if |data| < w + 2 then ProtocolError(false)
    else
      var id := ReadUnsignedShort(data[w], data[w + 1]);
      if !codec.known(id) then ProtocolError(false)
      else match codec.decodeBody(id, data[w + 2..])
        case Err(_) => ProtocolError(true)
        case Ok((m, left)) => if |left| > 0 then ProtocolError(true) else Message(m)
  }

  /** A buffer with its reader index; the writer index is the end of `data`. */
  datatype ByteBuf = ByteBuf(data: seq<byte>, readerIndex: nat)

  /** `decodeMessage` with its buffer: whatever the outcome, the buffer
      afterwards has nothing left to read and its contents are unchanged. */
  function DecodeMessage<M>(f: Framing, codec: Codec<M>, buf: ByteBuf): (r: (Event<M>, ByteBuf))
    requires buf.readerIndex <= |buf.data|
    ensures r.1.data == buf.data && r.1.readerIndex == |buf.data|
    ensures r.0 == Decode(f, codec, buf.data[buf.readerIndex..])
  {
    (Decode(f, codec, buf.data[buf.readerIndex..]), ByteBuf(buf.data, |buf.data|))
  }

  /** The id and body of a message. */
  function Framed<M>(codec: Codec<M>, m: M, body: seq<byte>): seq<byte>
  {
    WriteShort(codec.idOf(m)) + body
  }

  /** `encodeMessage` appending to `out`: the version, then the id and body
      of the message; if encoding the body throws, what was written after
      the version is dropped and a close-reason message is written instead.
      The failure of that second encoding is not caught. */
  function Encode<M>(f: Framing, codec: Codec<M>, out: seq<byte>, m: M): (r: Result<seq<byte>>)
    ensures r.Ok? ==> out + VersionField(f) <= r.value
    ensures r.Err? <==> codec.encodeBody(m).Err? && codec.encodeBody(codec.closeReason(CLOSE_REASON_TEXT)).Err?
  {
    var prefix := out + VersionField(f);
    match codec.encodeBody(m)
    case Ok(body) => Ok(prefix + Framed(codec, m, body))
    case Err(_) =>
      var close := codec.closeReason(CLOSE_REASON_TEXT);
      match codec.encodeBody(close)
      case Ok(body) => Ok(prefix + Framed(codec, close, body))
      case Err(e) => Err(e)
  }

  /** The message codec round-trips `m`: its id is registered, fits the id
      field, and the decoder reads the encoded body back to `m`, leaving any
      bytes after it unread. */
  ghost predicate CodecRoundTrips<M>(codec: Codec<M>, m: M, body: seq<byte>)
  {
    codec.encodeBody(m) == Ok(body) &&
    0 <= codec.idOf(m) < 0x1_0000 && codec.known(codec.idOf(m)) &&
    forall extra: seq<byte> :: codec.decodeBody(codec.idOf(m), body + extra) == Ok((m, extra))
  }

  /** Reading a frame back: the version, then the id, then the body. */
  lemma FrameFields<M>(f: Framing, codec: Codec<M>, m: M, body: seq<byte>, extra: seq<byte>)
    requires VersionFits(f) && 0 <= codec.idOf(m) < 0x1_0000
    ensures var data := VersionField(f) + Framed(codec, m, body) + extra;
      var w := VersionWidth(f);
      |data| >= w + 2 && ReadVersion(f, data) == f.version &&
      ReadUnsignedShort(data[w], data[w + 1]) == codec.idOf(m) && data[w + 2..] == body + extra
  {
    var data := VersionField(f) + Framed(codec, m, body) + extra;
    var w := VersionWidth(f);
    ByteRoundTrip(f.version);
    ShortRoundTrip(f.version);
    ShortRoundTrip(codec.idOf(m));
    assert data[w..w + 2] == WriteShort(codec.idOf(m));
    assert data[w + 2..] == body + extra;
  }

  /** Decode after encode: with the same flag on both sides, a version that
      fits its field and a message codec that round-trips, the receiver
      gets the message back. */
  lemma RoundTrip<M>(f: Framing, codec: Codec<M>, m: M, body: seq<byte>)
    requires VersionFits(f) && CodecRoundTrips(codec, m, body)
    ensures Encode(f, codec, [], m) == Ok(VersionField(f) + Framed(codec, m, body))
    ensures Decode(f, codec, VersionField(f) + Framed(codec, m, body)) == Message(m)
  {
    FrameFields(f, codec, m, body, []);
    assert [] + VersionField(f) == VersionField(f);
    var data := VersionField(f) + Framed(codec, m, body);
    assert data + [] == data;
    assert body + [] == body;
    assert codec.decodeBody(codec.idOf(m), body + []) == Ok((m, []));
  }

  /** Bytes after a well-formed message make the whole frame a protocol
      error, reported after the message was created. */
  lemma TrailingBytesRejected<M>(f: Framing, codec: Codec<M>, m: M, body: seq<byte>, extra: seq<byte>)
    requires VersionFits(f) && CodecRoundTrips(codec, m, body) && |extra| > 0
    ensures Decode(f, codec, VersionField(f) + Framed(codec, m, body) + extra) == ProtocolError(true)
  {
    FrameFields(f, codec, m, body, extra);
    assert codec.decodeBody(codec.idOf(m), body + extra) == Ok((m, extra));
  }

  /** A version that does not fit its field comes back truncated, and the
      receiver rejects every frame of this sender as incompatible. */
  lemma WideVersionIsIncompatible<M>(f: Framing, codec: Codec<M>, m: M)
    requires !VersionFits(f) && Encode(f, codec, [], m).Ok?
    ensures Decode(f, codec, Encode(f, codec, [], m).value) == Incompatible(ReadVersion(f, VersionField(f)))
  {
    var data := Encode(f, codec, [], m).value;
    ByteRoundTrip(f.version);
    ShortRoundTrip(f.version);
    assert data[..VersionWidth(f)] == VersionField(f);
  }

  /** The flag must agree on both sides: with a version between 1 and 127,
      a receiver reading one version byte from a two-byte field reads 0,
      and a receiver reading two bytes from a one-byte field reads at least
      256, so either way the frame is incompatible. */
  lemma FlagsMustAgree<M>(version: int, codec: Codec<M>, m: M)
    requires 1 <= version < 128 && Encode(Framing(false, version), codec, [], m).Ok?
      && Encode(Framing(true, version), codec, [], m).Ok?
    ensures Decode(Framing(true, version), codec, Encode(Framing(false, version), codec, [], m).value) == Incompatible(0)
    ensures Decode(Framing(false, version), codec, Encode(Framing(true, version), codec, [], m).value).Incompatible?
  {
    var two := Encode(Framing(false, version), codec, [], m).value;
    var one := Encode(Framing(true, version), codec, [], m).value;
    assert two[0] == 0;
    assert one[0] == version;
    assert ReadVersion(Framing(false, version), one) >= 256;
  }

  /** A body that fails to encode is replaced, after the version, by the
      close-reason message, which the receiver then decodes. */
  lemma FailedBodySendsCloseReason<M>(f: Framing, codec: Codec<M>, m: M, closeBody: seq<byte>)
    requires codec.encodeBody(m).Err?
    requires VersionFits(f) && CodecRoundTrips(codec, codec.closeReason(CLOSE_REASON_TEXT), closeBody)
    ensures Encode(f, codec, [], m) == Ok(VersionField(f) + Framed(codec, codec.closeReason(CLOSE_REASON_TEXT), closeBody))
    ensures Decode(f, codec, Encode(f, codec, [], m).value) == Message(codec.closeReason(CLOSE_REASON_TEXT))
  {
    RoundTrip(f, codec, codec.closeReason(CLOSE_REASON_TEXT), closeBody);
  }
}
