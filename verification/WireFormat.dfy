/**
 Confluent framing of src/wire.rs: the two wire prefixes, plain and Protobuf
 frames, the Kafka-header form of the prefix, and the detection of a frame's
 format from its bytes.
 */
module WireFormat {
  import opened Integers
  import opened Prelude
  import opened ByteBuffers
  import opened MessageIndex
  import opened GlueFormat

  const MAGIC_BYTE_V0: byte := 0x00
  const MAGIC_BYTE_V1: byte := 0x01
  const PREFIX_LEN_V0 := 5
  const PREFIX_LEN_V1 := 17

  datatype SchemaKey = Id(id: u32) | Guid(guid: Uuid)

  datatype WireError = Empty | PrefixTooShort | BadMagic | BadIndexes(error: IndexError) | TrailingBytes

  // ── The prefix ──────────────────────────────────────────────────────────

  /** Four bytes, most significant first. */
  function BigEndian(n: u32): seq<byte> {
    var b0: int, b1: int, b2: int, b3: int := n / 0x100_0000, n / 0x1_0000 % 0x100, n / 0x100 % 0x100, n % 0x100;
    [b0, b1, b2, b3]
  }

  function FromBigEndian(b: seq<byte>): u32
    requires |b| == 4
  {
    var b0: int, b1: int, b2: int, b3: int := b[0], b[1], b[2], b[3];
    b0 * 0x100_0000 + b1 * 0x1_0000 + b2 * 0x100 + b3
  }

  lemma BigEndianInverse(n: u32, b: seq<byte>)
    requires |b| == 4
    ensures FromBigEndian(b) == n <==> b == BigEndian(n)
  {
    var b0: int, b1: int, b2: int, b3: int := b[0], b[1], b[2], b[3];
    assert n / 0x1_0000 == n / 0x100 / 0x100 && n / 0x100_0000 == n / 0x1_0000 / 0x100;
    if FromBigEndian(b) == n {
      assert n == 0x100 * (b0 * 0x1_0000 + b1 * 0x100 + b2) + b3;
      assert n / 0x100 == 0x100 * (b0 * 0x100 + b1) + b2;
      assert n / 0x1_0000 == 0x100 * b0 + b1;
    }
  }

  /** The bytes that name a schema in front of a payload. */
  function Prefix(key: SchemaKey): seq<byte> {
    match key
    case Id(id) => [MAGIC_BYTE_V0] + BigEndian(id)
    case Guid(guid) => [MAGIC_BYTE_V1] + guid
  }

  /** On the wire an ID is a zero byte and its four bytes, the first the most
      significant, and a GUID is a one byte and its sixteen bytes as they stand. */
  lemma PrefixBytes(id: u32, guid: Uuid)
    ensures var p := Prefix(Id(id));
      && |p| == 5 && p[0] == 0x00
      && var b0: int, b1: int, b2: int, b3: int := p[1], p[2], p[3], p[4];
         id == 0x100_0000 * b0 + 0x1_0000 * b1 + 0x100 * b2 + b3
    ensures Prefix(Guid(guid)) == [0x01] + guid
  {
    var b := BigEndian(id);
    BigEndianInverse(id, b);
    var b0: int, b1: int, b2: int, b3: int := b[0], b[1], b[2], b[3];
    assert id == b0 * 0x100_0000 + b1 * 0x1_0000 + b2 * 0x100 + b3;
    assert Prefix(Id(id))[1..] == b;
  }

  method PutPrefix(buf: ByteBuffer, key: SchemaKey)
    modifies buf
    ensures buf.bytes == old(buf.bytes) + Prefix(key)
  {
    match key {
      case Id(id) =>
        buf.PutU8(MAGIC_BYTE_V0);
        buf.PutSlice(BigEndian(id));
      case Guid(guid) =>
        buf.PutU8(MAGIC_BYTE_V1);
        buf.PutSlice(guid);
    }
  }

  /** The key at the start of `data` and the bytes it takes. */
  function DecodeWirePrefix(data: seq<byte>): Result<(SchemaKey, nat), WireError> {
    if data == [] then Err(Empty)
    else if data[0] == MAGIC_BYTE_V0 then
      if |data| < PREFIX_LEN_V0 then Err(PrefixTooShort)
      else Ok((Id(FromBigEndian(data[1..5])), PREFIX_LEN_V0))
    else if data[0] == MAGIC_BYTE_V1 then
      if |data| < PREFIX_LEN_V1 then Err(PrefixTooShort)
      else Ok((Guid(data[1..PREFIX_LEN_V1]), PREFIX_LEN_V1))
    else Err(BadMagic)
  }

  /** Decoding accepts exactly the data that begin with the prefix of a key. */
  lemma PrefixExact(data: seq<byte>, key: SchemaKey)
    ensures DecodeWirePrefix(data) == Ok((key, |Prefix(key)|)) <==> Prefix(key) <= data
  {
    var prefix := Prefix(key);
    match key {
      case Id(id) =>
        assert prefix[1..] == BigEndian(id) && |prefix| == PREFIX_LEN_V0;
        if |data| >= PREFIX_LEN_V0 {
          BigEndianInverse(id, data[1..5]);
          assert data[..5] == [data[0]] + data[1..5];
        }
      case Guid(guid) =>
        assert prefix[1..] == guid && |prefix| == PREFIX_LEN_V1;
        if |data| >= PREFIX_LEN_V1 {
          assert data[..17] == [data[0]] + data[1..17];
          assert prefix <= data ==> data[1..17] == prefix[1..];
        }
    }
  }

  /** What is refused, and as what. */
  lemma PrefixRefused(data: seq<byte>)
    ensures DecodeWirePrefix(data) == Err(Empty) <==> data == []
    ensures DecodeWirePrefix(data) == Err(BadMagic) <==> data != [] && data[0] !in [0x00, 0x01]
    ensures DecodeWirePrefix(data) == Err(PrefixTooShort) <==>
      data != [] && ((data[0] == 0x00 && |data| < 5) || (data[0] == 0x01 && |data| < 17))
  {
  }

  lemma DecodedPrefix(data: seq<byte>)
    requires DecodeWirePrefix(data).Ok?
    ensures var (key, n) := DecodeWirePrefix(data).value; n == |Prefix(key)| && Prefix(key) <= data
  {
    var (key, n) := DecodeWirePrefix(data).value;
    PrefixExact(data, key);
  }

  // ── Frames ──────────────────────────────────────────────────────────────

  function Frame(key: SchemaKey, payload: seq<byte>): seq<byte> {
    Prefix(key) + payload
  }

  function ProtobufFrame(key: SchemaKey, path: Path, payload: seq<byte>): seq<byte> {
    Prefix(key) + (EncodeMessageIndexes(path) + payload)
  }

  method EncodeWireFormat(key: SchemaKey, payload: seq<byte>) returns (bytes: seq<byte>)
    ensures bytes == Frame(key, payload)
  {
    var buf := new ByteBuffer();
    PutPrefix(buf, key);
    buf.PutSlice(payload);
    return buf.bytes;
  }

  lemma ThreeParts(a: seq<byte>, b: seq<byte>, c: seq<byte>)
    ensures [] + a + b + c == a + (b + c)
  {
  }

  method EncodeProtobufWireFormat(key: SchemaKey, path: Path, payload: seq<byte>) returns (bytes: seq<byte>)
    ensures bytes == ProtobufFrame(key, path, payload)
  {
    var buf := new ByteBuffer();
    PutPrefix(buf, key);
    PutMessageIndexes(buf, path);
    buf.PutSlice(payload);
    ThreeParts(Prefix(key), EncodeMessageIndexes(path), payload);
    return buf.bytes;
  }

  function DecodeWireFormat(data: seq<byte>): Result<(SchemaKey, seq<byte>), WireError> {
    match DecodeWirePrefix(data)
    case Err(e) => Err(e)
    case Ok((key, n)) =>
      DecodedPrefix(data);
      Ok((key, data[n..]))
  }

  /** Decoding and framing are inverse: a frame is recognised exactly when it is
      the framing of what is reported. */
  lemma FrameExact(data: seq<byte>, key: SchemaKey, payload: seq<byte>)
    ensures DecodeWireFormat(data) == Ok((key, payload)) <==> data == Frame(key, payload)
  {
    PrefixExact(data, key);
    if DecodeWireFormat(data) == Ok((key, payload)) {
      DecodedPrefix(data);
      assert data == data[..|Prefix(key)|] + data[|Prefix(key)|..];
    }
    if data == Frame(key, payload) {
      assert Prefix(key) <= data;
    }
  }

  // ── The prefix as a Kafka header ────────────────────────────────────────

  function SchemaIdHeader(key: SchemaKey, path: Option<Path>): seq<byte> {
    Prefix(key) + match path case None => [] case Some(p) => EncodeMessageIndexes(p)
  }

  method EncodeSchemaIdHeader(key: SchemaKey, path: Option<Path>) returns (bytes: seq<byte>)
    ensures bytes == SchemaIdHeader(key, path)
  {
    var buf := new ByteBuffer();
    PutPrefix(buf, key);
    assert buf.bytes == Prefix(key);
    if path.Some? {
      PutMessageIndexes(buf, path.value);
    }
    return buf.bytes;
  }

  function DecodeSchemaIdHeader(value: seq<byte>): Result<(SchemaKey, Option<Path>), WireError> {
    match DecodeWireFormat(value)
    case Err(e) => Err(e)
    case Ok((key, rest)) =>
      if rest == [] then Ok((key, None))
      else
        match DecodeMessageIndexes(rest)
        case Err(e) => Err(BadIndexes(e))
        case Ok((path, consumed)) =>
          if consumed != |rest| then Err(TrailingBytes) else Ok((key, Some(path)))
  }

  /** The header is the payload's own prefix, moved. */
  lemma HeaderIsPrefix(key: SchemaKey, path: Path, payload: seq<byte>)
    ensures Frame(key, payload) == SchemaIdHeader(key, None) + payload
    ensures ProtobufFrame(key, path, payload) == SchemaIdHeader(key, Some(path)) + payload
  {
    Associative(Prefix(key), EncodeMessageIndexes(path), payload);
  }

  function NormalisedPath(path: Option<Path>): Option<Path> {
    match path case None => None case Some(p) => Some(Normalised(p))
  }

  lemma HeaderRoundTrip(key: SchemaKey, path: Option<Path>)
    requires path.Some? ==> |path.value| <= MAX_MESSAGE_INDEX_COUNT
    ensures DecodeSchemaIdHeader(SchemaIdHeader(key, path)) == Ok((key, NormalisedPath(path)))
  {
    match path {
      case None => FrameExact(SchemaIdHeader(key, None), key, []);
      case Some(p) =>
        var rest := EncodeMessageIndexes(p);
        FrameExact(SchemaIdHeader(key, path), key, rest);
        IndexesRoundTrip(p, []);
        assert rest + [] == rest;
        IndexesNotEmpty(p);
    }
  }

  /** A header with anything after its index array is refused. */
  lemma TrailingBytesRefused(key: SchemaKey, path: Path, more: seq<byte>)
    requires |path| <= MAX_MESSAGE_INDEX_COUNT && more != []
    ensures DecodeSchemaIdHeader(SchemaIdHeader(key, Some(path)) + more) == Err(TrailingBytes)
  {
    var rest := EncodeMessageIndexes(path) + more;
    Associative(Prefix(key), EncodeMessageIndexes(path), more);
    FrameExact(Frame(key, rest), key, rest);
    IndexesRoundTrip(path, more);
  }

  lemma IndexesNotEmpty(path: Path)
    ensures EncodeMessageIndexes(path) != []
  {
    Varint.EncodeTerminates(ZigzagEncode(SaturatingCount(path)));
  }

  /** A header that is accepted is nothing but a prefix and, if a path is
      reported, an index array no shorter than the encoder's; if as short, it is
      the encoder's own. */
  lemma AcceptedHeader(value: seq<byte>)
    requires DecodeSchemaIdHeader(value).Ok?
    ensures var (key, path) := DecodeSchemaIdHeader(value).value;
      && (path == None ==> value == SchemaIdHeader(key, None))
      && (path.Some? ==> 1 <= |path.value| <= MAX_MESSAGE_INDEX_COUNT && AtLeast(value, SchemaIdHeader(key, path)))
  {
    var (key, rest) := DecodeWireFormat(value).value;
    FrameExact(value, key, rest);
    if rest != [] {
      AcceptedIndexes(rest);
      var (path, consumed) := DecodeMessageIndexes(rest).value;
      assert rest[..consumed] == rest;
      AtLeastConcat(Prefix(key), Prefix(key), rest, EncodeMessageIndexes(path));
    }
  }

  // ── Detection ───────────────────────────────────────────────────────────

  datatype Detected =
    | Confluent(key: SchemaKey, payloadOffset: nat)
    | Glue(version: Uuid, compression: Compression, payloadOffset: nat)
    | InvalidConfluent
    | InvalidGlue
    | Unknown

  function DetectWireFormat(data: seq<byte>): Detected {
    if data == [] then Unknown
    else if data[0] == MAGIC_BYTE_V0 || data[0] == MAGIC_BYTE_V1 then
      match DecodeWirePrefix(data)
      case Ok((key, n)) => Confluent(key, n)
      case Err(_) => InvalidConfluent
    else if data[0] == GLUE_HEADER_VERSION_BYTE then
      if |data| < GLUE_HEADER_SIZE then InvalidGlue
      else if data[1] == GLUE_COMPRESSION_NONE_BYTE then
        Glue(data[2..GLUE_HEADER_SIZE], NoCompression, GLUE_HEADER_SIZE)
      else if data[1] == GLUE_COMPRESSION_ZLIB_BYTE then Glue(data[2..GLUE_HEADER_SIZE], Zlib, GLUE_HEADER_SIZE)
      else InvalidGlue
    else Unknown
  }

  /** Detection agrees with both decoders on every byte string, and no byte
      string is accepted by both. */
  lemma DetectionAgrees(data: seq<byte>)
    ensures match DetectWireFormat(data)
      case Confluent(key, n) =>
        DecodeWirePrefix(data) == Ok((key, n)) && ValidateGlueWireHeader(data).Err? && n <= |data|
      case Glue(version, compression, n) =>
        && ValidateGlueWireHeader(data) == Ok((version, compression)) && DecodeWirePrefix(data).Err?
        && n == |GlueHeader(version, compression)| <= |data|
      case _ => DecodeWirePrefix(data).Err? && ValidateGlueWireHeader(data).Err?
  {
    if DecodeWirePrefix(data).Ok? {
      DecodedPrefix(data);
    }
  }

  /** So what is detected is what was put in front. */
  lemma DetectionExact(data: seq<byte>, key: SchemaKey, version: Uuid, compression: Compression)
    ensures DetectWireFormat(data) == Confluent(key, |Prefix(key)|) <==> Prefix(key) <= data
    ensures DetectWireFormat(data) == Glue(version, compression, GLUE_HEADER_SIZE) <==>
      GlueHeader(version, compression) <= data
    ensures DetectWireFormat(data) == InvalidConfluent <==>
      data != [] && data[0] in [0x00, 0x01] && |data| < (if data[0] == 0x00 then PREFIX_LEN_V0 else PREFIX_LEN_V1)
    ensures DetectWireFormat(data) == InvalidGlue <==>
      data != [] && data[0] == 0x03 && (|data| < GLUE_HEADER_SIZE || data[1] !in [0x00, 0x05])
  {
    PrefixExact(data, key);
    GlueHeaderExact(data, version, compression);
  }
}
