/**
 The format-agnostic decoder, `WireFormatDecoder::decode` of src/decoder.rs, and
 `ProtobufSchemaDecoder::unframe` of src/protobuf/mod.rs, as functions of the
 bytes and of the registries' lookups.
 */
module Decoder {
  import opened Integers
  import opened Prelude
  import opened MessageIndex
  import opened GlueFormat
  import opened WireFormat

  datatype SchemaType = Avro | Protobuf | Json

  datatype SchemaFormat = KnownFormat(schemaType: SchemaType) | UnknownFormat

  datatype Schema = Schema(schemaType: SchemaType, text: string)

  datatype Metadata = FromConfluent(schema: Schema) | FromGlue(schema: Schema)

  datatype Message = Message(
    format: SchemaFormat,
    payload: seq<byte>,
    metadata: Option<Metadata>,
    indexes: Option<Path>)

  datatype DecodeError = NoBackend | LookupFailed | BadPath(error: IndexError) | BadPayload(glue: GlueError)

  /** A decoder's configured backends: lookups that may fail. */
  datatype Backends = Backends(
    confluent: Option<SchemaKey -> Option<Schema>>,
    glue: Option<Uuid -> Option<Schema>>,
    codec: Codec)

  function Decode(backends: Backends, data: seq<byte>): Result<Message, DecodeError> {
    match DetectWireFormat(data)
    case Confluent(key, n) =>
      DetectionAgrees(data);
      if backends.confluent.None? then Err(NoBackend)
      else DecodeConfluent(backends.confluent.value(key), data[n..])
    case Glue(version, compression, n) =>
      DetectionAgrees(data);
      if backends.glue.None? then Err(NoBackend)
      else DecodeGlue(Decompress(backends.codec, compression, data[n..]), backends.glue.value(version))
    case _ => Ok(PassedThrough(data))
  }

  /** Decompression comes first, so it is what fails first. */
  function DecodeGlue(decompressed: Result<seq<byte>, GlueError>, lookup: Option<Schema>): Result<Message, DecodeError> {
    match decompressed
    case Err(e) => Err(BadPayload(e))
    case Ok(payload) =>
      match lookup
      case None => Err(LookupFailed)
      case Some(schema) => Ok(Message(KnownFormat(schema.schemaType), payload, Some(FromGlue(schema)), None))
  }

  function DecodeConfluent(lookup: Option<Schema>, afterHeader: seq<byte>): Result<Message, DecodeError> {
    match lookup
    case None => Err(LookupFailed)
    case Some(schema) =>
      if schema.schemaType != Protobuf then
        Ok(Message(KnownFormat(schema.schemaType), afterHeader, Some(FromConfluent(schema)), None))
      else
        match DecodeMessageIndexes(afterHeader)
        case Err(e) => Err(BadPath(e))
        case Ok((path, consumed)) =>
          AcceptedIndexes(afterHeader);
          Ok(Message(KnownFormat(Protobuf), afterHeader[consumed..], Some(FromConfluent(schema)), Some(path)))
  }

  function PassedThrough(data: seq<byte>): Message {
    Message(UnknownFormat, data, None, None)
  }

  /** How a record of this schema type is framed under a key. */
  function FrameFor(schemaType: SchemaType, key: SchemaKey, path: Path, payload: seq<byte>): seq<byte> {
    if schemaType == Protobuf then ProtobufFrame(key, path, payload) else Frame(key, payload)
  }

  /** What was framed under a key comes back with that key's schema: the payload
      and, for Protobuf, the path - and so for every payload, be it one that
      looks like a header itself. */
  lemma ConfluentRoundTrip(backends: Backends, key: SchemaKey, path: Path, payload: seq<byte>)
    requires backends.confluent.Some? && backends.confluent.value(key).Some?
    requires |path| <= MAX_MESSAGE_INDEX_COUNT
    ensures var schema := backends.confluent.value(key).value;
      Decode(backends, FrameFor(schema.schemaType, key, path, payload))
      == Ok(Message(KnownFormat(schema.schemaType), payload, Some(FromConfluent(schema)),
                    if schema.schemaType == Protobuf then Some(Normalised(path)) else None))
  {
    var schema := backends.confluent.value(key).value;
    if schema.schemaType == Protobuf {
      var rest := EncodeMessageIndexes(path) + payload;
      DecodesFrame(backends, key, rest);
      IndexesRoundTrip(path, payload);
      assert rest[|EncodeMessageIndexes(path)|..] == payload;
    } else {
      DecodesFrame(backends, key, payload);
    }
  }

  lemma DecodesFrame(backends: Backends, key: SchemaKey, rest: seq<byte>)
    requires backends.confluent.Some?
    ensures Decode(backends, Frame(key, rest)) == DecodeConfluent(backends.confluent.value(key), rest)
  {
    var data := Frame(key, rest);
    assert Prefix(key) <= data;
    DetectionExact(data, key, DummyUuid(), NoCompression);
    assert data[|Prefix(key)|..] == rest;
  }

  function DummyUuid(): Uuid {
    [0, 0, 0, 0, 0, 0, 0, 0, 0, 0, 0, 0, 0, 0, 0, 0]
  }

  /** A Protobuf path of more than 512 segments is framed but not decoded. */
  lemma LongPathsAreRefused(backends: Backends, key: SchemaKey, path: Path, payload: seq<byte>)
    requires backends.confluent.Some? && backends.confluent.value(key).Some?
    requires backends.confluent.value(key).value.schemaType == Protobuf && |path| > MAX_MESSAGE_INDEX_COUNT
    ensures Decode(backends, ProtobufFrame(key, path, payload)) == Err(BadPath(TooManySegments))
  {
    DecodesFrame(backends, key, EncodeMessageIndexes(path) + payload);
    IndexesRoundTrip(path, payload);
  }

  /** The same for Glue frames, compressed ones if ZLIB restores the payload. */
  lemma GlueRoundTrip(backends: Backends, version: Uuid, payload: seq<byte>, compression: Compression)
    requires backends.glue.Some? && backends.glue.value(version).Some?
    requires compression.Zlib? ==> backends.codec.Restores(payload)
    ensures var schema := backends.glue.value(version).value;
      var bytes := if compression.Zlib? then backends.codec.deflate(payload).value else payload;
      && Decode(backends, GlueHeader(version, compression) + bytes)
         == Ok(Message(KnownFormat(schema.schemaType), payload, Some(FromGlue(schema)), None))
      && DecodeGlueWireFormat(backends.codec, GlueHeader(version, compression) + bytes) == Ok((version, payload))
  {
    var bytes := if compression.Zlib? then backends.codec.deflate(payload).value else payload;
    var data := GlueHeader(version, compression) + bytes;
    assert GlueHeader(version, compression) <= data;
    DetectionExact(data, Id(0), version, compression);
    GlueHeaderExact(data, version, compression);
    assert data[GLUE_HEADER_SIZE..] == bytes;
  }

  /** Bytes pass through untouched exactly when neither header decoder accepts
      them; otherwise a message always names a schema of a configured backend. */
  lemma PassesThroughIffUnframed(backends: Backends, data: seq<byte>)
    ensures DecodeWirePrefix(data).Err? && ValidateGlueWireHeader(data).Err? <==>
      Decode(backends, data) == Ok(Message(UnknownFormat, data, None, None))
    ensures DecodeWirePrefix(data).Ok? && Decode(backends, data).Ok? ==>
      && backends.confluent.Some?
      && var schema := backends.confluent.value(DecodeWirePrefix(data).value.0);
         schema.Some? && Decode(backends, data).value.metadata == Some(FromConfluent(schema.value))
    ensures ValidateGlueWireHeader(data).Ok? && Decode(backends, data).Ok? ==>
      && backends.glue.Some?
      && var schema := backends.glue.value(ValidateGlueWireHeader(data).value.0);
         schema.Some? && Decode(backends, data).value.metadata == Some(FromGlue(schema.value))
  {
    DetectionAgrees(data);
  }

  /** A framed message fails to decode for one of these reasons, each exactly when
      it applies: no backend for the framing, the payload does not decompress, the
      backend does not know the schema, the Protobuf path is malformed. */
  lemma FailsExactly(backends: Backends, data: seq<byte>, e: DecodeError)
    ensures DecodeWirePrefix(data).Ok? ==>
      var (key, n) := DecodeWirePrefix(data).value;
      Decode(backends, data) == Err(e) <==>
        match e
        case NoBackend => backends.confluent.None?
        case LookupFailed => backends.confluent.Some? && backends.confluent.value(key).None?
        case BadPath(i) =>
          && backends.confluent.Some? && backends.confluent.value(key).Some?
          && backends.confluent.value(key).value.schemaType == Protobuf
          && n <= |data| && DecodeMessageIndexes(data[n..]) == Err(i)
        case BadPayload(_) => false
    ensures ValidateGlueWireHeader(data).Ok? ==>
      var (version, compression) := ValidateGlueWireHeader(data).value;
      var inflated := Decompress(backends.codec, compression, data[18..]);
      Decode(backends, data) == Err(e) <==>
        match e
        case NoBackend => backends.glue.None?
        case LookupFailed => backends.glue.Some? && inflated.Ok? && backends.glue.value(version).None?
        case BadPath(_) => false
        case BadPayload(z) => backends.glue.Some? && inflated == Err(z)
  {
    DetectionAgrees(data);
  }

  /** What an accepted Confluent message held, byte for byte: a prefix, for
      Protobuf an index array, and the payload. */
  lemma DecodedParts(backends: Backends, data: seq<byte>)
    requires DecodeWirePrefix(data).Ok? && Decode(backends, data).Ok?
    ensures var (key, n) := DecodeWirePrefix(data).value;
      var m := Decode(backends, data).value;
      && n + |m.payload| <= |data| && data[|data| - |m.payload|..] == m.payload
      && (m.indexes == None ==> data == Frame(key, m.payload))
      && (m.indexes.Some? ==> IndexesBetween(data, n, |data| - |m.payload|, m.indexes.value))
  {
    DetectionAgrees(data);
    DecodedPrefix(data);
    var (key, n) := DecodeWirePrefix(data).value;
    var rest := data[n..];
    FrameExact(data, key, rest);
    var m := Decode(backends, data).value;
    if m.indexes.Some? {
      IndexesInFront(data, n, rest);
    }
  }

  /** The bytes from `start` to `end` are an index array for `path` and nothing
      else, no shorter than the encoder's own; if as short, the encoder's own. */
  ghost predicate IndexesBetween(data: seq<byte>, start: nat, end: nat, path: Path) {
    && start <= end <= |data|
    && DecodeMessageIndexes(data[start..end]) == Ok((path, end - start))
    && AtLeast(data[start..end], EncodeMessageIndexes(path))
  }

  lemma IndexesInFront(data: seq<byte>, start: nat, rest: seq<byte>)
    requires start <= |data| && rest == data[start..] && DecodeMessageIndexes(rest).Ok?
    ensures var (path, consumed) := DecodeMessageIndexes(rest).value;
      consumed <= |rest| && IndexesBetween(data, start, start + consumed, path)
  {
    AcceptedIndexes(rest);
    var consumed := DecodeMessageIndexes(rest).value.1;
    assert data[start..start + consumed] == rest[..consumed];
    DecodeIsLocal(rest, rest[..consumed]);
  }

  // ── Protobuf frames of a known type ─────────────────────────────────────

  datatype Unframed = Unframed(key: SchemaKey, indexes: Path, payload: seq<byte>)

  datatype UnframeError = BadFrame(error: WireError) | WrongType(found: Path)

  function Unframe(expected: Option<Path>, data: seq<byte>): Result<Unframed, UnframeError> {
    match DecodeWireFormat(data)
    case Err(e) => Err(BadFrame(e))
    case Ok((key, afterPrefix)) =>
      match DecodeMessageIndexes(afterPrefix)
      case Err(e) => Err(BadFrame(BadIndexes(e)))
      case Ok((path, consumed)) =>
        AcceptedIndexes(afterPrefix);
        if expected.Some? && path != expected.value then Err(WrongType(path))
        else Ok(Unframed(key, path, afterPrefix[consumed..]))
  }

  /** A frame is unframed exactly when it is of the expected type. */
  lemma UnframeRoundTrip(expected: Option<Path>, key: SchemaKey, path: Path, payload: seq<byte>)
    requires |path| <= MAX_MESSAGE_INDEX_COUNT
    ensures Unframe(expected, ProtobufFrame(key, path, payload))
      == if expected == None || expected == Some(Normalised(path)) then Ok(Unframed(key, Normalised(path), payload))
         else Err(WrongType(Normalised(path)))
  {
    var rest := EncodeMessageIndexes(path) + payload;
    FrameExact(ProtobufFrame(key, path, payload), key, rest);
    IndexesRoundTrip(path, payload);
    assert rest[|EncodeMessageIndexes(path)|..] == payload;
  }

  /** Both decoders see the same message in the same bytes. */
  lemma UnframeAgrees(backends: Backends, data: seq<byte>, key: SchemaKey)
    requires backends.confluent.Some? && backends.confluent.value(key).Some?
    requires backends.confluent.value(key).value.schemaType == Protobuf
    requires DecodeWireFormat(data).Ok? && DecodeWireFormat(data).value.0 == key
    ensures Decode(backends, data).Ok? <==> Unframe(None, data).Ok?
    ensures Unframe(None, data).Ok? ==>
      && Decode(backends, data).value.payload == Unframe(None, data).value.payload
      && Decode(backends, data).value.indexes == Some(Unframe(None, data).value.indexes)
  {
    var rest := DecodeWireFormat(data).value.1;
    FrameExact(data, key, rest);
    DecodesFrame(backends, key, rest);
  }
}
