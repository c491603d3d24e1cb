/**
 AWS Glue framing, src/glue/mod.rs: an 18-byte header of version byte,
 compression byte and schema-version UUID. ZLIB itself is a pair of given
 functions.
 */
module GlueFormat {
  import opened Integers
  import opened Prelude
  import opened ByteBuffers

  const GLUE_HEADER_VERSION_BYTE: byte := 0x03
  const GLUE_COMPRESSION_NONE_BYTE: byte := 0x00
  const GLUE_COMPRESSION_ZLIB_BYTE: byte := 0x05
  const GLUE_HEADER_SIZE := 18

  type Uuid = s: seq<byte> | |s| == 16 witness [0, 0, 0, 0, 0, 0, 0, 0, 0, 0, 0, 0, 0, 0, 0, 0]

  datatype Compression = NoCompression | Zlib

  datatype GlueError = HeaderTooShort | BadVersionByte | UnknownCompression | ZlibFailed

  /** The compressor and decompressor; either may fail. */
  datatype Codec = Codec(deflate: seq<byte> -> Option<seq<byte>>, inflate: seq<byte> -> Option<seq<byte>>) {
    /** Decompression undoes compression of this payload. */
    ghost predicate Restores(payload: seq<byte>) {
      deflate(payload).Some? && inflate(deflate(payload).value) == Some(payload)
    }
  }

  function CompressionByte(compression: Compression): byte {
    if compression == NoCompression then GLUE_COMPRESSION_NONE_BYTE else GLUE_COMPRESSION_ZLIB_BYTE
  }

  function GlueHeader(version: Uuid, compression: Compression): seq<byte> {
    [GLUE_HEADER_VERSION_BYTE, CompressionByte(compression)] + version
  }

  method EncodeGlueWireFormat(codec: Codec, version: Uuid, payload: seq<byte>, compression: Compression)
    returns (r: Result<seq<byte>, GlueError>)
    ensures compression.NoCompression? ==> r == Ok(GlueHeader(version, NoCompression) + payload)
    ensures compression.Zlib? ==>
      r == match codec.deflate(payload)
           case None => Err(ZlibFailed)
           case Some(z) => Ok(GlueHeader(version, Zlib) + z)
  {
    var compressionByte, bytes := GLUE_COMPRESSION_NONE_BYTE, payload;
    if compression.Zlib? {
      var compressed := codec.deflate(payload);
      if compressed.None? {
        return Err(ZlibFailed);
      }
      compressionByte, bytes := GLUE_COMPRESSION_ZLIB_BYTE, compressed.value;
    }
    var buf := new ByteBuffer();
    buf.PutU8(GLUE_HEADER_VERSION_BYTE);
    buf.PutU8(compressionByte);
    buf.PutSlice(version);
    assert buf.bytes == GlueHeader(version, compression);
    buf.PutSlice(bytes);
    return Ok(buf.bytes);
  }

  function ValidateGlueWireHeader(data: seq<byte>): Result<(Uuid, Compression), GlueError> {
    if |data| < GLUE_HEADER_SIZE then Err(HeaderTooShort)
    else if data[0] != GLUE_HEADER_VERSION_BYTE then Err(BadVersionByte)
    else if data[1] == GLUE_COMPRESSION_NONE_BYTE then Ok((data[2..GLUE_HEADER_SIZE], NoCompression))
    else if data[1] == GLUE_COMPRESSION_ZLIB_BYTE then Ok((data[2..GLUE_HEADER_SIZE], Zlib))
    else Err(UnknownCompression)
  }

  function Decompress(codec: Codec, compression: Compression, raw: seq<byte>): Result<seq<byte>, GlueError> {
    if compression == NoCompression then Ok(raw)
    else
      match codec.inflate(raw)
      case None => Err(ZlibFailed)
      case Some(payload) => Ok(payload)
  }

  function DecodeGlueWireFormat(codec: Codec, data: seq<byte>): Result<(Uuid, seq<byte>), GlueError> {
    match ValidateGlueWireHeader(data)
    case Err(e) => Err(e)
    case Ok((version, compression)) =>
      match Decompress(codec, compression, data[GLUE_HEADER_SIZE..])
      case Err(e) => Err(e)
      case Ok(payload) => Ok((version, payload))
  }

  /** On the wire: three, then zero for a plain and five for a compressed payload,
      then the sixteen bytes of the schema version. */
  lemma GlueHeaderBytes(version: Uuid)
    ensures GlueHeader(version, NoCompression) == [0x03, 0x00] + version
    ensures GlueHeader(version, Zlib) == [0x03, 0x05] + version
  {
  }

  /** What is refused, and as what. */
  lemma GlueHeaderRefused(data: seq<byte>)
    ensures ValidateGlueWireHeader(data) == Err(HeaderTooShort) <==> |data| < 18
    ensures ValidateGlueWireHeader(data) == Err(BadVersionByte) <==> |data| >= 18 && data[0] != 0x03
    ensures ValidateGlueWireHeader(data) == Err(UnknownCompression) <==>
      |data| >= 18 && data[0] == 0x03 && data[1] !in [0x00, 0x05]
  {
  }

  /** The validator accepts exactly the data that begin with a header. */
  lemma GlueHeaderExact(data: seq<byte>, version: Uuid, compression: Compression)
    ensures ValidateGlueWireHeader(data) == Ok((version, compression)) <==> GlueHeader(version, compression) <= data
  {
    var header := GlueHeader(version, compression);
    assert header[0] == GLUE_HEADER_VERSION_BYTE && header[1] == CompressionByte(compression);
    assert header[2..] == version;
    if header <= data {
      assert data[2..GLUE_HEADER_SIZE] == header[2..];
    }
    if ValidateGlueWireHeader(data) == Ok((version, compression)) {
      assert header == data[..GLUE_HEADER_SIZE];
    }
  }
}
