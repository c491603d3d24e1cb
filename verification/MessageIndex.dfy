/**
 The Protobuf message-index array of src/wire.rs: the path to a message type, as
 ZigZag varints behind a ZigZag count, with a one-byte form for the path `[0]`.
 */
module MessageIndex {
  import opened Integers
  import opened Prelude
  import opened ByteBuffers
  import opened Varint

  const MAX_MESSAGE_INDEX_COUNT := 512
  const PROTOBUF_DEFAULT_INDEX: seq<byte> := [0x00]

  type Path = seq<u32>

  datatype IndexError = BadVarint(error: VarintError) | NegativeValue | ValueOverflow | TooManySegments

  // ── ZigZag ──────────────────────────────────────────────────────────────

  function ZigzagEncode(n: u32): u64 {
    2 * n
  }

  function ZigzagDecode(raw: u64): Result<u32, IndexError> {
    if raw % 2 == 1 then Err(NegativeValue)
    else if raw / 2 >= TWO_32 then Err(ValueOverflow)
    else Ok(raw / 2)
  }

  /** ZigZag decoding accepts exactly the encoded values. */
  lemma ZigzagInverse(raw: u64, n: u32)
    ensures ZigzagDecode(raw) == Ok(n) <==> raw == ZigzagEncode(n)
  {
  }

  /** Number by number: twice a 32-bit value is that value, twice a larger one is
      too large, and what is odd stands for a negative one. */
  lemma ZigzagValues(n: nat)
    ensures 2 * n < TWO_64 ==> ZigzagDecode(2 * n) == if n < 0x1_0000_0000 then Ok(n) else Err(ValueOverflow)
    ensures 2 * n + 1 < TWO_64 ==> ZigzagDecode(2 * n + 1) == Err(NegativeValue)
  {
  }

  // ── Writing ─────────────────────────────────────────────────────────────

  function SaturatingCount(path: Path): u32 {
    if |path| < TWO_32 then |path| else TWO_32 - 1
  }

  function EncodeSegments(path: Path): seq<byte> {
    if path == [] then [] else EncodeVarint(ZigzagEncode(path[0])) + EncodeSegments(path[1..])
  }

  function EncodeMessageIndexes(path: Path): seq<byte> {
    if path == [] || path == [0] then PROTOBUF_DEFAULT_INDEX
    else EncodeVarint(ZigzagEncode(SaturatingCount(path))) + EncodeSegments(path)
  }

  lemma {:induction false} EncodeSegmentsAppend(path: Path, last: u32)
    ensures EncodeSegments(path + [last]) == EncodeSegments(path) + EncodeVarint(ZigzagEncode(last))
  {
    if path == [] {
      assert ([] + [last])[1..] == [];
    } else {
      assert (path + [last])[1..] == path[1..] + [last];
      EncodeSegmentsAppend(path[1..], last);
    }
  }

  method PutSegments(buf: ByteBuffer, path: Path)
    modifies buf
    ensures buf.bytes == old(buf.bytes) + EncodeSegments(path)
  {
    for i := 0 to |path|
      invariant buf.bytes == old(buf.bytes) + EncodeSegments(path[..i])
    {
      WriteVarint(buf, ZigzagEncode(path[i]));
      EncodeSegmentsAppend(path[..i], path[i]);
      assert path[..i + 1] == path[..i] + [path[i]];
    }
    assert path[..|path|] == path;
  }

  lemma Associative(a: seq<byte>, b: seq<byte>, c: seq<byte>)
    ensures (a + b) + c == a + (b + c)
  {
  }

  method PutMessageIndexes(buf: ByteBuffer, path: Path)
    modifies buf
    ensures buf.bytes == old(buf.bytes) + EncodeMessageIndexes(path)
  {
    if path == [] || path == [0] {
      buf.PutSlice(PROTOBUF_DEFAULT_INDEX);
    } else {
      WriteVarint(buf, ZigzagEncode(SaturatingCount(path)));
      PutSegments(buf, path);
      Associative(old(buf.bytes), EncodeVarint(ZigzagEncode(SaturatingCount(path))), EncodeSegments(path));
    }
  }

  function SegmentsLen(path: Path): (r: nat)
    ensures r == |EncodeSegments(path)|
  {
    if path == [] then 0
    else
      EncodeTerminates(ZigzagEncode(path[0]));
      VarintLen(ZigzagEncode(path[0])) + SegmentsLen(path[1..])
  }

  /** The space set aside for the array is the space it takes. */
  function MessageIndexLen(path: Path): (r: nat)
    ensures r == |EncodeMessageIndexes(path)|
  {
    if path == [] || path == [0] then |PROTOBUF_DEFAULT_INDEX|
    else
      EncodeTerminates(ZigzagEncode(SaturatingCount(path)));
      VarintLen(ZigzagEncode(SaturatingCount(path))) + SegmentsLen(path)
  }

  // ── Reading ─────────────────────────────────────────────────────────────

  /** One ZigZag value at `offset` and the bytes it takes. */
  function ReadValue(data: seq<byte>, offset: nat): Result<(u32, nat), IndexError> {
    match ReadVarint(data, offset)
    case Err(e) => Err(BadVarint(e))
    case Ok((raw, c)) =>
      match ZigzagDecode(raw)
      case Err(e) => Err(e)
      case Ok(n) => Ok((n, c))
  }

  /** `n` values from `offset` on, and where they end. */
  function ReadSegments(data: seq<byte>, offset: nat, n: nat): Result<(Path, nat), IndexError>
    decreases n
  {
    if n == 0 then Ok(([], offset))
    else
      match ReadValue(data, offset)
      case Err(e) => Err(e)
      case Ok((v, c)) => Prepend(v, ReadSegments(data, offset + c, n - 1))
  }

  function Prepend(v: u32, rest: Result<(Path, nat), IndexError>): Result<(Path, nat), IndexError> {
    match rest
    case Err(e) => Err(e)
    case Ok((path, end)) => Ok(([v] + path, end))
  }

  function DecodeMessageIndexes(data: seq<byte>): Result<(Path, nat), IndexError> {
    match ReadValue(data, 0)
    case Err(e) => Err(e)
    case Ok((count, consumed)) =>
      if count == 0 then Ok(([0], consumed))
      else if count > MAX_MESSAGE_INDEX_COUNT then Err(TooManySegments)
      else ReadSegments(data, consumed, count)
  }

  method DecodeZigzagAt(data: seq<byte>, offset: nat) returns (r: Result<(u32, nat), IndexError>)
    ensures r == ReadValue(data, offset)
  {
    var read := ReadVarintAt(data, offset);
    match read {
      case Err(e) => return Err(BadVarint(e));
      case Ok(pair) =>
        var value := ZigzagDecode(pair.0);
        match value {
          case Err(e) => return Err(e);
          case Ok(n) => return Ok((n, pair.1));
        }
    }
  }

  /** What the loop has read so far, in front of what it will read. */
  function Joined(indexes: Path, rest: Result<(Path, nat), IndexError>): Result<(Path, nat), IndexError> {
    match rest
    case Err(e) => Err(e)
    case Ok((path, end)) => Ok((indexes + path, end))
  }

  method ParseMessageIndexes(data: seq<byte>) returns (r: Result<(Path, nat), IndexError>)
    ensures r == DecodeMessageIndexes(data)
  {
    var head := DecodeZigzagAt(data, 0);
    if head.Err? {
      return Err(head.error);
    }
    var (count, consumed) := head.value;
    if count == 0 {
      return Ok(([0], consumed));
    }
    if count > MAX_MESSAGE_INDEX_COUNT {
      return Err(TooManySegments);
    }
    var offset := consumed;
    var indexes: Path := [];
    JoinedNothing(ReadSegments(data, offset, count));
    for i := 0 to count
      invariant Joined(indexes, ReadSegments(data, offset, count - i)) == ReadSegments(data, consumed, count)
    {
      var next := DecodeZigzagAt(data, offset);
      if next.Err? {
        return Err(next.error);
      }
      JoinNext(data, offset, count - i, indexes);
      offset := offset + next.value.1;
      indexes := indexes + [next.value.0];
    }
    assert indexes + [] == indexes;
    return Ok((indexes, offset));
  }

  lemma JoinedNothing(rest: Result<(Path, nat), IndexError>)
    ensures Joined([], rest) == rest
  {
    match rest
    case Err(_) =>
    case Ok((path, _)) => assert [] + path == path;
  }

  lemma JoinNext(data: seq<byte>, offset: nat, n: nat, indexes: Path)
    requires n > 0 && ReadValue(data, offset).Ok?
    ensures var (v, c) := ReadValue(data, offset).value;
      Joined(indexes, ReadSegments(data, offset, n)) == Joined(indexes + [v], ReadSegments(data, offset + c, n - 1))
  {
    var (v, c) := ReadValue(data, offset).value;
    match ReadSegments(data, offset + c, n - 1)
    case Err(_) =>
    case Ok((path, _)) => assert indexes + ([v] + path) == (indexes + [v]) + path;
  }

  // ── Round trip ──────────────────────────────────────────────────────────

  /** An empty path stands for the first message. */
  function Normalised(path: Path): Path {
    if path == [] then [0] else path
  }

  /** Bytes that hold an encoded value are read as that value. */
  lemma ReadValueUndoes(data: seq<byte>, offset: nat, end: nat, n: u32)
    requires offset <= end <= |data| && data[offset..end] == EncodeVarint(ZigzagEncode(n))
    ensures ReadValue(data, offset) == Ok((n, end - offset))
  {
    var w := EncodeVarint(ZigzagEncode(n));
    EncodeIsVarint(ZigzagEncode(n));
    ReadsVarints(data, offset, end - offset);
    Fits(ZigzagEncode(n));
    ZigzagInverse(ZigzagEncode(n), n);
  }

  lemma Slices(data: seq<byte>, offset: nat, end: nat, a: seq<byte>, b: seq<byte>)
    requires offset <= end <= |data| && data[offset..end] == a + b
    ensures offset + |a| <= end && data[offset..offset + |a|] == a && data[offset + |a|..end] == b
  {
    assert data[offset..offset + |a|] == data[offset..end][..|a|];
    assert data[offset + |a|..end] == data[offset..end][|a|..];
  }

  lemma {:induction false} ReadSegmentsUndoes(data: seq<byte>, offset: nat, end: nat, path: Path)
    requires offset <= end <= |data| && data[offset..end] == EncodeSegments(path)
    ensures ReadSegments(data, offset, |path|) == Ok((path, end))
    decreases |path|
  {
    if path != [] {
      var w := EncodeVarint(ZigzagEncode(path[0]));
      var mid := offset + |w|;
      Slices(data, offset, end, w, EncodeSegments(path[1..]));
      ReadValueUndoes(data, offset, mid, path[0]);
      ReadSegmentsUndoes(data, mid, end, path[1..]);
      assert [path[0]] + path[1..] == path;
    }
  }

  /** A count and then segments. */
  lemma CountThenSegments(data: seq<byte>, mid: nat, end: nat, path: Path)
    requires path != [] && mid <= end <= |data|
    requires data[0..mid] == EncodeVarint(ZigzagEncode(SaturatingCount(path)))
    requires data[mid..end] == EncodeSegments(path)
    ensures DecodeMessageIndexes(data) == if |path| <= MAX_MESSAGE_INDEX_COUNT then Ok((path, end)) else Err(TooManySegments)
  {
    ReadValueUndoes(data, 0, mid, SaturatingCount(path));
    if |path| <= MAX_MESSAGE_INDEX_COUNT {
      ReadSegmentsUndoes(data, mid, end, path);
    }
  }

  /** Every path of at most 512 segments comes back from in front of any
      payload, taking exactly its length; a longer one is refused. */
  lemma IndexesRoundTrip(path: Path, payload: seq<byte>)
    ensures DecodeMessageIndexes(EncodeMessageIndexes(path) + payload)
      == if |path| <= MAX_MESSAGE_INDEX_COUNT then Ok((Normalised(path), MessageIndexLen(path)))
         else Err(TooManySegments)
  {
    if path == [] || path == [0] {
      assert EncodeVarint(ZigzagEncode(0)) == PROTOBUF_DEFAULT_INDEX;
      assert (PROTOBUF_DEFAULT_INDEX + payload)[0..1] == PROTOBUF_DEFAULT_INDEX;
      ReadValueUndoes(PROTOBUF_DEFAULT_INDEX + payload, 0, 1, 0);
    } else {
      var w, segments := EncodeVarint(ZigzagEncode(SaturatingCount(path))), EncodeSegments(path);
      assert (w + segments + payload)[0..|w + segments|] == w + segments;
      Slices(w + segments + payload, 0, |w + segments|, w, segments);
      CountThenSegments(w + segments + payload, |w|, |w + segments|, path);
    }
  }

  // ── What an accepted array looks like ───────────────────────────────────

  /** `bytes` stand for `whole` and are no shorter than its encoding `own`; as
      short exactly when they are that encoding. */
  ghost predicate AtLeast(bytes: seq<byte>, own: seq<byte>) {
    |own| <= |bytes| && (|own| == |bytes| <==> own == bytes)
  }

  lemma AtLeastConcat(a: seq<byte>, ownA: seq<byte>, b: seq<byte>, ownB: seq<byte>)
    requires AtLeast(a, ownA) && AtLeast(b, ownB)
    ensures AtLeast(a + b, ownA + ownB)
  {
  }

  /** A value that fits 32 bits cannot have used a tenth byte's low bit. */
  lemma ReadValueShape(data: seq<byte>, offset: nat)
    requires ReadValue(data, offset).Ok?
    ensures var (n, c) := ReadValue(data, offset).value;
      1 <= c && offset + c <= |data| && AtLeast(data[offset..offset + c], EncodeVarint(ZigzagEncode(n)))
  {
    ReadValueIsTrue(data, offset);
    var (raw, c) := ReadVarint(data, offset).value;
    ZigzagInverse(raw, ReadValue(data, offset).value.0);
    SmallCanonicalForms(data[offset..offset + c]);
  }

  lemma SmallCanonicalForms(w: seq<byte>)
    requires IsVarint(w) && Digits(w) % TWO_64 < 2 * TWO_32
    ensures AtLeast(w, EncodeVarint(Digits(w) % TWO_64))
  {
    CanonicalForms(w);
    EncodeTerminates(Digits(w) % TWO_64);
    WeightValues();
    VarintLenIsLeast(Digits(w) % TWO_64, 9);
  }

  lemma ReadSegmentsShape(data: seq<byte>, offset: nat, n: nat)
    requires offset <= |data| && ReadSegments(data, offset, n).Ok?
    ensures var (path, end) := ReadSegments(data, offset, n).value;
      |path| == n && offset + n <= end <= |data| && AtLeast(data[offset..end], EncodeSegments(path))
  {
    SegmentsShape(data, offset, n, ReadSegments(data, offset, n).value.0, ReadSegments(data, offset, n).value.1);
  }

  lemma {:induction false} SegmentsShape(data: seq<byte>, offset: nat, n: nat, path: Path, end: nat)
    requires offset <= |data| && ReadSegments(data, offset, n) == Ok((path, end))
    ensures |path| == n && offset + n <= end <= |data| && AtLeast(data[offset..end], EncodeSegments(path))
    decreases n
  {
    if n > 0 {
      var mid := SegmentRead(data, offset, n, path, end);
      SegmentsShape(data, mid, n - 1, path[1..], end);
      ShapeStep(data, offset, mid, end, path[0], path[1..]);
      assert [path[0]] + path[1..] == path;
    }
  }

  /** The first of several values, and where the others begin. */
  lemma SegmentRead(data: seq<byte>, offset: nat, n: nat, path: Path, end: nat) returns (mid: nat)
    requires n > 0 && ReadSegments(data, offset, n) == Ok((path, end))
    ensures path != [] && offset < mid <= |data|
    ensures AtLeast(data[offset..mid], EncodeVarint(ZigzagEncode(path[0])))
    ensures ReadSegments(data, mid, n - 1) == Ok((path[1..], end))
  {
    ReadValueShape(data, offset);
    var (v, c) := ReadValue(data, offset).value;
    mid := offset + c;
    assert path == [v] + ReadSegments(data, mid, n - 1).value.0;
  }

  lemma ShapeStep(data: seq<byte>, offset: nat, mid: nat, end: nat, v: u32, path: Path)
    requires offset <= mid <= end <= |data|
    requires AtLeast(data[offset..mid], EncodeVarint(ZigzagEncode(v))) && AtLeast(data[mid..end], EncodeSegments(path))
    ensures AtLeast(data[offset..end], EncodeSegments([v] + path))
  {
    AtLeastConcat(data[offset..mid], EncodeVarint(ZigzagEncode(v)), data[mid..end], EncodeSegments(path));
    assert data[offset..end] == data[offset..mid] + data[mid..end];
    assert ([v] + path)[1..] == path;
  }

  /** Reading goes forward and stays inside. */
  lemma {:induction false} SegmentsEnd(data: seq<byte>, offset: nat, n: nat)
    requires offset <= |data| && ReadSegments(data, offset, n).Ok?
    ensures offset <= ReadSegments(data, offset, n).value.1 <= |data|
    decreases n
  {
    if n > 0 {
      ReadValueShape(data, offset);
      SegmentsEnd(data, offset + ReadValue(data, offset).value.1, n - 1);
    }
  }

  /** Encoding what was accepted never takes more bytes than were consumed, and
      as many exactly when the consumed bytes are the encoder's own. */
  lemma AcceptedIndexes(data: seq<byte>)
    requires DecodeMessageIndexes(data).Ok?
    ensures var (path, consumed) := DecodeMessageIndexes(data).value;
      && 1 <= |path| <= MAX_MESSAGE_INDEX_COUNT && consumed <= |data|
      && AtLeast(data[..consumed], EncodeMessageIndexes(path))
  {
    ReadValueShape(data, 0);
    var (count, c) := ReadValue(data, 0).value;
    var w := EncodeVarint(ZigzagEncode(count));
    assert data[0..c] == data[..c];
    if count == 0 {
      assert w == [0];
    } else {
      ReadSegmentsShape(data, c, count);
      var (path, end) := ReadSegments(data, c, count).value;
      AtLeastConcat(data[..c], w, data[c..end], EncodeSegments(path));
      assert data[..end] == data[..c] + data[c..end];
    }
  }

  lemma ReadValueLocal(data: seq<byte>, other: seq<byte>, offset: nat, limit: nat)
    requires ReadValue(data, offset).Ok? && offset + ReadValue(data, offset).value.1 <= limit
    requires limit <= |data| && limit <= |other| && data[..limit] == other[..limit]
    ensures ReadValue(other, offset) == ReadValue(data, offset)
  {
    var c := ReadValue(data, offset).value.1;
    assert data[offset..offset + c] == data[..limit][offset..offset + c];
    assert other[offset..offset + c] == other[..limit][offset..offset + c];
    ReadIsLocal(data, offset, other, offset);
  }

  lemma {:induction false} ReadSegmentsLocal(data: seq<byte>, other: seq<byte>, offset: nat, n: nat, limit: nat)
    requires offset <= |data| && ReadSegments(data, offset, n).Ok?
    requires ReadSegments(data, offset, n).value.1 <= limit
    requires limit <= |data| && limit <= |other| && data[..limit] == other[..limit]
    ensures ReadSegments(other, offset, n) == ReadSegments(data, offset, n)
    decreases n
  {
    if n > 0 {
      ReadValueShape(data, offset);
      var c := ReadValue(data, offset).value.1;
      SegmentsEnd(data, offset + c, n - 1);
      ReadValueLocal(data, other, offset, limit);
      ReadSegmentsLocal(data, other, offset + c, n - 1, limit);
    }
  }

  /** Only the consumed bytes matter. */
  lemma DecodeIsLocal(data: seq<byte>, other: seq<byte>)
    requires DecodeMessageIndexes(data).Ok?
    requires var consumed := DecodeMessageIndexes(data).value.1;
      consumed <= |data| && consumed <= |other| && data[..consumed] == other[..consumed]
    ensures DecodeMessageIndexes(other) == DecodeMessageIndexes(data)
  {
    ReadValueShape(data, 0);
    var (count, c) := ReadValue(data, 0).value;
    var limit := DecodeMessageIndexes(data).value.1;
    if count != 0 {
      SegmentsEnd(data, c, count);
      ReadSegmentsLocal(data, other, c, count, limit);
    }
    ReadValueLocal(data, other, 0, limit);
  }

  // ── Exactly which bytes hold a path ─────────────────────────────────────

  /** A varint, in whatever length, for twice `n`. */
  ghost predicate HoldsValue(w: seq<byte>, n: u32) {
    IsVarint(w) && Digits(w) % TWO_64 == 2 * n
  }

  ghost predicate HoldsSegments(w: seq<byte>, path: Path)
    decreases |path|
  {
    if path == [] then w == []
    else exists c :: 0 <= c <= |w| && HoldsValue(w[..c], path[0]) && HoldsSegments(w[c..], path[1..])
  }

  /** A count and as many segments, or a count of zero for the path `[0]`. */
  ghost predicate HoldsPath(w: seq<byte>, path: Path) {
    || (HoldsValue(w, 0) && path == [0])
    || (1 <= |path| <= 512 &&
        exists c :: 0 <= c <= |w| && HoldsValue(w[..c], |path|) && HoldsSegments(w[c..], path))
  }

  lemma ReadValueExact(data: seq<byte>, offset: nat, n: u32, c: nat)
    ensures ReadValue(data, offset) == Ok((n, c)) <==>
      offset + c <= |data| && HoldsValue(data[offset..offset + c], n)
  {
    if ReadValue(data, offset) == Ok((n, c)) {
      ReadValueIsTrue(data, offset);
      ZigzagInverse(ReadVarint(data, offset).value.0, n);
    }
    if offset + c <= |data| && HoldsValue(data[offset..offset + c], n) {
      ReadsVarints(data, offset, c);
      ZigzagInverse(2 * n, n);
    }
  }

  lemma {:induction false} ReadSegmentsHold(data: seq<byte>, offset: nat, path: Path, end: nat)
    requires offset <= |data| && ReadSegments(data, offset, |path|) == Ok((path, end))
    ensures end <= |data| && offset <= end && HoldsSegments(data[offset..end], path)
    decreases |path|
  {
    if path != [] {
      var (v, c) := ReadValue(data, offset).value;
      ReadValueExact(data, offset, v, c);
      assert path == [v] + ReadSegments(data, offset + c, |path| - 1).value.0;
      ReadSegmentsHold(data, offset + c, path[1..], end);
      var w := data[offset..end];
      assert w[..c] == data[offset..offset + c] && w[c..] == data[offset + c..end];
    }
  }

  lemma FirstHeld(data: seq<byte>, offset: nat, path: Path, end: nat) returns (c: nat)
    requires offset <= end <= |data| && path != [] && HoldsSegments(data[offset..end], path)
    ensures offset + c <= end && HoldsValue(data[offset..offset + c], path[0])
    ensures HoldsSegments(data[offset + c..end], path[1..])
  {
    var w := data[offset..end];
    c :| 0 <= c <= |w| && HoldsValue(w[..c], path[0]) && HoldsSegments(w[c..], path[1..]);
    assert w[..c] == data[offset..offset + c] && w[c..] == data[offset + c..end];
  }

  lemma ReadFirst(data: seq<byte>, offset: nat, path: Path, c: nat, end: nat)
    requires path != [] && ReadValue(data, offset) == Ok((path[0], c))
    requires ReadSegments(data, offset + c, |path| - 1) == Ok((path[1..], end))
    ensures ReadSegments(data, offset, |path|) == Ok((path, end))
  {
    assert [path[0]] + path[1..] == path;
  }

  lemma {:induction false} HeldSegmentsRead(data: seq<byte>, offset: nat, path: Path, end: nat)
    requires offset <= end <= |data| && HoldsSegments(data[offset..end], path)
    ensures ReadSegments(data, offset, |path|) == Ok((path, end))
    decreases |path|
  {
    if path != [] {
      var c := FirstHeld(data, offset, path, end);
      ReadValueExact(data, offset, path[0], c);
      HeldSegmentsRead(data, offset + c, path[1..], end);
      ReadFirst(data, offset, path, c, end);
    }
  }

  lemma DecodedHolds(data: seq<byte>, path: Path, n: nat)
    requires DecodeMessageIndexes(data) == Ok((path, n))
    ensures n <= |data| && HoldsPath(data[..n], path)
  {
    var (count, c) := ReadValue(data, 0).value;
    ReadValueExact(data, 0, count, c);
    assert data[0..c] == data[..c];
    if count != 0 {
      ReadSegmentsShape(data, c, count);
      ReadSegmentsHold(data, c, path, n);
      assert data[..n][..c] == data[..c] && data[..n][c..] == data[c..n];
    }
  }

  lemma HeldDecodes(data: seq<byte>, path: Path, n: nat)
    requires n <= |data| && HoldsPath(data[..n], path)
    ensures DecodeMessageIndexes(data) == Ok((path, n))
  {
    var w := data[..n];
    if HoldsValue(w, 0) && path == [0] {
      assert data[0..n] == w;
      ReadValueExact(data, 0, 0, n);
    } else {
      var c :| 0 <= c <= |w| && HoldsValue(w[..c], |path|) && HoldsSegments(w[c..], path);
      assert w[..c] == data[0..c] && w[c..] == data[c..n];
      ReadValueExact(data, 0, |path|, c);
      HeldSegmentsRead(data, c, path, n);
    }
  }

  /** A path is accepted with its length exactly when that many bytes hold it:
      varints of any length for twice the count and twice each segment. */
  lemma DecodesExactly(data: seq<byte>, path: Path, n: nat)
    ensures DecodeMessageIndexes(data) == Ok((path, n)) <==> n <= |data| && HoldsPath(data[..n], path)
  {
    if DecodeMessageIndexes(data) == Ok((path, n)) {
      DecodedHolds(data, path, n);
    }
    if n <= |data| && HoldsPath(data[..n], path) {
      HeldDecodes(data, path, n);
    }
  }

  lemma {:induction false} SmallSegmentBytes(path: Path)
    requires forall i :: 0 <= i < |path| ==> path[i] < 64
    ensures |EncodeSegments(path)| == |path|
    ensures forall i :: 0 <= i < |path| ==> EncodeSegments(path)[i] == 2 * path[i]
  {
    if path != [] {
      SmallSegmentBytes(path[1..]);
      assert EncodeVarint(ZigzagEncode(path[0])) == [2 * path[0]];
      assert forall i :: 0 < i < |path| ==> path[i] == path[1..][i - 1];
    }
  }

  /** On the wire a short path of small positions is a byte for twice its length
      and a byte for twice each position; `[0]` and no path are a zero byte. */
  lemma SmallPathBytes(path: Path)
    requires |path| < 64 && forall i :: 0 <= i < |path| ==> path[i] < 64
    ensures var bytes := EncodeMessageIndexes(path);
      if path == [] || path == [0] then bytes == [0x00]
      else
        && |bytes| == 1 + |path| && bytes[0] == 2 * |path|
        && forall i :: 0 <= i < |path| ==> bytes[1 + i] == 2 * path[i]
  {
    SmallSegmentBytes(path);
    if path != [] && path != [0] {
      assert EncodeVarint(ZigzagEncode(SaturatingCount(path))) == [2 * |path|];
    }
  }
}
