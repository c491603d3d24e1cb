/**
 LEB-128 varints: `write_varint`, `varint_len` and `read_varint` of
 src/wire.rs. Bits are modelled as arithmetic: `x & 0x7F` is `x % 128`, `x >> 7`
 is `x / 128`, and `|` on disjoint bits is `+`.
 */
module Varint {
  import opened Integers
  import opened Prelude
  import opened ByteBuffers

  /** No varint is longer than this: ten groups of seven bits hold 64. */
  const MAX_VARINT_BYTES: nat := 10

  datatype VarintError = Truncated | Overflow

  // ── What bytes mean ─────────────────────────────────────────────────────

  /** Continuation bytes and then one last byte. */
  ghost predicate Terminated(w: seq<byte>) {
    w != [] && w[|w| - 1] < 128 && forall i :: 0 <= i < |w| - 1 ==> w[i] >= 128
  }

  ghost predicate IsVarint(w: seq<byte>) {
    Terminated(w) && |w| <= MAX_VARINT_BYTES
  }

  /** The number whose base-128 digits, least significant first, `w` carries. */
  function Digits(w: seq<byte>): nat {
    if w == [] then 0 else w[0] % 128 + 128 * Digits(w[1..])
  }

  // ── Writing ─────────────────────────────────────────────────────────────

  function EncodeVarint(value: nat): seq<byte>
  {
    if value < 128 then [value] else [value % 128 + 128] + EncodeVarint(value / 128)
  }

  function VarintLen(value: nat): nat {
    if value < 128 then 1 else 1 + VarintLen(value / 128)
  }

  method WriteVarint(buf: ByteBuffer, value: u64)
    modifies buf
    ensures buf.bytes == old(buf.bytes) + EncodeVarint(value)
  {
    var rest: nat := value;
    ghost var written: seq<byte> := [];
    while true
      invariant buf.bytes == old(buf.bytes) + written
      invariant written + EncodeVarint(rest) == EncodeVarint(value)
      decreases rest
    {
      var low: byte := rest % 128;
      ghost var before := rest;
      rest := rest / 128;
      if rest == 0 {
        buf.PutU8(low);
        assert EncodeVarint(before) == [low];
        break;
      }
      buf.PutU8(low + 128);
      assert EncodeVarint(before) == [low + 128] + EncodeVarint(rest);
      written := written + [low + 128];
    }
  }

  method VarintLength(value: u64) returns (len: nat)
    ensures len == VarintLen(value) == |EncodeVarint(value)|
  {
    var rest: nat := value;
    len := 1;
    while rest >= 128
      invariant len + VarintLen(rest) == 1 + VarintLen(value)
      invariant len + |EncodeVarint(rest)| == 1 + |EncodeVarint(value)|
      decreases rest
    {
      rest := rest / 128;
      len := len + 1;
    }
  }

  // ── Reading ─────────────────────────────────────────────────────────────

  /** The digits from `pos` on, at most `left` bytes of them, and how many. */
  function ReadDigits(data: seq<byte>, pos: nat, left: nat): Result<(nat, nat), VarintError>
    requires left >= 1
    decreases |data| - pos
  {
    if pos >= |data| then Err(Truncated)
    else if data[pos] < 128 then Ok((data[pos], 1))
    else if left == 1 then Err(Overflow)
    else
      match ReadDigits(data, pos + 1, left - 1)
      case Err(e) => Err(e)
      case Ok((v, c)) => Ok((data[pos] % 128 + 128 * v, c + 1))
  }

  /** What is read at `offset`: the value, less its bits above bit 63, and the
      number of bytes it took. */
  function ReadVarint(data: seq<byte>, offset: nat): Result<(u64, nat), VarintError> {
    match ReadDigits(data, offset, MAX_VARINT_BYTES)
    case Err(e) => Err(e)
    case Ok((v, c)) => Ok((v % TWO_64, c))
  }

  /** `v` as the digits from the `k`-th on. */
  function Scaled(k: nat, v: nat): nat {
    if k == 0 then v else 128 * Scaled(k - 1, v)
  }

  lemma {:induction false} ScaledStep(k: nat, digit: nat, v: nat)
    ensures Scaled(k, digit + 128 * v) == Scaled(k, digit) + Scaled(k + 1, v)
  {
    if k > 0 {
      ScaledStep(k - 1, digit, v);
    }
  }

  /** The reading loop has come to `whole`, given that the bytes still ahead come
      to `ahead` and those behind, `k` of them, to `result`. */
  ghost predicate Adds(whole: Result<(nat, nat), VarintError>, result: nat, k: nat, ahead: Result<(nat, nat), VarintError>) {
    match ahead
    case Err(e) => whole == Err(e)
    case Ok((v, c)) => whole == Ok((result + Scaled(k, v), k + c))
  }

  /** One continuation byte moves from ahead to behind. */
  lemma AddsStep(data: seq<byte>, pos: nat, left: nat, whole: Result<(nat, nat), VarintError>, result: nat, k: nat)
    requires left >= 2 && pos < |data| && data[pos] >= 128
    requires Adds(whole, result, k, ReadDigits(data, pos, left))
    ensures Adds(whole, result + Scaled(k, data[pos] % 128), k + 1, ReadDigits(data, pos + 1, left - 1))
  {
    match ReadDigits(data, pos + 1, left - 1)
    case Err(_) =>
    case Ok((v, c)) => ScaledStep(k, data[pos] % 128, v);
  }

  lemma Fits(x: nat)
    requires x < TWO_64
    ensures x % TWO_64 == x
  {
  }

  lemma {:induction false} ScaledBound(k: nat, digit: nat)
    requires digit < 128
    ensures Scaled(k, digit) <= 127 * Weight(k)
  {
    if k > 0 {
      ScaledBound(k - 1, digit);
    }
  }

  /** `v` with `n` zero bits behind it. */
  function Doubled(n: nat, v: nat): nat {
    if n == 0 then v else 2 * Doubled(n - 1, v)
  }

  lemma {:induction false} DoubledFront(n: nat, v: nat)
    ensures Doubled(n + 1, v) == Doubled(n, 2 * v)
  {
    if n > 0 {
      DoubledFront(n - 1, v);
    }
  }

  lemma DoubledSeven(n: nat, v: nat)
    ensures Doubled(n + 7, v) == 128 * Doubled(n, v)
  {
    assert Doubled(n + 7, v) == 2 * Doubled(n + 6, v) == 4 * Doubled(n + 5, v) == 8 * Doubled(n + 4, v);
    assert Doubled(n + 4, v) == 2 * Doubled(n + 3, v) == 4 * Doubled(n + 2, v) == 8 * Doubled(n + 1, v);
  }

  lemma {:induction false} DoubledIsScaled(k: nat, v: nat)
    ensures Doubled(7 * k, v) == Scaled(k, v)
  {
    if k > 0 {
      DoubledIsScaled(k - 1, v);
      DoubledSeven(7 * (k - 1), v);
    }
  }

  lemma WholeWords(c: int, y: int)
    ensures (c * TWO_64 + y) % TWO_64 == y % TWO_64
  {
  }

  /** Dropping the bits above bit 63 before or after doubling is the same. */
  lemma {:induction false} DoubledReduces(n: nat, v: nat)
    ensures Doubled(n, v % TWO_64) % TWO_64 == Doubled(n, v) % TWO_64
  {
    if n > 0 {
      DoubledReduces(n - 1, v);
      var a, b := Doubled(n - 1, v % TWO_64), Doubled(n - 1, v);
      WholeWords(2 * (a / TWO_64 - b / TWO_64), 2 * b);
    }
  }

  lemma {:induction false} ShiftIsDoubled(x: u64, n: nat)
    ensures ShiftLeft(x, n) == Doubled(n, x) % TWO_64
    decreases n
  {
    if n == 0 {
      Fits(x);
    } else {
      ShiftIsDoubled(2 * x % TWO_64, n - 1);
      DoubledReduces(n - 1, 2 * x);
      DoubledFront(n - 1, x);
    }
  }

  /** Shifting by seven bits for each group read puts a group in its place. */
  lemma ShiftIsScaled(x: u64, k: nat)
    ensures ShiftLeft(x, 7 * k) == Scaled(k, x) % TWO_64
  {
    ShiftIsDoubled(x, 7 * k);
    DoubledIsScaled(k, x);
  }

  /** A group that is not the tenth fits whole. */
  lemma ShiftFits(result: nat, x: u64, k: nat)
    requires x < 128 && k <= 8 && result < Weight(k)
    ensures ShiftLeft(x, 7 * k) == Scaled(k, x)
    ensures result + Scaled(k, x) < Weight(k + 1) < TWO_64
  {
    ShiftIsScaled(x, k);
    ScaledBound(k, x);
    WeightGrows(k + 1, 9);
    WeightValues();
    Fits(Scaled(k, x));
  }

  lemma ScaledNine(x: nat)
    ensures Scaled(9, x) == 0x8000_0000_0000_0000 * x
  {
    assert Scaled(3, x) == 128 * Scaled(2, x) == 128 * 128 * Scaled(1, x);
    assert Scaled(6, x) == 128 * Scaled(5, x) == 128 * 128 * Scaled(4, x) == 128 * 128 * 128 * Scaled(3, x);
    assert Scaled(9, x) == 128 * Scaled(8, x) == 128 * 128 * Scaled(7, x) == 128 * 128 * 128 * Scaled(6, x);
  }

  /** The tenth byte keeps its lowest bit only, as reduction modulo 2^64 does. */
  lemma LastShift(result: nat, x: u64, k: nat)
    requires x < 128 && k <= 9 && result < Weight(k)
    ensures result + ShiftLeft(x, 7 * k) < TWO_64
    ensures result + ShiftLeft(x, 7 * k) == (result + Scaled(k, x)) % TWO_64
  {
    if k <= 8 {
      ShiftFits(result, x, k);
      Fits(result + Scaled(k, x));
    } else {
      ShiftIsScaled(x, 9);
      ScaledNine(x);
      WeightValues();
      TopBit(result, x);
    }
  }

  lemma TopBit(result: nat, x: nat)
    requires result < 0x8000_0000_0000_0000
    ensures 0x8000_0000_0000_0000 * x % TWO_64 == x % 2 * 0x8000_0000_0000_0000
    ensures (result + 0x8000_0000_0000_0000 * x) % TWO_64 == result + x % 2 * 0x8000_0000_0000_0000
  {
  }

  /** After `k` bytes of the varint at `offset`, which come to `result`. */
  ghost predicate ReadSoFar(data: seq<byte>, offset: nat, k: nat, result: nat) {
    && k < MAX_VARINT_BYTES && result < Weight(k)
    && Adds(ReadDigits(data, offset, MAX_VARINT_BYTES), result, k, ReadDigits(data, offset + k, MAX_VARINT_BYTES - k))
  }

  lemma ReadStarts(data: seq<byte>, offset: nat)
    ensures ReadSoFar(data, offset, 0, 0)
  {
  }

  /** One turn of the reading loop on a continuation byte. */
  lemma ReadContinues(data: seq<byte>, offset: nat, k: nat, result: nat)
    requires ReadSoFar(data, offset, k, result) && k < 9
    requires offset + k < |data| && data[offset + k] >= 128
    ensures ReadSoFar(data, offset, k + 1, result + ShiftLeft(data[offset + k] % 128, 7 * k))
    ensures result + ShiftLeft(data[offset + k] % 128, 7 * k) < TWO_64
  {
    ShiftFits(result, data[offset + k] % 128, k);
    AddsStep(data, offset + k, MAX_VARINT_BYTES - k, ReadDigits(data, offset, MAX_VARINT_BYTES), result, k);
  }

  /** The turn that ends it with a value. */
  lemma ReadEnds(data: seq<byte>, offset: nat, k: nat, result: nat)
    requires ReadSoFar(data, offset, k, result) && offset + k < |data| && data[offset + k] < 128
    ensures result + ShiftLeft(data[offset + k], 7 * k) < TWO_64
    ensures ReadVarint(data, offset) == Ok((result + ShiftLeft(data[offset + k], 7 * k), k + 1))
  {
    LastShift(result, data[offset + k], k);
    assert ReadDigits(data, offset + k, MAX_VARINT_BYTES - k) == Ok((data[offset + k], 1));
  }

  /** The turns that end it without one. */
  lemma ReadFails(data: seq<byte>, offset: nat, k: nat, result: nat)
    requires ReadSoFar(data, offset, k, result)
    ensures offset + k >= |data| ==> ReadVarint(data, offset) == Err(Truncated)
    ensures offset + k < |data| && data[offset + k] >= 128 && k == 9 ==> ReadVarint(data, offset) == Err(Overflow)
  {
    if offset + k >= |data| {
      assert ReadDigits(data, offset + k, MAX_VARINT_BYTES - k) == Err(Truncated);
    } else if data[offset + k] >= 128 && k == 9 {
      assert ReadDigits(data, offset + k, 1) == Err(Overflow);
    }
  }

  /** One turn of the loop, which reads byte `k` and comes to `next`. */
  lemma ReadTurn(data: seq<byte>, offset: nat, k: nat, result: nat)
    requires ReadSoFar(data, offset, k, result)
    ensures offset + k >= |data| ==> ReadVarint(data, offset) == Err(Truncated)
    ensures offset + k < |data| ==>
      var b := data[offset + k]; var next := result + ShiftLeft(b % 128, 7 * k);
      && next < TWO_64
      && (b < 128 ==> ReadVarint(data, offset) == Ok((next, k + 1)))
      && (b >= 128 && k < 9 ==> ReadSoFar(data, offset, k + 1, next))
      && (b >= 128 && k == 9 ==> ReadVarint(data, offset) == Err(Overflow))
  {
    ReadFails(data, offset, k, result);
    if offset + k < |data| {
      if data[offset + k] < 128 {
        ReadEnds(data, offset, k, result);
      } else if k < 9 {
        ReadContinues(data, offset, k, result);
      } else {
        LastShift(result, data[offset + k] % 128, k);
      }
    }
  }

  method ReadVarintAt(data: seq<byte>, offset: nat) returns (r: Result<(u64, nat), VarintError>)
    ensures r == ReadVarint(data, offset)
  {
    var result: u64 := 0;
    var shift := 0;
    var pos := offset;
    ghost var k := 0;
    ReadStarts(data, offset);
    while true
      invariant shift == 7 * k && pos == offset + k && ReadSoFar(data, offset, k, result)
      decreases 70 - shift
    {
      ReadTurn(data, offset, k, result);
      if pos >= |data| {
        return Err(Truncated);
      }
      var b := data[pos];
      pos := pos + 1;
      result := result + ShiftLeft(b % 128, shift);
      if b < 128 {
        break;
      }
      shift := shift + 7;
      k := k + 1;
      if shift >= 64 {
        return Err(Overflow);
      }
    }
    return Ok((result, pos - offset));
  }

  // ── What reading and writing have to do with each other ─────────────────

  /** The length is the least number of base-128 digits that hold the value. */
  lemma {:induction false} VarintLenIsLeast(value: nat, c: nat)
    requires c >= 1
    ensures VarintLen(value) <= c <==> value < Weight(c)
    decreases c
  {
    if c == 1 {
      assert Weight(1) == 128 * Weight(0);
    } else if value >= 128 {
      VarintLenIsLeast(value / 128, c - 1);
    } else {
      WeightGrows(1, c);
      assert Weight(1) == 128 * Weight(0);
    }
  }

  lemma {:induction false} EncodeTerminates(value: nat)
    ensures Terminated(EncodeVarint(value)) && Digits(EncodeVarint(value)) == value
    ensures |EncodeVarint(value)| == VarintLen(value)
  {
    if value >= 128 {
      EncodeTerminates(value / 128);
      var w := EncodeVarint(value);
      assert w[1..] == EncodeVarint(value / 128) && w[|w| - 1] == w[1..][|w| - 2];
    }
  }

  /** One byte holds seven bits, and of two the first holds the lower seven. */
  lemma ShortEncodings(value: nat)
    ensures value < 0x80 ==> EncodeVarint(value) == [value]
    ensures 0x80 <= value < 0x4000 ==> EncodeVarint(value) == [value % 0x80 + 0x80, value / 0x80]
  {
  }

  lemma EncodeIsVarint(value: u64)
    ensures IsVarint(EncodeVarint(value)) && Digits(EncodeVarint(value)) == value
    ensures 1 <= |EncodeVarint(value)| == VarintLen(value) <= MAX_VARINT_BYTES
  {
    EncodeTerminates(value);
    VarintLenIsLeast(value, MAX_VARINT_BYTES);
    WeightValues();
    assert Weight(10) == 128 * Weight(9);
  }

  lemma {:induction false} ReadDigitsAccepts(data: seq<byte>, pos: nat, left: nat, c: nat)
    requires 1 <= c <= left && pos + c <= |data| && Terminated(data[pos..pos + c])
    ensures ReadDigits(data, pos, left) == Ok((Digits(data[pos..pos + c]), c))
    decreases c
  {
    var w := data[pos..pos + c];
    assert w[0] == data[pos] && w[c - 1] == data[pos + c - 1];
    if c > 1 {
      assert w[1..] == data[pos + 1..pos + 1 + (c - 1)];
      ReadDigitsAccepts(data, pos + 1, left - 1, c - 1);
    }
  }

  lemma {:induction false} ReadDigitsSound(data: seq<byte>, pos: nat, left: nat)
    requires left >= 1
    ensures match ReadDigits(data, pos, left)
      case Ok((_, c)) => 1 <= c <= left && pos + c <= |data| && Terminated(data[pos..pos + c])
      case Err(Truncated) => |data| < pos + left && forall i :: pos <= i < |data| ==> data[i] >= 128
      case Err(Overflow) => pos + left <= |data| && forall i :: pos <= i < pos + left ==> data[i] >= 128
    decreases left
  {
    if pos < |data| && data[pos] >= 128 && left > 1 {
      ReadDigitsSound(data, pos + 1, left - 1);
      match ReadDigits(data, pos + 1, left - 1)
      case Err(_) =>
      case Ok((_, c)) =>
        var w := data[pos..pos + 1 + c];
        assert w[1..] == data[pos + 1..pos + 1 + c];
        assert forall i :: 1 <= i < |w| ==> w[i] == w[1..][i - 1];
    }
  }

  /** Reading accepts exactly a terminated run of at most ten bytes, whatever
      follows it, and yields its base-128 value less the bits above bit 63. */
  lemma ReadsVarints(data: seq<byte>, offset: nat, c: nat)
    requires offset + c <= |data|
    ensures IsVarint(data[offset..offset + c]) <==>
      ReadVarint(data, offset) == Ok((Digits(data[offset..offset + c]) % TWO_64, c))
  {
    if IsVarint(data[offset..offset + c]) {
      ReadDigitsAccepts(data, offset, MAX_VARINT_BYTES, c);
    }
    ReadDigitsSound(data, offset, MAX_VARINT_BYTES);
  }

  /** It always comes to such a run or to an error that is true of the bytes. */
  lemma ReadIsTrue(data: seq<byte>, offset: nat)
    ensures match ReadVarint(data, offset)
      case Ok((v, c)) =>
        offset + c <= |data| && IsVarint(data[offset..offset + c]) && v == Digits(data[offset..offset + c]) % TWO_64
      case Err(Truncated) =>
        |data| < offset + MAX_VARINT_BYTES && forall i :: offset <= i < |data| ==> data[i] >= 128
      case Err(Overflow) =>
        offset + MAX_VARINT_BYTES <= |data| && forall i :: offset <= i < offset + MAX_VARINT_BYTES ==> data[i] >= 128
  {
    ReadDigitsSound(data, offset, MAX_VARINT_BYTES);
    if ReadVarint(data, offset).Ok? {
      ReadValueIsTrue(data, offset);
    }
  }

  lemma ReadValueIsTrue(data: seq<byte>, offset: nat)
    requires ReadVarint(data, offset).Ok?
    ensures var (v, c) := ReadVarint(data, offset).value;
      offset + c <= |data| && IsVarint(data[offset..offset + c]) && v == Digits(data[offset..offset + c]) % TWO_64
  {
    ReadDigitsSound(data, offset, MAX_VARINT_BYTES);
    ReadsVarints(data, offset, ReadVarint(data, offset).value.1);
  }

  /** Reading undoes writing, anywhere in the data. */
  lemma ReadUndoesWrite(before: seq<byte>, value: u64, after: seq<byte>)
    ensures ReadVarint(before + EncodeVarint(value) + after, |before|) == Ok((value, VarintLen(value)))
  {
    EncodeIsVarint(value);
    var w, data := EncodeVarint(value), before + EncodeVarint(value) + after;
    assert data[|before|..|before| + |w|] == w;
    ReadsVarints(data, |before|, |w|);
    Fits(value);
  }

  /** Nothing beyond the reported bytes is looked at. */
  lemma ReadIsLocal(data: seq<byte>, offset: nat, other: seq<byte>, otherOffset: nat)
    requires ReadVarint(data, offset).Ok?
    requires var c := ReadVarint(data, offset).value.1;
      offset + c <= |data| && otherOffset + c <= |other|
      && data[offset..offset + c] == other[otherOffset..otherOffset + c]
    ensures ReadVarint(other, otherOffset) == ReadVarint(data, offset)
  {
    ReadValueIsTrue(data, offset);
    ReadsVarints(other, otherOffset, ReadVarint(data, offset).value.1);
  }

  // ── The decoder is not injective; the encoder's forms are the shortest ──

  /** No digit is wasted on leading zeros. */
  ghost predicate Shortest(w: seq<byte>) {
    |w| == 1 || (|w| > 1 && w[|w| - 1] != 0)
  }

  lemma {:induction false} DigitsPositive(w: seq<byte>)
    requires Terminated(w) && w[|w| - 1] != 0
    ensures Digits(w) > 0
  {
    if |w| > 1 {
      assert Terminated(w[1..]) && w[1..][|w| - 2] == w[|w| - 1];
      DigitsPositive(w[1..]);
    }
  }

  /** What a continuation byte in front of a value's digits encodes to. */
  lemma EncodeContinued(b: byte, rest: nat)
    requires b >= 128
    ensures rest > 0 ==> EncodeVarint(b % 128 + 128 * rest) == [b] + EncodeVarint(rest)
    ensures rest > 0 ==> VarintLen(b % 128 + 128 * rest) == 1 + VarintLen(rest)
    ensures rest == 0 ==> VarintLen(b % 128 + 128 * rest) == 1
  {
    var value := b % 128 + 128 * rest;
    assert value / 128 == rest && value % 128 == b % 128;
  }

  lemma OneDigit(w: seq<byte>)
    requires |w| == 1
    ensures Digits(w) == w[0] % 128
  {
    assert Digits(w) == w[0] % 128 + 128 * Digits(w[1..]);
  }

  /** A terminated run without leading zeros is its value's encoding. */
  lemma {:induction false} EncodeShortest(w: seq<byte>)
    requires Terminated(w) && Shortest(w)
    ensures EncodeVarint(Digits(w)) == w
  {
    if |w| == 1 {
      OneDigit(w);
    } else {
      var t := w[1..];
      assert Terminated(t) && t[|t| - 1] == w[|w| - 1];
      EncodeShortest(t);
      DigitsPositive(t);
      assert Digits(w) == w[0] % 128 + 128 * Digits(t);
      EncodeContinued(w[0], Digits(t));
      assert w == [w[0]] + t;
    }
  }

  /** With leading zeros it is longer than its value's encoding. */
  lemma {:induction false} EncodePadded(w: seq<byte>)
    requires Terminated(w) && !Shortest(w)
    ensures VarintLen(Digits(w)) < |w|
  {
    var t := w[1..];
    assert Terminated(t) && t[|t| - 1] == w[|w| - 1];
    if |t| == 1 {
      OneDigit(t);
    } else {
      EncodePadded(t);
    }
    EncodeContinued(w[0], Digits(t));
  }

  lemma Associate(w: nat, v: nat)
    ensures 128 * w * v == 128 * (w * v)
  {
  }

  lemma {:induction false} DigitsSplit(w: seq<byte>, n: nat)
    requires n <= |w|
    ensures Digits(w) == Digits(w[..n]) + Weight(n) * Digits(w[n..])
    decreases n
  {
    if n == 0 {
      assert w[0..] == w;
    } else {
      var t := w[1..];
      DigitsSplit(t, n - 1);
      assert w[..n][1..] == t[..n - 1] && w[n..] == t[n - 1..];
      Associate(Weight(n - 1), Digits(w[n..]));
    }
  }

  lemma {:induction false} DigitsBelow(w: seq<byte>)
    ensures Digits(w) < Weight(|w|)
  {
    if w != [] {
      DigitsBelow(w[1..]);
    }
  }

  /** The value read off a varint: its digits, or, for ten bytes, the low 63
      bits and the lowest bit of the tenth. */
  lemma WrappedDigits(w: seq<byte>)
    requires IsVarint(w)
    ensures |w| < MAX_VARINT_BYTES ==> Digits(w) % TWO_64 == Digits(w)
    ensures |w| == MAX_VARINT_BYTES ==>
      && Digits(w) == Digits(w[..9]) + Weight(9) * w[9]
      && Digits(w) % TWO_64 == Digits(w[..9]) + w[9] % 2 * Weight(9)
      && Digits(w[..9]) < Weight(9)
  {
    WeightValues();
    if |w| < MAX_VARINT_BYTES {
      DigitsBelow(w);
      WeightGrows(|w|, 9);
      Fits(Digits(w));
    } else {
      DigitsSplit(w, 9);
      DigitsBelow(w[..9]);
      assert w[9..] == [w[9]] && w[9..][1..] == [];
      assert Digits(w[9..]) == w[9];
      TopBit(Digits(w[..9]), w[9]);
    }
  }

  /** The bytes read are the encoder's own exactly when there are no leading
      zeros and a tenth byte is 1; the encoder's are never longer, and as long
      exactly when there are no leading zeros and a tenth byte is odd. */
  lemma CanonicalForms(w: seq<byte>)
    requires IsVarint(w)
    ensures var v := Digits(w) % TWO_64;
      && (EncodeVarint(v) == w <==> Shortest(w) && (|w| == MAX_VARINT_BYTES ==> w[9] == 1))
      && VarintLen(v) <= |w|
      && (VarintLen(v) == |w| <==> Shortest(w) && (|w| == MAX_VARINT_BYTES ==> w[9] % 2 == 1))
  {
    if |w| == MAX_VARINT_BYTES {
      TenByteForms(w);
    } else {
      WrappedDigits(w);
      ShortForms(w);
    }
  }

  lemma ShortForms(w: seq<byte>)
    requires Terminated(w)
    ensures EncodeVarint(Digits(w)) == w <==> Shortest(w)
    ensures VarintLen(Digits(w)) <= |w|
    ensures VarintLen(Digits(w)) == |w| <==> Shortest(w)
  {
    EncodeTerminates(Digits(w));
    if Shortest(w) {
      EncodeShortest(w);
    } else {
      EncodePadded(w);
    }
  }

  lemma TenByteValue(low: nat, tenth: nat)
    requires low < Weight(9)
    ensures tenth % 2 == 1 <==> low + tenth % 2 * Weight(9) >= Weight(9)
    ensures tenth <= 1 <==> low + tenth % 2 * Weight(9) == low + Weight(9) * tenth
  {
    WeightValues();
  }

  lemma TenByteForms(w: seq<byte>)
    requires IsVarint(w) && |w| == MAX_VARINT_BYTES
    ensures var v := Digits(w) % TWO_64;
      && (EncodeVarint(v) == w <==> w[9] == 1)
      && VarintLen(v) <= MAX_VARINT_BYTES
      && (VarintLen(v) == MAX_VARINT_BYTES <==> w[9] % 2 == 1)
  {
    WrappedDigits(w);
    TenByteValue(Digits(w[..9]), w[9]);
    var v := Digits(w) % TWO_64;
    VarintLenIsLeast(v, 9);
    EncodeIsVarint(v);
    if w[9] == 1 {
      ShortForms(w);
    }
  }

  /** Of a tenth byte only the lowest bit is read, so the reader is not
      injective on ten bytes. */
  lemma TenthByteKeepsOneBit(w: seq<byte>, tenth: byte)
    requires IsVarint(w) && |w| == MAX_VARINT_BYTES && tenth < 128
    ensures ReadVarint(w[9 := tenth], 0) == ReadVarint(w, 0) <==> tenth % 2 == w[9] % 2
  {
    var u := w[9 := tenth];
    assert u[..9] == w[..9] && u[0..10] == u && w[0..10] == w;
    ReadsVarints(u, 0, 10);
    ReadsVarints(w, 0, 10);
    WrappedDigits(u);
    WrappedDigits(w);
    WeightValues();
  }
}
