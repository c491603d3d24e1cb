/**
 From a Protobuf descriptor's path to a message-index path,
 `message_index_path_from` of src/protobuf/mod.rs.
 */
module DescriptorPath {
  import opened Integers
  import opened Prelude
  import opened MessageIndex

  const FILE_MESSAGE_TYPE_FIELD := 4
  const NESTED_TYPE_FIELD := 3

  type i32 = x: int | -0x8000_0000 <= x < 0x8000_0000

  datatype PathError = UnexpectedShape | NotAMessage | NotNested | NegativePosition

  /** Every level of `path` goes through the nested-type field. */
  predicate AllNested(path: seq<i32>)
    requires |path| % 2 == 0
  {
    path == [] || (path[0] == NESTED_TYPE_FIELD && AllNested(path[2..]))
  }

  /** Every second element, as unsigned positions. */
  function Positions(path: seq<i32>): Result<Path, PathError>
    requires |path| % 2 == 0
  {
    if path == [] then Ok([])
    else if path[1] < 0 then Err(NegativePosition)
    else
      match Positions(path[2..])
      case Err(e) => Err(e)
      case Ok(rest) => Ok([path[1]] + rest)
  }

  function MessageIndexPathFrom(path: seq<i32>): Result<Path, PathError> {
    if |path| < 2 || |path| % 2 != 0 then Err(UnexpectedShape)
    else if path[0] != FILE_MESSAGE_TYPE_FIELD then Err(NotAMessage)
    else if !AllNested(path[2..]) then Err(NotNested)
    else Positions(path)
  }

  /** The descriptor path of the message at `indexes`: the field number of each
      level before its position. */
  function Levels(field: i32, indexes: seq<i32>): seq<i32>
    decreases |indexes|
  {
    if indexes == [] then [] else [field, indexes[0]] + Levels(NESTED_TYPE_FIELD, indexes[1..])
  }

  ghost predicate NonNegative(indexes: seq<i32>) {
    forall i :: 0 <= i < |indexes| ==> indexes[i] >= 0
  }

  lemma {:induction false} NestedExact(path: seq<i32>, indexes: seq<i32>)
    requires |path| % 2 == 0 && NonNegative(indexes)
    ensures AllNested(path) && Positions(path) == Ok(indexes) <==> path == Levels(NESTED_TYPE_FIELD, indexes)
    decreases |path|
  {
    if path != [] && indexes != [] {
      var t, rest := path[2..], indexes[1..];
      NestedExact(t, rest);
      assert path == [path[0], path[1]] + t && indexes == [indexes[0]] + rest;
      assert Levels(NESTED_TYPE_FIELD, indexes)[2..] == Levels(NESTED_TYPE_FIELD, rest);
    }
  }

  /** A path is derived from exactly the descriptor paths of messages, and it is
      the positions along the way. */
  lemma PathFromExact(path: seq<i32>, indexes: seq<i32>)
    requires NonNegative(indexes)
    ensures MessageIndexPathFrom(path) == Ok(indexes) <==>
      indexes != [] && path == Levels(FILE_MESSAGE_TYPE_FIELD, indexes)
  {
    if |path| >= 2 && |path| % 2 == 0 && indexes != [] {
      var t, rest := path[2..], indexes[1..];
      NestedExact(t, rest);
      assert path == [path[0], path[1]] + t && indexes == [indexes[0]] + rest;
      assert Levels(FILE_MESSAGE_TYPE_FIELD, indexes)[2..] == Levels(NESTED_TYPE_FIELD, rest);
    } else if indexes != [] {
      LevelsLength(FILE_MESSAGE_TYPE_FIELD, indexes);
    }
  }

  /** What is refused, and as what. */
  lemma PathRefused(path: seq<i32>)
    ensures MessageIndexPathFrom(path) == Err(UnexpectedShape) <==> |path| < 2 || |path| % 2 == 1
    ensures MessageIndexPathFrom(path) == Err(NotAMessage) <==> |path| >= 2 && |path| % 2 == 0 && path[0] != 4
    ensures MessageIndexPathFrom(path) == Err(NotNested) <==>
      && |path| >= 2 && |path| % 2 == 0 && path[0] == 4
      && exists k :: 2 <= k < |path| && k % 2 == 0 && path[k] != 3
    ensures MessageIndexPathFrom(path) == Err(NegativePosition) <==>
      && |path| >= 2 && |path| % 2 == 0 && path[0] == 4
      && (forall k :: 2 <= k < |path| && k % 2 == 0 ==> path[k] == 3)
      && exists k :: 0 <= k < |path| && k % 2 == 1 && path[k] < 0
  {
    if |path| >= 2 && |path| % 2 == 0 {
      AllNestedMeans(path[2..]);
      PositionsFail(path);
      TailEntries(path);
    }
  }

  lemma TailEntries(path: seq<i32>)
    requires |path| >= 2
    ensures forall k :: 2 <= k < |path| ==> path[k] == path[2..][k - 2]
    ensures forall k :: 0 <= k < |path[2..]| ==> path[2..][k] == path[k + 2]
  {
  }

  lemma {:induction false} AllNestedMeans(path: seq<i32>)
    requires |path| % 2 == 0
    ensures AllNested(path) <==> forall k :: 0 <= k < |path| && k % 2 == 0 ==> path[k] == 3
  {
    if path != [] {
      AllNestedMeans(path[2..]);
      TailEntries(path);
    }
  }

  lemma {:induction false} PositionsFail(path: seq<i32>)
    requires |path| % 2 == 0
    ensures Positions(path).Err? <==> exists k :: 0 <= k < |path| && k % 2 == 1 && path[k] < 0
    ensures Positions(path).Err? ==> Positions(path) == Err(NegativePosition)
  {
    if path != [] {
      PositionsFail(path[2..]);
      TailEntries(path);
    }
  }

  lemma {:induction false} LevelsLength(field: i32, indexes: seq<i32>)
    ensures |Levels(field, indexes)| == 2 * |indexes|
    decreases |indexes|
  {
    if indexes != [] {
      LevelsLength(NESTED_TYPE_FIELD, indexes[1..]);
    }
  }

  /** What is derived from a descriptor reaches the wire and comes back. */
  lemma PathReachesTheWire(path: seq<i32>, payload: seq<byte>)
    requires MessageIndexPathFrom(path).Ok? && |path| <= 2 * MAX_MESSAGE_INDEX_COUNT
    ensures var indexes := MessageIndexPathFrom(path).value;
      DecodeMessageIndexes(EncodeMessageIndexes(indexes) + payload) == Ok((indexes, MessageIndexLen(indexes)))
  {
    var indexes := MessageIndexPathFrom(path).value;
    PositionsLength(path);
    IndexesRoundTrip(indexes, payload);
  }

  lemma {:induction false} PositionsLength(path: seq<i32>)
    requires |path| % 2 == 0 && Positions(path).Ok?
    ensures 2 * |Positions(path).value| == |path|
  {
    if path != [] {
      PositionsLength(path[2..]);
    }
  }
}
