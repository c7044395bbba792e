/** Where the body of an undecoded packet ends: one reader per layout the codec can skip. The
    bytes of a Native block are decoded by a library; `Walkers` says what it does.
 */
module PacketBodies {
  import opened Bytes
  import opened Options
  import opened Wire
  import opened WireExact
  import opened Revisions
  import CompressedFrames

  const UUID_SIZE := 16
  const INT32: nat := 4

  datatype Direction = FromClient | ToUpstream

  /** The library decoders: how many bytes a Native block takes at the head of the stream, how a
      frame decompresses, and what the decoders of a compressed block and of compressed table
      columns say after the bytes they have been given. */
  datatype Walkers = Walkers(
    block: seq<byte> -> Option<nat>, decompress: CompressedFrames.Decompress,
    blockBody: CompressedFrames.Body, columnsBody: CompressedFrames.Body)

  /** A frame has the size it announces, and every body has a first byte. */
  ghost predicate Sound(w: Walkers) {
    && CompressedFrames.Faithful(w.decompress)
    && w.blockBody([]) == CompressedFrames.More && w.columnsBody([]) == CompressedFrames.More
  }

  datatype Session = Session(dir: Direction, rev: int, compression: bool, walkers: Walkers)

  function UVarInts(b: seq<byte>, n: nat): (r: Parsed<()>)
    ensures r.Got? ==> |r.rest| <= |b|
    decreases n
  {
    if n == 0 then Got((), b)
    else
      var (_, b1) :- UVarInt(b);
      UVarInts(b1, n - 1)
  }

  function StrPair(b: seq<byte>): (r: Parsed<()>)
    ensures r.Got? ==> |r.rest| <= |b|
  {
    var (_, b1) :- Str(b);
    var (_, b2) :- Str(b1);
    Got((), b2)
  }

  function StrPairs(b: seq<byte>, n: nat): (r: Parsed<()>)
    ensures r.Got? ==> |r.rest| <= |b|
    decreases n
  {
    if n == 0 then Got((), b)
    else
      var (_, b1) :- StrPair(b);
      StrPairs(b1, n - 1)
  }

  function TablesStatusRequest(b: seq<byte>): (r: Parsed<()>)
    ensures r.Got? ==> |r.rest| <= |b|
  {
    var (n, b1) :- UVarInt(b);
    StrPairs(b1, n)
  }

  function ProgressFields(rev: int): (n: nat) {
    3 + (if rev >= TOTAL_BYTES then 1 else 0) + (if rev >= CLIENT_WRITE_INFO then 2 else 0)
    + (if rev >= SERVER_QUERY_TIME then 1 else 0)
  }

  function BoolThenUVarInt(b: seq<byte>): (r: Parsed<()>)
    ensures r.Got? ==> |r.rest| <= |b|
  {
    var (_, b1) :- Bool(b);
    UVarInts(b1, 1)
  }

  function Profile(b: seq<byte>, rev: int): (r: Parsed<()>)
    ensures r.Got? ==> |r.rest| <= |b|
  {
    var (_, b1) :- UVarInts(b, 3);
    var (_, b2) :- BoolThenUVarInt(b1);
    var (_, b3) :- Bool(b2);
    if rev < ROWS_BEFORE_AGGREGATION then Got((), b3) else BoolThenUVarInt(b3)
  }

  function TableStatus(b: seq<byte>, rev: int): (r: Parsed<()>)
    ensures r.Got? ==> |r.rest| <= |b|
  {
    var (_, b1) :- Str(b);
    var (_, b2) :- Str(b1);
    var (replicated, b3) :- Bool(b2);
    if !replicated then Got((), b3) else UVarInts(b3, if rev >= TABLE_READ_ONLY then 2 else 1)
  }

  function TableStatuses(b: seq<byte>, rev: int, n: nat): (r: Parsed<()>)
    ensures r.Got? ==> |r.rest| <= |b|
    decreases n
  {
    if n == 0 then Got((), b)
    else
      var (_, b1) :- TableStatus(b, rev);
      TableStatuses(b1, rev, n - 1)
  }

  function TablesStatusResponse(b: seq<byte>, rev: int): (r: Parsed<()>)
    ensures r.Got? ==> |r.rest| <= |b|
  {
    var (n, b1) :- UVarInt(b);
    TableStatuses(b1, rev, n)
  }

  function Skip(b: seq<byte>, n: nat): (r: Parsed<()>)
    ensures r.Got? ==> |r.rest| <= |b|
  {
    if n > |b| then Bad else Got((), b[n..])
  }

  function PartUuids(b: seq<byte>): (r: Parsed<()>)
    ensures r.Got? ==> |r.rest| <= |b|
  {
    var (n, b1) :- UVarInt(b);
    if n > (TWO_63 - 1) / UUID_SIZE then Bad else Skip(b1, n * UUID_SIZE)
  }

  function Exception(b: seq<byte>): (r: Parsed<()>)
    ensures r.Got? ==> |r.rest| <= |b|
  {
    var (_, b1) :- Skip(b, INT32);
    var (_, b2) :- StrPairs(b1, 1);
    var (_, b3) :- Str(b2);
    var (_, b4) :- Bool(b3);
    Got((), b4)
  }

  // ---------------------------------------------------------------------------
  // Data blocks

  function BlockInfo(b: seq<byte>): (r: Parsed<()>)
    ensures r.Got? ==> |r.rest| < |b|
    decreases |b|
  {
    var (field, b1) :- UVarInt(b);
    if field == 0 then Got((), b1)
    else
      var (_, b2) :- BlockInfoField(b1, field);
      BlockInfo(b2)
  }

  function BlockInfoField(b: seq<byte>, field: nat): (r: Parsed<()>)
    ensures r.Got? ==> |r.rest| <= |b|
  {
    if field == 1 then
      var (_, b1) :- Bool(b);
      Got((), b1)
    else if field == 2 then Skip(b, INT32)
    else if field == 3 then
      var (n, b1) :- UVarInt(b);
      Skip(b1, n * INT32)
    else Bad
  }

  /** The bytes that `v` takes as a varint when written shortest. */
  function EncLen(v: u64): (n: nat) { |PutUVarInt(v)| }

  /** The count of consumed bytes the BlockInfo decoder reports: it adds up the shortest lengths
      of the varints it reads. */
  function Counted(b: seq<byte>): (n: nat)
    requires BlockInfo(b).Got?
    decreases |b|
  {
    var field := UVarInt(b);
    if field.value == 0 then EncLen(0)
    else
      EncLen(field.value) + FieldCounted(field.rest, field.value)
      + Counted(BlockInfoField(field.rest, field.value).rest)
  }

  function FieldCounted(b: seq<byte>, field: nat): (n: nat)
    requires BlockInfoField(b, field).Got?
  {
    if field == 1 then 1 else if field == 2 then INT32 else EncLen(UVarInt(b).value) + UVarInt(b).value * INT32
  }

  /** Every varint is written in as few bytes as possible. */
  predicate InfoShortest(b: seq<byte>)
    requires BlockInfo(b).Got?
    decreases |b|
  {
    var field := UVarInt(b);
    && Shortest(b)
    && (field.value != 0 ==>
          && (field.value == 3 ==> Shortest(field.rest))
          && InfoShortest(BlockInfoField(field.rest, field.value).rest))
  }

  lemma {:induction false} EncLenIsLeast(b: seq<byte>, i: nat)
    requires i <= 9 && UVarIntFrom(b, i).Got?
    ensures var v := UVarIntFrom(b, i);
            && |PutUVarInt(v.value)| <= |b| - |v.rest|
            && (|PutUVarInt(v.value)| == |b| - |v.rest| <==> Shortest(b))
    decreases |b|
  {
    if b[0] >= 128 {
      var tail := UVarIntFrom(b[1..], i + 1);
      EncLenIsLeast(b[1..], i + 1);
      ZeroVarInt(b[1..], i + 1);
      DigitsOf(b[0] - 128, tail.value);
    }
  }

  lemma ShortestIff(b: seq<byte>)
    requires UVarInt(b).Got?
    ensures EncLen(UVarInt(b).value) <= |b| - |UVarInt(b).rest|
    ensures EncLen(UVarInt(b).value) == |b| - |UVarInt(b).rest| <==> Shortest(b)
  {
    EncLenIsLeast(b, 0);
  }

  lemma FieldCountIff(b: seq<byte>, field: nat)
    requires BlockInfoField(b, field).Got?
    ensures FieldCounted(b, field) <= |b| - |BlockInfoField(b, field).rest|
    ensures FieldCounted(b, field) == |b| - |BlockInfoField(b, field).rest| <==> (field == 3 ==> Shortest(b))
  {
    if field == 3 { ShortestIff(b); }
  }

  /** The reported count never exceeds the bytes consumed, and equals them exactly when every
      varint of the BlockInfo is written shortest. */
  lemma {:induction false} CountIsExactIff(b: seq<byte>)
    requires BlockInfo(b).Got?
    ensures Counted(b) <= |b| - |BlockInfo(b).rest|
    ensures Counted(b) == |b| - |BlockInfo(b).rest| <==> InfoShortest(b)
    decreases |b|
  {
    var field := UVarInt(b);
    ShortestIff(b);
    if field.value != 0 {
      FieldCountIff(field.rest, field.value);
      CountIsExactIff(BlockInfoField(field.rest, field.value).rest);
    }
  }

  /** A zero field written in two bytes is counted as one. */
  lemma CountCanFallShort()
    ensures BlockInfo([128, 0]) == Got((), []) && Counted([128, 0]) == 1
  {
    var b: seq<byte> := [128, 0];
    assert b[1..] == [0] && [0][1..] == [];
    assert UVarIntFrom([0], 1) == Got(0, []);
    assert UVarIntFrom(b, 0) == Got(0, []);
  }

  /** A compressed body: whole frames, the last of which ends where the body does. */
  function Frames(b: seq<byte>, d: CompressedFrames.Decompress, body: CompressedFrames.Body): (r: Parsed<()>)
    ensures r.Got? ==> |r.rest| <= |b|
  {
    match CompressedFrames.Walk([], b, d, body, [])
    case Success(t) => Got((), t)
    case _ => Bad
  }

  predicate StartsEmpty(b: seq<byte>) { |b| >= 2 && b[0] == 0 && b[1] == 0 }

  function PlainBlock(b: seq<byte>, w: Walkers): (r: Parsed<()>)
    ensures r.Got? ==> |r.rest| <= |b|
  {
    var (_, b1) :- BlockInfo(b);
    if StartsEmpty(b1) then Skip(b1, 2)
    else if w.block(b1).None? then Bad
    else Skip(b1, w.block(b1).value)
  }

  function DataBlock(b: seq<byte>, compressed: bool, w: Walkers): (r: Parsed<()>)
    ensures r.Got? ==> |r.rest| <= |b|
  {
    var (_, b1) :- Str(b);
    if compressed then Frames(b1, w.decompress, w.blockBody) else PlainBlock(b1, w)
  }

  // ---------------------------------------------------------------------------
  // Dispatch

  function ClientBody(b: seq<byte>, code: nat, s: Session): (r: Parsed<()>)
    ensures r.Got? ==> |r.rest| <= |b|
  {
    match code
    case 4 | 3 => Got((), b)
    case 2 | 7 => DataBlock(b, s.compression, s.walkers)
    case 5 => TablesStatusRequest(b)
    case _ => Bad
  }

  function ServerBody(b: seq<byte>, code: nat, s: Session): (r: Parsed<()>)
    ensures r.Got? ==> |r.rest| <= |b|
  {
    match code
    case 4 | 5 | 13 => Got((), b)
    case 1 | 7 | 8 => DataBlock(b, s.compression, s.walkers)
    case 10 | 14 => DataBlock(b, s.compression && s.rev >= COMPRESSED_LOGS, s.walkers)
    case 2 => Exception(b)
    case 3 => UVarInts(b, ProgressFields(s.rev))
    case 6 => Profile(b, s.rev)
    case 9 => TablesStatusResponse(b, s.rev)
    case 11 =>
      if s.rev >= COMPRESSED_LOGS && s.compression then Frames(b, s.walkers.decompress, s.walkers.columnsBody)
      else StrPairs(b, 1)
    case 12 => PartUuids(b)
    case 17 | 18 =>
      var (_, b1) :- Str(b);
      Got((), b1)
    case _ => Bad
  }

  function Body(b: seq<byte>, code: nat, s: Session): (r: Parsed<()>)
    ensures r.Got? ==> |r.rest| <= |b|
  {
    if s.dir == FromClient then ClientBody(b, code, s) else ServerBody(b, code, s)
  }

  /** A whole packet: its type, and where it ends. */
  function Packet(b: seq<byte>, s: Session): (r: Parsed<nat>)
    ensures r.Got? ==> |r.rest| < |b|
  {
    var (code, b1) :- UVarInt(b);
    var (_, b2) :- Body(b1, code, s);
    Got(code, b2)
  }
}
