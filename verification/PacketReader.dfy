/** readPacket and the skip functions, run over the capture reader. */
module PacketReader {
  import opened Bytes
  import opened Options
  import opened Wire
  import opened PacketBodies
  import PacketLayouts
  import opened Capture
  import opened Revisions
  import CompressedFrames
  import opened CompressedReader

  method SkipUVarInts(c: CaptureReader, n: nat) returns (r: Option<()>)
    requires c.Valid()
    modifies c`rest, c`captured
    ensures c.Valid() && c.Stream() == old(c.Stream())
    ensures Took(UVarInts(old(c.rest), n), old(c.rest), old(c.Room()), r, c.rest)
  {
    for i := 0 to n
      invariant c.Valid() && c.Stream() == old(c.Stream()) && |c.rest| <= |old(c.rest)|
      invariant UVarInts(old(c.rest), n) == UVarInts(c.rest, n - i)
      invariant Fits(old(c.Room()), |old(c.rest)| - |c.rest|)
    {
      var v := c.ReadUVarInt();
      if v.None? { return None; }
    }
    r := Some(());
  }

  method SkipStrPair(c: CaptureReader) returns (r: Option<()>)
    requires c.Valid()
    modifies c`rest, c`captured
    ensures c.Valid() && c.Stream() == old(c.Stream())
    ensures Took(StrPair(old(c.rest)), old(c.rest), old(c.Room()), r, c.rest)
  {
    var first := c.ReadStr();
    if first.None? { return None; }
    r := c.ReadStr();
  }

  method SkipStrPairs(c: CaptureReader, n: nat) returns (r: Option<()>)
    requires c.Valid()
    modifies c`rest, c`captured
    ensures c.Valid() && c.Stream() == old(c.Stream())
    ensures Took(StrPairs(old(c.rest), n), old(c.rest), old(c.Room()), r, c.rest)
  {
    for i := 0 to n
      invariant c.Valid() && c.Stream() == old(c.Stream()) && |c.rest| <= |old(c.rest)|
      invariant StrPairs(old(c.rest), n) == StrPairs(c.rest, n - i)
      invariant Fits(old(c.Room()), |old(c.rest)| - |c.rest|)
    {
      var pair := SkipStrPair(c);
      if pair.None? { return None; }
    }
    r := Some(());
  }

  method SkipTablesStatusRequest(c: CaptureReader) returns (r: Option<()>)
    requires c.Valid()
    modifies c`rest, c`captured
    ensures c.Valid() && c.Stream() == old(c.Stream())
    ensures Took(TablesStatusRequest(old(c.rest)), old(c.rest), old(c.Room()), r, c.rest)
  {
    var n := c.ReadUVarInt();
    if n.None? { return None; }
    r := SkipStrPairs(c, n.value);
  }

  method SkipBoolThenUVarInt(c: CaptureReader) returns (r: Option<()>)
    requires c.Valid()
    modifies c`rest, c`captured
    ensures c.Valid() && c.Stream() == old(c.Stream())
    ensures Took(BoolThenUVarInt(old(c.rest)), old(c.rest), old(c.Room()), r, c.rest)
  {
    var flag := c.ReadBool();
    if flag.None? { return None; }
    r := SkipUVarInts(c, 1);
  }

  method SkipProfile(c: CaptureReader, rev: int) returns (r: Option<()>)
    requires c.Valid()
    modifies c`rest, c`captured
    ensures c.Valid() && c.Stream() == old(c.Stream())
    ensures Took(Profile(old(c.rest), rev), old(c.rest), old(c.Room()), r, c.rest)
  {
    var counters := SkipUVarInts(c, 3);
    if counters.None? { return None; }
    var limits := SkipBoolThenUVarInt(c);
    if limits.None? { return None; }
    var obsolete := c.ReadBool();
    if obsolete.None? { return None; }
    if rev < ROWS_BEFORE_AGGREGATION { return Some(()); }
    r := SkipBoolThenUVarInt(c);
  }

  method SkipTableStatus(c: CaptureReader, rev: int) returns (r: Option<()>)
    requires c.Valid()
    modifies c`rest, c`captured
    ensures c.Valid() && c.Stream() == old(c.Stream())
    ensures Took(TableStatus(old(c.rest), rev), old(c.rest), old(c.Room()), r, c.rest)
  {
    var database := c.ReadStr();
    if database.None? { return None; }
    var table := c.ReadStr();
    if table.None? { return None; }
    var replicated := c.ReadBool();
    if replicated.None? { return None; }
    if !replicated.value { return Some(()); }
    r := SkipUVarInts(c, if rev >= TABLE_READ_ONLY then 2 else 1);
  }

  method SkipTablesStatusResponse(c: CaptureReader, rev: int) returns (r: Option<()>)
    requires c.Valid()
    modifies c`rest, c`captured
    ensures c.Valid() && c.Stream() == old(c.Stream())
    ensures Took(TablesStatusResponse(old(c.rest), rev), old(c.rest), old(c.Room()), r, c.rest)
  {
    var count := c.ReadUVarInt();
    if count.None? { return None; }
    var n := count.value;
    for i := 0 to n
      invariant c.Valid() && c.Stream() == old(c.Stream()) && |c.rest| <= |old(c.rest)|
      invariant TablesStatusResponse(old(c.rest), rev) == TableStatuses(c.rest, rev, n - i)
      invariant Fits(old(c.Room()), |old(c.rest)| - |c.rest|)
    {
      var one := SkipTableStatus(c, rev);
      if one.None? { return None; }
    }
    r := Some(());
  }

  method SkipException(c: CaptureReader) returns (r: Option<()>)
    requires c.Valid()
    modifies c`rest, c`captured
    ensures c.Valid() && c.Stream() == old(c.Stream())
    ensures Took(Exception(old(c.rest)), old(c.rest), old(c.Room()), r, c.rest)
  {
    var code := c.ReadEach(INT32);
    if code.None? { return None; }
    var names := SkipStrPairs(c, 1);
    if names.None? { return None; }
    var stack := c.ReadStr();
    if stack.None? { return None; }
    var nested := c.ReadBool();
    r := if nested.None? then None else Some(());
  }

  /** The one skip that can lose bytes: a short bulk read is consumed and not captured. */
  method SkipPartUuids(c: CaptureReader) returns (r: Option<()>)
    requires c.Valid()
    modifies c`rest, c`captured
    ensures c.Valid() && c.captured <= old(c.Stream()) && (r.Some? ==> c.Stream() == old(c.Stream()))
    ensures Took(PartUuids(old(c.rest)), old(c.rest), old(c.Room()), r, c.rest)
  {
    var n := c.ReadUVarInt();
    if n.None? || n.value > (TWO_63 - 1) / UUID_SIZE { return None; }
    r := c.ReadFullRaw(n.value * UUID_SIZE);
  }

  // ---------------------------------------------------------------------------
  // Data blocks

  method SkipInts(c: CaptureReader, n: nat) returns (r: Option<()>)
    requires c.Valid()
    modifies c`rest, c`captured
    ensures c.Valid() && c.Stream() == old(c.Stream())
    ensures Took(Skip(old(c.rest), n * INT32), old(c.rest), old(c.Room()), r, c.rest)
  {
    for i := 0 to n
      invariant c.Valid() && c.Stream() == old(c.Stream())
      invariant i * INT32 <= |old(c.rest)| && c.rest == old(c.rest)[i * INT32..] && Fits(old(c.Room()), i * INT32)
    {
      var one := c.ReadEach(INT32);
      if one.None? { return None; }
    }
    r := Some(());
  }

  method UVarIntEncLen(v: u64) returns (n: nat)
    ensures n == EncLen(v)
  {
    n := 1;
    var left := v;
    while left >= 0x80
      invariant n - 1 + EncLen(left) == EncLen(v)
    {
      left, n := left / 128, n + 1;
    }
  }

  method SkipBlockInfoField(c: CaptureReader, field: nat) returns (r: Option<()>, consumed: nat)
    requires c.Valid()
    modifies c`rest, c`captured
    ensures c.Valid() && c.Stream() == old(c.Stream())
    ensures Took(BlockInfoField(old(c.rest), field), old(c.rest), old(c.Room()), r, c.rest)
    ensures r.Some? ==> consumed == FieldCounted(old(c.rest), field)
  {
    consumed := 0;
    if field == 1 {
      var overflows := c.ReadBool();
      r, consumed := if overflows.None? then None else Some(()), 1;
    } else if field == 2 {
      r := c.ReadEach(INT32);
      consumed := INT32;
    } else if field == 3 {
      var n := c.ReadUVarInt();
      if n.None? { return None, 0; }
      consumed := UVarIntEncLen(n.value);
      r := SkipInts(c, n.value);
      consumed := consumed + n.value * INT32;
    } else {
      r := None;
    }
  }

  /** Fields until the zero field. */
  method SkipBlockInfo(c: CaptureReader) returns (r: Option<()>, consumed: nat)
    requires c.Valid()
    modifies c`rest, c`captured
    ensures c.Valid() && c.Stream() == old(c.Stream())
    ensures Took(BlockInfo(old(c.rest)), old(c.rest), old(c.Room()), r, c.rest)
    ensures r.Some? ==> consumed == Counted(old(c.rest))
  {
    consumed := 0;
    while true
      invariant c.Valid() && c.Stream() == old(c.Stream()) && |c.rest| <= |old(c.rest)|
      invariant BlockInfo(old(c.rest)) == BlockInfo(c.rest)
      invariant BlockInfo(c.rest).Got? ==> consumed + Counted(c.rest) == Counted(old(c.rest))
      invariant Fits(old(c.Room()), |old(c.rest)| - |c.rest|)
      decreases |c.rest|
    {
      var field := c.ReadUVarInt();
      if field.None? { return None, consumed; }
      var width := UVarIntEncLen(field.value);
      consumed := consumed + width;
      if field.value == 0 { return Some(()), consumed; }
      var one, taken := SkipBlockInfoField(c, field.value);
      if one.None? { return None, consumed; }
      consumed := consumed + taken;
    }
  }

  /** A walk that sees only the head of the stream. */
  lemma FramesWithin(near: seq<byte>, b: seq<byte>, d: CompressedFrames.Decompress, body: CompressedFrames.Body)
    requires near <= b
    ensures var o, p := CompressedFrames.Walk([], near, d, body, []), Frames(b, d, body);
            && (o.Success? <==> p.Got? && |b| - |p.rest| <= |near|)
            && (o.Success? ==> |near| - |o.rest| == |b| - |p.rest| && p.rest == b[|b| - |p.rest|..])
  {
    var far := b[|near|..];
    assert b == near + far;
    CompressedFrames.WalkWithin([], near, far, d, body, []);
    if Frames(b, d, body).Got? { var fs, rest := CompressedFrames.WalkEnds([], b, d, body, []); }
  }

  lemma TakenOff(captured: seq<byte>, rest: seq<byte>, captured': seq<byte>, rest': seq<byte>)
    requires captured + rest == captured' + rest' && |captured| <= |captured'|
    ensures rest' == rest[|captured'| - |captured|..]
  {
    assert (captured' + rest')[|captured'|..] == rest';
    assert (captured + rest)[|captured'|..] == rest[|captured'| - |captured|..];
  }

  /** The compressed walk, under the capture limit. */
  method WalkFrames(c: CaptureReader, d: CompressedFrames.Decompress, body: CompressedFrames.Body) returns (r: Option<()>)
    requires c.Valid() && CompressedFrames.Faithful(d) && body([]) == CompressedFrames.More
    modifies c`rest, c`captured
    ensures c.Valid() && c.Stream() == old(c.Stream())
    ensures Took(Frames(old(c.rest), d, body), old(c.rest), old(c.Room()), r, c.rest)
  {
    FramesWithin(c.Reach(), c.rest, d, body);
    var walker := new CompressedPacketReader(d, c);
    var o := walker.WalkBody(body);
    if o.Success? { TakenOff(old(c.captured), old(c.rest), c.captured, c.rest); }
    r := if o.Success? then Some(()) else None;
  }

  method WalkPlainBlock(c: CaptureReader, w: Walkers) returns (r: Option<()>)
    requires c.Valid()
    modifies c`rest, c`captured
    ensures c.Valid() && c.Stream() == old(c.Stream())
    ensures Took(PlainBlock(old(c.rest), w), old(c.rest), old(c.Room()), r, c.rest)
  {
    var info, consumed := SkipBlockInfo(c);
    if info.None? { return None; }
    if StartsEmpty(c.rest) {
      r := c.ReadFullRaw(2);
    } else {
      var n := w.block(c.rest);
      if n.None? { return None; }
      r := c.ReadEach(n.value);
    }
  }

  method WalkDataBlock(c: CaptureReader, compressed: bool, w: Walkers) returns (r: Option<()>)
    requires c.Valid() && Sound(w)
    modifies c`rest, c`captured
    ensures c.Valid() && c.Stream() == old(c.Stream())
    ensures Took(DataBlock(old(c.rest), compressed, w), old(c.rest), old(c.Room()), r, c.rest)
  {
    var name := c.ReadStr();
    if name.None? { return None; }
    if compressed {
      r := WalkFrames(c, w.decompress, w.blockBody);
    } else {
      r := WalkPlainBlock(c, w);
    }
  }

  // ---------------------------------------------------------------------------
  // Packets

  method SkipClientBody(c: CaptureReader, code: nat, s: Session) returns (r: Option<()>)
    requires c.Valid() && Sound(s.walkers)
    modifies c`rest, c`captured
    ensures c.Valid() && c.Stream() == old(c.Stream())
    ensures Took(ClientBody(old(c.rest), code, s), old(c.rest), old(c.Room()), r, c.rest)
  {
    if code == 4 || code == 3 { r := Some(()); }
    else if code == 2 || code == 7 { r := WalkDataBlock(c, s.compression, s.walkers); }
    else if code == 5 { r := SkipTablesStatusRequest(c); }
    else { r := None; }
  }

  method SkipServerBody(c: CaptureReader, code: nat, s: Session) returns (r: Option<()>)
    requires c.Valid() && Sound(s.walkers)
    modifies c`rest, c`captured
    ensures c.Valid() && c.captured <= old(c.Stream()) && (r.Some? ==> c.Stream() == old(c.Stream()))
    ensures Took(ServerBody(old(c.rest), code, s), old(c.rest), old(c.Room()), r, c.rest)
    ensures forall p, t :: PacketLayouts.Written(old(c.rest), p, s, t) && code == PacketLayouts.ServerCode(p) ==>
              Took(Got((), t), old(c.rest), old(c.Room()), r, c.rest)
  {
    forall p, t | PacketLayouts.Written(c.rest, p, s, t) && code == PacketLayouts.ServerCode(p)
      ensures ServerBody(c.rest, code, s) == Got((), t)
    {
      PacketLayouts.ServerBodyEnds(p, s, t);
    }
    if code == 4 || code == 5 || code == 13 { r := Some(()); }
    else if code == 1 || code == 7 || code == 8 { r := WalkDataBlock(c, s.compression, s.walkers); }
    else if code == 10 || code == 14 {
      r := WalkDataBlock(c, s.compression && s.rev >= COMPRESSED_LOGS, s.walkers);
    }
    else if code == 2 { r := SkipException(c); }
    else if code == 3 { r := SkipUVarInts(c, ProgressFields(s.rev)); }
    else if code == 6 { r := SkipProfile(c, s.rev); }
    else if code == 9 { r := SkipTablesStatusResponse(c, s.rev); }
    else if code == 11 {
      if s.rev >= COMPRESSED_LOGS && s.compression {
        r := WalkFrames(c, s.walkers.decompress, s.walkers.columnsBody);
      } else {
        r := SkipStrPairs(c, 1);
      }
    }
    else if code == 12 { r := SkipPartUuids(c); }
    else if code == 17 || code == 18 { r := c.ReadStr(); }
    else { r := None; }
  }

  method SkipBody(c: CaptureReader, code: nat, s: Session) returns (r: Option<()>)
    requires c.Valid() && Sound(s.walkers)
    modifies c`rest, c`captured
    ensures c.Valid() && c.captured <= old(c.Stream()) && (r.Some? ==> c.Stream() == old(c.Stream()))
    ensures Took(Body(old(c.rest), code, s), old(c.rest), old(c.Room()), r, c.rest)
  {
    if s.dir == FromClient { r := SkipClientBody(c, code, s); } else { r := SkipServerBody(c, code, s); }
  }

  /** What is bounded: nothing, client Data packets, or every packet. */
  datatype Bound = Unbounded | DataOnly(max: u64) | Every(max: u64)

  const CLIENT_DATA := 2

  /** The most bytes a packet may have on the wire. */
  function MaxBytes(bound: Bound, code: nat, s: Session): (m: Option<nat>) {
    if bound.Every? || (bound.DataOnly? && s.dir == FromClient && code == CLIENT_DATA)
    then Some(if bound.max >= TWO_63 then TWO_63 - 1 else bound.max)
    else None
  }

  datatype Result = Complete(code: nat, raw: seq<byte>) | Partial(code: nat, raw: seq<byte>) | Nothing

  /** The rest of a packet, once its type is known. */
  method ReadBody(c: CaptureReader, code: nat, s: Session, bound: Bound) returns (r: Option<()>)
    requires c.Valid() && !c.limited && Sound(s.walkers)
    modifies c
    ensures c.captured <= old(c.Stream()) && (r.Some? ==> c.Stream() == old(c.Stream()))
    ensures var p, max := Body(old(c.rest), code, s), MaxBytes(bound, code, s);
            && (r.Some? <==> p.Got? && Fits(max, |old(c.captured)| + |old(c.rest)| - |p.rest|))
            && (r.Some? ==> c.rest == p.rest)
  {
    if bound.Every? || (bound.DataOnly? && s.dir == FromClient && code == CLIENT_DATA) {
      var ok := c.SetLimit(bound.max);
      if !ok { return None; }
    }
    r := SkipBody(c, code, s);
  }

  /** A packet comes back exactly when it is complete and within its bound, and then its raw
      bytes are what was taken off the stream; a failed one reports a prefix of it. */
  method ReadPacket(c: CaptureReader, s: Session, bound: Bound) returns (r: Result)
    requires Sound(s.walkers)
    modifies c
    ensures var p := Packet(old(c.rest), s);
            r.Complete? <==> p.Got? && Fits(MaxBytes(bound, p.value, s), |old(c.rest)| - |p.rest|)
    ensures r.Complete? ==>
              var p := Packet(old(c.rest), s);
              r.code == p.value && c.rest == p.rest && old(c.rest) == r.raw + c.rest
    ensures r.Partial? ==> r.raw <= old(c.rest)
    ensures r.Nothing? <==> UVarInt(old(c.rest)).Bad?
    ensures forall code: u64, t ::
              |t| <= |old(c.rest)| && PacketLayouts.PacketThen(old(c.rest), code, s, t) ==>
                && (r.Complete? <==> Fits(MaxBytes(bound, code, s), |old(c.rest)| - |t|))
                && (r.Complete? ==> r.code == code && c.rest == t)
  {
    forall code: u64, t | PacketLayouts.PacketThen(c.rest, code, s, t) ensures Packet(c.rest, s) == Got(code, t) {
      PacketLayouts.PacketEnds(c.rest, code, s, t);
    }
    c.Reset();
    assert c.Stream() == old(c.rest);
    var code := c.ReadUVarInt();
    if code.None? { return Nothing; }
    var body := ReadBody(c, code.value, s, bound);
    r := if body.None? then Partial(code.value, c.captured) else Complete(code.value, c.captured);
  }

  /** Any number of packets in a row: their raw bytes, one after another, are exactly what was
      taken off the stream. */
  method ReadPackets(c: CaptureReader, s: Session, bounds: seq<Bound>) returns (raws: seq<seq<byte>>)
    requires Sound(s.walkers)
    modifies c
    ensures |raws| <= |bounds|
    ensures |raws| == |bounds| ==> Concat(raws) + c.rest == old(c.rest)
    ensures Concat(raws) <= old(c.rest)
  {
    raws := [];
    assert Concat(raws) + c.rest == c.rest;
    for i := 0 to |bounds|
      invariant |raws| == i && Concat(raws) + c.rest == old(c.rest)
    {
      var r := ReadPacket(c, s, bounds[i]);
      if !r.Complete? { return; }
      Assoc3(Concat(raws), r.raw, c.rest);
      assert (raws + [r.raw])[..|raws|] == raws;
      raws := raws + [r.raw];
    }
  }
}
