/** The compressed body walk as it runs: a buffered reader over a frame-boundary reader over the
    decompressor over the capturing stream.
 */
module CompressedReader {
  import opened Bytes
  import opened Options
  import opened BufferedReading
  import opened CompressedFrames
  import opened Capture

  datatype Status = Ok | Eof | Error

  /** The next frame, captured, is one more whole frame of the size it announces. */
  lemma OneMoreFrame(b: seq<byte>, captured: seq<byte>, start: nat, d: Decompress)
    requires Faithful(d) && start <= |captured| && Sizes(captured[start..]).Some?
    ensures FrameLength(b).Some? ==>
              var frame := b[..FrameLength(b).value];
              d(frame).Some? ==>
                Sizes((captured + frame)[start..]) == Some(Sizes(captured[start..]).value + [|d(frame).value|])
  {
    if FrameLength(b).Some? {
      var frame := b[..FrameLength(b).value];
      FirstFrameIsWhole(b);
      assert SizedRight(frame, d);
      SizesAppend(captured[start..], frame);
      assert (captured + frame)[start..] == captured[start..] + frame;
    }
  }

  class CompressedPacketReader {
    const decompress: Decompress
    /** The capturing stream, and where the capture stood at the start. */
    const c: CaptureReader
    const start: nat
    /** The decompressor's current frame and its position in it. */
    var data: seq<byte>
    var pos: nat
    /** The boundary reader. */
    var frameIndex: int
    var delivered: nat
    var frozen: bool
    /** What the body's buffered reader holds. */
    var held: seq<byte>
    /** The sizes the captured frames announce. */
    ghost var sizes: seq<nat>

    /** What was captured since the start is whole frames. */
    ghost predicate Captures()
      reads this, c
    {
      c.Valid() && start <= |c.captured| && Sizes(c.captured[start..]) == Some(sizes)
    }

    /** The captured bytes are whole frames and the current one is the last. */
    ghost predicate Valid()
      reads this, c
    {
      && Faithful(decompress)
      && Captures()
      && pos <= |data|
      && |data| == (if sizes == [] then 0 else sizes[|sizes| - 1])
      && delivered == pos
      && (frameIndex == |sizes| - 1 || StartedEmpty())
      && (frozen ==> frameIndex >= 0)
    }

    /** The first frame had no data, so the boundary reader never counted it. */
    ghost predicate StartedEmpty()
      reads this
    {
      frameIndex == -1 && sizes != [] && sizes[0] == 0 && data == []
    }

    /** What is left of the current frame. */
    ghost function Left(): (b: seq<byte>)
      requires pos <= |data|
      reads this
    {
      held + data[pos..]
    }

    constructor (d: Decompress, reader: CaptureReader)
      requires Faithful(d) && reader.Valid()
      ensures Ready() && decompress == d && c == reader && sizes == [] && Left() == []
    {
      decompress, c, start := d, reader, |reader.captured|;
      data, pos := [], 0;
      frameIndex, delivered, frozen, held, sizes := -1, 0, false, [], [];
    }

    /** The decompressor reads a header and then the rest of the frame. */
    method ReadRaw() returns (frame: Option<seq<byte>>)
      requires c.Valid()
      modifies c`rest, c`captured
      ensures c.Valid() && c.Stream() == old(c.Stream())
      ensures frame.Some? <==> FrameLength(old(c.Reach())).Some?
      ensures frame.Some? ==>
                var n := FrameLength(old(c.Reach())).value;
                && frame.value == old(c.Reach())[..n] && c.Reach() == old(c.Reach())[n..]
                && c.captured == old(c.captured) + frame.value
    {
      ghost var b := c.Reach();
      var r := c.ReadThrough(FRAME_HEADER);
      if r.None? { return None; }
      FrameInTwo(b);
      var header := c.captured[|c.captured| - FRAME_HEADER..];
      assert header == b[..FRAME_HEADER];
      var size := Word(header, COMPRESSED_SIZE_AT);
      if size < COMPRESS_HEADER { return None; }
      r := c.ReadThrough(size - COMPRESS_HEADER);
      if r.None? { return None; }
      ghost var n := CHECKSUM + size;
      assert b[..n] == b[..FRAME_HEADER] + b[FRAME_HEADER..][..size - COMPRESS_HEADER];
      assert c.captured == old(c.captured) + b[..n];
      frame := Some(c.captured[|c.captured| - (CHECKSUM + size)..]);
    }

    /** The decompressor takes the next whole frame off the stream. */
    method ReadBlock() returns (ok: bool)
      requires Faithful(decompress) && Captures()
      modifies this`data, this`pos, this`sizes, c`rest, c`captured
      ensures c.Valid() && c.Stream() == old(c.Stream())
      ensures ok <==> NextFrame(old(c.Reach()), decompress).Some?
      ensures ok ==>
                && NextFrame(old(c.Reach()), decompress) == Some((data, c.Reach())) && pos == 0
                && sizes == old(sizes) + [|data|] && Captures()
    {
      ghost var was := c.captured;
      OneMoreFrame(c.Reach(), was, start, decompress);
      var frame := ReadRaw();
      if frame.None? { return false; }
      var d := decompress(frame.value);
      if d.None? { return false; }
      data, pos := d.value, 0;
      sizes := sizes + [|data|];
      ok := true;
    }

    /** The decompressor's current frame is delivered, and the boundary reader keeps count. */
    method Deliver(k: nat) returns (out: seq<byte>, status: Status)
      requires Captures() && sizes != [] && k > 0
      requires pos <= |data| == sizes[|sizes| - 1]
      requires (frameIndex == |sizes| - 1 && delivered == pos) || (frameIndex == -1 && delivered == pos == 0)
      modifies this`pos, this`frameIndex, this`delivered
      ensures pos <= |data| && (status == Ok ==> out + data[pos..] == old(data[pos..]))
      ensures status != Eof && (status == Error ==> out == []) && (status == Ok ==> (out == [] <==> old(pos == |data|)))
      ensures old(pos == |data|) ==> status == Ok && unchanged(`pos) && unchanged(`frameIndex) && unchanged(`delivered)
      ensures old(pos < |data| && (frameIndex == |sizes| - 1 || |sizes| == 1)) ==>
                status == Ok && frameIndex == |sizes| - 1 && delivered == pos
      ensures old(pos < |data| && frameIndex == -1 && sizes[0] == 0) ==> status == Error
    {
      var n := if k < |data| - pos then k else |data| - pos;
      out := data[pos..pos + n];
      assert out + data[pos + n..] == data[pos..];
      pos := pos + n;
      if n == 0 { return out, Ok; }
      var announced := FrameDataSizes(c.captured[start..]);
      if frameIndex < 0 { frameIndex := 0; }
      delivered := delivered + n;
      if delivered > announced.value[frameIndex] { return [], Error; }
      status := Ok;
    }

    /** The boundary reader has counted on to the next frame, if it had begun to count. */
    method OpenAndDeliver(k: nat) returns (out: seq<byte>, status: Status)
      requires Faithful(decompress) && Captures() && k > 0 && delivered == 0
      requires frameIndex == |sizes| > 0 || StartedEmpty() || (frameIndex == -1 && sizes == [])
      modifies this`data, this`pos, this`sizes, this`frameIndex, this`delivered, c`rest, c`captured
      ensures c.Valid() && c.Stream() == old(c.Stream()) && status != Eof
      ensures status == Error ==> out == [] && (NextFrame(old(c.Reach()), decompress).None? || old(StartedEmpty()))
      ensures status == Ok ==>
                && Captures() && pos <= |data| && sizes == old(sizes) + [|data|]
                && delivered == pos && (frameIndex == |sizes| - 1 || StartedEmpty())
                && (StartedEmpty() <==> old(StartedEmpty()) || (old(sizes) == [] && data == []))
                && NextFrame(old(c.Reach()), decompress) == Some((out + data[pos..], c.Reach()))
                && (out == [] <==> data == [])
    {
      var ok := ReadBlock();
      if !ok { return [], Error; }
      assert data[0..] == data;
      out, status := Deliver(k);
    }

    /** All of the current frame was delivered. */
    method AtBoundary() returns (boundary: bool)
      requires Valid()
      ensures boundary <==> frameIndex >= 0 && pos == |data|
    {
      var announced := FrameDataSizes(c.captured[start..]);
      boundary := frameIndex >= 0 && delivered == announced.value[frameIndex];
    }

    /** Reads never cross a frame; a frozen reader never opens one. */
    method BoundaryRead(k: nat) returns (out: seq<byte>, status: Status)
      requires Valid() && k > 0
      modifies this`data, this`pos, this`sizes, this`frameIndex, this`delivered, c`rest, c`captured
      ensures c.Valid() && c.Stream() == old(c.Stream()) && (status != Error ==> Valid())
      ensures status != Ok ==> out == []
      ensures old(pos < |data|) ==>
                status == Ok && out != [] && out + data[pos..] == old(data[pos..]) && unchanged(c) && !StartedEmpty()
      ensures old(pos == |data| && frozen) ==> status == Eof && unchanged(c) && unchanged(`pos) && unchanged(`data)
      ensures old(pos == |data| && !frozen) ==>
                && status != Eof
                && (status == Ok ==> NextFrame(old(c.Reach()), decompress) == Some((out + data[pos..], c.Reach())))
                && (status == Error ==> NextFrame(old(c.Reach()), decompress).None? || old(StartedEmpty()))
                && (status == Ok ==> (out == [] <==> data == []))
                && (status == Ok ==> (StartedEmpty() <==> old(StartedEmpty()) || (old(sizes) == [] && data == [])))
    {
      var boundary := AtBoundary();
      if boundary {
        if frozen { return [], Eof; }
        frameIndex, delivered := frameIndex + 1, 0;
      }
      if pos >= |data| {
        out, status := OpenAndDeliver(k);
      } else {
        out, status := Deliver(k);
      }
    }

    /** Between bytes: no data has been asked for yet, or some has been delivered. */
    ghost predicate Ready()
      reads this, c
    {
      Valid() && !frozen && (frameIndex >= 0 || (sizes == [] && held == []))
    }

    ghost function Upcoming(empties: nat): (r: Next)
      requires Valid()
      reads this, c
    {
      NextByte(Left(), c.Reach(), decompress, frameIndex >= 0, empties)
    }

    /** One more frame into the buffered reader. */
    method OpenFrame() returns (ok: bool)
      requires Valid() && !frozen && held == [] && pos == |data|
      modifies this, c`rest, c`captured
      ensures c.Valid() && c.Stream() == old(c.Stream()) && (ok ==> Valid() && !frozen)
      ensures ok ==> NextFrame(old(c.Reach()), decompress) == Some((Left(), c.Reach()))
      ensures ok && held == [] ==> data == []
      ensures ok && held != [] ==> frameIndex >= 0 && !old(StartedEmpty())
      ensures ok ==> (StartedEmpty() <==> old(StartedEmpty()) || (old(sizes) == [] && data == []))
      ensures !ok ==> NextFrame(old(c.Reach()), decompress).None? || old(StartedEmpty())
    {
      var out, status := BoundaryRead(BUFFER);
      ok := status == Ok;
      held := out;
    }

    /** The buffered reader holds data, starting with the next byte. */
    ghost predicate Filled(next: Next)
      reads this, c
    {
      match next
      case Stuck => false
      case Next(octet, left, rest) =>
        && Valid() && !frozen && frameIndex >= 0
        && held != [] && octet == held[0] && left == held[1..] + data[pos..] && rest == c.Reach()
    }

    /** Between frames, not yet at the end of the body. */
    ghost predicate Drained()
      reads this, c
    {
      Valid() && !frozen && held == [] && pos == |data|
    }

    /** Still looking for the next byte, after `tries` frames without data. After a first frame
        without data the boundary reader refuses every frame with data. */
    ghost predicate Seeking(tries: nat, next: Next)
      reads this, c
    {
      match next
      case Stuck => Drained() && (StartedEmpty() || tries >= MAX_EMPTY_READS || (Ready() && Upcoming(tries) == next))
      case Next(_, _, _) => Drained() && !StartedEmpty() && tries < MAX_EMPTY_READS && Ready() && Upcoming(tries) == next
    }

    method OpenNext(tries: nat, ghost next: Next) returns (ok: bool)
      requires Seeking(tries, next) && tries < MAX_EMPTY_READS
      modifies this, c`rest, c`captured
      ensures c.Valid() && c.Stream() == old(c.Stream())
      ensures !ok ==> next.Stuck?
      ensures ok ==> if held == [] then Seeking(tries + 1, next) else Filled(next)
    {
      assert Left() == [];
      NextByteStep(c.Reach(), decompress, frameIndex >= 0, tries);
      ok := OpenFrame();
      if ok && held != [] { assert Left()[1..] == held[1..] + data[pos..]; }
    }

    /** Opens frames until one has data. */
    method FillFromFrames(tries: nat, ghost next: Next) returns (ok: bool)
      requires Seeking(tries, next) && tries <= MAX_EMPTY_READS
      modifies this, c`rest, c`captured
      ensures c.Valid() && c.Stream() == old(c.Stream())
      ensures ok <==> next.Next?
      ensures ok ==> Filled(next)
      decreases MAX_EMPTY_READS - tries
    {
      if tries == MAX_EMPTY_READS { return false; }
      ok := OpenNext(tries, next);
      if ok && held == [] { ok := FillFromFrames(tries + 1, next); }
    }

    method FillFromFrame(ghost next: Next)
      requires Ready() && held == [] && pos < |data| && next == Next(data[pos], data[pos + 1..], c.Reach())
      modifies this, c`rest, c`captured
      ensures unchanged(c) && Filled(next)
    {
      ghost var before := data[pos..];
      var out, status := BoundaryRead(BUFFER);
      held := out;
      assert before[1..] == held[1..] + data[pos..] && before[0] == held[0];
    }

    method FillBuffer() returns (ok: bool)
      requires Ready() && held == []
      modifies this, c`rest, c`captured
      ensures c.Valid() && c.Stream() == old(c.Stream())
      ensures ok <==> old(Upcoming(0)).Next?
      ensures ok ==> Filled(old(Upcoming(0)))
    {
      if pos < |data| {
        assert Left() == data[pos..] && data[pos..][1..] == data[pos + 1..];
        FillFromFrame(Upcoming(0));
        ok := true;
      } else {
        assert Left() == [];
        ok := FillFromFrames(0, Upcoming(0));
      }
    }

    /** One byte of the body, through the buffered reader. */
    method ReadByte() returns (r: Option<byte>)
      requires Ready()
      modifies this, c`rest, c`captured
      ensures c.Valid() && c.Stream() == old(c.Stream())
      ensures r.Some? <==> old(Upcoming(0)).Next?
      ensures r.Some? ==> Ready() && frameIndex >= 0 && old(Upcoming(0)) == Next(r.value, Left(), c.Reach())
    {
      if held == [] {
        var ok := FillBuffer();
        if !ok { return None; }
      } else {
        assert Left()[1..] == held[1..] + data[pos..];
      }
      r := Some(held[0]);
      held := held[1..];
    }

    /** Freeze the boundary and count what is left of the current frame. */
    method AssertFrameExhausted() returns (trailing: nat)
      requires Valid() && frameIndex >= 0
      modifies this, c`rest, c`captured
      ensures trailing == |old(Left())| && unchanged(c) && c.Valid()
    {
      frozen := true;
      trailing := |held|;
      held := [];
      var open := true;
      while open
        invariant Valid() && frozen && unchanged(c)
        invariant trailing + |data[pos..]| == |old(Left())|
        invariant !open ==> pos == |data|
        decreases |data| - pos, open
      {
        var out, status := BoundaryRead(BUFFER);
        trailing := trailing + |out|;
        open := status == Ok;
      }
    }

    /** The whole walk: the body is fed until it is done, and then has to be at a frame end. It
        sees no more of the stream than may be captured; every byte it takes is captured, and on
        success exactly whole frames were. */
    method WalkBody(body: Body) returns (r: Outcome)
      requires Ready() && sizes == [] && body([]) == More
      modifies this, c`rest, c`captured
      ensures r == Walk([], old(c.Reach()), decompress, body, [])
      ensures c.Valid() && c.Stream() == old(c.Stream())
      ensures r.Success? ==> c.Reach() == r.rest
    {
      assert Left() == [];
      var seen: seq<byte> := [];
      while body(seen) == More
        invariant Ready() && (frameIndex >= 0 <==> seen != []) && c.Stream() == old(c.Stream())
        invariant Walk([], old(c.Reach()), decompress, body, []) == Walk(Left(), c.Reach(), decompress, body, seen)
        invariant body(seen) != More ==> frameIndex >= 0
        decreases |c.Reach()|, |Left()|
      {
        var b := ReadByte();
        if b.None? { return Failure; }
        seen := seen + [b.value];
      }
      if body(seen) == Malformed { return Failure; }
      var trailing := AssertFrameExhausted();
      r := if trailing == 0 then Success(c.Reach()) else Leftover(trailing);
    }
  }
}
