/** A compressed packet body on values: the frames it is made of, and where its Native body ends.
    Decompression is a library; `Decompress` gives the data of a whole frame.
 */
module CompressedFrames {
  import opened Bytes
  import opened Options
  import opened BufferedReading

  const CHECKSUM := 16
  const COMPRESS_HEADER := 9
  const FRAME_HEADER := CHECKSUM + COMPRESS_HEADER
  const COMPRESSED_SIZE_AT := 17
  const DATA_SIZE_AT := 21
  const WIDTH: nat := 4

  /** Little-endian 32-bit word at `at`. */
  function Word(b: seq<byte>, at: nat): (n: nat)
    requires at + WIDTH <= |b|
    ensures n < TWO_32
  {
    Pow256Values();
    FromLittleEndian(b[at..at + WIDTH])
  }

  function DataSize(frame: seq<byte>): (n: nat)
    requires |frame| >= FRAME_HEADER
  {
    Word(frame, DATA_SIZE_AT)
  }

  /** The length of the frame at the head of `b`, if a whole one is there. */
  function FrameLength(b: seq<byte>): (n: Option<nat>)
    ensures n.Some? ==> FRAME_HEADER <= n.value <= |b|
  {
    if |b| < FRAME_HEADER then None
    else
      var size := Word(b, COMPRESSED_SIZE_AT);
      if size < COMPRESS_HEADER || CHECKSUM + size > |b| then None else Some(CHECKSUM + size)
  }

  predicate WholeFrame(f: seq<byte>) { FrameLength(f) == Some(|f|) }

  /** A frame: checksum, method, the size of all but the checksum, the size of the data, and the
      compressed payload. */
  function Frame(checksum: seq<byte>, compression: byte, dataSize: nat, payload: seq<byte>): (f: seq<byte>) {
    checksum + ([compression] + (LittleEndian(9 + |payload|, 4) + (LittleEndian(dataSize, 4) + payload)))
  }

  lemma FrameIsWhole(checksum: seq<byte>, compression: byte, dataSize: nat, payload: seq<byte>)
    requires |checksum| == 16 && 9 + |payload| < TWO_32 && dataSize < TWO_32
    ensures var f := Frame(checksum, compression, dataSize, payload);
            WholeFrame(f) && |f| == 25 + |payload| && DataSize(f) == dataSize
  {
    Pow256Values();
    var size, data := LittleEndian(9 + |payload|, 4), LittleEndian(dataSize, 4);
    var f := Frame(checksum, compression, dataSize, payload);
    assert f[17..21] == size;
    assert f[21..25] == data;
    LittleEndianRoundTrip(9 + |payload|, 4);
    LittleEndianRoundTrip(dataSize, 4);
  }

  lemma FrameParts(f: seq<byte>)
    requires |f| >= 25
    ensures f == f[..16] + ([f[16]] + (f[17..21] + (f[21..25] + f[25..])))
  {
    assert f[21..] == f[21..25] + f[25..];
    assert f[17..] == f[17..21] + f[21..];
    assert f[16..] == [f[16]] + f[17..];
    assert f == f[..16] + f[16..];
  }

  lemma WordIs(f: seq<byte>, at: nat)
    requires at + WIDTH <= |f|
    ensures LittleEndian(Word(f, at), 4) == f[at..at + WIDTH]
  {
    LittleEndianOfDecoded(f[at..at + WIDTH]);
  }

  /** Every whole frame is one. */
  lemma WholeFrameIs(f: seq<byte>)
    requires WholeFrame(f)
    ensures f == Frame(f[..16], f[16], DataSize(f), f[25..])
  {
    var size, data := Word(f, 17), DataSize(f);
    WordIs(f, 17);
    WordIs(f, 21);
    FrameParts(f);
    assert size == 9 + |f[25..]|;
  }

  /** The data sizes the frames of `b` announce; None when `b` is not whole frames. */
  function Sizes(b: seq<byte>): (r: Option<seq<nat>>)
    decreases |b|
  {
    if b == [] then Some([])
    else
      var n := FrameLength(b);
      if n.None? then None
      else
        var others := Sizes(b[n.value..]);
        if others.None? then None else Some([DataSize(b)] + others.value)
  }

  /** A frame keeps its length and its size whatever follows it. */
  lemma FrameAtHead(f: seq<byte>, t: seq<byte>)
    requires WholeFrame(f)
    ensures FrameLength(f + t) == Some(|f|) && DataSize(f + t) == DataSize(f)
    ensures (f + t)[..|f|] == f && (f + t)[|f|..] == t
  {
    assert (f + t)[COMPRESSED_SIZE_AT..COMPRESSED_SIZE_AT + WIDTH] == f[COMPRESSED_SIZE_AT..COMPRESSED_SIZE_AT + WIDTH];
    assert (f + t)[DATA_SIZE_AT..DATA_SIZE_AT + WIDTH] == f[DATA_SIZE_AT..DATA_SIZE_AT + WIDTH];
  }

  lemma FirstFrameIsWhole(b: seq<byte>)
    requires FrameLength(b).Some?
    ensures WholeFrame(b[..FrameLength(b).value])
  {
    var f := b[..FrameLength(b).value];
    assert f[COMPRESSED_SIZE_AT..COMPRESSED_SIZE_AT + WIDTH] == b[COMPRESSED_SIZE_AT..COMPRESSED_SIZE_AT + WIDTH];
  }

  /** A frame is read in two: its header, which gives its length, and the rest. */
  lemma FrameInTwo(b: seq<byte>)
    requires |b| >= FRAME_HEADER
    ensures var size := Word(b[..FRAME_HEADER], COMPRESSED_SIZE_AT);
            && (size < COMPRESS_HEADER ==> FrameLength(b).None?)
            && (size >= COMPRESS_HEADER ==>
                  var payload := size - COMPRESS_HEADER;
                  FrameLength(b) == if payload <= |b[FRAME_HEADER..]| then Some(FRAME_HEADER + payload) else None)
  {
    assert b[..FRAME_HEADER][COMPRESSED_SIZE_AT..COMPRESSED_SIZE_AT + WIDTH]
        == b[COMPRESSED_SIZE_AT..COMPRESSED_SIZE_AT + WIDTH];
  }

  /** One more whole frame announces one more size. */
  lemma {:induction false} SizesAppend(b: seq<byte>, f: seq<byte>)
    requires Sizes(b).Some? && WholeFrame(f)
    ensures Sizes(b + f) == Some(Sizes(b).value + [DataSize(f)])
    decreases |b|
  {
    if b == [] {
      assert [] + f == f && f[|f|..] == [];
      assert [DataSize(f)] + [] == [] + [DataSize(f)];
    } else {
      var n := FrameLength(b).value;
      var first, others := b[..n], b[n..];
      FirstFrameIsWhole(b);
      SizesAppend(others, f);
      assert b == first + others;
      Assoc3(first, others, f);
      FrameAtHead(first, others);
      FrameAtHead(first, others + f);
      assert [DataSize(b)] + (Sizes(others).value + [DataSize(f)]) == ([DataSize(b)] + Sizes(others).value) + [DataSize(f)];
    }
  }

  /** One frame of the loop below, at `pos`. */
  lemma SizesStep(raw: seq<byte>, pos: nat)
    requires pos < |raw|
    ensures |raw| - pos < FRAME_HEADER ==> Sizes(raw[pos..]).None?
    ensures |raw| - pos >= FRAME_HEADER ==>
              var size := Word(raw, pos + COMPRESSED_SIZE_AT);
              if size < COMPRESS_HEADER || CHECKSUM + size > |raw| - pos then Sizes(raw[pos..]).None?
              else Sizes(raw[pos..]) == Joined([Word(raw, pos + DATA_SIZE_AT)], Sizes(raw[pos + CHECKSUM + size..]))
  {
    var b := raw[pos..];
    if |b| >= FRAME_HEADER {
      assert b[COMPRESSED_SIZE_AT..COMPRESSED_SIZE_AT + WIDTH]
          == raw[pos + COMPRESSED_SIZE_AT..pos + COMPRESSED_SIZE_AT + WIDTH];
      assert b[DATA_SIZE_AT..DATA_SIZE_AT + WIDTH] == raw[pos + DATA_SIZE_AT..pos + DATA_SIZE_AT + WIDTH];
      var size := Word(raw, pos + COMPRESSED_SIZE_AT);
      if CHECKSUM + size <= |b| { assert b[CHECKSUM + size..] == raw[pos + CHECKSUM + size..]; }
    }
  }

  /** The data size and the length of the frame at `pos`, or neither. */
  method FrameAt(raw: seq<byte>, pos: nat) returns (r: Option<(nat, nat)>)
    requires pos < |raw|
    ensures r.None? ==> Sizes(raw[pos..]).None?
    ensures r.Some? ==>
              var (size, length) := r.value;
              0 < length <= |raw| - pos && Sizes(raw[pos..]) == Joined([size], Sizes(raw[pos + length..]))
  {
    SizesStep(raw, pos);
    if |raw| - pos < FRAME_HEADER { return None; }
    var compressedSize := Word(raw, pos + COMPRESSED_SIZE_AT);
    if compressedSize < COMPRESS_HEADER { return None; }
    var frameSize := CHECKSUM + compressedSize;
    if frameSize > |raw| - pos { return None; }
    r := Some((Word(raw, pos + DATA_SIZE_AT), frameSize));
  }

  /** compressedFrameDataSizes as it runs. */
  method FrameDataSizes(raw: seq<byte>) returns (r: Option<seq<nat>>)
    ensures r == Sizes(raw)
  {
    var sizes: seq<nat> := [];
    var pos := 0;
    assert raw[0..] == raw;
    JoinedNothing(Sizes(raw));
    while pos < |raw|
      invariant pos <= |raw|
      invariant Sizes(raw) == Joined(sizes, Sizes(raw[pos..]))
      decreases |raw| - pos
    {
      var frame := FrameAt(raw, pos);
      if frame.None? { return None; }
      JoinedOne(sizes, frame.value.0, Sizes(raw[pos + frame.value.1..]));
      sizes := sizes + [frame.value.0];
      pos := pos + frame.value.1;
    }
    assert sizes + [] == sizes;
    r := Some(sizes);
  }

  function Joined(sizes: seq<nat>, more: Option<seq<nat>>): (r: Option<seq<nat>>) {
    if more.None? then None else Some(sizes + more.value)
  }

  lemma JoinedNothing(more: Option<seq<nat>>)
    ensures Joined([], more) == more
  {
    if more.Some? { assert [] + more.value == more.value; }
  }

  lemma JoinedOne(sizes: seq<nat>, n: nat, more: Option<seq<nat>>)
    ensures Joined(sizes, Joined([n], more)) == Joined(sizes + [n], more)
  {
    if more.Some? { assert sizes + ([n] + more.value) == (sizes + [n]) + more.value; }
  }

  // ---------------------------------------------------------------------------
  // The Native body over its frames

  /** What the body decoder says after the bytes it has been given. */
  datatype Verdict = More | Done | Malformed

  type Body = seq<byte> -> Verdict

  /** The data of a whole frame, as long as the frame announces. */
  type Decompress = seq<byte> -> Option<seq<byte>>

  ghost predicate SizedRight(f: seq<byte>, d: Decompress) {
    WholeFrame(f) && d(f).Some? ==> |d(f).value| == DataSize(f)
  }

  ghost predicate Faithful(d: Decompress) {
    forall f :: SizedRight(f, d)
  }

  /** The next frame's data and the bytes behind it. */
  function NextFrame(b: seq<byte>, d: Decompress): (r: Option<(seq<byte>, seq<byte>)>)
    ensures r.Some? ==> |r.value.1| < |b|
  {
    var n := FrameLength(b);
    if n.None? || d(b[..n.value]).None? then None else Some((d(b[..n.value]).value, b[n.value..]))
  }

  datatype Next = Next(octet: byte, left: seq<byte>, rest: seq<byte>) | Stuck

  /** The next byte: from what is left of the current frame, or else from the first frame that
      has any; a first frame without data and a long run of such frames are refused. */
  function NextByte(left: seq<byte>, b: seq<byte>, d: Decompress, started: bool, empties: nat): (r: Next)
    ensures r.Next? ==> |r.rest| < |b| || (r.rest == b && |r.left| < |left|)
    decreases |b|
  {
    if left != [] then Next(left[0], left[1..], b)
    else
      var frame := NextFrame(b, d);
      if frame.None? then Stuck
      else
        var (data, rest) := frame.value;
        if data != [] then Next(data[0], data[1..], rest)
        else if !started || empties + 1 >= MAX_EMPTY_READS then Stuck
        else NextByte([], rest, d, started, empties + 1)
  }

  lemma NextByteStep(b: seq<byte>, d: Decompress, started: bool, empties: nat)
    ensures var r := NextByte([], b, d, started, empties);
            match NextFrame(b, d) {
              case None => r.Stuck?
              case Some((data, rest)) =>
                if data != [] then r == Next(data[0], data[1..], rest)
                else if !started || empties + 1 >= MAX_EMPTY_READS then r.Stuck?
                else r == NextByte([], rest, d, started, empties + 1)
            }
  {
  }

  datatype Outcome = Success(rest: seq<byte>) | Leftover(count: nat) | Failure

  /** Feed the body byte by byte; it has to end where a frame ends. */
  function Walk(left: seq<byte>, b: seq<byte>, d: Decompress, body: Body, seen: seq<byte>): (r: Outcome)
    ensures r.Success? ==> |r.rest| <= |b|
    decreases |b|, |left|
  {
    match body(seen)
    case Malformed => Failure
    case Done => if left == [] then Success(b) else Leftover(|left|)
    case More =>
      var next := NextByte(left, b, d, seen != [], 0);
      if next.Stuck? then Failure else Walk(next.left, next.rest, d, body, seen + [next.octet])
  }

  // ---------------------------------------------------------------------------
  // What the walk means

  /** Whole frames that decompress. */
  ghost predicate Decodes(fs: seq<seq<byte>>, d: Decompress) {
    fs == [] || (WholeFrame(fs[0]) && d(fs[0]).Some? && Decodes(fs[1..], d))
  }

  ghost function Data(f: seq<byte>, d: Decompress): (b: seq<byte>) { if d(f).Some? then d(f).value else [] }

  ghost function DataOf(fs: seq<seq<byte>>, d: Decompress): (b: seq<byte>) {
    if fs == [] then [] else Data(fs[0], d) + DataOf(fs[1..], d)
  }

  /** The body takes all of `b` but its last `n` bytes, and asked for each byte from `start` on. */
  ghost predicate Ends(body: Body, b: seq<byte>, start: nat, n: nat) {
    && start + n <= |b|
    && body(b[..|b| - n]) == Done
    && forall j :: start <= j < |b| - n ==> body(b[..j]) == More
  }

  /** The frames a step of the walk opened. */
  ghost function Opened(f: seq<byte>, fs: seq<seq<byte>>): (r: seq<seq<byte>>) { [f] + fs }

  lemma OpenedOne(f: seq<byte>, fs: seq<seq<byte>>, rest: seq<byte>, d: Decompress)
    requires WholeFrame(f) && d(f).Some? && Decodes(fs, d)
    ensures Decodes(Opened(f, fs), d)
    ensures Concat(Opened(f, fs)) + rest == f + (Concat(fs) + rest)
    ensures DataOf(Opened(f, fs), d) == Data(f, d) + DataOf(fs, d)
  {
    ConcatHead(Opened(f, fs));
    assert Opened(f, fs)[1..] == fs;
    Assoc3(f, Concat(fs), rest);
  }

  lemma NextFrameOpens(b: seq<byte>, d: Decompress) returns (f: seq<byte>)
    requires NextFrame(b, d).Some?
    ensures WholeFrame(f) && d(f) == Some(NextFrame(b, d).value.0) && b == f + NextFrame(b, d).value.1
  {
    FirstFrameIsWhole(b);
    f := b[..FrameLength(b).value];
  }

  lemma LastFrameOpens(f: seq<byte>, rest: seq<byte>, d: Decompress)
    requires WholeFrame(f) && d(f).Some? && Data(f, d) != []
    ensures Decodes([f], d) && Concat([f]) + rest == f + rest
    ensures DataOf([f], d) == [Data(f, d)[0]] + Data(f, d)[1..]
  {
    OpenedOne(f, [], rest, d);
    assert [] + rest == rest;
    assert Opened(f, []) == [f];
    assert Data(f, d) + [] == Data(f, d);
  }

  /** The frames the reader opened to find its next byte. */
  lemma {:induction false} NextByteOpens(b: seq<byte>, d: Decompress, started: bool, empties: nat)
    returns (fs: seq<seq<byte>>)
    requires NextByte([], b, d, started, empties).Next?
    ensures var r := NextByte([], b, d, started, empties);
            && Decodes(fs, d) && b == Concat(fs) + r.rest && DataOf(fs, d) == [r.octet] + r.left
            && fs != [] && |r.left| < |Data(fs[|fs| - 1], d)|
    decreases |b|
  {
    var f := NextFrameOpens(b, d);
    var (data, rest) := NextFrame(b, d).value;
    if data == [] {
      fs := NextByteOpens(rest, d, started, empties + 1);
      OpenedOne(f, fs, NextByte([], rest, d, started, empties + 1).rest, d);
      assert [] + DataOf(fs, d) == DataOf(fs, d);
      fs := Opened(f, fs);
    } else {
      LastFrameOpens(f, rest, d);
      fs := [f];
    }
  }

  lemma {:induction false} DataOfAppend(fs: seq<seq<byte>>, more: seq<seq<byte>>, d: Decompress)
    requires Decodes(fs, d) && Decodes(more, d)
    ensures Decodes(fs + more, d) && DataOf(fs + more, d) == DataOf(fs, d) + DataOf(more, d)
  {
    if fs == [] {
      assert [] + more == more;
      assert [] + DataOf(more, d) == DataOf(more, d);
    } else {
      DataOfAppend(fs[1..], more, d);
      assert (fs + more)[1..] == fs[1..] + more;
      Assoc3(Data(fs[0], d), DataOf(fs[1..], d), DataOf(more, d));
    }
  }

  lemma JoinData(seen: seq<byte>, left: seq<byte>, head: seq<byte>, x: byte, tail: seq<byte>, more: seq<byte>)
    requires left + head == [x] + tail
    ensures seen + (left + (head + more)) == (seen + [x]) + (tail + more)
  {
    Assoc3(left, head, more);
    Assoc3([x], tail, more);
    Assoc3(seen, [x], tail + more);
  }

  lemma EndsFromEarlier(body: Body, seen: seq<byte>, t: seq<byte>, n: nat)
    requires body(seen) == More && Ends(body, seen + t, |seen| + 1, n)
    ensures Ends(body, seen + t, |seen|, n)
  {
    assert (seen + t)[..|seen|] == seen;
  }

  /** Where a walk stopped: after the frames `fs`, `n` bytes before the end of the last one. */
  ghost predicate Stopped(fs: seq<seq<byte>>, left: seq<byte>, d: Decompress, body: Body, seen: seq<byte>, n: nat) {
    && Decodes(fs, d)
    && Ends(body, seen + (left + DataOf(fs, d)), |seen|, n)
    && (if fs == [] then n <= |left| else n < |Data(fs[|fs| - 1], d)|)
  }

  lemma StoppedEarlier(head: seq<seq<byte>>, fs: seq<seq<byte>>, left: seq<byte>, d: Decompress, body: Body,
                       seen: seq<byte>, x: byte, tail: seq<byte>, n: nat)
    requires Decodes(head, d) && left + DataOf(head, d) == [x] + tail && body(seen) == More
    requires if head == [] then |tail| < |left| else |tail| < |Data(head[|head| - 1], d)|
    requires Stopped(fs, tail, d, body, seen + [x], n)
    ensures Stopped(head + fs, left, d, body, seen, n)
  {
    DataOfAppend(head, fs, d);
    JoinData(seen, left, DataOf(head, d), x, tail, DataOf(fs, d));
    EndsFromEarlier(body, seen, left + DataOf(head + fs, d), n);
  }

  /** Soundness: a walk that does not fail opened whole frames and stopped `n` bytes before the
      end of the last one, `n` being zero exactly on success. */
  lemma {:induction false} WalkEnds(left: seq<byte>, b: seq<byte>, d: Decompress, body: Body, seen: seq<byte>)
    returns (fs: seq<seq<byte>>, rest: seq<byte>)
    requires !Walk(left, b, d, body, seen).Failure?
    ensures var r := Walk(left, b, d, body, seen);
            && b == Concat(fs) + rest
            && match r {
                 case Success(t) => t == rest && Stopped(fs, left, d, body, seen, 0)
                 case Leftover(n) => n > 0 && Stopped(fs, left, d, body, seen, n)
               }
    decreases |b|, |left|
  {
    if body(seen) == Done {
      fs, rest := [], b;
      assert left + [] == left && [] + b == b;
      assert (seen + left)[..|seen|] == seen;
      assert seen + [] == seen;
    } else {
      var next := NextByte(left, b, d, seen != [], 0);
      var head: seq<seq<byte>> := [];
      if left == [] {
        head := NextByteOpens(b, d, seen != [], 0);
        assert [] + DataOf(head, d) == DataOf(head, d);
      } else {
        assert left + [] == [next.octet] + next.left && [] + b == b;
      }
      var r := Walk(left, b, d, body, seen);
      fs, rest := WalkEnds(next.left, next.rest, d, body, seen + [next.octet]);
      StoppedEarlier(head, fs, left, d, body, seen, next.octet, next.left, if r.Success? then 0 else r.count);
      ConcatAppend(head, fs);
      Assoc3(Concat(head), Concat(fs), rest);
      fs := head + fs;
    }
  }

  // ---------------------------------------------------------------------------
  // A walk that is given only a part of the stream

  lemma FrameLengthWithin(a: seq<byte>, z: seq<byte>)
    ensures FrameLength(a).Some? ==> FrameLength(a + z) == FrameLength(a)
    ensures FrameLength(a).None? && FrameLength(a + z).Some? ==> FrameLength(a + z).value > |a|
  {
    if |a| >= FRAME_HEADER {
      assert (a + z)[COMPRESSED_SIZE_AT..COMPRESSED_SIZE_AT + WIDTH] == a[COMPRESSED_SIZE_AT..COMPRESSED_SIZE_AT + WIDTH];
    }
  }

  lemma NextFrameWithin(a: seq<byte>, z: seq<byte>, d: Decompress)
    ensures match NextFrame(a, d) {
              case Some((data, t)) => NextFrame(a + z, d) == Some((data, t + z))
              case None => NextFrame(a + z, d).Some? ==> |NextFrame(a + z, d).value.1| < |z|
            }
  {
    FrameLengthWithin(a, z);
    if FrameLength(a).Some? {
      var n := FrameLength(a).value;
      assert (a + z)[..n] == a[..n] && (a + z)[n..] == a[n..] + z;
    }
  }

  /** The next byte over a part and over the whole, of which `z` is beyond the part. */
  ghost predicate ByteWithin(part: Next, whole: Next, z: seq<byte>) {
    match part
    case Next(x, l, t) => whole == Next(x, l, t + z)
    case Stuck => whole.Next? ==> |whole.rest| < |z|
  }

  lemma {:induction false} NextByteWithin(left: seq<byte>, a: seq<byte>, z: seq<byte>, d: Decompress, started: bool,
                                          empties: nat)
    ensures ByteWithin(NextByte(left, a, d, started, empties), NextByte(left, a + z, d, started, empties), z)
    decreases |a|
  {
    if left == [] {
      NextFrameWithin(a, z, d);
      NextByteStep(a, d, started, empties);
      NextByteStep(a + z, d, started, empties);
      var frame := NextFrame(a, d);
      if frame.Some? && frame.value.0 == [] && started && empties + 1 < MAX_EMPTY_READS {
        NextByteWithin([], frame.value.1, z, d, started, empties + 1);
      }
    }
  }

  /** A walk over a part of the stream ends as the walk over all of it, unless that one needs
      bytes beyond the part. */
  lemma {:induction false} WalkWithin(left: seq<byte>, a: seq<byte>, z: seq<byte>, d: Decompress, body: Body,
                                      seen: seq<byte>)
    ensures match Walk(left, a, d, body, seen) {
              case Success(t) => Walk(left, a + z, d, body, seen) == Success(t + z)
              case Leftover(n) => Walk(left, a + z, d, body, seen) == Leftover(n)
              case Failure =>
                var whole := Walk(left, a + z, d, body, seen);
                whole.Success? ==> |whole.rest| < |z|
            }
    decreases |a|, |left|
  {
    if body(seen) == More {
      NextByteWithin(left, a, z, d, seen != [], 0);
      var next := NextByte(left, a, d, seen != [], 0);
      if next.Next? { WalkWithin(next.left, next.rest, z, d, body, seen + [next.octet]); }
    }
  }

  // ---------------------------------------------------------------------------
  // Exactly which bodies are walked to their end

  /** The `n` frames from `i` on have no data. */
  ghost predicate EmptyRun(fs: seq<seq<byte>>, d: Decompress, i: int, n: nat) {
    0 <= i && i + n <= |fs| && forall k :: i <= k < i + n ==> Data(fs[k], d) == []
  }

  /** Somewhere as many frames in a row have no data as the buffered reader puts up with. */
  ghost predicate LongEmptyRun(fs: seq<seq<byte>>, d: Decompress) {
    exists i :: EmptyRun(fs, d, i, MAX_EMPTY_READS)
  }

  /** The last frame has data. */
  ghost predicate EndsInData(fs: seq<seq<byte>>, d: Decompress) {
    fs != [] ==> Data(fs[|fs| - 1], d) != []
  }

  lemma FirstOf(fs: seq<seq<byte>>, t: seq<byte>, d: Decompress)
    requires Decodes(fs, d) && fs != []
    ensures NextFrame(Concat(fs) + t, d) == Some((Data(fs[0], d), Concat(fs[1..]) + t))
  {
    ConcatHead(fs);
    Assoc3(fs[0], Concat(fs[1..]), t);
    FrameAtHead(fs[0], Concat(fs[1..]) + t);
  }

  /** A frame without data is skipped, if the reader has started and still has patience. */
  lemma NextByteSkips(fs: seq<seq<byte>>, t: seq<byte>, d: Decompress, started: bool, empties: nat)
    requires Decodes(fs, d) && fs != [] && Data(fs[0], d) == []
    ensures NextByte([], Concat(fs) + t, d, started, empties)
            == if started && empties + 1 < MAX_EMPTY_READS
               then NextByte([], Concat(fs[1..]) + t, d, started, empties + 1) else Stuck
  {
    FirstOf(fs, t, d);
    NextByteStep(Concat(fs) + t, d, started, empties);
  }

  lemma NextByteOf(fs: seq<seq<byte>>, t: seq<byte>, d: Decompress, started: bool, empties: nat)
    requires Decodes(fs, d) && fs != [] && Data(fs[0], d) != []
    ensures var data := Data(fs[0], d);
            NextByte([], Concat(fs) + t, d, started, empties) == Next(data[0], data[1..], Concat(fs[1..]) + t)
  {
    FirstOf(fs, t, d);
    NextByteStep(Concat(fs) + t, d, started, empties);
  }

  /** The walk after the reader was asked for a byte. */
  ghost function Resume(next: Next, d: Decompress, body: Body, seen: seq<byte>): (r: Outcome) {
    if next.Stuck? then Failure else Walk(next.left, next.rest, d, body, seen + [next.octet])
  }

  /** The walk when it asks for a byte after `empties` frames without data. */
  ghost function Step(fs: seq<seq<byte>>, t: seq<byte>, d: Decompress, body: Body, seen: seq<byte>, empties: nat)
    : (r: Outcome)
  {
    Resume(NextByte([], Concat(fs) + t, d, seen != [], empties), d, body, seen)
  }

  /** The frames can be read to their end after `empties` frames without data in a row. */
  ghost predicate Passable(fs: seq<seq<byte>>, d: Decompress, started: bool, empties: nat) {
    if fs == [] then true
    else if Data(fs[0], d) != [] then Passable(fs[1..], d, true, 0)
    else started && empties + 1 < MAX_EMPTY_READS && Passable(fs[1..], d, started, empties + 1)
  }

  lemma {:induction false} WalkPasses(left: seq<byte>, fs: seq<seq<byte>>, t: seq<byte>, d: Decompress, body: Body,
                                      seen: seq<byte>)
    requires Decodes(fs, d) && EndsInData(fs, d)
    requires Ends(body, seen + (left + DataOf(fs, d)), |seen|, 0)
    ensures Walk(left, Concat(fs) + t, d, body, seen) == Success(t) <==> Passable(fs, d, seen + left != [], 0)
    decreases |fs|, |left|, 1
  {
    var total := seen + (left + DataOf(fs, d));
    assert total[..|total|] == total && total[..|seen|] == seen;
    if left != [] {
      var x, tail := left[0], left[1..];
      JoinData(seen, left, [], x, tail, DataOf(fs, d));
      assert [] + DataOf(fs, d) == DataOf(fs, d);
      WalkPasses(tail, fs, t, d, body, seen + [x]);
    } else if fs == [] {
      assert total == seen && Concat(fs) + t == t;
    } else {
      assert seen + ([] + DataOf(fs, d)) == seen + DataOf(fs, d) && seen + left == seen;
      DataNotEmpty(fs, d);
      ResumePasses(fs, t, d, body, seen, 0, DataOf(fs, d));
    }
  }

  lemma {:induction false} DataNotEmpty(fs: seq<seq<byte>>, d: Decompress)
    requires fs != [] && EndsInData(fs, d)
    ensures DataOf(fs, d) != []
  {
    if |fs| > 1 { DataNotEmpty(fs[1..], d); }
  }

  lemma EmptyHead(fs: seq<seq<byte>>, d: Decompress)
    requires fs != [] && EndsInData(fs, d) && Data(fs[0], d) == []
    ensures fs[1..] != [] && EndsInData(fs[1..], d) && DataOf(fs, d) == DataOf(fs[1..], d)
  {
    assert [] + DataOf(fs[1..], d) == DataOf(fs[1..], d);
  }

  /** The step of the walk that opens frames until one has data. */
  lemma {:induction false} ResumePasses(fs: seq<seq<byte>>, t: seq<byte>, d: Decompress, body: Body, seen: seq<byte>,
                                        empties: nat, data: seq<byte>)
    requires Decodes(fs, d) && EndsInData(fs, d) && fs != []
    requires data == DataOf(fs, d) && Ends(body, seen + data, |seen|, 0)
    ensures Step(fs, t, d, body, seen, empties) == Success(t) <==> Passable(fs, d, seen != [], empties)
    decreases |fs|, 0, 0, 1
  {
    if Data(fs[0], d) == [] {
      EmptyHead(fs, d);
      if empties + 1 < MAX_EMPTY_READS { ResumePasses(fs[1..], t, d, body, seen, empties + 1, data); }
      SkipPasses(fs, t, d, body, seen, empties);
    } else {
      ResumeInData(fs, t, d, body, seen, empties, data);
    }
  }

  /** A frame without data passes exactly when what follows it does, if the reader skips it. */
  lemma SkipPasses(fs: seq<seq<byte>>, t: seq<byte>, d: Decompress, body: Body, seen: seq<byte>, empties: nat)
    requires Decodes(fs, d) && fs != [] && Data(fs[0], d) == []
    requires empties + 1 < MAX_EMPTY_READS ==>
               (Step(fs[1..], t, d, body, seen, empties + 1) == Success(t)
                <==> Passable(fs[1..], d, seen != [], empties + 1))
    ensures Step(fs, t, d, body, seen, empties) == Success(t) <==> Passable(fs, d, seen != [], empties)
  {
    ResumeSkips(fs, t, d, body, seen, empties);
  }

  lemma {:induction false} ResumeInData(fs: seq<seq<byte>>, t: seq<byte>, d: Decompress, body: Body, seen: seq<byte>,
                                        empties: nat, data: seq<byte>)
    requires Decodes(fs, d) && EndsInData(fs, d) && fs != [] && Data(fs[0], d) != []
    requires data == DataOf(fs, d) && Ends(body, seen + data, |seen|, 0)
    ensures Step(fs, t, d, body, seen, empties) == Success(t) <==> Passable(fs[1..], d, true, 0)
    decreases |fs|, 0, 0, 0
  {
    var first := Data(fs[0], d);
    ResumeOpens(fs, t, d, body, seen, empties);
    EndsAfterByte(body, seen, first, DataOf(fs[1..], d));
    WalkPasses(first[1..], fs[1..], t, d, body, seen + [first[0]]);
  }

  lemma ResumeSkips(fs: seq<seq<byte>>, t: seq<byte>, d: Decompress, body: Body, seen: seq<byte>, empties: nat)
    requires Decodes(fs, d) && fs != [] && Data(fs[0], d) == []
    ensures Step(fs, t, d, body, seen, empties)
            == if seen != [] && empties + 1 < MAX_EMPTY_READS
               then Step(fs[1..], t, d, body, seen, empties + 1) else Failure
  {
    NextByteSkips(fs, t, d, seen != [], empties);
  }

  lemma ResumeOpens(fs: seq<seq<byte>>, t: seq<byte>, d: Decompress, body: Body, seen: seq<byte>, empties: nat)
    requires Decodes(fs, d) && fs != [] && Data(fs[0], d) != []
    ensures var data := Data(fs[0], d);
            Step(fs, t, d, body, seen, empties)
            == Walk(data[1..], Concat(fs[1..]) + t, d, body, seen + [data[0]])
  {
    NextByteOf(fs, t, d, seen != [], empties);
  }

  lemma EndsAfterByte(body: Body, seen: seq<byte>, data: seq<byte>, more: seq<byte>)
    requires data != [] && Ends(body, seen + (data + more), |seen|, 0)
    ensures Ends(body, (seen + [data[0]]) + (data[1..] + more), |seen + [data[0]]|, 0)
  {
    JoinData(seen, [], data, data[0], data[1..], more);
    assert seen + ([] + (data + more)) == seen + (data + more);
  }

  /** How many frames without data come first. */
  ghost function LeadingEmpties(fs: seq<seq<byte>>, d: Decompress): (k: nat)
    ensures EmptyRun(fs, d, 0, k)
    ensures k < |fs| ==> Data(fs[k], d) != []
  {
    if fs == [] || Data(fs[0], d) != [] then 0
    else
      var k := LeadingEmpties(fs[1..], d);
      assert forall i :: 1 <= i < k + 1 ==> fs[i] == fs[1..][i - 1];
      k + 1
  }

  lemma LongRunShift(fs: seq<seq<byte>>, d: Decompress)
    requires fs != []
    ensures LongEmptyRun(fs, d) <==> LeadingEmpties(fs, d) >= MAX_EMPTY_READS || LongEmptyRun(fs[1..], d)
  {
    var k, rest := LeadingEmpties(fs, d), fs[1..];
    if k >= MAX_EMPTY_READS { assert EmptyRun(fs, d, 0, MAX_EMPTY_READS); }
    if LongEmptyRun(rest, d) {
      var i :| EmptyRun(rest, d, i, MAX_EMPTY_READS);
      forall m | i + 1 <= m < i + 1 + MAX_EMPTY_READS ensures Data(fs[m], d) == [] { assert fs[m] == rest[m - 1]; }
      assert EmptyRun(fs, d, i + 1, MAX_EMPTY_READS);
    }
    if LongEmptyRun(fs, d) && k < MAX_EMPTY_READS {
      var i :| EmptyRun(fs, d, i, MAX_EMPTY_READS);
      assert i > 0;
      forall m | i - 1 <= m < i - 1 + MAX_EMPTY_READS ensures Data(rest[m], d) == [] { assert rest[m] == fs[m + 1]; }
      assert EmptyRun(rest, d, i - 1, MAX_EMPTY_READS);
    }
  }

  lemma {:induction false} PassableIff(fs: seq<seq<byte>>, d: Decompress, started: bool, empties: nat)
    requires empties < MAX_EMPTY_READS
    ensures var k := LeadingEmpties(fs, d);
            Passable(fs, d, started, empties) <==>
            !LongEmptyRun(fs, d) && (k == 0 || (started && empties + k < MAX_EMPTY_READS))
  {
    if fs != [] {
      LongRunShift(fs, d);
      if fs[1..] != [] { LongRunShift(fs[1..], d); }
      if Data(fs[0], d) != [] {
        PassableIff(fs[1..], d, true, 0);
      } else if empties + 1 < MAX_EMPTY_READS {
        PassableIff(fs[1..], d, started, empties + 1);
      }
    }
  }

  /** A body that consumes exactly the data of whole frames, the last of which has data, is
      walked to its end if and only if the first frame has data too and no run of frames
      without data is as long as the buffered reader's patience. */
  lemma WalkSucceedsIff(fs: seq<seq<byte>>, t: seq<byte>, d: Decompress, body: Body)
    requires Decodes(fs, d) && fs != [] && EndsInData(fs, d)
    requires Ends(body, DataOf(fs, d), 0, 0)
    ensures Walk([], Concat(fs) + t, d, body, []) == Success(t) <==>
            Data(fs[0], d) != [] && !LongEmptyRun(fs, d)
  {
    assert [] + ([] + DataOf(fs, d)) == DataOf(fs, d);
    WalkPasses([], fs, t, d, body, []);
    PassableIff(fs, d, false, 0);
  }

  /** A body whose first frame has no data is refused, wherever it ends. */
  lemma EmptyFirstFrameFails(f: seq<byte>, t: seq<byte>, d: Decompress, body: Body)
    requires WholeFrame(f) && d(f) == Some([]) && body([]) == More
    ensures Walk([], f + t, d, body, []) == Failure
  {
    FrameAtHead(f, t);
    NextByteStep(f + t, d, false, 0);
  }
}
