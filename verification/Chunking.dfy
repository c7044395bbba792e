/** The chunked transport on values: how packets are framed, what a framed stream carries and
    where its logical chunks end.
 */
module Chunking {
  import opened Bytes

  const HEADER: nat := 4
  const MAX_CHUNK := 256 * 1024 * 1024
  const PART := 64 * 1024

  function Header(n: nat): (b: seq<byte>)
    ensures |b| == HEADER
  {
    LittleEndian(n, HEADER)
  }

  function Size(b: seq<byte>): (n: nat)
    requires |b| >= HEADER
  {
    FromLittleEndian(b[..HEADER])
  }

  lemma SizeOfHeader(n: nat, t: seq<byte>)
    requires n < TWO_32
    ensures Size(Header(n) + t) == n && (Header(n) + t)[HEADER..] == t
  {
    assert (Header(n) + t)[..HEADER] == Header(n);
    Pow256Values();
    LittleEndianRoundTrip(n, HEADER);
  }

  // ---------------------------------------------------------------------------
  // Writing

  /** A non-empty packet in parts of bounded size, one zero header after the last. */
  function Parts(p: seq<byte>): (b: seq<byte>)
    ensures |b| >= HEADER
  {
    if |p| <= PART then Header(|p|) + (p + Header(0))
    else Header(PART) + (p[..PART] + Parts(p[PART..]))
  }

  function Framed(p: seq<byte>): (b: seq<byte>) { if p == [] then [] else Parts(p) }

  function FrameAll(packets: seq<seq<byte>>): (b: seq<byte>) {
    if packets == [] then [] else Framed(packets[0]) + FrameAll(packets[1..])
  }

  /** What a writer puts on the wire for a packet, and for packets, chunked or not. */
  function WireForm(chunked: bool, p: seq<byte>): (b: seq<byte>) { if chunked then Framed(p) else p }

  function OnWire(chunked: bool, packets: seq<seq<byte>>): (b: seq<byte>) {
    if chunked then FrameAll(packets) else Concat(packets)
  }

  lemma OnWireHead(chunked: bool, packets: seq<seq<byte>>)
    requires packets != []
    ensures OnWire(chunked, packets) == WireForm(chunked, packets[0]) + OnWire(chunked, packets[1..])
  {
    ConcatHead(packets);
  }

  // ---------------------------------------------------------------------------
  // Reading

  /** The payload a framed stream carries, `remaining` bytes into the current frame; an
      incomplete header or an oversized frame ends it. */
  function Payload(b: seq<byte>, remaining: nat): (p: seq<byte>)
    decreases |b|, remaining
  {
    if remaining >= |b| && remaining > 0 then b
    else if remaining > 0 then b[..remaining] + Payload(b[remaining..], 0)
    else if |b| < HEADER || Size(b) > MAX_CHUNK then []
    else Payload(b[HEADER..], Size(b))
  }

  /** No header of the stream announces an oversized frame. */
  predicate Sane(b: seq<byte>, remaining: nat)
    decreases |b|, remaining
  {
    if remaining > 0 then remaining >= |b| || Sane(b[remaining..], 0)
    else if |b| < HEADER then true
    else Size(b) <= MAX_CHUNK && Sane(b[HEADER..], Size(b))
  }

  datatype ChunkRead = Chunk(data: seq<byte>, rest: seq<byte>) | Broken

  /** The rest of the logical chunk that has given `acc` so far. */
  function NextChunk(b: seq<byte>, acc: seq<byte>): (r: ChunkRead)
    ensures r.Chunk? ==> r.data != [] && |r.rest| < |b|
    decreases |b|, 1
  {
    if |b| < HEADER then Broken else ChunkAfter(Size(b), b[HEADER..], acc)
  }

  /** The same after a header that announced `n` bytes. */
  function ChunkAfter(n: nat, t: seq<byte>, acc: seq<byte>): (r: ChunkRead)
    ensures r.Chunk? ==> r.data != [] && |r.rest| <= |t|
    decreases |t|, if n == 0 then 0 else 2
  {
    if n == 0 then if acc == [] then Broken else Chunk(acc, t)
    else if n > MAX_CHUNK || |acc| + n >= TWO_63 || n > |t| then Broken
    else NextChunk(t[n..], acc + t[..n])
  }

  lemma ChunkBreaks(b: seq<byte>, acc: seq<byte>)
    ensures |b| < HEADER || Size(b) > MAX_CHUNK ==> NextChunk(b, acc).Broken?
    ensures |b| >= HEADER ==> NextChunk(b, acc) == ChunkAfter(Size(b), b[HEADER..], acc)
  {
  }

  // ---------------------------------------------------------------------------
  // One read of any size

  lemma PayloadSplits(b: seq<byte>, remaining: nat, n: nat)
    requires n <= remaining && n <= |b|
    ensures Payload(b, remaining) == b[..n] + Payload(b[n..], remaining - n)
    ensures Sane(b, remaining) <==> Sane(b[n..], remaining - n)
  {
    if n == 0 {
      assert b[..0] + Payload(b, remaining) == Payload(b, remaining) && b[0..] == b;
    } else if remaining >= |b| {
      assert b[..n] + b[n..] == b;
    } else if n == remaining {
    } else {
      assert b[n..][remaining - n..] == b[remaining..];
      assert b[..n] + b[n..][..remaining - n] == b[..remaining];
      Assoc3(b[..n], b[n..][..remaining - n], Payload(b[remaining..], 0));
    }
  }

  lemma PayloadTaken(out: seq<byte>, rest: seq<byte>, remaining: nat)
    requires |out| <= remaining
    ensures Payload(out + rest, remaining) == out + Payload(rest, remaining - |out|)
    ensures Sane(out + rest, remaining) <==> Sane(rest, remaining - |out|)
    ensures Payload(out + rest, remaining) != [] && remaining > 0 ==> out + rest != []
  {
    PayloadSplits(out + rest, remaining, |out|);
    assert (out + rest)[..|out|] == out && (out + rest)[|out|..] == rest;
  }

  /** The bytes after a frame header, and after the frame. */
  lemma FrameReads(n: nat, data: seq<byte>, t: seq<byte>, acc: seq<byte>)
    requires 0 < n == |data| <= MAX_CHUNK && |acc| + n < TWO_63
    ensures var b := Header(n) + (data + t);
            && Payload(b, 0) == data + Payload(t, 0)
            && (Sane(b, 0) <==> Sane(t, 0))
            && NextChunk(b, acc) == NextChunk(t, acc + data)
  {
    var b := Header(n) + (data + t);
    SizeOfHeader(n, data + t);
    PayloadSplits(data + t, n, n);
    assert (data + t)[..n] == data && (data + t)[n..] == t;
    assert Payload(b, 0) == Payload(data + t, n);
  }

  lemma EndReads(t: seq<byte>, acc: seq<byte>)
    requires acc != []
    ensures Payload(Header(0) + t, 0) == Payload(t, 0)
    ensures Sane(Header(0) + t, 0) <==> Sane(t, 0)
    ensures NextChunk(Header(0) + t, acc) == Chunk(acc, t)
  {
    SizeOfHeader(0, t);
  }

  // ---------------------------------------------------------------------------
  // Framing and its inverses

  lemma PartsShape(p: seq<byte>, t: seq<byte>)
    ensures |p| <= PART ==> Parts(p) + t == Header(|p|) + (p + (Header(0) + t))
    ensures |p| > PART ==> Parts(p) + t == Header(PART) + (p[..PART] + (Parts(p[PART..]) + t))
  {
    if |p| <= PART {
      Assoc3(Header(|p|), p + Header(0), t);
      Assoc3(p, Header(0), t);
    } else {
      Assoc3(Header(PART), p[..PART] + Parts(p[PART..]), t);
      Assoc3(p[..PART], Parts(p[PART..]), t);
    }
  }

  /** A framed packet is read back whole, at its own boundary. */
  lemma {:induction false} PartsRead(p: seq<byte>, t: seq<byte>, acc: seq<byte>)
    requires p != [] && |acc| + |p| < TWO_63
    ensures Payload(Parts(p) + t, 0) == p + Payload(t, 0)
    ensures Sane(Parts(p) + t, 0) <==> Sane(t, 0)
    ensures NextChunk(Parts(p) + t, acc) == Chunk(acc + p, t)
    decreases |p|
  {
    PartsShape(p, t);
    if |p| <= PART {
      FrameReads(|p|, p, Header(0) + t, acc);
      EndReads(t, acc + p);
    } else {
      var first, others := p[..PART], p[PART..];
      FrameReads(PART, first, Parts(others) + t, acc);
      PartsRead(others, t, acc + first);
      assert first + others == p;
      Assoc3(first, others, Payload(t, 0));
      Assoc3(acc, first, others);
    }
  }

  predicate AllNonEmpty(packets: seq<seq<byte>>) {
    forall i :: 0 <= i < |packets| ==> packets[i] != [] && |packets[i]| < TWO_63
  }

  /** Streaming reads of written packets give their concatenation and meet no oversized frame. */
  lemma {:induction false} FramesCarryPackets(packets: seq<seq<byte>>)
    requires AllNonEmpty(packets)
    ensures Payload(FrameAll(packets), 0) == Concat(packets)
    ensures Sane(FrameAll(packets), 0)
  {
    if packets != [] {
      FramesCarryPackets(packets[1..]);
      PartsRead(packets[0], FrameAll(packets[1..]), []);
      ConcatHead(packets);
    }
  }

  /** A complete logical chunk is exactly a stretch of the payload. */
  lemma {:induction false} ChunkIsPayload(b: seq<byte>, acc: seq<byte>)
    requires NextChunk(b, acc).Chunk?
    ensures acc + Payload(b, 0) == NextChunk(b, acc).data + Payload(NextChunk(b, acc).rest, 0)
    decreases |b|
  {
    var n, t := Size(b), b[HEADER..];
    if n > 0 {
      ChunkIsPayload(t[n..], acc + t[..n]);
      PayloadSplits(t, n, n);
      Assoc3(acc, t[..n], Payload(t[n..], 0));
    }
  }
}
