/** ChunkedReader and ChunkedWriter over a connection that answers reads as it likes: in any
    pieces, with time-outs, with errors that come together with data.
 */
module ChunkedTransport {
  import opened Bytes
  import opened Chunking

  /** `Spins` stands for a call that does not return. */
  datatype Err = Nil | Eof | Interrupted | NoProgress | Oversize | Rejected | Spins

  /** What a connection can answer. */
  type Cause = e: Err | e != Oversize && e != Rejected && e != Spins witness Nil

  /** How the connection behaves on one read: it gives at most `limit` bytes, and this error. */
  datatype Answer = Answer(limit: nat, err: Cause)

  /** Answers that give something and no error. */
  predicate Steady(script: seq<Answer>) {
    forall i :: 0 <= i < |script| ==> script[i].limit > 0 && script[i].err == Nil
  }

  function Min(a: nat, b: nat): (m: nat) { if a < b then a else b }

  /** The connection and, before it, the bytes that were handed back. Past the end of the script
      reads are as full as they can be. */
  datatype Line = Line(front: seq<byte>, stream: seq<byte>, script: seq<Answer>)
  {
    function Unread(): (b: seq<byte>) { front + stream }
  }

  /** The next answers give `n` bytes before one fails or gives nothing. */
  predicate Gives(script: seq<Answer>, n: int)
    decreases |script|
  {
    n <= 0 || script == []
    || (script[0].err == Nil && script[0].limit > 0 && Gives(script[1..], n - script[0].limit))
  }

  /** Reads of what is still needed get all of it before one fails or gives nothing. */
  predicate Completes(need: int, l: Line) {
    need <= |l.front| || (need <= |l.front| + |l.stream| && Gives(l.script, need - |l.front|))
  }

  lemma CompletesAfterAnswer(l: Line, k: nat, n: nat)
    requires l.front == [] && l.script != [] && k > 0 && n == Min(Min(l.script[0].limit, k), |l.stream|)
    ensures Completes(k, l) <==>
            l.script[0].err == Nil && n > 0 && Completes(k - n, Line([], l.stream[n..], l.script[1..]))
  {
    var a := l.script[0];
    assert Gives(l.script, k) <==> a.err == Nil && a.limit > 0 && Gives(l.script[1..], k - a.limit);
  }

  lemma {:induction false} SteadyGives(script: seq<Answer>, n: int)
    requires Steady(script)
    ensures Gives(script, n)
    decreases |script|
  {
    if n > 0 && script != [] { SteadyGives(script[1..], n - script[0].limit); }
  }

  /** One read: what it gives, its error, and what is left. */
  datatype Given = Given(data: seq<byte>, err: Cause, left: Line)

  function FromFront(l: Line, k: nat): (g: Given) {
    var n := Min(k, |l.front|);
    Given(l.front[..n], Nil, l.(front := l.front[n..]))
  }

  function Unscripted(l: Line, k: nat): (g: Given) {
    var n := Min(k, |l.stream|);
    Given(l.stream[..n], if l.stream == [] then Eof else Nil, l.(stream := l.stream[n..]))
  }

  function Scripted(l: Line, k: nat): (g: Given)
    requires l.script != []
  {
    var n := Min(Min(l.script[0].limit, k), |l.stream|);
    Given(l.stream[..n], l.script[0].err, Line([], l.stream[n..], l.script[1..]))
  }

  /** There is something to come, and no answer before it is an error. */
  ghost predicate Quiet(l: Line) {
    l.Unread() != [] && (l.front != [] || forall i :: 0 <= i < |l.script| ==> l.script[i].err == Nil)
  }

  /** A read that has no room for a byte. */
  ghost predicate AnswersEmpty(l: Line, g: Given) {
    && (Quiet(l) <==> g.err == Nil && Quiet(g.left))
    && (g.err == Nil && |g.left.script| == |l.script| ==> Quiet(l))
  }

  /** What a reader may rely on. */
  ghost predicate Answers(l: Line, k: nat, g: Given) {
    && |g.data| <= k && l.Unread() == g.data + g.left.Unread()
    && |g.left.script| <= |l.script|
    && (k > 0 && g.data == [] && g.err == Nil ==> |g.left.script| < |l.script|)
    && (k > 0 && g.err != Nil && l.Unread() != [] ==> |g.left.script| < |l.script|)
    && (Steady(l.script) ==> Steady(g.left.script) && (k > 0 && l.Unread() != [] ==> g.data != [] && g.err == Nil))
    && (k > 0 ==> (Completes(k, l) <==> g.err == Nil && g.data != [] && Completes(k - |g.data|, g.left)))
    && (k == 0 ==> AnswersEmpty(l, g))
  }

  lemma FrontAnswers(l: Line, k: nat)
    requires l.front != []
    ensures Answers(l, k, FromFront(l, k))
  {
    var n := Min(k, |l.front|);
    assert l.front == l.front[..n] + l.front[n..];
    Assoc3(l.front[..n], l.front[n..], l.stream);
  }

  lemma UnscriptedAnswers(l: Line, k: nat)
    requires l.front == [] && l.script == []
    ensures Answers(l, k, Unscripted(l, k))
  {
  }

  lemma ScriptedAnswers(l: Line, k: nat)
    requires l.front == [] && l.script != []
    ensures Answers(l, k, Scripted(l, k))
  {
    if k > 0 { CompletesAfterAnswer(l, k, |Scripted(l, k).data|); } else { ScriptedAnswersEmpty(l); }
  }

  lemma ScriptedAnswersEmpty(l: Line)
    requires l.front == [] && l.script != []
    ensures AnswersEmpty(l, Scripted(l, 0))
  {
    assert l.script == [l.script[0]] + l.script[1..];
    assert l.stream[0..] == l.stream;
  }

  class Transport {
    var line: Line

    constructor (bytes: seq<byte>, answers: seq<Answer>)
      ensures line == Line([], bytes, answers)
    {
      line := Line([], bytes, answers);
    }

    function Unread(): (b: seq<byte>)
      reads this
    {
      line.Unread()
    }

    method Read(k: nat) returns (data: seq<byte>, err: Cause)
      modifies this
      ensures Answers(old(line), k, Given(data, err, line))
    {
      var g;
      if line.front != [] {
        g := FromFront(line, k);
        FrontAnswers(line, k);
      } else if line.script == [] {
        g := Unscripted(line, k);
        UnscriptedAnswers(line, k);
      } else {
        g := Scripted(line, k);
        ScriptedAnswers(line, k);
      }
      data, err, line := g.data, g.err, g.left;
    }

    method Prepend(b: seq<byte>)
      modifies this
      ensures Unread() == b + old(Unread()) && line.script == old(line.script)
    {
      line := line.(front := b + line.front);
      Assoc3(b, old(line.front), line.stream);
    }

    /** Reads until `k` bytes are there or an error comes first. */
    method ReadFull(k: nat) returns (data: seq<byte>, ok: bool)
      modifies this
      ensures old(Unread()) == data + Unread() && |data| <= k
      ensures ok <==> |data| == k
      ensures |line.script| <= |old(line.script)|
      ensures old(Steady(line.script)) ==> Steady(line.script) && (k <= |old(Unread())| ==> ok)
    {
      data := [];
      var err := Nil;
      assert [] + Unread() == Unread();
      while |data| < k && err == Nil
        invariant old(Unread()) == data + Unread() && |data| <= k && |line.script| <= |old(line.script)|
        invariant old(Steady(line.script)) ==> Steady(line.script) && (k <= |old(Unread())| ==> err == Nil)
        decreases |line.script| + |Unread()|, if err == Nil then 1 else 0
      {
        var more, e := Read(k - |data|);
        Assoc3(data, more, Unread());
        data, err := data + more, e;
      }
      ok := |data| == k;
    }
  }

  class ChunkedReader {
    const r: Transport
    var enabled: bool
    var remaining: nat
    /** Bytes retained of a header that came in pieces. */
    var header: seq<byte>

    ghost predicate Valid()
      reads this
    {
      |header| <= HEADER && (remaining > 0 ==> header == [])
    }

    /** What the reader has not consumed, and what it will deliver of it. */
    ghost function Pending(): (b: seq<byte>)
      reads this, r
    {
      header + r.Unread()
    }

    ghost function Future(): (p: seq<byte>)
      reads this, r
    {
      Payload(Pending(), remaining)
    }

    constructor (transport: Transport, on: bool)
      ensures r == transport && enabled == on && remaining == 0 && header == [] && Valid()
    {
      r, enabled, remaining, header := transport, on, 0, [];
    }

    /** A header that could not be completed stays where the next call finds it. */
    method ReadChunkHeader() returns (size: nat, err: Err)
      requires Valid() && remaining == 0
      modifies this`header, r
      ensures Valid() && |r.line.script| <= |old(r.line.script)| && err != Spins
      ensures old(Steady(r.line.script)) ==> Steady(r.line.script)
      ensures err == Nil || err == Oversize <==> old(Completes(HEADER - |header|, r.line))
      ensures if err == Nil || err == Oversize
              then |old(Pending())| >= HEADER && header == [] && size == Size(old(Pending()))
                   && Pending() == old(Pending())[HEADER..] && (err == Nil <==> size <= MAX_CHUNK)
              else Pending() == old(Pending())
                   && (|old(Pending())| >= HEADER ==> |r.line.script| < |old(r.line.script)|)
    {
      size := 0;
      while |header| < HEADER
        invariant Valid() && Pending() == old(Pending()) && |r.line.script| <= |old(r.line.script)|
        invariant old(Steady(r.line.script)) ==> Steady(r.line.script)
        invariant Completes(HEADER - |header|, r.line) == old(Completes(HEADER - |header|, r.line))
      {
        ghost var kept := header;
        var data, e := r.Read(HEADER - |header|);
        Assoc3(kept, data, r.Unread());
        header := header + data;
        if e == Eof { return 0, Eof; }
        if e != Nil { return 0, Interrupted; }
        if data == [] { return 0, NoProgress; }
      }
      assert Pending()[..HEADER] == header && Pending()[HEADER..] == r.Unread();
      size := FromLittleEndian(header);
      header := [];
      assert Pending() == r.Unread();
      err := if size > MAX_CHUNK then Oversize else Nil;
    }

    /** Within the framed stream a steady connection completes every header. */
    lemma SteadyCompletes()
      requires Valid() && Steady(r.line.script) && |Pending()| >= HEADER
      ensures Completes(HEADER - |header|, r.line)
    {
      SteadyGives(r.line.script, HEADER - |header| - |r.line.front|);
    }

    method ReadInFrame(k: nat) returns (out: seq<byte>, err: Cause)
      requires Valid() && remaining > 0
      modifies this`remaining, r
      ensures Valid() && |out| <= k && old(Future()) == out + Future()
      ensures old(Sane(Pending(), remaining)) <==> Sane(Pending(), remaining)
      ensures |r.line.script| <= |old(r.line.script)| && |Pending()| <= |old(Pending())|
      ensures k > 0 && out == [] && err == Nil ==> |r.line.script| < |old(r.line.script)|
      ensures k > 0 && out == [] && old(Future()) != [] ==> |r.line.script| < |old(r.line.script)|
      ensures old(Steady(r.line.script)) ==>
                Steady(r.line.script) && (k > 0 && old(Future()) != [] ==> out != [] && err == Nil)
      ensures k == 0 ==>
                && remaining == old(remaining)
                && (old(Quiet(r.line)) <==> err == Nil && Quiet(r.line))
                && (err == Nil && |r.line.script| == |old(r.line.script)| ==> old(Quiet(r.line)))
    {
      assert Pending() == r.Unread();
      out, err := r.Read(Min(k, remaining));
      assert Pending() == r.Unread();
      PayloadTaken(out, r.Unread(), remaining);
      remaining := remaining - |out|;
    }

    method StartFrame() returns (err: Err)
      requires Valid() && remaining == 0
      modifies this`header, this`remaining, r
      ensures Valid() && err != Spins
      ensures err != Oversize ==> Future() == old(Future())
      ensures err == Oversize ==> old(Future()) == [] && !old(Sane(Pending(), remaining))
      ensures old(Sane(Pending(), remaining)) ==> Sane(Pending(), remaining)
      ensures err == Nil ==> |r.line.script| + |Pending()| < old(|r.line.script| + |Pending()|)
      ensures |r.line.script| <= |old(r.line.script)|
      ensures err != Nil && old(Future()) != [] ==> |r.line.script| < |old(r.line.script)|
      ensures old(Steady(r.line.script)) ==> Steady(r.line.script) && (old(Future()) != [] ==> err == Nil)
    {
      if Steady(r.line.script) && |Pending()| >= HEADER { SteadyCompletes(); }
      var size, e := ReadChunkHeader();
      err := e;
      if err == Nil { remaining := size; }
    }

    /** One turn of the loop on an open frame. A turn that used up no answer and gave nothing is
        repeated for ever. */
    method ReadOpenFrame(k: nat) returns (out: seq<byte>, err: Err)
      requires Valid() && remaining > 0
      modifies this`remaining, r
      ensures Valid() && |out| <= k && old(Future()) == out + Future() && err != Oversize
      ensures old(Sane(Pending(), remaining)) ==> Sane(Pending(), remaining)
      ensures |r.line.script| <= |old(r.line.script)| && |Pending()| <= |old(Pending())|
      ensures out == [] && err == Nil ==> |r.line.script| < |old(r.line.script)|
      ensures k > 0 && out == [] && old(Future()) != [] ==> |r.line.script| < |old(r.line.script)|
      ensures old(Steady(r.line.script)) ==>
                && Steady(r.line.script)
                && (old(Future()) != [] ==> err == Spins || (err == Nil && (k > 0 ==> out != [])))
      ensures err == Spins ==> k == 0 && old(Quiet(r.line)) && old(Future()) != []
      ensures k == 0 ==>
                && remaining == old(remaining)
                && (old(Quiet(r.line)) <==> err == Spins || (err == Nil && Quiet(r.line)))
    {
      if Steady(r.line.script) && Future() != [] { DataIsQuiet(); }
      if Quiet(r.line) { SpinsOnData(); }
      var answers := |r.line.script|;
      out, err := ReadInFrame(k);
      if out == [] && err == Nil && |r.line.script| == answers { err := Spins; }
    }

    lemma SpinsOnData()
      requires Valid() && remaining > 0 && Quiet(r.line)
      ensures Future() != []
    {
      assert Pending() == r.Unread();
    }

    lemma DataIsQuiet()
      requires Valid() && remaining > 0 && Steady(r.line.script) && Future() != []
      ensures Quiet(r.line)
    {
      assert Pending() == r.Unread();
    }

    /** One streaming read: what it returns and what is still to come are together what was to
        come before, whatever the connection answered. With no room for a byte it does not return
        from an open frame exactly when the connection does not fail there, and on a connection
        that never fails exactly when there is something to come. */
    method Read(k: nat) returns (out: seq<byte>, err: Err)
      requires Valid()
      modifies this, r
      ensures Valid() && enabled == old(enabled) && |out| <= k && (err == Spins ==> k == 0)
      ensures !enabled ==>
                && err != Oversize && old(r.Unread()) == out + r.Unread()
                && header == old(header) && remaining == old(remaining)
      ensures enabled && err != Oversize ==> old(Future()) == out + Future()
      ensures enabled && err == Oversize ==> out == [] && old(Future()) == []
      ensures enabled && old(Sane(Pending(), remaining)) ==> err != Oversize && Sane(Pending(), remaining)
      ensures enabled && err == Nil ==> out != []
      ensures |r.line.script| <= |old(r.line.script)|
      ensures enabled && k > 0 && out == [] && old(Future()) != [] ==> |r.line.script| < |old(r.line.script)|
      ensures old(Steady(r.line.script)) ==>
                && Steady(r.line.script)
                && (k > 0 && (if enabled then old(Future()) else old(r.Unread())) != [] ==> out != [] && err == Nil)
      ensures enabled && err == Spins ==> old(Future()) != []
      ensures enabled && k == 0 && old(remaining > 0) ==> (err == Spins <==> old(Quiet(r.line)))
      ensures enabled && k == 0 && old(Steady(r.line.script)) ==> (err == Spins <==> old(Future()) != [])
    {
      if !enabled {
        out, err := r.Read(k);
        return;
      }
      while true
        invariant Valid() && enabled && Future() == old(Future())
        invariant old(Sane(Pending(), remaining)) ==> Sane(Pending(), remaining)
        invariant old(Steady(r.line.script)) ==> Steady(r.line.script)
        invariant |r.line.script| <= |old(r.line.script)|
        invariant k == 0 && old(remaining > 0) ==> remaining > 0 && (Quiet(r.line) <==> old(Quiet(r.line)))
        decreases |r.line.script| + |Pending()|
      {
        if remaining > 0 {
          out, err := ReadOpenFrame(k);
          if out != [] || err != Nil { return; }
        } else {
          err := StartFrame();
          if err != Nil { return [], err; }
        }
      }
    }

    /** The parts of a logical chunk after its first header, which announced `first` bytes. */
    method ReadParts(first: nat) returns (chunk: seq<byte>, err: Err)
      requires Valid() && enabled && remaining == 0 && header == [] && first <= MAX_CHUNK
      modifies this`header, r
      ensures Valid() && |Pending()| <= |old(Pending())| && |r.line.script| <= |old(r.line.script)|
      ensures err == Nil ==> ChunkAfter(first, old(Pending()), []) == Chunk(chunk, Pending())
      ensures old(Steady(r.line.script)) ==>
                Steady(r.line.script) && (ChunkAfter(first, old(Pending()), []).Chunk? ==> err == Nil)
    {
      chunk := [];
      var size: nat := first;
      while size != 0
        invariant Valid() && header == [] && size <= MAX_CHUNK
        invariant |Pending()| <= |old(Pending())| && |r.line.script| <= |old(r.line.script)|
        invariant ChunkAfter(first, old(Pending()), []) == ChunkAfter(size, Pending(), chunk)
        invariant old(Steady(r.line.script)) ==> Steady(r.line.script)
        decreases |Pending()|, size
      {
        if |chunk| + size >= TWO_63 { return [], Rejected; }
        ghost var before := Pending();
        assert before == r.Unread();
        var part, ok := r.ReadFull(size);
        assert Pending() == r.Unread();
        if !ok { return [], Interrupted; }
        assert before[..size] == part && before[size..] == Pending();
        chunk := chunk + part;
        if Steady(r.line.script) && |Pending()| >= HEADER { SteadyCompletes(); }
        ChunkBreaks(Pending(), chunk);
        size, err := ReadChunkHeader();
        if err != Nil { return [], err; }
      }
      if chunk == [] { return [], Rejected; }
      err := Nil;
    }

    /** One logical chunk. A failure leaves the stream as it was exactly when the first header
        did not complete; then calling again takes up where this call stopped. */
    method ReadChunk() returns (chunk: seq<byte>, err: Err)
      requires Valid()
      modifies this, r
      ensures Valid() && enabled == old(enabled) && remaining == old(remaining)
      ensures !old(enabled && remaining == 0) ==> err == Rejected && Pending() == old(Pending())
      ensures err == Nil ==> NextChunk(old(Pending()), []) == Chunk(chunk, Pending())
      ensures old(enabled && remaining == 0) && err != Nil ==>
                (Pending() == old(Pending()) <==> !old(Completes(HEADER - |header|, r.line)))
      ensures old(enabled && remaining == 0) && !old(Completes(HEADER - |header|, r.line)) ==>
                err != Nil && (|old(Pending())| >= HEADER ==> |r.line.script| < |old(r.line.script)|)
      ensures |r.line.script| <= |old(r.line.script)|
      ensures Pending() == old(Pending()) || |Pending()| + HEADER <= |old(Pending())|
      ensures old(enabled && remaining == 0 && Steady(r.line.script)) ==>
                Steady(r.line.script) && (old(NextChunk(Pending(), [])).Chunk? ==> err == Nil)
    {
      if !enabled || remaining != 0 { return [], Rejected; }
      if Steady(r.line.script) && |Pending()| >= HEADER { SteadyCompletes(); }
      ChunkBreaks(Pending(), []);
      var size, e := ReadChunkHeader();
      if e != Nil { return [], e; }
      chunk, err := ReadParts(size);
    }
  }

  // ---------------------------------------------------------------------------
  // Runs

  lemma NothingLeft(b: seq<byte>, remaining: nat)
    requires |b| <= HEADER && (remaining > 0 ==> b == [])
    ensures Payload(b, remaining) == []
  {
  }

  /** Streaming reads of any sizes over packets that were framed, resumed after every time-out
      and error: nothing is lost, nothing is added, and once the connection is drained all of
      it has been returned. A read per byte and per answer of the connection is enough. */
  method ReadPackets(cr: ChunkedReader, ghost packets: seq<seq<byte>>, sizes: seq<nat>) returns (all: seq<byte>)
    requires cr.Valid() && cr.enabled && cr.remaining == 0
    requires AllNonEmpty(packets) && cr.Pending() == FrameAll(packets)
    modifies cr, cr.r
    ensures cr.Valid() && all + cr.Future() == Concat(packets)
    ensures cr.r.Unread() == [] ==> all == Concat(packets)
    ensures 0 !in sizes && |sizes| >= |Concat(packets)| + |old(cr.r.line.script)| ==> all == Concat(packets)
  {
    all := [];
    FramesCarryPackets(packets);
    for i := 0 to |sizes|
      invariant cr.Valid() && cr.enabled && Sane(cr.Pending(), cr.remaining)
      invariant all + cr.Future() == Concat(packets)
      invariant 0 !in sizes ==>
                  cr.Future() == [] || |cr.Future()| + |cr.r.line.script| + i <= |Concat(packets)| + |old(cr.r.line.script)|
    {
      var out, err := cr.Read(sizes[i]);
      Assoc3(all, out, cr.Future());
      all := all + out;
    }
    if cr.r.Unread() == [] {
      assert cr.Pending() == cr.header;
      NothingLeft(cr.Pending(), cr.remaining);
    }
  }

  lemma NextPacket(packets: seq<seq<byte>>)
    requires AllNonEmpty(packets) && packets != []
    ensures NextChunk(FrameAll(packets), []) == Chunk(packets[0], FrameAll(packets[1..]))
    ensures AllNonEmpty(packets[1..])
  {
    PartsRead(packets[0], FrameAll(packets[1..]), []);
    assert [] + packets[0] == packets[0];
  }

  lemma MoveOne<T>(done: seq<T>, left: seq<T>)
    requires left != []
    ensures (done + [left[0]]) + left[1..] == done + left
  {
  }

  /** `left` are the packets that have not been returned yet, and all of them are still to come. */
  ghost predicate Awaits(cr: ChunkedReader, packets: seq<seq<byte>>, got: seq<seq<byte>>, left: seq<seq<byte>>)
    reads cr, cr.r
  {
    && cr.Valid() && cr.enabled && cr.remaining == 0
    && got + left == packets && AllNonEmpty(left) && cr.Pending() == FrameAll(left)
  }

  /** One more chunk read: the next packet, or nothing consumed and an answer of the connection
      used up, or a packet broken in the middle. */
  method ReadNext(cr: ChunkedReader, ghost packets: seq<seq<byte>>, got: seq<seq<byte>>, ghost left: seq<seq<byte>>)
    returns (now: seq<seq<byte>>, intact: bool, ghost still: seq<seq<byte>>)
    requires Awaits(cr, packets, got, left)
    modifies cr, cr.r
    ensures cr.Valid() && got <= now <= packets && |cr.r.line.script| <= |old(cr.r.line.script)|
    ensures intact ==> Awaits(cr, packets, now, still)
    ensures intact && left != [] ==>
              |now| == |got| + 1 || (now == got && |cr.r.line.script| < |old(cr.r.line.script)|)
    ensures old(Steady(cr.r.line.script)) && left != [] ==> intact && |now| == |got| + 1 && Steady(cr.r.line.script)
    ensures left == [] ==> intact
  {
    now, still := got, left;
    var before := |cr.header| + |cr.r.Unread()|;
    if left != [] {
      NextPacket(left);
      MoveOne(got, left);
    }
    var chunk, err := cr.ReadChunk();
    if err == Nil {
      now, still := got + [chunk], left[1..];
      intact := true;
    } else {
      intact := |cr.header| + |cr.r.Unread()| == before;
    }
  }

  /** Chunk reads over a connection that answers in any way: a read that failed without
      consuming anything is repeated, any other failure ends the run. The packets returned are
      always the first ones, in order and each by itself; while nothing is broken the others are
      still to come; and then a read per packet and per answer of the connection is enough. */
  method ReadChunks(cr: ChunkedReader, ghost packets: seq<seq<byte>>, attempts: nat)
    returns (got: seq<seq<byte>>, intact: bool)
    requires cr.Valid() && cr.enabled && cr.remaining == 0
    requires AllNonEmpty(packets) && cr.Pending() == FrameAll(packets)
    modifies cr, cr.r
    ensures cr.Valid() && got <= packets
    ensures intact ==> cr.Pending() == FrameAll(packets[|got|..])
    ensures intact && attempts >= |packets| + |old(cr.r.line.script)| ==> got == packets
    ensures old(Steady(cr.r.line.script)) ==> intact && |got| == Min(attempts, |packets|)
  {
    got, intact := [], true;
    ghost var left := packets;
    assert [] + packets == packets;
    for i := 0 to attempts
      invariant intact && Awaits(cr, packets, got, left)
      invariant |cr.r.line.script| <= |old(cr.r.line.script)|
      invariant left != [] ==> i <= |got| + |old(cr.r.line.script)| - |cr.r.line.script|
      invariant old(Steady(cr.r.line.script)) && left != [] ==> Steady(cr.r.line.script) && i == |got|
      invariant old(Steady(cr.r.line.script)) ==> |got| == Min(i, |packets|)
    {
      got, intact, left := ReadNext(cr, packets, got, left);
      if !intact { return; }
    }
    assert packets[|got|..] == left;
  }

  // ---------------------------------------------------------------------------
  // Writing

  /** A connection that takes `room` more bytes before it fails. */
  class Sink {
    var out: seq<byte>
    var room: nat

    constructor (space: nat)
      ensures out == [] && room == space
    {
      out, room := [], space;
    }

    method Write(b: seq<byte>) returns (n: nat)
      modifies this
      ensures n == Min(old(room), |b|) && room == old(room) - n && out == old(out) + b[..n]
    {
      n := Min(room, |b|);
      out, room := out + b[..n], room - n;
    }
  }

  class ChunkedWriter {
    const w: Sink
    var enabled: bool

    constructor (sink: Sink, on: bool)
      ensures w == sink && enabled == on
    {
      w, enabled := sink, on;
    }

    /** The next part of a packet, with the zero marker after the last. */
    method WritePart(rest: seq<byte>) returns (size: nat, ok: bool)
      requires rest != []
      modifies w
      ensures 0 < size <= |rest|
      ensures ok ==> Taken(w.out, Framed(rest[size..]), w.room) == old(Taken(w.out, Framed(rest), w.room))
      ensures ok ==> w.room - |Framed(rest[size..])| == old(w.room) - |Framed(rest)|
      ensures !ok ==> old(w.room) < |Framed(rest)| && w.room == 0 && w.out == old(Taken(w.out, Framed(rest), w.room))
    {
      size := Min(|rest|, PART);
      var frame := Header(size) + (rest[..size] + if size == |rest| then Header(0) else []);
      FirstFrame(rest);
      TakenSplit(w.out, frame, Framed(rest[size..]), w.room);
      var m := w.Write(frame);
      ok := m == |frame|;
      assert ok ==> frame[..m] == frame;
    }

    /** A packet goes out framed as one logical chunk, or the connection fails somewhere in it. */
    method Write(p: seq<byte>) returns (n: nat, ok: bool)
      modifies w
      ensures var wire := WireForm(enabled, p);
              && w.out == Taken(old(w.out), wire, old(w.room)) && n <= |p|
              && w.room == old(w.room) - Min(old(w.room), |wire|)
              && (ok <==> old(w.room) >= |wire|) && (ok ==> n == |p|)
    {
      if !enabled {
        n := w.Write(p);
        assert p[..|p|] == p;
        return n, n == |p|;
      }
      n := 0;
      var rest := p;
      while rest != []
        invariant Taken(w.out, Framed(rest), w.room) == old(Taken(w.out, Framed(p), w.room))
        invariant w.room - |Framed(rest)| == old(w.room) - |Framed(p)|
        invariant n + |rest| == |p|
      {
        var size, sent := WritePart(rest);
        if !sent { return n, false; }
        rest := rest[size..];
        n := n + size;
      }
      ok := true;
    }
  }

  /** What a connection with this much room holds after `b` was written to it. */
  function Taken(out: seq<byte>, b: seq<byte>, room: nat): (r: seq<byte>) { out + b[..Min(room, |b|)] }

  lemma TakenSplit(out: seq<byte>, a: seq<byte>, b: seq<byte>, room: nat)
    ensures Taken(out, a + b, room) == if room < |a| then out + a[..room] else Taken(out + a, b, room - |a|)
  {
    if room < |a| {
      assert (a + b)[..Min(room, |a + b|)] == a[..room];
    } else {
      assert (a + b)[..Min(room, |a + b|)] == a + b[..Min(room - |a|, |b|)];
    }
  }

  lemma FirstFrame(p: seq<byte>)
    requires p != []
    ensures var size := Min(|p|, PART);
            var rest := p[size..];
            Framed(p) == (Header(size) + (p[..size] + if rest == [] then Header(0) else [])) + Framed(rest)
  {
    var size := Min(|p|, PART);
    if |p| <= PART {
      assert p[..size] == p && p[size..] == [];
      assert Parts(p) + [] == Parts(p);
    } else {
      assert p[..PART] + [] == p[..PART];
      Assoc3(Header(PART), p[..PART], Parts(p[PART..]));
    }
  }

  lemma TakenAll(out: seq<byte>, b: seq<byte>, room: nat)
    requires room >= |b|
    ensures Taken(out, b, room) == out + b
  {
    assert b[..|b|] == b;
  }

  /** Packets are on the wire one after another, framed while the writer is chunked. */
  method WritePackets(cw: ChunkedWriter, packets: seq<seq<byte>>)
    requires cw.w.room >= |OnWire(cw.enabled, packets)|
    modifies cw.w
    ensures cw.w.out == old(cw.w.out) + OnWire(cw.enabled, packets)
  {
    var left := packets;
    while left != []
      invariant cw.w.out + OnWire(cw.enabled, left) == old(cw.w.out) + OnWire(cw.enabled, packets)
      invariant cw.w.room >= |OnWire(cw.enabled, left)|
    {
      ghost var wire, others := WireForm(cw.enabled, left[0]), OnWire(cw.enabled, left[1..]);
      OnWireHead(cw.enabled, left);
      TakenAll(cw.w.out, wire, cw.w.room);
      Assoc3(cw.w.out, wire, others);
      var n, ok := cw.Write(left[0]);
      left := left[1..];
    }
  }
}
