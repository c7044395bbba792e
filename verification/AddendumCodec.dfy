/** The codec around the addendum: a buffered reader over the chunked reader, and the switch to
    chunked transport in the middle of the stream.
 */
module AddendumCodec {
  import opened Bytes
  import opened Options
  import opened BufferedReading
  import opened Wire
  import opened ChunkModes
  import opened Chunking
  import opened ChunkedTransport
  import opened Addendum
  import opened Revisions

  class Codec {
    const chunkedR: ChunkedReader
    const chunkedW: ChunkedWriter
    /** What the buffered reader holds, and the error it has still to report. */
    var buffered: seq<byte>
    var pendingErr: Err
    var revision: int

    ghost predicate Valid()
      reads this, chunkedR
    {
      chunkedR.Valid() && (!chunkedR.enabled ==> chunkedR.header == [] && chunkedR.remaining == 0)
    }

    /** The bytes the decoders are going to see. */
    ghost function Visible(): (b: seq<byte>)
      reads this, chunkedR, chunkedR.r
    {
      buffered + Beyond()
    }

    constructor (transport: Transport, sink: Sink, rev: int)
      ensures Valid() && fresh(chunkedR) && fresh(chunkedW)
      ensures chunkedR.r == transport && chunkedW.w == sink && revision == rev
      ensures !chunkedR.enabled && !chunkedW.enabled && buffered == [] && pendingErr == Nil
      ensures Visible() == transport.Unread()
    {
      var cr := new ChunkedReader(transport, false);
      var cw := new ChunkedWriter(sink, false);
      chunkedR, chunkedW, buffered, pendingErr, revision := cr, cw, [], Nil, rev;
      new;
      assert [] + transport.Unread() == transport.Unread();
    }

    /** A connection that does not fail, and no error left over. */
    ghost predicate Calm()
      reads this, chunkedR, chunkedR.r
    {
      Steady(chunkedR.r.line.script) && pendingErr == Nil
    }

    /** No frame that is still to come is oversized. */
    ghost predicate Sound()
      reads this, chunkedR, chunkedR.r
    {
      chunkedR.enabled ==> Sane(chunkedR.Pending(), chunkedR.remaining)
    }

    /** What is to come after the buffer. */
    ghost function Beyond(): (b: seq<byte>)
      reads this, chunkedR, chunkedR.r
    {
      if chunkedR.enabled then chunkedR.Future() else chunkedR.r.Unread()
    }

    /** One read into the room the buffer has. */
    method Ask() returns (data: seq<byte>, err: Err)
      requires Valid() && |buffered| < BUFFER
      modifies this`buffered, chunkedR, chunkedR.r
      ensures Valid() && chunkedR.enabled == old(chunkedR.enabled) && buffered == old(buffered) + data
      ensures err != Oversize ==> Visible() == old(Visible())
      ensures err == Oversize ==> data == [] && old(Beyond()) == []
      ensures old(Sound()) ==> Sound() && err != Oversize
      ensures old(Steady(chunkedR.r.line.script)) ==>
                && Steady(chunkedR.r.line.script)
                && (old(Beyond()) != [] ==> data != [] && err == Nil)
    {
      data, err := chunkedR.Read(BUFFER - |buffered|);
      Assoc3(buffered, data, Beyond());
      buffered := buffered + data;
    }

    /** The buffer asks for as much as it has room for, until something comes; how much is up to
        the connection. An error that comes with data is kept for later. */
    method Fill()
      requires Valid() && |buffered| < BUFFER && pendingErr == Nil
      modifies this`buffered, this`pendingErr, chunkedR, chunkedR.r
      ensures Valid() && chunkedR.enabled == old(chunkedR.enabled)
      ensures pendingErr != Oversize ==> Visible() == old(Visible())
      ensures pendingErr == Oversize ==> buffered == old(buffered) && old(Beyond()) == []
      ensures old(buffered) <= buffered && (buffered == old(buffered) ==> pendingErr != Nil)
      ensures old(Sound()) ==> Sound() && pendingErr != Oversize
      ensures old(Steady(chunkedR.r.line.script)) ==>
                Steady(chunkedR.r.line.script) && (old(Beyond()) != [] ==> pendingErr == Nil)
    {
      for tries := 0 to MAX_EMPTY_READS
        invariant Valid() && chunkedR.enabled == old(chunkedR.enabled)
        invariant buffered == old(buffered) && pendingErr == Nil && Visible() == old(Visible())
        invariant Beyond() == old(Beyond())
        invariant old(Sound()) ==> Sound()
        invariant old(Steady(chunkedR.r.line.script)) ==>
                    Steady(chunkedR.r.line.script) && (old(Beyond()) != [] ==> tries == 0)
      {
        var data, err := Ask();
        if data != [] || err != Nil {
          pendingErr := err;
          return;
        }
        assert buffered == old(buffered);
        SameBeyond(buffered, Beyond(), old(Beyond()));
      }
      pendingErr := NoProgress;
    }

    static lemma SameBeyond(held: seq<byte>, a: seq<byte>, b: seq<byte>)
      requires held + a == held + b
      ensures a == b
    {
      SplitEqual(held, held, a, b);
    }

    /** Whatever was prefetched before the switch, the decoders see the deframed stream after. */
    method EnableChunked(recv: bool, send: bool)
      requires Valid()
      modifies this`buffered, this`pendingErr, chunkedR`enabled, chunkedR.r, chunkedW`enabled
      ensures Valid()
      ensures chunkedR.enabled == (old(chunkedR.enabled) || recv)
      ensures chunkedW.enabled == (old(chunkedW.enabled) || send)
      ensures Visible() == if recv && !old(chunkedR.enabled) then Payload(old(Visible()), 0) else old(Visible())
      ensures Sound() <==> if recv && !old(chunkedR.enabled) then Sane(old(Visible()), 0) else old(Sound())
      ensures old(Calm()) ==> Calm()
    {
      if recv && !chunkedR.enabled {
        if |buffered| > 0 { chunkedR.r.Prepend(buffered); }
        assert [] + chunkedR.r.Unread() == chunkedR.r.Unread();
        buffered, pendingErr := [], Nil;
        chunkedR.enabled := true;
        assert chunkedR.Pending() == old(Visible());
        assert [] + chunkedR.Future() == chunkedR.Future();
      }
      if send { chunkedW.enabled := true; }
    }

    /** One byte at a time, which is how the packet decoders read. Only an oversized frame, with
        nothing before it, changes what is to come without giving a byte. */
    method ReadByte() returns (r: Option<byte>)
      requires Valid()
      modifies this`buffered, this`pendingErr, chunkedR, chunkedR.r
      ensures Valid() && chunkedR.enabled == old(chunkedR.enabled)
      ensures r.Some? ==>
                old(Visible()) != [] && r.value == old(Visible())[0] && Visible() == old(Visible())[1..]
      ensures r.None? ==> old(Visible()) == [] || Visible() == old(Visible())
      ensures old(Sound()) ==> Sound() && (r.None? ==> Visible() == old(Visible()))
      ensures old(Calm()) ==> Calm() && (old(Visible()) != [] ==> r.Some?)
    {
      if buffered == [] && pendingErr == Nil {
        assert Visible() == Beyond();
        Fill();
      }
      if buffered == [] {
        pendingErr := Nil;
        return None;
      }
      r := Some(buffered[0]);
      assert (buffered + Beyond())[1..] == buffered[1..] + Beyond();
      buffered := buffered[1..];
    }

    /** Up to `n` bytes, until a read fails. */
    method ReadBytes(n: nat) returns (got: seq<byte>)
      requires Valid()
      modifies this`buffered, this`pendingErr, chunkedR, chunkedR.r
      ensures Valid() && chunkedR.enabled == old(chunkedR.enabled) && |got| <= n
      ensures old(Sound()) ==> Sound() && old(Visible()) == got + Visible()
      ensures old(Sound() && Calm()) ==> |got| == Min(n, |old(Visible())|)
    {
      got := [];
      assert Visible() == [] + Visible();
      while |got| < n
        invariant Valid() && chunkedR.enabled == old(chunkedR.enabled) && |got| <= n
        invariant old(Sound()) ==> Sound() && old(Visible()) == got + Visible()
        invariant old(Calm()) ==> Calm()
      {
        ghost var was := Visible();
        var b := ReadByte();
        if b.None? { return; }
        assert was == [b.value] + Visible();
        Assoc3(got, [b.value], Visible());
        got := got + [b.value];
      }
    }

    method ReadUVarInt(i: nat) returns (r: Option<nat>)
      requires Valid() && !chunkedR.enabled && i <= 9
      modifies this`buffered, this`pendingErr, chunkedR, chunkedR.r
      ensures Valid() && !chunkedR.enabled
      ensures r.Some? ==> UVarIntFrom(old(Visible()), i) == Got(r.value, Visible())
      ensures old(Calm()) ==>
                Calm() && (UVarIntFrom(old(Visible()), i).Got? ==> r.Some?)
      decreases 9 - i
    {
      var b := ReadByte();
      if b.None? { return None; }
      if b.value < 128 {
        return if i == 9 && b.value > 1 then None else Some(b.value);
      }
      if i == 9 { return None; }
      var v := ReadUVarInt(i + 1);
      r := if v.None? then None else Some(b.value - 128 + 128 * v.value);
    }

    method ReadStr() returns (r: Option<seq<byte>>)
      requires Valid() && !chunkedR.enabled
      modifies this`buffered, this`pendingErr, chunkedR, chunkedR.r
      ensures Valid() && !chunkedR.enabled
      ensures r.Some? ==> Str(old(Visible())) == Got(r.value, Visible())
      ensures old(Calm()) ==>
                Calm() && (Str(old(Visible())).Got? ==> r.Some?)
    {
      CapIs64Bits();
      var v := ReadUVarInt(0);
      if v.None? || v.value >= TWO_63 { return None; }
      var s: seq<byte> := [];
      ghost var body := Visible();
      assert [] + body == body;
      while |s| < v.value
        invariant Valid() && !chunkedR.enabled && |s| <= v.value && s + Visible() == body
        invariant old(Calm()) ==> Calm()
        decreases v.value - |s|
      {
        ghost var was := Visible();
        var b := ReadByte();
        if b.None? { return None; }
        assert was == [b.value] + Visible();
        Assoc3(s, [b.value], Visible());
        s := s + [b.value];
      }
      assert body[..v.value] == s && body[v.value..] == Visible();
      r := Some(s);
    }

    method ReadStrIf(on: bool) returns (r: Option<seq<byte>>)
      requires Valid() && !chunkedR.enabled
      modifies this`buffered, this`pendingErr, chunkedR, chunkedR.r
      ensures Valid() && !chunkedR.enabled
      ensures r.Some? ==> StrIf(on, old(Visible())) == Got(r.value, Visible())
      ensures old(Calm()) ==>
                Calm() && (StrIf(on, old(Visible())).Got? ==> r.Some?)
    {
      if on { r := ReadStr(); } else { r := Some([]); }
    }

    method ReadFields() returns (r: Option<Fields>)
      requires Valid() && !chunkedR.enabled
      modifies this`buffered, this`pendingErr, chunkedR, chunkedR.r
      ensures Valid() && !chunkedR.enabled
      ensures r.Some? ==> AddendumFrom(old(Visible()), revision) == Got(r.value, Visible())
      ensures old(Calm()) ==>
                Calm() && (AddendumFrom(old(Visible()), revision).Got? ==> r.Some?)
    {
      var quotaKey := ReadStr();
      if quotaKey.None? { return None; }
      var send := ReadStrIf(revision >= CHUNKED_PACKETS);
      if send.None? { return None; }
      var recv := ReadStrIf(revision >= CHUNKED_PACKETS);
      if recv.None? { return None; }
      var version := Some(0);
      CapIs64Bits();
      if revision >= VERSIONED_PARALLEL_REPLICAS { version := ReadUVarInt(0); }
      if version.None? { return None; }
      r := Some(Fields(quotaKey.value, send.value, recv.value, version.value));
    }

    /** The server role: read the client's addendum, settle the modes, switch. */
    method NegotiateAddendum(offer: Offer) returns (r: Option<(Fields, Offer)>)
      requires Valid() && !chunkedR.enabled
      modifies this`buffered, this`pendingErr, chunkedR, chunkedR.r, chunkedW`enabled
      ensures Valid()
      ensures r.Some? ==>
                var p, settled := AddendumFrom(old(Visible()), revision), r.value.1;
                && p.Got? && r.value == (p.value, Accepted(offer, p.value))
                && Visible() == (if settled.recv == CHUNKED then Payload(p.rest, 0) else p.rest)
                && chunkedR.enabled == (settled.recv == CHUNKED)
                && chunkedW.enabled == (old(chunkedW.enabled) || settled.send == CHUNKED)
                && (Sound() <==> (settled.recv == CHUNKED ==> Sane(p.rest, 0)))
      ensures old(Calm()) ==> Calm()
      ensures old(Calm()) && AddendumFrom(old(Visible()), revision).Got? ==> r.Some?
    {
      var f := ReadFields();
      if f.None? { return None; }
      var settled := Accepted(offer, f.value);
      EnableChunked(settled.recv == CHUNKED, settled.send == CHUNKED);
      r := Some((f.value, settled));
    }

    /** The client role: tell the server the settled modes, unchunked, and switch. */
    method SendAddendum(f: Fields) returns (ok: bool)
      requires Valid() && !chunkedR.enabled && !chunkedW.enabled
      modifies this`buffered, this`pendingErr, chunkedR`enabled, chunkedR.r, chunkedW`enabled, chunkedW.w
      ensures Valid()
      ensures ok <==> old(chunkedW.w.room) >= |AddendumThen(f, revision, [])|
      ensures ok ==>
                && chunkedW.w.out == old(chunkedW.w.out) + AddendumThen(f, revision, [])
                && chunkedW.w.room == old(chunkedW.w.room) - |AddendumThen(f, revision, [])|
                && chunkedR.enabled == (f.recv == CHUNKED) && chunkedW.enabled == (f.send == CHUNKED)
                && Visible() == (if f.recv == CHUNKED then Payload(old(Visible()), 0) else old(Visible()))
    {
      var sent := AddendumThen(f, revision, []);
      var n;
      n, ok := chunkedW.Write(sent);
      assert sent[..|sent|] == sent;
      if !ok { return; }
      EnableChunked(f.recv == CHUNKED, f.send == CHUNKED);
    }
  }

  /** What the client puts on the wire: its addendum, then packets in the mode it settled on. */
  ghost function ClientBytes(f: Fields, rev: int, packets: seq<seq<byte>>): (b: seq<byte>) {
    AddendumThen(f, rev, OnWire(f.send == CHUNKED, packets))
  }

  /** The server reads back the addendum and, in the mode it settles on, the packets. */
  lemma ServerHears(f: Fields, rev: int, packets: seq<seq<byte>>, offer: Offer)
    requires FieldsOk(f) && rev >= ADDENDUM && AllNonEmpty(packets)
    ensures var p, settled := AddendumFrom(ClientBytes(f, rev, packets), rev), Accepted(offer, Carried(f, rev));
            && p.Got? && p.value == Carried(f, rev)
            && ((settled.recv == CHUNKED <==> f.send == CHUNKED) ==>
                  && (if settled.recv == CHUNKED then Payload(p.rest, 0) else p.rest) == Concat(packets)
                  && (settled.recv == CHUNKED ==> Sane(p.rest, 0)))
  {
    AddendumRoundTrip(f, rev, OnWire(f.send == CHUNKED, packets));
    FramesCarryPackets(packets);
  }

  method SendAll(client: Codec, f: Fields, packets: seq<seq<byte>>)
    requires client.Valid() && !client.chunkedR.enabled && !client.chunkedW.enabled && client.chunkedW.w.out == []
    requires client.chunkedW.w.room >= |ClientBytes(f, client.revision, packets)|
    modifies client`buffered, client`pendingErr, client.chunkedR`enabled, client.chunkedR.r
    modifies client.chunkedW`enabled, client.chunkedW.w
    ensures client.chunkedW.w.out == ClientBytes(f, client.revision, packets)
    ensures client.chunkedR.enabled == (f.recv == CHUNKED) && client.chunkedW.enabled == (f.send == CHUNKED)
  {
    ghost var tail := OnWire(f.send == CHUNKED, packets);
    AddendumThenSplits(f, client.revision, tail);
    var ok := client.SendAddendum(f);
    assert ok && client.chunkedW.w.out == AddendumThen(f, client.revision, []);
    WritePackets(client.chunkedW, packets);
  }

  /** A server that is given these bytes, however the connection hands them out. */
  method Hear(bytes: seq<byte>, rev: int, offer: Offer, answers: seq<Answer>) returns (server: Codec, heard: bool)
    ensures server.Valid() && fresh(server) && fresh(server.chunkedR) && fresh(server.chunkedR.r)
    ensures heard ==>
              var p := AddendumFrom(bytes, rev);
              && p.Got?
              && server.Visible() == (if Accepted(offer, p.value).recv == CHUNKED then Payload(p.rest, 0) else p.rest)
              && server.chunkedR.enabled == (Accepted(offer, p.value).recv == CHUNKED)
              && server.chunkedW.enabled == (Accepted(offer, p.value).send == CHUNKED)
              && (server.Sound() <==> (Accepted(offer, p.value).recv == CHUNKED ==> Sane(p.rest, 0)))
    ensures Steady(answers) ==> server.Calm() && (AddendumFrom(bytes, rev).Got? ==> heard)
  {
    var transport := new Transport(bytes, answers);
    assert transport.Unread() == bytes;
    var sink := new Sink(0);
    server := new Codec(transport, sink, rev);
    var r := server.NegotiateAddendum(offer);
    heard := r.Some?;
  }

  /** The client sends its addendum and its first packets at once; the server, however the
      connection hands the bytes out, negotiates and then, if it settles on the mode the client
      sends in, sees exactly those packets. */
  method Exchange(client: Codec, f: Fields, packets: seq<seq<byte>>, serverOffer: Offer, answers: seq<Answer>)
    returns (server: Codec, heard: bool)
    requires client.Valid() && !client.chunkedR.enabled && !client.chunkedW.enabled && client.chunkedW.w.out == []
    requires client.chunkedW.w.room >= |ClientBytes(f, client.revision, packets)|
    requires FieldsOk(f) && client.revision >= ADDENDUM && AllNonEmpty(packets)
    modifies client`buffered, client`pendingErr, client.chunkedR`enabled, client.chunkedR.r
    modifies client.chunkedW`enabled, client.chunkedW.w
    ensures client.chunkedR.enabled == (f.recv == CHUNKED) && client.chunkedW.enabled == (f.send == CHUNKED)
    ensures server.Valid() && fresh(server) && fresh(server.chunkedR) && fresh(server.chunkedR.r)
    ensures heard ==>
              var settled := Accepted(serverOffer, Carried(f, client.revision));
              && server.chunkedR.enabled == (settled.recv == CHUNKED)
              && server.chunkedW.enabled == (settled.send == CHUNKED)
              && (server.chunkedR.enabled == client.chunkedW.enabled ==>
                    server.Sound() && server.Visible() == Concat(packets))
    ensures Steady(answers) ==> heard && server.Calm()
  {
    SendAll(client, f, packets);
    ServerHears(f, client.revision, packets, serverOffer);
    server, heard := Hear(client.chunkedW.w.out, client.revision, serverOffer, answers);
  }

  /** What the client sends once it has resolved its offer against the advertised modes. */
  function ResolvedFields(quotaKey: seq<byte>, offer: Offer, serverSend: seq<byte>, serverRecv: seq<byte>): (f: Fields)
    ensures Short(quotaKey) ==> FieldsOk(f)
  {
    ModesDiffer();
    var settled := Resolved(offer, serverSend, serverRecv);
    Fields(quotaKey, settled.send, settled.recv, 0)
  }

  /** Whatever the client and the advertisement are willing to chunk, the revision carries and the
      server still proposes. */
  predicate Kept(offer: Offer, serverSend: seq<byte>, serverRecv: seq<byte>, serverOffer: Offer, rev: int) {
    && (Willing(offer.send) && Willing(serverRecv) ==> rev >= CHUNKED_PACKETS && Willing(serverOffer.recv))
    && (Willing(offer.recv) && Willing(serverSend) ==> rev >= CHUNKED_PACKETS && Willing(serverOffer.send))
  }

  lemma ResolvedAgreeIff(quotaKey: seq<byte>, offer: Offer, serverSend: seq<byte>, serverRecv: seq<byte>,
                         serverOffer: Offer, rev: int)
    ensures var f := ResolvedFields(quotaKey, offer, serverSend, serverRecv);
            && (f.send == CHUNKED <==> Willing(offer.send) && Willing(serverRecv))
            && (f.recv == CHUNKED <==> Willing(offer.recv) && Willing(serverSend))
            && (Agree(Offer(f.recv, f.send), Accepted(serverOffer, Carried(f, rev))) <==>
                Kept(offer, serverSend, serverRecv, serverOffer, rev))
  {
    EndsAgreeIff(serverOffer, Resolved(offer, serverSend, serverRecv), rev);
  }

  /** The whole switch. The server advertised the modes `serverSend` and `serverRecv`; the client
      resolves its offer against them and sends its addendum and its first packets at once; the
      server proposes `serverOffer` and, after the switch, reads `n` bytes. However the connection
      hands them out, both ends are in the same modes exactly when what was advertised is kept;
      and if they are, what the server reads and is still going to read are those packets. */
  method Handshake(client: Codec, quotaKey: seq<byte>, offer: Offer, serverSend: seq<byte>, serverRecv: seq<byte>,
                   serverOffer: Offer, packets: seq<seq<byte>>, answers: seq<Answer>, n: nat)
    returns (server: Codec, heard: bool, got: seq<byte>)
    requires client.Valid() && !client.chunkedR.enabled && !client.chunkedW.enabled && client.chunkedW.w.out == []
    requires client.revision >= ADDENDUM && Short(quotaKey) && AllNonEmpty(packets)
    requires client.chunkedW.w.room
             >= |ClientBytes(ResolvedFields(quotaKey, offer, serverSend, serverRecv), client.revision, packets)|
    modifies client`buffered, client`pendingErr, client.chunkedR`enabled, client.chunkedR.r
    modifies client.chunkedW`enabled, client.chunkedW.w
    ensures client.chunkedW.enabled <==> Willing(offer.send) && Willing(serverRecv)
    ensures client.chunkedR.enabled <==> Willing(offer.recv) && Willing(serverSend)
    ensures heard ==>
              var sendsAlike := server.chunkedR.enabled == client.chunkedW.enabled;
              var receivesAlike := server.chunkedW.enabled == client.chunkedR.enabled;
              && (sendsAlike && receivesAlike <==> Kept(offer, serverSend, serverRecv, serverOffer, client.revision))
              && (sendsAlike ==> got + server.Visible() == Concat(packets))
              && (sendsAlike && Steady(answers) ==> |got| == Min(n, |Concat(packets)|))
    ensures Steady(answers) ==> heard
  {
    var f := ResolvedFields(quotaKey, offer, serverSend, serverRecv);
    ResolvedAgreeIff(quotaKey, offer, serverSend, serverRecv, serverOffer, client.revision);
    server, heard := Exchange(client, f, packets, serverOffer, answers);
    got := [];
    if heard { got := server.ReadBytes(n); }
  }

  /** A server that proposes what it advertised, or always to chunk, keeps it. */
  lemma AdvertisementsAreKept(offer: Offer, serverSend: seq<byte>, serverRecv: seq<byte>, serverOffer: Offer, rev: int)
    requires rev < CHUNKED_PACKETS ==> serverSend == [] && serverRecv == []
    requires serverOffer == Offer(serverRecv, serverSend) || (Willing(serverOffer.recv) && Willing(serverOffer.send))
    ensures Kept(offer, serverSend, serverRecv, serverOffer, rev)
  {
    BothEndsAgree(offer, serverSend, serverRecv, serverOffer, rev);
    ResolvedAgreeIff([], offer, serverSend, serverRecv, serverOffer, rev);
  }
}
