/** The addendum a client sends after the handshake: its layout, and the transport modes the two
    ends settle on.
 */
module Addendum {
  import opened Bytes
  import opened Options
  import opened Wire
  import opened ChunkModes
  import opened Layout
  import opened Revisions

  /** What an end proposes, or has settled on, for the bytes it receives and sends. */
  datatype Offer = Offer(recv: seq<byte>, send: seq<byte>)

  /** An addendum: the sender's modes for the bytes it sends and receives. */
  datatype Fields = Fields(quotaKey: seq<byte>, send: seq<byte>, recv: seq<byte>, replicasVersion: u64)

  predicate FieldsOk(f: Fields) { Short(f.quotaKey) && Short(f.send) && Short(f.recv) }

  function AddendumThen(f: Fields, rev: int, t: seq<byte>): (b: seq<byte>) {
    PutStrIf(rev >= ADDENDUM, f.quotaKey) + (PutStrIf(rev >= CHUNKED_PACKETS, f.send) +
    (PutStrIf(rev >= CHUNKED_PACKETS, f.recv) + (PutUVarIntIf(rev >= VERSIONED_PARALLEL_REPLICAS, f.replicasVersion) + t)))
  }

  function AddendumFrom(b: seq<byte>, rev: int): (r: Parsed<Fields>) {
    var (quotaKey, b1) :- Str(b);
    var (send, b2) :- StrIf(rev >= CHUNKED_PACKETS, b1);
    var (recv, b3) :- StrIf(rev >= CHUNKED_PACKETS, b2);
    var (version, b4) :- UVarIntIf(rev >= VERSIONED_PARALLEL_REPLICAS, b3);
    Got(Fields(quotaKey, send, recv, version), b4)
  }

  /** The addendum as a table. */
  function AddendumFields(f: Fields): (fs: seq<Field>) {
    [Since(54458, Text(f.quotaKey)), Since(54470, Text(f.send)), Since(54470, Text(f.recv)),
     Since(54471, VarInt(f.replicasVersion))]
  }

  /** The writer writes the table. */
  lemma AddendumLaid(f: Fields, rev: int, t: seq<byte>)
    ensures Laid(AddendumFields(f), rev, t) == AddendumThen(f, rev, t)
  {
    LaidFew(AddendumFields(f), rev, t);
  }

  lemma AddendumThenSplits(f: Fields, rev: int, t: seq<byte>)
    ensures AddendumThen(f, rev, []) + t == AddendumThen(f, rev, t)
  {
    var a, b := PutStrIf(rev >= ADDENDUM, f.quotaKey), PutStrIf(rev >= CHUNKED_PACKETS, f.send);
    var c, d := PutStrIf(rev >= CHUNKED_PACKETS, f.recv), PutUVarIntIf(rev >= VERSIONED_PARALLEL_REPLICAS, f.replicasVersion);
    assert d + [] == d;
    Assoc3(a, b + (c + d), t);
    Assoc3(b, c + d, t);
    Assoc3(c, d, t);
  }

  /** What of an addendum the revision lets through. */
  function Carried(f: Fields, rev: int): (r: Fields) {
    Fields(f.quotaKey,
           if rev >= CHUNKED_PACKETS then f.send else [],
           if rev >= CHUNKED_PACKETS then f.recv else [],
           if rev >= VERSIONED_PARALLEL_REPLICAS then f.replicasVersion else 0)
  }

  lemma AddendumRoundTrip(f: Fields, rev: int, t: seq<byte>)
    requires FieldsOk(f) && rev >= ADDENDUM
    ensures AddendumFrom(AddendumThen(f, rev, t), rev) == Got(Carried(f, rev), t)
  {
    var c := Carried(f, rev);
    var t3 := PutUVarIntIf(rev >= VERSIONED_PARALLEL_REPLICAS, f.replicasVersion) + t;
    var t2 := PutStrIf(rev >= CHUNKED_PACKETS, f.recv) + t3;
    var t1 := PutStrIf(rev >= CHUNKED_PACKETS, f.send) + t2;
    StrPut(f.quotaKey, t1);
    StrIfPut(rev >= CHUNKED_PACKETS, c.send, t2);
    StrIfPut(rev >= CHUNKED_PACKETS, c.recv, t3);
    UVarIntIfPut(rev >= VERSIONED_PARALLEL_REPLICAS, c.replicasVersion, t);
  }

  /** The client role: its own offer against the modes the server advertised for the bytes the
      server sends and receives. */
  function Resolved(offer: Offer, serverSend: seq<byte>, serverRecv: seq<byte>): (r: Offer) {
    Offer(Resolve(offer.recv, serverSend), Resolve(offer.send, serverRecv))
  }

  /** The server role: its own offer against the client's addendum. */
  function Accepted(offer: Offer, f: Fields): (r: Offer) {
    Offer(Resolve(offer.recv, f.send), Resolve(offer.send, f.recv))
  }

  /** The server's answer to a client that settled on `settled`, as far as the wire carries it. */
  function Answered(offer: Offer, settled: Offer, rev: int): (r: Offer) {
    Accepted(offer, Carried(Fields([], settled.send, settled.recv, 0), rev))
  }

  /** Each direction is chunked at its sender iff it is at its receiver. */
  predicate Agree(client: Offer, server: Offer) {
    && (client.send == CHUNKED <==> server.recv == CHUNKED)
    && (client.recv == CHUNKED <==> server.send == CHUNKED)
  }

  /** The two ends agree exactly when a client that settled on chunking meets a server that
      still offers it, over a revision that carries the modes. */
  lemma EndsAgreeIff(offer: Offer, settled: Offer, rev: int)
    requires settled.send == CHUNKED || !Willing(settled.send)
    requires settled.recv == CHUNKED || !Willing(settled.recv)
    ensures Agree(settled, Answered(offer, settled, rev))
            <==> && (settled.send == CHUNKED ==> rev >= CHUNKED_PACKETS && Willing(offer.recv))
                 && (settled.recv == CHUNKED ==> rev >= CHUNKED_PACKETS && Willing(offer.send))
  {
    ModesDiffer();
  }

  /** A server that proposes what it advertised, or that always proposes to chunk, agrees with
      every client that resolves its own offer against the advertisement. */
  lemma BothEndsAgree(client: Offer, serverSend: seq<byte>, serverRecv: seq<byte>, offer: Offer, rev: int)
    requires rev < CHUNKED_PACKETS ==> serverSend == [] && serverRecv == []
    requires offer == Offer(serverRecv, serverSend) || (Willing(offer.recv) && Willing(offer.send))
    ensures var settled := Resolved(client, serverSend, serverRecv);
            && Agree(settled, Answered(offer, settled, rev))
            && (settled.send == CHUNKED <==> Willing(client.send) && Willing(serverRecv))
            && (settled.recv == CHUNKED <==> Willing(client.recv) && Willing(serverSend))
  {
    var settled := Resolved(client, serverSend, serverRecv);
    EndsAgreeIff(offer, settled, rev);
  }

  /** A server that advertised to receive chunks and then proposes not to: the client sends
      chunks that the server reads as packets. */
  lemma ProposingLessDisagrees()
    ensures var settled := Resolved(Offer(CHUNKED, CHUNKED), CHUNKED, CHUNKED);
            !Agree(settled, Answered(Offer(NOT_CHUNKED, CHUNKED), settled, CHUNKED_PACKETS))
  {
    ModesDiffer();
    var settled := Resolved(Offer(CHUNKED, CHUNKED), CHUNKED, CHUNKED);
    EndsAgreeIff(Offer(NOT_CHUNKED, CHUNKED), settled, CHUNKED_PACKETS);
  }
}
