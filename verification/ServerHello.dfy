/** The ServerHello packet: the decoder that consumes it and the rewriter that substitutes the
    proxy's own revision and chunked-transport modes. The two read varints differently, so
    every field reader takes a flag: `strict` is the codec's reader, the other the rewriter's.
 */
module ServerHello {
  import opened Bytes
  import opened Options
  import opened Wire
  import opened WireReader
  import opened ChunkModes
  import opened Revisions

  const SERVER_CODE_HELLO := 0

  // ---------------------------------------------------------------------------
  // The rewriter's varint

  /** Like `UVarIntFrom`, but bits of the tenth byte beyond the 64th are dropped. */
  function LooseFrom(b: seq<byte>, i: nat): (r: Parsed<nat>)
    requires i <= 9
    ensures r.Got? ==> r.value < Cap(i) && |r.rest| < |b|
    decreases |b|
  {
    if b == [] then Bad
    else if b[0] < 128 then CapAtLeast(i); Got(if i == 9 then b[0] % 2 else b[0], b[1..])
    else if i == 9 then Bad
    else
      var (v, rest) :- LooseFrom(b[1..], i + 1);
      Got(b[0] - 128 + 128 * v, rest)
  }

  function Loose(b: seq<byte>): (r: Parsed<u64>)
    ensures r.Got? ==> |r.rest| < |b|
  {
    CapIs64Bits();
    var (v, rest) :- LooseFrom(b, 0);
    Got(v, rest)
  }

  /** From byte `i` on, only continuation bytes up to a tenth byte that carries too many bits. */
  predicate Overfull(b: seq<byte>, i: nat)
    requires i <= 9
  {
    && |b| > 9 - i
    && (forall k :: 0 <= k < 9 - i ==> b[k] >= 128)
    && 2 <= b[9 - i] < 128
  }

  lemma OverfullTail(b: seq<byte>, i: nat)
    requires i < 9 && b != [] && b[0] >= 128
    ensures Overfull(b, i) <==> Overfull(b[1..], i + 1)
  {
    var t := b[1..];
    if Overfull(t, i + 1) {
      assert b[9 - i] == t[8 - i];
      forall k | 0 <= k < 9 - i ensures b[k] >= 128 { if k > 0 { assert b[k] == t[k - 1]; } }
    }
  }

  /** The two varint readers give the same answer exactly on inputs that are not overfull. */
  lemma {:induction false} VarIntsAgree(b: seq<byte>, i: nat)
    requires i <= 9
    ensures LooseFrom(b, i) == UVarIntFrom(b, i) <==> !Overfull(b, i)
    ensures Overfull(b, i) ==> LooseFrom(b, i).Got? && UVarIntFrom(b, i).Bad?
    decreases 9 - i
  {
    if b != [] && b[0] >= 128 && i < 9 {
      OverfullTail(b, i);
      VarIntsAgree(b[1..], i + 1);
    }
  }

  // ---------------------------------------------------------------------------
  // Fields

  function VarInt(strict: bool, b: seq<byte>): (r: Parsed<u64>)
    ensures r.Got? ==> |r.rest| < |b|
  {
    if strict then UVarInt(b) else Loose(b)
  }

  function Number(strict: bool, b: seq<byte>): (r: Parsed<i64>)
    ensures r.Got? ==> |r.rest| < |b|
  {
    var (v, rest) :- VarInt(strict, b);
    Got(AsSigned(v), rest)
  }

  function NumberIf(strict: bool, on: bool, b: seq<byte>): (r: Parsed<i64>)
    ensures r.Got? ==> |r.rest| <= |b|
  {
    if on then Number(strict, b) else Got(0, b)
  }

  function Text(strict: bool, b: seq<byte>): (r: Parsed<seq<byte>>)
    ensures r.Got? ==> |r.rest| < |b| && Short(r.value)
  {
    var (n, rest) :- Number(strict, b);
    if n < 0 || n > |rest| then Bad else Got(rest[..n], rest[n..])
  }

  function TextIf(strict: bool, on: bool, b: seq<byte>): (r: Parsed<seq<byte>>)
    ensures r.Got? ==> |r.rest| <= |b| && Short(r.value)
  {
    if on then Text(strict, b) else Got([], b)
  }

  // ---------------------------------------------------------------------------
  // Readers look only at the bytes they consume

  /** What was consumed of `b` when `rest` is left. */
  function Used(b: seq<byte>, rest: seq<byte>): (u: seq<byte>)
    requires |rest| <= |b|
  {
    b[..|b| - |rest|]
  }

  predicate LeavesSuffix(b: seq<byte>, rest: seq<byte>) {
    |rest| <= |b| && b == Used(b, rest) + rest
  }

  lemma UsedOfConcat(p: seq<byte>, x: seq<byte>)
    ensures Used(p + x, x) == p
  {
  }

  lemma UsedSplit(b: seq<byte>, b1: seq<byte>, b2: seq<byte>, x: seq<byte>)
    requires LeavesSuffix(b, b1) && LeavesSuffix(b1, b2)
    ensures LeavesSuffix(b, b2) && Used(b, b2) + x == Used(b, b1) + (Used(b1, b2) + x)
  {
    Assoc3(Used(b, b1), Used(b1, b2), b2);
    UsedOfConcat(Used(b, b1) + Used(b1, b2), b2);
    Assoc3(Used(b, b1), Used(b1, b2), x);
  }

  lemma {:induction false} UVarIntFromLocal(b: seq<byte>, i: nat, x: seq<byte>)
    requires i <= 9 && UVarIntFrom(b, i).Got?
    ensures var r := UVarIntFrom(b, i);
            LeavesSuffix(b, r.rest) && UVarIntFrom(Used(b, r.rest) + x, i) == Got(r.value, x)
    decreases |b|
  {
    var r := UVarIntFrom(b, i);
    assert b == [b[0]] + b[1..];
    if b[0] < 128 {
      assert Used(b, r.rest) == [b[0]];
      assert ([b[0]] + x)[1..] == x;
    } else {
      UVarIntFromLocal(b[1..], i + 1, x);
      var u := Used(b[1..], r.rest);
      UsedSplit(b, b[1..], r.rest, x);
      assert Used(b, b[1..]) == [b[0]];
      assert ([b[0]] + (u + x))[1..] == u + x;
    }
  }

  lemma {:induction false} LooseFromLocal(b: seq<byte>, i: nat, x: seq<byte>)
    requires i <= 9 && LooseFrom(b, i).Got?
    ensures var r := LooseFrom(b, i);
            LeavesSuffix(b, r.rest) && LooseFrom(Used(b, r.rest) + x, i) == Got(r.value, x)
    decreases |b|
  {
    var r := LooseFrom(b, i);
    assert b == [b[0]] + b[1..];
    if b[0] < 128 {
      assert Used(b, r.rest) == [b[0]];
      assert ([b[0]] + x)[1..] == x;
    } else {
      LooseFromLocal(b[1..], i + 1, x);
      var u := Used(b[1..], r.rest);
      UsedSplit(b, b[1..], r.rest, x);
      assert Used(b, b[1..]) == [b[0]];
      assert ([b[0]] + (u + x))[1..] == u + x;
    }
  }

  lemma NumberLocal(strict: bool, b: seq<byte>, x: seq<byte>)
    requires Number(strict, b).Got?
    ensures var r := Number(strict, b);
            LeavesSuffix(b, r.rest) && Number(strict, Used(b, r.rest) + x) == Got(r.value, x)
  {
    if strict { UVarIntFromLocal(b, 0, x); } else { LooseFromLocal(b, 0, x); }
  }

  lemma NumberIfLocal(strict: bool, on: bool, b: seq<byte>, x: seq<byte>)
    requires NumberIf(strict, on, b).Got?
    ensures var r := NumberIf(strict, on, b);
            LeavesSuffix(b, r.rest) && NumberIf(strict, on, Used(b, r.rest) + x) == Got(r.value, x)
  {
    if on { NumberLocal(strict, b, x); } else { assert Used(b, b) + x == x; }
  }

  lemma TextLocal(strict: bool, b: seq<byte>, x: seq<byte>)
    requires Text(strict, b).Got?
    ensures var r := Text(strict, b);
            LeavesSuffix(b, r.rest) && Text(strict, Used(b, r.rest) + x) == Got(r.value, x)
  {
    var r := Text(strict, b);
    var n := Number(strict, b);
    NumberLocal(strict, b, r.value + x);
    assert n.rest == r.value + r.rest;
    UsedOfConcat(r.value, r.rest);
    UsedSplit(b, n.rest, r.rest, x);
    RawPut(r.value, x);
  }

  lemma TextIfLocal(strict: bool, on: bool, b: seq<byte>, x: seq<byte>)
    requires TextIf(strict, on, b).Got?
    ensures var r := TextIf(strict, on, b);
            LeavesSuffix(b, r.rest) && TextIf(strict, on, Used(b, r.rest) + x) == Got(r.value, x)
  {
    if on { TextLocal(strict, b, x); } else { assert Used(b, b) + x == x; }
  }

  // ---------------------------------------------------------------------------
  // The packet, in segments

  /** Everything before the revision: packet type, server name, major and minor version. */
  datatype Head = Head(name: seq<byte>, major: i64, minor: i64)

  function HeadFrom(strict: bool, b: seq<byte>): (r: Parsed<Head>) {
    var (code, b1) :- Number(strict, b);
    if code != SERVER_CODE_HELLO then Bad
    else
      var (name, b2) :- Text(strict, b1);
      var (major, b3) :- Number(strict, b2);
      var (minor, b4) :- Number(strict, b3);
      Got(Head(name, major, minor), b4)
  }

  lemma HeadLocal(strict: bool, b: seq<byte>, x: seq<byte>)
    requires HeadFrom(strict, b).Got?
    ensures var r := HeadFrom(strict, b);
            LeavesSuffix(b, r.rest) && HeadFrom(strict, Used(b, r.rest) + x) == Got(r.value, x)
  {
    var b1 := Number(strict, b).rest;
    var b2 := Text(strict, b1).rest;
    var b3 := Number(strict, b2).rest;
    var b4 := Number(strict, b3).rest;
    NumberLocal(strict, b3, x);
    var x3 := Used(b3, b4) + x;
    NumberLocal(strict, b2, x3);
    var x2 := Used(b2, b3) + x3;
    TextLocal(strict, b1, x2);
    var x1 := Used(b1, b2) + x2;
    NumberLocal(strict, b, x1);
    UsedSplit(b2, b3, b4, x);
    UsedSplit(b1, b2, b4, x);
    UsedSplit(b, b1, b4, x);
  }

  /** After the revision. */
  datatype Place = Place(replicasVersion: i64, timezone: seq<byte>)

  function PlaceFrom(strict: bool, b: seq<byte>, rev: int): (r: Parsed<Place>) {
    var (replicas, b1) :- NumberIf(strict, rev >= VERSIONED_PARALLEL_REPLICAS, b);
    var (timezone, b2) :- TextIf(strict, rev >= TIMEZONE, b1);
    Got(Place(replicas, timezone), b2)
  }

  lemma PlaceLocal(strict: bool, b: seq<byte>, rev: int, x: seq<byte>)
    requires PlaceFrom(strict, b, rev).Got?
    ensures var r := PlaceFrom(strict, b, rev);
            LeavesSuffix(b, r.rest) && PlaceFrom(strict, Used(b, r.rest) + x, rev) == Got(r.value, x)
  {
    var b1 := NumberIf(strict, rev >= VERSIONED_PARALLEL_REPLICAS, b).rest;
    var b2 := TextIf(strict, rev >= TIMEZONE, b1).rest;
    TextIfLocal(strict, rev >= TIMEZONE, b1, x);
    NumberIfLocal(strict, rev >= VERSIONED_PARALLEL_REPLICAS, b, Used(b1, b2) + x);
    UsedSplit(b, b1, b2, x);
  }

  datatype Label = Label(displayName: seq<byte>, patch: i64)

  function LabelFrom(strict: bool, b: seq<byte>, rev: int): (r: Parsed<Label>) {
    var (displayName, b1) :- TextIf(strict, rev >= DISPLAY_NAME, b);
    var (patch, b2) :- NumberIf(strict, rev >= VERSION_PATCH, b1);
    Got(Label(displayName, patch), b2)
  }

  lemma LabelLocal(strict: bool, b: seq<byte>, rev: int, x: seq<byte>)
    requires LabelFrom(strict, b, rev).Got?
    ensures var r := LabelFrom(strict, b, rev);
            LeavesSuffix(b, r.rest) && LabelFrom(strict, Used(b, r.rest) + x, rev) == Got(r.value, x)
  {
    var b1 := TextIf(strict, rev >= DISPLAY_NAME, b).rest;
    var b2 := NumberIf(strict, rev >= VERSION_PATCH, b1).rest;
    NumberIfLocal(strict, rev >= VERSION_PATCH, b1, x);
    TextIfLocal(strict, rev >= DISPLAY_NAME, b, Used(b1, b2) + x);
    UsedSplit(b, b1, b2, x);
  }

  /** Everything between the revision and the chunk modes. */
  datatype Middle = Middle(place: Place, naming: Label)

  function MiddleFrom(strict: bool, b: seq<byte>, rev: int): (r: Parsed<Middle>) {
    var (place, b1) :- PlaceFrom(strict, b, rev);
    var (naming, b2) :- LabelFrom(strict, b1, rev);
    Got(Middle(place, naming), b2)
  }

  lemma MiddleLocal(strict: bool, b: seq<byte>, rev: int, x: seq<byte>)
    requires MiddleFrom(strict, b, rev).Got?
    ensures var r := MiddleFrom(strict, b, rev);
            LeavesSuffix(b, r.rest) && MiddleFrom(strict, Used(b, r.rest) + x, rev) == Got(r.value, x)
  {
    var b1 := PlaceFrom(strict, b, rev).rest;
    var b2 := LabelFrom(strict, b1, rev).rest;
    LabelLocal(strict, b1, rev, x);
    PlaceLocal(strict, b, rev, Used(b1, b2) + x);
    UsedSplit(b, b1, b2, x);
  }

  /** The modes the server advertises for the bytes it sends and receives. */
  datatype Modes = Modes(send: seq<byte>, recv: seq<byte>)

  function ModesFrom(strict: bool, b: seq<byte>, rev: int): (r: Parsed<Modes>) {
    var (send, b1) :- TextIf(strict, rev >= CHUNKED_PACKETS, b);
    var (recv, b2) :- TextIf(strict, rev >= CHUNKED_PACKETS, b1);
    Got(Modes(send, recv), b2)
  }

  datatype Rule = Rule(pattern: seq<byte>, message: seq<byte>)

  function RuleFrom(b: seq<byte>): (r: Parsed<Rule>) {
    var (pattern, b1) :- Str(b);
    var (message, b2) :- Str(b1);
    Got(Rule(pattern, message), b2)
  }

  function RulesFrom(b: seq<byte>, n: nat): (r: Parsed<seq<Rule>>)
    decreases n
  {
    if n == 0 then Got([], b)
    else
      var (rule, b1) :- RuleFrom(b);
      var (others, b2) :- RulesFrom(b1, n - 1);
      Got([rule] + others, b2)
  }

  /** After the chunk modes: password rules and the interserver nonce. */
  datatype Tail = Tail(rules: seq<Rule>, nonce: u64)

  function TailFrom(b: seq<byte>, rev: int): (r: Parsed<Tail>) {
    var (count, b1) :- UVarIntIf(rev >= PASSWORD_RULES, b);
    var (rules, b2) :- RulesFrom(b1, count);
    if rev < INTERSERVER_NONCE then Got(Tail(rules, 0), b2)
    else
      var (nonce, b3) :- UInt64(b2);
      Got(Tail(rules, nonce), b3)
  }

  datatype Hello = Hello(head: Head, revision: i64, middle: Middle, modes: Modes, tail: Tail)

  /** The revision that gates the optional fields. */
  function WireRevision(server: i64, client: int): (w: i64)
    ensures w <= server && w <= MAX_SUPPORTED && (client > 0 ==> w <= client)
    ensures w == server || w == MAX_SUPPORTED || (client > 0 && w == client)
  {
    var w := if client > 0 && client < server then client else server;
    if w > MAX_SUPPORTED then MAX_SUPPORTED else w
  }

  /** The decoder, which also tells what it reads and drops. */
  function HelloFrom(b: seq<byte>, client: int): (r: Parsed<Hello>) {
    var (head, b1) :- HeadFrom(true, b);
    var (revision, b2) :- Number(true, b1);
    BodyFrom(head, revision, WireRevision(revision, client), b2)
  }

  function BodyFrom(head: Head, revision: i64, w: i64, b: seq<byte>): (r: Parsed<Hello>) {
    var (middle, b1) :- MiddleFrom(true, b, w);
    var (modes, b2) :- ModesFrom(true, b1, w);
    var (tail, b3) :- TailFrom(b2, w);
    Got(Hello(head, revision, middle, modes, tail), b3)
  }

  // ---------------------------------------------------------------------------
  // The rewrite

  datatype Rewrite = Rewrite(bytes: seq<byte>, serverSend: seq<byte>, serverRecv: seq<byte>)

  /** What the proxy offers to send downstream, given what the server offers to send. */
  function ProxySend(serverSend: seq<byte>): (mode: seq<byte>)
    ensures Willing(mode) <==> Willing(serverSend)
  {
    ModesDiffer();
    if Resolve(CHUNKED_OPTIONAL, serverSend) == CHUNKED then CHUNKED_OPTIONAL else NOT_CHUNKED
  }

  /** The proxy offers to send chunks exactly when the server offers anything but packets. */
  lemma ProxySendByName(serverSend: seq<byte>)
    ensures ProxySend(serverSend)
            == if serverSend == [] || serverSend == Ascii("notchunked") then Ascii("notchunked")
               else Ascii("chunked_optional")
  {
    ModesByName();
    ModesDiffer();
  }

  function ProxyModes(b: seq<byte>, serverSend: seq<byte>): (r: seq<byte>) {
    PutStr(ProxySend(serverSend)) + (PutStr(CHUNKED_OPTIONAL) + b)
  }

  function RewriteOf(raw: seq<byte>, client: int): (r: Option<Rewrite>) {
    var head := HeadFrom(false, raw);
    if head.Bad? then None
    else
      var revision := Number(false, head.rest);
      if revision.Bad? then None
      else
        HeadLocal(false, raw, []);
        RewriteBody(Used(raw, head.rest), WireRevision(revision.value, client), revision.rest)
  }

  /** `prefix` is what came before the revision, `b` what comes after it. */
  function RewriteBody(prefix: seq<byte>, w: i64, b: seq<byte>): (r: Option<Rewrite>) {
    var middle := MiddleFrom(false, b, w);
    if middle.Bad? then None
    else if w < CHUNKED_PACKETS then Some(Rewrite(prefix + (PutInt(w) + b), [], []))
    else
      MiddleLocal(false, b, w, []);
      ReplaceModes(prefix, w, Used(b, middle.rest), middle.rest)
  }

  /** `kept` is what stays between the revision and the modes, which `b` starts with. */
  function ReplaceModes(prefix: seq<byte>, w: i64, kept: seq<byte>, b: seq<byte>): (r: Option<Rewrite>) {
    var modes := ModesFrom(false, b, w);
    if modes.Bad? then None
    else
      Some(Rewrite(prefix + (PutInt(w) + (kept + ProxyModes(modes.rest, modes.value.send))),
                   modes.value.send, modes.value.recv))
  }

  /** The Hello a client should see. */
  function ForProxy(h: Hello, w: i64): (r: Hello) {
    Hello(h.head, w, h.middle,
          if w < CHUNKED_PACKETS then h.modes else Modes(ProxySend(h.modes.send), CHUNKED_OPTIONAL), h.tail)
  }

  lemma NumberLooseAgrees(b: seq<byte>)
    ensures Number(true, b).Got? ==> Number(false, b) == Number(true, b)
  {
    VarIntsAgree(b, 0);
  }

  lemma TextLooseAgrees(b: seq<byte>)
    ensures Text(true, b).Got? ==> Text(false, b) == Text(true, b)
  {
    NumberLooseAgrees(b);
  }

  lemma HeadLooseAgrees(b: seq<byte>)
    requires HeadFrom(true, b).Got?
    ensures HeadFrom(false, b) == HeadFrom(true, b)
  {
    var b1 := Number(true, b).rest;
    var b2 := Text(true, b1).rest;
    NumberLooseAgrees(b);
    TextLooseAgrees(b1);
    NumberLooseAgrees(b2);
    NumberLooseAgrees(Number(true, b2).rest);
  }

  lemma PlaceLooseAgrees(b: seq<byte>, rev: int)
    requires PlaceFrom(true, b, rev).Got?
    ensures PlaceFrom(false, b, rev) == PlaceFrom(true, b, rev)
  {
    NumberLooseAgrees(b);
    TextLooseAgrees(NumberIf(true, rev >= VERSIONED_PARALLEL_REPLICAS, b).rest);
  }

  lemma LabelLooseAgrees(b: seq<byte>, rev: int)
    requires LabelFrom(true, b, rev).Got?
    ensures LabelFrom(false, b, rev) == LabelFrom(true, b, rev)
  {
    TextLooseAgrees(b);
    NumberLooseAgrees(TextIf(true, rev >= DISPLAY_NAME, b).rest);
  }

  lemma MiddleLooseAgrees(b: seq<byte>, rev: int)
    requires MiddleFrom(true, b, rev).Got?
    ensures MiddleFrom(false, b, rev) == MiddleFrom(true, b, rev)
  {
    PlaceLooseAgrees(b, rev);
    LabelLooseAgrees(PlaceFrom(true, b, rev).rest, rev);
  }

  lemma ModesLooseAgrees(b: seq<byte>, rev: int)
    requires ModesFrom(true, b, rev).Got?
    ensures ModesFrom(false, b, rev) == ModesFrom(true, b, rev)
  {
    TextLooseAgrees(b);
    TextLooseAgrees(TextIf(true, rev >= CHUNKED_PACKETS, b).rest);
  }

  lemma NumberPut(strict: bool, v: i64, x: seq<byte>)
    ensures Number(strict, PutInt(v) + x) == Got(v, x)
  {
    IntPut(v, x);
    NumberLooseAgrees(PutInt(v) + x);
  }

  lemma TextPut(strict: bool, s: seq<byte>, x: seq<byte>)
    requires Short(s)
    ensures Text(strict, PutStr(s) + x) == Got(s, x)
  {
    StrPut(s, x);
    TextLooseAgrees(PutStr(s) + x);
  }

  lemma ProxyModesRead(strict: bool, b: seq<byte>, serverSend: seq<byte>, w: i64)
    requires w >= CHUNKED_PACKETS
    ensures ModesFrom(strict, ProxyModes(b, serverSend), w) == Got(Modes(ProxySend(serverSend), CHUNKED_OPTIONAL), b)
  {
    ModesDiffer();
    TextPut(strict, ProxySend(serverSend), PutStr(CHUNKED_OPTIONAL) + b);
    TextPut(strict, CHUNKED_OPTIONAL, b);
  }

  /** The bytes the rewriter puts after the revision. */
  function RewrittenSuffix(w: i64, b: seq<byte>): (y: seq<byte>)
    requires RewriteBody([], w, b).Some?
  {
    if w < CHUNKED_PACKETS then b
    else
      var middle := MiddleFrom(false, b, w);
      MiddleLocal(false, b, w, []);
      var modes := ModesFrom(false, middle.rest, w);
      Used(b, middle.rest) + ProxyModes(modes.rest, modes.value.send)
  }

  lemma RewriteBodyShape(prefix: seq<byte>, w: i64, b: seq<byte>)
    ensures RewriteBody(prefix, w, b).Some? <==> RewriteBody([], w, b).Some?
    ensures RewriteBody(prefix, w, b).Some? ==>
              RewriteBody(prefix, w, b).value
              == RewriteBody([], w, b).value.(bytes := prefix + (PutInt(w) + RewrittenSuffix(w, b)))
  {
  }

  /** Putting another revision after the head of a packet. */
  lemma NewRevision(strict: bool, raw: seq<byte>, w: i64, y: seq<byte>)
    requires HeadFrom(strict, raw).Got?
    ensures var head := HeadFrom(strict, raw);
            && LeavesSuffix(raw, head.rest)
            && HeadFrom(strict, Used(raw, head.rest) + (PutInt(w) + y)) == Got(head.value, PutInt(w) + y)
            && Used(Used(raw, head.rest) + (PutInt(w) + y), PutInt(w) + y) == Used(raw, head.rest)
            && Number(strict, PutInt(w) + y) == Got(w, y)
  {
    HeadLocal(strict, raw, PutInt(w) + y);
    UsedOfConcat(Used(raw, HeadFrom(strict, raw).rest), PutInt(w) + y);
    NumberPut(strict, w, y);
  }

  lemma MiddleAndModes(w: i64, b: seq<byte>)
    requires MiddleFrom(true, b, w).Got? && ModesFrom(true, MiddleFrom(true, b, w).rest, w).Got?
    ensures MiddleFrom(false, b, w) == MiddleFrom(true, b, w)
    ensures ModesFrom(false, MiddleFrom(true, b, w).rest, w) == ModesFrom(true, MiddleFrom(true, b, w).rest, w)
  {
    MiddleLooseAgrees(b, w);
    ModesLooseAgrees(MiddleFrom(true, b, w).rest, w);
  }

  /** Decoding the body of the rewritten packet. */
  lemma RewrittenBody(head: Head, revision: i64, w: i64, b: seq<byte>)
    requires BodyFrom(head, revision, w, b).Got?
    ensures RewriteBody([], w, b).Some?
    ensures var h, out := BodyFrom(head, revision, w, b), RewriteBody([], w, b).value;
            && BodyFrom(head, w, w, RewrittenSuffix(w, b)) == Got(ForProxy(h.value, w), h.rest)
            && Modes(out.serverSend, out.serverRecv) == h.value.modes
  {
    MiddleAndModes(w, b);
    if w >= CHUNKED_PACKETS {
      var middle := MiddleFrom(true, b, w);
      var modes := ModesFrom(true, middle.rest, w);
      MiddleLocal(true, b, w, ProxyModes(modes.rest, modes.value.send));
      ProxyModesRead(true, modes.rest, modes.value.send, w);
    }
  }

  lemma RewriteOfDecodable(raw: seq<byte>, client: int)
    requires HeadFrom(true, raw).Got? && Number(true, HeadFrom(true, raw).rest).Got?
    ensures var head := HeadFrom(true, raw);
            var revision := Number(true, head.rest);
            && LeavesSuffix(raw, head.rest)
            && RewriteOf(raw, client)
               == RewriteBody(Used(raw, head.rest), WireRevision(revision.value, client), revision.rest)
  {
    HeadLooseAgrees(raw);
    NumberLooseAgrees(HeadFrom(true, raw).rest);
    HeadLocal(true, raw, []);
  }

  lemma HelloWithRevision(raw: seq<byte>, w: i64, y: seq<byte>, seen: int)
    requires HeadFrom(true, raw).Got? && LeavesSuffix(raw, HeadFrom(true, raw).rest)
    ensures var head := HeadFrom(true, raw);
            HelloFrom(Used(raw, head.rest) + (PutInt(w) + y), seen)
            == BodyFrom(head.value, w, WireRevision(w, seen), y)
  {
    NewRevision(true, raw, w, y);
  }

  /** `out` decodes to what `h` is, as the proxy presents it, and reports the server's modes. */
  ghost predicate KeepsMeaning(h: Parsed<Hello>, w: i64, out: Option<Rewrite>, seen: int)
    requires h.Got?
  {
    && out.Some?
    && HelloFrom(out.value.bytes, seen) == Got(ForProxy(h.value, w), h.rest)
    && Modes(out.value.serverSend, out.value.serverRecv) == h.value.modes
  }

  lemma RewriteKeepsBody(raw: seq<byte>, b: seq<byte>, revision: i64, w: i64, seen: int)
    requires HeadFrom(true, raw).Got? && LeavesSuffix(raw, HeadFrom(true, raw).rest)
    requires BodyFrom(HeadFrom(true, raw).value, revision, w, b).Got?
    requires WireRevision(w, seen) == w
    ensures KeepsMeaning(BodyFrom(HeadFrom(true, raw).value, revision, w, b), w,
                         RewriteBody(Used(raw, HeadFrom(true, raw).rest), w, b), seen)
  {
    var head := HeadFrom(true, raw);
    RewrittenBody(head.value, revision, w, b);
    HelloWithRevision(raw, w, RewrittenSuffix(w, b), seen);
    RewriteBodyShape(Used(raw, head.rest), w, b);
  }

  /** The rewrite preserves meaning: whatever the decoder accepts, the rewriter accepts, and a
      client that advertised `seen` decodes the result to the same Hello and the same bytes
      behind it, with only the revision and the two modes replaced. */
  lemma RewriteKeepsMeaning(raw: seq<byte>, client: int, seen: int)
    requires HelloFrom(raw, client).Got?
    requires var w := WireRevision(HelloFrom(raw, client).value.revision, client); seen <= 0 || seen >= w
    ensures var h := HelloFrom(raw, client);
            KeepsMeaning(h, WireRevision(h.value.revision, client), RewriteOf(raw, client), seen)
  {
    RewriteOfDecodable(raw, client);
    var head := HeadFrom(true, raw);
    var revision := Number(true, head.rest);
    var w := WireRevision(revision.value, client);
    assert HelloFrom(raw, client) == BodyFrom(head.value, revision.value, w, revision.rest);
    RewriteKeepsBody(raw, revision.rest, revision.value, w, seen);
  }

  lemma RewriteWithRevision(raw: seq<byte>, w: i64, y: seq<byte>, client: int)
    requires HeadFrom(false, raw).Got? && LeavesSuffix(raw, HeadFrom(false, raw).rest)
    ensures var prefix := Used(raw, HeadFrom(false, raw).rest);
            RewriteOf(prefix + (PutInt(w) + y), client) == RewriteBody(prefix, WireRevision(w, client), y)
  {
    NewRevision(false, raw, w, y);
  }

  /** Rewriting twice is rewriting once. */
  lemma RewriteIsIdempotent(raw: seq<byte>, client: int)
    requires RewriteOf(raw, client).Some?
    ensures var once := RewriteOf(raw, client).value;
            RewriteOf(once.bytes, client).Some? && RewriteOf(once.bytes, client).value.bytes == once.bytes
  {
    HeadLocal(false, raw, []);
    var head := HeadFrom(false, raw);
    var revision := Number(false, head.rest);
    var w := WireRevision(revision.value, client);
    RewriteBodyShape(Used(raw, head.rest), w, revision.rest);
    RewriteWithRevision(raw, w, RewrittenSuffix(w, revision.rest), client);
    SuffixIsStable(Used(raw, head.rest), w, revision.rest);
  }

  lemma SuffixIsStable(prefix: seq<byte>, w: i64, b: seq<byte>)
    requires RewriteBody([], w, b).Some?
    ensures var y := RewrittenSuffix(w, b);
            RewriteBody(prefix, w, y).Some? && RewriteBody(prefix, w, y).value.bytes == prefix + (PutInt(w) + y)
  {
    if w >= CHUNKED_PACKETS {
      var middle := MiddleFrom(false, b, w);
      MiddleLocal(false, b, w, []);
      var modes := ModesFrom(false, middle.rest, w);
      var x := ProxyModes(modes.rest, modes.value.send);
      MiddleLocal(false, b, w, x);
      UsedOfConcat(Used(b, middle.rest), x);
      ProxyModesRead(false, modes.rest, modes.value.send, w);
      ModesDiffer();
    }
  }
}
