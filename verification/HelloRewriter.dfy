/** decodeUVarInt, rewriteServerHelloForProxy and decodeServerHello as they run: a shift loop, a
    cursor over the captured packet, and a reader that consumes the stream.
 */
module HelloRewriter {
  import opened Bytes
  import opened Options
  import opened Wire
  import opened WireReader
  import opened ChunkModes
  import opened ServerHello
  import opened Revisions

  lemma Pow128Values()
    ensures Pow128(9) == TWO_63
    ensures forall i :: 0 <= i <= 8 ==> 128 * Pow128(i) <= TWO_63
  {
    assert Pow128(2) == 128 * Pow128(1);
    assert Pow128(4) == 128 * Pow128(3);
    assert Pow128(6) == 128 * Pow128(5);
    assert Pow128(8) == 128 * Pow128(7);
    forall i | 0 <= i <= 8 ensures 128 * Pow128(i) <= TWO_63 {
      if i == 0 {} else if i == 1 {} else if i == 2 {} else if i == 3 {} else if i == 4 {}
      else if i == 5 {} else if i == 6 {} else if i == 7 {} else {}
    }
  }

  /** The low seven bits of `octet` shifted to byte position `i` of a 64-bit word. */
  function Shifted(octet: byte, i: nat): (v: nat) { octet % 128 * Pow128(i) % TWO_64 }

  lemma {:induction false} TimesGrows(a: nat, b: nat, scale: nat)
    requires a <= b
    ensures 0 <= a * scale <= b * scale
  {
    if a < b {
      TimesGrows(a, b - 1, scale);
      assert b * scale == (b - 1) * scale + scale;
    }
  }

  lemma SmallStays(x: nat)
    requires x < TWO_64
    ensures x % TWO_64 == x
  {
  }

  lemma NoWrap(low: nat, scale: nat)
    requires low <= 127 && 128 * scale <= TWO_63
    ensures low * scale <= 127 * scale && low * scale % TWO_64 == low * scale
  {
    TimesGrows(low, 127, scale);
    SmallStays(low * scale);
  }

  lemma ShiftedTenth(octet: byte)
    ensures Shifted(octet, 9) == octet % 2 * TWO_63
  {
    Pow128Values();
    var half := octet % 128 / 2;
    assert octet % 128 * TWO_63 == octet % 2 * TWO_63 + half * TWO_64;
  }

  lemma ShiftedFits(octet: byte, i: nat, val: nat)
    requires i <= 9 && val < Pow128(i)
    ensures val + Shifted(octet, i) < TWO_64
    ensures i < 9 ==> Shifted(octet, i) == octet % 128 * Pow128(i) && val + Shifted(octet, i) < Pow128(i + 1)
    ensures i == 9 ==> Shifted(octet, i) == octet % 2 * Pow128(9)
  {
    Pow128Values();
    if i == 9 { ShiftedTenth(octet); } else { NoWrap(octet % 128, Pow128(i)); }
  }

  /** What the loop has still to add, given the bytes it has shifted in. */
  function Added(p: Parsed<nat>, val: nat, i: nat): (r: Parsed<nat>) {
    if p.Bad? then Bad else Got(val + p.value * Pow128(i), p.rest)
  }

  lemma Distribute(low: int, v: int, scale: int)
    ensures (low + 128 * v) * scale == low * scale + v * (128 * scale)
  {
  }

  lemma LastDigitAdded(b: seq<byte>, i: nat, val: nat, add: nat, scale: nat)
    requires b != [] && b[0] < 128 && i <= 9 && scale == Pow128(i)
    requires add == (if i == 9 then b[0] % 2 else b[0]) * scale
    ensures Added(LooseFrom(b, i), val, i) == Got(val + add, b[1..])
  {
  }

  lemma LoopEnds(b: seq<byte>, i: nat, val: nat)
    requires b != [] && b[0] < 128 && i <= 9 && val < Pow128(i)
    ensures Added(LooseFrom(b, i), val, i) == Got(val + Shifted(b[0], i), b[1..])
  {
    ShiftedFits(b[0], i, val);
    assert b[0] % 128 == b[0];
    LastDigitAdded(b, i, val, (if i == 9 then b[0] % 2 else b[0]) * Pow128(i), Pow128(i));
  }

  lemma DigitAdded(b: seq<byte>, i: nat, val: nat, add: nat, scale: nat)
    requires b != [] && b[0] >= 128 && i < 9 && scale == Pow128(i) && add == (b[0] - 128) * scale
    ensures Added(LooseFrom(b, i), val, i) == Added(LooseFrom(b[1..], i + 1), val + add, i + 1)
  {
    assert Pow128(i + 1) == 128 * scale;
    var r := LooseFrom(b[1..], i + 1);
    if r.Got? { Distribute(b[0] - 128, r.value, scale); }
  }

  lemma LoopGoesOn(b: seq<byte>, i: nat, val: nat)
    requires b != [] && b[0] >= 128 && i < 9 && val < Pow128(i)
    ensures Added(LooseFrom(b, i), val, i) == Added(LooseFrom(b[1..], i + 1), val + Shifted(b[0], i), i + 1)
  {
    ShiftedFits(b[0], i, val);
    assert b[0] % 128 == b[0] - 128;
    DigitAdded(b, i, val, (b[0] - 128) * Pow128(i), Pow128(i));
  }

  lemma LoopStep(b: seq<byte>, i: nat, val: nat)
    requires b != [] && i <= 9 && val < Pow128(i)
    ensures val + Shifted(b[0], i) < TWO_64 && (i < 9 ==> val + Shifted(b[0], i) < Pow128(i + 1))
    ensures var all := Added(LooseFrom(b, i), val, i);
            if b[0] < 128 then all == Got(val + Shifted(b[0], i), b[1..])
            else if i == 9 then all.Bad?
            else all == Added(LooseFrom(b[1..], i + 1), val + Shifted(b[0], i), i + 1)
  {
    ShiftedFits(b[0], i, val);
    if b[0] < 128 { LoopEnds(b, i, val); } else if i < 9 { LoopGoesOn(b, i, val); }
  }

  /** The 64-bit varint at the head of `b`. Disjoint bits, so `or` is `+`. */
  method DecodeUVarInt(b: seq<byte>) returns (val: u64, n: nat, ok: bool)
    ensures ok <==> Loose(b).Got?
    ensures ok ==> n <= |b| && Loose(b) == Got(val, b[n..])
    ensures !ok ==> val == 0 && n == 0
  {
    CapIs64Bits();
    var i := 0;
    val := 0;
    assert b[0..] == b;
    while i < |b|
      invariant i <= 9 && i <= |b| && val < Pow128(i)
      invariant LooseFrom(b, 0) == Added(LooseFrom(b[i..], i), val, i)
    {
      var octet := b[i];
      assert b[i..][1..] == b[i + 1..];
      LoopStep(b[i..], i, val);
      val := val + Shifted(octet, i);
      if octet < 128 { return val, i + 1, true; }
      if 7 * (i + 1) > 63 { return 0, 0, false; }
      i := i + 1;
    }
    return 0, 0, false;
  }

  // ---------------------------------------------------------------------------
  // The rewriter's cursor

  /** A field, an error return, or a slice expression out of bounds. */
  datatype Field<+T> = Value(value: T) | Refused | Panicked

  ghost predicate Yields<T(!new)>(p: Parsed<T>, r: Field<T>, rest: seq<byte>) {
    if p.Got? then r == Value(p.value) && rest == p.rest else !r.Value?
  }

  /** The text at the head of `b`, which ends a packet of `size` bytes, is so long that its end
      is past the largest `int`. */
  predicate TextPanics(b: seq<byte>, size: nat) {
    var n := Loose(b);
    n.Got? && size - |n.rest| + n.value >= TWO_63
  }

  predicate HeadPanics(b: seq<byte>, size: nat) {
    var code := Number(false, b);
    code.Got? && code.value == SERVER_CODE_HELLO && TextPanics(code.rest, size)
  }

  predicate PlacePanics(b: seq<byte>, rev: int, size: nat) {
    var replicas := NumberIf(false, rev >= VERSIONED_PARALLEL_REPLICAS, b);
    replicas.Got? && rev >= TIMEZONE && TextPanics(replicas.rest, size)
  }

  predicate LabelPanics(b: seq<byte>, rev: int, size: nat) {
    rev >= DISPLAY_NAME && TextPanics(b, size)
  }

  predicate MiddlePanics(b: seq<byte>, rev: int, size: nat) {
    || PlacePanics(b, rev, size)
    || (PlaceFrom(false, b, rev).Got? && LabelPanics(PlaceFrom(false, b, rev).rest, rev, size))
  }

  predicate ModesPanics(b: seq<byte>, rev: int, size: nat) {
    rev >= CHUNKED_PACKETS
    && (TextPanics(b, size) || (Text(false, b).Got? && TextPanics(Text(false, b).rest, size)))
  }

  predicate BodyPanics(b: seq<byte>, w: i64, size: nat) {
    || MiddlePanics(b, w, size)
    || (MiddleFrom(false, b, w).Got? && ModesPanics(MiddleFrom(false, b, w).rest, w, size))
  }

  /** The rewriter comes to such a text before anything else is wrong. */
  predicate RewritePanics(raw: seq<byte>, client: int) {
    var head := HeadFrom(false, raw);
    if head.Bad? then HeadPanics(raw, |raw|)
    else
      var revision := Number(false, head.rest);
      revision.Got? && BodyPanics(revision.rest, WireRevision(revision.value, client), |raw|)
  }

  lemma ReadTextsDoNotPanic(b: seq<byte>, size: nat)
    requires |b| <= size < TWO_63
    ensures Text(false, b).Got? ==> !TextPanics(b, size)
  {
  }

  lemma ReadMiddleDoesNotPanic(b: seq<byte>, rev: int, size: nat)
    requires |b| <= size < TWO_63 && MiddleFrom(false, b, rev).Got?
    ensures !MiddlePanics(b, rev, size) && |MiddleFrom(false, b, rev).rest| <= |b|
  {
    ReadTextsDoNotPanic(NumberIf(false, rev >= VERSIONED_PARALLEL_REPLICAS, b).rest, size);
    ReadTextsDoNotPanic(PlaceFrom(false, b, rev).rest, size);
  }

  /** The rewrite never panics on a packet it rewrites, and so never on one the decoder accepts. */
  lemma AcceptedPacketsDoNotPanic(raw: seq<byte>, client: int)
    requires Short(raw)
    ensures RewriteOf(raw, client).Some? || HelloFrom(raw, client).Got? ==> !RewritePanics(raw, client)
  {
    if HelloFrom(raw, client).Got? { RewriteKeepsMeaning(raw, client, 0); }
    if RewriteOf(raw, client).Some? {
      HeadLocal(false, raw, []);
      var revision := Number(false, HeadFrom(false, raw).rest);
      var w := WireRevision(revision.value, client);
      ReadMiddleDoesNotPanic(revision.rest, w, |raw|);
      if w >= CHUNKED_PACKETS { ReadModesDoNotPanic(MiddleFrom(false, revision.rest, w).rest, w, |raw|); }
    }
  }

  lemma {:induction false} VarIntLength(v: nat)
    ensures |PutUVarInt(v)| <= v / 128 + 1
  {
    if v >= 128 { VarIntLength(v / 128); }
  }

  /** A server name whose length is the largest `int`. */
  lemma LongestNamePanics(client: int)
    ensures var raw := [SERVER_CODE_HELLO] + PutUVarInt(TWO_63 - 1);
            Short(raw) && RewritePanics(raw, client) && HelloFrom(raw, client).Bad?
  {
    var length := PutUVarInt(TWO_63 - 1);
    var raw := [SERVER_CODE_HELLO] + length;
    VarIntLength(TWO_63 - 1);
    assert length + [] == length;
    UVarIntPut(TWO_63 - 1, []);
    VarIntsAgree(length, 0);
    assert raw[1..] == length;
    assert LooseFrom(raw, 0) == Got(0, length);
    assert Number(false, raw) == Got(0, length) && Number(true, raw) == Got(0, length);
  }

  lemma ReadModesDoNotPanic(b: seq<byte>, rev: int, size: nat)
    requires |b| <= size < TWO_63 && ModesFrom(false, b, rev).Got?
    ensures !ModesPanics(b, rev, size)
  {
    if rev >= CHUNKED_PACKETS {
      ReadTextsDoNotPanic(b, size);
      ReadTextsDoNotPanic(Text(false, b).rest, size);
    }
  }

  /** A 64-bit signed sum. */
  function Wrapped(x: int): (r: int) { if x >= TWO_63 then x - TWO_64 else x }

  class Cursor {
    const raw: seq<byte>
    var pos: nat

    ghost predicate Valid()
      reads this
    {
      Short(raw) && pos <= |raw|
    }

    constructor (packet: seq<byte>)
      requires Short(packet)
      ensures raw == packet && pos == 0 && Valid()
    {
      raw := packet;
      pos := 0;
    }

    method ReadNumber() returns (r: Field<i64>)
      requires Valid()
      modifies this
      ensures Valid() && pos >= old(pos)
      ensures Yields(Number(false, old(raw[pos..])), r, raw[pos..]) && !r.Panicked?
    {
      var v, n, ok := DecodeUVarInt(raw[pos..]);
      if !ok { return Refused; }
      assert raw[pos..][n..] == raw[pos + n..];
      pos := pos + n;
      r := Value(AsSigned(v));
    }

    /** A length that takes the cursor past the largest `int` panics; one that only takes it
        past the packet is refused. */
    method ReadStr() returns (r: Field<seq<byte>>)
      requires Valid()
      modifies this
      ensures Valid() && pos >= old(pos)
      ensures Yields(Text(false, old(raw[pos..])), r, raw[pos..])
      ensures r.Panicked? <==> TextPanics(old(raw[pos..]), |raw|)
    {
      var v, n, ok := DecodeUVarInt(raw[pos..]);
      if !ok { return Refused; }
      assert raw[pos..][n..] == raw[pos + n..];
      pos := pos + n;
      var end := Wrapped(pos + AsSigned(v));
      if end > |raw| { return Refused; }
      if end < pos { return Panicked; }
      assert raw[pos..][..end - pos] == raw[pos..end];
      r := Value(raw[pos..end]);
      pos := end;
    }

    method ReadNumberIf(on: bool) returns (r: Field<i64>)
      requires Valid()
      modifies this
      ensures Valid() && pos >= old(pos)
      ensures Yields(NumberIf(false, on, old(raw[pos..])), r, raw[pos..]) && !r.Panicked?
    {
      if on { r := ReadNumber(); } else { r := Value(0); }
    }

    method ReadStrIf(on: bool) returns (r: Field<seq<byte>>)
      requires Valid()
      modifies this
      ensures Valid() && pos >= old(pos)
      ensures Yields(TextIf(false, on, old(raw[pos..])), r, raw[pos..])
      ensures r.Panicked? <==> on && TextPanics(old(raw[pos..]), |raw|)
    {
      if on { r := ReadStr(); } else { r := Value([]); }
    }

    method ReadHead() returns (r: Field<Head>)
      requires Valid()
      modifies this
      ensures Valid() && pos >= old(pos)
      ensures Yields(HeadFrom(false, old(raw[pos..])), r, raw[pos..])
      ensures r.Panicked? <==> HeadPanics(old(raw[pos..]), |raw|)
    {
      var code := ReadNumber();
      if !code.Value? { return Failure(code); }
      if code.value != SERVER_CODE_HELLO { return Refused; }
      var name := ReadStr();
      if !name.Value? { return Failure(name); }
      var major := ReadNumber();
      if !major.Value? { return Failure(major); }
      var minor := ReadNumber();
      if !minor.Value? { return Failure(minor); }
      r := Value(Head(name.value, major.value, minor.value));
    }

    method ReadPlace(rev: int) returns (r: Field<Place>)
      requires Valid()
      modifies this
      ensures Valid() && pos >= old(pos)
      ensures Yields(PlaceFrom(false, old(raw[pos..]), rev), r, raw[pos..])
      ensures r.Panicked? <==> PlacePanics(old(raw[pos..]), rev, |raw|)
    {
      var replicas := ReadNumberIf(rev >= VERSIONED_PARALLEL_REPLICAS);
      if !replicas.Value? { return Failure(replicas); }
      var timezone := ReadStrIf(rev >= TIMEZONE);
      if !timezone.Value? { return Failure(timezone); }
      r := Value(Place(replicas.value, timezone.value));
    }

    method ReadLabel(rev: int) returns (r: Field<Label>)
      requires Valid()
      modifies this
      ensures Valid() && pos >= old(pos)
      ensures Yields(LabelFrom(false, old(raw[pos..]), rev), r, raw[pos..])
      ensures r.Panicked? <==> LabelPanics(old(raw[pos..]), rev, |raw|)
    {
      var displayName := ReadStrIf(rev >= DISPLAY_NAME);
      if !displayName.Value? { return Failure(displayName); }
      var patch := ReadNumberIf(rev >= VERSION_PATCH);
      if !patch.Value? { return Failure(patch); }
      r := Value(Label(displayName.value, patch.value));
    }

    method ReadMiddle(rev: int) returns (r: Field<Middle>)
      requires Valid()
      modifies this
      ensures Valid() && pos >= old(pos)
      ensures Yields(MiddleFrom(false, old(raw[pos..]), rev), r, raw[pos..])
      ensures r.Panicked? <==> MiddlePanics(old(raw[pos..]), rev, |raw|)
    {
      var place := ReadPlace(rev);
      if !place.Value? { return Failure(place); }
      var naming := ReadLabel(rev);
      if !naming.Value? { return Failure(naming); }
      r := Value(Middle(place.value, naming.value));
    }

    method ReadModes(rev: int) returns (r: Field<Modes>)
      requires Valid()
      modifies this
      ensures Valid() && pos >= old(pos)
      ensures Yields(ModesFrom(false, old(raw[pos..]), rev), r, raw[pos..])
      ensures r.Panicked? <==> ModesPanics(old(raw[pos..]), rev, |raw|)
    {
      var send := ReadStrIf(rev >= CHUNKED_PACKETS);
      if !send.Value? { return Failure(send); }
      var recv := ReadStrIf(rev >= CHUNKED_PACKETS);
      if !recv.Value? { return Failure(recv); }
      r := Value(Modes(send.value, recv.value));
    }
  }

  function Failure<T, U>(f: Field<T>): (r: Field<U>)
    requires !f.Value?
    ensures !r.Value? && (r.Panicked? <==> f.Panicked?)
  {
    if f.Refused? then Refused else Panicked
  }

  /** The proxy's modes in place of the server's. */
  method RewriteModes(cursor: Cursor, prefix: seq<byte>, w: i64, kept: seq<byte>) returns (r: Field<Rewrite>)
    requires cursor.Valid()
    modifies cursor
    ensures var spec := ReplaceModes(prefix, w, kept, old(cursor.raw[cursor.pos..]));
            if spec.Some? then r == Value(spec.value) else !r.Value?
    ensures r.Panicked? <==> ModesPanics(old(cursor.raw[cursor.pos..]), w, |cursor.raw|)
  {
    var modes := cursor.ReadModes(w);
    if !modes.Value? { return Failure(modes); }
    var replacement := ProxyModes(cursor.raw[cursor.pos..], modes.value.send);
    r := Value(Rewrite(prefix + (PutInt(w) + (kept + replacement)), modes.value.send, modes.value.recv));
  }

  /** The negotiated revision in place of the server's. */
  method RewriteAfterRevision(cursor: Cursor, revisionStart: nat, w: i64) returns (r: Field<Rewrite>)
    requires cursor.Valid() && revisionStart <= |cursor.raw|
    modifies cursor
    ensures var spec := RewriteBody(cursor.raw[..revisionStart], w, old(cursor.raw[cursor.pos..]));
            if spec.Some? then r == Value(spec.value) else !r.Value?
    ensures r.Panicked? <==> BodyPanics(old(cursor.raw[cursor.pos..]), w, |cursor.raw|)
  {
    var raw, revisionEnd := cursor.raw, cursor.pos;
    var middle := cursor.ReadMiddle(w);
    if !middle.Value? { return Failure(middle); }
    if w < CHUNKED_PACKETS {
      return Value(Rewrite(raw[..revisionStart] + (PutInt(w) + raw[revisionEnd..]), [], []));
    }
    var kept := raw[revisionEnd..cursor.pos];
    assert kept == Used(raw[revisionEnd..], raw[cursor.pos..]);
    r := RewriteModes(cursor, raw[..revisionStart], w, kept);
  }

  method RewriteForProxy(raw: seq<byte>, client: int) returns (r: Field<Rewrite>)
    requires Short(raw)
    ensures r.Value? <==> RewriteOf(raw, client).Some?
    ensures r.Value? ==> RewriteOf(raw, client) == Some(r.value)
    ensures r.Panicked? <==> RewritePanics(raw, client)
  {
    var cursor := new Cursor(raw);
    assert raw[0..] == raw;
    var head := cursor.ReadHead();
    if !head.Value? { return Failure(head); }
    var revisionStart := cursor.pos;
    var revision := cursor.ReadNumber();
    if !revision.Value? { return Failure(revision); }
    r := RewriteAfterRevision(cursor, revisionStart, WireRevision(revision.value, client));
  }

  // ---------------------------------------------------------------------------
  // The decoder

  method DecodeRule(input: Reader) returns (r: Option<Rule>)
    modifies input
    ensures Follows(RuleFrom(old(input.rest)), r, input.rest)
  {
    var pattern := input.ReadStr();
    if pattern.None? { return None; }
    var message := input.ReadStr();
    if message.None? { return None; }
    r := Some(Rule(pattern.value, message.value));
  }

  lemma RulesStep(rules: seq<Rule>, b: seq<byte>, n: nat)
    requires n > 0
    ensures var rule, all := RuleFrom(b), Prepend(rules, RulesFrom(b, n));
            if rule.Bad? then all.Bad?
            else all == Prepend(rules + [rule.value], RulesFrom(rule.rest, n - 1))
  {
    var rule := RuleFrom(b);
    if rule.Got? { PrependOne(rules, rule.value, RulesFrom(rule.rest, n - 1)); }
  }

  method DecodeRules(input: Reader, count: nat) returns (r: Option<seq<Rule>>)
    modifies input
    ensures Follows(RulesFrom(old(input.rest), count), r, input.rest)
  {
    var rules: seq<Rule> := [];
    PrependNothing(RulesFrom(input.rest, count));
    for i := 0 to count
      invariant RulesFrom(old(input.rest), count) == Prepend(rules, RulesFrom(input.rest, count - i))
    {
      RulesStep(rules, input.rest, count - i);
      var rule := DecodeRule(input);
      if rule.None? { return None; }
      rules := rules + [rule.value];
    }
    PrependEnd(rules, input.rest);
    r := Some(rules);
  }

  method DecodeHead(input: Reader) returns (r: Option<Head>)
    modifies input
    ensures Follows(HeadFrom(true, old(input.rest)), r, input.rest)
  {
    var code := input.ReadInt();
    if code.None? || code.value != SERVER_CODE_HELLO { return None; }
    var name := input.ReadStr();
    if name.None? { return None; }
    var major := input.ReadInt();
    if major.None? { return None; }
    var minor := input.ReadInt();
    if minor.None? { return None; }
    r := Some(Head(name.value, major.value, minor.value));
  }

  method DecodePlace(input: Reader, rev: int) returns (r: Option<Place>)
    modifies input
    ensures Follows(PlaceFrom(true, old(input.rest), rev), r, input.rest)
  {
    var replicas := input.ReadIntIf(rev >= VERSIONED_PARALLEL_REPLICAS);
    if replicas.None? { return None; }
    var timezone := input.ReadStrIf(rev >= TIMEZONE);
    if timezone.None? { return None; }
    r := Some(Place(replicas.value, timezone.value));
  }

  method DecodeLabel(input: Reader, rev: int) returns (r: Option<Label>)
    modifies input
    ensures Follows(LabelFrom(true, old(input.rest), rev), r, input.rest)
  {
    var displayName := input.ReadStrIf(rev >= DISPLAY_NAME);
    if displayName.None? { return None; }
    var patch := input.ReadIntIf(rev >= VERSION_PATCH);
    if patch.None? { return None; }
    r := Some(Label(displayName.value, patch.value));
  }

  method DecodeMiddle(input: Reader, rev: int) returns (r: Option<Middle>)
    modifies input
    ensures Follows(MiddleFrom(true, old(input.rest), rev), r, input.rest)
  {
    var place := DecodePlace(input, rev);
    if place.None? { return None; }
    var naming := DecodeLabel(input, rev);
    if naming.None? { return None; }
    r := Some(Middle(place.value, naming.value));
  }

  method DecodeModes(input: Reader, rev: int) returns (r: Option<Modes>)
    modifies input
    ensures Follows(ModesFrom(true, old(input.rest), rev), r, input.rest)
  {
    var send := input.ReadStrIf(rev >= CHUNKED_PACKETS);
    if send.None? { return None; }
    var recv := input.ReadStrIf(rev >= CHUNKED_PACKETS);
    if recv.None? { return None; }
    r := Some(Modes(send.value, recv.value));
  }

  method DecodeTail(input: Reader, rev: int) returns (r: Option<Tail>)
    modifies input
    ensures Follows(TailFrom(old(input.rest), rev), r, input.rest)
  {
    var count := input.ReadUVarIntIf(rev >= PASSWORD_RULES);
    if count.None? { return None; }
    var rules := DecodeRules(input, count.value);
    if rules.None? { return None; }
    if rev < INTERSERVER_NONCE { return Some(Tail(rules.value, 0)); }
    var nonce := input.ReadUInt64();
    if nonce.None? { return None; }
    r := Some(Tail(rules.value, nonce.value));
  }

  /** The packet with its type; `hint` is the revision the client advertised. */
  method DecodeServerHello(input: Reader, hint: int) returns (r: Option<Hello>)
    modifies input
    ensures Follows(HelloFrom(old(input.rest), hint), r, input.rest)
  {
    var head := DecodeHead(input);
    if head.None? { return None; }
    var revision := input.ReadInt();
    if revision.None? { return None; }
    var w := WireRevision(revision.value, hint);
    var middle := DecodeMiddle(input, w);
    if middle.None? { return None; }
    var modes := DecodeModes(input, w);
    if modes.None? { return None; }
    var tail := DecodeTail(input, w);
    if tail.None? { return None; }
    r := Some(Hello(head.value, revision.value, middle.value, modes.value, tail.value));
  }
}
