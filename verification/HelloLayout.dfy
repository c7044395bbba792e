/** The ServerHello as a table of fields with the revision that introduced each: the decoder reads
    the table, and the rewriter writes the table of the Hello the client should see.
 */
module HelloLayout {
  import opened Bytes
  import opened Options
  import opened Wire
  import opened Layout
  import opened ChunkModes
  import H = ServerHello

  function HeadFields(h: H.Head): (fs: seq<Field>) {
    [Always(VarInt(0)), Always(Text(h.name)), Always(Signed(h.major)), Always(Signed(h.minor))]
  }

  function MiddleFields(m: H.Middle): (fs: seq<Field>) {
    [Since(54471, Signed(m.place.replicasVersion)),
     Since(54058, Text(m.place.timezone)),
     Since(54372, Text(m.naming.displayName)),
     Since(54401, Signed(m.naming.patch))]
  }

  function ModesFields(m: H.Modes): (fs: seq<Field>) { [Since(54470, Text(m.send)), Since(54470, Text(m.recv))] }

  function RulesFields(rules: seq<H.Rule>): (fs: seq<Field>) {
    if rules == [] then []
    else [Since(54461, Text(rules[0].pattern)), Since(54461, Text(rules[0].message))] + RulesFields(rules[1..])
  }

  function TailFields(t: H.Tail): (fs: seq<Field>)
    requires |t.rules| < TWO_64
  {
    [Since(54461, VarInt(|t.rules|))] + (RulesFields(t.rules) + [Since(54462, Word(t.nonce))])
  }

  function HelloFields(h: H.Hello): (fs: seq<Field>)
    requires |h.tail.rules| < TWO_64
  {
    HeadFields(h.head) + ([Always(Signed(h.revision))] +
    (MiddleFields(h.middle) + (ModesFields(h.modes) + TailFields(h.tail))))
  }

  /** Texts fit a Go `int`, and a field the revision leaves out has its zero value. */
  predicate HelloOk(h: H.Hello, w: int) {
    && Short(h.head.name) && MiddleOk(h.middle, w) && ModesOk(h.modes, w) && TailOk(h.tail, w)
  }

  predicate MiddleOk(m: H.Middle, w: int) {
    && (w < 54471 ==> m.place.replicasVersion == 0)
    && Short(m.place.timezone) && (w < 54058 ==> m.place.timezone == [])
    && Short(m.naming.displayName) && (w < 54372 ==> m.naming.displayName == [])
    && (w < 54401 ==> m.naming.patch == 0)
  }

  predicate ModesOk(m: H.Modes, w: int) {
    Short(m.send) && Short(m.recv) && (w < 54470 ==> m == H.Modes([], []))
  }

  predicate TailOk(t: H.Tail, w: int) {
    && |t.rules| < TWO_64 && (forall i :: 0 <= i < |t.rules| ==> Short(t.rules[i].pattern) && Short(t.rules[i].message))
    && (w < 54461 ==> t.rules == []) && (w < 54462 ==> t.nonce == 0)
  }

  // ---------------------------------------------------------------------------
  // Each reader reads its part of the table

  lemma HeadRead(strict: bool, h: H.Head, w: int, x: seq<byte>)
    requires Short(h.name)
    ensures H.HeadFrom(strict, Laid(HeadFields(h), w, x)) == Got(h, x)
  {
    var x3 := PutInt(h.minor) + x;
    var x2 := PutInt(h.major) + x3;
    var x1 := PutStr(h.name) + x2;
    LaidFew(HeadFields(h), w, x);
    H.NumberPut(strict, 0, x1);
    H.TextPut(strict, h.name, x2);
    H.NumberPut(strict, h.major, x3);
    H.NumberPut(strict, h.minor, x);
  }

  lemma NumberIfRead(strict: bool, on: bool, v: i64, x: seq<byte>)
    requires !on ==> v == 0
    ensures H.NumberIf(strict, on, (if on then PutInt(v) else []) + x) == Got(v, x)
  {
    if on { H.NumberPut(strict, v, x); } else { assert [] + x == x; }
  }

  lemma TextIfRead(strict: bool, on: bool, s: seq<byte>, x: seq<byte>)
    requires Short(s) && (!on ==> s == [])
    ensures H.TextIf(strict, on, (if on then PutStr(s) else []) + x) == Got(s, x)
  {
    if on { H.TextPut(strict, s, x); } else { assert [] + x == x; }
  }

  lemma MiddleRead(strict: bool, m: H.Middle, w: int, x: seq<byte>)
    requires MiddleOk(m, w)
    ensures H.MiddleFrom(strict, Laid(MiddleFields(m), w, x), w) == Got(m, x)
  {
    var fs := MiddleFields(m);
    LaidFew(fs, w, x);
    var x3 := PutAt(fs, 3, w) + x;
    var x2 := PutAt(fs, 2, w) + x3;
    var x1 := PutAt(fs, 1, w) + x2;
    NumberIfRead(strict, w >= 54471, m.place.replicasVersion, x1);
    TextIfRead(strict, w >= 54058, m.place.timezone, x2);
    TextIfRead(strict, w >= 54372, m.naming.displayName, x3);
    NumberIfRead(strict, w >= 54401, m.naming.patch, x);
  }

  lemma ModesRead(strict: bool, m: H.Modes, w: int, x: seq<byte>)
    requires ModesOk(m, w)
    ensures H.ModesFrom(strict, Laid(ModesFields(m), w, x), w) == Got(m, x)
  {
    var fs := ModesFields(m);
    LaidFew(fs, w, x);
    TextIfRead(strict, w >= 54470, m.send, PutAt(fs, 1, w) + x);
    TextIfRead(strict, w >= 54470, m.recv, x);
  }

  lemma RuleRead(rule: H.Rule, w: int, x: seq<byte>)
    requires w >= 54461 && Short(rule.pattern) && Short(rule.message)
    ensures H.RuleFrom(Laid([Since(54461, Text(rule.pattern)), Since(54461, Text(rule.message))], w, x)) == Got(rule, x)
  {
    LaidFew([Since(54461, Text(rule.pattern)), Since(54461, Text(rule.message))], w, x);
    StrPut(rule.pattern, PutStr(rule.message) + x);
    StrPut(rule.message, x);
  }

  lemma {:induction false} RulesRead(rules: seq<H.Rule>, w: int, x: seq<byte>)
    requires w >= 54461
    requires forall i :: 0 <= i < |rules| ==> Short(rules[i].pattern) && Short(rules[i].message)
    ensures H.RulesFrom(Laid(RulesFields(rules), w, x), |rules|) == Got(rules, x)
  {
    if rules != [] {
      var fs, others := [Since(54461, Text(rules[0].pattern)), Since(54461, Text(rules[0].message))], RulesFields(rules[1..]);
      RulesRead(rules[1..], w, x);
      LaidJoined(fs, others, w, x);
      RuleRead(rules[0], w, Laid(others, w, x));
      assert rules == [rules[0]] + rules[1..];
    }
  }

  lemma NonceLaid(nonce: u64, w: int, x: seq<byte>)
    ensures Laid([Since(54462, Word(nonce))], w, x) == (if w >= 54462 then PutUInt64(nonce) else []) + x
  {
    LaidFew([Since(54462, Word(nonce))], w, x);
  }

  lemma TailRead(t: H.Tail, w: int, x: seq<byte>)
    requires TailOk(t, w)
    ensures H.TailFrom(Laid(TailFields(t), w, x), w) == Got(t, x)
  {
    var count, rules, nonce := [Since(54461, VarInt(|t.rules|))], RulesFields(t.rules), [Since(54462, Word(t.nonce))];
    var x2 := Laid(nonce, w, x);
    var x1 := Laid(rules, w, x2);
    LaidJoined(rules, nonce, w, x);
    LaidJoined(count, rules + nonce, w, x);
    LaidFew(count, w, x1);
    NonceLaid(t.nonce, w, x);
    if w >= 54461 {
      UVarIntPut(|t.rules|, x1);
      RulesRead(t.rules, w, x2);
    } else {
      assert [] + x == x;
    }
    if w >= 54462 { UInt64Put(t.nonce, x); }
  }

  lemma HelloJoined(h: H.Hello, w: int, x: seq<byte>)
    requires |h.tail.rules| < TWO_64
    ensures Laid(HelloFields(h), w, x) == Laid(HeadFields(h.head), w, PutInt(h.revision) + BodyBytes(h, w, x))
  {
    var tail, modes, middle := TailFields(h.tail), ModesFields(h.modes), MiddleFields(h.middle);
    var revision := [Always(Signed(h.revision))];
    LaidJoined(modes, tail, w, x);
    LaidJoined(middle, modes + tail, w, x);
    LaidJoined(revision, middle + (modes + tail), w, x);
    LaidJoined(HeadFields(h.head), revision + (middle + (modes + tail)), w, x);
    LaidFew(revision, w, BodyBytes(h, w, x));
  }

  /** The fields behind the revision, and then `x`. */
  function BodyBytes(h: H.Hello, w: int, x: seq<byte>): (b: seq<byte>)
    requires |h.tail.rules| < TWO_64
  {
    Laid(MiddleFields(h.middle), w, Laid(ModesFields(h.modes), w, Laid(TailFields(h.tail), w, x)))
  }

  lemma BodyRead(h: H.Hello, w: i64, x: seq<byte>)
    requires HelloOk(h, w)
    ensures H.BodyFrom(h.head, h.revision, w, BodyBytes(h, w, x)) == Got(h, x)
  {
    var x2 := Laid(TailFields(h.tail), w, x);
    var x1 := Laid(ModesFields(h.modes), w, x2);
    MiddleRead(true, h.middle, w, x1);
    ModesRead(true, h.modes, w, x2);
    TailRead(h.tail, w, x);
  }

  /** The decoder reads back every Hello a server writes at the wire revision. */
  lemma HelloFromTable(h: H.Hello, client: int, x: seq<byte>)
    requires HelloOk(h, H.WireRevision(h.revision, client))
    ensures H.HelloFrom(Laid(HelloFields(h), H.WireRevision(h.revision, client), x), client) == Got(h, x)
  {
    var w := H.WireRevision(h.revision, client);
    var b := BodyBytes(h, w, x);
    HelloJoined(h, w, x);
    HeadRead(true, h.head, w, PutInt(h.revision) + b);
    H.NumberPut(true, h.revision, b);
    BodyRead(h, w, x);
  }

  // ---------------------------------------------------------------------------
  // The rewrite

  /** The Hello the client should see: the negotiated revision, and modes that offer to receive
      chunks, and to send them if the server does. */
  function Presented(h: H.Hello, w: i64): (r: H.Hello) {
    h.(revision := w,
       modes := if w < 54470 then h.modes
                else H.Modes(if h.modes.send == [] || h.modes.send == Ascii("notchunked") then Ascii("notchunked")
                             else Ascii("chunked_optional"),
                             Ascii("chunked_optional")))
  }

  lemma {:induction false} LaidSplits(fs: seq<Field>, k: nat, rev: int, t: seq<byte>)
    requires k <= |fs|
    ensures LaidFrom(fs, k, rev, t) == LaidFrom(fs, k, rev, []) + t
    decreases |fs| - k
  {
    if k < |fs| {
      LaidSplits(fs, k + 1, rev, t);
      Assoc3(PutAt(fs, k, rev), LaidFrom(fs, k + 1, rev, []), t);
    }
  }

  lemma ModesLaid(m: H.Modes, w: int, x: seq<byte>)
    requires w >= 54470
    ensures Laid(ModesFields(m), w, x) == PutStr(m.send) + (PutStr(m.recv) + x)
  {
    LaidFew(ModesFields(m), w, x);
  }

  lemma BodyRewritten(prefix: seq<byte>, h: H.Hello, w: i64, x: seq<byte>)
    requires HelloOk(h, w)
    ensures H.RewriteBody(prefix, w, BodyBytes(h, w, x))
            == Some(H.Rewrite(prefix + (PutInt(w) + BodyBytes(Presented(h, w), w, x)), h.modes.send, h.modes.recv))
  {
    var x2 := Laid(TailFields(h.tail), w, x);
    var x1 := Laid(ModesFields(h.modes), w, x2);
    MiddleRead(false, h.middle, w, x1);
    if w >= 54470 {
      ModesRead(false, h.modes, w, x2);
      var g := Presented(h, w);
      var y1 := Laid(ModesFields(g.modes), w, x2);
      LaidSplits(MiddleFields(h.middle), 0, w, x1);
      LaidSplits(MiddleFields(h.middle), 0, w, y1);
      H.UsedOfConcat(Laid(MiddleFields(h.middle), w, []), x1);
      ModesLaid(g.modes, w, x2);
      H.ProxySendByName(h.modes.send);
      ModesByName();
    }
  }

  /** The rewriter turns every Hello a server writes into the Hello the client should see, field
      for field, with the bytes behind it, and reports the modes the server offered. */
  lemma RewriteOfTable(h: H.Hello, client: int, x: seq<byte>)
    requires HelloOk(h, H.WireRevision(h.revision, client))
    ensures var w := H.WireRevision(h.revision, client);
            H.RewriteOf(Laid(HelloFields(h), w, x), client)
            == Some(H.Rewrite(Laid(HelloFields(Presented(h, w)), w, x), h.modes.send, h.modes.recv))
  {
    var w := H.WireRevision(h.revision, client);
    var g := Presented(h, w);
    var b, b' := PutInt(h.revision) + BodyBytes(h, w, x), PutInt(w) + BodyBytes(g, w, x);
    HelloJoined(h, w, x);
    HelloJoined(g, w, x);
    HeadRead(false, h.head, w, b);
    LaidSplits(HeadFields(h.head), 0, w, b);
    LaidSplits(HeadFields(h.head), 0, w, b');
    var prefix := Laid(HeadFields(h.head), w, []);
    H.UsedOfConcat(prefix, b);
    H.NumberPut(false, h.revision, BodyBytes(h, w, x));
    BodyRewritten(prefix, h, w, x);
  }
}
