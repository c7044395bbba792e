/** The Query packet as a table of fields with the revision that introduced each, and the proof
    that `QueryCodec` writes and reads that table.
 */
module QueryLayout {
  import opened Bytes
  import opened Wire
  import opened Layout
  import opened QueryCodec

  /** An id as it travels: byte `k` of an eight-byte word stands at `7 - k` of that word. */
  function WordsReversed(b: seq<byte>): (r: seq<byte>)
    requires |b| % 8 == 0
    ensures |r| == |b|
  {
    seq(|b|, k requires 0 <= k < |b| => b[8 * (k / 8) + 7 - k % 8])
  }

  lemma {:induction false} SwapWordsIn(b: seq<byte>, w: nat, k: nat)
    requires k < 8 && 8 * w + 8 <= |b|
    ensures SwapWords(b)[8 * w + k] == b[8 * w + 7 - k]
  {
    var head, tail := Reverse(b[..8]), SwapWords(b[8..]);
    SwapWordsOnce(b);
    if w == 0 {
      assert (head + tail)[k] == head[k];
    } else {
      SwapWordsIn(b[8..], w - 1, k);
      assert (head + tail)[8 * w + k] == tail[8 * (w - 1) + k];
    }
  }

  lemma SwapWordsOnce(b: seq<byte>)
    requires |b| >= 8
    ensures SwapWords(b) == Reverse(b[..8]) + SwapWords(b[8..])
  {
  }

  /** Byte `k` comes from the same word, counted from its other end. */
  lemma SwapWordsAt(b: seq<byte>, k: nat)
    requires |b| % 8 == 0 && k < |b|
    ensures SwapWords(b)[k] == b[8 * (k / 8) + 7 - k % 8]
  {
    SwapWordsIn(b, k / 8, k % 8);
  }

  lemma SwapsWords(b: seq<byte>)
    requires |b| % 8 == 0
    ensures SwapWords(b) == WordsReversed(b)
  {
    forall k | 0 <= k < |b| ensures SwapWords(b)[k] == WordsReversed(b)[k] { SwapWordsAt(b, k); }
  }

  /** The reader takes the ids from the first 24 bytes. */
  lemma IdsFrom(b: seq<byte>, parse: TraceParser)
    requires SpanFrom(b, parse).Got?
    ensures |b| >= 24
    ensures SpanFrom(b, parse).value.traceId == WordsReversed(b[..16])
    ensures SpanFrom(b, parse).value.spanId == WordsReversed(b[16..24])
  {
    assert b[16..][..8] == b[16..24];
    SwapsWords(b[..16]);
    SwapsWords(b[16..24]);
  }

  // ---------------------------------------------------------------------------
  // Tables

  function OriginFields(o: Origin): (fs: seq<Field>) {
    [Since(54420, Octet(o.queryKind)),
     Since(54420, Text(o.initialUser)),
     Since(54420, Text(o.initialQueryId)),
     Since(54420, Text(o.initialAddress)),
     Since(54449, SignedWord(o.initialTime)),
     Since(54420, Octet(o.iface))]
  }

  function ProgramFields(p: Program): (fs: seq<Field>) {
    [Since(54420, Text(p.osUser)),
     Since(54420, Text(p.hostname)),
     Since(54420, Text(p.clientName)),
     Since(54420, Signed(p.major)),
     Since(54420, Signed(p.minor)),
     Since(54420, Signed(p.protocolVersion))]
  }

  /** Interface 1 is TCP. */
  function LimitsFields(l: Limits, iface: byte): (fs: seq<Field>) {
    [Since(54420, Text(l.quotaKey)), Since(54448, Signed(l.distributedDepth))] +
    if iface == 1 then [Since(54420, Signed(l.patch))] else []
  }

  predicate WholeIds(x: Tracing) { x.hasTrace ==> |x.span.traceId| == 16 && |x.span.spanId| == 8 }

  function TracingFields(x: Tracing): (fs: seq<Field>)
    requires WholeIds(x)
  {
    if x.hasTrace then
      SpanFields(WordsReversed(x.span.traceId), WordsReversed(x.span.spanId), x.span.state, x.span.flags)
    else [Since(54442, Flag(false))]
  }

  function SpanFields(traceId: seq<byte>, spanId: seq<byte>, state: seq<byte>, flags: byte): (fs: seq<Field>) {
    [Since(54442, Flag(true)),
     Since(54442, Verbatim(traceId)),
     Since(54442, Verbatim(spanId)),
     Since(54442, Text(state)),
     Since(54442, Octet(flags))]
  }

  function ReplicasFields(x: Replicas): (fs: seq<Field>) {
    [Since(54453, VarInt(if x.collaborate then 1 else 0)),
     Since(54453, Signed(x.count)),
     Since(54453, Signed(x.current))]
  }

  function ScriptFields(x: Script): (fs: seq<Field>) {
    [Since(54475, VarInt(x.queryNumber)), Since(54475, VarInt(x.lineNumber))] + JwtFields(x.hasJwt, x.jwt)
  }

  function JwtFields(hasJwt: bool, jwt: seq<byte>): (fs: seq<Field>) {
    if hasJwt then [Since(54476, Flag(true)), Since(54476, Text(jwt))] else [Since(54476, Flag(false))]
  }

  function InfoFields(i: ClientInfo): (fs: seq<Field>)
    requires WholeIds(i.tracing)
  {
    OriginFields(i.origin) + (ProgramFields(i.program) + (LimitsFields(i.limits, i.origin.iface) +
    (TracingFields(i.tracing) + (ReplicasFields(i.replicas) + ScriptFields(i.script)))))
  }

  /** A setting and its value travel as text, with the flags between them: important 1, custom 2,
      obsolete 4. */
  function SettingFields(s: Setting, since: int): (fs: seq<Field>) {
    [Since(since, Text(s.key)),
     Since(since, VarInt((if s.flags.important then 1 else 0) + (if s.flags.custom then 2 else 0) +
                         (if s.flags.obsolete then 4 else 0))),
     Since(since, Text(s.value))]
  }

  /** An empty key ends the list. */
  function SettingsFields(ss: seq<Setting>, since: int): (fs: seq<Field>) {
    if ss == [] then [Since(since, Text([]))] else SettingFields(ss[0], since) + SettingsFields(ss[1..], since)
  }

  function OldSettingFields(s: OldSetting): (fs: seq<Field>) {
    [Always(Text(s.key)), Always(Word(s.value))]
  }

  function OldSettingsFields(ss: seq<OldSetting>): (fs: seq<Field>) {
    if ss == [] then [Always(Text([]))] else OldSettingFields(ss[0]) + OldSettingsFields(ss[1..])
  }

  /** A parameter is a custom setting. */
  function ParametersFields(ps: seq<Parameter>): (fs: seq<Field>) {
    if ps == [] then [Since(54459, Text([]))]
    else
      [Since(54459, Text(ps[0].key)), Since(54459, VarInt(2)), Since(54459, Text(ps[0].value))] +
      ParametersFields(ps[1..])
  }

  function StatementFields(s: Statement): (fs: seq<Field>) {
    [Since(54472, Text(s.externalRoles)),
     Since(54441, Text(s.secret)),
     Always(VarInt(s.stage)),
     Always(VarInt(s.compression)),
     Always(Text(s.body))] + ParametersFields(s.parameters)
  }

  /** Settings travel as text from 54429 on, and before that as numbers. */
  function ListsFields(l: Lists, rev: int): (fs: seq<Field>) {
    if rev >= 54429 then SettingsFields(l.settings, 54429) else OldSettingsFields(l.oldSettings)
  }

  function QueryFields(q: Query, rev: int): (fs: seq<Field>)
    requires WholeIds(q.info.tracing)
  {
    [Always(Text(q.id))] + (InfoFields(q.info) + (ListsFields(q.lists, rev) + StatementFields(q.statement)))
  }

  // ---------------------------------------------------------------------------
  // The sections

  lemma OriginLaid(o: Origin, rev: int, t: seq<byte>)
    requires rev >= 54420
    ensures Laid(OriginFields(o), rev, t) == OriginThen(o, rev, t)
  {
    LaidSix(OriginFields(o), rev, t);
  }

  lemma ProgramLaid(p: Program, rev: int, t: seq<byte>)
    requires rev >= 54420
    ensures Laid(ProgramFields(p), rev, t) == ProgramThen(p, t)
  {
    LaidSix(ProgramFields(p), rev, t);
  }

  lemma LimitsLaid(l: Limits, iface: byte, rev: int, t: seq<byte>)
    requires rev >= 54420
    ensures Laid(LimitsFields(l, iface), rev, t) == LimitsThen(l, rev, iface, t)
  {
    LaidFew(LimitsFields(l, iface), rev, t);
  }

  lemma SpanLaid(x: Tracing, rev: int, t: seq<byte>)
    requires WholeIds(x) && x.hasTrace && rev >= 54442
    ensures Laid(TracingFields(x), rev, t) == PutBool(true) + SpanThen(x.span, t)
  {
    SwapsWords(x.span.traceId);
    SwapsWords(x.span.spanId);
    SpanFieldsLaid(SwapWords(x.span.traceId), SwapWords(x.span.spanId), x.span.state, x.span.flags, rev, t);
  }

  lemma SpanFieldsLaid(traceId: seq<byte>, spanId: seq<byte>, state: seq<byte>, flags: byte, rev: int, t: seq<byte>)
    requires rev >= 54442
    ensures Laid(SpanFields(traceId, spanId, state, flags), rev, t)
            == PutBool(true) + (traceId + (spanId + (PutStr(state) + ([flags] + t))))
  {
    LaidFive(SpanFields(traceId, spanId, state, flags), rev, t);
  }

  lemma TracingLaid(x: Tracing, rev: int, t: seq<byte>)
    requires WholeIds(x)
    ensures Laid(TracingFields(x), rev, t) == TracingThen(x, rev, t)
  {
    if rev < 54442 {
      LaidNothing(TracingFields(x), 0, rev, t);
    } else if x.hasTrace {
      SpanLaid(x, rev, t);
    } else {
      LaidFew(TracingFields(x), rev, t);
    }
  }

  lemma ReplicasLaid(x: Replicas, rev: int, t: seq<byte>)
    ensures Laid(ReplicasFields(x), rev, t) == ReplicasThen(x, rev, t)
  {
    LaidFew(ReplicasFields(x), rev, t);
  }

  lemma JwtLaid(x: Script, rev: int, t: seq<byte>)
    ensures Laid(JwtFields(x.hasJwt, x.jwt), rev, t) == JwtThen(x, rev, t)
  {
    assert [] + t == t;
    LaidFew(JwtFields(x.hasJwt, x.jwt), rev, t);
  }

  lemma ScriptLaid(x: Script, rev: int, t: seq<byte>)
    ensures Laid(ScriptFields(x), rev, t) == ScriptThen(x, rev, t)
  {
    var fs := [Since(54475, VarInt(x.queryNumber)), Since(54475, VarInt(x.lineNumber))];
    LaidJoined(fs, JwtFields(x.hasJwt, x.jwt), rev, t);
    JwtLaid(x, rev, t);
    LaidFew(fs, rev, JwtThen(x, rev, t));
  }

  lemma InfoUnsent(i: ClientInfo, rev: int, t: seq<byte>)
    requires WholeIds(i.tracing) && rev < 54420
    ensures Laid(InfoFields(i), rev, t) == t
  {
    LaidSections(OriginFields(i.origin), ProgramFields(i.program), LimitsFields(i.limits, i.origin.iface),
                 TracingFields(i.tracing), ReplicasFields(i.replicas), ScriptFields(i.script), rev, t);
    LaidNothing(OriginFields(i.origin), 0, rev, t);
    LaidNothing(ProgramFields(i.program), 0, rev, t);
    LaidNothing(LimitsFields(i.limits, i.origin.iface), 0, rev, t);
    LaidNothing(TracingFields(i.tracing), 0, rev, t);
    LaidNothing(ReplicasFields(i.replicas), 0, rev, t);
    LaidNothing(ScriptFields(i.script), 0, rev, t);
  }

  lemma InfoSent(i: ClientInfo, rev: int, t: seq<byte>)
    requires WholeIds(i.tracing) && rev >= 54420
    ensures Laid(InfoFields(i), rev, t) == InfoThen(i, rev, t)
  {
    LaidSections(OriginFields(i.origin), ProgramFields(i.program), LimitsFields(i.limits, i.origin.iface),
                 TracingFields(i.tracing), ReplicasFields(i.replicas), ScriptFields(i.script), rev, t);
    var t5 := ScriptThen(i.script, rev, t);
    var t4 := ReplicasThen(i.replicas, rev, t5);
    var t3 := TracingThen(i.tracing, rev, t4);
    var t2 := LimitsThen(i.limits, rev, i.origin.iface, t3);
    ScriptLaid(i.script, rev, t);
    ReplicasLaid(i.replicas, rev, t5);
    TracingLaid(i.tracing, rev, t4);
    LimitsLaid(i.limits, i.origin.iface, rev, t3);
    ProgramLaid(i.program, rev, t2);
    OriginLaid(i.origin, rev, ProgramThen(i.program, t2));
  }

  lemma LaidSections(
    f0: seq<Field>, f1: seq<Field>, f2: seq<Field>, f3: seq<Field>, f4: seq<Field>, f5: seq<Field>,
    rev: int, t: seq<byte>)
    ensures Laid(f0 + (f1 + (f2 + (f3 + (f4 + f5)))), rev, t)
            == Laid(f0, rev, Laid(f1, rev, Laid(f2, rev, Laid(f3, rev, Laid(f4, rev, Laid(f5, rev, t))))))
  {
    LaidJoined(f4, f5, rev, t);
    LaidJoined(f3, f4 + f5, rev, t);
    LaidJoined(f2, f3 + (f4 + f5), rev, t);
    LaidJoined(f1, f2 + (f3 + (f4 + f5)), rev, t);
    LaidJoined(f0, f1 + (f2 + (f3 + (f4 + f5))), rev, t);
  }

  /** The client info writer writes the table. */
  lemma InfoLaid(i: ClientInfo, rev: int, t: seq<byte>)
    requires WholeIds(i.tracing)
    ensures Laid(InfoFields(i), rev, t) == InfoThen(i, rev, t)
  {
    if rev < 54420 { InfoUnsent(i, rev, t); } else { InfoSent(i, rev, t); }
  }

  lemma {:induction false} SettingsLaid(ss: seq<Setting>, since: int, rev: int, t: seq<byte>)
    requires rev >= since
    ensures Laid(SettingsFields(ss, since), rev, t) == SettingsThen(ss, t)
  {
    if ss == [] {
      LaidFew([Since(since, Text([]))], rev, t);
    } else {
      SettingsLaid(ss[1..], since, rev, t);
      LaidJoined(SettingFields(ss[0], since), SettingsFields(ss[1..], since), rev, t);
      LaidFew(SettingFields(ss[0], since), rev, SettingsThen(ss[1..], t));
    }
  }

  lemma {:induction false} OldSettingsLaid(ss: seq<OldSetting>, rev: int, t: seq<byte>)
    ensures Laid(OldSettingsFields(ss), rev, t) == OldSettingsThen(ss, t)
  {
    if ss == [] {
      LaidFew([Always(Text([]))], rev, t);
    } else {
      OldSettingsLaid(ss[1..], rev, t);
      LaidJoined(OldSettingFields(ss[0]), OldSettingsFields(ss[1..]), rev, t);
      LaidFew(OldSettingFields(ss[0]), rev, OldSettingsThen(ss[1..], t));
    }
  }

  lemma {:induction false} ParametersAreSettings(ps: seq<Parameter>)
    ensures ParametersFields(ps) == SettingsFields(AsSettings(ps), 54459)
  {
    if ps != [] {
      ParametersAreSettings(ps[1..]);
      assert AsSettings(ps)[1..] == AsSettings(ps[1..]);
    }
  }

  lemma {:induction false} SettingsSince(ss: seq<Setting>, since: int)
    ensures NoneBefore(SettingsFields(ss, since), since)
  {
    if ss != [] { SettingsSince(ss[1..], since); }
  }

  lemma ParametersLaid(ps: seq<Parameter>, rev: int, t: seq<byte>)
    ensures Laid(ParametersFields(ps), rev, t) == ParametersThen(ps, rev, t)
  {
    ParametersAreSettings(ps);
    SettingsSince(AsSettings(ps), 54459);
    if rev >= 54459 {
      SettingsLaid(AsSettings(ps), 54459, rev, t);
    } else {
      LaidNothing(ParametersFields(ps), 0, rev, t);
    }
  }

  lemma StatementLaid(s: Statement, rev: int, t: seq<byte>)
    ensures Laid(StatementFields(s), rev, t) == StatementThen(s, rev, t)
  {
    var fs := StatementFields(s)[..5];
    assert StatementFields(s) == fs + ParametersFields(s.parameters);
    LaidJoined(fs, ParametersFields(s.parameters), rev, t);
    ParametersLaid(s.parameters, rev, t);
    LaidFive(fs, rev, ParametersThen(s.parameters, rev, t));
  }

  lemma ListsLaid(l: Lists, rev: int, t: seq<byte>)
    ensures Laid(ListsFields(l, rev), rev, t) == ListsThen(l, rev, t)
  {
    if rev >= 54429 { SettingsLaid(l.settings, 54429, rev, t); } else { OldSettingsLaid(l.oldSettings, rev, t); }
  }

  /** The Query writer writes the table. */
  lemma QueryLaid(q: Query, rev: int, t: seq<byte>)
    requires WholeIds(q.info.tracing)
    ensures Laid(QueryFields(q, rev), rev, t) == QueryThen(q, rev, t)
  {
    var f0, f1, f2, f3 := [Always(Text(q.id))], InfoFields(q.info), ListsFields(q.lists, rev), StatementFields(q.statement);
    LaidJoined(f2, f3, rev, t);
    LaidJoined(f1, f2 + f3, rev, t);
    LaidJoined(f0, f1 + (f2 + f3), rev, t);
    var t3 := StatementThen(q.statement, rev, t);
    var t2 := ListsThen(q.lists, rev, t3);
    StatementLaid(q.statement, rev, t);
    ListsLaid(q.lists, rev, t3);
    InfoLaid(q.info, rev, t2);
    LaidFew(f0, rev, InfoThen(q.info, rev, t2));
  }

  /** Before 54420 nothing is read and every field has its zero value. */
  lemma InfoBefore(b: seq<byte>, rev: int, parse: TraceParser)
    requires rev < 54420
    ensures var r := InfoFrom(b, rev, parse);
            && r.Got? && r.rest == b
            && r.value.origin == Origin(0, [], [], [], 0, 0) && r.value.program == Program([], [], [], 0, 0, 0)
            && r.value.limits == Limits([], 0, 0) && !r.value.tracing.hasTrace
            && r.value.replicas == Replicas(false, 0, 0) && r.value.script == Script(0, 0, false, [])
  {
  }

  /** The bytes are the table of `i`, and then `t`. */
  predicate InfoBytes(b: seq<byte>, rev: int, parse: TraceParser, i: ClientInfo, t: seq<byte>) {
    InfoOk(i, rev, parse) && b == Laid(InfoFields(i), rev, t)
  }

  predicate QueryBytes(b: seq<byte>, rev: int, parse: TraceParser, q: Query, t: seq<byte>) {
    QueryOk(q, rev, parse) && b == Laid(QueryFields(q, rev), rev, t)
  }

  /** The client info reader reads the table back, whatever follows it. */
  lemma InfoFromTable(b: seq<byte>, rev: int, parse: TraceParser, i: ClientInfo, t: seq<byte>)
    requires InfoBytes(b, rev, parse, i, t)
    ensures InfoFrom(b, rev, parse) == Got(i, t)
  {
    InfoLaid(i, rev, t);
    InfoRoundTrip(i, rev, parse, t);
  }

  /** So does the Query reader. */
  lemma QueryFromTable(b: seq<byte>, rev: int, parse: TraceParser, q: Query, t: seq<byte>)
    requires QueryBytes(b, rev, parse, q, t)
    ensures QueryFrom(b, rev, parse) == Got(q, t)
  {
    QueryLaid(q, rev, t);
    QueryRoundTrip(q, rev, parse, t);
  }
}
