/** The Query packet body at a negotiated protocol revision. Every `...Then(x, t)` is the
    encoding of `x` followed by the bytes `t`; the function without the suffix reads it back.
 */
module QueryCodec {
  import opened Bytes
  import opened Options
  import opened Wire
  import opened Revisions

  const INTERFACE_TCP: byte := 1
  const CLIENT_CODE_QUERY: byte := 1

  /** The trace-state parser of the tracing library: it answers the canonical text of a valid
      state, which it maps to itself. */
  type TraceParser = seq<byte> -> Option<seq<byte>>

  ghost predicate Canonicalises(parse: TraceParser) {
    forall s {:trigger parse(s)} :: parse(s).Some? ==> ValidState(parse, parse(s).value)
  }

  predicate ValidState(parse: TraceParser, s: seq<byte>) {
    Short(s) && (s != [] ==> parse(s) == Some(s))
  }

  // ---------------------------------------------------------------------------
  // ClientInfo, in the order the wire carries it

  datatype Origin = Origin(
    queryKind: byte, initialUser: seq<byte>, initialQueryId: seq<byte>, initialAddress: seq<byte>,
    initialTime: i64, iface: byte)

  predicate OriginOk(o: Origin, rev: int) {
    && Short(o.initialUser) && Short(o.initialQueryId) && Short(o.initialAddress)
    && (rev < QUERY_START_TIME ==> o.initialTime == 0)
  }

  function OriginThen(o: Origin, rev: int, t: seq<byte>): (b: seq<byte>) {
    [o.queryKind] + (PutStr(o.initialUser) + (PutStr(o.initialQueryId) + (PutStr(o.initialAddress) +
    (PutInt64If(rev >= QUERY_START_TIME, o.initialTime) + ([o.iface] + t)))))
  }

  function OriginFrom(b: seq<byte>, rev: int): (r: Parsed<Origin>)
    ensures r.Got? ==> OriginOk(r.value, rev)
  {
    var (kind, b1) :- Byte(b);
    var (user, b2) :- Str(b1);
    var (queryId, b3) :- Str(b2);
    var (address, b4) :- Str(b3);
    var (time, b5) :- Int64If(rev >= QUERY_START_TIME, b4);
    var (iface, b6) :- Byte(b5);
    Got(Origin(kind, user, queryId, address, time, iface), b6)
  }

  lemma OriginRoundTrip(o: Origin, rev: int, t: seq<byte>)
    requires OriginOk(o, rev)
    ensures OriginFrom(OriginThen(o, rev, t), rev) == Got(o, t)
  {
    var t5 := [o.iface] + t;
    var t4 := PutInt64If(rev >= QUERY_START_TIME, o.initialTime) + t5;
    var t3 := PutStr(o.initialAddress) + t4;
    var t2 := PutStr(o.initialQueryId) + t3;
    var t1 := PutStr(o.initialUser) + t2;
    BytePut(o.queryKind, t1);
    StrPut(o.initialUser, t2);
    StrPut(o.initialQueryId, t3);
    StrPut(o.initialAddress, t4);
    Int64IfPut(rev >= QUERY_START_TIME, o.initialTime, t5);
    BytePut(o.iface, t);
  }

  datatype Program = Program(
    osUser: seq<byte>, hostname: seq<byte>, clientName: seq<byte>,
    major: i64, minor: i64, protocolVersion: i64)

  predicate ProgramOk(p: Program) { Short(p.osUser) && Short(p.hostname) && Short(p.clientName) }

  function ProgramThen(p: Program, t: seq<byte>): (b: seq<byte>) {
    PutStr(p.osUser) + (PutStr(p.hostname) + (PutStr(p.clientName) +
    (PutInt(p.major) + (PutInt(p.minor) + (PutInt(p.protocolVersion) + t)))))
  }

  function ProgramFrom(b: seq<byte>): (r: Parsed<Program>)
    ensures r.Got? ==> ProgramOk(r.value)
  {
    var (osUser, b1) :- Str(b);
    var (hostname, b2) :- Str(b1);
    var (clientName, b3) :- Str(b2);
    var (major, b4) :- Int(b3);
    var (minor, b5) :- Int(b4);
    var (version, b6) :- Int(b5);
    Got(Program(osUser, hostname, clientName, major, minor, version), b6)
  }

  lemma ProgramRoundTrip(p: Program, t: seq<byte>)
    requires ProgramOk(p)
    ensures ProgramFrom(ProgramThen(p, t)) == Got(p, t)
  {
    var t5 := PutInt(p.protocolVersion) + t;
    var t4 := PutInt(p.minor) + t5;
    var t3 := PutInt(p.major) + t4;
    var t2 := PutStr(p.clientName) + t3;
    var t1 := PutStr(p.hostname) + t2;
    StrPut(p.osUser, t1);
    StrPut(p.hostname, t2);
    StrPut(p.clientName, t3);
    IntPut(p.major, t4);
    IntPut(p.minor, t5);
    IntPut(p.protocolVersion, t);
  }

  datatype Limits = Limits(quotaKey: seq<byte>, distributedDepth: i64, patch: i64)

  /** The patch number travels only for the TCP interface. */
  predicate CarriesPatch(rev: int, iface: byte) { rev >= VERSION_PATCH && iface == INTERFACE_TCP }

  predicate LimitsOk(l: Limits, rev: int, iface: byte) {
    && Short(l.quotaKey) && (rev < QUOTA_KEY_IN_CLIENT_INFO ==> l.quotaKey == [])
    && (rev < DISTRIBUTED_DEPTH ==> l.distributedDepth == 0)
    && (!CarriesPatch(rev, iface) ==> l.patch == 0)
  }

  function LimitsThen(l: Limits, rev: int, iface: byte, t: seq<byte>): (b: seq<byte>) {
    PutStrIf(rev >= QUOTA_KEY_IN_CLIENT_INFO, l.quotaKey) +
    (PutIntIf(rev >= DISTRIBUTED_DEPTH, l.distributedDepth) + (PutIntIf(CarriesPatch(rev, iface), l.patch) + t))
  }

  function LimitsFrom(b: seq<byte>, rev: int, iface: byte): (r: Parsed<Limits>)
    ensures r.Got? ==> LimitsOk(r.value, rev, iface)
  {
    var (quota, b1) :- StrIf(rev >= QUOTA_KEY_IN_CLIENT_INFO, b);
    var (depth, b2) :- IntIf(rev >= DISTRIBUTED_DEPTH, b1);
    var (patch, b3) :- IntIf(CarriesPatch(rev, iface), b2);
    Got(Limits(quota, depth, patch), b3)
  }

  lemma LimitsRoundTrip(l: Limits, rev: int, iface: byte, t: seq<byte>)
    requires LimitsOk(l, rev, iface)
    ensures LimitsFrom(LimitsThen(l, rev, iface, t), rev, iface) == Got(l, t)
  {
    var t2 := PutIntIf(CarriesPatch(rev, iface), l.patch) + t;
    var t1 := PutIntIf(rev >= DISTRIBUTED_DEPTH, l.distributedDepth) + t2;
    StrIfPut(rev >= QUOTA_KEY_IN_CLIENT_INFO, l.quotaKey, t1);
    IntIfPut(rev >= DISTRIBUTED_DEPTH, l.distributedDepth, t2);
    IntIfPut(CarriesPatch(rev, iface), l.patch, t);
  }

  // Tracing: ids travel with every eight-byte word reversed.

  function Reverse(b: seq<byte>): (r: seq<byte>)
    ensures |r| == |b|
    ensures forall i :: 0 <= i < |b| ==> r[i] == b[|b| - 1 - i]
  {
    seq(|b|, i requires 0 <= i < |b| => b[|b| - 1 - i])
  }

  function SwapWords(b: seq<byte>): (r: seq<byte>)
    ensures |r| == |b|
  {
    if |b| < WORD then b else Reverse(b[..WORD]) + SwapWords(b[WORD..])
  }

  lemma {:induction false} SwapWordsTwice(b: seq<byte>)
    ensures SwapWords(SwapWords(b)) == b
  {
    if |b| >= WORD {
      var s := SwapWords(b);
      assert s[..WORD] == Reverse(b[..WORD]) && s[WORD..] == SwapWords(b[WORD..]);
      SwapWordsTwice(b[WORD..]);
      assert Reverse(Reverse(b[..WORD])) == b[..WORD];
      assert b == b[..WORD] + b[WORD..];
    }
  }

  datatype Span = Span(traceId: seq<byte>, spanId: seq<byte>, state: seq<byte>, flags: byte)

  function Zeros(n: nat): (z: seq<byte>)
    ensures |z| == n
  {
    seq(n, _ => 0)
  }

  const TRACE_ID_SIZE: nat := 16

  function NoSpan(): (s: Span) { Span(Zeros(TRACE_ID_SIZE), Zeros(WORD), [], 0) }

  predicate SpanOk(s: Span, parse: TraceParser) {
    |s.traceId| == TRACE_ID_SIZE && |s.spanId| == WORD && ValidState(parse, s.state)
  }

  function SpanThen(s: Span, t: seq<byte>): (b: seq<byte>) {
    SwapWords(s.traceId) + (SwapWords(s.spanId) + (PutStr(s.state) + ([s.flags] + t)))
  }

  function TraceState(text: seq<byte>, parse: TraceParser): (r: Option<seq<byte>>) {
    if text == [] then Some([]) else parse(text)
  }

  function SpanFrom(b: seq<byte>, parse: TraceParser): (r: Parsed<Span>)
  {
    var (traceId, b1) :- Raw(b, TRACE_ID_SIZE);
    var (spanId, b2) :- Raw(b1, WORD);
    var (text, b3) :- Str(b2);
    var state := TraceState(text, parse);
    if state.None? then Bad
    else
      var (flags, b4) :- Byte(b3);
      Got(Span(SwapWords(traceId), SwapWords(spanId), state.value, flags), b4)
  }

  lemma SpanRoundTrip(s: Span, parse: TraceParser, t: seq<byte>)
    requires SpanOk(s, parse)
    ensures SpanFrom(SpanThen(s, t), parse) == Got(s, t)
  {
    var t3 := [s.flags] + t;
    var t2 := PutStr(s.state) + t3;
    var t1 := SwapWords(s.spanId) + t2;
    RawPut(SwapWords(s.traceId), t1);
    RawPut(SwapWords(s.spanId), t2);
    StrPut(s.state, t3);
    BytePut(s.flags, t);
    SwapWordsTwice(s.traceId);
    SwapWordsTwice(s.spanId);
  }

  lemma SpanFromOk(b: seq<byte>, parse: TraceParser)
    requires Canonicalises(parse)
    ensures var r := SpanFrom(b, parse); r.Got? ==> SpanOk(r.value, parse)
  {
  }

  datatype Tracing = Tracing(hasTrace: bool, span: Span)

  predicate TracingOk(x: Tracing, rev: int, parse: TraceParser) {
    && (rev < OPEN_TELEMETRY ==> !x.hasTrace)
    && (if x.hasTrace then SpanOk(x.span, parse) else x.span == NoSpan())
  }

  function TracingThen(x: Tracing, rev: int, t: seq<byte>): (b: seq<byte>) {
    if rev < OPEN_TELEMETRY then t
    else PutBool(x.hasTrace) + if x.hasTrace then SpanThen(x.span, t) else t
  }

  function TracingFrom(b: seq<byte>, rev: int, parse: TraceParser): (r: Parsed<Tracing>) {
    if rev < OPEN_TELEMETRY then Got(Tracing(false, NoSpan()), b)
    else
      var (hasTrace, b1) :- Bool(b);
      if !hasTrace then Got(Tracing(false, NoSpan()), b1)
      else
        var (span, b2) :- SpanFrom(b1, parse);
        Got(Tracing(true, span), b2)
  }

  lemma TracingRoundTrip(x: Tracing, rev: int, parse: TraceParser, t: seq<byte>)
    requires TracingOk(x, rev, parse)
    ensures TracingFrom(TracingThen(x, rev, t), rev, parse) == Got(x, t)
  {
    if rev >= OPEN_TELEMETRY {
      BoolPut(x.hasTrace, if x.hasTrace then SpanThen(x.span, t) else t);
      if x.hasTrace { SpanRoundTrip(x.span, parse, t); }
    }
  }

  datatype Replicas = Replicas(collaborate: bool, count: i64, current: i64)

  predicate ReplicasOk(x: Replicas, rev: int) {
    rev < PARALLEL_REPLICAS ==> x == Replicas(false, 0, 0)
  }

  function ReplicasThen(x: Replicas, rev: int, t: seq<byte>): (b: seq<byte>) {
    if rev < PARALLEL_REPLICAS then t
    else PutInt(if x.collaborate then 1 else 0) + (PutInt(x.count) + (PutInt(x.current) + t))
  }

  function ReplicasFrom(b: seq<byte>, rev: int): (r: Parsed<Replicas>)
    ensures r.Got? ==> ReplicasOk(r.value, rev)
  {
    if rev < PARALLEL_REPLICAS then Got(Replicas(false, 0, 0), b)
    else
      var (collaborate, b1) :- Int(b);
      var (count, b2) :- Int(b1);
      var (current, b3) :- Int(b2);
      Got(Replicas(collaborate == 1, count, current), b3)
  }

  lemma ReplicasRoundTrip(x: Replicas, rev: int, t: seq<byte>)
    requires ReplicasOk(x, rev)
    ensures ReplicasFrom(ReplicasThen(x, rev, t), rev) == Got(x, t)
  {
    if rev >= PARALLEL_REPLICAS {
      var t2 := PutInt(x.current) + t;
      var t1 := PutInt(x.count) + t2;
      IntPut(if x.collaborate then 1 else 0, t1);
      IntPut(x.count, t2);
      IntPut(x.current, t);
    }
  }

  /** Script position and interserver credential. */
  datatype Script = Script(queryNumber: u64, lineNumber: u64, hasJwt: bool, jwt: seq<byte>)

  predicate ScriptOk(x: Script, rev: int) {
    && (rev < QUERY_AND_LINE_NUMBERS ==> x.queryNumber == 0 && x.lineNumber == 0)
    && (rev < INTERSERVER_JWT ==> !x.hasJwt)
    && Short(x.jwt) && (!x.hasJwt ==> x.jwt == [])
  }

  function JwtThen(x: Script, rev: int, t: seq<byte>): (b: seq<byte>) {
    if rev < INTERSERVER_JWT then t else PutBool(x.hasJwt) + (PutStrIf(x.hasJwt, x.jwt) + t)
  }

  function ScriptThen(x: Script, rev: int, t: seq<byte>): (b: seq<byte>) {
    PutUVarIntIf(rev >= QUERY_AND_LINE_NUMBERS, x.queryNumber) +
    (PutUVarIntIf(rev >= QUERY_AND_LINE_NUMBERS, x.lineNumber) + JwtThen(x, rev, t))
  }

  function JwtFrom(b: seq<byte>, rev: int): (r: Parsed<(bool, seq<byte>)>) {
    if rev < INTERSERVER_JWT then Got((false, []), b)
    else
      var (hasJwt, b1) :- Bool(b);
      var (jwt, b2) :- StrIf(hasJwt, b1);
      Got((hasJwt, jwt), b2)
  }

  function ScriptFrom(b: seq<byte>, rev: int): (r: Parsed<Script>)
    ensures r.Got? ==> ScriptOk(r.value, rev)
  {
    var (queryNumber, b1) :- UVarIntIf(rev >= QUERY_AND_LINE_NUMBERS, b);
    var (lineNumber, b2) :- UVarIntIf(rev >= QUERY_AND_LINE_NUMBERS, b1);
    var (jwt, b3) :- JwtFrom(b2, rev);
    Got(Script(queryNumber, lineNumber, jwt.0, jwt.1), b3)
  }

  lemma ScriptRoundTrip(x: Script, rev: int, t: seq<byte>)
    requires ScriptOk(x, rev)
    ensures ScriptFrom(ScriptThen(x, rev, t), rev) == Got(x, t)
  {
    if rev >= INTERSERVER_JWT {
      BoolPut(x.hasJwt, PutStrIf(x.hasJwt, x.jwt) + t);
      StrIfPut(x.hasJwt, x.jwt, t);
    }
    var on := rev >= QUERY_AND_LINE_NUMBERS;
    var t2 := JwtThen(x, rev, t);
    UVarIntIfPut(on, x.queryNumber, PutUVarIntIf(on, x.lineNumber) + t2);
    UVarIntIfPut(on, x.lineNumber, t2);
  }

  datatype ClientInfo = ClientInfo(
    origin: Origin, program: Program, limits: Limits, tracing: Tracing, replicas: Replicas, script: Script)

  function NoInfo(): (i: ClientInfo) {
    ClientInfo(Origin(0, [], [], [], 0, 0), Program([], [], [], 0, 0, 0), Limits([], 0, 0),
               Tracing(false, NoSpan()), Replicas(false, 0, 0), Script(0, 0, false, []))
  }

  predicate InfoOk(i: ClientInfo, rev: int, parse: TraceParser) {
    if rev < CLIENT_WRITE_INFO then i == NoInfo()
    else
      && OriginOk(i.origin, rev) && ProgramOk(i.program) && LimitsOk(i.limits, rev, i.origin.iface)
      && TracingOk(i.tracing, rev, parse) && ReplicasOk(i.replicas, rev) && ScriptOk(i.script, rev)
  }

  function InfoThen(i: ClientInfo, rev: int, t: seq<byte>): (b: seq<byte>) {
    if rev < CLIENT_WRITE_INFO then t
    else
      OriginThen(i.origin, rev, ProgramThen(i.program, LimitsThen(i.limits, rev, i.origin.iface,
      TracingThen(i.tracing, rev, ReplicasThen(i.replicas, rev, ScriptThen(i.script, rev, t))))))
  }

  function InfoFrom(b: seq<byte>, rev: int, parse: TraceParser): (r: Parsed<ClientInfo>) {
    if rev < CLIENT_WRITE_INFO then Got(NoInfo(), b)
    else
      var (origin, b1) :- OriginFrom(b, rev);
      var (program, b2) :- ProgramFrom(b1);
      var (limits, b3) :- LimitsFrom(b2, rev, origin.iface);
      var (tracing, b4) :- TracingFrom(b3, rev, parse);
      var (replicas, b5) :- ReplicasFrom(b4, rev);
      var (script, b6) :- ScriptFrom(b5, rev);
      Got(ClientInfo(origin, program, limits, tracing, replicas, script), b6)
  }

  lemma InfoRoundTrip(i: ClientInfo, rev: int, parse: TraceParser, t: seq<byte>)
    requires InfoOk(i, rev, parse)
    ensures InfoFrom(InfoThen(i, rev, t), rev, parse) == Got(i, t)
  {
    if rev >= CLIENT_WRITE_INFO {
      var t5 := ScriptThen(i.script, rev, t);
      var t4 := ReplicasThen(i.replicas, rev, t5);
      var t3 := TracingThen(i.tracing, rev, t4);
      var t2 := LimitsThen(i.limits, rev, i.origin.iface, t3);
      var t1 := ProgramThen(i.program, t2);
      OriginRoundTrip(i.origin, rev, t1);
      ProgramRoundTrip(i.program, t2);
      LimitsRoundTrip(i.limits, rev, i.origin.iface, t3);
      TracingRoundTrip(i.tracing, rev, parse, t4);
      ReplicasRoundTrip(i.replicas, rev, t5);
      ScriptRoundTrip(i.script, rev, t);
    }
  }

  // ---------------------------------------------------------------------------
  // Terminated lists

  datatype Setting = Setting(key: seq<byte>, value: seq<byte>, flags: SettingFlags)

  predicate SettingOk(s: Setting) { s.key != [] && Short(s.key) && Short(s.value) }

  predicate AllSettingsOk(ss: seq<Setting>) { forall i :: 0 <= i < |ss| ==> SettingOk(ss[i]) }

  datatype SettingFlags = SettingFlags(important: bool, custom: bool, obsolete: bool)

  function FlagBits(f: SettingFlags): (bits: byte) {
    (if f.important then 1 else 0) + (if f.custom then 2 else 0) + (if f.obsolete then 4 else 0)
  }

  function PutFlags(f: SettingFlags): (b: seq<byte>) { PutUVarInt(FlagBits(f)) }

  function FlagsFrom(b: seq<byte>): (r: Parsed<SettingFlags>)
    ensures r.Got? ==> |r.rest| < |b|
  {
    var (f, rest) :- UVarInt(b);
    Got(SettingFlags(f % 2 == 1, (f / 2) % 2 == 1, (f / 4) % 2 == 1), rest)
  }

  lemma FlagsPut(f: SettingFlags, t: seq<byte>)
    ensures FlagsFrom(PutFlags(f) + t) == Got(f, t)
  {
    UVarIntPut(FlagBits(f), t);
  }

  function SettingThen(s: Setting, t: seq<byte>): (b: seq<byte>) {
    PutStr(s.key) + (PutFlags(s.flags) + (PutStr(s.value) + t))
  }

  function SettingsThen(ss: seq<Setting>, t: seq<byte>): (b: seq<byte>) {
    if ss == [] then EndThen(t) else SettingThen(ss[0], SettingsThen(ss[1..], t))
  }

  /** The empty key that ends a list. */
  function EndThen(t: seq<byte>): (b: seq<byte>) { PutStr([]) + t }

  lemma EndRoundTrip(t: seq<byte>)
    ensures Str(EndThen(t)) == Got([], t)
  {
    StrPut([], t);
  }

  /** One setting, or None for the empty key that ends the list. */
  function SettingFrom(b: seq<byte>): (r: Parsed<Option<Setting>>)
    ensures r.Got? ==> |r.rest| < |b| && (r.value.Some? ==> SettingOk(r.value.value))
  {
    var (key, b1) :- Str(b);
    if key == [] then Got(None, b1)
    else
      var (flags, b2) :- FlagsFrom(b1);
      var (value, b3) :- Str(b2);
      Got(Some(Setting(key, value, flags)), b3)
  }

  function SettingsFrom(b: seq<byte>): (r: Parsed<seq<Setting>>)
    ensures r.Got? ==> AllSettingsOk(r.value)
    decreases |b|
  {
    var (head, b1) :- SettingFrom(b);
    if head.None? then Got([], b1)
    else
      var (tail, b2) :- SettingsFrom(b1);
      Got([head.value] + tail, b2)
  }

  lemma SettingRoundTrip(s: Setting, t: seq<byte>)
    requires SettingOk(s)
    ensures SettingFrom(SettingThen(s, t)) == Got(Some(s), t)
  {
    var t2 := PutStr(s.value) + t;
    StrPut(s.key, PutFlags(s.flags) + t2);
    FlagsPut(s.flags, t2);
    StrPut(s.value, t);
  }

  /** The reader takes one setting off the list, or its end. */
  lemma SettingsUnfold(b: seq<byte>)
    ensures var s := SettingFrom(b);
            s.Got? ==> SettingsFrom(b) == (if s.value.None? then Got([], s.rest) else SettingsAfter(s.value.value, s.rest))
  {
  }

  function SettingsAfter(s: Setting, b: seq<byte>): (r: Parsed<seq<Setting>>) {
    var (tail, rest) :- SettingsFrom(b);
    Got([s] + tail, rest)
  }

  lemma {:induction false} SettingsRoundTrip(ss: seq<Setting>, t: seq<byte>)
    requires AllSettingsOk(ss)
    ensures SettingsFrom(SettingsThen(ss, t)) == Got(ss, t)
  {
    SettingsUnfold(SettingsThen(ss, t));
    if ss == [] {
      EndRoundTrip(t);
    } else {
      SettingsRoundTrip(ss[1..], t);
      SettingRoundTrip(ss[0], SettingsThen(ss[1..], t));
      assert [ss[0]] + ss[1..] == ss;
    }
  }

  datatype OldSetting = OldSetting(key: seq<byte>, value: u64)

  predicate OldSettingOk(s: OldSetting) { s.key != [] && Short(s.key) }

  predicate AllOldSettingsOk(ss: seq<OldSetting>) { forall i :: 0 <= i < |ss| ==> OldSettingOk(ss[i]) }

  function OldSettingThen(s: OldSetting, t: seq<byte>): (b: seq<byte>) {
    PutStr(s.key) + (PutUInt64(s.value) + t)
  }

  function OldSettingsThen(ss: seq<OldSetting>, t: seq<byte>): (b: seq<byte>) {
    if ss == [] then EndThen(t) else OldSettingThen(ss[0], OldSettingsThen(ss[1..], t))
  }

  function OldSettingFrom(b: seq<byte>): (r: Parsed<Option<OldSetting>>)
    ensures r.Got? ==> |r.rest| < |b| && (r.value.Some? ==> OldSettingOk(r.value.value))
  {
    var (key, b1) :- Str(b);
    if key == [] then Got(None, b1)
    else
      var (value, b2) :- UInt64(b1);
      Got(Some(OldSetting(key, value)), b2)
  }

  function OldSettingsFrom(b: seq<byte>): (r: Parsed<seq<OldSetting>>)
    ensures r.Got? ==> AllOldSettingsOk(r.value)
    decreases |b|
  {
    var (head, b1) :- OldSettingFrom(b);
    if head.None? then Got([], b1)
    else
      var (tail, b2) :- OldSettingsFrom(b1);
      Got([head.value] + tail, b2)
  }

  lemma OldSettingRoundTrip(s: OldSetting, t: seq<byte>)
    requires OldSettingOk(s)
    ensures OldSettingFrom(OldSettingThen(s, t)) == Got(Some(s), t)
  {
    StrPut(s.key, PutUInt64(s.value) + t);
    UInt64Put(s.value, t);
  }

  /** The reader takes one setting off the list, or its end. */
  lemma OldSettingsUnfold(b: seq<byte>)
    ensures var s := OldSettingFrom(b);
            s.Got? ==> OldSettingsFrom(b) == (if s.value.None? then Got([], s.rest) else OldSettingsAfter(s.value.value, s.rest))
  {
  }

  function OldSettingsAfter(s: OldSetting, b: seq<byte>): (r: Parsed<seq<OldSetting>>) {
    var (tail, rest) :- OldSettingsFrom(b);
    Got([s] + tail, rest)
  }

  lemma {:induction false} OldSettingsRoundTrip(ss: seq<OldSetting>, t: seq<byte>)
    requires AllOldSettingsOk(ss)
    ensures OldSettingsFrom(OldSettingsThen(ss, t)) == Got(ss, t)
  {
    OldSettingsUnfold(OldSettingsThen(ss, t));
    if ss == [] {
      EndRoundTrip(t);
    } else {
      OldSettingsRoundTrip(ss[1..], t);
      OldSettingRoundTrip(ss[0], OldSettingsThen(ss[1..], t));
      assert [ss[0]] + ss[1..] == ss;
    }
  }

  /** A query parameter travels as a custom setting. */
  datatype Parameter = Parameter(key: seq<byte>, value: seq<byte>)

  function AsSetting(p: Parameter): (s: Setting) { Setting(p.key, p.value, SettingFlags(false, true, false)) }

  function AsSettings(ps: seq<Parameter>): (ss: seq<Setting>)
    ensures |ss| == |ps|
    ensures forall i :: 0 <= i < |ps| ==> ss[i] == AsSetting(ps[i])
  {
    seq(|ps|, i requires 0 <= i < |ps| => AsSetting(ps[i]))
  }

  function AsParameters(ss: seq<Setting>): (ps: seq<Parameter>)
    ensures |ps| == |ss|
    ensures forall i :: 0 <= i < |ss| ==> ps[i] == Parameter(ss[i].key, ss[i].value)
  {
    seq(|ss|, i requires 0 <= i < |ss| => Parameter(ss[i].key, ss[i].value))
  }

  function ParametersThen(ps: seq<Parameter>, rev: int, t: seq<byte>): (b: seq<byte>) {
    if rev >= PARAMETERS then SettingsThen(AsSettings(ps), t) else t
  }

  function ParametersFrom(b: seq<byte>, rev: int): (r: Parsed<seq<Parameter>>)
    ensures r.Got? ==> ParametersOk(r.value, rev)
  {
    if rev < PARAMETERS then Got([], b)
    else
      var (ss, rest) :- SettingsFrom(b);
      Got(AsParameters(ss), rest)
  }

  predicate ParametersOk(ps: seq<Parameter>, rev: int) {
    && (forall i :: 0 <= i < |ps| ==> ps[i].key != [] && Short(ps[i].key) && Short(ps[i].value))
    && (rev < PARAMETERS ==> ps == [])
  }

  lemma ParametersRoundTrip(ps: seq<Parameter>, rev: int, t: seq<byte>)
    requires ParametersOk(ps, rev)
    ensures ParametersFrom(ParametersThen(ps, rev, t), rev) == Got(ps, t)
  {
    if rev >= PARAMETERS {
      SettingsRoundTrip(AsSettings(ps), t);
      assert AsParameters(AsSettings(ps)) == ps;
    }
  }

  // ---------------------------------------------------------------------------
  // The Query

  /** What follows the settings: roles, secret, stage, compression, text and parameters. */
  datatype Statement = Statement(
    externalRoles: seq<byte>, secret: seq<byte>, stage: byte, compression: byte, body: seq<byte>,
    parameters: seq<Parameter>)

  predicate StatementOk(s: Statement, rev: int) {
    && Short(s.externalRoles) && (rev < EXTERNALLY_GRANTED_ROLES ==> s.externalRoles == [])
    && Short(s.secret) && (rev < INTER_SERVER_SECRET ==> s.secret == [])
    && Short(s.body) && ParametersOk(s.parameters, rev)
  }

  function StatementThen(s: Statement, rev: int, t: seq<byte>): (b: seq<byte>) {
    PutStrIf(rev >= EXTERNALLY_GRANTED_ROLES, s.externalRoles) + (PutStrIf(rev >= INTER_SERVER_SECRET, s.secret) +
    (PutSmall(s.stage) + (PutSmall(s.compression) + (PutStr(s.body) + ParametersThen(s.parameters, rev, t)))))
  }

  function StatementFrom(b: seq<byte>, rev: int): (r: Parsed<Statement>)
    ensures r.Got? ==> StatementOk(r.value, rev)
  {
    var (roles, b1) :- StrIf(rev >= EXTERNALLY_GRANTED_ROLES, b);
    var (secret, b2) :- StrIf(rev >= INTER_SERVER_SECRET, b1);
    var (stage, b3) :- Small(b2);
    var (compression, b4) :- Small(b3);
    var (body, b5) :- Str(b4);
    var (parameters, b6) :- ParametersFrom(b5, rev);
    Got(Statement(roles, secret, stage, compression, body, parameters), b6)
  }

  lemma StatementRoundTrip(s: Statement, rev: int, t: seq<byte>)
    requires StatementOk(s, rev)
    ensures StatementFrom(StatementThen(s, rev, t), rev) == Got(s, t)
  {
    var t5 := ParametersThen(s.parameters, rev, t);
    var t4 := PutStr(s.body) + t5;
    var t3 := PutSmall(s.compression) + t4;
    var t2 := PutSmall(s.stage) + t3;
    var t1 := PutStrIf(rev >= INTER_SERVER_SECRET, s.secret) + t2;
    StrIfPut(rev >= EXTERNALLY_GRANTED_ROLES, s.externalRoles, t1);
    StrIfPut(rev >= INTER_SERVER_SECRET, s.secret, t2);
    SmallPut(s.stage, t3);
    SmallPut(s.compression, t4);
    StrPut(s.body, t5);
    ParametersRoundTrip(s.parameters, rev, t);
  }

  /** The settings, in the format the revision selects. */
  datatype Lists = Lists(settings: seq<Setting>, oldSettings: seq<OldSetting>)

  predicate ListsOk(l: Lists, rev: int) {
    && AllSettingsOk(l.settings) && AllOldSettingsOk(l.oldSettings)
    && (if rev >= SETTINGS_AS_STRINGS then l.oldSettings == [] else l.settings == [])
  }

  function ListsThen(l: Lists, rev: int, t: seq<byte>): (b: seq<byte>) {
    if rev >= SETTINGS_AS_STRINGS then SettingsThen(l.settings, t) else OldSettingsThen(l.oldSettings, t)
  }

  function ListsFrom(b: seq<byte>, rev: int): (r: Parsed<Lists>)
    ensures r.Got? ==> ListsOk(r.value, rev)
  {
    if rev >= SETTINGS_AS_STRINGS then
      var (ss, rest) :- SettingsFrom(b);
      Got(Lists(ss, []), rest)
    else
      var (ss, rest) :- OldSettingsFrom(b);
      Got(Lists([], ss), rest)
  }

  lemma ListsRoundTrip(l: Lists, rev: int, t: seq<byte>)
    requires ListsOk(l, rev)
    ensures ListsFrom(ListsThen(l, rev, t), rev) == Got(l, t)
  {
    if rev >= SETTINGS_AS_STRINGS {
      SettingsRoundTrip(l.settings, t);
    } else {
      OldSettingsRoundTrip(l.oldSettings, t);
    }
  }

  datatype Query = Query(id: seq<byte>, info: ClientInfo, lists: Lists, statement: Statement)

  /** Gated-off fields are default and keys are not empty. */
  predicate QueryOk(q: Query, rev: int, parse: TraceParser) {
    Short(q.id) && InfoOk(q.info, rev, parse) && ListsOk(q.lists, rev) && StatementOk(q.statement, rev)
  }

  function QueryThen(q: Query, rev: int, t: seq<byte>): (b: seq<byte>) {
    PutStr(q.id) + InfoThen(q.info, rev, ListsThen(q.lists, rev, StatementThen(q.statement, rev, t)))
  }

  function QueryFrom(b: seq<byte>, rev: int, parse: TraceParser): (r: Parsed<Query>) {
    var (id, b1) :- Str(b);
    var (info, b2) :- InfoFrom(b1, rev, parse);
    var (lists, b3) :- ListsFrom(b2, rev);
    var (statement, b4) :- StatementFrom(b3, rev);
    Got(Query(id, info, lists, statement), b4)
  }

  /** Decoding an encoded Query followed by any bytes gives the Query back and leaves exactly
      those bytes, at every revision. */
  lemma QueryRoundTrip(q: Query, rev: int, parse: TraceParser, t: seq<byte>)
    requires QueryOk(q, rev, parse)
    ensures QueryFrom(QueryThen(q, rev, t), rev, parse) == Got(q, t)
  {
    var t3 := StatementThen(q.statement, rev, t);
    var t2 := ListsThen(q.lists, rev, t3);
    var t1 := InfoThen(q.info, rev, t2);
    StrPut(q.id, t1);
    InfoRoundTrip(q.info, rev, parse, t2);
    ListsRoundTrip(q.lists, rev, t3);
    StatementRoundTrip(q.statement, rev, t);
  }

  lemma TracingFromOk(b: seq<byte>, rev: int, parse: TraceParser)
    requires Canonicalises(parse)
    ensures var r := TracingFrom(b, rev, parse); r.Got? ==> TracingOk(r.value, rev, parse)
  {
    if b != [] { SpanFromOk(b[1..], parse); }
  }

  lemma InfoFromOk(b: seq<byte>, rev: int, parse: TraceParser)
    requires Canonicalises(parse)
    ensures var r := InfoFrom(b, rev, parse); r.Got? ==> InfoOk(r.value, rev, parse)
  {
    if rev >= CLIENT_WRITE_INFO {
      var r1 := OriginFrom(b, rev);
      if r1.Got? {
        var r2 := ProgramFrom(r1.rest);
        if r2.Got? {
          var r3 := LimitsFrom(r2.rest, rev, r1.value.iface);
          if r3.Got? { TracingFromOk(r3.rest, rev, parse); }
        }
      }
    }
  }

  /** Everything the decoder accepts it can also re-encode without loss: decoding, encoding
      and decoding again is decoding once. */
  lemma DecodedQueriesReencode(b: seq<byte>, rev: int, parse: TraceParser, t: seq<byte>)
    requires Canonicalises(parse)
    ensures var r := QueryFrom(b, rev, parse);
            r.Got? ==> QueryFrom(QueryThen(r.value, rev, t), rev, parse) == Got(r.value, t)
  {
    var r := QueryFrom(b, rev, parse);
    if r.Got? {
      InfoFromOk(Str(b).rest, rev, parse);
      QueryRoundTrip(r.value, rev, parse, t);
    }
  }

  /** A stage on the wire survives decoding exactly when it fits one byte, although the
      packet layout allows any varint. */
  lemma StageSurvivesIffOneByte(v: u64, t: seq<byte>)
    ensures Small(PutUVarInt(v) + t).Got? && Small(PutUVarInt(v) + t).rest == t
    ensures Small(PutUVarInt(v) + t).value == v <==> v < 256
  {
    UVarIntPut(v, t);
  }
}
