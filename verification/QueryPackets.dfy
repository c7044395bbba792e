/** DecodeQuery and EncodeQuery as the codec runs them: a reader that consumes a stream field
    by field and a buffer that grows, proved to follow `QueryCodec`.
 */
module QueryPackets {
  import opened Bytes
  import opened Options
  import opened Wire
  import opened WireReader
  import opened Layout
  import opened QueryCodec
  import opened QueryLayout
  import opened Revisions

  method DecodeOrigin(input: Reader, rev: int) returns (r: Option<Origin>)
    modifies input
    ensures Follows(OriginFrom(old(input.rest), rev), r, input.rest)
  {
    var kind := input.ReadByte();
    if kind.None? { return None; }
    var user := input.ReadStr();
    if user.None? { return None; }
    var queryId := input.ReadStr();
    if queryId.None? { return None; }
    var address := input.ReadStr();
    if address.None? { return None; }
    var time := input.ReadInt64If(rev >= QUERY_START_TIME);
    if time.None? { return None; }
    var iface := input.ReadByte();
    if iface.None? { return None; }
    r := Some(Origin(kind.value, user.value, queryId.value, address.value, time.value, iface.value));
  }

  method DecodeProgram(input: Reader) returns (r: Option<Program>)
    modifies input
    ensures Follows(ProgramFrom(old(input.rest)), r, input.rest)
  {
    var osUser := input.ReadStr();
    if osUser.None? { return None; }
    var hostname := input.ReadStr();
    if hostname.None? { return None; }
    var clientName := input.ReadStr();
    if clientName.None? { return None; }
    var major := input.ReadInt();
    if major.None? { return None; }
    var minor := input.ReadInt();
    if minor.None? { return None; }
    var version := input.ReadInt();
    if version.None? { return None; }
    r := Some(Program(osUser.value, hostname.value, clientName.value, major.value, minor.value, version.value));
  }

  method DecodeLimits(input: Reader, rev: int, iface: byte) returns (r: Option<Limits>)
    modifies input
    ensures Follows(LimitsFrom(old(input.rest), rev, iface), r, input.rest)
  {
    var quota := input.ReadStrIf(rev >= QUOTA_KEY_IN_CLIENT_INFO);
    if quota.None? { return None; }
    var depth := input.ReadIntIf(rev >= DISTRIBUTED_DEPTH);
    if depth.None? { return None; }
    var patch := input.ReadIntIf(CarriesPatch(rev, iface));
    if patch.None? { return None; }
    r := Some(Limits(quota.value, depth.value, patch.value));
  }

  method DecodeSpan(input: Reader, parse: TraceParser) returns (r: Option<Span>)
    modifies input
    ensures Follows(SpanFrom(old(input.rest), parse), r, input.rest)
    ensures r.Some? ==> |old(input.rest)| >= 24
    ensures r.Some? ==> r.value.traceId == WordsReversed(old(input.rest)[..16])
    ensures r.Some? ==> r.value.spanId == WordsReversed(old(input.rest)[16..24])
  {
    if SpanFrom(input.rest, parse).Got? { IdsFrom(input.rest, parse); }
    var traceId := input.ReadRaw(TRACE_ID_SIZE);
    if traceId.None? { return None; }
    var spanId := input.ReadRaw(WORD);
    if spanId.None? { return None; }
    var text := input.ReadStr();
    if text.None? { return None; }
    var state := TraceState(text.value, parse);
    if state.None? { return None; }
    var flags := input.ReadByte();
    if flags.None? { return None; }
    r := Some(Span(SwapWords(traceId.value), SwapWords(spanId.value), state.value, flags.value));
  }

  method DecodeTracing(input: Reader, rev: int, parse: TraceParser) returns (r: Option<Tracing>)
    modifies input
    ensures Follows(TracingFrom(old(input.rest), rev, parse), r, input.rest)
  {
    if rev < OPEN_TELEMETRY { return Some(Tracing(false, NoSpan())); }
    var hasTrace := input.ReadBool();
    if hasTrace.None? { return None; }
    if !hasTrace.value { return Some(Tracing(false, NoSpan())); }
    var span := DecodeSpan(input, parse);
    if span.None? { return None; }
    r := Some(Tracing(true, span.value));
  }

  method DecodeReplicas(input: Reader, rev: int) returns (r: Option<Replicas>)
    modifies input
    ensures Follows(ReplicasFrom(old(input.rest), rev), r, input.rest)
  {
    if rev < PARALLEL_REPLICAS { return Some(Replicas(false, 0, 0)); }
    var collaborate := input.ReadInt();
    if collaborate.None? { return None; }
    var count := input.ReadInt();
    if count.None? { return None; }
    var current := input.ReadInt();
    if current.None? { return None; }
    r := Some(Replicas(collaborate.value == 1, count.value, current.value));
  }

  method DecodeScript(input: Reader, rev: int) returns (r: Option<Script>)
    modifies input
    ensures Follows(ScriptFrom(old(input.rest), rev), r, input.rest)
  {
    var queryNumber := input.ReadUVarIntIf(rev >= QUERY_AND_LINE_NUMBERS);
    if queryNumber.None? { return None; }
    var lineNumber := input.ReadUVarIntIf(rev >= QUERY_AND_LINE_NUMBERS);
    if lineNumber.None? { return None; }
    if rev < INTERSERVER_JWT { return Some(Script(queryNumber.value, lineNumber.value, false, [])); }
    var hasJwt := input.ReadBool();
    if hasJwt.None? { return None; }
    var jwt := input.ReadStrIf(hasJwt.value);
    if jwt.None? { return None; }
    r := Some(Script(queryNumber.value, lineNumber.value, hasJwt.value, jwt.value));
  }

  method DecodeClientInfo(input: Reader, rev: int, parse: TraceParser) returns (r: Option<ClientInfo>)
    modifies input
    ensures Follows(InfoFrom(old(input.rest), rev, parse), r, input.rest)
    ensures forall i, t :: InfoBytes(old(input.rest), rev, parse, i, t) ==> r == Some(i) && input.rest == t
  {
    forall i, t | InfoBytes(input.rest, rev, parse, i, t) ensures InfoFrom(input.rest, rev, parse) == Got(i, t) {
      InfoFromTable(input.rest, rev, parse, i, t);
    }
    if rev < CLIENT_WRITE_INFO { return Some(NoInfo()); }
    var origin := DecodeOrigin(input, rev);
    if origin.None? { return None; }
    var program := DecodeProgram(input);
    if program.None? { return None; }
    var limits := DecodeLimits(input, rev, origin.value.iface);
    if limits.None? { return None; }
    var tracing := DecodeTracing(input, rev, parse);
    if tracing.None? { return None; }
    var replicas := DecodeReplicas(input, rev);
    if replicas.None? { return None; }
    var script := DecodeScript(input, rev);
    if script.None? { return None; }
    r := Some(ClientInfo(origin.value, program.value, limits.value, tracing.value, replicas.value, script.value));
  }

  method ReadFlags(input: Reader) returns (r: Option<SettingFlags>)
    modifies input
    ensures Follows(FlagsFrom(old(input.rest)), r, input.rest)
  {
    var p := FlagsFrom(input.rest);
    if p.Bad? { return None; }
    input.rest := p.rest;
    r := Some(p.value);
  }

  method DecodeSetting(input: Reader) returns (r: Option<Option<Setting>>)
    modifies input
    ensures Follows(SettingFrom(old(input.rest)), r, input.rest)
  {
    var key := input.ReadStr();
    if key.None? { return None; }
    if key.value == [] { return Some(None); }
    var flags := ReadFlags(input);
    if flags.None? { return None; }
    var value := input.ReadStr();
    if value.None? { return None; }
    r := Some(Some(Setting(key.value, value.value, flags.value)));
  }

  /** Settings until the empty key. */
  method DecodeSettings(input: Reader) returns (r: Option<seq<Setting>>)
    modifies input
    ensures Follows(SettingsFrom(old(input.rest)), r, input.rest)
  {
    var ss: seq<Setting> := [];
    ghost var before := input.rest;
    PrependNothing(SettingsFrom(input.rest));
    while true
      invariant before == input.rest
      invariant SettingsFrom(old(input.rest)) == Prepend(ss, SettingsFrom(input.rest))
      decreases |input.rest|
    {
      var s := DecodeSetting(input);
      SettingsStep(ss, before);
      if s.None? { return None; }
      if s.value.None? { return Some(ss); }
      ss := ss + [s.value.value];
      before := input.rest;
    }
  }

  method DecodeOldSetting(input: Reader) returns (r: Option<Option<OldSetting>>)
    modifies input
    ensures Follows(OldSettingFrom(old(input.rest)), r, input.rest)
  {
    var key := input.ReadStr();
    if key.None? { return None; }
    if key.value == [] { return Some(None); }
    var value := input.ReadUInt64();
    if value.None? { return None; }
    r := Some(Some(OldSetting(key.value, value.value)));
  }

  method DecodeOldSettings(input: Reader) returns (r: Option<seq<OldSetting>>)
    modifies input
    ensures Follows(OldSettingsFrom(old(input.rest)), r, input.rest)
  {
    var ss: seq<OldSetting> := [];
    ghost var before := input.rest;
    PrependNothing(OldSettingsFrom(input.rest));
    while true
      invariant before == input.rest
      invariant OldSettingsFrom(old(input.rest)) == Prepend(ss, OldSettingsFrom(input.rest))
      decreases |input.rest|
    {
      var s := DecodeOldSetting(input);
      OldSettingsStep(ss, before);
      if s.None? { return None; }
      if s.value.None? { return Some(ss); }
      ss := ss + [s.value.value];
      before := input.rest;
    }
  }

  method DecodeParameters(input: Reader, rev: int) returns (r: Option<seq<Parameter>>)
    modifies input
    ensures Follows(ParametersFrom(old(input.rest), rev), r, input.rest)
  {
    if rev < PARAMETERS { return Some([]); }
    var ss := DecodeSettings(input);
    if ss.None? { return None; }
    r := Some(AsParameters(ss.value));
  }

  method DecodeLists(input: Reader, rev: int) returns (r: Option<Lists>)
    modifies input
    ensures Follows(ListsFrom(old(input.rest), rev), r, input.rest)
  {
    if rev >= SETTINGS_AS_STRINGS {
      var ss := DecodeSettings(input);
      if ss.None? { return None; }
      r := Some(Lists(ss.value, []));
    } else {
      var ss := DecodeOldSettings(input);
      if ss.None? { return None; }
      r := Some(Lists([], ss.value));
    }
  }

  method DecodeStatement(input: Reader, rev: int) returns (r: Option<Statement>)
    modifies input
    ensures Follows(StatementFrom(old(input.rest), rev), r, input.rest)
  {
    var roles := input.ReadStrIf(rev >= EXTERNALLY_GRANTED_ROLES);
    if roles.None? { return None; }
    var secret := input.ReadStrIf(rev >= INTER_SERVER_SECRET);
    if secret.None? { return None; }
    var stage := input.ReadSmall();
    if stage.None? { return None; }
    var compression := input.ReadSmall();
    if compression.None? { return None; }
    var body := input.ReadStr();
    if body.None? { return None; }
    var parameters := DecodeParameters(input, rev);
    if parameters.None? { return None; }
    r := Some(Statement(roles.value, secret.value, stage.value, compression.value, body.value, parameters.value));
  }

  method DecodeQuery(input: Reader, rev: int, parse: TraceParser) returns (r: Option<Query>)
    modifies input
    ensures Follows(QueryFrom(old(input.rest), rev, parse), r, input.rest)
    ensures forall q, t :: QueryBytes(old(input.rest), rev, parse, q, t) ==> r == Some(q) && input.rest == t
  {
    forall q, t | QueryBytes(input.rest, rev, parse, q, t) ensures QueryFrom(input.rest, rev, parse) == Got(q, t) {
      QueryFromTable(input.rest, rev, parse, q, t);
    }
    var id := input.ReadStr();
    if id.None? { return None; }
    var info := DecodeClientInfo(input, rev, parse);
    if info.None? { return None; }
    var lists := DecodeLists(input, rev);
    if lists.None? { return None; }
    var statement := DecodeStatement(input, rev);
    if statement.None? { return None; }
    r := Some(Query(id.value, info.value, lists.value, statement.value));
  }

  lemma SettingsStep(ss: seq<Setting>, b: seq<byte>)
    ensures var all, s := Prepend(ss, SettingsFrom(b)), SettingFrom(b);
            if s.Bad? then all.Bad?
            else if s.value.None? then all == Got(ss, s.rest)
            else all == Prepend(ss + [s.value.value], SettingsFrom(s.rest))
  {
    var s := SettingFrom(b);
    if s.Got? && s.value.None? {
      PrependEnd(ss, s.rest);
    } else if s.Got? {
      PrependOne(ss, s.value.value, SettingsFrom(s.rest));
    }
  }

  lemma OldSettingsStep(ss: seq<OldSetting>, b: seq<byte>)
    ensures var all, s := Prepend(ss, OldSettingsFrom(b)), OldSettingFrom(b);
            if s.Bad? then all.Bad?
            else if s.value.None? then all == Got(ss, s.rest)
            else all == Prepend(ss + [s.value.value], OldSettingsFrom(s.rest))
  {
    var s := OldSettingFrom(b);
    if s.Got? && s.value.None? {
      PrependEnd(ss, s.rest);
    } else if s.Got? {
      PrependOne(ss, s.value.value, OldSettingsFrom(s.rest));
    }
  }

  // ---------------------------------------------------------------------------

  /** The output buffer. Each method is told, as a ghost, the bytes `t` that will follow, and
      promises that the buffer and `t` together are the old buffer and the encoding. */
  class Buffer {
    var buf: seq<byte>

    constructor ()
      ensures buf == []
    {
      buf := [];
    }

    method Append(b: seq<byte>, ghost t: seq<byte>)
      modifies this
      ensures buf + t == old(buf) + (b + t)
      ensures buf == old(buf) + b
    {
      buf := buf + b;
      Assoc3(old(buf), b, t);
    }

    method EncodeOrigin(o: Origin, rev: int, ghost t: seq<byte>)
      modifies this
      ensures buf + t == old(buf) + OriginThen(o, rev, t)
    {
      ghost var t5 := [o.iface] + t;
      ghost var t4 := PutInt64If(rev >= QUERY_START_TIME, o.initialTime) + t5;
      ghost var t3 := PutStr(o.initialAddress) + t4;
      ghost var t2 := PutStr(o.initialQueryId) + t3;
      ghost var t1 := PutStr(o.initialUser) + t2;
      Append([o.queryKind], t1);
      Append(PutStr(o.initialUser), t2);
      Append(PutStr(o.initialQueryId), t3);
      Append(PutStr(o.initialAddress), t4);
      Append(PutInt64If(rev >= QUERY_START_TIME, o.initialTime), t5);
      Append([o.iface], t);
    }

    method EncodeProgram(p: Program, ghost t: seq<byte>)
      modifies this
      ensures buf + t == old(buf) + ProgramThen(p, t)
    {
      ghost var t5 := PutInt(p.protocolVersion) + t;
      ghost var t4 := PutInt(p.minor) + t5;
      ghost var t3 := PutInt(p.major) + t4;
      ghost var t2 := PutStr(p.clientName) + t3;
      ghost var t1 := PutStr(p.hostname) + t2;
      Append(PutStr(p.osUser), t1);
      Append(PutStr(p.hostname), t2);
      Append(PutStr(p.clientName), t3);
      Append(PutInt(p.major), t4);
      Append(PutInt(p.minor), t5);
      Append(PutInt(p.protocolVersion), t);
    }

    method EncodeLimits(l: Limits, rev: int, iface: byte, ghost t: seq<byte>)
      modifies this
      ensures buf + t == old(buf) + LimitsThen(l, rev, iface, t)
    {
      ghost var t2 := PutIntIf(CarriesPatch(rev, iface), l.patch) + t;
      ghost var t1 := PutIntIf(rev >= DISTRIBUTED_DEPTH, l.distributedDepth) + t2;
      Append(PutStrIf(rev >= QUOTA_KEY_IN_CLIENT_INFO, l.quotaKey), t1);
      Append(PutIntIf(rev >= DISTRIBUTED_DEPTH, l.distributedDepth), t2);
      Append(PutIntIf(CarriesPatch(rev, iface), l.patch), t);
    }

    method EncodeTracing(x: Tracing, rev: int, ghost t: seq<byte>)
      modifies this
      ensures buf + t == old(buf) + TracingThen(x, rev, t)
    {
      if rev >= OPEN_TELEMETRY {
        if x.hasTrace {
          ghost var t3 := [x.span.flags] + t;
          ghost var t2 := PutStr(x.span.state) + t3;
          ghost var t1 := SwapWords(x.span.spanId) + t2;
          Append(PutBool(true), SwapWords(x.span.traceId) + t1);
          Append(SwapWords(x.span.traceId), t1);
          Append(SwapWords(x.span.spanId), t2);
          Append(PutStr(x.span.state), t3);
          Append([x.span.flags], t);
        } else {
          Append(PutBool(false), t);
        }
      }
    }

    method EncodeReplicas(x: Replicas, rev: int, ghost t: seq<byte>)
      modifies this
      ensures buf + t == old(buf) + ReplicasThen(x, rev, t)
    {
      if rev >= PARALLEL_REPLICAS {
        ghost var t2 := PutInt(x.current) + t;
        ghost var t1 := PutInt(x.count) + t2;
        Append(PutInt(if x.collaborate then 1 else 0), t1);
        Append(PutInt(x.count), t2);
        Append(PutInt(x.current), t);
      }
    }

    method EncodeScript(x: Script, rev: int, ghost t: seq<byte>)
      modifies this
      ensures buf + t == old(buf) + ScriptThen(x, rev, t)
    {
      var on := rev >= QUERY_AND_LINE_NUMBERS;
      ghost var t2 := JwtThen(x, rev, t);
      Append(PutUVarIntIf(on, x.queryNumber), PutUVarIntIf(on, x.lineNumber) + t2);
      Append(PutUVarIntIf(on, x.lineNumber), t2);
      if rev >= INTERSERVER_JWT {
        Append(PutBool(x.hasJwt), PutStrIf(x.hasJwt, x.jwt) + t);
        Append(PutStrIf(x.hasJwt, x.jwt), t);
      }
    }

    method EncodeClientInfo(i: ClientInfo, rev: int, ghost t: seq<byte>)
      modifies this
      ensures buf + t == old(buf) + InfoThen(i, rev, t)
      ensures WholeIds(i.tracing) ==> buf + t == old(buf) + Laid(InfoFields(i), rev, t)
    {
      if WholeIds(i.tracing) { InfoLaid(i, rev, t); }
      if rev >= CLIENT_WRITE_INFO {
        ghost var t5 := ScriptThen(i.script, rev, t);
        ghost var t4 := ReplicasThen(i.replicas, rev, t5);
        ghost var t3 := TracingThen(i.tracing, rev, t4);
        ghost var t2 := LimitsThen(i.limits, rev, i.origin.iface, t3);
        EncodeOrigin(i.origin, rev, ProgramThen(i.program, t2));
        EncodeProgram(i.program, t2);
        EncodeLimits(i.limits, rev, i.origin.iface, t3);
        EncodeTracing(i.tracing, rev, t4);
        EncodeReplicas(i.replicas, rev, t5);
        EncodeScript(i.script, rev, t);
      }
    }

    method EncodeSettings(ss: seq<Setting>, ghost t: seq<byte>)
      modifies this
      ensures buf + t == old(buf) + SettingsThen(ss, t)
    {
      for i := 0 to |ss|
        invariant buf + SettingsThen(ss[i..], t) == old(buf) + SettingsThen(ss, t)
      {
        var s := ss[i];
        ghost var tail := SettingsThen(ss[i + 1..], t);
        assert ss[i..][1..] == ss[i + 1..];
        Append(PutStr(s.key), PutFlags(s.flags) + (PutStr(s.value) + tail));
        Append(PutFlags(s.flags), PutStr(s.value) + tail);
        Append(PutStr(s.value), tail);
      }
      Append(PutStr([]), t);
    }

    method EncodeOldSettings(ss: seq<OldSetting>, ghost t: seq<byte>)
      modifies this
      ensures buf + t == old(buf) + OldSettingsThen(ss, t)
    {
      for i := 0 to |ss|
        invariant buf + OldSettingsThen(ss[i..], t) == old(buf) + OldSettingsThen(ss, t)
      {
        ghost var tail := OldSettingsThen(ss[i + 1..], t);
        assert ss[i..][1..] == ss[i + 1..];
        Append(PutStr(ss[i].key), PutUInt64(ss[i].value) + tail);
        Append(PutUInt64(ss[i].value), tail);
      }
      Append(PutStr([]), t);
    }

    method EncodeStatement(s: Statement, rev: int, ghost t: seq<byte>)
      modifies this
      ensures buf + t == old(buf) + StatementThen(s, rev, t)
    {
      ghost var t5 := ParametersThen(s.parameters, rev, t);
      ghost var t4 := PutStr(s.body) + t5;
      ghost var t3 := PutSmall(s.compression) + t4;
      ghost var t2 := PutSmall(s.stage) + t3;
      ghost var t1 := PutStrIf(rev >= INTER_SERVER_SECRET, s.secret) + t2;
      Append(PutStrIf(rev >= EXTERNALLY_GRANTED_ROLES, s.externalRoles), t1);
      Append(PutStrIf(rev >= INTER_SERVER_SECRET, s.secret), t2);
      Append(PutSmall(s.stage), t3);
      Append(PutSmall(s.compression), t4);
      Append(PutStr(s.body), t5);
      if rev >= PARAMETERS {
        EncodeSettings(AsSettings(s.parameters), t);
      }
    }

    /** The whole packet, with its leading type byte. */
    method EncodeQuery(q: Query, rev: int, ghost t: seq<byte>)
      modifies this
      ensures buf + t == old(buf) + ([CLIENT_CODE_QUERY] + QueryThen(q, rev, t))
      ensures WholeIds(q.info.tracing) ==> buf + t == old(buf) + ([1] + Laid(QueryFields(q, rev), rev, t))
    {
      if WholeIds(q.info.tracing) { QueryLaid(q, rev, t); }
      ghost var t3 := StatementThen(q.statement, rev, t);
      ghost var t2 := ListsThen(q.lists, rev, t3);
      ghost var t1 := InfoThen(q.info, rev, t2);
      Append([CLIENT_CODE_QUERY], PutStr(q.id) + t1);
      Append(PutStr(q.id), t1);
      EncodeClientInfo(q.info, rev, t2);
      if rev >= SETTINGS_AS_STRINGS {
        EncodeSettings(q.lists.settings, t3);
      } else {
        EncodeOldSettings(q.lists.oldSettings, t3);
      }
      EncodeStatement(q.statement, rev, t);
    }
  }

  /** Encode a Query, put the packet on a stream with anything behind it, take the type byte
      off and decode: the Query comes back and the rest of the stream is untouched. */
  method SendAndReceive(q: Query, rev: int, parse: TraceParser, behind: seq<byte>)
    returns (received: Option<Query>, left: seq<byte>)
    requires QueryOk(q, rev, parse)
    ensures received == Some(q) && left == behind
  {
    var out := new Buffer();
    out.EncodeQuery(q, rev, behind);
    var stream := out.buf + behind;
    assert stream == [CLIENT_CODE_QUERY] + QueryThen(q, rev, behind);
    assert stream[1..] == QueryThen(q, rev, behind);
    var reader := new Reader(stream[1..]);
    QueryRoundTrip(q, rev, parse, behind);
    received := DecodeQuery(reader, rev, parse);
    left := reader.rest;
  }
}
