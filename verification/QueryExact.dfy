/** When a decoded Query body is encoded to the bytes it was decoded from. */
module QueryExact {
  import opened Bytes
  import opened Options
  import opened Wire
  import opened WireExact
  import opened QueryCodec
  import opened Revisions

  // ---------------------------------------------------------------------------
  // ClientInfo

  predicate OriginCanonical(b: seq<byte>, rev: int)
    requires OriginFrom(b, rev).Got?
  {
    var user := Byte(b).rest;
    var queryId := Str(user).rest;
    Shortest(user) && Shortest(queryId) && Shortest(Str(queryId).rest)
  }

  lemma OriginExact(b: seq<byte>, rev: int, z: seq<byte>)
    requires OriginFrom(b, rev).Got?
    ensures var r := OriginFrom(b, rev); b == OriginThen(r.value, rev, z) <==> OriginCanonical(b, rev) && z == r.rest
  {
    var o := OriginFrom(b, rev).value;
    var b1 := Byte(b).rest;
    var b2 := Str(b1).rest;
    var b3 := Str(b2).rest;
    var b4 := Str(b3).rest;
    var b5 := Int64If(rev >= QUERY_START_TIME, b4).rest;
    var z5 := [o.iface] + z;
    var z4 := PutInt64If(rev >= QUERY_START_TIME, o.initialTime) + z5;
    var z3 := PutStr(o.initialAddress) + z4;
    var z2 := PutStr(o.initialQueryId) + z3;
    ByteExact(b, PutStr(o.initialUser) + z2);
    StrExact(b1, z2);
    StrExact(b2, z3);
    StrExact(b3, z4);
    Int64IfExact(rev >= QUERY_START_TIME, b4, z5);
    ByteExact(b5, z);
  }

  predicate ProgramCanonical(b: seq<byte>)
    requires ProgramFrom(b).Got?
  {
    var b1 := Str(b).rest;
    var b2 := Str(b1).rest;
    var b3 := Str(b2).rest;
    var b4 := Int(b3).rest;
    Shortest(b) && Shortest(b1) && Shortest(b2) && Shortest(b3) && Shortest(b4) && Shortest(Int(b4).rest)
  }

  lemma ProgramExact(b: seq<byte>, z: seq<byte>)
    requires ProgramFrom(b).Got?
    ensures var r := ProgramFrom(b); b == ProgramThen(r.value, z) <==> ProgramCanonical(b) && z == r.rest
  {
    var p := ProgramFrom(b).value;
    var b1 := Str(b).rest;
    var b2 := Str(b1).rest;
    var b3 := Str(b2).rest;
    var b4 := Int(b3).rest;
    var z5 := PutInt(p.protocolVersion) + z;
    var z4 := PutInt(p.minor) + z5;
    var z3 := PutInt(p.major) + z4;
    var z2 := PutStr(p.clientName) + z3;
    StrExact(b, PutStr(p.hostname) + z2);
    StrExact(b1, z2);
    StrExact(b2, z3);
    IntExact(b3, z4);
    IntExact(b4, z5);
    IntExact(Int(b4).rest, z);
  }

  predicate LimitsCanonical(b: seq<byte>, rev: int, iface: byte)
    requires LimitsFrom(b, rev, iface).Got?
  {
    var b1 := StrIf(rev >= QUOTA_KEY_IN_CLIENT_INFO, b).rest;
    var b2 := IntIf(rev >= DISTRIBUTED_DEPTH, b1).rest;
    && (rev >= QUOTA_KEY_IN_CLIENT_INFO ==> Shortest(b))
    && (rev >= DISTRIBUTED_DEPTH ==> Shortest(b1))
    && (CarriesPatch(rev, iface) ==> Shortest(b2))
  }

  lemma LimitsExact(b: seq<byte>, rev: int, iface: byte, z: seq<byte>)
    requires LimitsFrom(b, rev, iface).Got?
    ensures var r := LimitsFrom(b, rev, iface);
            b == LimitsThen(r.value, rev, iface, z) <==> LimitsCanonical(b, rev, iface) && z == r.rest
  {
    var l := LimitsFrom(b, rev, iface).value;
    var b1 := StrIf(rev >= QUOTA_KEY_IN_CLIENT_INFO, b).rest;
    var b2 := IntIf(rev >= DISTRIBUTED_DEPTH, b1).rest;
    var z2 := PutIntIf(CarriesPatch(rev, iface), l.patch) + z;
    StrIfExact(rev >= QUOTA_KEY_IN_CLIENT_INFO, b, PutIntIf(rev >= DISTRIBUTED_DEPTH, l.distributedDepth) + z2);
    IntIfExact(rev >= DISTRIBUTED_DEPTH, b1, z2);
    IntIfExact(CarriesPatch(rev, iface), b2, z);
  }

  /** The trace state is written as its parser would write it. */
  predicate SpanCanonical(b: seq<byte>, parse: TraceParser)
    requires SpanFrom(b, parse).Got?
  {
    var b2 := Raw(Raw(b, TRACE_ID_SIZE).rest, WORD).rest;
    Shortest(b2) && TraceState(Str(b2).value, parse) == Some(Str(b2).value)
  }

  /** A text that may have been changed on reading. */
  lemma TextExact(b: seq<byte>, kept: seq<byte>, z: seq<byte>)
    requires Str(b).Got? && Short(kept)
    ensures b == PutStr(kept) + z <==> Shortest(b) && Str(b).value == kept && z == Str(b).rest
  {
    StrPut(kept, z);
    if Str(b).value == kept { StrExact(b, z); }
  }

  lemma SpanExact(b: seq<byte>, parse: TraceParser, z: seq<byte>)
    requires SpanFrom(b, parse).Got? && Short(SpanFrom(b, parse).value.state)
    ensures var r := SpanFrom(b, parse); b == SpanThen(r.value, z) <==> SpanCanonical(b, parse) && z == r.rest
  {
    var s := SpanFrom(b, parse).value;
    var b1 := Raw(b, TRACE_ID_SIZE).rest;
    var b2 := Raw(b1, WORD).rest;
    var b3 := Str(b2).rest;
    var z3 := [s.flags] + z;
    var z2 := PutStr(s.state) + z3;
    SwapWordsTwice(Raw(b, TRACE_ID_SIZE).value);
    SwapWordsTwice(Raw(b1, WORD).value);
    RawExact(b, TRACE_ID_SIZE, SwapWords(s.spanId) + z2);
    RawExact(b1, WORD, z2);
    TextExact(b2, s.state, z3);
    ByteExact(b3, z);
  }

  predicate TracingCanonical(b: seq<byte>, rev: int, parse: TraceParser)
    requires TracingFrom(b, rev, parse).Got?
  {
    rev >= OPEN_TELEMETRY && Bool(b).value ==> SpanCanonical(Bool(b).rest, parse)
  }

  lemma TracingExact(b: seq<byte>, rev: int, parse: TraceParser, z: seq<byte>)
    requires TracingFrom(b, rev, parse).Got? && Canonicalises(parse)
    ensures var r := TracingFrom(b, rev, parse);
            b == TracingThen(r.value, rev, z) <==> TracingCanonical(b, rev, parse) && z == r.rest
  {
    if rev >= OPEN_TELEMETRY {
      var x := TracingFrom(b, rev, parse).value;
      BoolExact(b, if x.hasTrace then SpanThen(x.span, z) else z);
      if x.hasTrace {
        SpanFromOk(Bool(b).rest, parse);
        SpanExact(Bool(b).rest, parse, z);
      }
    }
  }

  predicate ReplicasCanonical(b: seq<byte>, rev: int)
    requires ReplicasFrom(b, rev).Got?
  {
    rev >= PARALLEL_REPLICAS ==>
      var b1 := Int(b).rest;
      Shortest(b) && (Int(b).value == 0 || Int(b).value == 1) && Shortest(b1) && Shortest(Int(b1).rest)
  }

  lemma ReplicasExact(b: seq<byte>, rev: int, z: seq<byte>)
    requires ReplicasFrom(b, rev).Got?
    ensures var r := ReplicasFrom(b, rev);
            b == ReplicasThen(r.value, rev, z) <==> ReplicasCanonical(b, rev) && z == r.rest
  {
    if rev >= PARALLEL_REPLICAS {
      var x := ReplicasFrom(b, rev).value;
      var b1 := Int(b).rest;
      var z2 := PutInt(x.current) + z;
      NarrowExact(b, if x.collaborate then 1 else 0, PutInt(x.count) + z2);
      IntExact(b1, z2);
      IntExact(Int(b1).rest, z);
    }
  }

  predicate JwtCanonical(b: seq<byte>, rev: int)
    requires JwtFrom(b, rev).Got?
  {
    rev >= INTERSERVER_JWT && Bool(b).value ==> Shortest(Bool(b).rest)
  }

  predicate ScriptCanonical(b: seq<byte>, rev: int)
    requires ScriptFrom(b, rev).Got?
  {
    var on := rev >= QUERY_AND_LINE_NUMBERS;
    var b1 := UVarIntIf(on, b).rest;
    (on ==> Shortest(b) && Shortest(b1)) && JwtCanonical(UVarIntIf(on, b1).rest, rev)
  }

  lemma ScriptExact(b: seq<byte>, rev: int, z: seq<byte>)
    requires ScriptFrom(b, rev).Got?
    ensures var r := ScriptFrom(b, rev); b == ScriptThen(r.value, rev, z) <==> ScriptCanonical(b, rev) && z == r.rest
  {
    var x := ScriptFrom(b, rev).value;
    var on := rev >= QUERY_AND_LINE_NUMBERS;
    var b1 := UVarIntIf(on, b).rest;
    var b2 := UVarIntIf(on, b1).rest;
    UVarIntIfExact(on, b, PutUVarIntIf(on, x.lineNumber) + JwtThen(x, rev, z));
    UVarIntIfExact(on, b1, JwtThen(x, rev, z));
    if rev >= INTERSERVER_JWT {
      BoolExact(b2, PutStrIf(x.hasJwt, x.jwt) + z);
      StrIfExact(x.hasJwt, Bool(b2).rest, z);
    }
  }

  /** Tracing, replicas and script, which follow one another. */
  predicate LastRead(b: seq<byte>, rev: int, parse: TraceParser) {
    var tracing := TracingFrom(b, rev, parse);
    tracing.Got?
    && var replicas := ReplicasFrom(tracing.rest, rev);
       replicas.Got? && ScriptFrom(replicas.rest, rev).Got?
  }

  predicate LastCanonical(b: seq<byte>, rev: int, parse: TraceParser)
    requires LastRead(b, rev, parse)
  {
    var b1 := TracingFrom(b, rev, parse).rest;
    TracingCanonical(b, rev, parse) && ReplicasCanonical(b1, rev) && ScriptCanonical(ReplicasFrom(b1, rev).rest, rev)
  }

  lemma LastExact(b: seq<byte>, rev: int, parse: TraceParser, z: seq<byte>)
    requires LastRead(b, rev, parse) && Canonicalises(parse)
    ensures var tracing := TracingFrom(b, rev, parse);
            var replicas := ReplicasFrom(tracing.rest, rev);
            var script := ScriptFrom(replicas.rest, rev);
            b == TracingThen(tracing.value, rev, ReplicasThen(replicas.value, rev, ScriptThen(script.value, rev, z)))
            <==> LastCanonical(b, rev, parse) && z == script.rest
  {
    var tracing := TracingFrom(b, rev, parse);
    var replicas := ReplicasFrom(tracing.rest, rev);
    var script := ScriptFrom(replicas.rest, rev);
    var z2 := ScriptThen(script.value, rev, z);
    TracingExact(b, rev, parse, ReplicasThen(replicas.value, rev, z2));
    ReplicasExact(tracing.rest, rev, z2);
    ScriptExact(replicas.rest, rev, z);
  }

  /** Origin, program and limits, before those. */
  predicate FirstRead(b: seq<byte>, rev: int) {
    var origin := OriginFrom(b, rev);
    origin.Got?
    && var program := ProgramFrom(origin.rest);
       program.Got? && LimitsFrom(program.rest, rev, origin.value.iface).Got?
  }

  predicate FirstCanonical(b: seq<byte>, rev: int)
    requires FirstRead(b, rev)
  {
    var origin := OriginFrom(b, rev);
    && OriginCanonical(b, rev) && ProgramCanonical(origin.rest)
    && LimitsCanonical(ProgramFrom(origin.rest).rest, rev, origin.value.iface)
  }

  lemma FirstExact(b: seq<byte>, rev: int, z: seq<byte>)
    requires FirstRead(b, rev)
    ensures var origin := OriginFrom(b, rev);
            var program := ProgramFrom(origin.rest);
            var limits := LimitsFrom(program.rest, rev, origin.value.iface);
            b == OriginThen(origin.value, rev, ProgramThen(program.value,
                 LimitsThen(limits.value, rev, origin.value.iface, z)))
            <==> FirstCanonical(b, rev) && z == limits.rest
  {
    var origin := OriginFrom(b, rev);
    var program := ProgramFrom(origin.rest);
    var limits := LimitsFrom(program.rest, rev, origin.value.iface);
    var z2 := LimitsThen(limits.value, rev, origin.value.iface, z);
    OriginExact(b, rev, ProgramThen(program.value, z2));
    ProgramExact(origin.rest, z2);
    LimitsExact(program.rest, rev, origin.value.iface, z);
  }

  function AfterLimits(b: seq<byte>, rev: int): (r: seq<byte>)
    requires FirstRead(b, rev)
  {
    var origin := OriginFrom(b, rev);
    LimitsFrom(ProgramFrom(origin.rest).rest, rev, origin.value.iface).rest
  }

  predicate InfoCanonical(b: seq<byte>, rev: int, parse: TraceParser)
    requires InfoFrom(b, rev, parse).Got?
  {
    rev >= CLIENT_WRITE_INFO ==> FirstCanonical(b, rev) && LastCanonical(AfterLimits(b, rev), rev, parse)
  }

  lemma InfoExact(b: seq<byte>, rev: int, parse: TraceParser, z: seq<byte>)
    requires InfoFrom(b, rev, parse).Got? && Canonicalises(parse)
    ensures var r := InfoFrom(b, rev, parse);
            b == InfoThen(r.value, rev, z) <==> InfoCanonical(b, rev, parse) && z == r.rest
  {
    if rev >= CLIENT_WRITE_INFO {
      var i := InfoFrom(b, rev, parse).value;
      FirstExact(b, rev, TracingThen(i.tracing, rev, ReplicasThen(i.replicas, rev, ScriptThen(i.script, rev, z))));
      LastExact(AfterLimits(b, rev), rev, parse, z);
    }
  }

  // ---------------------------------------------------------------------------
  // Terminated lists

  /** Only the three known flag bits are set. */
  predicate SettingCanonical(b: seq<byte>)
    requires SettingFrom(b).Got?
  {
    var key := Str(b);
    && Shortest(b)
    && (key.value != [] ==>
          && Shortest(key.rest) && UVarInt(key.rest).value < 8 && Shortest(FlagsFrom(key.rest).rest))
  }

  lemma FlagsExact(b: seq<byte>, z: seq<byte>)
    requires FlagsFrom(b).Got?
    ensures b == PutFlags(FlagsFrom(b).value) + z <==> Shortest(b) && UVarInt(b).value < 8 && z == FlagsFrom(b).rest
  {
    NarrowExact(b, FlagBits(FlagsFrom(b).value), z);
    FlagBitsOf(UVarInt(b).value);
  }

  lemma LastThreeBits(f: nat)
    ensures f % 8 == f % 2 + 2 * (f / 2 % 4) && f / 2 % 4 == f / 2 % 2 + 2 * (f / 4 % 2)
  {
    var h := f / 2;
    var q := h / 2;
    assert f == 2 * h + f % 2 && h == 2 * q + h % 2;
    assert q == f / 4;
  }

  lemma FlagBitsOf(f: nat)
    ensures FlagBits(SettingFlags(f % 2 == 1, (f / 2) % 2 == 1, (f / 4) % 2 == 1)) == f % 8
  {
    LastThreeBits(f);
    var x, y, w := f % 2, f / 2 % 2, f / 4 % 2;
    assert x < 2 && y < 2 && w < 2;
  }

  lemma SettingExact(b: seq<byte>, z: seq<byte>)
    requires SettingFrom(b).Got?
    ensures var r := SettingFrom(b);
            b == (if r.value.None? then EndThen(z) else SettingThen(r.value.value, z)) <==>
            SettingCanonical(b) && z == r.rest
  {
    var s := SettingFrom(b).value;
    if s.None? {
      StrExact(b, z);
    } else {
      var b1 := Str(b).rest;
      var z2 := PutStr(s.value.value) + z;
      StrExact(b, PutFlags(s.value.flags) + z2);
      FlagsExact(b1, z2);
      StrExact(FlagsFrom(b1).rest, z);
    }
  }

  predicate SettingsCanonical(b: seq<byte>)
    requires SettingsFrom(b).Got?
    decreases |b|
  {
    var s := SettingFrom(b);
    SettingCanonical(b) && (s.value.Some? ==> SettingsCanonical(s.rest))
  }

  lemma {:induction false} SettingsExact(b: seq<byte>, z: seq<byte>)
    requires SettingsFrom(b).Got?
    ensures var r := SettingsFrom(b); b == SettingsThen(r.value, z) <==> SettingsCanonical(b) && z == r.rest
    decreases |b|
  {
    var s, ss := SettingFrom(b), SettingsFrom(b).value;
    if s.value.None? {
      SettingExact(b, z);
    } else {
      SettingsExact(s.rest, z);
      assert ss[1..] == SettingsFrom(s.rest).value;
      SettingExact(b, SettingsThen(ss[1..], z));
    }
  }

  predicate OldSettingsCanonical(b: seq<byte>)
    requires OldSettingsFrom(b).Got?
    decreases |b|
  {
    var s := OldSettingFrom(b);
    Shortest(b) && (s.value.Some? ==> OldSettingsCanonical(s.rest))
  }

  lemma OldSettingExact(b: seq<byte>, z: seq<byte>)
    requires OldSettingFrom(b).Got?
    ensures var r := OldSettingFrom(b);
            b == (if r.value.None? then EndThen(z) else OldSettingThen(r.value.value, z)) <==> Shortest(b) && z == r.rest
  {
    var s := OldSettingFrom(b).value;
    if s.None? {
      StrExact(b, z);
    } else {
      StrExact(b, PutUInt64(s.value.value) + z);
      UInt64Exact(Str(b).rest, z);
    }
  }

  lemma {:induction false} OldSettingsExact(b: seq<byte>, z: seq<byte>)
    requires OldSettingsFrom(b).Got?
    ensures var r := OldSettingsFrom(b); b == OldSettingsThen(r.value, z) <==> OldSettingsCanonical(b) && z == r.rest
    decreases |b|
  {
    var s, ss := OldSettingFrom(b), OldSettingsFrom(b).value;
    if s.value.None? {
      OldSettingExact(b, z);
    } else {
      OldSettingsExact(s.rest, z);
      assert ss[1..] == OldSettingsFrom(s.rest).value;
      OldSettingExact(b, OldSettingsThen(ss[1..], z));
    }
  }

  /** A parameter is written as a custom setting, whatever flags it was read with. */
  predicate AllCustom(ss: seq<Setting>) {
    forall i :: 0 <= i < |ss| ==> ss[i].flags == SettingFlags(false, true, false)
  }

  lemma ParametersOf(ss: seq<Setting>)
    ensures AsSettings(AsParameters(ss)) == ss <==> AllCustom(ss)
  {
    var back := AsSettings(AsParameters(ss));
    assert forall i :: 0 <= i < |ss| ==>
      back[i] == Setting(ss[i].key, ss[i].value, SettingFlags(false, true, false));
  }

  lemma ParametersExact(b: seq<byte>, rev: int, z: seq<byte>)
    requires ParametersFrom(b, rev).Got?
    ensures var r := ParametersFrom(b, rev);
            b == ParametersThen(r.value, rev, z) <==>
            (rev >= PARAMETERS ==> SettingsCanonical(b) && AllCustom(SettingsFrom(b).value)) && z == r.rest
  {
    if rev >= PARAMETERS {
      var ss, ps := SettingsFrom(b).value, ParametersFrom(b, rev).value;
      ParametersOf(ss);
      if AllCustom(ss) {
        SettingsExact(b, z);
      } else if b == ParametersThen(ps, rev, z) {
        SettingsRoundTrip(AsSettings(ps), z);
      }
    }
  }

  // ---------------------------------------------------------------------------
  // The Query

  /** Stage and compression fit one byte. */
  predicate StatementCanonical(b: seq<byte>, rev: int)
    requires StatementFrom(b, rev).Got?
  {
    var b1 := StrIf(rev >= EXTERNALLY_GRANTED_ROLES, b).rest;
    var b2 := StrIf(rev >= INTER_SERVER_SECRET, b1).rest;
    var b3 := Small(b2).rest;
    var b4 := Small(b3).rest;
    var b5 := Str(b4).rest;
    && (rev >= EXTERNALLY_GRANTED_ROLES ==> Shortest(b)) && (rev >= INTER_SERVER_SECRET ==> Shortest(b1))
    && Shortest(b2) && UVarInt(b2).value < 256 && Shortest(b3) && UVarInt(b3).value < 256 && Shortest(b4)
    && (rev >= PARAMETERS ==> SettingsCanonical(b5) && AllCustom(SettingsFrom(b5).value))
  }

  lemma SmallExact(b: seq<byte>, z: seq<byte>)
    requires Small(b).Got?
    ensures b == PutSmall(Small(b).value) + z <==> Shortest(b) && UVarInt(b).value < 256 && z == Small(b).rest
  {
    NarrowExact(b, Small(b).value, z);
  }

  lemma StatementExact(b: seq<byte>, rev: int, z: seq<byte>)
    requires StatementFrom(b, rev).Got?
    ensures var r := StatementFrom(b, rev);
            b == StatementThen(r.value, rev, z) <==> StatementCanonical(b, rev) && z == r.rest
  {
    var s := StatementFrom(b, rev).value;
    var b1 := StrIf(rev >= EXTERNALLY_GRANTED_ROLES, b).rest;
    var b2 := StrIf(rev >= INTER_SERVER_SECRET, b1).rest;
    var b3 := Small(b2).rest;
    var b4 := Small(b3).rest;
    var z5 := ParametersThen(s.parameters, rev, z);
    var z4 := PutStr(s.body) + z5;
    var z3 := PutSmall(s.compression) + z4;
    var z2 := PutSmall(s.stage) + z3;
    StrIfExact(rev >= EXTERNALLY_GRANTED_ROLES, b, PutStrIf(rev >= INTER_SERVER_SECRET, s.secret) + z2);
    StrIfExact(rev >= INTER_SERVER_SECRET, b1, z2);
    SmallExact(b2, z3);
    SmallExact(b3, z4);
    StrExact(b4, z5);
    ParametersExact(Str(b4).rest, rev, z);
  }

  predicate ListsCanonical(b: seq<byte>, rev: int)
    requires ListsFrom(b, rev).Got?
  {
    if rev >= SETTINGS_AS_STRINGS then SettingsCanonical(b) else OldSettingsCanonical(b)
  }

  lemma ListsExact(b: seq<byte>, rev: int, z: seq<byte>)
    requires ListsFrom(b, rev).Got?
    ensures var r := ListsFrom(b, rev); b == ListsThen(r.value, rev, z) <==> ListsCanonical(b, rev) && z == r.rest
  {
    if rev >= SETTINGS_AS_STRINGS { SettingsExact(b, z); } else { OldSettingsExact(b, z); }
  }

  /** Every varint is written shortest, the trace state as its parser writes it, collaboration as
      zero or one, settings with known flags only, stage and compression in one byte, and
      parameters as custom settings. */
  predicate QueryCanonical(b: seq<byte>, rev: int, parse: TraceParser)
    requires QueryFrom(b, rev, parse).Got?
  {
    var b1 := Str(b).rest;
    var b2 := InfoFrom(b1, rev, parse).rest;
    var b3 := ListsFrom(b2, rev).rest;
    Shortest(b) && InfoCanonical(b1, rev, parse) && ListsCanonical(b2, rev) && StatementCanonical(b3, rev)
  }

  /** Decoding a Query and encoding it again gives back the same bytes if and only if they were
      canonical. */
  lemma QueryBytesKeptIff(b: seq<byte>, rev: int, parse: TraceParser)
    requires QueryFrom(b, rev, parse).Got? && Canonicalises(parse)
    ensures var r := QueryFrom(b, rev, parse); QueryThen(r.value, rev, r.rest) == b <==> QueryCanonical(b, rev, parse)
  {
    var q, z := QueryFrom(b, rev, parse).value, QueryFrom(b, rev, parse).rest;
    var b1 := Str(b).rest;
    var b2 := InfoFrom(b1, rev, parse).rest;
    var b3 := ListsFrom(b2, rev).rest;
    var z3 := StatementThen(q.statement, rev, z);
    var z2 := ListsThen(q.lists, rev, z3);
    StrExact(b, InfoThen(q.info, rev, z2));
    InfoExact(b1, rev, parse, z2);
    ListsExact(b2, rev, z3);
    StatementExact(b3, rev, z);
  }
}
