/** The packets the codec skips, as records of named fields with the bytes a peer writes for
    them: every one of them is skipped to exactly its end.
 */
module PacketLayouts {
  import opened Bytes
  import opened Options
  import opened Wire
  import opened Layout
  import B = PacketBodies
  import CompressedFrames

  type u32 = x: int | 0 <= x < 0x1_0000_0000

  datatype TableName = TableName(database: seq<byte>, table: seq<byte>)

  /** `replica` is there for a replicated table. */
  datatype TableState = TableState(name: TableName, replica: Option<Replica>)

  datatype Replica = Replica(delay: u64, readOnly: u64)

  datatype ServerPacket =
    | Pong
    | EndOfStream
    | ReadTaskRequest
    | Exception(code: u32, name: seq<byte>, message: seq<byte>, stack: seq<byte>, nested: bool)
    | Progress(readRows: u64, readBytes: u64, totalRows: u64, totalBytes: u64,
               writtenRows: u64, writtenBytes: u64, elapsed: u64)
    | Profile(rows: u64, blocks: u64, bytes: u64, appliedLimit: bool, rowsBeforeLimit: u64, obsolete: bool,
              appliedAggregation: bool, rowsBeforeAggregation: u64)
    | TablesStatus(states: seq<TableState>)
    | TableColumns(first: seq<byte>, second: seq<byte>)
    | PartUuids(uuids: seq<Uuid>)
    | TimezoneUpdate(zone: seq<byte>)
    | SshChallenge(challenge: seq<byte>)

  datatype Uuid = Uuid(high: u64, low: u64)

  datatype ClientPacket = Cancel | Ping | TablesStatusRequest(tables: seq<TableName>)

  function ServerCode(p: ServerPacket): (code: u64) {
    match p
    case Exception(_, _, _, _, _) => 2
    case Progress(_, _, _, _, _, _, _) => 3
    case Pong => 4
    case EndOfStream => 5
    case Profile(_, _, _, _, _, _, _, _) => 6
    case TablesStatus(_) => 9
    case TableColumns(_, _) => 11
    case PartUuids(_) => 12
    case ReadTaskRequest => 13
    case TimezoneUpdate(_) => 17
    case SshChallenge(_) => 18
  }

  function ClientCode(p: ClientPacket): (code: u64) {
    match p
    case Cancel => 3
    case Ping => 4
    case TablesStatusRequest(_) => 5
  }

  predicate NameFits(n: TableName) { Short(n.database) && Short(n.table) }

  /** Strings and counts fit a Go `int`. */
  predicate ServerFits(p: ServerPacket) {
    match p
    case Exception(_, name, message, stack, _) => Short(name) && Short(message) && Short(stack)
    case TablesStatus(states) => |states| < TWO_63 && forall i :: 0 <= i < |states| ==> NameFits(states[i].name)
    case TableColumns(first, second) => Short(first) && Short(second)
    case PartUuids(uuids) => |uuids| * 16 < TWO_63
    case TimezoneUpdate(zone) => Short(zone)
    case SshChallenge(challenge) => Short(challenge)
    case _ => true
  }

  predicate ClientFits(p: ClientPacket) {
    p.TablesStatusRequest? ==> |p.tables| < TWO_63 && forall i :: 0 <= i < |p.tables| ==> NameFits(p.tables[i])
  }

  // ---------------------------------------------------------------------------
  // What a peer writes

  function NameFields(n: TableName): (fs: seq<Field>) { [Always(Text(n.database)), Always(Text(n.table))] }

  function NamesFields(ns: seq<TableName>): (fs: seq<Field>) {
    if ns == [] then [] else NameFields(ns[0]) + NamesFields(ns[1..])
  }

  function StateFields(s: TableState): (fs: seq<Field>) {
    NameFields(s.name) + ReplicaFields(s.replica)
  }

  function ReplicaFields(r: Option<Replica>): (fs: seq<Field>) {
    if r.None? then [Always(Flag(false))]
    else [Always(Flag(true)), Always(VarInt(r.value.delay)), Since(54467, VarInt(r.value.readOnly))]
  }

  function StatesFields(ss: seq<TableState>): (fs: seq<Field>) {
    if ss == [] then [] else StateFields(ss[0]) + StatesFields(ss[1..])
  }

  function UuidFields(us: seq<Uuid>): (fs: seq<Field>) {
    if us == [] then [] else [Always(Word(us[0].high)), Always(Word(us[0].low))] + UuidFields(us[1..])
  }

  function ExceptionFields(
    code: seq<byte>, name: seq<byte>, message: seq<byte>, stack: seq<byte>, nested: bool): (fs: seq<Field>)
  {
    [Always(Verbatim(code)), Always(Text(name)), Always(Text(message)), Always(Text(stack)), Always(Flag(nested))]
  }

  function ProgressFields(p: ServerPacket): (fs: seq<Field>)
    requires p.Progress?
  {
    [Always(VarInt(p.readRows)), Always(VarInt(p.readBytes)), Always(VarInt(p.totalRows)),
     Since(54463, VarInt(p.totalBytes)),
     Since(54420, VarInt(p.writtenRows)), Since(54420, VarInt(p.writtenBytes)),
     Since(54460, VarInt(p.elapsed))]
  }

  function CountFields(p: ServerPacket): (fs: seq<Field>)
    requires p.Profile?
  {
    [Always(VarInt(p.rows)), Always(VarInt(p.blocks)), Always(VarInt(p.bytes))]
  }

  function LimitFields(p: ServerPacket): (fs: seq<Field>)
    requires p.Profile?
  {
    [Always(Flag(p.appliedLimit)), Always(VarInt(p.rowsBeforeLimit)), Always(Flag(p.obsolete)),
     Since(54469, Flag(p.appliedAggregation)), Since(54469, VarInt(p.rowsBeforeAggregation))]
  }

  function ServerFields(p: ServerPacket): (fs: seq<Field>)
    requires ServerFits(p)
  {
    match p
    case Pong => []
    case EndOfStream => []
    case ReadTaskRequest => []
    case Exception(code, name, message, stack, nested) =>
      ExceptionFields(LittleEndian(code, 4), name, message, stack, nested)
    case Progress(_, _, _, _, _, _, _) => ProgressFields(p)
    case Profile(_, _, _, _, _, _, _, _) => CountFields(p) + LimitFields(p)
    case TablesStatus(states) => [Always(VarInt(|states|))] + StatesFields(states)
    case TableColumns(first, second) => [Always(Text(first)), Always(Text(second))]
    case PartUuids(uuids) => [Always(VarInt(|uuids|))] + UuidFields(uuids)
    case TimezoneUpdate(zone) => [Always(Text(zone))]
    case SshChallenge(challenge) => [Always(Text(challenge))]
  }

  function ClientFields(p: ClientPacket): (fs: seq<Field>)
    requires ClientFits(p)
  {
    match p
    case Cancel => []
    case Ping => []
    case TablesStatusRequest(tables) => [Always(VarInt(|tables|))] + NamesFields(tables)
  }

  // ---------------------------------------------------------------------------
  // Each layout is skipped to its end

  predicate AllVarInts(fs: seq<Field>) { forall k :: 0 <= k < |fs| ==> fs[k].item.VarInt? }

  /** How many of the fields from the `k`th on are sent. */
  function SentFrom(fs: seq<Field>, k: nat, rev: int): (n: nat)
    requires k <= |fs|
    decreases |fs| - k
  {
    if k == |fs| then 0 else (if Sent(fs[k], rev) then 1 else 0) + SentFrom(fs, k + 1, rev)
  }

  lemma NextVarInt(f: Field, rev: int, rest: seq<byte>, n: nat)
    requires f.item.VarInt?
    ensures B.UVarInts((if Sent(f, rev) then Put(f.item) else []) + rest, (if Sent(f, rev) then 1 else 0) + n)
            == B.UVarInts(rest, n)
  {
    if Sent(f, rev) { UVarIntPut(f.item.v, rest); } else { assert [] + rest == rest; }
  }

  lemma {:induction false} VarIntsSkipped(fs: seq<Field>, k: nat, rev: int, t: seq<byte>)
    requires k <= |fs| && AllVarInts(fs)
    ensures B.UVarInts(LaidFrom(fs, k, rev, t), SentFrom(fs, k, rev)) == Got((), t)
    decreases |fs| - k
  {
    if k < |fs| {
      VarIntsSkipped(fs, k + 1, rev, t);
      NextVarInt(fs[k], rev, LaidFrom(fs, k + 1, rev, t), SentFrom(fs, k + 1, rev));
    }
  }

  lemma ProgressSent(p: ServerPacket, rev: int)
    requires p.Progress?
    ensures SentFrom(ProgressFields(p), 0, rev) == B.ProgressFields(rev)
  {
    var fs := ProgressFields(p);
    assert SentFrom(fs, 7, rev) == 0;
    assert SentFrom(fs, 5, rev) == 1 + SentFrom(fs, 6, rev) || rev < 54420;
    assert SentFrom(fs, 4, rev) == (if rev >= 54420 then 2 else 0) + SentFrom(fs, 6, rev);
    assert SentFrom(fs, 3, rev) == (if rev >= 54463 then 1 else 0) + SentFrom(fs, 4, rev);
    assert SentFrom(fs, 1, rev) == 2 + SentFrom(fs, 3, rev);
  }

  lemma ProgressSkipped(p: ServerPacket, rev: int, t: seq<byte>)
    requires p.Progress?
    ensures B.UVarInts(Laid(ProgressFields(p), rev, t), B.ProgressFields(rev)) == Got((), t)
  {
    VarIntsSkipped(ProgressFields(p), 0, rev, t);
    ProgressSent(p, rev);
  }

  lemma LimitsSkipped(p: ServerPacket, rev: int, t: seq<byte>)
    requires p.Profile?
    ensures var b := Laid(LimitFields(p), rev, t);
            && B.BoolThenUVarInt(b).Got?
            && Bool(B.BoolThenUVarInt(b).rest).Got?
            && var b3 := Bool(B.BoolThenUVarInt(b).rest).rest;
               if rev < 54469 then b3 == t else B.BoolThenUVarInt(b3) == Got((), t)
  {
    var fs := LimitFields(p);
    LaidFive(fs, rev, t);
    var t4 := PutAt(fs, 4, rev) + t;
    var t3 := PutAt(fs, 3, rev) + t4;
    var t2 := PutAt(fs, 2, rev) + t3;
    BoolPut(p.appliedLimit, PutAt(fs, 1, rev) + t2);
    OneVarInt(p.rowsBeforeLimit, t2);
    BoolPut(p.obsolete, t3);
    if rev >= 54469 {
      BoolPut(p.appliedAggregation, t4);
      OneVarInt(p.rowsBeforeAggregation, t);
    } else {
      assert t3 == t4 == t;
    }
  }

  lemma OneVarInt(v: u64, t: seq<byte>)
    ensures B.UVarInts(PutUVarInt(v) + t, 1) == Got((), t)
  {
    UVarIntPut(v, t);
  }

  lemma ProfileSkipped(p: ServerPacket, rev: int, t: seq<byte>)
    requires p.Profile?
    ensures B.Profile(Laid(CountFields(p) + LimitFields(p), rev, t), rev) == Got((), t)
  {
    var b1 := Laid(LimitFields(p), rev, t);
    LaidJoined(CountFields(p), LimitFields(p), rev, t);
    VarIntsSkipped(CountFields(p), 0, rev, b1);
    assert SentFrom(CountFields(p), 0, rev) == 3 by { assert SentFrom(CountFields(p), 2, rev) == 1; }
    LimitsSkipped(p, rev, t);
  }

  lemma ExceptionSkipped(
    code: seq<byte>, name: seq<byte>, message: seq<byte>, stack: seq<byte>, nested: bool, rev: int, t: seq<byte>)
    requires |code| == 4 && Short(name) && Short(message) && Short(stack)
    ensures B.Exception(Laid(ExceptionFields(code, name, message, stack, nested), rev, t)) == Got((), t)
  {
    ExceptionLaid(code, name, message, stack, nested, rev, t);
    ExceptionOf(code, name, message, stack, nested, t);
  }

  lemma ExceptionLaid(
    code: seq<byte>, name: seq<byte>, message: seq<byte>, stack: seq<byte>, nested: bool, rev: int, t: seq<byte>)
    ensures Laid(ExceptionFields(code, name, message, stack, nested), rev, t)
            == code + (PutStr(name) + (PutStr(message) + (PutStr(stack) + (PutBool(nested) + t))))
  {
    LaidFive(ExceptionFields(code, name, message, stack, nested), rev, t);
  }

  lemma ExceptionOf(
    code: seq<byte>, name: seq<byte>, message: seq<byte>, stack: seq<byte>, nested: bool, t: seq<byte>)
    requires |code| == 4 && Short(name) && Short(message) && Short(stack)
    ensures B.Exception(code + (PutStr(name) + (PutStr(message) + (PutStr(stack) + (PutBool(nested) + t)))))
            == Got((), t)
  {
    var t3 := PutStr(stack) + (PutBool(nested) + t);
    var t1 := PutStr(name) + (PutStr(message) + t3);
    assert B.Skip(code + t1, 4) == Got((), t1) by { assert (code + t1)[4..] == t1; }
    OnePair(name, message, t3);
    StrPut(stack, PutBool(nested) + t);
    BoolPut(nested, t);
  }

  lemma OnePair(first: seq<byte>, second: seq<byte>, t: seq<byte>)
    requires Short(first) && Short(second)
    ensures B.StrPairs(PutStr(first) + (PutStr(second) + t), 1) == Got((), t)
  {
    PairSkipped(first, second, t);
  }

  lemma PairSkipped(first: seq<byte>, second: seq<byte>, t: seq<byte>)
    requires Short(first) && Short(second)
    ensures B.StrPair(PutStr(first) + (PutStr(second) + t)) == Got((), t)
  {
    StrPut(first, PutStr(second) + t);
    StrPut(second, t);
  }

  lemma {:induction false} NamesSkipped(ns: seq<TableName>, rev: int, t: seq<byte>)
    requires forall i :: 0 <= i < |ns| ==> NameFits(ns[i])
    ensures B.StrPairs(Laid(NamesFields(ns), rev, t), |ns|) == Got((), t)
  {
    if ns != [] {
      var rest := Laid(NamesFields(ns[1..]), rev, t);
      NamesSkipped(ns[1..], rev, t);
      LaidJoined(NameFields(ns[0]), NamesFields(ns[1..]), rev, t);
      LaidFew(NameFields(ns[0]), rev, rest);
      PairSkipped(ns[0].database, ns[0].table, rest);
    }
  }

  lemma ReplicaSkipped(r: Option<Replica>, rev: int, t: seq<byte>)
    ensures var b := Laid(ReplicaFields(r), rev, t);
            && Bool(b).Got? && Bool(b).value == r.Some?
            && (if r.None? then Bool(b).rest == t
                else B.UVarInts(Bool(b).rest, if rev >= 54467 then 2 else 1) == Got((), t))
  {
    LaidFew(ReplicaFields(r), rev, t);
    if r.None? {
      BoolPut(false, t);
    } else {
      var delay, readOnly := r.value.delay, r.value.readOnly;
      var t2 := (if rev >= 54467 then PutUVarInt(readOnly) else []) + t;
      BoolPut(true, PutUVarInt(delay) + t2);
      UVarIntPut(delay, t2);
      if rev >= 54467 { OneVarInt(readOnly, t); } else { assert t2 == t; }
    }
  }

  lemma StateSkipped(s: TableState, rev: int, t: seq<byte>)
    requires NameFits(s.name)
    ensures B.TableStatus(Laid(StateFields(s), rev, t), rev) == Got((), t)
  {
    var b2 := Laid(ReplicaFields(s.replica), rev, t);
    LaidJoined(NameFields(s.name), ReplicaFields(s.replica), rev, t);
    LaidFew(NameFields(s.name), rev, b2);
    StrPut(s.name.database, PutStr(s.name.table) + b2);
    StrPut(s.name.table, b2);
    ReplicaSkipped(s.replica, rev, t);
  }

  lemma {:induction false} StatesSkipped(ss: seq<TableState>, rev: int, t: seq<byte>)
    requires forall i :: 0 <= i < |ss| ==> NameFits(ss[i].name)
    ensures B.TableStatuses(Laid(StatesFields(ss), rev, t), rev, |ss|) == Got((), t)
  {
    if ss != [] {
      var rest := Laid(StatesFields(ss[1..]), rev, t);
      StatesSkipped(ss[1..], rev, t);
      LaidJoined(StateFields(ss[0]), StatesFields(ss[1..]), rev, t);
      StateSkipped(ss[0], rev, rest);
    }
  }

  lemma SkipTwice(b: seq<byte>, m: nat, n: nat)
    requires m <= |b|
    ensures B.Skip(b, m + n) == B.Skip(b[m..], n)
  {
    if m + n <= |b| { assert b[m..][n..] == b[m + n..]; }
  }

  lemma {:induction false} UuidsSkipped(us: seq<Uuid>, rev: int, t: seq<byte>)
    ensures B.Skip(Laid(UuidFields(us), rev, t), 16 * |us|) == Got((), t)
  {
    if us != [] {
      var rest := Laid(UuidFields(us[1..]), rev, t);
      UuidsSkipped(us[1..], rev, t);
      UuidLaid(us[0], UuidFields(us[1..]), rev, t);
      SkipTwice(Laid(UuidFields(us), rev, t), 16, 16 * |us[1..]|);
    }
  }

  lemma UuidLaid(u: Uuid, others: seq<Field>, rev: int, t: seq<byte>)
    ensures var b := Laid([Always(Word(u.high)), Always(Word(u.low))] + others, rev, t);
            |b| >= 16 && b[16..] == Laid(others, rev, t)
  {
    var fs, rest := [Always(Word(u.high)), Always(Word(u.low))], Laid(others, rev, t);
    LaidJoined(fs, others, rev, t);
    LaidFew(fs, rev, rest);
    var high, low := PutUInt64(u.high), PutUInt64(u.low);
    assert (high + (low + rest))[16..] == rest;
  }

  lemma CountedSkipped(n: u64, fs: seq<Field>, rev: int, t: seq<byte>)
    ensures UVarInt(Laid([Always(VarInt(n))] + fs, rev, t)) == Got(n, Laid(fs, rev, t))
  {
    LaidJoined([Always(VarInt(n))], fs, rev, t);
    LaidFew([Always(VarInt(n))], rev, Laid(fs, rev, t));
    UVarIntPut(n, Laid(fs, rev, t));
  }

  // ---------------------------------------------------------------------------
  // Whole packets

  /** Table columns are compressed with the result from revision 54481 on. */
  predicate InFrames(p: ServerPacket, s: B.Session) {
    p.TableColumns? && s.rev >= 54481 && s.compression
  }

  function ServerBytes(p: ServerPacket, rev: int, t: seq<byte>): (b: seq<byte>)
    requires ServerFits(p)
  {
    Laid(ServerFields(p), rev, t)
  }

  function ClientBytes(p: ClientPacket, rev: int, t: seq<byte>): (b: seq<byte>)
    requires ClientFits(p)
  {
    Laid(ClientFields(p), rev, t)
  }

  lemma TextEnds(text: seq<byte>, rev: int, t: seq<byte>)
    requires Short(text)
    ensures Str(Laid([Always(Text(text))], rev, t)) == Got(text, t)
  {
    LaidFew([Always(Text(text))], rev, t);
    StrPut(text, t);
  }

  lemma ColumnsEnd(first: seq<byte>, second: seq<byte>, rev: int, t: seq<byte>)
    requires Short(first) && Short(second)
    ensures B.StrPairs(Laid([Always(Text(first)), Always(Text(second))], rev, t), 1) == Got((), t)
  {
    LaidFew([Always(Text(first)), Always(Text(second))], rev, t);
    OnePair(first, second, t);
  }

  /** The body ends at `t`. */
  predicate Ends(p: ServerPacket, s: B.Session, t: seq<byte>)
    requires ServerFits(p)
  {
    B.ServerBody(ServerBytes(p, s.rev, t), ServerCode(p), s) == Got((), t)
  }

  lemma TableColumnsEnds(p: ServerPacket, s: B.Session, t: seq<byte>)
    requires ServerFits(p) && p.TableColumns? && !InFrames(p, s)
    ensures Ends(p, s, t)
  {
    ColumnsEnd(p.first, p.second, s.rev, t);
  }

  lemma TimezoneEnds(p: ServerPacket, s: B.Session, t: seq<byte>)
    requires ServerFits(p) && p.TimezoneUpdate?
    ensures Ends(p, s, t)
  {
    TextEnds(p.zone, s.rev, t);
  }

  lemma ChallengeEnds(p: ServerPacket, s: B.Session, t: seq<byte>)
    requires ServerFits(p) && p.SshChallenge?
    ensures Ends(p, s, t)
  {
    TextEnds(p.challenge, s.rev, t);
  }

  lemma TablesStatusEnds(p: ServerPacket, s: B.Session, t: seq<byte>)
    requires ServerFits(p) && p.TablesStatus?
    ensures Ends(p, s, t)
  {
    StatusSkipped(p.states, s.rev, t);
  }

  lemma {:induction false} StatusSkipped(states: seq<TableState>, rev: int, t: seq<byte>)
    requires |states| < TWO_63 && forall i :: 0 <= i < |states| ==> NameFits(states[i].name)
    ensures B.TablesStatusResponse(Laid([Always(VarInt(|states|))] + StatesFields(states), rev, t), rev) == Got((), t)
  {
    CountedSkipped(|states|, StatesFields(states), rev, t);
    StatesSkipped(states, rev, t);
  }

  lemma PartUuidsEnds(p: ServerPacket, s: B.Session, t: seq<byte>)
    requires ServerFits(p) && p.PartUuids?
    ensures Ends(p, s, t)
  {
    CountedSkipped(|p.uuids|, UuidFields(p.uuids), s.rev, t);
    UuidsSkipped(p.uuids, s.rev, t);
  }

  lemma ExceptionEnds(p: ServerPacket, s: B.Session, t: seq<byte>)
    requires ServerFits(p) && p.Exception?
    ensures Ends(p, s, t)
  {
    ExceptionSkipped(LittleEndian(p.code, 4), p.name, p.message, p.stack, p.nested, s.rev, t);
  }

  lemma ProgressEnds(p: ServerPacket, s: B.Session, t: seq<byte>)
    requires ServerFits(p) && p.Progress?
    ensures Ends(p, s, t)
  {
    ProgressSkipped(p, s.rev, t);
  }

  lemma ProfileEnds(p: ServerPacket, s: B.Session, t: seq<byte>)
    requires ServerFits(p) && p.Profile?
    ensures Ends(p, s, t)
  {
    ProfileSkipped(p, s.rev, t);
  }

  lemma EmptyEnds(p: ServerPacket, s: B.Session, t: seq<byte>)
    requires p.Pong? || p.EndOfStream? || p.ReadTaskRequest?
    ensures ServerFits(p) && Ends(p, s, t)
  {
  }

  /** The body of every packet a server writes ends where the server ended it. */
  lemma ServerBodyEnds(p: ServerPacket, s: B.Session, t: seq<byte>)
    requires ServerFits(p) && !InFrames(p, s)
    ensures Ends(p, s, t)
  {
    if p.TableColumns? { TableColumnsEnds(p, s, t); }
    else if p.TimezoneUpdate? { TimezoneEnds(p, s, t); }
    else if p.SshChallenge? { ChallengeEnds(p, s, t); }
    else if p.TablesStatus? { TablesStatusEnds(p, s, t); }
    else if p.PartUuids? { PartUuidsEnds(p, s, t); }
    else if p.Exception? { ExceptionEnds(p, s, t); }
    else if p.Progress? { ProgressEnds(p, s, t); }
    else if p.Profile? { ProfileEnds(p, s, t); }
    else { EmptyEnds(p, s, t); }
  }

  /** The bytes are the body of `p`, and then `t`. */
  predicate Written(b: seq<byte>, p: ServerPacket, s: B.Session, t: seq<byte>) {
    |t| <= |b| && ServerFits(p) && !InFrames(p, s) && b == ServerBytes(p, s.rev, t)
  }

  /** And so does the body of every packet a client writes. */
  lemma ClientBodyEnds(p: ClientPacket, s: B.Session, t: seq<byte>)
    requires ClientFits(p)
    ensures B.ClientBody(ClientBytes(p, s.rev, t), ClientCode(p), s) == Got((), t)
  {
    if p.TablesStatusRequest? {
      CountedSkipped(|p.tables|, NamesFields(p.tables), s.rev, t);
      NamesSkipped(p.tables, s.rev, t);
    }
  }

  // ---------------------------------------------------------------------------
  // Blocks

  datatype InfoField = Overflows(on: bool) | Bucket(number: u32) | OutOfOrder(numbers: seq<u32>)

  function Words(ns: seq<u32>): (b: seq<byte>)
    ensures |b| == 4 * |ns|
  {
    if ns == [] then [] else LittleEndian(ns[0], 4) + Words(ns[1..])
  }

  /** A block info is numbered fields, and a zero. */
  function InfoThen(fs: seq<InfoField>, t: seq<byte>): (b: seq<byte>)
    requires InfoFits(fs)
  {
    if fs == [] then PutUVarInt(0) + t
    else
      match fs[0]
      case Overflows(on) => PutUVarInt(1) + (PutBool(on) + InfoThen(fs[1..], t))
      case Bucket(number) => PutUVarInt(2) + (LittleEndian(number, 4) + InfoThen(fs[1..], t))
      case OutOfOrder(numbers) =>
        PutUVarInt(3) + (PutUVarInt(|numbers|) + (Words(numbers) + InfoThen(fs[1..], t)))
  }

  predicate InfoFits(fs: seq<InfoField>) {
    fs == [] || ((fs[0].OutOfOrder? ==> |fs[0].numbers| < TWO_63) && InfoFits(fs[1..]))
  }

  lemma SkipOff(b: seq<byte>, t: seq<byte>)
    ensures B.Skip(b + t, |b|) == Got((), t)
  {
    assert (b + t)[|b|..] == t;
  }

  lemma InfoFieldSkipped(f: InfoField, rest: seq<byte>)
    requires f.OutOfOrder? ==> |f.numbers| < TWO_63
    ensures match f
            case Overflows(on) => B.BlockInfoField(PutBool(on) + rest, 1) == Got((), rest)
            case Bucket(number) => B.BlockInfoField(LittleEndian(number, 4) + rest, 2) == Got((), rest)
            case OutOfOrder(numbers) =>
              B.BlockInfoField(PutUVarInt(|numbers|) + (Words(numbers) + rest), 3) == Got((), rest)
  {
    match f
    case Overflows(on) => BoolPut(on, rest);
    case Bucket(number) => SkipOff(LittleEndian(number, 4), rest);
    case OutOfOrder(numbers) =>
      UVarIntPut(|numbers|, Words(numbers) + rest);
      SkipOff(Words(numbers), rest);
  }

  lemma InfoStep(n: u64, b1: seq<byte>, rest: seq<byte>)
    requires n != 0 && B.BlockInfoField(b1, n) == Got((), rest)
    ensures B.BlockInfo(PutUVarInt(n) + b1) == B.BlockInfo(rest)
  {
    UVarIntPut(n, b1);
  }

  /** The block info is skipped to its end. */
  lemma {:induction false} InfoSkipped(fs: seq<InfoField>, t: seq<byte>)
    requires InfoFits(fs)
    ensures B.BlockInfo(InfoThen(fs, t)) == Got((), t)
  {
    if fs == [] {
      UVarIntPut(0, t);
    } else {
      var rest := InfoThen(fs[1..], t);
      InfoSkipped(fs[1..], t);
      InfoFieldSkipped(fs[0], rest);
      match fs[0]
      case Overflows(on) => InfoStep(1, PutBool(on) + rest, rest);
      case Bucket(number) => InfoStep(2, LittleEndian(number, 4) + rest, rest);
      case OutOfOrder(numbers) => InfoStep(3, PutUVarInt(|numbers|) + (Words(numbers) + rest), rest);
    }
  }

  /** What follows the info of a plain block: two zeros for no columns and no rows, or a Native
      block as the library measures it. */
  predicate Columns(x: seq<byte>, w: B.Walkers, t: seq<byte>) {
    x == [0, 0] || (!([0, 0] <= x + t) && w.block(x + t) == Some(|x|))
  }

  lemma PlainBlockEnds(name: seq<byte>, info: seq<InfoField>, x: seq<byte>, w: B.Walkers, t: seq<byte>)
    requires Short(name) && InfoFits(info) && Columns(x, w, t)
    ensures B.DataBlock(PutStr(name) + InfoThen(info, x + t), false, w) == Got((), t)
  {
    StrPut(name, InfoThen(info, x + t));
    InfoSkipped(info, x + t);
    SkipOff(x, t);
    assert B.StartsEmpty(x + t) <==> [0, 0] <= x + t;
  }

  /** A compressed block: whole frames that decompress to exactly one body, the first and the last
      of which have data, and no long run of which has none. */
  ghost predicate FramesOf(fs: seq<seq<byte>>, d: CompressedFrames.Decompress, body: CompressedFrames.Body) {
    && fs != [] && CompressedFrames.Decodes(fs, d)
    && CompressedFrames.Data(fs[0], d) != [] && CompressedFrames.EndsInData(fs, d)
    && !CompressedFrames.LongEmptyRun(fs, d)
    && CompressedFrames.Ends(body, CompressedFrames.DataOf(fs, d), 0, 0)
  }

  lemma FramesEnd(fs: seq<seq<byte>>, d: CompressedFrames.Decompress, body: CompressedFrames.Body, t: seq<byte>)
    requires FramesOf(fs, d, body)
    ensures B.Frames(Concat(fs) + t, d, body) == Got((), t)
  {
    CompressedFrames.WalkSucceedsIff(fs, t, d, body);
  }

  lemma CompressedBlockEnds(name: seq<byte>, fs: seq<seq<byte>>, w: B.Walkers, t: seq<byte>)
    requires Short(name) && FramesOf(fs, w.decompress, w.blockBody)
    ensures B.DataBlock(PutStr(name) + (Concat(fs) + t), true, w) == Got((), t)
  {
    StrPut(name, Concat(fs) + t);
    FramesEnd(fs, w.decompress, w.blockBody, t);
  }

  datatype ServerBlock = Data | Totals | Extremes | Log | ProfileEvents

  datatype ClientBlock = ClientData | Scalar

  function ServerBlockCode(k: ServerBlock): (code: u64) {
    match k
    case Data => 1
    case Totals => 7
    case Extremes => 8
    case Log => 10
    case ProfileEvents => 14
  }

  function ClientBlockCode(k: ClientBlock): (code: u64) { if k.ClientData? then 2 else 7 }

  /** Logs and profile events are compressed with the result from revision 54481 on. */
  predicate Compressed(k: ServerBlock, s: B.Session) {
    s.compression && (k.Log? || k.ProfileEvents? ==> s.rev >= 54481)
  }

  /** The bytes of a block, and then `t`. */
  ghost predicate BlockBytes(b: seq<byte>, compressed: bool, w: B.Walkers, t: seq<byte>) {
    if compressed then
      exists name, fs :: Short(name) && FramesOf(fs, w.decompress, w.blockBody) && b == PutStr(name) + (Concat(fs) + t)
    else
      exists name, info, x ::
        Short(name) && InfoFits(info) && Columns(x, w, t) && b == PutStr(name) + InfoThen(info, x + t)
  }

  lemma BlockEnds(b: seq<byte>, compressed: bool, w: B.Walkers, t: seq<byte>)
    requires BlockBytes(b, compressed, w, t)
    ensures B.DataBlock(b, compressed, w) == Got((), t)
  {
    if compressed {
      var name, fs :|
        Short(name) && FramesOf(fs, w.decompress, w.blockBody) && b == PutStr(name) + (Concat(fs) + t);
      CompressedBlockEnds(name, fs, w, t);
    } else {
      var name, info, x :|
        Short(name) && InfoFits(info) && Columns(x, w, t) && b == PutStr(name) + InfoThen(info, x + t);
      PlainBlockEnds(name, info, x, w, t);
    }
  }

  /** A block a server writes ends where the server ended it. */
  lemma ServerBlockEnds(k: ServerBlock, s: B.Session, b: seq<byte>, t: seq<byte>)
    requires BlockBytes(b, Compressed(k, s), s.walkers, t)
    ensures B.ServerBody(b, ServerBlockCode(k), s) == Got((), t)
  {
    BlockEnds(b, Compressed(k, s), s.walkers, t);
  }

  lemma ClientBlockEnds(k: ClientBlock, s: B.Session, b: seq<byte>, t: seq<byte>)
    requires BlockBytes(b, s.compression, s.walkers, t)
    ensures B.ClientBody(b, ClientBlockCode(k), s) == Got((), t)
  {
    BlockEnds(b, s.compression, s.walkers, t);
  }

  /** Compressed table columns end with their last frame. */
  lemma ColumnFramesEnd(fs: seq<seq<byte>>, s: B.Session, t: seq<byte>)
    requires s.compression && s.rev >= 54481 && FramesOf(fs, s.walkers.decompress, s.walkers.columnsBody)
    ensures B.ServerBody(Concat(fs) + t, 11, s) == Got((), t)
  {
    FramesEnd(fs, s.walkers.decompress, s.walkers.columnsBody, t);
  }

  /** Nothing else is skipped: a client packet of another type, or a server one, is refused. */
  lemma OthersRefused(b: seq<byte>, code: nat, s: B.Session)
    ensures B.ClientBody(b, code, s).Got? ==> code in {2, 3, 4, 5, 7}
    ensures B.ServerBody(b, code, s).Got? ==> 1 <= code <= 14 || code == 17 || code == 18
  {
  }

  // ---------------------------------------------------------------------------
  // The type and the body

  /** The bytes are a packet the server writes, and then `t`. */
  ghost predicate FromServer(b: seq<byte>, code: u64, s: B.Session, t: seq<byte>) {
    || (exists p :: ServerFits(p) && !InFrames(p, s) && ServerCode(p) == code && b == ServerBytes(p, s.rev, t))
    || (exists k :: ServerBlockCode(k) == code && BlockBytes(b, Compressed(k, s), s.walkers, t))
  }

  ghost predicate FromPeer(b: seq<byte>, code: u64, s: B.Session, t: seq<byte>) {
    if s.dir == B.FromClient then ByClient(b, code, s, t) else FromServer(b, code, s, t)
  }

  ghost predicate ByClient(b: seq<byte>, code: u64, s: B.Session, t: seq<byte>) {
    || (exists p :: ClientFits(p) && ClientCode(p) == code && b == ClientBytes(p, s.rev, t))
    || (exists k :: ClientBlockCode(k) == code && BlockBytes(b, s.compression, s.walkers, t))
  }

  lemma FromServerEnds(b: seq<byte>, code: u64, s: B.Session, t: seq<byte>)
    requires FromServer(b, code, s, t)
    ensures B.ServerBody(b, code, s) == Got((), t)
  {
    if exists p :: ServerFits(p) && !InFrames(p, s) && ServerCode(p) == code && b == ServerBytes(p, s.rev, t) {
      var p :| ServerFits(p) && !InFrames(p, s) && ServerCode(p) == code && b == ServerBytes(p, s.rev, t);
      ServerBodyEnds(p, s, t);
    } else {
      var k :| ServerBlockCode(k) == code && BlockBytes(b, Compressed(k, s), s.walkers, t);
      ServerBlockEnds(k, s, b, t);
    }
  }

  lemma ByClientEnds(b: seq<byte>, code: u64, s: B.Session, t: seq<byte>)
    requires ByClient(b, code, s, t)
    ensures B.ClientBody(b, code, s) == Got((), t)
  {
    if exists p :: ClientFits(p) && ClientCode(p) == code && b == ClientBytes(p, s.rev, t) {
      var p :| ClientFits(p) && ClientCode(p) == code && b == ClientBytes(p, s.rev, t);
      ClientBodyEnds(p, s, t);
    } else {
      var k :| ClientBlockCode(k) == code && BlockBytes(b, s.compression, s.walkers, t);
      ClientBlockEnds(k, s, b, t);
    }
  }

  /** The bytes are the type of a packet, the packet as its peer writes it, and then `t`. */
  ghost predicate PacketThen(b: seq<byte>, code: u64, s: B.Session, t: seq<byte>) {
    exists body :: b == PutUVarInt(code) + body && FromPeer(body, code, s, t)
  }

  /** Whatever either peer writes, the packet at the head of the stream ends where it ended it. */
  lemma PacketEnds(b: seq<byte>, code: u64, s: B.Session, t: seq<byte>)
    requires PacketThen(b, code, s, t)
    ensures B.Packet(b, s) == Got(code, t)
  {
    var body :| b == PutUVarInt(code) + body && FromPeer(body, code, s, t);
    UVarIntPut(code, body);
    if s.dir == B.FromClient { ByClientEnds(body, code, s, t); } else { FromServerEnds(body, code, s, t); }
  }
}
