/** The commit-gate observer: DDL and DCL statements applied to the in-memory network
    state, each with the undo action it stashes for a later server-side rejection.
 */
module CommitGate {
  import opened Options
  import opened NetworkState

  datatype StatementType =
    | CreateDatabase | DropDatabase
    | CreateTable | DropTable
    | CreateView | CreateMaterializedView | DropView
    | Grant | Revoke
    | OtherStatement(name: string)

  datatype PrivilegeAction = ActionUnspecified | ActionGrant | ActionRevoke

  datatype CategoryBit = CategoryRead | CategoryWrite | CategoryAdmin | CategoryOther(position: nat)

  datatype Grantee = Grantee(name: string, isCurrentUser: bool)

  datatype PrivilegeDelta = PrivilegeDelta(
    action: PrivilegeAction, logicalDatabase: string, category: set<CategoryBit>, grantees: seq<Grantee>)

  datatype AccessedTable = AccessedTable(logicalDatabase: string, originalTable: string)

  datatype Event = Event(
    kind: StatementType, tables: seq<AccessedTable>, user: string, deltas: seq<PrivilegeDelta>)

  /** Pre-mutation view of the touched pairs; None means there was no entry. */
  type Snapshots = map<(Account, Database), Option<DbAuth>>

  /** The closure a statement stashes, as data. */
  datatype Undo =
    | NoUndo
    | UnregisterDatabase(db: Database, account: Account)
    | RestoreDatabase(db: Database, info: DatabaseInfo, entries: Snapshots)
    | RemoveTable(db: Database, tableId: string)
    | ReinsertTable(db: Database, index: nat, table: TableInfo)
    | RestoreEntries(entries: Snapshots)

  datatype Outcome = Outcome(state: State, accepted: bool, undo: Undo)

  // ---------------------------------------------------------------------------
  // Checks

  predicate CanWrite(p: Perms, a: Account, db: Database) {
    Owner in Bits(p, a, db) || Write in Bits(p, a, db)
  }

  predicate CanAdmin(p: Perms, a: Account, db: Database) {
    Owner in Bits(p, a, db) || Admin in Bits(p, a, db)
  }

  function CategoryToDbAuth(c: set<CategoryBit>): (bits: DbAuth)
    ensures bits <= {Read, Write, Admin}
  {
    (if CategoryRead in c then {Read} else {}) +
    (if CategoryWrite in c then {Write} else {}) +
    (if CategoryAdmin in c then {Admin} else {})
  }

  // ---------------------------------------------------------------------------
  // Privilege deltas as a list of single-pair operations

  datatype Op = Op(account: Account, db: Database, action: PrivilegeAction, bits: DbAuth)

  function GranteeOps(d: PrivilegeDelta, gs: seq<Grantee>, executor: Account): (ops: seq<Op>)
  {
    if gs == [] then []
    else
      var g := gs[|gs| - 1];
      var account := if g.isCurrentUser then executor else g.name;
      GranteeOps(d, gs[..|gs| - 1], executor) +
      if account == "" then [] else [Op(account, d.logicalDatabase, d.action, CategoryToDbAuth(d.category))]
  }

  /** One more grantee is one more operation, unless it names nobody. */
  lemma GranteeOpsStep(done: seq<Op>, d: PrivilegeDelta, j: nat, executor: Account)
    requires j < |d.grantees|
    ensures var g := d.grantees[j];
            var account := if g.isCurrentUser then executor else g.name;
            var sofar := done + GranteeOps(d, d.grantees[..j], executor);
            done + GranteeOps(d, d.grantees[..j + 1], executor)
            == if account == "" then sofar
               else sofar + [Op(account, d.logicalDatabase, d.action, CategoryToDbAuth(d.category))]
  {
    var sofar := GranteeOps(d, d.grantees[..j], executor);
    assert d.grantees[..j + 1][..j] == d.grantees[..j];
    assert sofar + [] == sofar;
  }

  predicate Skips(d: PrivilegeDelta) {
    d.logicalDatabase == "" || CategoryToDbAuth(d.category) == {}
  }

  function DeltaOps(ds: seq<PrivilegeDelta>, executor: Account): (ops: seq<Op>)
  {
    if ds == [] then []
    else
      var d := ds[|ds| - 1];
      DeltaOps(ds[..|ds| - 1], executor) + if Skips(d) then [] else GranteeOps(d, d.grantees, executor)
  }

  function Next(cur: DbAuth, op: Op): (next: DbAuth) {
    match op.action
    case ActionGrant => cur + op.bits
    case ActionRevoke => cur - op.bits
    case ActionUnspecified => cur
  }

  function StepOp(p: Perms, op: Op): (p': Perms)
    ensures NoEmptyInner(p) ==> NoEmptyInner(p')
    ensures forall a, d :: (a, d) != (op.account, op.db) ==> Entry(p', a, d) == Entry(p, a, d)
  {
    var next := Next(Bits(p, op.account, op.db), op);
    if op.action == ActionUnspecified then p
    else if next == {} then Drop(p, op.account, op.db)
    else Put(p, op.account, op.db, next)
  }

  function ApplyOps(p: Perms, ops: seq<Op>): (p': Perms)
    ensures NoEmptyInner(p) ==> NoEmptyInner(p')
    ensures forall a, d :: (a, d) !in Pairs(ops) ==> Entry(p', a, d) == Entry(p, a, d)
  {
    if ops == [] then p else StepOp(ApplyOps(p, ops[..|ops| - 1]), ops[|ops| - 1])
  }

  ghost function Pairs(ops: seq<Op>): (ps: set<(Account, Database)>) {
    set op | op in ops :: (op.account, op.db)
  }

  ghost function SnapshotsOf(p: Perms, ops: seq<Op>): (snaps: Snapshots) {
    map k | k in Pairs(ops) :: Entry(p, k.0, k.1)
  }

  lemma SnapshotOneMore(p: Perms, done: seq<Op>, op: Op)
    ensures ApplyOps(p, done + [op]) == StepOp(ApplyOps(p, done), op)
    ensures var k := (op.account, op.db); var snaps := SnapshotsOf(p, done);
            SnapshotsOf(p, done + [op]) ==
              if k in snaps then snaps else snaps[k := Entry(ApplyOps(p, done), op.account, op.db)]
  {
    assert (done + [op])[..|done|] == done;
    assert Pairs(done + [op]) == Pairs(done) + {(op.account, op.db)} by {
      assert forall x :: x in done + [op] <==> x in done || x == op;
    }
  }

  // ---------------------------------------------------------------------------
  // Statements

  function SweepDatabase(p: Perms, db: Database): (p': Perms)
    ensures NoEmptyInner(p')
    ensures forall a, d :: Entry(p', a, d) == if d == db then None else Entry(p, a, d)
  {
    assert forall a, d :: a in p && d in p[a] && d != db ==> d in p[a] - {db};
    map a | a in p && p[a] - {db} != map[] :: p[a] - {db}
  }

  ghost function DatabaseEntries(p: Perms, db: Database): (snaps: Snapshots)
    ensures forall a, d :: (a, d) in snaps <==> d == db && Entry(p, a, d).Some?
    ensures forall a, d :: (a, d) in snaps ==> snaps[(a, d)] == Entry(p, a, d)
  {
    var keys := set a | a in p && db in p[a] :: (a, db);
    map k | k in keys :: Entry(p, k.0, k.1)
  }

  function WithTables(s: State, db: Database, ts: seq<TableInfo>): (s': State)
    requires db in s.infos
  {
    s.(infos := s.infos[db := s.infos[db].(tables := ts)])
  }

  function AddTable(s: State, account: Account, db: Database, t: TableInfo): (o: Outcome) {
    if t.tableId == "" || db !in s.infos || !CanWrite(s.perms, account, db) then Outcome(s, false, NoUndo)
    else
      var ts := s.infos[db].tables;
      if IndexOf(ts, t.tableId) < |ts| then Outcome(s, true, NoUndo)
      else Outcome(WithTables(s, db, ts + [t]), true, RemoveTable(db, t.tableId))
  }

  function DeleteTable(s: State, account: Account, db: Database, id: string): (o: Outcome) {
    if id == "" then Outcome(s, false, NoUndo)
    else if db !in s.infos then Outcome(s, true, NoUndo)
    else if !CanWrite(s.perms, account, db) then Outcome(s, false, NoUndo)
    else
      var ts := s.infos[db].tables;
      var i := IndexOf(ts, id);
      if i == |ts| then Outcome(s, true, NoUndo)
      else Outcome(WithTables(s, db, RemoveAt(ts, i)), true, ReinsertTable(db, i, ts[i]))
  }

  function NewTable(id: string, kind: string): (t: TableInfo) {
    TableInfo(id, kind, 0, "")
  }

  function RegisterDatabase(s: State, account: Account, db: Database, indexerId: nat): (o: Outcome) {
    if db in s.infos then Outcome(s, IsOwner(s, account, db), NoUndo)
    else
      Outcome(State(s.infos[db := DatabaseInfo(db, 0, indexerId, "", false, [])],
                    Put(s.perms, account, db, Bits(s.perms, account, db) + {Owner})),
              true, UnregisterDatabase(db, account))
  }

  ghost function DeleteDatabase(s: State, account: Account, db: Database): (o: Outcome) {
    if db !in s.infos then Outcome(s, true, NoUndo)
    else if !IsOwner(s, account, db) then Outcome(s, false, NoUndo)
    else
      Outcome(State(s.infos - {db}, SweepDatabase(s.perms, db)), true,
              RestoreDatabase(db, s.infos[db], DatabaseEntries(s.perms, db)))
  }

  ghost function ApplyPrivileges(s: State, account: Account, db: Database, ds: seq<PrivilegeDelta>): (o: Outcome) {
    if db !in s.infos || !CanAdmin(s.perms, account, db) then Outcome(s, false, NoUndo)
    else
      var ops := DeltaOps(ds, account);
      Outcome(s.(perms := ApplyOps(s.perms, ops)), true,
              if ops == [] then NoUndo else RestoreEntries(SnapshotsOf(s.perms, ops)))
  }

  /** One statement: the new state, whether it passes, and the undo it stashes. */
  ghost function Apply(s: State, ev: Event, indexerId: nat): (o: Outcome)
    ensures !o.accepted ==> o.state == s && o.undo == NoUndo
  {
    if ev.tables == [] || ev.tables[0].logicalDatabase == "" then Outcome(s, false, NoUndo)
    else
      var db := ev.tables[0].logicalDatabase;
      var id := ev.tables[0].originalTable;
      var account := ev.user;
      match ev.kind
      case CreateDatabase => RegisterDatabase(s, account, db, indexerId)
      case DropDatabase => DeleteDatabase(s, account, db)
      case CreateTable => AddTable(s, account, db, NewTable(id, ""))
      case CreateView => AddTable(s, account, db, NewTable(id, "VIEW"))
      case CreateMaterializedView => AddTable(s, account, db, NewTable(id, "MATERIALIZED_VIEW"))
      case DropTable => DeleteTable(s, account, db, id)
      case DropView => DeleteTable(s, account, db, id)
      case Grant => ApplyPrivileges(s, account, db, ev.deltas)
      case Revoke => ApplyPrivileges(s, account, db, ev.deltas)
      case OtherStatement(_) => Outcome(s, true, NoUndo)
  }

  ghost predicate Names(snaps: Snapshots, a: Account) { exists d :: (a, d) in snaps }

  /** What restoring leaves of the inner map of one account: a named one is never left empty. */
  ghost predicate InnerKept(p: Perms, snaps: Snapshots, a: Account, p': Perms) {
    if Names(snaps, a) then a in p' ==> p'[a] != map[]
    else (a in p' <==> a in p) && (a in p ==> p'[a] == p[a])
  }

  lemma InnerKeptStep(p: Perms, snaps: Snapshots, k: (Account, Database), p1: Perms, p': Perms, a: Account)
    requires k in snaps
    requires p1 == if snaps[k].Some? then Put(p, k.0, k.1, snaps[k].value) else Drop(p, k.0, k.1)
    requires InnerKept(p1, snaps - {k}, a, p')
    ensures InnerKept(p, snaps, a, p')
  {
    if Names(snaps, a) && a != k.0 {
      var d :| (a, d) in snaps;
      assert (a, d) in snaps - {k};
    }
  }

  /** Restore the captured entries, in any order. */
  ghost function Restored(p: Perms, snaps: Snapshots): (p': Perms)
    ensures NoEmptyInner(p) ==> NoEmptyInner(p')
    ensures forall a :: InnerKept(p, snaps, a, p')
    ensures forall a, d :: Entry(p', a, d) == if (a, d) in snaps then snaps[(a, d)] else Entry(p, a, d)
    decreases |snaps|
  {
    if snaps == map[] then p
    else
      var k :| k in snaps;
      assert (snaps - {k}).Keys == snaps.Keys - {k};
      var p1 := if snaps[k].Some? then Put(p, k.0, k.1, snaps[k].value) else Drop(p, k.0, k.1);
      var p' := Restored(p1, snaps - {k});
      assert forall a :: InnerKept(p, snaps, a, p') by {
        forall a ensures InnerKept(p, snaps, a, p') { InnerKeptStep(p, snaps, k, p1, p', a); }
      }
      p'
  }

  /** What the stashed closure does when the server rejects the statement. */
  ghost function Revert(s: State, u: Undo): (s': State) {
    match u
    case NoUndo => s
    case UnregisterDatabase(db, account) => State(s.infos - {db}, Drop(s.perms, account, db))
    case RestoreDatabase(db, info, entries) => State(s.infos[db := info], Restored(s.perms, entries))
    case RemoveTable(db, id) =>
      if db !in s.infos then s
      else
        var ts := s.infos[db].tables;
        var i := IndexOf(ts, id);
        if i == |ts| then s else WithTables(s, db, RemoveAt(ts, i))
    case ReinsertTable(db, index, table) =>
      if db !in s.infos then s
      else
        var ts := s.infos[db].tables;
        WithTables(s, db, if index <= |ts| then InsertAt(ts, index, table) else ts + [table])
    case RestoreEntries(entries) => s.(perms := Restored(s.perms, entries))
  }

  // ---------------------------------------------------------------------------
  // Exact undo

  /** The account has an inner map and nothing in it. */
  predicate Blank(p: Perms, a: Account) { a in p && p[a] == map[] }

  lemma UndoRegisterIff(s: State, account: Account, db: Database, indexerId: nat)
    ensures var o := RegisterDatabase(s, account, db, indexerId);
            Revert(o.state, o.undo) == s <==>
            db in s.infos || (Entry(s.perms, account, db).None? && !Blank(s.perms, account))
  {
    if db !in s.infos {
      var o := RegisterDatabase(s, account, db, indexerId);
      assert o.state.infos - {db} == s.infos;
      var p' := Drop(o.state.perms, account, db);
      if Entry(s.perms, account, db).None? && account in s.perms {
        assert s.perms[account][db := Bits(o.state.perms, account, db)] - {db} == s.perms[account];
      }
      if Entry(s.perms, account, db).None? && !Blank(s.perms, account) { assert p' == s.perms; }
    }
  }

  lemma UndoDeleteIff(s: State, account: Account, db: Database)
    ensures var o := DeleteDatabase(s, account, db);
            Revert(o.state, o.undo) == s <==>
            !(db in s.infos && IsOwner(s, account, db) && exists a :: Blank(s.perms, a))
  {
    if db in s.infos && IsOwner(s, account, db) {
      assert (s.infos - {db})[db := s.infos[db]] == s.infos;
      SweepRestoresIff(s.perms, db);
    }
  }

  lemma SweepRestoresIff(p: Perms, db: Database)
    ensures Restored(SweepDatabase(p, db), DatabaseEntries(p, db)) == p <==> !exists a :: Blank(p, a)
  {
    var p' := Restored(SweepDatabase(p, db), DatabaseEntries(p, db));
    assert NoEmptyInner(p');
    if a :| Blank(p, a) {
      assert a in p' ==> p'[a] != map[];
    } else {
      assert forall a :: a in p ==> !Blank(p, a);
      EntriesDetermine(p', p);
    }
  }

  lemma UndoAddTable(s: State, account: Account, db: Database, t: TableInfo)
    ensures var o := AddTable(s, account, db, t); Revert(o.state, o.undo) == s
  {
    var o := AddTable(s, account, db, t);
    if o.undo != NoUndo {
      var ts := s.infos[db].tables;
      var ts' := ts + [t];
      assert ts'[|ts|].tableId == t.tableId;
      assert IndexOf(ts', t.tableId) == |ts|;
      assert RemoveAt(ts', |ts|) == ts;
      assert o.state.infos[db := s.infos[db]] == s.infos;
    }
  }

  lemma UndoDeleteTable(s: State, account: Account, db: Database, id: string)
    ensures var o := DeleteTable(s, account, db, id); Revert(o.state, o.undo) == s
  {
    var o := DeleteTable(s, account, db, id);
    if o.undo != NoUndo {
      var ts := s.infos[db].tables;
      var i := IndexOf(ts, id);
      assert InsertAt(RemoveAt(ts, i), i, ts[i]) == ts;
      assert o.state.infos[db := s.infos[db]] == s.infos;
    }
  }

  lemma NamedByOps(p: Perms, ops: seq<Op>, a: Account)
    ensures Names(SnapshotsOf(p, ops), a) <==> exists op :: op in ops && op.account == a
  {
    if op :| op in ops && op.account == a { assert (a, op.db) in SnapshotsOf(p, ops); }
  }

  /** The inner map of one account after the snapshots were restored. */
  lemma SnapshotsRestoreInner(p: Perms, ops: seq<Op>, a: Account)
    ensures var p' := Restored(ApplyOps(p, ops), SnapshotsOf(p, ops));
            if (exists op :: op in ops && op.account == a) && Blank(p, a) then a !in p' || p'[a] != map[]
            else (a in p' <==> a in p) && (a in p ==> p'[a] == p[a])
  {
    var p' := Restored(ApplyOps(p, ops), SnapshotsOf(p, ops));
    assert InnerKept(ApplyOps(p, ops), SnapshotsOf(p, ops), a, p');
    NamedByOps(p, ops, a);
    OpsLeaveNoEmptyInner(p, ops, a);
    if Names(SnapshotsOf(p, ops), a) && !Blank(p, a) { SameAccount(p, p', a, ops); }
  }

  lemma SameAccount(p: Perms, p': Perms, a: Account, ops: seq<Op>)
    requires p' == Restored(ApplyOps(p, ops), SnapshotsOf(p, ops)) && !Blank(p, a) && !Blank(p', a)
    ensures (a in p' <==> a in p) && (a in p ==> p'[a] == p[a])
  {
    forall d ensures Entry(p', a, d) == Entry(p, a, d) { SameEntry(p, ops, a, d); }
    if a in p { SameInner(p, p', a); }
    if a in p' { SameInner(p', p, a); }
  }

  lemma SameEntry(p: Perms, ops: seq<Op>, a: Account, db: Database)
    ensures Entry(Restored(ApplyOps(p, ops), SnapshotsOf(p, ops)), a, db) == Entry(p, a, db)
  {
    if (a, db) !in SnapshotsOf(p, ops) { assert (a, db) !in Pairs(ops); }
  }

  lemma SnapshotsRestoreIff(p: Perms, ops: seq<Op>)
    ensures Restored(ApplyOps(p, ops), SnapshotsOf(p, ops)) == p <==>
            forall op :: op in ops ==> !Blank(p, op.account)
  {
    var p' := Restored(ApplyOps(p, ops), SnapshotsOf(p, ops));
    if op :| op in ops && Blank(p, op.account) {
      SnapshotsRestoreInner(p, ops, op.account);
    } else {
      forall a ensures (a in p' <==> a in p) && (a in p ==> p'[a] == p[a]) { SnapshotsRestoreInner(p, ops, a); }
      assert p'.Keys == p.Keys;
    }
  }

  lemma UndoPrivilegesIff(s: State, account: Account, db: Database, ds: seq<PrivilegeDelta>)
    ensures var o := ApplyPrivileges(s, account, db, ds);
            Revert(o.state, o.undo) == s <==>
            !(&& db in s.infos && CanAdmin(s.perms, account, db)
              && exists op :: op in DeltaOps(ds, account) && Blank(s.perms, op.account))
  {
    var ops := DeltaOps(ds, account);
    if ops != [] {
      SnapshotsRestoreIff(s.perms, ops);
      RevertEntries(s.(perms := ApplyOps(s.perms, ops)), SnapshotsOf(s.perms, ops));
    }
  }

  lemma RevertEntries(s: State, snaps: Snapshots)
    ensures Revert(s, RestoreEntries(snaps)) == s.(perms := Restored(s.perms, snaps))
  {
  }

  /** What the stashed closure cannot take back: entries of a database that is not registered, and
      inner maps without entries. */
  ghost predicate Irreversible(s: State, ev: Event) {
    && ev.tables != [] && ev.tables[0].logicalDatabase != ""
    && var db := ev.tables[0].logicalDatabase;
       match ev.kind
       case CreateDatabase => db !in s.infos && (Entry(s.perms, ev.user, db).Some? || Blank(s.perms, ev.user))
       case DropDatabase => db in s.infos && IsOwner(s, ev.user, db) && exists a :: Blank(s.perms, a)
       case Grant => BlankGrantee(s, ev.user, db, ev.deltas)
       case Revoke => BlankGrantee(s, ev.user, db, ev.deltas)
       case _ => false
  }

  ghost predicate BlankGrantee(s: State, account: Account, db: Database, ds: seq<PrivilegeDelta>) {
    && db in s.infos && CanAdmin(s.perms, account, db)
    && exists op :: op in DeltaOps(ds, account) && Blank(s.perms, op.account)
  }

  /** In every state, the stashed closure takes a statement back exactly, table order and repeated
      pairs included, unless it is irreversible. */
  lemma UndoIsExactIff(s: State, ev: Event, indexerId: nat)
    ensures var o := Apply(s, ev, indexerId); Revert(o.state, o.undo) == s <==> !Irreversible(s, ev)
  {
    if ev.tables != [] && ev.tables[0].logicalDatabase != "" {
      var db, id := ev.tables[0].logicalDatabase, ev.tables[0].originalTable;
      match ev.kind
      case CreateDatabase => UndoRegisterIff(s, ev.user, db, indexerId);
      case DropDatabase => UndoDeleteIff(s, ev.user, db);
      case CreateTable => UndoAddTable(s, ev.user, db, NewTable(id, ""));
      case CreateView => UndoAddTable(s, ev.user, db, NewTable(id, "VIEW"));
      case CreateMaterializedView => UndoAddTable(s, ev.user, db, NewTable(id, "MATERIALIZED_VIEW"));
      case DropTable => UndoDeleteTable(s, ev.user, db, id);
      case DropView => UndoDeleteTable(s, ev.user, db, id);
      case Grant => UndoPrivilegesIff(s, ev.user, db, ev.deltas);
      case Revoke => UndoPrivilegesIff(s, ev.user, db, ev.deltas);
      case OtherStatement(_) =>
    }
  }

  /** An entry left over from a database that is not registered is lost when its creation is
      taken back. */
  lemma UndoNeedsNoLeftover()
    ensures exists s: State, ev: Event :: Revert(Apply(s, ev, 0).state, Apply(s, ev, 0).undo) != s
  {
    var s := State(map[], map["u" := map["d" := {Read}]]);
    var ev := Event(CreateDatabase, [AccessedTable("d", "")], "u", []);
    assert Entry(s.perms, "u", "d").Some?;
    UndoIsExactIff(s, ev, 0);
  }

  /** From a well-formed state every statement can be taken back. */
  lemma UndoIsExact(s: State, ev: Event, indexerId: nat)
    requires WellFormed(s)
    ensures var o := Apply(s, ev, indexerId); Revert(o.state, o.undo) == s
  {
    UndoIsExactIff(s, ev, indexerId);
  }

  // ---------------------------------------------------------------------------
  // Runs

  /** Every delta names the statement's single target, as the parser guarantees. */
  ghost predicate SingleTarget(ev: Event) {
    ev.tables != [] ==>
      forall d :: d in ev.deltas && d.logicalDatabase != "" ==> d.logicalDatabase == ev.tables[0].logicalDatabase
  }

  lemma {:induction false} GranteeOpsTarget(d: PrivilegeDelta, gs: seq<Grantee>, executor: Account)
    ensures forall op :: op in GranteeOps(d, gs, executor) ==>
              op.db == d.logicalDatabase && op.bits <= {Read, Write, Admin}
  {
    if gs != [] { GranteeOpsTarget(d, gs[..|gs| - 1], executor); }
  }

  lemma {:induction false} DeltaOpsTarget(ds: seq<PrivilegeDelta>, executor: Account)
    ensures forall op :: op in DeltaOps(ds, executor) ==>
              op.bits <= {Read, Write, Admin} && op.db != "" && exists d :: d in ds && op.db == d.logicalDatabase
  {
    if ds != [] {
      DeltaOpsTarget(ds[..|ds| - 1], executor);
      GranteeOpsTarget(ds[|ds| - 1], ds[|ds| - 1].grantees, executor);
    }
  }

  lemma TablesKeepWellFormed(s: State, db: Database, ts: seq<TableInfo>)
    requires WellFormed(s) && db in s.infos && DistinctTables(ts)
    ensures WellFormed(WithTables(s, db, ts))
  {
  }

  lemma PrivilegesKeepWellFormed(s: State, account: Account, db: Database, ds: seq<PrivilegeDelta>)
    requires WellFormed(s)
    requires forall d :: d in ds && d.logicalDatabase != "" ==> d.logicalDatabase == db
    ensures WellFormed(ApplyPrivileges(s, account, db, ds).state)
  {
    DeltaOpsTarget(ds, account);
  }

  lemma RegisterKeepsWellFormed(s: State, account: Account, db: Database, indexerId: nat)
    requires WellFormed(s)
    ensures WellFormed(RegisterDatabase(s, account, db, indexerId).state)
  {
  }

  lemma DeleteKeepsWellFormed(s: State, account: Account, db: Database)
    requires WellFormed(s)
    ensures WellFormed(DeleteDatabase(s, account, db).state)
  {
  }

  lemma ApplyKeepsWellFormed(s: State, ev: Event, indexerId: nat)
    requires WellFormed(s) && SingleTarget(ev)
    ensures WellFormed(Apply(s, ev, indexerId).state)
  {
    if ev.tables != [] && ev.tables[0].logicalDatabase != "" {
      var db, id := ev.tables[0].logicalDatabase, ev.tables[0].originalTable;
      match ev.kind
      case CreateDatabase => RegisterKeepsWellFormed(s, ev.user, db, indexerId);
      case DropDatabase => DeleteKeepsWellFormed(s, ev.user, db);
      case Grant => PrivilegesKeepWellFormed(s, ev.user, db, ev.deltas);
      case Revoke => PrivilegesKeepWellFormed(s, ev.user, db, ev.deltas);
      case OtherStatement(_) =>
      case _ =>
        var o := Apply(s, ev, indexerId);
        if o.undo != NoUndo {
          TablesKeepWellFormed(s, db, o.state.infos[db].tables);
        }
    }
  }

  /** The state after a list of statements, and the stack of their undos, newest last. */
  ghost function Run(s: State, evs: seq<Event>, indexerId: nat): (r: (State, seq<Undo>))
    ensures |r.1| == |evs|
  {
    if evs == [] then (s, [])
    else
      var (s1, stack) := Run(s, evs[..|evs| - 1], indexerId);
      var o := Apply(s1, evs[|evs| - 1], indexerId);
      (o.state, stack + [o.undo])
  }

  /** Run the stashed closures, newest first. */
  ghost function RevertAll(s: State, stack: seq<Undo>): (s': State)
    decreases |stack|
  {
    if stack == [] then s else RevertAll(Revert(s, stack[|stack| - 1]), stack[..|stack| - 1])
  }

  lemma {:induction false} RunKeepsWellFormed(s: State, evs: seq<Event>, indexerId: nat)
    requires WellFormed(s) && forall ev :: ev in evs ==> SingleTarget(ev)
    ensures WellFormed(Run(s, evs, indexerId).0)
  {
    if evs != [] {
      RunKeepsWellFormed(s, evs[..|evs| - 1], indexerId);
      ApplyKeepsWellFormed(Run(s, evs[..|evs| - 1], indexerId).0, evs[|evs| - 1], indexerId);
    }
  }

  /** Undoing any run in reverse order restores both maps exactly. */
  lemma {:induction false} ReverseOrderUndoRestores(s: State, evs: seq<Event>, indexerId: nat)
    requires WellFormed(s) && forall ev :: ev in evs ==> SingleTarget(ev)
    ensures var (s', stack) := Run(s, evs, indexerId); RevertAll(s', stack) == s
  {
    if evs != [] {
      var (s1, stack1) := Run(s, evs[..|evs| - 1], indexerId);
      var (s', stack) := Run(s, evs, indexerId);
      RunKeepsWellFormed(s, evs[..|evs| - 1], indexerId);
      UndoIsExact(s1, evs[|evs| - 1], indexerId);
      assert stack[..|stack| - 1] == stack1;
      ReverseOrderUndoRestores(s, evs[..|evs| - 1], indexerId);
    }
  }

  // ---------------------------------------------------------------------------
  // Ownership

  lemma {:induction false} OpsKeepOwner(p: Perms, ops: seq<Op>, a: Account, db: Database)
    requires forall op :: op in ops ==> op.bits <= {Read, Write, Admin}
    ensures Owner in Bits(ApplyOps(p, ops), a, db) <==> Owner in Bits(p, a, db)
  {
    if ops != [] { OpsKeepOwner(p, ops[..|ops| - 1], a, db); }
  }

  /** GRANT and REVOKE never change an Owner bit. */
  lemma PrivilegesKeepOwners(s: State, ev: Event, indexerId: nat, a: Account, db: Database)
    requires ev.kind == Grant || ev.kind == Revoke
    ensures IsOwner(Apply(s, ev, indexerId).state, a, db) <==> IsOwner(s, a, db)
  {
    DeltaOpsTarget(ev.deltas, ev.user);
    OpsKeepOwner(s.perms, DeltaOps(ev.deltas, ev.user), a, db);
  }

  /** Every registered database in `dbs` has an owner. */
  ghost predicate Owned(s: State, dbs: iset<Database>) {
    forall d :: d in dbs && d in s.infos ==> exists a :: IsOwner(s, a, d)
  }

  /** A statement other than CREATE or DROP DATABASE changes neither the registrations nor an owner. */
  lemma OtherStatementsKeepOwners(s: State, ev: Event, indexerId: nat, a: Account, db: Database)
    requires ev.kind != CreateDatabase && ev.kind != DropDatabase
    ensures var s' := Apply(s, ev, indexerId).state;
            s'.infos.Keys == s.infos.Keys && (IsOwner(s', a, db) <==> IsOwner(s, a, db))
  {
    if ev.kind == Grant || ev.kind == Revoke { PrivilegesKeepOwners(s, ev, indexerId, a, db); }
  }

  lemma ApplyKeepsOwnership(s: State, ev: Event, indexerId: nat, dbs: iset<Database>)
    requires WellFormed(s) && AtMostOneOwner(s) && Owned(s, dbs)
    ensures AtMostOneOwner(Apply(s, ev, indexerId).state) && Owned(Apply(s, ev, indexerId).state, dbs)
  {
    var s' := Apply(s, ev, indexerId).state;
    if ev.kind != CreateDatabase && ev.kind != DropDatabase {
      forall a, d ensures IsOwner(s', a, d) <==> IsOwner(s, a, d) {
        OtherStatementsKeepOwners(s, ev, indexerId, a, d);
      }
      OtherStatementsKeepOwners(s, ev, indexerId, "", "");
    } else if ev.tables != [] && ev.tables[0].logicalDatabase != "" {
      var db := ev.tables[0].logicalDatabase;
      if ev.kind == CreateDatabase {
        RegisterKeepsOwnership(s, ev.user, db, indexerId, dbs);
      } else {
        DeleteKeepsOwnership(s, ev.user, db, dbs);
      }
    }
  }

  lemma RegisterKeepsOwnership(s: State, account: Account, db: Database, indexerId: nat, dbs: iset<Database>)
    requires WellFormed(s) && AtMostOneOwner(s) && Owned(s, dbs)
    ensures var s' := RegisterDatabase(s, account, db, indexerId).state; AtMostOneOwner(s') && Owned(s', dbs)
  {
    if db !in s.infos {
      var s' := RegisterDatabase(s, account, db, indexerId).state;
      forall a, d ensures IsOwner(s', a, d) <==> if d == db then a == account else IsOwner(s, a, d) {
        assert Entry(s.perms, a, db).None?;
      }
      assert IsOwner(s', account, db);
    }
  }

  lemma DeleteKeepsOwnership(s: State, account: Account, db: Database, dbs: iset<Database>)
    requires AtMostOneOwner(s) && Owned(s, dbs)
    ensures var s' := DeleteDatabase(s, account, db).state; AtMostOneOwner(s') && Owned(s', dbs)
  {
    var s' := DeleteDatabase(s, account, db).state;
    if s' != s {
      forall a, d ensures IsOwner(s', a, d) <==> d != db && IsOwner(s, a, d) {}
    }
  }

  lemma {:induction false} RunKeepsOwnership(s: State, evs: seq<Event>, indexerId: nat, dbs: iset<Database>)
    requires WellFormed(s) && AtMostOneOwner(s) && Owned(s, dbs)
    requires forall ev :: ev in evs ==> SingleTarget(ev)
    ensures var s' := Run(s, evs, indexerId).0; AtMostOneOwner(s') && Owned(s', dbs)
  {
    if evs != [] {
      RunKeepsOwnership(s, evs[..|evs| - 1], indexerId, dbs);
      RunKeepsWellFormed(s, evs[..|evs| - 1], indexerId);
      ApplyKeepsOwnership(Run(s, evs[..|evs| - 1], indexerId).0, evs[|evs| - 1], indexerId, dbs);
    }
  }

  /** The run goes on from where its first part ended. */
  lemma {:induction false} RunSplits(s: State, evs: seq<Event>, k: nat, indexerId: nat)
    requires k <= |evs|
    ensures Run(s, evs, indexerId).0 == Run(Run(s, evs[..k], indexerId).0, evs[k..], indexerId).0
  {
    if k == |evs| {
      assert evs[..k] == evs;
    } else {
      var front := evs[..|evs| - 1];
      RunSplits(s, front, k, indexerId);
      assert front[..k] == evs[..k] && front[k..] == evs[k..][..|evs| - k - 1];
    }
  }

  /** At most one owner per database in every run; exactly one for a database that was not
      registered at some point of the run and is at its end. */
  lemma OneOwnerPerCreatedDatabase(s: State, evs: seq<Event>, indexerId: nat, k: nat, db: Database)
    requires WellFormed(s) && AtMostOneOwner(s) && forall ev :: ev in evs ==> SingleTarget(ev)
    requires k <= |evs|
    ensures var s' := Run(s, evs, indexerId).0;
            && AtMostOneOwner(s')
            && (db !in Run(s, evs[..k], indexerId).0.infos && db in s'.infos ==>
                  exists a :: IsOwner(s', a, db) && forall b :: IsOwner(s', b, db) ==> b == a)
  {
    var s1 := Run(s, evs[..k], indexerId).0;
    RunSplits(s, evs, k, indexerId);
    RunKeepsWellFormed(s, evs[..k], indexerId);
    RunKeepsOwnership(s, evs[..k], indexerId, iset{});
    RunKeepsOwnership(s1, evs[k..], indexerId, if db in s1.infos then iset{} else iset{db});
  }

  // ---------------------------------------------------------------------------
  // Replay

  /** The bits a list of operations forces on and off at one pair. */
  function Forced(ops: seq<Op>, a: Account, db: Database): (r: (DbAuth, DbAuth))
  {
    if ops == [] then ({}, {})
    else
      var (on, off) := Forced(ops[..|ops| - 1], a, db);
      var op := ops[|ops| - 1];
      if (op.account, op.db) != (a, db) then (on, off)
      else match op.action
        case ActionGrant => (on + op.bits, off)
        case ActionRevoke => (on - op.bits, off + op.bits)
        case ActionUnspecified => (on, off)
  }

  /** Whether some operation of the list writes the pair. */
  predicate Writes(ops: seq<Op>, a: Account, db: Database) {
    exists op :: op in ops && op.account == a && op.db == db && op.action != ActionUnspecified
  }

  /** The entry a list of operations leaves at a pair, from what it forces on and off. */
  function ClosedForm(before: Option<DbAuth>, ops: seq<Op>, a: Account, db: Database): (after: Option<DbAuth>) {
    var (on, off) := Forced(ops, a, db);
    var final := ((if before.Some? then before.value else {}) - off) + on;
    if !Writes(ops, a, db) then before else if final == {} then None else Some(final)
  }

  lemma WritesOneMore(front: seq<Op>, op: Op, a: Account, db: Database)
    ensures Writes(front + [op], a, db) <==>
            Writes(front, a, db) || (op.account == a && op.db == db && op.action != ActionUnspecified)
  {
    assert op in front + [op];
  }

  function StepEntry(e: Option<DbAuth>, op: Op): (e': Option<DbAuth>) {
    var next := Next(if e.Some? then e.value else {}, op);
    if op.action == ActionUnspecified then e else if next == {} then None else Some(next)
  }

  lemma EntryOfStep(p: Perms, op: Op)
    ensures Entry(StepOp(p, op), op.account, op.db) == StepEntry(Entry(p, op.account, op.db), op)
  {
  }

  lemma ClosedFormStep(e: Option<DbAuth>, front: seq<Op>, op: Op)
    requires !Writes(front, op.account, op.db) ==> Forced(front, op.account, op.db) == ({}, {})
    ensures ClosedForm(e, front + [op], op.account, op.db) ==
            StepEntry(ClosedForm(e, front, op.account, op.db), op)
  {
    assert (front + [op])[..|front|] == front;
    WritesOneMore(front, op, op.account, op.db);
    var x := if e.Some? then e.value else {};
    var (on, off) := Forced(front, op.account, op.db);
    var (on', off') := Forced(front + [op], op.account, op.db);
    assert Next((x - off) + on, op) == (x - off') + on';
    assert (x - {}) + {} == x;
  }

  lemma {:induction false} OpsInClosedForm(p: Perms, ops: seq<Op>, a: Account, db: Database)
    ensures Entry(ApplyOps(p, ops), a, db) == ClosedForm(Entry(p, a, db), ops, a, db)
    ensures !Writes(ops, a, db) ==> Forced(ops, a, db) == ({}, {})
  {
    if ops != [] {
      var front, op := ops[..|ops| - 1], ops[|ops| - 1];
      OpsInClosedForm(p, front, a, db);
      assert ops == front + [op];
      WritesOneMore(front, op, a, db);
      if (op.account, op.db) == (a, db) {
        ClosedFormStep(Entry(p, a, db), front, op);
        EntryOfStep(ApplyOps(p, front), op);
      }
    }
  }

  predicate Touches(ops: seq<Op>, a: Account) {
    exists op :: op in ops && op.account == a && op.action != ActionUnspecified
  }

  lemma StepLeavesNoEmptyInner(p: Perms, op: Op, a: Account)
    ensures var p' := StepOp(p, op);
            if op.account == a && op.action != ActionUnspecified then a in p' ==> p'[a] != map[]
            else (a in p' <==> a in p) && (a in p ==> p'[a] == p[a])
  {
  }

  /** An inner map is left without entries only where no operation wrote. */
  lemma {:induction false} OpsLeaveNoEmptyInner(p: Perms, ops: seq<Op>, a: Account)
    ensures var p' := ApplyOps(p, ops);
            if Touches(ops, a) then a in p' ==> p'[a] != map[]
            else (a in p' <==> a in p) && (a in p ==> p'[a] == p[a])
  {
    if ops != [] {
      var front, op := ops[..|ops| - 1], ops[|ops| - 1];
      assert ops == front + [op];
      assert Touches(ops, a) <==> Touches(front, a) || (op.account == a && op.action != ActionUnspecified);
      OpsLeaveNoEmptyInner(p, front, a);
      StepLeavesNoEmptyInner(ApplyOps(p, front), op, a);
    }
  }

  lemma SameEntriesTwice(p: Perms, ops: seq<Op>, a: Account, db: Database)
    ensures var p1 := ApplyOps(p, ops); Entry(ApplyOps(p1, ops), a, db) == Entry(p1, a, db)
  {
    OpsInClosedForm(p, ops, a, db);
    OpsInClosedForm(ApplyOps(p, ops), ops, a, db);
    var x := Bits(p, a, db);
    var (on, off) := Forced(ops, a, db);
    assert (((x - off) + on) - off) + on == (x - off) + on;
  }

  lemma OpsAreIdempotent(p: Perms, ops: seq<Op>)
    ensures ApplyOps(ApplyOps(p, ops), ops) == ApplyOps(p, ops)
  {
    var p1 := ApplyOps(p, ops);
    var p2 := ApplyOps(p1, ops);
    forall a, d ensures Entry(p2, a, d) == Entry(p1, a, d) { SameEntriesTwice(p, ops, a, d); }
    forall a ensures (a in p2 <==> a in p1) && (a in p1 ==> p2[a] == p1[a]) {
      OpsLeaveNoEmptyInner(p, ops, a);
      OpsLeaveNoEmptyInner(p1, ops, a);
      if Touches(ops, a) {
        if a in p1 { SameInner(p1, p2, a); }
        if a in p2 { SameInner(p2, p1, a); }
      }
    }
    assert p2.Keys == p1.Keys;
  }

  /** The name is listed at two positions. */
  predicate ListedTwice(ts: seq<TableInfo>, id: string) {
    exists i, j :: 0 <= i < j < |ts| && ts[i].tableId == id == ts[j].tableId
  }

  lemma RemovedOnce(ts: seq<TableInfo>, id: string)
    requires IndexOf(ts, id) < |ts|
    ensures var ts' := RemoveAt(ts, IndexOf(ts, id)); IndexOf(ts', id) < |ts'| <==> ListedTwice(ts, id)
  {
    var i := IndexOf(ts, id);
    var ts' := RemoveAt(ts, i);
    if ListedTwice(ts, id) {
      var m, j :| 0 <= m < j < |ts| && ts[m].tableId == id == ts[j].tableId;
      assert i <= m && ts'[j - 1] == ts[j];
    }
    var k := IndexOf(ts', id);
    if k < |ts'| { assert k >= i && ts'[k] == ts[k + 1]; }
  }

  /** Exactly when a replayed deletion changes the state once more. */
  lemma ReplayDeleteTableIff(s: State, account: Account, db: Database, id: string)
    ensures var s1 := DeleteTable(s, account, db, id).state;
            DeleteTable(s1, account, db, id).state == s1 <==>
            !(id != "" && db in s.infos && CanWrite(s.perms, account, db) && ListedTwice(s.infos[db].tables, id))
  {
    var o := DeleteTable(s, account, db, id);
    if o.undo != NoUndo {
      RemovedOnce(s.infos[db].tables, id);
      var s2 := DeleteTable(o.state, account, db, id).state;
      if s2 != o.state { assert |s2.infos[db].tables| < |o.state.infos[db].tables|; }
    }
  }

  lemma ReplayAddTable(s: State, account: Account, db: Database, t: TableInfo)
    ensures var s1 := AddTable(s, account, db, t).state; AddTable(s1, account, db, t).state == s1
  {
    var o := AddTable(s, account, db, t);
    if o.undo != NoUndo {
      var ts := s.infos[db].tables;
      assert (ts + [t])[|ts|].tableId == t.tableId;
    }
  }

  lemma ReplayPrivileges(s: State, account: Account, db: Database, ds: seq<PrivilegeDelta>)
    ensures var s1 := ApplyPrivileges(s, account, db, ds).state; ApplyPrivileges(s1, account, db, ds).state == s1
  {
    OpsAreIdempotent(s.perms, DeltaOps(ds, account));
  }

  /** The event drops a table that its database lists twice. */
  predicate DropsListedTwice(s: State, ev: Event) {
    && (ev.kind == DropTable || ev.kind == DropView)
    && ev.tables != [] && ev.tables[0].originalTable != ""
    && var db := ev.tables[0].logicalDatabase;
       && db != "" && db in s.infos && CanWrite(s.perms, ev.user, db)
       && ListedTwice(s.infos[db].tables, ev.tables[0].originalTable)
  }

  /** In every state, replaying an event, accepted or refused, leaves the state unchanged,
      unless it drops a table that is listed twice. */
  lemma ReplayIsNoOpIff(s: State, ev: Event, indexerId: nat)
    ensures var s1 := Apply(s, ev, indexerId).state;
            Apply(s1, ev, indexerId).state == s1 <==> !DropsListedTwice(s, ev)
  {
    if ev.tables != [] && ev.tables[0].logicalDatabase != "" {
      var db, id := ev.tables[0].logicalDatabase, ev.tables[0].originalTable;
      match ev.kind
      case CreateTable => ReplayAddTable(s, ev.user, db, NewTable(id, ""));
      case CreateView => ReplayAddTable(s, ev.user, db, NewTable(id, "VIEW"));
      case CreateMaterializedView => ReplayAddTable(s, ev.user, db, NewTable(id, "MATERIALIZED_VIEW"));
      case DropTable => ReplayDeleteTableIff(s, ev.user, db, id);
      case DropView => ReplayDeleteTableIff(s, ev.user, db, id);
      case Grant => ReplayPrivileges(s, ev.user, db, ev.deltas);
      case Revoke => ReplayPrivileges(s, ev.user, db, ev.deltas);
      case _ =>
    }
  }

  /** Well-formed states list no table twice. */
  lemma ReplayIsNoOp(s: State, ev: Event, indexerId: nat)
    requires WellFormed(s)
    ensures var s1 := Apply(s, ev, indexerId).state; Apply(s1, ev, indexerId).state == s1
  {
    ReplayIsNoOpIff(s, ev, indexerId);
  }

  /** Without distinct table names a replayed DROP TABLE removes a second entry. */
  lemma ReplayNeedsDistinctTables()
    ensures exists s: State, ev: Event ::
              && NoEmptyInner(s.perms)
              && Apply(Apply(s, ev, 0).state, ev, 0).state != Apply(s, ev, 0).state
  {
    var t := NewTable("t", "");
    var info := DatabaseInfo("d", 0, 0, "", false, [t, t]);
    var s := State(map["d" := info], map["u" := map["d" := {Owner}]]);
    var ev := Event(DropTable, [AccessedTable("d", "t")], "u", []);
    var s1 := Apply(s, ev, 0).state;
    assert s1.infos["d"].tables == [t];
    assert Apply(s1, ev, 0).state.infos["d"].tables == [];
  }
}
