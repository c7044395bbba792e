/** The observer itself: it updates the two maps in place, statement by statement, and is
    proved to do what `CommitGate.Apply` and `CommitGate.Revert` say.
 */
module CommitGateObserver {
  import opened Options
  import opened NetworkState
  import opened CommitGate

  method FindTable(ts: seq<TableInfo>, id: string) returns (i: nat)
    ensures i == IndexOf(ts, id)
  {
    i := 0;
    while i < |ts| && ts[i].tableId != id
      invariant i <= |ts|
      invariant forall k :: 0 <= k < i ==> ts[k].tableId != id
    {
      i := i + 1;
    }
  }

  class InMemoryObserver {
    var infos: Infos
    var perms: Perms
    const indexerId: nat

    constructor (infos: Infos, perms: Perms, indexerId: nat)
      ensures Abs() == State(infos, perms) && this.indexerId == indexerId
    {
      this.infos, this.perms, this.indexerId := infos, perms, indexerId;
    }

    ghost function Abs(): (s: State)
      reads this
    {
      State(infos, perms)
    }

    method AddTableEntry(account: Account, db: Database, t: TableInfo) returns (accepted: bool, stash: Undo)
      modifies `infos
      ensures Outcome(Abs(), accepted, stash) == AddTable(old(Abs()), account, db, t)
    {
      if t.tableId == "" || db !in infos || !CanWrite(perms, account, db) {
        return false, NoUndo;
      }
      var info := infos[db];
      var i := FindTable(info.tables, t.tableId);
      if i < |info.tables| {
        return true, NoUndo;
      }
      infos := infos[db := info.(tables := info.tables + [t])];
      return true, RemoveTable(db, t.tableId);
    }

    method DropTableEntry(account: Account, db: Database, id: string) returns (accepted: bool, stash: Undo)
      modifies `infos
      ensures Outcome(Abs(), accepted, stash) == DeleteTable(old(Abs()), account, db, id)
    {
      if id == "" { return false, NoUndo; }
      if db !in infos { return true, NoUndo; }
      if !CanWrite(perms, account, db) { return false, NoUndo; }
      var info := infos[db];
      var i := FindTable(info.tables, id);
      if i == |info.tables| {
        return true, NoUndo;
      }
      infos := infos[db := info.(tables := info.tables[..i] + info.tables[i + 1..])];
      return true, ReinsertTable(db, i, info.tables[i]);
    }

    method CaptureEntries(db: Database) returns (captured: Snapshots)
      ensures captured == DatabaseEntries(perms, db)
    {
      captured := map[];
      var todo := perms.Keys;
      while todo != {}
        invariant todo <= perms.Keys
        invariant forall a, d :: (a, d) in captured <==> d == db && a !in todo && Entry(perms, a, d).Some?
        invariant forall a, d :: (a, d) in captured ==> captured[(a, d)] == Entry(perms, a, d)
        decreases |todo|
      {
        var a :| a in todo;
        if db in perms[a] {
          captured := captured[(a, db) := Some(perms[a][db])];
        }
        todo := todo - {a};
      }
      ghost var entries := DatabaseEntries(perms, db);
      forall k ensures k in captured <==> k in entries {
        var (a, d) := k;
      }
      forall k | k in captured ensures captured[k] == entries[k] {
        var (a, d) := k;
      }
    }

    /** Sweep the database out of every inner map and drop the maps that become empty. */
    method Sweep(db: Database)
      modifies `perms
      ensures perms == SweepDatabase(old(perms), db)
    {
      var before := perms;
      var todo := perms.Keys;
      while todo != {}
        invariant todo <= before.Keys && perms.Keys <= before.Keys
        invariant forall a :: a in todo ==> a in perms && perms[a] == before[a]
        invariant forall a :: a in before && a !in todo ==> (a in perms <==> before[a] - {db} != map[])
        invariant forall a :: a in perms && a !in todo ==> perms[a] == before[a] - {db}
        decreases |todo|
      {
        var a :| a in todo;
        var inner := perms[a] - {db};
        perms := if inner == map[] then perms - {a} else perms[a := inner];
        todo := todo - {a};
      }
      assert perms == SweepDatabase(before, db);
    }

    /** One (grantee, database) pair: take the earliest snapshot, then write the new bitmap. */
    method ApplyOp(op: Op, snapshots: Snapshots, ghost before: Perms, ghost done: seq<Op>) returns (snaps: Snapshots)
      requires perms == ApplyOps(before, done) && snapshots == SnapshotsOf(before, done)
      modifies `perms
      ensures perms == ApplyOps(before, done + [op]) && snaps == SnapshotsOf(before, done + [op])
    {
      SnapshotOneMore(before, done, op);
      var k := (op.account, op.db);
      snaps := snapshots;
      if k !in snaps {
        snaps := snaps[k := Entry(perms, op.account, op.db)];
      }
      if op.action == ActionUnspecified { return; }
      var next := Next(Bits(perms, op.account, op.db), op);
      if next == {} {
        perms := Drop(perms, op.account, op.db);
      } else {
        perms := Put(perms, op.account, op.db, next);
      }
    }

    method ApplyDelta(d: PrivilegeDelta, executor: Account, snapshots: Snapshots,
                      ghost before: Perms, ghost done: seq<Op>)
      returns (snaps: Snapshots)
      requires perms == ApplyOps(before, done) && snapshots == SnapshotsOf(before, done)
      modifies `perms
      ensures var ops := done + if Skips(d) then [] else GranteeOps(d, d.grantees, executor);
              perms == ApplyOps(before, ops) && snaps == SnapshotsOf(before, ops)
    {
      snaps := snapshots;
      assert done + [] == done;
      if d.logicalDatabase == "" { return; }
      var bits := CategoryToDbAuth(d.category);
      if bits == {} { return; }
      for j := 0 to |d.grantees|
        invariant perms == ApplyOps(before, done + GranteeOps(d, d.grantees[..j], executor))
        invariant snaps == SnapshotsOf(before, done + GranteeOps(d, d.grantees[..j], executor))
      {
        var g := d.grantees[j];
        var account := if g.isCurrentUser then executor else g.name;
        ghost var sofar := done + GranteeOps(d, d.grantees[..j], executor);
        GranteeOpsStep(done, d, j, executor);
        if account == "" { continue; }
        snaps := ApplyOp(Op(account, d.logicalDatabase, d.action, bits), snaps, before, sofar);
      }
      assert d.grantees[..|d.grantees|] == d.grantees;
    }

    method ApplyPrivilegeDeltas(ds: seq<PrivilegeDelta>, executor: Account) returns (snaps: Snapshots)
      modifies `perms
      ensures perms == ApplyOps(old(perms), DeltaOps(ds, executor))
      ensures snaps == SnapshotsOf(old(perms), DeltaOps(ds, executor))
    {
      ghost var before := perms;
      snaps := map[];
      for i := 0 to |ds|
        invariant perms == ApplyOps(before, DeltaOps(ds[..i], executor))
        invariant snaps == SnapshotsOf(before, DeltaOps(ds[..i], executor))
      {
        assert ds[..i + 1][..i] == ds[..i];
        snaps := ApplyDelta(ds[i], executor, snaps, before, DeltaOps(ds[..i], executor));
      }
      assert ds[..|ds|] == ds;
    }

    /** Applies one statement in place and returns the undo it stashes. */
    method BeforeStatement(ev: Event) returns (accepted: bool, stash: Undo)
      modifies this
      ensures Outcome(Abs(), accepted, stash) == Apply(old(Abs()), ev, indexerId)
    {
      if |ev.tables| == 0 || ev.tables[0].logicalDatabase == "" {
        return false, NoUndo;
      }
      var db, id, account := ev.tables[0].logicalDatabase, ev.tables[0].originalTable, ev.user;
      match ev.kind
      case CreateDatabase =>
        if db in infos {
          return Owner in Bits(perms, account, db), NoUndo;
        }
        infos := infos[db := DatabaseInfo(db, 0, indexerId, "", false, [])];
        perms := Put(perms, account, db, Bits(perms, account, db) + {Owner});
        return true, UnregisterDatabase(db, account);
      case DropDatabase =>
        if db !in infos { return true, NoUndo; }
        if Owner !in Bits(perms, account, db) { return false, NoUndo; }
        var info := infos[db];
        var captured := CaptureEntries(db);
        infos := infos - {db};
        Sweep(db);
        return true, RestoreDatabase(db, info, captured);
      case CreateTable => accepted, stash := AddTableEntry(account, db, NewTable(id, ""));
      case CreateView => accepted, stash := AddTableEntry(account, db, NewTable(id, "VIEW"));
      case CreateMaterializedView =>
        accepted, stash := AddTableEntry(account, db, NewTable(id, "MATERIALIZED_VIEW"));
      case DropTable => accepted, stash := DropTableEntry(account, db, id);
      case DropView => accepted, stash := DropTableEntry(account, db, id);
      case OtherStatement(_) => return true, NoUndo;
      case _ =>
        if db !in infos || !CanAdmin(perms, account, db) { return false, NoUndo; }
        var snaps := ApplyPrivilegeDeltas(ev.deltas, account);
        ghost var ops := DeltaOps(ev.deltas, account);
        assert ops != [] ==> (ops[0].account, ops[0].db) in snaps;
        return true, if snaps == map[] then NoUndo else RestoreEntries(snaps);
    }

    method RestoreSnapshots(snaps: Snapshots)
      requires NoEmptyInner(perms)
      modifies `perms
      ensures perms == Restored(old(perms), snaps)
    {
      ghost var before := perms;
      var todo := snaps.Keys;
      while todo != {}
        invariant todo <= snaps.Keys && NoEmptyInner(perms)
        invariant forall a, d :: Entry(perms, a, d) ==
                    if (a, d) in snaps && (a, d) !in todo then snaps[(a, d)] else Entry(before, a, d)
        decreases |todo|
      {
        var k :| k in todo;
        perms := if snaps[k].Some? then Put(perms, k.0, k.1, snaps[k].value) else Drop(perms, k.0, k.1);
        todo := todo - {k};
      }
      EntriesDetermine(perms, Restored(before, snaps));
    }

    /** The server rejected the statement: run its stashed undo. */
    method OnStatementException(stash: Undo)
      requires NoEmptyInner(perms)
      modifies this
      ensures Abs() == Revert(old(Abs()), stash)
    {
      match stash
      case NoUndo =>
      case UnregisterDatabase(db, account) =>
        infos := infos - {db};
        perms := Drop(perms, account, db);
      case RestoreDatabase(db, info, entries) =>
        infos := infos[db := info];
        RestoreSnapshots(entries);
      case RemoveTable(db, id) =>
        if db in infos {
          var info := infos[db];
          var i := FindTable(info.tables, id);
          if i < |info.tables| {
            infos := infos[db := info.(tables := info.tables[..i] + info.tables[i + 1..])];
          }
        }
      case ReinsertTable(db, index, table) =>
        if db in infos {
          var info := infos[db];
          var ts := if index <= |info.tables| then info.tables[..index] + [table] + info.tables[index..]
                    else info.tables + [table];
          infos := infos[db := info.(tables := ts)];
        }
      case RestoreEntries(entries) => RestoreSnapshots(entries);
    }

    /** Pass a statement, then have the server reject it: nothing changed. */
    method RejectedStatement(ev: Event) returns (accepted: bool)
      requires WellFormed(Abs()) && SingleTarget(ev)
      modifies this
      ensures Abs() == old(Abs())
    {
      ghost var s := Abs();
      var stash;
      accepted, stash := BeforeStatement(ev);
      UndoIsExact(s, ev, indexerId);
      ApplyKeepsWellFormed(s, ev, indexerId);
      OnStatementException(stash);
    }
  }
}
