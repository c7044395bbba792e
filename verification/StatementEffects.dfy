/** What each statement does to the registered databases and the permission bits, told from its
    target, its deltas and the bits of the account, and from nothing else.
 */
module StatementEffects {
  import opened Options
  import opened NetworkState
  import opened CommitGate

  /** The statement names a database. */
  predicate Targets(ev: Event, db: Database) {
    ev.tables != [] && ev.tables[0].logicalDatabase == db != ""
  }

  predicate Holds(s: State, a: Account, db: Database, bit: AuthBit) { bit in Bits(s.perms, a, db) }

  predicate Listed(ts: seq<TableInfo>, id: string) { exists i :: 0 <= i < |ts| && ts[i].tableId == id }

  lemma ListedIff(ts: seq<TableInfo>, id: string)
    ensures Listed(ts, id) <==> IndexOf(ts, id) < |ts|
  {
    if IndexOf(ts, id) < |ts| { assert ts[IndexOf(ts, id)].tableId == id; }
  }

  /** Only the table list of `db` is another one. */
  predicate OnlyTables(s: State, s': State, db: Database) {
    && s'.perms == s.perms && db in s.infos && s'.infos.Keys == s.infos.Keys
    && (forall d :: d in s.infos && d != db ==> s'.infos[d] == s.infos[d])
    && s'.infos[db] == s.infos[db].(tables := s'.infos[db].tables)
  }

  // ---------------------------------------------------------------------------
  // Tables and views

  /** The text under which a kind of table is listed. */
  function KindText(kind: StatementType): (text: string) {
    if kind == CreateView then "VIEW" else if kind == CreateMaterializedView then "MATERIALIZED_VIEW" else ""
  }

  /** CREATE TABLE, VIEW and MATERIALIZED VIEW pass for an owner or writer of a registered
      database; the new entry is at the end of its list, unless the name was listed. */
  lemma CreatedTables(s: State, ev: Event, indexerId: nat, db: Database)
    requires ev.kind in {CreateTable, CreateView, CreateMaterializedView} && Targets(ev, db)
    ensures var o, id := Apply(s, ev, indexerId), ev.tables[0].originalTable;
            && (o.accepted <==>
                id != "" && db in s.infos && (Holds(s, ev.user, db, Owner) || Holds(s, ev.user, db, Write)))
            && (!o.accepted ==> o.state == s)
            && (o.accepted && Listed(s.infos[db].tables, id) ==> o.state == s && o.undo == NoUndo)
            && (o.accepted && !Listed(s.infos[db].tables, id) ==>
                  && OnlyTables(s, o.state, db) && o.undo == RemoveTable(db, id)
                  && o.state.infos[db].tables == s.infos[db].tables + [TableInfo(id, KindText(ev.kind), 0, "")])
  {
    if db in s.infos { ListedIff(s.infos[db].tables, ev.tables[0].originalTable); }
  }

  /** `ts'` is `ts` without its first entry of that name. */
  ghost predicate FirstRemoved(ts: seq<TableInfo>, id: string, ts': seq<TableInfo>) {
    exists i :: && 0 <= i < |ts| && ts[i].tableId == id && (forall k :: 0 <= k < i ==> ts[k].tableId != id)
                && ts' == ts[..i] + ts[i + 1..]
  }

  /** DROP TABLE and DROP VIEW pass for a database that is not registered, and for an owner or
      writer; the first entry of the name is gone. */
  lemma DroppedTables(s: State, ev: Event, indexerId: nat, db: Database)
    requires (ev.kind == DropTable || ev.kind == DropView) && Targets(ev, db)
    ensures var o, id := Apply(s, ev, indexerId), ev.tables[0].originalTable;
            && (o.accepted <==>
                id != "" && (db in s.infos ==> Holds(s, ev.user, db, Owner) || Holds(s, ev.user, db, Write)))
            && (!o.accepted || db !in s.infos || !Listed(s.infos[db].tables, id) ==> o.state == s && o.undo == NoUndo)
            && (o.accepted && db in s.infos && Listed(s.infos[db].tables, id) ==>
                  && OnlyTables(s, o.state, db) && o.undo.ReinsertTable?
                  && FirstRemoved(s.infos[db].tables, id, o.state.infos[db].tables))
  {
    var id := ev.tables[0].originalTable;
    if db in s.infos {
      var ts := s.infos[db].tables;
      ListedIff(ts, id);
      var i := IndexOf(ts, id);
      if i < |ts| { assert RemoveAt(ts, i) == ts[..i] + ts[i + 1..]; }
    }
  }

  // ---------------------------------------------------------------------------
  // Databases

  /** CREATE DATABASE passes for a new database and for its owner; a new one is registered at
      this indexer without tables, and the account gains ownership. */
  lemma CreatedDatabase(s: State, ev: Event, indexerId: nat, db: Database)
    requires ev.kind == CreateDatabase && Targets(ev, db)
    ensures var o := Apply(s, ev, indexerId);
            && (o.accepted <==> (db in s.infos ==> Holds(s, ev.user, db, Owner)))
            && (db in s.infos ==> o.state == s && o.undo == NoUndo)
            && (db !in s.infos ==>
                  && o.state.infos == s.infos[db := DatabaseInfo(db, 0, indexerId, "", false, [])]
                  && Bits(o.state.perms, ev.user, db) == Bits(s.perms, ev.user, db) + {Owner}
                  && (forall a, d :: (a, d) != (ev.user, db) ==> Entry(o.state.perms, a, d) == Entry(s.perms, a, d)))
  {
  }

  /** DROP DATABASE passes for a database that is not registered and for the owner; the database
      and every permission on it are gone. */
  lemma DroppedDatabase(s: State, ev: Event, indexerId: nat, db: Database)
    requires ev.kind == DropDatabase && Targets(ev, db)
    ensures var o := Apply(s, ev, indexerId);
            && (o.accepted <==> (db in s.infos ==> Holds(s, ev.user, db, Owner)))
            && (!o.accepted || db !in s.infos ==> o.state == s && o.undo == NoUndo)
            && (o.accepted && db in s.infos ==>
                  && o.state.infos == s.infos - {db}
                  && forall a, d :: Entry(o.state.perms, a, d) == if d == db then None else Entry(s.perms, a, d))
  {
  }

  // ---------------------------------------------------------------------------
  // Privileges

  /** The category that stands for a bit. */
  predicate Covers(category: set<CategoryBit>, bit: AuthBit) {
    match bit
    case Read => CategoryRead in category
    case Write => CategoryWrite in category
    case Admin => CategoryAdmin in category
    case _ => false
  }

  predicate Resolves(g: Grantee, executor: Account, a: Account) { a == if g.isCurrentUser then executor else g.name }

  /** One of the grantees is the account. */
  predicate Names(gs: seq<Grantee>, executor: Account, a: Account) {
    gs != [] && (Resolves(gs[|gs| - 1], executor, a) || Names(gs[..|gs| - 1], executor, a))
  }

  /** The delta grants or revokes this bit on this database to or from this account. */
  predicate Concerns(d: PrivilegeDelta, executor: Account, a: Account, db: Database, bit: AuthBit) {
    && d.action != ActionUnspecified && d.logicalDatabase == db != "" && Covers(d.category, bit)
    && a != "" && Names(d.grantees, executor, a)
  }

  /** What the last delta that concerns the bit says. */
  function LastWord(ds: seq<PrivilegeDelta>, executor: Account, a: Account, db: Database, bit: AuthBit)
    : (word: Option<PrivilegeAction>)
  {
    if ds == [] then None
    else if Concerns(ds[|ds| - 1], executor, a, db, bit) then Some(ds[|ds| - 1].action)
    else LastWord(ds[..|ds| - 1], executor, a, db, bit)
  }

  lemma CoversIff(category: set<CategoryBit>, bit: AuthBit)
    ensures Covers(category, bit) <==> bit in CategoryToDbAuth(category)
  {
  }

  /** How one delta moves the forced bits: `hit` says whether it concerns the bit. */
  ghost predicate Moves(before: (DbAuth, DbAuth), after: (DbAuth, DbAuth), hit: bool, action: PrivilegeAction, bit: AuthBit) {
    if !hit || action == ActionUnspecified then (bit in after.0 <==> bit in before.0) && (bit in after.1 <==> bit in before.1)
    else if action == ActionGrant then bit in after.0
    else bit !in after.0 && bit in after.1
  }

  /** The forced bits after one more operation. */
  function Pushed(f: (DbAuth, DbAuth), op: Op, a: Account, db: Database): (f': (DbAuth, DbAuth)) {
    if (op.account, op.db) != (a, db) || op.action == ActionUnspecified then f
    else if op.action == ActionGrant then (f.0 + op.bits, f.1)
    else (f.0 - op.bits, f.1 + op.bits)
  }

  lemma ForcedOneMore(done: seq<Op>, op: Op, a: Account, db: Database)
    ensures Forced(done + [op], a, db) == Pushed(Forced(done, a, db), op, a, db)
  {
    assert (done + [op])[..|done|] == done;
  }

  lemma PushedMoves(before: (DbAuth, DbAuth), mid: (DbAuth, DbAuth), op: Op, a: Account, db: Database, hit: bool, bit: AuthBit)
    requires Moves(before, mid, hit, op.action, bit) && (hit ==> bit in op.bits)
    ensures Moves(before, Pushed(mid, op, a, db), hit || (op.account == a && op.db == db && bit in op.bits), op.action, bit)
  {
  }

  /** The delta is about this pair and bit. */
  predicate About(d: PrivilegeDelta, a: Account, db: Database, bit: AuthBit) {
    d.logicalDatabase == db && bit in CategoryToDbAuth(d.category) && a != ""
  }

  lemma {:induction false} DeltaMoves(done: seq<Op>, d: PrivilegeDelta, gs: seq<Grantee>, executor: Account,
                                      a: Account, db: Database, bit: AuthBit)
    ensures Moves(Forced(done, a, db), Forced(done + GranteeOps(d, gs, executor), a, db),
                  About(d, a, db, bit) && Names(gs, executor, a), d.action, bit)
  {
    if gs == [] {
      assert done + [] == done;
    } else {
      var front, g := gs[..|gs| - 1], gs[|gs| - 1];
      DeltaMoves(done, d, front, executor, a, db, bit);
      GranteeMoves(done, d, GranteeOps(d, front, executor), g, executor, a, db, bit,
                   About(d, a, db, bit) && Names(front, executor, a));
    }
  }

  /** One more grantee, after the operations `sofar` of the earlier ones. */
  lemma GranteeMoves(done: seq<Op>, d: PrivilegeDelta, sofar: seq<Op>, g: Grantee, executor: Account,
                     a: Account, db: Database, bit: AuthBit, hit: bool)
    requires Moves(Forced(done, a, db), Forced(done + sofar, a, db), hit, d.action, bit)
    requires hit ==> About(d, a, db, bit)
    ensures var account := if g.isCurrentUser then executor else g.name;
            var more := if account == "" then [] else [Op(account, d.logicalDatabase, d.action, CategoryToDbAuth(d.category))];
            Moves(Forced(done, a, db), Forced(done + (sofar + more), a, db),
                  hit || (About(d, a, db, bit) && Resolves(g, executor, a)), d.action, bit)
  {
    var account := if g.isCurrentUser then executor else g.name;
    if account == "" {
      assert sofar + [] == sofar;
    } else {
      var op := Op(account, d.logicalDatabase, d.action, CategoryToDbAuth(d.category));
      assert done + (sofar + [op]) == (done + sofar) + [op];
      ForcedOneMore(done + sofar, op, a, db);
      PushedMoves(Forced(done, a, db), Forced(done + sofar, a, db), op, a, db, hit, bit);
    }
  }

  lemma {:induction false} ForcedByLastWord(ds: seq<PrivilegeDelta>, executor: Account, a: Account, db: Database,
                                            bit: AuthBit)
    ensures var (on, off) := Forced(DeltaOps(ds, executor), a, db);
            match LastWord(ds, executor, a, db, bit) {
              case None => bit !in on && bit !in off
              case Some(action) => if action == ActionGrant then bit in on else bit !in on && bit in off
            }
  {
    if ds != [] {
      var front, d := ds[..|ds| - 1], ds[|ds| - 1];
      ForcedByLastWord(front, executor, a, db, bit);
      var done := DeltaOps(front, executor);
      CoversIff(d.category, bit);
      if Skips(d) {
        assert done + [] == done;
      } else {
        DeltaMoves(done, d, d.grantees, executor, a, db, bit);
      }
    }
  }

  /** GRANT and REVOKE pass for an owner or administrator of a registered database. Afterwards an
      account holds a bit if the last delta that concerns it granted it, or if none concerns it
      and the account held it before; and no entry is left without bits by a delta. */
  lemma ChangedPrivileges(s: State, ev: Event, indexerId: nat, db: Database, a: Account, d: Database, bit: AuthBit)
    requires (ev.kind == Grant || ev.kind == Revoke) && Targets(ev, db)
    ensures var o := Apply(s, ev, indexerId);
            && (o.accepted <==> db in s.infos && (Holds(s, ev.user, db, Owner) || Holds(s, ev.user, db, Admin)))
            && (!o.accepted ==> o.state == s)
            && o.state.infos == s.infos
            && (o.accepted ==>
                  (Holds(o.state, a, d, bit) <==>
                   match LastWord(ev.deltas, ev.user, a, d, bit)
                   case Some(action) => action == ActionGrant
                   case None => Holds(s, a, d, bit)))
            && (Entry(o.state.perms, a, d) == Some({}) ==> Entry(s.perms, a, d) == Some({}))
  {
    OpsInClosedForm(s.perms, DeltaOps(ev.deltas, ev.user), a, d);
    ForcedByLastWord(ev.deltas, ev.user, a, d, bit);
  }

  // ---------------------------------------------------------------------------
  // Everything else

  /** Without a target every statement is refused; a statement of another kind passes and
      changes nothing. */
  lemma OtherEffects(s: State, ev: Event, indexerId: nat)
    requires ev.tables == [] || ev.tables[0].logicalDatabase == "" || ev.kind.OtherStatement?
    ensures var o := Apply(s, ev, indexerId);
            o.state == s && o.undo == NoUndo && (o.accepted <==> ev.tables != [] && ev.tables[0].logicalDatabase != "")
  {
  }
}
