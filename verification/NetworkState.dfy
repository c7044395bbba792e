/** The in-memory network state: registered databases with their table lists, and one
    permission bitmap per (account, database) pair held in nested maps.
 */
module NetworkState {
  import opened Options

  type Database = string
  type Account = string

  /** The bits of a permission bitmap. `Reserved` stands for every bit without a name. */
  datatype AuthBit = Read | Write | Admin | Owner | Reserved(position: nat)

  type DbAuth = set<AuthBit>

  datatype TableInfo = TableInfo(tableId: string, tableType: string, schemaVersion: nat, schemaHash: string)

  datatype DatabaseInfo = DatabaseInfo(
    databaseId: string, dbType: nat, indexerId: nat, processorId: string, pendingDelete: bool,
    tables: seq<TableInfo>)

  type Infos = map<Database, DatabaseInfo>
  type Perms = map<Account, map<Database, DbAuth>>

  datatype State = State(infos: Infos, perms: Perms)

  // ---------------------------------------------------------------------------
  // Nested permission maps

  function Entry(p: Perms, a: Account, db: Database): (e: Option<DbAuth>) {
    if a in p && db in p[a] then Some(p[a][db]) else None
  }

  /** The stored bitmap, zero when there is no entry. */
  function Bits(p: Perms, a: Account, db: Database): (bits: DbAuth) {
    match Entry(p, a, db) case Some(v) => v case None => {}
  }

  /** Create the inner map when missing, then store the entry. */
  function Put(p: Perms, a: Account, db: Database, v: DbAuth): (p': Perms)
    ensures Entry(p', a, db) == Some(v)
    ensures forall b, d :: (b, d) != (a, db) ==> Entry(p', b, d) == Entry(p, b, d)
    ensures NoEmptyInner(p) ==> NoEmptyInner(p')
  {
    p[a := (if a in p then p[a] else map[])[db := v]]
  }

  /** Delete the entry, then the inner map if that emptied it. */
  function Drop(p: Perms, a: Account, db: Database): (p': Perms)
    ensures Entry(p', a, db).None?
    ensures forall b, d :: (b, d) != (a, db) ==> Entry(p', b, d) == Entry(p, b, d)
    ensures NoEmptyInner(p) ==> NoEmptyInner(p')
  {
    if a !in p then p
    else
      var inner := p[a] - {db};
      assert forall d :: d in p[a] && d != db ==> d in inner;
      if inner == map[] then p - {a} else p[a := inner]
  }

  ghost predicate NoEmptyInner(p: Perms) {
    forall a :: a in p ==> p[a] != map[]
  }

  lemma SameInner(p: Perms, q: Perms, a: Account)
    requires a in p && p[a] != map[]
    requires forall d :: Entry(p, a, d) == Entry(q, a, d)
    ensures a in q && p[a] == q[a]
  {
    var d :| d in p[a];
    assert Entry(p, a, d).Some?;
    forall d ensures d in p[a] <==> d in q[a] {
      assert Entry(p, a, d) == Entry(q, a, d);
    }
    forall d | d in p[a] ensures p[a][d] == q[a][d] {
      assert Entry(p, a, d) == Entry(q, a, d);
    }
  }

  /** Without empty inner maps, the entries determine the nested maps. */
  lemma EntriesDetermine(p: Perms, q: Perms)
    requires NoEmptyInner(p) && NoEmptyInner(q)
    requires forall a, d :: Entry(p, a, d) == Entry(q, a, d)
    ensures p == q
  {
    forall a | a in p ensures a in q && p[a] == q[a] {
      SameInner(p, q, a);
    }
    forall a | a in q ensures a in p {
      SameInner(q, p, a);
    }
    assert p.Keys == q.Keys;
  }

  // ---------------------------------------------------------------------------
  // Table lists

  /** The index of the first entry named `id`, or the length when there is none. */
  function IndexOf(ts: seq<TableInfo>, id: string): (i: nat)
    ensures i <= |ts|
    ensures i < |ts| ==> ts[i].tableId == id
    ensures forall k :: 0 <= k < i ==> ts[k].tableId != id
  {
    if ts == [] || ts[0].tableId == id then 0 else 1 + IndexOf(ts[1..], id)
  }

  function RemoveAt(ts: seq<TableInfo>, i: nat): (r: seq<TableInfo>)
    requires i < |ts|
  {
    ts[..i] + ts[i + 1..]
  }

  function InsertAt(ts: seq<TableInfo>, i: nat, t: TableInfo): (r: seq<TableInfo>)
    requires i <= |ts|
  {
    ts[..i] + [t] + ts[i..]
  }

  ghost predicate DistinctTables(ts: seq<TableInfo>) {
    forall i, j :: 0 <= i < j < |ts| ==> ts[i].tableId != ts[j].tableId
  }

  // ---------------------------------------------------------------------------
  // Well-formed states

  /** No empty inner map, permissions only on registered databases, no table listed twice. */
  ghost predicate WellFormed(s: State) {
    && NoEmptyInner(s.perms)
    && (forall a, d :: Entry(s.perms, a, d).Some? ==> d in s.infos)
    && (forall d :: d in s.infos ==> DistinctTables(s.infos[d].tables))
  }

  predicate IsOwner(s: State, a: Account, db: Database) {
    Owner in Bits(s.perms, a, db)
  }

  ghost predicate AtMostOneOwner(s: State) {
    forall a, b, d :: IsOwner(s, a, d) && IsOwner(s, b, d) ==> a == b
  }
}
