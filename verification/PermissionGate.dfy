/** The permission gate in front of every statement, and the two other engines that answer
    permission questions over the same in-memory state.
 */
module PermissionGate {
  import opened Options
  import opened NetworkState
  import CommitGate

  /** The all-zeros address. */
  const WILDCARD: Account := "0x0000000000000000000000000000000000000000"

  const SYSTEM: Database := "system"

  /** What the text library takes for white space, and how it lower-cases one character. */
  datatype Alphabet = Alphabet(space: char -> bool, lower: char -> char)

  /** Lower-casing twice is lower-casing once, and neither makes nor removes white space. */
  ghost predicate Settles(alphabet: Alphabet) {
    forall c :: alphabet.lower(alphabet.lower(c)) == alphabet.lower(c)
                && (alphabet.space(alphabet.lower(c)) <==> alphabet.space(c))
  }

  /** The registry the engines read: databases and permissions, the signer of each indexer,
      and the operators each owner authorised. */
  datatype Registry = Registry(
    state: State, signers: map<nat, string>, operators: map<Account, set<Account>>, alphabet: Alphabet)

  datatype Answer = Yes | No | NotFound

  // ---------------------------------------------------------------------------
  // Bits

  /** Owner implies Admin, Write and Read; Write implies Read; Admin implies nothing. */
  function Promote(auth: DbAuth): (r: DbAuth) {
    var withOwner := if Owner in auth then auth + {Admin, Write, Read} else auth;
    if Write in withOwner then withOwner + {Read} else withOwner
  }

  /** The raw bits that give `required` after promotion. */
  function Sources(required: AuthBit): (bits: DbAuth) {
    match required
    case Read => {Read, Write, Owner}
    case Write => {Write, Owner}
    case Admin => {Admin, Owner}
    case _ => {required}
  }

  lemma PromoteBySources(auth: DbAuth, required: AuthBit)
    ensures required in Promote(auth) <==> auth * Sources(required) != {}
  {
    if required in Promote(auth) {
      var bit := if required in auth then required else if Owner in auth then Owner else Write;
      assert bit in auth * Sources(required);
    } else {
      assert forall b :: b in Sources(required) ==> b !in auth;
    }
  }

  // ---------------------------------------------------------------------------
  // PermissionsFor, HasPermission, IsDatabaseWriter

  function BitsIn(m: map<Database, DbAuth>, db: Database): (bits: DbAuth) {
    if db in m then m[db] else {}
  }

  /** The account's own bits with the wildcard account's bits added. */
  function Effective(p: Perms, a: Account, db: Database): (bits: DbAuth) {
    Bits(p, a, db) + Bits(p, WILDCARD, db)
  }

  method PermissionsFor(p: Perms, a: Account) returns (merged: Option<map<Database, DbAuth>>)
    ensures merged.None? <==> a !in p && WILDCARD !in p
    ensures merged.Some? ==> forall db :: BitsIn(merged.value, db) == Effective(p, a, db)
  {
    if a !in p && WILDCARD !in p { return None; }
    var out := if a in p then p[a] else map[];
    if WILDCARD in p && a != WILDCARD {
      out := UnionInto(out, p[WILDCARD]);
    }
    return Some(out);
  }

  function UnionAt(m: map<Database, DbAuth>, n: map<Database, DbAuth>, db: Database): (bits: DbAuth)
    ensures db !in n ==> bits == BitsIn(m, db)
  {
    BitsIn(m, db) + BitsIn(n, db)
  }

  /** `out[db] |= auth` for every entry of `more`. */
  method UnionInto(own: map<Database, DbAuth>, more: map<Database, DbAuth>) returns (out: map<Database, DbAuth>)
    ensures forall db :: BitsIn(out, db) == UnionAt(own, more, db)
  {
    out := own;
    var todo := more.Keys;
    while todo != {}
      invariant todo <= more.Keys
      invariant forall db :: BitsIn(out, db) == if db in todo then BitsIn(own, db) else UnionAt(own, more, db)
      decreases todo
    {
      var db :| db in todo;
      out := out[db := BitsIn(out, db) + more[db]];
      todo := todo - {db};
    }
  }

  function HasPermission(r: Registry, a: Account, db: Database, action: AuthBit): (ans: Answer) {
    if db !in r.state.infos then NotFound
    else
      var auth := Bits(r.state.perms, a, db) + if a == WILDCARD then {} else Bits(r.state.perms, WILDCARD, db);
      if action in Promote(auth) then Yes else No
  }

  function LowerAll(alphabet: Alphabet, s: string): (r: string)
    ensures |r| == |s| && forall i :: 0 <= i < |s| ==> r[i] == alphabet.lower(s[i])
  {
    seq(|s|, i requires 0 <= i < |s| => alphabet.lower(s[i]))
  }

  function TrimLeft(alphabet: Alphabet, s: string): (r: string)
    ensures r != "" ==> !alphabet.space(r[0])
  {
    if s != "" && alphabet.space(s[0]) then TrimLeft(alphabet, s[1..]) else s
  }

  function TrimRight(alphabet: Alphabet, s: string): (r: string)
    ensures r != "" ==> s != "" && r[0] == s[0] && !alphabet.space(r[|r| - 1])
  {
    if s != "" && alphabet.space(s[|s| - 1]) then TrimRight(alphabet, s[..|s| - 1]) else s
  }

  /** Lower-cased and trimmed, as addresses are compared by the contract predicate. */
  function Normalize(alphabet: Alphabet, s: string): (r: string) {
    LowerAll(alphabet, TrimRight(alphabet, TrimLeft(alphabet, s)))
  }

  lemma NormalizeIsIdempotent(alphabet: Alphabet, s: string)
    requires Settles(alphabet)
    ensures Normalize(alphabet, Normalize(alphabet, s)) == Normalize(alphabet, s)
  {
    var t := TrimRight(alphabet, TrimLeft(alphabet, s));
    var n := LowerAll(alphabet, t);
    if t != "" {
      assert n[0] == alphabet.lower(t[0]) && n[|n| - 1] == alphabet.lower(t[|t| - 1]);
      assert TrimLeft(alphabet, n) == n && TrimRight(alphabet, n) == n;
      assert LowerAll(alphabet, n) == n;
    }
  }

  /** The account that signs for the indexer hosting `db`. */
  predicate IsHostSigner(r: Registry, db: Database, a: Account) {
    && db in r.state.infos && r.state.infos[db].indexerId in r.signers
    && var signer := Normalize(r.alphabet, r.signers[r.state.infos[db].indexerId]);
       signer != "" && signer != WILDCARD && signer == a
  }

  function IsDatabaseWriter(r: Registry, db: Database, account: Account): (ans: Answer) {
    if db !in r.state.infos || r.state.infos[db].pendingDelete then NotFound
    else
      var a := Normalize(r.alphabet, account);
      if a == "" || a == WILDCARD then No
      else if IsHostSigner(r, db, a) then Yes
      else if CommitGate.CanWrite(r.state.perms, a, db) then Yes else No
  }

  predicate IsOperator(r: Registry, owner: Account, signer: Account) {
    owner != "" && signer != "" &&
    (owner == signer || (owner in r.operators && signer in r.operators[owner]))
  }

  // ---------------------------------------------------------------------------
  // The gate

  /** One (account, database) check; `contract` selects the contract writer predicate. */
  method CheckAccess(r: Registry, contract: bool, a: Account, db: Database, required: AuthBit)
    returns (allowed: bool)
    ensures allowed <==> Allows(r, contract, a, db, required)
  {
    if db == SYSTEM && required == Read { return true; }
    if db !in r.state.infos || r.state.infos[db].pendingDelete { return false; }
    if required == Write && contract {
      return IsDatabaseWriter(r, db, a) == Yes;
    }
    var auth: DbAuth := {};
    var own := PermissionsFor(r.state.perms, a);
    if own.Some? { auth := auth + BitsIn(own.value, db); }
    if a != WILDCARD {
      var public := PermissionsFor(r.state.perms, WILDCARD);
      if public.Some? { auth := auth + BitsIn(public.value, db); }
    }
    assert auth == Effective(r.state.perms, a, db);
    PromoteBySources(auth, required);
    allowed := required in Promote(auth);
  }

  /** What the gate decides, by who holds which raw bit. */
  predicate Allows(r: Registry, contract: bool, a: Account, db: Database, required: AuthBit) {
    || (db == SYSTEM && required == Read)
    || (&& db in r.state.infos && !r.state.infos[db].pendingDelete
        && if required == Write && contract then IsDatabaseWriter(r, db, a) == Yes
           else Effective(r.state.perms, a, db) * Sources(required) != {})
  }

  datatype Statement =
    | Unspecified | Select | Describe | ShowTables | ShowCreateTable | ExistsTable | Use
    | Insert | Update | Delete | TruncateTable | CreateTable | DropTable
    | CreateView | CreateMaterializedView | DropView
    | AlterTable | RenameTable | Grant | Revoke | DropDatabase
    | CreateDatabase | ShowDatabases

  function Policy(t: Statement): (required: Option<AuthBit>) {
    match t
    case Select => Some(Read)
    case Describe => Some(Read)
    case ShowTables => Some(Read)
    case ShowCreateTable => Some(Read)
    case ExistsTable => Some(Read)
    case Use => Some(Read)
    case AlterTable => Some(Admin)
    case RenameTable => Some(Admin)
    case Grant => Some(Admin)
    case Revoke => Some(Admin)
    case DropDatabase => Some(Owner)
    case Unspecified => None
    case CreateDatabase => None
    case ShowDatabases => None
    case _ => Some(Write)
  }

  datatype Request = Request(kind: Statement, user: Account, owner: Account, databases: seq<Database>)

  /** Whoever signs for an owner must be an operator of that owner, and then the owner's bits
      count; each database named has to allow what the statement needs. */
  method BeforeStatement(r: Registry, contract: bool, q: Request) returns (allowed: bool)
    ensures allowed <==>
              && Policy(q.kind).Some? && q.user != ""
              && (q.owner != "" && q.owner != q.user ==> q.owner in r.operators && q.user in r.operators[q.owner])
              && (q.databases == [] ==> q.kind == Select)
              && (forall db :: db in q.databases ==>
                    db != "" &&
                    Allows(r, contract, if q.owner != "" then q.owner else q.user, db, Policy(q.kind).value))
  {
    var required := Policy(q.kind);
    if required.None? || q.user == "" { return false; }
    var account := q.user;
    if q.owner != "" {
      if !IsOperator(r, q.owner, q.user) { return false; }
      account := q.owner;
    }
    if |q.databases| == 0 {
      return q.kind == Select || q.kind == ShowDatabases;
    }
    for i := 0 to |q.databases|
      invariant forall k :: 0 <= k < i ==>
                  q.databases[k] != "" && Allows(r, contract, account, q.databases[k], required.value)
    {
      assert q.databases[i] in q.databases;
      if q.databases[i] == "" { return false; }
      var ok := CheckAccess(r, contract, account, q.databases[i], required.value);
      if !ok { return false; }
    }
    return true;
  }

  // ---------------------------------------------------------------------------
  // The decision by statement, in raw bits

  /** The database is live, and the account or the zero address holds one of the bits. */
  predicate HoldsOne(r: Registry, a: Account, db: Database, bits: DbAuth) {
    && db in r.state.infos && !r.state.infos[db].pendingDelete
    && exists bit :: bit in bits && (bit in Bits(r.state.perms, a, db) || bit in Bits(r.state.perms, WILDCARD, db))
  }

  lemma HoldsOneIff(r: Registry, a: Account, db: Database, bits: DbAuth)
    requires db in r.state.infos && !r.state.infos[db].pendingDelete
    ensures HoldsOne(r, a, db, bits) <==> Effective(r.state.perms, a, db) * bits != {}
  {
    var held := Effective(r.state.perms, a, db);
    if HoldsOne(r, a, db, bits) {
      var bit :| bit in bits && (bit in Bits(r.state.perms, a, db) || bit in Bits(r.state.perms, WILDCARD, db));
      assert bit in held * bits;
    }
    if held * bits != {} {
      var bit :| bit in held * bits;
      assert bit in bits;
    }
  }

  /** Whether a statement of the kind may touch the database. */
  predicate Passes(r: Registry, contract: bool, kind: Statement, a: Account, db: Database) {
    Policy(kind).Some? && Allows(r, contract, a, db, Policy(kind).value)
  }

  /** Reading takes Read, Write or Owner; the system database anyone reads. */
  lemma ReadingTakes(r: Registry, contract: bool, kind: Statement, a: Account, db: Database)
    requires kind in {Select, Describe, ShowTables, ShowCreateTable, ExistsTable, Use}
    ensures Passes(r, contract, kind, a, db) <==> db == "system" || HoldsOne(r, a, db, {Read, Write, Owner})
  {
    if db in r.state.infos && !r.state.infos[db].pendingDelete { HoldsOneIff(r, a, db, {Read, Write, Owner}); }
  }

  /** Administering takes Admin or Owner. */
  lemma AdministeringTakes(r: Registry, contract: bool, kind: Statement, a: Account, db: Database)
    requires kind in {AlterTable, RenameTable, Grant, Revoke}
    ensures Passes(r, contract, kind, a, db) <==> HoldsOne(r, a, db, {Admin, Owner})
  {
    if db in r.state.infos && !r.state.infos[db].pendingDelete { HoldsOneIff(r, a, db, {Admin, Owner}); }
  }

  /** Dropping a database takes Owner. */
  lemma DroppingTakes(r: Registry, contract: bool, a: Account, db: Database)
    ensures Passes(r, contract, DropDatabase, a, db) <==> HoldsOne(r, a, db, {Owner})
  {
    if db in r.state.infos && !r.state.infos[db].pendingDelete { HoldsOneIff(r, a, db, {Owner}); }
  }

  /** Writing takes Write or Owner; under the contract predicate the account has to hold it
      itself, or to sign for the indexer that hosts the database. */
  lemma WritingTakes(r: Registry, contract: bool, kind: Statement, a: Account, db: Database)
    requires kind in {Insert, Update, Delete, TruncateTable, CreateTable, DropTable, CreateView,
                      CreateMaterializedView, DropView}
    ensures !contract ==> (Passes(r, contract, kind, a, db) <==> HoldsOne(r, a, db, {Write, Owner}))
    ensures contract ==> (Passes(r, contract, kind, a, db) <==> WritesItself(r, a, db))
  {
    if db in r.state.infos && !r.state.infos[db].pendingDelete { HoldsOneIff(r, a, db, {Write, Owner}); }
  }

  predicate WritesItself(r: Registry, account: Account, db: Database) {
    var a := Normalize(r.alphabet, account);
    && db in r.state.infos && !r.state.infos[db].pendingDelete && a != "" && a != WILDCARD
    && (|| Write in Bits(r.state.perms, a, db) || Owner in Bits(r.state.perms, a, db)
        || (&& r.state.infos[db].indexerId in r.signers
            && Normalize(r.alphabet, r.signers[r.state.infos[db].indexerId]) == a))
  }

  /** No other statement passes. */
  lemma OthersPassNowhere(r: Registry, contract: bool, kind: Statement, a: Account, db: Database)
    requires kind in {Unspecified, CreateDatabase, ShowDatabases}
    ensures !Passes(r, contract, kind, a, db)
  {
  }

  // ---------------------------------------------------------------------------
  // Spelling

  predicate AllSpace(alphabet: Alphabet, s: string) { forall i :: 0 <= i < |s| ==> alphabet.space(s[i]) }

  predicate Trimmed(alphabet: Alphabet, s: string) {
    s != "" ==> !alphabet.space(s[0]) && !alphabet.space(s[|s| - 1])
  }

  lemma {:induction false} TrimLeftOf(alphabet: Alphabet, before: string, s: string)
    requires AllSpace(alphabet, before) && (s != "" ==> !alphabet.space(s[0]))
    ensures TrimLeft(alphabet, before + s) == s
  {
    if before == "" {
      assert before + s == s;
    } else {
      TrimLeftOf(alphabet, before[1..], s);
      assert (before + s)[1..] == before[1..] + s;
    }
  }

  lemma {:induction false} TrimRightOf(alphabet: Alphabet, s: string, after: string)
    requires AllSpace(alphabet, after) && (s != "" ==> !alphabet.space(s[|s| - 1]))
    ensures TrimRight(alphabet, s + after) == s
  {
    if after == "" {
      assert s + after == s;
    } else {
      TrimRightOf(alphabet, s, after[..|after| - 1]);
      assert (s + after)[..|s + after| - 1] == s + after[..|after| - 1];
    }
  }

  /** Normalizing drops the white space around a text and lower-cases the rest. */
  lemma NormalizeOf(alphabet: Alphabet, before: string, s: string, after: string)
    requires AllSpace(alphabet, before) && AllSpace(alphabet, after) && Trimmed(alphabet, s)
    ensures Normalize(alphabet, before + s + after) == LowerAll(alphabet, s)
  {
    if s == "" {
      assert before + s + after == (before + after) + "";
      TrimLeftOf(alphabet, before + after, "");
    } else {
      assert before + s + after == before + (s + after);
      TrimLeftOf(alphabet, before, s + after);
      TrimRightOf(alphabet, s, after);
    }
  }

  // ---------------------------------------------------------------------------
  // The engines agree

  /** The bitmap gate decides exactly like HasPermission, except that the system database is
      readable by all and a database pending deletion by none. */
  lemma BitmapGateIsHasPermission(r: Registry, a: Account, db: Database, bit: AuthBit)
    ensures Allows(r, false, a, db, bit) <==>
            || (db == SYSTEM && bit == Read)
            || (HasPermission(r, a, db, bit) == Yes && !r.state.infos[db].pendingDelete)
  {
    if db in r.state.infos {
      var auth := Bits(r.state.perms, a, db) + if a == WILDCARD then {} else Bits(r.state.perms, WILDCARD, db);
      assert auth == Effective(r.state.perms, a, db);
      PromoteBySources(auth, bit);
    }
  }

  lemma WriteHolders(p: Perms, a: Account, db: Database)
    ensures Effective(p, a, db) * Sources(Write) != {} <==>
            CommitGate.CanWrite(p, a, db) || CommitGate.CanWrite(p, WILDCARD, db)
  {
    var bits := Effective(p, a, db);
    if Write in bits {
      assert Write in bits * Sources(Write);
    } else if Owner in bits {
      assert Owner in bits * Sources(Write);
    } else {
      assert bits * Sources(Write) == {};
    }
  }

  /** On a live database and a normal account name, the contract predicate and the bitmap
      differ in exactly two ways: the hosting indexer's signer, and zero-address grants. */
  lemma WriterAgainstBitmap(r: Registry, db: Database, a: Account)
    requires db in r.state.infos && !r.state.infos[db].pendingDelete
    requires Normalize(r.alphabet, a) == a && a != ""
    ensures var p := r.state.perms;
            var writer := IsDatabaseWriter(r, db, a) == Yes;
            var bitmap := HasPermission(r, a, db, Write) == Yes;
            && (writer && !bitmap <==>
                  IsHostSigner(r, db, a) && !CommitGate.CanWrite(p, a, db) && !CommitGate.CanWrite(p, WILDCARD, db))
            && (bitmap && !writer <==>
                  CommitGate.CanWrite(p, WILDCARD, db) &&
                  (a == WILDCARD || (!CommitGate.CanWrite(p, a, db) && !IsHostSigner(r, db, a))))
  {
    WriteHolders(r.state.perms, a, db);
    var auth := Bits(r.state.perms, a, db) + if a == WILDCARD then {} else Bits(r.state.perms, WILDCARD, db);
    assert auth == Effective(r.state.perms, a, db);
    PromoteBySources(auth, Write);
  }

  /** The contract predicate reads every spelling of an address alike, whatever white space is
      around it and whatever the case; the bitmap does not. */
  lemma WriterIgnoresSpelling(r: Registry, db: Database, before: string, a: Account, after: string, b: Account)
    requires AllSpace(r.alphabet, before) && AllSpace(r.alphabet, after)
    requires Trimmed(r.alphabet, a) && Trimmed(r.alphabet, b) && LowerAll(r.alphabet, a) == LowerAll(r.alphabet, b)
    ensures IsDatabaseWriter(r, db, before + a + after) == IsDatabaseWriter(r, db, b)
  {
    NormalizeOf(r.alphabet, before, a, after);
    NormalizeTrimmed(r.alphabet, b);
    WriterByName(r, db, before + a + after, b);
  }

  lemma NormalizeTrimmed(alphabet: Alphabet, s: string)
    requires Trimmed(alphabet, s)
    ensures Normalize(alphabet, s) == LowerAll(alphabet, s)
  {
    assert TrimLeft(alphabet, s) == s && TrimRight(alphabet, s) == s;
  }

  lemma WriterByName(r: Registry, db: Database, a: Account, b: Account)
    requires Normalize(r.alphabet, a) == Normalize(r.alphabet, b)
    ensures IsDatabaseWriter(r, db, a) == IsDatabaseWriter(r, db, b)
  {
  }

  lemma WriterIgnoresNormalizing(r: Registry, db: Database, a: Account)
    requires Settles(r.alphabet)
    ensures IsDatabaseWriter(r, db, a) == IsDatabaseWriter(r, db, Normalize(r.alphabet, a))
  {
    NormalizeIsIdempotent(r.alphabet, a);
  }

  /** Every statement the observer lets pass on its own checks, the bitmap gate lets pass too. */
  lemma ObserverChecksImplyGate(r: Registry, a: Account, db: Database)
    requires db in r.state.infos && !r.state.infos[db].pendingDelete
    ensures CommitGate.CanWrite(r.state.perms, a, db) ==> Allows(r, false, a, db, Write)
    ensures CommitGate.CanAdmin(r.state.perms, a, db) ==> Allows(r, false, a, db, Admin)
    ensures IsOwner(r.state, a, db) ==> Allows(r, false, a, db, Owner)
  {
    var bits := Effective(r.state.perms, a, db);
    WriteHolders(r.state.perms, a, db);
    if Owner in bits { assert Owner in bits * Sources(Admin) && Owner in bits * Sources(Owner); }
    if Admin in bits { assert Admin in bits * Sources(Admin); }
  }

  /** The bits an account holds after a privilege statement, from what it forces on and off. */
  ghost function BitsAfter(s: State, ev: CommitGate.Event, a: Account, db: Database): (bits: DbAuth) {
    var (on, off) := CommitGate.Forced(CommitGate.DeltaOps(ev.deltas, ev.user), a, db);
    (Bits(s.perms, a, db) - off) + on
  }

  lemma PrivilegeBits(s: State, ev: CommitGate.Event, indexerId: nat, a: Account, db: Database)
    requires ev.kind == CommitGate.Grant || ev.kind == CommitGate.Revoke
    requires CommitGate.Apply(s, ev, indexerId).accepted
    ensures var s' := CommitGate.Apply(s, ev, indexerId).state;
            s'.infos == s.infos && Bits(s'.perms, a, db) == BitsAfter(s, ev, a, db)
  {
    CommitGate.OpsInClosedForm(s.perms, CommitGate.DeltaOps(ev.deltas, ev.user), a, db);
  }

  lemma EffectiveSources(p: Perms, a: Account, db: Database, bit: AuthBit)
    ensures Effective(p, a, db) * Sources(bit) != {} <==>
            Bits(p, a, db) * Sources(bit) != {} || Bits(p, WILDCARD, db) * Sources(bit) != {}
  {
    assert Effective(p, a, db) * Sources(bit) ==
           Bits(p, a, db) * Sources(bit) + Bits(p, WILDCARD, db) * Sources(bit);
  }

  /** Who the contract predicate takes for a writer after a privilege statement. */
  ghost predicate WriterAfter(r: Registry, ev: CommitGate.Event, account: Account, db: Database) {
    var a := Normalize(r.alphabet, account);
    a != "" && a != WILDCARD && (IsHostSigner(r, db, a) || BitsAfter(r.state, ev, a, db) * Sources(Write) != {})
  }

  lemma WriteBits(p: Perms, a: Account, db: Database)
    ensures CommitGate.CanWrite(p, a, db) <==> Bits(p, a, db) * Sources(Write) != {}
  {
    var bits := Bits(p, a, db);
    if Write in bits {
      assert Write in bits * Sources(Write);
    } else if Owner in bits {
      assert Owner in bits * Sources(Write);
    } else {
      assert bits * Sources(Write) == {};
    }
  }

  lemma PrivilegesDecideWriter(r: Registry, ev: CommitGate.Event, indexerId: nat, account: Account, db: Database)
    requires ev.kind == CommitGate.Grant || ev.kind == CommitGate.Revoke
    requires CommitGate.Apply(r.state, ev, indexerId).accepted
    requires db in r.state.infos && !r.state.infos[db].pendingDelete
    ensures var r' := r.(state := CommitGate.Apply(r.state, ev, indexerId).state);
            IsDatabaseWriter(r', db, account) == Yes <==> WriterAfter(r, ev, account, db)
  {
    var s', a := CommitGate.Apply(r.state, ev, indexerId).state, Normalize(r.alphabet, account);
    PrivilegeBits(r.state, ev, indexerId, a, db);
    WriteBits(s'.perms, a, db);
  }

  /** After any accepted GRANT or REVOKE, on however many databases and grantees, the gate
      decides for every account by the bits that account and the zero address then hold; the
      contract predicate decides a write by the account's own bits and the hosting signer. */
  lemma PrivilegesDecideGate(r: Registry, contract: bool, ev: CommitGate.Event, indexerId: nat,
                             a: Account, db: Database, bit: AuthBit)
    requires ev.kind == CommitGate.Grant || ev.kind == CommitGate.Revoke
    requires CommitGate.Apply(r.state, ev, indexerId).accepted
    ensures var r' := r.(state := CommitGate.Apply(r.state, ev, indexerId).state);
            Allows(r', contract, a, db, bit) <==>
            || (db == SYSTEM && bit == Read)
            || (&& db in r.state.infos && !r.state.infos[db].pendingDelete
                && if bit == Write && contract then WriterAfter(r, ev, a, db)
                   else || BitsAfter(r.state, ev, a, db) * Sources(bit) != {}
                        || BitsAfter(r.state, ev, WILDCARD, db) * Sources(bit) != {})
  {
    var s' := CommitGate.Apply(r.state, ev, indexerId).state;
    PrivilegeBits(r.state, ev, indexerId, a, db);
    PrivilegeBits(r.state, ev, indexerId, WILDCARD, db);
    EffectiveSources(s'.perms, a, db, bit);
    if db in r.state.infos && !r.state.infos[db].pendingDelete { PrivilegesDecideWriter(r, ev, indexerId, a, db); }
  }

  /** The statement takes from the account all it held that gives the bit, and gives none back. */
  ghost predicate TakesAway(s: State, ev: CommitGate.Event, a: Account, db: Database, bit: AuthBit) {
    var (on, off) := CommitGate.Forced(CommitGate.DeltaOps(ev.deltas, ev.user), a, db);
    on !! Sources(bit) && Bits(s.perms, a, db) * Sources(bit) <= off
  }

  /** After an accepted statement the gate refuses an account the bit if and only if the
      statement took it away and the zero address does not give it; and the contract predicate
      refuses a write if and only if the account has no name there, or it does not sign for the
      host and the statement took away its own bits. */
  lemma RevokeTakesEffect(r: Registry, contract: bool, ev: CommitGate.Event, indexerId: nat,
                          a: Account, db: Database, bit: AuthBit)
    requires ev.kind == CommitGate.Grant || ev.kind == CommitGate.Revoke
    requires CommitGate.Apply(r.state, ev, indexerId).accepted
    requires db in r.state.infos && !r.state.infos[db].pendingDelete && !(db == SYSTEM && bit == Read)
    ensures var r' := r.(state := CommitGate.Apply(r.state, ev, indexerId).state);
            !Allows(r', contract, a, db, bit) <==>
            if bit == Write && contract then
              var name := Normalize(r.alphabet, a);
              name == "" || name == WILDCARD || (!IsHostSigner(r, db, name) && TakesAway(r.state, ev, name, db, Write))
            else TakesAway(r.state, ev, a, db, bit) && TakesAway(r.state, ev, WILDCARD, db, bit)
  {
    PrivilegesDecideGate(r, contract, ev, indexerId, a, db, bit);
    TakenAwayIff(r.state, ev, a, db, bit);
    TakenAwayIff(r.state, ev, WILDCARD, db, bit);
    TakenAwayIff(r.state, ev, Normalize(r.alphabet, a), db, Write);
  }

  lemma TakenAwayIff(s: State, ev: CommitGate.Event, a: Account, db: Database, bit: AuthBit)
    ensures BitsAfter(s, ev, a, db) * Sources(bit) == {} <==> TakesAway(s, ev, a, db, bit)
  {
    var (on, off) := CommitGate.Forced(CommitGate.DeltaOps(ev.deltas, ev.user), a, db);
    NothingLeftIff(Bits(s.perms, a, db), on, off, Sources(bit));
  }

  lemma NothingLeftIff(held: DbAuth, on: DbAuth, off: DbAuth, sources: DbAuth)
    ensures ((held - off) + on) * sources == {} <==> on !! sources && held * sources <= off
  {
    var left := ((held - off) + on) * sources;
    if left == {} {
      forall b | b in on ensures b !in sources { assert b !in left; }
      forall b | b in held * sources ensures b in off { assert b !in left; }
    } else {
      var b :| b in left;
      assert b in on || b in held * sources;
    }
  }

  /** An owner is never cut off: no statement takes the ownership bit. */
  lemma {:induction false} OwnershipIsNotRevoked(ops: seq<CommitGate.Op>, a: Account, db: Database)
    requires forall op :: op in ops ==> op.bits <= {Read, Write, Admin}
    ensures Owner !in CommitGate.Forced(ops, a, db).1
  {
    if ops != [] { OwnershipIsNotRevoked(ops[..|ops| - 1], a, db); }
  }

  lemma OwnerKeepsAccess(s: State, ev: CommitGate.Event, a: Account, db: Database, bit: AuthBit)
    requires IsOwner(s, a, db) && bit in {Read, Write, Admin, Owner}
    ensures !TakesAway(s, ev, a, db, bit)
  {
    CommitGate.DeltaOpsTarget(ev.deltas, ev.user);
    OwnershipIsNotRevoked(CommitGate.DeltaOps(ev.deltas, ev.user), a, db);
    assert Owner in Bits(s.perms, a, db) * Sources(bit);
  }
}
