/** Storage-integrity ingress: one signed INSERT is driven through merge health, a
    capacity reservation, the payload store and the orchestrator. The collaborators
    are ports: every answer they may give is a parameter of the call.
 */
module Ingress {
  import opened Options
  import opened ClientErrors
  import opened PartsReservation
  import opened NameOrder

  datatype Lifecycle =
    | Unset | Preparing | UnsafeWritten | SubmitAccepted | RCBound | Ack2Done | AbortPending | Cleaned

  datatype OutcomeCategory =
    | Unspecified | Accepted | ExactIdempotent | Retryable | Unknown | TerminalReject

  /** The arbiter's application-level code on a refusal; `NoCode` is the empty string. */
  datatype AdmissionCode =
    | NoCode
    | DuplicateClientSeq
    | SchemaNotAllowed
    | SourceUnavailable
    | IndexerQuarantined
    | VerifiersUnavailable
    | CopiesBackpressure
    | OtherCode(name: string)

  datatype SubmitOutcome = SubmitOutcome(category: OutcomeCategory, code: AdmissionCode)
  {
    /** A code that proves the client_seq coordinate was left unspent. */
    predicate ProvesUnspent() { code != NoCode && code != DuplicateClientSeq }
  }

  /** What the orchestrator reports about one attempt. */
  datatype IntakeResult = IntakeResult(
    ack2: bool,
    lifecycle: Lifecycle,
    submit: SubmitOutcome,
    preparedStatement: string,
    candidates: seq<CandidatePart>,
    sourceWritePossible: bool,
    terminal: bool,
    frontierRetained: bool)
  {
    predicate SourceWriteMayExist() {
      lifecycle != Cleaned && (sourceWritePossible || preparedStatement != "")
    }
  }

  /** A runtime hook the orchestrator calls while it works on a statement. */
  datatype Hook =
    | BindPrepared(candidates: seq<CandidatePart>, bind: Option<Error>)
    | BeforeCleanup(candidates: seq<CandidatePart>, proof: Option<Error>)
    | AfterCleanup(proof: Option<Error>)

  datatype Materializer = Native | CSV

  datatype Result<+T> = Ok(value: T) | Err(error: Error)

  datatype Admission = Admission(statement: string, tableId: string, hasSchema: bool)

  /** The answers of every port one admission may consult. */
  datatype Ports = Ports(
    mergeHealth: Option<Error>,
    materializer: Result<Materializer>,
    target: Result<Option<seq<Name>>>,
    requiresPrepare: Result<bool>,
    reserve: Option<Error>,
    callerCanceled: bool,
    putPayload: Result<string>,
    hooks: seq<Hook>,
    result: IntakeResult,
    resultErr: Option<Error>,
    bind: Option<Error>)

  /** The answers recovery gets: the journal, the guard's batch restore, the hook calls of
      the drained statements, and whether the drain finished. */
  datatype RecoveryPorts = RecoveryPorts(
    journalErr: Option<Error>,
    batch: Option<Error>,
    hooks: seq<(string, Hook)>,
    drainErr: Option<Error>)

  /** What one admission did besides returning: whether it reached Orchestrate and
      whether it metered the statement as sequenced. */
  datatype Trace = Trace(reached: bool, metered: bool)

  predicate UnflaggedAnswer(e: Option<Error>) { e.Some? ==> Unflagged(e.value) }

  /** Ports never return an error that already carries the unspent flag. */
  predicate PortsUnflagged(p: Ports) {
    && UnflaggedAnswer(p.mergeHealth)
    && (p.materializer.Err? ==> Unflagged(p.materializer.error))
    && (p.target.Err? ==> Unflagged(p.target.error))
    && (p.requiresPrepare.Err? ==> Unflagged(p.requiresPrepare.error))
    && UnflaggedAnswer(p.reserve)
    && (p.putPayload.Err? ==> Unflagged(p.putPayload.error))
    && UnflaggedAnswer(p.resultErr)
    && UnflaggedAnswer(p.bind)
  }

  /** A fresh accept carries no refusal code. */
  predicate AcceptedHasNoCode(p: Ports) {
    p.result.submit.category == Accepted ==> p.result.submit.code == NoCode
  }

  /** The exact cleanup finished: the statement will never be retried. */
  predicate TerminallyCleaned(p: Ports) {
    p.result.lifecycle == Cleaned && p.result.terminal && !ProofPending(p)
  }

  /** The hook calls do not end in a cleanup. */
  predicate QuietHooks(hooks: seq<Hook>) { forall h :: h in hooks ==> !h.AfterCleanup? }

  predicate ProofPending(p: Ports) { p.resultErr.Some? && Is(p.resultErr.value, CleanupProofPending) }

  /** The statement may have been written: it was prepared, or a write is possible, and it was not
      cleaned. */
  predicate Written(p: Ports) {
    && !ProofPending(p) && p.result.lifecycle != Cleaned
    && (p.result.sourceWritePossible || p.result.preparedStatement != "")
  }

  /** It was neither written nor cleaned for good. */
  predicate Unwritten(p: Ports) {
    !ProofPending(p) && !Written(p) && !TerminallyCleaned(p)
  }

  /** The guard binds the candidates, or there are none to bind. */
  predicate Bound(p: Ports) { p.result.candidates == [] || p.bind.None? }

  /** Nothing was written for the handle that this attempt took, and no frontier is kept for it. */
  predicate ReleasesAttempt(p: Ports, tookHandle: bool) {
    Unwritten(p) && tookHandle && !p.result.frontierRetained
  }

  /** A written statement whose candidates the guard does not bind to the handle it has. */
  predicate BindFails(p: Ports, hasHandle: bool) {
    hasHandle && Written(p) && !Bound(p)
  }

  datatype Tracked = Tracked(reservation: Reservation, tableId: string, partitions: Option<seq<Name>>)

  // ---------------------------------------------------------------------------
  // Candidate binding

  function Partitions(cs: seq<CandidatePart>): (ps: seq<Name>)
    ensures |ps| == |cs|
    ensures forall i :: 0 <= i < |cs| ==> ps[i] == cs[i].partitionId
  {
    seq(|cs|, i requires 0 <= i < |cs| => cs[i].partitionId)
  }

  /** Complete candidates of this table, no two for the same partition. */
  ghost predicate Complete(tableId: string, cs: seq<CandidatePart>) {
    && (forall c :: c in cs ==> c.tableId == tableId != "" && c.partitionId != [] && c.partName != "")
    && Distinct(Partitions(cs))
  }

  /** Exactly one complete candidate of this table for every touched partition. */
  ghost predicate BindsExactly(tableId: string, touched: seq<Name>, cs: seq<CandidatePart>) {
    && [] !in touched && Distinct(touched) && Complete(tableId, cs)
    && (forall p :: p in touched <==> p in Partitions(cs))
  }

  method ValidateCandidateBinding(tableId: string, touched: seq<Name>, cs: seq<CandidatePart>)
    returns (err: Option<Error>)
    ensures err.None? <==> BindsExactly(tableId, touched, cs)
    ensures err.Some? ==> Unflagged(err.value)
  {
    var refused := Some(Leaf(Other("candidate binding")));
    var expected: set<Name> := {};
    for i := 0 to |touched|
      invariant [] !in touched[..i] && Distinct(touched[..i])
      invariant expected == set p | p in touched[..i]
    {
      if touched[i] == [] || touched[i] in expected {
        return refused;
      }
      expected := expected + {touched[i]};
    }
    assert touched[..|touched|] == touched;
    var ps := Partitions(cs);
    var seen: set<Name> := {};
    for i := 0 to |cs|
      invariant forall k :: 0 <= k < i ==>
                  cs[k].tableId == tableId != "" && cs[k].partitionId != [] && cs[k].partName != ""
      invariant Distinct(ps[..i])
      invariant seen == set p | p in ps[..i]
      invariant seen <= expected
    {
      var c := cs[i];
      if c.tableId == "" || c.tableId != tableId || c.partitionId == [] || c.partName == "" {
        return refused;
      }
      if c.partitionId in seen || c.partitionId !in expected {
        assert ps[i] in ps;
        return refused;
      }
      seen := seen + {c.partitionId};
    }
    assert ps[..|cs|] == ps;
    if !(expected <= seen) {
      return refused;
    }
    assert forall p :: p in touched <==> p in expected;
    assert forall p :: p in ps <==> p in seen;
    return None;
  }

  // ---------------------------------------------------------------------------
  // Recovery records

  /** The durable journal record of one statement, as recovery reads it. */
  datatype JournalRecord = JournalRecord(
    statement: string,
    tableId: string,
    isTerminal: bool,
    ack2: bool,
    hasPrepared: bool,
    candidates: seq<CandidatePart>,
    observed: seq<CandidatePart>,
    touched: Option<seq<Name>>,
    legacy: bool,
    stage: Lifecycle,
    knownUnwritten: bool,
    hasSubmit: bool,
    submit: SubmitOutcome,
    resolved: Result<Option<seq<Name>>>,
    persist: Option<Error>)

  /** Prepare provably never wrote and the arbiter's rejection is final: no debt. */
  predicate KnownUnwrittenTerminalAbort(r: JournalRecord) {
    && !r.isTerminal && r.stage == AbortPending && r.knownUnwritten && !r.hasPrepared
    && r.hasSubmit && r.submit.category == TerminalReject
  }

  /** The statements whose capacity debt recovery must rebuild as a live handle. */
  predicate OwesCapacity(r: JournalRecord) {
    !r.isTerminal && !KnownUnwrittenTerminalAbort(r)
  }

  datatype RestoreRecord = RestoreRecord(statement: string, partitions: Option<seq<Name>>, finalized: bool)

  datatype RestorePlan = Skip | Fail(error: Error) | Restore(record: RestoreRecord)

  /** Finished without ACK2, or rejected for good before anything was written. */
  ghost predicate Skipped(r: JournalRecord) {
    if r.isTerminal then !r.ack2
    else
      && r.stage == AbortPending && r.knownUnwritten && !r.hasPrepared
      && r.hasSubmit && r.submit.category == TerminalReject
  }

  /** The statements among `records` that end up with a live handle. */
  ghost function OwingStatements(records: seq<JournalRecord>): (ss: set<string>) {
    set r | r in records && !r.isTerminal && !Skipped(r) :: r.statement
  }

  /** Some record of the statement has this table. */
  ghost predicate NamesTable(records: seq<JournalRecord>, s: string, tableId: string) {
    records != []
    && var r := records[|records| - 1];
       (r.statement == s && r.tableId == tableId) || NamesTable(records[..|records| - 1], s, tableId)
  }

  /** Some record of the statement is restored with these partitions. */
  ghost predicate NamesPartitions(records: seq<JournalRecord>, s: string, partitions: Option<seq<Name>>) {
    records != []
    && var r := records[|records| - 1];
       || (r.statement == s && !Skipped(r) && RestoredWith(r, partitions))
       || NamesPartitions(records[..|records| - 1], s, partitions)
  }

  /** The entry has the table and the partitions of the statement's record. */
  ghost predicate Rebuilt(records: seq<JournalRecord>, s: string, t: Tracked) {
    NamesTable(records, s, t.tableId) && NamesPartitions(records, s, t.partitions)
  }

  ghost function UnfinishedStatements(plans: seq<RestoreRecord>): (ss: set<string>) {
    set r | r in plans && !r.finalized :: r.statement
  }

  lemma OneMoreOwing(records: seq<JournalRecord>, r: JournalRecord)
    ensures OwingStatements(records + [r]) ==
            OwingStatements(records) + if OwesCapacity(r) then {r.statement} else {}
  {
    assert forall x :: x in records + [r] <==> x in records || x == r;
  }

  lemma OneMoreUnfinished(plans: seq<RestoreRecord>, r: RestoreRecord)
    ensures UnfinishedStatements(plans + [r]) ==
            UnfinishedStatements(plans) + if r.finalized then {} else {r.statement}
  {
    assert forall x :: x in plans + [r] <==> x in plans || x == r;
  }

  /** The partitions the candidates name, in order, each once. */
  ghost predicate NamedBy(ps: seq<Name>, cs: seq<CandidatePart>) {
    Ascending(ps) && forall p :: p in ps <==> p in Partitions(cs)
  }

  /** The partition set of a record that predates the journaled one. */
  method CandidatePartitionIds(cs: seq<CandidatePart>) returns (ps: seq<Name>)
    ensures NamedBy(ps, cs)
  {
    ps := [];
    for i := 0 to |cs|
      invariant Distinct(ps)
      invariant forall p :: p in ps <==> p in Partitions(cs)[..i]
    {
      if cs[i].partitionId !in ps {
        ps := ps + [cs[i].partitionId];
      }
    }
    assert Partitions(cs)[..|cs|] == Partitions(cs);
    ps := SortNames(ps);
  }

  /** The partitions candidates name bind them exactly when the candidates are complete. */
  lemma NamedPartitionsBind(tableId: string, ps: seq<Name>, cs: seq<CandidatePart>)
    requires NamedBy(ps, cs)
    ensures BindsExactly(tableId, ps, cs) <==> Complete(tableId, cs)
  {
    AscendingIsDistinct(ps);
  }

  /** A terminal record of the oldest journal gets its partitions from its candidates. */
  predicate Migrates(r: JournalRecord) {
    r.isTerminal && r.touched.None? && r.legacy && r.candidates != []
  }

  /** The partitions cannot be had from the record; the schema has to give them. */
  predicate Resolves(r: JournalRecord) { !r.isTerminal && r.touched.None? }

  /** The partitions recovery restores a record with. */
  ghost predicate RestoredWith(r: JournalRecord, partitions: Option<seq<Name>>) {
    if Migrates(r) then partitions.Some? && NamedBy(partitions.value, r.candidates)
    else if Resolves(r) then r.resolved == Ok(partitions)
    else partitions == r.touched
  }

  /** Everything recovery checks about a record it does not skip. */
  ghost predicate Restorable(r: JournalRecord) {
    && (r.isTerminal ==> r.hasPrepared)
    && (forall c :: c in r.observed ==> c in r.candidates)
    && (Resolves(r) ==> r.resolved.Ok?)
    && (r.hasPrepared ==>
          if Migrates(r) then Complete(r.tableId, r.candidates)
          else BindsExactly(r.tableId, PartitionsOrNone(if Resolves(r) then r.resolved.value else r.touched), r.candidates))
    && (Migrates(r) || !r.isTerminal ==> r.persist.None?)
  }

  /** The partitions recovery binds a record's candidates to, or why there are none. */
  method ChoosePartitions(r: JournalRecord) returns (partitions: Result<Option<seq<Name>>>)
    ensures partitions.Ok? <==> (Resolves(r) ==> r.resolved.Ok?)
    ensures partitions.Ok? ==> RestoredWith(r, partitions.value)
  {
    if Migrates(r) {
      var ids := CandidatePartitionIds(r.candidates);
      return Ok(Some(ids));
    }
    if !Resolves(r) { return Ok(r.touched); }
    return if r.resolved.Err? then Err(Wrap(r.resolved.error)) else r.resolved;
  }

  /** What recovery does with one journal record. */
  method PlanRestore(r: JournalRecord) returns (plan: RestorePlan)
    ensures plan.Skip? <==> Skipped(r)
    ensures plan.Restore? <==> !Skipped(r) && Restorable(r)
    ensures plan.Restore? ==>
              && plan.record.statement == r.statement && plan.record.finalized == r.isTerminal
              && RestoredWith(r, plan.record.partitions)
              && (r.hasPrepared ==>
                    BindsExactly(r.tableId, PartitionsOrNone(plan.record.partitions), r.candidates))
  {
    if KnownUnwrittenTerminalAbort(r) || (r.isTerminal && !r.ack2) {
      return Skip;
    }
    if r.isTerminal && !r.hasPrepared {
      return Fail(Leaf(Other("terminal ACK2 without a prepared result")));
    }
    if exists c :: c in r.observed && c !in r.candidates {
      return Fail(Leaf(Other("observed candidate is not prepared")));
    }
    var partitions := ChoosePartitions(r);
    if partitions.Err? {
      return Fail(partitions.error);
    }
    if r.hasPrepared {
      var bad := ValidateCandidateBinding(r.tableId, PartitionsOrNone(partitions.value), r.candidates);
      if Migrates(r) { NamedPartitionsBind(r.tableId, partitions.value.value, r.candidates); }
      if bad.Some? {
        return Fail(bad.value);
      }
    }
    if (Migrates(r) || !r.isTerminal) && r.persist.Some? {
      return Fail(Wrap(r.persist.value));
    }
    return Restore(RestoreRecord(r.statement, partitions.value, r.isTerminal));
  }

  /** The plans for all records, or the first failure. */
  method PlanAll(records: seq<JournalRecord>)
    returns (plans: seq<RestoreRecord>, partitions: map<string, Option<seq<Name>>>, err: Option<Error>)
    ensures err.None? <==> forall r :: r in records && !Skipped(r) ==> Restorable(r)
    ensures err.None? ==>
              && UnfinishedStatements(plans) == OwingStatements(records) <= partitions.Keys
              && forall s :: s in partitions ==> NamesPartitions(records, s, partitions[s])
  {
    plans, partitions := [], map[];
    for i := 0 to |records|
      invariant forall r :: r in records[..i] && !Skipped(r) ==> Restorable(r)
      invariant UnfinishedStatements(plans) == OwingStatements(records[..i]) <= partitions.Keys
      invariant forall s :: s in partitions ==> NamesPartitions(records[..i], s, partitions[s])
    {
      var plan := PlanRestore(records[i]);
      if plan.Fail? { return plans, partitions, Some(plan.error); }
      assert records[..i + 1] == records[..i] + [records[i]] && records[..i + 1][..i] == records[..i];
      OneMoreOwing(records[..i], records[i]);
      if plan.Restore? {
        OneMoreUnfinished(plans, plan.record);
        plans := plans + [plan.record];
        partitions := partitions[plan.record.statement := plan.record.partitions];
      }
    }
    assert records[..|records|] == records;
    err := None;
  }

  /** Every statement has a name and none comes twice; the partitions of an unfinished one are
      known. */
  ghost predicate WellFormedBatch(records: seq<RestoreRecord>) {
    && (forall i, j :: 0 <= i < j < |records| ==> records[i].statement != records[j].statement)
    && (forall i :: 0 <= i < |records| ==>
          records[i].statement != "" && (!records[i].finalized ==> records[i].partitions.Some?))
  }

  /** The guard's RestoreBatch: one committed handle per unfinished statement, or nothing. */
  method RestoreBatch(records: seq<RestoreRecord>, answer: Option<Error>)
    returns (restored: map<string, Reservation>, err: Option<Error>)
    ensures err.None? <==> answer.None? && WellFormedBatch(records)
    ensures err.Some? ==> restored == map[]
    ensures err.None? ==> restored.Keys == UnfinishedStatements(records)
    ensures forall s :: s in restored ==>
              fresh(restored[s]) && restored[s].statement == s && restored[s].state == Committed
  {
    restored := map[];
    var seen: set<string> := {};
    for i := 0 to |records|
      invariant restored.Keys == UnfinishedStatements(records[..i])
      invariant WellFormedBatch(records[..i]) && seen == set r | r in records[..i] :: r.statement
      invariant forall s :: s in restored ==>
                  fresh(restored[s]) && restored[s].statement == s && restored[s].state == Committed
    {
      var r := records[i];
      if r.statement == "" || r.statement in seen || (!r.finalized && r.partitions.None?) {
        return map[], Some(Leaf(Other("malformed restore record")));
      }
      seen := seen + {r.statement};
      if !r.finalized {
        var handle := new Reservation(r.statement, Committed);
        restored := restored[r.statement := handle];
      }
      assert records[..i + 1] == records[..i] + [r];
      OneMoreUnfinished(records[..i], r);
    }
    if answer.Some? {
      return map[], answer;
    }
    assert records[..|records|] == records;
    err := None;
  }

  function PartitionsOrNone(ps: Option<seq<Name>>): (r: seq<Name>) {
    if ps.Some? then ps.value else []
  }

  // ---------------------------------------------------------------------------
  // Errors the client sees

  function BackpressureClientError(e: Error): (r: Error)
    ensures Unflagged(e) ==> Unflagged(r)
    ensures Told(r) == Some((CODE_TOO_MANY_PARTS, true)) && (Is(r, Backpressure) <==> Is(e, Backpressure))
  {
    Client(CODE_TOO_MANY_PARTS, true, false, Some(e))
  }

  function JoinErr(e: Option<Error>, more: Error): (r: Option<Error>)
    ensures r.Some?
    ensures UnflaggedAnswer(e) && Unflagged(more) ==> UnflaggedAnswer(r)
  {
    match e
    case None => Some(Wrap(more))
    case Some(x) => Some(Join(x, Wrap(more)))
  }

  /** The outcomes whose refusal is flagged. */
  predicate RefusedUnspent(submit: SubmitOutcome) {
    || submit.code in {SchemaNotAllowed, SourceUnavailable, IndexerQuarantined, VerifiersUnavailable, CopiesBackpressure}
    || (submit.category == TerminalReject && submit.code != NoCode && submit.code != DuplicateClientSeq)
  }

  /** The refusal for a non-ACK2 outcome that ended without a local error. */
  function NotAckedError(res: IntakeResult): (e: Error)
    ensures IsSeqUnspent(e) <==> RefusedUnspent(res.submit)
    ensures IsSeqUnspent(e) ==> res.submit.ProvesUnspent()
    ensures res.submit.code in {SchemaNotAllowed, IndexerQuarantined} ==> Told(e) == Some((CODE_QUERY_IS_PROHIBITED, true))
    ensures res.submit.code in {SourceUnavailable, VerifiersUnavailable} ==>
              Told(e) == Some((CODE_TABLE_IS_BEING_RESTARTED, true))
    ensures res.submit.code == CopiesBackpressure ==> Told(e) == Some((CODE_TOO_MANY_PARTS, true))
    ensures Told(e).None? <==>
            res.submit.code !in {SchemaNotAllowed, SourceUnavailable, IndexerQuarantined, VerifiersUnavailable, CopiesBackpressure}
  {
    var arbiter := Some(Leaf(Other("arbiter refusal")));
    match res.submit.code
    case SchemaNotAllowed => Client(CODE_QUERY_IS_PROHIBITED, true, true, arbiter)
    case SourceUnavailable => Client(CODE_TABLE_IS_BEING_RESTARTED, true, true, arbiter)
    case IndexerQuarantined => Client(CODE_QUERY_IS_PROHIBITED, true, true, arbiter)
    case VerifiersUnavailable => Client(CODE_TABLE_IS_BEING_RESTARTED, true, true, arbiter)
    case CopiesBackpressure => Client(CODE_TOO_MANY_PARTS, true, true, arbiter)
    case _ =>
      if res.submit.category == TerminalReject && res.submit.ProvesUnspent() then
        MarkSeqUnspent(Leaf(Other("rejected by the arbiter")))
      else
        Leaf(Other("did not reach ACK2"))
  }

  /** A refusal by a check that runs before the statement record is consulted. */
  function EarlyRefusal(hasGuard: bool, materializer: Materializer, requireSchema: bool,
                        adm: Admission, p: Ports): (e: Option<Error>)
    ensures e.Some? ==> IsSeqUnspent(e.value)
    ensures e.None? <==>
            && (hasGuard ==> p.mergeHealth.None?)
            && p.materializer == Ok(materializer)
            && (requireSchema ==> adm.hasSchema)
            && p.target.Ok?
    ensures hasGuard && p.mergeHealth.Some? ==>
              (if Is(p.mergeHealth.value, MergeGuardNotAsserted) then Told(e.value) == Some((CODE_TABLE_IS_BEING_RESTARTED, true))
               else Told(e.value) == Told(p.mergeHealth.value))
  {
    if hasGuard && p.mergeHealth.Some? then
      if Is(p.mergeHealth.value, MergeGuardNotAsserted) then
        Some(Client(CODE_TABLE_IS_BEING_RESTARTED, true, true, p.mergeHealth))
      else Some(MarkSeqUnspent(Wrap(p.mergeHealth.value)))
    else if p.materializer.Err? then Some(MarkSeqUnspent(Wrap(p.materializer.error)))
    else if p.materializer.value != materializer then Some(MarkSeqUnspent(Leaf(Other("materializer"))))
    else if requireSchema && !adm.hasSchema then Some(Client(CODE_QUERY_IS_PROHIBITED, false, true, None))
    else if p.target.Err? then Some(MarkSeqUnspent(p.target.error))
    else None
  }

  /** The guard refused the reservation. */
  function ReserveRefusal(cause: Error, callerCanceled: bool): (e: Error)
    ensures IsSeqUnspent(e)
    ensures if callerCanceled then Is(e, Canceled) && Told(e) == None
            else Is(e, Backpressure) && Told(e) == Some((CODE_TOO_MANY_PARTS, true))
  {
    if callerCanceled then MarkSeqUnspent(Leaf(Canceled))
    else if Is(cause, Backpressure) then MarkSeqUnspent(BackpressureClientError(cause))
    else
      assert Is(Leaf(Backpressure), Backpressure);
      MarkSeqUnspent(BackpressureClientError(Join(Leaf(Backpressure), cause)))
  }

  /** Marked only while the orchestrator still requires a genuinely new prepare. */
  function PayloadRefusal(requiresPrepare: bool, cause: Error): (e: Error)
    ensures Unflagged(cause) ==> (IsSeqUnspent(e) <==> requiresPrepare)
  {
    assert Unflagged(cause) ==> !IsSeqUnspent(Wrap(cause)) by {
      if Unflagged(cause) { UnflaggedIsNotUnspent(Wrap(cause)); }
    }
    if requiresPrepare then MarkSeqUnspent(Wrap(cause)) else Wrap(cause)
  }

  /** What the client is told once Orchestrate has returned. */
  function FinalError(err: Option<Error>, res: IntakeResult): (e: Option<Error>)
    ensures e.None? <==> err.None? && res.ack2
    ensures UnflaggedAnswer(err) ==>
              (e.Some? && IsSeqUnspent(e.value) <==> err.None? && !res.ack2 && RefusedUnspent(res.submit))
    ensures err.Some? ==>
              && (forall s :: Is(e.value, s) <==> Is(err.value, s))
              && Told(e.value) == if Is(err.value, Backpressure) then Some((CODE_TOO_MANY_PARTS, true)) else Told(err.value)
    ensures err.None? && !res.ack2 ==> e == Some(NotAckedError(res))
  {
    match err
    case Some(cause) =>
      var told := if Is(cause, Backpressure) then BackpressureClientError(cause) else Wrap(cause);
      assert Unflagged(cause) ==> !IsSeqUnspent(told) by {
        if Unflagged(cause) { UnflaggedIsNotUnspent(told); }
      }
      Some(told)
    case None => if res.ack2 then None else Some(NotAckedError(res))
  }

  /** The entries after a restore, record by record. */
  ghost function Entered(was: map<string, Tracked>, records: seq<JournalRecord>, restored: map<string, Reservation>,
                         partitions: map<string, Option<seq<Name>>>): (now: map<string, Tracked>)
    requires restored.Keys <= partitions.Keys
  {
    if records == [] then was
    else
      var r, now := records[|records| - 1], Entered(was, records[..|records| - 1], restored, partitions);
      if r.statement !in restored then now
      else now[r.statement := Tracked(restored[r.statement], r.tableId, partitions[r.statement])]
  }

  lemma {:induction false} EnteredKeys(was: map<string, Tracked>, records: seq<JournalRecord>,
                                       restored: map<string, Reservation>, partitions: map<string, Option<seq<Name>>>)
    requires restored.Keys <= partitions.Keys
    ensures var now := Entered(was, records, restored, partitions);
            && was.Keys <= now.Keys <= was.Keys + restored.Keys
            && forall s :: s in was && s !in restored ==> now[s] == was[s]
  {
    if records != [] { EnteredKeys(was, records[..|records| - 1], restored, partitions); }
  }

  lemma {:induction false} EnteredAt(was: map<string, Tracked>, records: seq<JournalRecord>,
                                     restored: map<string, Reservation>, partitions: map<string, Option<seq<Name>>>, s: string)
    requires restored.Keys <= partitions.Keys && s in restored && exists r :: r in records && r.statement == s
    ensures var now := Entered(was, records, restored, partitions);
            && s in now && now[s].reservation == restored[s] && now[s].partitions == partitions[s]
            && NamesTable(records, s, now[s].tableId)
  {
    var front, last := records[..|records| - 1], records[|records| - 1];
    if last.statement != s {
      var r :| r in records && r.statement == s;
      assert r in front;
      EnteredAt(was, front, restored, partitions, s);
    }
  }

  lemma EntriesRebuilt(was: map<string, Tracked>, records: seq<JournalRecord>,
                       restored: map<string, Reservation>, partitions: map<string, Option<seq<Name>>>)
    requires restored.Keys == OwingStatements(records) && restored.Keys <= partitions.Keys
    requires forall s :: s in partitions ==> NamesPartitions(records, s, partitions[s])
    ensures var now := Entered(was, records, restored, partitions);
            && now.Keys == was.Keys + restored.Keys
            && (forall s :: s in restored ==>
                  now[s].reservation == restored[s] && restored[s] in restored.Values && Rebuilt(records, s, now[s]))
            && (forall s :: s in was && s !in restored ==> now[s] == was[s])
  {
    EnteredKeys(was, records, restored, partitions);
    forall s | s in restored
      ensures var now := Entered(was, records, restored, partitions);
              && s in now && now[s].reservation == restored[s] && restored[s] in restored.Values
              && Rebuilt(records, s, now[s])
    {
      var r :| r in records && OwesCapacity(r) && r.statement == s;
      EnteredAt(was, records, restored, partitions, s);
    }
  }

  class StorageIntegrityIngress {
    const hasGuard: bool
    const materializer: Materializer
    const requireAdmissionSchema: bool
    const hasPressure: bool
    const hasPayloadWriter: bool
    const hasSchemas: bool

    var tracked: map<string, Tracked>
    /** The orchestrator runs the restore hook successfully at most once. */
    var recoveryStateRestored: bool
    /** Every capacity handle this ingress ever obtained from the guard. */
    ghost var obtained: set<Reservation>

    constructor (hasGuard: bool, materializer: Materializer, requireAdmissionSchema: bool,
                 hasPressure: bool, hasPayloadWriter: bool, hasSchemas: bool)
      ensures tracked == map[] && obtained == {} && !recoveryStateRestored
      ensures Conserved()
    {
      this.hasGuard, this.materializer := hasGuard, materializer;
      this.requireAdmissionSchema := requireAdmissionSchema;
      this.hasPressure, this.hasPayloadWriter := hasPressure, hasPayloadWriter;
      this.hasSchemas := hasSchemas;
      tracked, obtained, recoveryStateRestored := map[], {}, false;
    }

    /** Every entry of the map is a live handle obtained here, under its own statement. */
    ghost predicate TracksOnlyLive()
      reads this, obtained
    {
      forall s :: s in tracked ==>
        var r := tracked[s].reservation; r in obtained && r.statement == s && !r.Settled()
    }

    /** Every live handle is tracked under its own statement. */
    ghost predicate LosesNone()
      reads this, obtained
    {
      forall r :: r in obtained && !r.Settled() ==>
        r.statement in tracked && tracked[r.statement].reservation == r
    }

    /** Each handle obtained is either tracked live under its own statement or already
        settled, never lost and never tracked after settlement. */
    ghost predicate Conserved()
      reads this, obtained
    {
      TracksOnlyLive() && LosesNone()
    }

    /** Nothing about statements other than `s` changed. */
    twostate predicate OnlyTouches(s: string)
      reads this, obtained
    {
      && old(obtained) <= obtained
      && (forall r :: r in old(obtained) && r.statement != s ==> r.state == old(r.state))
      && (forall r :: r in obtained && r !in old(obtained) ==> r.statement == s)
      && (forall t :: t != s ==> (t in tracked <==> t in old(tracked)))
      && (forall t :: t != s && t in tracked ==> tracked[t] == old(tracked)[t])
    }

    /** Every handle of statement `s` that was live or is new is now in state `st`. */
    twostate predicate LiveHandlesBecame(s: string, st: ReservationState)
      reads this, obtained
    {
      forall r :: r in obtained && r.statement == s ==>
        (r !in old(obtained) || !old(r.Settled())) ==> r.state == st
    }

    method CancelAttempt(s: string, r: Reservation)
      requires Conserved() && r in obtained && r.statement == s
      requires s in tracked ==> tracked[s].reservation == r
      modifies `tracked, r
      ensures Conserved() && OnlyTouches(s) && obtained == old(obtained)
      ensures s !in tracked
      ensures r.state == if old(r.Settled()) then old(r.state) else Released
    {
      r.Release();
      tracked := tracked - {s};
    }

    /** Finalize after ACK2, then forget the handle. */
    method FinalizeTracked(s: string, r: Reservation)
      requires Conserved() && r in obtained && r.statement == s
      requires s in tracked ==> tracked[s].reservation == r
      modifies `tracked, r
      ensures Conserved() && OnlyTouches(s) && obtained == old(obtained)
      ensures s !in tracked && r.state == if old(r.state) == Released then Released else Finalized
    {
      r.Finalize();
      tracked := tracked - {s};
    }

    static method CommitReservation(r: Reservation, candidates: seq<CandidatePart>,
                                    sourceWriteMayExist: bool, bind: Option<Error>)
      returns (err: Option<Error>)
      modifies r
      ensures r.state == if old(r.state) == Reserved then Committed else old(r.state)
      ensures err == if sourceWriteMayExist && candidates == [] then None else bind
    {
      if sourceWriteMayExist && candidates == [] {
        r.CommitIndeterminate();
        return None;
      }
      err := r.Commit(bind);
    }

    /** Nothing is tracked differently and no handle moved. */
    twostate predicate Untouched()
      reads this, obtained
    {
      tracked == old(tracked) && obtained == old(obtained) && forall r :: r in obtained ==> r.state == old(r.state)
    }

    /** One hook call for statement `s`, with the guard's answers. Binding a complete set of
        candidates commits the handle, whatever the guard answers; a proof before cleanup and a
        failed proof after it change nothing; a proved cleanup releases the handle and forgets it. */
    method RunHook(s: string, hook: Hook) returns (err: Option<Error>)
      requires Conserved()
      modifies `tracked, obtained
      ensures Conserved() && OnlyTouches(s) && obtained == old(obtained)
      ensures s !in old(tracked) ==> err.None? && Untouched()
      ensures s in old(tracked) ==>
                var t := old(tracked)[s];
                && (forall r :: r in obtained && r != t.reservation ==> r.state == old(r.state))
                && match hook {
                     case BindPrepared(cs, bind) =>
                       if BindsExactly(t.tableId, PartitionsOrNone(t.partitions), cs)
                       then err == bind && t.reservation.state == Committed && tracked == old(tracked)
                       else err.Some? && Untouched()
                     case BeforeCleanup(cs, proof) =>
                       && Untouched()
                       && (err.None? <==> BindsExactly(t.tableId, PartitionsOrNone(t.partitions), cs) && proof.None?)
                     case AfterCleanup(proof) =>
                       && err == proof
                       && if proof.None? then s !in tracked && t.reservation.state == Released else Untouched()
                   }
      ensures s in tracked ==> s in old(tracked) && tracked[s] == old(tracked)[s]
      ensures !hook.AfterCleanup? ==> tracked == old(tracked)
      ensures forall r :: r in obtained && r.state == Finalized ==> old(r.state) == Finalized
    {
      if s !in tracked { return None; }
      var t := tracked[s];
      match hook
      case BindPrepared(cs, bind) =>
        err := ValidateCandidateBinding(t.tableId, PartitionsOrNone(t.partitions), cs);
        if err.None? {
          err := t.reservation.Commit(bind);
        }
      case BeforeCleanup(cs, proof) =>
        err := ValidateCandidateBinding(t.tableId, PartitionsOrNone(t.partitions), cs);
        if err.None? { err := proof; }
      case AfterCleanup(proof) =>
        err := t.reservation.ReleaseCleaned(proof);
        if err.None? { tracked := tracked - {s}; }
    }

    /** No handle but `r` moved. */
    twostate predicate OnlyMoves(r: Reservation?)
      reads this, obtained
    {
      obtained == old(obtained) && forall x :: x in obtained && x != r ==> x.state == old(x.state)
    }

    /** The handle of the statement is still tracked, at most committed meanwhile. */
    twostate predicate KeepsHandle(r: Reservation)
      reads this, obtained, r
    {
      tracked == old(tracked) && (r.state == old(r.state) || (old(r.state) == Reserved && r.state == Committed))
    }

    method RunHooks(s: string, hooks: seq<Hook>)
      requires Conserved()
      modifies `tracked, obtained
      ensures Conserved() && OnlyTouches(s) && obtained == old(obtained)
      ensures s in tracked ==> s in old(tracked) && tracked[s] == old(tracked)[s]
      ensures s !in old(tracked) || hooks == [] ==> Untouched()
      ensures s in old(tracked) ==> OnlyMoves(old(tracked)[s].reservation)
      ensures s in old(tracked) && QuietHooks(hooks) ==> KeepsHandle(old(tracked)[s].reservation)
      ensures forall r :: r in obtained && r.state == Finalized ==> old(r.state) == Finalized
    {
      for i := 0 to |hooks|
        invariant Conserved() && OnlyTouches(s) && obtained == old(obtained)
        invariant s in tracked ==> s in old(tracked) && tracked[s] == old(tracked)[s]
        invariant s !in old(tracked) || i == 0 ==> Untouched()
        invariant s in old(tracked) ==> OnlyMoves(old(tracked)[s].reservation)
        invariant s in old(tracked) && QuietHooks(hooks[..i]) ==> KeepsHandle(old(tracked)[s].reservation)
        invariant forall r :: r in obtained && r.state == Finalized ==> old(r.state) == Finalized
      {
        var _ := RunHook(s, hooks[i]);
        assert hooks[..i + 1] == hooks[..i] + [hooks[i]];
      }
      assert hooks[..|hooks|] == hooks;
    }

    /** Bind the reported candidates to `r`; with ACK2 and no bind error, finalize it. */
    method BindOrFinalize(s: string, r: Reservation, sourceWriteMayExist: bool,
                          orchErr: Option<Error>, p: Ports)
      returns (err: Option<Error>)
      requires Conserved() && r in obtained && r.statement == s
      requires s in tracked ==> tracked[s].reservation == r
      modifies `tracked, r
      ensures Conserved() && OnlyTouches(s) && obtained == old(obtained)
      ensures UnflaggedAnswer(orchErr) && UnflaggedAnswer(p.bind) ==> UnflaggedAnswer(err)
      ensures var bound := (sourceWriteMayExist && p.result.candidates == []) || p.bind.None?;
              && (err.None? <==> orchErr.None? && bound)
              && (bound ==> err == orchErr)
              && if bound && p.result.ack2
                 then s !in tracked && r.state == (if old(r.state) == Released then Released else Finalized)
                 else tracked == old(tracked) && r.state == (if old(r.state) == Reserved then Committed else old(r.state))
    {
      err := orchErr;
      var commitErr := CommitReservation(r, p.result.candidates, sourceWriteMayExist, p.bind);
      if commitErr.Some? {
        err := JoinErr(err, Wrap(commitErr.value));
      } else if p.result.ack2 {
        FinalizeTracked(s, r);
      }
    }

    /** The outcome switch after Orchestrate returned. `held` is the handle tracked for
        the statement, `attempt` the one this attempt reserved or reused. A pending cleanup
        proof keeps everything; a terminal cleanup releases the handle; a possible source write
        commits it, and an ACK2 whose candidates are bound finalizes it; without a write the
        handle is released only if this attempt took it and the source frontier is not kept. */
    method Settle(s: string, held: Reservation?, attempt: Reservation?, reused: bool, p: Ports)
      returns (err: Option<Error>)
      requires Conserved()
      requires held != null ==> held in obtained && held.statement == s
      requires s in tracked ==> held != null && tracked[s].reservation == held
      requires attempt != null ==> attempt == held
      requires reused ==> attempt != null
      modifies `tracked, obtained
      ensures Conserved() && OnlyTouches(s) && OnlyMoves(held)
      ensures PortsUnflagged(p) ==> UnflaggedAnswer(err)
      ensures if BindFails(p, held != null) then err.Some? else err == p.resultErr
      ensures held == null || ProofPending(p) ==> Untouched()
      ensures held != null && TerminallyCleaned(p) ==>
                s !in tracked && held.state == if old(held.Settled()) then old(held.state) else Released
      ensures held != null && Written(p) ==>
                if Bound(p) && p.result.ack2
                then s !in tracked && held.state == (if old(held.state) == Released then Released else Finalized)
                else tracked == old(tracked) && held.state == (if old(held.state) == Reserved then Committed else old(held.state))
      ensures Unwritten(p) ==>
                if attempt != null && !reused && !p.result.frontierRetained
                then s !in tracked && attempt.state == (if old(attempt.Settled()) then old(attempt.state) else Released)
                else Untouched()
    {
      err := p.resultErr;
      var res := p.result;
      if err.Some? && Is(err.value, CleanupProofPending) {
        // The statement keeps its handle for the same-ID retry.
      } else if res.lifecycle == Cleaned && res.terminal {
        if held != null {
          CancelAttempt(s, held);
        }
      } else if reused && res.SourceWriteMayExist() {
        err := BindOrFinalize(s, attempt, true, err, p);
      } else if reused {
        // A retry that failed before a new source write keeps the earlier handle.
      } else if res.frontierRetained && !res.SourceWriteMayExist() {
        // A pre-write failure that kept the source frontier keeps its capacity too.
      } else if attempt != null && !res.SourceWriteMayExist() {
        CancelAttempt(s, attempt);
      } else if attempt != null {
        err := BindOrFinalize(s, attempt, res.SourceWriteMayExist(), err, p);
      } else if held != null && res.SourceWriteMayExist() {
        err := BindOrFinalize(s, held, true, err, p);
      }
    }

    /** Orchestrate with its hook calls, then the outcome switch. */
    method OrchestrateAndSettle(s: string, held: Reservation?, attempt: Reservation?, reused: bool, p: Ports)
      returns (err: Option<Error>)
      requires Conserved()
      requires held != null <==> s in tracked
      requires held != null ==> tracked[s].reservation == held
      requires attempt != null ==> attempt == held
      requires reused ==> attempt != null
      modifies `tracked, obtained
      ensures Conserved() && OnlyTouches(s) && OnlyMoves(held)
      ensures PortsUnflagged(p) ==> UnflaggedAnswer(err)
      ensures if BindFails(p, held != null) then err.Some? else err == p.resultErr
      ensures held == null ==> Untouched()
      ensures held != null && TerminallyCleaned(p) ==> s !in tracked && held.state == Released
      ensures held != null && QuietHooks(p.hooks) && Written(p) ==>
                if Bound(p) && p.result.ack2 then s !in tracked && held.state == Finalized
                else tracked == old(tracked) && held.state == Committed
      ensures held != null && QuietHooks(p.hooks) && !Written(p) && !TerminallyCleaned(p) ==>
                if ReleasesAttempt(p, attempt != null && !reused) then s !in tracked && held.state == Released
                else KeepsHandle(held) && (p.hooks == [] ==> Untouched())
    {
      RunHooks(s, p.hooks);
      err := Settle(s, held, attempt, reused, p);
    }

    /** ReserveStatement succeeded: track the new handle under its statement. */
    method Track(s: string, tableId: string, partitions: Option<seq<Name>>) returns (r: Reservation)
      requires Conserved() && s !in tracked
      modifies `tracked, `obtained
      ensures fresh(r) && r.statement == s && r.state == Reserved
      ensures obtained == old(obtained) + {r}
      ensures tracked == old(tracked)[s := Tracked(r, tableId, partitions)]
      ensures Conserved()
    {
      r := new Reservation(s, Reserved);
      obtained := obtained + {r};
      tracked := tracked[s := Tracked(r, tableId, partitions)];
    }

    /** Reuse the statement's capacity handle, or take one where the statement needs it. */
    method Acquire(adm: Admission, requiresPrepare: bool, p: Ports)
      returns (refused: Option<Error>, held: Reservation?, attempt: Reservation?, reused: bool)
      requires Conserved() && p.target.Ok?
      modifies `tracked, `obtained
      ensures Conserved()
      ensures reused <==> requiresPrepare && adm.statement in old(tracked)
      ensures var takes := hasPressure && requiresPrepare && adm.statement !in old(tracked);
              && refused == (if takes && p.reserve.Some?
                             then Some(ReserveRefusal(p.reserve.value, p.callerCanceled)) else None)
              && (refused.None? && takes ==>
                    && attempt != null && fresh(attempt) && attempt.statement == adm.statement && attempt.state == Reserved
                    && obtained == old(obtained) + {attempt}
                    && tracked == old(tracked)[adm.statement := Tracked(attempt, adm.tableId, p.target.value)])
              && (refused.Some? || !takes ==> tracked == old(tracked) && obtained == old(obtained))
              && (refused.None? && !takes ==> attempt == if reused then held else null)
      ensures refused.None? ==>
                && (held != null <==> adm.statement in tracked)
                && (held != null ==> tracked[adm.statement].reservation == held)
                && (attempt != null ==> attempt == held) && (reused ==> attempt != null)
    {
      var s := adm.statement;
      held, attempt := if s in tracked then tracked[s].reservation else null, null;
      reused := requiresPrepare && held != null;
      refused := None;
      if reused { attempt := held; }
      if hasPressure && requiresPrepare && attempt == null {
        if p.reserve.Some? {
          refused := Some(ReserveRefusal(p.reserve.value, p.callerCanceled));
          return;
        }
        attempt := Track(s, adm.tableId, p.target.value);
        held := attempt;
      }
    }

    /** An attempt at this statement takes a handle of its own. */
    predicate Takes(s: string, requiresPrepare: bool)
      reads this
    {
      hasPressure && requiresPrepare && s !in tracked
    }

    predicate PayloadLost(p: Ports) { hasPayloadWriter && (p.putPayload.Err? || p.putPayload.value == "") }

    /** Reuse or take a capacity handle, then store the payload. A refusal gives back
        exactly what this attempt took. */
    method ReserveAndStore(adm: Admission, requiresPrepare: bool, p: Ports)
      returns (refused: Option<Error>, held: Reservation?, attempt: Reservation?, reused: bool)
      requires Conserved() && p.target.Ok?
      modifies `tracked, `obtained
      ensures Conserved()
      ensures refused.Some? <==> (old(Takes(adm.statement, requiresPrepare)) && p.reserve.Some?) || PayloadLost(p)
      ensures refused.Some? ==>
                && tracked == old(tracked) && old(obtained) <= obtained && fresh(obtained - old(obtained))
                && (forall r :: r in obtained && r !in old(obtained) ==> r.statement == adm.statement && r.state == Released)
      ensures PortsUnflagged(p) && refused.Some? ==> (IsSeqUnspent(refused.value) <==> requiresPrepare)
      ensures refused.None? ==>
                && (attempt != null && !reused <==> old(Takes(adm.statement, requiresPrepare)))
                && (reused <==> requiresPrepare && adm.statement in old(tracked))
                && (attempt != null ==> attempt == held) && (reused ==> attempt != null)
      ensures refused.None? && old(Takes(adm.statement, requiresPrepare)) ==>
                && held != null && fresh(held) && held.statement == adm.statement && held.state == Reserved
                && obtained == old(obtained) + {held}
                && tracked == old(tracked)[adm.statement := Tracked(held, adm.tableId, p.target.value)]
      ensures refused.None? && !old(Takes(adm.statement, requiresPrepare)) ==>
                && tracked == old(tracked) && obtained == old(obtained)
                && held == if adm.statement in tracked then tracked[adm.statement].reservation else null
    {
      refused, held, attempt, reused := Acquire(adm, requiresPrepare, p);
      if refused.Some? { return; }
      if hasPayloadWriter && (p.putPayload.Err? || p.putPayload.value == "") {
        if !reused && attempt != null {
          CancelAttempt(adm.statement, attempt);
          assert tracked == old(tracked);
        }
        var cause := if p.putPayload.Err? then p.putPayload.error else Leaf(Other("empty payload_ref"));
        refused := Some(PayloadRefusal(requiresPrepare, cause));
      }
    }

    /** The statement still has its handle: the one it had, or the one this attempt took. */
    twostate predicate Retains(adm: Admission, p: Ports)
      reads this, obtained
    {
      var s := adm.statement;
      && s in tracked
      && (s in old(tracked) ==> tracked[s] == old(tracked)[s])
      && (s !in old(tracked) ==>
            && tracked[s].reservation !in old(obtained) && tracked[s].tableId == adm.tableId
            && p.target == Ok(tracked[s].partitions))
    }

    /** What the outcome of Orchestrate does to the statement's handle, if it has one. */
    twostate predicate Settles(adm: Admission, p: Ports)
      requires p.requiresPrepare.Ok?
      reads this, obtained
    {
      var s := adm.statement;
      var took := old(Takes(s, p.requiresPrepare.value));
      if s !in old(tracked) && !took then Untouched()
      else if TerminallyCleaned(p) then s !in tracked && LiveHandlesBecame(s, Released)
      else QuietHooks(p.hooks) ==>
        if Written(p) then
          if Bound(p) && p.result.ack2 then s !in tracked && LiveHandlesBecame(s, Finalized)
          else Retains(adm, p) && LiveHandlesBecame(s, Committed)
        else if ReleasesAttempt(p, took) then s !in tracked && LiveHandlesBecame(s, Released)
        else Retains(adm, p) && (p.hooks == [] ==> KeepsStates())
    }

    /** The handles there were are as they were, and a new one is reserved. */
    twostate predicate KeepsStates()
      reads this, obtained
    {
      && old(obtained) <= obtained
      && (forall r :: r in old(obtained) ==> r.state == old(r.state))
      && (forall r :: r in obtained && r !in old(obtained) ==> r.state == Reserved)
    }

    /** Every handle of the statement that was live or is new is `h`. */
    twostate predicate OnlyHandle(s: string, new h: Reservation?)
      reads this, obtained
    {
      forall r :: r in obtained && r.statement == s && (r !in old(obtained) || !old(r.Settled())) ==> r == h
    }

    /** The statement's preflight passed: take or reuse a handle, store the payload, orchestrate. */
    method Admit(adm: Admission, p: Ports) returns (err: Option<Error>, reached: bool)
      requires Conserved() && p.target.Ok? && p.requiresPrepare.Ok?
      modifies `tracked, `obtained, obtained
      ensures Conserved() && OnlyTouches(adm.statement) && fresh(obtained - old(obtained))
      ensures var took := old(Takes(adm.statement, p.requiresPrepare.value));
              && (reached <==> !(took && p.reserve.Some?) && !PayloadLost(p))
              && (reached ==>
                    if BindFails(p, adm.statement in old(tracked) || took) then err.Some? else err == p.resultErr)
      ensures reached ==> Settles(adm, p)
      ensures reached && PortsUnflagged(p) ==> UnflaggedAnswer(err)
      ensures !reached ==>
                && err.Some? && tracked == old(tracked)
                && (forall r :: r in old(obtained) ==> r.state == old(r.state))
                && (forall r :: r in obtained && r !in old(obtained) ==> r.state == Released)
      ensures !reached && PortsUnflagged(p) ==> (IsSeqUnspent(err.value) <==> p.requiresPrepare.value)
    {
      var held, attempt, reused;
      err, held, attempt, reused := ReserveAndStore(adm, p.requiresPrepare.value, p);
      reached := err.None?;
      if !reached { return; }
      err := OrchestrateAndSettle(adm.statement, held, attempt, reused, p);
      if held != null {
        assert OnlyHandle(adm.statement, held);
        assert LiveHandlesBecame(adm.statement, held.state);
      }
    }

    /** Drives one admission. The clauses say, in order: every handle is conserved and no
        other statement is touched; exactly when Orchestrate is reached; a refusal before it
        leaves the map as it was and gives back what it reserved; exactly which refusals are
        flagged unspent, before and after; exactly a clean ACK2 is reported as success; metering
        follows the arbiter and excludes a flagged refusal; what happens to the statement's
        handle. */
    method ConsumeAdmission(adm: Admission, p: Ports) returns (err: Option<Error>, t: Trace)
      requires Conserved()
      modifies this, obtained
      ensures Conserved() && OnlyTouches(adm.statement)
      ensures fresh(obtained - old(obtained))
      ensures recoveryStateRestored == old(recoveryStateRestored)
      ensures t.reached <==>
              && EarlyRefusal(hasGuard, materializer, requireAdmissionSchema, adm, p).None?
              && p.requiresPrepare.Ok?
              && !(old(Takes(adm.statement, p.requiresPrepare.value)) && p.reserve.Some?)
              && !PayloadLost(p)
      ensures !t.reached ==>
                && err.Some? && tracked == old(tracked)
                && (forall r :: r in old(obtained) ==> r.state == old(r.state))
                && (forall r :: r in obtained && r !in old(obtained) ==> r.state == Released)
      ensures PortsUnflagged(p) && !t.reached ==>
                (IsSeqUnspent(err.value) <==>
                 || EarlyRefusal(hasGuard, materializer, requireAdmissionSchema, adm, p).Some?
                 || p.requiresPrepare == Ok(true))
      ensures t.reached ==>
                var hasHandle := adm.statement in old(tracked) || (hasPressure && p.requiresPrepare.value);
                var clean := p.resultErr.None? && !BindFails(p, hasHandle);
                && (err.None? <==> clean && p.result.ack2)
                && (clean && !p.result.ack2 ==> err == Some(NotAckedError(p.result)))
                && (PortsUnflagged(p) ==>
                      (err.Some? && IsSeqUnspent(err.value) <==>
                       clean && !p.result.ack2 && RefusedUnspent(p.result.submit)))
      ensures t.metered <==> t.reached && p.result.submit.category == Accepted
      ensures PortsUnflagged(p) && AcceptedHasNoCode(p) && t.metered && err.Some? ==> !IsSeqUnspent(err.value)
      ensures t.reached ==> Settles(adm, p)
    {
      t := Trace(false, false);
      err := EarlyRefusal(hasGuard, materializer, requireAdmissionSchema, adm, p);
      if err.Some? { return; }
      if p.requiresPrepare.Err? {
        if PortsUnflagged(p) { UnflaggedIsNotUnspent(Wrap(p.requiresPrepare.error)); }
        return Some(Wrap(p.requiresPrepare.error)), t;
      }
      var reached;
      err, reached := Admit(adm, p);
      if !reached { return; }
      t := Trace(true, p.result.submit.category == Accepted);
      err := FinalError(err, p.result);
    }

    /** The statements `owing` have a new committed handle each, with the table and the partitions of
        their records; no other entry changed. */
    twostate predicate RebuildsOwing(records: seq<JournalRecord>, owing: set<string>)
      reads this, obtained
    {
      && tracked.Keys == old(tracked.Keys) + owing
      && (forall s :: s in owing ==>
            && tracked[s].reservation in obtained - old(obtained) && Rebuilt(records, s, tracked[s])
            && tracked[s].reservation.statement == s && tracked[s].reservation.state == Committed)
      && (forall s :: s in old(tracked) && s !in owing ==> tracked[s] == old(tracked)[s])
    }

    /** Rebuilds the handles of every unfinished statement. It conserves handles exactly
        when none of those statements is tracked already: the map entry it writes would
        otherwise drop a live handle. */
    method RestorePressureReservations(records: seq<JournalRecord>, batch: Option<Error>)
      returns (err: Option<Error>)
      requires Conserved()
      modifies `tracked, `obtained
      ensures err.Some? || !hasPressure ==> tracked == old(tracked) && obtained == old(obtained)
      ensures err.None? && hasPressure ==>
                && RebuildsOwing(records, OwingStatements(records))
                && (Conserved() <==> OwingStatements(records) !! old(tracked.Keys))
      ensures old(obtained) <= obtained && fresh(obtained - old(obtained))
    {
      if !hasPressure && !hasSchemas { return None; }
      var plans, partitions;
      plans, partitions, err := PlanAll(records);
      if err.Some? { return; }
      if !hasPressure { return None; }
      var restored;
      restored, err := RestoreBatch(plans, batch);
      if err.Some? { return; }
      TrackRestored(records, restored, partitions);
    }

    /** An entry for every record whose statement has a restored handle. */
    method WriteEntries(records: seq<JournalRecord>, restored: map<string, Reservation>,
                        partitions: map<string, Option<seq<Name>>>)
      requires restored.Keys <= partitions.Keys
      modifies `tracked
      ensures tracked == Entered(old(tracked), records, restored, partitions)
    {
      for i := 0 to |records|
        invariant tracked == Entered(old(tracked), records[..i], restored, partitions)
      {
        var r := records[i];
        assert records[..i + 1][..i] == records[..i];
        if r.statement in restored {
          tracked := tracked[r.statement := Tracked(restored[r.statement], r.tableId, partitions[r.statement])];
        }
      }
      assert records[..|records|] == records;
    }

    method TrackRestored(records: seq<JournalRecord>, restored: map<string, Reservation>,
                         partitions: map<string, Option<seq<Name>>>)
      requires Conserved()
      requires restored.Keys <= partitions.Keys
      requires restored.Keys == OwingStatements(records)
      requires forall s :: s in restored ==>
                 restored[s] !in obtained && restored[s].statement == s && restored[s].state == Committed
      requires forall s :: s in partitions ==> NamesPartitions(records, s, partitions[s])
      modifies `tracked, `obtained
      ensures obtained == old(obtained) + restored.Values
      ensures RebuildsOwing(records, restored.Keys)
      ensures Conserved() <==> restored.Keys !! old(tracked.Keys)
    {
      obtained := obtained + restored.Values;
      WriteEntries(records, restored, partitions);
      EntriesRebuilt(old(tracked), records, restored, partitions);
      RestoredConserves(restored);
    }

    /** The map after a restore tracks exactly the live handles iff it overwrote none. */
    twostate lemma RestoredConserves(new restored: map<string, Reservation>)
      requires old(Conserved())
      requires forall s :: s in restored ==>
                 restored[s] !in old(obtained) && restored[s].statement == s && !restored[s].Settled()
      requires forall r :: r in old(obtained) ==> r.state == old(r.state)
      requires obtained == old(obtained) + restored.Values
      requires tracked.Keys == old(tracked.Keys) + restored.Keys
      requires forall s :: s in restored ==> tracked[s].reservation == restored[s]
      requires forall s :: s in old(tracked) && s !in restored ==> tracked[s] == old(tracked)[s]
      ensures Conserved() <==> restored.Keys !! old(tracked.Keys)
    {
      if s :| s in restored && s in old(tracked) {
        var dropped := old(tracked)[s].reservation;
        assert dropped in obtained && !dropped.Settled() && dropped.statement == s;
        assert tracked[s].reservation != dropped;
      } else {
        assert restored.Keys !! old(tracked.Keys);
      }
    }

    /** Every recovered statement is now ACK2 or cleaned: finalize what is still tracked. */
    method FinalizeRecovered()
      requires Conserved()
      modifies `tracked, obtained
      ensures Conserved() && obtained == old(obtained) && tracked == map[]
      ensures forall r :: r in obtained ==>
                r.state == if old(r.Settled()) then old(r.state) else Finalized
    {
      var restored := tracked;
      tracked := map[];
      var todo := restored.Keys;
      while todo != {}
        invariant todo <= restored.Keys && tracked == map[]
        invariant forall r :: r in obtained ==>
                    r.state == if old(r.Settled()) || r.statement in todo then old(r.state) else Finalized
        decreases |todo|
      {
        var s :| s in todo;
        restored[s].reservation.Finalize();
        todo := todo - {s};
      }
    }

    /** Drains the durable intakes before listeners open. A failed drain may be called
        again; the restore itself succeeds at most once. */
    method RecoverPending(records: seq<JournalRecord>, p: RecoveryPorts) returns (err: Option<Error>)
      requires Conserved()
      requires recoveryStateRestored || tracked == map[]
      modifies this, obtained
      ensures Conserved()
      ensures recoveryStateRestored || tracked == map[]
      ensures err.None? ==> tracked == map[] && forall r :: r in obtained ==> r.Settled()
      ensures old(obtained) <= obtained && fresh(obtained - old(obtained))
    {
      if p.journalErr.Some? { return p.journalErr; }
      if !recoveryStateRestored {
        err := RestorePressureReservations(records, p.batch);
        if err.Some? { return; }
        recoveryStateRestored := true;
      }
      for i := 0 to |p.hooks|
        invariant Conserved() && recoveryStateRestored
        invariant old(obtained) <= obtained && fresh(obtained - old(obtained))
      {
        var _ := RunHook(p.hooks[i].0, p.hooks[i].1);
      }
      if p.drainErr.Some? { return p.drainErr; }
      FinalizeRecovered();
      err := None;
    }
  }

  // ---------------------------------------------------------------------------
  // Whole runs

  datatype Call =
    | Recover(records: seq<JournalRecord>, recovery: RecoveryPorts)
    | Admit(adm: Admission, ports: Ports)

  /** Recovery runs before the listeners admit anything. */
  ghost predicate RecoversBeforeServing(calls: seq<Call>) {
    forall i, j :: 0 <= i < j < |calls| && calls[j].Recover? ==> calls[i].Recover?
  }

  /** Any number of recoveries and then any admissions and retries, with any port answers:
      after every call, and so after each run, no capacity handle is lost, tracked after it
      was settled, or tracked under a foreign statement. `told[i]` is what call i returned;
      no flagged refusal ever stands for a statement the same call metered. */
  method RunAll(calls: seq<Call>, ingress: StorageIntegrityIngress)
    returns (told: seq<Option<Error>>, traces: seq<Trace>)
    requires RecoversBeforeServing(calls)
    requires ingress.Conserved() && ingress.tracked == map[]
    modifies ingress, ingress.obtained
    ensures ingress.Conserved()
    ensures |told| == |traces| == |calls|
    ensures forall i :: 0 <= i < |calls| && calls[i].Admit? ==>
              SoundAnswer(calls[i].ports, told[i], traces[i])
  {
    told, traces := [], [];
    for i := 0 to |calls|
      invariant ingress.Conserved() && |told| == |traces| == i
      invariant fresh(ingress.obtained - old(ingress.obtained))
      invariant i < |calls| && calls[i].Recover? ==> ingress.recoveryStateRestored || ingress.tracked == map[]
      invariant (forall k :: 0 <= k < i ==> calls[k].Recover?) ==>
                  ingress.recoveryStateRestored || ingress.tracked == map[]
      invariant forall k :: 0 <= k < i && calls[k].Admit? ==> SoundAnswer(calls[k].ports, told[k], traces[k])
    {
      match calls[i]
      case Recover(records, recovery) =>
        var e := ingress.RecoverPending(records, recovery);
        told, traces := told + [e], traces + [Trace(false, false)];
      case Admit(adm, ports) =>
        var e, t := ingress.ConsumeAdmission(adm, ports);
        told, traces := told + [e], traces + [t];
    }
  }

  /** A flagged refusal never reached Orchestrate or the arbiter's own code proves it, and
      it never accompanies a metered statement. */
  predicate SoundAnswer(p: Ports, err: Option<Error>, t: Trace) {
    PortsUnflagged(p) && err.Some? && IsSeqUnspent(err.value) ==>
      && (t.reached ==> p.result.submit.ProvesUnspent())
      && (AcceptedHasNoCode(p) ==> !t.metered)
  }
}
