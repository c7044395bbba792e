/** The merge supervisor: one fail-closed latch per table, refreshed by passes over the
    current table-state snapshot, and a loop that must not sleep through a change.
 */
module MergeSupervisor {
  import opened Options
  import opened ClientErrors

  datatype Snapshot = Snapshot(version: nat, active: seq<string>)

  /** None is an open latch. */
  type Latch = Option<Error>

  /** What the merge guard answered for one pass: a pass-wide error, or one verdict per
      table it looked at. */
  datatype GuardReport = GuardReport(err: Option<Error>, tables: map<string, Latch>)

  function LatchOf(id: string, report: GuardReport): (l: Latch) {
    if report.err.Some? then report.err
    else if id in report.tables then report.tables[id]
    else Some(Leaf(MergeGuardNotAsserted))
  }

  function HealthOf(ids: seq<string>, report: GuardReport): (h: map<string, Latch>)
    ensures forall id :: id in h && h[id].None? <==>
              id in ids && report.err.None? && id in report.tables && report.tables[id].None?
  {
    map id | id in ids :: LatchOf(id, report)
  }

  /** Every table has a latch: the pass-wide error if there is one, else what the guard says of
      the table, else that it was not asserted. */
  lemma HealthIs(ids: seq<string>, report: GuardReport, id: string)
    ensures var h := HealthOf(ids, report);
            && (id in h <==> id in ids)
            && (id in h && report.err.Some? ==> h[id] == report.err)
            && (id in h && report.err.None? && id in report.tables ==> h[id] == report.tables[id])
            && (id in h && report.err.None? && id !in report.tables ==>
                  h[id].Some? && Is(h[id].value, MergeGuardNotAsserted))
  {
  }

  lemma OneMoreTable(ids: seq<string>, id: string, report: GuardReport)
    ensures HealthOf(ids + [id], report) == HealthOf(ids, report)[id := LatchOf(id, report)]
    ensures FailuresOf(ids + [id], report)
            == FailuresOf(ids, report) + match LatchOf(id, report) { case Some(e) => [(id, e)] case None => [] }
  {
    assert (ids + [id])[..|ids|] == ids;
  }

  /** The failures among the tables, in order. */
  function FailuresOf(ids: seq<string>, report: GuardReport): (fs: seq<(string, Error)>)
  {
    if ids == [] then []
    else
      var id := ids[|ids| - 1];
      var l := HealthOf(ids, report)[id];
      FailuresOf(ids[..|ids| - 1], report) + if l.Some? then [(id, l.value)] else []
  }

  /** A table with a closed latch is reported with its error, once for each time it is listed. */
  lemma {:induction false} FailuresAre(ids: seq<string>, report: GuardReport, f: (string, Error))
    ensures f in FailuresOf(ids, report) <==> f.0 in ids && HealthOf(ids, report)[f.0] == Some(f.1)
  {
    if ids != [] {
      var front, id := ids[..|ids| - 1], ids[|ids| - 1];
      FailuresAre(front, report, f);
      assert ids == front + [id];
      if f.0 in front { assert HealthOf(front, report)[f.0] == HealthOf(ids, report)[f.0]; }
    }
  }

  class Supervisor {
    var health: map<string, Latch>
    var version: nat
    var asserted: bool

    constructor ()
      ensures health == map[] && version == 0 && !asserted
    {
      health, version, asserted := map[], 0, false;
    }

    /** One pass: replaces every latch and returns the failures of the Active tables. */
    method Assert(snap: Snapshot, report: GuardReport) returns (failures: seq<(string, Error)>)
      modifies this
      ensures health == HealthOf(snap.active, report) && version == snap.version && asserted
      ensures failures == FailuresOf(snap.active, report)
    {
      var latches: map<string, Latch> := map[];
      failures := [];
      for i := 0 to |snap.active|
        invariant latches == HealthOf(snap.active[..i], report)
        invariant failures == FailuresOf(snap.active[..i], report)
      {
        var id := snap.active[i];
        var verdict := LatchOf(id, report);
        assert snap.active[..i + 1] == snap.active[..i] + [id];
        OneMoreTable(snap.active[..i], id, report);
        latches := latches[id := verdict];
        if verdict.Some? {
          failures := failures + [(id, verdict.value)];
        }
      }
      assert snap.active[..|snap.active|] == snap.active;
      health, version, asserted := latches, snap.version, true;
    }

    method CheckMergeHealth(tableId: string) returns (err: Option<Error>)
      ensures err.None? <==> tableId in health && health[tableId].None?
      ensures tableId !in health ==> err.Some? && Is(err.value, MergeGuardNotAsserted)
      ensures tableId in health && health[tableId].Some? ==>
                && Told(err.value) == Told(health[tableId].value)
                && forall s :: Is(err.value, s) <==> Is(health[tableId].value, s)
    {
      var latch := if tableId in health then health[tableId] else Some(Leaf(MergeGuardNotAsserted));
      err := if latch.Some? then Some(Wrap(latch.value)) else None;
    }
  }

  // ---------------------------------------------------------------------------
  // Run, a publisher and other callers of Assert, interleaved step by step

  datatype Owner = Runner | OtherCaller

  /** The pass that holds the assert mutex, and the snapshot it has read, if any. */
  datatype Pass = NoPass | InPass(owner: Owner, snap: Option<Snapshot>)

  /** Where Run is. `since` is the number of publishes when it subscribed: the channel it
      holds has fired exactly when more have happened. */
  datatype Pc =
    | Top
    | Subscribed(since: nat)
    | Observed(since: nat, seen: nat)
    | Waiting(since: nat)
    | WantPass
    | Passing
    | Stopped

  datatype CompletedPass = CompletedPass(snap: Snapshot, report: GuardReport)

  datatype State = State(
    current: Snapshot,
    published: nat,
    health: map<string, Latch>,
    version: nat,
    asserted: bool,
    last: Option<CompletedPass>,
    pass: Pass,
    pc: Pc)

  datatype Step =
    | Publish(snap: Snapshot)
    | Subscribe
    | ReadVersion
    | Compare
    | Wake
    | Acquire(owner: Owner)
    | ReadSnapshot
    | Complete(report: GuardReport)
    | SkipCanceled
    | Stop

  ghost predicate Init(s: State) {
    && s.published == 0 && s.health == map[] && !s.asserted && s.last.None?
    && s.pass == NoPass && s.pc == Top
  }

  predicate Enabled(s: State, step: Step) {
    match step
    case Publish(snap) => s.current.version < snap.version
    case Subscribe => s.pc == Top
    case ReadVersion => s.pc.Subscribed?
    case Compare => s.pc.Observed?
    case Wake => s.pc.Waiting?
    case Acquire(owner) => s.pass == NoPass && (owner == Runner ==> s.pc == WantPass)
    case ReadSnapshot => s.pass.InPass? && s.pass.snap.None?
    case Complete(_) => s.pass.InPass? && s.pass.snap.Some?
    case SkipCanceled => s.pc == WantPass
    case Stop => s.pc != Passing
  }

  function Do(s: State, step: Step): (s': State)
    requires Enabled(s, step)
  {
    match step
    case Publish(snap) => s.(current := snap, published := s.published + 1)
    case Subscribe => s.(pc := Subscribed(s.published))
    case ReadVersion => s.(pc := Observed(s.pc.since, s.current.version))
    case Compare =>
      s.(pc := if s.asserted && s.version == s.pc.seen then Waiting(s.pc.since) else WantPass)
    case Wake => s.(pc := WantPass)
    case Acquire(owner) => s.(pass := InPass(owner, None), pc := if owner == Runner then Passing else s.pc)
    case ReadSnapshot => s.(pass := InPass(s.pass.owner, Some(s.current)))
    case Complete(report) =>
      var snap := s.pass.snap.value;
      s.(health := HealthOf(snap.active, report), version := snap.version, asserted := true,
         last := Some(CompletedPass(snap, report)), pass := NoPass,
         pc := if s.pass.owner == Runner then Top else s.pc)
    case SkipCanceled => s.(pc := Top)
    case Stop => s.(pc := Stopped)
  }

  /** A snapshot read earlier is no newer than the current one, and equal if its version is. */
  predicate NotNewer(snap: Snapshot, current: Snapshot) {
    snap.version <= current.version && (snap.version == current.version ==> snap == current)
  }

  ghost predicate Inv(s: State) {
    && (s.asserted <==> s.last.Some?)
    && (s.asserted ==>
          && s.last.value.snap.version == s.version && NotNewer(s.last.value.snap, s.current)
          && s.health == HealthOf(s.last.value.snap.active, s.last.value.report))
    && (!s.asserted ==> s.health == map[])
    && (s.pass.InPass? && s.pass.snap.Some? ==>
          && NotNewer(s.pass.snap.value, s.current)
          && (s.asserted ==> s.version <= s.pass.snap.value.version))
    && (s.pass.InPass? && s.pass.owner == Runner <==> s.pc == Passing)
    && (s.pc.Subscribed? ==> s.pc.since <= s.published)
    && (s.pc.Observed? ==>
          && s.pc.since <= s.published
          && (s.pc.since == s.published ==> s.pc.seen == s.current.version))
    && (s.pc.Waiting? ==>
          && s.pc.since <= s.published && s.asserted
          && (s.pc.since == s.published ==> s.version == s.current.version))
  }

  lemma StepKeepsInv(s: State, step: Step)
    requires Inv(s) && Enabled(s, step)
    ensures Inv(Do(s, step))
  {
  }

  /** The states of a run, one per executed step; a step that is not enabled does nothing. */
  function Exec(s: State, steps: seq<Step>): (s': State)
    decreases |steps|
  {
    if steps == [] then s
    else Exec(if Enabled(s, steps[0]) then Do(s, steps[0]) else s, steps[1..])
  }

  lemma {:induction false} RunKeepsInv(s: State, steps: seq<Step>)
    requires Inv(s)
    ensures Inv(Exec(s, steps))
    decreases |steps|
  {
    if steps != [] {
      if Enabled(s, steps[0]) {
        StepKeepsInv(s, steps[0]);
        RunKeepsInv(Do(s, steps[0]), steps[1..]);
      } else {
        RunKeepsInv(s, steps[1..]);
      }
    }
  }

  predicate Fired(s: State)
    requires s.pc.Waiting?
  {
    s.published > s.pc.since
  }

  predicate Healthy(s: State, id: string) {
    id in s.health && s.health[id].None?
  }

  /** In every interleaving: whenever Run sleeps, the last completed pass covered the
      current version or the channel it sleeps on has already fired. */
  lemma NoLostWakeup(s0: State, steps: seq<Step>)
    requires Init(s0)
    ensures var s := Exec(s0, steps);
            s.pc.Waiting? ==> (s.asserted && s.version == s.current.version) || Fired(s)
  {
    RunKeepsInv(s0, steps);
  }

  /** In every interleaving a latch is open only for a table that was Active in the last
      completed pass and that the guard reported healthy there. */
  lemma LatchesFailClosed(s0: State, steps: seq<Step>, id: string)
    requires Init(s0)
    ensures var s := Exec(s0, steps);
            Healthy(s, id) <==>
              && s.last.Some? && id in s.last.value.snap.active
              && s.last.value.report.err.None?
              && id in s.last.value.report.tables && s.last.value.report.tables[id].None?
  {
    RunKeepsInv(s0, steps);
  }

  /** While Run sleeps and no change is pending, an open latch names a table that is Active
      now: a retired table cannot keep an open latch past the next wake-up. */
  lemma QuietLatchesAreCurrent(s0: State, steps: seq<Step>, id: string)
    requires Init(s0)
    ensures var s := Exec(s0, steps);
            s.pc.Waiting? && !Fired(s) && Healthy(s, id) ==> id in s.current.active
  {
    RunKeepsInv(s0, steps);
    LatchesFailClosed(s0, steps, id);
  }

  // ---------------------------------------------------------------------------
  // Progress

  /** A pass that nothing interrupts, of Run or of another caller, leaves the latches of the
      current snapshot. */
  lemma PassRefreshes(s: State, owner: Owner, report: GuardReport)
    requires s.pass == NoPass && (owner == Runner ==> s.pc == WantPass)
    ensures Exec(s, [Acquire(owner), ReadSnapshot, Complete(report)])
            == s.(health := HealthOf(s.current.active, report), version := s.current.version, asserted := true,
                  last := Some(CompletedPass(s.current, report)), pc := if owner == Runner then Top else s.pc)
  {
    var a := Do(s, Acquire(owner));
    var b := Do(a, ReadSnapshot);
    ExecStep(s, Acquire(owner), [ReadSnapshot, Complete(report)]);
    ExecStep(a, ReadSnapshot, [Complete(report)]);
    ExecStep(b, Complete(report), []);
  }

  lemma ExecStep(s: State, step: Step, rest: seq<Step>)
    requires Enabled(s, step)
    ensures Exec(s, [step] + rest) == Exec(Do(s, step), rest)
  {
    assert ([step] + rest)[1..] == rest;
  }

  /** At the top of its loop Run goes to sleep, subscribed, if the current version has been
      covered, and otherwise asks for a pass. */
  lemma RunDecides(s: State)
    requires s.pc == Top
    ensures Exec(s, [Subscribe, ReadVersion, Compare])
            == s.(pc := if s.asserted && s.version == s.current.version then Waiting(s.published) else WantPass)
  {
    var a := Do(s, Subscribe);
    var b := Do(a, ReadVersion);
    ExecStep(s, Subscribe, [ReadVersion, Compare]);
    ExecStep(a, ReadVersion, [Compare]);
    ExecStep(b, Compare, []);
  }

  lemma {:induction false} ExecJoined(s: State, steps: seq<Step>, more: seq<Step>)
    ensures Exec(s, steps + more) == Exec(Exec(s, steps), more)
    decreases |steps|
  {
    if steps == [] {
      assert steps + more == more;
    } else {
      var next := if Enabled(s, steps[0]) then Do(s, steps[0]) else s;
      ExecJoined(next, steps[1..], more);
      assert (steps + more)[1..] == steps[1..] + more;
    }
  }

  /** One round of Run after a wake-up: it covers the snapshot that is current and sleeps again,
      with an open latch exactly for each of its Active tables that the guard reports healthy. */
  lemma RoundCatchesUp(s: State, report: GuardReport)
    requires s.pc.Waiting? && s.pass == NoPass
    ensures var steps := [Wake] + ([Acquire(Runner), ReadSnapshot, Complete(report)] + [Subscribe, ReadVersion, Compare]);
            var s' := Exec(s, steps);
            && s'.pc.Waiting? && !Fired(s') && s'.version == s.current.version
            && forall id :: Healthy(s', id) <==>
                 id in s.current.active && report.err.None? && id in report.tables && report.tables[id].None?
  {
    var woken := Do(s, Wake);
    var pass, round := [Acquire(Runner), ReadSnapshot, Complete(report)], [Subscribe, ReadVersion, Compare];
    ExecStep(s, Wake, pass + round);
    ExecJoined(woken, pass, round);
    PassRefreshes(woken, Runner, report);
    RunDecides(Exec(woken, pass));
  }
}
