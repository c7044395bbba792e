/** The capacity handle of the parts-pressure guard and its four states. */
module PartsReservation {
  import opened Options
  import opened ClientErrors
  import opened NameOrder

  datatype ReservationState = Reserved | Committed | Finalized | Released

  /** One candidate part as the source reports it. */
  datatype CandidatePart = CandidatePart(tableId: string, partitionId: Name, partName: string)

  class Reservation {
    const statement: string
    var state: ReservationState

    constructor (statement: string, state: ReservationState)
      ensures this.statement == statement && this.state == state
    {
      this.statement := statement;
      this.state := state;
    }

    predicate Settled()
      reads this
    {
      state == Finalized || state == Released
    }

    /** Commits even when the candidates cannot be bound; `bind` is the guard's answer. */
    method Commit(bind: Option<Error>) returns (err: Option<Error>)
      modifies this
      ensures err == bind
      ensures state == if old(state) == Reserved then Committed else old(state)
    {
      if state == Reserved { state := Committed; }
      err := bind;
    }

    method CommitIndeterminate()
      modifies this
      ensures state == if old(state) == Reserved then Committed else old(state)
    {
      if state == Reserved { state := Committed; }
    }

    /** Idempotent: a settled handle stays as it was settled. */
    method Release()
      modifies this
      ensures state == if old(Settled()) then old(state) else Released
    {
      if !Settled() { state := Released; }
    }

    /** Releases after a post-cleanup inventory proof; without the proof nothing changes. */
    method ReleaseCleaned(proof: Option<Error>) returns (err: Option<Error>)
      modifies this
      ensures old(Settled()) ==> err.None? && state == old(state)
      ensures !old(Settled()) ==> err == proof
      ensures !old(Settled()) ==> state == if proof.None? then Released else old(state)
    {
      if Settled() { return None; }
      if proof.None? { state := Released; }
      err := proof;
    }

    method Finalize()
      modifies this
      ensures state == if old(state) == Released then Released else Finalized
    {
      if state != Released { state := Finalized; }
    }
  }
}
