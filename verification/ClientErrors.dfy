/** Error chains and the "client_seq unspent" flag they carry.

    A Go error is modelled as the tree `errors.Is` and `errors.As` walk: a leaf, a
    single wrap (`%w`), a double wrap or join, a `ClientError`, or the marker that
    `MarkSeqUnspent` adds. The walk is pre-order, left branch first.
 */
module ClientErrors {
  import opened Options

  /** The sentinels the ingress tests with `errors.Is`; everything else is `Other`. */
  datatype Sentinel =
    | MergeGuardNotAsserted
    | Backpressure
    | CleanupProofPending
    | Canceled
    | Other(text: string)

  const CODE_TOO_MANY_PARTS := 252
  const CODE_QUERY_IS_PROHIBITED := 392
  const CODE_TABLE_IS_BEING_RESTARTED := 733

  datatype Error =
    | Leaf(sentinel: Sentinel)
    | Wrap(inner: Error)
    | Join(left: Error, right: Error)
    | Client(code: int, keepSession: bool, seqUnspent: bool, cause: Option<Error>)
    | Marked(inner: Error)

  /** `errors.Is(e, s)` for a sentinel. */
  predicate Is(e: Error, s: Sentinel) {
    match e
    case Leaf(t) => t == s
    case Wrap(i) => Is(i, s)
    case Marked(i) => Is(i, s)
    case Join(l, r) => Is(l, s) || Is(r, s)
    case Client(_, _, _, None) => false
    case Client(_, _, _, Some(c)) => Is(c, s)
  }

  /** `errors.As(e, *seqUnspentError)`: some marker is reachable. */
  predicate HasMark(e: Error) {
    match e
    case Leaf(_) => false
    case Wrap(i) => HasMark(i)
    case Marked(_) => true
    case Join(l, r) => HasMark(l) || HasMark(r)
    case Client(_, _, _, None) => false
    case Client(_, _, _, Some(c)) => HasMark(c)
  }

  /** `errors.As(e, *ClientError)`: the flag of the FIRST ClientError in the walk. */
  function FirstClientFlag(e: Error): (flag: Option<bool>) {
    match e
    case Leaf(_) => None
    case Wrap(i) => FirstClientFlag(i)
    case Marked(i) => FirstClientFlag(i)
    case Join(l, r) => var f := FirstClientFlag(l); if f.Some? then f else FirstClientFlag(r)
    case Client(_, _, unspent, _) => Some(unspent)
  }

  /** What the client is told: code and whether the session goes on, of the first ClientError. */
  function Told(e: Error): (r: Option<(int, bool)>) {
    match e
    case Leaf(_) => None
    case Wrap(i) => Told(i)
    case Marked(i) => Told(i)
    case Join(l, r) => var t := Told(l); if t.Some? then t else Told(r)
    case Client(code, keep, _, _) => Some((code, keep))
  }

  predicate IsSeqUnspent(e: Error) {
    HasMark(e) || FirstClientFlag(e) == Some(true)
  }

  function MarkSeqUnspent(e: Error): (r: Error)
    ensures IsSeqUnspent(r) && Told(r) == Told(e)
    ensures forall s :: Is(r, s) <==> Is(e, s)
  {
    if IsSeqUnspent(e) then e else Marked(e)
  }

  /** No marker and no flagged ClientError anywhere: an error a port may return. */
  predicate Unflagged(e: Error) {
    match e
    case Leaf(_) => true
    case Wrap(i) => Unflagged(i)
    case Marked(_) => false
    case Join(l, r) => Unflagged(l) && Unflagged(r)
    case Client(_, _, u, None) => !u
    case Client(_, _, u, Some(c)) => !u && Unflagged(c)
  }

  lemma {:induction false} UnflaggedIsNotUnspent(e: Error)
    requires Unflagged(e)
    ensures !IsSeqUnspent(e)
  {
    match e
    case Leaf(_) =>
    case Wrap(i) => UnflaggedIsNotUnspent(i);
    case Marked(_) =>
    case Join(l, r) => UnflaggedIsNotUnspent(l); UnflaggedIsNotUnspent(r);
    case Client(_, _, _, None) =>
    case Client(_, _, _, Some(c)) => UnflaggedIsNotUnspent(c);
  }

  /** Wrapping layers: what `fmt.Errorf("...%w")` does, any number of times. */
  function WrapTimes(e: Error, n: nat): (r: Error) {
    if n == 0 then e else Wrap(WrapTimes(e, n - 1))
  }

  /** The flag survives any number of wraps and is never invented by one. */
  lemma {:induction false} FlagSurvivesWrapping(e: Error, n: nat)
    ensures IsSeqUnspent(WrapTimes(e, n)) <==> IsSeqUnspent(e)
  {
    if n > 0 { FlagSurvivesWrapping(e, n - 1); }
  }

  /** Joining keeps a flag only if it is a marker or the left side has no ClientError:
      an unflagged ClientError on the left hides a flagged one on the right. */
  lemma FlagSurvivesJoin(l: Error, r: Error)
    ensures IsSeqUnspent(Join(l, r)) <==>
            IsSeqUnspent(l) || HasMark(r) || (FirstClientFlag(l).None? && IsSeqUnspent(r))
  {
  }

  /** A ClientError put around a flagged one hides the inner ClientError's flag;
      only a marker shows through. */
  lemma ClientErrorHidesInnerFlag(code: int, keep: bool, e: Error)
    ensures IsSeqUnspent(Client(code, keep, false, Some(e))) <==> HasMark(e)
    ensures FirstClientFlag(e) == Some(true) && !HasMark(e) ==>
              IsSeqUnspent(e) && !IsSeqUnspent(Client(code, keep, false, Some(e)))
  {
  }

  // ---------------------------------------------------------------------------
  // The walk itself

  /** The errors `errors.Is` and `errors.As` look at, in order. */
  function Walked(e: Error): (es: seq<Error>) {
    [e] +
    match e
    case Leaf(_) => []
    case Wrap(i) => Walked(i)
    case Marked(i) => Walked(i)
    case Join(l, r) => Walked(l) + Walked(r)
    case Client(_, _, _, None) => []
    case Client(_, _, _, Some(c)) => Walked(c)
  }

  /** A sentinel matches exactly if the walk meets it. */
  lemma {:induction false} IsIff(e: Error, s: Sentinel)
    ensures Is(e, s) <==> Leaf(s) in Walked(e)
  {
    match e
    case Leaf(_) =>
    case Wrap(i) => IsIff(i, s);
    case Marked(i) => IsIff(i, s);
    case Join(l, r) => IsIff(l, s); IsIff(r, s);
    case Client(_, _, _, None) =>
    case Client(_, _, _, Some(c)) => IsIff(c, s);
  }

  predicate AnyMarked(es: seq<Error>) { exists i :: 0 <= i < |es| && es[i].Marked? }

  lemma AnyMarkedJoined(es: seq<Error>, more: seq<Error>)
    ensures AnyMarked(es + more) <==> AnyMarked(es) || AnyMarked(more)
  {
    if i :| 0 <= i < |es| && es[i].Marked? { assert (es + more)[i].Marked?; }
    if i :| 0 <= i < |more| && more[i].Marked? { assert (es + more)[|es| + i].Marked?; }
  }

  lemma {:induction false} HasMarkIff(e: Error)
    ensures HasMark(e) <==> AnyMarked(Walked(e))
  {
    AnyMarkedJoined([e], Walked(e)[1..]);
    assert Walked(e) == [e] + Walked(e)[1..];
    assert AnyMarked([e]) <==> e.Marked? by { assert [e][0] == e; }
    match e
    case Leaf(_) =>
    case Wrap(i) => HasMarkIff(i);
    case Marked(_) =>
    case Join(l, r) => HasMarkIff(l); HasMarkIff(r); AnyMarkedJoined(Walked(l), Walked(r));
    case Client(_, _, _, None) =>
    case Client(_, _, _, Some(c)) => HasMarkIff(c);
  }

  function FirstClient(es: seq<Error>): (c: Option<Error>)
    ensures c.Some? ==> c.value.Client?
  {
    if es == [] then None else if es[0].Client? then Some(es[0]) else FirstClient(es[1..])
  }

  lemma {:induction false} FirstClientJoined(es: seq<Error>, more: seq<Error>)
    ensures FirstClient(es + more) == if FirstClient(es).Some? then FirstClient(es) else FirstClient(more)
  {
    if es == [] {
      assert es + more == more;
    } else {
      FirstClientJoined(es[1..], more);
      assert (es + more)[1..] == es[1..] + more;
    }
  }

  /** The client is told, and the flag is taken, of the first ClientError the walk meets. */
  lemma {:induction false} FirstClientDecides(e: Error)
    ensures match FirstClient(Walked(e))
            case None => Told(e).None? && FirstClientFlag(e).None?
            case Some(c) => Told(e) == Some((c.code, c.keepSession)) && FirstClientFlag(e) == Some(c.seqUnspent)
  {
    var rest := Walked(e)[1..];
    assert Walked(e) == [e] + rest;
    FirstClientJoined([e], rest);
    match e
    case Leaf(_) =>
    case Wrap(i) => FirstClientDecides(i);
    case Marked(i) => FirstClientDecides(i);
    case Join(l, r) => FirstClientDecides(l); FirstClientDecides(r); FirstClientJoined(Walked(l), Walked(r));
    case Client(_, _, _, _) =>
  }
}
