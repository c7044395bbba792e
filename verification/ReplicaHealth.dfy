/** The health automaton of a replica, against a specification over its whole history of probe
    and query results (`true` is a success).
 */
module ReplicaHealth {
  const MAX_INT32 := 0x7fff_ffff
  const TWO_32 := 0x1_0000_0000

  /** Adding one to a 32-bit counter. */
  function Next32(n: int): (r: int) { if n == MAX_INT32 then n + 1 - TWO_32 else n + 1 }

  /** It stays a 32-bit number, equal to the sum modulo 2^32. */
  lemma Next32Wraps(n: int)
    requires -MAX_INT32 - 1 <= n <= MAX_INT32
    ensures -MAX_INT32 - 1 <= Next32(n) <= MAX_INT32 && (Next32(n) - n - 1) % TWO_32 == 0
  {
  }

  /** The value of a 32-bit counter after `n` increments from zero. */
  function Counter(n: nat): (r: int)
    ensures -MAX_INT32 - 1 <= r <= MAX_INT32
    ensures n <= MAX_INT32 ==> r == n
  {
    if n == 0 then 0 else Next32(Counter(n - 1))
  }

  // ---------------------------------------------------------------------------
  // Histories

  /** The length of the run of `ok` results at the end. */
  function Trailing(h: seq<bool>, ok: bool): (n: nat)
    ensures n <= |h|
    ensures forall k :: |h| - n <= k < |h| ==> h[k] == ok
    ensures n < |h| ==> h[|h| - n - 1] != ok
  {
    if h == [] || h[|h| - 1] != ok then 0 else 1 + Trailing(h[..|h| - 1], ok)
  }

  /** The `n` results before `i` are all `ok`. */
  predicate Window(h: seq<bool>, i: int, n: int, ok: bool) {
    n <= i <= |h| && forall k :: i - n <= k < i && 0 <= k ==> h[k] == ok
  }

  /** A window of successes that lies after position `i`. */
  predicate RecoveredAfter(h: seq<bool>, i: int, recovery: int) {
    exists j :: i + recovery <= j <= |h| && Window(h, j, recovery, true)
  }

  /** The trace specification: some window of failures has no window of successes after it. A
      threshold beyond the 32-bit counters is never reached. */
  predicate Unhealthy(h: seq<bool>, failure: int, recovery: int) {
    && failure <= MAX_INT32
    && exists i :: 0 <= i <= |h| && Window(h, i, failure, false) && !(recovery <= MAX_INT32 && RecoveredAfter(h, i, recovery))
  }

  lemma WindowOfTrailing(h: seq<bool>, n: nat, ok: bool)
    requires n <= |h|
    ensures Window(h, |h|, n, ok) <==> Trailing(h, ok) >= n
  {
  }

  /** Windows that end before the last result do not see it. */
  lemma WindowInPrefix(h: seq<bool>, last: bool, i: int, n: int, ok: bool)
    requires i <= |h|
    ensures Window(h + [last], i, n, ok) <==> Window(h, i, n, ok)
  {
    var g := h + [last];
    assert forall k :: 0 <= k < |h| ==> g[k] == h[k];
  }

  lemma RecoveredInPrefix(h: seq<bool>, last: bool, i: int, recovery: int)
    requires recovery >= 1
    ensures RecoveredAfter(h + [last], i, recovery)
            <==> RecoveredAfter(h, i, recovery)
                 || (i + recovery <= |h| + 1 && Window(h + [last], |h| + 1, recovery, true))
  {
    var g := h + [last];
    if RecoveredAfter(g, i, recovery) {
      var j :| i + recovery <= j <= |g| && Window(g, j, recovery, true);
      if j <= |h| { WindowInPrefix(h, last, j, recovery, true); }
    }
    if RecoveredAfter(h, i, recovery) {
      var j :| i + recovery <= j <= |h| && Window(h, j, recovery, true);
      WindowInPrefix(h, last, j, recovery, true);
    }
  }

  /** A failure makes the history unhealthy exactly when it was, or the run is long enough. */
  lemma FailureStep(h: seq<bool>, failure: int, recovery: int)
    requires failure >= 1 && recovery >= 1
    ensures Unhealthy(h + [false], failure, recovery)
            <==> Unhealthy(h, failure, recovery)
                 || (failure <= MAX_INT32 && Trailing(h + [false], false) >= failure)
  {
    var g := h + [false];
    if Unhealthy(h, failure, recovery) {
      var i :| 0 <= i <= |h| && Window(h, i, failure, false) && !(recovery <= MAX_INT32 && RecoveredAfter(h, i, recovery));
      WindowInPrefix(h, false, i, failure, false);
      RecoveredInPrefix(h, false, i, recovery);
      assert !Window(g, |g|, recovery, true) by { assert g[|h|] == false; }
    }
    if failure <= MAX_INT32 && Trailing(g, false) >= failure {
      WindowOfTrailing(g, failure, false);
      assert !RecoveredAfter(g, |g|, recovery);
    }
    if Unhealthy(g, failure, recovery) {
      var i :| 0 <= i <= |g| && Window(g, i, failure, false) && !(recovery <= MAX_INT32 && RecoveredAfter(g, i, recovery));
      if i == |g| {
        WindowOfTrailing(g, failure, false);
      } else {
        WindowInPrefix(h, false, i, failure, false);
        RecoveredInPrefix(h, false, i, recovery);
      }
    }
  }

  /** A success leaves the history unhealthy exactly when it was and the run is still short. */
  lemma SuccessStep(h: seq<bool>, failure: int, recovery: int)
    requires failure >= 1 && recovery >= 1
    ensures Unhealthy(h + [true], failure, recovery)
            <==> Unhealthy(h, failure, recovery)
                 && !(recovery <= MAX_INT32 && Trailing(h + [true], true) >= recovery)
  {
    var g := h + [true];
    var n := Trailing(g, true);
    if Unhealthy(g, failure, recovery) {
      var i :| 0 <= i <= |g| && Window(g, i, failure, false) && !(recovery <= MAX_INT32 && RecoveredAfter(g, i, recovery));
      assert g[i - 1] == false;
      assert i <= |g| - n;
      WindowInPrefix(h, true, i, failure, false);
      RecoveredInPrefix(h, true, i, recovery);
      if n >= recovery { WindowOfTrailing(g, recovery, true); }
    }
    if Unhealthy(h, failure, recovery) && !(recovery <= MAX_INT32 && n >= recovery) {
      var i :| 0 <= i <= |h| && Window(h, i, failure, false) && !(recovery <= MAX_INT32 && RecoveredAfter(h, i, recovery));
      WindowInPrefix(h, true, i, failure, false);
      RecoveredInPrefix(h, true, i, recovery);
      if recovery <= |g| { WindowOfTrailing(g, recovery, true); }
    }
  }

  /** A run as long as a threshold decides the state by itself. */
  lemma LongRunsDecide(h: seq<bool>, failure: int, recovery: int)
    requires failure >= 1 && recovery >= 1
    ensures failure <= MAX_INT32 && Trailing(h, false) >= failure ==> Unhealthy(h, failure, recovery)
    ensures recovery <= MAX_INT32 && Trailing(h, true) >= recovery ==> !Unhealthy(h, failure, recovery)
  {
    if h != [] {
      var front := h[..|h| - 1];
      assert h == front + [h[|h| - 1]];
      if h[|h| - 1] { SuccessStep(front, failure, recovery); } else { FailureStep(front, failure, recovery); }
    }
  }

  /** The specification without the counters' width. */
  predicate PlainUnhealthy(h: seq<bool>, failure: int, recovery: int) {
    exists i :: 0 <= i <= |h| && Window(h, i, failure, false) && !RecoveredAfter(h, i, recovery)
  }

  lemma WidthDoesNotMatter(h: seq<bool>, failure: int, recovery: int)
    requires failure <= MAX_INT32 && recovery <= MAX_INT32
    ensures Unhealthy(h, failure, recovery) <==> PlainUnhealthy(h, failure, recovery)
  {
  }

  function Run(ok: bool, n: nat): (h: seq<bool>)
    ensures |h| == n && forall k :: 0 <= k < n ==> h[k] == ok
  {
    if n == 0 then [] else Run(ok, n - 1) + [ok]
  }

  /** A threshold that does not fit the counters is missed by some history. */
  lemma WideThresholdsAreMissed(failure: int, recovery: int) returns (h: seq<bool>)
    requires failure >= 1 && recovery >= 1
    requires failure > MAX_INT32 || recovery > MAX_INT32
    ensures Unhealthy(h, failure, recovery) != PlainUnhealthy(h, failure, recovery)
  {
    if failure > MAX_INT32 {
      h := Run(false, failure);
      assert Window(h, failure, failure, false) && !RecoveredAfter(h, failure, recovery);
    } else {
      h := Run(false, failure) + Run(true, recovery);
      assert Window(h, failure, failure, false);
      assert Window(h, failure + recovery, recovery, true);
      forall i | 0 <= i <= |h| && Window(h, i, failure, false) ensures RecoveredAfter(h, i, recovery) {
        if i > failure { assert h[i - 1] == false; }
      }
    }
  }

  // ---------------------------------------------------------------------------
  // The automaton

  class Replica {
    var healthy: bool
    var consecutiveFails: int
    var consecutiveOks: int
    /** Everything recorded so far. */
    ghost var history: seq<bool>

    /** A replica starts out healthy. */
    constructor ()
      ensures history == [] && healthy && consecutiveFails == 0 && consecutiveOks == 0
    {
      healthy, consecutiveFails, consecutiveOks, history := true, 0, 0, [];
    }
  }

  class HealthChecker {
    const failureThreshold: int
    const recoveryThreshold: int

    constructor (failure: int, recovery: int)
      ensures failureThreshold == failure && recoveryThreshold == recovery
    {
      failureThreshold, recoveryThreshold := failure, recovery;
    }

    function Failure(): (n: int)
      ensures n >= 1
    {
      if failureThreshold <= 0 then 3 else failureThreshold
    }

    function Recovery(): (n: int)
      ensures n >= 1
    {
      if recoveryThreshold <= 0 then 2 else recoveryThreshold
    }

    /** The counters are the trailing runs, and the flag is what the trace says. */
    ghost predicate Tracks(rh: Replica)
      reads rh
    {
      && rh.consecutiveFails == Counter(Trailing(rh.history, false))
      && rh.consecutiveOks == Counter(Trailing(rh.history, true))
      && (rh.healthy <==> !Unhealthy(rh.history, Failure(), Recovery()))
    }

    method RecordFailure(rh: Replica)
      requires Tracks(rh)
      modifies rh
      ensures Tracks(rh) && rh.history == old(rh.history) + [false]
    {
      FailureStep(rh.history, Failure(), Recovery());
      LongRunsDecide(rh.history, Failure(), Recovery());
      assert (rh.history + [false])[..|rh.history|] == rh.history;
      rh.consecutiveOks := 0;
      rh.consecutiveFails := Next32(rh.consecutiveFails);
      rh.history := rh.history + [false];
      if rh.consecutiveFails >= Failure() && rh.healthy { rh.healthy := false; }
    }

    method RecordSuccess(rh: Replica)
      requires Tracks(rh)
      modifies rh
      ensures Tracks(rh) && rh.history == old(rh.history) + [true]
    {
      SuccessStep(rh.history, Failure(), Recovery());
      LongRunsDecide(rh.history, Failure(), Recovery());
      assert (rh.history + [true])[..|rh.history|] == rh.history;
      rh.consecutiveFails := 0;
      rh.consecutiveOks := Next32(rh.consecutiveOks);
      rh.history := rh.history + [true];
      if rh.consecutiveOks >= Recovery() && !rh.healthy { rh.healthy := true; }
    }

    /** After any history the flag is what the specification says of it. */
    method Replay(history: seq<bool>) returns (healthy: bool, fails: int, oks: int)
      ensures healthy <==>
              !Unhealthy(history, if failureThreshold <= 0 then 3 else failureThreshold,
                         if recoveryThreshold <= 0 then 2 else recoveryThreshold)
      ensures fails == Counter(Trailing(history, false)) && oks == Counter(Trailing(history, true))
    {
      var rh := new Replica();
      for i := 0 to |history|
        invariant Tracks(rh) && rh.history == history[..i]
      {
        assert history[..i + 1] == history[..i] + [history[i]];
        if history[i] { RecordSuccess(rh); } else { RecordFailure(rh); }
      }
      assert history[..|history|] == history;
      return rh.healthy, rh.consecutiveFails, rh.consecutiveOks;
    }
  }
}
