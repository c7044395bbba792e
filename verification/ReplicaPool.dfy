/** The connection pool of one replica. Expiry and dialling are decided outside; `Get` is one
    atomic step.
 */
module ReplicaPool {
  class Conn {
    const pool: Pool
    var inUse: bool
    var tcpClosed: bool
    /** The socket underneath. */
    var connected: bool

    constructor (p: Pool)
      ensures pool == p && !inUse && !tcpClosed && connected
    {
      pool, inUse, tcpClosed, connected := p, false, false, true;
    }

    /** The caller gives the connection up; closing one that is checked out is counted, closing
        twice is not, and closing one that sits in the pool leaves a dead entry there. */
    method Close()
      requires pool.Valid() && this in pool.members
      modifies this, pool
      ensures pool.members == old(pool.members) && pool.idle == old(pool.idle) && pool.closed == old(pool.closed)
      ensures pool.out == old(pool.out) - {this} && pool.activeCount == |pool.out|
      ensures !inUse && !connected
      ensures pool.Valid() <==> this !in pool.idle
    {
      if inUse {
        inUse := false;
        pool.activeCount := pool.activeCount - 1;
        pool.out := pool.out - {this};
      }
      if !tcpClosed {
        tcpClosed := true;
        connected := false;
      }
    }
  }

  /** The connections of `s` that are not expired, in order. */
  function Kept(s: seq<Conn>, expired: set<Conn>): (r: seq<Conn>) {
    if s == [] then []
    else Kept(s[..|s| - 1], expired) + (if s[|s| - 1] in expired then [] else [s[|s| - 1]])
  }

  lemma {:induction false} KeptMembers(s: seq<Conn>, expired: set<Conn>, c: Conn)
    ensures c in Kept(s, expired) <==> c in s && c !in expired
  {
    if s != [] {
      KeptMembers(s[..|s| - 1], expired, c);
      assert c in s <==> c in s[..|s| - 1] || c == s[|s| - 1];
    }
  }

  lemma {:induction false} KeptDistinct(s: seq<Conn>, expired: set<Conn>)
    requires Distinct(s)
    ensures Distinct(Kept(s, expired)) && |Kept(s, expired)| <= |s|
  {
    if s != [] {
      var front, last := s[..|s| - 1], s[|s| - 1];
      KeptDistinct(front, expired);
      KeptMembers(front, expired, last);
    }
  }

  /** One more than the last position that has not expired, or zero. */
  function Live(s: seq<Conn>, expired: set<Conn>): (n: nat)
    ensures n <= |s| && (n > 0 ==> s[n - 1] !in expired) && forall i :: n <= i < |s| ==> s[i] in expired
  {
    if s == [] then 0 else if s[|s| - 1] in expired then Live(s[..|s| - 1], expired) else |s|
  }

  predicate Distinct(s: seq<Conn>) { forall i, j :: 0 <= i < j < |s| ==> s[i] != s[j] }

  class Pool {
    const maxOpen: int
    const maxIdle: int
    var idle: seq<Conn>
    var closed: bool
    var activeCount: int
    /** The connections that are checked out, and all there ever were. */
    ghost var out: set<Conn>
    ghost var members: set<Conn>

    /** The count is that of the checked-out connections; the idle ones are distinct, within
        bounds and not in use; a socket is open exactly while it is in one of the two. */
    ghost predicate Valid()
      reads this, members
    {
      && out <= members && activeCount == |out|
      && (forall c :: c in members ==> c.pool == this && (c.inUse <==> c in out))
      && (forall c :: c in members ==> (c.connected <==> c in out || c in idle) && (c.tcpClosed ==> !c.connected))
      && Distinct(idle) && (forall i :: 0 <= i < |idle| ==> idle[i] in members && idle[i] !in out)
      && (maxIdle > 0 ==> |idle| <= maxIdle)
      && (maxOpen > 0 ==> activeCount + |idle| <= maxOpen)
      && (closed ==> idle == [])
    }

    constructor (open: int, idleLimit: int)
      ensures Valid() && maxOpen == open && maxIdle == idleLimit
      ensures idle == [] && out == {} && members == {} && !closed
    {
      maxOpen, maxIdle := open, idleLimit;
      idle, closed, activeCount, out, members := [], false, 0, {}, {};
    }

    /** Whether `Put` would keep the connection. */
    ghost predicate Keeps(conn: Conn, expired: bool)
      reads this, conn
    {
      !closed && !conn.tcpClosed && !expired && !(maxIdle > 0 && |idle| >= maxIdle)
    }

    method Append(conn: Conn)
      requires Valid() && conn in members && Keeps(conn, false)
      modifies this`idle, this`activeCount, this`out, conn`inUse
      ensures out == old(out) - {conn} && activeCount == |out| && idle == old(idle) + [conn]
      ensures Valid() <==> old(conn in out)
    {
      if conn.inUse {
        conn.inUse := false;
        activeCount := activeCount - 1;
        out := out - {conn};
      }
      ghost var before := idle;
      idle := idle + [conn];
      assert idle[|before|] == conn && conn in idle;
      if conn in before {
        var i :| 0 <= i < |before| && before[i] == conn;
        assert idle[i] == idle[|before|] && !Distinct(idle);
      }
    }

    method Dispose(conn: Conn)
      requires Valid() && conn in members
      modifies this`activeCount, this`out, conn`inUse, conn`connected
      ensures out == old(out) - {conn} && activeCount == |out|
      ensures Valid() <==> conn !in idle
    {
      if conn.inUse {
        conn.inUse := false;
        activeCount := activeCount - 1;
        out := out - {conn};
      }
      conn.connected := false;
    }

    /** Returning a connection that is checked out keeps the pool sound; returning it again does
        so only when it is neither idle nor kept. */
    method Put(conn: Conn, expired: bool)
      requires Valid() && conn in members
      modifies this`idle, this`activeCount, this`out, conn`inUse, conn`connected
      ensures out == old(out) - {conn} && activeCount == |out|
      ensures idle == if old(Keeps(conn, expired)) then old(idle) + [conn] else old(idle)
      ensures Valid() <==> old(conn in out) || (conn !in old(idle) && !old(Keeps(conn, expired)))
    {
      if closed || conn.tcpClosed || expired || (maxIdle > 0 && |idle| >= maxIdle) {
        Dispose(conn);
      } else {
        Append(conn);
      }
    }

    /** The last idle connection is dropped. */
    method DropLast()
      requires Valid() && idle != []
      modifies this`idle, idle`connected
      ensures Valid() && idle == old(idle)[..|old(idle)| - 1]
    {
      var last := idle[|idle| - 1];
      ghost var before := idle;
      idle := idle[..|idle| - 1];
      last.connected := false;
      assert forall c :: c in before <==> c in idle || c == last;
    }

    /** The last idle connection is checked out. */
    method TakeLast() returns (conn: Conn)
      requires Valid() && idle != []
      modifies this`idle, this`activeCount, this`out, idle`inUse
      ensures Valid() && conn == old(idle)[|old(idle)| - 1] && idle == old(idle)[..|old(idle)| - 1]
      ensures conn !in old(out) && conn in members && out == old(out) + {conn}
    {
      conn := idle[|idle| - 1];
      ghost var before := idle;
      idle := idle[..|idle| - 1];
      conn.inUse := true;
      activeCount := activeCount + 1;
      out := out + {conn};
      assert forall c :: c in before <==> c in idle || c == conn;
    }

    /** A new connection is checked out; only the checked-out ones were counted before. */
    method Dial() returns (conn: Conn)
      requires Valid() && idle == [] && (maxOpen > 0 ==> activeCount < maxOpen)
      modifies this`activeCount, this`out, this`members
      ensures Valid() && fresh(conn) && out == old(out) + {conn} && members == old(members) + {conn}
    {
      conn := new Conn(this);
      conn.inUse := true;
      activeCount := activeCount + 1;
      out, members := out + {conn}, members + {conn};
    }

    /** The expired connections at the end are dropped. */
    method DropExpired(expired: set<Conn>)
      requires Valid()
      modifies this`idle, idle`connected
      ensures Valid() && idle == old(idle)[..Live(old(idle), expired)]
    {
      while idle != [] && idle[|idle| - 1] in expired
        invariant Valid() && idle <= old(idle) && Live(idle, expired) == Live(old(idle), expired)
        decreases |idle|
      {
        DropLast();
      }
    }

    /** The most recently returned connection that has not expired, or else a new one; what was
        returned later is dropped, what was returned earlier stays. */
    method Get(expired: set<Conn>, reachable: bool) returns (conn: Conn?)
      requires Valid()
      modifies this, members
      ensures Valid() && closed == old(closed) && fresh(members - old(members))
      ensures var n := Live(old(idle), expired);
              && (conn == null <==> old(closed) || (n == 0 && (old(maxOpen > 0 && activeCount >= maxOpen) || !reachable)))
              && (conn != null && n > 0 ==> conn == old(idle)[n - 1] && members == old(members))
              && (conn != null && n == 0 ==> fresh(conn))
              && idle == if old(closed) || n == 0 then [] else old(idle)[..n - 1]
      ensures if conn == null then out == old(out) && members == old(members)
              else conn !in old(out) && conn in members && out == old(out) + {conn}
    {
      if closed { return null; }
      DropExpired(expired);
      if idle != [] {
        conn := TakeLast();
      } else if maxOpen > 0 && activeCount >= maxOpen {
        conn := null;
      } else if !reachable {
        conn := null;
      } else {
        conn := Dial();
      }
    }

    method Discard(conn: Conn)
      requires Valid() && conn in members
      modifies conn, this
      ensures members == old(members) && idle == old(idle) && out == old(out) - {conn} && !conn.connected
      ensures Valid() <==> conn !in idle
    {
      conn.Close();
    }

    /** In place, front to back; the expired are disconnected. */
    method Compact(expired: set<Conn>)
      requires forall i :: 0 <= i < |idle| ==> idle[i] in members
      modifies this`idle, idle`connected
      ensures idle == Kept(old(idle), expired)
      ensures forall c :: c in members ==> c.connected == (old(c.connected) && !(c in old(idle) && c in expired))
    {
      var n := 0;
      ghost var before := idle;
      for i := 0 to |idle|
        invariant n <= i <= |idle| == |before| && idle[..n] == Kept(before[..i], expired) && idle[i..] == before[i..]
        invariant forall c :: c in members ==> c.connected == (old(c.connected) && !(c in before[..i] && c in expired))
      {
        var conn := idle[i];
        assert before[..i + 1] == before[..i] + [conn];
        assert idle[i..][1..] == before[i..][1..] == before[i + 1..];
        assert idle[i + 1..] == before[i + 1..];
        if conn in expired {
          conn.connected := false;
        } else {
          idle := idle[n := conn];
          n := n + 1;
          assert idle[i + 1..] == before[i + 1..];
        }
      }
      idle := idle[..n];
      assert before[..|before|] == before;
    }

    /** Drops the expired connections and keeps the others in order. */
    method EvictExpired(expired: set<Conn>)
      requires Valid()
      modifies this`idle, idle`connected
      ensures Valid() && idle == Kept(old(idle), expired)
    {
      ghost var before := idle;
      Compact(expired);
      KeptDistinct(before, expired);
      forall c ensures c in idle <==> c in before && c !in expired { KeptMembers(before, expired, c); }
      forall i | 0 <= i < |idle| ensures idle[i] in members && idle[i] !in out { assert idle[i] in before; }
    }

    method Close()
      requires Valid()
      modifies this`idle, this`closed, idle`connected
      ensures Valid() && closed && idle == []
    {
      closed := true;
      for i := 0 to |idle|
        invariant idle == old(idle) && closed
        invariant forall c :: c in members ==> c.connected == (old(c.connected) && c !in idle[..i])
      {
        idle[i].connected := false;
        assert idle[..i + 1] == idle[..i] + [idle[i]];
      }
      assert idle[..|idle|] == idle;
      idle := [];
    }
  }

  /** What callers and the eviction loop do: borrow, return or give up a borrowed connection,
      evict, shut down. A clock decides which idle connections have expired: the operation names
      their positions at the time it is performed. */
  datatype Op =
    | Borrow(expired: set<nat>, reachable: bool)
    | Return(i: nat, isExpired: bool)
    | GiveUp(i: nat)
    | Evict(expired: set<nat>)
    | Shutdown

  /** The connections at these positions. */
  function ConnsAt(s: seq<Conn>, positions: set<nat>): (r: set<Conn>)
    ensures forall c :: c in r ==> c in s
    ensures forall i :: 0 <= i < |s| && i in positions ==> s[i] in r
  {
    set i | i in positions && i < |s| :: s[i]
  }

  /** With distinct entries exactly the named positions expire. */
  lemma ConnsAtPosition(s: seq<Conn>, positions: set<nat>, i: nat)
    requires Distinct(s) && i < |s|
    ensures s[i] in ConnsAt(s, positions) <==> i in positions
  {
  }

  // ---------------------------------------------------------------------------
  // The pool as three numbers

  datatype Tally = Tally(idle: nat, held: nat, closed: bool)

  /** The positions below `n` that have not expired. */
  function LiveBelow(n: nat, expired: set<nat>): (k: nat)
    ensures k <= n
  {
    if n == 0 then 0 else LiveBelow(n - 1, expired) + if n - 1 in expired then 0 else 1
  }

  /** One more than the last position below `n` that has not expired, or zero. */
  function LastLive(n: nat, expired: set<nat>): (k: nat)
    ensures k <= n && (k > 0 ==> k - 1 !in expired) && forall i :: k <= i < n ==> i in expired
  {
    if n == 0 then 0 else if n - 1 in expired then LastLive(n - 1, expired) else n
  }

  /** Borrowing takes the last live connection and drops those behind it, or dials if it may;
      returning keeps the connection if there is room; a closed pool lends and keeps nothing. */
  function Count(t: Tally, op: Op, maxOpen: int, maxIdle: int): (r: Tally) {
    match op
    case Borrow(expired, reachable) =>
      var k := LastLive(t.idle, expired);
      if t.closed then t
      else if k > 0 then Tally(k - 1, t.held + 1, false)
      else Tally(0, if reachable && (maxOpen <= 0 || t.held < maxOpen) then t.held + 1 else t.held, false)
    case Return(i, isExpired) =>
      if i >= t.held then t
      else
        var keeps := !t.closed && !isExpired && (maxIdle <= 0 || t.idle < maxIdle);
        Tally(if keeps then t.idle + 1 else t.idle, t.held - 1, t.closed)
    case GiveUp(i) => if i >= t.held then t else t.(held := t.held - 1)
    case Evict(expired) => t.(idle := LiveBelow(t.idle, expired))
    case Shutdown => Tally(0, t.held, true)
  }

  function CountAll(t: Tally, ops: seq<Op>, maxOpen: int, maxIdle: int): (r: Tally) {
    if ops == [] then t
    else Count(CountAll(t, ops[..|ops| - 1], maxOpen, maxIdle), ops[|ops| - 1], maxOpen, maxIdle)
  }

  ghost function TallyOf(p: Pool, held: seq<Conn>): (t: Tally)
    reads p
  {
    Tally(|p.idle|, |held|, p.closed)
  }

  lemma {:induction false} KeptCount(s: seq<Conn>, expired: set<Conn>, positions: set<nat>)
    requires forall i :: 0 <= i < |s| ==> (s[i] in expired <==> i in positions)
    ensures |Kept(s, expired)| == LiveBelow(|s|, positions)
  {
    if s != [] { KeptCount(s[..|s| - 1], expired, positions); }
  }

  lemma ConnsAtPositions(s: seq<Conn>, positions: set<nat>)
    requires Distinct(s)
    ensures forall i :: 0 <= i < |s| ==> (s[i] in ConnsAt(s, positions) <==> i in positions)
  {
    forall i | 0 <= i < |s| ensures s[i] in ConnsAt(s, positions) <==> i in positions {
      ConnsAtPosition(s, positions, i);
    }
  }

  lemma {:induction false} LiveCount(s: seq<Conn>, expired: set<Conn>, positions: set<nat>)
    requires forall i :: 0 <= i < |s| ==> (s[i] in expired <==> i in positions)
    ensures Live(s, expired) == LastLive(|s|, positions)
  {
    if s != [] { LiveCount(s[..|s| - 1], expired, positions); }
  }

  /** The caller's connections are exactly the ones the pool counts. */
  ghost predicate Borrowed(p: Pool, held: seq<Conn>)
    reads p
  {
    && Distinct(held) && |held| == |p.out|
    && (forall c :: c in held ==> c in p.out) && (forall c :: c in p.out ==> c in held)
  }

  lemma RemoveBorrowed(held: seq<Conn>, i: nat)
    requires i < |held| && Distinct(held)
    ensures var less := held[..i] + held[i + 1..];
            Distinct(less) && forall c :: c in less <==> c in held && c != held[i]
  {
    var less := held[..i] + held[i + 1..];
    assert held == held[..i] + [held[i]] + held[i + 1..];
    forall c ensures c in less <==> c in held && c != held[i] {
      if c in less {
        var k :| 0 <= k < |less| && less[k] == c;
        assert c == held[if k < i then k else k + 1];
      }
    }
  }

  method BorrowOne(p: Pool, held: seq<Conn>, positions: set<nat>, reachable: bool) returns (now: seq<Conn>)
    requires p.Valid() && Borrowed(p, held)
    modifies p, p.members
    ensures p.Valid() && Borrowed(p, now) && fresh(p.members - old(p.members))
    ensures TallyOf(p, now) == Count(old(TallyOf(p, held)), Borrow(positions, reachable), p.maxOpen, p.maxIdle)
  {
    now := held;
    var expired := ConnsAt(p.idle, positions);
    ConnsAtPositions(p.idle, positions);
    LiveCount(p.idle, expired, positions);
    var conn := p.Get(expired, reachable);
    if conn != null {
      now := held + [conn];
      assert forall c :: c in now <==> c in held || c == conn;
    }
  }

  method ReturnOne(p: Pool, held: seq<Conn>, i: nat, isExpired: bool) returns (now: seq<Conn>)
    requires p.Valid() && Borrowed(p, held) && i < |held|
    modifies p, p.members
    ensures p.Valid() && Borrowed(p, now) && p.members == old(p.members)
    ensures TallyOf(p, now) == Count(old(TallyOf(p, held)), Return(i, isExpired), p.maxOpen, p.maxIdle)
  {
    RemoveBorrowed(held, i);
    p.Put(held[i], isExpired);
    now := held[..i] + held[i + 1..];
  }

  method GiveUpOne(p: Pool, held: seq<Conn>, i: nat) returns (now: seq<Conn>)
    requires p.Valid() && Borrowed(p, held) && i < |held|
    modifies p, p.members
    ensures p.Valid() && Borrowed(p, now) && p.members == old(p.members)
    ensures TallyOf(p, now) == Count(old(TallyOf(p, held)), GiveUp(i), p.maxOpen, p.maxIdle)
  {
    RemoveBorrowed(held, i);
    var conn := held[i];
    assert conn in p.out;
    conn.Close();
    now := held[..i] + held[i + 1..];
  }

  method EvictAt(p: Pool, held: seq<Conn>, positions: set<nat>)
    requires p.Valid() && Borrowed(p, held)
    modifies p`idle, p.idle`connected
    ensures p.Valid()
    ensures TallyOf(p, held) == Count(old(TallyOf(p, held)), Evict(positions), p.maxOpen, p.maxIdle)
  {
    ConnsAtPositions(p.idle, positions);
    KeptCount(p.idle, ConnsAt(p.idle, positions), positions);
    p.EvictExpired(ConnsAt(p.idle, positions));
  }

  /** Any run in which callers return or give up each connection once: the pool stays sound, and
      its numbers are those of the counting machine. */
  method Serve(p: Pool, ops: seq<Op>) returns (held: seq<Conn>)
    requires p.Valid() && p.out == {}
    modifies p, p.members
    ensures p.Valid() && Borrowed(p, held) && p.activeCount == |held|
    ensures p.maxOpen > 0 ==> |held| + |p.idle| <= p.maxOpen
    ensures TallyOf(p, held) == CountAll(old(TallyOf(p, [])), ops, p.maxOpen, p.maxIdle)
  {
    held := [];
    for k := 0 to |ops|
      invariant p.Valid() && Borrowed(p, held) && fresh(p.members - old(p.members))
      invariant TallyOf(p, held) == CountAll(old(TallyOf(p, [])), ops[..k], p.maxOpen, p.maxIdle)
    {
      assert ops[..k + 1][..k] == ops[..k];
      match ops[k] {
        case Borrow(expired, reachable) =>
          held := BorrowOne(p, held, expired, reachable);
        case Return(i, isExpired) =>
          if i < |held| { held := ReturnOne(p, held, i, isExpired); }
        case GiveUp(i) =>
          if i < |held| { held := GiveUpOne(p, held, i); }
        case Evict(expired) =>
          EvictAt(p, held, expired);
        case Shutdown =>
          p.Close();
      }
    }
    assert ops[..|ops|] == ops;
  }
}
