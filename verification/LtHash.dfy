/** The lattice hash: an accumulator of 1024 sixteen-bit lanes that adds and removes
    elements lane by lane, wrapping. The expansion function (BLAKE3) is a parameter.
 */
module LtHash {
  import opened Bytes

  const LANES := 1024
  const SIZE := 2048
  const MODULUS := 65536

  type u16 = x: int | 0 <= x < 65536

  /** Extends an element to 2048 bytes. */
  ghost predicate IsXof(xof: seq<byte> -> seq<byte>) {
    forall e :: |xof(e)| == SIZE
  }

  function LaneFrom(b: seq<byte>, i: nat): (x: u16)
    requires |b| == SIZE && i < LANES
  {
    (b[2 * i] as int) + 256 * (b[2 * i + 1] as int)
  }

  function LanesFrom(b: seq<byte>): (ls: seq<u16>)
    requires |b| == SIZE
    ensures |ls| == LANES
    ensures forall i :: 0 <= i < LANES ==> ls[i] == LaneFrom(b, i)
  {
    seq(LANES, i requires 0 <= i < LANES => LaneFrom(b, i))
  }

  function ByteAt(ls: seq<u16>, k: nat): (x: byte)
    requires |ls| == LANES && k < SIZE
  {
    if k % 2 == 0 then ls[k / 2] % 256 else ls[k / 2] / 256
  }

  function BytesFrom(ls: seq<u16>): (b: seq<byte>)
    requires |ls| == LANES
    ensures |b| == SIZE
    ensures forall k :: 0 <= k < SIZE ==> b[k] == ByteAt(ls, k)
  {
    seq(SIZE, k requires 0 <= k < SIZE => ByteAt(ls, k))
  }

  /** A lane is two bytes, little-endian. */
  lemma LaneIsTwoBytes(b: seq<byte>, i: nat)
    requires |b| == SIZE && i < LANES
    ensures LaneFrom(b, i) == FromLittleEndian(b[2 * i..2 * i + 2])
  {
    var two := b[2 * i..2 * i + 2];
    assert two == [b[2 * i], b[2 * i + 1]] && two[1..] == [b[2 * i + 1]];
    assert FromLittleEndian(two[1..]) == b[2 * i + 1];
  }

  lemma BytesAndBack(ls: seq<u16>)
    requires |ls| == LANES
    ensures LanesFrom(BytesFrom(ls)) == ls
  {
    var b := BytesFrom(ls);
    forall i | 0 <= i < LANES ensures LanesFrom(b)[i] == ls[i] {
      assert b[2 * i] == ByteAt(ls, 2 * i) && b[2 * i + 1] == ByteAt(ls, 2 * i + 1);
    }
  }

  lemma LanesAndBack(b: seq<byte>)
    requires |b| == SIZE
    ensures BytesFrom(LanesFrom(b)) == b
  {
    var ls := LanesFrom(b);
    forall k | 0 <= k < SIZE ensures BytesFrom(ls)[k] == b[k] {
      assert ls[k / 2] == LaneFrom(b, k / 2);
      assert k == 2 * (k / 2) || k == 2 * (k / 2) + 1;
    }
  }

  class Hash {
    const lane: array<u16>

    ghost predicate Valid()
      reads this
    {
      lane.Length == LANES
    }

    constructor ()
      ensures Valid() && fresh(lane)
      ensures forall i :: 0 <= i < LANES ==> lane[i] == 0
    {
      lane := new u16[LANES](_ => 0);
    }

    /** Lane-wise wrapping addition; `other` may be this very accumulator. */
    method AddHash(other: Hash)
      requires Valid() && other.Valid()
      modifies lane
      ensures forall i :: 0 <= i < LANES ==> lane[i] == (old(lane[i]) + old(other.lane[i])) % MODULUS
    {
      for i := 0 to LANES
        invariant forall k :: 0 <= k < i ==> lane[k] == (old(lane[k]) + old(other.lane[k])) % MODULUS
        invariant forall k :: i <= k < LANES ==> lane[k] == old(lane[k]) && other.lane[k] == old(other.lane[k])
      {
        lane[i] := (lane[i] + other.lane[i]) % MODULUS;
      }
    }

    method SubHash(other: Hash)
      requires Valid() && other.Valid()
      modifies lane
      ensures forall i :: 0 <= i < LANES ==> lane[i] == (old(lane[i]) - old(other.lane[i])) % MODULUS
    {
      for i := 0 to LANES
        invariant forall k :: 0 <= k < i ==> lane[k] == (old(lane[k]) - old(other.lane[k])) % MODULUS
        invariant forall k :: i <= k < LANES ==> lane[k] == old(lane[k]) && other.lane[k] == old(other.lane[k])
      {
        lane[i] := (lane[i] - other.lane[i]) % MODULUS;
      }
    }

    static method ElementHash(xof: seq<byte> -> seq<byte>, element: seq<byte>) returns (h: Hash)
      requires IsXof(xof)
      ensures h.Valid() && fresh(h) && fresh(h.lane)
      ensures h.lane[..] == LanesFrom(xof(element))
    {
      h := new Hash();
      h.SetLanes(xof(element));
    }

    method SetLanes(b: seq<byte>)
      requires Valid() && |b| == SIZE
      modifies lane
      ensures lane[..] == LanesFrom(b)
    {
      for i := 0 to LANES
        invariant forall k :: 0 <= k < i ==> lane[k] == LaneFrom(b, k)
      {
        lane[i] := LaneFrom(b, i);
      }
    }

    /** Apply one Add or Remove. */
    method Update(xof: seq<byte> -> seq<byte>, op: HashOp)
      requires Valid() && IsXof(xof)
      modifies lane
      ensures lane[..] == Step(old(lane[..]), op, xof)
    {
      var h := ElementHash(xof, op.element);
      if op.Add? {
        AddHash(h);
      } else {
        SubHash(h);
      }
    }

    /** Apply a whole history of Adds and Removes to this accumulator. */
    method UpdateAll(xof: seq<byte> -> seq<byte>, ops: seq<HashOp>)
      requires Valid() && IsXof(xof)
      modifies lane
      ensures lane[..] == Accumulate(old(lane[..]), ops, xof)
    {
      for i := 0 to |ops|
        invariant lane[..] == Accumulate(old(lane[..]), ops[..i], xof)
      {
        assert ops[..i + 1][..i] == ops[..i];
        Update(xof, ops[i]);
      }
      assert ops[..|ops|] == ops;
    }

    method ToBytes() returns (b: seq<byte>)
      requires Valid()
      ensures b == BytesFrom(lane[..])
    {
      b := [];
      for i := 0 to LANES
        invariant |b| == 2 * i
        invariant forall k :: 0 <= k < 2 * i ==> b[k] == ByteAt(lane[..], k)
      {
        b := b + [lane[i] % 256, lane[i] / 256];
      }
    }

    static method FromBytes(b: seq<byte>) returns (h: Hash?)
      ensures h == null <==> |b| != SIZE
      ensures h != null ==> h.Valid() && fresh(h) && h.lane[..] == LanesFrom(b)
    {
      if |b| != SIZE { return null; }
      var restored := new Hash();
      restored.SetLanes(b);
      h := restored;
    }
  }

  // ---------------------------------------------------------------------------
  // Histories

  datatype HashOp = Add(element: seq<byte>) | Remove(element: seq<byte>)
  {
    function Signed(x: int): (r: int) { if Add? then x else -x }
  }

  function Step(ls: seq<u16>, op: HashOp, xof: seq<byte> -> seq<byte>): (r: seq<u16>)
    requires |ls| == LANES && |xof(op.element)| == SIZE
    ensures |r| == LANES
    ensures forall i :: 0 <= i < LANES ==> r[i] == (ls[i] + op.Signed(LaneFrom(xof(op.element), i))) % MODULUS
  {
    seq(LANES, i requires 0 <= i < LANES => (ls[i] + op.Signed(LaneFrom(xof(op.element), i))) % MODULUS)
  }

  ghost function Accumulate(ls: seq<u16>, ops: seq<HashOp>, xof: seq<byte> -> seq<byte>): (r: seq<u16>)
    requires |ls| == LANES && IsXof(xof)
    ensures |r| == LANES
  {
    if ops == [] then ls else Step(Accumulate(ls, ops[..|ops| - 1], xof), ops[|ops| - 1], xof)
  }

  /** How many more times `e` was added than removed. */
  function Net(ops: seq<HashOp>, e: seq<byte>): (n: int) {
    if ops == [] then 0
    else Net(ops[..|ops| - 1], e) + if ops[|ops| - 1].element == e then ops[|ops| - 1].Signed(1) else 0
  }

  /** Every element has the same net count in both histories, modulo 65536. */
  ghost predicate SameNetCounts(ops: seq<HashOp>, more: seq<HashOp>) {
    forall e :: (Net(ops, e) - Net(more, e)) % MODULUS == 0
  }

  /** The unwrapped sum of one weight per operation. */
  function Weigh(ops: seq<HashOp>, w: seq<byte> -> int): (s: int) {
    if ops == [] then 0
    else Weigh(ops[..|ops| - 1], w) + ops[|ops| - 1].Signed(w(ops[|ops| - 1].element))
  }

  /** Lane `i` of an element's expansion. */
  function LaneOf(xof: seq<byte> -> seq<byte>, i: nat): (w: seq<byte> -> int)
    requires i < LANES
  {
    e => if |xof(e)| == SIZE then LaneFrom(xof(e), i) else 0
  }

  function Without(ops: seq<HashOp>, e: seq<byte>): (r: seq<HashOp>)
    ensures |r| <= |ops|
    ensures e in (set op | op in ops :: op.element) ==> |r| < |ops|
  {
    if ops == [] then []
    else
      assert ops == ops[..|ops| - 1] + [ops[|ops| - 1]];
      Without(ops[..|ops| - 1], e) + if ops[|ops| - 1].element == e then [] else [ops[|ops| - 1]]
  }

  lemma OneMore(n: int, op: HashOp, x: int)
    ensures (n + op.Signed(1)) * x == n * x + op.Signed(x)
  {
  }

  lemma {:induction false} PullOut(ops: seq<HashOp>, e: seq<byte>, w: seq<byte> -> int)
    ensures Weigh(ops, w) == Net(ops, e) * w(e) + Weigh(Without(ops, e), w)
  {
    if ops != [] {
      var front, last := ops[..|ops| - 1], ops[|ops| - 1];
      PullOut(front, e, w);
      if last.element == e {
        assert Without(ops, e) == Without(front, e);
        OneMore(Net(front, e), last, w(e));
      } else {
        assert Without(ops, e)[..|Without(ops, e)| - 1] == Without(front, e);
      }
    }
  }

  lemma {:induction false} NetWithout(ops: seq<HashOp>, e: seq<byte>, f: seq<byte>)
    ensures Net(Without(ops, e), f) == if f == e then 0 else Net(ops, f)
  {
    if ops != [] {
      var front, last := ops[..|ops| - 1], ops[|ops| - 1];
      NetWithout(front, e, f);
      if last.element == e {
        assert Without(ops, e) == Without(front, e);
      } else {
        assert Without(ops, e)[..|Without(ops, e)| - 1] == Without(front, e);
      }
    }
  }

  lemma MultipleTimes(n: int, x: int) returns (k: int)
    requires n % MODULUS == 0
    ensures n * x == MODULUS * k
  {
    var q := n / MODULUS;
    k := q * x;
    assert n == MODULUS * q;
    assert (MODULUS * q) * x == MODULUS * (q * x);
  }

  ghost predicate Balanced(ops: seq<HashOp>) {
    forall e :: Net(ops, e) % MODULUS == 0
  }

  lemma BalancedWithout(ops: seq<HashOp>, e: seq<byte>)
    requires Balanced(ops)
    ensures Balanced(Without(ops, e))
  {
    forall f ensures Net(Without(ops, e), f) % MODULUS == 0 {
      NetWithout(ops, e, f);
    }
  }

  /** If every element occurs a multiple of 65536 times net, each lane sum is such a multiple. */
  lemma {:induction false} BalancedWeighsNothing(ops: seq<HashOp>, w: seq<byte> -> int) returns (k: int)
    requires Balanced(ops)
    ensures Weigh(ops, w) == MODULUS * k
    decreases |ops|
  {
    if ops == [] { return 0; }
    var e := ops[0].element;
    assert ops[0] in ops;
    PullOut(ops, e, w);
    BalancedWithout(ops, e);
    var k1 := BalancedWeighsNothing(Without(ops, e), w);
    var k2 := MultipleTimes(Net(ops, e), w(e));
    k := k1 + k2;
  }

  function Opposite(op: HashOp): (r: HashOp) {
    if op.Add? then Remove(op.element) else Add(op.element)
  }

  function Opposites(ops: seq<HashOp>): (r: seq<HashOp>)
    ensures |r| == |ops|
  {
    if ops == [] then [] else Opposites(ops[..|ops| - 1]) + [Opposite(ops[|ops| - 1])]
  }

  lemma {:induction false} CombineDifference(ops: seq<HashOp>, more: seq<HashOp>, w: seq<byte> -> int)
    ensures Weigh(ops + Opposites(more), w) == Weigh(ops, w) - Weigh(more, w)
    ensures forall e :: Net(ops + Opposites(more), e) == Net(ops, e) - Net(more, e)
  {
    if more == [] {
      assert ops + [] == ops;
    } else {
      var front := more[..|more| - 1];
      CombineDifference(ops, front, w);
      var all := ops + Opposites(more);
      assert all[..|all| - 1] == ops + Opposites(front);
    }
  }

  lemma LaneOfStep(ls: seq<u16>, op: HashOp, xof: seq<byte> -> seq<byte>, i: nat) returns (k: int)
    requires |ls| == LANES && |xof(op.element)| == SIZE && i < LANES
    ensures Step(ls, op, xof)[i] == ls[i] + op.Signed(LaneOf(xof, i)(op.element)) - MODULUS * k
  {
    k := (ls[i] + op.Signed(LaneOf(xof, i)(op.element))) / MODULUS;
  }

  lemma {:induction false} LaneOfAccumulate(ls: seq<u16>, ops: seq<HashOp>, xof: seq<byte> -> seq<byte>, i: nat)
    returns (k: int)
    requires |ls| == LANES && IsXof(xof) && i < LANES
    ensures Accumulate(ls, ops, xof)[i] == ls[i] + Weigh(ops, LaneOf(xof, i)) - MODULUS * k
  {
    if ops == [] { return 0; }
    var front, last := ops[..|ops| - 1], ops[|ops| - 1];
    var k1 := LaneOfAccumulate(ls, front, xof, i);
    var k2 := LaneOfStep(Accumulate(ls, front, xof), last, xof, i);
    k := k1 + k2;
  }

  /** The accumulator is a multiset hash: it depends only on each element's net count modulo
      65536, whatever the order of the operations. */
  lemma OnlyNetCountsMatter(ls: seq<u16>, ops: seq<HashOp>, more: seq<HashOp>, xof: seq<byte> -> seq<byte>)
    requires |ls| == LANES && IsXof(xof)
    requires SameNetCounts(ops, more)
    ensures Accumulate(ls, ops, xof) == Accumulate(ls, more, xof)
  {
    var a, b := Accumulate(ls, ops, xof), Accumulate(ls, more, xof);
    forall i | 0 <= i < LANES ensures a[i] == b[i] {
      var k := DifferenceVanishes(ops, more, LaneOf(xof, i));
      SameLane(ls, ops, more, xof, i, k);
    }
  }

  lemma SameResidue(a: u16, b: u16, k: int)
    requires a - b == MODULUS * k
    ensures a == b
  {
  }

  lemma SameLane(ls: seq<u16>, ops: seq<HashOp>, more: seq<HashOp>, xof: seq<byte> -> seq<byte>, i: nat, k: int)
    requires |ls| == LANES && IsXof(xof) && i < LANES
    requires Weigh(ops, LaneOf(xof, i)) - Weigh(more, LaneOf(xof, i)) == MODULUS * k
    ensures Accumulate(ls, ops, xof)[i] == Accumulate(ls, more, xof)[i]
  {
    var k1 := LaneOfAccumulate(ls, ops, xof, i);
    var k2 := LaneOfAccumulate(ls, more, xof, i);
    SameResidue(Accumulate(ls, ops, xof)[i], Accumulate(ls, more, xof)[i], k - k1 + k2);
  }

  lemma DifferenceVanishes(ops: seq<HashOp>, more: seq<HashOp>, w: seq<byte> -> int) returns (k: int)
    requires SameNetCounts(ops, more)
    ensures Weigh(ops, w) - Weigh(more, w) == MODULUS * k
  {
    CombineDifference(ops, more, w);
    k := BalancedWeighsNothing(ops + Opposites(more), w);
  }

  // ---------------------------------------------------------------------------
  // Only the net counts decide

  function Zeros(n: nat): (b: seq<byte>)
    ensures |b| == n && forall i :: 0 <= i < n ==> b[i] == 0
  {
    seq(n, i => 0)
  }

  /** An expansion that tells one element from all others. */
  function Marker(e: seq<byte>): (xof: seq<byte> -> seq<byte>) {
    x => if x == e then [1] + Zeros(SIZE - 1) else Zeros(SIZE)
  }

  lemma MarkerWeight(e: seq<byte>, x: seq<byte>)
    ensures LaneOf(Marker(e), 0)(x) == if x == e then 1 else 0
  {
    var b := Marker(e)(x);
    assert |b| == SIZE && b[0] == (if x == e then 1 else 0) && b[1] == 0;
    assert LaneFrom(b, 0) == b[0];
  }

  lemma {:induction false} MarkerCounts(ops: seq<HashOp>, e: seq<byte>)
    ensures Weigh(ops, LaneOf(Marker(e), 0)) == Net(ops, e)
  {
    if ops != [] {
      MarkerCounts(ops[..|ops| - 1], e);
      MarkerWeight(e, ops[|ops| - 1].element);
    }
  }

  /** Lanes that end up equal weigh the same but for whole turns. */
  lemma SameLaneSameWeight(ls: seq<u16>, ops: seq<HashOp>, more: seq<HashOp>, xof: seq<byte> -> seq<byte>, i: nat)
    returns (k: int)
    requires |ls| == LANES && IsXof(xof) && i < LANES
    requires Accumulate(ls, ops, xof)[i] == Accumulate(ls, more, xof)[i]
    ensures Weigh(ops, LaneOf(xof, i)) - Weigh(more, LaneOf(xof, i)) == MODULUS * k
  {
    var k1 := LaneOfAccumulate(ls, ops, xof, i);
    var k2 := LaneOfAccumulate(ls, more, xof, i);
    k := k1 - k2;
  }

  lemma SameLaneSameCount(ls: seq<u16>, ops: seq<HashOp>, more: seq<HashOp>, e: seq<byte>) returns (k: int)
    requires |ls| == LANES && IsXof(Marker(e))
    requires Accumulate(ls, ops, Marker(e))[0] == Accumulate(ls, more, Marker(e))[0]
    ensures Net(ops, e) - Net(more, e) == MODULUS * k
  {
    k := SameLaneSameWeight(ls, ops, more, Marker(e), 0);
    MarkerCounts(ops, e);
    MarkerCounts(more, e);
  }

  lemma MultipleVanishes(n: int, k: int)
    requires n == MODULUS * k
    ensures n % MODULUS == 0
  {
  }

  ghost predicate AlwaysEqual(ls: seq<u16>, ops: seq<HashOp>, more: seq<HashOp>)
    requires |ls| == LANES
  {
    forall xof :: IsXof(xof) ==> Accumulate(ls, ops, xof) == Accumulate(ls, more, xof)
  }

  /** Two histories give the same accumulator under every expansion function if and only if each
      element has the same net count modulo 65536 in both. */
  lemma NetCountsDecide(ls: seq<u16>, ops: seq<HashOp>, more: seq<HashOp>)
    requires |ls| == LANES
    ensures AlwaysEqual(ls, ops, more) <==> SameNetCounts(ops, more)
  {
    if SameNetCounts(ops, more) {
      forall xof | IsXof(xof) ensures Accumulate(ls, ops, xof) == Accumulate(ls, more, xof) {
        OnlyNetCountsMatter(ls, ops, more, xof);
      }
    }
    if AlwaysEqual(ls, ops, more) {
      forall e ensures (Net(ops, e) - Net(more, e)) % MODULUS == 0 {
        assert IsXof(Marker(e));
        var k := SameLaneSameCount(ls, ops, more, e);
        MultipleVanishes(Net(ops, e) - Net(more, e), k);
      }
    }
  }

  lemma {:induction false} NetOfConcat(ops: seq<HashOp>, more: seq<HashOp>, e: seq<byte>)
    ensures Net(ops + more, e) == Net(ops, e) + Net(more, e)
  {
    if more == [] {
      assert ops + [] == ops;
    } else {
      NetOfConcat(ops, more[..|more| - 1], e);
      assert (ops + more)[..|ops + more| - 1] == ops + more[..|more| - 1];
    }
  }

  lemma NetOfRemoval(ops: seq<HashOp>, k: nat, e: seq<byte>)
    requires k < |ops|
    ensures Net(ops, e) == Net(ops[..k] + ops[k + 1..], e) + if ops[k].element == e then ops[k].Signed(1) else 0
  {
    NetOfConcat(ops[..k], ops[k + 1..], e);
    NetOfConcat(ops[..k + 1], ops[k + 1..], e);
    assert ops == ops[..k + 1] + ops[k + 1..];
    assert ops[..k + 1][..k] == ops[..k];
  }

  lemma RemoveFromBoth(ops: seq<HashOp>, more: seq<HashOp>) returns (k: nat)
    requires multiset(ops) == multiset(more) && ops != []
    ensures k < |more| && more[k] == ops[|ops| - 1]
    ensures multiset(ops[..|ops| - 1]) == multiset(more[..k] + more[k + 1..])
  {
    var front, last := ops[..|ops| - 1], ops[|ops| - 1];
    assert ops == front + [last];
    assert last in multiset(more);
    k :| 0 <= k < |more| && more[k] == last;
    assert more == more[..k] + [last] + more[k + 1..];
    assert multiset(front) == multiset(ops) - multiset{last};
    assert multiset(more[..k] + more[k + 1..]) == multiset(more) - multiset{last};
  }

  lemma {:induction false} NetOfPermutation(ops: seq<HashOp>, more: seq<HashOp>, e: seq<byte>)
    requires multiset(ops) == multiset(more)
    ensures Net(ops, e) == Net(more, e)
  {
    if ops == [] {
      assert |multiset(more)| == 0;
    } else {
      var k := RemoveFromBoth(ops, more);
      NetOfPermutation(ops[..|ops| - 1], more[..k] + more[k + 1..], e);
      NetOfRemoval(more, k, e);
    }
  }

  /** Reordering a history never changes the accumulator. */
  lemma OrderDoesNotMatter(ls: seq<u16>, ops: seq<HashOp>, more: seq<HashOp>, xof: seq<byte> -> seq<byte>)
    requires |ls| == LANES && IsXof(xof) && multiset(ops) == multiset(more)
    ensures Accumulate(ls, ops, xof) == Accumulate(ls, more, xof)
  {
    assert SameNetCounts(ops, more) by {
      forall e ensures (Net(ops, e) - Net(more, e)) % MODULUS == 0 {
        NetOfPermutation(ops, more, e);
      }
    }
    OnlyNetCountsMatter(ls, ops, more, xof);
  }

  function Repeat(op: HashOp, n: nat): (r: seq<HashOp>)
    ensures |r| == n
  {
    if n == 0 then [] else Repeat(op, n - 1) + [op]
  }

  lemma {:induction false} NetOfRepeat(op: HashOp, n: nat, e: seq<byte>)
    ensures Net(Repeat(op, n), e) == if op.element == e then op.Signed(n) else 0
  {
    if n > 0 {
      NetOfRepeat(op, n - 1, e);
      assert Repeat(op, n)[..n - 1] == Repeat(op, n - 1);
    }
  }

  lemma AddThenRemoveNet(ops: seq<HashOp>, e: seq<byte>)
    ensures SameNetCounts([Add(e)] + ops + [Remove(e)], ops)
  {
    forall f ensures Net([Add(e)] + ops + [Remove(e)], f) == Net(ops, f) {
      NetOfConcat([Add(e)] + ops, [Remove(e)], f);
      NetOfConcat([Add(e)], ops, f);
      NetOfRepeat(Add(e), 1, f);
      NetOfRepeat(Remove(e), 1, f);
      assert Repeat(Add(e), 1) == [Add(e)] && Repeat(Remove(e), 1) == [Remove(e)];
    }
  }

  /** Adding an element and later removing it leaves no trace. */
  lemma RemoveUndoesAdd(ls: seq<u16>, ops: seq<HashOp>, e: seq<byte>, xof: seq<byte> -> seq<byte>)
    requires |ls| == LANES && IsXof(xof)
    ensures Accumulate(ls, [Add(e)] + ops + [Remove(e)], xof) == Accumulate(ls, ops, xof)
  {
    AddThenRemoveNet(ops, e);
    OnlyNetCountsMatter(ls, [Add(e)] + ops + [Remove(e)], ops, xof);
  }

  lemma FullCycleNet(ops: seq<HashOp>, e: seq<byte>)
    ensures SameNetCounts(ops + Repeat(Add(e), MODULUS), ops)
  {
    forall f ensures (Net(ops + Repeat(Add(e), MODULUS), f) - Net(ops, f)) % MODULUS == 0 {
      NetOfConcat(ops, Repeat(Add(e), MODULUS), f);
      NetOfRepeat(Add(e), MODULUS, f);
    }
  }

  /** 65536 copies of one element cancel: the accumulator cannot tell them from none. */
  lemma FullCycleCancels(ls: seq<u16>, ops: seq<HashOp>, e: seq<byte>, xof: seq<byte> -> seq<byte>)
    requires |ls| == LANES && IsXof(xof)
    ensures Accumulate(ls, ops + Repeat(Add(e), MODULUS), xof) == Accumulate(ls, ops, xof)
  {
    FullCycleNet(ops, e);
    OnlyNetCountsMatter(ls, ops + Repeat(Add(e), MODULUS), ops, xof);
  }
}
