/** Packet layouts as tables: a list of fields, each with the revision that introduced it. */
module Layout {
  import opened Bytes
  import opened Wire

  /** A field as it stands in a packet. */
  datatype Item =
    | VarInt(v: u64)
    | Signed(x: i64)
    | Text(s: seq<byte>)
    | Octet(b: byte)
    | Flag(on: bool)
    | Word(w: u64)
    | SignedWord(x: i64)
    | Verbatim(s: seq<byte>)

  function Put(i: Item): (b: seq<byte>) {
    match i
    case VarInt(v) => PutUVarInt(v)
    case Signed(x) => PutInt(x)
    case Text(s) => PutStr(s)
    case Octet(b) => [b]
    case Flag(on) => [if on then 1 else 0]
    case Word(w) => PutUInt64(w)
    case SignedWord(x) => PutInt64(x)
    case Verbatim(s) => s
  }

  /** A field that is there from revision `since` on, or, with none, at any. */
  datatype Field = Always(item: Item) | Since(since: int, item: Item)

  predicate Sent(f: Field, rev: int) { f.Since? ==> rev >= f.since }

  function PutAt(fs: seq<Field>, k: nat, rev: int): (b: seq<byte>)
    requires k < |fs|
  {
    if Sent(fs[k], rev) then Put(fs[k].item) else []
  }

  /** The fields from the `k`th on at a revision, and then `t`. */
  function LaidFrom(fs: seq<Field>, k: nat, rev: int, t: seq<byte>): (b: seq<byte>)
    requires k <= |fs|
    decreases |fs| - k
  {
    if k == |fs| then t else PutAt(fs, k, rev) + LaidFrom(fs, k + 1, rev, t)
  }

  function Laid(fs: seq<Field>, rev: int, t: seq<byte>): (b: seq<byte>) { LaidFrom(fs, 0, rev, t) }

  /** From its `n`th field on, the table `all` is `gs`. */
  predicate EndsWith(all: seq<Field>, n: nat, gs: seq<Field>) {
    |all| == n + |gs| && forall k :: 0 <= k < |gs| ==> all[n + k] == gs[k]
  }

  lemma {:induction false} LaidFromLater(all: seq<Field>, n: nat, gs: seq<Field>, k: nat, rev: int, t: seq<byte>)
    requires k <= |gs| && EndsWith(all, n, gs)
    ensures LaidFrom(all, n + k, rev, t) == LaidFrom(gs, k, rev, t)
    decreases |gs| - k
  {
    if k < |gs| {
      LaidFromLater(all, n, gs, k + 1, rev, t);
      assert all[n + k] == gs[k];
    }
  }

  lemma {:induction false} LaidJoinedFrom(
    all: seq<Field>, fs: seq<Field>, gs: seq<Field>, k: nat, rev: int, t: seq<byte>, u: seq<byte>)
    requires k <= |fs| && fs <= all && EndsWith(all, |fs|, gs) && u == Laid(gs, rev, t)
    ensures LaidFrom(all, k, rev, t) == LaidFrom(fs, k, rev, u)
    decreases |fs| - k
  {
    if k == |fs| {
      LaidFromLater(all, |fs|, gs, 0, rev, t);
    } else {
      LaidJoinedFrom(all, fs, gs, k + 1, rev, t, u);
      assert all[k] == fs[k];
    }
  }

  /** One table after another. */
  lemma LaidJoined(fs: seq<Field>, gs: seq<Field>, rev: int, t: seq<byte>)
    ensures Laid(fs + gs, rev, t) == Laid(fs, rev, Laid(gs, rev, t))
  {
    LaidJoinedFrom(fs + gs, fs, gs, 0, rev, t, Laid(gs, rev, t));
  }

  /** A table of up to four fields. */
  lemma LaidFew(fs: seq<Field>, rev: int, t: seq<byte>)
    requires |fs| <= 4
    ensures |fs| == 1 ==> Laid(fs, rev, t) == PutAt(fs, 0, rev) + t
    ensures |fs| == 2 ==> Laid(fs, rev, t) == PutAt(fs, 0, rev) + (PutAt(fs, 1, rev) + t)
    ensures |fs| == 3 ==> Laid(fs, rev, t) == PutAt(fs, 0, rev) + (PutAt(fs, 1, rev) + (PutAt(fs, 2, rev) + t))
    ensures |fs| == 4 ==>
              Laid(fs, rev, t)
              == PutAt(fs, 0, rev) + (PutAt(fs, 1, rev) + (PutAt(fs, 2, rev) + (PutAt(fs, 3, rev) + t)))
  {
    assert LaidFrom(fs, |fs|, rev, t) == t;
    if |fs| >= 1 { assert LaidFrom(fs, |fs| - 1, rev, t) == PutAt(fs, |fs| - 1, rev) + t; }
    if |fs| >= 3 { assert LaidFrom(fs, 1, rev, t) == PutAt(fs, 1, rev) + LaidFrom(fs, 2, rev, t); }
  }

  lemma LaidFive(fs: seq<Field>, rev: int, t: seq<byte>)
    requires |fs| == 5
    ensures Laid(fs, rev, t)
            == PutAt(fs, 0, rev) + (PutAt(fs, 1, rev) + (PutAt(fs, 2, rev) + (PutAt(fs, 3, rev) + (PutAt(fs, 4, rev) + t))))
  {
    assert LaidFrom(fs, 5, rev, t) == t;
    assert LaidFrom(fs, 3, rev, t) == PutAt(fs, 3, rev) + LaidFrom(fs, 4, rev, t);
    assert LaidFrom(fs, 1, rev, t) == PutAt(fs, 1, rev) + LaidFrom(fs, 2, rev, t);
  }

  lemma LaidSix(fs: seq<Field>, rev: int, t: seq<byte>)
    requires |fs| == 6
    ensures Laid(fs, rev, t)
            == PutAt(fs, 0, rev) + (PutAt(fs, 1, rev) + (PutAt(fs, 2, rev) +
               (PutAt(fs, 3, rev) + (PutAt(fs, 4, rev) + (PutAt(fs, 5, rev) + t)))))
  {
    assert LaidFrom(fs, 6, rev, t) == t;
    assert LaidFrom(fs, 5, rev, t) == PutAt(fs, 5, rev) + t;
    assert LaidFrom(fs, 3, rev, t) == PutAt(fs, 3, rev) + LaidFrom(fs, 4, rev, t);
    assert LaidFrom(fs, 1, rev, t) == PutAt(fs, 1, rev) + LaidFrom(fs, 2, rev, t);
  }

  predicate NoneBefore(fs: seq<Field>, rev: int) { forall k :: 0 <= k < |fs| ==> fs[k].Since? && fs[k].since >= rev }

  /** A peer older than every field gets none. */
  lemma {:induction false} LaidNothing(fs: seq<Field>, k: nat, rev: int, t: seq<byte>)
    requires k <= |fs| && NoneBefore(fs, rev + 1)
    ensures LaidFrom(fs, k, rev, t) == t
    decreases |fs| - k
  {
    if k < |fs| { LaidNothing(fs, k + 1, rev, t); }
  }
}
