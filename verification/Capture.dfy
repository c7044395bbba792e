/** The codec's packet reader over an unchunked stream: every byte it takes, one at a time or in
    bulk, is captured, and a captured packet can be bounded. A connection error is the end of
    the stream.
 */
module Capture {
  import opened Bytes
  import opened Options
  import opened Wire
  import opened PacketBodies

  /** Room for `n` more bytes. */
  predicate Fits(room: Option<nat>, n: nat) { room.Some? ==> n <= room.value }

  /** A reader that may take `room` bytes of `b` did what `p` says, or ran out of room. */
  ghost predicate Took<T(!new)>(p: Parsed<T>, b: seq<byte>, room: Option<nat>, r: Option<T>, rest: seq<byte>)
    requires p.Got? ==> |p.rest| <= |b|
  {
    && (r.Some? <==> p.Got? && Fits(room, |b| - |p.rest|))
    && (r.Some? ==> r.value == p.value && rest == p.rest)
  }

  class CaptureReader {
    var rest: seq<byte>
    var captured: seq<byte>
    var limit: nat
    var limited: bool

    ghost predicate Valid()
      reads this
    {
      limited ==> |captured| <= limit
    }

    function Room(): (r: Option<nat>)
      requires Valid()
      reads this
    {
      if limited then Some(limit - |captured|) else None
    }

    /** The bytes of the stream that may still be captured. */
    function Reach(): (b: seq<byte>)
      requires Valid()
      reads this
    {
      if limited && limit - |captured| < |rest| then rest[..limit - |captured|] else rest
    }

    /** The stream since the last packet boundary. */
    ghost function Stream(): (b: seq<byte>)
      reads this
    {
      captured + rest
    }

    constructor (stream: seq<byte>)
      ensures Valid() && rest == stream && captured == [] && !limited
    {
      rest, captured, limit, limited := stream, [], 0, false;
    }

    method Reset()
      modifies this
      ensures Valid() && captured == [] && !limited && rest == old(rest)
    {
      captured, limit, limited := [], 0, false;
    }

    method SetLimit(max: u64) returns (ok: bool)
      modifies this`limit, this`limited
      ensures limited && limit == (if max >= TWO_63 then TWO_63 - 1 else max)
      ensures ok == (|captured| <= limit) && (ok ==> Valid())
    {
      limited, limit := true, if max >= TWO_63 then TWO_63 - 1 else max;
      ok := |captured| <= limit;
    }

    method WouldExceed(n: nat) returns (exceeds: bool)
      requires Valid()
      ensures exceeds == !Fits(Room(), n)
    {
      exceeds := limited && n > limit - |captured|;
    }

    /** One byte, captured. */
    method ReadByte() returns (r: Option<byte>)
      requires Valid()
      modifies this`rest, this`captured
      ensures Valid() && Stream() == old(Stream())
      ensures Took(Byte(old(rest)), old(rest), old(Room()), r, rest)
    {
      var full := WouldExceed(1);
      if full || rest == [] { return None; }
      r := Some(rest[0]);
      assert captured + rest == (captured + [rest[0]]) + rest[1..];
      captured, rest := captured + [rest[0]], rest[1..];
    }

    /** Bulk bytes, captured only when all are there: a short read is consumed and lost. */
    method ReadFullRaw(n: nat) returns (r: Option<()>)
      requires Valid()
      modifies this`rest, this`captured
      ensures Valid()
      ensures Took(Skip(old(rest), n), old(rest), old(Room()), r, rest)
      ensures r.Some? ==> Stream() == old(Stream())
      ensures r.None? ==> captured == old(captured) && (rest == old(rest) || (n > |old(rest)| && rest == []))
    {
      var full := WouldExceed(n);
      if full { return None; }
      if n > |rest| {
        rest := [];
        return None;
      }
      r := Some(());
      assert captured + rest == (captured + rest[..n]) + rest[n..];
      captured, rest := captured + rest[..n], rest[n..];
    }

    /** Bulk bytes for the decompressor, captured as far as they come. */
    method ReadThrough(n: nat) returns (r: Option<()>)
      requires Valid()
      modifies this`rest, this`captured
      ensures Valid() && Stream() == old(Stream()) && old(captured) <= captured
      ensures r.Some? <==> n <= |old(Reach())|
      ensures r.Some? ==> captured == old(captured) + old(Reach())[..n] && Reach() == old(Reach())[n..]
    {
      var full := WouldExceed(n);
      if full { return None; }
      var m := if n > |rest| then |rest| else n;
      r := if n > |rest| then None else Some(());
      assert captured + rest == (captured + rest[..m]) + rest[m..];
      captured, rest := captured + rest[..m], rest[m..];
    }

    /** `n` bytes, one at a time. */
    method ReadEach(n: nat) returns (r: Option<()>)
      requires Valid()
      modifies this`rest, this`captured
      ensures Valid() && Stream() == old(Stream())
      ensures Took(Skip(old(rest), n), old(rest), old(Room()), r, rest)
    {
      for i := 0 to n
        invariant Valid() && Stream() == old(Stream())
        invariant i <= |old(rest)| && rest == old(rest)[i..] && Fits(old(Room()), i)
      {
        var b := ReadByte();
        if b.None? { return None; }
      }
      r := Some(());
    }

    method ReadUVarIntFrom(i: nat) returns (r: Option<nat>)
      requires Valid() && i <= 9
      modifies this`rest, this`captured
      ensures Valid() && Stream() == old(Stream())
      ensures Took(UVarIntFrom(old(rest), i), old(rest), old(Room()), r, rest)
      decreases 9 - i
    {
      var b := ReadByte();
      if b.None? { return None; }
      if b.value < 128 { return if i == 9 && b.value > 1 then None else Some(b.value); }
      if i == 9 { return None; }
      var v := ReadUVarIntFrom(i + 1);
      r := if v.None? then None else Some(b.value - 128 + 128 * v.value);
    }

    method ReadUVarInt() returns (r: Option<u64>)
      requires Valid()
      modifies this`rest, this`captured
      ensures Valid() && Stream() == old(Stream())
      ensures Took(UVarInt(old(rest)), old(rest), old(Room()), r, rest)
    {
      CapIs64Bits();
      r := ReadUVarIntFrom(0);
    }

    method ReadStr() returns (r: Option<()>)
      requires Valid()
      modifies this`rest, this`captured
      ensures Valid() && Stream() == old(Stream())
      ensures Took(SkipStr(old(rest)), old(rest), old(Room()), r, rest)
    {
      var v := ReadUVarInt();
      if v.None? || v.value >= TWO_63 { return None; }
      r := ReadEach(v.value);
    }

    method ReadBool() returns (r: Option<bool>)
      requires Valid()
      modifies this`rest, this`captured
      ensures Valid() && Stream() == old(Stream())
      ensures Took(Bool(old(rest)), old(rest), old(Room()), r, rest)
    {
      var b := ReadByte();
      if b.None? || b.value > 1 { return None; }
      r := Some(b.value == 1);
    }
  }

  function SkipStr(b: seq<byte>): (r: Parsed<()>)
    ensures r.Got? ==> |r.rest| < |b|
    ensures r.Got? <==> Str(b).Got?
    ensures r.Got? ==> r.rest == Str(b).rest
  {
    var (_, rest) :- Str(b);
    Got((), rest)
  }
}
