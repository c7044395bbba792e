/** A stream consumed field by field, each read proved to follow `Wire`. */
module WireReader {
  import opened Bytes
  import opened Options
  import opened Wire

  /** The outcome of one read step against its specification. */
  ghost predicate Follows<T(!new)>(p: Parsed<T>, r: Option<T>, rest: seq<byte>) {
    if p.Got? then r == Some(p.value) && rest == p.rest else r.None?
  }

  /** Items read before those of `p`. */
  function Prepend<T>(items: seq<T>, p: Parsed<seq<T>>): (r: Parsed<seq<T>>) {
    if p.Bad? then Bad else Got(items + p.value, p.rest)
  }

  lemma PrependNothing<T>(p: Parsed<seq<T>>)
    ensures Prepend([], p) == p
  {
    if p.Got? { assert [] + p.value == p.value; }
  }

  lemma PrependEnd<T>(items: seq<T>, rest: seq<byte>)
    ensures Prepend(items, Got([], rest)) == Got(items, rest)
  {
    assert items + [] == items;
  }

  lemma PrependOne<T>(items: seq<T>, item: T, p: Parsed<seq<T>>)
    ensures Prepend(items, Prepend([item], p)) == Prepend(items + [item], p)
  {
    if p.Got? { assert items + ([item] + p.value) == (items + [item]) + p.value; }
  }

  class Reader {
    var rest: seq<byte>

    constructor (stream: seq<byte>)
      ensures rest == stream
    {
      rest := stream;
    }

    method ReadStr() returns (r: Option<seq<byte>>)
      modifies this
      ensures Follows(Str(old(rest)), r, rest)
    {
      var p := Str(rest);
      if p.Bad? { return None; }
      rest := p.rest;
      r := Some(p.value);
    }

    method ReadStrIf(on: bool) returns (r: Option<seq<byte>>)
      modifies this
      ensures Follows(StrIf(on, old(rest)), r, rest)
    {
      if on { r := ReadStr(); } else { r := Some([]); }
    }

    method ReadInt() returns (r: Option<i64>)
      modifies this
      ensures Follows(Int(old(rest)), r, rest)
    {
      var p := Int(rest);
      if p.Bad? { return None; }
      rest := p.rest;
      r := Some(p.value);
    }

    method ReadIntIf(on: bool) returns (r: Option<i64>)
      modifies this
      ensures Follows(IntIf(on, old(rest)), r, rest)
    {
      if on { r := ReadInt(); } else { r := Some(0); }
    }

    method ReadInt64If(on: bool) returns (r: Option<i64>)
      modifies this
      ensures Follows(Int64If(on, old(rest)), r, rest)
    {
      if !on { return Some(0); }
      var p := Int64(rest);
      if p.Bad? { return None; }
      rest := p.rest;
      r := Some(p.value);
    }

    method ReadUInt64() returns (r: Option<u64>)
      modifies this
      ensures Follows(UInt64(old(rest)), r, rest)
    {
      var p := UInt64(rest);
      if p.Bad? { return None; }
      rest := p.rest;
      r := Some(p.value);
    }

    method ReadUVarIntIf(on: bool) returns (r: Option<u64>)
      modifies this
      ensures Follows(UVarIntIf(on, old(rest)), r, rest)
    {
      if !on { return Some(0); }
      var p := UVarInt(rest);
      if p.Bad? { return None; }
      rest := p.rest;
      r := Some(p.value);
    }

    method ReadSmall() returns (r: Option<byte>)
      modifies this
      ensures Follows(Small(old(rest)), r, rest)
    {
      var p := Small(rest);
      if p.Bad? { return None; }
      rest := p.rest;
      r := Some(p.value);
    }

    method ReadByte() returns (r: Option<byte>)
      modifies this
      ensures Follows(Byte(old(rest)), r, rest)
    {
      if rest == [] { return None; }
      r := Some(rest[0]);
      rest := rest[1..];
    }

    method ReadBool() returns (r: Option<bool>)
      modifies this
      ensures Follows(Bool(old(rest)), r, rest)
    {
      if rest == [] || rest[0] > 1 { return None; }
      r := Some(rest[0] == 1);
      rest := rest[1..];
    }

    method ReadRaw(n: nat) returns (r: Option<seq<byte>>)
      modifies this
      ensures Follows(Raw(old(rest), n), r, rest)
    {
      if n > |rest| { return None; }
      r := Some(rest[..n]);
      rest := rest[n..];
    }
  }
}
