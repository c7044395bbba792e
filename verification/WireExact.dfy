/** When the bytes a primitive reader took are those its writer would have written. Each lemma
    says of a field that was read at the head of `b`: writing it again and then `z` gives `b` if
    and only if the field was written in its one canonical form and `z` is what follows it.
 */
module WireExact {
  import opened Bytes
  import opened Wire

  /** The varint at the head of `b` does not end in a zero byte that adds nothing. */
  predicate Shortest(b: seq<byte>) {
    b != [] && (b[0] < 128 || (|b| > 1 && b[1] != 0 && Shortest(b[1..])))
  }

  lemma PutPositive(v: nat)
    requires v > 0
    ensures PutUVarInt(v)[0] != 0
  {
  }

  lemma DigitsOf(low: nat, high: nat)
    requires low < 128
    ensures var v := low + 128 * high;
            PutUVarInt(v) == if high == 0 then [low] else [low + 128] + PutUVarInt(high)
  {
    var v := low + 128 * high;
    assert v % 128 == low && v / 128 == high;
  }

  lemma ConsEqual(x: byte, a: seq<byte>, t: seq<byte>, b: seq<byte>)
    requires b != []
    ensures b == ([x] + a) + t <==> b[0] == x && b[1..] == a + t
  {
    Assoc3([x], a, t);
    assert b == [b[0]] + b[1..];
    assert ([x] + (a + t))[1..] == a + t;
  }

  /** A varint that reads as zero starts with the byte zero exactly when it is that byte. */
  lemma ZeroVarInt(b: seq<byte>, i: nat)
    requires i <= 9 && UVarIntFrom(b, i).Got?
    ensures b[0] == 0 ==> UVarIntFrom(b, i).value == 0
    ensures Shortest(b) && UVarIntFrom(b, i).value == 0 ==> b[0] == 0
    decreases |b|
  {
    if b[0] >= 128 { ZeroVarInt(b[1..], i + 1); }
  }

  lemma {:induction false} ShortestFromIff(b: seq<byte>, i: nat)
    requires i <= 9 && UVarIntFrom(b, i).Got?
    ensures var v := UVarIntFrom(b, i); b == PutUVarInt(v.value) + v.rest <==> Shortest(b)
    decreases |b|
  {
    var v := UVarIntFrom(b, i);
    if b[0] < 128 {
      assert b == [b[0]] + b[1..];
    } else {
      var tail := UVarIntFrom(b[1..], i + 1);
      ShortestFromIff(b[1..], i + 1);
      ZeroVarInt(b[1..], i + 1);
      DigitsOf(b[0] - 128, tail.value);
      if tail.value > 0 {
        PutPositive(tail.value);
        ConsEqual(b[0], PutUVarInt(tail.value), tail.rest, b);
      }
    }
  }

  lemma UVarIntExact(b: seq<byte>, z: seq<byte>)
    requires UVarInt(b).Got?
    ensures b == PutUVarInt(UVarInt(b).value) + z <==> Shortest(b) && z == UVarInt(b).rest
  {
    ShortestFromIff(b, 0);
    UVarIntPut(UVarInt(b).value, z);
  }

  lemma IntExact(b: seq<byte>, z: seq<byte>)
    requires Int(b).Got?
    ensures b == PutInt(Int(b).value) + z <==> Shortest(b) && z == Int(b).rest
  {
    UVarIntExact(b, z);
  }

  lemma StrExact(b: seq<byte>, z: seq<byte>)
    requires Str(b).Got?
    ensures b == PutStr(Str(b).value) + z <==> Shortest(b) && z == Str(b).rest
  {
    var n, s := Int(b), Str(b);
    UVarIntExact(b, s.value + z);
    Assoc3(PutUVarInt(|s.value|), s.value, z);
    assert n.rest == s.value + s.rest;
    if s.value + z == s.value + s.rest { SplitEqual(s.value, s.value, z, s.rest); }
  }

  lemma ByteExact(b: seq<byte>, z: seq<byte>)
    requires Byte(b).Got?
    ensures b == [Byte(b).value] + z <==> z == Byte(b).rest
  {
    assert b == [b[0]] + b[1..];
    assert ([b[0]] + z)[1..] == z;
  }

  lemma BoolExact(b: seq<byte>, z: seq<byte>)
    requires Bool(b).Got?
    ensures b == PutBool(Bool(b).value) + z <==> z == Bool(b).rest
  {
    ByteExact(b, z);
  }

  lemma RawExact(b: seq<byte>, n: nat, z: seq<byte>)
    requires Raw(b, n).Got?
    ensures b == Raw(b, n).value + z <==> z == Raw(b, n).rest
  {
    assert b == b[..n] + b[n..];
    if b == b[..n] + z { SplitEqual(b[..n], b[..n], z, b[n..]); }
  }

  lemma UInt64Exact(b: seq<byte>, z: seq<byte>)
    requires UInt64(b).Got?
    ensures b == PutUInt64(UInt64(b).value) + z <==> z == UInt64(b).rest
  {
    RawExact(b, WORD, z);
    LittleEndianOfDecoded(b[..WORD]);
  }

  lemma Int64Exact(b: seq<byte>, z: seq<byte>)
    requires Int64(b).Got?
    ensures b == PutInt64(Int64(b).value) + z <==> z == Int64(b).rest
  {
    UInt64Exact(b, z);
  }

  /** A varint is written where a one-byte value, or fewer bits, were read. */
  lemma NarrowExact(b: seq<byte>, kept: nat, z: seq<byte>)
    requires UVarInt(b).Got? && kept < TWO_64
    ensures b == PutUVarInt(kept) + z <==> Shortest(b) && UVarInt(b).value == kept && z == UVarInt(b).rest
  {
    UVarIntPut(kept, z);
    if UVarInt(b).value == kept { UVarIntExact(b, z); }
  }

  lemma NothingExact(b: seq<byte>, z: seq<byte>)
    ensures b == [] + z <==> z == b
  {
    assert [] + z == z;
  }

  lemma StrIfExact(on: bool, b: seq<byte>, z: seq<byte>)
    requires StrIf(on, b).Got?
    ensures b == PutStrIf(on, StrIf(on, b).value) + z <==> (on ==> Shortest(b)) && z == StrIf(on, b).rest
  {
    if on { StrExact(b, z); } else { NothingExact(b, z); }
  }

  lemma IntIfExact(on: bool, b: seq<byte>, z: seq<byte>)
    requires IntIf(on, b).Got?
    ensures b == PutIntIf(on, IntIf(on, b).value) + z <==> (on ==> Shortest(b)) && z == IntIf(on, b).rest
  {
    if on { IntExact(b, z); } else { NothingExact(b, z); }
  }

  lemma Int64IfExact(on: bool, b: seq<byte>, z: seq<byte>)
    requires Int64If(on, b).Got?
    ensures b == PutInt64If(on, Int64If(on, b).value) + z <==> z == Int64If(on, b).rest
  {
    if on { Int64Exact(b, z); } else { NothingExact(b, z); }
  }

  lemma UVarIntIfExact(on: bool, b: seq<byte>, z: seq<byte>)
    requires UVarIntIf(on, b).Got?
    ensures b == PutUVarIntIf(on, UVarIntIf(on, b).value) + z <==> (on ==> Shortest(b)) && z == UVarIntIf(on, b).rest
  {
    if on { UVarIntExact(b, z); } else { NothingExact(b, z); }
  }
}
