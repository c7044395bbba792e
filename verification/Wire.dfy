/** The primitive fields of the ClickHouse native protocol: base-128 varints, length-prefixed
    strings, fixed-width integers and flags, as inverse pairs of writers and readers.
 */
module Wire {
  import opened Bytes

  /** What a reader got and the bytes it left, or a decode error. */
  datatype Parsed<+T> = Got(value: T, rest: seq<byte>) | Bad
  {
    predicate IsFailure() { Bad? }
    function PropagateFailure<U>(): Parsed<U> requires Bad? { Bad }
    function Extract(): (T, seq<byte>) requires Got? { (value, rest) }
  }

  /** A string short enough for Go. */
  predicate Short(s: seq<byte>) { |s| < TWO_63 }

  // ---------------------------------------------------------------------------
  // Varints

  function PutUVarInt(v: nat): (b: seq<byte>)
    ensures |b| >= 1
  {
    if v < 128 then [v] else [v % 128 + 128] + PutUVarInt(v / 128)
  }

  function Pow128(i: nat): (p: nat)
    ensures p >= 1
  {
    if i == 0 then 1 else 128 * Pow128(i - 1)
  }

  /** Byte `i` has the seven bits that stand for 128 to the `i`, and a high bit if it is not the
      last. */
  lemma {:induction false} PutUVarIntAt(v: nat, i: nat)
    requires i < |PutUVarInt(v)|
    ensures PutUVarInt(v)[i] == v / Pow128(i) % 128 + if i + 1 < |PutUVarInt(v)| then 128 else 0
  {
    if i > 0 {
      PutUVarIntAt(v / 128, i - 1);
      DivTwice(v, 128, Pow128(i - 1), Pow128(i));
    }
  }

  /** There are as many bytes as the value has digits. */
  lemma {:induction false} PutUVarIntLength(v: nat)
    ensures v < Pow128(|PutUVarInt(v)|)
    ensures |PutUVarInt(v)| > 1 ==> v >= Pow128(|PutUVarInt(v)| - 1)
  {
    if v >= 128 {
      PutUVarIntLength(v / 128);
      assert v < 128 * (v / 128 + 1);
    }
  }

  /** The values byte `i` and its successors of a 64-bit varint can add up to. */
  function Cap(i: nat): (c: nat)
    requires i <= 9
    ensures c >= 1
    decreases 9 - i
  {
    if i == 9 then 2 else 128 * Cap(i + 1)
  }

  lemma CapIs64Bits()
    ensures Cap(0) == TWO_64
  {
    assert Cap(8) == 128 * Cap(9);
    assert Cap(6) == 128 * Cap(7);
    assert Cap(4) == 128 * Cap(5);
    assert Cap(2) == 128 * Cap(3);
  }

  /** The ten-byte reader: byte `i` is next, and the tenth may add only one bit. */
  function UVarIntFrom(b: seq<byte>, i: nat): (r: Parsed<nat>)
    requires i <= 9
    ensures r.Got? ==> r.value < Cap(i) && |r.rest| < |b|
    decreases |b|
  {
    if b == [] then Bad
    else if b[0] < 128 then
      if i == 9 && b[0] > 1 then Bad else CapAtLeast(i); Got(b[0], b[1..])
    else if i == 9 then Bad
    else
      var (v, rest) :- UVarIntFrom(b[1..], i + 1);
      Got(b[0] - 128 + 128 * v, rest)
  }

  lemma CapAtLeast(i: nat)
    requires i <= 9
    ensures i < 9 ==> Cap(i) >= 128
  {
  }

  function UVarInt(b: seq<byte>): (r: Parsed<u64>)
    ensures r.Got? ==> |r.rest| < |b|
  {
    CapIs64Bits();
    var (v, rest) :- UVarIntFrom(b, 0);
    Got(v, rest)
  }

  lemma {:induction false} UVarIntFromPut(v: nat, t: seq<byte>, i: nat)
    requires i <= 9 && v < Cap(i)
    ensures UVarIntFrom(PutUVarInt(v) + t, i) == Got(v, t)
    decreases 9 - i
  {
    var b := PutUVarInt(v) + t;
    if v < 128 {
      assert b[1..] == t;
    } else {
      UVarIntFromPut(v / 128, t, i + 1);
      assert b[1..] == PutUVarInt(v / 128) + t;
    }
  }

  lemma UVarIntPut(v: u64, t: seq<byte>)
    ensures UVarInt(PutUVarInt(v) + t) == Got(v, t)
  {
    CapIs64Bits();
    UVarIntFromPut(v, t, 0);
  }

  /** Go's `int` travels as the varint of its two's complement. */
  function PutInt(x: i64): (b: seq<byte>) { PutUVarInt(AsUnsigned(x)) }

  function Int(b: seq<byte>): (r: Parsed<i64>)
    ensures r.Got? ==> |r.rest| < |b|
  {
    var (v, rest) :- UVarInt(b);
    Got(AsSigned(v), rest)
  }

  lemma IntPut(x: i64, t: seq<byte>)
    ensures Int(PutInt(x) + t) == Got(x, t)
  {
    UVarIntPut(AsUnsigned(x), t);
  }

  // ---------------------------------------------------------------------------
  // Strings

  function PutStr(s: seq<byte>): (b: seq<byte>) { PutUVarInt(|s|) + s }

  function Str(b: seq<byte>): (r: Parsed<seq<byte>>)
    ensures r.Got? ==> |r.rest| < |b| && Short(r.value)
  {
    var (n, rest) :- Int(b);
    if n < 0 || n > |rest| then Bad else Got(rest[..n], rest[n..])
  }

  lemma StrPut(s: seq<byte>, t: seq<byte>)
    requires Short(s)
    ensures Str(PutStr(s) + t) == Got(s, t)
  {
    Assoc3(PutUVarInt(|s|), s, t);
    IntPut(|s|, s + t);
    assert (s + t)[..|s|] == s && (s + t)[|s|..] == t;
  }

  // ---------------------------------------------------------------------------
  // Fixed width

  function Byte(b: seq<byte>): (r: Parsed<byte>)
    ensures r.Got? ==> |r.rest| < |b|
  {
    if b == [] then Bad else Got(b[0], b[1..])
  }

  function PutBool(x: bool): (b: seq<byte>) { [if x then 1 else 0] }

  function Bool(b: seq<byte>): (r: Parsed<bool>)
    ensures r.Got? ==> |r.rest| < |b|
  {
    if b == [] || b[0] > 1 then Bad else Got(b[0] == 1, b[1..])
  }

  function Raw(b: seq<byte>, n: nat): (r: Parsed<seq<byte>>)
    ensures r.Got? ==> |r.value| == n && |r.rest| <= |b|
  {
    if n > |b| then Bad else Got(b[..n], b[n..])
  }

  lemma RawPut(s: seq<byte>, t: seq<byte>)
    ensures Raw(s + t, |s|) == Got(s, t)
  {
    assert (s + t)[..|s|] == s && (s + t)[|s|..] == t;
  }

  const WORD: nat := 8

  function PutUInt64(x: u64): (b: seq<byte>) { LittleEndian(x, WORD) }

  function UInt64(b: seq<byte>): (r: Parsed<u64>)
    ensures r.Got? ==> |r.rest| < |b|
  {
    var (raw, rest) :- Raw(b, WORD);
    Pow256Values();
    Got(FromLittleEndian(raw), rest)
  }

  lemma UInt64Put(x: u64, t: seq<byte>)
    ensures UInt64(PutUInt64(x) + t) == Got(x, t)
  {
    Pow256Values();
    RawPut(PutUInt64(x), t);
    LittleEndianRoundTrip(x, WORD);
  }

  function PutInt64(x: i64): (b: seq<byte>) { PutUInt64(AsUnsigned(x)) }

  function Int64(b: seq<byte>): (r: Parsed<i64>)
    ensures r.Got? ==> |r.rest| < |b|
  {
    var (v, rest) :- UInt64(b);
    Got(AsSigned(v), rest)
  }

  lemma Int64Put(x: i64, t: seq<byte>)
    ensures Int64(PutInt64(x) + t) == Got(x, t)
  {
    UInt64Put(AsUnsigned(x), t);
  }

  // ---------------------------------------------------------------------------
  // Fields a revision may leave out

  function PutStrIf(on: bool, s: seq<byte>): (b: seq<byte>) { if on then PutStr(s) else [] }

  function StrIf(on: bool, b: seq<byte>): (r: Parsed<seq<byte>>)
    ensures r.Got? ==> |r.rest| <= |b| && Short(r.value) && (!on ==> r.value == [])
  {
    if on then Str(b) else Got([], b)
  }

  lemma StrIfPut(on: bool, s: seq<byte>, t: seq<byte>)
    requires Short(s) && (!on ==> s == [])
    ensures StrIf(on, PutStrIf(on, s) + t) == Got(s, t)
  {
    if on { StrPut(s, t); } else { assert [] + t == t; }
  }

  function PutIntIf(on: bool, x: i64): (b: seq<byte>) { if on then PutInt(x) else [] }

  function IntIf(on: bool, b: seq<byte>): (r: Parsed<i64>)
    ensures r.Got? ==> |r.rest| <= |b| && (!on ==> r.value == 0)
  {
    if on then Int(b) else Got(0, b)
  }

  lemma IntIfPut(on: bool, x: i64, t: seq<byte>)
    requires !on ==> x == 0
    ensures IntIf(on, PutIntIf(on, x) + t) == Got(x, t)
  {
    if on { IntPut(x, t); } else { assert [] + t == t; }
  }

  function PutInt64If(on: bool, x: i64): (b: seq<byte>) { if on then PutInt64(x) else [] }

  function Int64If(on: bool, b: seq<byte>): (r: Parsed<i64>)
    ensures r.Got? ==> |r.rest| <= |b| && (!on ==> r.value == 0)
  {
    if on then Int64(b) else Got(0, b)
  }

  lemma Int64IfPut(on: bool, x: i64, t: seq<byte>)
    requires !on ==> x == 0
    ensures Int64If(on, PutInt64If(on, x) + t) == Got(x, t)
  {
    if on { Int64Put(x, t); } else { assert [] + t == t; }
  }

  function PutUVarIntIf(on: bool, x: u64): (b: seq<byte>) { if on then PutUVarInt(x) else [] }

  function UVarIntIf(on: bool, b: seq<byte>): (r: Parsed<u64>)
    ensures r.Got? ==> |r.rest| <= |b| && (!on ==> r.value == 0)
  {
    if on then UVarInt(b) else Got(0, b)
  }

  lemma UVarIntIfPut(on: bool, x: u64, t: seq<byte>)
    requires !on ==> x == 0
    ensures UVarIntIf(on, PutUVarIntIf(on, x) + t) == Got(x, t)
  {
    if on { UVarIntPut(x, t); } else { assert [] + t == t; }
  }

  /** A one-byte value that travels as a varint; a larger varint is cut on reading. */
  function PutSmall(x: byte): (b: seq<byte>) { PutUVarInt(x) }

  function Small(b: seq<byte>): (r: Parsed<byte>)
    ensures r.Got? ==> |r.rest| < |b|
  {
    var (v, rest) :- UVarInt(b);
    Got(v % 256, rest)
  }

  lemma SmallPut(x: byte, t: seq<byte>)
    ensures Small(PutSmall(x) + t) == Got(x, t)
  {
    UVarIntPut(x, t);
  }

  lemma BytePut(x: byte, t: seq<byte>)
    ensures Byte([x] + t) == Got(x, t)
  {
    assert ([x] + t)[1..] == t;
  }

  lemma BoolPut(x: bool, t: seq<byte>)
    ensures Bool(PutBool(x) + t) == Got(x, t)
  {
    assert (PutBool(x) + t)[1..] == t;
  }
}
