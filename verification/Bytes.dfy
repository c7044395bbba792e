/** Bytes, little-endian integers and the 64-bit conversions the wire formats share. */
module Bytes {
  type byte = x: int | 0 <= x < 256

  const TWO_32 := 0x1_0000_0000
  const TWO_63 := 0x8000_0000_0000_0000
  const TWO_64 := 0x1_0000_0000_0000_0000

  /** A Go `uint64`, and a Go `int`. */
  type u64 = x: int | 0 <= x < TWO_64
  type i64 = x: int | -TWO_63 <= x < TWO_63

  /** Go's `uint64(x)` and `int(x)`: two's complement, no value is lost. */
  function AsUnsigned(x: i64): (r: u64)
    ensures AsSigned(r) == x
  {
    if x < 0 then x + TWO_64 else x
  }

  function AsSigned(x: u64): (r: i64)
    ensures (if r < 0 then r + TWO_64 else r) == x
  {
    if x < TWO_63 then x else x - TWO_64
  }

  function Pow256(w: nat): (p: nat)
    ensures p >= 1
  {
    if w == 0 then 1 else 256 * Pow256(w - 1)
  }

  /** `w` bytes, least significant first; higher bits are dropped. */
  function LittleEndian(x: nat, w: nat): (b: seq<byte>)
    ensures |b| == w
    decreases x, w
  {
    if w == 0 then [] else [x % 256] + LittleEndian(x / 256, w - 1)
  }

  function FromLittleEndian(b: seq<byte>): (x: nat)
    ensures x < Pow256(|b|)
  {
    if b == [] then 0 else b[0] + 256 * FromLittleEndian(b[1..])
  }

  lemma {:induction false} LittleEndianRoundTrip(x: nat, w: nat)
    requires x < Pow256(w)
    ensures FromLittleEndian(LittleEndian(x, w)) == x
  {
    if w > 0 {
      LittleEndianRoundTrip(x / 256, w - 1);
      assert LittleEndian(x, w)[1..] == LittleEndian(x / 256, w - 1);
    }
  }

  lemma TimesAtLeast(d: nat, k: nat)
    requires k >= 1
    ensures d * k >= d
  {
    assert d * k == d * (k - 1) + d;
  }

  lemma QuotientOnce(d: nat, q: nat, r: nat, q': nat, r': nat)
    requires r < d && r' < d
    requires d * q + r == d * q' + r'
    ensures q <= q'
  {
    if q > q' {
      TimesAtLeast(d, q - q');
      assert false;
    }
  }

  lemma Quotient(x: nat, d: nat) returns (q: nat, r: nat)
    requires d > 0
    ensures q == x / d && r < d && x == d * q + r
  {
    q, r := x / d, x % d;
  }

  lemma TimesBelow(a: nat, b: nat, r: nat)
    requires r < b
    ensures a * r + a <= a * b
  {
    TimesAtLeast(a, b - r);
    assert a * (b - r) == a * b - a * r;
  }

  lemma TwoSteps(a: nat, b: nat, ab: nat, q: nat, r: nat, r2: nat, q2: nat)
    requires ab == a * b && r < a && r2 < b && q == b * q2 + r2
    ensures a * q + r == ab * q2 + (a * r2 + r)
    ensures a * r2 + r < ab
  {
    TimesBelow(a, b, r2);
    assert a * q == a * (b * q2) + a * r2;
    assert a * (b * q2) == a * b * q2;
  }

  /** Dividing by `a` and then by `b` divides by their product. */
  lemma DivTwice(x: nat, a: nat, b: nat, ab: nat)
    requires a > 0 && b > 0 && ab == a * b && ab > 0
    ensures x / a / b == x / ab
  {
    var q, r := Quotient(x, a);
    var q2, r2 := Quotient(q, b);
    var q3, r3 := Quotient(x, ab);
    TwoSteps(a, b, ab, q, r, r2, q2);
    QuotientOnce(ab, q2, a * r2 + r, q3, r3);
    QuotientOnce(ab, q3, r3, q2, a * r2 + r);
  }

  /** Byte `i` is the one that stands for 256 to the `i`. */
  lemma {:induction false} LittleEndianAt(x: nat, w: nat, i: nat)
    requires i < w
    ensures LittleEndian(x, w)[i] == x / Pow256(i) % 256
  {
    if i > 0 {
      LittleEndianAt(x / 256, w - 1, i - 1);
      DivTwice(x, 256, Pow256(i - 1), Pow256(i));
    }
  }

  lemma DivMod256(lo: byte, hi: nat)
    ensures (lo + 256 * hi) % 256 == lo && (lo + 256 * hi) / 256 == hi
  {
  }

  lemma {:induction false} LittleEndianOfDecoded(b: seq<byte>)
    ensures LittleEndian(FromLittleEndian(b), |b|) == b
  {
    if b != [] {
      LittleEndianOfDecoded(b[1..]);
      DivMod256(b[0], FromLittleEndian(b[1..]));
      assert [b[0]] + b[1..] == b;
    }
  }

  lemma LittleEndianInjective(x: nat, y: nat, w: nat)
    requires x < Pow256(w) && y < Pow256(w) && LittleEndian(x, w) == LittleEndian(y, w)
    ensures x == y
  {
    LittleEndianRoundTrip(x, w);
    LittleEndianRoundTrip(y, w);
  }

  lemma Pow256Values()
    ensures Pow256(1) == 256 && Pow256(2) == 0x1_0000 && Pow256(4) == TWO_32 && Pow256(8) == TWO_64
  {
    assert Pow256(3) == 256 * Pow256(2);
    assert Pow256(5) == 256 * Pow256(4);
    assert Pow256(6) == 256 * Pow256(5);
    assert Pow256(7) == 256 * Pow256(6);
  }

  /** Two encodings with the same head length that are equal split at the same place. */
  lemma SplitEqual(a: seq<byte>, b: seq<byte>, s: seq<byte>, t: seq<byte>)
    requires |a| == |b| && a + s == b + t
    ensures a == b && s == t
  {
    assert (a + s)[..|a|] == a && (b + t)[..|b|] == b;
    assert (a + s)[|a|..] == s && (b + t)[|b|..] == t;
  }

  lemma Assoc3(a: seq<byte>, b: seq<byte>, c: seq<byte>)
    ensures (a + b) + c == a + (b + c)
  {
  }

  lemma Assoc4(a: seq<byte>, b: seq<byte>, c: seq<byte>, d: seq<byte>)
    ensures ((a + b) + c) + d == a + (b + (c + d))
  {
  }

  /** The parts one after another. */
  function Concat(parts: seq<seq<byte>>): (b: seq<byte>) {
    if parts == [] then [] else Concat(parts[..|parts| - 1]) + parts[|parts| - 1]
  }

  lemma {:induction false} ConcatHead(parts: seq<seq<byte>>)
    requires parts != []
    ensures Concat(parts) == parts[0] + Concat(parts[1..])
  {
    var front, last := parts[..|parts| - 1], parts[|parts| - 1];
    if front == [] {
      assert parts[1..] == [];
      assert Concat(parts) == [] + parts[0];
      assert parts[0] + [] == parts[0];
    } else {
      ConcatHead(front);
      assert front[1..] == parts[1..][..|parts| - 2];
      Assoc3(parts[0], Concat(front[1..]), last);
    }
  }

  lemma {:induction false} ConcatAppend(parts: seq<seq<byte>>, more: seq<seq<byte>>)
    ensures Concat(parts + more) == Concat(parts) + Concat(more)
  {
    if more == [] {
      assert parts + more == parts;
      assert Concat(parts) + [] == Concat(parts);
    } else {
      var all := parts + more;
      var front := more[..|more| - 1];
      assert all[..|all| - 1] == parts + front;
      ConcatAppend(parts, front);
      Assoc3(Concat(parts), Concat(front), more[|more| - 1]);
    }
  }

  /** The bytes of a text of ASCII characters. */
  function Ascii(s: string): (b: seq<byte>)
    requires forall i :: 0 <= i < |s| ==> s[i] < 128 as char
    ensures |b| == |s|
  {
    seq(|s|, i requires 0 <= i < |s| => s[i] as int)
  }
}
