/** The framed layout of a row whose values are already encoded. */
module RowFraming {
  import opened Bytes
  import opened NameOrder

  /** "housegate-row-mvp-v0" */
  const DOMAIN: seq<byte> :=
    [104, 111, 117, 115, 101, 103, 97, 116, 101, 45, 114, 111, 119, 45, 109, 118, 112, 45, 118, 48]

  datatype TypedBytes = TypedBytes(typeName: seq<byte>, bytes: seq<byte>)

  type Item = Named<TypedBytes>

  /** A length in `w` bytes; a longer one is cut. */
  function Length(n: nat, w: nat): (b: seq<byte>)
    ensures |b| == w
  {
    LittleEndian(n, w)
  }

  /** A field behind its length. */
  function FramedBy(b: seq<byte>, w: nat): (r: seq<byte>) {
    Length(|b|, w) + b
  }

  /** Lengths are 32 bits. */
  const WIDTH: nat := 4

  function Framed(b: seq<byte>): (r: seq<byte>) {
    FramedBy(b, WIDTH)
  }

  function ItemBytes(f: Item): (b: seq<byte>) {
    Framed(f.name) + Framed(f.payload.typeName) + Framed(f.payload.bytes)
  }

  function Parts(fs: seq<Item>): (ps: seq<seq<byte>>)
    ensures |ps| == |fs|
    ensures forall i :: 0 <= i < |fs| ==> ps[i] == ItemBytes(fs[i])
  {
    seq(|fs|, i requires 0 <= i < |fs| => ItemBytes(fs[i]))
  }

  function ItemsBytes(fs: seq<Item>): (b: seq<byte>) {
    Concat(Parts(fs))
  }

  function Header(table: seq<byte>, columns: nat): (b: seq<byte>) {
    Framed(DOMAIN) + Framed(table) + Length(columns, WIDTH)
  }

  function RowBytes(table: seq<byte>, fs: seq<Item>): (b: seq<byte>) {
    Header(table, |fs|) + ItemsBytes(fs)
  }

  lemma LengthInjective(n: nat, m: nat, w: nat)
    requires n < Pow256(w) && m < Pow256(w) && Length(n, w) == Length(m, w)
    ensures n == m
  {
    LittleEndianInjective(n, m, w);
  }

  lemma FramedBySplits(a: seq<byte>, b: seq<byte>, s: seq<byte>, t: seq<byte>, w: nat)
    requires |a| < Pow256(w) && |b| < Pow256(w) && FramedBy(a, w) + s == FramedBy(b, w) + t
    ensures a == b && s == t
  {
    var la, lb := Length(|a|, w), Length(|b|, w);
    Assoc3(la, a, s);
    Assoc3(lb, b, t);
    SplitEqual(la, lb, a + s, b + t);
    LengthInjective(|a|, |b|, w);
    SplitEqual(a, b, s, t);
  }

  lemma FramedSplits(a: seq<byte>, b: seq<byte>, s: seq<byte>, t: seq<byte>)
    requires |a| < TWO_32 && |b| < TWO_32 && Framed(a) + s == Framed(b) + t
    ensures a == b && s == t
  {
    Pow256Values();
    FramedBySplits(a, b, s, t, WIDTH);
  }

  /** Every part fits its 32-bit length prefix. */
  predicate Framable(f: Item) {
    |f.name| < TWO_32 && |f.payload.typeName| < TWO_32 && |f.payload.bytes| < TWO_32
  }

  lemma ItemSplits(f: Item, g: Item, s: seq<byte>, t: seq<byte>)
    requires Framable(f) && Framable(g) && ItemBytes(f) + s == ItemBytes(g) + t
    ensures f == g && s == t
  {
    var f1, g1 := Framed(f.payload.bytes) + s, Framed(g.payload.bytes) + t;
    var f2, g2 := Framed(f.payload.typeName) + f1, Framed(g.payload.typeName) + g1;
    Assoc4(Framed(f.name), Framed(f.payload.typeName), Framed(f.payload.bytes), s);
    Assoc4(Framed(g.name), Framed(g.payload.typeName), Framed(g.payload.bytes), t);
    FramedSplits(f.name, g.name, f2, g2);
    FramedSplits(f.payload.typeName, g.payload.typeName, f1, g1);
    FramedSplits(f.payload.bytes, g.payload.bytes, s, t);
  }

  lemma HeadOfItems(fs: seq<Item>)
    requires fs != []
    ensures ItemsBytes(fs) == ItemBytes(fs[0]) + ItemsBytes(fs[1..])
  {
    ConcatHead(Parts(fs));
    assert Parts(fs)[1..] == Parts(fs[1..]);
  }

  lemma {:induction false} ItemsSplit(fs: seq<Item>, gs: seq<Item>)
    requires |fs| == |gs| && (forall f :: f in fs ==> Framable(f)) && (forall g :: g in gs ==> Framable(g))
    requires ItemsBytes(fs) == ItemsBytes(gs)
    ensures fs == gs
  {
    if fs != [] {
      HeadOfItems(fs);
      HeadOfItems(gs);
      ItemSplits(fs[0], gs[0], ItemsBytes(fs[1..]), ItemsBytes(gs[1..]));
      ItemsSplit(fs[1..], gs[1..]);
      assert fs == [fs[0]] + fs[1..] && gs == [gs[0]] + gs[1..];
    }
  }

  lemma HeaderSplits(table: seq<byte>, n: nat, table': seq<byte>, n': nat, s: seq<byte>, t: seq<byte>)
    requires |table| < TWO_32 && |table'| < TWO_32 && n < TWO_32 && n' < TWO_32
    requires Header(table, n) + s == Header(table', n') + t
    ensures table == table' && n == n' && s == t
  {
    Pow256Values();
    SplitAfter(Framed(DOMAIN), Framed(table), Length(n, WIDTH), s, Framed(table'), Length(n', WIDTH), t);
    FramedSplits(table, table', Length(n, WIDTH) + s, Length(n', WIDTH) + t);
    SplitEqual(Length(n, WIDTH), Length(n', WIDTH), s, t);
    LengthInjective(n, n', WIDTH);
  }

  lemma SplitAfter(d: seq<byte>, a: seq<byte>, b: seq<byte>, s: seq<byte>,
                   a': seq<byte>, b': seq<byte>, t: seq<byte>)
    requires ((d + a) + b) + s == ((d + a') + b') + t
    ensures a + (b + s) == a' + (b' + t)
  {
    Assoc4(d, a, b, s);
    Assoc4(d, a', b', t);
    SplitEqual(d, d, a + (b + s), a' + (b' + t));
  }

  /** The framed layout is injective: equal bytes, equal table and equal items in order. */
  lemma RowBytesInjective(table: seq<byte>, fs: seq<Item>, table': seq<byte>, gs: seq<Item>)
    requires (forall f :: f in fs ==> Framable(f)) && (forall g :: g in gs ==> Framable(g))
    requires |table| < TWO_32 && |table'| < TWO_32 && |fs| < TWO_32 && |gs| < TWO_32
    requires RowBytes(table, fs) == RowBytes(table', gs)
    ensures table == table' && fs == gs
  {
    HeaderSplits(table, |fs|, table', |gs|, ItemsBytes(fs), ItemsBytes(gs));
    ItemsSplit(fs, gs);
  }
}
