/** A reader of framed rows, as anyone who checks a row hash would write it: the partner of
    `RowFraming`.
 */
module RowReading {
  import opened Bytes
  import opened Wire
  import opened NameOrder
  import opened RowFraming

  /** A 32-bit little-endian length. */
  function LengthFrom(b: seq<byte>): (r: Parsed<nat>)
    ensures r.Got? ==> |r.rest| < |b|
  {
    if |b| < 4 then Bad else Got(FromLittleEndian(b[..4]), b[4..])
  }

  function FrameFrom(b: seq<byte>): (r: Parsed<seq<byte>>)
    ensures r.Got? ==> |r.rest| < |b|
  {
    var (n, b1) :- LengthFrom(b);
    if n > |b1| then Bad else Got(b1[..n], b1[n..])
  }

  /** Name, type and value. */
  function ItemFrom(b: seq<byte>): (r: Parsed<Item>)
    ensures r.Got? ==> |r.rest| < |b|
  {
    var (name, b1) :- FrameFrom(b);
    var (typeName, b2) :- FrameFrom(b1);
    var (bytes, b3) :- FrameFrom(b2);
    Got(Named(name, TypedBytes(typeName, bytes)), b3)
  }

  function ItemsFrom(b: seq<byte>, n: nat): (r: Parsed<seq<Item>>)
    decreases n
  {
    if n == 0 then Got([], b)
    else
      var (item, b1) :- ItemFrom(b);
      var (others, b2) :- ItemsFrom(b1, n - 1);
      Got([item] + others, b2)
  }

  datatype Row = Row(table: seq<byte>, items: seq<Item>)

  /** The domain, the table, the number of columns and the columns. */
  function RowFrom(b: seq<byte>): (r: Parsed<Row>) {
    var (domain, b1) :- FrameFrom(b);
    if domain != Ascii("housegate-row-mvp-v0") then Bad
    else
      var (table, b2) :- FrameFrom(b1);
      var (n, b3) :- LengthFrom(b2);
      var (items, b4) :- ItemsFrom(b3, n);
      Got(Row(table, items), b4)
  }

  lemma LengthRead(n: nat, t: seq<byte>)
    requires n < TWO_32
    ensures LengthFrom(Length(n, WIDTH) + t) == Got(n, t)
  {
    Pow256Values();
    LittleEndianRoundTrip(n, 4);
    var b := LittleEndian(n, 4);
    assert (b + t)[..4] == b && (b + t)[4..] == t;
  }

  lemma FrameRead(x: seq<byte>, t: seq<byte>)
    requires |x| < TWO_32
    ensures FrameFrom(Framed(x) + t) == Got(x, t)
  {
    Assoc3(Length(|x|, WIDTH), x, t);
    LengthRead(|x|, x + t);
    assert (x + t)[..|x|] == x && (x + t)[|x|..] == t;
  }

  lemma ItemRead(f: Item, t: seq<byte>)
    requires Framable(f)
    ensures ItemFrom(ItemBytes(f) + t) == Got(f, t)
  {
    var name, typeName, bytes := Framed(f.name), Framed(f.payload.typeName), Framed(f.payload.bytes);
    Assoc4(name, typeName, bytes, t);
    FrameRead(f.name, typeName + (bytes + t));
    FrameRead(f.payload.typeName, bytes + t);
    FrameRead(f.payload.bytes, t);
  }

  lemma {:induction false} ItemsRead(fs: seq<Item>, t: seq<byte>)
    requires forall i :: 0 <= i < |fs| ==> Framable(fs[i])
    ensures ItemsFrom(ItemsBytes(fs) + t, |fs|) == Got(fs, t)
  {
    if fs == [] {
      assert [] + t == t;
    } else {
      var rest := ItemsBytes(fs[1..]) + t;
      HeadOfItems(fs);
      Assoc3(ItemBytes(fs[0]), ItemsBytes(fs[1..]), t);
      ItemsRead(fs[1..], t);
      NextItem(fs[0], fs[1..], rest, t);
      assert fs == [fs[0]] + fs[1..];
    }
  }

  lemma NextItem(f: Item, fs: seq<Item>, rest: seq<byte>, t: seq<byte>)
    requires Framable(f) && ItemsFrom(rest, |fs|) == Got(fs, t)
    ensures ItemsFrom(ItemBytes(f) + rest, 1 + |fs|) == Got([f] + fs, t)
  {
    ItemRead(f, rest);
  }

  /** A row comes back from its bytes, under the domain "housegate-row-mvp-v0". */
  lemma RowRead(table: seq<byte>, fs: seq<Item>, t: seq<byte>)
    requires |table| < TWO_32 && |fs| < TWO_32 && forall i :: 0 <= i < |fs| ==> Framable(fs[i])
    ensures RowFrom(RowBytes(table, fs) + t) == Got(Row(table, fs), t)
  {
    DomainByName();
    var domain, name, n := Framed(DOMAIN), Framed(table), Length(|fs|, WIDTH);
    var rest := ItemsBytes(fs) + t;
    Assoc3(Header(table, |fs|), ItemsBytes(fs), t);
    Assoc4(domain, name, n, rest);
    FrameRead(DOMAIN, name + (n + rest));
    FrameRead(table, n + rest);
    LengthRead(|fs|, rest);
    ItemsRead(fs, t);
  }

  lemma DomainByName()
    ensures DOMAIN == Ascii("housegate-row-mvp-v0")
  {
  }
}
