/** The canonical bytes of one row: domain, table and the name-sorted columns, every field
    length-framed and every value reduced to one canonical form.
 */
module CanonicalRow {
  import opened Bytes
  import opened Options
  import opened NameOrder
  import opened RowFraming
  import opened CanonicalValue

  /** Declared type and value of a column; the column name is the entry's name. */
  datatype TypedValue = TypedValue(typeName: seq<byte>, value: Value)

  type Field = Named<TypedValue>

  datatype Column = Column(name: seq<byte>, typeName: seq<byte>)

  function Zip(cols: seq<Column>, values: seq<Value>): (fs: seq<Field>)
    requires |cols| == |values|
    ensures |fs| == |cols|
    ensures forall i :: 0 <= i < |cols| ==> fs[i] == Named(cols[i].name, TypedValue(cols[i].typeName, values[i]))
  {
    seq(|cols|, i requires 0 <= i < |cols| => Named(cols[i].name, TypedValue(cols[i].typeName, values[i])))
  }

  predicate Supported(f: Field) { f.payload.value != Unsupported }

  function ValueBytes(v: TypedValue): (b: seq<byte>) {
    match EncodeValue(v.typeName, v.value) case Some(b) => b case None => []
  }

  function ItemOf(f: Field): (i: Item) {
    Named(f.name, TypedBytes(f.payload.typeName, ValueBytes(f.payload)))
  }

  function ItemsOf(fs: seq<Field>): (items: seq<Item>)
    ensures |items| == |fs|
    ensures forall i :: 0 <= i < |fs| ==> items[i] == ItemOf(fs[i])
  {
    seq(|fs|, i requires 0 <= i < |fs| => ItemOf(fs[i]))
  }

  predicate AllSupported(fs: seq<Field>) { forall i :: 0 <= i < |fs| ==> Supported(fs[i]) }

  ghost predicate SortedRow(fs: seq<Field>, cols: seq<Column>, values: seq<Value>)
    requires |cols| == |values|
  {
    NameSorted(fs) && multiset(fs) == multiset(Zip(cols, values))
  }

  /** `out` is an encoding of the row: its columns in some name-sorted order. */
  ghost predicate Encodes(table: seq<byte>, cols: seq<Column>, values: seq<Value>, out: seq<byte>) {
    && |cols| == |values| && Unsupported !in values
    && exists fs :: SortedRow(fs, cols, values) && out == RowBytes(table, ItemsOf(fs))
  }

  lemma SortedRowMembers(fs: seq<Field>, cols: seq<Column>, values: seq<Value>)
    requires |cols| == |values| && SortedRow(fs, cols, values)
    ensures |fs| == |cols|
    ensures AllSupported(fs) <==> Unsupported !in values
  {
    var zipped := Zip(cols, values);
    SameMembers(fs, zipped);
    if Unsupported in values {
      var i :| 0 <= i < |values| && values[i] == Unsupported;
      assert zipped[i] in fs && !Supported(zipped[i]);
    } else {
      forall i | 0 <= i < |fs| ensures Supported(fs[i]) {
        assert fs[i] in zipped;
      }
    }
  }

  lemma EncodeValueFails(typeName: seq<byte>, v: Value)
    ensures EncodeValue(typeName, v).None? <==> v == Unsupported
  {
  }

  method EncodeRow(table: seq<byte>, cols: seq<Column>, values: seq<Value>) returns (r: Option<seq<byte>>)
    ensures r.None? <==> |cols| != |values| || Unsupported in values
    ensures r.Some? ==> Encodes(table, cols, values, r.value)
  {
    if |cols| != |values| { return None; }
    var fields := SortByName(Zip(cols, values));
    SortedRowMembers(fields, cols, values);
    r := EncodeSorted(table, fields);
    assert r.Some? ==> SortedRow(fields, cols, values);
  }

  /** One column: its name, its type and its canonical value, each framed. */
  function EncodeColumn(f: Field): (r: Option<seq<byte>>) {
    match EncodeValue(f.payload.typeName, f.payload.value)
    case None => None
    case Some(v) => Some(Framed(f.name) + Framed(f.payload.typeName) + Framed(v))
  }

  lemma ColumnIsItem(f: Field)
    ensures EncodeColumn(f) == if Supported(f) then Some(ItemBytes(ItemOf(f))) else None
  {
    EncodeValueFails(f.payload.typeName, f.payload.value);
  }

  /** `parts` are what `column` makes of the fields. */
  ghost predicate MakesAll(column: Field -> Option<seq<byte>>, fields: seq<Field>, parts: seq<seq<byte>>) {
    |parts| == |fields| && forall i :: 0 <= i < |fields| ==> column(fields[i]) == Some(parts[i])
  }

  /** Every column after `header`; the first that cannot be encoded fails. */
  method EncodeColumns(header: seq<byte>, fields: seq<Field>, column: Field -> Option<seq<byte>>)
    returns (r: Option<seq<byte>>, ghost parts: seq<seq<byte>>)
    ensures r.None? ==> exists i :: 0 <= i < |fields| && column(fields[i]).None?
    ensures r.Some? ==> MakesAll(column, fields, parts) && r.value == header + Concat(parts)
  {
    var out := header;
    parts := [];
    assert header + [] == header;
    for i := 0 to |fields|
      invariant MakesAll(column, fields[..i], parts) && out == header + Concat(parts)
    {
      var part := column(fields[i]);
      if part.None? { return None, parts; }
      Assoc3(header, Concat(parts), part.value);
      assert (parts + [part.value])[..i] == parts;
      out, parts := out + part.value, parts + [part.value];
    }
    assert fields[..|fields|] == fields;
    r := Some(out);
  }

  lemma ItemParts(fields: seq<Field>, parts: seq<seq<byte>>)
    requires MakesAll(EncodeColumn, fields, parts)
    ensures AllSupported(fields) && parts == Parts(ItemsOf(fields))
  {
    forall i | 0 <= i < |fields| ensures Supported(fields[i]) && parts[i] == ItemBytes(ItemOf(fields[i])) {
      ColumnIsItem(fields[i]);
    }
  }

  /** Header first, then every column of the sorted row. */
  method EncodeSorted(table: seq<byte>, fields: seq<Field>) returns (r: Option<seq<byte>>)
    ensures r.Some? <==> AllSupported(fields)
    ensures r.Some? ==> r.value == RowBytes(table, ItemsOf(fields))
  {
    ghost var parts;
    r, parts := EncodeColumns(Header(table, |fields|), fields, EncodeColumn);
    if r.Some? {
      ItemParts(fields, parts);
    } else {
      var i :| 0 <= i < |fields| && EncodeColumn(fields[i]).None?;
      ColumnIsItem(fields[i]);
    }
  }

  /** Permuting the columns together with their values does not change the encoding. */
  lemma ColumnOrderDoesNotMatter(table: seq<byte>, cols: seq<Column>, values: seq<Value>,
                                 cols': seq<Column>, values': seq<Value>, out: seq<byte>, out': seq<byte>)
    requires Encodes(table, cols, values, out) && Encodes(table, cols', values', out')
    requires multiset(Zip(cols, values)) == multiset(Zip(cols', values'))
    requires DistinctNames(Zip(cols, values))
    ensures out == out'
  {
    var fs :| SortedRow(fs, cols, values) && out == RowBytes(table, ItemsOf(fs));
    var fs' :| SortedRow(fs', cols', values') && out' == RowBytes(table, ItemsOf(fs'));
    ReorderingKeepsDistinct(fs, Zip(cols, values));
    SortedOrderIsUnique(fs, fs');
  }

  /** Rows Go can hold whose fields all fit their length prefixes. */
  ghost predicate Bounded(table: seq<byte>, fs: seq<Field>) {
    && |table| < TWO_32 && |fs| < TWO_32
    && forall i :: 0 <= i < |fs| ==> Framable(ItemOf(fs[i])) && InRange(fs[i].payload.value) && Supported(fs[i])
  }

  /** Equal name and type, and values of one meaning. */
  predicate SameField(f: Field, g: Field) {
    && f.name == g.name && f.payload.typeName == g.payload.typeName
    && SameMeaning(f.payload.typeName, f.payload.value, g.payload.value)
  }

  lemma SameItemSameField(f: Field, g: Field)
    requires InRange(f.payload.value) && InRange(g.payload.value) && Supported(f) && Supported(g)
    ensures ItemOf(f) == ItemOf(g) <==> SameField(f, g)
  {
    EncodeValueFails(f.payload.typeName, f.payload.value);
    EncodeValueFails(g.payload.typeName, g.payload.value);
    if f.payload.typeName == g.payload.typeName {
      EncodingKeepsMeaning(f.payload.typeName, f.payload.value, g.payload.value);
    }
  }

  /** Field by field. */
  predicate SameFields(fs: seq<Field>, gs: seq<Field>) {
    |fs| == |gs| && forall i :: 0 <= i < |fs| ==> SameField(fs[i], gs[i])
  }

  lemma SameItemsSameFields(fs: seq<Field>, gs: seq<Field>)
    requires |fs| == |gs|
    requires forall i :: 0 <= i < |fs| ==> InRange(fs[i].payload.value) && Supported(fs[i])
    requires forall i :: 0 <= i < |gs| ==> InRange(gs[i].payload.value) && Supported(gs[i])
    ensures ItemsOf(fs) == ItemsOf(gs) <==> SameFields(fs, gs)
  {
    var xs, ys := ItemsOf(fs), ItemsOf(gs);
    forall i | 0 <= i < |fs| ensures xs[i] == ys[i] <==> SameField(fs[i], gs[i]) {
      SameItemSameField(fs[i], gs[i]);
    }
  }

  /** Two name-sorted rows have the same bytes exactly when they are the same table and, in
      name order, the same columns and types with values of the same meaning. */
  lemma SameBytesSameRow(table: seq<byte>, fs: seq<Field>, table': seq<byte>, gs: seq<Field>)
    requires Bounded(table, fs) && Bounded(table', gs)
    ensures RowBytes(table, ItemsOf(fs)) == RowBytes(table', ItemsOf(gs)) <==> table == table' && SameFields(fs, gs)
  {
    if RowBytes(table, ItemsOf(fs)) == RowBytes(table', ItemsOf(gs)) {
      RowBytesInjective(table, ItemsOf(fs), table', ItemsOf(gs));
    }
    if |fs| == |gs| { SameItemsSameFields(fs, gs); }
  }

  // ---------------------------------------------------------------------------
  // Two encodings of rows in any column order

  predicate HasCounterpart(f: Field, gs: seq<Field>) {
    exists j :: 0 <= j < |gs| && SameField(f, gs[j])
  }

  /** Every column of `fs` has its like in `gs`. */
  predicate HasCounterparts(fs: seq<Field>, gs: seq<Field>) {
    forall i :: 0 <= i < |fs| ==> HasCounterpart(fs[i], gs)
  }

  /** The same columns and types with values of the same meaning, in any order. */
  predicate SameRow(fs: seq<Field>, gs: seq<Field>) {
    HasCounterparts(fs, gs) && HasCounterparts(gs, fs)
  }

  ghost predicate Encodable(fs: seq<Field>) {
    forall i :: 0 <= i < |fs| ==> InRange(fs[i].payload.value) && Supported(fs[i])
  }

  /** Every item of `xs` is one of `ys`. */
  ghost predicate Covered(xs: seq<Item>, ys: seq<Item>) { forall x :: x in xs ==> x in ys }

  lemma CounterpartsAreItems(fs: seq<Field>, gs: seq<Field>)
    requires Encodable(fs) && Encodable(gs)
    ensures HasCounterparts(fs, gs) <==> Covered(ItemsOf(fs), ItemsOf(gs))
  {
    var xs, ys := ItemsOf(fs), ItemsOf(gs);
    if HasCounterparts(fs, gs) {
      forall x | x in xs ensures x in ys {
        var i :| 0 <= i < |xs| && xs[i] == x;
        assert HasCounterpart(fs[i], gs);
        var j :| 0 <= j < |gs| && SameField(fs[i], gs[j]);
        SameItemSameField(fs[i], gs[j]);
        assert ys[j] == x;
      }
    }
    if Covered(xs, ys) {
      forall i | 0 <= i < |fs| ensures HasCounterpart(fs[i], gs) {
        assert xs[i] in ys;
        var j :| 0 <= j < |ys| && ys[j] == xs[i];
        SameItemSameField(fs[i], gs[j]);
      }
    }
  }

  lemma ReorderingKeepsItems(fs: seq<Field>, gs: seq<Field>)
    requires multiset(fs) == multiset(gs)
    ensures Covered(ItemsOf(fs), ItemsOf(gs))
  {
    SameMembers(fs, gs);
    forall x | x in ItemsOf(fs) ensures x in ItemsOf(gs) {
      var i :| 0 <= i < |fs| && ItemsOf(fs)[i] == x;
      assert fs[i] in gs;
      var j :| 0 <= j < |gs| && gs[j] == fs[i];
      assert ItemsOf(gs)[j] == x;
    }
  }

  /** A name-sorted row with the items it is made of. */
  ghost predicate Lists(fs: seq<Field>, zipped: seq<Field>) {
    NameSorted(fs) && multiset(fs) == multiset(zipped)
  }

  lemma ListedItems(fs: seq<Field>, zipped: seq<Field>)
    requires Lists(fs, zipped) && DistinctNames(zipped)
    ensures NameSorted(ItemsOf(fs)) && DistinctNames(ItemsOf(fs))
    ensures Covered(ItemsOf(fs), ItemsOf(zipped)) && Covered(ItemsOf(zipped), ItemsOf(fs))
  {
    ReorderingKeepsDistinct(fs, zipped);
    ReorderingKeepsItems(fs, zipped);
    ReorderingKeepsItems(zipped, fs);
  }

  lemma ListsKeepBounds(table: seq<byte>, fs: seq<Field>, zipped: seq<Field>)
    requires Lists(fs, zipped) && Bounded(table, zipped)
    ensures Bounded(table, fs)
  {
    SameMembers(fs, zipped);
    forall i | 0 <= i < |fs|
      ensures Framable(ItemOf(fs[i])) && InRange(fs[i].payload.value) && Supported(fs[i])
    {
      assert fs[i] in zipped;
    }
  }

  lemma SameItemsIff(fs: seq<Field>, zipped: seq<Field>, gs: seq<Field>, zipped': seq<Field>)
    requires Lists(fs, zipped) && Lists(gs, zipped') && DistinctNames(zipped) && DistinctNames(zipped')
    requires Encodable(zipped) && Encodable(zipped')
    ensures ItemsOf(fs) == ItemsOf(gs) <==> SameRow(zipped, zipped')
  {
    ListedItems(fs, zipped);
    ListedItems(gs, zipped');
    CounterpartsAreItems(zipped, zipped');
    CounterpartsAreItems(zipped', zipped);
    if SameRow(zipped, zipped') {
      MembersDetermine(ItemsOf(fs), ItemsOf(gs));
      SortedOrderIsUnique(ItemsOf(fs), ItemsOf(gs));
    }
  }

  /** Two rows, each with its columns in any order, have the same canonical bytes if and only if
      they are the same table and the same columns and types with values of the same meaning. */
  lemma SameEncodingIff(table: seq<byte>, cols: seq<Column>, values: seq<Value>, out: seq<byte>,
                        table': seq<byte>, cols': seq<Column>, values': seq<Value>, out': seq<byte>)
    requires Encodes(table, cols, values, out) && Encodes(table', cols', values', out')
    requires Bounded(table, Zip(cols, values)) && Bounded(table', Zip(cols', values'))
    requires DistinctNames(Zip(cols, values)) && DistinctNames(Zip(cols', values'))
    ensures out == out' <==> table == table' && SameRow(Zip(cols, values), Zip(cols', values'))
  {
    var zipped, zipped' := Zip(cols, values), Zip(cols', values');
    var fs :| SortedRow(fs, cols, values) && out == RowBytes(table, ItemsOf(fs));
    var gs :| SortedRow(gs, cols', values') && out' == RowBytes(table', ItemsOf(gs));
    SameItemsIff(fs, zipped, gs, zipped');
    if out == out' {
      ListsKeepBounds(table, fs, zipped);
      ListsKeepBounds(table', gs, zipped');
      RowBytesInjective(table, ItemsOf(fs), table', ItemsOf(gs));
    }
  }
}
