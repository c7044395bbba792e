/** One column value reduced to its canonical form and encoded with a kind tag. */
module CanonicalValue {
  import opened Bytes
  import opened Options

  /** "Date", "DateTime" and "DateTime64" */
  const DATE: seq<byte> := [68, 97, 116, 101]
  const DATE_TIME: seq<byte> := DATE + [84, 105, 109, 101]
  const DATE_TIME_64: seq<byte> := DATE_TIME + [54, 52]

  /** A Go value: integers by width and value, floats by their IEEE-754 bits, times by Unix
      seconds and nanoseconds. `Unsupported` is any other Go type. */
  datatype Value =
    | Int(width: nat, value: int)
    | Uint(width: nat, value: int)
    | Float32(bits: nat)
    | Float64(bits: nat)
    | Str(bytes: seq<byte>)
    | Raw(bytes: seq<byte>)
    | Bool(truth: bool)
    | Time(unix: int, nanos: nat)
    | Unsupported

  predicate IsWidth(w: nat) { w == 1 || w == 2 || w == 4 || w == 8 }

  function Half(w: nat): (h: int) { Pow256(w) / 2 }

  /** The values the Go types can hold. */
  predicate InRange(v: Value) {
    match v
    case Int(w, x) => IsWidth(w) && -Half(w) <= x < Half(w)
    case Uint(w, x) => IsWidth(w) && 0 <= x < Pow256(w)
    case Float32(b) => b < TWO_32
    case Float64(b) => b < TWO_64
    case Time(u, n) => -TWO_63 <= u < TWO_63 && n < 1_000_000_000
    case _ => true
  }

  // ---------------------------------------------------------------------------
  // Values

  const KIND_INT: byte := 1
  const KIND_UINT: byte := 2
  const KIND_FLOAT: byte := 3
  const KIND_STRING: byte := 4
  const KIND_BOOL: byte := 5
  const KIND_TIME: byte := 6

  predicate IsNaN32(b: nat) { (b / 0x80_0000) % 256 == 255 && b % 0x80_0000 != 0 }
  predicate IsNaN64(b: nat) { (b / 0x10_0000_0000_0000) % 2048 == 2047 && b % 0x10_0000_0000_0000 != 0 }
  predicate IsZero32(b: nat) { b % 0x8000_0000 == 0 }
  predicate IsZero64(b: nat) { b % TWO_63 == 0 }

  function CanonicalFloat32(b: nat): (r: nat) {
    if IsNaN32(b) then 0x7fc0_0000 else if IsZero32(b) then 0 else b
  }

  function CanonicalFloat64(b: nat): (r: nat) {
    if IsNaN64(b) then 0x7ff8_0000_0000_0000 else if IsZero64(b) then 0 else b
  }

  /** Go's integer division truncates toward zero. */
  function TruncDiv(x: int, d: int): (q: int)
    requires d > 0
  {
    if x >= 0 then x / d else -((-x) / d)
  }

  datatype Resolution = Nanoseconds | Seconds | Days

  function ResolutionOf(typeName: seq<byte>): (r: Resolution) {
    if DATE_TIME_64 <= typeName then Nanoseconds
    else if DATE <= typeName && !(DATE_TIME <= typeName) then Days
    else Seconds
  }

  /** The instant a time column stores, before it is cut to 64 bits. */
  function Instant(r: Resolution, unix: int, nanos: nat): (x: int) {
    match r
    case Nanoseconds => unix * 1_000_000_000 + nanos
    case Seconds => unix
    case Days => TruncDiv(unix, 86400)
  }

  /** `int64` to `uint64`. */
  function Wrap64(x: int): (r: nat) { x % TWO_64 }

  datatype Canonical =
    | Number(kind: byte, width: nat, bits: nat)
    | Text(bytes: seq<byte>)
    | Truth(b: bool)

  function Canon(typeName: seq<byte>, v: Value): (c: Option<Canonical>) {
    match v
    case Int(w, x) => Some(Number(KIND_INT, w, if x < 0 then (x + Pow256(w)) % Pow256(w) else x))
    case Uint(w, x) => Some(Number(KIND_UINT, w, if x < 0 then 0 else x))
    case Float32(b) => Some(Number(KIND_FLOAT, 4, CanonicalFloat32(b)))
    case Float64(b) => Some(Number(KIND_FLOAT, 8, CanonicalFloat64(b)))
    case Str(b) => Some(Text(b))
    case Raw(b) => Some(Text(b))
    case Bool(t) => Some(Truth(t))
    case Time(u, n) => Some(Number(KIND_TIME, 8, Wrap64(Instant(ResolutionOf(typeName), u, n))))
    case Unsupported => None
  }

  function EncodeCanonical(c: Canonical): (b: seq<byte>)
    ensures |b| >= 1
  {
    match c
    case Number(kind, width, bits) => [kind] + LittleEndian(bits, width)
    case Text(t) => [KIND_STRING] + t
    case Truth(t) => [KIND_BOOL, if t then 1 else 0]
  }

  function EncodeValue(typeName: seq<byte>, v: Value): (b: Option<seq<byte>>) {
    match Canon(typeName, v)
    case None => None
    case Some(c) => Some(EncodeCanonical(c))
  }

  predicate WellFormedCanonical(c: Canonical) {
    c.Number? ==> c.kind in {KIND_INT, KIND_UINT, KIND_FLOAT, KIND_TIME} && IsWidth(c.width) && c.bits < Pow256(c.width)
  }

  lemma CanonIsWellFormed(typeName: seq<byte>, v: Value)
    requires InRange(v) && v != Unsupported
    ensures WellFormedCanonical(Canon(typeName, v).value)
  {
    Pow256Values();
  }

  lemma CanonicalInjective(c: Canonical, d: Canonical)
    requires WellFormedCanonical(c) && WellFormedCanonical(d)
    requires EncodeCanonical(c) == EncodeCanonical(d)
    ensures c == d
  {
    var b := EncodeCanonical(c);
    assert b[0] == EncodeCanonical(d)[0];
    match c
    case Number(kind, width, bits) =>
      assert b[1..] == LittleEndian(bits, width);
      if d.Number? {
        assert b[1..] == LittleEndian(d.bits, d.width);
        LittleEndianInjective(bits, d.bits, width);
      }
    case Text(t) =>
      assert b[1..] == t;
      if d.Text? { assert b[1..] == d.bytes; }
    case Truth(t) =>
      assert b[1] == EncodeCanonical(d)[1];
  }

  /** Two values of one column mean the same: equal numbers of one width, any two NaNs, any
      two zeros, equal text whether held as string or bytes, times equal at the column's
      resolution (modulo 2^64 nanoseconds for DateTime64). */
  predicate SameMeaning(typeName: seq<byte>, v: Value, w: Value) {
    match (v, w)
    case (Int(a, x), Int(b, y)) => a == b && x == y
    case (Uint(a, x), Uint(b, y)) => a == b && x == y
    case (Float32(x), Float32(y)) => x == y || (IsNaN32(x) && IsNaN32(y)) || (IsZero32(x) && IsZero32(y))
    case (Float64(x), Float64(y)) => x == y || (IsNaN64(x) && IsNaN64(y)) || (IsZero64(x) && IsZero64(y))
    case (Str(x), Str(y)) => x == y
    case (Str(x), Raw(y)) => x == y
    case (Raw(x), Str(y)) => x == y
    case (Raw(x), Raw(y)) => x == y
    case (Bool(x), Bool(y)) => x == y
    case (Time(u, n), Time(u', n')) => SameTime(typeName, u, n, u', n')
    case _ => false
  }

  /** Two times mean the same to a column: DateTime64 tells nanoseconds apart modulo 2^64, any
      other Date type but DateTime days, and every other type seconds. */
  predicate SameTime(typeName: seq<byte>, u: int, n: nat, u': int, n': nat) {
    if DATE_TIME_64 <= typeName then ((u * 1_000_000_000 + n) - (u' * 1_000_000_000 + n')) % TWO_64 == 0
    else if DATE <= typeName && !(DATE_TIME <= typeName) then TruncDiv(u, 86400) == TruncDiv(u', 86400)
    else u == u'
  }

  lemma TypeNames()
    ensures DATE == Ascii("Date") && DATE_TIME == Ascii("DateTime") && DATE_TIME_64 == Ascii("DateTime64")
  {
  }

  lemma CanonicalFloats(x: nat, y: nat)
    ensures x < TWO_32 && y < TWO_32 ==>
              (CanonicalFloat32(x) == CanonicalFloat32(y) <==> SameMeaning([], Float32(x), Float32(y)))
    ensures x < TWO_64 && y < TWO_64 ==>
              (CanonicalFloat64(x) == CanonicalFloat64(y) <==> SameMeaning([], Float64(x), Float64(y)))
  {
    assert IsNaN32(0x7fc0_0000) && !IsZero32(0x7fc0_0000);
    assert IsNaN64(0x7ff8_0000_0000_0000) && !IsZero64(0x7ff8_0000_0000_0000);
    assert IsZero32(0) && !IsNaN32(0) && IsZero64(0) && !IsNaN64(0);
  }

  lemma WrapModulo(x: int, y: int)
    ensures Wrap64(x) == Wrap64(y) <==> (x - y) % TWO_64 == 0
  {
  }

  lemma WrapExact(x: int, y: int)
    requires -TWO_63 <= x < TWO_63 && -TWO_63 <= y < TWO_63
    ensures Wrap64(x) == Wrap64(y) <==> x == y
  {
  }

  lemma InstantFits(r: Resolution, unix: int, nanos: nat)
    requires r != Nanoseconds && -TWO_63 <= unix < TWO_63
    ensures -TWO_63 <= Instant(r, unix, nanos) < TWO_63
  {
  }

  lemma CanonicalTimes(typeName: seq<byte>, u: int, n: nat, u': int, n': nat)
    requires InRange(Time(u, n)) && InRange(Time(u', n'))
    ensures Canon(typeName, Time(u, n)) == Canon(typeName, Time(u', n')) <==>
            SameMeaning(typeName, Time(u, n), Time(u', n'))
  {
    var r := ResolutionOf(typeName);
    var x, y := Instant(r, u, n), Instant(r, u', n');
    if r == Nanoseconds {
      WrapModulo(x, y);
    } else {
      InstantFits(r, u, n);
      InstantFits(r, u', n');
      WrapExact(x, y);
    }
  }

  lemma CanonicalInts(w: nat, x: int, y: int)
    requires InRange(Int(w, x)) && InRange(Int(w, y))
    ensures Canon([], Int(w, x)) == Canon([], Int(w, y)) <==> x == y
  {
    Pow256Values();
  }

  /** The kind tag of a value's encoding. */
  function KindOf(v: Value): (k: byte) {
    match v
    case Int(_, _) => KIND_INT
    case Uint(_, _) => KIND_UINT
    case Float32(_) => KIND_FLOAT
    case Float64(_) => KIND_FLOAT
    case Str(_) => KIND_STRING
    case Raw(_) => KIND_STRING
    case Bool(_) => KIND_BOOL
    case Time(_, _) => KIND_TIME
    case Unsupported => 0
  }

  lemma KindsSeparate(typeName: seq<byte>, v: Value, w: Value)
    requires v != Unsupported && w != Unsupported && KindOf(v) != KindOf(w)
    ensures Canon(typeName, v) != Canon(typeName, w) && !SameMeaning(typeName, v, w)
  {
  }

  lemma CanonIffSameMeaning(typeName: seq<byte>, v: Value, w: Value)
    requires InRange(v) && InRange(w) && v != Unsupported && w != Unsupported
    ensures Canon(typeName, v) == Canon(typeName, w) <==> SameMeaning(typeName, v, w)
  {
    if KindOf(v) != KindOf(w) {
      KindsSeparate(typeName, v, w);
    } else {
      match v
      case Int(width, x) => if width == w.width { CanonicalInts(width, x, w.value); }
      case Uint(_, _) =>
      case Float32(x) => if w.Float32? { CanonicalFloats(x, w.bits); }
      case Float64(x) => if w.Float64? { CanonicalFloats(x, w.bits); }
      case Str(_) =>
      case Raw(_) =>
      case Bool(_) =>
      case Time(u, n) => CanonicalTimes(typeName, u, n, w.unix, w.nanos);
    }
  }

  /** The encoding of a value keeps exactly its meaning. */
  lemma EncodingKeepsMeaning(typeName: seq<byte>, v: Value, w: Value)
    requires InRange(v) && InRange(w) && v != Unsupported && w != Unsupported
    ensures EncodeValue(typeName, v) == EncodeValue(typeName, w) <==> SameMeaning(typeName, v, w)
  {
    CanonIsWellFormed(typeName, v);
    CanonIsWellFormed(typeName, w);
    CanonIffSameMeaning(typeName, v, w);
    if EncodeValue(typeName, v) == EncodeValue(typeName, w) {
      CanonicalInjective(Canon(typeName, v).value, Canon(typeName, w).value);
    }
  }

  /** A Date column stores the calendar day exactly from the epoch on and at midnights; any
      other earlier instant is stored as the following day. */
  lemma DateDaysAreCalendarDays(unix: int)
    ensures TruncDiv(unix, 86400) == unix / 86400 <==> unix >= 0 || unix % 86400 == 0
    ensures unix < 0 && unix % 86400 != 0 ==> TruncDiv(unix, 86400) == unix / 86400 + 1
  {
  }

  // ---------------------------------------------------------------------------
  // The bytes of a value

  /** A time is stored behind the tag 6 as the eight bytes of one number. */
  lemma TimeStored(typeName: seq<byte>, u: int, n: nat)
    ensures DATE_TIME_64 <= typeName ==>
              EncodeValue(typeName, Time(u, n)) == Some([6] + LittleEndian((u * 1_000_000_000 + n) % TWO_64, 8))
    ensures DATE <= typeName && !(DATE_TIME <= typeName) ==>
              EncodeValue(typeName, Time(u, n)) == Some([6] + LittleEndian(TruncDiv(u, 86400) % TWO_64, 8))
    ensures !(DATE_TIME_64 <= typeName) && (DATE <= typeName ==> DATE_TIME <= typeName) ==>
              EncodeValue(typeName, Time(u, n)) == Some([6] + LittleEndian(u % TWO_64, 8))
  {
    assert DATE <= DATE_TIME_64 && DATE_TIME <= DATE_TIME_64;
  }

  /** The number a division toward zero gives. */
  lemma TruncDivIs(x: int, d: int, q: int)
    requires d > 0
    ensures TruncDiv(x, d) == q <==> if x >= 0 then q * d <= x < q * d + d else q * d - d < x <= q * d
  {
    var y := if x >= 0 then x else -x;
    assert y == d * (y / d) + y % d;
    if x >= 0 { QuotientAt(y, d, y / d, y % d, q); } else { QuotientAt(y, d, y / d, y % d, -q); }
  }

  lemma QuotientAt(y: nat, d: int, q: int, r: int, p: int)
    requires 0 <= r < d && y == d * q + r
    ensures p == q <==> p * d <= y < p * d + d
  {
    if p < q {
      assert d * (q - p) >= d by { TimesAtLeast(d, q - p); }
    } else if p > q {
      assert d * (p - q) >= d by { TimesAtLeast(d, p - q); }
    }
  }

  /** An integer is stored behind 1 or 2 in its width, a negative one in two's complement. */
  lemma IntegerStored(typeName: seq<byte>, v: Value)
    requires InRange(v) && (v.Int? || v.Uint?)
    ensures EncodeValue(typeName, v)
            == Some([if v.Int? then 1 else 2] +
                    LittleEndian(if v.value >= 0 then v.value else v.value + Pow256(v.width), v.width))
  {
    Pow256Values();
  }

  /** Text is stored as it is behind 4, whether a string or bytes, and a truth value in one byte
      behind 5. */
  lemma TextStored(typeName: seq<byte>, v: Value)
    ensures v.Str? || v.Raw? ==> EncodeValue(typeName, v) == Some([4] + v.bytes)
    ensures v.Bool? ==> EncodeValue(typeName, v) == Some([5, if v.truth then 1 else 0])
    ensures v.Unsupported? <==> EncodeValue(typeName, v).None?
  {
  }

  /** A float is stored behind 3 as its bits, except that all NaNs are one pattern and all zeros
      another. */
  lemma FloatStored(typeName: seq<byte>, v: Value)
    requires InRange(v)
    ensures v.Float32? ==>
              EncodeValue(typeName, v)
              == Some([3] + LittleEndian(if v.bits % 0x8000_0000 > 0x7f80_0000 then 0x7fc0_0000
                                         else if v.bits % 0x8000_0000 == 0 then 0 else v.bits, 4))
    ensures v.Float64? ==>
              EncodeValue(typeName, v)
              == Some([3] + LittleEndian(if v.bits % TWO_63 > 0x7ff0_0000_0000_0000 then 0x7ff8_0000_0000_0000
                                         else if v.bits % TWO_63 == 0 then 0 else v.bits, 8))
  {
    if v.Float32? { NaNs32(v.bits); }
    if v.Float64? { NaNs64(v.bits); }
  }

  lemma NaNs32(b: nat)
    requires b < TWO_32
    ensures IsNaN32(b) <==> b % 0x8000_0000 > 0x7f80_0000
  {
  }

  lemma NaNs64(b: nat)
    requires b < TWO_64
    ensures IsNaN64(b) <==> b % TWO_63 > 0x7ff0_0000_0000_0000
  {
  }
}
