/** Names, and entries by name, in the byte order in which Go compares strings. */
module NameOrder {
  import opened Bytes

  type Name = seq<byte>

  datatype Named<+T> = Named(name: Name, payload: T)

  predicate Less(a: Name, b: Name) {
    b != [] && (a == [] || a[0] < b[0] || (a[0] == b[0] && Less(a[1..], b[1..])))
  }

  lemma {:induction false} LessTotal(a: seq<byte>, b: seq<byte>)
    ensures a == b || Less(a, b) || Less(b, a)
    ensures !(Less(a, b) && Less(b, a)) && !Less(a, a)
  {
    if a != [] { LessTotal(a[1..], if b == [] then [] else b[1..]); }
    if a != [] && b != [] && a[0] == b[0] && a[1..] == b[1..] {
      assert a == [a[0]] + a[1..] && b == [b[0]] + b[1..];
    }
  }

  lemma {:induction false} LessTransitive(a: seq<byte>, b: seq<byte>, c: seq<byte>)
    requires Less(a, b) && Less(b, c)
    ensures Less(a, c)
  {
    if a != [] && a[0] == b[0] == c[0] { LessTransitive(a[1..], b[1..], c[1..]); }
  }

  /** A name comes before its extensions, and otherwise the first different byte decides. */
  lemma {:induction false} LessIff(a: Name, b: Name)
    ensures Less(a, b) <==> a < b || exists i :: Decides(a, b, i)
  {
    if a != [] && b != [] {
      if a[0] == b[0] {
        LessIff(a[1..], b[1..]);
        assert a == [a[0]] + a[1..] && b == [b[0]] + b[1..];
        assert a < b <==> a[1..] < b[1..];
        if i :| Decides(a[1..], b[1..], i) {
          assert a[..i + 1] == [a[0]] + a[1..][..i] == [b[0]] + b[1..][..i] == b[..i + 1];
          assert Decides(a, b, i + 1);
        }
        if i :| Decides(a, b, i) {
          assert i > 0;
          assert a[1..][..i - 1] == a[..i][1..] == b[..i][1..] == b[1..][..i - 1];
          assert Decides(a[1..], b[1..], i - 1);
        }
      } else {
        assert a[..0] == b[..0];
        if a[0] < b[0] { assert Decides(a, b, 0); }
        forall i | Decides(a, b, i) ensures i == 0 { FirstByte(a, b, i); }
      }
    }
  }

  lemma FirstByte(a: Name, b: Name, i: int)
    requires Decides(a, b, i)
    ensures i > 0 ==> a[0] == b[0]
  {
    if i > 0 { assert a[..i][0] == b[..i][0]; }
  }

  /** The names agree up to `i`, where `a` has the smaller byte. */
  predicate Decides(a: Name, b: Name, i: int) {
    0 <= i < |a| && i < |b| && a[..i] == b[..i] && a[i] < b[i]
  }

  ghost predicate NameSorted<T>(fs: seq<Named<T>>) {
    forall i, j :: 0 <= i < j < |fs| ==> !Less(fs[j].name, fs[i].name)
  }

  ghost predicate DistinctNames<T>(fs: seq<Named<T>>) {
    forall i, j :: 0 <= i < j < |fs| ==> fs[i].name != fs[j].name
  }

  lemma InsertKeepsSorted<T>(fs: seq<Named<T>>, i: nat, f: Named<T>)
    requires NameSorted(fs) && i <= |fs|
    requires forall k :: i <= k < |fs| ==> Less(f.name, fs[k].name)
    requires i > 0 ==> !Less(f.name, fs[i - 1].name)
    ensures NameSorted(fs[..i] + [f] + fs[i..])
  {
    var r := fs[..i] + [f] + fs[i..];
    forall k | 0 <= k < i ensures !Less(f.name, fs[k].name) {
      if Less(f.name, fs[k].name) {
        var last := fs[i - 1].name;
        LessTotal(fs[k].name, last);
        if Less(fs[k].name, last) { LessTransitive(f.name, fs[k].name, last); }
      }
    }
    forall k | i <= k < |fs| ensures !Less(fs[k].name, f.name) {
      LessTotal(f.name, fs[k].name);
    }
    assert forall k :: 0 <= k < |r| ==> r[k] == if k < i then fs[k] else if k == i then f else fs[k - 1];
  }

  lemma InsertAddsOne<T>(fs: seq<Named<T>>, i: nat, f: Named<T>)
    requires i <= |fs|
    ensures multiset(fs[..i] + [f] + fs[i..]) == multiset(fs) + multiset{f}
  {
    assert fs == fs[..i] + fs[i..];
  }

  method InsertByName<T>(fs: seq<Named<T>>, f: Named<T>) returns (r: seq<Named<T>>)
    requires NameSorted(fs)
    ensures NameSorted(r) && multiset(r) == multiset(fs) + multiset{f}
  {
    var i := |fs|;
    while i > 0 && Less(f.name, fs[i - 1].name)
      invariant 0 <= i <= |fs|
      invariant forall k :: i <= k < |fs| ==> Less(f.name, fs[k].name)
    {
      i := i - 1;
    }
    InsertKeepsSorted(fs, i, f);
    InsertAddsOne(fs, i, f);
    r := fs[..i] + [f] + fs[i..];
  }

  /** Sorts by name. Any sorted permutation will do: the row encoding never depends on which. */
  method SortByName<T>(fs: seq<Named<T>>) returns (r: seq<Named<T>>)
    ensures NameSorted(r) && multiset(r) == multiset(fs)
  {
    r := [];
    for n := 0 to |fs|
      invariant NameSorted(r) && multiset(r) == multiset(fs[..n])
    {
      r := InsertByName(r, fs[n]);
      assert fs[..n + 1] == fs[..n] + [fs[n]];
    }
    assert fs[..|fs|] == fs;
  }

  lemma SameMembers<T>(fs: seq<Named<T>>, gs: seq<Named<T>>)
    requires multiset(fs) == multiset(gs)
    ensures |fs| == |gs| && forall f :: f in fs <==> f in gs
  {
    assert |multiset(fs)| == |fs| && |multiset(gs)| == |gs|;
    assert forall f :: f in fs <==> f in multiset(fs);
    assert forall f :: f in gs <==> f in multiset(gs);
  }

  lemma SameTail<T>(fs: seq<Named<T>>, gs: seq<Named<T>>)
    requires fs != [] && gs != [] && fs[0] == gs[0] && multiset(fs) == multiset(gs)
    ensures multiset(fs[1..]) == multiset(gs[1..])
  {
    assert fs == [fs[0]] + fs[1..] && gs == [gs[0]] + gs[1..];
    assert multiset(fs[1..]) == multiset(fs) - multiset{fs[0]};
    assert multiset(gs[1..]) == multiset(gs) - multiset{gs[0]};
  }

  lemma SameHead<T>(fs: seq<Named<T>>, gs: seq<Named<T>>)
    requires NameSorted(fs) && NameSorted(gs) && multiset(fs) == multiset(gs) && DistinctNames(fs) && fs != []
    ensures gs != [] && fs[0] == gs[0]
  {
    SameMembers(fs, gs);
    assert gs[0] in fs && fs[0] in gs;
    var i :| 0 <= i < |fs| && fs[i] == gs[0];
    var j :| 0 <= j < |gs| && gs[j] == fs[0];
    LessTotal(fs[0].name, gs[0].name);
  }

  /** With distinct names there is only one name-sorted order. */
  lemma {:induction false} SortedOrderIsUnique<T>(fs: seq<Named<T>>, gs: seq<Named<T>>)
    requires NameSorted(fs) && NameSorted(gs) && multiset(fs) == multiset(gs) && DistinctNames(fs)
    ensures fs == gs
  {
    SameMembers(fs, gs);
    if fs != [] {
      SameHead(fs, gs);
      SameTail(fs, gs);
      SortedOrderIsUnique(fs[1..], gs[1..]);
      assert fs == [fs[0]] + fs[1..] && gs == [gs[0]] + gs[1..];
    }
  }

  lemma TwiceInMultiset<T>(fs: seq<Named<T>>, i: nat, j: nat)
    requires i < j < |fs| && fs[i] == fs[j]
    ensures multiset(fs)[fs[i]] >= 2
  {
    assert fs == fs[..i] + [fs[i]] + fs[i + 1..j] + [fs[j]] + fs[j + 1..];
  }

  lemma OnceInMultiset<T>(gs: seq<Named<T>>, a: nat)
    requires a < |gs| && DistinctNames(gs)
    ensures multiset(gs)[gs[a]] == 1
  {
    assert gs == gs[..a] + [gs[a]] + gs[a + 1..];
    assert gs[a] !in gs[..a] && gs[a] !in gs[a + 1..];
  }

  lemma ReorderingKeepsDistinct<T>(fs: seq<Named<T>>, gs: seq<Named<T>>)
    requires multiset(fs) == multiset(gs) && DistinctNames(gs)
    ensures DistinctNames(fs)
  {
    SameMembers(fs, gs);
    forall i, j | 0 <= i < j < |fs| ensures fs[i].name != fs[j].name {
      if fs[i].name == fs[j].name {
        assert fs[i] in gs && fs[j] in gs;
        var a :| 0 <= a < |gs| && gs[a] == fs[i];
        var b :| 0 <= b < |gs| && gs[b] == fs[j];
        TwiceInMultiset(fs, i, j);
        OnceInMultiset(gs, a);
      }
    }
  }

  /** With distinct names, the members determine the multiset. */
  lemma MembersDetermine<T>(fs: seq<Named<T>>, gs: seq<Named<T>>)
    requires DistinctNames(fs) && DistinctNames(gs) && forall f :: f in fs <==> f in gs
    ensures multiset(fs) == multiset(gs)
  {
    forall f ensures multiset(fs)[f] == multiset(gs)[f] {
      if f in fs {
        assert f in gs;
        var a :| 0 <= a < |fs| && fs[a] == f;
        var b :| 0 <= b < |gs| && gs[b] == f;
        OnceInMultiset(fs, a);
        OnceInMultiset(gs, b);
      } else {
        assert f !in multiset(fs) && f !in multiset(gs);
      }
    }
  }

  // ---------------------------------------------------------------------------
  // Names alone

  ghost predicate Distinct(s: seq<Name>) {
    forall i, j :: 0 <= i < j < |s| ==> s[i] != s[j]
  }

  ghost predicate Ascending(s: seq<Name>) {
    forall i, j :: 0 <= i < j < |s| ==> Less(s[i], s[j])
  }

  function Tagged(s: seq<Name>): (fs: seq<Named<()>>)
    ensures |fs| == |s| && forall i :: 0 <= i < |s| ==> fs[i] == Named(s[i], ())
  {
    seq(|s|, i requires 0 <= i < |s| => Named(s[i], ()))
  }

  lemma TaggedMember(s: seq<Name>, x: Name)
    ensures Named(x, ()) in Tagged(s) <==> x in s
  {
    if x in s {
      var i :| 0 <= i < |s| && s[i] == x;
      assert Tagged(s)[i] == Named(x, ());
    }
  }

  lemma AscendingIff(s: seq<Name>)
    ensures Ascending(s) <==> NameSorted(Tagged(s)) && DistinctNames(Tagged(s))
  {
    forall i, j | 0 <= i < j < |s| ensures Less(s[i], s[j]) <==> !Less(s[j], s[i]) && s[i] != s[j] {
      LessTotal(s[i], s[j]);
    }
  }

  lemma AscendingIsDistinct(s: seq<Name>)
    requires Ascending(s)
    ensures Distinct(s)
  {
    AscendingIff(s);
    forall i, j | 0 <= i < j < |s| ensures s[i] != s[j] {
      assert Tagged(s)[i].name != Tagged(s)[j].name;
    }
  }

  method SortNames(s: seq<Name>) returns (r: seq<Name>)
    requires Distinct(s)
    ensures Ascending(r) && forall x :: x in r <==> x in s
  {
    var fs := SortByName(Tagged(s));
    r := seq(|fs|, i requires 0 <= i < |fs| => fs[i].name);
    forall i | 0 <= i < |fs| ensures Tagged(r)[i] == fs[i] { assert fs[i].payload == (); }
    assert Tagged(r) == fs;
    ReorderingKeepsDistinct(fs, Tagged(s));
    AscendingIff(r);
    SameMembers(fs, Tagged(s));
    forall x ensures x in r <==> x in s {
      TaggedMember(r, x);
      TaggedMember(s, x);
    }
  }

  /** The ascending order of a set of names is unique. */
  lemma AscendingIsUnique(s: seq<Name>, t: seq<Name>)
    requires Ascending(s) && Ascending(t) && forall x :: x in s <==> x in t
    ensures s == t
  {
    AscendingIff(s);
    AscendingIff(t);
    forall f ensures f in Tagged(s) <==> f in Tagged(t) {
      TaggedMember(s, f.name);
      TaggedMember(t, f.name);
    }
    MembersDetermine(Tagged(s), Tagged(t));
    SortedOrderIsUnique(Tagged(s), Tagged(t));
    forall i | 0 <= i < |s| ensures s[i] == t[i] {
      assert Tagged(s)[i] == Tagged(t)[i];
    }
  }
}
