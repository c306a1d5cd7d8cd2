/** The order of texts by code unit, and sorting by a text key. */
module Sorting {
  import opened Text

  predicate Less(a: Text, b: Text) {
    b != [] && (a == [] || a[0] < b[0] || (a[0] == b[0] && Less(a[1..], b[1..])))
  }

  predicate AtMost(a: Text, b: Text) { a == b || Less(a, b) }

  lemma {:induction false} LessTrichotomy(a: Text, b: Text)
    ensures a == b || Less(a, b) || Less(b, a)
    ensures Less(a, b) ==> a != b && !Less(b, a)
  {
    if a != [] && b != [] {
      assert a == [a[0]] + a[1..] && b == [b[0]] + b[1..];
      LessTrichotomy(a[1..], b[1..]);
    }
  }

  /** Up to k the texts agree; there the first ends, or has the smaller unit. */
  predicate DiffersAt(a: Text, b: Text, k: nat) {
    k <= |a| && k < |b| && a[..k] == b[..k] && (k == |a| || a[k] < b[k])
  }

  lemma {:induction false} FirstDifference(a: Text, b: Text, k: nat)
    requires DiffersAt(a, b, k)
    ensures Less(a, b)
    decreases k
  {
    if k > 0 {
      assert a[0] == a[..k][0] && b[0] == b[..k][0];
      assert a[1..][..k - 1] == a[..k][1..] && b[1..][..k - 1] == b[..k][1..];
      FirstDifference(a[1..], b[1..], k - 1);
    }
  }

  /** The order of texts: the one comes before the other when it is a proper beginning of it, or has the smaller code
      unit at the first place where they differ. */
  lemma {:induction false} LessExactly(a: Text, b: Text)
    ensures Less(a, b) <==> exists k: nat :: DiffersAt(a, b, k)
  {
    if k: nat :| DiffersAt(a, b, k) { FirstDifference(a, b, k); }
    if Less(a, b) {
      if a == [] || a[0] < b[0] {
        assert DiffersAt(a, b, 0);
      } else {
        LessExactly(a[1..], b[1..]);
        var k: nat :| DiffersAt(a[1..], b[1..], k);
        assert a[..k + 1] == [a[0]] + a[1..][..k] && b[..k + 1] == [b[0]] + b[1..][..k];
        assert DiffersAt(a, b, k + 1);
      }
    }
  }

  lemma {:induction false} LessTransitive(a: Text, b: Text, c: Text)
    requires Less(a, b) && Less(b, c)
    ensures Less(a, c)
  {
    if a != [] && a[0] == b[0] == c[0] { LessTransitive(a[1..], b[1..], c[1..]); }
  }

  /** Keys strictly increase: sorted, and no key twice. */
  ghost predicate Ascending<T>(xs: seq<T>, key: T -> Text) {
    forall i, j :: 0 <= i < j < |xs| ==> Less(key(xs[i]), key(xs[j]))
  }

  predicate UniqueKeys<T>(xs: seq<T>, key: T -> Text) {
    forall i, j :: 0 <= i < j < |xs| ==> key(xs[i]) != key(xs[j])
  }

  function Insert<T>(x: T, xs: seq<T>, key: T -> Text): (r: seq<T>)
    ensures |r| == |xs| + 1
  {
    if xs == [] || AtMost(key(x), key(xs[0])) then [x] + xs else [xs[0]] + Insert(x, xs[1..], key)
  }

  function SortBy<T>(xs: seq<T>, key: T -> Text): (r: seq<T>)
    ensures |r| == |xs|
  {
    if xs == [] then [] else Insert(xs[0], SortBy(xs[1..], key), key)
  }

  lemma {:induction false} InsertContents<T>(x: T, xs: seq<T>, key: T -> Text)
    ensures multiset(Insert(x, xs, key)) == multiset(xs) + multiset{x}
  {
    if !(xs == [] || AtMost(key(x), key(xs[0]))) {
      InsertContents(x, xs[1..], key);
      assert xs == [xs[0]] + xs[1..];
    }
  }

  /** Sorting rearranges; it neither drops nor invents. */
  lemma {:induction false} SortContents<T>(xs: seq<T>, key: T -> Text)
    ensures multiset(SortBy(xs, key)) == multiset(xs)
  {
    if xs != [] {
      SortContents(xs[1..], key);
      InsertContents(xs[0], SortBy(xs[1..], key), key);
      assert xs == [xs[0]] + xs[1..];
    }
  }

  lemma MultisetMembers<T>(xs: seq<T>, ys: seq<T>)
    requires multiset(xs) == multiset(ys)
    ensures |xs| == |ys|
    ensures forall x :: x in xs <==> x in ys
  {
    assert |multiset(xs)| == |xs| && |multiset(ys)| == |ys|;
    forall x ensures x in xs <==> x in ys {
      assert x in multiset(xs) <==> x in xs;
      assert x in multiset(ys) <==> x in ys;
    }
  }

  lemma SortMembers<T>(xs: seq<T>, key: T -> Text)
    ensures forall x :: x in SortBy(xs, key) <==> x in xs
  {
    SortContents(xs, key);
    MultisetMembers(SortBy(xs, key), xs);
  }

  lemma {:induction false} InsertAscending<T>(x: T, xs: seq<T>, key: T -> Text)
    requires Ascending(xs, key) && forall y :: y in xs ==> key(y) != key(x)
    ensures Ascending(Insert(x, xs, key), key)
  {
    if xs == [] {
    } else if AtMost(key(x), key(xs[0])) {
      forall j | 0 <= j < |xs| ensures Less(key(x), key(xs[j])) {
        if j > 0 { LessTransitive(key(x), key(xs[0]), key(xs[j])); }
      }
    } else {
      var rest := xs[1..];
      LessTrichotomy(key(x), key(xs[0]));
      InsertAscending(x, rest, key);
      InsertContents(x, rest, key);
      var r := Insert(x, rest, key);
      forall j | 0 <= j < |r| ensures Less(key(xs[0]), key(r[j])) {
        assert r[j] in multiset(r);
        assert r[j] == x || r[j] in rest;
        if r[j] in rest { var k :| 0 <= k < |rest| && rest[k] == r[j]; assert rest[k] == xs[k + 1]; }
      }
    }
  }

  lemma {:induction false} SortAscending<T>(xs: seq<T>, key: T -> Text)
    requires UniqueKeys(xs, key)
    ensures Ascending(SortBy(xs, key), key)
  {
    if xs != [] {
      var rest := xs[1..];
      assert forall i :: 0 <= i < |rest| ==> rest[i] == xs[i + 1];
      SortAscending(rest, key);
      var sorted := SortBy(rest, key);
      SortMembers(rest, key);
      forall y | y in sorted ensures key(y) != key(xs[0]) {
        SortContents(rest, key);
        assert y in multiset(sorted);
        assert y in multiset(rest);
        var i :| 0 <= i < |rest| && rest[i] == y;
      }
      InsertAscending(xs[0], sorted, key);
    }
  }

  /** No element is preceded by one with a greater key. */
  ghost predicate Sorted<T>(xs: seq<T>, key: T -> Text) {
    forall i, j :: 0 <= i < j < |xs| ==> AtMost(key(xs[i]), key(xs[j]))
  }

  lemma AtMostTransitive(a: Text, b: Text, c: Text)
    requires AtMost(a, b) && AtMost(b, c)
    ensures AtMost(a, c)
  {
    if a != b && b != c { LessTransitive(a, b, c); }
  }

  lemma {:induction false} InsertSorted<T>(x: T, xs: seq<T>, key: T -> Text)
    requires Sorted(xs, key)
    ensures Sorted(Insert(x, xs, key), key)
  {
    if xs == [] {
    } else if AtMost(key(x), key(xs[0])) {
      forall j | 0 <= j < |xs| ensures AtMost(key(x), key(xs[j])) {
        if j > 0 { AtMostTransitive(key(x), key(xs[0]), key(xs[j])); }
      }
    } else {
      var rest := xs[1..];
      assert forall i :: 0 <= i < |rest| ==> rest[i] == xs[i + 1];
      LessTrichotomy(key(x), key(xs[0]));
      InsertSorted(x, rest, key);
      InsertContents(x, rest, key);
      var r := Insert(x, rest, key);
      forall j | 0 <= j < |r| ensures AtMost(key(xs[0]), key(r[j])) {
        assert r[j] in multiset(r);
        if r[j] != x { assert r[j] in rest; }
      }
    }
  }

  /** Sorting orders, whether keys are unique or not. */
  lemma {:induction false} SortIsSorted<T>(xs: seq<T>, key: T -> Text)
    ensures Sorted(SortBy(xs, key), key)
  {
    if xs != [] {
      SortIsSorted(xs[1..], key);
      InsertSorted(xs[0], SortBy(xs[1..], key), key);
    }
  }

  lemma {:induction false} SortOfAscending<T>(xs: seq<T>, key: T -> Text)
    requires Ascending(xs, key)
    ensures SortBy(xs, key) == xs
  {
    if xs != [] {
      assert forall i :: 0 <= i < |xs[1..]| ==> xs[1..][i] == xs[i + 1];
      SortOfAscending(xs[1..], key);
      assert xs == [xs[0]] + xs[1..];
    }
  }

  /** The head of an ascending list comes before every other member. */
  lemma HeadIsLeast<T>(xs: seq<T>, y: T, key: T -> Text)
    requires xs != [] && Ascending(xs, key) && y in xs
    ensures y == xs[0] || Less(key(xs[0]), key(y))
  {
    var i :| 0 <= i < |xs| && xs[i] == y;
  }

  lemma SameHead<T>(xs: seq<T>, ys: seq<T>, key: T -> Text)
    requires Ascending(xs, key) && Ascending(ys, key) && multiset(xs) == multiset(ys) && xs != []
    ensures ys != [] && xs[0] == ys[0]
  {
    hide Ascending, Less;
    assert xs[0] in multiset(xs);
    assert ys != [];
    assert ys[0] in multiset(ys);
    HeadIsLeast(ys, xs[0], key);
    HeadIsLeast(xs, ys[0], key);
    LessTrichotomy(key(xs[0]), key(ys[0]));
  }

  lemma TailMultiset<T>(xs: seq<T>)
    requires xs != []
    ensures multiset(xs[1..]) == multiset(xs) - multiset{xs[0]}
  {
    assert xs == [xs[0]] + xs[1..];
  }

  /** Two ascending lists of the same elements are the same list. */
  lemma {:induction false} AscendingUnique<T>(xs: seq<T>, ys: seq<T>, key: T -> Text)
    requires Ascending(xs, key) && Ascending(ys, key) && multiset(xs) == multiset(ys)
    ensures xs == ys
  {
    hide Less;
    if xs != [] {
      SameHead(xs, ys, key);
      TailMultiset(xs);
      TailMultiset(ys);
      AscendingUnique(xs[1..], ys[1..], key);
      assert xs == [xs[0]] + xs[1..] && ys == [ys[0]] + ys[1..];
    } else {
      assert |multiset(ys)| == |ys|;
    }
  }

  lemma UniqueOfMultiset<T>(xs: seq<T>, ys: seq<T>, key: T -> Text)
    requires multiset(xs) == multiset(ys) && UniqueKeys(xs, key)
    ensures UniqueKeys(ys, key)
  {
    forall i, j | 0 <= i < j < |ys| ensures key(ys[i]) != key(ys[j]) {
      if key(ys[i]) == key(ys[j]) {
        MultisetMembers(xs, ys);
        assert ys[i] in ys && ys[j] in ys;
        assert ys[i] in xs && ys[j] in xs;
        var a :| 0 <= a < |xs| && xs[a] == ys[i];
        var b :| 0 <= b < |xs| && xs[b] == ys[j];
        assert a == b;
        Twice(ys, i, j);
        Once(xs, a, key);
      }
    }
  }

  lemma Twice<T>(ys: seq<T>, i: nat, j: nat)
    requires i < j < |ys| && ys[i] == ys[j]
    ensures multiset(ys)[ys[i]] >= 2
  {
    assert ys == ys[..i] + [ys[i]] + ys[i + 1..j] + [ys[j]] + ys[j + 1..];
  }

  lemma Once<T>(xs: seq<T>, a: nat, key: T -> Text)
    requires a < |xs| && UniqueKeys(xs, key)
    ensures multiset(xs)[xs[a]] == 1
  {
    assert xs == xs[..a] + [xs[a]] + xs[a + 1..];
    assert xs[a] !in xs[..a] && xs[a] !in xs[a + 1..];
  }

  /** Sorting by unique keys does not depend on the order of its input. */
  lemma SortCanonical<T>(xs: seq<T>, ys: seq<T>, key: T -> Text)
    requires multiset(xs) == multiset(ys) && UniqueKeys(xs, key)
    ensures UniqueKeys(ys, key) && SortBy(xs, key) == SortBy(ys, key)
  {
    UniqueOfMultiset(xs, ys, key);
    SortAscending(xs, key);
    SortAscending(ys, key);
    SortContents(xs, key);
    SortContents(ys, key);
    AscendingUnique(SortBy(xs, key), SortBy(ys, key), key);
  }

  function Mapped<T, U>(xs: seq<T>, f: T -> U): (r: seq<U>)
    ensures |r| == |xs| && forall i :: 0 <= i < |xs| ==> r[i] == f(xs[i])
  {
    if xs == [] then [] else [f(xs[0])] + Mapped(xs[1..], f)
  }

  lemma MappedConcat<T, U>(a: seq<T>, b: seq<T>, f: T -> U)
    ensures Mapped(a + b, f) == Mapped(a, f) + Mapped(b, f)
  {
    hide Mapped;
  }

  lemma RemoveOne<T>(ys: seq<T>, i: nat)
    requires i < |ys|
    ensures multiset(ys[..i] + ys[i + 1..]) == multiset(ys) - multiset{ys[i]}
  {
    assert ys == ys[..i] + [ys[i]] + ys[i + 1..];
  }

  lemma MappedAround<T, U>(a: seq<T>, x: T, b: seq<T>, f: T -> U)
    ensures multiset(Mapped(a + [x] + b, f)) == multiset(Mapped(a + b, f)) + multiset{f(x)}
  {
    MappedConcat(a, b, f);
    MappedConcat(a, [x], f);
    MappedConcat(a + [x], b, f);
    assert Mapped([x], f) == [f(x)];
    assert multiset(Mapped(a, f) + [f(x)] + Mapped(b, f)) == multiset(Mapped(a, f)) + multiset{f(x)} +
        multiset(Mapped(b, f));
  }

  lemma MappedHead<T, U>(xs: seq<T>, f: T -> U)
    requires xs != []
    ensures multiset(Mapped(xs, f)) == multiset(Mapped(xs[1..], f)) + multiset{f(xs[0])}
  {
    MappedAround([], xs[0], xs[1..], f);
    assert [] + [xs[0]] + xs[1..] == xs;
    assert [] + xs[1..] == xs[1..];
  }

  /** Mapping a rearranged list rearranges its image. */
  lemma {:induction false} MappedMultiset<T, U>(xs: seq<T>, ys: seq<T>, f: T -> U)
    requires multiset(xs) == multiset(ys)
    ensures multiset(Mapped(xs, f)) == multiset(Mapped(ys, f))
    decreases |xs|
  {
    hide Mapped;
    if xs == [] {
      assert |multiset(ys)| == |ys|;
    } else {
      assert xs[0] in multiset(ys);
      var i :| 0 <= i < |ys| && ys[i] == xs[0];
      var a, x, b := ys[..i], ys[i], ys[i + 1..];
      TailMultiset(xs);
      RemoveOne(ys, i);
      MappedMultiset(xs[1..], a + b, f);
      assert ys == a + [x] + b;
      MappedAround(a, x, b, f);
      MappedHead(xs, f);
    }
  }

  function Filter<T(!new)>(xs: seq<T>, keep: T -> bool): (r: seq<T>)
    ensures forall x :: x in r <==> x in xs && keep(x)
  {
    if xs == [] then [] else (if keep(xs[0]) then [xs[0]] else []) + Filter(xs[1..], keep)
  }

  lemma {:induction false} FilterCount<T(!new)>(xs: seq<T>, keep: T -> bool, x: T)
    ensures multiset(Filter(xs, keep))[x] == if keep(x) then multiset(xs)[x] else 0
  {
    if xs != [] {
      FilterCount(xs[1..], keep, x);
      assert xs == [xs[0]] + xs[1..];
    }
  }

  lemma FilterMultiset<T(!new)>(xs: seq<T>, ys: seq<T>, keep: T -> bool)
    requires multiset(xs) == multiset(ys)
    ensures multiset(Filter(xs, keep)) == multiset(Filter(ys, keep))
  {
    forall x ensures multiset(Filter(xs, keep))[x] == multiset(Filter(ys, keep))[x] {
      FilterCount(xs, keep, x);
      FilterCount(ys, keep, x);
    }
  }
}
