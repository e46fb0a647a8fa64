/** Stable sorting by an integer key, as the list sort of Python. */
module Sorting {

  function Filter<T>(s: seq<T>, p: T -> bool): seq<T> {
    if s == [] then []
    else if p(s[|s| - 1]) then Filter(s[..|s| - 1], p) + [s[|s| - 1]]
    else Filter(s[..|s| - 1], p)
  }

  ghost predicate SortedBy<T>(s: seq<T>, key: T -> int) {
    forall i, j :: 0 <= i < j < |s| ==> key(s[i]) <= key(s[j])
  }

  /** Puts `x` after the last element that does not come after it. */
  function Insert<T>(s: seq<T>, x: T, key: T -> int): seq<T> {
    if s == [] || key(s[|s| - 1]) <= key(x) then s + [x]
    else Insert(s[..|s| - 1], x, key) + [s[|s| - 1]]
  }

  function Sort<T>(s: seq<T>, key: T -> int): seq<T> {
    if s == [] then [] else Insert(Sort(s[..|s| - 1], key), s[|s| - 1], key)
  }

  lemma AppendKeepsSorted<T>(s: seq<T>, x: T, key: T -> int)
    requires SortedBy(s, key)
    requires forall y <- s :: key(y) <= key(x)
    ensures SortedBy(s + [x], key)
  {
  }

  lemma SortedUpToLast<T>(s: seq<T>, key: T -> int)
    requires s != [] && SortedBy(s, key)
    ensures SortedBy(s[..|s| - 1], key)
    ensures forall y <- s :: key(y) <= key(s[|s| - 1])
  {
  }

  lemma {:induction false} InsertIsOf<T>(s: seq<T>, x: T, key: T -> int)
    ensures multiset(Insert(s, x, key)) == multiset(s) + multiset{x}
  {
    if s != [] && key(s[|s| - 1]) > key(x) {
      InsertIsOf(s[..|s| - 1], x, key);
      assert s == s[..|s| - 1] + [s[|s| - 1]];
    }
  }

  lemma {:induction false} InsertKeeps<T>(s: seq<T>, x: T, key: T -> int)
    requires SortedBy(s, key)
    ensures SortedBy(Insert(s, x, key), key)
  {
    hide SortedBy;
    if s == [] {
      AppendKeepsSorted(s, x, key);
    } else {
      var n := |s| - 1;
      SortedUpToLast(s, key);
      if key(s[n]) <= key(x) {
        AppendKeepsSorted(s, x, key);
      } else {
        var t := Insert(s[..n], x, key);
        InsertKeeps(s[..n], x, key);
        InsertIsOf(s[..n], x, key);
        forall y | y in t ensures key(y) <= key(s[n]) {
          assert y in multiset(t);
          assert y in s[..n] || y == x;
        }
        AppendKeepsSorted(t, s[n], key);
      }
    }
  }

  /** Sorting permutes and sorts. */
  lemma {:induction false} SortIsSorted<T>(s: seq<T>, key: T -> int)
    ensures SortedBy(Sort(s, key), key)
    ensures multiset(Sort(s, key)) == multiset(s)
    ensures |Sort(s, key)| == |s|
  {
    if s != [] {
      var n := |s| - 1;
      SortIsSorted(s[..n], key);
      InsertKeeps(Sort(s[..n], key), s[n], key);
      InsertIsOf(Sort(s[..n], key), s[n], key);
      assert s == s[..n] + [s[n]];
    }
    assert |multiset(Sort(s, key))| == |Sort(s, key)|;
  }

  lemma SortMembers<T>(s: seq<T>, key: T -> int)
    ensures forall x: T :: x in Sort(s, key) <==> x in s
  {
    hide Sort;
    SortIsSorted(s, key);
    forall x: T ensures x in Sort(s, key) <==> x in s {
      assert x in multiset(Sort(s, key)) <==> x in multiset(s);
    }
  }

  lemma SortElement<T>(s: seq<T>, key: T -> int, i: nat)
    requires i < |Sort(s, key)|
    ensures Sort(s, key)[i] in s
  {
    SortIsSorted(s, key);
    assert Sort(s, key)[i] in multiset(s);
  }

  lemma {:induction false} FilterHolds<T>(s: seq<T>, p: T -> bool)
    ensures forall x <- Filter(s, p) :: x in s && p(x)
  {
    if s != [] {
      FilterHolds(s[..|s| - 1], p);
    }
  }

  lemma FilterAppend<T>(s: seq<T>, x: T, p: T -> bool)
    ensures Filter(s + [x], p) == if p(x) then Filter(s, p) + [x] else Filter(s, p)
  {
    assert (s + [x])[..|s|] == s;
  }

  lemma InsertLast<T>(s: seq<T>, x: T, key: T -> int)
    requires forall y <- s :: key(y) <= key(x)
    ensures Insert(s, x, key) == s + [x]
  {
  }

  lemma InsertBeforeLast<T>(s: seq<T>, last: T, x: T, key: T -> int)
    requires key(last) > key(x)
    ensures Insert(s + [last], x, key) == Insert(s, x, key) + [last]
  {
    assert (s + [last])[..|s|] == s;
  }

  lemma {:induction false} InsertFiltered<T>(s: seq<T>, x: T, p: T -> bool, key: T -> int)
    requires SortedBy(s, key)
    ensures Filter(Insert(s, x, key), p) == if p(x) then Insert(Filter(s, p), x, key) else Filter(s, p)
  {
    hide SortedBy;
    if s == [] {
      FilterAppend(s, x, p);
    } else {
      var n := |s| - 1;
      SortedUpToLast(s, key);
      if key(s[n]) <= key(x) {
        FilterAppend(s, x, p);
        FilterHolds(s, p);
        InsertLast(Filter(s, p), x, key);
      } else {
        InsertFiltered(s[..n], x, p, key);
        FilterAppend(Insert(s[..n], x, key), s[n], p);
        InsertBeforeLast(Filter(s[..n], p), s[n], x, key);
      }
    }
  }

  lemma SortAppend<T>(s: seq<T>, x: T, key: T -> int)
    ensures Sort(s + [x], key) == Insert(Sort(s, key), x, key)
  {
    assert (s + [x])[..|s|] == s;
  }

  /** Sorting and selecting commute: those selected end up in the order they get by themselves. */
  lemma {:induction false} SortFiltered<T>(s: seq<T>, p: T -> bool, key: T -> int)
    ensures Filter(Sort(s, key), p) == Sort(Filter(s, p), key)
  {
    hide Insert;
    if s != [] {
      var n := |s| - 1;
      SortFiltered(s[..n], p, key);
      SortIsSorted(s[..n], key);
      InsertFiltered(Sort(s[..n], key), s[n], p, key);
      SortAppend(Filter(s[..n], p), s[n], key);
    }
  }

  lemma {:induction false} SortOfSorted<T>(s: seq<T>, key: T -> int)
    requires SortedBy(s, key)
    ensures Sort(s, key) == s
  {
    if s != [] {
      SortOfSorted(s[..|s| - 1], key);
    }
  }

  function HasKey<T>(key: T -> int, k: int): T -> bool {
    x => key(x) == k
  }

  /** Equal keys keep their order. */
  lemma SortIsStable<T>(s: seq<T>, key: T -> int, k: int)
    ensures Filter(Sort(s, key), HasKey(key, k)) == Filter(s, HasKey(key, k))
  {
    var f := Filter(s, HasKey(key, k));
    SortFiltered(s, HasKey(key, k), key);
    FilterHolds(s, HasKey(key, k));
    forall i, j | 0 <= i < j < |f| ensures key(f[i]) <= key(f[j]) {
      assert f[i] in f && f[j] in f;
    }
    SortOfSorted(f, key);
  }

  function Map<T, U>(s: seq<T>, f: T -> U): (r: seq<U>)
    ensures |r| == |s|
    ensures forall i :: 0 <= i < |s| ==> r[i] == f(s[i])
  {
    if s == [] then [] else Map(s[..|s| - 1], f) + [f(s[|s| - 1])]
  }

  lemma {:induction false} InsertMapped<T, U>(s: seq<T>, x: T, f: T -> U, key: T -> int, other: U -> int)
    requires forall y: T :: key(y) == other(f(y))
    ensures Map(Insert(s, x, key), f) == Insert(Map(s, f), f(x), other)
  {
    hide Map;
    if s == [] || key(s[|s| - 1]) <= key(x) {
    } else {
      var n := |s| - 1;
      InsertMapped(s[..n], x, f, key, other);
      assert Map(s, f)[..n] == Map(s[..n], f);
    }
  }

  /** Sorting looks at the keys alone. */
  lemma {:induction false} SortMapped<T, U>(s: seq<T>, f: T -> U, key: T -> int, other: U -> int)
    requires forall y: T :: key(y) == other(f(y))
    ensures Map(Sort(s, key), f) == Sort(Map(s, f), other)
  {
    hide Map;
    if s != [] {
      var n := |s| - 1;
      SortMapped(s[..n], f, key, other);
      InsertMapped(Sort(s[..n], key), s[n], f, key, other);
      assert Map(s, f)[..n] == Map(s[..n], f);
    } else {
      assert Map(s, f) == [];
    }
  }

  lemma {:induction false} FilterPrepend<T>(x: T, s: seq<T>, p: T -> bool)
    ensures Filter([x] + s, p) == if p(x) then [x] + Filter(s, p) else Filter(s, p)
    decreases |s|
  {
    if s == [] {
      assert [x] + s == [x];
    } else {
      var n := |s| - 1;
      assert ([x] + s)[..n + 1] == [x] + s[..n];
      FilterPrepend(x, s[..n], p);
    }
  }

  lemma {:induction false} FiltersCommute<T>(s: seq<T>, p: T -> bool, q: T -> bool)
    ensures Filter(Filter(s, p), q) == Filter(Filter(s, q), p)
  {
    if s != [] {
      var n := |s| - 1;
      FiltersCommute(s[..n], p, q);
      FilterAppend(Filter(s[..n], p), s[n], q);
      FilterAppend(Filter(s[..n], q), s[n], p);
    }
  }

  lemma MapAppend<T, U>(s: seq<T>, x: T, f: T -> U)
    ensures Map(s + [x], f) == Map(s, f) + [f(x)]
  {
    hide Map;
  }

  lemma MapConcat<T, U>(s: seq<T>, t: seq<T>, f: T -> U)
    ensures Map(s + t, f) == Map(s, f) + Map(t, f)
  {
    hide Map;
  }

  /** Selecting after mapping, when `q` selects what `p` selects of the mapped. */
  lemma {:induction false} FilterOfMap<T, U>(s: seq<T>, f: T -> U, p: U -> bool, q: T -> bool)
    requires forall x: T :: q(x) == p(f(x))
    ensures Filter(Map(s, f), p) == Map(Filter(s, q), f)
  {
    if s != [] {
      var n := |s| - 1;
      FilterOfMap(s[..n], f, p, q);
      FilterAppend(Map(s[..n], f), f(s[n]), p);
      MapAppend(Filter(s[..n], q), s[n], f);
    }
  }

  lemma {:induction false} FilterOfFilter<T>(s: seq<T>, p: T -> bool, q: T -> bool, r: T -> bool)
    requires forall x: T :: r(x) == (p(x) && q(x))
    ensures Filter(Filter(s, p), q) == Filter(s, r)
  {
    if s != [] {
      var n := |s| - 1;
      FilterOfFilter(s[..n], p, q, r);
      FilterAppend(Filter(s[..n], p), s[n], q);
    }
  }

  lemma {:induction false} FilterAll<T>(s: seq<T>, p: T -> bool)
    requires forall x: T :: p(x)
    ensures Filter(s, p) == s
  {
    if s != [] {
      FilterAll(s[..|s| - 1], p);
    }
  }

  lemma MapOfMap<T, U, V>(s: seq<T>, f: T -> U, g: U -> V, h: T -> V)
    requires forall x: T :: h(x) == g(f(x))
    ensures Map(Map(s, f), g) == Map(s, h)
  {
    hide Map;
  }

  lemma {:induction false} InsertMapMembers<T, U>(s: seq<T>, x: T, f: T -> U, key: T -> int)
    ensures multiset(Map(Insert(s, x, key), f)) == multiset(Map(s, f)) + multiset{f(x)}
  {
    if s == [] || key(s[|s| - 1]) <= key(x) {
      MapAppend(s, x, f);
    } else {
      var n := |s| - 1;
      InsertMapMembers(s[..n], x, f, key);
      MapAppend(Insert(s[..n], x, key), s[n], f);
    }
  }

  lemma {:induction false} SortMapMembers<T, U>(s: seq<T>, f: T -> U, key: T -> int)
    ensures multiset(Map(Sort(s, key), f)) == multiset(Map(s, f))
  {
    if s != [] {
      var n := |s| - 1;
      SortMapMembers(s[..n], f, key);
      InsertMapMembers(Sort(s[..n], key), s[n], f, key);
    }
  }

  function Not<T>(p: T -> bool): T -> bool {
    x => !p(x)
  }

  lemma {:induction false} FilterSplits<T, U>(s: seq<T>, p: T -> bool, f: T -> U)
    ensures multiset(Map(s, f)) == multiset(Map(Filter(s, p), f)) + multiset(Map(Filter(s, Not(p)), f))
  {
    if s != [] {
      var n := |s| - 1;
      FilterSplits(s[..n], p, f);
      MapAppend(Filter(s[..n], p), s[n], f);
      MapAppend(Filter(s[..n], Not(p)), s[n], f);
    }
  }
}
