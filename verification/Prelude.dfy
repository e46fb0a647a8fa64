/** Optional values, and the insertion-ordered dictionary of Python and JavaScript. */
module Prelude {

  datatype Option<+T> = None | Some(value: T)

  // ----- Sequences without repetition -----

  ghost predicate Distinct<T>(s: seq<T>) {
    forall i, j :: 0 <= i < j < |s| ==> s[i] != s[j]
  }

  /** The position of the first `x`, or -1. */
  function Find<T(==)>(s: seq<T>, x: T): (i: int)
    ensures -1 <= i < |s|
    ensures i >= 0 ==> s[i] == x && x !in s[..i]
    ensures i < 0 ==> x !in s
  {
    if s == [] then -1
    else if s[0] == x then 0
    else
      var i := Find(s[1..], x);
      assert s == [s[0]] + s[1..];
      if i < 0 then -1 else i + 1
  }

  function Without<T(==)>(s: seq<T>, x: T): seq<T> {
    var i := Find(s, x);
    if i < 0 then s else s[..i] + s[i + 1..]
  }

  /** The position of the last element with a property, or -1. */
  ghost function LastIndex<T>(s: seq<T>, p: T -> bool): (i: int)
    ensures -1 <= i < |s|
    ensures i >= 0 ==> p(s[i])
    ensures forall j :: i < j < |s| ==> !p(s[j])
  {
    if s == [] then -1
    else if p(s[|s| - 1]) then |s| - 1
    else LastIndex(s[..|s| - 1], p)
  }

  lemma LastIndexAppends<T>(s: seq<T>, x: T, p: T -> bool)
    ensures LastIndex(s + [x], p) == if p(x) then |s| else LastIndex(s, p)
  {
    assert (s + [x])[..|s|] == s;
  }

  /** How many elements have a property. */
  ghost function Number<T>(s: seq<T>, p: T -> bool): nat {
    if s == [] then 0 else Number(s[..|s| - 1], p) + if p(s[|s| - 1]) then 1 else 0
  }

  lemma NumberAppends<T>(s: seq<T>, x: T, p: T -> bool)
    ensures Number(s + [x], p) == Number(s, p) + if p(x) then 1 else 0
  {
    assert (s + [x])[..|s|] == s;
  }

  // ----- Pairs of positions -----

  ghost predicate PairBefore(p: (nat, nat), q: (nat, nat)) {
    p.0 < q.0 || (p.0 == q.0 && p.1 < q.1)
  }

  ghost predicate PairsAscend(ps: seq<(nat, nat)>) {
    forall i, j :: 0 <= i < j < |ps| ==> PairBefore(ps[i], ps[j])
  }

  // ----- Insertion-ordered dictionaries -----

  datatype Entry<K, V> = Entry(key: K, value: V)

  ghost predicate UniqueKeys<K(!new), V(!new)>(d: seq<Entry<K, V>>) {
    forall i, j :: 0 <= i < j < |d| ==> d[i].key != d[j].key
  }

  /** The position of a key, or -1. */
  function Position<K(==), V>(d: seq<Entry<K, V>>, k: K): (i: int)
    ensures -1 <= i < |d|
    ensures i >= 0 ==> d[i].key == k
    ensures i < 0 ==> forall j :: 0 <= j < |d| ==> d[j].key != k
  {
    if d == [] then -1
    else if d[|d| - 1].key == k then |d| - 1
    else Position(d[..|d| - 1], k)
  }

  /** Assigning to a present key keeps its place; a new key goes last. */
  function Put<K(==), V>(d: seq<Entry<K, V>>, k: K, v: V): seq<Entry<K, V>> {
    var i := Position(d, k);
    if i >= 0 then d[i := Entry(k, v)] else d + [Entry(k, v)]
  }

  function Remove<K(==), V>(d: seq<Entry<K, V>>, k: K): seq<Entry<K, V>> {
    var i := Position(d, k);
    if i >= 0 then d[..i] + d[i + 1..] else d
  }

  /** Assigning changes the value under one key and no other. */
  lemma PutMembers<K(!new), V(!new)>(d: seq<Entry<K, V>>, k: K, v: V)
    requires UniqueKeys(d)
    ensures UniqueKeys(Put(d, k, v))
    ensures forall e :: e in Put(d, k, v) <==> e == Entry(k, v) || (e in d && e.key != k)
  {
    hide Position;
    var i, after := Position(d, k), Put(d, k, v);
    assert after[if i >= 0 then i else |d|] == Entry(k, v);
    forall e | e in d && e.key != k ensures e in after {
      var j :| 0 <= j < |d| && d[j] == e;
      assert after[j] == e;
    }
  }

  /** Removing takes out the entry under one key and keeps the others in order. */
  lemma RemoveMembers<K(!new), V(!new)>(d: seq<Entry<K, V>>, k: K)
    requires UniqueKeys(d)
    ensures UniqueKeys(Remove(d, k))
    ensures forall e :: e in Remove(d, k) <==> e in d && e.key != k
  {
    hide Position;
    var i, after := Position(d, k), Remove(d, k);
    forall e | e in d && e.key != k ensures e in after {
      var j :| 0 <= j < |d| && d[j] == e;
      if i >= 0 {
        assert after[if j < i then j else j - 1] == e;
      }
    }
  }
}
