/** Stable sorting by a comparator, as `Array.prototype.sort` does it.
    `lt(a, b)` means that the comparator puts `a` strictly before `b`
    (it returns a negative number). For a comparator that is a strict weak
    order every stable sort yields the same sequence, so insertion sort
    stands for the built-in one. */
module Sorting {

  /** `lt` is asymmetric and its complement is transitive (a strict weak order). */
  ghost predicate StrictWeakOrder<T(!new)>(lt: (T, T) -> bool) {
    && (forall a, b :: lt(a, b) ==> !lt(b, a))
    && (forall a, b, c :: !lt(a, b) && !lt(b, c) ==> !lt(a, c))
  }

  /** No element is strictly before an element that precedes it. */
  ghost predicate SortedBy<T>(s: seq<T>, lt: (T, T) -> bool) {
    forall i, j :: 0 <= i < j < |s| ==> !lt(s[j], s[i])
  }

  /** Where `x` goes in `s`: after every element strictly before it; in a
      sorted `s`, before every other one. */
  function InsertPos<T>(x: T, s: seq<T>, lt: (T, T) -> bool): (k: nat)
    ensures k <= |s|
    ensures forall i :: 0 <= i < k ==> lt(s[i], x)
    ensures k < |s| ==> !lt(s[k], x)
    decreases |s|
  {
    if |s| == 0 || !lt(s[0], x) then 0 else 1 + InsertPos(x, s[1..], lt)
  }

  function Insert<T>(x: T, s: seq<T>, lt: (T, T) -> bool): (r: seq<T>)
    ensures multiset(r) == multiset(s) + multiset{x}
  {
    var k := InsertPos(x, s, lt);
    assert s == s[..k] + s[k..];
    s[..k] + [x] + s[k..]
  }

  /** Insertion sort: the result is a permutation of the input. */
  function SortBy<T>(s: seq<T>, lt: (T, T) -> bool): (r: seq<T>)
    ensures multiset(r) == multiset(s)
    ensures |r| == |s|
    decreases |s|
  {
    if |s| == 0 then []
    else
      assert s == [s[0]] + s[1..];
      Insert(s[0], SortBy(s[1..], lt), lt)
  }

  lemma InsertSorted<T(!new)>(x: T, s: seq<T>, lt: (T, T) -> bool)
    requires StrictWeakOrder(lt)
    requires SortedBy(s, lt)
    ensures SortedBy(Insert(x, s, lt), lt)
  {
    var k := InsertPos(x, s, lt);
    var r := Insert(x, s, lt);
    forall i, j | 0 <= i < j < |r| ensures !lt(r[j], r[i]) {
      if j < k {
        assert r[i] == s[i] && r[j] == s[j];
      } else if j == k {
        assert r[i] == s[i] && r[j] == x;
        assert lt(s[i], x);
      } else if i < k {
        assert r[i] == s[i] && r[j] == s[j - 1];
        assert lt(s[i], x) && !lt(x, s[i]);
        assert !lt(s[j - 1], s[k]) && !lt(s[k], x);
      } else if i == k {
        assert r[i] == x && r[j] == s[j - 1];
        assert !lt(s[j - 1], s[k]) && !lt(s[k], x);
      } else {
        assert r[i] == s[i - 1] && r[j] == s[j - 1];
      }
    }
  }

  /** The sorted sequence is in comparator order. */
  lemma {:induction false} SortBySorted<T(!new)>(s: seq<T>, lt: (T, T) -> bool)
    requires StrictWeakOrder(lt)
    ensures SortedBy(SortBy(s, lt), lt)
    decreases |s|
  {
    if |s| > 0 {
      SortBySorted(s[1..], lt);
      InsertSorted(s[0], SortBy(s[1..], lt), lt);
    }
  }

  /** Every pair `i < j` of `s` is related by `before`. */
  ghost predicate Chained<T>(s: seq<T>, before: (T, T) -> bool) {
    forall i, j :: 0 <= i < j < |s| ==> before(s[i], s[j])
  }

  /** Every pair `i < j` is either separated by the comparator or in `before` order. */
  ghost predicate StableFor<T>(s: seq<T>, lt: (T, T) -> bool, before: (T, T) -> bool) {
    forall i, j :: 0 <= i < j < |s| ==> lt(s[i], s[j]) || before(s[i], s[j])
  }

  lemma InsertStable<T>(x: T, t: seq<T>, lt: (T, T) -> bool, before: (T, T) -> bool)
    requires StableFor(t, lt, before)
    requires forall e :: e in t ==> before(x, e)
    ensures StableFor(Insert(x, t, lt), lt, before)
  {
    var k := InsertPos(x, t, lt);
    var r := Insert(x, t, lt);
    forall i, j | 0 <= i < j < |r| ensures lt(r[i], r[j]) || before(r[i], r[j]) {
      if j < k {
        assert r[i] == t[i] && r[j] == t[j];
      } else if j == k {
        assert r[i] == t[i] && r[j] == x;
        assert lt(t[i], x);
      } else if i < k {
        assert r[i] == t[i] && r[j] == t[j - 1];
      } else if i == k {
        assert r[i] == x && r[j] == t[j - 1];
        assert t[j - 1] in t;
      } else {
        assert r[i] == t[i - 1] && r[j] == t[j - 1];
      }
    }
  }

  /** Stability: if the input is already in `before` order, two elements that
      the comparator does not separate keep that order in the result. */
  lemma {:induction false} SortByStable<T>(s: seq<T>, lt: (T, T) -> bool, before: (T, T) -> bool)
    requires Chained(s, before)
    ensures StableFor(SortBy(s, lt), lt, before)
    decreases |s|
  {
    if |s| > 0 {
      var x, rest := s[0], s[1..];
      assert Chained(rest, before) by {
        forall i, j | 0 <= i < j < |rest| ensures before(rest[i], rest[j]) {
          assert rest[i] == s[i + 1] && rest[j] == s[j + 1];
        }
      }
      SortByStable(rest, lt, before);
      var t := SortBy(rest, lt);
      forall e | e in t ensures before(x, e) {
        assert e in multiset(t);
        assert e in multiset(rest);
        var p :| 0 <= p < |rest| && rest[p] == e;
        assert s[p + 1] == e;
      }
      InsertStable(x, t, lt, before);
    }
  }
}
