/** `Array.prototype.sort` with a comparator, as the handlers call it: a stable sort in
    which `cmp(a, b) < 0` puts `a` first, `cmp(a, b) > 0` puts `b` first and `0` keeps the
    input order. Modelled as a stable insertion sort. */
module Sorting {

  /** `a` may come before `b`. */
  predicate Precedes<T>(cmp: (T, T) -> real, a: T, b: T)
  {
    cmp(a, b) <= 0.0
  }

  /** What a comparator must satisfy for the sort to be well defined: any two elements are
      ordered one way or the other, and the order is transitive. */
  ghost predicate Consistent<T(!new)>(cmp: (T, T) -> real)
  {
    && (forall a, b :: cmp(a, b) <= 0.0 || cmp(b, a) <= 0.0)
    && (forall a, b, c :: cmp(a, b) <= 0.0 && cmp(b, c) <= 0.0 ==> cmp(a, c) <= 0.0)
  }

  ghost predicate Sorted<T>(s: seq<T>, cmp: (T, T) -> real)
  {
    forall i, j :: 0 <= i < j < |s| ==> cmp(s[i], s[j]) <= 0.0
  }

  /** Inserts `x` in front of the first element it may precede; `x` stands before every
      element of `t` in the input, so equal elements keep their order. */
  function Insert<T>(x: T, t: seq<T>, cmp: (T, T) -> real): (r: seq<T>)
    ensures multiset(r) == multiset{x} + multiset(t)
    ensures |r| == |t| + 1
  {
    if t == [] then [x]
    else if Precedes(cmp, x, t[0]) then [x] + t
    else
      assert t == [t[0]] + t[1..];
      [t[0]] + Insert(x, t[1..], cmp)
  }

  function Sort<T>(s: seq<T>, cmp: (T, T) -> real): (r: seq<T>)
    ensures multiset(r) == multiset(s)
    ensures |r| == |s|
  {
    if s == [] then []
    else
      assert s == [s[0]] + s[1..];
      Insert(s[0], Sort(s[1..], cmp), cmp)
  }

  /** Every element of `t` that `x` may not precede lets `x` follow it, and it then may
      precede all of `t` after it. */
  lemma HeadPrecedesTail<T(!new)>(t: seq<T>, cmp: (T, T) -> real)
    requires Consistent(cmp) && Sorted(t, cmp) && t != []
    ensures forall y :: y in multiset(t[1..]) ==> cmp(t[0], y) <= 0.0
  {
    forall y | y in multiset(t[1..]) ensures cmp(t[0], y) <= 0.0 {
      var k :| 0 <= k < |t[1..]| && t[1..][k] == y;
      assert t[k + 1] == y;
    }
  }

  /** A head that may precede every element of a sorted tail gives a sorted sequence. */
  lemma ConsSorted<T>(h: T, t: seq<T>, cmp: (T, T) -> real)
    requires Sorted(t, cmp)
    requires forall y :: y in multiset(t) ==> cmp(h, y) <= 0.0
    ensures Sorted([h] + t, cmp)
  {
    var r := [h] + t;
    forall i, j | 0 <= i < j < |r| ensures cmp(r[i], r[j]) <= 0.0 {
      if i == 0 {
        assert r[j] == t[j - 1] && t[j - 1] in multiset(t);
      } else {
        assert r[i] == t[i - 1] && r[j] == t[j - 1];
      }
    }
  }

  lemma {:induction false} InsertSorted<T(!new)>(x: T, t: seq<T>, cmp: (T, T) -> real)
    requires Consistent(cmp)
    requires Sorted(t, cmp)
    ensures Sorted(Insert(x, t, cmp), cmp)
  {
    if t == [] {
    } else if Precedes(cmp, x, t[0]) {
      forall y | y in multiset(t) ensures cmp(x, y) <= 0.0 {
        var k :| 0 <= k < |t| && t[k] == y;
        assert cmp(t[0], t[k]) <= 0.0 || k == 0;
      }
      ConsSorted(x, t, cmp);
    } else {
      var rest := Insert(x, t[1..], cmp);
      assert Sorted(t[1..], cmp);
      InsertSorted(x, t[1..], cmp);
      HeadPrecedesTail(t, cmp);
      assert multiset(rest) == multiset{x} + multiset(t[1..]);
      ConsSorted(t[0], rest, cmp);
    }
  }

  lemma {:induction false} SortSorted<T(!new)>(s: seq<T>, cmp: (T, T) -> real)
    requires Consistent(cmp)
    ensures Sorted(Sort(s, cmp), cmp)
  {
    if s != [] {
      SortSorted(s[1..], cmp);
      InsertSorted(s[0], Sort(s[1..], cmp), cmp);
    }
  }
}
