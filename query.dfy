/** The store's read primitives that the handlers use: an index scan keeps the documents
    that match in table order, and `.unique()` turns a scan into at most one document,
    throwing when the scan finds more than one. */
module Query {
  import opened Wrappers

  const UniqueError := "unique() query returned more than one result"

  /** `array.filter(keep)` over a table or a collected scan. */
  function Filter<T>(s: seq<T>, keep: T -> bool): (r: seq<T>)
    ensures |r| <= |s|
    ensures forall i :: 0 <= i < |r| ==> r[i] in s && keep(r[i])
    ensures forall x :: x in s && keep(x) ==> x in r
  {
    if s == [] then []
    else
      assert s == [s[0]] + s[1..];
      (if keep(s[0]) then [s[0]] else []) + Filter(s[1..], keep)
  }

  /** No two elements of `s` share a key. */
  ghost predicate DistinctKeys<T, K>(s: seq<T>, key: T -> K)
  {
    forall i, j :: 0 <= i < j < |s| ==> key(s[i]) != key(s[j])
  }

  /** With distinct keys, no element occurs twice. */
  lemma {:induction false} DistinctOnce<T, K>(s: seq<T>, key: T -> K)
    requires DistinctKeys(s, key)
    ensures forall x :: multiset(s)[x] <= 1
  {
    if s != [] {
      assert s == [s[0]] + s[1..];
      assert DistinctKeys(s[1..], key) by {
        forall i, j | 0 <= i < j < |s| - 1 ensures key(s[1..][i]) != key(s[1..][j]) {
          assert s[1..][i] == s[i + 1] && s[1..][j] == s[j + 1];
        }
      }
      DistinctOnce(s[1..], key);
      forall k | 0 <= k < |s| - 1 ensures s[1..][k] != s[0] {
        assert key(s[0]) != key(s[k + 1]);
      }
      assert multiset(s[1..])[s[0]] == 0;
    }
  }

  /** An element at two positions occurs at least twice. */
  lemma PairCount<T>(m: seq<T>, i: nat, j: nat)
    requires i < j < |m|
    ensures m[i] == m[j] ==> multiset(m)[m[i]] >= 2
  {
    assert m == m[..j] + m[j..];
    assert m[..j][i] == m[i] && m[j..][0] == m[j];
    assert m[i] in multiset(m[..j]) && m[j] in multiset(m[j..]);
  }

  /** Distinct keys survive taking a sub-multiset: a scan, a permutation, a prefix. */
  lemma SubDistinct<T, K>(m: seq<T>, s: seq<T>, key: T -> K)
    requires multiset(m) <= multiset(s) && DistinctKeys(s, key)
    ensures DistinctKeys(m, key)
  {
    DistinctOnce(s, key);
    forall i, j | 0 <= i < j < |m| ensures key(m[i]) != key(m[j]) {
      PairCount(m, i, j);
      assert m[i] in multiset(s) && m[j] in multiset(s);
      var a :| 0 <= a < |s| && s[a] == m[i];
      var b :| 0 <= b < |s| && s[b] == m[j];
      assert a < b || a == b || b < a;
    }
  }

  /** A scan keeps the order of the table: it maps a concatenation to a concatenation. */
  lemma {:induction false} FilterSplits<T>(s: seq<T>, t: seq<T>, keep: T -> bool)
    ensures Filter(s + t, keep) == Filter(s, keep) + Filter(t, keep)
  {
    if s == [] {
      assert s + t == t;
    } else {
      assert (s + t)[0] == s[0];
      assert (s + t)[1..] == s[1..] + t;
      FilterSplits(s[1..], t, keep);
    }
  }

  /** The positions in `s` of the elements that `keep` selects, in increasing order. */
  function Positions<T>(s: seq<T>, keep: T -> bool): (ix: seq<nat>)
    ensures forall k :: 0 <= k < |ix| ==> ix[k] < |s| && keep(s[ix[k]])
    ensures forall i :: 0 <= i < |s| && keep(s[i]) ==> i in ix
    ensures forall k, l :: 0 <= k < l < |ix| ==> ix[k] < ix[l]
  {
    if s == [] then []
    else
      var rest := Positions(s[..|s| - 1], keep);
      assert forall i :: 0 <= i < |s| - 1 ==> s[..|s| - 1][i] == s[i];
      if keep(s[|s| - 1]) then rest + [|s| - 1] else rest
  }

  /** `.unique()` on a scan: `None` when nothing matches, the one match, or the error the
      store throws when there are several. */
  function UniqueIndex<T>(s: seq<T>, keep: T -> bool): (r: Result<Option<nat>>)
    ensures r.Err? <==> exists i, j :: 0 <= i < j < |s| && keep(s[i]) && keep(s[j])
    ensures r == Ok(None) <==> forall i :: 0 <= i < |s| ==> !keep(s[i])
    ensures r.Ok? && r.value.Some? ==> r.value.value < |s| && keep(s[r.value.value])
    ensures r.Ok? && r.value.Some? ==> forall i :: 0 <= i < |s| && keep(s[i]) ==> i == r.value.value
  {
    var ix := Positions(s, keep);
    if |ix| == 0 then Ok(None)
    else if |ix| == 1 then
      assert forall i :: 0 <= i < |s| && keep(s[i]) ==> i == ix[0] by {
        forall i | 0 <= i < |s| && keep(s[i]) ensures i == ix[0] {
          assert i in ix;
        }
      }
      Ok(Some(ix[0]))
    else
      assert keep(s[ix[0]]) && keep(s[ix[1]]) && ix[0] < ix[1];
      Err(UniqueError)
  }

  /** The sequence without its element at position `i`: a delete by document id. */
  function RemoveAt<T>(s: seq<T>, i: nat): (r: seq<T>)
    requires i < |s|
    ensures |r| == |s| - 1
    ensures forall j :: 0 <= j < i ==> r[j] == s[j]
    ensures forall j :: i < j < |s| ==> r[j - 1] == s[j]
  {
    s[..i] + s[i + 1..]
  }
}
