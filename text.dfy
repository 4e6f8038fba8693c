/** `String.prototype.toLowerCase` and `String.prototype.includes`, which the city filter
    of `list` combines. */
module Text {

  /** Lower-cases the letters A to Z; every other character, Arabic letters included, has
      no lower-case form here and is kept. */
  function LowerChar(c: char): (d: char)
    ensures 'A' <= c <= 'Z' ==> 'a' <= d <= 'z' && d as int - c as int == 'a' as int - 'A' as int
    ensures !('A' <= c <= 'Z') ==> d == c
  {
    if 'A' <= c <= 'Z' then (c as int - 'A' as int + 'a' as int) as char else c
  }

  function Lower(s: string): (r: string)
    ensures |r| == |s|
    ensures forall i :: 0 <= i < |s| ==> r[i] == LowerChar(s[i])
    ensures forall i :: 0 <= i < |r| ==> !('A' <= r[i] <= 'Z')
  {
    seq(|s|, i requires 0 <= i < |s| => LowerChar(s[i]))
  }

  /** Lower-casing twice is lower-casing once. */
  lemma LowerIdempotent(s: string)
    ensures Lower(Lower(s)) == Lower(s)
  {
    var l := Lower(s);
    forall i | 0 <= i < |l| ensures Lower(l)[i] == l[i] {
      assert !('A' <= l[i] <= 'Z');
    }
  }

  predicate StartsWith(s: string, prefix: string)
  {
    |prefix| <= |s| && s[..|prefix|] == prefix
  }

  /** `s.includes(needle)`: `needle` occurs in `s` at some position. */
  predicate Includes(s: string, needle: string)
    decreases |s|
  {
    StartsWith(s, needle) || (|s| > 0 && Includes(s[1..], needle))
  }

  /** `needle` occurs in `s` starting at position `k`. */
  ghost predicate OccursAt(s: string, needle: string, k: int)
  {
    0 <= k && k + |needle| <= |s| && s[k..k + |needle|] == needle
  }

  lemma {:induction false} IncludesAt(s: string, needle: string, k: nat)
    requires OccursAt(s, needle, k)
    ensures Includes(s, needle)
  {
    if k > 0 {
      assert s[1..][k - 1..k - 1 + |needle|] == s[k..k + |needle|];
      IncludesAt(s[1..], needle, k - 1);
    }
  }

  /** `Includes` holds only when the needle occurs at some position. */
  lemma {:induction false} IncludesSomewhere(s: string, needle: string)
    requires Includes(s, needle)
    ensures exists k :: OccursAt(s, needle, k)
  {
    if StartsWith(s, needle) {
      assert OccursAt(s, needle, 0);
    } else {
      IncludesSomewhere(s[1..], needle);
      var k :| OccursAt(s[1..], needle, k);
      assert s[1..][k..k + |needle|] == s[k + 1..k + 1 + |needle|];
      assert OccursAt(s, needle, k + 1);
    }
  }
}
