/**
 Orders and rearrangements for the sorting of src/array.js: what a comparison function has
 to satisfy (section 15.4.4.11 of ECMA-262, 5th edition), and what may happen to an array
 while it is sorted in place.
 */
module SortOrder {

  type Comparison<!T> = (T, T) -> int

  /** What the comparison function answers. */
  function Order<T>(cmp: Comparison<T>, x: T, y: T): int {
    cmp(x, y)
  }

  /** Consistent on the elements of m: swapping the arguments swaps the sign, and "not greater" is transitive. */
  ghost predicate Consistent<T>(cmp: Comparison<T>, m: multiset<T>) {
    && (forall x, y :: x in m && y in m ==> (Order(cmp, x, y) < 0 <==> Order(cmp, y, x) > 0))
    && (forall x, y, z :: x in m && y in m && z in m && NotAfter(cmp, x, y) && NotAfter(cmp, y, z) ==>
      NotAfter(cmp, x, z))
  }

  ghost predicate NotAfter<T>(cmp: Comparison<T>, x: T, y: T) {
    Order(cmp, x, y) <= 0
  }

  ghost predicate SortedIn<T>(cmp: Comparison<T>, s: seq<T>, lo: int, hi: int) {
    0 <= lo <= hi <= |s| && forall i, j :: lo <= i < j < hi ==> Order(cmp, s[i], s[j]) <= 0
  }

  /** t has the elements of s, and differs from it at most between lo and hi. */
  ghost predicate Rearranged<T>(s: seq<T>, t: seq<T>, lo: int, hi: int) {
    && |s| == |t|
    && multiset(s) == multiset(t)
    && forall k :: 0 <= k < |s| && !(lo <= k < hi) ==> s[k] == t[k]
  }

  lemma RearrangedTrans<T>(s: seq<T>, t: seq<T>, u: seq<T>, lo: int, hi: int)
    requires Rearranged(s, t, lo, hi) && Rearranged(t, u, lo, hi)
    ensures Rearranged(s, u, lo, hi)
  {
  }

  function Swapped<T>(s: seq<T>, i: int, j: int): seq<T>
    requires 0 <= i < |s| && 0 <= j < |s|
  {
    s[i := s[j]][j := s[i]]
  }

  lemma SwapRearranges<T>(s: seq<T>, i: int, j: int, lo: int, hi: int)
    requires 0 <= lo <= i < hi <= |s| && lo <= j < hi
    ensures Rearranged(s, Swapped(s, i, j), lo, hi)
  {
  }

  /** Between lo and hi there are the same elements as before. */
  lemma RearrangedFrom<T>(s: seq<T>, t: seq<T>, lo: int, hi: int, k: int) returns (m: int)
    requires Rearranged(s, t, lo, hi) && 0 <= lo <= k < hi <= |s|
    ensures lo <= m < hi && s[m] == t[k]
  {
    InThree(s, lo, hi);
    InThree(t, lo, hi);
    assert s[..lo] == t[..lo] && s[hi..] == t[hi..];
    var before, after := s[lo..hi], t[lo..hi];
    Cancel(multiset(s[..lo]), multiset(before), multiset(after), multiset(s[hi..]));
    assert after[k - lo] == t[k];
    assert t[k] in multiset(after) && t[k] in before;
    var i :| 0 <= i < |before| && before[i] == t[k];
    m := lo + i;
  }

  /** The elements between lo and hi are among those of m. */
  ghost predicate Within<T>(s: seq<T>, lo: int, hi: int, m: multiset<T>) {
    forall k :: lo <= k < hi && 0 <= k < |s| ==> s[k] in m
  }

  lemma RearrangedWithin<T>(s: seq<T>, t: seq<T>, lo: int, hi: int, m: multiset<T>)
    requires Rearranged(s, t, lo, hi) && 0 <= lo <= hi <= |s| && Within(s, lo, hi, m)
    ensures Within(t, lo, hi, m)
  {
    forall k | lo <= k < hi ensures t[k] in m {
      var i := RearrangedFrom(s, t, lo, hi, k);
    }
  }

  lemma Cancel<T>(a: multiset<T>, x: multiset<T>, y: multiset<T>, b: multiset<T>)
    requires a + x + b == a + y + b
    ensures x == y
  {
    forall e ensures x[e] == y[e] {
      assert (a + x + b)[e] == a[e] + x[e] + b[e];
      assert (a + y + b)[e] == a[e] + y[e] + b[e];
    }
  }

  lemma InThree<T>(s: seq<T>, lo: int, hi: int)
    requires 0 <= lo <= hi <= |s|
    ensures multiset(s) == multiset(s[..lo]) + multiset(s[lo..hi]) + multiset(s[hi..])
  {
    assert s == s[..lo] + s[lo..hi] + s[hi..];
  }
}
