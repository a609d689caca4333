/**
 benchmarks/earley-boyer.js:4056-4114, 4137-4153: the sets of the Earley chart. A set of
 origins is one vector holding two linked lists, the processed elements and the new ones;
 a state is a vector of such sets and a list, threaded through them, of the sets that have
 new elements.
 */
module EarleySets {

  /** The value false of an empty cell, as a number no cell ever holds. */
  const ABSENT: int := -2

  /** The element at k, or the -1 that ends a list. */
  function At(s: seq<nat>, k: nat): int {
    if k < |s| then s[k] else -1
  }

  function LastOr(s: seq<nat>, none: int): int {
    if s == [] then none else s[|s| - 1]
  }

  ghost predicate Distinct(s: seq<nat>) {
    forall k, l :: 0 <= k < l < |s| ==> s[k] != s[l]
  }

  ghost predicate Bounded(s: seq<nat>, n: nat) {
    forall k :: 0 <= k < |s| ==> s[k] <= n
  }

  ghost predicate Disjoint(d: seq<nat>, t: seq<nat>) {
    forall k, l :: 0 <= k < |d| && 0 <= l < |t| ==> d[k] != t[l]
  }

  /** From element to element: slot i holds the element after i. */
  ghost predicate Chained(v: seq<int>, s: seq<nat>) {
    forall k :: 0 <= k < |s| ==> Link(v, s, k)
  }

  ghost predicate Link(v: seq<int>, s: seq<nat>, k: nat)
    requires k < |s|
  {
    s[k] + 5 < |v| && v[s[k] + 5] == At(s, k + 1)
  }

  /**
   v is the set of state n whose processed list is d and whose new list is t. Cell 1 is the
   last processed element (-3 if none), cell 2 the first, cells 3 and 4 the same for the
   new elements; the slot of i is cell i + 5.
   */
  ghost predicate IsSet(v: seq<int>, n: nat, d: seq<nat>, t: seq<nat>) {
    && |v| == n + 6
    && Bounded(d, n) && Bounded(t, n) && Distinct(d) && Distinct(t) && Disjoint(d, t)
    && v[1] == LastOr(d, -3) && v[2] == At(d, 0)
    && v[3] == LastOr(t, -1) && v[4] == At(t, 0)
    && Chained(v, d) && Chained(v, t)
    && forall i :: 0 <= i <= n && i !in d && i !in t ==> v[i + 5] == ABSENT
  }

  /** A slot is filled exactly when one of the two lists reaches it. */
  lemma SlotIffListed(v: seq<int>, n: nat, d: seq<nat>, t: seq<nat>, i: nat)
    requires IsSet(v, n, d, t) && i <= n
    ensures v[i + 5] != ABSENT <==> i in d || i in t
  {
    if i in d {
      var k :| 0 <= k < |d| && d[k] == i;
      assert Link(v, d, k);
    }
    if i in t {
      var k :| 0 <= k < |t| && t[k] == i;
      assert Link(v, t, k);
    }
  }

  function EmptyVector(n: nat): seq<int> {
    seq(n + 6, _ => ABSENT)[1 := -3][2 := -1][3 := -1][4 := -1]
  }

  lemma EmptyIsSet(n: nat)
    ensures IsSet(EmptyVector(n), n, [], [])
  {
  }

  function Appended(v: seq<int>, i: nat): seq<int>
    requires |v| > i + 5 && -1 <= v[3] < |v| - 5
  {
    var tail := v[3];
    v[i + 5 := -1][tail + 5 := i][3 := i]
  }

  lemma AppendedIsSet(v: seq<int>, n: nat, d: seq<nat>, t: seq<nat>, i: nat)
    requires IsSet(v, n, d, t) && i <= n && i !in d && i !in t
    ensures IsSet(Appended(v, i), n, d, t + [i])
  {
    var w, t' := Appended(v, i), t + [i];
    forall k | 0 <= k < |t'| ensures Link(w, t', k) {
      if k < |t| {
        assert t'[k] == t[k] && Link(v, t, k);
      }
    }
    forall k | 0 <= k < |d| ensures Link(w, d, k) {
      assert Link(v, d, k);
    }
    assert forall x :: x in t' <==> x in t || x == i;
  }

  /** Cell 0 belongs to the worklist, not to the set. */
  lemma CellZeroFree(v: seq<int>, n: nat, d: seq<nat>, t: seq<nat>, x: int)
    requires IsSet(v, n, d, t)
    ensures IsSet(v[0 := x], n, d, t)
  {
    var w := v[0 := x];
    forall k | 0 <= k < |d| ensures Link(w, d, k) {
      assert Link(v, d, k);
    }
    forall k | 0 <= k < |t| ensures Link(w, t, k) {
      assert Link(v, t, k);
    }
  }

  function Merged(v: seq<int>): seq<int>
    requires |v| > 5 && -3 <= v[1] < |v| - 5
  {
    v[v[1] + 5 := v[4]][1 := v[3]][3 := -1][4 := -1]
  }

  lemma MergedIsSet(v: seq<int>, n: nat, d: seq<nat>, t: seq<nat>)
    requires IsSet(v, n, d, t) && t != []
    ensures IsSet(Merged(v), n, d + t, [])
  {
    var w, d' := Merged(v), d + t;
    forall k | 0 <= k < |d'| ensures Link(w, d', k) {
      if k < |d| {
        assert Link(v, d, k);
      } else {
        assert Link(v, t, k - |d|);
      }
    }
    assert forall x :: x in d' <==> x in d || x in t;
  }

  // ----- Counting

  ghost function Below(n: nat): (r: set<nat>)
    ensures |r| == n && forall i :: i in r <==> 0 <= i < n
  {
    if n == 0 then {} else Below(n - 1) + {n - 1}
  }

  ghost function Elements(s: seq<nat>): set<nat> {
    set x | x in s
  }

  lemma {:induction false} DistinctSize(s: seq<nat>)
    requires Distinct(s)
    ensures |Elements(s)| == |s|
  {
    if s != [] {
      var front, last := s[..|s| - 1], s[|s| - 1];
      DistinctSize(front);
      assert s == front + [last];
      assert Elements(s) == Elements(front) + {last};
      assert last !in front;
    }
  }

  lemma {:induction false} SubsetSize(a: set<nat>, b: set<nat>)
    requires a <= b
    ensures |a| <= |b|
  {
    assert b == a + (b - a);
  }

  /** A list without repetition has no more elements than there are numbers up to n. */
  lemma DistinctLength(s: seq<nat>, n: nat)
    requires Distinct(s) && Bounded(s, n)
    ensures |s| <= n + 1
  {
    DistinctSize(s);
    SubsetSize(Elements(s), Below(n + 1));
  }
}
