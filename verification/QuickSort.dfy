/**
 src/array.js:747-831: insertion sort for short ranges, quicksort with a median of three and
 a three-way partition for the others, in place. Whatever the comparison function answers,
 the range ends up rearranged; when the answers are consistent, it ends up sorted.
 */
module QuickSort {
  import opened SortOrder

  // ----- Insertion sort

  ghost predicate GreaterFrom<T>(cmp: Comparison<T>, s: seq<T>, lo: int, hi: int, x: T) {
    0 <= lo <= hi <= |s| && forall k :: lo <= k < hi ==> Order(cmp, s[k], x) > 0
  }

  /** s with the elements from gap up to i moved up by one place. */
  ghost predicate MovedUp<T>(s: seq<T>, t: seq<T>, gap: int, i: int) {
    && |s| == |t| && 0 <= gap
    && (forall k {:trigger t[k]} :: gap < k <= i && k < |s| ==> t[k] == s[k - 1])
    && (forall k {:trigger t[k]} :: 0 <= k < |s| && !(gap <= k <= i) ==> t[k] == s[k])
  }

  lemma InsertedRearranges<T>(s: seq<T>, t: seq<T>, lo: int, gap: int, i: int)
    requires 0 <= lo <= gap <= i < |s| && MovedUp(s, t, gap, i) && t[gap] == s[i]
    ensures Rearranged(s, t, lo, i + 1)
  {
    assert s == s[..gap] + s[gap..i] + [s[i]] + s[i + 1..];
    var u := s[..gap] + [s[i]] + s[gap..i] + s[i + 1..];
    assert forall k :: 0 <= k < |t| ==> t[k] == u[k];
    assert t == u;
  }

  lemma InsertedSorted<T(!new)>(cmp: Comparison<T>, s: seq<T>, t: seq<T>, lo: int, gap: int, i: int, m: multiset<T>)
    requires 0 <= lo <= gap <= i < |s| && MovedUp(s, t, gap, i) && t[gap] == s[i]
    requires Consistent(cmp, m) && Within(s, lo, i + 1, m) && SortedIn(cmp, s, lo, i)
    requires GreaterFrom(cmp, s, gap, i, s[i]) && (gap > lo ==> Order(cmp, s[gap - 1], s[i]) <= 0)
    ensures SortedIn(cmp, t, lo, i + 1)
  {
    forall k, l | lo <= k < l < i + 1 ensures Order(cmp, t[k], t[l]) <= 0 {
      if k == gap {
        InsertedBelow(cmp, m, s[l - 1], s[i]);
        assert t[l] == s[l - 1];
      } else if l == gap {
        InsertedAbove(cmp, s, lo, gap, i, k, m);
        assert t[k] == s[k];
      } else {
        var k0, l0 := if k < gap then k else k - 1, if l < gap then l else l - 1;
        assert t[k] == s[k0] && t[l] == s[l0];
      }
    }
  }

  lemma InsertedBelow<T(!new)>(cmp: Comparison<T>, m: multiset<T>, x: T, y: T)
    requires Consistent(cmp, m) && x in m && y in m && Order(cmp, x, y) > 0
    ensures Order(cmp, y, x) <= 0
  {
  }

  lemma InsertedAbove<T(!new)>(cmp: Comparison<T>, s: seq<T>, lo: int, gap: int, i: int, k: int, m: multiset<T>)
    requires 0 <= lo <= k < gap <= i < |s| && Consistent(cmp, m) && Within(s, lo, i + 1, m) && SortedIn(cmp, s, lo, i)
    requires Order(cmp, s[gap - 1], s[i]) <= 0
    ensures Order(cmp, s[k], s[i]) <= 0
  {
    var x, y, z := s[k], s[gap - 1], s[i];
    if k < gap - 1 {
      assert NotAfter(cmp, x, y) && NotAfter(cmp, y, z);
      assert NotAfter(cmp, x, z);
    }
  }

  lemma Inserted<T(!new)>(cmp: Comparison<T>, s: seq<T>, t: seq<T>, lo: int, gap: int, i: int, m: multiset<T>)
    requires 0 <= lo <= gap <= i < |s| && MovedUp(s, t, gap, i) && t[gap] == s[i]
    requires GreaterFrom(cmp, s, gap, i, s[i]) && (gap > lo ==> Order(cmp, s[gap - 1], s[i]) <= 0)
    ensures Rearranged(s, t, lo, i + 1)
    ensures Consistent(cmp, m) && Within(s, lo, i + 1, m) && SortedIn(cmp, s, lo, i) ==> SortedIn(cmp, t, lo, i + 1)
  {
    InsertedRearranges(s, t, lo, gap, i);
    if Consistent(cmp, m) && Within(s, lo, i + 1, m) && SortedIn(cmp, s, lo, i) {
      InsertedSorted(cmp, s, t, lo, gap, i, m);
    }
  }

  // ----- Elements that compare equal keep their order

  /** The elements of s that compare equal to e. */
  ghost function Alike<T>(cmp: Comparison<T>, e: T, s: seq<T>): seq<T> {
    if s == [] then [] else (if Order(cmp, s[0], e) == 0 then [s[0]] else []) + Alike(cmp, e, s[1..])
  }

  ghost predicate Stable<T>(cmp: Comparison<T>, s: seq<T>, t: seq<T>, lo: int, hi: int, m: multiset<T>) {
    && 0 <= lo <= hi <= |s| == |t|
    && forall e :: e in m ==> Alike(cmp, e, t[lo..hi]) == Alike(cmp, e, s[lo..hi])
  }

  lemma {:induction false} AlikeConcat<T>(cmp: Comparison<T>, e: T, a: seq<T>, b: seq<T>)
    ensures Alike(cmp, e, a + b) == Alike(cmp, e, a) + Alike(cmp, e, b)
  {
    if a == [] {
      assert a + b == b;
    } else {
      assert (a + b)[0] == a[0] && (a + b)[1..] == a[1..] + b;
      AlikeConcat(cmp, e, a[1..], b);
      Associative(if Order(cmp, a[0], e) == 0 then [a[0]] else [], Alike(cmp, e, a[1..]), Alike(cmp, e, b));
    }
  }

  lemma Associative<T>(a: seq<T>, b: seq<T>, c: seq<T>)
    ensures a + (b + c) == a + b + c
  {
  }

  lemma {:induction false} NoneAlike<T>(cmp: Comparison<T>, e: T, s: seq<T>)
    requires forall k :: 0 <= k < |s| ==> Order(cmp, s[k], e) != 0
    ensures Alike(cmp, e, s) == []
  {
    if s != [] { NoneAlike(cmp, e, s[1..]); }
  }

  /** What is greater than x is not like anything x is like. */
  lemma GreaterNotAlike<T(!new)>(cmp: Comparison<T>, m: multiset<T>, y: T, x: T, e: T)
    requires Consistent(cmp, m) && y in m && x in m && e in m && Order(cmp, y, x) > 0 && Order(cmp, x, e) == 0
    ensures Order(cmp, y, e) != 0
  {
    assert NotAfter(cmp, e, x);
    assert !NotAfter(cmp, y, x);
  }

  /** x may pass elements that are greater. */
  lemma {:induction false} Passing<T(!new)>(cmp: Comparison<T>, m: multiset<T>, mid: seq<T>, x: T, e: T)
    requires Consistent(cmp, m) && x in m && e in m
    requires forall k :: 0 <= k < |mid| ==> mid[k] in m && Order(cmp, mid[k], x) > 0
    ensures Alike(cmp, e, [x] + mid) == Alike(cmp, e, mid + [x])
  {
    AlikeConcat(cmp, e, [x], mid);
    AlikeConcat(cmp, e, mid, [x]);
    if Order(cmp, x, e) == 0 {
      forall k | 0 <= k < |mid| ensures Order(cmp, mid[k], e) != 0 {
        GreaterNotAlike(cmp, m, mid[k], x, e);
      }
      NoneAlike(cmp, e, mid);
    } else {
      NoneAlike(cmp, e, [x]);
    }
  }

  lemma {:induction false} InsertedStable<T(!new)>(cmp: Comparison<T>, s: seq<T>, t: seq<T>, lo: int, gap: int, i: int,
      hi: int, m: multiset<T>)
    requires 0 <= lo <= gap <= i < hi <= |s| && MovedUp(s, t, gap, i) && t[gap] == s[i]
    requires Consistent(cmp, m) && Within(s, lo, i + 1, m) && GreaterFrom(cmp, s, gap, i, s[i])
    ensures Stable(cmp, s, t, lo, hi, m)
  {
    var a, mid, x, b := s[lo..gap], s[gap..i], s[i], s[i + 1..hi];
    assert s[lo..hi] == a + (mid + [x]) + b;
    assert t[lo..hi] == a + ([x] + mid) + b by { MovedParts(s, t, lo, gap, i, hi); }
    forall e | e in m ensures Alike(cmp, e, t[lo..hi]) == Alike(cmp, e, s[lo..hi]) {
      Passing(cmp, m, mid, x, e);
      AlikeConcat(cmp, e, a + (mid + [x]), b);
      AlikeConcat(cmp, e, a + ([x] + mid), b);
      AlikeConcat(cmp, e, a, mid + [x]);
      AlikeConcat(cmp, e, a, [x] + mid);
    }
  }

  lemma MovedParts<T>(s: seq<T>, t: seq<T>, lo: int, gap: int, i: int, hi: int)
    requires 0 <= lo <= gap <= i < hi <= |s| && MovedUp(s, t, gap, i) && t[gap] == s[i]
    ensures t[lo..hi] == s[lo..gap] + ([s[i]] + s[gap..i]) + s[i + 1..hi]
  {
    var u := s[lo..gap] + ([s[i]] + s[gap..i]) + s[i + 1..hi];
    forall k | lo <= k < hi ensures t[k] == u[k - lo] {
    }
  }

  /** Moves what is greater than the element at i up by one place, from the top down. */
  method OpenGap<T>(cmp: Comparison<T>, a: array<T>, from: int, i: int) returns (gap: int)
    requires 0 <= from < i < a.Length
    modifies a
    ensures from <= gap <= i && GreaterFrom(cmp, old(a[..]), gap, i, old(a[i]))
    ensures gap > from ==> Order(cmp, old(a[gap - 1]), old(a[i])) <= 0
    ensures MovedUp(old(a[..]), a[..], gap, i)
  {
    ghost var s := a[..];
    var element := a[i];
    var j := i - 1;
    while j >= from
      invariant from - 1 <= j < i
      invariant forall k {:trigger a[k]} :: j + 1 < k <= i ==> a[k] == s[k - 1]
      invariant forall k {:trigger a[k]} :: 0 <= k < a.Length && !(j + 1 <= k <= i) ==> a[k] == s[k]
      invariant GreaterFrom(cmp, s, j + 1, i, element)
    {
      var tmp := a[j];
      if Order(cmp, tmp, element) <= 0 { break; }
      a[j + 1] := tmp;
      j := j - 1;
    }
    gap := j + 1;
  }

  method InsertOne<T(!new)>(cmp: Comparison<T>, a: array<T>, from: int, i: int, ghost to: int, ghost m: multiset<T>)
    requires 0 <= from < i < to <= a.Length
    modifies a
    ensures Rearranged(old(a[..]), a[..], from, i + 1)
    ensures Consistent(cmp, m) && Within(old(a[..]), from, i + 1, m) && SortedIn(cmp, old(a[..]), from, i) ==>
      SortedIn(cmp, a[..], from, i + 1)
    ensures Consistent(cmp, m) && Within(old(a[..]), from, i + 1, m) ==> Stable(cmp, old(a[..]), a[..], from, to, m)
  {
    ghost var s := a[..];
    var element := a[i];
    var gap := OpenGap(cmp, a, from, i);
    ghost var t := a[..];
    a[gap] := element;
    assert a[..] == t[gap := element] && MovedUp(s, a[..], gap, i);
    Inserted(cmp, s, a[..], from, gap, i, m);
    if Consistent(cmp, m) && Within(s, from, i + 1, m) { InsertedStable(cmp, s, a[..], from, gap, i, to, m); }
  }

  /** m may be any elements that include those of the range, such as just those. */
  method InsertionSort<T(!new)>(cmp: Comparison<T>, a: array<T>, from: int, to: int, ghost m: multiset<T>)
    requires 0 <= from <= to <= a.Length
    modifies a
    ensures Rearranged(old(a[..]), a[..], from, to)
    ensures Consistent(cmp, m) && Within(old(a[..]), from, to, m) ==>
      SortedIn(cmp, a[..], from, to) && Stable(cmp, old(a[..]), a[..], from, to, m)
  {
    ghost var s := a[..];
    ghost var ok := Consistent(cmp, m) && Within(s, from, to, m);
    var i := from + 1;
    while i < to
      invariant from < i && (from < to ==> i <= to)
      invariant Rearranged(s, a[..], from, to)
      invariant from < to && ok ==> SortedIn(cmp, a[..], from, i)
      invariant ok ==> Stable(cmp, s, a[..], from, to, m)
    {
      if ok { RearrangedWithin(s, a[..], from, to, m); }
      InsertOne(cmp, a, from, i, to, m);
      i := i + 1;
    }
  }

  // ----- The pivot

  function One<T(==)>(x: T, e: T): int { if x == e then 1 else 0 }

  /** The same three values, in some order. */
  ghost predicate SameThree<T(!new)>(x: T, y: T, z: T, x': T, y': T, z': T) {
    forall e :: One(x, e) + One(y, e) + One(z, e) == One(x', e) + One(y', e) + One(z', e)
  }

  /** The three values in order, for a consistent comparison; the same three values for any. */
  method SortThree<T(!new)>(cmp: Comparison<T>, x: T, y: T, z: T) returns (v0: T, v1: T, v2: T)
    ensures SameThree(v0, v1, v2, x, y, z) && v1 in multiset{x, y, z} && v2 in multiset{x, y, z}
    ensures Consistent(cmp, multiset{x, y, z}) ==> Order(cmp, v0, v1) <= 0 && Order(cmp, v1, v2) <= 0
  {
    v0, v1, v2 := x, y, z;
    var c01 := Order(cmp, v0, v1);
    if c01 > 0 { v0, v1 := v1, v0; }
    var c02 := Order(cmp, v0, v2);
    if c02 >= 0 {
      v0, v1, v2 := v2, v0, v1;
    } else {
      var c12 := Order(cmp, v1, v2);
      if c12 > 0 { v1, v2 := v2, v1; }
    }
  }

  lemma UpdateCount<T>(s: seq<T>, i: int, x: T, e: T)
    requires 0 <= i < |s|
    ensures multiset(s[i := x])[e] == multiset(s)[e] - One(s[i], e) + One(x, e)
  {
  }

  lemma CountThree<T(!new)>(s: seq<T>, u1: seq<T>, u2: seq<T>, u: seq<T>, i: int, j: int, k: int, x: T, y: T, z: T,
      e: T)
    requires 0 <= i < k < j < |s| && SameThree(x, y, z, s[i], s[j], s[k])
    requires u1 == s[i := x] && u2 == u1[j := z] && u == u2[k := y]
    ensures multiset(u)[e] == multiset(s)[e]
  {
    UpdateCount(s, i, x, e);
    UpdateCount(u1, j, z, e);
    UpdateCount(u2, k, y, e);
    assert u1[j] == s[j] && u2[k] == s[k];
    assert One(x, e) + One(y, e) + One(z, e) == One(s[i], e) + One(s[j], e) + One(s[k], e);
  }

  lemma SameCounts<T>(s: multiset<T>, t: multiset<T>)
    requires forall e :: s[e] == t[e]
    ensures s == t
  {
  }

  lemma ThreeRearrange<T(!new)>(s: seq<T>, i: int, j: int, k: int, x: T, y: T, z: T, lo: int, hi: int)
    requires 0 <= lo <= i < k < j < hi <= |s| && SameThree(x, y, z, s[i], s[j], s[k])
    ensures Rearranged(s, s[i := x][j := z][k := y], lo, hi)
  {
    var u1 := s[i := x];
    var u2 := u1[j := z];
    var u := u2[k := y];
    forall e ensures multiset(u)[e] == multiset(s)[e] {
      CountThree(s, u1, u2, u, i, j, k, x, y, z, e);
    }
    SameCounts(multiset(s), multiset(u));
  }

  lemma MedianRearranges<T(!new)>(s: seq<T>, from: int, mid: int, to: int, v0: T, v1: T, v2: T)
    requires 0 <= from < from + 1 < mid < to - 1 < |s| && SameThree(v0, v1, v2, s[from], s[to - 1], s[mid])
    ensures Rearranged(s, s[from := v0][to - 1 := v2][mid := s[from + 1]][from + 1 := v1], from, to)
  {
    var u := s[from := v0][to - 1 := v2][mid := v1];
    ThreeRearrange(s, from, to - 1, mid, v0, v1, v2, from, to);
    SwapRearranges(u, mid, from + 1, from, to);
    var t := s[from := v0][to - 1 := v2][mid := s[from + 1]][from + 1 := v1];
    assert Swapped(u, mid, from + 1) == t;
    RearrangedTrans(s, u, t, from, to);
  }

  lemma ConsistentThree<T>(cmp: Comparison<T>, x: T, y: T, z: T, m: multiset<T>)
    requires Consistent(cmp, m) && x in m && y in m && z in m
    ensures Consistent(cmp, multiset{x, y, z})
  {
  }

  lemma PivotPlaced<T>(cmp: Comparison<T>, s: seq<T>, from: int, to: int, pivot: T, m: multiset<T>)
    requires 0 <= from && to - from > 10 && to <= |s| && Consistent(cmp, m) && pivot in m
    requires Order(cmp, s[from], pivot) <= 0 && Order(cmp, pivot, s[to - 1]) <= 0 && s[from + 1] == pivot
      && s[to - 1] in m
    ensures Partitioned(cmp, s, pivot, from, from + 1, from + 2, to - 1, to)
  {
  }

  /**
   The three values go back: the smallest first, the largest last, the pivot second; what was
   there goes to the middle.
   */
  method WriteThree<T(!new)>(a: array<T>, from: int, mid: int, to: int, v0: T, v1: T, v2: T)
    requires 0 <= from < from + 1 < mid < to - 1 < a.Length && SameThree(v0, v1, v2, a[from], a[to - 1], a[mid])
    modifies a
    ensures Rearranged(old(a[..]), a[..], from, to)
    ensures a[from] == v0 && a[to - 1] == v2 && a[from + 1] == v1
  {
    ghost var s := a[..];
    MedianRearranges(s, from, mid, to, v0, v1, v2);
    a[from] := v0;
    a[to - 1] := v2;
    a[mid] := a[from + 1];
    a[from + 1] := v1;
    assert a[..] == s[from := v0][to - 1 := v2][mid := s[from + 1]][from + 1 := v1];
  }

  method PlacePivot<T(!new)>(cmp: Comparison<T>, a: array<T>, from: int, to: int, ghost m: multiset<T>)
      returns (pivot: T)
    requires 0 <= from && to - from > 10 && to <= a.Length
    modifies a
    ensures Rearranged(old(a[..]), a[..], from, to)
    ensures Within(old(a[..]), from, to, m) ==> pivot in m
    ensures Consistent(cmp, m) && Within(old(a[..]), from, to, m) ==>
      Partitioned(cmp, a[..], pivot, from, from + 1, from + 2, to - 1, to)
  {
    ghost var ok := Consistent(cmp, m) && Within(a[..], from, to, m);
    var mid := from + (to - from) / 2;
    if ok { ConsistentThree(cmp, a[from], a[to - 1], a[mid], m); }
    var v0, v1, v2 := SortThree(cmp, a[from], a[to - 1], a[mid]);
    pivot := v1;
    WriteThree(a, from, mid, to, v0, v1, v2);
    if ok { PivotPlaced(cmp, a[..], from, to, pivot, m); }
  }

  // ----- The partition

  /**
   Up to low nothing is greater than the pivot, from there to i everything is equal to it, from
   high on nothing is less.
   */
  ghost predicate Partitioned<T>(cmp: Comparison<T>, s: seq<T>, pivot: T, from: int, low: int, i: int, high: int,
      to: int) {
    && 0 <= from < low <= i <= high < to <= |s|
    && (forall k :: from <= k < low ==> Order(cmp, s[k], pivot) <= 0)
    && (forall k :: low <= k < i ==> Order(cmp, s[k], pivot) == 0)
    && (forall k :: high <= k < to ==> Order(cmp, s[k], pivot) >= 0)
  }

  method Swap<T>(a: array<T>, i: int, j: int, ghost from: int, ghost to: int)
    requires 0 <= from <= i < to <= a.Length && from <= j < to
    modifies a
    ensures a[..] == Swapped(old(a[..]), i, j) && Rearranged(old(a[..]), a[..], from, to)
  {
    ghost var s := a[..];
    a[i], a[j] := a[j], a[i];
    assert a[..] == Swapped(s, i, j);
    SwapRearranges(s, i, j, from, to);
  }

  lemma PartitionLess<T>(cmp: Comparison<T>, s: seq<T>, pivot: T, from: int, low: int, i: int, high: int, to: int)
    requires Partitioned(cmp, s, pivot, from, low, i, high, to) && i < high && Order(cmp, s[i], pivot) <= 0
    ensures Order(cmp, s[i], pivot) < 0 ==> Partitioned(cmp, Swapped(s, i, low), pivot, from, low + 1, i + 1, high, to)
    ensures Order(cmp, s[i], pivot) == 0 ==> Partitioned(cmp, s, pivot, from, low, i + 1, high, to)
  {
  }

  lemma PartitionSwap<T>(cmp: Comparison<T>, s: seq<T>, pivot: T, from: int, low: int, i: int, high: int, to: int)
    requires Partitioned(cmp, s, pivot, from, low, i, high, to) && i < high
    requires forall k :: high <= k < to ==> Order(cmp, s[k], pivot) >= 0
    requires high - 1 >= i && Order(cmp, s[i], pivot) > 0
    ensures Partitioned(cmp, Swapped(s, i, high - 1), pivot, from, low, i, high - 1, to)
  {
  }

  /** The elements from the top down to high that are greater than the pivot stay. Stops at i, or at one that is not. */
  method ScanDown<T>(cmp: Comparison<T>, a: array<T>, pivot: T, ghost from: int, ghost low: int, i: int, high: int,
      ghost to: int)
      returns (high': int, order: int)
    requires 0 <= from < low <= i < high < to <= a.Length && Order(cmp, a[i], pivot) > 0
    ensures i <= high' < high
    ensures Partitioned(cmp, a[..], pivot, from, low, i, high, to) ==>
      Partitioned(cmp, a[..], pivot, from, low, i, high' + if high' == i then 0 else 1, to)
    ensures high' > i ==> order == Order(cmp, a[high'], pivot) <= 0
  {
    high', order := high - 1, 1;
    while high' != i
      invariant i <= high' < high
      invariant Partitioned(cmp, a[..], pivot, from, low, i, high, to) ==>
        Partitioned(cmp, a[..], pivot, from, low, i, high' + 1, to)
      decreases high'
    {
      order := Order(cmp, a[high'], pivot);
      if order <= 0 { return; }
      high' := high' - 1;
    }
  }

  /** One round of the partition loop; done when the scan from the top met i. */
  method PartitionStep<T>(cmp: Comparison<T>, a: array<T>, pivot: T, ghost from: int, low: int, i: int, high: int,
      ghost to: int)
      returns (low': int, high': int, done: bool)
    requires 0 <= from < low < i < high < to <= a.Length
    modifies a
    ensures Rearranged(old(a[..]), a[..], from, to)
    ensures low <= low' <= i && i <= high' <= high && (if done then high' == i else high' > i)
    ensures Partitioned(cmp, old(a[..]), pivot, from, low, i, high, to) ==>
      Partitioned(cmp, a[..], pivot, from, low', if done then i else i + 1, high', to)
  {
    ghost var s := a[..];
    ghost var ok := Partitioned(cmp, s, pivot, from, low, i, high, to);
    low', high', done := low, high, false;
    var order := Order(cmp, a[i], pivot);
    if order < 0 {
      if ok { PartitionLess(cmp, s, pivot, from, low, i, high, to); }
      Swap(a, i, low, from, to);
      low' := low + 1;
    } else if order > 0 {
      high', order := ScanDown(cmp, a, pivot, from, low, i, high, to);
      if high' == i { done := true; return; }
      if ok { PartitionSwap(cmp, s, pivot, from, low, i, high' + 1, to); }
      Swap(a, i, high', from, to);
      ghost var t := a[..];
      if ok { PartitionLess(cmp, t, pivot, from, low, i, high', to); }
      if order < 0 {
        Swap(a, i, low, from, to);
        low' := low + 1;
        RearrangedTrans(s, t, a[..], from, to);
      }
    } else if ok {
      PartitionLess(cmp, s, pivot, from, low, i, high, to);
    }
  }

  method Partition<T(!new)>(cmp: Comparison<T>, a: array<T>, from: int, to: int, ghost m: multiset<T>)
      returns (pivot: T, low: int, high: int)
    requires 0 <= from && to - from > 10 && to <= a.Length
    modifies a
    ensures Rearranged(old(a[..]), a[..], from, to)
    ensures from < low <= high < to
    ensures Within(old(a[..]), from, to, m) ==> pivot in m
    ensures Consistent(cmp, m) && Within(old(a[..]), from, to, m) ==>
      Partitioned(cmp, a[..], pivot, from, low, high, high, to)
  {
    ghost var s := a[..];
    pivot := PlacePivot(cmp, a, from, to, m);
    low, high := from + 1, to - 1;
    var i := low + 1;
    ghost var ok := Partitioned(cmp, a[..], pivot, from, low, i, high, to);
    while i < high
      invariant from < low < i <= high < to
      invariant Rearranged(s, a[..], from, to)
      invariant ok ==> Partitioned(cmp, a[..], pivot, from, low, i, high, to)
      decreases high - i
    {
      ghost var t := a[..];
      var done: bool;
      low, high, done := PartitionStep(cmp, a, pivot, from, low, i, high, to);
      RearrangedTrans(s, t, a[..], from, to);
      if done { break; }
      i := i + 1;
    }
  }

  // ----- The whole sort

  lemma Widened<T>(s: seq<T>, t: seq<T>, lo: int, hi: int, lo': int, hi': int)
    requires Rearranged(s, t, lo, hi) && lo' <= lo && hi <= hi'
    ensures Rearranged(s, t, lo', hi')
  {
  }

  ghost predicate NoneAfter<T>(cmp: Comparison<T>, s: seq<T>, pivot: T, lo: int, hi: int) {
    0 <= lo <= hi <= |s| && forall k :: lo <= k < hi ==> Order(cmp, s[k], pivot) <= 0
  }

  ghost predicate NoneBefore<T>(cmp: Comparison<T>, s: seq<T>, pivot: T, lo: int, hi: int) {
    0 <= lo <= hi <= |s| && forall k :: lo <= k < hi ==> Order(cmp, s[k], pivot) >= 0
  }

  lemma RearrangedBounds<T>(cmp: Comparison<T>, s: seq<T>, t: seq<T>, pivot: T, lo: int, hi: int)
    requires Rearranged(s, t, lo, hi)
    ensures NoneAfter(cmp, s, pivot, lo, hi) ==> NoneAfter(cmp, t, pivot, lo, hi)
    ensures NoneBefore(cmp, s, pivot, lo, hi) ==> NoneBefore(cmp, t, pivot, lo, hi)
  {
    if 0 <= lo <= hi <= |s| {
      forall k | lo <= k < hi ensures exists m :: lo <= m < hi && s[m] == t[k] {
        var m := RearrangedFrom(s, t, lo, hi, k);
      }
    }
  }

  /** Sorted parts on both sides of elements equal to the pivot make a sorted whole. */
  lemma SortedAround<T(!new)>(cmp: Comparison<T>, s: seq<T>, pivot: T, from: int, low: int, high: int, to: int,
      m: multiset<T>)
    requires Consistent(cmp, m) && Within(s, from, to, m) && pivot in m && 0 <= from <= low <= high <= to <= |s|
    requires SortedIn(cmp, s, from, low) && SortedIn(cmp, s, high, to)
    requires NoneAfter(cmp, s, pivot, from, high) && NoneBefore(cmp, s, pivot, low, to)
    ensures SortedIn(cmp, s, from, to)
  {
    forall i, j | from <= i < j < to ensures Order(cmp, s[i], s[j]) <= 0 {
      if i < high && j >= low {
        assert NotAfter(cmp, s[i], pivot) && NotAfter(cmp, pivot, s[j]);
        assert NotAfter(cmp, s[i], s[j]);
      }
    }
  }

  lemma PartsSorted<T(!new)>(cmp: Comparison<T>, s1: seq<T>, s2: seq<T>, s3: seq<T>, pivot: T, from: int, low: int,
      high: int, to: int, m: multiset<T>)
    requires Consistent(cmp, m) && Within(s3, from, to, m) && pivot in m
      && Partitioned(cmp, s1, pivot, from, low, high, high, to)
    requires Rearranged(s1, s2, from, low) && Rearranged(s2, s3, high, to)
    requires SortedIn(cmp, s2, from, low) && SortedIn(cmp, s3, high, to)
    ensures SortedIn(cmp, s3, from, to)
  {
    RearrangedBounds(cmp, s1, s2, pivot, from, low);
    RearrangedBounds(cmp, s2, s3, pivot, high, to);
    assert NoneAfter(cmp, s2, pivot, from, low) && NoneBefore(cmp, s2, pivot, high, to);
    assert forall k :: from <= k < high ==> s3[k] == s2[k];
    assert forall k :: low <= k < high ==> s2[k] == s1[k];
    assert NoneAfter(cmp, s3, pivot, from, high) && NoneBefore(cmp, s3, pivot, low, to);
    SortedAround(cmp, s3, pivot, from, low, high, to, m);
  }

  /** m may be any elements that include those of the range, such as just those. Short ranges are sorted stably. */
  method Sort<T(!new)>(cmp: Comparison<T>, a: array<T>, from: int, to: int, ghost m: multiset<T>)
    requires 0 <= from <= to <= a.Length
    modifies a
    ensures Rearranged(old(a[..]), a[..], from, to)
    ensures Consistent(cmp, m) && Within(old(a[..]), from, to, m) ==> SortedIn(cmp, a[..], from, to)
    ensures Consistent(cmp, m) && Within(old(a[..]), from, to, m) && to - from <= 10 ==>
      Stable(cmp, old(a[..]), a[..], from, to, m)
    decreases (to - from)
  {
    if to - from <= 10 {
      InsertionSort(cmp, a, from, to, m);
      return;
    }
    ghost var s0 := a[..];
    ghost var ok := Consistent(cmp, m) && Within(s0, from, to, m);
    var pivot, low, high := Partition(cmp, a, from, to, m);
    ghost var s1 := a[..];
    if ok { RearrangedWithin(s0, s1, from, to, m); }
    Sort(cmp, a, from, low, m);
    ghost var s2 := a[..];
    Widened(s1, s2, from, low, from, to);
    RearrangedTrans(s0, s1, s2, from, to);
    if ok { RearrangedWithin(s0, s2, from, to, m); }
    Sort(cmp, a, high, to, m);
    ghost var s3 := a[..];
    Widened(s2, s3, high, to, from, to);
    RearrangedTrans(s0, s2, s3, from, to);
    if ok {
      RearrangedWithin(s0, s3, from, to, m);
      PartsSorted(cmp, s1, s2, s3, pivot, from, low, high, to, m);
    }
  }
}
