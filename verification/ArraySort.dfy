/**
 src/array.js:893-985: sorting an array that may have undefined elements and holes. Below
 its length an array is a row of cells: a hole, an element that is undefined, or a value.
 Inherited elements are not part of the model.
 */
module ArraySort {
  import opened SortOrder
  import opened QuickSort

  datatype Cell<T> = Hole | Undef | Val(v: T)

  /** Values come before undefined elements, and these before holes. */
  function Kind<T>(c: Cell<T>): nat {
    if c.Val? then 0 else if c.Undef? then 1 else 2
  }

  /** The order the sorted array is in: the comparison function decides only between values. */
  function CellOrder<T>(cmp: Comparison<T>): Comparison<Cell<T>> {
    (x: Cell<T>, y: Cell<T>) => CompareCells(cmp, x, y)
  }

  function CompareCells<T>(cmp: Comparison<T>, x: Cell<T>, y: Cell<T>): int {
    if x.Val? && y.Val? then Order(cmp, x.v, y.v) else Kind(x) - Kind(y)
  }

  /** The comparison function is consistent on the values among the cells. */
  ghost predicate ConsistentOnValues<T(!new)>(cmp: Comparison<T>, m: multiset<Cell<T>>) {
    && (forall x, y :: Val(x) in m && Val(y) in m ==> (Order(cmp, x, y) < 0 <==> Order(cmp, y, x) > 0))
    && (forall x, y, z :: Val(x) in m && Val(y) in m && Val(z) in m && NotAfter(cmp, x, y) && NotAfter(cmp, y, z) ==>
      NotAfter(cmp, x, z))
  }

  lemma CellOrderConsistent<T(!new)>(cmp: Comparison<T>, m: multiset<Cell<T>>)
    requires ConsistentOnValues(cmp, m)
    ensures Consistent(CellOrder(cmp), m)
  {
    var c := CellOrder(cmp);
    assert forall x, y :: Order(c, x, y) == CompareCells(cmp, x, y);
    forall x, y, z | x in m && y in m && z in m && NotAfter(c, x, y) && NotAfter(c, y, z) ensures NotAfter(c, x, z) {
      if x.Val? && y.Val? && z.Val? {
        assert NotAfter(cmp, x.v, y.v) && NotAfter(cmp, y.v, z.v);
        assert NotAfter(cmp, x.v, z.v);
      }
      assert CompareCells(cmp, x, z) <= 0;
      assert Order(c, x, z) <= 0;
    }
  }

  // ----- Counting

  /** How many cells between lo and hi are of a kind. */
  ghost function Num<T>(s: seq<Cell<T>>, kind: nat, lo: int, hi: int): nat
    requires 0 <= lo <= hi <= |s|
    decreases hi - lo
  {
    if lo == hi then 0 else Num(s, kind, lo, hi - 1) + if Kind(s[hi - 1]) == kind then 1 else 0
  }

  lemma {:induction false} NumSplit<T>(s: seq<Cell<T>>, kind: nat, lo: int, mid: int, hi: int)
    requires 0 <= lo <= mid <= hi <= |s|
    ensures Num(s, kind, lo, hi) == Num(s, kind, lo, mid) + Num(s, kind, mid, hi)
    decreases hi - mid
  {
    if mid < hi { NumSplit(s, kind, lo, mid, hi - 1); }
  }

  lemma {:induction false} NumAll<T>(s: seq<Cell<T>>, lo: int, hi: int)
    requires 0 <= lo <= hi <= |s|
    ensures Num(s, 0, lo, hi) + Num(s, 1, lo, hi) + Num(s, 2, lo, hi) == hi - lo
    decreases hi - lo
  {
    if lo < hi { NumAll(s, lo, hi - 1); }
  }

  lemma {:induction false} NumSame<T>(s: seq<Cell<T>>, t: seq<Cell<T>>, kind: nat, lo: int, hi: int)
    requires 0 <= lo <= hi <= |s| && hi <= |t|
    requires forall k :: lo <= k < hi ==> (Kind(s[k]) == kind <==> Kind(t[k]) == kind)
    ensures Num(s, kind, lo, hi) == Num(t, kind, lo, hi)
    decreases hi - lo
  {
    if lo < hi { NumSame(s, t, kind, lo, hi - 1); }
  }

  lemma {:induction false} NumEvery<T>(s: seq<Cell<T>>, kind: nat, lo: int, hi: int)
    requires 0 <= lo <= hi <= |s| && forall k :: lo <= k < hi ==> Kind(s[k]) == kind
    ensures Num(s, kind, lo, hi) == hi - lo
    decreases hi - lo
  {
    if lo < hi { NumEvery(s, kind, lo, hi - 1); }
  }

  lemma {:induction false} NumNone<T>(s: seq<Cell<T>>, kind: nat, lo: int, hi: int)
    requires 0 <= lo <= hi <= |s| && forall k :: lo <= k < hi ==> Kind(s[k]) != kind
    ensures Num(s, kind, lo, hi) == 0
    decreases hi - lo
  {
    if lo < hi { NumNone(s, kind, lo, hi - 1); }
  }

  /** Holes and undefined elements are counted as in the multiset of cells. */
  lemma {:induction false} NumCounts<T>(s: seq<Cell<T>>, c: Cell<T>)
    requires !c.Val?
    ensures multiset(s)[c] == Num(s, Kind(c), 0, |s|)
  {
    if s != [] {
      var front := s[..|s| - 1];
      NumCounts(front, c);
      assert s == front + [s[|s| - 1]];
      NumSame(s, front, Kind(c), 0, |front|);
    }
  }

  // ----- Moving the values to the front

  /** The values are those of s, each as often. */
  ghost predicate SameValues<T(!new)>(s: seq<Cell<T>>, t: seq<Cell<T>>) {
    |s| == |t| && forall v :: ValueCount(s, v) == ValueCount(t, v)
  }

  ghost function ValueCount<T>(s: seq<Cell<T>>, v: T): nat {
    multiset(s)[Val(v)]
  }

  lemma SameValuesTrans<T(!new)>(s: seq<Cell<T>>, t: seq<Cell<T>>, u: seq<Cell<T>>)
    requires SameValues(s, t) && SameValues(t, u)
    ensures SameValues(s, u)
  {
    forall v ensures ValueCount(s, v) == ValueCount(u, v) {
      assert ValueCount(s, v) == ValueCount(t, v);
    }
  }

  lemma {:induction false} NumUpdate<T>(s: seq<Cell<T>>, kind: nat, i: int, c: Cell<T>, hi: int)
    requires 0 <= i < |s| && 0 <= hi <= |s|
    ensures Num(s[i := c], kind, 0, hi) == Num(s, kind, 0, hi)
      + (if i < hi && Kind(c) == kind then 1 else 0) - (if i < hi && Kind(s[i]) == kind then 1 else 0)
    decreases hi
  {
    if hi > 0 { NumUpdate(s, kind, i, c, hi - 1); }
  }

  lemma MoveValueCount<T>(s: seq<Cell<T>>, u: seq<Cell<T>>, f: int, l: int, v: T)
    requires 0 <= f < l < |s| && !s[f].Val? && s[l].Val? && u == s[f := s[l]]
    ensures ValueCount(s, v) == ValueCount(u[l := Undef], v)
  {
    UpdateCount(s, f, s[l], Val(v));
    UpdateCount(u, l, Undef, Val(v));
  }

  lemma MoveValue<T(!new)>(s: seq<Cell<T>>, f: int, l: int)
    requires 0 <= f < l < |s| && !s[f].Val? && s[l].Val?
    ensures SameValues(s, s[f := s[l]][l := Undef])
    ensures Num(s[f := s[l]][l := Undef], 0, 0, |s|) == Num(s, 0, 0, |s|)
  {
    var u := s[f := s[l]];
    var t := u[l := Undef];
    forall v ensures ValueCount(s, v) == ValueCount(t, v) {
      MoveValueCount(s, u, f, l, v);
    }
    NumUpdate(s, 0, f, s[l], |s|);
    NumUpdate(u, 0, l, Undef, |s|);
  }

  /**
   The state of the compaction: values in front of f, none behind l, and h holes found so
   far. The comment in the code says holes up to f or behind l are counted; the hole at f is
   counted only once f has stopped there.
   */
  ghost predicate Compacting<T(!new)>(s0: seq<Cell<T>>, s: seq<Cell<T>>, f: int, l: int, h: int) {
    && SameValues(s0, s) && Num(s, 0, 0, |s|) == Num(s0, 0, 0, |s0|)
    && Sided(s0, s, f, l)
    && h == HolesFound(s0, s, f, l)
  }

  ghost predicate Sided<T>(s0: seq<Cell<T>>, s: seq<Cell<T>>, f: int, l: int) {
    && 0 <= f <= l < |s| == |s0|
    && (forall k :: 0 <= k < f ==> s[k].Val?)
    && (forall k :: l < k < |s| ==> !s[k].Val?)
    && (forall k :: f < k <= l ==> (s[k].Hole? <==> s0[k].Hole?))
    && (s[f].Val? || (s[f].Hole? <==> s0[f].Hole?))
  }

  ghost function HolesFound<T>(s0: seq<Cell<T>>, s: seq<Cell<T>>, f: int, l: int): int
    requires 0 <= f <= l < |s| == |s0|
  {
    if f == l then Num(s0, 2, 0, |s0|)
    else Num(s0, 2, 0, if s[f].Val? then f + 1 else f) + Num(s0, 2, l + 1, |s0|)
  }

  method FindUndefined<T>(a: array<Cell<T>>, f: int, l: int) returns (f': int)
    requires 0 <= f < l < a.Length
    ensures f <= f' <= l && (forall k :: f <= k < f' ==> a[k].Val?) && (f' < l ==> !a[f'].Val?)
  {
    f' := f;
    while f' < l && a[f'].Val?
      invariant f <= f' <= l && forall k :: f <= k < f' ==> a[k].Val?
    {
      f' := f' + 1;
    }
  }

  method FindDefined<T>(a: array<Cell<T>>, f: int, l: int, h: int) returns (l': int, h': int)
    requires 0 <= f <= l < a.Length
    ensures f <= l' <= l && (forall k :: l' < k <= l ==> !a[k].Val?) && (f < l' ==> a[l'].Val?)
    ensures h' == h + Num(a[..], 2, l' + 1, l + 1)
  {
    l', h' := l, h;
    while f < l' && !a[l'].Val?
      invariant f <= l' <= l && forall k :: l' < k <= l ==> !a[k].Val?
      invariant h' == h + Num(a[..], 2, l' + 1, l + 1)
    {
      NumSplit(a[..], 2, l', l' + 1, l + 1);
      assert Num(a[..], 2, l', l' + 1) == Num(a[..], 2, l', l') + if a[l'].Hole? then 1 else 0;
      if a[l'].Hole? { h' := h' + 1; }
      l' := l' - 1;
    }
  }

  /** Between from and to the same cells are holes. */
  ghost predicate SameHoles<T>(s: seq<Cell<T>>, s0: seq<Cell<T>>, from: int, to: int) {
    0 <= from <= to <= |s| == |s0| && forall k :: from <= k < to ==> (s[k].Hole? <==> s0[k].Hole?)
  }

  function OneIf(b: bool): int { if b then 1 else 0 }

  /** The holes f adds: it passes over values only, and stops at f'. */
  lemma HolesPassed<T>(s: seq<Cell<T>>, s0: seq<Cell<T>>, from: int, f': int)
    requires from <= f' < |s| && SameHoles(s, s0, from, f' + 1) && forall k :: from <= k < f' ==> s[k].Val?
    ensures Num(s0, 2, 0, f' + 1) == Num(s0, 2, 0, from) + OneIf(s[f'].Hole?)
  {
    NumSplit(s0, 2, 0, from, f');
    NumNone(s0, 2, from, f');
  }

  /** The holes l adds. */
  lemma HolesDropped<T>(s: seq<Cell<T>>, s0: seq<Cell<T>>, l': int, l: int)
    requires 0 <= l' <= l < |s| && SameHoles(s, s0, l' + 1, l + 1)
    ensures Num(s, 2, l' + 1, l + 1) + Num(s0, 2, l + 1, |s0|) == Num(s0, 2, l' + 1, |s0|)
  {
    NumSame(s, s0, 2, l' + 1, l + 1);
    NumSplit(s0, 2, l' + 1, l + 1, |s0|);
  }

  lemma RoundHoles<T(!new)>(s0: seq<Cell<T>>, s: seq<Cell<T>>, f: int, l: int, h: int, f': int, l': int)
    requires Compacting(s0, s, f, l, h) && f < l && f <= f' <= l' <= l
    requires (forall k :: f <= k < f' ==> s[k].Val?) && (f' < l ==> !s[f'].Val?)
    ensures h + OneIf(s[f'].Hole?) + Num(s, 2, l' + 1, l + 1) == Num(s0, 2, 0, f' + 1) + Num(s0, 2, l' + 1, |s0|)
  {
    var from := if s[f].Val? then f + 1 else f;
    HolesPassed(s, s0, from, f');
    HolesDropped(s, s0, l', l);
  }

  /** Filling f from l. */
  lemma FillKeeps<T(!new)>(s0: seq<Cell<T>>, s: seq<Cell<T>>, f: int, l: int, h: int, f': int, l': int)
    requires Compacting(s0, s, f, l, h) && f < l && f <= f' < l' <= l
    requires (forall k :: f <= k < f' ==> s[k].Val?) && !s[f'].Val?
    requires (forall k :: l' < k <= l ==> !s[k].Val?) && s[l'].Val?
    ensures Compacting(s0, s[f' := s[l']][l' := Undef], f', l', Num(s0, 2, 0, f' + 1) + Num(s0, 2, l' + 1, |s0|))
  {
    var t := s[f' := s[l']][l' := Undef];
    MoveValue(s, f', l');
    SameValuesTrans(s0, s, t);
    FillSides(s0, s, f, l, f', l');
  }

  lemma FillSides<T>(s0: seq<Cell<T>>, s: seq<Cell<T>>, f: int, l: int, f': int, l': int)
    requires Sided(s0, s, f, l) && f < l && f <= f' < l' <= l
    requires (forall k :: f <= k < f' ==> s[k].Val?) && !s[f'].Val?
    requires (forall k :: l' < k <= l ==> !s[k].Val?) && s[l'].Val?
    ensures Sided(s0, s[f' := s[l']][l' := Undef], f', l')
  {
  }

  lemma MeetKeeps<T(!new)>(s0: seq<Cell<T>>, s: seq<Cell<T>>, f: int, l: int, h: int, f': int)
    requires Compacting(s0, s, f, l, h) && f < l && f <= f' <= l
    requires (forall k :: f <= k < f' ==> s[k].Val?) && (forall k :: f' < k <= l ==> !s[k].Val?)
    ensures Compacting(s0, s, f', f', Num(s0, 2, 0, f' + 1) + Num(s0, 2, f' + 1, |s0|))
  {
    NumSplit(s0, 2, 0, f' + 1, |s0|);
  }

  method CompactRound<T(!new)>(a: array<Cell<T>>, f: int, l: int, h: int, ghost s0: seq<Cell<T>>)
      returns (f': int, l': int, h': int)
    requires Compacting(s0, a[..], f, l, h) && f < l
    modifies a
    ensures Compacting(s0, a[..], f', l', h')
    ensures 2 * (l' - f') + OneIf(!a[f'].Val?) < 2 * (l - f) + OneIf(!old(a[f].Val?))
  {
    ghost var s := a[..];
    f' := FindUndefined(a, f, l);
    h' := h;
    if a[f'].Hole? { h' := h' + 1; }
    l', h' := FindDefined(a, f', l, h');
    RoundHoles(s0, s, f, l, h, f', l');
    if f' < l' {
      FillKeeps(s0, s, f, l, h, f', l');
      a[f'] := a[l'];
      a[l'] := Undef;
      assert a[..] == s[f' := s[l']][l' := Undef];
    } else {
      MeetKeeps(s0, s, f, l, h, f');
    }
  }

  // ----- The whole compaction

  /** n values, then undefined elements, then holes. */
  ghost predicate Compacted<T>(s: seq<Cell<T>>, n: int, holes: int) {
    && 0 <= n <= holes <= |s|
    && (forall k :: 0 <= k < n ==> s[k].Val?)
    && (forall k :: n <= k < holes ==> s[k] == Undef)
    && (forall k :: holes <= k < |s| ==> s[k] == Hole)
  }

  lemma FrontValues<T>(s: seq<Cell<T>>, t: seq<Cell<T>>, n: int, v: T)
    requires 0 <= n <= |s| == |t| && forall k :: 0 <= k < n ==> s[k] == t[k]
    requires forall k :: n <= k < |s| ==> !s[k].Val? && !t[k].Val?
    ensures ValueCount(s, v) == ValueCount(t, v)
  {
    assert s == s[..n] + s[n..] && t == t[..n] + t[n..];
    assert s[..n] == t[..n];
    assert Val(v) !in s[n..] && Val(v) !in t[n..];
  }

  /** The number of values, and of holes, of the array the compaction started from. */
  lemma CompactedNumbers<T(!new)>(s0: seq<Cell<T>>, s: seq<Cell<T>>, f: int, h: int, n: int)
    requires Compacting(s0, s, f, f, h) && n == f + OneIf(s[f].Val?)
    ensures Num(s0, 0, 0, |s0|) == n && Num(s0, 2, 0, |s0|) == h && Num(s0, 1, 0, |s0|) == |s0| - h - n
  {
    NumSplit(s, 0, 0, n, |s|);
    NumEvery(s, 0, 0, n);
    NumNone(s, 0, n, |s|);
    NumAll(s0, 0, |s0|);
  }

  lemma FilledNumbers<T>(t: seq<Cell<T>>, n: int, holes: int)
    requires Compacted(t, n, holes)
    ensures Num(t, 2, 0, |t|) == |t| - holes && Num(t, 1, 0, |t|) == holes - n
  {
    NumSplit(t, 2, 0, holes, |t|);
    NumNone(t, 2, 0, holes);
    NumEvery(t, 2, holes, |t|);
    NumSplit(t, 1, 0, n, |t|);
    NumNone(t, 1, 0, n);
    NumSplit(t, 1, n, holes, |t|);
    NumEvery(t, 1, n, holes);
    NumNone(t, 1, holes, |t|);
  }

  /** Filling up the end restores every count. */
  lemma FilledSame<T(!new)>(s0: seq<Cell<T>>, s: seq<Cell<T>>, t: seq<Cell<T>>, f: int, h: int, n: int)
    requires Compacting(s0, s, f, f, h) && n == f + OneIf(s[f].Val?)
    requires |t| == |s0| && Compacted(t, n, |s0| - h) && forall k :: 0 <= k < n ==> t[k] == s[k]
    ensures multiset(t) == multiset(s0)
  {
    CompactedNumbers(s0, s, f, h, n);
    FilledNumbers(t, n, |s0| - h);
    forall c ensures multiset(t)[c] == multiset(s0)[c] {
      if c.Val? {
        FrontValues(s, t, n, c.v);
        assert ValueCount(s0, c.v) == ValueCount(s, c.v);
      } else {
        NumCounts(t, c);
        NumCounts(s0, c);
      }
    }
    SameCounts(multiset(t), multiset(s0));
  }

  /** Writes undefined elements from n up to the holes, and holes from there on. */
  method FillEnd<T>(a: array<Cell<T>>, n: int, holes: int)
    requires 0 <= n <= holes <= a.Length && forall k :: 0 <= k < n ==> a[k].Val?
    modifies a
    ensures Compacted(a[..], n, holes) && forall k :: 0 <= k < n ==> a[k] == old(a[k])
  {
    for i := n to holes
      invariant forall k :: 0 <= k < n ==> a[k] == old(a[k])
      invariant forall k :: n <= k < i ==> a[k] == Undef
    {
      a[i] := Undef;
    }
    for i := holes to a.Length
      invariant forall k :: 0 <= k < n ==> a[k] == old(a[k])
      invariant forall k :: n <= k < holes ==> a[k] == Undef
      invariant forall k :: holes <= k < i ==> a[k] == Hole
    {
      a[i] := Hole;
    }
  }

  /**
   Values to the front, undefined elements behind them, holes last; nothing is lost or made.
   Returns how many values there are.
   */
  method SafeRemoveArrayHoles<T(!new)>(a: array<Cell<T>>) returns (n: int)
    requires a.Length >= 2
    modifies a
    ensures multiset(a[..]) == old(multiset(a[..]))
    ensures n == Num(old(a[..]), 0, 0, a.Length)
    ensures Compacted(a[..], n, a.Length - Num(old(a[..]), 2, 0, a.Length))
  {
    ghost var s0 := a[..];
    var f, l, h := 0, a.Length - 1, 0;
    while f < l
      invariant Compacting(s0, a[..], f, l, h)
      decreases 2 * (l - f) + OneIf(!a[f].Val?)
    {
      f, l, h := CompactRound(a, f, l, h, s0);
    }
    ghost var s := a[..];
    n := f;
    if a[f].Val? { n := n + 1; }
    CompactedNumbers(s0, s, f, h, n);
    FillEnd(a, n, a.Length - h);
    FilledSame(s0, s, a[..], f, h, n);
  }

  // ----- Sorting

  lemma CompactedSorted<T(!new)>(cmp: Comparison<T>, s: seq<Cell<T>>, n: int, holes: int)
    requires Compacted(s, n, holes) && SortedIn(CellOrder(cmp), s, 0, n)
    ensures SortedIn(CellOrder(cmp), s, 0, |s|)
  {
    forall i, j | 0 <= i < j < |s| ensures Order(CellOrder(cmp), s[i], s[j]) <= 0 {
      if j >= n {
        assert CompareCells(cmp, s[i], s[j]) == Kind(s[i]) - Kind(s[j]);
      }
    }
  }

  lemma RearrangedCompacted<T(!new)>(s: seq<Cell<T>>, t: seq<Cell<T>>, n: int, holes: int)
    requires Compacted(s, n, holes) && Rearranged(s, t, 0, n)
    ensures Compacted(t, n, holes)
  {
    forall k | 0 <= k < n ensures t[k].Val? {
      var m := RearrangedFrom(s, t, 0, n, k);
    }
  }

  /**
   ArraySort: with any comparison function a rearrangement, the values in front, then the
   undefined elements, then the holes; with a consistent one, sorted.
   */
  method Sort<T(==, !new)>(cmp: Comparison<T>, a: array<Cell<T>>)
    modifies a
    ensures multiset(a[..]) == old(multiset(a[..]))
    ensures a.Length >= 2 ==>
      Compacted(a[..], Num(old(a[..]), 0, 0, a.Length), a.Length - Num(old(a[..]), 2, 0, a.Length))
    ensures ConsistentOnValues(cmp, old(multiset(a[..]))) ==> SortedIn(CellOrder(cmp), a[..], 0, a.Length)
  {
    if a.Length < 2 { return; }
    ghost var s0 := a[..];
    var n := SafeRemoveArrayHoles(a);
    ghost var s, holes := a[..], a.Length - Num(s0, 2, 0, |s0|);
    QuickSort.Sort(CellOrder(cmp), a, 0, n, multiset(s));
    RearrangedCompacted(s, a[..], n, holes);
    if ConsistentOnValues(cmp, multiset(s0)) {
      CellOrderConsistent(cmp, multiset(s0));
      CompactedSorted(cmp, a[..], n, holes);
    }
  }
}
