/**
 src/array.js:41-67, 475-549: reverse. The sparse variant swaps only mirror pairs that hold
 an element, going inwards from both ends of a list of keys made once at the start; it
 leaves the same array as the loop over all indices (section 15.4.4.8 of ECMA-262, 5th
 edition).
 */
module ArrayReverse {
  import opened ArrayModel
  import opened SortOrder
  import QuickSort

  ghost predicate Reversed<V>(n: map<nat, V>, m: map<nat, V>, len: nat) {
    forall j: nat {:trigger At(n, j)} :: At(n, j) == if j < len then At(m, len - 1 - j) else At(m, j)
  }

  lemma ReversedUnique<V>(n: map<nat, V>, n': map<nat, V>, m: map<nat, V>, len: nat)
    requires Reversed(n, m, len) && Reversed(n', m, len)
    ensures n == n'
  {
    SameSlots(n, n');
  }

  /** Reversing twice is doing nothing. */
  lemma ReversedTwice<V>(k: map<nat, V>, n: map<nat, V>, m: map<nat, V>, len: nat)
    requires Reversed(n, m, len) && Reversed(k, n, len)
    ensures k == m
  {
    SameSlots(k, m);
  }

  /** Exchanges two slots, holes included. */
  method SwapSlots<V>(a: JsArray<V>, low: nat, high: nat)
    requires a.Valid() && low < a.length && high < a.length
    modifies a
    ensures a.Valid() && a.length == old(a.length)
    ensures At(a.elems, low) == At(old(a.elems), high) && At(a.elems, high) == At(old(a.elems), low)
    ensures forall k: nat {:trigger At(a.elems, k)} :: k != low && k != high ==> At(a.elems, k) == At(old(a.elems), k)
  {
    if low in a.elems {
      var currentI := a.elems[low];
      if high in a.elems {
        var currentJ := a.elems[high];
        a.Set(low, currentJ);
        a.Set(high, currentI);
      } else {
        a.Set(high, currentI);
        a.Delete(low);
      }
    } else if high in a.elems {
      var currentJ := a.elems[high];
      a.Set(low, currentJ);
      a.Delete(high);
    }
  }

  /** The outer q pairs are exchanged, the rest is as it was. */
  ghost predicate Reversing<V>(n: map<nat, V>, m: map<nat, V>, len: nat, q: int) {
    forall j: nat {:trigger At(n, j)} ::
      At(n, j) == if j < len && (j < q || j > len - 1 - q) then At(m, len - 1 - j) else At(m, j)
  }

  method DenseReverse<V>(a: JsArray<V>)
    requires a.Valid()
    modifies a
    ensures a.Valid() && a.length == old(a.length) && Reversed(a.elems, old(a.elems), a.length)
  {
    ghost var m, len := a.elems, a.length;
    var i: int, j: int := 0, a.length - 1;
    while i < j
      invariant 0 <= i && i + j + 1 == len && a.Valid() && a.length == len && i <= j + 2
      invariant Reversing(a.elems, m, len, i)
      decreases j - i
    {
      SwapSlots(a, i, j);
      i, j := i + 1, j - 1;
    }
  }

  // ----- The keys

  ghost predicate Sorted(keys: seq<int>) {
    forall i, j :: 0 <= i < j < |keys| ==> keys[i] <= keys[j]
  }

  /** The keys of the elements below len, in order; some may occur more than once. */
  ghost predicate ElementKeys<V>(keys: seq<int>, m: map<nat, V>, len: nat) {
    && Sorted(keys)
    && forall k :: k in keys <==> k in m && k < len
  }

  ghost predicate CollectedUpTo<V>(keys: seq<int>, m: map<nat, V>, es: seq<Entry>, x: nat)
    requires x <= |es|
  {
    forall k :: k in keys <==> k in m && CoversUpTo(es, x, k)
  }

  method CollectEntry<V>(a: JsArray<V>, es: seq<Entry>, x: nat, keys0: seq<int>) returns (keys: seq<int>)
    requires x < |es| && CollectedUpTo(keys0, a.elems, es, x)
    ensures CollectedUpTo(keys, a.elems, es, x + 1)
  {
    keys := keys0;
    match es[x] {
      case Interval(s, l) =>
        var j := s;
        while j < s + l
          invariant s <= j <= s + l
          invariant forall k :: k in keys <==> k in keys0 || (k in a.elems && s <= k < j)
        {
          if j in a.elems { keys := keys + [j]; }
          j := j + 1;
        }
      case Key(k) =>
        if k in a.elems { keys := keys + [k]; }
      case Skip =>
    }
    forall k ensures CoversUpTo(es, x + 1, k) <==> CoversUpTo(es, x, k) || Covers(es[x], k) {
      if CoversUpTo(es, x, k) {
        var y :| 0 <= y < x && Covers(es[y], k);
        assert y < x + 1;
      }
    }
  }

  function Difference(x: int, y: int): int { x - y }

  lemma DifferenceConsistent(m: multiset<int>)
    ensures Consistent(Difference, m)
  {
  }

  method SortKeys(found: seq<int>) returns (keys: seq<int>)
    ensures Sorted(keys) && forall k :: k in keys <==> k in found
  {
    var a := new int[|found|](i requires 0 <= i < |found| => found[i]);
    assert a[..] == found;
    DifferenceConsistent(multiset(found));
    QuickSort.Sort(Difference, a, 0, a.Length, multiset(found));
    keys := a[..];
    SameMembers(keys, found);
    forall i, j | 0 <= i < j < |keys| ensures keys[i] <= keys[j] {
      assert Order(Difference, keys[i], keys[j]) <= 0;
    }
  }

  lemma SameMembers(s: seq<int>, t: seq<int>)
    requires multiset(s) == multiset(t)
    ensures forall k :: k in s <==> k in t
  {
    forall k ensures k in s <==> k in t {
      assert k in s <==> k in multiset(s);
      assert k in t <==> k in multiset(t);
    }
  }

  method GetSortedArrayKeys<V>(a: JsArray<V>, es: seq<Entry>) returns (keys: seq<int>)
    requires a.Valid() && KeysOf(es, a.elems, a.length)
    ensures ElementKeys(keys, a.elems, a.length)
  {
    keys := [];
    for x := 0 to |es|
      invariant CollectedUpTo(keys, a.elems, es, x)
    {
      keys := CollectEntry(a, es, x, keys);
    }
    keys := SortKeys(keys);
  }

  // ----- The sparse variant

  /**
   The pairs outside q are done; the keys between the two counters are those of the elements
   in the pairs that are left.
   */
  ghost predicate KeysLeft<V>(keys: seq<int>, m: map<nat, V>, len: nat, lo: int, hi: int, q: int) {
    && 0 <= q && 0 <= lo <= |keys| && -1 <= hi < |keys|
    && (forall c :: lo <= c <= hi ==> q <= keys[c] <= len - 1 - q)
    && (forall k :: k in m && q <= k <= len - 1 - q ==> exists c :: lo <= c <= hi && keys[c] == k)
  }

  /** Past all keys equal to the one at hi, downwards. */
  method SkipDown(keys: seq<int>, ghost lo: int, hi: int) returns (hi': int)
    requires 0 <= lo <= hi < |keys| && Sorted(keys)
    ensures -1 <= hi' < hi && forall c :: 0 <= c <= hi ==> (keys[c] == keys[hi] <==> hi' < c)
  {
    hi' := hi - 1;
    while hi' >= 0 && keys[hi'] == keys[hi]
      invariant -1 <= hi' < hi && forall c :: hi' < c <= hi ==> keys[c] == keys[hi]
    {
      hi' := hi' - 1;
    }
  }

  method SkipUp(keys: seq<int>, lo: int, ghost hi: int) returns (lo': int)
    requires 0 <= lo <= hi < |keys| && Sorted(keys)
    ensures lo < lo' <= |keys| && forall c :: lo <= c < |keys| ==> (keys[c] == keys[lo] <==> c < lo')
  {
    lo' := lo + 1;
    while lo' < |keys| && keys[lo'] == keys[lo]
      invariant lo < lo' <= |keys| && forall c :: lo <= c < lo' ==> keys[c] == keys[lo]
    {
      lo' := lo' + 1;
    }
  }

  /** The pair p of the outermost key left, or of both; moves the counters past it. */
  method NextPair<V>(keys: seq<int>, ghost m: map<nat, V>, len: nat, lo: int, hi: int, ghost q: int)
      returns (low: int, high: int, lo': int, hi': int)
    requires KeysLeft(keys, m, len, lo, hi, q) && lo <= hi && Sorted(keys) && q <= len
    ensures q <= low <= high && low + high == len - 1
    ensures KeysLeft(keys, m, len, lo', hi', low + 1)
    ensures forall k :: k in m ==> !(q <= k < low) && !(high < k <= len - 1 - q)
    ensures hi' - lo' < hi - lo
  {
    var i, j := keys[lo], keys[hi];
    var complement := len - j - 1;
    lo', hi', low, high := lo, hi, i, j;
    if complement <= i {
      high := j;
      hi' := SkipDown(keys, lo, hi);
      low := complement;
    }
    if complement >= i {
      low := i;
      lo' := SkipUp(keys, lo, hi);
      high := len - i - 1;
    }
  }

  lemma AllKeysLeft<V>(keys: seq<int>, m: map<nat, V>, len: nat)
    requires ElementKeys(keys, m, len)
    ensures KeysLeft(keys, m, len, 0, |keys| - 1, 0)
  {
    forall c | 0 <= c < |keys| ensures 0 <= keys[c] < len {
      assert keys[c] in keys;
    }
    forall k | k in m && k < len ensures exists c :: 0 <= c <= |keys| - 1 && keys[c] == k {
      assert k in keys;
      var c :| 0 <= c < |keys| && keys[c] == k;
    }
  }

  /** Pairs without elements need no exchange. */
  lemma SwapReverses<V>(n': map<nat, V>, n: map<nat, V>, m: map<nat, V>, len: nat, q: int, low: int, high: int)
    requires Reversing(n, m, len, q) && 0 <= q <= low <= high && low + high == len - 1
    requires forall k :: k in m ==> !(q <= k < low) && !(high < k <= len - 1 - q)
    requires At(n', low) == At(n, high) && At(n', high) == At(n, low)
    requires forall k: nat {:trigger At(n', k)} :: k != low && k != high ==> At(n', k) == At(n, k)
    ensures Reversing(n', m, len, low + 1)
  {
    forall j: nat {:trigger At(n', j)}
      ensures At(n', j) == if j < len && (j < low + 1 || j > len - 1 - (low + 1)) then At(m, len - 1 - j) else At(m, j)
    {
      assert At(n, j) == if j < len && (j < q || j > len - 1 - q) then At(m, len - 1 - j) else At(m, j);
    }
  }

  /** No keys left: the pairs that remain are empty. */
  lemma NothingLeft<V>(n: map<nat, V>, keys: seq<int>, m: map<nat, V>, len: nat, lo: int, hi: int, q: int)
    requires Reversing(n, m, len, q) && KeysLeft(keys, m, len, lo, hi, q) && lo > hi
    ensures Reversed(n, m, len)
  {
    forall j: nat {:trigger At(n, j)} ensures At(n, j) == if j < len then At(m, len - 1 - j) else At(m, j) {
      if q <= j <= len - 1 - q {
        assert At(m, j) == Hole && At(m, len - 1 - j) == Hole;
      }
    }
  }

  method SparseReverse<V>(a: JsArray<V>, es: seq<Entry>)
    requires a.Valid() && KeysOf(es, a.elems, a.length)
    modifies a
    ensures a.Valid() && a.length == old(a.length) && Reversed(a.elems, old(a.elems), a.length)
  {
    ghost var m := a.elems;
    var len := a.length;
    var keys := GetSortedArrayKeys(a, es);
    var lo, hi := 0, |keys| - 1;
    ghost var q := 0;
    AllKeysLeft(keys, m, len);
    while lo <= hi
      invariant a.Valid() && a.length == len && 0 <= q <= len
      invariant KeysLeft(keys, m, len, lo, hi, q)
      invariant Reversing(a.elems, m, len, q)
      decreases hi - lo
    {
      var low, high;
      low, high, lo, hi := NextPair(keys, m, len, lo, hi, q);
      ghost var n := a.elems;
      SwapSlots(a, low, high);
      SwapReverses(a.elems, n, m, len, q, low, high);
      q := low + 1;
    }
    NothingLeft(a.elems, keys, m, len, lo, hi, q);
  }

  /** ArrayReverse: which variant runs is the engine's choice. */
  method Reverse<V>(a: JsArray<V>, sparse: bool, es: seq<Entry>)
    requires a.Valid() && KeysOf(es, a.elems, a.length)
    modifies a
    ensures a.Valid() && a.length == old(a.length) && Reversed(a.elems, old(a.elems), a.length)
  {
    if sparse { SparseReverse(a, es); } else { DenseReverse(a); }
  }
}
