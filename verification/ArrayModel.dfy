/**
 The arrays of src/array.js: a map from indices to elements, and a length. An element may
 hold the value undefined; an index with no element is a hole. Elements are not inherited,
 so that the code's test (the element is not undefined, or its index is in the array) asks
 whether the index is in the map.
 */
module ArrayModel {

  class JsArray<V> {
    var elems: map<nat, V>
    var length: nat

    ghost predicate Valid()
      reads this
    {
      forall k :: k in elems ==> k < length
    }

    constructor (length: nat)
      ensures Valid() && elems == map[] && this.length == length
    {
      elems, this.length := map[], length;
    }

    /** Assigning to an element makes the array long enough. */
    method Set(i: nat, v: V)
      requires Valid()
      modifies this
      ensures Valid() && At(elems, i) == Elem(v) && forall k: nat {:trigger At(elems, k)} :: k != i ==>
        At(elems, k) == At(old(elems), k)
      ensures length == if i < old(length) then old(length) else i + 1
    {
      elems := elems[i := v];
      if i >= length { length := i + 1; }
    }

    method Delete(i: nat)
      requires Valid()
      modifies this
      ensures Valid() && length == old(length)
      ensures At(elems, i) == Hole && forall k: nat {:trigger At(elems, k)} :: k != i ==>
        At(elems, k) == At(old(elems), k)
    {
      elems := elems - {i};
    }

    /** Assigning to the length drops the elements beyond it. */
    method SetLength(n: nat)
      requires Valid()
      modifies this
      ensures Valid() && length == n
      ensures forall k: nat {:trigger At(elems, k)} :: At(elems, k) == if k < n then At(old(elems), k) else Hole
    {
      elems, length := map k | k in elems && k < n :: elems[k], n;
    }

    /** Puts at i what is, or is not, at index j of another array. */
    method CopyFrom(i: nat, source: map<nat, V>, j: nat)
      requires Valid()
      modifies this
      ensures Valid() && At(elems, i) == At(source, j)
      ensures forall k: nat {:trigger At(elems, k)} :: k != i ==> At(elems, k) == At(old(elems), k)
      ensures length == if j in source && i >= old(length) then i + 1 else old(length)
    {
      if j in source { Set(i, source[j]); } else { Delete(i); }
    }
  }

  datatype Slot<V> = Hole | Elem(value: V)

  function At<V>(m: map<nat, V>, i: int): Slot<V> {
    if i in m then Elem(m[i]) else Hole
  }

  /** Arrays with the same slots are the same. */
  lemma SameSlots<V>(m: map<nat, V>, n: map<nat, V>)
    requires forall j: nat :: At(m, j) == At(n, j)
    ensures m == n
  {
    forall j ensures j in m <==> j in n {
      if j in m || j in n { assert At(m, j) == At(n, j); }
    }
    forall j | j in m ensures m[j] == n[j] {
      assert At(m, j) == At(n, j);
    }
  }

  // ----- Keys of a sparse array

  /** What the native GetArrayKeys returns: single indices, undefined entries to be skipped, and intervals. */
  datatype Entry = Key(key: nat) | Skip | Interval(start: nat, len: nat)

  predicate Covers(e: Entry, i: int) {
    match e
    case Key(k) => i == k
    case Skip => false
    case Interval(s, l) => s <= i < s + l
  }

  predicate Below(e: Entry, n: nat) {
    match e
    case Key(k) => k < n
    case Skip => true
    case Interval(s, l) => s + l <= n
  }

  ghost predicate CoversUpTo(es: seq<Entry>, x: nat, i: int)
    requires x <= |es|
  {
    exists k :: 0 <= k < x && Covers(es[k], i)
  }

  /** The entries stay below n and cover every element below n; they may overlap. */
  ghost predicate KeysOf<V>(es: seq<Entry>, m: map<nat, V>, n: nat) {
    && (forall k :: 0 <= k < |es| ==> Below(es[k], n))
    && (forall i :: i in m && i < n ==> CoversUpTo(es, |es|, i))
  }
}
