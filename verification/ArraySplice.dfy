/**
 src/array.js:221-377, 648-721: splice. The fast paths, which go through the keys of a
 sparse array, and the simple ones, which go through all indices, have the same result. It is
 the one section 15.4.4.12 of ECMA-262 (5th edition) describes, except for calls with one
 argument and for deleted elements that end in a hole; SpliceFollows says exactly when.
 */
module ArraySplice {
  import opened ArrayModel

  // ----- The result

  /** The index that ends up at j when del elements at start make room for num others. */
  function Source(start: nat, del: nat, num: nat, j: int): int {
    if j < start then j else j - num + del
  }

  /** The elements that are not deleted are where they belong; the places between are left open. */
  ghost predicate Moved<V>(n: map<nat, V>, m: map<nat, V>, start: nat, del: nat, num: nat) {
    forall j: nat {:trigger At(n, j)} :: j < start || j >= start + num ==> At(n, j) == At(m, Source(start, del, num, j))
  }

  ghost predicate Sliced<V>(d: map<nat, V>, m: map<nat, V>, start: nat, del: nat) {
    forall j: nat {:trigger At(d, j)} :: At(d, j) == if j < del then At(m, start + j) else Hole
  }

  ghost predicate Spliced<V>(n: map<nat, V>, m: map<nat, V>, start: nat, del: nat, items: seq<V>) {
    && Moved(n, m, start, del, |items|)
    && forall j: nat {:trigger At(n, j)} :: start <= j < start + |items| ==> At(n, j) == Elem(items[j - start])
  }

  /** There is only one such array. */
  lemma SplicedUnique<V>(n: map<nat, V>, n': map<nat, V>, m: map<nat, V>, start: nat, del: nat, items: seq<V>)
    requires Spliced(n, m, start, del, items) && Spliced(n', m, start, del, items)
    ensures n == n'
  {
    SameSlots(n, n');
  }

  lemma SlicedUnique<V>(d: map<nat, V>, d': map<nat, V>, m: map<nat, V>, start: nat, del: nat)
    requires Sliced(d, m, start, del) && Sliced(d', m, start, del)
    ensures d == d'
  {
    SameSlots(d, d');
  }

  // ----- The simple paths

  method SimpleSlice<V>(a: JsArray<V>, start: nat, del: nat, deleted: JsArray<V>)
    requires a != deleted && a.Valid() && deleted.Valid() && deleted.elems == map[] && deleted.length == del
    modifies deleted
    ensures deleted.Valid() && Sliced(deleted.elems, a.elems, start, del) && deleted.length == del
  {
    for i := 0 to del
      invariant deleted.Valid() && deleted.length == del
      invariant Sliced(deleted.elems, a.elems, start, i)
    {
      if start + i in a.elems { deleted.Set(i, a.elems[start + i]); }
    }
  }

  method SimpleMove<V>(a: JsArray<V>, start: nat, del: nat, len: nat, num: nat)
    requires a.Valid() && a.length == len && start + del <= len
    modifies a
    ensures a.Valid() && Moved(a.elems, old(a.elems), start, del, num)
  {
    ghost var m := a.elems;
    if num != del {
      if num > del {
        var i := len - del;
        while i > start
          invariant start <= i <= len - del && a.Valid()
          invariant forall j: nat {:trigger At(a.elems, j)} :: j < i + num ==> At(a.elems, j) == At(m, j)
          invariant forall j: nat {:trigger At(a.elems, j)} :: j >= i + num ==> At(a.elems, j) == At(m, j - num + del)
          decreases i
        {
          a.CopyFrom(i + num - 1, a.elems, i + del - 1);
          i := i - 1;
        }
      } else {
        var i := start;
        while i < len - del
          invariant start <= i <= len - del && a.Valid()
          invariant forall j: nat {:trigger At(a.elems, j)} :: start + num <= j < i + num ==>
            At(a.elems, j) == At(m, j - num + del)
          invariant forall j: nat {:trigger At(a.elems, j)} :: j < start + num || j >= i + num ==>
            At(a.elems, j) == At(m, j)
        {
          a.CopyFrom(i + num, a.elems, i + del);
          i := i + 1;
        }
        i := len;
        while i > len - del + num
          invariant len - del + num <= i <= len && a.Valid()
          invariant forall j: nat {:trigger At(a.elems, j)} :: start + num <= j < len - del + num ==>
            At(a.elems, j) == At(m, j - num + del)
          invariant forall j: nat {:trigger At(a.elems, j)} :: j < start + num ==> At(a.elems, j) == At(m, j)
          invariant forall j: nat {:trigger At(a.elems, j)} :: j >= i ==> At(a.elems, j) == Hole
          decreases i
        {
          a.Delete(i - 1);
          i := i - 1;
        }
      }
    }
  }

  // ----- The sparse paths

  lemma CoversNext(es: seq<Entry>, x: nat, i: int)
    requires x < |es|
    ensures CoversUpTo(es, x + 1, i) <==> CoversUpTo(es, x, i) || Covers(es[x], i)
  {
    if CoversUpTo(es, x, i) {
      var k :| 0 <= k < x && Covers(es[k], i);
      assert k < x + 1;
    }
  }

  /**
   Nothing is in d that should not be there, and everything is whose index is in the first x
   entries or, in entry x, below limit.
   */
  ghost predicate Slicing<V>(d: map<nat, V>, m: map<nat, V>, start: nat, del: nat, es: seq<Entry>, x: nat, limit: int) {
    && x <= |es|
    && (forall j: nat {:trigger At(d, j)} :: At(d, j) == Hole || (j < del && At(d, j) == At(m, start + j)))
    && (forall j: nat {:trigger At(d, j)} ::
      j < del && (CoversUpTo(es, x, start + j) || (x < |es| && Covers(es[x], start + j) && start + j < limit)) ==>
      At(d, j) == At(m, start + j))
  }

  lemma SlicingNext<V>(d: map<nat, V>, m: map<nat, V>, start: nat, del: nat, es: seq<Entry>, x: nat, limit: int)
    requires Slicing(d, m, start, del, es, x, limit) && x < |es|
    requires forall i: int :: Covers(es[x], i) ==> i < limit || i < start
    ensures Slicing(d, m, start, del, es, x + 1, 0)
  {
    forall j: nat {:trigger At(d, j)} | j < del && CoversUpTo(es, x + 1, start + j)
      ensures At(d, j) == At(m, start + j) {
      CoversNext(es, x, start + j);
    }
  }

  lemma SlicingDone<V>(d: map<nat, V>, m: map<nat, V>, start: nat, del: nat, es: seq<Entry>)
    requires Slicing(d, m, start, del, es, |es|, 0) && KeysOf(es, m, start + del)
    ensures Sliced(d, m, start, del)
  {
    forall j: nat {:trigger At(d, j)} ensures At(d, j) == if j < del then At(m, start + j) else Hole {
      if j < del && start + j in m { assert CoversUpTo(es, |es|, start + j); }
    }
  }

  /** Copies one index into the array of deleted elements, unless it is a hole. */
  method SliceOne<V>(a: JsArray<V>, i: nat, start: nat, ghost del: nat, deleted: JsArray<V>, ghost es: seq<Entry>,
      ghost x: nat)
    requires a != deleted && deleted.Valid() && deleted.length == del && start <= i < start + del
    requires Slicing(deleted.elems, a.elems, start, del, es, x, i)
    modifies deleted
    ensures deleted.Valid() && deleted.length == del && Slicing(deleted.elems, a.elems, start, del, es, x, i + 1)
  {
    if i in a.elems { deleted.Set(i - start, a.elems[i]); }
  }

  method SmartSlice<V>(a: JsArray<V>, start: nat, del: nat, es: seq<Entry>, deleted: JsArray<V>)
    requires a != deleted && a.Valid() && deleted.Valid() && deleted.elems == map[] && deleted.length == del
    requires KeysOf(es, a.elems, start + del)
    modifies deleted
    ensures deleted.Valid() && Sliced(deleted.elems, a.elems, start, del) && deleted.length == del
  {
    for x := 0 to |es|
      invariant deleted.Valid() && deleted.length == del
      invariant Slicing(deleted.elems, a.elems, start, del, es, x, 0)
    {
      SliceEntry(a, start, del, es, x, deleted);
    }
    SlicingDone(deleted.elems, a.elems, start, del, es);
  }

  method SliceEntry<V>(a: JsArray<V>, start: nat, del: nat, es: seq<Entry>, x: nat, deleted: JsArray<V>)
    requires a != deleted && deleted.Valid() && deleted.length == del && x < |es| && KeysOf(es, a.elems, start + del)
    requires Slicing(deleted.elems, a.elems, start, del, es, x, 0)
    modifies deleted
    ensures deleted.Valid() && deleted.length == del && Slicing(deleted.elems, a.elems, start, del, es, x + 1, 0)
  {
    ghost var limit := 0;
    match es[x]
    case Interval(s, l) =>
      var j, to := s, s + l;
      assert Below(es[x], start + del);
      if j < start { j := start; }
      limit := j;
      while j < to
        invariant start <= j && to <= start + del && limit == j && deleted.Valid() && deleted.length == del
        invariant Slicing(deleted.elems, a.elems, start, del, es, x, j)
        decreases (to - j)
      {
        SliceOne(a, j, start, del, deleted, es, x);
        j := j + 1;
        limit := j;
      }
      SlicingNext(deleted.elems, a.elems, start, del, es, x, limit);
    case Key(k) =>
      if k >= start {
        assert Below(es[x], start + del);
        SliceOne(a, k, start, del, deleted, es, x);
        limit := k + 1;
      }
      SlicingNext(deleted.elems, a.elems, start, del, es, x, limit);
    case Skip =>
      SlicingNext(deleted.elems, a.elems, start, del, es, x, limit);
  }

  /** Index j of the new array is for an element that is kept. */
  predicate Kept(start: nat, num: nat, j: int) {
    0 <= j < start || j >= start + num
  }

  /**
   Nothing is in n that should not be there, and everything is whose index is in the first x
   entries or, in entry x, below low, or behind the deleted ones and below high.
   */
  ghost predicate Moving<V>(n: map<nat, V>, m: map<nat, V>, start: nat, del: nat, num: nat, es: seq<Entry>, x: nat,
      low: int, high: int) {
    && x <= |es|
    && (forall j: nat {:trigger At(n, j)} ::
      At(n, j) == Hole || (Kept(start, num, j) && At(n, j) == At(m, Source(start, del, num, j))))
    && (forall j: nat {:trigger At(n, j)} ::
      Kept(start, num, j) && Reached(Source(start, del, num, j), start, del, es, x, low, high) ==>
      At(n, j) == At(m, Source(start, del, num, j)))
  }

  ghost predicate Reached(i: int, start: nat, del: nat, es: seq<Entry>, x: nat, low: int, high: int)
    requires x <= |es|
  {
    CoversUpTo(es, x, i) || (x < |es| && Covers(es[x], i) && (i < low || start + del <= i < high))
  }

  lemma MovingNext<V>(n: map<nat, V>, m: map<nat, V>, start: nat, del: nat, num: nat, es: seq<Entry>, x: nat, low: int,
      high: int)
    requires Moving(n, m, start, del, num, es, x, low, high) && x < |es|
    requires forall i: int :: Covers(es[x], i) && !(start <= i < start + del) ==> i < low || start + del <= i < high
    ensures Moving(n, m, start, del, num, es, x + 1, 0, 0)
  {
    forall j: nat {:trigger At(n, j)} | Kept(start, num, j)
      && Reached(Source(start, del, num, j), start, del, es, x + 1, 0, 0)
      ensures At(n, j) == At(m, Source(start, del, num, j))
    {
      var i := Source(start, del, num, j);
      CoversNext(es, x, i);
      assert CoversUpTo(es, x + 1, i);
      assert Reached(i, start, del, es, x, low, high);
    }
  }

  lemma MovingDone<V>(n: map<nat, V>, m: map<nat, V>, start: nat, del: nat, num: nat, es: seq<Entry>, len: nat)
    requires Moving(n, m, start, del, num, es, |es|, 0, 0) && KeysOf(es, m, len) && forall k :: k in m ==> k < len
    ensures Moved(n, m, start, del, num)
  {
    forall j: nat {:trigger At(n, j)} | Kept(start, num, j) ensures At(n, j) == At(m, Source(start, del, num, j)) {
      var i := Source(start, del, num, j);
      if i in m { assert CoversUpTo(es, |es|, i) && Reached(i, start, del, es, |es|, 0, 0); }
    }
  }

  /** Copies one index to its place in the new array, unless it is a hole. */
  method MoveOne<V>(a: JsArray<V>, i: nat, start: nat, del: nat, num: nat, b: JsArray<V>, ghost es: seq<Entry>,
      ghost x: nat, ghost low: int, ghost high: int)
    requires a != b && b.Valid() && i < a.length && a.length - del + num == b.length && start + del <= a.length
    requires i < start || i >= start + del
    requires Moving(b.elems, a.elems, start, del, num, es, x, low, high)
    modifies b
    ensures b.Valid() && b.length == old(b.length)
    ensures i < start && low == i ==> Moving(b.elems, a.elems, start, del, num, es, x, i + 1, high)
    ensures i >= start + del && high == i ==> Moving(b.elems, a.elems, start, del, num, es, x, low, i + 1)
  {
    ghost var n := b.elems;
    var j := if i < start then i else i - del + num;
    assert Source(start, del, num, j) == i && Kept(start, num, j);
    assert At(n, j) == Hole || At(n, j) == At(a.elems, i);
    if i in a.elems { b.Set(j, a.elems[i]); }
    assert At(b.elems, j) == At(a.elems, i);
    assert forall k: nat {:trigger At(b.elems, k)} :: k != j ==> At(b.elems, k) == At(n, k);
  }

  method MoveEntry<V>(a: JsArray<V>, start: nat, del: nat, num: nat, es: seq<Entry>, x: nat, b: JsArray<V>)
    requires a != b && b.Valid() && x < |es| && start + del <= a.length && a.length - del + num == b.length
      && KeysOf(es, a.elems, a.length)
    requires Moving(b.elems, a.elems, start, del, num, es, x, 0, 0)
    modifies b
    ensures b.Valid() && b.length == old(b.length) && Moving(b.elems, a.elems, start, del, num, es, x + 1, 0, 0)
  {
    match es[x]
    case Interval(s, l) =>
      var j, to := s, s + l;
      assert Below(es[x], a.length);
      assert Moving(b.elems, a.elems, start, del, num, es, x, s, 0);
      while j < start && j < to
        invariant s <= j && to <= a.length && b.Valid() && b.length == old(b.length)
        invariant Moving(b.elems, a.elems, start, del, num, es, x, j, 0)
        decreases start - j
      {
        MoveOne(a, j, start, del, num, b, es, x, j, 0);
        j := j + 1;
      }
      ghost var low := j;
      j := start + del;
      while j < to
        invariant start + del <= j && to <= a.length && b.Valid() && b.length == old(b.length)
        invariant Moving(b.elems, a.elems, start, del, num, es, x, low, j)
        decreases (to - j)
      {
        MoveOne(a, j, start, del, num, b, es, x, low, j);
        j := j + 1;
      }
      MovingNext(b.elems, a.elems, start, del, num, es, x, low, j);
    case Key(k) =>
      assert Below(es[x], a.length);
      assert Moving(b.elems, a.elems, start, del, num, es, x, k, k);
      if k < start {
        MoveOne(a, k, start, del, num, b, es, x, k, k);
        MovingNext(b.elems, a.elems, start, del, num, es, x, k + 1, k);
      } else if k >= start + del {
        MoveOne(a, k, start, del, num, b, es, x, k, k);
        MovingNext(b.elems, a.elems, start, del, num, es, x, k, k + 1);
      } else {
        MovingNext(b.elems, a.elems, start, del, num, es, x, k, k);
      }
    case Skip =>
      MovingNext(b.elems, a.elems, start, del, num, es, x, 0, 0);
  }

  /** Builds the new array beside the old one and moves its contents over. */
  method SmartMove<V>(a: JsArray<V>, start: nat, del: nat, num: nat, es: seq<Entry>)
    requires a.Valid() && start + del <= a.length && KeysOf(es, a.elems, a.length)
    modifies a
    ensures a.Valid() && Moved(a.elems, old(a.elems), start, del, num)
  {
    var b := new JsArray(a.length - del + num);
    for x := 0 to |es|
      invariant a.elems == old(a.elems) && a.length == old(a.length) && b.Valid() && b.length == a.length - del + num
      invariant Moving(b.elems, a.elems, start, del, num, es, x, 0, 0)
    {
      MoveEntry(a, start, del, num, es, x, b);
    }
    MovingDone(b.elems, a.elems, start, del, num, es, a.length);
    a.elems, a.length := b.elems, b.length;
  }

  // ----- splice

  /** The arguments of a call; a missing delete count is not the same as an undefined one. */
  datatype Args<V> = NoArgs | StartOnly(start: int) | Full(start: int, count: int, items: seq<V>)

  function Items<V>(args: Args<V>): seq<V> {
    if args.Full? then args.items else []
  }

  /** A negative start counts from the end. */
  function StartIndex<V>(args: Args<V>, len: nat): (r: nat)
    ensures r <= len
  {
    var start := if args.NoArgs? then 0 else args.start;
    if start < 0 then (if start + len < 0 then 0 else start + len)
    else if start > len then len else start
  }

  /** With no delete count everything from the start on goes. */
  function DeleteCount<V>(args: Args<V>, len: nat): (r: nat)
    ensures StartIndex(args, len) + r <= len
  {
    var left := len - StartIndex(args, len);
    match args
    case StartOnly(_) => left
    case NoArgs => 0
    case Full(_, count, _) => if count < 0 then 0 else if count > left then left else count
  }

  // ----- What section 15.4.4.12 of ECMA-262 asks for

  function Least(x: int, y: int): int { if x < y then x else y }
  function Greatest(x: int, y: int): int { if x < y then y else x }

  /** ToInteger of an argument that may be missing. */
  function RelativeStart<V>(args: Args<V>): int {
    match args
    case NoArgs => 0
    case StartOnly(start) => start
    case Full(start, _, _) => start
  }

  function GivenCount<V>(args: Args<V>): int {
    match args
    case NoArgs => 0
    case StartOnly(_) => 0
    case Full(_, count, _) => count
  }

  /** Step 6. */
  function ActualStart<V>(args: Args<V>, len: nat): (r: nat)
    ensures r <= len
  {
    var relative := RelativeStart(args);
    if relative < 0 then Greatest(len + relative, 0) else Least(relative, len)
  }

  /** Step 7. */
  function ActualDeleteCount<V>(args: Args<V>, len: nat): (r: nat)
    ensures ActualStart(args, len) + r <= len
  {
    Least(Greatest(GivenCount(args), 0), len - ActualStart(args, len))
  }

  /** Steps 10 to 16: the array afterwards. */
  ghost predicate SectionArray<V>(n: map<nat, V>, length: nat, m: map<nat, V>, len: nat, args: Args<V>) {
    var start, del := ActualStart(args, len), ActualDeleteCount(args, len);
    Spliced(n, m, start, del, Items(args)) && length == len - del + |Items(args)|
  }

  /**
   Steps 8 and 9: the array of deleted elements. It begins empty and its length is never set,
   so it ends with its last element.
   */
  ghost predicate SectionDeleted<V>(d: map<nat, V>, length: nat, m: map<nat, V>, len: nat, args: Args<V>) {
    && Sliced(d, m, ActualStart(args, len), ActualDeleteCount(args, len))
    && (forall k :: k in d ==> k < length) && (length > 0 ==> length - 1 in d)
  }

  /** What Splice leaves of an array m of length len. */
  ghost predicate SpliceResult<V>(n: map<nat, V>, length: nat, d: map<nat, V>, dlength: nat,
      m: map<nat, V>, len: nat, args: Args<V>) {
    var start, del := StartIndex(args, len), DeleteCount(args, len);
    && Spliced(n, m, start, del, Items(args)) && length == len - del + |Items(args)|
    && Sliced(d, m, start, del) && dlength == del
  }

  /** A single argument that leaves something to delete. */
  predicate DeletesRest<V>(args: Args<V>, len: nat) {
    args.StartOnly? && args.start < len && len > 0
  }

  /** The start is the section's; the delete count is unless there is a single argument. */
  lemma CountFollows<V>(args: Args<V>, len: nat)
    ensures StartIndex(args, len) == ActualStart(args, len)
    ensures DeleteCount(args, len) == ActualDeleteCount(args, len) <==> !DeletesRest(args, len)
  {
  }

  /**
   The array follows the section exactly when a single argument has nothing to delete; the
   deleted elements do exactly when, besides, the last of them is not a hole.
   */
  lemma SpliceFollows<V>(n: map<nat, V>, length: nat, d: map<nat, V>, dlength: nat, m: map<nat, V>, len: nat,
      args: Args<V>)
    requires SpliceResult(n, length, d, dlength, m, len, args)
    ensures SectionArray(n, length, m, len, args) <==> !DeletesRest(args, len)
    ensures SectionDeleted(d, dlength, m, len, args) <==>
      !DeletesRest(args, len) && (dlength == 0 || StartIndex(args, len) + dlength - 1 in m)
  {
    CountFollows(args, len);
    var del := DeleteCount(args, len);
    assert forall k :: k in d ==> At(d, k) != Hole;
    if del > 0 { assert At(d, del - 1) == At(m, StartIndex(args, len) + del - 1); }
  }

  /** splice(0) empties [7], where the section deletes nothing. */
  lemma OneArgumentDeviates<V>(v: V, n: map<nat, V>, length: nat, d: map<nat, V>, dlength: nat)
    requires SpliceResult(n, length, d, dlength, map[0 := v], 1, StartOnly(0))
    ensures length == 0 && !SectionArray(n, length, map[0 := v], 1, StartOnly(0))
    ensures SectionArray(map[0 := v], 1, map[0 := v], 1, StartOnly(0))
  {
    SpliceFollows(n, length, d, dlength, map[0 := v], 1, StartOnly(0));
  }

  /** splice(0, 2) of an array of length 2 without a second element: the section's result has length 1. */
  lemma TrailingHoleDeviates<V>(v: V, n: map<nat, V>, length: nat, d: map<nat, V>, dlength: nat)
    requires SpliceResult(n, length, d, dlength, map[0 := v], 2, Full(0, 2, []))
    ensures dlength == 2 && !SectionDeleted(d, dlength, map[0 := v], 2, Full(0, 2, []))
    ensures SectionDeleted(map[0 := v], 1, map[0 := v], 2, Full(0, 2, []))
  {
    SpliceFollows(n, length, d, dlength, map[0 := v], 2, Full(0, 2, []));
  }

  // ----- The method

  /** Writes the new items over the places left open. */
  method PutItems<V>(a: JsArray<V>, start: nat, items: seq<V>, ghost m: map<nat, V>, ghost del: nat)
    requires a.Valid() && Moved(a.elems, m, start, del, |items|)
    modifies a
    ensures a.Valid() && Spliced(a.elems, m, start, del, items)
  {
    var i := 0;
    while i < |items|
      invariant 0 <= i <= |items| && a.Valid() && Moved(a.elems, m, start, del, |items|)
      invariant forall j: nat {:trigger At(a.elems, j)} :: start <= j < start + i ==>
        At(a.elems, j) == Elem(items[j - start])
    {
      a.Set(start + i, items[i]);
      i := i + 1;
    }
  }

  /**
   The estimate of the number of elements and the keys come from the engine. Whichever path
   they lead to, the array and the deleted elements are the same, and the ones the section
   asks for exactly in the cases of SpliceFollows.
   */
  method Splice<V>(a: JsArray<V>, args: Args<V>, estimate: nat, sliceKeys: seq<Entry>, moveKeys: seq<Entry>)
      returns (deleted: JsArray<V>)
    requires a.Valid() && KeysOf(moveKeys, a.elems, a.length)
    requires KeysOf(sliceKeys, a.elems, StartIndex(args, a.length) + DeleteCount(args, a.length))
    modifies a
    ensures a.Valid() && deleted.Valid() && fresh(deleted)
    ensures SpliceResult(a.elems, a.length, deleted.elems, deleted.length, old(a.elems), old(a.length), args)
    ensures SectionArray(a.elems, a.length, old(a.elems), old(a.length), args) <==> !DeletesRest(args, old(a.length))
    ensures SectionDeleted(deleted.elems, deleted.length, old(a.elems), old(a.length), args) <==>
      && !DeletesRest(args, old(a.length))
      && (deleted.length == 0 || StartIndex(args, old(a.length)) + deleted.length - 1 in old(a.elems))
  {
    ghost var m := a.elems;
    var len := a.length;
    var start, del, items := StartIndex(args, len), DeleteCount(args, len), Items(args);
    deleted := new JsArray(del);
    var simple := |items| == del || len <= 20 || estimate / 4 >= len - start;
    if simple {
      SimpleSlice(a, start, del, deleted);
      SimpleMove(a, start, del, len, |items|);
    } else {
      SmartSlice(a, start, del, sliceKeys, deleted);
      SmartMove(a, start, del, |items|, moveKeys);
    }
    PutItems(a, start, items, m, del);
    ghost var n := a.elems;
    a.SetLength(len - del + |items|);
    assert forall j: nat {:trigger At(a.elems, j)} :: At(a.elems, j) == At(n, j);
    SpliceFollows(a.elems, a.length, deleted.elems, deleted.length, m, len, args);
  }
}
