/**
 benchmarks/richards.js: the variables that hold packets. Place k < 6 is the queue of task
 k's control block, then come v1 and v2 of the two handlers and v1 of the two devices. The
 packets of a list are threaded through their links; a packet in a slot, or in a task's hand,
 keeps whatever link it had.
 */
module PacketLists {
  import R = Richards
  import opened PacketLinks

  const WORKS := 6
  const DEVICES := 8
  const SLOTS := 10
  const PLACES := 12

  /** Every packet is in one place, which at names, and in no other; only the one in hand is nowhere. */
  ghost predicate Owned(cells: set<Packet>, places: seq<seq<Packet>>, at: map<Packet, int>, hand: Packet?) {
    && |places| == PLACES
    && (forall k, p {:trigger p in places[k]} :: 0 <= k < PLACES && p in places[k] ==>
      p in cells && p in at && at[p] == k)
    && (forall p :: p in cells && p != hand ==> p in at && 0 <= at[p] < PLACES && p in places[at[p]])
    && (hand != null ==> hand in cells && hand !in at)
  }

  lemma OwnedPut(cells: set<Packet>, places: seq<seq<Packet>>, at: map<Packet, int>, p: Packet, k: int, q: seq<Packet>)
    requires Owned(cells, places, at, p) && 0 <= k < PLACES
    requires forall x :: x in q <==> x in places[k] || x == p
    ensures Owned(cells, places[k := q], at[p := k], null)
    ensures forall j :: 0 <= j < PLACES ==> p !in places[j]
    ensures forall j, x :: 0 <= j < PLACES && j != k && x in places[j] ==> x !in places[k] && x != p
  {
  }

  lemma OwnedTake(cells: set<Packet>, places: seq<seq<Packet>>, at: map<Packet, int>, p: Packet, k: int, q: seq<Packet>)
    requires Owned(cells, places, at, null) && 0 <= k < PLACES && p in places[k]
    requires forall x :: x in q <==> x in places[k] && x != p
    ensures Owned(cells, places[k := q], at - {p}, p)
  {
    var left, there := places[k := q], at - {p};
    forall j, x | 0 <= j < PLACES && x in left[j] ensures x in cells && x in there && there[x] == j {
      assert x in places[j];
    }
  }

  /** At the start only the worker and the handlers have packets. */
  function Pick<T>(k: int, worker: T, a: T, b: T, other: T): T {
    if k == R.WORKER then worker else if k == R.HANDLER_A then a else if k == R.HANDLER_B then b else other
  }

  ghost function StartPlaces(qw: seq<Packet>, qa: seq<Packet>, qb: seq<Packet>): (r: seq<seq<Packet>>)
    ensures |r| == PLACES && r[R.WORKER] == qw && r[R.HANDLER_A] == qa && r[R.HANDLER_B] == qb
    ensures r[0] == [] && forall k :: 3 < k < PLACES ==> r[k] == []
  {
    seq(PLACES, k => Pick(k, qw, qa, qb, []))
  }

  ghost function StartContents(vw: seq<R.Packet>, va: seq<R.Packet>, vb: seq<R.Packet>): (r: seq<seq<R.Packet>>)
    ensures |r| == PLACES && r[R.WORKER] == vw && r[R.HANDLER_A] == va && r[R.HANDLER_B] == vb
    ensures r[0] == [] && forall k :: 3 < k < PLACES ==> r[k] == []
  {
    seq(PLACES, k => Pick(k, vw, va, vb, []))
  }

  function StartHeads(worker: Packet?, a: Packet?, b: Packet?): (r: seq<Packet?>)
    ensures |r| == PLACES && r[R.WORKER] == worker && r[R.HANDLER_A] == a && r[R.HANDLER_B] == b
    ensures r[0] == null && forall k :: 3 < k < PLACES ==> r[k] == null
  {
    seq(PLACES, k => Pick(k, worker, a, b, null))
  }

  ghost function StartAt(qw: seq<Packet>, qa: seq<Packet>, qb: seq<Packet>): map<Packet, int> {
    map p | p in qw + qa + qb :: if p in qw then R.WORKER else if p in qa then R.HANDLER_A else R.HANDLER_B
  }

  lemma OwnedStart(qw: seq<Packet>, qa: seq<Packet>, qb: seq<Packet>)
    requires (forall p :: p in qw ==> p !in qa && p !in qb) && (forall p :: p in qa ==> p !in qb)
    ensures Owned((set p | p in qw + qa + qb), StartPlaces(qw, qa, qb), StartAt(qw, qa, qb), null)
  {
    var places, at := StartPlaces(qw, qa, qb), StartAt(qw, qa, qb);
    forall k, p | 0 <= k < PLACES && p in places[k] ensures p in qw + qa + qb && p in at && at[p] == k {
      assert k == R.WORKER || k == R.HANDLER_A || k == R.HANDLER_B;
    }
  }

  class Lists {
    /** All packets there are. */
    ghost const cells: set<Packet>
    var heads: seq<Packet?>
    /** The cells of each place, and what is in them. */
    ghost var places: seq<seq<Packet>>
    ghost var contents: seq<seq<R.Packet>>
    ghost var at: map<Packet, int>

    /** What place k holds is where its head points, linked together; a slot holds at most one packet. */
    ghost predicate PlaceOk(k: int)
      requires 0 <= k < |heads| && k < |places|
      reads this`heads, this`places, (set p | p in places[k])`link
    {
      && heads[k] == At(places[k], 0)
      && (if k < SLOTS then Chain(places[k]) else |places[k]| <= 1)
    }

    ghost predicate ContentOk(k: int)
      requires 0 <= k < |contents| && k < |places|
      reads this`contents, this`places, (set p | p in places[k])`id, (set p | p in places[k])`a1,
        (set p | p in places[k])`a2
    {
      contents[k] == Vals(places[k])
    }

    ghost predicate Valid(hand: Packet?)
      reads this, cells
    {
      && |heads| == PLACES && |contents| == PLACES && Owned(cells, places, at, hand)
      && (forall k :: 0 <= k < PLACES ==> PlaceOk(k))
      && (forall k :: 0 <= k < PLACES ==> ContentOk(k))
    }

    /** The head of a place is the first packet in it. */
    lemma HeadIsFirst(k: int, hand: Packet?)
      requires Valid(hand) && 0 <= k < PLACES
      ensures heads[k] == null <==> contents[k] == []
      ensures heads[k] != null ==> heads[k] in cells && heads[k] != hand && Val(heads[k]) == contents[k][0]
    {
      assert PlaceOk(k) && ContentOk(k);
      assert heads[k] != null ==> heads[k] in places[k];
    }

    /** Every packet is in exactly one place. */
    lemma OnePlace(p: Packet)
      requires Valid(null) && p in cells
      ensures exists k :: 0 <= k < PLACES && p in places[k] && forall j :: 0 <= j < PLACES && p in places[j] ==> j == k
    {
      var k := at[p];
      assert p in places[k];
    }

    constructor (worker: Packet?, handlerA: Packet?, handlerB: Packet?, ghost qw: seq<Packet>, ghost qa: seq<Packet>,
        ghost qb: seq<Packet>)
      ensures heads == StartHeads(worker, handlerA, handlerB) && cells == set p | p in qw + qa + qb
      ensures places == StartPlaces(qw, qa, qb) && at == StartAt(qw, qa, qb)
      ensures contents == StartContents(old(Vals(qw)), old(Vals(qa)), old(Vals(qb)))
    {
      heads := StartHeads(worker, handlerA, handlerB);
      cells := set p | p in qw + qa + qb;
      places, at := StartPlaces(qw, qa, qb), StartAt(qw, qa, qb);
      contents := StartContents(Vals(qw), Vals(qa), Vals(qb));
    }

    /** The packets in the queues of the worker and the handlers at the start. */
    static method Start(worker: Packet?, handlerA: Packet?, handlerB: Packet?, ghost qw: seq<Packet>,
        ghost qa: seq<Packet>, ghost qb: seq<Packet>)
        returns (r: Lists)
      requires IsList(worker, qw) && IsList(handlerA, qa) && IsList(handlerB, qb)
      requires (forall p :: p in qw ==> p !in qa && p !in qb) && (forall p :: p in qa ==> p !in qb)
      ensures fresh(r) && r.Valid(null) && r.cells == set p | p in qw + qa + qb
      ensures r.contents == StartContents(old(Vals(qw)), old(Vals(qa)), old(Vals(qb)))
    {
      r := new Lists(worker, handlerA, handlerB, qw, qa, qb);
      assert Vals(qw) == old(Vals(qw)) && Vals(qa) == old(Vals(qa)) && Vals(qb) == old(Vals(qb));
      ChainFrame(qw);
      ChainFrame(qa);
      ChainFrame(qb);
      OwnedStart(qw, qa, qb);
      r.StartLinked(worker, handlerA, handlerB, qw, qa, qb);
      r.StartFilled(qw, qa, qb);
    }

    lemma StartLinked(worker: Packet?, handlerA: Packet?, handlerB: Packet?, qw: seq<Packet>, qa: seq<Packet>,
        qb: seq<Packet>)
      requires heads == StartHeads(worker, handlerA, handlerB) && places == StartPlaces(qw, qa, qb)
      requires IsList(worker, qw) && IsList(handlerA, qa) && IsList(handlerB, qb)
      ensures forall k :: 0 <= k < PLACES ==> PlaceOk(k)
    {
    }

    lemma StartFilled(qw: seq<Packet>, qa: seq<Packet>, qb: seq<Packet>)
      requires places == StartPlaces(qw, qa, qb) && contents == StartContents(Vals(qw), Vals(qa), Vals(qb))
      ensures forall k :: 0 <= k < PLACES ==> ContentOk(k)
    {
    }

    /** Writes down that place k now holds the cells q. */
    ghost method Relocate(k: int, q: seq<Packet>, at': map<Packet, int>, hand: Packet?, v: seq<R.Packet>)
      requires |heads| == PLACES && |contents| == PLACES && |places| == PLACES && 0 <= k < PLACES
      requires Owned(cells, places[k := q], at', hand) && v == Vals(q)
      requires heads[k] == At(q, 0) && (if k < SLOTS then Chain(q) else |q| <= 1)
      requires forall j :: 0 <= j < PLACES && j != k ==> PlaceOk(j)
      requires forall j :: 0 <= j < PLACES && j != k ==> ContentOk(j)
      modifies this`places, this`contents, this`at
      ensures Valid(hand) && contents == old(contents)[k := v] && places == old(places)[k := q]
    {
      places, at, contents := places[k := q], at', contents[k := v];
      forall j | 0 <= j < PLACES && j != k ensures PlaceOk(j) {
        assert old(PlaceOk(j));
      }
      forall j | 0 <= j < PLACES && j != k ensures ContentOk(j) {
        assert old(ContentOk(j));
        ghost var o := places[j];
        assert Vals(o) == old(Vals(o));
      }
      assert PlaceOk(k) && ContentOk(k);
    }

    /** The packet in hand goes to the end of the list of place k. */
    method PutLast(k: int, p: Packet)
      requires Valid(p) && 0 <= k < SLOTS
      modifies this, cells`link
      ensures Valid(null) && contents == old(contents)[k := old(contents[k]) + [Val(p)]]
      ensures places == old(places)[k := old(places[k]) + [p]]
    {
      ghost var q := places[k];
      OwnedPut(cells, places, at, p, k, q + [p]);
      LinkLast(k, p);
      forall j | 0 <= j < PLACES ensures ContentOk(j) {
        assert old(ContentOk(j));
      }
      ValsSnoc(q, p);
      assert ContentOk(k);
      Relocate(k, q + [p], at[p := k], null, contents[k] + [Val(p)]);
    }

    /** Links p behind the last packet of place k; the other places are as they were. */
    method LinkLast(k: int, p: Packet)
      requires Valid(p) && 0 <= k < SLOTS
      modifies this`heads, cells`link
      ensures |heads| == PLACES && heads[k] == At(places[k] + [p], 0) && Chain(places[k] + [p])
      ensures forall j :: 0 <= j < PLACES && j != k ==> PlaceOk(j)
    {
      ghost var q := places[k];
      OwnedPut(cells, places, at, p, k, q + [p]);
      assert PlaceOk(k);
      assert forall x :: x in q ==> x in places[k];
      var h := p.AddTo(heads[k], q);
      heads := heads[k := h];
      forall j | 0 <= j < PLACES && j != k ensures PlaceOk(j) {
        assert old(PlaceOk(j));
        ghost var o := places[j];
        assert forall i :: 0 <= i < |o| ==> o[i] in places[j];
        if j < SLOTS { ChainFrame(o); }
      }
    }

    /**
     The first packet of place k is taken in hand, with its link as it was; more says whether
     there is another one.
     */
    method TakeFirst(k: int) returns (p: Packet, more: bool)
      requires Valid(null) && 0 <= k < PLACES && contents[k] != []
      modifies this
      ensures Valid(p) && Val(p) == old(contents[k])[0] && contents == old(contents)[k := old(contents[k])[1..]]
      ensures [p] + places[k] == old(places[k]) && places == old(places)[k := places[k]]
      ensures more <==> old(contents[k])[1..] != []
    {
      ghost var q := places[k];
      assert ContentOk(k);
      p := UnlinkFirst(k);
      more := heads[k] != null;
      OwnedTake(cells, places, at, p, k, q[1..]);
      ValsRest(q);
      Relocate(k, q[1..], at - {p}, p, contents[k][1..]);
    }

    /** The head of place k moves on to the next packet. */
    method UnlinkFirst(k: int) returns (p: Packet)
      requires Valid(null) && 0 <= k < PLACES && places[k] != []
      modifies this`heads
      ensures |heads| == PLACES && p == places[k][0] && heads[k] == At(places[k][1..], 0)
      ensures if k < SLOTS then Chain(places[k][1..]) else places[k][1..] == []
      ensures forall x :: x in places[k][1..] <==> x in places[k] && x != p
      ensures forall j :: 0 <= j < PLACES && j != k ==> PlaceOk(j)
    {
      ghost var q := places[k];
      assert PlaceOk(k);
      p := heads[k];
      if k < SLOTS {
        ChainRest(q);
        heads := heads[k := p.link];
      } else {
        heads := heads[k := null];
      }
      forall j | 0 <= j < PLACES && j != k ensures PlaceOk(j) {
        assert old(PlaceOk(j));
      }
    }

    method PutInSlot(k: int, p: Packet)
      requires Valid(p) && SLOTS <= k < PLACES && contents[k] == []
      modifies this
      ensures Valid(null) && contents == old(contents)[k := [Val(p)]] && places == old(places)[k := [p]]
    {
      assert PlaceOk(k) && ContentOk(k);
      OwnedPut(cells, places, at, p, k, [p]);
      heads := heads[k := p];
      forall j | 0 <= j < PLACES && j != k ensures PlaceOk(j) {
        assert old(PlaceOk(j));
      }
      Relocate(k, [p], at[p := k], null, [Val(p)]);
    }

    /** Changes to the packet in hand, its link included, do not show in any list. */
    method WriteHand(p: Packet, link: Packet?, id: int, a1: int, a2: seq<int>)
      requires Valid(p)
      modifies p
      ensures Valid(p) && p.id == id && p.a1 == a1 && p.a2 == a2
    {
      assert forall j :: 0 <= j < PLACES ==> p !in places[j];
      p.link, p.id, p.a1, p.a2 := link, id, a1, a2;
      forall j | 0 <= j < PLACES ensures PlaceOk(j) && ContentOk(j) {
        assert old(PlaceOk(j)) && old(ContentOk(j));
        ghost var o := places[j];
        assert forall i :: 0 <= i < |o| ==> o[i] in places[j];
        if j < SLOTS { ChainFrame(o); }
      }
    }

    /** Writes a1 of the first packet of place k, which stays where it is. */
    method WriteFirst(k: int, a1: int, ghost hand: Packet?)
      requires Valid(hand) && 0 <= k < SLOTS && contents[k] != []
      modifies this`places, this`contents, this`at, cells`a1
      ensures Valid(hand) && contents == old(contents)[k := [old(contents[k])[0].(a1 := a1)] + old(contents[k])[1..]]
      ensures places == old(places) && (hand != null ==> hand.a1 == old(hand.a1))
    {
      ghost var q := places[k];
      assert PlaceOk(k) && ContentOk(k);
      var w := heads[k];
      assert w == q[0] && w in places[k];
      w.a1 := a1;
      ChainFrame(q);
      forall j | 0 <= j < PLACES && j != k ensures PlaceOk(j) && ContentOk(j) {
        assert old(PlaceOk(j)) && old(ContentOk(j));
        ghost var o := places[j];
        assert forall i :: 0 <= i < |o| ==> o[i] in places[j];
        if j < SLOTS { ChainFrame(o); }
      }
      ghost var v := [contents[k][0].(a1 := a1)] + contents[k][1..];
      assert v == Vals(q);
      assert places[k := q] == places;
      Relocate(k, q, at, hand, v);
    }

    /** Takes the first device packet in hand with the next letter of the first work packet. */
    method TakeWithLetter(kw: int, kd: int) returns (v: Packet)
      requires Valid(null) && 0 <= kw < SLOTS && 0 <= kd < SLOTS && kw != kd && contents[kw] != [] && contents[kd] != []
      requires 0 <= contents[kw][0].a1 < |contents[kw][0].a2|
      modifies this, cells
      ensures var all := old(contents); var w := all[kw][0];
        && Valid(v) && Val(v) == all[kd][0].(a1 := w.a2[w.a1])
        && contents == all[kd := all[kd][1..]][kw := [w.(a1 := w.a1 + 1)] + all[kw][1..]]
        && [v] + places[kd] == old(places[kd]) && places == old(places)[kd := places[kd]]
    {
      HeadIsFirst(kw, null);
      var w := heads[kw];
      var count, letter := w.a1, w.a2[w.a1];
      var more;
      v, more := TakeFirst(kd);
      WriteHand(v, v.link, v.id, letter, v.a2);
      WriteFirst(kw, count + 1, v);
    }
  }
}
