/**
 benchmarks/richards.js:505-535: packets as the linked cells they are in the code, and what
 a chain of them holds.
 */
module PacketLinks {
  import R = Richards

  class Packet {
    /** Stands for the object's identity in the state machine. */
    ghost const name: nat
    const kind: R.Kind
    var link: Packet?
    var id: int
    var a1: int
    var a2: seq<int>

    constructor (link: Packet?, id: int, kind: R.Kind, ghost name: nat)
      ensures this.link == link && this.id == id && this.kind == kind && this.name == name && a1 == 0
    {
      this.link, this.id, this.kind, this.name := link, id, kind, name;
      a1, a2 := 0, [];
    }

    /** Appends this packet to a worklist and returns the worklist. */
    method AddTo(queue: Packet?, ghost q: seq<Packet>) returns (r: Packet)
      requires IsList(queue, q) && this !in q
      modifies this`link, (set p | p in q)`link
      ensures IsList(r, q + [this])
      ensures forall i :: 0 <= i < |q| - 1 ==> unchanged(q[i])
    {
      link := null;
      if queue == null { return this; }
      var next := queue;
      ghost var i := 0;
      ChainFrame(q);
      while next.link != null
        invariant IsList(queue, q) && 0 <= i < |q| && next == q[i] && link == null
        decreases |q| - i
      {
        assert Leads(q, i);
        next, i := next.link, i + 1;
      }
      assert Leads(q, i) && next in q;
      ghost var all := q + [this];
      next.link := this;
      r := queue;
      forall j | 0 <= j < |all| ensures Leads(all, j) {
        if j < |q| - 1 { assert old(Leads(q, j)); }
      }
    }
  }

  ghost function At(q: seq<Packet>, i: nat): Packet? {
    if i < |q| then q[i] else null
  }

  /** h is the head of an acyclic list whose cells are q. */
  ghost predicate IsList(h: Packet?, q: seq<Packet>)
    reads (set p | p in q)`link
  {
    h == At(q, 0) && Chain(q)
  }

  /** The links lead from each of the cells to the next, and the last one nowhere. */
  ghost predicate Chain(q: seq<Packet>)
    reads (set p | p in q)`link
  {
    && (forall i, j :: 0 <= i < j < |q| ==> q[i] != q[j])
    && (forall i :: 0 <= i < |q| ==> Leads(q, i))
  }

  ghost predicate Leads(q: seq<Packet>, i: nat)
    requires i < |q|
    reads (set p | p in q)`link
  {
    q[i].link == At(q, i + 1)
  }

  twostate lemma ChainFrame(q: seq<Packet>)
    requires old(Chain(q)) && forall i :: 0 <= i < |q| ==> q[i].link == old(q[i].link)
    ensures Chain(q)
  {
    forall i | 0 <= i < |q| ensures Leads(q, i) {
      assert old(Leads(q, i));
    }
  }

  lemma ChainRest(q: seq<Packet>)
    requires Chain(q) && q != []
    ensures Chain(q[1..]) && q[0].link == At(q[1..], 0) && forall x :: x in q[1..] <==> x in q && x != q[0]
  {
    var rest := q[1..];
    assert q == [q[0]] + rest;
    assert Leads(q, 0);
    forall i | 0 <= i < |rest| ensures Leads(rest, i) {
      assert rest[i] == q[i + 1] && Leads(q, i + 1);
    }
  }

  /** The packet as a value of the state machine. */
  ghost function Val(p: Packet): R.Packet
    reads p`id, p`a1, p`a2
  {
    R.Packet(p.name, p.id, p.kind, p.a1, p.a2)
  }

  ghost function Vals(q: seq<Packet>): (r: seq<R.Packet>)
    reads (set p | p in q)`id, (set p | p in q)`a1, (set p | p in q)`a2
    ensures |r| == |q| && forall i :: 0 <= i < |q| ==> r[i] == Val(q[i])
  {
    if q == [] then [] else Vals(q[..|q| - 1]) + [Val(q[|q| - 1])]
  }

  lemma ValsSnoc(q: seq<Packet>, p: Packet)
    ensures Vals(q + [p]) == Vals(q) + [Val(p)]
  {
  }

  lemma ValsRest(q: seq<Packet>)
    requires q != []
    ensures Vals(q[1..]) == Vals(q)[1..] && Vals(q)[0] == Val(q[0])
  {
  }
}
