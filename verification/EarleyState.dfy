/**
 benchmarks/earley-boyer.js:4038-4114, 4137-4153: a state of the chart and the operations
 on its sets. The lists are ghost fields; the vectors are what the code keeps, and Valid
 says that they encode the lists.
 */
module EarleyState {
  import opened EarleySets

  class ConfSet {
    ghost const conf: nat
    const num: nat
    var v: seq<int>

    constructor (num: nat, ghost conf: nat)
      ensures this.num == num && this.conf == conf && v == EmptyVector(num)
    {
      this.num, this.conf := num, conf;
      v := EmptyVector(num);
    }
  }

  /**
   From new lists t0 to new lists t1, configuration c got those of s that it did not have yet,
   and nothing else changed.
   */
  ghost predicate Grows(d: seq<seq<nat>>, t0: seq<seq<nat>>, t1: seq<seq<nat>>, c: nat, s: seq<nat>)
    requires |d| == |t0|
  {
    && c < |t0| == |t1|
    && (forall x :: 0 <= x < |t0| && x != c ==> t1[x] == t0[x])
    && (forall i :: i in t0[c] ==> i in t1[c])
    && (forall i :: i in t1[c] ==> i in t0[c] || i in s)
    && (forall i :: i in s ==> i in d[c] || i in t1[c])
  }

  class State {
    const num: nat
    var first: int
    var sets: seq<ConfSet?>
    ghost var repr: set<ConfSet>
    /** The processed and the new origins of each configuration. */
    ghost var done: seq<seq<nat>>
    ghost var todo: seq<seq<nat>>
    /** The configurations that have new origins, in the order in which they will be taken. */
    ghost var work: seq<nat>

    ghost predicate Valid()
      reads this, repr
    {
      && |done| == |sets| && |todo| == |sets|
      && (forall x :: x in repr ==> x.num == num)
      && (forall c :: 0 <= c < |sets| ==> SetOk(c))
      && first == At(work, 0) && Distinct(work)
      && (forall k :: 0 <= k < |work| ==> WorkLink(k))
      && (forall c :: 0 <= c < |sets| ==> (c in work <==> todo[c] != []))
    }

    /** The vector of a configuration, if it has one, encodes the two lists. */
    ghost predicate SetOk(c: nat)
      requires c < |sets| && |done| == |sets| && |todo| == |sets|
      reads this, repr
    {
      if sets[c] == null then done[c] == [] && todo[c] == []
      else
        && sets[c] in repr && sets[c].conf == c && sets[c].num == num
        && IsSet(sets[c].v, num, done[c], todo[c])
    }

    /** Cell 0 of the set leads to the next configuration with new origins. */
    ghost predicate WorkLink(k: nat)
      requires k < |work|
      reads this, repr
    {
      && work[k] < |sets| && sets[work[k]] != null && sets[work[k]] in repr
      && |sets[work[k]].v| > 0 && sets[work[k]].v[0] == At(work, k + 1)
    }

    /** Origin i is recorded for configuration c. */
    ghost predicate Has(c: nat, i: nat)
      requires c < |done| && c < |todo|
      reads this
    {
      i in done[c] || i in todo[c]
    }

    constructor (num: nat, confs: nat)
      ensures Valid() && this.num == num && |sets| == confs && work == [] && repr == {} && first == -1
      ensures |done| == confs && |todo| == confs
      ensures forall c :: 0 <= c < confs ==> done[c] == [] && todo[c] == []
    {
      this.num, first := num, -1;
      sets := seq(confs, _ => null);
      repr, work := {}, [];
      done, todo := seq(confs, _ => []), seq(confs, _ => []);
    }

    /** The slot test, with a missing set counting as empty. */
    predicate Recorded(c: nat, i: nat)
      requires Valid() && c < |sets| && i <= num
      reads this, repr
      ensures Recorded(c, i) <==> Has(c, i)
    {
      assert SetOk(c);
      if sets[c] == null then false
      else
        SlotIffListed(sets[c].v, num, done[c], todo[c], i);
        sets[c].v[i + 5] != ABSENT
    }

    /** The set of a configuration, made on first use. */
    method Get(c: nat) returns (cs: ConfSet)
      requires Valid() && c < |sets|
      modifies this`sets, this`repr
      ensures Valid() && sets[c] == cs && fresh(repr - old(repr))
      ensures |sets| == |old(sets)| && forall x :: 0 <= x < |sets| && old(sets[x]) != null ==> sets[x] == old(sets[x])
    {
      assert SetOk(c);
      if sets[c] != null { return sets[c]; }
      cs := new ConfSet(num, c);
      EmptyIsSet(num);
      label A:
      sets, repr := sets[c := cs], repr + {cs};
      forall x | 0 <= x < |sets| ensures SetOk(x) {
        assert old(SetOk(x));
      }
      forall k | 0 <= k < |work| ensures WorkLink(k) {
        assert old(WorkLink(k));
      }
    }

    /** conf_set_adjoin: a new origin at the end of the new list; the set joins the worklist with its first one. */
    method Adjoin(cs: ConfSet, c: nat, i: nat)
      requires Valid() && c < |sets| && sets[c] == cs && i <= num && !Has(c, i)
      modifies this`first, this`work, this`todo, cs
      ensures Valid()
      ensures todo == old(todo)[c := old(todo[c]) + [i]]
      ensures work == if old(todo[c]) == [] then [c] + old(work) else old(work)
    {
      assert SetOk(c);
      var tail := cs.v[3];
      AppendedIsSet(cs.v, num, done[c], todo[c], i);
      cs.v := Appended(cs.v, i);
      if tail < 0 {
        CellZeroFree(cs.v, num, done[c], todo[c] + [i], first);
        cs.v := cs.v[0 := first];
        first := c;
        work := [c] + work;
      }
      todo := todo[c := todo[c] + [i]];
      forall x | 0 <= x < |sets| ensures SetOk(x) {
        assert old(SetOk(x));
      }
      if tail < 0 {
        assert WorkLink(0);
        forall k | 0 < k < |work| ensures WorkLink(k) {
          assert old(WorkLink(k - 1)) && old(work)[k - 1] in old(work) && SetOk(work[k]);
        }
      } else {
        assert cs.v[0] == old(cs.v[0]);
        forall k | 0 <= k < |work| ensures WorkLink(k) {
          assert old(WorkLink(k));
        }
      }
    }

    /** conf_set_merge_new after taking the first configuration off the worklist. */
    method Pop() returns (c: nat, cs: ConfSet, head: int)
      requires Valid() && first >= 0
      modifies this, repr
      ensures Valid() && sets == old(sets) && repr == old(repr)
      ensures c < |sets| && sets[c] == cs && old(work) == [c] + work
      ensures old(todo[c]) != [] && head == old(todo[c])[0]
      ensures done == old(done)[c := old(done[c]) + old(todo[c])]
      ensures todo == old(todo)[c := []]
    {
      assert WorkLink(0);
      c := first;
      cs := sets[c];
      assert SetOk(c);
      head := cs.v[4];
      first := cs.v[0];
      MergedIsSet(cs.v, num, done[c], todo[c]);
      cs.v := Merged(cs.v);
      done, todo := done[c := done[c] + todo[c]], todo[c := []];
      work := work[1..];
      forall x | 0 <= x < |sets| ensures SetOk(x) {
        assert old(SetOk(x));
      }
      forall k | 0 <= k < |work| ensures WorkLink(k) {
        assert old(WorkLink(k + 1));
      }
    }

    /** Records an origin unless it is there already. */
    method Record(c: nat, i: nat)
      requires Valid() && c < |sets| && i <= num
      modifies this`first, this`work, this`todo, this`sets, this`repr, repr
      ensures Valid() && fresh(repr - old(repr)) && |sets| == |old(sets)|
      ensures forall x :: 0 <= x < |sets| && old(sets[x]) != null ==> sets[x] == old(sets[x])
      ensures Grows(done, old(todo), todo, c, [i])
    {
      var cs := Get(c);
      assert SetOk(c);
      SlotIffListed(cs.v, num, done[c], todo[c], i);
      if cs.v[i + 5] == ABSENT {
        Adjoin(cs, c, i);
      }
    }

    /** conf_set_union: records every processed origin of another set. */
    method Union(cs: ConfSet, c: nat, other: ConfSet, ghost d: seq<nat>, ghost t: seq<nat>)
      requires Valid() && c < |sets| && sets[c] == cs
      requires other != cs && IsSet(other.v, other.num, d, t) && other.num <= num
      modifies this`first, this`work, this`todo, cs
      ensures Valid() && Grows(done, old(todo), todo, c, d)
    {
      var i := other.v[2];
      ghost var k := 0;
      while i >= 0
        invariant Valid() && k <= |d| && i == At(d, k)
        invariant Grows(done, old(todo), todo, c, d[..k])
        decreases |d| - k
      {
        assert Link(other.v, d, k) && SetOk(c);
        SlotIffListed(cs.v, num, done[c], todo[c], i);
        if cs.v[i + 5] == ABSENT {
          Adjoin(cs, c, i);
        }
        assert d[..k + 1] == d[..k] + [d[k]];
        i, k := other.v[i + 5], k + 1;
      }
      assert d[..k] == d;
    }

    /** Finds or makes the set of a configuration and records every processed origin of another one there. */
    method UnionInto(c: nat, other: ConfSet, ghost d: seq<nat>, ghost t: seq<nat>)
      requires Valid() && c < |sets|
      requires IsSet(other.v, other.num, d, t) && other.num <= num && (other.num == num ==> other.conf != c)
      modifies this`first, this`work, this`todo, this`sets, this`repr, repr
      ensures Valid() && fresh(repr - old(repr)) && |sets| == |old(sets)|
      ensures forall x :: 0 <= x < |sets| && old(sets[x]) != null ==> sets[x] == old(sets[x])
      ensures Grows(done, old(todo), todo, c, d)
    {
      var cs := Get(c);
      assert SetOk(c);
      Union(cs, c, other, d, t);
    }
  }
}
