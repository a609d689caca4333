/**
 benchmarks/splay.js:293-352: how deep nodes are before and after splaying. A node on the
 search path comes up to about half its depth; no other node sinks by more than two. This is
 what the rotations are for: without them the path would only be turned over.
 */
module SplayDepth {
  import opened SplayShape

  /** How far x is below the root of t. */
  function Depth<V>(t: Tree<V>, x: Node<V>): nat {
    if t.Nil? || t.n == x then 0
    else if x in InOrder(t.l) then 1 + Depth(t.l, x)
    else 1 + Depth(t.r, x)
  }

  /** x is one of the nodes the search for the key looks at. */
  predicate OnPath<V>(t: Tree<V>, key: real, x: Node<V>) {
    t.Fork? && (t.n == x || (key < t.n.key && OnPath(t.l, key, x)) || (key > t.n.key && OnPath(t.r, key, x)))
  }

  /** What splaying may make of depth d: half of it on the search path, and two more elsewhere. */
  predicate Settled(d: nat, onPath: bool, e: nat) {
    e <= d + 2 && (onPath ==> e <= d / 2 + 3)
  }

  /** Every node of t is settled in u. */
  ghost predicate Flattened<V>(t: Tree<V>, key: real, u: Tree<V>) {
    forall x :: x in InOrder(t) ==> Settled(Depth(t, x), OnPath(t, key, x), Depth(u, x))
  }

  // ----- One round of splaying, on trees

  /** The tree turned to the right: its left child is on top. */
  function TurnedRight<V>(t: Tree<V>): Tree<V>
    requires t.Fork? && t.l.Fork?
  {
    Fork(t.l.l, t.l.n, Fork(t.l.r, t.n, t.r))
  }

  function TurnedLeft<V>(t: Tree<V>): Tree<V>
    requires t.Fork? && t.r.Fork?
  {
    Fork(Fork(t.l, t.n, t.r.l), t.r.n, t.r.r)
  }

  /**
   A round to the left: two steps in the same direction are taken by a rotation and a link,
   one step by a link; the search stops where there is nothing further to the left.
   */
  ghost predicate LeftRound<V>(key: real, t: Tree<V>, rc: Larger<V>, t': Tree<V>, rc': Larger<V>, more: bool) {
    t.Fork? && key < t.n.key &&
    if t.l.Nil? then !more && t' == t && rc' == rc
    else
      var u := if key < t.l.n.key then TurnedRight(t) else t;
      if u.l.Nil? then !more && t' == u && rc' == rc
      else more && t' == u.l && rc' == LargerStep(rc, u.n, u.r)
  }

  ghost predicate RightRound<V>(key: real, t: Tree<V>, lc: Smaller<V>, t': Tree<V>, lc': Smaller<V>, more: bool) {
    t.Fork? && key > t.n.key &&
    if t.r.Nil? then !more && t' == t && lc' == lc
    else
      var u := if key > t.r.n.key then TurnedLeft(t) else t;
      if u.r.Nil? then !more && t' == u && lc' == lc
      else more && t' == u.r && lc' == SmallerStep(lc, u.l, u.n)
  }

  // ----- Depths in the two trees that grow

  function SmallerSteps<V>(c: Smaller<V>): nat {
    if c.SmallerTop? then 0 else SmallerSteps(c.outer) + 1
  }

  function LargerSteps<V>(c: Larger<V>): nat {
    if c.LargerTop? then 0 else LargerSteps(c.outer) + 1
  }

  /** How deep a node of the smaller tree will be, the root of the whole tree included. */
  function SmallerDepth<V>(c: Smaller<V>, x: Node<V>): nat {
    if c.SmallerTop? then 0
    else if x in InSmaller(c.outer) then SmallerDepth(c.outer, x)
    else SmallerSteps(c) + Depth(Fork(c.l, c.n, Nil), x)
  }

  function LargerDepth<V>(c: Larger<V>, x: Node<V>): nat {
    if c.LargerTop? then 0
    else if x in InLarger(c.outer) then LargerDepth(c.outer, x)
    else LargerSteps(c) + Depth(Fork(Nil, c.n, c.r), x)
  }

  lemma {:induction false} FilledSmallerDepth<V>(c: Smaller<V>, t: Tree<V>, x: Node<V>)
    requires Ordered(InSmaller(c) + InOrder(t))
    ensures x in InSmaller(c) ==> 1 + Depth(FillSmaller(c, t), x) == SmallerDepth(c, x)
    ensures x in InOrder(t) ==> Depth(FillSmaller(c, t), x) == SmallerSteps(c) + Depth(t, x)
    decreases c
  {
    if c.SmallerStep? {
      var u := Fork(c.l, c.n, t);
      assert InSmaller(c) + InOrder(t) == InSmaller(c.outer) + InOrder(u);
      FilledSmallerDepth(c.outer, u, x);
      OrderedConcat(InSmaller(c.outer), InOrder(u));
      OrderedFork(u);
      OrderedConcat(InSmaller(c), InOrder(t));
    }
  }

  lemma {:induction false} FilledLargerDepth<V>(c: Larger<V>, t: Tree<V>, x: Node<V>)
    requires Ordered(InOrder(t) + InLarger(c))
    ensures x in InLarger(c) ==> 1 + Depth(FillLarger(c, t), x) == LargerDepth(c, x)
    ensures x in InOrder(t) ==> Depth(FillLarger(c, t), x) == LargerSteps(c) + Depth(t, x)
    decreases c
  {
    if c.LargerStep? {
      var u := Fork(t, c.n, c.r);
      assert InOrder(t) + InLarger(c) == InOrder(u) + InLarger(c.outer);
      FilledLargerDepth(c.outer, u, x);
      OrderedConcat(InOrder(u), InLarger(c.outer));
      OrderedFork(u);
      OrderedConcat(InOrder(t), InLarger(c));
    }
  }

  // ----- What every round keeps

  /** c nodes of the search path are dealt with, and each of the two trees has got at most every other one as a step. */
  ghost predicate Counted<V>(key: real, c: nat, lc: Smaller<V>, t: Tree<V>, rc: Larger<V>) {
    && t.Fork?
    && 2 * SmallerSteps(lc) <= c + (if key > t.n.key then 0 else 1)
    && 2 * LargerSteps(rc) <= c + (if key < t.n.key then 0 else 1)
  }

  /** A node of depth d in the original tree is settled, or still as far below the current one as it was. */
  ghost predicate Level<V>(x: Node<V>, d: nat, onPath: bool, key: real, c: nat, lc: Smaller<V>, t: Tree<V>,
      rc: Larger<V>)
  {
    && (x in InSmaller(lc) ==> Settled(d, onPath, SmallerDepth(lc, x)))
    && (x in InLarger(rc) ==> Settled(d, onPath, LargerDepth(rc, x)))
    && (x in InOrder(t) ==> d == c + Depth(t, x) && (onPath <==> OnPath(t, key, x)))
  }

  /** Where the search stops everything is settled. */
  ghost predicate Stop<V>(x: Node<V>, d: nat, onPath: bool, lc: Smaller<V>, t: Tree<V>, rc: Larger<V>) {
    && t.Fork?
    && (x in InSmaller(lc) ==> Settled(d, onPath, SmallerDepth(lc, x)))
    && (x in InLarger(rc) ==> Settled(d, onPath, LargerDepth(rc, x)))
    && (x in InOrder(t.l) ==> Settled(d, onPath, 1 + SmallerSteps(lc) + Depth(t.l, x)))
    && (x in InOrder(t.r) ==> Settled(d, onPath, 1 + LargerSteps(rc) + Depth(t.r, x)))
  }

  lemma {:induction false} OnPathIn<V>(t: Tree<V>, key: real, x: Node<V>)
    requires OnPath(t, key, x)
    ensures x in InOrder(t)
  {
    if t.n != x {
      if key < t.n.key && OnPath(t.l, key, x) { OnPathIn(t.l, key, x); } else { OnPathIn(t.r, key, x); }
    }
  }

  /** Where a node of a search tree is, and what that says about its depth and the path. */
  lemma Below<V>(t: Tree<V>, key: real, x: Node<V>)
    requires t.Fork? && Ordered(InOrder(t))
    ensures Ordered(InOrder(t.l)) && Ordered(InOrder(t.r))
    ensures x in InOrder(t) <==> x == t.n || x in InOrder(t.l) || x in InOrder(t.r)
    ensures x == t.n ==> x !in InOrder(t.l) && x !in InOrder(t.r) && Depth(t, x) == 0 && OnPath(t, key, x)
    ensures x in InOrder(t.l) ==>
      && x !in InOrder(t.r) && Depth(t, x) == 1 + Depth(t.l, x)
      && (OnPath(t, key, x) <==> key < t.n.key && OnPath(t.l, key, x))
    ensures x in InOrder(t.r) ==>
      && x !in InOrder(t.l) && Depth(t, x) == 1 + Depth(t.r, x)
      && (OnPath(t, key, x) <==> key > t.n.key && OnPath(t.r, key, x))
  {
    OrderedFork(t);
    if OnPath(t.l, key, x) { OnPathIn(t.l, key, x); }
    if OnPath(t.r, key, x) { OnPathIn(t.r, key, x); }
  }

  /** How many nodes of the path a round to the left deals with. */
  function LeftSteps<V>(key: real, t: Tree<V>): nat
    requires t.Fork? && t.l.Fork?
  {
    if key < t.l.n.key then 2 else 1
  }

  lemma LeftCounted<V>(key: real, c: nat, lc: Smaller<V>, t: Tree<V>, rc: Larger<V>, t': Tree<V>,
      rc': Larger<V>)
    requires Counted(key, c, lc, t, rc) && LeftRound(key, t, rc, t', rc', true)
    ensures Counted(key, c + LeftSteps(key, t), lc, t', rc')
  {
  }

  /** What a link adds to the larger tree is settled. */
  lemma LeftLinked<V>(x: Node<V>, d: nat, onPath: bool, key: real, c: nat, lc: Smaller<V>, t: Tree<V>, rc: Larger<V>,
      u: Tree<V>)
    requires Ordered(InOrder(t)) && Counted(key, c, lc, t, rc) && key < t.n.key && t.l.Fork?
    requires u == if key < t.l.n.key then TurnedRight(t) else t
    requires x in InOrder(t) ==> d == c + Depth(t, x) && (onPath <==> OnPath(t, key, x))
    ensures x == u.n || x in InOrder(u.r) ==> Settled(d, onPath, LargerSteps(rc) + 1 + Depth(Fork(Nil, u.n, u.r), x))
    ensures x in InOrder(u.l) ==>
      x in InOrder(t) && d == c + LeftSteps(key, t) + Depth(u.l, x) && (onPath <==> OnPath(u.l, key, x))
  {
    Below(t, key, x);
    Below(t.l, key, x);
  }

  /** How many nodes of the path a round to the right deals with. */
  function RightSteps<V>(key: real, t: Tree<V>): nat
    requires t.Fork? && t.r.Fork?
  {
    if key > t.r.n.key then 2 else 1
  }

  lemma RightCounted<V>(key: real, c: nat, lc: Smaller<V>, t: Tree<V>, rc: Larger<V>, t': Tree<V>,
      lc': Smaller<V>)
    requires Counted(key, c, lc, t, rc) && RightRound(key, t, lc, t', lc', true)
    ensures Counted(key, c + RightSteps(key, t), lc', t', rc)
  {
  }

  /** What a link adds to the smaller tree is settled. */
  lemma RightLinked<V>(x: Node<V>, d: nat, onPath: bool, key: real, c: nat, lc: Smaller<V>, t: Tree<V>, rc: Larger<V>,
      u: Tree<V>)
    requires Ordered(InOrder(t)) && Counted(key, c, lc, t, rc) && key > t.n.key && t.r.Fork?
    requires u == if key > t.r.n.key then TurnedLeft(t) else t
    requires x in InOrder(t) ==> d == c + Depth(t, x) && (onPath <==> OnPath(t, key, x))
    ensures x == u.n || x in InOrder(u.l) ==> Settled(d, onPath, SmallerSteps(lc) + 1 + Depth(Fork(u.l, u.n, Nil), x))
    ensures x in InOrder(u.r) ==>
      x in InOrder(t) && d == c + RightSteps(key, t) + Depth(u.r, x) && (onPath <==> OnPath(u.r, key, x))
  {
    Below(t, key, x);
    Below(t.r, key, x);
  }

  /** The parts of the three trees, in order, have no node in common. */
  lemma PartsOrdered<V>(lc: Smaller<V>, t: Tree<V>, rc: Larger<V>)
    requires Ordered(InSmaller(lc) + InOrder(t) + InLarger(rc))
    ensures Ordered(InSmaller(lc)) && Ordered(InOrder(t)) && Ordered(InLarger(rc))
    ensures Ordered(InSmaller(lc) + InOrder(t)) && Ordered(InOrder(t) + InLarger(rc))
    ensures forall x :: x in InOrder(t) ==> x !in InSmaller(lc) && x !in InLarger(rc)
    ensures forall x :: x in InSmaller(lc) ==> x !in InLarger(rc)
  {
    ThreeOrdered(InSmaller(lc), InOrder(t), InLarger(rc));
  }

  lemma ThreeOrdered<V>(a: seq<Node<V>>, b: seq<Node<V>>, c: seq<Node<V>>)
    requires Ordered(a + b + c)
    ensures Ordered(a) && Ordered(b) && Ordered(c) && Ordered(a + b) && Ordered(b + c)
    ensures forall x :: x in b ==> x !in a && x !in c
    ensures forall x :: x in a ==> x !in c
  {
    OrderedConcat(a + b, c);
    OrderedConcat(a, b);
    assert forall x :: x in a || x in b ==> x in a + b;
    OrderedConcat(b, c);
  }

  lemma LeftLevel<V>(x: Node<V>, d: nat, onPath: bool, key: real, c: nat, lc: Smaller<V>, t: Tree<V>, rc: Larger<V>,
      t': Tree<V>, rc': Larger<V>)
    requires Ordered(InSmaller(lc) + InOrder(t) + InLarger(rc)) && Counted(key, c, lc, t, rc)
    requires LeftRound(key, t, rc, t', rc', true) && Level(x, d, onPath, key, c, lc, t, rc)
    ensures Level(x, d, onPath, key, c + LeftSteps(key, t), lc, t', rc')
  {
    var u := if key < t.l.n.key then TurnedRight(t) else t;
    PartsOrdered(lc, t, rc);
    LeftLinked(x, d, onPath, key, c, lc, t, rc, u);
    assert rc' == LargerStep(rc, u.n, u.r) && rc'.outer == rc;
  }

  lemma RightLevel<V>(x: Node<V>, d: nat, onPath: bool, key: real, c: nat, lc: Smaller<V>, t: Tree<V>, rc: Larger<V>,
      t': Tree<V>, lc': Smaller<V>)
    requires Ordered(InSmaller(lc) + InOrder(t) + InLarger(rc)) && Counted(key, c, lc, t, rc)
    requires RightRound(key, t, lc, t', lc', true) && Level(x, d, onPath, key, c, lc, t, rc)
    ensures Level(x, d, onPath, key, c + RightSteps(key, t), lc', t', rc)
  {
    var u := if key > t.r.n.key then TurnedLeft(t) else t;
    PartsOrdered(lc, t, rc);
    RightLinked(x, d, onPath, key, c, lc, t, rc, u);
    assert lc' == SmallerStep(lc, u.l, u.n) && lc'.outer == lc;
  }

  // ----- The end of the search

  /** The search ends with a round that goes no further, or at the key. */
  ghost predicate LastRound<V>(key: real, lc: Smaller<V>, t: Tree<V>, rc: Larger<V>, t': Tree<V>) {
    t.Fork? &&
    if key < t.n.key then LeftRound(key, t, rc, t', rc, false)
    else if key > t.n.key then RightRound(key, t, lc, t', lc, false)
    else t' == t
  }

  lemma Stops<V>(x: Node<V>, d: nat, onPath: bool, key: real, c: nat, lc: Smaller<V>, t: Tree<V>, rc: Larger<V>,
      t': Tree<V>)
    requires Ordered(InSmaller(lc) + InOrder(t) + InLarger(rc)) && Counted(key, c, lc, t, rc)
    requires LastRound(key, lc, t, rc, t') && Level(x, d, onPath, key, c, lc, t, rc)
    ensures Stop(x, d, onPath, lc, t', rc)
  {
    PartsOrdered(lc, t, rc);
    if key < t.n.key {
      StopsLeft(x, d, onPath, key, c, lc, t, rc, t');
    } else if key > t.n.key {
      StopsRight(x, d, onPath, key, c, lc, t, rc, t');
    } else {
      Below(t, key, x);
    }
  }

  lemma StopsLeft<V>(x: Node<V>, d: nat, onPath: bool, key: real, c: nat, lc: Smaller<V>, t: Tree<V>, rc: Larger<V>,
      t': Tree<V>)
    requires Ordered(InOrder(t)) && Counted(key, c, lc, t, rc)
    requires LeftRound(key, t, rc, t', rc, false) && Level(x, d, onPath, key, c, lc, t, rc)
    ensures Stop(x, d, onPath, lc, t', rc)
  {
    Below(t, key, x);
    if t.l.Fork? { Below(t.l, key, x); }
  }

  lemma StopsRight<V>(x: Node<V>, d: nat, onPath: bool, key: real, c: nat, lc: Smaller<V>, t: Tree<V>, rc: Larger<V>,
      t': Tree<V>)
    requires Ordered(InOrder(t)) && Counted(key, c, lc, t, rc)
    requires RightRound(key, t, lc, t', lc, false) && Level(x, d, onPath, key, c, lc, t, rc)
    ensures Stop(x, d, onPath, lc, t', rc)
  {
    Below(t, key, x);
    if t.r.Fork? { Below(t.r, key, x); }
  }

  lemma Settles<V>(x: Node<V>, d: nat, onPath: bool, lc: Smaller<V>, t: Tree<V>, rc: Larger<V>, u: Tree<V>)
    requires Ordered(InSmaller(lc) + InOrder(t) + InLarger(rc)) && Stop(x, d, onPath, lc, t, rc)
    requires x in InSmaller(lc) + InOrder(t) + InLarger(rc)
    requires u == Fork(FillSmaller(lc, t.l), t.n, FillLarger(rc, t.r))
    ensures Settled(d, onPath, Depth(u, x))
  {
    PartsOrdered(lc, t, rc);
    OrderedFork(t);
    FillSmallerOrder(lc, t.l);
    FillLargerOrder(rc, t.r);
    SidesOrdered(lc, t, rc);
    FilledSmallerDepth(lc, t.l, x);
    FilledLargerDepth(rc, t.r, x);
  }

  lemma SidesOrdered<V>(lc: Smaller<V>, t: Tree<V>, rc: Larger<V>)
    requires t.Fork? && Ordered(InSmaller(lc) + InOrder(t)) && Ordered(InOrder(t) + InLarger(rc))
    ensures Ordered(InSmaller(lc) + InOrder(t.l)) && Ordered(InOrder(t.r) + InLarger(rc))
    ensures t.n !in InSmaller(lc) && t.n !in InOrder(t.l)
  {
    OrderedConcat(InSmaller(lc), InOrder(t));
    OrderedConcat(InOrder(t), InLarger(rc));
    OrderedFork(t);
    OrderedConcat(InSmaller(lc), InOrder(t.l));
    OrderedConcat(InOrder(t.r), InLarger(rc));
    assert t.n in InOrder(t);
  }
}
