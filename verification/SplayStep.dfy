/**
 benchmarks/splay.js:293-352: the steps of top-down splaying. Every step keeps the nodes in
 order; the last one leaves them split at the key.
 */
module SplayStep {
  import opened SplayShape
  import opened SplayDepth

  // ----- One step of splaying

  /**
   The nodes s of the original tree are, in order: those already moved to the smaller tree,
   those of the tree still to be searched, those already moved to the larger tree.
   */
  ghost predicate Arranged<V>(s: seq<Node<V>>, key: real, lc: Smaller<V>, t: Tree<V>, rc: Larger<V>) {
    && InSmaller(lc) + InOrder(t) + InLarger(rc) == s
    && Ordered(s)
    && SmallerDummy(lc) == LargerDummy(rc) && SmallerDummy(lc) !in s
    && AllBelow(InSmaller(lc), key) && AllAbove(InLarger(rc), key)
  }

  /** The pointers agree with that. */
  ghost predicate Splaying<V>(s: seq<Node<V>>, key: real, lc: Smaller<V>, t: Tree<V>, rc: Larger<V>)
    reads Members(InOrder(t)), Members(InSmaller(lc)), Members(InLarger(rc)), SmallerDummy(lc), LargerDummy(rc)
  {
    && t.Fork?
    && Linked(t) && SmallerLinked(lc) && LargerLinked(rc)
    && Arranged(s, key, lc, t, rc)
  }

  /** No node is in two of the three parts. */
  lemma Apart<V>(s: seq<Node<V>>, key: real, lc: Smaller<V>, t: Tree<V>, rc: Larger<V>)
    requires Arranged(s, key, lc, t, rc)
    ensures Ordered(InOrder(t)) && Ordered(InSmaller(lc)) && Ordered(InLarger(rc))
    ensures forall x :: x in InSmaller(lc) ==> x !in InOrder(t) && x !in InLarger(rc)
    ensures forall x :: x in InOrder(t) ==> x !in InSmaller(lc) && x !in InLarger(rc)
    ensures forall x :: x in InLarger(rc) ==> x !in InSmaller(lc) && x !in InOrder(t)
    ensures SmallerDummy(lc) !in InSmaller(lc) && SmallerDummy(lc) !in InOrder(t) && SmallerDummy(lc) !in InLarger(rc)
  {
    OrderedConcat(InSmaller(lc), InOrder(t));
    OrderedConcat(InSmaller(lc) + InOrder(t), InLarger(rc));
  }

  lemma RotateOrder<V>(a: Tree<V>, m: Node<V>, b: Tree<V>, n: Node<V>, c: Tree<V>)
    ensures InOrder(Fork(Fork(a, m, b), n, c)) == InOrder(Fork(a, m, Fork(b, n, c)))
  {
    assert InOrder(a) + [m] + InOrder(b) + [n] + InOrder(c) == InOrder(a) + [m] + (InOrder(b) + [n] + InOrder(c));
  }

  /** A node is in neither of its subtrees. */
  lemma ForkApart<V>(t: Tree<V>)
    requires t.Fork? && Ordered(InOrder(t))
    ensures t.n !in InOrder(t.l) && t.n !in InOrder(t.r) && Ordered(InOrder(t.l)) && Ordered(InOrder(t.r))
    ensures t.l.Fork? ==> t.l.n != t.n && t.l.n !in InOrder(t.r) && t.n !in InOrder(t.l.l) && t.n !in InOrder(t.l.r)
    ensures t.r.Fork? ==> t.r.n != t.n && t.r.n !in InOrder(t.l) && t.n !in InOrder(t.r.l) && t.n !in InOrder(t.r.r)
  {
    OrderedFork(t);
  }

  method RotateRight<V>(current: Node<V>, ghost t: Tree<V>) returns (top: Node<V>, ghost u: Tree<V>)
    requires t.Fork? && t.l.Fork? && t.n == current && Linked(t) && Ordered(InOrder(t))
    modifies t.n, t.l.n
    ensures u == Fork(t.l.l, t.l.n, Fork(t.l.r, t.n, t.r)) && Linked(u) && top == u.n
  {
    ForkApart(t);
    ForkApart(t.l);
    var tmp := current.left;
    u := Fork(t.l.l, tmp, Fork(t.l.r, t.n, t.r));
    current.left := tmp.right;
    tmp.right := current;
    top := tmp;
    LinkedFrame(t.l.l);
    LinkedFrame(t.l.r);
    LinkedFrame(t.r);
  }

  method RotateLeft<V>(current: Node<V>, ghost t: Tree<V>) returns (top: Node<V>, ghost u: Tree<V>)
    requires t.Fork? && t.r.Fork? && t.n == current && Linked(t) && Ordered(InOrder(t))
    modifies t.n, t.r.n
    ensures u == Fork(Fork(t.l, t.n, t.r.l), t.r.n, t.r.r) && Linked(u) && top == u.n
  {
    ForkApart(t);
    ForkApart(t.r);
    var tmp := current.right;
    u := Fork(Fork(t.l, t.n, t.r.l), tmp, t.r.r);
    current.right := tmp.left;
    tmp.left := current;
    top := tmp;
    LinkedFrame(t.l);
    LinkedFrame(t.r.l);
    LinkedFrame(t.r.r);
  }

  /** The open node is nowhere else in its tree. */
  lemma LastLargerApart<V>(rc: Larger<V>)
    requires rc.LargerStep? && Ordered(InLarger(rc)) && LargerDummy(rc) !in InLarger(rc)
    ensures rc.n !in InOrder(rc.r) && rc.n !in InLarger(rc.outer)
    ensures rc.n != LargerDummy(rc) && rc.n != LastLarger(rc.outer)
  {
    OrderedConcat([rc.n] + InOrder(rc.r), InLarger(rc.outer));
    OrderedConcat([rc.n], InOrder(rc.r));
    assert rc.n in [rc.n] && rc.n in [rc.n] + InOrder(rc.r);
  }

  lemma LastSmallerApart<V>(lc: Smaller<V>)
    requires lc.SmallerStep? && Ordered(InSmaller(lc)) && SmallerDummy(lc) !in InSmaller(lc)
    ensures lc.n !in InOrder(lc.l) && lc.n !in InSmaller(lc.outer)
    ensures lc.n != SmallerDummy(lc) && lc.n != LastSmaller(lc.outer)
  {
    OrderedConcat(InSmaller(lc.outer), InOrder(lc.l) + [lc.n]);
    OrderedConcat(InOrder(lc.l), [lc.n]);
    assert lc.n in [lc.n] && lc.n in InOrder(lc.l) + [lc.n];
  }

  /** Writing the open pointer leaves the rest of the tree as it was. */
  method SetLastLeft<V>(right: Node<V>, p: Node?<V>, ghost rc: Larger<V>)
    requires LargerLinked(rc) && Ordered(InLarger(rc)) && LargerDummy(rc) !in InLarger(rc) && right == LastLarger(rc)
    modifies right`left
    ensures LargerLinked(rc) && right.left == p
  {
    right.left := p;
    if rc.LargerStep? {
      LastLargerApart(rc);
      LinkedFrame(rc.r);
      LargerFrame(rc.outer);
    }
  }

  method SetLastRight<V>(left: Node<V>, p: Node?<V>, ghost lc: Smaller<V>)
    requires SmallerLinked(lc) && Ordered(InSmaller(lc)) && SmallerDummy(lc) !in InSmaller(lc)
      && left == LastSmaller(lc)
    modifies left`right
    ensures SmallerLinked(lc) && left.right == p
  {
    left.right := p;
    if lc.SmallerStep? {
      LastSmallerApart(lc);
      LinkedFrame(lc.l);
      SmallerFrame(lc.outer);
    }
  }

  lemma Regroup<X>(a: seq<X>, b: seq<X>, c: seq<X>, d: seq<X>, e: seq<X>)
    ensures a + (b + c + d) + e == a + b + ((c + d) + e)
    ensures a + (b + c + d) + e == a + (b + c) + d + e
  {
  }

  /** Moving a node and its right subtree over to the larger tree. */
  lemma LinkRightArranged<V>(s: seq<Node<V>>, key: real, lc: Smaller<V>, t: Tree<V>, rc: Larger<V>)
    requires Arranged(s, key, lc, t, rc) && t.Fork? && key < t.n.key
    ensures Arranged(s, key, lc, t.l, LargerStep(rc, t.n, t.r))
  {
    Apart(s, key, lc, t, rc);
    OrderedFork(t);
    Regroup(InSmaller(lc), InOrder(t.l), [t.n], InOrder(t.r), InLarger(rc));
  }

  lemma LinkLeftArranged<V>(s: seq<Node<V>>, key: real, lc: Smaller<V>, t: Tree<V>, rc: Larger<V>)
    requires Arranged(s, key, lc, t, rc) && t.Fork? && t.n.key < key
    ensures Arranged(s, key, SmallerStep(lc, t.l, t.n), t.r, rc)
  {
    Apart(s, key, lc, t, rc);
    OrderedFork(t);
    Regroup(InSmaller(lc), InOrder(t.l), [t.n], InOrder(t.r), InLarger(rc));
  }

  method LinkRight<V>(right: Node<V>, current: Node<V>, ghost s: seq<Node<V>>, ghost key: real, ghost dummy: Node<V>,
      ghost lc: Smaller<V>, ghost t: Tree<V>, ghost rc: Larger<V>)
    requires Splaying(s, key, lc, t, rc) && right == LastLarger(rc) && current == t.n && key < t.n.key && t.l.Fork?
      && dummy == SmallerDummy(lc)
    modifies right`left
    ensures Splaying(s, key, lc, t.l, LargerStep(rc, t.n, t.r)) && t.n.left == t.l.n
  {
    Apart(s, key, lc, t, rc);
    LinkRightArranged(s, key, lc, t, rc);
    SetLastLeft(right, current, rc);
    LinkedFrame(t);
    SmallerFrame(lc);
  }

  method LinkLeft<V>(left: Node<V>, current: Node<V>, ghost s: seq<Node<V>>, ghost key: real, ghost dummy: Node<V>,
      ghost lc: Smaller<V>, ghost t: Tree<V>, ghost rc: Larger<V>)
    requires Splaying(s, key, lc, t, rc) && left == LastSmaller(lc) && current == t.n && t.n.key < key && t.r.Fork?
      && dummy == SmallerDummy(lc)
    modifies left`right
    ensures Splaying(s, key, SmallerStep(lc, t.l, t.n), t.r, rc) && t.n.right == t.r.n
  {
    Apart(s, key, lc, t, rc);
    LinkLeftArranged(s, key, lc, t, rc);
    SetLastRight(left, current, lc);
    LinkedFrame(t);
    LargerFrame(rc);
  }

  /** A rotation inside the tree still to be searched. */
  method RotateRightStep<V>(current: Node<V>, ghost s: seq<Node<V>>, ghost key: real, ghost dummy: Node<V>,
      ghost lc: Smaller<V>, ghost t: Tree<V>, ghost rc: Larger<V>)
      returns (top: Node<V>, ghost u: Tree<V>)
    requires Splaying(s, key, lc, t, rc) && t.l.Fork? && current == t.n && dummy == SmallerDummy(lc)
    modifies t.n, t.l.n
    ensures Splaying(s, key, lc, u, rc) && top == u.n && u == TurnedRight(t)
  {
    Apart(s, key, lc, t, rc);
    RotateOrder(t.l.l, t.l.n, t.l.r, t.n, t.r);
    assert t.l.n in InOrder(t.l) && t.l.n in InOrder(t) && t.n in InOrder(t);
    top, u := RotateRight(current, t);
    SmallerFrame(lc);
    LargerFrame(rc);
  }

  method RotateLeftStep<V>(current: Node<V>, ghost s: seq<Node<V>>, ghost key: real, ghost dummy: Node<V>,
      ghost lc: Smaller<V>, ghost t: Tree<V>, ghost rc: Larger<V>)
      returns (top: Node<V>, ghost u: Tree<V>)
    requires Splaying(s, key, lc, t, rc) && t.r.Fork? && current == t.n && dummy == SmallerDummy(lc)
    modifies t.n, t.r.n
    ensures Splaying(s, key, lc, u, rc) && top == u.n && u == TurnedLeft(t)
  {
    Apart(s, key, lc, t, rc);
    RotateOrder(t.l, t.n, t.r.l, t.r.n, t.r.r);
    assert t.r.n in InOrder(t.r) && t.r.n in InOrder(t) && t.n in InOrder(t);
    top, u := RotateLeft(current, t);
    SmallerFrame(lc);
    LargerFrame(rc);
  }

  /**
   The node at which the search for the key ends: the one with the key, or the last on the way
   to where it would be.
   */
  function LastOnPath<V>(t: Tree<V>, key: real): Node<V>
    requires t.Fork?
  {
    if key < t.n.key && t.l.Fork? then LastOnPath(t.l, key)
    else if key > t.n.key && t.r.Fork? then LastOnPath(t.r, key)
    else t.n
  }

  /** Where the search stops: at the key, or where there is nothing further on its side. */
  ghost predicate Stopped<V>(t: Tree<V>, key: real) {
    t.Fork? && (key < t.n.key ==> t.l.Nil?) && (key > t.n.key ==> t.r.Nil?)
  }

  /** One round of the loop when the key is smaller than the current one. */
  method SearchLeft<V>(key: real, current: Node<V>, right: Node<V>,
      ghost s: seq<Node<V>>, ghost dummy: Node<V>, ghost lc: Smaller<V>, ghost t: Tree<V>, ghost rc: Larger<V>)
      returns (current': Node<V>, right': Node<V>, more: bool, ghost t': Tree<V>, ghost rc': Larger<V>)
    requires Splaying(s, key, lc, t, rc) && dummy == SmallerDummy(lc)
    requires current == t.n && right == LastLarger(rc) && key < current.key
    modifies Members(InOrder(t)), right
    ensures Splaying(s, key, lc, t', rc') && dummy == LargerDummy(rc')
    ensures current' == t'.n && right' == LastLarger(rc')
    ensures LeftRound(key, t, rc, t', rc', more) && (!more ==> Stopped(t', key))
    ensures LastOnPath(t', key) == LastOnPath(t, key)
  {
    current', right', more, t', rc' := current, right, false, t, rc;
    if current.left == null { return; }
    assert t.l.n in InOrder(t.l) && t.l.n in InOrder(t);
    if key < current.left.key {
      current', t' := RotateRightStep(current, s, key, dummy, lc, t, rc);
      if current'.left == null { return; }
    }
    LinkRight(right, current', s, key, dummy, lc, t', rc);
    right', rc' := current', LargerStep(rc, t'.n, t'.r);
    current', t' := current'.left, t'.l;
    more := true;
  }

  method SearchRight<V>(key: real, current: Node<V>, left: Node<V>,
      ghost s: seq<Node<V>>, ghost dummy: Node<V>, ghost lc: Smaller<V>, ghost t: Tree<V>, ghost rc: Larger<V>)
      returns (current': Node<V>, left': Node<V>, more: bool, ghost t': Tree<V>, ghost lc': Smaller<V>)
    requires Splaying(s, key, lc, t, rc) && dummy == SmallerDummy(lc)
    requires current == t.n && left == LastSmaller(lc) && key > current.key
    modifies Members(InOrder(t)), left
    ensures Splaying(s, key, lc', t', rc) && dummy == SmallerDummy(lc')
    ensures current' == t'.n && left' == LastSmaller(lc')
    ensures RightRound(key, t, lc, t', lc', more) && (!more ==> Stopped(t', key))
    ensures LastOnPath(t', key) == LastOnPath(t, key)
  {
    current', left', more, t', lc' := current, left, false, t, lc;
    if current.right == null { return; }
    assert t.r.n in InOrder(t.r) && t.r.n in InOrder(t);
    if key > current.right.key {
      current', t' := RotateLeftStep(current, s, key, dummy, lc, t, rc);
      if current'.right == null { return; }
    }
    LinkLeft(left, current', s, key, dummy, lc, t', rc);
    left', lc' := current', SmallerStep(lc, t'.l, t'.n);
    current', t' := current'.right, t'.r;
    more := true;
  }

  ghost predicate SplitAt<V>(u: Tree<V>, key: real) {
    u.Fork? && AllBelow(InOrder(u.l), key) && AllAbove(InOrder(u.r), key)
  }

  ghost function Assembled<V>(lc: Smaller<V>, t: Tree<V>, rc: Larger<V>): Tree<V>
    requires t.Fork?
  {
    Fork(FillSmaller(lc, t.l), t.n, FillLarger(rc, t.r))
  }

  lemma RegroupAll<X>(a: seq<X>, b: seq<X>, c: seq<X>, d: seq<X>, e: seq<X>)
    ensures a + (b + c + d) + e == (a + b) + c + (d + e)
  {
  }

  lemma AssembledInOrder<V>(lc: Smaller<V>, t: Tree<V>, rc: Larger<V>)
    requires t.Fork?
    ensures InOrder(Assembled(lc, t, rc)) == InSmaller(lc) + InOrder(t) + InLarger(rc)
  {
    FillSmallerOrder(lc, t.l);
    FillLargerOrder(rc, t.r);
    RegroupAll(InSmaller(lc), InOrder(t.l), [t.n], InOrder(t.r), InLarger(rc));
  }

  lemma AssembledSplits<V>(s: seq<Node<V>>, key: real, lc: Smaller<V>, t: Tree<V>, rc: Larger<V>)
    requires Arranged(s, key, lc, t, rc) && Stopped(t, key)
    ensures SplitAt(Assembled(lc, t, rc), key)
  {
    FillSmallerOrder(lc, t.l);
    FillLargerOrder(rc, t.r);
    Apart(s, key, lc, t, rc);
    OrderedFork(t);
  }

  /** Closes the two open pointers with the subtrees of the current node. */
  method Close<V>(current: Node<V>, left: Node<V>, right: Node<V>, dummy: Node<V>,
      ghost s: seq<Node<V>>, ghost key: real, ghost lc: Smaller<V>, ghost t: Tree<V>, ghost rc: Larger<V>)
    requires Splaying(s, key, lc, t, rc)
    requires current == t.n && left == LastSmaller(lc) && right == LastLarger(rc) && dummy == SmallerDummy(lc)
    modifies left`right, right`left
    ensures Linked(FillSmaller(lc, t.l)) && dummy.right == Root(FillSmaller(lc, t.l))
    ensures Linked(FillLarger(rc, t.r)) && dummy.left == Root(FillLarger(rc, t.r))
  {
    Apart(s, key, lc, t, rc);
    SetLastRight(left, current.left, lc);
    LinkedFrame(t);
    LargerFrame(rc);
    label A:
    SetLastLeft(right, current.right, rc);
    LinkedFrame@A(t);
    SmallerFrame@A(lc);
    FillSmallerLinked(lc, t.l);
    FillLargerLinked(rc, t.r);
  }

  method Assemble<V>(current: Node<V>, left: Node<V>, right: Node<V>, dummy: Node<V>,
      ghost s: seq<Node<V>>, ghost key: real, ghost lc: Smaller<V>, ghost t: Tree<V>, ghost rc: Larger<V>)
        returns (ghost u: Tree<V>)
    requires Splaying(s, key, lc, t, rc) && Stopped(t, key)
    requires current == t.n && left == LastSmaller(lc) && right == LastLarger(rc) && dummy == SmallerDummy(lc)
    modifies current, left`right, right`left
    ensures Linked(u) && InOrder(u) == s && SplitAt(u, key) && u.n == current && u == Assembled(lc, t, rc)
  {
    AssembledInOrder(lc, t, rc);
    AssembledSplits(s, key, lc, t, rc);
    Close(current, left, right, dummy, s, key, lc, t, rc);
    ghost var l, r := FillSmaller(lc, t.l), FillLarger(rc, t.r);
    u := Fork(l, current, r);
    ForkApart(u);
    label C:
    current.left := dummy.right;
    current.right := dummy.left;
    LinkedFrame@C(l);
    LinkedFrame@C(r);
  }

  /** What a round may write to is in the tree, or the dummy. */
  lemma Footprint<V>(s: seq<Node<V>>, key: real, dummy: Node<V>, lc: Smaller<V>, t: Tree<V>, rc: Larger<V>)
    requires Arranged(s, key, lc, t, rc) && t.Fork? && dummy == SmallerDummy(lc)
    ensures Members(InOrder(t)) <= Members(s) && t.n in s
    ensures LastSmaller(lc) in s || LastSmaller(lc) == dummy
    ensures LastLarger(rc) in s || LastLarger(rc) == dummy
  {
    assert t.n in InOrder(t);
  }

  lemma {:induction false} NodesAllocated<V>(t: Tree<V>)
    ensures forall x :: x in InOrder(t) ==> allocated(x)
  {
    if t.Fork? {
      NodesAllocated(t.l);
      NodesAllocated(t.r);
    }
  }

  method SplayRoot<V>(key: real, root: Node<V>, ghost tree: Tree<V>) returns (current: Node<V>, ghost u: Tree<V>)
    requires tree.Fork? && root == tree.n && Linked(tree) && Ordered(InOrder(tree))
    modifies Members(InOrder(tree))
    ensures Linked(u) && InOrder(u) == InOrder(tree) && SplitAt(u, key) && u.n == current
    ensures current == LastOnPath(tree, key) && Flattened(tree, key, u)
  {
    ghost var s := InOrder(tree);
    NodesAllocated(tree);
    var dummy := new Node(root.key, root.value);  // its key and value are never looked at
    LinkedFrame(tree);
    assert [] + s + [] == s;
    var left, right;
    ghost var lc, t, rc;
    current, left, right, lc, t, rc := Search(key, root, dummy, s, tree);
    Footprint(s, key, dummy, lc, t, rc);
    u := Assemble(current, left, right, dummy, s, key, lc, t, rc);
    AllSettled(tree, key, lc, t, rc, u);
  }

  /** All nodes of the original tree are settled once the parts are put together. */
  ghost predicate AllStop<V>(tree: Tree<V>, key: real, lc: Smaller<V>, t: Tree<V>, rc: Larger<V>) {
    forall x :: x in InOrder(tree) ==> Stop(x, Depth(tree, x), OnPath(tree, key, x), lc, t, rc)
  }

  ghost predicate AllLevel<V>(tree: Tree<V>, key: real, c: nat, lc: Smaller<V>, t: Tree<V>, rc: Larger<V>) {
    forall x :: x in InOrder(tree) ==> Level(x, Depth(tree, x), OnPath(tree, key, x), key, c, lc, t, rc)
  }

  lemma AllSettled<V>(tree: Tree<V>, key: real, lc: Smaller<V>, t: Tree<V>, rc: Larger<V>, u: Tree<V>)
    requires t.Fork? && Arranged(InOrder(tree), key, lc, t, rc) && AllStop(tree, key, lc, t, rc)
      && u == Assembled(lc, t, rc)
    ensures Flattened(tree, key, u)
  {
    forall x | x in InOrder(tree) ensures Settled(Depth(tree, x), OnPath(tree, key, x), Depth(u, x)) {
      Settles(x, Depth(tree, x), OnPath(tree, key, x), lc, t, rc, u);
    }
  }

  lemma AllStops<V>(tree: Tree<V>, key: real, c: nat, lc: Smaller<V>, t: Tree<V>, rc: Larger<V>, t': Tree<V>)
    requires Arranged(InOrder(tree), key, lc, t, rc) && Counted(key, c, lc, t, rc) && AllLevel(tree, key, c, lc, t, rc)
    requires LastRound(key, lc, t, rc, t')
    ensures AllStop(tree, key, lc, t', rc)
  {
    forall x | x in InOrder(tree) ensures Stop(x, Depth(tree, x), OnPath(tree, key, x), lc, t', rc) {
      Stops(x, Depth(tree, x), OnPath(tree, key, x), key, c, lc, t, rc, t');
    }
  }

  lemma AllLeft<V>(tree: Tree<V>, key: real, c: nat, lc: Smaller<V>, t: Tree<V>, rc: Larger<V>, t': Tree<V>,
      rc': Larger<V>)
    requires Arranged(InOrder(tree), key, lc, t, rc) && Counted(key, c, lc, t, rc) && AllLevel(tree, key, c, lc, t, rc)
    requires LeftRound(key, t, rc, t', rc', true)
    ensures Counted(key, c + LeftSteps(key, t), lc, t', rc') && AllLevel(tree, key, c + LeftSteps(key, t), lc, t', rc')
  {
    LeftCounted(key, c, lc, t, rc, t', rc');
    forall x | x in InOrder(tree)
      ensures Level(x, Depth(tree, x), OnPath(tree, key, x), key, c + LeftSteps(key, t), lc, t', rc')
    {
      LeftLevel(x, Depth(tree, x), OnPath(tree, key, x), key, c, lc, t, rc, t', rc');
    }
  }

  lemma AllRight<V>(tree: Tree<V>, key: real, c: nat, lc: Smaller<V>, t: Tree<V>, rc: Larger<V>, t': Tree<V>,
      lc': Smaller<V>)
    requires Arranged(InOrder(tree), key, lc, t, rc) && Counted(key, c, lc, t, rc) && AllLevel(tree, key, c, lc, t, rc)
    requires RightRound(key, t, lc, t', lc', true)
    ensures Counted(key, c + RightSteps(key, t), lc', t', rc)
    ensures AllLevel(tree, key, c + RightSteps(key, t), lc', t', rc)
  {
    RightCounted(key, c, lc, t, rc, t', lc');
    forall x | x in InOrder(tree)
      ensures Level(x, Depth(tree, x), OnPath(tree, key, x), key, c + RightSteps(key, t), lc', t', rc)
    {
      RightLevel(x, Depth(tree, x), OnPath(tree, key, x), key, c, lc, t, rc, t', lc');
    }
  }

  /** One round of the loop. */
  method Round<V>(key: real, current: Node<V>, left: Node<V>, right: Node<V>, ghost dummy: Node<V>, ghost tree: Tree<V>,
      ghost c: nat, ghost lc: Smaller<V>, ghost t: Tree<V>, ghost rc: Larger<V>)
      returns (current': Node<V>, left': Node<V>, right': Node<V>, more: bool,
        ghost c': nat, ghost lc': Smaller<V>, ghost t': Tree<V>, ghost rc': Larger<V>)
    requires Splaying(InOrder(tree), key, lc, t, rc) && dummy == SmallerDummy(lc)
    requires current == t.n && left == LastSmaller(lc) && right == LastLarger(rc)
    requires Counted(key, c, lc, t, rc) && AllLevel(tree, key, c, lc, t, rc)
    modifies Members(InOrder(t)), left, right
    ensures Splaying(InOrder(tree), key, lc', t', rc') && dummy == SmallerDummy(lc')
    ensures current' == t'.n && left' == LastSmaller(lc') && right' == LastLarger(rc')
    ensures LastOnPath(t', key) == LastOnPath(t, key)
    ensures if more then t' < t && Counted(key, c', lc', t', rc') && AllLevel(tree, key, c', lc', t', rc')
      else Stopped(t', key) && AllStop(tree, key, lc', t', rc')
  {
    ghost var s := InOrder(tree);
    current', left', right', more := current, left, right, false;
    c', lc', t', rc' := c, lc, t, rc;
    if key < current.key {
      current', right', more, t', rc' := SearchLeft(key, current, right, s, dummy, lc, t, rc);
      if more {
        AllLeft(tree, key, c, lc, t, rc, t', rc');
        c' := c + LeftSteps(key, t);
      }
    } else if key > current.key {
      current', left', more, t', lc' := SearchRight(key, current, left, s, dummy, lc, t, rc);
      if more {
        AllRight(tree, key, c, lc, t, rc, t', lc');
        c' := c + RightSteps(key, t);
      }
    }
    if !more { AllStops(tree, key, c, lc, t, rc, t'); }
  }

  /** The loop, until the search stops. */
  method Search<V>(key: real, root: Node<V>, dummy: Node<V>, ghost s: seq<Node<V>>, ghost tree: Tree<V>)
      returns (current: Node<V>, left: Node<V>, right: Node<V>, ghost lc: Smaller<V>, ghost t: Tree<V>,
        ghost rc: Larger<V>)
    requires Splaying(s, key, SmallerTop(dummy), tree, LargerTop(dummy)) && root == tree.n && s == InOrder(tree)
    modifies Members(s), dummy
    ensures Splaying(s, key, lc, t, rc) && Stopped(t, key) && dummy == SmallerDummy(lc)
    ensures AllStop(tree, key, lc, t, rc)
    ensures current == t.n && left == LastSmaller(lc) && right == LastLarger(rc) && current == LastOnPath(tree, key)
  {
    current, left, right := root, dummy, dummy;
    lc, t, rc := SmallerTop(dummy), tree, LargerTop(dummy);
    var more := true;
    ghost var last, c := LastOnPath(tree, key), 0;
    while more
      invariant Splaying(s, key, lc, t, rc)
      invariant current == t.n && left == LastSmaller(lc) && right == LastLarger(rc)
      invariant dummy == SmallerDummy(lc) && LastOnPath(t, key) == last
      invariant if more then Counted(key, c, lc, t, rc) && AllLevel(tree, key, c, lc, t, rc)
        else Stopped(t, key) && AllStop(tree, key, lc, t, rc)
      decreases more, t
    {
      Footprint(s, key, dummy, lc, t, rc);
      current, left, right, more, c, lc, t, rc := Round(key, current, left, right, dummy, tree, c, lc, t, rc);
    }
  }
}
