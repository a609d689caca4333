/**
 benchmarks/splay.js:355-394: the nodes of the tree, and the shapes they are linked into.
 A Tree says which nodes hang where; Linked says that the pointers in the heap agree.
 Keys do not change, so everything about order is about the Tree alone.
 */
module SplayShape {

  class Node<V> {
    const key: real
    const value: V
    var left: Node?<V>
    var right: Node?<V>

    constructor (key: real, value: V)
      ensures this.key == key && this.value == value && left == null && right == null
    {
      this.key, this.value, left, right := key, value, null, null;
    }
  }

  datatype Tree<V> = Nil | Fork(l: Tree<V>, n: Node<V>, r: Tree<V>)

  function Root<V>(t: Tree<V>): Node?<V> {
    if t.Nil? then null else t.n
  }

  /** The nodes from left to right. */
  function InOrder<V>(t: Tree<V>): seq<Node<V>> {
    if t.Nil? then [] else InOrder(t.l) + [t.n] + InOrder(t.r)
  }

  ghost function Members<V>(s: seq<Node<V>>): set<Node<V>> {
    set x | x in s
  }

  ghost predicate Linked<V>(t: Tree<V>)
    reads Members(InOrder(t))
  {
    t.Fork? ==>
      && t.n.left == Root(t.l)
      && t.n.right == Root(t.r)
      && Linked(t.l)
      && Linked(t.r)
  }

  /** Pointers of nodes elsewhere do not matter. */
  twostate lemma {:induction false} LinkedFrame<V>(t: Tree<V>)
    requires old(Linked(t))
    requires forall x: Node<V> :: old(allocated(x)) && x in InOrder(t) ==>
      x.left == old(x.left) && x.right == old(x.right)
    ensures Linked(t)
  {
    if t.Fork? {
      LinkedFrame(t.l);
      LinkedFrame(t.r);
    }
  }

  // ----- The two trees that splaying grows

  /** The tree of smaller nodes, open at the right of its last node; it hangs from the right of a dummy. */
  datatype Smaller<V> = SmallerTop(dummy: Node<V>) | SmallerStep(outer: Smaller<V>, l: Tree<V>, n: Node<V>)

  /** The tree of larger nodes, open at the left of its last node; it hangs from the left of the same dummy. */
  datatype Larger<V> = LargerTop(dummy: Node<V>) | LargerStep(outer: Larger<V>, n: Node<V>, r: Tree<V>)

  function InSmaller<V>(c: Smaller<V>): seq<Node<V>> {
    if c.SmallerTop? then [] else InSmaller(c.outer) + (InOrder(c.l) + [c.n])
  }

  function InLarger<V>(c: Larger<V>): seq<Node<V>> {
    if c.LargerTop? then [] else ([c.n] + InOrder(c.r)) + InLarger(c.outer)
  }

  function SmallerDummy<V>(c: Smaller<V>): Node<V> {
    if c.SmallerTop? then c.dummy else SmallerDummy(c.outer)
  }

  function LargerDummy<V>(c: Larger<V>): Node<V> {
    if c.LargerTop? then c.dummy else LargerDummy(c.outer)
  }

  /** The node whose right pointer is open; the dummy when there is none yet. */
  function LastSmaller<V>(c: Smaller<V>): (r: Node<V>)
    ensures r == SmallerDummy(c) || r in InSmaller(c)
  {
    if c.SmallerTop? then c.dummy else c.n
  }

  function LastLarger<V>(c: Larger<V>): (r: Node<V>)
    ensures r == LargerDummy(c) || r in InLarger(c)
  {
    if c.LargerTop? then c.dummy else c.n
  }

  ghost predicate SmallerLinked<V>(c: Smaller<V>)
    reads Members(InSmaller(c)), SmallerDummy(c)`right
  {
    c.SmallerStep? ==>
      && LastSmaller(c.outer).right == c.n
      && c.n.left == Root(c.l)
      && Linked(c.l)
      && SmallerLinked(c.outer)
  }

  ghost predicate LargerLinked<V>(c: Larger<V>)
    reads Members(InLarger(c)), LargerDummy(c)`left
  {
    c.LargerStep? ==>
      && LastLarger(c.outer).left == c.n
      && c.n.right == Root(c.r)
      && Linked(c.r)
      && LargerLinked(c.outer)
  }

  twostate lemma {:induction false} SmallerFrame<V>(c: Smaller<V>)
    requires old(SmallerLinked(c))
    requires SmallerDummy(c).right == old(SmallerDummy(c).right)
    requires forall x: Node<V> :: old(allocated(x)) && x in InSmaller(c) ==>
      x.left == old(x.left) && x.right == old(x.right)
    ensures SmallerLinked(c)
  {
    if c.SmallerStep? {
      LinkedFrame(c.l);
      SmallerFrame(c.outer);
    }
  }

  twostate lemma {:induction false} LargerFrame<V>(c: Larger<V>)
    requires old(LargerLinked(c))
    requires LargerDummy(c).left == old(LargerDummy(c).left)
    requires forall x: Node<V> :: old(allocated(x)) && x in InLarger(c) ==>
      x.left == old(x.left) && x.right == old(x.right)
    ensures LargerLinked(c)
  {
    if c.LargerStep? {
      LinkedFrame(c.r);
      LargerFrame(c.outer);
    }
  }

  /** The smaller tree with t put into its open place. */
  function FillSmaller<V>(c: Smaller<V>, t: Tree<V>): Tree<V> {
    if c.SmallerTop? then t else FillSmaller(c.outer, Fork(c.l, c.n, t))
  }

  function FillLarger<V>(c: Larger<V>, t: Tree<V>): Tree<V> {
    if c.LargerTop? then t else FillLarger(c.outer, Fork(t, c.n, c.r))
  }

  lemma {:induction false} FillSmallerOrder<V>(c: Smaller<V>, t: Tree<V>)
    ensures InOrder(FillSmaller(c, t)) == InSmaller(c) + InOrder(t)
    decreases c
  {
    if c.SmallerStep? {
      FillSmallerOrder(c.outer, Fork(c.l, c.n, t));
      assert InSmaller(c.outer) + (InOrder(c.l) + [c.n] + InOrder(t)) ==
        InSmaller(c.outer) + (InOrder(c.l) + [c.n]) + InOrder(t);
    }
  }

  lemma {:induction false} FillLargerOrder<V>(c: Larger<V>, t: Tree<V>)
    ensures InOrder(FillLarger(c, t)) == InOrder(t) + InLarger(c)
    decreases c
  {
    if c.LargerStep? {
      FillLargerOrder(c.outer, Fork(t, c.n, c.r));
      assert InOrder(t) + [c.n] + InOrder(c.r) + InLarger(c.outer) ==
        InOrder(t) + (([c.n] + InOrder(c.r)) + InLarger(c.outer));
    }
  }

  /** Once the open pointer is closed with t, the pointers agree with the filled tree. */
  lemma {:induction false} FillSmallerLinked<V>(c: Smaller<V>, t: Tree<V>)
    requires SmallerLinked(c) && Linked(t) && LastSmaller(c).right == Root(t)
    ensures Linked(FillSmaller(c, t)) && SmallerDummy(c).right == Root(FillSmaller(c, t))
    decreases c
  {
    if c.SmallerStep? {
      FillSmallerLinked(c.outer, Fork(c.l, c.n, t));
    }
  }

  lemma {:induction false} FillLargerLinked<V>(c: Larger<V>, t: Tree<V>)
    requires LargerLinked(c) && Linked(t) && LastLarger(c).left == Root(t)
    ensures Linked(FillLarger(c, t)) && LargerDummy(c).left == Root(FillLarger(c, t))
    decreases c
  {
    if c.LargerStep? {
      FillLargerLinked(c.outer, Fork(t, c.n, c.r));
    }
  }

  // ----- Order

  ghost predicate Ordered<V>(s: seq<Node<V>>) {
    forall i, j :: 0 <= i < j < |s| ==> s[i].key < s[j].key
  }

  ghost predicate Before<V>(a: seq<Node<V>>, b: seq<Node<V>>) {
    forall x, y :: x in a && y in b ==> x.key < y.key
  }

  ghost predicate AllBelow<V>(s: seq<Node<V>>, key: real) {
    forall x :: x in s ==> x.key < key
  }

  ghost predicate AllAbove<V>(s: seq<Node<V>>, key: real) {
    forall x :: x in s ==> x.key > key
  }

  lemma OrderedConcat<V>(a: seq<Node<V>>, b: seq<Node<V>>)
    ensures Ordered(a + b) <==> Ordered(a) && Ordered(b) && Before(a, b)
  {
    var s := a + b;
    if Ordered(s) {
      forall i, j | 0 <= i < j < |a| ensures a[i].key < a[j].key {
        assert s[i] == a[i] && s[j] == a[j];
      }
      forall i, j | 0 <= i < j < |b| ensures b[i].key < b[j].key {
        assert s[|a| + i] == b[i] && s[|a| + j] == b[j];
      }
      forall x, y | x in a && y in b ensures x.key < y.key {
        var i :| 0 <= i < |a| && a[i] == x;
        var j :| 0 <= j < |b| && b[j] == y;
        assert s[i] == x && s[|a| + j] == y;
      }
    }
    if Ordered(a) && Ordered(b) && Before(a, b) {
      forall i, j | 0 <= i < j < |s| ensures s[i].key < s[j].key {
        if j < |a| {
          assert s[i] == a[i] && s[j] == a[j];
        } else if i < |a| {
          assert s[i] in a && s[j] == b[j - |a|] && s[j] in b;
        } else {
          assert s[i] == b[i - |a|] && s[j] == b[j - |a|];
        }
      }
    }
  }

  /** A search tree: everything left of a node is smaller, everything right of it larger. */
  lemma OrderedFork<V>(t: Tree<V>)
    requires t.Fork?
    ensures Ordered(InOrder(t)) <==>
      Ordered(InOrder(t.l)) && Ordered(InOrder(t.r)) && AllBelow(InOrder(t.l), t.n.key)
        && AllAbove(InOrder(t.r), t.n.key)
      && Before(InOrder(t.l), InOrder(t.r))
  {
    OrderedConcat(InOrder(t.l), [t.n]);
    OrderedConcat(InOrder(t.l) + [t.n], InOrder(t.r));
    assert t.n in [t.n];
    assert t.n in InOrder(t.l) + [t.n];
  }
}
