/**
 benchmarks/splay.js:70-352: the splay tree. Every operation is the operation on a sorted
 map, whatever shape the tree has.
 */
module SplayTrees {
  import opened SplayShape
  import opened SplayStep
  import opened SplayDepth

  // ----- The map a sequence of nodes stands for

  ghost function ToMap<V>(s: seq<Node<V>>): map<real, V> {
    if s == [] then map[] else ToMap(s[..|s| - 1])[s[|s| - 1].key := s[|s| - 1].value]
  }

  lemma {:induction false} NodeInMap<V>(s: seq<Node<V>>, x: Node<V>)
    requires Ordered(s) && x in s
    ensures x.key in ToMap(s) && ToMap(s)[x.key] == x.value
  {
    var i :| 0 <= i < |s| && s[i] == x;
    if i < |s| - 1 {
      assert s[..|s| - 1][i] == x;
      NodeInMap(s[..|s| - 1], x);
    }
  }

  lemma {:induction false} KeyInMap<V>(s: seq<Node<V>>, k: real) returns (x: Node<V>)
    requires k in ToMap(s)
    ensures x in s && x.key == k
  {
    x := s[|s| - 1];
    if k != x.key {
      x := KeyInMap(s[..|s| - 1], k);
    }
  }

  /** The map has a key exactly when there is a node with it. */
  lemma MapIffNode<V>(s: seq<Node<V>>, k: real)
    requires Ordered(s)
    ensures k in ToMap(s) <==> exists x :: x in s && x.key == k
    ensures forall x :: x in s && x.key == k ==> ToMap(s)[k] == x.value
  {
    if k in ToMap(s) {
      var x := KeyInMap(s, k);
    }
    forall x | x in s && x.key == k ensures k in ToMap(s) && ToMap(s)[k] == x.value {
      NodeInMap(s, x);
    }
  }

  lemma {:induction false} MapSize<V>(s: seq<Node<V>>)
    requires Ordered(s)
    ensures |ToMap(s)| == |s|
  {
    if s != [] {
      var front, last := s[..|s| - 1], s[|s| - 1];
      MapSize(front);
      if last.key in ToMap(front) {
        var x := KeyInMap(front, last.key);
        assert false;
      }
      assert ToMap(s).Keys == ToMap(front).Keys + {last.key};
    }
  }

  /** Two nodes of the sequence with the same key are one node. */
  lemma OneNodePerKey<V>(s: seq<Node<V>>, x: Node<V>, y: Node<V>)
    requires Ordered(s) && x in s && y in s && x.key == y.key
    ensures x == y
  {
    var i :| 0 <= i < |s| && s[i] == x;
    var j :| 0 <= j < |s| && s[j] == y;
  }

  /** One more node is one more key. */
  lemma MapInsert<V>(s: seq<Node<V>>, s': seq<Node<V>>, n: Node<V>)
    requires Ordered(s) && Ordered(s') && n !in s
    requires forall x :: x in s' <==> x in s || x == n
    ensures n.key !in ToMap(s) && ToMap(s') == ToMap(s)[n.key := n.value] && ToMap(s) == ToMap(s') - {n.key}
  {
    if n.key in ToMap(s) {
      var x := KeyInMap(s, n.key);
      OneNodePerKey(s', x, n);
    }
    forall k ensures k in ToMap(s') <==> k in ToMap(s) || k == n.key {
      MapIffNode(s, k);
      MapIffNode(s', k);
    }
    forall k | k in ToMap(s') ensures ToMap(s')[k] == if k == n.key then n.value else ToMap(s)[k] {
      MapIffNode(s, k);
      MapIffNode(s', k);
    }
  }

  datatype Outcome<V> = Removed(node: Node<V>) | KeyNotFound(key: real)

  /** After splaying, the key is in the tree exactly when it is at the root. */
  lemma SplitFinds<V>(t: Tree<V>, key: real)
    requires t.Fork? && Ordered(InOrder(t)) && SplitAt(t, key)
    ensures key in ToMap(InOrder(t)) <==> t.n.key == key
    ensures t.n.key == key ==> ToMap(InOrder(t))[key] == t.n.value
    ensures t.n in InOrder(t)
  {
    MapIffNode(InOrder(t), key);
    assert t.n in InOrder(t);
  }

  ghost predicate IsGreatestBelow<V>(m: map<real, V>, key: real, k: real) {
    k in m && k < key && forall j :: j in m && j < key ==> j <= k
  }

  ghost predicate IsMax<V>(s: seq<Node<V>>, r: Node<V>) {
    r in s && forall x :: x in s ==> x.key <= r.key
  }

  lemma GreatestBelow<V>(t: Tree<V>, key: real, r: Node?<V>)
    requires t.Fork? && Ordered(InOrder(t)) && SplitAt(t, key)
    requires if t.n.key < key then r == t.n
      else if t.l.Fork? then r != null && IsMax(InOrder(t.l), r)
      else r == null
    ensures r == null ==> forall k :: k in ToMap(InOrder(t)) ==> k >= key
    ensures r != null ==> r in InOrder(t) && IsGreatestBelow(ToMap(InOrder(t)), key, r.key)
  {
    var s := InOrder(t);
    OrderedFork(t);
    forall k | k in ToMap(s) ensures k >= key || (r != null && k <= r.key) {
      var x := KeyInMap(s, k);
      assert x in InOrder(t.l) || x == t.n || x in InOrder(t.r);
    }
    if r != null {
      assert r in s;
      NodeInMap(s, r);
    }
  }

  /** The greatest key below the new one, or the new one when there is none. */
  ghost predicate IsVictim<V>(m: map<real, V>, key: real, k: real) {
    IsGreatestBelow(m, key, k) || (k == key && forall j :: j in m ==> j >= key)
  }

  lemma ReplaceSize<V>(m: map<real, V>, key: real, value: V, k: real)
    requires key !in m && (k == key || k in m)
    ensures |m[key := value] - {k}| == |m|
  {
    var m' := m[key := value];
    assert m'.Keys == m.Keys + {key};
    assert (m' - {k}).Keys == m'.Keys - {k};
  }

  // ----- Changes at the root

  ghost function InsertedShape<V>(node: Node<V>, t: Tree<V>): Tree<V>
    requires t.Fork?
  {
    if node.key > t.n.key then Fork(Fork(t.l, t.n, Nil), node, t.r) else Fork(t.l, node, Fork(Nil, t.n, t.r))
  }

  lemma InsertedOrder<V>(node: Node<V>, t: Tree<V>)
    requires Ordered(InOrder(t)) && SplitAt(t, node.key) && t.n.key != node.key
    ensures Ordered(InOrder(InsertedShape(node, t)))
    ensures forall x :: x in InOrder(InsertedShape(node, t)) <==> x in InOrder(t) || x == node
  {
    var u := InsertedShape(node, t);
    OrderedFork(t);
    if node.key > t.n.key { OrderedFork(u.l); } else { OrderedFork(u.r); }
    OrderedFork(u);
  }

  /** Puts a new node above a root that is split at its key. */
  method InsertAtRoot<V>(node: Node<V>, root: Node<V>, ghost t: Tree<V>) returns (top: Node<V>, ghost u: Tree<V>)
    requires Linked(t) && Ordered(InOrder(t)) && SplitAt(t, node.key) && t.n == root && root.key != node.key
    requires node !in InOrder(t)
    modifies node, root
    ensures top == node && u.Fork? && u.n == node && Linked(u) && Ordered(InOrder(u))
    ensures forall x :: x in InOrder(u) <==> x in InOrder(t) || x == node
  {
    ForkApart(t);
    u := InsertedShape(node, t);
    InsertedOrder(node, t);
    if node.key > root.key {
      node.left := root;
      node.right := root.right;
      root.right := null;
    } else {
      node.right := root;
      node.left := root.left;
      root.left := null;
    }
    LinkedFrame(t.l);
    LinkedFrame(t.r);
    top := node;
  }

  lemma NothingAbove<V>(t: Tree<V>, key: real)
    requires SplitAt(t, key) && AllBelow(InOrder(t), key)
    ensures t.r.Nil?
  {
    assert t.r.Fork? ==> Root(t.r) in InOrder(t.r);
    assert forall x :: x in InOrder(t.r) ==> x in InOrder(t);
  }

  /** After splaying on a key above all keys of the tree, the root has no right child: room for the larger part. */
  method AttachRight<V>(root: Node<V>, right: Node?<V>, ghost key: real, ghost t: Tree<V>, ghost r: Tree<V>)
      returns (top: Node<V>, ghost u: Tree<V>)
    requires Linked(t) && Linked(r) && SplitAt(t, key) && AllBelow(InOrder(t), key)
    requires Ordered(InOrder(t) + InOrder(r)) && t.n == root && right == Root(r)
    modifies root
    ensures top == root && u.Fork? && u.n == root && Linked(u) && InOrder(u) == InOrder(t) + InOrder(r)
  {
    NothingAbove(t, key);
    assert InOrder(t) == InOrder(t.l) + [t.n];
    OrderedConcat(InOrder(t), InOrder(r));
    ForkApart(t);
    assert t.n in InOrder(t);
    root.right := right;
    LinkedFrame(t.l);
    LinkedFrame(r);
    top, u := root, Fork(t.l, t.n, r);
  }

  /** Insertion into a tree that is not empty. */
  method InsertBelow<V>(key: real, value: V, root: Node<V>, ghost t: Tree<V>) returns (top: Node<V>, ghost u: Tree<V>)
    requires t.Fork? && root == t.n && Linked(t) && Ordered(InOrder(t))
    modifies Members(InOrder(t))
    ensures u.Fork? && top == u.n && top.key == key && Linked(u) && Ordered(InOrder(u))
    ensures fresh(Members(InOrder(u)) - Members(InOrder(t)))
    ensures var m := ToMap(InOrder(t)); ToMap(InOrder(u)) == if key in m then m else m[key := value]
  {
    top, u := SplayRoot(key, root, t);
    NodesAllocated(u);
    SplitFinds(u, key);
    if top.key == key { return; }
    ghost var v := u;
    label A:
    var node := new Node(key, value);
    LinkedFrame@A(v);
    top, u := InsertAtRoot(node, top, v);
    MapInsert(InOrder(v), InOrder(u), node);
  }

  /** Removal from a tree that is not empty. */
  method RemoveBelow<V>(key: real, root: Node<V>, ghost t: Tree<V>)
      returns (top: Node?<V>, ghost u: Tree<V>, r: Outcome<V>)
    requires t.Fork? && root == t.n && Linked(t) && Ordered(InOrder(t))
    modifies Members(InOrder(t))
    ensures top == Root(u) && Linked(u) && Ordered(InOrder(u)) && Members(InOrder(u)) <= Members(InOrder(t))
    ensures r.Removed? <==> key in ToMap(InOrder(t))
    ensures r.Removed? ==> r.node.key == key && r.node.value == ToMap(InOrder(t))[key] && r.node !in InOrder(u)
    ensures ToMap(InOrder(u)) == ToMap(InOrder(t)) - {key}
  {
    top, u := SplayRoot(key, root, t);
    SplitFinds(u, key);
    if top.key != key { return top, u, KeyNotFound(key); }
    r := Removed(top);
    ghost var v := u;
    top, u := DropRoot(key, top, u);
    WithoutRoot(v);
    MapInsert(InOrder(u), InOrder(v), r.node);
  }

  lemma WithoutRoot<V>(t: Tree<V>)
    requires t.Fork? && Ordered(InOrder(t))
    ensures Ordered(InOrder(t.l) + InOrder(t.r)) && t.n !in InOrder(t.l) + InOrder(t.r)
    ensures forall x :: x in InOrder(t) <==> x in InOrder(t.l) + InOrder(t.r) || x == t.n
  {
    OrderedFork(t);
    ForkApart(t);
    OrderedConcat(InOrder(t.l), InOrder(t.r));
  }

  /** Joins the two subtrees of a root that holds the key. */
  method DropRoot<V>(key: real, root: Node<V>, ghost t: Tree<V>) returns (top: Node?<V>, ghost u: Tree<V>)
    requires Linked(t) && Ordered(InOrder(t)) && SplitAt(t, key) && t.n == root
    modifies Members(InOrder(t.l))
    ensures top == Root(u) && Linked(u) && InOrder(u) == InOrder(t.l) + InOrder(t.r)
  {
    WithoutRoot(t);
    if root.left == null {
      return root.right, t.r;
    }
    var right := root.right;
    OrderedConcat(InOrder(t.l), InOrder(t.r));
    top, u := SplayRoot(key, root.left, t.l);
    LinkedFrame(t.r);
    assert top in InOrder(u);
    top, u := AttachRight(top, right, key, u, t.r);
  }

  /** Down the right pointers: the largest key. */
  method RightMost<V>(start: Node<V>, ghost t: Tree<V>) returns (current: Node<V>)
    requires Linked(t) && start == Root(t) && Ordered(InOrder(t))
    ensures IsMax(InOrder(t), current)
  {
    current := start;
    ghost var u := t;
    while current.right != null
      invariant u.Fork? && current == u.n && Linked(u) && Ordered(InOrder(u))
      invariant forall r :: IsMax(InOrder(u), r) ==> IsMax(InOrder(t), r)
      decreases u
    {
      MaxOnTheRight(u);
      current, u := current.right, u.r;
    }
    OrderedFork(u);
  }

  lemma MaxOnTheRight<V>(t: Tree<V>)
    requires t.Fork? && t.r.Fork? && Ordered(InOrder(t))
    ensures Ordered(InOrder(t.r)) && forall r :: IsMax(InOrder(t.r), r) ==> IsMax(InOrder(t), r)
  {
    OrderedFork(t);
    assert t.r.n in InOrder(t.r);
  }

  method GreatestAtRoot<V>(key: real, root: Node<V>, ghost t: Tree<V>) returns (r: Node?<V>)
    requires Linked(t) && Ordered(InOrder(t)) && SplitAt(t, key) && t.n == root
    ensures r == null ==> forall k :: k in ToMap(InOrder(t)) ==> k >= key
    ensures r != null ==> r in InOrder(t) && IsGreatestBelow(ToMap(InOrder(t)), key, r.key)
  {
    if root.key < key {
      r := root;
    } else if root.left != null {
      OrderedFork(t);
      r := RightMost(root.left, t.l);
    } else {
      r := null;
    }
    GreatestBelow(t, key, r);
  }

  // ----- Traversal

  ghost function Keys<V>(s: seq<Node<V>>): (r: seq<real>)
    ensures |r| == |s| && forall i :: 0 <= i < |s| ==> r[i] == s[i].key
  {
    if s == [] then [] else [s[0].key] + Keys(s[1..])
  }

  lemma KeysConcat<V>(a: seq<Node<V>>, b: seq<Node<V>>)
    ensures Keys(a + b) == Keys(a) + Keys(b)
  {
  }

  lemma KeysOfMap<V>(s: seq<Node<V>>)
    requires Ordered(s)
    ensures forall k :: k in Keys(s) <==> k in ToMap(s)
  {
    forall k ensures k in Keys(s) <==> k in ToMap(s) {
      MapIffNode(s, k);
      if k in Keys(s) {
        var i :| 0 <= i < |s| && Keys(s)[i] == k;
        assert s[i] in s;
      }
      if k in ToMap(s) {
        var x := KeyInMap(s, k);
        var i :| 0 <= i < |s| && s[i] == x;
        assert Keys(s)[i] == k;
      }
    }
  }

  lemma KeysFork<V>(t: Tree<V>, visited: seq<real>)
    requires t.Fork?
    ensures visited + Keys(InOrder(t)) == (visited + Keys(InOrder(t.l))) + [t.n.key] + Keys(InOrder(t.r))
  {
    KeysConcat(InOrder(t.l) + [t.n], InOrder(t.r));
    KeysConcat(InOrder(t.l), [t.n]);
    assert Keys([t.n]) == [t.n.key];
    RegroupFour(visited, Keys(InOrder(t.l)), [t.n.key], Keys(InOrder(t.r)));
  }

  lemma RegroupFour<X>(a: seq<X>, b: seq<X>, c: seq<X>, d: seq<X>)
    ensures a + (b + c + d) == (a + b) + c + d
  {
  }

  /** Visits the nodes from left to right: a call for each left subtree, a loop down the right. */
  method Traverse<V>(start: Node<V>, ghost t: Tree<V>, visited: seq<real>) returns (keys: seq<real>)
    requires Linked(t) && start == Root(t)
    ensures keys == visited + Keys(InOrder(t))
    decreases t
  {
    keys := visited;
    var current: Node?<V> := start;
    ghost var u := t;
    while current != null
      invariant current == Root(u) && Linked(u) && (u == t || u < t)
      invariant keys + Keys(InOrder(u)) == visited + Keys(InOrder(t))
      decreases u
    {
      KeysFork(u, keys);
      label A:
      var left := current.left;
      if left != null {
        keys := Traverse(left, u.l, keys);
        LinkedFrame@A(u.r);
      }
      keys := keys + [current.key];
      current, u := current.right, u.r;
    }
  }

  class SplayTree<V> {
    var root: Node?<V>
    ghost var tree: Tree<V>

    ghost predicate Valid()
      reads this, Members(InOrder(tree))
    {
      root == Root(tree) && Linked(tree) && Ordered(InOrder(tree))
    }

    ghost function Nodes(): set<Node<V>>
      reads this
    {
      Members(InOrder(tree))
    }

    ghost function Contents(): map<real, V>
      reads this
    {
      ToMap(InOrder(tree))
    }

    constructor ()
      ensures Valid() && Contents() == map[] && Nodes() == {}
    {
      root, tree := null, Nil;
    }

    predicate IsEmpty()
      reads this, Members(InOrder(tree))
      requires Valid()
      ensures IsEmpty() <==> Contents() == map[]
    {
      MapSize(InOrder(tree));
      root == null
    }

    /**
     Splaying keeps the nodes and their order, and brings to the top the node at which the
     order splits: everything left of it has a smaller key, everything right of it a larger one.
     That node is the last one on the search path.
     */
    method Splay(key: real)
      requires Valid()
      modifies this, Nodes()
      ensures Valid() && InOrder(tree) == old(InOrder(tree))
      ensures tree.Fork? <==> old(tree.Fork?)
      ensures tree.Fork? ==> SplitAt(tree, key) && root == LastOnPath(old(tree), key)
      ensures Flattened(old(tree), key, tree)
    {
      if root == null { return; }
      root, tree := SplayRoot(key, root, tree);
    }

    /** Adds the pair unless the key is there already; a value that is there stays. */
    method Insert(key: real, value: V)
      requires Valid()
      modifies this, Nodes()
      ensures Valid() && Contents() == if key in old(Contents()) then old(Contents()) else old(Contents())[key := value]
      ensures fresh(Nodes() - old(Nodes()))
      ensures tree.Fork? && root.key == key
    {
      ghost var s := InOrder(tree);
      if root == null {
        root := new Node(key, value);
        tree := Fork(Nil, root, Nil);
        MapInsert(s, InOrder(tree), root);
      } else {
        root, tree := InsertBelow(key, value, root, tree);
      }
    }

    /** Removes the node with the key; an error, and no change to the map, when there is none. */
    method Remove(key: real) returns (r: Outcome<V>)
      requires Valid()
      modifies this, Nodes()
      ensures Valid() && Nodes() <= old(Nodes())
      ensures r.Removed? <==> key in old(Contents())
      ensures r.Removed? ==> r.node.key == key && r.node.value == old(Contents())[key] && r.node !in Nodes()
      ensures Contents() == old(Contents()) - {key}
    {
      if root == null { return KeyNotFound(key); }
      root, tree, r := RemoveBelow(key, root, tree);
    }

    /** The node with the key, if there is one. */
    method Find(key: real) returns (r: Node?<V>)
      requires Valid()
      modifies this, Nodes()
      ensures Valid() && InOrder(tree) == old(InOrder(tree))
      ensures r != null <==> key in Contents()
      ensures r != null ==> r in Nodes() && r.key == key && r.value == Contents()[key]
    {
      MapIffNode(InOrder(tree), key);
      if root == null { return null; }
      Splay(key);
      SplitFinds(tree, key);
      return if root.key == key then root else null;
    }

    /** The node with the largest key, of the whole tree or of the subtree that starts at a given node. */
    method FindMax(start: Node?<V>, ghost st: Tree<V>) returns (r: Node?<V>)
      requires Valid() && Linked(st) && start == Root(st) && Ordered(InOrder(st))
      ensures r == null <==> tree.Nil?
      ensures var t := if st.Fork? then st else tree; r != null ==> IsMax(InOrder(t), r)
    {
      if root == null { return null; }
      if start != null {
        r := RightMost(start, st);
      } else {
        r := RightMost(root, tree);
      }
    }

    /** The node with the greatest key below the given one, if there is one. */
    method FindGreatestLessThan(key: real) returns (r: Node?<V>)
      requires Valid()
      modifies this, Nodes()
      ensures Valid() && InOrder(tree) == old(InOrder(tree))
      ensures r == null ==> forall k :: k in Contents() ==> k >= key
      ensures r != null ==> r in Nodes() && IsGreatestBelow(Contents(), key, r.key)
    {
      if root == null { return null; }
      Splay(key);
      label A:
      r := GreatestAtRoot(key, root, tree);
      LinkedFrame@A(tree);
    }

    /** All keys, in strictly increasing order. */
    method ExportKeys() returns (keys: seq<real>)
      requires Valid()
      ensures keys == Keys(InOrder(tree))
      ensures forall i, j :: 0 <= i < j < |keys| ==> keys[i] < keys[j]
      ensures forall k :: k in keys <==> k in Contents()
      ensures |keys| == |Contents()|
    {
      keys := [];
      if root != null {
        keys := Traverse(root, tree, keys);
      }
      KeysOfMap(InOrder(tree));
      MapSize(InOrder(tree));
    }

    /**
     One round of the benchmark: a new key goes in, and its predecessor, or the key itself
     when it has none, comes out.
     */
    method Replace(key: real, value: V)
      requires Valid() && key !in Contents()
      modifies this, Nodes()
      ensures Valid() && fresh(Nodes() - old(Nodes()))
      ensures exists k :: IsVictim(old(Contents()), key, k) && Contents() == old(Contents())[key := value] - {k}
      ensures |Contents()| == |old(Contents())|
    {
      ghost var m := Contents();
      Insert(key, value);
      ghost var m' := Contents();
      assert m' == m[key := value];
      var greatest := FindGreatestLessThan(key);
      ghost var k := if greatest == null then key else greatest.key;
      assert forall j :: j in m ==> j in m';
      var _ := Remove(if greatest == null then key else greatest.key);
      ReplaceSize(m, key, value, k);
      assert Contents() == m[key := value] - {k};
    }
  }
}
