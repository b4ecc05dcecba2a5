// B-tree nodes in the heap, and the operations that move items between a node
// and its neighbours.  `T` is the value of the subtree and `Repr` the nodes it
// owns; no two subtrees share a node.
module BTreeNode {
  import opened OrderedSeq
  import opened BTreeShape

  // A row of neighbouring subtrees: their values are `ts`, they share nothing,
  // and all their nodes are in `foot`.
  ghost predicate Owned<K(!new), V(!new)>(nodes: seq<Node<K, V>>, ts: seq<Tree<K, V>>, foot: set<object>)
    reads foot
    decreases foot, 1
  {
    && |nodes| == |ts|
    && (forall i :: 0 <= i < |nodes| ==> nodes[i] in foot)
    && (forall i :: 0 <= i < |nodes| ==> nodes[i].Repr <= foot)
    && (forall i :: 0 <= i < |nodes| ==> nodes[i].Valid() && nodes[i].T == ts[i])
    && (forall i, j :: 0 <= i < j < |nodes| ==> nodes[i].Repr !! nodes[j].Repr)
  }

  class Node<K(!new), V(!new)> {
    var leaf: bool
    var items: seq<Item<K, V>>
    var children: seq<Node<K, V>>
    ghost var T: Tree<K, V>
    ghost var Repr: set<object>

    ghost predicate Valid()
      reads this, Repr
      ensures Valid() ==> this in Repr
      decreases Repr, 0
    {
      && this in Repr && |items| <= MAX_ITEMS && T.items == items && (leaf <==> T.Leaf?)
      && (leaf ==> children == []) && Counted(T)
      && (!leaf ==> |children| == |items| + 1 && Owned(children, T.kids, Repr - {this}))
    }

    constructor (leaf: bool)
      ensures this.leaf == leaf && items == [] && children == []
    {
      this.leaf, items, children := leaf, [], [];
      T, Repr := Leaf([]), {};
    }

    // Brings the ghost value and footprint in line with the fields.
    ghost method Sync(ts: seq<Tree<K, V>>, foot: set<object>)
      requires |items| <= MAX_ITEMS && this !in foot
      requires |children| == if leaf then 0 else |items| + 1
      requires if leaf then foot == {} else Owned(children, ts, foot)
      modifies `T, `Repr
      ensures Valid()
      ensures T == if leaf then Leaf(items) else Branch(items, ts)
      ensures Repr == {this} + foot
    {
      T := if leaf then Leaf(items) else Branch(items, ts);
      Repr := {this} + foot;
      assert Repr - {this} == foot;
    }

    // Makes room at `index` and fills it; in a branch `right` goes behind child `index`.
    method Insert(index: nat, item: Item<K, V>, right: seq<Node<K, V>>)
      requires index <= |items| && |right| == (if leaf then 0 else 1)
      requires |children| == if leaf then 0 else |items| + 1
      modifies `items, `children
      ensures items == old(items)[..index] + [item] + old(items)[index..]
      ensures children == if leaf then old(children)
                          else old(children)[..index + 1] + right + old(children)[index + 1..]
    {
      items := items[..index] + [item] + items[index..];
      if !leaf { children := children[..index + 1] + right + children[index + 1..]; }
    }

    // Closes the gap at `index`; a merge drops the child right of it, a
    // rotation the child left of it.
    method ShiftLeft(index: nat, forMerge: bool)
      requires index < |items|
      requires |children| == if leaf then 0 else |items| + 1
      modifies `items, `children
      ensures items == RemoveAt(old(items), index)
      ensures children == if leaf then old(children)
                          else RemoveAt(old(children), if forMerge then index + 1 else index)
    {
      items := items[..index] + items[index + 1..];
      if !leaf {
        var gone := if forMerge then index + 1 else index;
        children := children[..gone] + children[gone + 1..];
      }
    }
  }

  // ---------------- rows of subtrees ----------------

  lemma OwnedOne<K(!new), V(!new)>(node: Node<K, V>)
    requires node.Valid()
    ensures Owned([node], [node.T], node.Repr)
  {
  }

  lemma OwnedJoin<K(!new), V(!new)>(nodes: seq<Node<K, V>>, ts: seq<Tree<K, V>>, foot: set<object>,
                        nodes': seq<Node<K, V>>, ts': seq<Tree<K, V>>, foot': set<object>)
    requires Owned(nodes, ts, foot) && Owned(nodes', ts', foot') && foot !! foot'
    ensures Owned(nodes + nodes', ts + ts', foot + foot')
  {
  }

  ghost function FootOf<K(!new), V(!new)>(nodes: seq<Node<K, V>>, lo: nat, hi: nat): set<object>
    requires lo <= hi <= |nodes|
    reads nodes
  {
    set i, o | lo <= i < hi && o in nodes[i].Repr :: o
  }

  // Part of a row, with a footprint of its own.
  lemma OwnedSlice<K(!new), V(!new)>(nodes: seq<Node<K, V>>, ts: seq<Tree<K, V>>, foot: set<object>, lo: nat, hi: nat)
    requires Owned(nodes, ts, foot) && lo <= hi <= |nodes|
    ensures Owned(nodes[lo..hi], ts[lo..hi], FootOf(nodes, lo, hi))
    ensures FootOf(nodes, lo, hi) <= foot
  {
    forall i | 0 <= i < hi - lo
      ensures nodes[lo..hi][i].Repr <= FootOf(nodes, lo, hi)
    {
      assert nodes[lo..hi][i] == nodes[lo + i];
    }
  }

  lemma FootsApart<K(!new), V(!new)>(nodes: seq<Node<K, V>>, ts: seq<Tree<K, V>>, foot: set<object>,
                                     lo: nat, mid: nat, hi: nat)
    requires Owned(nodes, ts, foot) && lo <= mid <= hi <= |nodes|
    ensures FootOf(nodes, lo, mid) !! FootOf(nodes, mid, hi)
  {
  }

  lemma OwnedCut<K(!new), V(!new)>(nodes: seq<Node<K, V>>, ts: seq<Tree<K, V>>, foot: set<object>, m: nat)
    returns (left: set<object>, right: set<object>)
    requires Owned(nodes, ts, foot) && m <= |nodes|
    ensures Owned(nodes[..m], ts[..m], left) && Owned(nodes[m..], ts[m..], right)
    ensures left !! right && left <= foot && right <= foot
  {
    left, right := FootOf(nodes, 0, m), FootOf(nodes, m, |nodes|);
    OwnedSlice(nodes, ts, foot, 0, m);
    OwnedSlice(nodes, ts, foot, m, |nodes|);
    FootsApart(nodes, ts, foot, 0, m, |nodes|);
    assert nodes[0..m] == nodes[..m] && ts[0..m] == ts[..m];
    assert nodes[m..|nodes|] == nodes[m..] && ts[m..|nodes|] == ts[m..];
  }

  // ---------------- split ----------------

  // The two halves of a full node, around the middle item.
  lemma HalvesJoin<K, V>(t: Tree<K, V>)
    requires |t.items| == MAX_ITEMS && Counted(t)
    ensures var mid := MAX_ITEMS / 2;
            t == if t.Leaf? then Join(Leaf(t.items[..mid]), t.items[mid], Leaf(t.items[mid + 1..]))
                 else Join(Branch(t.items[..mid], t.kids[..mid + 1]), t.items[mid],
                           Branch(t.items[mid + 1..], t.kids[mid + 1..]))
  {
  }

  // Splits a full node: the upper half moves to a new node, the item between
  // the halves is handed to the caller.
  method Split<K(!new), V(!new)>(node: Node<K, V>) returns (right: Node<K, V>, median: Item<K, V>)
    requires node.Valid() && |node.items| == MAX_ITEMS
    modifies node
    ensures node.Valid() && right.Valid() && fresh(right) && node.leaf == old(node.leaf)
    ensures node.Repr !! right.Repr && node.Repr + right.Repr <= old(node.Repr) + {right}
    ensures SameKind(node.T, right.T) && Counted(node.T) && Counted(right.T)
    ensures old(node.T) == Join(node.T, median, right.T)
    ensures |node.items| == MAX_ITEMS / 2 && |right.items| == LEAST_ITEMS
  {
    var mid := MAX_ITEMS / 2;
    ghost var t := node.T;
    HalvesJoin(t);
    right := new Node(node.leaf);
    if node.leaf {
      median := CutAt(node, right, mid);
      node.Sync([], {});
      right.Sync([], {});
    } else {
      ghost var foot, foot' := OwnedCut(node.children, t.kids, node.Repr - {node}, mid + 1);
      median := CutAt(node, right, mid);
      ghost var kept, moved := Owned(node.children, t.kids[..mid + 1], foot), Owned(right.children, t.kids[mid + 1..], foot');
      assert kept && moved;
      node.Sync(t.kids[..mid + 1], foot);
      moved := Owned(right.children, t.kids[mid + 1..], foot');
      assert moved;
      right.Sync(t.kids[mid + 1..], foot');
      kept := node.Valid();
      assert kept;
    }
  }

  // Copies what is behind item `mid` to the other node and cuts it off.
  method CutAt<K(!new), V(!new)>(node: Node<K, V>, right: Node<K, V>, mid: nat) returns (median: Item<K, V>)
    requires node != right && node.leaf == right.leaf && mid < |node.items| && right.children == []
    requires |node.children| == if node.leaf then 0 else |node.items| + 1
    modifies node`items, node`children, right`items, right`children
    ensures median == old(node.items)[mid]
    ensures node.items == old(node.items)[..mid] && right.items == old(node.items)[mid + 1..]
    ensures node.children == if node.leaf then old(node.children) else old(node.children)[..mid + 1]
    ensures right.children == if node.leaf then [] else old(node.children)[mid + 1..]
  {
    median := node.items[mid];
    right.items := node.items[mid + 1..];
    if !node.leaf {
      right.children := node.children[mid + 1..];
      node.children := node.children[..mid + 1];
    }
    node.items := node.items[..mid];
  }

  // ---------------- rebalance ----------------

  // Two neighbouring nodes of the same kind that share nothing.
  ghost predicate Neighbours<K(!new), V(!new)>(left: Node<K, V>, right: Node<K, V>)
    reads left, right, left.Repr, right.Repr
  {
    && left.Valid() && right.Valid() && left.Repr !! right.Repr && left.leaf == right.leaf
  }

  // The left node takes the separator and all of the right node.
  method Merge<K(!new), V(!new)>(left: Node<K, V>, x: Item<K, V>, right: Node<K, V>)
    requires Neighbours(left, right) && |left.items| + |right.items| < MAX_ITEMS
    modifies left
    ensures left.Valid() && left.leaf == old(left.leaf) && left.Repr <= old(left.Repr) + right.Repr
    ensures left.T == Join(old(left.T), x, right.T)
  {
    ghost var t, foot := left.T, {};
    if !left.leaf {
      OwnedJoin(left.children, left.T.kids, left.Repr - {left}, right.children, right.T.kids, right.Repr - {right});
      foot := (left.Repr - {left}) + (right.Repr - {right});
      left.children := left.children + right.children;
    }
    left.items := left.items + [x] + right.items;
    if left.leaf {
      left.Sync([], {});
    } else {
      ghost var kept := Owned(left.children, t.kids + right.T.kids, foot);
      assert kept;
      left.Sync(t.kids + right.T.kids, foot);
    }
  }

  // The field updates of the two rotations.
  method MoveLast<K(!new), V(!new)>(left: Node<K, V>, x: Item<K, V>, right: Node<K, V>) returns (up: Item<K, V>)
    requires left != right && |left.items| > 0 && left.leaf == right.leaf
    requires |left.children| == if left.leaf then 0 else |left.items| + 1
    modifies left`items, left`children, right`items, right`children
    ensures up == old(left.items)[|old(left.items)| - 1]
    ensures left.items == old(left.items)[..|old(left.items)| - 1] && right.items == [x] + old(right.items)
    ensures left.leaf ==> left.children == old(left.children) && right.children == old(right.children)
    ensures !left.leaf ==>
              && left.children == old(left.children)[..|old(left.items)|]
              && right.children == old(left.children)[|old(left.items)|..] + old(right.children)
  {
    var n := |left.items| - 1;
    right.items := [x] + right.items;
    if !left.leaf {
      right.children := left.children[n + 1..] + right.children;
      left.children := left.children[..n + 1];
    }
    up := left.items[n];
    left.items := left.items[..n];
  }

  method MoveFirst<K(!new), V(!new)>(left: Node<K, V>, x: Item<K, V>, right: Node<K, V>) returns (up: Item<K, V>)
    requires left != right && |right.items| > 0 && left.leaf == right.leaf
    requires |right.children| == if right.leaf then 0 else |right.items| + 1
    modifies left`items, left`children, right`items, right`children
    ensures up == old(right.items)[0]
    ensures left.items == old(left.items) + [x] && right.items == old(right.items)[1..]
    ensures left.leaf ==> left.children == old(left.children) && right.children == old(right.children)
    ensures !left.leaf ==>
              && left.children == old(left.children) + old(right.children)[..1]
              && right.children == old(right.children)[1..]
  {
    left.items := left.items + [x];
    if !left.leaf { left.children := left.children + right.children[..1]; }
    up := right.items[0];
    right.ShiftLeft(0, false);
  }

  // The last item of the left node goes up, the separator goes down to the right.
  method RotateRight<K(!new), V(!new)>(left: Node<K, V>, x: Item<K, V>, right: Node<K, V>) returns (up: Item<K, V>)
    requires Neighbours(left, right) && |left.items| > 0 && |right.items| < MAX_ITEMS
    modifies left, right
    ensures Neighbours(left, right) && left.leaf == old(left.leaf)
    ensures left.Repr + right.Repr <= old(left.Repr + right.Repr)
    ensures Counted(old(left.T)) && SameKind(old(left.T), old(right.T))
    ensures up == old(left.items[|left.items| - 1])
    ensures left.T == WithoutLast(old(left.T)) && right.T == Join(LastEdge(old(left.T)), x, old(right.T))
  {
    ghost var n := |left.items| - 1;
    JoinLastEdge(left.T, x, right.T);
    if left.leaf {
      up := MoveLast(left, x, right);
      right.Sync([], {});
      left.Sync([], {});
    } else {
      ghost var ts, us := left.T.kids, right.T.kids;
      ghost var foot, edge := OwnedCut(left.children, ts, left.Repr - {left}, n + 1);
      OwnedJoin(left.children[n + 1..], ts[n + 1..], edge, right.children, us, right.Repr - {right});
      ghost var foot' := edge + (right.Repr - {right});
      up := MoveLast(left, x, right);
      ghost var kept, moved := Owned(left.children, ts[..n + 1], foot), Owned(right.children, ts[n + 1..] + us, foot');
      assert kept && moved;
      left.Sync(ts[..n + 1], foot);
      moved := Owned(right.children, ts[n + 1..] + us, foot');
      assert moved;
      right.Sync(ts[n + 1..] + us, foot');
      kept := left.Valid();
      assert kept;
    }
  }

  // The first item of the right node goes up, the separator goes down to the left.
  method RotateLeft<K(!new), V(!new)>(left: Node<K, V>, x: Item<K, V>, right: Node<K, V>) returns (up: Item<K, V>)
    requires Neighbours(left, right) && |right.items| > 0 && |left.items| < MAX_ITEMS
    modifies left, right
    ensures Neighbours(left, right) && left.leaf == old(left.leaf)
    ensures left.Repr + right.Repr <= old(left.Repr + right.Repr)
    ensures Counted(old(right.T)) && SameKind(old(left.T), old(right.T))
    ensures up == old(right.items[0])
    ensures right.T == WithoutFirst(old(right.T)) && left.T == Join(old(left.T), x, FirstEdge(old(right.T)))
  {
    JoinFirstEdge(left.T, x, right.T);
    if left.leaf {
      up := MoveFirst(left, x, right);
      left.Sync([], {});
      right.Sync([], {});
    } else {
      ghost var ts, us := left.T.kids, right.T.kids;
      ghost var edge, foot' := OwnedCut(right.children, us, right.Repr - {right}, 1);
      OwnedJoin(left.children, ts, left.Repr - {left}, right.children[..1], us[..1], edge);
      ghost var foot := (left.Repr - {left}) + edge;
      up := MoveFirst(left, x, right);
      ghost var kept, moved := Owned(left.children, ts + us[..1], foot), Owned(right.children, us[1..], foot');
      assert kept && moved;
      left.Sync(ts + us[..1], foot);
      moved := Owned(right.children, us[1..], foot');
      assert moved;
      right.Sync(us[1..], foot');
      kept := left.Valid();
      assert kept;
    }
  }

  // ---------------- a row with one or two members changed ----------------

  // What is left and right of members lo .. hi of a row.
  lemma RowAround<K(!new), V(!new)>(nodes: seq<Node<K, V>>, ts: seq<Tree<K, V>>, foot: set<object>, lo: nat, hi: nat)
    returns (a: set<object>, b: set<object>)
    requires Owned(nodes, ts, foot) && lo <= hi <= |nodes|
    ensures Owned(nodes[..lo], ts[..lo], a) && Owned(nodes[hi..], ts[hi..], b)
    ensures a !! b && a <= foot && b <= foot
    ensures forall k :: lo <= k < hi ==> nodes[k].Repr !! a && nodes[k].Repr !! b
  {
    a, b := FootOf(nodes, 0, lo), FootOf(nodes, hi, |nodes|);
    OwnedSlice(nodes, ts, foot, 0, lo);
    OwnedSlice(nodes, ts, foot, hi, |nodes|);
    assert nodes[0..lo] == nodes[..lo] && ts[0..lo] == ts[..lo];
    assert nodes[hi..|nodes|] == nodes[hi..] && ts[hi..|nodes|] == ts[hi..];
  }

  lemma RowWithOne<K(!new), V(!new)>(pre: seq<Node<K, V>>, ps: seq<Tree<K, V>>, a: set<object>,
                                     node: Node<K, V>,
                                     post: seq<Node<K, V>>, qs: seq<Tree<K, V>>, b: set<object>)
    requires Owned(pre, ps, a) && Owned(post, qs, b) && a !! b
    requires node.Valid() && node.Repr !! a && node.Repr !! b
    ensures Owned(pre + [node] + post, ps + [node.T] + qs, a + node.Repr + b)
  {
    OwnedOne(node);
    OwnedJoin(pre, ps, a, [node], [node.T], node.Repr);
    OwnedJoin(pre + [node], ps + [node.T], a + node.Repr, post, qs, b);
  }

  lemma RowWithTwo<K(!new), V(!new)>(pre: seq<Node<K, V>>, ps: seq<Tree<K, V>>, a: set<object>,
                                     left: Node<K, V>, right: Node<K, V>,
                                     post: seq<Node<K, V>>, qs: seq<Tree<K, V>>, b: set<object>)
    requires Owned(pre, ps, a) && Owned(post, qs, b) && a !! b
    requires left.Valid() && left.Repr !! a && left.Repr !! b
    requires right.Valid() && right.Repr !! a && right.Repr !! b
    requires left.Repr !! right.Repr
    ensures Owned(pre + [left, right] + post, ps + [left.T, right.T] + qs, a + left.Repr + right.Repr + b)
  {
    OwnedOne(right);
    OwnedJoin([right], [right.T], right.Repr, post, qs, b);
    RowWithOne(pre, ps, a, left, [right] + post, [right.T] + qs, right.Repr + b);
    assert pre + [left] + ([right] + post) == pre + [left, right] + post;
    assert ps + [left.T] + ([right.T] + qs) == ps + [left.T, right.T] + qs;
    assert a + left.Repr + (right.Repr + b) == a + left.Repr + right.Repr + b;
  }

  // ---------------- rebalancing a child of a node ----------------

  lemma AroundPairInRow<T>(s: seq<T>, i: nat, x: T, y: T)
    requires i + 1 < |s|
    ensures s[..i] + [x, y] + s[i + 2..] == s[i := x][i + 1 := y]
  {
  }

  lemma RowLessOne<T>(s: seq<T>, i: nat)
    requires i + 1 < |s|
    ensures RemoveAt(s, i + 1) == s[..i] + [s[i]] + s[i + 2..]
  {
  }

  // Child i has run low: merge it with a neighbour or borrow from that neighbour.
  method Rebalance<K(!new), V(!new)>(node: Node<K, V>, at: nat, ghost height: nat)
    requires node.Valid() && ShapeButOne(node.T, height, at)
    requires 0 < |node.items| && |node.T.kids[at].items| < MIN_ITEMS
    modifies node.Repr
    ensures node.Valid() && node.leaf == old(node.leaf) && node.Repr <= old(node.Repr)
    ensures Shape(node.T, height) && Flatten(node.T) == Flatten(old(node.T))
    ensures old(|node.items|) - 1 <= |node.items| <= old(|node.items|)
  {
    hide Flatten, Owned;
    var i := if at == |node.items| then at - 1 else at;
    RebalancedShape(node.T, height, at);
    RebalancedFlatten(node.T, i);
    var left, right := node.children[i], node.children[i + 1];
    ghost var want := Rebalanced(node.T, i);
    ChildFacts(node, i);
    ChildFacts(node, i + 1);
    if |left.items| + |right.items| < MAX_ITEMS {
      MergeChildren(node, i);
    } else if |left.items| > |right.items| {
      BorrowLeft(node, i);
    } else {
      BorrowRight(node, i);
    }
    assert node.T == want;
  }

  lemma ChildFacts<K(!new), V(!new)>(node: Node<K, V>, i: nat)
    requires node.Valid() && !node.leaf && i < |node.children|
    ensures var kid := node.children[i];
            && kid.Valid() && kid.T == node.T.kids[i] && kid.items == node.T.kids[i].items
            && |kid.items| <= MAX_ITEMS && (kid.leaf <==> node.T.kids[i].Leaf?)
            && kid in node.Repr && kid.Repr <= node.Repr - {node}
  {
  }

  ghost predicate PairReady<K(!new), V(!new)>(node: Node<K, V>, i: nat)
    reads node, node.Repr
  {
    && node.Valid() && !node.leaf && i < |node.items|
    && SameKind(node.T.kids[i], node.T.kids[i + 1])
    && Counted(node.T.kids[i]) && Counted(node.T.kids[i + 1])
  }

  method MergeChildren<K(!new), V(!new)>(node: Node<K, V>, i: nat)
    requires PairReady(node, i) && |node.T.kids[i].items| + |node.T.kids[i + 1].items| < MAX_ITEMS
    modifies node.Repr
    ensures node.Valid() && node.leaf == old(node.leaf) && node.Repr <= old(node.Repr)
    ensures node.T == Merged(old(node.T), i)
  {
    var left, right := node.children[i], node.children[i + 1];
    ghost var nodes, ts := node.children, node.T.kids;
    ghost var a, b := RowAround(nodes, ts, node.Repr - {node}, i, i + 2);
    RowLessOne(nodes, i);
    Merge(left, node.items[i], right);
    node.ShiftLeft(i, true);
    ghost var kept := Owned(nodes[..i], ts[..i], a) && Owned(nodes[i + 2..], ts[i + 2..], b) && left.Valid();
    assert kept;
    RowWithOne(nodes[..i], ts[..i], a, left, nodes[i + 2..], ts[i + 2..], b);
    node.Sync(ts[..i] + [left.T] + ts[i + 2..], a + left.Repr + b);
  }

  method BorrowLeft<K(!new), V(!new)>(node: Node<K, V>, i: nat)
    requires PairReady(node, i)
    requires |node.T.kids[i].items| > 0 && |node.T.kids[i + 1].items| < MAX_ITEMS
    modifies node.Repr
    ensures node.Valid() && node.leaf == old(node.leaf) && node.Repr <= old(node.Repr)
    ensures var t := old(node.T);
            var a, x, b := t.kids[i], t.items[i], t.kids[i + 1];
            node.T == WithPair(t, i, WithoutLast(a), a.items[|a.items| - 1], Join(LastEdge(a), x, b))
  {
    var left, right := node.children[i], node.children[i + 1];
    ghost var nodes, ts := node.children, node.T.kids;
    ghost var a, b := RowAround(nodes, ts, node.Repr - {node}, i, i + 2);
    var up := RotateRight(left, node.items[i], right);
    SyncPair(node, i, up, nodes, ts, a, b);
  }

  method BorrowRight<K(!new), V(!new)>(node: Node<K, V>, i: nat)
    requires PairReady(node, i)
    requires |node.T.kids[i + 1].items| > 0 && |node.T.kids[i].items| < MAX_ITEMS
    modifies node.Repr
    ensures node.Valid() && node.leaf == old(node.leaf) && node.Repr <= old(node.Repr)
    ensures var t := old(node.T);
            var a, x, b := t.kids[i], t.items[i], t.kids[i + 1];
            node.T == WithPair(t, i, Join(a, x, FirstEdge(b)), b.items[0], WithoutFirst(b))
  {
    var left, right := node.children[i], node.children[i + 1];
    ghost var nodes, ts := node.children, node.T.kids;
    ghost var a, b := RowAround(nodes, ts, node.Repr - {node}, i, i + 2);
    var up := RotateLeft(left, node.items[i], right);
    SyncPair(node, i, up, nodes, ts, a, b);
  }

  // Stores the new separator after a rotation.
  method SyncPair<K(!new), V(!new)>(node: Node<K, V>, i: nat, up: Item<K, V>, ghost nodes: seq<Node<K, V>>,
                          ghost ts: seq<Tree<K, V>>, ghost a: set<object>, ghost b: set<object>)
    requires nodes == node.children && |ts| == |nodes| == |node.items| + 1 <= MAX_ITEMS + 1
    requires !node.leaf && i < |node.items|
    requires Owned(nodes[..i], ts[..i], a) && Owned(nodes[i + 2..], ts[i + 2..], b) && a !! b
    requires Neighbours(nodes[i], nodes[i + 1])
    requires nodes[i].Repr !! a && nodes[i].Repr !! b && nodes[i + 1].Repr !! a && nodes[i + 1].Repr !! b
    requires node !in a + nodes[i].Repr + nodes[i + 1].Repr + b
    modifies node
    ensures node.Valid() && node.leaf == old(node.leaf)
    ensures node.Repr == {node} + old(a + nodes[i].Repr + nodes[i + 1].Repr + b)
    ensures node.T == Branch(old(node.items)[i := up], ts[i := old(nodes[i].T)][i + 1 := old(nodes[i + 1].T)])
  {
    ghost var left, right := nodes[i], nodes[i + 1];
    RowWithTwo(nodes[..i], ts[..i], a, left, right, nodes[i + 2..], ts[i + 2..], b);
    AroundPairInRow(nodes, i, left, right);
    AroundPairInRow(ts, i, left.T, right.T);
    assert nodes[i := left][i + 1 := right] == nodes;
    ghost var us, foot := ts[i := left.T][i + 1 := right.T], a + left.Repr + right.Repr + b;
    node.items := node.items[i := up];
    ghost var kept := Owned(node.children, us, foot);
    assert kept;
    node.Sync(us, foot);
  }
}
