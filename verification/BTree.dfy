// The ordered map: search with a per-depth hint, recursive insertion with
// split and retry, and deletion with rebalancing, over nodes in the heap.
module BTree {
  import opened OrderedSeq
  import opened BTreeShape
  import opened BTreeNode

  datatype Mutation = NoChange | MustSplit | Inserted | Replaced | Deleted

  datatype DeleteAct = DelKey | PopMax | PopFront | PopBack

  type HintByte = x: int | 0 <= x < 256

  class OrderedMap<K(!new), V(!new)> {
    const cmp: (K, K) -> int
    var root: Node?<K, V>
    var count: nat
    var height: nat
    // a 64-bit word, one byte per level
    var hint: seq<HintByte>

    ghost predicate Valid()
      reads this, root, if root == null then {} else root.Repr
    {
      && TotalOrder(cmp) && |hint| == 8
      && (root == null ==> count == 0 && height == 0)
      && (root != null ==>
            && root.Valid() && this !in root.Repr
            && RootShape(root.T, height) && Sorted(cmp, Flatten(root.T)) && count == |Flatten(root.T)|)
    }

    ghost function Nodes(): set<object>
      reads this, root
    {
      if root == null then {} else root.Repr
    }

    // The items in key order.
    ghost function Contents(): seq<Item<K, V>>
      reads this, root
    {
      if root == null then [] else Flatten(root.T)
    }

    constructor (cmp: (K, K) -> int)
      requires TotalOrder(cmp)
      ensures this.cmp == cmp && Valid() && fresh(Nodes()) && Contents() == []
    {
      this.cmp, root, count, height := cmp, null, 0, 0;
      hint := [0, 0, 0, 0, 0, 0, 0, 0];
    }

    // ---------------- search ----------------

    // Plain binary search in one node.
    method BSearch(items: seq<Item<K, V>>, key: K) returns (i: nat, found: bool)
      requires TotalOrder(cmp) && Sorted(cmp, items)
      ensures i == LowerBound(cmp, items, key) && found == Has(cmp, items, key)
    {
      var lo, hi := 0, |items|;
      while lo < hi
        invariant 0 <= lo <= hi && Bracket(cmp, items, key, lo, hi)
      {
        var mid := (lo + hi) / 2;
        var c := cmp(key, items[mid].key);
        Narrow(cmp, items, key, mid);
        if c == 0 { return mid, true; }
        if c < 0 { hi := mid; } else { lo := mid + 1; }
      }
      Closed(cmp, items, key, lo);
      return lo, false;
    }

    // Binary search that first tries the slot remembered for this depth, and
    // remembers the outcome.  The hint may hold anything; it never changes the
    // answer.
    method BSearchHint(items: seq<Item<K, V>>, key: K, depth: nat) returns (i: nat, found: bool)
      requires TotalOrder(cmp) && |hint| == 8 && Sorted(cmp, items) && |items| <= MAX_ITEMS
      modifies `hint
      ensures |hint| == 8
      ensures i == LowerBound(cmp, items, key) && found == Has(cmp, items, key)
    {
      var lo, hi: int := 0, |items| - 1;
      if depth < 8 {
        var idx: int := hint[depth];
        if idx > hi { idx := hi; }
        if idx > 0 {
          var c := cmp(key, items[idx].key);
          Narrow(cmp, items, key, idx);
          if c == 0 { return idx, true; }
          if c > 0 { lo := idx + 1; } else { hi := idx - 1; }
        }
      }
      i, found := SearchRange(items, key, lo, hi);
      if depth < 8 { hint := hint[depth := i]; }
    }

    // The search loop proper, with an inclusive upper end.
    method SearchRange(items: seq<Item<K, V>>, key: K, from: nat, to: int) returns (i: nat, found: bool)
      requires TotalOrder(cmp) && Sorted(cmp, items) && to >= -1 && Bracket(cmp, items, key, from, to + 1)
      ensures i == LowerBound(cmp, items, key) && found == Has(cmp, items, key)
    {
      var lo, hi: int := from, to;
      while lo <= hi
        invariant 0 <= lo && -1 <= hi && Bracket(cmp, items, key, lo, hi + 1)
      {
        var mid := (lo + hi) / 2;
        var c := cmp(key, items[mid].key);
        Narrow(cmp, items, key, mid);
        if c == 0 { return mid, true; }
        if c < 0 { hi := mid - 1; } else { lo := mid + 1; }
      }
      Closed(cmp, items, key, lo);
      return lo, false;
    }

    // Lookup: one search per level, down to a leaf.
    method Find(key: K) returns (r: Option<Item<K, V>>)
      requires Valid()
      modifies `hint
      ensures Valid() && root == old(root) && r == Lookup(cmp, Contents(), key)
    {
      if root == null { return None; }
      r := FindFrom(root, key, height);
    }

    method FindFrom(start: Node<K, V>, key: K, ghost height: nat) returns (r: Option<Item<K, V>>)
      requires TotalOrder(cmp) && |hint| == 8 && start.Valid() && this !in start.Repr
      requires Shape(start.T, height) && Sorted(cmp, Flatten(start.T))
      modifies `hint
      ensures |hint| == 8 && r == Lookup(cmp, Flatten(start.T), key)
    {
      hide TotalOrder, Sorted, LowerBound;
      var node, depth := start, 0;
      ghost var h := height;
      while true
        invariant |hint| == 8 && node.Valid() && this !in node.Repr
        invariant Shape(node.T, h) && Sorted(cmp, Flatten(node.T))
        invariant old(Lookup(cmp, Flatten(start.T), key)) == Lookup(cmp, Flatten(node.T), key)
        decreases h
      {
        NodeSorted(cmp, node.T);
        var i, found := BSearchHint(node.items, key, depth);
        if found {
          if !node.leaf { FoundHere(cmp, node.T, key); }
          return Some(node.items[i]);
        }
        if node.leaf { return None; }
        LookupBelow(cmp, node.T, key);
        ChildFacts(node, i);
        node := node.children[i];
        depth := depth + 1;
        h := h - 1;
      }
    }

    // ---------------- insertion ----------------

    // Inserts below a node, or reports that every node on the path is full;
    // in that case nothing but the hint has changed.
    method NodeSet(node: Node<K, V>, item: Item<K, V>, depth: nat, ghost height: nat) returns (r: Mutation)
      requires TotalOrder(cmp) && |hint| == 8 && node.Valid() && this !in node.Repr
      requires Shape(node.T, height) && Sorted(cmp, Flatten(node.T))
      modifies `hint, node.Repr
      ensures |hint| == 8 && node.Valid() && fresh(node.Repr - old(node.Repr))
      ensures node.leaf == old(node.leaf)
      ensures r in {MustSplit, Inserted, Replaced}
      ensures r == MustSplit <==> PathFull(cmp, old(node.T), item.key)
      ensures r == MustSplit ==> node.T == old(node.T)
      ensures r != MustSplit ==> DidSet(old(node.T), item, node.T, r, height)
      decreases height, (if node.leaf then 0 else if PathFull(cmp, Towards(cmp, node.T, item.key), item.key) then 1 else 0), 1
    {
      hide TotalOrder, Sorted, LowerBound, Flatten;
      NodeSorted(cmp, node.T);
      var i, found := BSearchHint(node.items, item.key, depth);
      if found {
        SetHere(node, i, item, height);
        return Replaced;
      }
      if node.leaf {
        if |node.items| == MAX_ITEMS { return MustSplit; }
        SetInLeaf(node, i, item, height);
        return Inserted;
      }
      r := SetInChild(node, i, item, depth, height);
      if r != MustSplit || |node.items| == MAX_ITEMS { return; }
      r := SplitAndRetry(node, i, item, depth, height);
    }

    method SetHere(node: Node<K, V>, i: nat, item: Item<K, V>, ghost height: nat)
      requires TotalOrder(cmp) && node.Valid() && Shape(node.T, height) && Sorted(cmp, Flatten(node.T))
      requires i == LowerBound(cmp, node.items, item.key) && Has(cmp, node.items, item.key)
      modifies node
      ensures node.Valid() && node.leaf == old(node.leaf) && node.Repr <= old(node.Repr)
      ensures DidSet(old(node.T), item, node.T, Replaced, height)
    {
      if !node.leaf { UpsertHere(cmp, node.T, item); }
      StoreItem(node, i, item);
    }

    method SetInLeaf(node: Node<K, V>, i: nat, item: Item<K, V>, ghost height: nat)
      requires node.Valid() && node.leaf && Shape(node.T, height) && |node.items| < MAX_ITEMS
      requires i == LowerBound(cmp, node.items, item.key) && !Has(cmp, node.items, item.key)
      modifies node
      ensures node.Valid() && node.leaf && node.Repr <= old(node.Repr)
      ensures DidSet(old(node.T), item, node.T, Inserted, height)
    {
      node.Insert(i, item, []);
      node.Sync([], {});
    }

    method SetInChild(node: Node<K, V>, i: nat, item: Item<K, V>, depth: nat, ghost height: nat) returns (r: Mutation)
      requires TotalOrder(cmp) && |hint| == 8 && node.Valid() && this !in node.Repr
      requires Shape(node.T, height) && Sorted(cmp, Flatten(node.T))
      requires !node.leaf && i == LowerBound(cmp, node.items, item.key) && !Has(cmp, node.items, item.key)
      modifies `hint, node.Repr
      ensures |hint| == 8 && node.Valid() && fresh(node.Repr - old(node.Repr))
      ensures !node.leaf && r in {MustSplit, Inserted, Replaced}
      ensures r == MustSplit <==> PathFull(cmp, Towards(cmp, old(node.T), item.key), item.key)
      ensures r == MustSplit ==> node.T == old(node.T)
      ensures r != MustSplit ==> DidSet(old(node.T), item, node.T, r, height)
      decreases height, 0, 0
    {
      ghost var t := node.T;
      Descend(cmp, t, item.key);
      ChildFacts(node, i);
      var child := node.children[i];
      ghost var nodes := node.children;
      ghost var a, b := RowAround(nodes, t.kids, node.Repr - {node}, i, i + 1);
      r := NodeSet(child, item, depth + 1, height - 1);
      ghost var kept := Owned(nodes[..i], t.kids[..i], a) && Owned(nodes[i + 1..], t.kids[i + 1..], b);
      assert kept;
      SyncChild(node, i, nodes, t.kids, a, b);
      if r != MustSplit {
        SetBelow(t, item, child.T, r, height);
      }
    }

    // The child on the path is full all the way down: split it and start over
    // at this node.
    method SplitAndRetry(node: Node<K, V>, i: nat, item: Item<K, V>, depth: nat, ghost height: nat) returns (r: Mutation)
      requires TotalOrder(cmp) && |hint| == 8 && node.Valid() && this !in node.Repr
      requires Shape(node.T, height) && Sorted(cmp, Flatten(node.T))
      requires !node.leaf && |node.items| < MAX_ITEMS
      requires i == LowerBound(cmp, node.items, item.key) && !Has(cmp, node.items, item.key)
      requires PathFull(cmp, Towards(cmp, node.T, item.key), item.key)
      modifies `hint, node.Repr
      ensures |hint| == 8 && node.Valid() && fresh(node.Repr - old(node.Repr))
      ensures node.leaf == old(node.leaf)
      ensures r in {Inserted, Replaced} && DidSet(old(node.T), item, node.T, r, height)
      decreases height, 1, 0
    {
      hide TotalOrder, Sorted, Flatten, LowerBound, Owned;
      ghost var t := node.T;
      var right, median := SplitChild(node, i);
      SplitBelow(cmp, t, height, item.key, node.T.kids[i], median, node.T.kids[i + 1]);
      r := NodeSet(node, item, depth, height);
    }

    // What a successful insertion does to a subtree.
    ghost predicate DidSet(t: Tree<K, V>, item: Item<K, V>, t': Tree<K, V>, r: Mutation, height: nat) {
      && Shape(t', height) && |t.items| <= |t'.items| <= MAX_ITEMS
      && Flatten(t') == Upsert(cmp, Flatten(t), item)
      && (r == Inserted <==> !Has(cmp, Flatten(t), item.key))
    }

    lemma SetBelow(t: Tree<K, V>, item: Item<K, V>, kid: Tree<K, V>, r: Mutation, height: nat)
      requires TotalOrder(cmp) && t.Branch? && Shape(t, height) && Sorted(cmp, Flatten(t)) && |t.items| <= MAX_ITEMS
      requires !Has(cmp, t.items, item.key)
      requires DidSet(Towards(cmp, t, item.key), item, kid, r, height - 1)
      ensures DidSet(t, item, Branch(t.items, t.kids[LowerBound(cmp, t.items, item.key) := kid]), r, height)
    {
      UpsertBelow(cmp, t, item, kid);
    }

    // Inserts, or replaces the item with an equal key.
    method Set(key: K, val: V)
      requires Valid()
      modifies this, Nodes()
      ensures Valid() && fresh(Nodes() - old(Nodes()))
      ensures Contents() == Upsert(cmp, old(Contents()), Item(key, val))
    {
      var item := Item(key, val);
      if root == null {
        var node := new Node(true);
        node.items := [item];
        node.Sync([], {});
        root := node;
        count, height := count + 1, height + 1;
        return;
      }
      UpsertSorted(cmp, Contents(), item);
      SetFromRoot(item);
    }

    // What holds between two attempts at an insertion.
    ghost predicate Attempted(t: Tree<K, V>, item: Item<K, V>, r: Mutation)
      reads this, root, if root == null then {} else root.Repr
    {
      && |hint| == 8 && root != null && root.Valid() && this !in root.Repr
      && r in {MustSplit, Inserted, Replaced} && 1 <= |t.items|
      && if r == MustSplit then root.T == t && Shape(t, height) && PathFull(cmp, t, item.key)
         else DidSet(t, item, root.T, r, height)
    }

    method SetFromRoot(item: Item<K, V>)
      requires Valid() && root != null
      requires Sorted(cmp, Upsert(cmp, Contents(), item))
      requires |Upsert(cmp, Contents(), item)| == if Has(cmp, Contents(), item.key) then count else count + 1
      modifies this, Nodes()
      ensures Valid() && fresh(Nodes() - old(Nodes()))
      ensures Contents() == Upsert(cmp, old(Contents()), item)
    {
      hide TotalOrder, Sorted, LowerBound, Flatten;
      ghost var t, s, nodes := root.T, Flatten(root.T), Nodes();
      var r := NodeSet(root, item, 0, height);
      // a root split leaves a root that is not full, so one retry is enough
      while r == MustSplit
        invariant Attempted(t, item, r) && Flatten(t) == s && Sorted(cmp, s)
        invariant count == old(count) && fresh(Nodes() - nodes)
        decreases r == MustSplit
      {
        ghost var had := Nodes();
        r, t := GrowAndRetry(item);
        assert Nodes() - nodes <= (Nodes() - had) + (had - nodes);
      }
      if r == Inserted { count := count + 1; }
    }

    method GrowAndRetry(item: Item<K, V>) returns (r: Mutation, ghost t: Tree<K, V>)
      requires TotalOrder(cmp) && root != null && Attempted(root.T, item, MustSplit) && Sorted(cmp, Contents())
      modifies `root, `height, `hint, Nodes()
      ensures Attempted(t, item, r) && r != MustSplit && Flatten(t) == old(Contents())
      ensures fresh(Nodes() - old(Nodes()))
    {
      hide TotalOrder, Sorted, Flatten, LowerBound, Owned;
      var top := GrowRoot(root, height);
      root := top;
      height := height + 1;
      t := top.T;
      r := NodeSet(top, item, 0, height);
    }

    // ---------------- deletion ----------------

    // Which position an action removes from a sorted sequence.
    ghost function Target(act: DeleteAct, key: K, s: seq<Item<K, V>>): (p: Option<nat>)
      requires s != []
      ensures p.Some? ==> p.value < |s|
    {
      match act
      case DelKey => if Has(cmp, s, key) then Some(LowerBound(cmp, s, key)) else None
      case PopFront => Some(0)
      case PopMax | PopBack => Some(|s| - 1)
    }

    // What a deletion does to a subtree.
    ghost predicate DidDelete(t: Tree<K, V>, p: Option<nat>, t': Tree<K, V>, r: Mutation, prev: Option<Item<K, V>>,
                              height: nat)
      requires p.Some? ==> p.value < |Flatten(t)|
    {
      if p.None? then r == NoChange && t' == t
      else
        && r == Deleted && prev == Some(Flatten(t)[p.value])
        && Flatten(t') == RemoveAt(Flatten(t), p.value)
        && Shape(t', height) && |t.items| - 1 <= |t'.items| <= |t.items|
    }

    method NodeDelete(node: Node<K, V>, act: DeleteAct, key: K, depth: nat, ghost height: nat)
      returns (r: Mutation, prev: Option<Item<K, V>>)
      requires TotalOrder(cmp) && |hint| == 8 && node.Valid() && this !in node.Repr
      requires Shape(node.T, height) && Sorted(cmp, Flatten(node.T)) && 1 <= |node.items| && Flatten(node.T) != []
      modifies `hint, node.Repr
      ensures |hint| == 8 && node.Valid() && node.leaf == old(node.leaf) && node.Repr <= old(node.Repr)
      ensures DidDelete(old(node.T), Target(act, key, old(Flatten(node.T))), node.T, r, prev, height)
      decreases height, 1
    {
      hide TotalOrder, Sorted, LowerBound, Flatten, ShapeButOne;
      ghost var t := node.T;
      NodeSorted(cmp, t);
      var i: nat, found := 0, false;
      match act {
        case DelKey => i, found := BSearchHint(node.items, key, depth);
        case PopMax => i, found := |node.items| - 1, true;
        case PopFront => i, found := 0, node.leaf;
        case PopBack =>
          if !node.leaf { i, found := |node.items|, false; } else { i, found := |node.items| - 1, true; }
      }
      if node.leaf {
        r, prev := DeleteInLeaf(node, i, found, act, key, height);
        return;
      }
      if found && act == DelKey {
        prev := DeleteHere(node, i, key, depth, height);
        r := Deleted;
      } else {
        if found { i := i + 1; }
        r, prev := DeleteInChild(node, i, act, key, depth, height);
        if r != Deleted { return; }
      }
      RebalanceIfLow(node, i, height);
    }

    // The item itself is in this node: its predecessor takes its place.
    method DeleteHere(node: Node<K, V>, i: nat, key: K, depth: nat, ghost height: nat) returns (prev: Option<Item<K, V>>)
      requires TotalOrder(cmp) && |hint| == 8 && node.Valid() && this !in node.Repr
      requires !node.leaf && Shape(node.T, height) && Sorted(cmp, Flatten(node.T))
      requires Has(cmp, node.items, key) && i == LowerBound(cmp, node.items, key)
      modifies `hint, node.Repr
      ensures |hint| == 8 && node.Valid() && !node.leaf && node.Repr <= old(node.Repr)
      ensures |node.items| == old(|node.items|) && ShapeButOne(node.T, height, i)
      ensures var s := old(Flatten(node.T));
              && Has(cmp, s, key) && prev == Some(s[LowerBound(cmp, s, key)])
              && Flatten(node.T) == RemoveAt(s, LowerBound(cmp, s, key))
      decreases height, 0
    {
      ghost var t := node.T;
      hide Flatten, Shape, Sorted, TotalOrder, LowerBound, Has, ShapeButOne, DidDelete;
      prev := Some(node.items[i]);
      BranchIs(node);
      var r, spare := PopInChild(node, i, PopMax, key, depth, height);
      ReplacedUp(t, height, i, key, node.T.kids[i], r, spare);
      BranchIs(node);
      StoreItem(node, i, spare.value);
      BranchIs(node);
    }

    lemma BranchIs(node: Node<K, V>)
      requires node.Valid() && !node.leaf
      ensures node.T.Branch? && node.T.items == node.items && |node.T.kids| == |node.children|
    {
    }

    // The key's item makes way for the last one of the child before it.
    lemma ReplacedUp(t: Tree<K, V>, height: nat, i: nat, key: K, kid: Tree<K, V>, r: Mutation, spare: Option<Item<K, V>>)
      requires TotalOrder(cmp) && t.Branch? && Shape(t, height) && Sorted(cmp, Flatten(t))
      requires Has(cmp, t.items, key) && i == LowerBound(cmp, t.items, key) && i < |t.kids| && Flatten(t.kids[i]) != []
      requires DidDelete(t.kids[i], Target(PopMax, key, Flatten(t.kids[i])), kid, r, spare, height - 1)
      ensures spare.Some? && i < |t.items|
      ensures var t', s := Branch(t.items[i := spare.value], t.kids[i := kid]), Flatten(t);
              && ShapeButOne(t', height, i) && Has(cmp, s, key) && s[LowerBound(cmp, s, key)] == t.items[i]
              && Flatten(t') == RemoveAt(s, LowerBound(cmp, s, key))
    {
      hide Flatten, Sorted, TotalOrder, ShapeButOne;
      FoundHere(cmp, t, key);
      PredecessorUp(t, height, i, kid, spare.value);
    }

    method DeleteInLeaf(node: Node<K, V>, i: nat, found: bool, ghost act: DeleteAct, ghost key: K, ghost height: nat)
      returns (r: Mutation, prev: Option<Item<K, V>>)
      requires node.Valid() && node.leaf && Shape(node.T, height) && node.items != [] && Flatten(node.T) != []
      requires Target(act, key, node.items) == if found then Some(i) else None
      modifies node
      ensures node.Valid() && node.leaf && node.Repr <= old(node.Repr)
      ensures DidDelete(old(node.T), Target(act, key, old(Flatten(node.T))), node.T, r, prev, height)
    {
      if !found { return NoChange, None; }
      prev := Some(node.items[i]);
      node.ShiftLeft(i, false);
      node.Sync([], {});
      return Deleted, prev;
    }

    // Deletes below child i; the child may be left one item short.
    method PopInChild(node: Node<K, V>, i: nat, act: DeleteAct, key: K, depth: nat, ghost height: nat)
      returns (r: Mutation, prev: Option<Item<K, V>>)
      requires TotalOrder(cmp) && |hint| == 8 && node.Valid() && this !in node.Repr
      requires !node.leaf && i < |node.children| && Shape(node.T, height) && Sorted(cmp, Flatten(node.T))
      modifies `hint, node.Repr
      ensures |hint| == 8 && node.Valid() && !node.leaf && node.Repr <= old(node.Repr)
      ensures var t := old(node.T);
              && Flatten(t.kids[i]) != [] && |node.T.kids| == |t.kids|
              && node.T == Branch(t.items, t.kids[i := node.T.kids[i]])
              && DidDelete(t.kids[i], Target(act, key, Flatten(t.kids[i])), node.T.kids[i], r, prev, height - 1)
      decreases height, 0, 0
    {
      ghost var t := node.T;
      ChildReady(cmp, t, height, i);
      ChildFacts(node, i);
      var child := node.children[i];
      ghost var nodes := node.children;
      ghost var a, b := RowAround(nodes, t.kids, node.Repr - {node}, i, i + 1);
      r, prev := NodeDelete(child, act, key, depth + 1, height - 1);
      ghost var kept := Owned(nodes[..i], t.kids[..i], a) && Owned(nodes[i + 1..], t.kids[i + 1..], b);
      assert kept;
      SyncChild(node, i, nodes, t.kids, a, b);
    }

    // The item is below child i.
    method DeleteInChild(node: Node<K, V>, i: nat, act: DeleteAct, key: K, depth: nat, ghost height: nat)
      returns (r: Mutation, prev: Option<Item<K, V>>)
      requires TotalOrder(cmp) && |hint| == 8 && node.Valid() && this !in node.Repr
      requires !node.leaf && i < |node.children| && Shape(node.T, height) && Sorted(cmp, Flatten(node.T))
      requires Flatten(node.T) != []
      requires match act
               case DelKey => !Has(cmp, node.items, key) && i == LowerBound(cmp, node.items, key)
               case PopFront => i == 0
               case PopMax | PopBack => i == |node.items|
      modifies `hint, node.Repr
      ensures |hint| == 8 && node.Valid() && !node.leaf && node.Repr <= old(node.Repr)
      ensures |node.items| == old(|node.items|)
      ensures var t, p := old(node.T), Target(act, key, old(Flatten(node.T)));
              if p.None? then r == NoChange && node.T == t
              else && r == Deleted && prev == Some(Flatten(t)[p.value])
                   && Flatten(node.T) == RemoveAt(Flatten(t), p.value) && ShapeButOne(node.T, height, i)
      decreases height, 0, 1
    {
      hide TotalOrder, Sorted, LowerBound, Flatten, Shape;
      ghost var t := node.T;
      r, prev := PopInChild(node, i, act, key, depth, height);
      ghost var kid := node.T.kids[i];
      TargetBelow(t, height, i, act, key);
      ghost var q := Target(act, key, Flatten(t.kids[i]));
      if q.Some? {
        RemoveBelow(t.items, t.kids, i, kid, q.value);
        ShapeButOneAt(t, height, i, t.items, kid);
      }
    }

    lemma TargetBelow(t: Tree<K, V>, height: nat, i: nat, act: DeleteAct, key: K)
      requires TotalOrder(cmp) && t.Branch? && Shape(t, height) && Sorted(cmp, Flatten(t)) && Flatten(t) != []
      requires i < |t.kids| && Flatten(t.kids[i]) != []
      requires match act
               case DelKey => !Has(cmp, t.items, key) && i == LowerBound(cmp, t.items, key)
               case PopFront => i == 0
               case PopMax | PopBack => i == |t.items|
      ensures var p, q := Target(act, key, Flatten(t)), Target(act, key, Flatten(t.kids[i]));
              if q.None? then p.None? else p == Some(|Front(t.items, t.kids, i)| + q.value)
    {
      LastBelow(t.items, t.kids);
      if act == DelKey {
        Descend(cmp, t, key);
        FlattenAround(t.items, t.kids, i);
        LowerBoundWithin(cmp, Front(t.items, t.kids, i), Flatten(t.kids[i]), Back(t.items, t.kids, i), key);
      }
    }

    // Removes the item with an equal key; false if there is none.
    method Delete(key: K) returns (removed: bool)
      requires Valid()
      modifies this, Nodes()
      ensures Valid() && Nodes() <= old(Nodes())
      ensures Contents() == Remove(cmp, old(Contents()), key)
      ensures removed == Has(cmp, old(Contents()), key)
    {
      hide TotalOrder, Sorted, LowerBound, Remove, Has, Shape;
      if root == null {
        removed := false;
        RemoveNone(cmp, Contents(), key);
      } else {
        removed := DeleteFromRoot(key);
        if removed {
          if |root.items| == 0 { DropRoot(); }
          count := count - 1;
        }
      }
    }

    method DeleteFromRoot(key: K) returns (removed: bool)
      requires Valid() && root != null
      modifies `hint, root.Repr
      ensures |hint| == 8 && root.Valid() && this !in root.Repr && root.Repr <= old(root.Repr)
      ensures removed == Has(cmp, old(Contents()), key)
      ensures Contents() == Remove(cmp, old(Contents()), key) && Sorted(cmp, Contents())
      ensures |Contents()| == if removed then count - 1 else count
      ensures Shape(root.T, height) && |root.items| <= MAX_ITEMS && (!removed ==> 1 <= |root.items|)
    {
      hide TotalOrder, Sorted, LowerBound;
      LookupRemove(cmp, Contents(), key, key);
      NonEmpty(root.T, height);
      var r, deleted := NodeDelete(root, DelKey, key, 0, height);
      removed := r != NoChange;
    }

    // A root that ran empty gives way to its only child, if it has one.
    method DropRoot()
      requires root != null && root.Valid() && this !in root.Repr
      requires Shape(root.T, height) && root.items == []
      modifies `root, `height
      ensures Nodes() <= old(Nodes()) && Contents() == old(Contents())
      ensures root == null ==> height == 0
      ensures root != null ==> root.Valid() && RootShape(root.T, height)
    {
      if !root.leaf {
        ChildFacts(root, 0);
        FlattenAround(root.T.items, root.T.kids, 0);
        root := root.children[0];
      } else {
        root := null;
      }
      height := height - 1;
    }

    // Any run of insertions and deletions from an empty map.
    method Replay(ops: seq<MapOp<K, V>>)
      requires Valid() && Contents() == []
      modifies this, Nodes()
      ensures Valid() && Contents() == Run(cmp, ops)
    {
      hide TotalOrder, Sorted, LowerBound, Flatten, Shape, Valid;
      ghost var nodes := Nodes();
      assert ops[..|ops|] == ops;
      for i := 0 to |ops|
        invariant Valid() && Contents() == Run(cmp, ops[..i])
        invariant fresh(Nodes() - nodes)
      {
        assert ops[..i + 1][..i] == ops[..i];
        ghost var had := Nodes();
        match ops[i]
        case Put(item) => Set(item.key, item.val);
        case Drop(key) => var _ := Delete(key);
        assert Nodes() - nodes <= (Nodes() - had) + (had - nodes);
      }
    }

    method Clear()
      requires Valid()
      modifies this
      ensures Valid() && Contents() == []
    {
      root, count, height := null, 0, 0;
    }
  }

  lemma LastOff<T>(s: seq<T>)
    requires s != []
    ensures s == RemoveAt(s, |s| - 1) + [s[|s| - 1]]
  {
  }

  // The last item of child i moves up over item i.
  lemma PredecessorUp<K, V>(t: Tree<K, V>, height: nat, i: nat, kid: Tree<K, V>, spare: Item<K, V>)
    requires t.Branch? && Shape(t, height) && i < |t.items|
    requires var m := Flatten(t.kids[i]);
             m != [] && spare == m[|m| - 1] && Flatten(kid) == RemoveAt(m, |m| - 1)
    requires Shape(kid, height - 1) && |t.kids[i].items| - 1 <= |kid.items| <= |t.kids[i].items|
    ensures var p := |Front(t.items, t.kids, i)| + |Flatten(t.kids[i])|;
            var t' := Branch(t.items[i := spare], t.kids[i := kid]);
            && p < |Flatten(t)| && Flatten(t') == RemoveAt(Flatten(t), p) && ShapeButOne(t', height, i)
  {
    LastOff(Flatten(t.kids[i]));
    RemoveHere(t.items, t.kids, i, kid, spare);
    ShapeButOneAt(t, height, i, t.items[i := spare], kid);
  }

  lemma ChildReady<K, V>(cmp: (K, K) -> int, t: Tree<K, V>, height: nat, i: nat)
    requires t.Branch? && Shape(t, height) && i < |t.kids| && Sorted(cmp, Flatten(t))
    ensures Shape(t.kids[i], height - 1) && Filled(t.kids[i])
    ensures Sorted(cmp, Flatten(t.kids[i])) && Flatten(t.kids[i]) != []
  {
    FlattenAround(t.items, t.kids, i);
    SortedParts(cmp, Front(t.items, t.kids, i), Flatten(t.kids[i]), Back(t.items, t.kids, i));
    NonEmpty(t.kids[i], height - 1);
  }

  // A child that holds fewer than MIN_ITEMS is merged or topped up.
  method RebalanceIfLow<K(!new), V(!new)>(node: Node<K, V>, i: nat, ghost height: nat)
    requires node.Valid() && !node.leaf && ShapeButOne(node.T, height, i) && 0 < |node.items|
    modifies node.Repr
    ensures node.Valid() && !node.leaf && node.Repr <= old(node.Repr)
    ensures Shape(node.T, height) && Flatten(node.T) == old(Flatten(node.T))
    ensures old(|node.items|) - 1 <= |node.items| <= old(|node.items|)
  {
    ChildFacts(node, i);
    if |node.children[i].items| < MIN_ITEMS { Rebalance(node, i, height); }
  }

  // Splits a full root: a new root with one item and two children.
  method GrowRoot<K(!new), V(!new)>(oldRoot: Node<K, V>, ghost height: nat) returns (top: Node<K, V>)
    requires oldRoot.Valid() && Shape(oldRoot.T, height) && |oldRoot.items| == MAX_ITEMS
    modifies oldRoot
    ensures top.Valid() && fresh(top.Repr - old(oldRoot.Repr))
    ensures RootShape(top.T, height + 1) && Flatten(top.T) == old(Flatten(oldRoot.T)) && |top.T.items| == 1
  {
    hide Owned, Flatten;
    top := new Node(false);
    var right, median := Split(oldRoot);
    GrownTree(oldRoot.T, median, right.T, height);
    ghost var kids, foot := [oldRoot.T] + [right.T], oldRoot.Repr + right.Repr;
    assert foot <= old(oldRoot.Repr) + {right};
    top.children := [oldRoot] + [right];
    top.items := [median];
    ghost var kept := Owned(top.children, kids, foot);
    assert kept by {
      OwnedOne(oldRoot);
      OwnedOne(right);
      OwnedJoin([oldRoot], [oldRoot.T], oldRoot.Repr, [right], [right.T], right.Repr);
    }
    top.Sync(kids, foot);
  }

  lemma GrownTree<K, V>(a: Tree<K, V>, x: Item<K, V>, b: Tree<K, V>, height: nat)
    requires SameKind(a, b) && Counted(a) && Counted(b) && Shape(Join(a, x, b), height)
    requires Filled(a) && Filled(b)
    ensures var t := Branch([x], [a] + [b]);
            RootShape(t, height + 1) && Flatten(t) == Flatten(Join(a, x, b))
  {
    JoinFlatten(a, x, b);
    SplitShape(a, x, b, height);
    PairFlatten([x], [a] + [b], 0, a, x, b);
    assert [] + (Flatten(a) + [x] + Flatten(b)) + [] == Flatten(a) + [x] + Flatten(b);
  }

  // Stores an item over the one at index i.
  method StoreItem<K(!new), V(!new)>(node: Node<K, V>, i: nat, item: Item<K, V>)
    requires node.Valid() && i < |node.items|
    modifies node
    ensures node.Valid() && node.leaf == old(node.leaf) && node.Repr <= old(node.Repr)
    ensures node.T == if node.leaf then Leaf(old(node.items)[i := item])
                      else Branch(old(node.items)[i := item], old(node.T).kids)
  {
    ghost var foot := node.Repr - {node};
    ghost var kids := if node.leaf then [] else node.T.kids;
    node.items := node.items[i := item];
    ghost var kept := node.leaf || Owned(node.children, kids, foot);
    assert kept;
    node.Sync(kids, if node.leaf then {} else foot);
  }

  // Brings a branch in line with a child that has changed.
  ghost method SyncChild<K(!new), V(!new)>(node: Node<K, V>, i: nat, nodes: seq<Node<K, V>>, ts: seq<Tree<K, V>>,
                                           a: set<object>, b: set<object>)
    requires !node.leaf && nodes == node.children && |nodes| == |ts| == |node.items| + 1 <= MAX_ITEMS + 1 && i < |nodes|
    requires Owned(nodes[..i], ts[..i], a) && Owned(nodes[i + 1..], ts[i + 1..], b) && a !! b
    requires nodes[i].Valid() && nodes[i].Repr !! a && nodes[i].Repr !! b
    requires node !in a + nodes[i].Repr + b
    modifies node`T, node`Repr
    ensures node.Valid() && node.Repr == {node} + old(a + nodes[i].Repr + b)
    ensures node.T == Branch(node.items, ts[i := old(nodes[i].T)])
  {
    var kid := nodes[i];
    RowWithOne(nodes[..i], ts[..i], a, kid, nodes[i + 1..], ts[i + 1..], b);
    AroundOneInRow(nodes, i, kid);
    AroundOneInRow(ts, i, kid.T);
    node.Sync(ts[i := kid.T], a + kid.Repr + b);
  }

  lemma AroundOneInRow<T>(s: seq<T>, i: nat, x: T)
    requires i < |s|
    ensures s[..i] + [x] + s[i + 1..] == s[i := x]
    ensures x == s[i] ==> s[i := x] == s
  {
  }

  // Splits child i of a branch that has room.
  method SplitChild<K(!new), V(!new)>(node: Node<K, V>, i: nat) returns (right: Node<K, V>, median: Item<K, V>)
    requires node.Valid() && !node.leaf && i < |node.children| && |node.items| < MAX_ITEMS
    requires |node.T.kids[i].items| == MAX_ITEMS
    modifies node.Repr
    ensures node.Valid() && !node.leaf && fresh(node.Repr - old(node.Repr))
    ensures i < |node.children|
    ensures var t, a, b := old(node.T), node.children[i].T, right.T;
            && node.T == WithSplit(t, i, a, median, b) && node.T.kids[i] == a && node.T.kids[i + 1] == b
            && SameKind(a, b) && Counted(a) && Counted(b) && t.kids[i] == Join(a, median, b)
            && |a.items| == MAX_ITEMS / 2 && |b.items| == LEAST_ITEMS
  {
    hide Owned;
    ghost var nodes, ts := node.children, node.T.kids;
    var child := node.children[i];
    ChildFacts(node, i);
    ghost var a, b := RowAround(nodes, ts, node.Repr - {node}, i, i + 1);
    right, median := Split(child);
    node.Insert(i, median, [right]);
    ghost var kept := Owned(nodes[..i], ts[..i], a) && Owned(nodes[i + 1..], ts[i + 1..], b) && child.Valid() && right.Valid();
    assert kept;
    PairInRow(nodes, i, right);
    SyncSplit(node, i, nodes, ts, right, a, b);
    PairInTrees(ts, i, child.T, right.T);
  }

  lemma PairInRow<T>(s: seq<T>, i: nat, x: T)
    requires i < |s|
    ensures s[..i + 1] + [x] + s[i + 1..] == s[..i] + [s[i], x] + s[i + 1..]
  {
  }

  lemma PairInTrees<T>(s: seq<T>, i: nat, x: T, y: T)
    requires i < |s|
    ensures var r := s[..i] + [x, y] + s[i + 1..]; |r| == |s| + 1 && r[i] == x && r[i + 1] == y
  {
  }

  ghost method SyncSplit<K(!new), V(!new)>(node: Node<K, V>, i: nat, nodes: seq<Node<K, V>>, ts: seq<Tree<K, V>>,
                                           right: Node<K, V>, a: set<object>, b: set<object>)
    requires |nodes| == |ts| == |node.items| <= MAX_ITEMS && i < |nodes| && !node.leaf
    requires node.children == nodes[..i] + [nodes[i], right] + nodes[i + 1..]
    requires Owned(nodes[..i], ts[..i], a) && Owned(nodes[i + 1..], ts[i + 1..], b) && a !! b
    requires nodes[i].Valid() && right.Valid() && nodes[i].Repr !! right.Repr
    requires nodes[i].Repr !! a && nodes[i].Repr !! b && right.Repr !! a && right.Repr !! b
    requires node !in a + nodes[i].Repr + right.Repr + b
    modifies node`T, node`Repr
    ensures node.Valid() && node.Repr == {node} + old(a + nodes[i].Repr + right.Repr + b)
    ensures node.T == Branch(node.items, ts[..i] + [old(nodes[i].T), old(right.T)] + ts[i + 1..])
  {
    var child := nodes[i];
    RowWithTwo(nodes[..i], ts[..i], a, child, right, nodes[i + 1..], ts[i + 1..], b);
    node.Sync(ts[..i] + [child.T, right.T] + ts[i + 1..], a + child.Repr + right.Repr + b);
  }

  // The key, if present, is in lo .. hi of a node.
  ghost predicate Bracket<K, V>(cmp: (K, K) -> int, items: seq<Item<K, V>>, key: K, lo: nat, hi: nat) {
    && lo <= hi <= |items|
    && (forall j :: 0 <= j < lo ==> cmp(key, items[j].key) > 0)
    && (forall j :: hi <= j < |items| ==> cmp(key, items[j].key) < 0)
  }

  lemma Closed<K, V>(cmp: (K, K) -> int, items: seq<Item<K, V>>, key: K, lo: nat)
    requires Bracket(cmp, items, key, lo, lo)
    ensures lo == LowerBound(cmp, items, key) && !Has(cmp, items, key)
  {
    LowerBoundAt(cmp, items, key, lo);
  }

  // What one comparison says about the rest of a sorted node.
  lemma Narrow<K(!new), V(!new)>(cmp: (K, K) -> int, items: seq<Item<K, V>>, key: K, mid: nat)
    requires TotalOrder(cmp) && Sorted(cmp, items) && mid < |items|
    ensures cmp(key, items[mid].key) == 0 ==> mid == LowerBound(cmp, items, key) && Has(cmp, items, key)
    ensures cmp(key, items[mid].key) < 0 ==> forall j :: mid <= j < |items| ==> cmp(key, items[j].key) < 0
    ensures cmp(key, items[mid].key) > 0 ==> forall j :: 0 <= j <= mid ==> cmp(key, items[j].key) > 0
  {
    Behind(cmp, items, key, mid);
    forall j | 0 <= j < |items|
      ensures cmp(key, items[mid].key) < 0 && mid <= j ==> cmp(key, items[j].key) < 0
      ensures cmp(key, items[mid].key) > 0 && j <= mid ==> cmp(key, items[j].key) > 0
    {
      if mid < j {
        assert items[j] == items[mid + 1..][j - mid - 1];
      } else if j < mid {
        assert items[j] == items[..mid][j];
      }
    }
    if cmp(key, items[mid].key) == 0 {
      LowerBoundAt(cmp, items, key, mid);
    }
  }

  lemma LookupBelow<K(!new), V(!new)>(cmp: (K, K) -> int, t: Tree<K, V>, key: K)
    requires TotalOrder(cmp) && t.Branch? && Counted(t) && Sorted(cmp, Flatten(t))
    requires !Has(cmp, t.items, key)
    ensures Lookup(cmp, Flatten(t), key) == Lookup(cmp, Flatten(Towards(cmp, t, key)), key)
    ensures Sorted(cmp, Flatten(Towards(cmp, t, key)))
  {
    var i := LowerBound(cmp, t.items, key);
    Descend(cmp, t, key);
    FlattenAround(t.items, t.kids, i);
    LowerBoundWithin(cmp, Front(t.items, t.kids, i), Flatten(t.kids[i]), Back(t.items, t.kids, i), key);
  }
}
