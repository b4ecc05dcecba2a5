// In-order iteration in both directions with an explicit stack of (node, index)
// entries that never grows beyond the height of the tree.
module BTreeIter {
  import opened OrderedSeq
  import opened BTreeShape
  import opened BTreeNode
  import opened BTree

  const MAX_HEIGHT: nat := 16

  datatype Entry<K(!new), V(!new)> = Entry(node: Node<K, V>, index: int)

  // The value of an entry: the subtree at the node and the index reached.
  datatype Place<K, V> = Place(t: Tree<K, V>, index: int)

  // What a forward entry still has to yield: item `index` and all behind it.
  ghost function AheadOf<K, V>(p: Place<K, V>): seq<Item<K, V>>
    requires Counted(p.t) && 0 <= p.index <= |p.t.items|
  {
    if p.t.Leaf? then p.t.items[p.index..] else Back(p.t.items, p.t.kids, p.index)
  }

  // What a backward entry still has to yield, in ascending order.
  ghost function BeforeOf<K, V>(p: Place<K, V>): seq<Item<K, V>>
    requires Counted(p.t) && -1 <= p.index < |p.t.items|
  {
    if p.t.Leaf? then p.t.items[..p.index + 1] else Front(p.t.items, p.t.kids, p.index + 1)
  }

  // A stack of places, one level apart: place k is at height `height - k`.
  ghost predicate Stacked<K, V>(ps: seq<Place<K, V>>, height: nat, lo: int) {
    && |ps| <= height && Indexed(ps, lo)
    && forall k :: 0 <= k < |ps| ==> Shape(ps[k].t, height - k)
  }

  ghost predicate Indexed<K, V>(ps: seq<Place<K, V>>, lo: int) {
    forall k :: 0 <= k < |ps| ==> Counted(ps[k].t) && lo <= ps[k].index <= |ps[k].t.items| + lo
  }

  ghost function Ahead<K, V>(ps: seq<Place<K, V>>): seq<Item<K, V>>
    requires Indexed(ps, 0)
  {
    if ps == [] then [] else AheadOf(ps[|ps| - 1]) + Ahead(ps[..|ps| - 1])
  }

  ghost function Before<K, V>(ps: seq<Place<K, V>>): seq<Item<K, V>>
    requires Indexed(ps, -1)
  {
    if ps == [] then [] else Before(ps[..|ps| - 1]) + BeforeOf(ps[|ps| - 1])
  }

  class Iter<K(!new), V(!new)> {
    const tree: OrderedMap<K, V>
    const forward: bool
    var done: bool
    var started: bool
    var stack: seq<Entry<K, V>>
    ghost const height: nat
    ghost const foot: set<object>

    ghost function Places(): (ps: seq<Place<K, V>>)
      reads this, foot
      ensures |ps| == |stack|
    {
      seq(|stack|, k requires 0 <= k < |stack| reads this, foot =>
        if stack[k].node in foot then Place(stack[k].node.T, stack[k].index) else Place(Leaf([]), 0))
    }

    // The stack lies inside the tree the iterator was made for.
    ghost predicate StackOk()
      reads this, foot
    {
      && this !in foot
      && (forall k :: 0 <= k < |stack| ==>
            stack[k].node in foot && stack[k].node.Repr <= foot && stack[k].node.Valid())
      && Stacked(Places(), height, if forward then 0 else -1)
    }

    ghost predicate Valid()
      reads this, foot, tree, tree.root
    {
      && StackOk() && height == tree.height && height <= MAX_HEIGHT && foot == tree.Nodes()
      && (tree.root != null ==> tree.root.Valid() && height >= 1 && Shape(tree.root.T, height))
      && (!started ==> stack == [] && !done) && (done ==> stack == [])
    }

    // The items not yet yielded, in key order.
    ghost function Rest(): seq<Item<K, V>>
      reads this, foot, tree, tree.root
      requires StackOk()
    {
      if done then []
      else if !started then tree.Contents()
      else if forward then Ahead(Places()) else Before(Places())
    }

    constructor (tree: OrderedMap<K, V>, forward: bool)
      requires tree.Valid() && tree.count < 0x1_0000_0000
      ensures this.tree == tree && this.forward == forward && Valid() && Rest() == tree.Contents()
    {
      this.tree, this.forward, done, started, stack := tree, forward, false, false, [];
      height, foot := tree.height, tree.Nodes();
      new;
      if tree.root != null {
        HeightBound(tree.root.T, height);
      }
    }

    // ---------------- forward ----------------

    method PushLeft(start: Node<K, V>)
      requires forward && StackOk() && start in foot && start.Repr <= foot && start.Valid()
      requires |stack| < height && Shape(start.T, height - |stack|)
      modifies `stack
      ensures StackOk() && Ahead(Places()) == Flatten(start.T) + old(Ahead(Places()))
    {
      hide Flatten, Shape;
      var node := start;
      ghost var rest := Ahead(Places());
      while true
        invariant StackOk() && node in foot && node.Repr <= foot && node.Valid()
        invariant |stack| < height && Shape(node.T, height - |stack|)
        invariant Flatten(start.T) + rest == Flatten(node.T) + Ahead(Places())
        decreases height - |stack|
      {
        PushForward(node);
        if node.leaf { break; }
        ChildFacts(node, 0);
        node := node.children[0];
      }
    }

    method PushForward(node: Node<K, V>)
      requires forward && StackOk() && node in foot && node.Repr <= foot && node.Valid()
      requires |stack| < height && Shape(node.T, height - |stack|)
      modifies `stack
      ensures StackOk() && |stack| == |old(stack)| + 1
      ensures node.leaf ==> Ahead(Places()) == Flatten(node.T) + old(Ahead(Places()))
      ensures !node.leaf ==>
                && |stack| < height && Shape(node.T.kids[0], height - |stack|)
                && Flatten(node.T.kids[0]) + Ahead(Places()) == Flatten(node.T) + old(Ahead(Places()))
    {
      hide Flatten, Owned, Back, Front, AheadOf, Shape, Indexed;
      ghost var ps, p := Places(), Place(node.T, 0);
      AheadPush(ps, p, height);
      Descent(node.T, height - |ps|, Ahead(ps));
      stack := stack + [Entry(node, 0)];
      assert Places() == ps + [p];
    }

    // One step: yields the first of what is left, in key order.
    method NextForward() returns (r: Option<Item<K, V>>)
      requires Valid() && forward
      modifies this
      ensures Valid() && |stack| <= MAX_HEIGHT
      ensures r == if old(Rest()) == [] then None else Some(old(Rest())[0])
      ensures Rest() == if old(Rest()) == [] then [] else old(Rest())[1..]
    {
      hide Flatten, Owned, Back, Front, Shape, RootShape, Ahead, AheadOf;
      if done { return None; }
      if !started {
        StartForward();
        if done { return None; }
      }
      r := Advance();
      if r == None { done := true; }
    }

    method StartForward()
      requires Valid() && forward && !started
      modifies this
      ensures Valid() && started && Rest() == old(Rest()) && (done ==> Rest() == [])
    {
      hide Flatten, Owned, Back, Front, Shape, RootShape;
      started := true;
      if tree.root == null {
        done := true;
        return;
      }
      assert Ahead(Places()) == [];
      PushLeft(tree.root);
    }

    // Pops used-up entries until one has an item to yield.
    method Advance() returns (r: Option<Item<K, V>>)
      requires forward && StackOk()
      modifies `stack
      ensures StackOk() && (r == None ==> stack == [])
      ensures r == if old(Ahead(Places())) == [] then None else Some(old(Ahead(Places()))[0])
      ensures Ahead(Places()) == if old(Ahead(Places())) == [] then [] else old(Ahead(Places()))[1..]
    {
      hide Flatten, Owned, Back, Front, Shape, Ahead;
      while stack != []
        invariant StackOk() && Ahead(Places()) == old(Ahead(Places()))
        decreases |stack|
      {
        var top := stack[|stack| - 1];
        TopPlace();
        if top.index < |top.node.items| {
          r := StepForward(top);
          return;
        }
        PopForward();
      }
      AheadNone(Places());
      return None;
    }

    lemma TopPlace()
      requires StackOk() && stack != []
      ensures var top := stack[|stack| - 1];
              && top.node.Valid() && top.node.items == top.node.T.items
              && (if forward then 0 else -1) <= top.index <= |top.node.items| + (if forward then 0 else -1)
    {
      assert Places()[|stack| - 1] == Place(stack[|stack| - 1].node.T, stack[|stack| - 1].index);
    }

    // The top entry is used up.
    method PopForward()
      requires forward && StackOk() && stack != []
      requires stack[|stack| - 1].index == |stack[|stack| - 1].node.items|
      modifies `stack
      ensures StackOk() && |stack| == |old(stack)| - 1 && Ahead(Places()) == old(Ahead(Places()))
    {
      ghost var ps := Places();
      stack := stack[..|stack| - 1];
      assert Places() == ps[..|ps| - 1];
    }

    // The top entry has an item to yield; in a branch the next subtree follows it.
    method StepForward(top: Entry<K, V>) returns (r: Option<Item<K, V>>)
      requires forward && StackOk() && stack != [] && top == stack[|stack| - 1] && 0 <= top.index < |top.node.items|
      modifies `stack
      ensures StackOk()
      ensures old(Ahead(Places())) != [] && r == Some(old(Ahead(Places()))[0])
      ensures Ahead(Places()) == old(Ahead(Places()))[1..]
    {
      hide Flatten, Owned, Front, Back, Shape, Ahead, AheadOf;
      TopPlace();
      AheadStep(Places(), height);
      var item := top.node.items[top.index];
      ghost var all, t := Ahead(Places()), top.node.T;
      Bump(top);
      if !top.node.leaf {
        ChildFacts(top.node, top.index + 1);
        PushLeft(top.node.children[top.index + 1]);
      }
      assert all == [item] + Ahead(Places());
      r := Some(item);
    }

    // Moves the top entry on by one item.
    method Bump(top: Entry<K, V>)
      requires forward && StackOk() && stack != [] && top == stack[|stack| - 1] && top.index < |top.node.items|
      modifies `stack
      ensures StackOk() && |stack| == |old(stack)|
      ensures Places() == old(Places())[|stack| - 1 := Place(top.node.T, top.index + 1)]
    {
      hide Flatten, Owned, Front, Back, Shape, Ahead, AheadOf;
      ghost var ps, p := Places(), Place(top.node.T, top.index + 1);
      AheadStep(ps, height);
      stack := stack[|stack| - 1 := Entry(top.node, top.index + 1)];
      assert Places() == ps[|ps| - 1 := p];
    }

    // ---------------- backward ----------------

    method PushRight(start: Node<K, V>)
      requires !forward && StackOk() && start in foot && start.Repr <= foot && start.Valid()
      requires |stack| < height && Shape(start.T, height - |stack|)
      modifies `stack
      ensures StackOk() && Before(Places()) == old(Before(Places())) + Flatten(start.T)
    {
      hide Flatten, Shape;
      var node := start;
      ghost var rest := Before(Places());
      while true
        invariant StackOk() && node in foot && node.Repr <= foot && node.Valid()
        invariant |stack| < height && Shape(node.T, height - |stack|)
        invariant rest + Flatten(start.T) == Before(Places()) + Flatten(node.T)
        decreases height - |stack|
      {
        PushBackward(node);
        if node.leaf { break; }
        ChildFacts(node, |node.items|);
        node := node.children[|node.items|];
      }
    }

    method PushBackward(node: Node<K, V>)
      requires !forward && StackOk() && node in foot && node.Repr <= foot && node.Valid()
      requires |stack| < height && Shape(node.T, height - |stack|)
      modifies `stack
      ensures StackOk() && |stack| == |old(stack)| + 1
      ensures node.leaf ==> Before(Places()) == old(Before(Places())) + Flatten(node.T)
      ensures !node.leaf ==>
                && |stack| < height && Shape(node.T.kids[|node.items|], height - |stack|)
                && Before(Places()) + Flatten(node.T.kids[|node.items|]) == old(Before(Places())) + Flatten(node.T)
    {
      hide Flatten, Owned, Back, Front, BeforeOf, Shape, Indexed;
      ghost var ps, p := Places(), Place(node.T, |node.items| - 1);
      BeforePush(ps, p, height);
      DescentRight(node.T, height - |ps|, Before(ps));
      stack := stack + [Entry(node, |node.items| - 1)];
      assert Places() == ps + [p];
    }

    // One step: yields the last of what is left, in key order.
    method NextBackward() returns (r: Option<Item<K, V>>)
      requires Valid() && !forward
      modifies this
      ensures Valid() && |stack| <= MAX_HEIGHT
      ensures r == if old(Rest()) == [] then None else Some(old(Rest())[|old(Rest())| - 1])
      ensures Rest() == if old(Rest()) == [] then [] else old(Rest())[..|old(Rest())| - 1]
    {
      hide Flatten, Owned, Back, Front, Shape, RootShape, Before, BeforeOf;
      if done { return None; }
      if !started {
        StartBackward();
        if done { return None; }
      }
      r := Retreat();
      if r == None { done := true; }
    }

    method StartBackward()
      requires Valid() && !forward && !started
      modifies this
      ensures Valid() && started && Rest() == old(Rest()) && (done ==> Rest() == [])
    {
      hide Flatten, Owned, Back, Front, Shape, RootShape;
      started := true;
      if tree.root == null {
        done := true;
        return;
      }
      assert Before(Places()) == [];
      PushRight(tree.root);
    }

    method Retreat() returns (r: Option<Item<K, V>>)
      requires !forward && StackOk()
      modifies `stack
      ensures StackOk() && (r == None ==> stack == [])
      ensures var s := old(Before(Places())); r == if s == [] then None else Some(s[|s| - 1])
      ensures var s := old(Before(Places())); Before(Places()) == if s == [] then [] else s[..|s| - 1]
    {
      hide Flatten, Owned, Back, Front, Shape;
      while stack != []
        invariant StackOk() && Before(Places()) == old(Before(Places()))
        decreases |stack|
      {
        var top := stack[|stack| - 1];
        TopPlace();
        if top.index >= 0 {
          r := StepBackward(top);
          return;
        }
        PopBackward();
      }
      return None;
    }

    method PopBackward()
      requires !forward && StackOk() && stack != [] && stack[|stack| - 1].index == -1
      modifies `stack
      ensures StackOk() && |stack| == |old(stack)| - 1 && Before(Places()) == old(Before(Places()))
    {
      ghost var ps := Places();
      stack := stack[..|stack| - 1];
      assert Places() == ps[..|ps| - 1];
    }

    method StepBackward(top: Entry<K, V>) returns (r: Option<Item<K, V>>)
      requires !forward && StackOk() && stack != [] && top == stack[|stack| - 1] && 0 <= top.index
      modifies `stack
      ensures StackOk()
      ensures var s := old(Before(Places())); s != [] && r == Some(s[|s| - 1])
      ensures var s := old(Before(Places())); Before(Places()) == s[..|s| - 1]
    {
      hide Flatten, Owned, Front, Back, Shape, Before, BeforeOf;
      TopPlace();
      BeforeStep(Places(), height);
      var item := top.node.items[top.index];
      ghost var all := Before(Places());
      BumpDown(top);
      if !top.node.leaf {
        ChildFacts(top.node, top.index);
        PushRight(top.node.children[top.index]);
      }
      assert all == Before(Places()) + [item];
      r := Some(item);
    }

    method BumpDown(top: Entry<K, V>)
      requires !forward && StackOk() && stack != [] && top == stack[|stack| - 1] && 0 <= top.index
      modifies `stack
      ensures StackOk() && |stack| == |old(stack)|
      ensures Places() == old(Places())[|stack| - 1 := Place(top.node.T, top.index - 1)]
    {
      hide Flatten, Owned, Front, Back, Shape, Before, BeforeOf;
      ghost var ps, p := Places(), Place(top.node.T, top.index - 1);
      BeforeStep(ps, height);
      stack := stack[|stack| - 1 := Entry(top.node, top.index - 1)];
      assert Places() == ps[|ps| - 1 := p];
    }

    // ---------------- a whole run ----------------

    // Stepping until nothing is left yields every item once, in order or in
    // reverse.
    method All() returns (out: seq<Item<K, V>>)
      requires Valid() && !started
      modifies this
      ensures Valid() && out == if forward then old(tree.Contents()) else Reversed(old(tree.Contents()))
    {
      hide Flatten, Shape, Owned, Ahead, Before, StackOk, Reversed;
      out := [];
      ReversedNone<Item<K, V>>();
      ghost var s := Rest();
      while true
        invariant Valid()
        invariant forward ==> out + Rest() == s
        invariant !forward ==> out + Reversed(Rest()) == Reversed(s)
        decreases |Rest()|
      {
        ghost var rest := Rest();
        var r;
        if forward { r := NextForward(); } else { r := NextBackward(); }
        match r
        case None => break;
        case Some(item) =>
          YieldStep(out, rest, item);
          out := out + [item];
      }
    }
  }

  ghost function Reversed<T>(s: seq<T>): seq<T> {
    seq(|s|, i requires 0 <= i < |s| => s[|s| - 1 - i])
  }

  lemma ReversedNone<T>()
    ensures Reversed<T>([]) == []
  {
  }

  lemma ReversedLast<T>(s: seq<T>)
    requires s != []
    ensures Reversed(s) == [s[|s| - 1]] + Reversed(s[..|s| - 1])
  {
  }

  // Taking an item off either end of what is left.
  lemma YieldStep<T>(out: seq<T>, rest: seq<T>, x: T)
    requires rest != []
    ensures x == rest[0] ==> out + rest == (out + [x]) + rest[1..]
    ensures x == rest[|rest| - 1] ==> out + Reversed(rest) == (out + [x]) + Reversed(rest[..|rest| - 1])
  {
    ReversedLast(rest);
  }

  lemma AheadNone<K, V>(ps: seq<Place<K, V>>)
    requires ps == []
    ensures Ahead(ps) == []
  {
  }

  // Yielding item `index` of the top place.
  lemma AheadStep<K, V>(ps: seq<Place<K, V>>, height: nat)
    requires Stacked(ps, height, 0) && ps != [] && ps[|ps| - 1].index < |ps[|ps| - 1].t.items|
    ensures var top := ps[|ps| - 1];
            var ps' := ps[|ps| - 1 := Place(top.t, top.index + 1)];
            && Stacked(ps', height, 0)
            && (top.t.Leaf? ==> Ahead(ps) == [top.t.items[top.index]] + Ahead(ps'))
            && (top.t.Branch? ==>
                  && |ps| < height && Shape(top.t.kids[top.index + 1], height - |ps|)
                  && Ahead(ps) == [top.t.items[top.index]] + (Flatten(top.t.kids[top.index + 1]) + Ahead(ps')))
  {
    var top := ps[|ps| - 1];
    StackedTop(ps, height, 0, top.index + 1);
    KidShape(top.t, height - (|ps| - 1), top.index + 1);
    hide Flatten, Shape, Indexed, Ahead, Stacked;
    AheadItems(ps, ps[|ps| - 1 := Place(top.t, top.index + 1)], top.t, top.index);
  }

  lemma AheadItems<K, V>(ps: seq<Place<K, V>>, ps': seq<Place<K, V>>, t: Tree<K, V>, i: nat)
    requires Indexed(ps, 0) && Indexed(ps', 0) && |ps'| == |ps| > 0 && ps'[..|ps| - 1] == ps[..|ps| - 1]
    requires ps[|ps| - 1] == Place(t, i) && ps'[|ps| - 1] == Place(t, i + 1) && i < |t.items| && Counted(t)
    ensures t.Leaf? ==> Ahead(ps) == [t.items[i]] + Ahead(ps')
    ensures t.Branch? ==> Ahead(ps) == [t.items[i]] + (Flatten(t.kids[i + 1]) + Ahead(ps'))
  {
    hide Flatten, AheadOf, Indexed, Ahead;
    var below := ps[..|ps| - 1];
    AheadTop(ps, below);
    AheadTop(ps', below);
    AheadOfStep(t, i, Ahead(below));
  }

  lemma AheadTop<K, V>(ps: seq<Place<K, V>>, below: seq<Place<K, V>>)
    requires Indexed(ps, 0) && ps != [] && below == ps[..|ps| - 1]
    ensures Indexed(below, 0) && Counted(ps[|ps| - 1].t) && 0 <= ps[|ps| - 1].index <= |ps[|ps| - 1].t.items|
    ensures Ahead(ps) == AheadOf(ps[|ps| - 1]) + Ahead(below)
  {
    hide AheadOf, Counted;
  }

  lemma BeforeTop<K, V>(ps: seq<Place<K, V>>, below: seq<Place<K, V>>)
    requires Indexed(ps, -1) && ps != [] && below == ps[..|ps| - 1]
    ensures Indexed(below, -1) && Counted(ps[|ps| - 1].t) && -1 <= ps[|ps| - 1].index < |ps[|ps| - 1].t.items|
    ensures Before(ps) == Before(below) + BeforeOf(ps[|ps| - 1])
  {
    hide BeforeOf, Counted;
  }

  // Another index in the top place.
  lemma StackedTop<K, V>(ps: seq<Place<K, V>>, height: nat, lo: int, index: int)
    requires Stacked(ps, height, lo) && ps != [] && lo <= index <= |ps[|ps| - 1].t.items| + lo
    ensures var top := ps[|ps| - 1];
            var ps' := ps[|ps| - 1 := Place(top.t, index)];
            && Stacked(ps', height, lo) && ps'[..|ps| - 1] == ps[..|ps| - 1] && Stacked(ps[..|ps| - 1], height, lo)
            && Shape(top.t, height - (|ps| - 1)) && Counted(top.t) && |ps| <= height
            && Indexed(ps, lo) && Indexed(ps', lo) && Indexed(ps[..|ps| - 1], lo)
  {
    hide Shape;
  }

  lemma KidShape<K, V>(t: Tree<K, V>, height: nat, i: nat)
    requires Shape(t, height) && i <= |t.items|
    ensures t.Branch? ==> height > 1 && i < |t.kids| && Shape(t.kids[i], height - 1)
  {
  }

  // One item on in the top place.
  lemma AheadOfStep<K, V>(t: Tree<K, V>, i: nat, more: seq<Item<K, V>>)
    requires Counted(t) && i < |t.items|
    ensures t.Leaf? ==> AheadOf(Place(t, i)) + more == [t.items[i]] + (AheadOf(Place(t, i + 1)) + more)
    ensures t.Branch? ==>
              AheadOf(Place(t, i)) + more == [t.items[i]] + (Flatten(t.kids[i + 1]) + (AheadOf(Place(t, i + 1)) + more))
  {
    if t.Leaf? {
      assert t.items[i..] + more == [t.items[i]] + (t.items[i + 1..] + more);
    } else {
      hide Flatten;
      Regrouped(t.items[i], Flatten(t.kids[i + 1]), Back(t.items, t.kids, i + 1), more);
    }
  }

  lemma Regrouped<T>(x: T, a: seq<T>, b: seq<T>, c: seq<T>)
    ensures ([x] + a + b) + c == [x] + (a + (b + c))
  {
  }

  lemma AheadPush<K, V>(ps: seq<Place<K, V>>, p: Place<K, V>, height: nat)
    requires Stacked(ps, height, 0) && |ps| < height
    requires Counted(p.t) && Shape(p.t, height - |ps|) && 0 <= p.index <= |p.t.items|
    ensures Stacked(ps + [p], height, 0)
    ensures Ahead(ps + [p]) == AheadOf(p) + Ahead(ps)
  {
    assert (ps + [p])[..|ps|] == ps;
  }

  // Starting on a subtree from the left: its first child, then the rest of it.
  lemma Descent<K, V>(t: Tree<K, V>, height: nat, more: seq<Item<K, V>>)
    requires Counted(t) && Shape(t, height)
    ensures t.Leaf? ==> AheadOf(Place(t, 0)) == Flatten(t)
    ensures t.Branch? ==>
              && height > 1 && Shape(t.kids[0], height - 1)
              && Flatten(t.kids[0]) + (AheadOf(Place(t, 0)) + more) == Flatten(t) + more
  {
    if t.Branch? {
      FlattenFirst(t.items, t.kids);
      assert Flatten(t.kids[0]) + (Back(t.items, t.kids, 0) + more)
          == (Flatten(t.kids[0]) + Back(t.items, t.kids, 0)) + more;
    }
  }

  lemma BeforePush<K, V>(ps: seq<Place<K, V>>, p: Place<K, V>, height: nat)
    requires Stacked(ps, height, -1) && |ps| < height
    requires Counted(p.t) && Shape(p.t, height - |ps|) && -1 <= p.index < |p.t.items|
    ensures Stacked(ps + [p], height, -1)
    ensures Before(ps + [p]) == Before(ps) + BeforeOf(p)
  {
    assert (ps + [p])[..|ps|] == ps;
  }

  // Starting on a subtree from the right: its last child, then the rest of it.
  lemma DescentRight<K, V>(t: Tree<K, V>, height: nat, more: seq<Item<K, V>>)
    requires Counted(t) && Shape(t, height)
    ensures t.Leaf? ==> BeforeOf(Place(t, |t.items| - 1)) == Flatten(t)
    ensures t.Branch? ==>
              && height > 1 && Shape(t.kids[|t.items|], height - 1)
              && (more + BeforeOf(Place(t, |t.items| - 1))) + Flatten(t.kids[|t.items|]) == more + Flatten(t)
  {
    if t.Branch? {
      var n := |t.items|;
      assert (more + Front(t.items, t.kids, n)) + Flatten(t.kids[n])
          == more + (Front(t.items, t.kids, n) + Flatten(t.kids[n]));
    }
  }

  lemma BeforeStep<K, V>(ps: seq<Place<K, V>>, height: nat)
    requires Stacked(ps, height, -1) && ps != [] && 0 <= ps[|ps| - 1].index
    ensures var top := ps[|ps| - 1];
            var ps' := ps[|ps| - 1 := Place(top.t, top.index - 1)];
            && Stacked(ps', height, -1)
            && (top.t.Leaf? ==> Before(ps) == Before(ps') + [top.t.items[top.index]])
            && (top.t.Branch? ==>
                  && |ps| < height && Shape(top.t.kids[top.index], height - |ps|)
                  && Before(ps) == (Before(ps') + Flatten(top.t.kids[top.index])) + [top.t.items[top.index]])
  {
    var top := ps[|ps| - 1];
    StackedTop(ps, height, -1, top.index - 1);
    KidShape(top.t, height - (|ps| - 1), top.index);
    hide Flatten, Shape, Indexed, Before, Stacked;
    BeforeItems(ps, ps[|ps| - 1 := Place(top.t, top.index - 1)], top.t, top.index);
  }

  lemma BeforeItems<K, V>(ps: seq<Place<K, V>>, ps': seq<Place<K, V>>, t: Tree<K, V>, i: nat)
    requires Indexed(ps, -1) && Indexed(ps', -1) && |ps'| == |ps| > 0 && ps'[..|ps| - 1] == ps[..|ps| - 1]
    requires ps[|ps| - 1] == Place(t, i) && ps'[|ps| - 1] == Place(t, i - 1) && i < |t.items| && Counted(t)
    ensures t.Leaf? ==> Before(ps) == Before(ps') + [t.items[i]]
    ensures t.Branch? ==> Before(ps) == (Before(ps') + Flatten(t.kids[i])) + [t.items[i]]
  {
    hide Flatten, BeforeOf, Indexed, Before;
    var below := ps[..|ps| - 1];
    BeforeTop(ps, below);
    BeforeTop(ps', below);
    BeforeOfStep(t, i, Before(below));
  }

  lemma BeforeOfStep<K, V>(t: Tree<K, V>, i: nat, more: seq<Item<K, V>>)
    requires Counted(t) && i < |t.items|
    ensures t.Leaf? ==> more + BeforeOf(Place(t, i)) == (more + BeforeOf(Place(t, i - 1))) + [t.items[i]]
    ensures t.Branch? ==>
              more + BeforeOf(Place(t, i)) == ((more + BeforeOf(Place(t, i - 1))) + Flatten(t.kids[i])) + [t.items[i]]
  {
    if t.Leaf? {
      assert more + t.items[..i + 1] == (more + t.items[..i]) + [t.items[i]];
    } else {
      hide Flatten;
      RegroupedLast(more, Front(t.items, t.kids, i), Flatten(t.kids[i]), t.items[i]);
    }
  }

  lemma RegroupedLast<T>(m: seq<T>, a: seq<T>, b: seq<T>, x: T)
    ensures m + (a + b + [x]) == ((m + a) + b) + [x]
  {
  }
}
