// B-trees as values: the in-order item sequence, the shape invariant, and what
// splitting, merging and rotating nodes does to them.
module BTreeShape {
  import opened OrderedSeq

  const MAX_ITEMS: nat := 64
  const MIN_ITEMS: nat := MAX_ITEMS / 2

  // MAX_ITEMS is even, so a split leaves MAX_ITEMS / 2 items on the left but
  // one less on the right: this, not MIN_ITEMS, is what a node is sure to hold.
  const LEAST_ITEMS: nat := (MAX_ITEMS - 1) / 2

  datatype Tree<K, V> =
    | Leaf(items: seq<Item<K, V>>)
    | Branch(items: seq<Item<K, V>>, kids: seq<Tree<K, V>>)

  // ---------------- in-order contents ----------------

  ghost function Flatten<K, V>(t: Tree<K, V>): seq<Item<K, V>>
    decreases t, 0
  {
    match t
    case Leaf(items) => items
    case Branch(items, kids) =>
      if |kids| == |items| + 1 then Front(items, kids, |items|) + Flatten(kids[|items|]) else []
  }

  // What comes before the contents of child i.
  ghost function Front<K, V>(items: seq<Item<K, V>>, kids: seq<Tree<K, V>>, i: nat): seq<Item<K, V>>
    requires |kids| == |items| + 1 && i <= |items|
    decreases kids, i
  {
    if i == 0 then [] else Front(items, kids, i - 1) + Flatten(kids[i - 1]) + [items[i - 1]]
  }

  // What comes behind the contents of child i.
  ghost function Back<K, V>(items: seq<Item<K, V>>, kids: seq<Tree<K, V>>, i: nat): seq<Item<K, V>>
    requires |kids| == |items| + 1 && i <= |items|
    decreases |items| - i
  {
    if i == |items| then [] else [items[i]] + Flatten(kids[i + 1]) + Back(items, kids, i + 1)
  }

  lemma {:induction false} FlattenAround<K, V>(items: seq<Item<K, V>>, kids: seq<Tree<K, V>>, i: nat)
    requires |kids| == |items| + 1 && i <= |items|
    ensures Flatten(Branch(items, kids)) == Front(items, kids, i) + Flatten(kids[i]) + Back(items, kids, i)
    decreases |items| - i
  {
    if i < |items| {
      FlattenAround(items, kids, i + 1);
      assert Front(items, kids, i + 1) + Flatten(kids[i + 1]) + Back(items, kids, i + 1)
          == Front(items, kids, i) + Flatten(kids[i]) + ([items[i]] + Flatten(kids[i + 1]) + Back(items, kids, i + 1));
    } else {
      assert Front(items, kids, i) + Flatten(kids[i]) + [] == Front(items, kids, i) + Flatten(kids[i]);
    }
  }

  // The front depends on what is left of child i only, the back on what is right of it.
  lemma {:induction false} SameFront<K, V>(items: seq<Item<K, V>>, kids: seq<Tree<K, V>>,
                        items': seq<Item<K, V>>, kids': seq<Tree<K, V>>, i: nat)
    requires |kids| == |items| + 1 && |kids'| == |items'| + 1 && i <= |items| && i <= |items'|
    requires forall j :: 0 <= j < i ==> items[j] == items'[j] && kids[j] == kids'[j]
    ensures Front(items, kids, i) == Front(items', kids', i)
    decreases i
  {
    if i > 0 {
      SameFront(items, kids, items', kids', i - 1);
    }
  }

  lemma {:induction false} SameBack<K, V>(items: seq<Item<K, V>>, kids: seq<Tree<K, V>>, i: nat,
                       items': seq<Item<K, V>>, kids': seq<Tree<K, V>>, i': nat)
    requires |kids| == |items| + 1 && |kids'| == |items'| + 1 && i <= |items| && i' <= |items'|
    requires items[i..] == items'[i'..] && kids[i + 1..] == kids'[i' + 1..]
    ensures Back(items, kids, i) == Back(items', kids', i')
    decreases |items| - i
  {
    if i < |items| {
      assert items[i] == items[i..][0] == items'[i'] && kids[i + 1] == kids[i + 1..][0] == kids'[i' + 1];
      assert items[i + 1..] == items[i..][1..] == items'[i' + 1..];
      assert kids[i + 2..] == kids[i + 1..][1..] == kids'[i' + 2..];
      SameBack(items, kids, i + 1, items', kids', i' + 1);
    }
  }

  // ---------------- joining two nodes around an item ----------------

  predicate SameKind<K, V>(a: Tree<K, V>, b: Tree<K, V>) {
    a.Leaf? <==> b.Leaf?
  }

  ghost function Join<K, V>(a: Tree<K, V>, x: Item<K, V>, b: Tree<K, V>): Tree<K, V>
    requires SameKind(a, b)
  {
    if a.Leaf? then Leaf(a.items + [x] + b.items)
    else Branch(a.items + [x] + b.items, a.kids + b.kids)
  }

  ghost predicate Counted<K, V>(t: Tree<K, V>) {
    t.Branch? ==> |t.kids| == |t.items| + 1
  }

  lemma JoinFlatten<K, V>(a: Tree<K, V>, x: Item<K, V>, b: Tree<K, V>)
    requires SameKind(a, b) && Counted(a) && Counted(b)
    ensures Flatten(Join(a, x, b)) == Flatten(a) + [x] + Flatten(b)
  {
    if a.Branch? {
      var j, n := Join(a, x, b), |a.items|;
      JoinHalves(a, x, b);
      FlattenAround(j.items, j.kids, n);
      FlattenFirst(b.items, b.kids);
      Recenter(Front(a.items, a.kids, n) + Flatten(a.kids[n]), x, Flatten(b.kids[0]), Back(b.items, b.kids, 0));
    }
  }

  lemma Recenter<T>(p: seq<T>, x: T, q: seq<T>, r: seq<T>)
    ensures p + ([x] + q + r) == p + [x] + (q + r)
  {
  }

  lemma FlattenFirst<K, V>(items: seq<Item<K, V>>, kids: seq<Tree<K, V>>)
    requires |kids| == |items| + 1
    ensures Flatten(Branch(items, kids)) == Flatten(kids[0]) + Back(items, kids, 0)
  {
    FlattenAround(items, kids, 0);
    assert [] + Flatten(kids[0]) == Flatten(kids[0]);
  }

  lemma JoinHalves<K, V>(a: Tree<K, V>, x: Item<K, V>, b: Tree<K, V>)
    requires a.Branch? && b.Branch? && Counted(a) && Counted(b)
    ensures var j, n := Join(a, x, b), |a.items|;
            && |j.kids| == |j.items| + 1 && j.kids[n] == a.kids[n]
            && Front(j.items, j.kids, n) == Front(a.items, a.kids, n)
            && Back(j.items, j.kids, n) == [x] + Flatten(b.kids[0]) + Back(b.items, b.kids, 0)
  {
    var j, n := Join(a, x, b), |a.items|;
    SameFront(a.items, a.kids, j.items, j.kids, n);
    SameBack(b.items, b.kids, 0, j.items, j.kids, n + 1);
  }

  // A node less its last or first item (and the child on that side), and what
  // goes along with that item.
  ghost function WithoutLast<K, V>(t: Tree<K, V>): Tree<K, V>
    requires |t.items| > 0 && Counted(t)
  {
    var n := |t.items| - 1;
    if t.Leaf? then Leaf(t.items[..n]) else Branch(t.items[..n], t.kids[..n + 1])
  }

  ghost function WithoutFirst<K, V>(t: Tree<K, V>): Tree<K, V>
    requires |t.items| > 0 && Counted(t)
  {
    if t.Leaf? then Leaf(t.items[1..]) else Branch(t.items[1..], t.kids[1..])
  }

  ghost function LastEdge<K, V>(t: Tree<K, V>): Tree<K, V>
    requires Counted(t)
  {
    if t.Leaf? then Leaf([]) else Branch([], [t.kids[|t.items|]])
  }

  ghost function FirstEdge<K, V>(t: Tree<K, V>): Tree<K, V>
    requires Counted(t)
  {
    if t.Leaf? then Leaf([]) else Branch([], [t.kids[0]])
  }

  lemma JoinFirstEdge<K, V>(a: Tree<K, V>, x: Item<K, V>, b: Tree<K, V>)
    requires SameKind(a, b) && Counted(b)
    ensures Join(a, x, FirstEdge(b))
         == if a.Leaf? then Leaf(a.items + [x]) else Branch(a.items + [x], a.kids + b.kids[..1])
  {
    assert a.items + [x] + [] == a.items + [x];
  }

  lemma JoinLastEdge<K, V>(a: Tree<K, V>, x: Item<K, V>, b: Tree<K, V>)
    requires SameKind(a, b) && Counted(a)
    ensures Join(LastEdge(a), x, b)
         == if a.Leaf? then Leaf([x] + b.items) else Branch([x] + b.items, a.kids[|a.items|..] + b.kids)
  {
    assert [] + [x] + b.items == [x] + b.items;
  }

  lemma LastJoin<K, V>(t: Tree<K, V>)
    requires Counted(t) && |t.items| > 0
    ensures t == Join(WithoutLast(t), t.items[|t.items| - 1], LastEdge(t))
  {
  }

  lemma FirstJoin<K, V>(t: Tree<K, V>)
    requires Counted(t) && |t.items| > 0
    ensures t == Join(FirstEdge(t), t.items[0], WithoutFirst(t))
  {
  }

  // The last item of the left neighbour goes up, the separator goes down right.
  lemma ShiftRightFlatten<K, V>(a: Tree<K, V>, x: Item<K, V>, b: Tree<K, V>)
    requires SameKind(a, b) && Counted(a) && Counted(b) && |a.items| > 0
    ensures Flatten(WithoutLast(a)) + [a.items[|a.items| - 1]] + Flatten(Join(LastEdge(a), x, b))
         == Flatten(a) + [x] + Flatten(b)
  {
    var y, e := a.items[|a.items| - 1], LastEdge(a);
    LastJoin(a);
    JoinFlatten(WithoutLast(a), y, e);
    JoinFlatten(e, x, b);
    Reassociate(Flatten(WithoutLast(a)), y, Flatten(e), x, Flatten(b));
  }

  lemma ShiftLeftFlatten<K, V>(a: Tree<K, V>, x: Item<K, V>, b: Tree<K, V>)
    requires SameKind(a, b) && Counted(a) && Counted(b) && |b.items| > 0
    ensures Flatten(Join(a, x, FirstEdge(b))) + [b.items[0]] + Flatten(WithoutFirst(b))
         == Flatten(a) + [x] + Flatten(b)
  {
    var y, e := b.items[0], FirstEdge(b);
    FirstJoin(b);
    JoinFlatten(e, y, WithoutFirst(b));
    JoinFlatten(a, x, e);
    Reassociate(Flatten(a), x, Flatten(e), y, Flatten(WithoutFirst(b)));
  }

  lemma Reassociate<T>(p: seq<T>, y: T, e: seq<T>, x: T, q: seq<T>)
    ensures (p + [y] + e) + [x] + q == p + [y] + (e + [x] + q)
  {
  }

  // ---------------- changing children of a branch ----------------

  // One child replaced.
  lemma ReplaceKid<K, V>(items: seq<Item<K, V>>, kids: seq<Tree<K, V>>, i: nat, kid: Tree<K, V>)
    requires |kids| == |items| + 1 && i <= |items|
    ensures Flatten(Branch(items, kids[i := kid]))
         == Front(items, kids, i) + Flatten(kid) + Back(items, kids, i)
  {
    var kids' := kids[i := kid];
    FlattenAround(items, kids', i);
    SameFront(items, kids, items, kids', i);
    SameBack(items, kids, i, items, kids', i);
  }

  // Two neighbours a, x, b at i in a branch.
  ghost predicate HasPair<K, V>(items: seq<Item<K, V>>, kids: seq<Tree<K, V>>, i: nat,
                                a: Tree<K, V>, x: Item<K, V>, b: Tree<K, V>)
  {
    && |kids| == |items| + 1 && i < |items|
    && kids[i] == a && items[i] == x && kids[i + 1] == b
  }

  lemma PairFlatten<K, V>(items: seq<Item<K, V>>, kids: seq<Tree<K, V>>, i: nat,
                          a: Tree<K, V>, x: Item<K, V>, b: Tree<K, V>)
    requires HasPair(items, kids, i, a, x, b)
    ensures Flatten(Branch(items, kids))
         == Front(items, kids, i) + (Flatten(a) + [x] + Flatten(b)) + Back(items, kids, i + 1)
  {
    FlattenAround(items, kids, i);
    Regroup(Front(items, kids, i), Flatten(a), x, Flatten(b), Back(items, kids, i + 1));
  }

  lemma Regroup<T>(f: seq<T>, a: seq<T>, x: T, b: seq<T>, k: seq<T>)
    ensures f + a + ([x] + b + k) == f + (a + [x] + b) + k
  {
  }

  // A pair replaced by another pair with the same contents (rotation).
  lemma ReplacePair<K, V>(items: seq<Item<K, V>>, kids: seq<Tree<K, V>>, i: nat,
                          a: Tree<K, V>, x: Item<K, V>, b: Tree<K, V>)
    requires |kids| == |items| + 1 && i < |items|
    requires Flatten(a) + [x] + Flatten(b) == Flatten(kids[i]) + [items[i]] + Flatten(kids[i + 1])
    ensures Flatten(Branch(items[i := x], kids[i := a][i + 1 := b])) == Flatten(Branch(items, kids))
  {
    PairFlatten(items, kids, i, kids[i], items[i], kids[i + 1]);
    AroundPair(items, kids, i, a, x, b);
    PairFlatten(items[i := x], kids[i := a][i + 1 := b], i, a, x, b);
  }

  lemma AroundPair<K, V>(items: seq<Item<K, V>>, kids: seq<Tree<K, V>>, i: nat,
                         a: Tree<K, V>, x: Item<K, V>, b: Tree<K, V>)
    requires |kids| == |items| + 1 && i < |items|
    ensures var items', kids' := items[i := x], kids[i := a][i + 1 := b];
            && HasPair(items', kids', i, a, x, b)
            && Front(items, kids, i) == Front(items', kids', i)
            && Back(items, kids, i + 1) == Back(items', kids', i + 1)
  {
    var items', kids' := items[i := x], kids[i := a][i + 1 := b];
    SameFront(items, kids, items', kids', i);
    SameBack(items, kids, i + 1, items', kids', i + 1);
  }

  // A child replaced by a pair (split), and read backwards a pair by a child (merge).
  lemma KidToPair<K, V>(items: seq<Item<K, V>>, kids: seq<Tree<K, V>>, i: nat,
                        a: Tree<K, V>, x: Item<K, V>, b: Tree<K, V>)
    requires |kids| == |items| + 1 && i <= |items|
    requires Flatten(a) + [x] + Flatten(b) == Flatten(kids[i])
    ensures Flatten(Branch(items[..i] + [x] + items[i..], kids[..i] + [a, b] + kids[i + 1..]))
         == Flatten(Branch(items, kids))
  {
    var items', kids' := items[..i] + [x] + items[i..], kids[..i] + [a, b] + kids[i + 1..];
    FlattenAround(items, kids, i);
    PairFlatten(items', kids', i, a, x, b);
    SameFront(items, kids, items', kids', i);
    SameBack(items, kids, i, items', kids', i + 1);
  }

  // ---------------- shape ----------------

  ghost predicate Filled<K, V>(t: Tree<K, V>) {
    LEAST_ITEMS <= |t.items| <= MAX_ITEMS
  }

  // All leaves at depth `height`, n + 1 children per branch, and below the
  // node itself every node holds between LEAST_ITEMS and MAX_ITEMS items.
  ghost predicate Shape<K, V>(t: Tree<K, V>, height: nat) {
    match t
    case Leaf(_) => height == 1
    case Branch(items, kids) =>
      && height > 1 && |kids| == |items| + 1
      && forall i :: 0 <= i < |kids| ==> Shape(kids[i], height - 1) && Filled(kids[i])
  }

  ghost predicate RootShape<K, V>(t: Tree<K, V>, height: nat) {
    Shape(t, height) && 1 <= |t.items| <= MAX_ITEMS
  }

  // ---------------- rebalancing ----------------

  // The neighbours rebalanced when child i ran low.
  function PairAt<K, V>(t: Tree<K, V>, i: nat): nat
    requires 0 < |t.items|
  {
    if i == |t.items| then i - 1 else i
  }

  ghost function Merged<K, V>(t: Tree<K, V>, i: nat): Tree<K, V>
    requires t.Branch? && Counted(t) && i < |t.items| && SameKind(t.kids[i], t.kids[i + 1])
  {
    Branch(RemoveAt(t.items, i), t.kids[..i] + [Join(t.kids[i], t.items[i], t.kids[i + 1])] + t.kids[i + 2..])
  }

  ghost function WithPair<K, V>(t: Tree<K, V>, i: nat, a: Tree<K, V>, x: Item<K, V>, b: Tree<K, V>): Tree<K, V>
    requires t.Branch? && Counted(t) && i < |t.items|
  {
    Branch(t.items[i := x], t.kids[i := a][i + 1 := b])
  }

  // Merge when both fit in one node, else move an item from the fuller neighbour.
  ghost function Rebalanced<K, V>(t: Tree<K, V>, i: nat): Tree<K, V>
    requires t.Branch? && Counted(t) && i < |t.items|
    requires SameKind(t.kids[i], t.kids[i + 1]) && Counted(t.kids[i]) && Counted(t.kids[i + 1])
  {
    var a, x, b := t.kids[i], t.items[i], t.kids[i + 1];
    if |a.items| + |b.items| < MAX_ITEMS then Merged(t, i)
    else if |a.items| > |b.items| then
      WithPair(t, i, WithoutLast(a), a.items[|a.items| - 1], Join(LastEdge(a), x, b))
    else
      WithPair(t, i, Join(a, x, FirstEdge(b)), b.items[0], WithoutFirst(b))
  }

  lemma MergedFlatten<K, V>(t: Tree<K, V>, i: nat)
    requires t.Branch? && Counted(t) && i < |t.items|
    requires SameKind(t.kids[i], t.kids[i + 1]) && Counted(t.kids[i]) && Counted(t.kids[i + 1])
    ensures Flatten(Merged(t, i)) == Flatten(t)
  {
    var m := Merged(t, i);
    JoinFlatten(t.kids[i], t.items[i], t.kids[i + 1]);
    KidToPair(m.items, m.kids, i, t.kids[i], t.items[i], t.kids[i + 1]);
    PutBack(t.items, i);
    PutPairBack(t.kids, i, m.kids[i]);
  }

  lemma PutBack<T>(s: seq<T>, i: nat)
    requires i < |s|
    ensures var r := RemoveAt(s, i); r[..i] + [s[i]] + r[i..] == s
  {
  }

  lemma PutPairBack<T>(s: seq<T>, i: nat, x: T)
    requires i + 1 < |s|
    ensures var r := s[..i] + [x] + s[i + 2..];
            r[..i] + [s[i], s[i + 1]] + r[i + 1..] == s
  {
  }

  // Rebalancing moves items between nodes and keeps their order.
  lemma RebalancedFlatten<K, V>(t: Tree<K, V>, i: nat)
    requires t.Branch? && Counted(t) && i < |t.items|
    requires SameKind(t.kids[i], t.kids[i + 1]) && Counted(t.kids[i]) && Counted(t.kids[i + 1])
    ensures Flatten(Rebalanced(t, i)) == Flatten(t)
  {
    var a, x, b := t.kids[i], t.items[i], t.kids[i + 1];
    if |a.items| + |b.items| < MAX_ITEMS {
      MergedFlatten(t, i);
    } else if |a.items| > |b.items| {
      ShiftRightFlatten(a, x, b);
      ReplacePair(t.items, t.kids, i, WithoutLast(a), a.items[|a.items| - 1], Join(LastEdge(a), x, b));
    } else {
      ShiftLeftFlatten(a, x, b);
      ReplacePair(t.items, t.kids, i, Join(a, x, FirstEdge(b)), b.items[0], WithoutFirst(b));
    }
  }

  // The shape after a deletion: child i may be one item short.
  ghost predicate ShapeButOne<K, V>(t: Tree<K, V>, height: nat, i: nat) {
    && t.Branch? && height > 1 && |t.kids| == |t.items| + 1 && i < |t.kids|
    && (forall j :: 0 <= j < |t.kids| ==> Shape(t.kids[j], height - 1))
    && (forall j :: 0 <= j < |t.kids| && j != i ==> Filled(t.kids[j]))
    && LEAST_ITEMS - 1 <= |t.kids[i].items| <= MAX_ITEMS
  }

  lemma JoinShape<K, V>(a: Tree<K, V>, x: Item<K, V>, b: Tree<K, V>, height: nat)
    requires Shape(a, height) && Shape(b, height)
    ensures SameKind(a, b) && Shape(Join(a, x, b), height) && |Join(a, x, b).items| == |a.items| + 1 + |b.items|
  {
  }

  lemma EdgeShape<K, V>(t: Tree<K, V>, height: nat)
    requires Shape(t, height)
    ensures Counted(t) && Shape(LastEdge(t), height) && Shape(FirstEdge(t), height)
    ensures |t.items| > 0 ==> Shape(WithoutLast(t), height) && Shape(WithoutFirst(t), height)
  {
  }

  // Rebalancing a child that ran low restores the shape; the parent loses at
  // most one item.
  lemma RebalancedShape<K, V>(t: Tree<K, V>, height: nat, i: nat)
    requires ShapeButOne(t, height, i) && 0 < |t.items| && |t.kids[i].items| < MIN_ITEMS
    ensures var p := PairAt(t, i);
            && SameKind(t.kids[p], t.kids[p + 1]) && Counted(t.kids[p]) && Counted(t.kids[p + 1])
            && Shape(Rebalanced(t, p), height)
            && |t.items| - 1 <= |Rebalanced(t, p).items| <= |t.items|
  {
    var p := PairAt(t, i);
    PairFacts(t, height, i);
    hide Shape, Merged, WithPair;
    var a, b := t.kids[p], t.kids[p + 1];
    if |a.items| + |b.items| < MAX_ITEMS {
      MergedShape(t, height, i, p);
    } else if |a.items| > |b.items| {
      RotatedRight(t, height, i, p);
    } else {
      RotatedLeft(t, height, i, p);
    }
  }

  // The child that ran low and its neighbour.
  lemma PairFacts<K, V>(t: Tree<K, V>, height: nat, i: nat)
    requires ShapeButOne(t, height, i) && 0 < |t.items| && |t.kids[i].items| < MIN_ITEMS
    ensures Counted(t) && PairAt(t, i) < |t.items| && PairAt(t, i) <= i <= PairAt(t, i) + 1
    ensures var a, b := t.kids[PairAt(t, i)], t.kids[PairAt(t, i) + 1];
            && Shape(a, height - 1) && Shape(b, height - 1) && SameKind(a, b) && Counted(a) && Counted(b)
            && LEAST_ITEMS - 1 <= |a.items| <= MAX_ITEMS && LEAST_ITEMS - 1 <= |b.items| <= MAX_ITEMS
            && (|a.items| < MIN_ITEMS || |b.items| < MIN_ITEMS) && 2 * LEAST_ITEMS - 1 <= |a.items| + |b.items|
  {
  }

  lemma RotatedRight<K, V>(t: Tree<K, V>, height: nat, i: nat, p: nat)
    requires ShapeButOne(t, height, i) && p < |t.items| && p <= i <= p + 1
    requires var a, b := t.kids[p], t.kids[p + 1];
             && Shape(a, height - 1) && Shape(b, height - 1) && SameKind(a, b) && Counted(a) && Counted(b)
             && LEAST_ITEMS < |a.items| <= MAX_ITEMS && LEAST_ITEMS - 1 <= |b.items| < MAX_ITEMS
    ensures var a, b := t.kids[p], t.kids[p + 1];
            var t' := WithPair(t, p, WithoutLast(a), a.items[|a.items| - 1], Join(LastEdge(a), t.items[p], b));
            Shape(t', height) && |t'.items| == |t.items|
  {
    hide Shape, WithPair, Join, LastEdge, WithoutLast;
    var a, x, b := t.kids[p], t.items[p], t.kids[p + 1];
    EdgeShape(a, height - 1);
    EdgeSize(a);
    JoinShape(LastEdge(a), x, b, height - 1);
    PairShape(t, height, i, p, WithoutLast(a), a.items[|a.items| - 1], Join(LastEdge(a), x, b));
  }

  lemma RotatedLeft<K, V>(t: Tree<K, V>, height: nat, i: nat, p: nat)
    requires ShapeButOne(t, height, i) && p < |t.items| && p <= i <= p + 1
    requires var a, b := t.kids[p], t.kids[p + 1];
             && Shape(a, height - 1) && Shape(b, height - 1) && SameKind(a, b) && Counted(a) && Counted(b)
             && LEAST_ITEMS - 1 <= |a.items| < MAX_ITEMS && LEAST_ITEMS < |b.items| <= MAX_ITEMS
    ensures var a, b := t.kids[p], t.kids[p + 1];
            var t' := WithPair(t, p, Join(a, t.items[p], FirstEdge(b)), b.items[0], WithoutFirst(b));
            Shape(t', height) && |t'.items| == |t.items|
  {
    hide Shape, WithPair, Join, FirstEdge, WithoutFirst;
    var a, x, b := t.kids[p], t.items[p], t.kids[p + 1];
    EdgeShape(b, height - 1);
    EdgeSize(b);
    JoinShape(a, x, FirstEdge(b), height - 1);
    PairShape(t, height, i, p, Join(a, x, FirstEdge(b)), b.items[0], WithoutFirst(b));
  }

  lemma EdgeSize<K, V>(t: Tree<K, V>)
    requires Counted(t) && |t.items| > 0
    ensures |WithoutLast(t).items| == |WithoutFirst(t).items| == |t.items| - 1
    ensures |LastEdge(t).items| == |FirstEdge(t).items| == 0
  {
  }

  lemma PairShape<K, V>(t: Tree<K, V>, height: nat, i: nat, p: nat, a: Tree<K, V>, x: Item<K, V>, b: Tree<K, V>)
    requires ShapeButOne(t, height, i) && p < |t.items| && p <= i <= p + 1
    requires Shape(a, height - 1) && Filled(a) && Shape(b, height - 1) && Filled(b)
    ensures Shape(WithPair(t, p, a, x, b), height) && |WithPair(t, p, a, x, b).items| == |t.items|
  {
  }

  lemma MergedShape<K, V>(t: Tree<K, V>, height: nat, i: nat, p: nat)
    requires ShapeButOne(t, height, i) && p < |t.items| && p <= i <= p + 1 && SameKind(t.kids[p], t.kids[p + 1])
    requires Shape(t.kids[p], height - 1) && Shape(t.kids[p + 1], height - 1)
    requires LEAST_ITEMS <= |t.kids[p].items| + 1 + |t.kids[p + 1].items| <= MAX_ITEMS
    ensures Shape(Merged(t, p), height) && |Merged(t, p).items| == |t.items| - 1
  {
    var t' := Merged(t, p);
    JoinShape(t.kids[p], t.items[p], t.kids[p + 1], height - 1);
    hide Join;
    forall k | 0 <= k < |t'.kids|
      ensures Shape(t'.kids[k], height - 1) && Filled(t'.kids[k])
    {
      if k < p {
        assert t'.kids[k] == t.kids[k];
      } else if k > p {
        assert t'.kids[k] == t.kids[k + 1];
      }
    }
  }

  // ---------------- the search path ----------------

  // The child the search descends into.
  ghost function Towards<K, V>(cmp: (K, K) -> int, t: Tree<K, V>, key: K): Tree<K, V>
    requires t.Branch? && Counted(t)
  {
    t.kids[LowerBound(cmp, t.items, key)]
  }

  // The key is on no node of the search path and every one of them is full.
  ghost predicate PathFull<K, V>(cmp: (K, K) -> int, t: Tree<K, V>, key: K) {
    && |t.items| == MAX_ITEMS && !Has(cmp, t.items, key)
    && (t.Branch? && Counted(t) ==> PathFull(cmp, Towards(cmp, t, key), key))
  }

  // How the contents of a branch lie around a key that none of its own items has.
  lemma Descend<K(!new), V(!new)>(cmp: (K, K) -> int, t: Tree<K, V>, key: K)
    requires TotalOrder(cmp) && t.Branch? && Counted(t) && Sorted(cmp, Flatten(t))
    requires !Has(cmp, t.items, key)
    ensures var i := LowerBound(cmp, t.items, key);
            && AllBelow(cmp, Front(t.items, t.kids, i), key)
            && AllAbove(cmp, Back(t.items, t.kids, i), key)
            && Sorted(cmp, Flatten(t.kids[i]))
  {
    var i := LowerBound(cmp, t.items, key);
    var f, m, b := Front(t.items, t.kids, i), Flatten(t.kids[i]), Back(t.items, t.kids, i);
    FlattenAround(t.items, t.kids, i);
    SortedParts(cmp, f, m, b);
    if i > 0 {
      assert f[|f| - 1] == t.items[i - 1];
      Behind(cmp, f, key, |f| - 1);
      assert f[..|f| - 1] + [f[|f| - 1]] == f;
    }
    if i < |t.items| {
      assert b[0] == t.items[i];
      Behind(cmp, b, key, 0);
      assert [b[0]] + b[1..] == b;
    }
  }

  // A node item is found at the front of its place in the contents.
  lemma FoundHere<K(!new), V(!new)>(cmp: (K, K) -> int, t: Tree<K, V>, key: K)
    requires TotalOrder(cmp) && t.Branch? && Counted(t) && Sorted(cmp, Flatten(t))
    requires Has(cmp, t.items, key)
    ensures var i := LowerBound(cmp, t.items, key);
            var p := |Front(t.items, t.kids, i)| + |Flatten(t.kids[i])|;
            && p < |Flatten(t)| && Flatten(t)[p] == t.items[i]
            && Has(cmp, Flatten(t), key) && LowerBound(cmp, Flatten(t), key) == p
  {
    var i := LowerBound(cmp, t.items, key);
    var s := Flatten(t);
    FlattenAround(t.items, t.kids, i);
    var p := |Front(t.items, t.kids, i)| + |Flatten(t.kids[i])|;
    assert s[p] == t.items[i];
    Behind(cmp, s, key, p);
    LowerBoundAt(cmp, s, key, p);
  }

  // The items of a node of a sorted tree are sorted.
  lemma {:induction false} FrontHolds<K, V>(items: seq<Item<K, V>>, kids: seq<Tree<K, V>>, i: nat, j: nat) returns (p: nat)
    requires |kids| == |items| + 1 && j < i <= |items|
    ensures p < |Front(items, kids, i)| && Front(items, kids, i)[p] == items[j]
    ensures p >= |Front(items, kids, j)|
    decreases i
  {
    if j == i - 1 {
      p := |Front(items, kids, i)| - 1;
    } else {
      p := FrontHolds(items, kids, i - 1, j);
    }
  }

  lemma NodeSorted<K, V>(cmp: (K, K) -> int, t: Tree<K, V>)
    requires Counted(t) && Sorted(cmp, Flatten(t))
    ensures Sorted(cmp, t.items)
  {
    if t.Branch? {
      var s := Flatten(t);
      forall i, j | 0 <= i < j < |t.items|
        ensures cmp(t.items[i].key, t.items[j].key) < 0
      {
        FlattenAround(t.items, t.kids, j + 1);
        FlattenAround(t.items, t.kids, j);
        var p := FrontHolds(t.items, t.kids, j, i);
        var q := |Front(t.items, t.kids, j + 1)| - 1;
        assert s[p] == t.items[i] && s[q] == t.items[j];
      }
    }
  }

  // ---------------- how much a tree must hold ----------------

  function Power(b: nat, n: nat): nat {
    if n == 0 then 1 else b * Power(b, n - 1)
  }

  lemma {:induction false} FrontLeast<K, V>(items: seq<Item<K, V>>, kids: seq<Tree<K, V>>, i: nat, least: nat)
    requires |kids| == |items| + 1 && i <= |items|
    requires forall j :: 0 <= j < |kids| ==> |Flatten(kids[j])| >= least
    ensures |Front(items, kids, i)| >= i * (least + 1)
    decreases i
  {
    if i > 0 {
      FrontLeast(items, kids, i - 1, least);
    }
  }

  // Below a non-root node of this height there are at least this many items.
  lemma {:induction false} LeastContents<K, V>(t: Tree<K, V>, height: nat)
    requires Shape(t, height) && Filled(t)
    ensures height >= 1 && |Flatten(t)| + 1 >= Power(LEAST_ITEMS + 1, height)
    decreases height
  {
    match t
    case Leaf(_) => assert Power(LEAST_ITEMS + 1, 1) == (LEAST_ITEMS + 1) * Power(LEAST_ITEMS + 1, 0);
    case Branch(items, kids) =>
      PowerMono(LEAST_ITEMS + 1, 0, height - 1);
      var least: nat := Power(LEAST_ITEMS + 1, height - 1) - 1;
      forall j | 0 <= j < |kids| ensures |Flatten(kids[j])| >= least {
        LeastContents(kids[j], height - 1);
      }
      FrontLeast(items, kids, |items|, least);
      Grown(|Front(items, kids, |items|)|, |Flatten(kids[|items|])|, |items|, least);
  }

  lemma Grown(front: nat, last: nat, n: nat, least: nat)
    requires front >= n * (least + 1) && last >= least && n >= LEAST_ITEMS
    ensures front + last + 1 >= (LEAST_ITEMS + 1) * (least + 1)
  {
    assert n * (least + 1) >= LEAST_ITEMS * (least + 1);
  }

  lemma {:induction false} PowerMono(b: nat, m: nat, n: nat)
    requires 1 <= b && m <= n
    ensures 1 <= Power(b, m) <= Power(b, n)
    decreases n
  {
    if m < n {
      PowerMono(b, m, n - 1);
    } else if n > 0 {
      PowerMono(b, m - 1, n - 1);
    }
  }

  // A tree of fewer than 2^32 items has height at most 7, well inside the
  // 16 entries of an iterator stack.
  lemma HeightBound<K, V>(t: Tree<K, V>, height: nat)
    requires RootShape(t, height)
    requires |Flatten(t)| < 0x1_0000_0000
    ensures 1 <= height <= 7
  {
    if t.Branch? {
      LeastContents(t.kids[0], height - 1);
      LeastContents(t.kids[1], height - 1);
      FlattenAround(t.items, t.kids, 1);
      assert Front(t.items, t.kids, 1) == Front(t.items, t.kids, 0) + Flatten(t.kids[0]) + [t.items[0]];
      assert |Flatten(t)| + 1 >= 2 * Power(LEAST_ITEMS + 1, height - 1);
      if height >= 8 {
        PowerMono(32, 7, height - 1);
        SeventhPower();
      }
    }
  }

  lemma SeventhPower()
    ensures Power(32, 7) == 0x8_0000_0000
  {
    assert Power(32, 3) == 0x8000;
    assert Power(32, 5) == 0x200_0000;
  }

  // ---------------- one step of insertion, on values ----------------

  // An item of a branch replaced: the contents change in that one place.
  lemma ReplaceHere<K, V>(items: seq<Item<K, V>>, kids: seq<Tree<K, V>>, i: nat, x: Item<K, V>)
    requires |kids| == |items| + 1 && i < |items|
    ensures var p := |Front(items, kids, i)| + |Flatten(kids[i])|;
            && p < |Flatten(Branch(items, kids))|
            && Flatten(Branch(items[i := x], kids)) == Flatten(Branch(items, kids))[p := x]
  {
    var items' := items[i := x];
    FrontOfReplaced(items, kids, i, x);
    PairFlatten(items, kids, i, kids[i], items[i], kids[i + 1]);
    PairFlatten(items', kids, i, kids[i], x, kids[i + 1]);
    ReplaceMiddle(Front(items, kids, i), Flatten(kids[i]), items[i], Flatten(kids[i + 1]), Back(items, kids, i + 1), x);
  }

  lemma FrontOfReplaced<K, V>(items: seq<Item<K, V>>, kids: seq<Tree<K, V>>, i: nat, x: Item<K, V>)
    requires |kids| == |items| + 1 && i < |items|
    ensures Front(items[i := x], kids, i) == Front(items, kids, i)
    ensures Back(items[i := x], kids, i + 1) == Back(items, kids, i + 1)
  {
    SameFront(items, kids, items[i := x], kids, i);
    SameBack(items, kids, i + 1, items[i := x], kids, i + 1);
  }

  lemma ReplaceMiddle<T>(f: seq<T>, a: seq<T>, x: T, b: seq<T>, k: seq<T>, y: T)
    ensures |f| + |a| < |f + (a + [x] + b) + k|
    ensures (f + (a + [x] + b) + k)[|f| + |a| := y] == f + (a + [y] + b) + k
  {
  }

  // Replacing the found item of a branch is the insertion.
  lemma UpsertHere<K(!new), V(!new)>(cmp: (K, K) -> int, t: Tree<K, V>, item: Item<K, V>)
    requires TotalOrder(cmp) && t.Branch? && Counted(t) && Sorted(cmp, Flatten(t))
    requires Has(cmp, t.items, item.key)
    ensures Has(cmp, Flatten(t), item.key)
    ensures Flatten(Branch(t.items[LowerBound(cmp, t.items, item.key) := item], t.kids))
         == Upsert(cmp, Flatten(t), item)
  {
    FoundHere(cmp, t, item.key);
    ReplaceHere(t.items, t.kids, LowerBound(cmp, t.items, item.key), item);
  }

  // Inserting into the child on the path is the insertion.
  lemma UpsertBelow<K(!new), V(!new)>(cmp: (K, K) -> int, t: Tree<K, V>, item: Item<K, V>, kid: Tree<K, V>)
    requires TotalOrder(cmp) && t.Branch? && Counted(t) && Sorted(cmp, Flatten(t))
    requires !Has(cmp, t.items, item.key)
    requires Flatten(kid) == Upsert(cmp, Flatten(Towards(cmp, t, item.key)), item)
    ensures Flatten(Branch(t.items, t.kids[LowerBound(cmp, t.items, item.key) := kid]))
         == Upsert(cmp, Flatten(t), item)
    ensures Has(cmp, Flatten(t), item.key) <==> Has(cmp, Flatten(Towards(cmp, t, item.key)), item.key)
  {
    var i := LowerBound(cmp, t.items, item.key);
    Descend(cmp, t, item.key);
    FlattenAround(t.items, t.kids, i);
    ReplaceKid(t.items, t.kids, i, kid);
    UpsertWithin(cmp, Front(t.items, t.kids, i), Flatten(t.kids[i]), Back(t.items, t.kids, i), item);
    LowerBoundWithin(cmp, Front(t.items, t.kids, i), Flatten(t.kids[i]), Back(t.items, t.kids, i), item.key);
  }

  // A branch whose child i was split in two.
  ghost function WithSplit<K, V>(t: Tree<K, V>, i: nat, a: Tree<K, V>, x: Item<K, V>, b: Tree<K, V>): Tree<K, V>
    requires t.Branch? && Counted(t) && i < |t.kids|
  {
    Branch(t.items[..i] + [x] + t.items[i..], t.kids[..i] + [a, b] + t.kids[i + 1..])
  }

  // Splitting the child on the path keeps contents and shape, and leaves a
  // child on the path that is not full: the retry cannot ask for a split again.
  lemma SplitBelow<K, V>(cmp: (K, K) -> int, t: Tree<K, V>, height: nat, key: K,
                                     a: Tree<K, V>, x: Item<K, V>, b: Tree<K, V>)
    requires t.Branch? && Shape(t, height) && !Has(cmp, t.items, key)
    requires SameKind(a, b) && Counted(a) && Counted(b)
    requires Towards(cmp, t, key) == Join(a, x, b)
    requires |a.items| == MAX_ITEMS / 2 && |b.items| == LEAST_ITEMS
    ensures var t' := WithSplit(t, LowerBound(cmp, t.items, key), a, x, b);
            && Counted(t') && Flatten(t') == Flatten(t) && Shape(t', height)
            && !PathFull(cmp, Towards(cmp, t', key), key)
  {
    hide Flatten, LowerBound, PathFull, Has, Shape;
    var i := LowerBound(cmp, t.items, key);
    BelowShape(cmp, t, height, key);
    JoinFlatten(a, x, b);
    KidToPair(t.items, t.kids, i, a, x, b);
    SplitShape(a, x, b, height - 1);
    WithSplitShape(t, height, i, a, x, b);
    SlotAfterSplit(cmp, t.items, key, x);
    NotFull(cmp, a, key);
    NotFull(cmp, b, key);
  }

  lemma BelowShape<K, V>(cmp: (K, K) -> int, t: Tree<K, V>, height: nat, key: K)
    requires t.Branch? && Shape(t, height)
    ensures height > 1 && Counted(t) && LowerBound(cmp, t.items, key) < |t.kids| && Shape(Towards(cmp, t, key), height - 1)
  {
  }

  lemma NotFull<K, V>(cmp: (K, K) -> int, t: Tree<K, V>, key: K)
    requires |t.items| < MAX_ITEMS
    ensures !PathFull(cmp, t, key)
  {
  }

  lemma WithSplitShape<K, V>(t: Tree<K, V>, height: nat, i: nat, a: Tree<K, V>, x: Item<K, V>, b: Tree<K, V>)
    requires t.Branch? && Shape(t, height) && i < |t.kids|
    requires Shape(a, height - 1) && Filled(a) && Shape(b, height - 1) && Filled(b)
    ensures var t' := WithSplit(t, i, a, x, b);
            Counted(t') && Shape(t', height) && t'.kids[i] == a && t'.kids[i + 1] == b
  {
    var t' := WithSplit(t, i, a, x, b);
    forall j | 0 <= j < |t'.kids|
      ensures Shape(t'.kids[j], height - 1) && Filled(t'.kids[j])
    {
      if j < i {
        assert t'.kids[j] == t.kids[j];
      } else if j > i + 1 {
        assert t'.kids[j] == t.kids[j - 1];
      }
    }
  }

  // A key that was to go left of items[i] goes just left or right of an item put there.
  lemma SlotAfterSplit<K, V>(cmp: (K, K) -> int, items: seq<Item<K, V>>, key: K, x: Item<K, V>)
    ensures var i := LowerBound(cmp, items, key);
            i <= LowerBound(cmp, items[..i] + [x] + items[i..], key) <= i + 1
  {
    var i := LowerBound(cmp, items, key);
    var items' := items[..i] + [x] + items[i..];
    var q := LowerBound(cmp, items', key);
    assert i < |items| ==> items'[i + 1] == items[i];
    assert forall j :: 0 <= j < i ==> items'[j] == items[j];
  }

  lemma SplitShape<K, V>(a: Tree<K, V>, x: Item<K, V>, b: Tree<K, V>, height: nat)
    requires SameKind(a, b) && Counted(a) && Counted(b) && Shape(Join(a, x, b), height)
    ensures Shape(a, height) && Shape(b, height)
  {
    if a.Branch? {
      var j := Join(a, x, b);
      assert forall i :: 0 <= i < |a.kids| ==> a.kids[i] == j.kids[i];
      assert forall i :: 0 <= i < |b.kids| ==> b.kids[i] == j.kids[|a.kids| + i];
    }
  }

  // ---------------- one step of deletion, on values ----------------

  // Deleting inside a child is deleting at the shifted position.
  lemma RemoveBelow<K, V>(items: seq<Item<K, V>>, kids: seq<Tree<K, V>>, i: nat, kid: Tree<K, V>, q: nat)
    requires |kids| == |items| + 1 && i < |kids| && q < |Flatten(kids[i])|
    requires Flatten(kid) == RemoveAt(Flatten(kids[i]), q)
    ensures var p := |Front(items, kids, i)| + q;
            && p < |Flatten(Branch(items, kids))|
            && Flatten(Branch(items, kids))[p] == Flatten(kids[i])[q]
            && Flatten(Branch(items, kids[i := kid])) == RemoveAt(Flatten(Branch(items, kids)), p)
  {
    FlattenAround(items, kids, i);
    ReplaceKid(items, kids, i, kid);
    RemoveAtWithin(Front(items, kids, i), Flatten(kids[i]), Back(items, kids, i), q);
  }

  // The item before items[i] in order takes its place: items[i] is gone.
  lemma RemoveHere<K, V>(items: seq<Item<K, V>>, kids: seq<Tree<K, V>>, i: nat, kid: Tree<K, V>, x: Item<K, V>)
    requires |kids| == |items| + 1 && i < |items|
    requires Flatten(kids[i]) == Flatten(kid) + [x]
    ensures var p := |Front(items, kids, i)| + |Flatten(kids[i])|;
            && p < |Flatten(Branch(items, kids))|
            && Flatten(Branch(items[i := x], kids[i := kid])) == RemoveAt(Flatten(Branch(items, kids)), p)
  {
    var f, b := Front(items, kids, i), Back(items, kids, i + 1);
    PairFlatten(items, kids, i, kids[i], items[i], kids[i + 1]);
    FrontOfReplaced(items, kids, i, x);
    AroundPair(items, kids, i, kid, x, kids[i + 1]);
    PairFlatten(items[i := x], kids[i := kid][i + 1 := kids[i + 1]], i, kid, x, kids[i + 1]);
    assert kids[i := kid][i + 1 := kids[i + 1]] == kids[i := kid];
    DropMiddle(f, Flatten(kid), x, items[i], Flatten(kids[i + 1]), b);
  }

  lemma DropMiddle<T>(f: seq<T>, k: seq<T>, x: T, y: T, c: seq<T>, b: seq<T>)
    ensures var s := f + (k + [x] + [y] + c) + b;
            && |f| + |k| + 1 < |s|
            && RemoveAt(s, |f| + |k| + 1) == f + (k + [x] + c) + b
  {
  }

  // A filled subtree is never empty.
  lemma {:induction false} NonEmpty<K, V>(t: Tree<K, V>, height: nat)
    requires Shape(t, height) && 1 <= |t.items|
    ensures |Flatten(t)| >= 1
  {
    if t.Branch? {
      FlattenAround(t.items, t.kids, 0);
    }
  }

  // The last child holds the last item, the first child the first.
  lemma LastBelow<K, V>(items: seq<Item<K, V>>, kids: seq<Tree<K, V>>)
    requires |kids| == |items| + 1
    ensures |Flatten(Branch(items, kids))| == |Front(items, kids, |items|)| + |Flatten(kids[|items|])|
    ensures |Front(items, kids, 0)| == 0
  {
  }

  lemma ShapeButOneAt<K, V>(t: Tree<K, V>, height: nat, i: nat, items: seq<Item<K, V>>, kid: Tree<K, V>)
    requires t.Branch? && Shape(t, height) && i < |t.kids| && |items| == |t.items|
    requires Shape(kid, height - 1) && |t.kids[i].items| - 1 <= |kid.items| <= |t.kids[i].items|
    ensures ShapeButOne(Branch(items, t.kids[i := kid]), height, i)
  {
  }
}
