// An ordered map as the strictly sorted sequence of its items: what a search
// tree must behave like, whatever its shape.
//
// Keys are compared by a caller-supplied function.  Keys that compare equal
// count as the same key, even when they are different values.
module OrderedSeq {
  datatype Item<K, V> = Item(key: K, val: V)

  datatype Option<T> = None | Some(value: T)

  ghost predicate TotalOrder<K(!new)>(cmp: (K, K) -> int) {
    && (forall a :: cmp(a, a) == 0)
    && (forall a, b :: cmp(a, b) < 0 <==> cmp(b, a) > 0)
    && (forall a, b, c {:trigger Compare(a, b, c)} ::
          Compare(a, b, c) && cmp(a, b) <= 0 && cmp(b, c) <= 0 ==> cmp(a, c) <= 0)
  }

  // Always true; naming three keys in a proof lets the verifier chain them.
  ghost predicate Compare<K>(a: K, b: K, c: K) { true }

  ghost predicate Sorted<K, V>(cmp: (K, K) -> int, s: seq<Item<K, V>>) {
    forall i, j :: 0 <= i < j < |s| ==> cmp(s[i].key, s[j].key) < 0
  }

  // Every item comes before / after the key.
  ghost predicate AllBelow<K, V>(cmp: (K, K) -> int, s: seq<Item<K, V>>, key: K) {
    forall i :: 0 <= i < |s| ==> cmp(key, s[i].key) > 0
  }

  ghost predicate AllAbove<K, V>(cmp: (K, K) -> int, s: seq<Item<K, V>>, key: K) {
    forall i :: 0 <= i < |s| ==> cmp(key, s[i].key) < 0
  }

  // Where the key is, or where it would go.
  ghost function LowerBound<K, V>(cmp: (K, K) -> int, s: seq<Item<K, V>>, key: K): (p: nat)
    ensures p <= |s|
    ensures forall i :: 0 <= i < p ==> cmp(key, s[i].key) > 0
    ensures p < |s| ==> cmp(key, s[p].key) <= 0
  {
    LowerBoundFrom(cmp, s, key, 0)
  }

  ghost function LowerBoundFrom<K, V>(cmp: (K, K) -> int, s: seq<Item<K, V>>, key: K, from: nat): (p: nat)
    requires from <= |s|
    ensures from <= p <= |s|
    ensures forall i :: from <= i < p ==> cmp(key, s[i].key) > 0
    ensures p < |s| ==> cmp(key, s[p].key) <= 0
    decreases |s| - from
  {
    if from == |s| || cmp(key, s[from].key) <= 0 then from else LowerBoundFrom(cmp, s, key, from + 1)
  }

  ghost predicate Has<K, V>(cmp: (K, K) -> int, s: seq<Item<K, V>>, key: K) {
    var p := LowerBound(cmp, s, key);
    p < |s| && cmp(key, s[p].key) == 0
  }

  ghost function Lookup<K, V>(cmp: (K, K) -> int, s: seq<Item<K, V>>, key: K): Option<Item<K, V>> {
    if Has(cmp, s, key) then Some(s[LowerBound(cmp, s, key)]) else None
  }

  // Insert, or replace the item whose key compares equal, key and value both.
  ghost function Upsert<K, V>(cmp: (K, K) -> int, s: seq<Item<K, V>>, item: Item<K, V>): seq<Item<K, V>> {
    var p := LowerBound(cmp, s, item.key);
    if Has(cmp, s, item.key) then s[p := item] else s[..p] + [item] + s[p..]
  }

  ghost function RemoveAt<T>(s: seq<T>, p: nat): seq<T>
    requires p < |s|
  {
    s[..p] + s[p + 1..]
  }

  ghost function Remove<K, V>(cmp: (K, K) -> int, s: seq<Item<K, V>>, key: K): seq<Item<K, V>> {
    if Has(cmp, s, key) then RemoveAt(s, LowerBound(cmp, s, key)) else s
  }

  lemma RemoveNone<K, V>(cmp: (K, K) -> int, s: seq<Item<K, V>>, key: K)
    requires s == []
    ensures !Has(cmp, s, key) && Remove(cmp, s, key) == s
  {
  }

  // ---------------- order facts ----------------

  lemma Chain<K(!new)>(cmp: (K, K) -> int, a: K, b: K, c: K)
    requires TotalOrder(cmp)
    ensures cmp(a, b) <= 0 && cmp(b, c) <= 0 ==> cmp(a, c) <= 0
    ensures cmp(a, b) < 0 && cmp(b, c) <= 0 ==> cmp(a, c) < 0
    ensures cmp(a, b) <= 0 && cmp(b, c) < 0 ==> cmp(a, c) < 0
  {
    assert Compare(a, b, c) && Compare(b, c, a) && Compare(c, a, b);
  }

  lemma Behind<K(!new), V(!new)>(cmp: (K, K) -> int, s: seq<Item<K, V>>, key: K, i: nat)
    requires TotalOrder(cmp) && Sorted(cmp, s) && i < |s|
    ensures cmp(key, s[i].key) <= 0 ==> AllAbove(cmp, s[i + 1..], key)
    ensures cmp(key, s[i].key) >= 0 ==> AllBelow(cmp, s[..i], key)
  {
    forall j | 0 <= j < |s|
      ensures cmp(key, s[i].key) <= 0 && i < j ==> cmp(key, s[j].key) < 0
      ensures cmp(key, s[i].key) >= 0 && j < i ==> cmp(key, s[j].key) > 0
    {
      if i < j {
        assert cmp(s[i].key, s[j].key) < 0;
      } else if j < i {
        assert cmp(s[j].key, s[i].key) < 0;
      }
      Chain(cmp, key, s[i].key, s[j].key);
      Chain(cmp, s[j].key, s[i].key, key);
    }
  }

  // Equal keys compare alike with everything.
  lemma SameKey<K(!new)>(cmp: (K, K) -> int, a: K, b: K, c: K)
    requires TotalOrder(cmp) && cmp(a, b) == 0
    ensures cmp(a, c) < 0 <==> cmp(b, c) < 0
    ensures cmp(a, c) > 0 <==> cmp(b, c) > 0
  {
    Chain(cmp, a, b, c);
    Chain(cmp, b, a, c);
    Chain(cmp, c, a, b);
    Chain(cmp, c, b, a);
  }

  // A split of a sequence around a key fixes the lower bound.
  lemma LowerBoundAt<K, V>(cmp: (K, K) -> int, s: seq<Item<K, V>>, key: K, p: nat)
    requires p <= |s| && AllBelow(cmp, s[..p], key)
    requires p < |s| ==> cmp(key, s[p].key) <= 0
    ensures LowerBound(cmp, s, key) == p
  {
    assert forall i :: 0 <= i < p ==> s[..p][i] == s[i];
  }

  // The search only looks at the part of the sequence around the key.
  lemma LowerBoundWithin<K, V>(cmp: (K, K) -> int, a: seq<Item<K, V>>, m: seq<Item<K, V>>, b: seq<Item<K, V>>, key: K)
    requires AllBelow(cmp, a, key) && AllAbove(cmp, b, key)
    ensures LowerBound(cmp, a + m + b, key) == |a| + LowerBound(cmp, m, key)
    ensures Has(cmp, a + m + b, key) <==> Has(cmp, m, key)
  {
    var s, q := a + m + b, LowerBound(cmp, m, key);
    var p := |a| + q;
    forall i | 0 <= i < p
      ensures cmp(key, s[..p][i].key) > 0
    {
      if i < |a| {
        assert s[..p][i] == a[i];
      } else {
        assert s[..p][i] == m[..q][i - |a|];
      }
    }
    assert p < |s| && q == |m| ==> s[p] == b[0];
    assert q < |m| ==> s[p] == m[q];
    LowerBoundAt(cmp, s, key, p);
  }

  // Inserting and removing happen inside that part.
  lemma UpsertWithin<K, V>(cmp: (K, K) -> int, a: seq<Item<K, V>>, m: seq<Item<K, V>>, b: seq<Item<K, V>>,
                           item: Item<K, V>)
    requires AllBelow(cmp, a, item.key) && AllAbove(cmp, b, item.key)
    ensures Upsert(cmp, a + m + b, item) == a + Upsert(cmp, m, item) + b
  {
    LowerBoundWithin(cmp, a, m, b, item.key);
    var q := LowerBound(cmp, m, item.key);
    if Has(cmp, m, item.key) {
      ReplaceWithin(a, m, b, q, item);
    } else {
      InsertWithin(a, m, b, q, item);
    }
  }

  lemma InsertWithin<T>(a: seq<T>, m: seq<T>, b: seq<T>, q: nat, x: T)
    requires q <= |m|
    ensures var s := a + m + b;
            s[..|a| + q] + [x] + s[|a| + q..] == a + (m[..q] + [x] + m[q..]) + b
  {
    assert (a + m + b)[..|a| + q] == a + m[..q];
    assert (a + m + b)[|a| + q..] == m[q..] + b;
  }

  lemma ReplaceWithin<T>(a: seq<T>, m: seq<T>, b: seq<T>, q: nat, x: T)
    requires q < |m|
    ensures (a + m + b)[|a| + q := x] == a + m[q := x] + b
  {
  }

  lemma RemoveAtWithin<T>(a: seq<T>, m: seq<T>, b: seq<T>, q: nat)
    requires q < |m|
    ensures RemoveAt(a + m + b, |a| + q) == a + RemoveAt(m, q) + b
  {
    assert (a + m + b)[..|a| + q] == a + m[..q];
    assert (a + m + b)[|a| + q + 1..] == m[q + 1..] + b;
  }

  lemma SortedParts<K, V>(cmp: (K, K) -> int, a: seq<Item<K, V>>, m: seq<Item<K, V>>, b: seq<Item<K, V>>)
    requires Sorted(cmp, a + m + b)
    ensures Sorted(cmp, a) && Sorted(cmp, m) && Sorted(cmp, b)
  {
    var s := a + m + b;
    assert forall i :: 0 <= i < |a| ==> a[i] == s[i];
    assert forall i :: 0 <= i < |m| ==> m[i] == s[|a| + i];
    assert forall i :: 0 <= i < |b| ==> b[i] == s[|a| + |m| + i];
  }

  // ---------------- ordered-map laws ----------------

  // An item put between what is before and what is behind it.
  lemma SplicedSorted<K(!new), V(!new)>(cmp: (K, K) -> int, a: seq<Item<K, V>>, item: Item<K, V>, b: seq<Item<K, V>>)
    requires TotalOrder(cmp) && Sorted(cmp, a + b)
    requires AllBelow(cmp, a, item.key) && AllAbove(cmp, b, item.key)
    ensures Sorted(cmp, a + [item] + b)
  {
    var r, p := a + [item] + b, |a|;
    forall i, j | 0 <= i < j < |r|
      ensures cmp(r[i].key, r[j].key) < 0
    {
      if i == p {
        assert r[j] == b[j - p - 1];
      } else if j == p {
        assert r[i] == a[i];
      } else {
        assert r[i] == (a + b)[if i < p then i else i - 1];
        assert r[j] == (a + b)[if j < p then j else j - 1];
      }
    }
  }

  // Insertion keeps the order, and changes the answer for its own key only.
  lemma UpsertSorted<K(!new), V(!new)>(cmp: (K, K) -> int, s: seq<Item<K, V>>, item: Item<K, V>)
    requires TotalOrder(cmp) && Sorted(cmp, s)
    ensures Sorted(cmp, Upsert(cmp, s, item))
    ensures |Upsert(cmp, s, item)| == if Has(cmp, s, item.key) then |s| else |s| + 1
  {
    var p := LowerBound(cmp, s, item.key);
    AboveFrom(cmp, s, item.key);
    if Has(cmp, s, item.key) {
      RemoveSorted(cmp, s, p);
      SplicedSorted(cmp, s[..p], item, s[p + 1..]);
      PutIs(s, p, item);
    } else {
      assert s[..p] + s[p..] == s;
      SplicedSorted(cmp, s[..p], item, s[p..]);
    }
  }

  lemma PutIs<T>(s: seq<T>, p: nat, x: T)
    requires p < |s|
    ensures s[p := x] == s[..p] + [x] + s[p + 1..]
  {
  }

  // Everything from the lower bound on, an equal key aside, is above.
  lemma AboveFrom<K(!new), V(!new)>(cmp: (K, K) -> int, s: seq<Item<K, V>>, key: K)
    requires TotalOrder(cmp) && Sorted(cmp, s)
    ensures var p := LowerBound(cmp, s, key);
            AllAbove(cmp, s[if Has(cmp, s, key) then p + 1 else p..], key)
  {
    var p := LowerBound(cmp, s, key);
    if p < |s| {
      Behind(cmp, s, key, p);
      assert s[p..] == [s[p]] + s[p + 1..];
    }
  }

  // Looking up any key in a sorted sequence finds the item that compares
  // equal, if there is one.
  lemma LookupIs<K(!new), V(!new)>(cmp: (K, K) -> int, s: seq<Item<K, V>>, key: K, item: Item<K, V>)
    requires TotalOrder(cmp) && Sorted(cmp, s)
    ensures Lookup(cmp, s, key) == Some(item) <==> item in s && cmp(key, item.key) == 0
  {
    if item in s && cmp(key, item.key) == 0 {
      var i :| 0 <= i < |s| && s[i] == item;
      Behind(cmp, s, key, i);
      LowerBoundAt(cmp, s, key, i);
    }
  }

  lemma LookupNone<K(!new), V(!new)>(cmp: (K, K) -> int, s: seq<Item<K, V>>, key: K)
    requires TotalOrder(cmp) && Sorted(cmp, s)
    ensures Lookup(cmp, s, key) == None <==> forall item :: item in s ==> cmp(key, item.key) != 0
  {
    if x :| x in s && cmp(key, x.key) == 0 {
      LookupIs(cmp, s, key, x);
    }
  }

  lemma LookupUpsert<K(!new), V(!new)>(cmp: (K, K) -> int, s: seq<Item<K, V>>, item: Item<K, V>, key: K)
    requires TotalOrder(cmp) && Sorted(cmp, s)
    ensures Lookup(cmp, Upsert(cmp, s, item), key)
            == if cmp(key, item.key) == 0 then Some(item) else Lookup(cmp, s, key)
  {
    var p, r := LowerBound(cmp, s, item.key), Upsert(cmp, s, item);
    UpsertSorted(cmp, s, item);
    assert r[p] == item;
    if cmp(key, item.key) == 0 {
      LookupIs(cmp, r, key, item);
    } else {
      forall x: Item<K, V> | cmp(key, x.key) == 0
        ensures x in r <==> x in s
      {
        SameKey(cmp, key, x.key, item.key);
        if x in s {
          var i :| 0 <= i < |s| && s[i] == x;
          if Has(cmp, s, item.key) {
            assert i == p ==> cmp(item.key, x.key) == 0;
            assert r[i] == x;
          } else if i < p {
            assert r[i] == x;
          } else {
            assert r[i + 1] == x;
          }
        }
      }
      SameAnswers(cmp, s, r, key);
    }
  }

  lemma SameAnswers<K(!new), V(!new)>(cmp: (K, K) -> int, s: seq<Item<K, V>>, r: seq<Item<K, V>>, key: K)
    requires TotalOrder(cmp) && Sorted(cmp, s) && Sorted(cmp, r)
    requires forall x: Item<K, V> :: cmp(key, x.key) == 0 ==> (x in r <==> x in s)
    ensures Lookup(cmp, r, key) == Lookup(cmp, s, key)
  {
    LookupNone(cmp, s, key);
    LookupNone(cmp, r, key);
    match Lookup(cmp, s, key)
    case Some(x) =>
      LookupIs(cmp, s, key, x);
      LookupIs(cmp, r, key, x);
    case None =>
  }

  lemma RemoveSorted<K, V>(cmp: (K, K) -> int, s: seq<Item<K, V>>, p: nat)
    requires Sorted(cmp, s) && p < |s|
    ensures Sorted(cmp, RemoveAt(s, p))
  {
    var r := RemoveAt(s, p);
    forall i, j | 0 <= i < j < |r|
      ensures cmp(r[i].key, r[j].key) < 0
    {
      assert r[i] == s[if i < p then i else i + 1];
      assert r[j] == s[if j < p then j else j + 1];
    }
  }

  lemma LookupRemove<K(!new), V(!new)>(cmp: (K, K) -> int, s: seq<Item<K, V>>, gone: K, key: K)
    requires TotalOrder(cmp) && Sorted(cmp, s)
    ensures Sorted(cmp, Remove(cmp, s, gone))
    ensures Lookup(cmp, Remove(cmp, s, gone), key)
            == if cmp(key, gone) == 0 then None else Lookup(cmp, s, key)
  {
    var p, r := LowerBound(cmp, s, gone), Remove(cmp, s, gone);
    if Has(cmp, s, gone) {
      RemoveSorted(cmp, s, p);
      forall x: Item<K, V> | cmp(key, x.key) == 0
        ensures x in r <==> x in s && cmp(key, gone) != 0
      {
        RemovedMembers(cmp, s, p, x);
        SameKey(cmp, gone, s[p].key, x.key);
        SameKey(cmp, key, x.key, gone);
        SameKey(cmp, key, x.key, s[p].key);
      }
      if cmp(key, gone) == 0 {
        LookupNone(cmp, r, key);
      } else {
        SameAnswers(cmp, s, r, key);
      }
    } else if cmp(key, gone) == 0 {
      LookupNone(cmp, s, gone);
      LookupNone(cmp, s, key);
      forall x | x in s
        ensures cmp(key, x.key) != 0
      {
        SameKey(cmp, key, gone, x.key);
      }
    }
  }

  // Of the items of a sorted sequence only the removed one is gone.
  lemma RemovedMembers<K(!new), V(!new)>(cmp: (K, K) -> int, s: seq<Item<K, V>>, p: nat, x: Item<K, V>)
    requires TotalOrder(cmp) && Sorted(cmp, s) && p < |s|
    ensures x in RemoveAt(s, p) <==> x in s && cmp(s[p].key, x.key) != 0
  {
    var r := RemoveAt(s, p);
    if x in s {
      var i :| 0 <= i < |s| && s[i] == x;
      if i < p {
        assert r[i] == x && cmp(x.key, s[p].key) < 0;
      } else if i > p {
        assert r[i - 1] == x && cmp(s[p].key, x.key) < 0;
      }
    }
    if x in r {
      var i :| 0 <= i < |r| && r[i] == x;
      if i < p {
        assert s[i] == x && cmp(x.key, s[p].key) < 0;
      } else {
        assert s[i + 1] == x && cmp(s[p].key, x.key) < 0;
      }
    }
  }

  // ---------------- whole runs ----------------

  datatype MapOp<K, V> = Put(item: Item<K, V>) | Drop(key: K)

  ghost function Apply<K, V>(cmp: (K, K) -> int, s: seq<Item<K, V>>, op: MapOp<K, V>): seq<Item<K, V>> {
    match op
    case Put(item) => Upsert(cmp, s, item)
    case Drop(key) => Remove(cmp, s, key)
  }

  // The contents after a sequence of operations on an empty map.
  ghost function Run<K, V>(cmp: (K, K) -> int, ops: seq<MapOp<K, V>>): seq<Item<K, V>> {
    if ops == [] then [] else Apply(cmp, Run(cmp, ops[..|ops| - 1]), ops[|ops| - 1])
  }

  // What the last operation on a key leaves behind.
  ghost function LastSay<K, V>(cmp: (K, K) -> int, ops: seq<MapOp<K, V>>, key: K): Option<Item<K, V>> {
    if ops == [] then None
    else
      match ops[|ops| - 1]
      case Put(item) => if cmp(key, item.key) == 0 then Some(item) else LastSay(cmp, ops[..|ops| - 1], key)
      case Drop(gone) => if cmp(key, gone) == 0 then None else LastSay(cmp, ops[..|ops| - 1], key)
  }

  // After any run the items are strictly sorted, and a lookup answers with the
  // last operation on its key.
  lemma {:induction false} RunIsMap<K(!new), V(!new)>(cmp: (K, K) -> int, ops: seq<MapOp<K, V>>, key: K)
    requires TotalOrder(cmp)
    ensures Sorted(cmp, Run(cmp, ops))
    ensures Lookup(cmp, Run(cmp, ops), key) == LastSay(cmp, ops, key)
  {
    if ops != [] {
      var before := ops[..|ops| - 1];
      RunIsMap(cmp, before, key);
      match ops[|ops| - 1]
      case Put(item) =>
        UpsertSorted(cmp, Run(cmp, before), item);
        LookupUpsert(cmp, Run(cmp, before), item, key);
      case Drop(gone) =>
        LookupRemove(cmp, Run(cmp, before), gone, key);
    }
  }
}
