// The preindexed Robin Hood hash map: insertion with displacement, resizing,
// and the two lookups, over a slot array and a route array changed in place.
module HashMap {
  import opened HashTable
  import opened HashDelete
  import opened HashIdent

  const MIN_BUCKETS: nat := 8

  // (uint32_t)(buckets * 0.8): how many entries fit before a resize.
  function Limit(buckets: nat): nat { buckets * 4 / 5 }

  class Map<K(!new, ==), V(!new)> {
    const ks: Keys<K>
    var slots: array<Slot<K, V>>
    var route: array<byte>
    var bits: nat
    var usedLimit: nat

    ghost function Tab(): Table<K, V>
      reads this, slots, route
    {
      Table(slots[..], route[..], bits)
    }

    // The table is in order from the lo-th probe on and holds the map m.
    ghost predicate Stores(m: map<K, V>, lo: nat)
      reads this, slots, route
    {
      Tab().Sized() && lo <= 4 && Ordered(ks, Tab(), lo) && Unique(Tab()) && Holds(Tab(), m)
    }

    // `used_limit` is what is left of the load.  Insertions keep this with
    // lo = 0; with lo = 4 it is what deletions keep.
    ghost predicate Valid(m: map<K, V>, lo: nat)
      reads this, slots, route
    {
      Stores(m, lo) && |m| + usedLimit == Limit(slots.Length)
    }

    // ---------------- insertion ----------------

    // Free slots in the 4-slot window that offset p leads to.
    ghost function WindowFree(idx: nat, p: nat, upto: nat): nat
      requires slots.Length > 0 && upto <= 4
      reads this, slots
    {
      if upto == 0 then 0
      else WindowFree(idx, p, upto - 1) + (if slots[((idx + p * 4) % slots.Length + upto - 1) % slots.Length].Empty? then 1 else 0)
    }

    // The first window with more than two free slots, else the first of those
    // with the most.
    method ChoosePreindex(idx: nat) returns (best: nat)
      requires slots.Length > 0
      ensures 1 <= best <= 7
      ensures forall p :: 1 <= p < best ==> WindowFree(idx, p, 4) <= 2 && (best > 1 ==> WindowFree(idx, p, 4) < WindowFree(idx, best, 4))
      ensures WindowFree(idx, best, 4) <= 2 ==> forall p :: 1 <= p <= 7 ==> WindowFree(idx, p, 4) <= WindowFree(idx, best, 4)
    {
      best := 1;
      var bestEmpty := 0;
      for pval := 1 to 8
        invariant 1 <= best <= 7 && bestEmpty <= 2
        invariant pval > 1 ==> best < pval
        invariant forall p :: 1 <= p < pval ==> WindowFree(idx, p, 4) <= bestEmpty
        invariant bestEmpty > 0 ==> best < pval && bestEmpty == WindowFree(idx, best, 4)
        invariant bestEmpty == 0 ==> best == 1
        invariant forall p :: 1 <= p < best ==> WindowFree(idx, p, 4) < bestEmpty
      {
        var start := (idx + pval * 4) % slots.Length;
        var empty := 0;
        for j := 0 to 4
          invariant empty == WindowFree(idx, pval, j) && empty <= 2
        {
          if slots[(start + j) % slots.Length].Empty? {
            empty := empty + 1;
            if empty > 2 {
              FreeGrows(idx, pval, j + 1);
              return pval;
            }
          }
        }
        if empty > bestEmpty { bestEmpty, best := empty, pval; }
      }
    }

    lemma FreeGrows(idx: nat, p: nat, upto: nat)
      requires slots.Length > 0 && upto <= 4
      ensures WindowFree(idx, p, upto) <= WindowFree(idx, p, 4)
      decreases 4 - upto
    {
      if upto < 4 { FreeGrows(idx, p, upto + 1); }
    }

    // Home of a key, and its distance from home at a position, computed from the arrays.
    function HomePos(key: K, h: uint32): (pos: nat)
      requires Tab().Sized() && h == ks.hash(key)
      reads this, slots, route
      ensures pos == Home(ks, Tab(), key)
    {
      RouteIndexBound(h, bits);
      HomeAt(h, Offset(route[RouteIndex(h, bits)]), slots.Length)
    }

    function SlotPsl(key: K, pos: nat): (d: nat)
      requires Tab().Sized() && pos < slots.Length
      reads this, slots, route
      ensures d == Psl(ks, Tab(), key, pos)
    {
      Dist(HomePos(key, ks.hash(key)), pos, slots.Length)
    }

    // Route of a key.
    function RouteAt(key: K, h: uint32): (r: nat)
      requires Tab().Sized() && h == ks.hash(key)
      reads this, slots, route
      ensures r == RouteOf(ks, Tab(), key)
    {
      RouteIndex(h, bits)
    }

    // Stores the key at distance psl and raises its route's longest probe.
    method PutAt(pos: nat, r: nat, key: K, val: V, psl: nat)
      requires Tab().Sized() && psl < slots.Length && r == RouteOf(ks, Tab(), key)
      requires pos == Step(Home(ks, Tab(), key), psl, slots.Length)
      modifies slots, route
      ensures Tab() == Put(ks, old(Tab()), key, val, psl)
    {
      slots[pos] := Full(key, val);
      var curMax := MaxPsl(route[r]);
      if psl > curMax {
        var clamped := if psl > 31 then 31 else psl;
        route[r] := Offset(route[r]) + clamped * 8;
      }
      assert slots[..] == old(slots[..])[pos := Full(key, val)];
      assert route[..] == old(route[..])[r := Raised(old(route[r]), psl)];
    }

    // The offset of the key's route, chosen now if the route is new.
    method OpenRouteFor(key: K, h: uint32, ghost m: map<K, V>, ghost lo: nat) returns (r: nat)
      requires Stores(m, lo) && HasRoom(Tab()) && h == ks.hash(key)
      modifies route
      ensures Stores(m, lo) && HasRoom(Tab())
      ensures r == RouteOf(ks, Tab(), key) && Offset(route[r]) != 0
      ensures Tab() == old(Tab()) || (Reachable(ks, Tab(), key) && Reachable(ks, old(Tab()), key))
    {
      RouteIndexBound(h, bits);
      r := RouteIndex(h, bits);
      if Offset(route[r]) == 0 {
        var offset := ChoosePreindex(h % slots.Length);
        OpenRoute(ks, Tab(), r, offset, lo);
        UnroutedAbsent(ks, Tab(), key, lo);
        route[r] := WithOffset(route[r], offset);
        assert route[..] == old(route[..])[r := WithOffset(old(route[r]), offset)];
      }
    }

    // The carried key reaches a free slot.
    method FinishAt(pos: nat, r: nat, key: K, val: V, psl: nat, ghost m: map<K, V>, ghost lo: nat)
      requires Carrying(ks, Tab(), key, val, psl, m, lo) && psl < slots.Length && usedLimit > 0
      requires r == RouteOf(ks, Tab(), key) && pos == Step(Home(ks, Tab(), key), psl, slots.Length)
      requires slots[pos].Empty?
      modifies slots, route, `usedLimit
      ensures Stores(m, lo) && usedLimit == old(usedLimit) - 1
    {
      hide Ordered, Unique, Holds, PathTaken, Absent, Home, Offset;
      PutEmpty(ks, Tab(), key, val, psl, m, lo);
      PutAt(pos, r, key, val, psl);
      usedLimit := usedLimit - 1;
    }

    method ReplaceAt(pos: nat, val: V, ghost m: map<K, V>, ghost lo: nat)
      requires Stores(m, lo) && pos < slots.Length && slots[pos].Full?
      modifies slots
      ensures Stores(m[old(slots[pos].key) := val], lo)
    {
      hide Ordered, Unique, Holds;
      WithValueOrdered(ks, Tab(), pos, val, lo);
      WithValueHolds(Tab(), pos, val, m);
      slots[pos] := Full(slots[pos].key, val);
      assert slots[..] == old(slots[..])[pos := Full(old(slots[pos].key), val)];
    }

    // What an insertion that is not at its end after four probes starts from.
    ghost predicate Start(t0: Table<K, V>, key: K, m: map<K, V>, lo: nat) {
      && t0.Sized() && lo <= 4 && Ordered(ks, t0, lo) && Unique(t0) && Holds(t0, m) && HasRoom(t0)
      && Reachable(ks, t0, key) && Offset(t0.route[RouteOf(ks, t0, key)]) != 0
    }

    // On the way from the fourth probe on: either nothing has happened to the
    // table t0 yet, or an entry displaced from it is being carried.
    ghost predicate OnTheWay(t0: Table<K, V>, key: K, val: V, displaced: bool, k: K, v: V, psl: nat, m: map<K, V>, lo: nat)
      reads this, slots, route
    {
      && Start(t0, key, m, lo)
      && if displaced then key !in m && Carrying(ks, Tab(), k, v, psl, m[key := val], lo)
         else k == key && v == val && Tab() == t0 && psl >= 4 && PathTaken(ks, t0, key, 0, psl) && NotSeen(ks, t0, key, psl)
    }

    // A free slot, or an entry closer to its home: the key is new.
    lemma WayEnds(t0: Table<K, V>, key: K, val: V, displaced: bool, k: K, v: V, psl: nat, m: map<K, V>, lo: nat, pos: nat)
      requires OnTheWay(t0, key, val, displaced, k, v, psl, m, lo) && Tab().Sized() && psl < slots.Length
      requires pos == Step(Home(ks, Tab(), k), psl, slots.Length)
      requires slots[pos].Empty? || (slots[pos].key != k && Psl(ks, Tab(), slots[pos].key, pos) < psl)
      ensures key !in m && Carrying(ks, Tab(), k, v, psl, m[key := val], lo)
    {
      if !displaced {
        if slots[pos].Empty? { StopsFree(key, psl, pos); } else { StopsNear(key, psl, pos); }
        hide Ordered, Unique, Holds, Home, Psl, RouteOf, Reachable, StopsAt, NotSeen;
        StartCarrying(ks, t0, key, val, psl, m, lo);
      }
    }

    // Only the key itself is ever met.
    lemma WayFinds(t0: Table<K, V>, key: K, val: V, displaced: bool, k: K, v: V, psl: nat, m: map<K, V>, lo: nat, pos: nat)
      requires OnTheWay(t0, key, val, displaced, k, v, psl, m, lo) && pos < slots.Length && slots[pos].Full? && slots[pos].key == k
      ensures k == key && v == val && key in m && Stores(m, lo)
    {
      CarriedIsNew(displaced, k, v, psl, m[key := val], lo, pos);
      EntryIn(t0, m, pos);
    }

    lemma WayOn(t0: Table<K, V>, key: K, val: V, displaced: bool, k: K, v: V, psl: nat, m: map<K, V>, lo: nat, pos: nat)
      requires OnTheWay(t0, key, val, displaced, k, v, psl, m, lo) && Tab().Sized() && psl < slots.Length
      requires pos == Step(Home(ks, Tab(), k), psl, slots.Length)
      requires slots[pos].Full? && slots[pos].key != k && Psl(ks, Tab(), slots[pos].key, pos) >= psl
      ensures OnTheWay(t0, key, val, displaced, k, v, psl + 1, m, lo)
    {
      hide Ordered, Unique, Holds, Home, Psl, RouteOf, Reachable, NotSeen;
      if displaced {
        CarryOn(k, v, psl, m[key := val], lo, pos);
      } else {
        assert t0.slots[pos] == slots[pos];
        Seen(t0, key, psl, pos);
        Blocked(k, psl, pos);
      }
    }

    lemma WayShort(t0: Table<K, V>, key: K, val: V, displaced: bool, k: K, v: V, psl: nat, m: map<K, V>, lo: nat)
      requires OnTheWay(t0, key, val, displaced, k, v, psl, m, lo) && Tab().Sized()
      ensures psl < slots.Length
    {
      hide Ordered, Unique, Holds, Home, Psl, RouteOf, Reachable, NotSeen;
      PathShort(ks, Tab(), k, psl);
    }

    // From the fourth probe on: walk, displacing entries closer to their home,
    // until the key or a free slot is found.
    method InsertFar(key: K, val: V, from: nat, dist: nat, index: nat, ghost m: map<K, V>, ghost lo: nat)
      requires Stores(m, lo) && HasRoom(Tab()) && usedLimit > 0 && Reachable(ks, Tab(), key)
      requires index == RouteOf(ks, Tab(), key) && Offset(route[index]) != 0
      requires 4 <= dist < slots.Length && from == Step(Home(ks, Tab(), key), dist, slots.Length)
      requires PathTaken(ks, Tab(), key, 0, dist) && NotSeen(ks, Tab(), key, dist)
      modifies slots, route, `usedLimit
      ensures Stores(m[key := val], lo)
      ensures usedLimit == if key in m then old(usedLimit) else old(usedLimit) - 1
    {
      hide Ordered, Unique, Holds, PathTaken, NotSeen, Home, Psl, RouteOf, Offset, HasRoom, Step, Dist, After, Reachable, Carrying;
      var pos: nat, psl: nat, k, v, r := from, dist, key, val, index;
      ghost var t0, displaced := Tab(), false;
      ghost var free := FreeSlot(t0);
      assert OnTheWay(t0, key, val, displaced, k, v, psl, m, lo);
      hide OnTheWay, Start;
      while true
        invariant Tab().Sized() && pos < slots.Length && slots.Length == |t0.slots| && usedLimit == old(usedLimit)
        invariant psl < slots.Length && pos == Step(Home(ks, Tab(), k), psl, slots.Length)
        invariant r == RouteOf(ks, Tab(), k) && slots[free].Empty?
        invariant OnTheWay(t0, key, val, displaced, k, v, psl, m, lo)
        decreases Dist(pos, free, slots.Length)
      {
        if slots[pos].Empty? {
          WayEnds(t0, key, val, displaced, k, v, psl, m, lo, pos);
          FinishAt(pos, r, k, v, psl, m[key := val], lo);
          return;
        }
        if slots[pos].key == k {
          WayFinds(t0, key, val, displaced, k, v, psl, m, lo, pos);
          ReplaceAt(pos, v, m, lo);
          return;
        }
        var curPsl := SlotPsl(slots[pos].key, pos);
        if curPsl < psl {
          WayEnds(t0, key, val, displaced, k, v, psl, m, lo, pos);
          WayTable(t0, key, val, displaced, k, v, psl, m, lo);
          k, v, psl, r := DisplaceAt(pos, r, k, v, psl, m[key := val], lo);
          displaced := true;
          WayCarries(t0, key, val, k, v, psl + 1, m, lo);
        } else {
          WayOn(t0, key, val, displaced, k, v, psl, m, lo, pos);
        }
        psl := psl + 1;
        WayShort(t0, key, val, displaced, k, v, psl, m, lo);
        StepAfter(Home(ks, Tab(), k), psl - 1, slots.Length, free);
        pos := After(pos, slots.Length);
      }
    }

    lemma WayTable(t0: Table<K, V>, key: K, val: V, displaced: bool, k: K, v: V, psl: nat, m: map<K, V>, lo: nat)
      requires OnTheWay(t0, key, val, displaced, k, v, psl, m, lo)
      ensures Start(t0, key, m, lo)
    {
    }

    lemma WayCarries(t0: Table<K, V>, key: K, val: V, k: K, v: V, psl: nat, m: map<K, V>, lo: nat)
      requires Start(t0, key, m, lo) && key !in m && Carrying(ks, Tab(), k, v, psl, m[key := val], lo)
      ensures OnTheWay(t0, key, val, true, k, v, psl, m, lo)
    {
    }

    // The carried key walks past an entry at least as far from its home.
    lemma CarryOn(k: K, v: V, psl: nat, m: map<K, V>, lo: nat, pos: nat)
      requires Carrying(ks, Tab(), k, v, psl, m, lo) && psl < slots.Length && pos == Step(Home(ks, Tab(), k), psl, slots.Length)
      requires slots[pos].Full? && Psl(ks, Tab(), slots[pos].key, pos) >= psl
      ensures Carrying(ks, Tab(), k, v, psl + 1, m, lo)
    {
      hide Ordered, Unique, Holds, Home, Psl, RouteOf;
      Blocked(k, psl, pos);
    }

    lemma StopsFree(key: K, psl: nat, pos: nat)
      requires Tab().Sized() && psl < slots.Length && pos == Step(Home(ks, Tab(), key), psl, slots.Length) && slots[pos].Empty?
      ensures StopsAt(ks, Tab(), key, psl)
    {
    }

    lemma StopsNear(key: K, psl: nat, pos: nat)
      requires Tab().Sized() && 4 <= psl < slots.Length && pos == Step(Home(ks, Tab(), key), psl, slots.Length)
      requires slots[pos].Full? && slots[pos].key != key && Psl(ks, Tab(), slots[pos].key, pos) < psl
      ensures StopsAt(ks, Tab(), key, psl)
    {
    }

    // Puts the carried key in place of an entry closer to its home, and takes
    // that entry along.
    method DisplaceAt(pos: nat, r: nat, key: K, val: V, psl: nat, ghost m: map<K, V>, ghost lo: nat)
      returns (key': K, val': V, psl': nat, r': nat)
      requires Carrying(ks, Tab(), key, val, psl, m, lo) && psl < slots.Length
      requires r == RouteOf(ks, Tab(), key) && pos == Step(Home(ks, Tab(), key), psl, slots.Length)
      requires slots[pos].Full? && Psl(ks, Tab(), slots[pos].key, pos) < psl
      modifies slots, route
      ensures Carrying(ks, Tab(), key', val', psl' + 1, m, lo)
      ensures psl' < slots.Length && pos == Step(Home(ks, Tab(), key'), psl', slots.Length)
      ensures r' == RouteOf(ks, Tab(), key')
      ensures forall i :: 0 <= i < slots.Length && i != pos ==> slots[i] == old(slots[i])
    {
      hide Ordered, Unique, Holds, PathTaken, Absent, Home, Psl, RouteOf, Offset, HasRoom;
      key', val', psl' := slots[pos].key, slots[pos].val, SlotPsl(slots[pos].key, pos);
      HomeAndPsl(key', pos);
      PutDisplaces(ks, Tab(), key, val, psl, m, lo);
      PutHomes(ks, Tab(), key, val, psl, key');
      PutAt(pos, r, key, val, psl);
      r' := RouteAt(key', ks.hash(key'));
      assert slots[..] == old(slots[..])[pos := Full(key, val)];
    }

    lemma HomeAndPsl(key: K, pos: nat)
      requires Tab().Sized() && pos < slots.Length
      ensures Step(Home(ks, Tab(), key), Psl(ks, Tab(), key, pos), slots.Length) == pos
    {
    }

    // A displaced key never meets itself.
    lemma CarriedIsNew(displaced: bool, k: K, v: V, psl: nat, m: map<K, V>, lo: nat, pos: nat)
      requires pos < slots.Length && slots[pos].Full?
      requires displaced ==> Carrying(ks, Tab(), k, v, psl, m, lo)
      ensures displaced ==> slots[pos].key != k
    {
    }

    // The probe walks past an entry at least as far from its home.
    lemma Blocked(k: K, psl: nat, pos: nat)
      requires Tab().Sized() && psl < slots.Length && pos == Step(Home(ks, Tab(), k), psl, slots.Length)
      requires PathTaken(ks, Tab(), k, 0, psl) && slots[pos].Full?
      requires psl >= 4 ==> Psl(ks, Tab(), slots[pos].key, pos) >= psl
      ensures PathTaken(ks, Tab(), k, 0, psl + 1)
    {
      hide Home, Psl, RouteOf;
      assert TakenAt(ks, Tab(), k, psl);
    }

    lemma NothingProbed(t: Table<K, V>, key: K)
      requires t.Sized()
      ensures PathTaken(ks, t, key, 0, 0) && NotSeen(ks, t, key, 0)
      ensures Step(Home(ks, t, key), 0, |t.slots|) == Home(ks, t, key)
    {
    }

    lemma Seen(t: Table<K, V>, key: K, psl: nat, pos: nat)
      requires t.Sized() && psl < |t.slots| && pos == Step(Home(ks, t, key), psl, |t.slots|)
      requires NotSeen(ks, t, key, psl) && t.slots[pos].Full? && t.slots[pos].key != key
      ensures NotSeen(ks, t, key, psl + 1)
    {
    }

    // Inserts without checking the load: replaces the value of a present key,
    // else puts the key at the first free slot of its path, displacing from the
    // fourth probe on every entry that is closer to its home.  A stored key with
    // a free slot on its path is not found: it is stored a second time there.
    method InsertNoResize(key: K, val: V, h: uint32, ghost m: map<K, V>, ghost lo: nat)
      requires Stores(m, lo) && HasRoom(Tab()) && h == ks.hash(key) && usedLimit > 0
      modifies slots, route, `usedLimit
      ensures Reachable(ks, old(Tab()), key) ==>
                Stores(m[key := val], lo) && usedLimit == if key in m then old(usedLimit) else old(usedLimit) - 1
      ensures !Reachable(ks, old(Tab()), key) ==>
                !Unique(Tab()) && usedLimit == old(usedLimit) - 1 && PutInFront(old(Tab()), key, val, Tab())
    {
      hide Ordered, Unique, Holds, Home, RouteOf, Offset, NotSeen, PathTaken, HasRoom, Step, After, Reachable, StopsAt, PutInFront;
      var r := OpenRouteFor(key, h, m, lo);
      ghost var t := Tab();
      NothingProbed(t, key);
      assert t.Sized() && Ordered(ks, t, lo) && Unique(t) && Holds(t, m) && HasRoom(t);
      var pos := HomePos(key, h);
      var psl: nat := 0;
      while psl < 4
        invariant Tab() == t && slots.Length == |t.slots| && usedLimit == old(usedLimit)
        invariant psl <= 4 && psl < |t.slots| && pos == Step(Home(ks, t, key), psl, |t.slots|)
        invariant PathTaken(ks, t, key, 0, psl) && NotSeen(ks, t, key, psl)
      {
        if slots[pos].Empty? {
          if Reachable(ks, t, key) {
            StopsFree(key, psl, pos);
            StartCarrying(ks, t, key, val, psl, m, lo);
            PutEmpty(ks, t, key, val, psl, m[key := val], lo);
          } else {
            HiddenCopy(t, key, val, psl);
          }
          PutAt(pos, r, key, val, psl);
          usedLimit := usedLimit - 1;
          return;
        }
        if slots[pos].key == key {
          EntryIn(t, m, pos);
          SeenReachable(t, key, psl, pos);
          ReplaceAt(pos, val, m, lo);
          return;
        }
        assert t.slots[pos] == slots[pos];
        Seen(t, key, psl, pos);
        Blocked(key, psl, pos);
        psl := psl + 1;
        PathShort(ks, t, key, psl);
        StepAfter(Home(ks, t, key), psl - 1, slots.Length, 0);
        pos := After(pos, slots.Length);
      }
      FarReachable(t, key, lo);
      InsertFar(key, val, pos, psl, r, m, lo);
    }

    // A second copy at the first free slot of the path, which is one of its
    // first four.
    ghost predicate PutInFront(t: Table<K, V>, key: K, val: V, t': Table<K, V>)
      requires t.Sized()
    {
      exists d :: 0 <= d < 4 && d < |t.slots| && t.slots[Step(Home(ks, t, key), d, |t.slots|)].Empty? && t' == Put(ks, t, key, val, d)
    }

    lemma HiddenCopy(t: Table<K, V>, key: K, val: V, psl: nat)
      requires t.Sized() && psl < 4 && psl < |t.slots| && !Reachable(ks, t, key)
      requires t.slots[Step(Home(ks, t, key), psl, |t.slots|)].Empty?
      ensures !Unique(Put(ks, t, key, val, psl)) && PutInFront(t, key, val, Put(ks, t, key, val, psl))
    {
      var pos, t' := Step(Home(ks, t, key), psl, |t.slots|), Put(ks, t, key, val, psl);
      var i :| 0 <= i < |t.slots| && t.slots[i].Full? && t.slots[i].key == key;
      assert t'.slots[i] == t.slots[i] && t'.slots[pos] == Full(key, val);
    }

    // Found at the end of a path that is taken.
    lemma SeenReachable(t: Table<K, V>, key: K, psl: nat, pos: nat)
      requires t.Sized() && Unique(t) && psl < |t.slots| && pos == Step(Home(ks, t, key), psl, |t.slots|)
      requires PathTaken(ks, t, key, 0, psl) && t.slots[pos].Full? && t.slots[pos].key == key
      ensures Reachable(ks, t, key)
    {
      forall i | 0 <= i < |t.slots| && t.slots[i].Full? && t.slots[i].key == key
        ensures i == pos
      {
        UniqueSlot(t, i, pos);
      }
    }

    // A key behind four taken slots is behind none that is free.
    lemma FarReachable(t: Table<K, V>, key: K, lo: nat)
      requires Ordered(ks, t, lo) && lo <= 4 && PathTaken(ks, t, key, 0, 4)
      ensures Reachable(ks, t, key)
    {
      forall i | 0 <= i < |t.slots| && t.slots[i].Full? && t.slots[i].key == key
        ensures PathTaken(ks, t, key, 0, Psl(ks, t, key, i))
      {
        assert Placed(ks, t, i, lo);
      }
    }

    // ---------------- lifecycle ----------------

    constructor (ks: Keys<K>, bits: nat)
      requires bits >= 3
      ensures this.ks == ks && Valid(map[], 0) && slots.Length == Pow2(bits) && fresh(slots) && fresh(route)
    {
      this.ks, this.bits, usedLimit := ks, bits, Limit(Pow2(bits));
      slots := new Slot<K, V>[Pow2(bits)](_ => Empty);
      route := new byte[Pow2(bits)](_ => 0);
      new;
      EmptyTable(ks, Tab());
    }

    // Puts an entry of the old arrays into the new ones.
    method Reinsert(key: K, val: V, ghost m: map<K, V>)
      requires Valid(m, 0) && key !in m && |m| < Limit(slots.Length)
      modifies slots, route, `usedLimit
      ensures Valid(m[key := val], 0)
    {
      hide Ordered, Unique, Holds, HasRoom, Reachable, PutInFront;
      RoomLeft(Tab(), m);
      OrderedReachable(ks, Tab(), key);
      InsertNoResize(key, val, ks.hash(key), m, 0);
    }

    // Moves every entry to fresh arrays of another size, in order again.
    method Resize(newBits: nat, ghost m: map<K, V>, ghost lo: nat)
      requires Stores(m, lo) && newBits >= 3 && |m| < Limit(Pow2(newBits))
      modifies this
      ensures Valid(m, 0) && slots.Length == Pow2(newBits) && fresh(slots) && fresh(route)
    {
      hide Ordered, Unique, Holds, Entries, Pow2, Valid;
      var old_, n := slots, slots.Length;
      ghost var t, s := Tab(), slots[..];
      EntriesAre(Tab(), m);
      bits, usedLimit := newBits, Limit(Pow2(newBits));
      slots := new Slot<K, V>[Pow2(newBits)](_ => Empty);
      route := new byte[Pow2(newBits)](_ => 0);
      NothingStored();
      EntriesStep(s, 0);
      for i := 0 to n
        invariant fresh(slots) && fresh(route) && slots.Length == Pow2(newBits) && old_[..] == s && |s| == n
        invariant Valid(Entries(s, i), 0) && |Entries(s, i)| <= |m|
      {
        EntriesStep(s, i);
        assert old_[i] == s[i];
        if old_[i].Full? {
          NextEntry(t, m, i);
          Reinsert(old_[i].key, old_[i].val, Entries(s, i));
        }
      }
    }

    lemma NothingStored()
      requires Tab().Sized() && usedLimit == Limit(slots.Length)
      requires forall i :: 0 <= i < slots.Length ==> slots[i] == Empty
      ensures Valid(map[], 0)
    {
      EmptyTable(ks, Tab());
    }

    // ---------------- pointer identity ----------------

    // A stored key that an insertion does not find: a free slot stands on its
    // path, and no resize comes before.
    ghost predicate Hidden(key: K)
      requires Tab().Sized()
      reads this, slots, route
    {
      usedLimit > 0 && !Reachable(ks, Tab(), key)
    }

    // Insert or replace, doubling the arrays first when the load limit is
    // reached.  A hidden key, and no other, gets a second copy.
    method Set(key: K, val: V, ghost m: map<K, V>, ghost lo: nat)
      requires Valid(m, lo)
      modifies this, slots, route
      ensures !old(Hidden(key)) ==> Valid(m[key := val], lo)
      ensures old(Hidden(key)) ==> !Unique(Tab())
      ensures lo == 0 || key !in m ==> Valid(m[key := val], lo)
      ensures slots == old(slots) || fresh(slots)
      ensures route == old(route) || fresh(route)
    {
      hide Ordered, Unique, Holds, HasRoom, Reachable, PutInFront;
      if lo == 0 { OrderedReachable(ks, Tab(), key); }
      if key !in m { UnstoredReachable(key, m); }
      MakeRoom(m, lo);
      if old(usedLimit) == 0 { OrderedReachable(ks, Tab(), key); }
      InsertNoResize(key, val, ks.hash(key), m, lo);
    }

    lemma UnstoredReachable(key: K, m: map<K, V>)
      requires Tab().Sized() && Holds(Tab(), m) && key !in m
      ensures Reachable(ks, Tab(), key)
    {
    }

    method MakeRoom(ghost m: map<K, V>, ghost lo: nat)
      requires Valid(m, lo)
      modifies this
      ensures Valid(m, lo) && usedLimit > 0 && HasRoom(Tab())
      ensures if old(usedLimit) == 0 then Valid(m, 0) && fresh(slots) && fresh(route)
              else Tab() == old(Tab()) && slots == old(slots) && route == old(route)
    {
      hide Ordered, Unique, Holds, HasRoom;
      if usedLimit == 0 {
        Resize(bits + 1, m, lo);
        OrderedLess(ks, Tab(), 0, lo);
      }
      RoomLeft(Tab(), m);
    }

    // Pointer lookup: four probes, then as many as the route byte says; a
    // saturated byte means until a free slot.  It never misses a stored key.
    method FindInline(key: K, ghost m: map<K, V>, ghost lo: nat) returns (r: Option<nat>)
      requires Valid(m, lo)
      ensures r.Some? <==> key in m
      ensures r.Some? ==> r.value < slots.Length && slots[r.value] == Full(key, m[key])
    {
      hide Ordered, Unique, Holds, HasRoom, Home, RouteOf, Step, After, Missed, Offset, MaxPsl;
      ghost var t := Tab();
      var h := ks.hash(key);
      RouteIndexBound(h, bits);
      var b := route[RouteAt(key, h)];
      assert b == t.route[RouteOf(ks, t, key)];
      if Offset(b) == 0 {
        UnroutedAbsent(ks, t, key, lo);
        AbsentNotIn(t, m, key);
        return None;
      }
      var probes: int := MaxPsl(b);
      var pos: nat, d: nat := HomePos(key, h), 0;
      NothingMissed(t, key);
      while d < 4
        invariant d <= 4 && d < |t.slots| && pos == Step(Home(ks, t, key), d, |t.slots|)
        invariant Missed(ks, t, key, d)
      {
        assert slots[pos] == t.slots[pos];
        if slots[pos].Full? && slots[pos].key == key {
          EntryIn(t, m, pos);
          return Some(pos);
        }
        MissedNext(ks, t, key, d, pos);
        StepAfter(Home(ks, t, key), d, |t.slots|, 0);
        pos, d := After(pos, slots.Length), d + 1;
      }
      probes := probes - 4;
      if probes < 0 {
        ProbesDone(ks, t, key, d, lo);
        AbsentNotIn(t, m, key);
        return None;
      }
      if probes == 27 {
        r := ScanToFree(key, pos, d, m, lo);
      } else {
        r := ScanProbes(key, pos, d, probes, m, lo);
      }
    }

    lemma NothingMissed(t: Table<K, V>, key: K)
      requires t.Sized()
      ensures Missed(ks, t, key, 0) && |t.slots| >= 8
      ensures Step(Home(ks, t, key), 0, |t.slots|) == Home(ks, t, key)
    {
      Pow2Mono(3, t.bits);
      assert Pow2(3) == 8;
    }

    method ScanToFree(key: K, from: nat, dist: nat, ghost m: map<K, V>, ghost lo: nat) returns (r: Option<nat>)
      requires Valid(m, lo) && 4 <= dist < slots.Length
      requires from == Step(Home(ks, Tab(), key), dist, slots.Length) && Missed(ks, Tab(), key, dist)
      ensures r.Some? <==> key in m
      ensures r.Some? ==> r.value < slots.Length && slots[r.value] == Full(key, m[key])
    {
      hide Ordered, Unique, Holds, Home, RouteOf, Step, After, Missed, Dist, HasRoom;
      ghost var t := Tab();
      RoomLeft(t, m);
      ghost var free := FreeSlot(t);
      var pos: nat, d: nat := from, dist;
      while true
        invariant d >= 4 && pos < |t.slots| && (d < |t.slots| ==> pos == Step(Home(ks, t, key), d, |t.slots|))
        invariant Missed(ks, t, key, d)
        decreases Dist(pos, free, |t.slots|)
      {
        assert slots[pos] == t.slots[pos];
        if slots[pos].Full? && slots[pos].key == key {
          EntryIn(t, m, pos);
          return Some(pos);
        }
        if slots[pos].Empty? {
          FreeEnds(ks, t, key, d, lo);
          AbsentNotIn(t, m, key);
          return None;
        }
        MissedNext(ks, t, key, d, pos);
        if d + 1 < |t.slots| { StepAfter(Home(ks, t, key), d, |t.slots|, free); }
        AfterNearer(pos, |t.slots|, free);
        pos, d := After(pos, slots.Length), d + 1;
      }
    }

    method ScanProbes(key: K, from: nat, dist: nat, more: nat, ghost m: map<K, V>, ghost lo: nat) returns (r: Option<nat>)
      requires Valid(m, lo) && dist < slots.Length
      requires from == Step(Home(ks, Tab(), key), dist, slots.Length) && Missed(ks, Tab(), key, dist)
      requires MaxPsl(Tab().route[RouteOf(ks, Tab(), key)]) == dist + more < PSL_MAX
      ensures r.Some? <==> key in m
      ensures r.Some? ==> r.value < slots.Length && slots[r.value] == Full(key, m[key])
    {
      hide Ordered, Unique, Holds, Home, RouteOf, Step, After, Missed, HasRoom, MaxPsl;
      ghost var t := Tab();
      var pos: nat, d: nat, probes: int := from, dist, more;
      while probes >= 0
        invariant pos < |t.slots| && (d < |t.slots| ==> pos == Step(Home(ks, t, key), d, |t.slots|))
        invariant Missed(ks, t, key, d) && d + probes == dist + more && probes >= -1
      {
        assert slots[pos] == t.slots[pos];
        if slots[pos].Full? && slots[pos].key == key {
          EntryIn(t, m, pos);
          return Some(pos);
        }
        MissedNext(ks, t, key, d, pos);
        if d + 1 < |t.slots| { StepAfter(Home(ks, t, key), d, |t.slots|, 0); }
        pos, d, probes := After(pos, slots.Length), d + 1, probes - 1;
      }
      ProbesDone(ks, t, key, d, lo);
      AbsentNotIn(t, m, key);
      return None;
    }

    // ---------------- deletion ----------------

    // Removes the entry in a slot and shifts its successors back until a free
    // slot or an entry at its home.  The order is kept from the fourth probe on,
    // and all of it when the slot freed in the end is on no other key's path.
    method DeleteAt(at: nat, ghost m: map<K, V>, ghost lo: nat)
      requires Valid(m, lo) && HasRoom(Tab()) && at < slots.Length && slots[at].Full?
      modifies slots, `usedLimit
      ensures Tab() == Deleted(ks, old(Tab()), at) && Valid(m - {old(slots[at].key)}, 4)
      ensures lo == 0 && (forall k :: k != old(slots[at].key) ==> !Crossed(ks, old(Tab()), k, FreedSlot(ks, old(Tab()), at))) ==>
                Valid(m - {old(slots[at].key)}, 0)
    {
      hide Ordered, Unique, Holds, HasRoom, Home, RouteOf, Psl, Crossed, Dist, Stops, Slid, Hole, Shift, Deleted, FreedSlot;
      ghost var key, t0 := slots[at].key, Tab();
      EntryIn(t0, m, at);
      HoleHolds(t0, at, m);
      ghost var free, rest := FreeSlot(t0), m - {key};
      assert |m| == |rest| + 1;
      var pos := at;
      ghost var u := Hole(t0, at);
      HoleSized(t0, at, free);
      while true
        invariant u.Sized() && pos < slots.Length == |u.slots| && u.slots[free].Empty? && pos != free && u.slots[pos].Empty?
        invariant Tab().Sized() && Hole(Tab(), pos) == u && usedLimit == old(usedLimit)
        invariant Shift(ks, u, pos, free) == Shift(ks, Hole(t0, at), at, free)
        invariant Unique(u) && Holds(u, rest)
        decreases Dist(pos, free, slots.Length)
      {
        var next := After(pos, slots.Length);
        HoleStops(Tab(), u, pos);
        if slots[next].Empty? || SlotPsl(slots[next].key, next) == 0 {
          ShiftDone(t0, at, u, pos, free);
          break;
        }
        SlidHolds(u, pos, rest);
        ShiftStep(Tab(), u, pos, free);
        ghost var s := slots[..];
        slots[pos] := slots[next];
        assert slots[..] == s[pos := s[next]];
        u := Slid(u, pos);
        pos := next;
      }
      ghost var s := slots[..];
      slots[pos] := Empty;
      assert slots[..] == s[pos := Empty];
      assert Tab() == u by { HoleIs(Table(s, route[..], bits), pos); }
      usedLimit := usedLimit + 1;
      DeletedOrdered(ks, t0, at, lo);
      if lo == 0 { DeletedExactly(ks, t0, at); }
    }

    lemma HoleIs(t: Table<K, V>, pos: nat)
      requires pos < |t.slots|
      ensures Hole(t, pos) == Table(t.slots[pos := Empty], t.route, t.bits)
    {
    }

    lemma HoleSized(t: Table<K, V>, at: nat, free: nat)
      requires t.Sized() && at < |t.slots| && free < |t.slots| && t.slots[at].Full? && t.slots[free].Empty?
      ensures var u := Hole(t, at); u.Sized() && |u.slots| == |t.slots| && u.slots[free].Empty? && u.slots[at].Empty?
    {
    }

    // The array with the stale entry stops where the table with the hole does.
    lemma HoleStops(t: Table<K, V>, u: Table<K, V>, pos: nat)
      requires t.Sized() && u.Sized() && pos < |t.slots| && u == Hole(t, pos)
      ensures var next := After(pos, |t.slots|);
              && |t.slots| > 1 && next != pos
              && (Stops(ks, u, pos) <==> t.slots[next].Empty? || Psl(ks, t, t.slots[next].key, next) == 0)
    {
      Pow2Mono(3, t.bits);
      assert Pow2(3) == 8;
    }

    lemma ShiftDone(t: Table<K, V>, at: nat, u: Table<K, V>, pos: nat, free: nat)
      requires t.Sized() && HasRoom(t) && at < |t.slots| && t.slots[at].Full? && free == FreeSlot(t)
      requires u.Sized() && pos < |u.slots| == |t.slots| && u.slots[free].Empty? && pos != free && Stops(ks, u, pos)
      requires Shift(ks, u, pos, free) == Shift(ks, Hole(t, at), at, free)
      ensures Deleted(ks, t, at) == u
    {
    }

    // Copying the next entry is one step of the shifting.
    lemma ShiftStep(t: Table<K, V>, u: Table<K, V>, pos: nat, free: nat)
      requires t.Sized() && u.Sized() && pos < |t.slots| && u == Hole(t, pos) && |t.slots| > 1
      requires free < |t.slots| && free != pos && u.slots[free].Empty? && !Stops(ks, u, pos)
      ensures var next := After(pos, |t.slots|);
              var u' := Slid(u, pos);
              && u'.Sized() && |u'.slots| == |u.slots| && u'.slots[free].Empty? && next != free && u'.slots[next].Empty?
              && Hole(Table(t.slots[pos := t.slots[next]], t.route, t.bits), next) == u'
              && Shift(ks, u, pos, free) == Shift(ks, u', next, free)
              && Dist(next, free, |t.slots|) < Dist(pos, free, |t.slots|)
    {
      var next := After(pos, |t.slots|);
      AfterNearer(pos, |t.slots|, free);
      assert t.slots[pos := t.slots[next]][next := Empty] == Slid(u, pos).slots;
    }

    // Removes a key by pointer; false if it is not there.
    method Delete(key: K, ghost m: map<K, V>, ghost lo: nat) returns (removed: bool)
      requires Valid(m, lo)
      modifies slots, `usedLimit
      ensures removed <==> key in m
      ensures Valid(m - {key}, 4) && (!removed ==> Valid(m - {key}, lo))
    {
      hide Ordered, Unique, Holds, HasRoom;
      var kv := FindInline(key, m, lo);
      if kv.None? {
        assert m - {key} == m;
        OrderedLess(ks, Tab(), lo, 4);
        return false;
      }
      RoomLeft(Tab(), m);
      DeleteAt(kv.value, m, lo);
      return true;
    }

    lemma Weaken(m: map<K, V>, lo: nat)
      requires Valid(m, lo)
      ensures Valid(m, 4)
    {
      OrderedLess(ks, Tab(), lo, 4);
    }

    ghost function Applied(m: map<K, V>, op: TableOp<K, V>): map<K, V> {
      if op.SetTo? then m[op.key := op.val] else m - {op.key}
    }

    // One operation of a run; a key set after a deletion is a new one.
    method Apply(op: TableOp<K, V>, ghost m: map<K, V>, ghost lo: nat) returns (ghost lo': nat)
      requires Valid(m, lo) && (lo == 0 || (lo == 4 && (op.SetTo? ==> op.key !in m)))
      modifies this, slots, route
      ensures Valid(Applied(m, op), lo') && lo' == if op.Remove? then 4 else lo
      ensures (slots == old(slots) || fresh(slots)) && (route == old(route) || fresh(route))
    {
      hide Valid, Hidden, Unique, Tab;
      lo' := lo;
      match op {
        case SetTo(k, v) => Set(k, v, m, lo);
        case Remove(k) =>
          var _ := Delete(k, m, lo);
          lo' := 4;
      }
    }

    // Any run of insertions and deletions in which a key that is set after a
    // deletion is not in the map then: the table holds what the operations say.
    method Replay(ops: seq<TableOp<K, V>>)
      requires Valid(map[], 0) && SetsAreNew(ops)
      modifies this, slots, route
      ensures Valid(Result(ops, |ops|), 4)
      ensures (forall i :: 0 <= i < |ops| ==> ops[i].SetTo?) ==> Valid(Result(ops, |ops|), 0)
    {
      hide Valid, Result, Tab, SetsAreNew;
      ghost var lo: nat, n: nat := 0, 0;
      ResultStep(ops, 0);
      for i := 0 to |ops|
        invariant Valid(Result(ops, i), lo) && (lo == 0 || lo == 4)
        invariant lo == 4 ==> n < i && ops[n].Remove?
        invariant (slots == old(slots) || fresh(slots)) && (route == old(route) || fresh(route))
      {
        ResultStep(ops, i);
        if lo == 4 { NewKey(ops, n, i); }
        lo := Apply(ops[i], Result(ops, i), lo);
        if ops[i].Remove? { n := i; }
      }
      Weaken(Result(ops, |ops|), lo);
    }

    lemma NewKey(ops: seq<TableOp<K, V>>, i: nat, j: nat)
      requires SetsAreNew(ops) && i < j < |ops| && ops[i].Remove?
      ensures ops[j].SetTo? ==> ops[j].key !in Result(ops, j)
    {
    }

    // ---------------- object identity ----------------

    // Identity lookup: stops at a free slot, and after at most 256 probes.  It
    // finds an equal key exactly when one is within reach behind no free slot.
    method FindHash(key: K, h: uint32, ghost m: map<K, V>, ghost lo: nat) returns (r: Option<nat>)
      requires Valid(m, lo) && Lawful(ks) && h == ks.hash(key)
      ensures r.Some? ==> r.value < slots.Length && InSight(ks, Tab(), key, r.value)
      ensures r.None? ==> forall i :: 0 <= i < slots.Length ==> !InSight(ks, Tab(), key, i)
    {
      hide Ordered, Unique, Holds, Lawful, Home, RouteOf, Step, After, Passed, Offset, MaxPsl, Psl, InSight;
      ghost var t := Tab();
      RouteIndexBound(h, bits);
      var b := route[RouteAt(key, h)];
      assert b == t.route[RouteOf(ks, t, key)];
      if Offset(b) == 0 {
        UnroutedUnseen(ks, t, key, lo);
        return None;
      }
      var probes: int := MaxPsl(b);
      var pos: nat, d: nat := HomePos(key, h), 0;
      NothingPassed(t, key);
      if probes == 31 { probes := 0xFF; }
      ghost var last := probes;
      while probes >= 0
        invariant pos < |t.slots| && (d < |t.slots| ==> pos == Step(Home(ks, t, key), d, |t.slots|))
        invariant Passed(ks, t, key, d) && d + probes == last && -1 <= probes <= last <= REACH
      {
        assert slots[pos] == t.slots[pos];
        if slots[pos].Empty? {
          FreeHides(t, key, d, pos, lo);
          return None;
        }
        if ks.same(key, slots[pos].key) {
          MetEqual(t, key, d, pos);
          return Some(pos);
        }
        Unequal(slots[pos].key, key);
        PassedNext(ks, t, key, d, pos);
        if d + 1 < |t.slots| { StepAfter(Home(ks, t, key), d, |t.slots|, 0); }
        pos, d, probes := After(pos, slots.Length), d + 1, probes - 1;
      }
      OutOfSight(ks, t, key, d, lo);
      return None;
    }

    lemma NothingPassed(t: Table<K, V>, key: K)
      requires t.Sized()
      ensures Passed(ks, t, key, 0) && Step(Home(ks, t, key), 0, |t.slots|) == Home(ks, t, key)
    {
    }

    lemma Unequal(a: K, b: K)
      requires Lawful(ks) && !ks.same(b, a)
      ensures !ks.same(a, b)
    {
    }

    lemma MetEqual(t: Table<K, V>, key: K, d: nat, pos: nat)
      requires Lawful(ks) && t.Sized() && Passed(ks, t, key, d) && d <= REACH
      requires pos < |t.slots| && t.slots[pos].Full? && ks.same(key, t.slots[pos].key)
      requires d < |t.slots| ==> pos == Step(Home(ks, t, key), d, |t.slots|)
      ensures InSight(ks, t, key, pos)
    {
      MetInSight(ks, t, key, d, pos);
    }

    // A free slot hides what is behind it; having gone round, nothing is.
    lemma FreeHides(t: Table<K, V>, key: K, d: nat, pos: nat, lo: nat)
      requires Lawful(ks) && Ordered(ks, t, lo) && Passed(ks, t, key, d) && pos < |t.slots| && t.slots[pos].Empty?
      requires d < |t.slots| ==> pos == Step(Home(ks, t, key), d, |t.slots|)
      ensures forall i :: 0 <= i < |t.slots| ==> !InSight(ks, t, key, i)
    {
      if d < |t.slots| {
        OutOfSight(ks, t, key, d, lo);
      } else {
        forall i | 0 <= i < |t.slots|
          ensures !InSight(ks, t, key, i)
        {
          if EqualAt(ks, t, key, i) { PassedBy(ks, t, key, d, i); }
        }
      }
    }

    // Insert or replace by identity: `at` is the key whose value was set, an
    // equal one in sight or the key itself.  In a table in order the result has
    // two equal keys exactly when there was a far twin.
    method PutIdent(key: K, val: V, ghost m: map<K, V>, ghost lo: nat) returns (ghost at: K)
      requires Valid(m, lo) && Lawful(ks)
      modifies this, slots, route
      ensures ks.same(at, key) && (at == key || at in m)
      ensures (exists i :: 0 <= i < |old(Tab()).slots| && InSight(ks, old(Tab()), key, i)) ==> at in m && Valid(m[at := val], lo)
      ensures (forall i :: 0 <= i < |old(Tab()).slots| ==> !InSight(ks, old(Tab()), key, i)) ==>
                && at == key
                && (if old(Hidden(key)) then !Unique(Tab()) else Valid(m[at := val], lo))
      ensures lo == 0 ==> Valid(m[at := val], 0)
      ensures lo == 0 && Distinct(ks, m) ==> (Distinct(ks, m[at := val]) <==> !FarTwin(ks, old(Tab()), key))
      ensures slots == old(slots) || fresh(slots)
      ensures route == old(route) || fresh(route)
    {
      hide Ordered, Unique, Holds, Lawful, Psl, Distinct, FarTwin, InSight, Hidden, Reachable;
      var h := ks.hash(key);
      var kv := FindHash(key, h, m, lo);
      if kv.Some? {
        FoundEqual(Tab(), m, key, val, kv.value);
        at := slots[kv.value].key;
        ReplaceAt(kv.value, val, m, lo);
        return;
      }
      at := key;
      assert ks.same(key, key) by { Reflexive(key); }
      if lo == 0 && Distinct(ks, m) { MissedTwin(ks, Tab(), m, key, val); }
      Set(key, val, m, lo);
    }

    lemma Reflexive(key: K)
      requires Lawful(ks)
      ensures ks.same(key, key)
    {
    }

    lemma FoundEqual(t: Table<K, V>, m: map<K, V>, key: K, val: V, i: nat)
      requires Lawful(ks) && t.Sized() && Unique(t) && Holds(t, m) && i < |t.slots| && InSight(ks, t, key, i)
      ensures t.slots[i].Full? && t.slots[i].key in m && ks.same(t.slots[i].key, key)
      ensures Distinct(ks, m) ==> Distinct(ks, m[t.slots[i].key := val]) && !FarTwin(ks, t, key)
    {
      if Distinct(ks, m) { FoundNoTwin(ks, t, m, key, i); }
    }

    lemma FoundEqualAny(t: Table<K, V>, m: map<K, V>, key: K, i: nat)
      requires Lawful(ks) && t.Sized() && Unique(t) && Holds(t, m) && i < |t.slots| && InSight(ks, t, key, i)
      ensures t.slots[i].Full? && t.slots[i].key in m && ks.same(t.slots[i].key, key)
    {
      FoundEqual(t, m, key, t.slots[i].val, i);
    }

    // Removes by identity.
    method RemoveIdent(key: K, ghost m: map<K, V>, ghost lo: nat) returns (removed: bool, ghost at: K)
      requires Valid(m, lo) && Lawful(ks)
      modifies slots, `usedLimit
      ensures removed <==> exists i :: 0 <= i < |old(Tab()).slots| && InSight(ks, old(Tab()), key, i)
      ensures removed ==> at in m && ks.same(at, key) && Valid(m - {at}, 4)
      ensures !removed ==> Valid(m, lo)
    {
      hide Ordered, Unique, Holds, Lawful, Psl, InSight, HasRoom, Distinct, FarTwin;
      at := key;
      ghost var t := Tab();
      var kv := FindHash(key, ks.hash(key), m, lo);
      removed := kv.Some?;
      assert t == Tab() && |t.slots| == slots.Length;
      assert removed <==> exists i :: 0 <= i < |t.slots| && InSight(ks, t, key, i);
      if removed {
        FoundEqualAny(t, m, key, kv.value);
        at := slots[kv.value].key;
        RoomLeft(Tab(), m);
        DeleteAt(kv.value, m, lo);
      }
    }

    // Any run of settings by identity with at most 256 different keys: equal
    // keys share one entry, which holds what was last set for any of them.
    method PutAll(keys: seq<K>, vals: seq<V>) returns (ghost m: map<K, V>)
      requires Valid(map[], 0) && Lawful(ks) && |keys| == |vals| && |set k | k in keys| <= REACH + 1
      modifies this, slots, route
      ensures Valid(m, 0) && Distinct(ks, m) && forall k :: k in m ==> k in keys
      ensures forall i :: 0 <= i < |keys| ==> LastFor(keys, vals, |keys|, i, m)
    {
      hide Ordered, Unique, Holds, Lawful, Psl, InSight, HasRoom, Distinct, FarTwin, Tab, Valid, Hidden;
      m := map[];
      NothingEqual(m);
      for n := 0 to |keys|
        invariant Valid(m, 0) && Distinct(ks, m) && forall k :: k in m ==> k in keys
        invariant forall i :: 0 <= i < n ==> LastFor(keys, vals, n, i, m)
        invariant (slots == old(slots) || fresh(slots)) && (route == old(route) || fresh(route))
      {
        NoTwin(m, keys[n], keys);
        ghost var at := PutIdent(keys[n], vals[n], m, 0);
        LastStep(keys, vals, n, m, at, n + 1, m[at := vals[n]]);
        m := m[at := vals[n]];
      }
    }

    // Unless an equal key follows among the first n, the value of the i-th
    // stands under a key equal to it.
    ghost predicate LastFor(keys: seq<K>, vals: seq<V>, n: nat, i: nat, m: map<K, V>)
      requires i < n <= |keys| == |vals|
    {
      (forall j :: i < j < n ==> !ks.same(keys[j], keys[i])) ==> exists k :: k in m && ks.same(k, keys[i]) && m[k] == vals[i]
    }

    lemma LastStep(keys: seq<K>, vals: seq<V>, n: nat, m: map<K, V>, at: K, n': nat, m': map<K, V>)
      requires Lawful(ks) && n < |keys| == |vals| && ks.same(at, keys[n]) && n' == n + 1 && m' == m[at := vals[n]]
      requires forall i :: 0 <= i < n ==> LastFor(keys, vals, n, i, m)
      ensures forall i :: 0 <= i < n' ==> LastFor(keys, vals, n', i, m')
    {
      assert at in m' && m'[at] == vals[n];
      forall i | 0 <= i < n && forall j :: i < j < n' ==> !ks.same(keys[j], keys[i])
        ensures exists k :: k in m' && ks.same(k, keys[i]) && m'[k] == vals[i]
      {
        assert LastFor(keys, vals, n, i, m);
        var k :| k in m && ks.same(k, keys[i]) && m[k] == vals[i];
        Unlike(at, keys[n], k, keys[i]);
        assert k in m' && m'[k] == vals[i];
      }
    }

    lemma Unlike(a: K, b: K, c: K, d: K)
      requires Lawful(ks) && ks.same(a, b) && ks.same(c, d) && !ks.same(b, d)
      ensures a != c
    {
    }

    lemma NothingEqual(m: map<K, V>)
      requires m == map[]
      ensures Distinct(ks, m)
    {
    }

    // With at most 256 entries none is more than 255 slots from its home.
    lemma NoTwin(m: map<K, V>, key: K, keys: seq<K>)
      requires Valid(m, 0) && (forall k :: k in m ==> k in keys) && |set k | k in keys| <= REACH + 1
      ensures !FarTwin(ks, Tab(), key)
    {
      var all := set k | k in keys;
      assert m.Keys <= all;
      FewerKeys(m.Keys, all);
      forall i | 0 <= i < slots.Length && Tab().slots[i].Full?
        ensures Psl(ks, Tab(), Tab().slots[i].key, i) <= REACH
      {
        PslBelowCount(ks, Tab(), m, i);
      }
    }

    lemma FewerKeys(a: set<K>, b: set<K>)
      requires a <= b
      ensures |a| <= |b|
    {
      assert b == a + (b - a);
    }
  }
}
