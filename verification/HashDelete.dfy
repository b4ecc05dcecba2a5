// Deleting from the table: one slot is emptied and the entries behind it are
// shifted back.  What is left of the order, exactly when all of it is left, and
// which stored keys are hidden otherwise.
module HashDelete {
  import opened HashTable

  // The table with one slot emptied.
  ghost function Hole<K, V>(t: Table<K, V>, pos: nat): Table<K, V>
    requires pos < |t.slots|
  {
    Table(t.slots[pos := Empty], t.route, t.bits)
  }

  // The entry behind the hole has moved into it, one slot nearer to its home.
  ghost function Slid<K, V>(u: Table<K, V>, pos: nat): Table<K, V>
    requires pos < |u.slots|
  {
    var next := After(pos, |u.slots|);
    Table(u.slots[pos := u.slots[next]][next := Empty], u.route, u.bits)
  }

  // The shifting stops in front of a free slot and of an entry at its home.
  ghost predicate Stops<K, V>(ks: Keys<K>, u: Table<K, V>, pos: nat)
    requires u.Sized() && pos < |u.slots|
  {
    var next := After(pos, |u.slots|);
    u.slots[next].Empty? || Psl(ks, u, u.slots[next].key, next) == 0
  }

  // The table after the shifting, and where the hole is then.  Some other slot
  // is free, so it comes to an end.
  ghost function Shift<K, V>(ks: Keys<K>, u: Table<K, V>, pos: nat, free: nat): (r: (Table<K, V>, nat))
    requires u.Sized() && pos < |u.slots| && free < |u.slots| && u.slots[free].Empty? && pos != free
    ensures r.0.Sized() && |r.0.slots| == |u.slots| && r.1 < |u.slots|
    ensures Dist(r.1, free, |u.slots|) <= Dist(pos, free, |u.slots|)
    decreases Dist(pos, free, |u.slots|)
  {
    if Stops(ks, u, pos) then (u, pos)
    else
      AfterNearer(pos, |u.slots|, free);
      Shift(ks, Slid(u, pos), After(pos, |u.slots|), free)
  }

  ghost function FreeSlot<K, V>(t: Table<K, V>): (free: nat)
    requires HasRoom(t)
    ensures free < |t.slots| && t.slots[free].Empty?
  {
    var free :| 0 <= free < |t.slots| && t.slots[free].Empty?;
    free
  }

  ghost function Deleted<K, V>(ks: Keys<K>, t: Table<K, V>, at: nat): (u: Table<K, V>)
    requires t.Sized() && HasRoom(t) && at < |t.slots| && t.slots[at].Full?
    ensures u.Sized() && |u.slots| == |t.slots|
  {
    Shift(ks, Hole(t, at), at, FreeSlot(t)).0
  }

  // The slot freed in the end, found on the table as it was: the last one
  // before a free slot or an entry at its home.
  ghost function LastShifted<K, V>(ks: Keys<K>, t: Table<K, V>, pos: nat, free: nat): (e: nat)
    requires t.Sized() && pos < |t.slots| && free < |t.slots| && t.slots[free].Empty? && pos != free
    ensures e < |t.slots|
    decreases Dist(pos, free, |t.slots|)
  {
    if Stops(ks, t, pos) then pos
    else
      AfterNearer(pos, |t.slots|, free);
      LastShifted(ks, t, After(pos, |t.slots|), free)
  }

  ghost function FreedSlot<K, V>(ks: Keys<K>, t: Table<K, V>, at: nat): (e: nat)
    requires t.Sized() && HasRoom(t) && at < |t.slots| && t.slots[at].Full?
    ensures e < |t.slots|
  {
    LastShifted(ks, t, at, FreeSlot(t))
  }

  // The shifting looks only at slots it has not touched yet.
  lemma {:induction false} ShiftEnds<K, V>(ks: Keys<K>, u: Table<K, V>, t: Table<K, V>, pos: nat, free: nat)
    requires u.Sized() && pos < |u.slots| && free < |u.slots| && u.slots[free].Empty? && pos != free
    requires t.Sized() && t.route == u.route && t.bits == u.bits && |t.slots| == |u.slots| && t.slots[free].Empty?
    requires forall j :: 0 <= j < |u.slots| && Dist(j, free, |u.slots|) < Dist(pos, free, |u.slots|) ==> u.slots[j] == t.slots[j]
    ensures Shift(ks, u, pos, free).1 == LastShifted(ks, t, pos, free)
    decreases Dist(pos, free, |u.slots|)
  {
    var n := |u.slots|;
    var next := After(pos, n);
    AfterNearer(pos, n, free);
    assert u.slots[next] == t.slots[next];
    if !Stops(ks, u, pos) {
      var u' := Slid(u, pos);
      forall j | 0 <= j < n && Dist(j, free, n) < Dist(next, free, n)
        ensures u'.slots[j] == t.slots[j]
      {
      }
      ShiftEnds(ks, u', t, next, free);
    }
  }

  lemma DeletedEnds<K, V>(ks: Keys<K>, t: Table<K, V>, at: nat)
    requires t.Sized() && HasRoom(t) && at < |t.slots| && t.slots[at].Full?
    ensures Shift(ks, Hole(t, at), at, FreeSlot(t)).1 == FreedSlot(ks, t, at)
  {
    ShiftEnds(ks, Hole(t, at), t, at, FreeSlot(t));
  }

  // ---------------- the order around a hole ----------------

  // The entry's path is taken from lo on, but for the hole.
  ghost predicate PlacedBut<K, V>(ks: Keys<K>, u: Table<K, V>, i: nat, hole: nat, lo: nat)
    requires u.Sized() && i < |u.slots| && u.slots[i].Full?
  {
    var key := u.slots[i].key;
    && InBound(ks, u, key, i)
    && forall d :: lo <= d < Psl(ks, u, key, i) ==> Step(Home(ks, u, key), d, |u.slots|) == hole || TakenAt(ks, u, key, d)
  }

  ghost predicate OrderedBut<K, V>(ks: Keys<K>, u: Table<K, V>, hole: nat, lo: nat) {
    && u.Sized() && hole < |u.slots| && u.slots[hole].Empty?
    && forall i :: 0 <= i < |u.slots| && u.slots[i].Full? ==> PlacedBut(ks, u, i, hole, lo)
  }

  lemma HoleOrdered<K, V>(ks: Keys<K>, t: Table<K, V>, at: nat, lo: nat)
    requires Ordered(ks, t, lo) && at < |t.slots|
    ensures OrderedBut(ks, Hole(t, at), at, lo)
  {
    var u := Hole(t, at);
    forall i | 0 <= i < |u.slots| && u.slots[i].Full?
      ensures PlacedBut(ks, u, i, at, lo)
    {
      assert Placed(ks, t, i, lo);
      var key := u.slots[i].key;
      forall d | lo <= d < Psl(ks, u, key, i) && Step(Home(ks, u, key), d, |u.slots|) != at
        ensures TakenAt(ks, u, key, d)
      {
        assert TakenAt(ks, t, key, d);
      }
    }
  }

  // A path through the hole goes on through the slot behind it.
  lemma SlidOrdered<K, V>(ks: Keys<K>, u: Table<K, V>, pos: nat, lo: nat)
    requires OrderedBut(ks, u, pos, lo) && !Stops(ks, u, pos)
    ensures OrderedBut(ks, Slid(u, pos), After(pos, |u.slots|), lo)
  {
    var n, u' := |u.slots|, Slid(u, pos);
    var next := After(pos, n);
    forall i | 0 <= i < n && u'.slots[i].Full?
      ensures PlacedBut(ks, u', i, next, lo)
    {
      var from := if i == pos then next else i;
      var key := u'.slots[i].key;
      assert u.slots[from] == u'.slots[i] && PlacedBut(ks, u, from, pos, lo);
      forall d | lo <= d < Psl(ks, u', key, i) && Step(Home(ks, u', key), d, n) != next
        ensures TakenAt(ks, u', key, d)
      {
        SlidTaken(ks, u, pos, lo, from, d);
      }
    }
  }

  lemma SlidTaken<K, V>(ks: Keys<K>, u: Table<K, V>, pos: nat, lo: nat, from: nat, d: nat)
    requires OrderedBut(ks, u, pos, lo) && !Stops(ks, u, pos) && from < |u.slots| && u.slots[from].Full?
    requires var key := u.slots[from].key;
             && PlacedBut(ks, u, from, pos, lo)
             && lo <= d < Psl(ks, u, key, from) - (if from == After(pos, |u.slots|) then 1 else 0)
             && Step(Home(ks, u, key), d, |u.slots|) != After(pos, |u.slots|)
    ensures TakenAt(ks, Slid(u, pos), u.slots[from].key, d)
  {
    var n, u', key := |u.slots|, Slid(u, pos), u.slots[from].key;
    var next, p := After(pos, n), Psl(ks, u, key, from);
    var at := Step(Home(ks, u, key), d, n);
    if at == pos {
      assert Step(Home(ks, u, key), d + 1, n) == next;
      assert d + 1 < p;
      assert TakenAt(ks, u, key, d + 1);
      var moved := u.slots[next].key;
      assert Psl(ks, u', moved, pos) == Psl(ks, u, moved, next) - 1;
    } else {
      assert TakenAt(ks, u, key, d);
      assert u'.slots[at] == u.slots[at];
    }
  }

  // Where the shifting stops no path from the fourth probe on leads through
  // the hole.
  lemma StoppedOrdered<K, V>(ks: Keys<K>, u: Table<K, V>, pos: nat, lo: nat)
    requires OrderedBut(ks, u, pos, lo) && Stops(ks, u, pos) && lo <= 4
    ensures Ordered(ks, u, 4)
  {
    var n := |u.slots|;
    var next := After(pos, n);
    forall i | 0 <= i < n && u.slots[i].Full?
      ensures Placed(ks, u, i, 4)
    {
      var key := u.slots[i].key;
      assert PlacedBut(ks, u, i, pos, lo);
      forall d | 4 <= d < Psl(ks, u, key, i)
        ensures TakenAt(ks, u, key, d)
      {
        assert Step(Home(ks, u, key), d, n) == pos ==> Step(Home(ks, u, key), d + 1, n) == next;
        assert d + 1 < Psl(ks, u, key, i) ==> Step(Home(ks, u, key), d + 1, n) == pos || TakenAt(ks, u, key, d + 1);
      }
    }
  }

  // ---------------- keys on both sides of a hole ----------------

  // The slot e lies on the path of the stored key.
  ghost predicate Crossed<K, V>(ks: Keys<K>, t: Table<K, V>, key: K, e: nat)
    requires t.Sized() && e < |t.slots|
  {
    exists i :: 0 <= i < |t.slots| && t.slots[i].Full? && t.slots[i].key == key && Dist(Home(ks, t, key), e, |t.slots|) < Psl(ks, t, key, i)
  }

  // The moved entry is one slot nearer to its home, the others are where they were.
  lemma SlidEntry<K, V>(ks: Keys<K>, u: Table<K, V>, pos: nat, i: nat)
    requires u.Sized() && pos < |u.slots| && u.slots[pos].Empty? && !Stops(ks, u, pos) && i < |u.slots| && u.slots[i].Full?
    ensures var u', next, key := Slid(u, pos), After(pos, |u.slots|), u.slots[i].key;
            var j := if i == next then pos else i;
            && u'.slots[j] == u.slots[i] && Home(ks, u', key) == Home(ks, u, key)
            && Psl(ks, u', key, j) == Psl(ks, u, key, i) - (if i == next then 1 else 0)
  {
  }

  lemma SlidBack<K, V>(ks: Keys<K>, u: Table<K, V>, pos: nat, j: nat)
    requires u.Sized() && pos < |u.slots| && u.slots[pos].Empty? && !Stops(ks, u, pos)
    requires j < |u.slots| && Slid(u, pos).slots[j].Full?
    ensures var next := After(pos, |u.slots|);
            var i := if j == pos then next else j;
            i != pos && j != next && u.slots[i] == Slid(u, pos).slots[j]
  {
  }

  // It passes only the slot it moves to.
  lemma SlidCrossed<K, V>(ks: Keys<K>, u: Table<K, V>, pos: nat, key: K, e: nat)
    requires u.Sized() && pos < |u.slots| && u.slots[pos].Empty? && !Stops(ks, u, pos) && e < |u.slots| && e != pos
    ensures Crossed(ks, Slid(u, pos), key, e) <==> Crossed(ks, u, key, e)
  {
    hide Home, Slid, Stops;
    SlidSized(u, pos);
    var n, u' := |u.slots|, Slid(u, pos);
    var next, h := After(pos, n), Home(ks, u, key);
    if Crossed(ks, u, key, e) {
      var i :| 0 <= i < n && u.slots[i].Full? && u.slots[i].key == key && Dist(h, e, n) < Psl(ks, u, key, i);
      SlidEntry(ks, u, pos, i);
      var j := if i == next then pos else i;
      assert Dist(h, e, n) < Psl(ks, u', key, j) by { NotPassed(h, e, pos, n); }
    }
    if Crossed(ks, u', key, e) {
      var h' := Home(ks, u', key);
      var j :| 0 <= j < n && u'.slots[j].Full? && u'.slots[j].key == key && Dist(h', e, n) < Psl(ks, u', key, j);
      SlidBack(ks, u, pos, j);
      var i := if j == pos then next else j;
      SlidEntry(ks, u, pos, i);
      assert Dist(h, e, n) < Psl(ks, u, key, i);
    }
  }

  lemma SlidSized<K, V>(u: Table<K, V>, pos: nat)
    requires u.Sized() && pos < |u.slots|
    ensures Slid(u, pos).Sized() && |Slid(u, pos).slots| == |u.slots|
  {
  }

  lemma NotPassed(h: nat, e: nat, pos: nat, n: nat)
    requires h < n && e < n && pos < n && e != pos
    ensures Dist(h, e, n) != Dist(h, pos, n)
  {
  }

  // ---------------- the whole shifting ----------------

  lemma {:induction false} ShiftKeeps<K, V>(ks: Keys<K>, u: Table<K, V>, pos: nat, free: nat, lo: nat)
    requires free < |u.slots| && pos != free && OrderedBut(ks, u, pos, lo) && u.slots[free].Empty?
    ensures var (v, e) := Shift(ks, u, pos, free);
            && OrderedBut(ks, v, e, lo) && Stops(ks, v, e)
            && forall key :: Crossed(ks, v, key, e) <==> Crossed(ks, u, key, e)
    decreases Dist(pos, free, |u.slots|)
  {
    hide Crossed, OrderedBut;
    HoleEmpty(ks, u, pos, lo);
    if !Stops(ks, u, pos) {
      var next := After(pos, |u.slots|);
      AfterNearer(pos, |u.slots|, free);
      SlidOrdered(ks, u, pos, lo);
      ShiftKeeps(ks, Slid(u, pos), next, free, lo);
      var e := Shift(ks, u, pos, free).1;
      assert e != pos;
      forall key
        ensures Crossed(ks, Slid(u, pos), key, e) <==> Crossed(ks, u, key, e)
      {
        SlidCrossed(ks, u, pos, key, e);
      }
    }
  }

  lemma HoleEmpty<K, V>(ks: Keys<K>, u: Table<K, V>, pos: nat, lo: nat)
    requires OrderedBut(ks, u, pos, lo)
    ensures u.Sized() && pos < |u.slots| && u.slots[pos].Empty?
  {
  }

  // Whatever the table's order, from the fourth probe on it is kept.
  lemma DeletedOrdered<K, V>(ks: Keys<K>, t: Table<K, V>, at: nat, lo: nat)
    requires Ordered(ks, t, lo) && lo <= 4 && HasRoom(t) && at < |t.slots| && t.slots[at].Full?
    ensures Ordered(ks, Deleted(ks, t, at), 4)
  {
    HoleOrdered(ks, t, at, lo);
    ShiftKeeps(ks, Hole(t, at), at, FreeSlot(t), lo);
    var (v, e) := Shift(ks, Hole(t, at), at, FreeSlot(t));
    StoppedOrdered(ks, v, e, lo);
  }

  // All of it is kept exactly when the slot freed in the end lies on the path
  // of no other stored key.
  lemma DeletedExactly<K(!new), V>(ks: Keys<K>, t: Table<K, V>, at: nat)
    requires Ordered(ks, t, 0) && Unique(t) && HasRoom(t) && at < |t.slots| && t.slots[at].Full?
    ensures Ordered(ks, Deleted(ks, t, at), 0)
            <==> forall key :: key != t.slots[at].key ==> !Crossed(ks, t, key, FreedSlot(ks, t, at))
  {
    var u, e := Deleted(ks, t, at), FreedSlot(ks, t, at);
    DeletedCrossed(ks, t, at);
    forall i | 0 <= i < |u.slots| && u.slots[i].Full?
      ensures Placed(ks, u, i, 0) <==> Dist(Home(ks, u, u.slots[i].key), e, |u.slots|) >= Psl(ks, u, u.slots[i].key, i)
    {
      PlacedExactly(ks, u, e, i);
    }
    if Ordered(ks, u, 0) {
      assert forall i :: 0 <= i < |u.slots| && u.slots[i].Full? ==> Placed(ks, u, i, 0);
    } else {
      var i :| 0 <= i < |u.slots| && u.slots[i].Full? && !Placed(ks, u, i, 0);
      assert Crossed(ks, u, u.slots[i].key, e);
    }
  }

  lemma PlacedExactly<K, V>(ks: Keys<K>, u: Table<K, V>, e: nat, i: nat)
    requires OrderedBut(ks, u, e, 0) && i < |u.slots| && u.slots[i].Full?
    ensures Placed(ks, u, i, 0) <==> Dist(Home(ks, u, u.slots[i].key), e, |u.slots|) >= Psl(ks, u, u.slots[i].key, i)
  {
    var key, n := u.slots[i].key, |u.slots|;
    var d := Dist(Home(ks, u, key), e, n);
    assert PlacedBut(ks, u, i, e, 0);
    assert d < Psl(ks, u, key, i) ==> !TakenAt(ks, u, key, d);
    forall x | 0 <= x < Psl(ks, u, key, i) && x != d
      ensures TakenAt(ks, u, key, x)
    {
      assert Step(Home(ks, u, key), x, n) != e;
    }
  }

  // The keys crossed by the freed slot are those it crosses on the table before.
  lemma DeletedCrossed<K(!new), V>(ks: Keys<K>, t: Table<K, V>, at: nat)
    requires Ordered(ks, t, 0) && Unique(t) && HasRoom(t) && at < |t.slots| && t.slots[at].Full?
    ensures var u, e := Deleted(ks, t, at), FreedSlot(ks, t, at);
            && OrderedBut(ks, u, e, 0)
            && forall key :: Crossed(ks, u, key, e) <==> key != t.slots[at].key && Crossed(ks, t, key, e)
  {
    HoleOrdered(ks, t, at, 0);
    ShiftKeeps(ks, Hole(t, at), at, FreeSlot(t), 0);
    DeletedEnds(ks, t, at);
    var e := FreedSlot(ks, t, at);
    forall key
      ensures Crossed(ks, Hole(t, at), key, e) <==> key != t.slots[at].key && Crossed(ks, t, key, e)
    {
      HoleCrossed(ks, t, at, key, e);
    }
  }

  lemma HoleCrossed<K(!new), V>(ks: Keys<K>, t: Table<K, V>, at: nat, key: K, e: nat)
    requires t.Sized() && Unique(t) && at < |t.slots| && t.slots[at].Full? && e < |t.slots|
    ensures Crossed(ks, Hole(t, at), key, e) <==> key != t.slots[at].key && Crossed(ks, t, key, e)
  {
    var n, u, h := |t.slots|, Hole(t, at), Home(ks, t, key);
    assert Home(ks, u, key) == h;
    if Crossed(ks, u, key, e) {
      var i :| 0 <= i < n && u.slots[i].Full? && u.slots[i].key == key && Dist(h, e, n) < Psl(ks, u, key, i);
      assert t.slots[i] == u.slots[i];
      UniquePair(t, i, at);
      assert Dist(h, e, n) < Psl(ks, t, key, i);
    }
    if key != t.slots[at].key && Crossed(ks, t, key, e) {
      var i :| 0 <= i < n && t.slots[i].Full? && t.slots[i].key == key && Dist(h, e, n) < Psl(ks, t, key, i);
      assert u.slots[i] == t.slots[i];
      assert Dist(h, e, n) < Psl(ks, u, key, i);
    }
  }

  // A stored key is hidden from a later insertion exactly when the freed slot
  // lies on its path.
  lemma HiddenExactly<K(!new), V>(ks: Keys<K>, t: Table<K, V>, at: nat, key: K)
    requires Ordered(ks, t, 0) && Unique(t) && HasRoom(t) && at < |t.slots| && t.slots[at].Full? && key != t.slots[at].key
    ensures Reachable(ks, Deleted(ks, t, at), key) <==> !Crossed(ks, t, key, FreedSlot(ks, t, at))
  {
    var u, e := Deleted(ks, t, at), FreedSlot(ks, t, at);
    DeletedCrossed(ks, t, at);
    forall i | 0 <= i < |u.slots| && u.slots[i].Full? && u.slots[i].key == key
      ensures PathTaken(ks, u, key, 0, Psl(ks, u, key, i)) <==> Dist(Home(ks, u, key), e, |u.slots|) >= Psl(ks, u, key, i)
    {
      assert PlacedBut(ks, u, i, e, 0);
      PlacedExactly(ks, u, e, i);
    }
  }

  // ---------------- entries ----------------

  lemma HoleHolds<K(!new), V>(t: Table<K, V>, pos: nat, m: map<K, V>)
    requires Unique(t) && Holds(t, m) && pos < |t.slots| && t.slots[pos].Full?
    ensures Unique(Hole(t, pos)) && Holds(Hole(t, pos), m - {t.slots[pos].key})
  {
    var key, t' := t.slots[pos].key, Hole(t, pos);
    forall k | k in m - {key}
      ensures exists i :: 0 <= i < |t'.slots| && t'.slots[i] == Full(k, m[k])
    {
      var i :| 0 <= i < |t.slots| && t.slots[i] == Full(k, m[k]);
      assert t'.slots[i] == Full(k, m[k]);
    }
  }

  lemma SlidHolds<K(!new), V>(u: Table<K, V>, pos: nat, m: map<K, V>)
    requires Unique(u) && Holds(u, m) && pos < |u.slots| && |u.slots| > 1 && u.slots[pos].Empty?
    ensures Unique(Slid(u, pos)) && Holds(Slid(u, pos), m)
  {
    var u', next := Slid(u, pos), After(pos, |u.slots|);
    forall i | 0 <= i < |u.slots|
      ensures u'.slots[i] == u.slots[if i == pos then next else if i == next then pos else i]
    {
    }
    forall i, j | 0 <= i < j < |u.slots| && u'.slots[i].Full? && u'.slots[j].Full?
      ensures u'.slots[i].key != u'.slots[j].key
    {
      UniquePair(u, if i == pos then next else i, if j == pos then next else j);
    }
    forall k | k in m
      ensures exists i :: 0 <= i < |u.slots| && u'.slots[i] == Full(k, m[k])
    {
      var i :| 0 <= i < |u.slots| && u.slots[i] == Full(k, m[k]);
      assert u'.slots[if i == next then pos else i] == Full(k, m[k]);
    }
  }

  // ---------------- a deletion that hides a key ----------------

  // Integer keys that hash to themselves.
  const INT_KEYS: Keys<int> := Keys(k => if 0 <= k < 0x1_0000_0000 then k else 0, (a, b) => a == b)

  // Eight slots: 0 and 8 share the home 4, 1 is at its home 5 between them.
  const CROWDED: Table<int, int> :=
    Table([Empty, Empty, Empty, Empty, Full(0, 0), Full(1, 0), Full(8, 0), Empty], [17, 0, 0, 0, 0, 0, 0, 0], 3)

  lemma {:induction false} ShrSmall(x: nat, s: nat)
    requires x < Pow2(s)
    ensures Shr(x, s) == 0
    decreases s
  {
    if s > 0 {
      ShrSmall(x / 2, s - 1);
    }
  }

  lemma CrowdedRoutes()
    ensures CROWDED.Sized()
    ensures forall k: int :: 0 <= k < 16 ==> RouteOf(INT_KEYS, CROWDED, k) == 0
    ensures Home(INT_KEYS, CROWDED, 0) == 4 && Home(INT_KEYS, CROWDED, 1) == 5 && Home(INT_KEYS, CROWDED, 8) == 4
  {
    assert Pow2(3) == 8;
    forall k: int | 0 <= k < 16
      ensures RouteOf(INT_KEYS, CROWDED, k) == 0
    {
      hide Pow2, Shr;
      SixteenFits();
      ShrSmall(k, 29);
    }
    assert Offset(CROWDED.route[0]) == 1;
    assert RouteOf(INT_KEYS, CROWDED, 0) == 0 && RouteOf(INT_KEYS, CROWDED, 1) == 0 && RouteOf(INT_KEYS, CROWDED, 8) == 0;
  }

  lemma SixteenFits()
    ensures 16 <= Pow2(29)
  {
    assert Pow2(4) == 16;
    Pow2Mono(4, 29);
  }

  lemma CrowdedOrdered()
    ensures Ordered(INT_KEYS, CROWDED, 0)
  {
    hide Pow2, Shr, RouteOf, Home;
    CrowdedRoutes();
    var s := CROWDED.slots;
    assert s[4] == Full(0, 0) && s[5] == Full(1, 0) && s[6] == Full(8, 0);
    assert Offset(17) == 1 && MaxPsl(17) == 2;
    forall d | 0 <= d < 2
      ensures TakenAt(INT_KEYS, CROWDED, 8, d)
    {
      assert Step(4, d, 8) == 4 + d;
    }
    assert Placed(INT_KEYS, CROWDED, 4, 0);
    assert Placed(INT_KEYS, CROWDED, 5, 0);
    assert Placed(INT_KEYS, CROWDED, 6, 0);
  }

  lemma CrowdedHolds()
    ensures Unique(CROWDED) && Holds(CROWDED, map[0 := 0, 1 := 0, 8 := 0])
  {
    var s := CROWDED.slots;
    assert s[4] == Full(0, 0) && s[5] == Full(1, 0) && s[6] == Full(8, 0);
  }

  // Deleting key 0 frees its own slot, because key 1 behind it is at home; that
  // slot is the first of the path of key 8, which is hidden from then on.
  lemma DeleteHidesKey()
    ensures Ordered(INT_KEYS, CROWDED, 0) && Unique(CROWDED) && Holds(CROWDED, map[0 := 0, 1 := 0, 8 := 0])
    ensures HasRoom(CROWDED) && CROWDED.slots[4] == Full(0, 0) && FreedSlot(INT_KEYS, CROWDED, 4) == 4
    ensures Crossed(INT_KEYS, CROWDED, 8, 4)
    ensures !Ordered(INT_KEYS, Deleted(INT_KEYS, CROWDED, 4), 0) && !Reachable(INT_KEYS, Deleted(INT_KEYS, CROWDED, 4), 8)
  {
    CrowdedRoutes();
    CrowdedOrdered();
    CrowdedHolds();
    assert CROWDED.slots[0].Empty?;
    assert CROWDED.slots[5] == Full(1, 0) && Stops(INT_KEYS, CROWDED, 4);
    assert CROWDED.slots[6] == Full(8, 0) && Psl(INT_KEYS, CROWDED, 8, 6) == 2;
    hide Home, RouteOf;
    DeletedExactly(INT_KEYS, CROWDED, 4);
    HiddenExactly(INT_KEYS, CROWDED, 4, 8);
  }
}
