// Lookups by object identity: which entries they find, when no two entries
// compare equal, and a table in which an entry lies out of their reach.
module HashIdent {
  import opened HashTable
  import opened HashDelete

  // How far an identity lookup looks on a saturated route.
  const REACH: nat := 255

  // An entry that compares equal to the key.
  ghost predicate EqualAt<K, V>(ks: Keys<K>, t: Table<K, V>, key: K, i: nat) {
    i < |t.slots| && t.slots[i].Full? && ks.same(t.slots[i].key, key)
  }

  // Such an entry within reach, with no free slot before it.
  ghost predicate InSight<K, V>(ks: Keys<K>, t: Table<K, V>, key: K, i: nat)
    requires t.Sized()
  {
    && EqualAt(ks, t, key, i) && Psl(ks, t, t.slots[i].key, i) <= REACH
    && forall d :: 0 <= d < Psl(ks, t, t.slots[i].key, i) ==> t.slots[Step(Home(ks, t, key), d, |t.slots|)].Full?
  }

  // Keys that compare equal share their home.
  lemma SameHome<K(!new), V>(ks: Keys<K>, t: Table<K, V>, a: K, b: K)
    requires Lawful(ks) && t.Sized() && ks.same(a, b)
    ensures Home(ks, t, a) == Home(ks, t, b) && RouteOf(ks, t, a) == RouteOf(ks, t, b)
  {
  }

  // The first reach slots of the key's path are taken by entries unlike it.
  ghost predicate Passed<K, V>(ks: Keys<K>, t: Table<K, V>, key: K, reach: nat)
    requires t.Sized()
  {
    forall d :: 0 <= d < reach && d < |t.slots| ==>
      var s := t.slots[Step(Home(ks, t, key), d, |t.slots|)]; s.Full? && !ks.same(s.key, key)
  }

  lemma PassedNext<K, V>(ks: Keys<K>, t: Table<K, V>, key: K, d: nat, pos: nat)
    requires t.Sized() && Passed(ks, t, key, d) && pos < |t.slots|
    requires d < |t.slots| ==> pos == Step(Home(ks, t, key), d, |t.slots|)
    requires t.slots[pos].Full? && !ks.same(t.slots[pos].key, key)
    ensures Passed(ks, t, key, d + 1)
  {
  }

  // An equal entry lies no nearer than the lookup has come.
  lemma PassedBy<K(!new), V>(ks: Keys<K>, t: Table<K, V>, key: K, d: nat, i: nat)
    requires Lawful(ks) && t.Sized() && Passed(ks, t, key, d) && EqualAt(ks, t, key, i)
    ensures Psl(ks, t, t.slots[i].key, i) >= d
  {
    SameHome(ks, t, t.slots[i].key, key);
  }

  lemma MetInSight<K(!new), V>(ks: Keys<K>, t: Table<K, V>, key: K, d: nat, pos: nat)
    requires Lawful(ks) && t.Sized() && Passed(ks, t, key, d) && EqualAt(ks, t, key, pos) && d <= REACH
    requires d < |t.slots| ==> pos == Step(Home(ks, t, key), d, |t.slots|)
    ensures InSight(ks, t, key, pos)
  {
    SameHome(ks, t, t.slots[pos].key, key);
    PassedBy(ks, t, key, d, pos);
  }

  // A free slot, and the end of the lookup, hide whatever lies behind.
  lemma OutOfSight<K(!new), V>(ks: Keys<K>, t: Table<K, V>, key: K, d: nat, lo: nat)
    requires Lawful(ks) && Ordered(ks, t, lo) && Passed(ks, t, key, d)
    requires || (d < |t.slots| && t.slots[Step(Home(ks, t, key), d, |t.slots|)].Empty?)
             || d > REACH
             || (var longest := MaxPsl(t.route[RouteOf(ks, t, key)]); longest < PSL_MAX && longest < d)
    ensures forall i :: 0 <= i < |t.slots| ==> !InSight(ks, t, key, i)
  {
    forall i | 0 <= i < |t.slots|
      ensures !InSight(ks, t, key, i)
    {
      if EqualAt(ks, t, key, i) {
        var k := t.slots[i].key;
        SameHome(ks, t, k, key);
        PassedBy(ks, t, key, d, i);
        assert Placed(ks, t, i, lo);
      }
    }
  }

  lemma UnroutedUnseen<K(!new), V>(ks: Keys<K>, t: Table<K, V>, key: K, lo: nat)
    requires Lawful(ks) && Ordered(ks, t, lo) && Offset(t.route[RouteOf(ks, t, key)]) == 0
    ensures forall i :: 0 <= i < |t.slots| ==> !InSight(ks, t, key, i)
  {
    forall i | 0 <= i < |t.slots|
      ensures !InSight(ks, t, key, i)
    {
      assert t.slots[i].Full? ==> Placed(ks, t, i, lo);
      if EqualAt(ks, t, key, i) { SameHome(ks, t, t.slots[i].key, key); }
    }
  }

  // In a table in order only the distance decides.
  lemma OrderedInSight<K(!new), V>(ks: Keys<K>, t: Table<K, V>, key: K, i: nat)
    requires Lawful(ks) && Ordered(ks, t, 0) && EqualAt(ks, t, key, i)
    ensures InSight(ks, t, key, i) <==> Psl(ks, t, t.slots[i].key, i) <= REACH
  {
    var k := t.slots[i].key;
    SameHome(ks, t, k, key);
    assert Placed(ks, t, i, 0);
    forall d | 0 <= d < Psl(ks, t, k, i)
      ensures t.slots[Step(Home(ks, t, key), d, |t.slots|)].Full?
    {
      assert TakenAt(ks, t, k, d);
    }
  }

  // ---------------- maps without equal keys ----------------

  ghost predicate Distinct<K(!new), V>(ks: Keys<K>, m: map<K, V>) {
    forall a, b :: a in m && b in m && ks.same(a, b) ==> a == b
  }

  // An equal entry that is another object and lies beyond the lookup's reach.
  ghost predicate FarTwin<K, V>(ks: Keys<K>, t: Table<K, V>, key: K)
    requires t.Sized()
  {
    exists i :: 0 <= i < |t.slots| && EqualAt(ks, t, key, i) && t.slots[i].key != key && Psl(ks, t, t.slots[i].key, i) > REACH
  }

  // Where the lookup of a table in order misses, storing the key makes two
  // equal keys exactly when there is a far twin.
  lemma MissedTwin<K(!new), V>(ks: Keys<K>, t: Table<K, V>, m: map<K, V>, key: K, val: V)
    requires Lawful(ks) && Ordered(ks, t, 0) && Holds(t, m) && Distinct(ks, m)
    requires forall i :: 0 <= i < |t.slots| ==> !InSight(ks, t, key, i)
    ensures Distinct(ks, m[key := val]) <==> !FarTwin(ks, t, key)
  {
    if FarTwin(ks, t, key) {
      var i :| 0 <= i < |t.slots| && EqualAt(ks, t, key, i) && t.slots[i].key != key && Psl(ks, t, t.slots[i].key, i) > REACH;
      assert t.slots[i].key in m[key := val] && key in m[key := val];
    } else {
      forall a | a in m && ks.same(a, key)
        ensures a == key
      {
        var i :| 0 <= i < |t.slots| && t.slots[i] == Full(a, m[a]);
        OrderedInSight(ks, t, key, i);
      }
    }
  }

  // Where it finds an equal entry there is no far twin.
  lemma FoundNoTwin<K(!new), V>(ks: Keys<K>, t: Table<K, V>, m: map<K, V>, key: K, i: nat)
    requires Lawful(ks) && t.Sized() && Unique(t) && Holds(t, m) && Distinct(ks, m) && InSight(ks, t, key, i)
    ensures !FarTwin(ks, t, key)
  {
    forall j | 0 <= j < |t.slots| && EqualAt(ks, t, key, j)
      ensures j == i
    {
      assert ks.same(t.slots[j].key, t.slots[i].key);
      UniqueSlot(t, i, j);
    }
  }

  // ---------------- few keys ----------------

  // The entry d slots from the key's home.
  ghost predicate StandsAt<K, V>(ks: Keys<K>, t: Table<K, V>, key: K, d: nat, k: K)
    requires t.Sized()
  {
    d < |t.slots| && var s := t.slots[Step(Home(ks, t, key), d, |t.slots|)]; s.Full? && s.key == k
  }

  lemma StandsOnce<K(!new), V>(ks: Keys<K>, t: Table<K, V>, key: K, d: nat, e: nat, k: K, l: K)
    requires t.Sized() && Unique(t) && StandsAt(ks, t, key, d, k) && StandsAt(ks, t, key, e, l) && d != e
    ensures k != l
  {
    UniquePair(t, Step(Home(ks, t, key), d, |t.slots|), Step(Home(ks, t, key), e, |t.slots|));
  }

  // The keys on a taken path are as many as its slots.
  lemma {:induction false} PathKeys<K(!new), V>(ks: Keys<K>, t: Table<K, V>, key: K, psl: nat) returns (s: set<K>)
    requires t.Sized() && Unique(t) && PathTaken(ks, t, key, 0, psl)
    ensures |s| == psl && forall k :: k in s ==> exists d :: 0 <= d < psl && StandsAt(ks, t, key, d, k)
    decreases psl
  {
    if psl == 0 {
      s := {};
    } else {
      var before := PathKeys(ks, t, key, psl - 1);
      assert TakenAt(ks, t, key, psl - 1);
      var last := t.slots[Step(Home(ks, t, key), psl - 1, |t.slots|)].key;
      assert StandsAt(ks, t, key, psl - 1, last);
      hide StandsAt, Unique, Home;
      forall k | k in before
        ensures k != last
      {
        var d :| 0 <= d < psl - 1 && StandsAt(ks, t, key, d, k);
        StandsOnce(ks, t, key, d, psl - 1, k, last);
      }
      s := before + {last};
    }
  }

  // An entry has as many others before it on its path as it is away from home.
  lemma PslBelowCount<K(!new), V>(ks: Keys<K>, t: Table<K, V>, m: map<K, V>, i: nat)
    requires Ordered(ks, t, 0) && Unique(t) && Holds(t, m) && i < |t.slots| && t.slots[i].Full?
    ensures Psl(ks, t, t.slots[i].key, i) < |m|
  {
    var key := t.slots[i].key;
    var psl := Psl(ks, t, key, i);
    assert Placed(ks, t, i, 0);
    var s := PathKeys(ks, t, key, psl);
    assert StandsAt(ks, t, key, psl, key);
    forall k | k in s
      ensures k in m && k != key
    {
      var d :| 0 <= d < psl && StandsAt(ks, t, key, d, k);
      StandsOnce(ks, t, key, d, psl, k, key);
    }
    SmallerSet(s, m.Keys, key);
  }

  // ---------------- an entry out of reach ----------------

  // All keys hash to 0, and compare by their last three digits.
  const MOD_KEYS: Keys<int> := Keys(_ => 0, (a, b) => a % 1000 == b % 1000)

  function FarSlot(i: int): Slot<int, int> {
    if 4 <= i < 304 then Full(i - 4, 0) else Empty
  }

  predicate IsFarKey(k: int) { 0 <= k < 300 }

  const FAR_MAP: map<int, int> := map k: int | 0 <= k < 300 && IsFarKey(k) :: 0

  // Keys 0 to 299 one behind the other in 512 slots.
  const FAR: Table<int, int> := Table(seq(512, i => FarSlot(i)), seq(512, i => if i == 0 then 249 else 0), 9)

  lemma FarHomes()
    ensures FAR.Sized() && forall k: int :: RouteOf(MOD_KEYS, FAR, k) == 0 && Home(MOD_KEYS, FAR, k) == 4
  {
    assert Pow2(9) == 512;
    ShrSmall(0, 23);
    assert FAR.route[0] == 249 && Offset(249) == 1;
  }

  lemma FarFacts()
    ensures |FAR.slots| == 512 && FAR.bits == 9 && |FAR.route| == 512 && FAR.route[0] == 249
    ensures forall i :: 0 <= i < 512 ==> FAR.slots[i] == FarSlot(i)
  {
  }

  lemma FarOrdered()
    ensures Ordered(MOD_KEYS, FAR, 0) && Unique(FAR)
  {
    FarFacts();
    FarHomes();
    hide FAR, Pow2, RouteOf, Home;
    assert Offset(249) == 1 && MaxPsl(249) == 31;
    forall i | 0 <= i < 512 && FAR.slots[i].Full?
      ensures Placed(MOD_KEYS, FAR, i, 0)
    {
      FarPlaced(i);
    }
  }

  lemma FarPlaced(i: nat)
    requires 4 <= i < 304 && FAR.Sized() && |FAR.slots| == 512 && FAR.slots[i] == FarSlot(i)
    ensures Placed(MOD_KEYS, FAR, i, 0)
  {
    FarFacts();
    FarHomes();
    hide FAR, Pow2, RouteOf, Home;
    assert Offset(249) == 1 && MaxPsl(249) == 31;
    var key := i - 4;
    forall d | 0 <= d < i - 4
      ensures TakenAt(MOD_KEYS, FAR, key, d)
    {
      assert Step(4, d, 512) == d + 4;
      assert FAR.slots[d + 4] == Full(d, 0);
    }
  }

  // The table is in order and not too full, and putting a key equal to 257 by
  // identity stores it a second time.
  lemma FarTable()
    ensures Lawful(MOD_KEYS) && Ordered(MOD_KEYS, FAR, 0) && Unique(FAR)
    ensures Holds(FAR, FAR_MAP) && Distinct(MOD_KEYS, FAR_MAP)
    ensures FarTwin(MOD_KEYS, FAR, 1257)
  {
    FarFacts();
    FarOrdered();
    FarHomes();
    hide FAR, Ordered, Unique, Pow2, RouteOf, Home;
    var m := FAR_MAP;
    forall k | k in m
      ensures exists i :: 0 <= i < |FAR.slots| && FAR.slots[i] == Full(k, m[k])
    {
      assert FAR.slots[k + 4] == Full(k, 0);
    }
    assert FAR.slots[261] == Full(257, 0);
    assert EqualAt(MOD_KEYS, FAR, 1257, 261) && Psl(MOD_KEYS, FAR, 257, 261) == 257;
  }
}
