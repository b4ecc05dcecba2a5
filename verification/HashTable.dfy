// The open-addressing table of the hash map as a value: slots, route bytes, and
// the order invariant that lookups rely on.
//
// A route byte packs the offset (1..7, 0 = never used) that every key of the
// route adds to its bucket, and the longest probe of those keys, at most 31.
// The first four probes of an insertion never displace an entry; later ones
// displace an entry that sits closer to its own home.
module HashTable {
  type uint32 = x: int | 0 <= x < 0x1_0000_0000

  type byte = x: int | 0 <= x < 256

  datatype Option<T> = None | Some(value: T)

  datatype Slot<K, V> = Empty | Full(key: K, val: V)

  // How keys are hashed and compared.
  datatype Keys<!K> = Keys(hash: K -> uint32, same: (K, K) -> bool)

  // `same` is an equivalence that the hash respects.
  ghost predicate Lawful<K(!new)>(ks: Keys<K>) {
    && (forall a :: ks.same(a, a))
    && (forall a, b :: ks.same(a, b) ==> ks.same(b, a) && ks.hash(a) == ks.hash(b))
    && (forall a, b, c :: ks.same(a, b) && ks.same(b, c) ==> ks.same(a, c))
  }

  function Pow2(n: nat): (r: nat)
    ensures r >= 1
  {
    if n == 0 then 1 else 2 * Pow2(n - 1)
  }

  // ---------------- the packed route byte ----------------

  const PSL_MAX: nat := 31

  function Offset(b: byte): nat { b % 8 }

  function MaxPsl(b: byte): (p: nat)
    ensures p <= PSL_MAX
  {
    b / 8
  }

  function WithOffset(b: byte, offset: nat): (r: byte)
    requires offset < 8
    ensures Offset(r) == offset && MaxPsl(r) == MaxPsl(b)
  {
    b / 8 * 8 + offset
  }

  function Clamp(psl: nat): nat {
    if psl > PSL_MAX then PSL_MAX else psl
  }

  // The byte after a key of the route was placed at distance psl.
  function Raised(b: byte, psl: nat): (r: byte)
    ensures Offset(r) == Offset(b)
    ensures MaxPsl(r) == if psl > MaxPsl(b) then Clamp(psl) else MaxPsl(b)
  {
    if psl > MaxPsl(b) then b % 8 + Clamp(psl) * 8 else b
  }

  // ---------------- positions ----------------

  // n slots in a ring, n == 2^bits; `& mask` is `% n`.
  function RouteIndex(h: uint32, bits: nat): nat {
    Shr(h, 32 - (if bits <= 16 then bits else 16))
  }

  // x >> s
  function Shr(x: nat, s: nat): nat
    decreases s
  {
    if s == 0 then x else Shr(x / 2, s - 1)
  }

  lemma {:induction false} ShrBound(x: nat, s: nat, t: nat)
    requires x < Pow2(s + t)
    ensures Shr(x, s) < Pow2(t)
    decreases s
  {
    if s > 0 {
      ShrBound(x / 2, s - 1, t);
    }
  }

  lemma {:induction false} Pow2Mono(a: nat, b: nat)
    requires a <= b
    ensures Pow2(a) <= Pow2(b)
    decreases b
  {
    if a < b {
      Pow2Mono(a, b - 1);
    }
  }

  lemma {:induction false} Pow2Add(a: nat, b: nat)
    ensures Pow2(a + b) == Pow2(a) * Pow2(b)
    decreases a
  {
    if a > 0 {
      Pow2Add(a - 1, b);
      assert Pow2(a + b) == 2 * Pow2(a - 1 + b);
    }
  }

  lemma Pow2Word()
    ensures Pow2(32) == 0x1_0000_0000
  {
    assert Pow2(8) == 256;
    Pow2Add(8, 8);
    Pow2Add(16, 16);
  }

  lemma RouteIndexBound(h: uint32, bits: nat)
    ensures RouteIndex(h, bits) < Pow2(bits)
  {
    var width := if bits <= 16 then bits else 16;
    Pow2Word();
    assert 32 - width + width == 32;
    ShrBound(h, 32 - width, width);
    Pow2Mono(width, bits);
  }

  lemma {:induction false} ShrIs(x: nat, s: nat)
    ensures Shr(x, s) == x / Pow2(s)
    decreases s
  {
    if s > 0 {
      ShrIs(x / 2, s - 1);
      HalfFirst(x, Pow2(s - 1));
    }
  }

  lemma HalfFirst(x: nat, p: nat)
    requires p > 0
    ensures (x / 2) / p == x / (2 * p)
  {
    var q, r := (x / 2) / p, (x / 2) % p;
    assert x == q * (2 * p) + (2 * r + x % 2);
    Quotient(x, 2 * p, q, 2 * r + x % 2);
  }

  lemma Quotient(x: nat, d: nat, q: nat, r: nat)
    requires d > 0 && x == q * d + r && r < d
    ensures x / d == q && x % d == r
  {
    var e, m := x / d - q, x % d;
    assert e * d == r - m;
    SmallMultiple(e, d);
  }

  lemma SmallMultiple(e: int, d: int)
    requires -d < e * d < d
    ensures e == 0
  {
  }

  // The route of a hash is its high bits, at most sixteen of them; its home is
  // its low bits and four slots for each step of the route's offset; a route
  // byte is the offset and eight times the longest probe.
  lemma Positions(h: uint32, bits: nat, offset: nat, b: byte)
    requires offset < 8
    ensures RouteIndex(h, bits) == h / Pow2(32 - if bits < 16 then bits else 16)
    ensures HomeAt(h, offset, Pow2(bits)) == (h + 4 * offset) % Pow2(bits)
    ensures b == Offset(b) + 8 * MaxPsl(b)
  {
    hide Pow2, Shr;
    ShrIs(h, 32 - if bits < 16 then bits else 16);
    HomeIs(h, offset, Pow2(bits));
  }

  lemma HomeIs(h: nat, offset: nat, n: nat)
    requires n > 0
    ensures (h % n + offset * 4) % n == (h + 4 * offset) % n
  {
    Shifted(h % n + offset * 4, n, h / n);
  }

  lemma Shifted(x: nat, n: nat, q: nat)
    requires n > 0
    ensures (q * n + x) % n == x % n
  {
    var k := x / n;
    assert q * n + x == (q + k) * n + x % n;
    Quotient(q * n + x, n, q + k, x % n);
  }

  function Step(home: nat, d: nat, n: nat): (pos: nat)
    requires home < n && d < n
    ensures pos < n
  {
    if home + d < n then home + d else home + d - n
  }

  function Dist(home: nat, pos: nat, n: nat): (d: nat)
    requires home < n && pos < n
    ensures d < n && Step(home, d, n) == pos
  {
    if pos >= home then pos - home else pos + n - home
  }

  function After(pos: nat, n: nat): (next: nat)
    requires pos < n
    ensures next < n
  {
    if pos + 1 == n then 0 else pos + 1
  }

  // One slot on along a path, and one slot nearer to any other slot.
  lemma StepAfter(home: nat, d: nat, n: nat, goal: nat)
    requires home < n && d + 1 < n && goal < n
    ensures After(Step(home, d, n), n) == Step(home, d + 1, n)
    ensures Step(home, d, n) != goal ==>
              Dist(Step(home, d + 1, n), goal, n) < Dist(Step(home, d, n), goal, n)
  {
  }

  lemma AfterNearer(pos: nat, n: nat, goal: nat)
    requires pos < n && goal < n && pos != goal
    ensures Dist(After(pos, n), goal, n) < Dist(pos, goal, n)
  {
  }

  // ---------------- tables ----------------

  datatype Table<K, V> = Table(slots: seq<Slot<K, V>>, route: seq<byte>, bits: nat) {
    ghost predicate Sized() {
      |slots| == |route| == Pow2(bits) && bits >= 3
    }
  }

  ghost function RouteOf<K, V>(ks: Keys<K>, t: Table<K, V>, key: K): (p: nat)
    requires t.Sized()
    ensures p < |t.route|
  {
    RouteIndexBound(ks.hash(key), t.bits);
    RouteIndex(ks.hash(key), t.bits)
  }

  function HomeAt(h: uint32, offset: nat, n: nat): (pos: nat)
    requires n > 0
    ensures pos < n
  {
    (h % n + offset * 4) % n
  }

  ghost function Home<K, V>(ks: Keys<K>, t: Table<K, V>, key: K): (pos: nat)
    requires t.Sized()
    ensures pos < |t.slots|
  {
    HomeAt(ks.hash(key), Offset(t.route[RouteOf(ks, t, key)]), |t.slots|)
  }

  // How far the key is from home when it sits at pos.
  ghost function Psl<K, V>(ks: Keys<K>, t: Table<K, V>, key: K, pos: nat): (d: nat)
    requires t.Sized() && pos < |t.slots|
    ensures d < |t.slots|
  {
    Dist(Home(ks, t, key), pos, |t.slots|)
  }

  // The slots from lo up to psl of a key's probe path are taken, and from the
  // fourth on by entries at least as far from home as the key would be there.
  ghost predicate PathTaken<K, V>(ks: Keys<K>, t: Table<K, V>, key: K, lo: nat, psl: nat)
    requires t.Sized()
  {
    && psl <= |t.slots|
    && forall d :: lo <= d < psl ==> TakenAt(ks, t, key, d)
  }

  ghost predicate TakenAt<K, V>(ks: Keys<K>, t: Table<K, V>, key: K, d: nat)
    requires t.Sized() && d < |t.slots|
  {
    var pos := Step(Home(ks, t, key), d, |t.slots|);
    t.slots[pos].Full? && (d >= 4 ==> Psl(ks, t, t.slots[pos].key, pos) >= d)
  }

  // What holds of the entry at pos.
  ghost predicate Placed<K, V>(ks: Keys<K>, t: Table<K, V>, pos: nat, lo: nat)
    requires t.Sized() && pos < |t.slots| && t.slots[pos].Full?
  {
    var key := t.slots[pos].key;
    InBound(ks, t, key, pos) && PathTaken(ks, t, key, lo, Psl(ks, t, key, pos))
  }

  // The key's route is open, and its longest probe no less than the key's, up to 31.
  ghost predicate InBound<K, V>(ks: Keys<K>, t: Table<K, V>, key: K, pos: nat)
    requires t.Sized() && pos < |t.slots|
  {
    var b := t.route[RouteOf(ks, t, key)];
    Offset(b) != 0 && Clamp(Psl(ks, t, key, pos)) <= MaxPsl(b)
  }

  // The order of a table.  Insertions keep it from the first probe on (lo = 0);
  // after deletions it holds from the fourth on.
  ghost predicate Ordered<K, V>(ks: Keys<K>, t: Table<K, V>, lo: nat) {
    && t.Sized()
    && forall pos :: 0 <= pos < |t.slots| && t.slots[pos].Full? ==> Placed(ks, t, pos, lo)
  }

  lemma OrderedLess<K, V>(ks: Keys<K>, t: Table<K, V>, lo: nat, hi: nat)
    requires Ordered(ks, t, lo) && lo <= hi
    ensures Ordered(ks, t, hi)
  {
    forall pos | 0 <= pos < |t.slots| && t.slots[pos].Full?
      ensures Placed(ks, t, pos, hi)
    {
      assert Placed(ks, t, pos, lo);
    }
  }

  // Where the key is stored, its whole path is taken.
  ghost predicate Reachable<K, V>(ks: Keys<K>, t: Table<K, V>, key: K)
    requires t.Sized()
  {
    forall i :: 0 <= i < |t.slots| && t.slots[i].Full? && t.slots[i].key == key ==>
      PathTaken(ks, t, key, 0, Psl(ks, t, key, i))
  }

  lemma OrderedReachable<K, V>(ks: Keys<K>, t: Table<K, V>, key: K)
    requires Ordered(ks, t, 0)
    ensures Reachable(ks, t, key)
  {
    forall i | 0 <= i < |t.slots| && t.slots[i].Full? && t.slots[i].key == key
      ensures PathTaken(ks, t, key, 0, Psl(ks, t, key, i))
    {
      assert Placed(ks, t, i, 0);
    }
  }

  // No key stands in two slots.
  ghost predicate Unique<K, V>(t: Table<K, V>) {
    forall i, j :: 0 <= i < j < |t.slots| && t.slots[i].Full? && t.slots[j].Full? ==>
      t.slots[i].key != t.slots[j].key
  }

  // The table holds exactly the entries of the map.
  ghost predicate Holds<K, V>(t: Table<K, V>, m: map<K, V>) {
    && (forall i :: 0 <= i < |t.slots| && t.slots[i].Full? ==>
          t.slots[i].key in m && m[t.slots[i].key] == t.slots[i].val)
    && (forall k :: k in m ==> exists i :: 0 <= i < |t.slots| && t.slots[i] == Full(k, m[k]))
  }

  // ---------------- facts about probe paths ----------------

  ghost predicate HasRoom<K, V>(t: Table<K, V>) {
    exists e :: 0 <= e < |t.slots| && t.slots[e].Empty?
  }

  // Some slot is free, so a taken path is shorter than the ring.
  lemma PathShort<K, V>(ks: Keys<K>, t: Table<K, V>, key: K, psl: nat)
    requires t.Sized() && PathTaken(ks, t, key, 0, psl) && HasRoom(t)
    ensures psl < |t.slots|
  {
    var e :| 0 <= e < |t.slots| && t.slots[e].Empty?;
    var d := Dist(Home(ks, t, key), e, |t.slots|);
    assert d < psl ==> TakenAt(ks, t, key, d);
  }

  // One more slot of the path is taken.
  lemma PathGrows<K, V>(ks: Keys<K>, t: Table<K, V>, key: K, psl: nat)
    requires t.Sized() && PathTaken(ks, t, key, 0, psl) && psl < |t.slots| && TakenAt(ks, t, key, psl)
    ensures PathTaken(ks, t, key, 0, psl + 1)
  {
  }

  ghost predicate Absent<K, V>(t: Table<K, V>, key: K) {
    forall i :: 0 <= i < |t.slots| && t.slots[i].Full? ==> t.slots[i].key != key
  }

  // The first psl slots of the path do not hold the key.
  ghost predicate NotSeen<K, V>(ks: Keys<K>, t: Table<K, V>, key: K, psl: nat)
    requires t.Sized() && psl <= |t.slots|
  {
    forall d :: 0 <= d < psl ==>
      var s := t.slots[Step(Home(ks, t, key), d, |t.slots|)]; s.Full? ==> s.key != key
  }

  // The probe of an insertion stops at a free slot, or from the fourth probe on
  // at an entry closer to its home.
  ghost predicate StopsAt<K, V>(ks: Keys<K>, t: Table<K, V>, key: K, psl: nat)
    requires t.Sized() && psl < |t.slots|
  {
    var pos := Step(Home(ks, t, key), psl, |t.slots|);
    t.slots[pos].Empty? || (psl >= 4 && Psl(ks, t, t.slots[pos].key, pos) < psl && t.slots[pos].key != key)
  }

  // Where it stops, a key it could have reached is nowhere in the table.
  lemma ProbeEnds<K(!new), V>(ks: Keys<K>, t: Table<K, V>, key: K, psl: nat)
    requires t.Sized() && Reachable(ks, t, key) && psl < |t.slots| && NotSeen(ks, t, key, psl) && StopsAt(ks, t, key, psl)
    ensures Absent(t, key)
  {
    forall i | 0 <= i < |t.slots| && t.slots[i].Full?
      ensures t.slots[i].key != key
    {
      assert t.slots[i].key == key && psl < Psl(ks, t, key, i) ==> TakenAt(ks, t, key, psl);
    }
  }

  // ---------------- steps of an insertion ----------------

  // A key on its way to a slot: it belongs to the map, is not in the table, and
  // its path is taken up to `psl`.
  ghost predicate Carrying<K, V>(ks: Keys<K>, t: Table<K, V>, key: K, val: V, psl: nat, m: map<K, V>, lo: nat) {
    && lo <= 4 && t.Sized() && Ordered(ks, t, lo) && Unique(t) && HasRoom(t)
    && Absent(t, key) && PathTaken(ks, t, key, 0, psl)
    && Offset(t.route[RouteOf(ks, t, key)]) != 0
    && key in m && m[key] == val && Holds(t, m - {key})
  }

  // The key put at distance psl of its home.
  ghost function Put<K, V>(ks: Keys<K>, t: Table<K, V>, key: K, val: V, psl: nat): Table<K, V>
    requires t.Sized() && psl < |t.slots|
  {
    var r := RouteOf(ks, t, key);
    Table(t.slots[Step(Home(ks, t, key), psl, |t.slots|) := Full(key, val)],
          t.route[r := Raised(t.route[r], psl)], t.bits)
  }

  // Raising a route byte moves no home.
  lemma PutHomes<K, V>(ks: Keys<K>, t: Table<K, V>, key: K, val: V, psl: nat, k: K)
    requires t.Sized() && psl < |t.slots|
    ensures var t' := Put(ks, t, key, val, psl);
            t'.Sized() && RouteOf(ks, t', k) == RouteOf(ks, t, k) && Home(ks, t', k) == Home(ks, t, k)
  {
  }

  // After the put, a path that was taken is still taken: the slot is taken now,
  // by a key at least as far from home as the entry it replaced.
  lemma PutPath<K, V>(ks: Keys<K>, t: Table<K, V>, key: K, val: V, psl: nat, k: K, lo: nat, len: nat)
    requires t.Sized() && psl < |t.slots| && PathTaken(ks, t, k, lo, len)
    requires var pos := Step(Home(ks, t, key), psl, |t.slots|);
             t.slots[pos].Full? ==> Psl(ks, t, t.slots[pos].key, pos) <= psl
    ensures var t' := Put(ks, t, key, val, psl); t'.Sized() && PathTaken(ks, t', k, lo, len)
  {
    var t', n := Put(ks, t, key, val, psl), |t.slots|;
    var pos := Step(Home(ks, t, key), psl, n);
    PutHomes(ks, t, key, val, psl, k);
    PutHomes(ks, t, key, val, psl, key);
    forall d | lo <= d < len
      ensures TakenAt(ks, t', k, d)
    {
      assert TakenAt(ks, t, k, d);
      var at := Step(Home(ks, t, k), d, n);
      if at != pos {
        PutHomes(ks, t, key, val, psl, t.slots[at].key);
      }
    }
  }

  // Putting the key keeps the order, whether the slot was free or held an entry
  // closer to its home.
  lemma PutOrdered<K, V>(ks: Keys<K>, t: Table<K, V>, key: K, val: V, psl: nat, lo: nat)
    requires Ordered(ks, t, lo) && psl < |t.slots| && PathTaken(ks, t, key, lo, psl)
    requires Offset(t.route[RouteOf(ks, t, key)]) != 0
    requires var pos := Step(Home(ks, t, key), psl, |t.slots|);
             t.slots[pos].Full? ==> Psl(ks, t, t.slots[pos].key, pos) <= psl
    ensures Ordered(ks, Put(ks, t, key, val, psl), lo)
  {
    var t', n := Put(ks, t, key, val, psl), |t.slots|;
    var pos := Step(Home(ks, t, key), psl, n);
    forall i | 0 <= i < n && t'.slots[i].Full?
      ensures Placed(ks, t', i, lo)
    {
      var k := t'.slots[i].key;
      PutHomes(ks, t, key, val, psl, k);
      if i == pos {
        PutPath(ks, t, key, val, psl, key, lo, psl);
      } else {
        assert Placed(ks, t, i, lo);
        PutPath(ks, t, key, val, psl, k, lo, Psl(ks, t, k, i));
      }
    }
  }

  lemma PutUnique<K(!new), V>(ks: Keys<K>, t: Table<K, V>, key: K, val: V, psl: nat)
    requires t.Sized() && psl < |t.slots| && Unique(t) && Absent(t, key)
    ensures Unique(Put(ks, t, key, val, psl))
  {
  }

  // The probe ends at a free slot: the table now holds the whole map.
  lemma PutEmpty<K(!new), V>(ks: Keys<K>, t: Table<K, V>, key: K, val: V, psl: nat, m: map<K, V>, lo: nat)
    requires Carrying(ks, t, key, val, psl, m, lo) && psl < |t.slots|
    requires t.slots[Step(Home(ks, t, key), psl, |t.slots|)].Empty?
    ensures var t' := Put(ks, t, key, val, psl); Ordered(ks, t', lo) && Unique(t') && Holds(t', m)
  {
    PutOrdered(ks, t, key, val, psl, lo);
    PutUnique(ks, t, key, val, psl);
    var t' := Put(ks, t, key, val, psl);
    var pos := Step(Home(ks, t, key), psl, |t.slots|);
    forall k | k in m
      ensures exists i :: 0 <= i < |t'.slots| && t'.slots[i] == Full(k, m[k])
    {
      if k == key {
        assert t'.slots[pos] == Full(k, m[k]);
      } else {
        assert k in m - {key};
        var i :| 0 <= i < |t.slots| && t.slots[i] == Full(k, m[k]);
        assert t'.slots[i] == Full(k, m[k]);
      }
    }
  }

  // The path of an entry closer to its home is the end of the probe's own, so
  // all of it is taken.
  lemma SuffixTaken<K, V>(ks: Keys<K>, t: Table<K, V>, key: K, psl: nat, lo: nat)
    requires lo <= 4 && Ordered(ks, t, lo) && psl < |t.slots| && PathTaken(ks, t, key, 0, psl)
    requires var pos := Step(Home(ks, t, key), psl, |t.slots|);
             t.slots[pos].Full? && Psl(ks, t, t.slots[pos].key, pos) < psl
    ensures var pos := Step(Home(ks, t, key), psl, |t.slots|);
            var k := t.slots[pos].key;
            InBound(ks, t, k, pos) && PathTaken(ks, t, k, 0, Psl(ks, t, k, pos))
  {
    var n := |t.slots|;
    var pos := Step(Home(ks, t, key), psl, n);
    var k := t.slots[pos].key;
    var p := Psl(ks, t, k, pos);
    assert Placed(ks, t, pos, lo);
    forall d | 0 <= d < p
      ensures TakenAt(ks, t, k, d)
    {
      if d < 4 {
        assert TakenAt(ks, t, key, psl - p + d);
        assert Step(Home(ks, t, k), d, n) == Step(Home(ks, t, key), psl - p + d, n);
      }
    }
  }

  // The probe displaces an entry closer to its home: that entry is carried on.
  lemma PutDisplaces<K(!new), V>(ks: Keys<K>, t: Table<K, V>, key: K, val: V, psl: nat, m: map<K, V>, lo: nat)
    requires Carrying(ks, t, key, val, psl, m, lo) && psl < |t.slots|
    requires var pos := Step(Home(ks, t, key), psl, |t.slots|);
             t.slots[pos].Full? && Psl(ks, t, t.slots[pos].key, pos) < psl
    ensures var pos := Step(Home(ks, t, key), psl, |t.slots|);
            var s := t.slots[pos];
            && s.Full?
            && Carrying(ks, Put(ks, t, key, val, psl), s.key, s.val, Psl(ks, t, s.key, pos) + 1, m, lo)
  {
    var t' := Put(ks, t, key, val, psl);
    var pos := Step(Home(ks, t, key), psl, |t.slots|);
    var s := t.slots[pos];
    PutOrdered(ks, t, key, val, psl, lo);
    PutUnique(ks, t, key, val, psl);
    PutHomes(ks, t, key, val, psl, s.key);
    PutHomes(ks, t, key, val, psl, key);
    SuffixTaken(ks, t, key, psl, lo);
    PutPath(ks, t, key, val, psl, s.key, 0, Psl(ks, t, s.key, pos));
    PathGrows(ks, t', s.key, Psl(ks, t, s.key, pos));
    var e :| 0 <= e < |t.slots| && t.slots[e].Empty?;
    assert t'.slots[e].Empty?;
    PutHolds(ks, t, key, val, psl, m, lo);
  }

  lemma PutHolds<K(!new), V>(ks: Keys<K>, t: Table<K, V>, key: K, val: V, psl: nat, m: map<K, V>, lo: nat)
    requires Carrying(ks, t, key, val, psl, m, lo) && psl < |t.slots|
    requires t.slots[Step(Home(ks, t, key), psl, |t.slots|)].Full?
    ensures var s := t.slots[Step(Home(ks, t, key), psl, |t.slots|)];
            && s.key in m && m[s.key] == s.val && Absent(Put(ks, t, key, val, psl), s.key)
            && Holds(Put(ks, t, key, val, psl), m - {s.key})
  {
    var t' := Put(ks, t, key, val, psl);
    var pos := Step(Home(ks, t, key), psl, |t.slots|);
    var s := t.slots[pos];
    forall i | 0 <= i < |t'.slots| && t'.slots[i].Full?
      ensures t'.slots[i].key != s.key
      ensures t'.slots[i].key in m - {s.key} && (m - {s.key})[t'.slots[i].key] == t'.slots[i].val
    {
    }
    forall k | k in m - {s.key}
      ensures exists i :: 0 <= i < |t'.slots| && t'.slots[i] == Full(k, m[k])
    {
      if k == key {
        assert t'.slots[pos] == Full(k, m[k]);
      } else {
        assert k in m - {key};
        var i :| 0 <= i < |t.slots| && t.slots[i] == Full(k, m[k]);
        assert t'.slots[i] == Full(k, m[k]);
      }
    }
  }

  // ---------------- opening a route ----------------

  ghost function Opened<K, V>(t: Table<K, V>, r: nat, offset: nat): Table<K, V>
    requires r < |t.route| && offset < 8
  {
    Table(t.slots, t.route[r := WithOffset(t.route[r], offset)], t.bits)
  }

  // Giving a route that no entry uses its offset moves no entry's home.
  lemma OpenRoute<K, V>(ks: Keys<K>, t: Table<K, V>, r: nat, offset: nat, lo: nat)
    requires Ordered(ks, t, lo) && r < |t.route| && Offset(t.route[r]) == 0 && 0 < offset < 8
    ensures Ordered(ks, Opened(t, r, offset), lo)
  {
    var t' := Opened(t, r, offset);
    forall i | 0 <= i < |t.slots| && t.slots[i].Full?
      ensures RouteOf(ks, t', t.slots[i].key) == RouteOf(ks, t, t.slots[i].key) != r
      ensures Home(ks, t', t.slots[i].key) == Home(ks, t, t.slots[i].key)
    {
      assert Placed(ks, t, i, lo);
    }
    forall i | 0 <= i < |t.slots| && t.slots[i].Full?
      ensures Placed(ks, t', i, lo)
    {
      assert Placed(ks, t, i, lo);
      var k := t.slots[i].key;
      forall d | lo <= d < Psl(ks, t', k, i)
        ensures TakenAt(ks, t', k, d)
      {
        assert TakenAt(ks, t, k, d);
      }
    }
  }

  // The probe of a key that was never seen ends: it is carried from here.
  lemma StartCarrying<K(!new), V>(ks: Keys<K>, t: Table<K, V>, key: K, val: V, psl: nat, m: map<K, V>, lo: nat)
    requires lo <= 4 && Ordered(ks, t, lo) && Unique(t) && HasRoom(t) && Holds(t, m) && Reachable(ks, t, key)
    requires Offset(t.route[RouteOf(ks, t, key)]) != 0
    requires PathTaken(ks, t, key, 0, psl) && psl < |t.slots| && NotSeen(ks, t, key, psl) && StopsAt(ks, t, key, psl)
    ensures key !in m && Carrying(ks, t, key, val, psl, m[key := val], lo)
  {
    ProbeEnds(ks, t, key, psl);
    AbsentNotIn(t, m, key);
    assert m[key := val] - {key} == m;
  }

  // An entry of the table is in the map.
  lemma EntryIn<K(!new), V>(t: Table<K, V>, m: map<K, V>, pos: nat)
    requires Holds(t, m) && pos < |t.slots| && t.slots[pos].Full?
    ensures var k := t.slots[pos].key;
            k in m && m[k] == t.slots[pos].val && !Absent(t, k)
  {
  }

  // A new value in a slot keeps everything but that value.
  ghost function WithValue<K, V>(t: Table<K, V>, pos: nat, val: V): Table<K, V>
    requires pos < |t.slots| && t.slots[pos].Full?
  {
    Table(t.slots[pos := Full(t.slots[pos].key, val)], t.route, t.bits)
  }

  lemma WithValueOrdered<K, V>(ks: Keys<K>, t: Table<K, V>, pos: nat, val: V, lo: nat)
    requires Ordered(ks, t, lo) && pos < |t.slots| && t.slots[pos].Full?
    ensures Ordered(ks, WithValue(t, pos, val), lo)
  {
    var t' := WithValue(t, pos, val);
    forall i | 0 <= i < |t'.slots| && t'.slots[i].Full?
      ensures Placed(ks, t', i, lo)
    {
      assert Placed(ks, t, i, lo);
      forall d | lo <= d < Psl(ks, t', t'.slots[i].key, i)
        ensures TakenAt(ks, t', t'.slots[i].key, d)
      {
        assert TakenAt(ks, t, t.slots[i].key, d);
      }
    }
  }

  lemma WithValueHolds<K(!new), V>(t: Table<K, V>, pos: nat, val: V, m: map<K, V>)
    requires Unique(t) && Holds(t, m) && pos < |t.slots| && t.slots[pos].Full?
    ensures Unique(WithValue(t, pos, val)) && Holds(WithValue(t, pos, val), m[t.slots[pos].key := val])
  {
    var key, t' := t.slots[pos].key, WithValue(t, pos, val);
    forall i | 0 <= i < |t'.slots| && t'.slots[i].Full? && i != pos
      ensures t'.slots[i].key != key
    {
    }
    forall k | k in m && k != key
      ensures exists i :: 0 <= i < |t'.slots| && t'.slots[i] == Full(k, m[k])
    {
      var i :| 0 <= i < |t.slots| && t.slots[i] == Full(k, m[k]);
      assert t'.slots[i] == Full(k, m[k]);
    }
    assert t'.slots[pos] == Full(key, val);
  }

  // ---------------- runs ----------------

  datatype TableOp<K, V> = SetTo(key: K, val: V) | Remove(key: K)

  // What the first n operations leave behind.
  ghost function Result<K, V>(ops: seq<TableOp<K, V>>, n: nat): map<K, V>
    requires n <= |ops|
  {
    if n == 0 then map[]
    else
      match ops[n - 1]
      case SetTo(k, v) => Result(ops, n - 1)[k := v]
      case Remove(k) => Result(ops, n - 1) - {k}
  }

  lemma ResultStep<K, V>(ops: seq<TableOp<K, V>>, n: nat)
    requires n <= |ops|
    ensures Result(ops, 0) == map[]
    ensures n < |ops| ==> Result(ops, n + 1) == if ops[n].SetTo? then Result(ops, n)[ops[n].key := ops[n].val] else Result(ops, n) - {ops[n].key}
  {
  }

  // After the first deletion no key is set that is in the map.
  ghost predicate SetsAreNew<K, V>(ops: seq<TableOp<K, V>>) {
    forall i, j :: 0 <= i < j < |ops| && ops[i].Remove? && ops[j].SetTo? ==> ops[j].key !in Result(ops, j)
  }

  // What the map says of a key is what the last operation on it said.
  lemma {:induction false} ResultIs<K, V>(ops: seq<TableOp<K, V>>, n: nat, i: nat)
    requires i < n <= |ops| && forall j :: i < j < n ==> ops[j].key != ops[i].key
    ensures match ops[i]
            case SetTo(k, v) => k in Result(ops, n) && Result(ops, n)[k] == v
            case Remove(k) => k !in Result(ops, n)
    decreases n
  {
    if i < n - 1 { ResultIs(ops, n - 1, i); }
  }

  // A key that no operation names is not in the map.
  lemma {:induction false} ResultOnly<K, V>(ops: seq<TableOp<K, V>>, n: nat, k: K)
    requires n <= |ops| && forall i :: 0 <= i < n ==> ops[i].key != k
    ensures k !in Result(ops, n)
    decreases n
  {
    if n > 0 { ResultOnly(ops, n - 1, k); }
  }

  // ---------------- counting ----------------

  // The entries of the first n slots, later ones overwriting earlier ones.
  ghost function Entries<K, V>(s: seq<Slot<K, V>>, n: nat): map<K, V>
    requires n <= |s|
  {
    if n == 0 then map[]
    else if s[n - 1].Full? then Entries(s, n - 1)[s[n - 1].key := s[n - 1].val]
    else Entries(s, n - 1)
  }

  lemma EntriesStep<K, V>(s: seq<Slot<K, V>>, n: nat)
    requires n < |s|
    ensures Entries(s, 0) == map[]
    ensures Entries(s, n + 1) == if s[n].Full? then Entries(s, n)[s[n].key := s[n].val] else Entries(s, n)
  {
  }

  lemma {:induction false} EntriesHave<K, V>(s: seq<Slot<K, V>>, n: nat)
    requires n <= |s|
    requires forall i, j :: 0 <= i < j < |s| && s[i].Full? && s[j].Full? ==> s[i].key != s[j].key
    ensures forall i :: 0 <= i < n && s[i].Full? ==> s[i].key in Entries(s, n) && Entries(s, n)[s[i].key] == s[i].val
    ensures forall k :: k in Entries(s, n) ==> exists i :: 0 <= i < n && s[i] == Full(k, Entries(s, n)[k])
    ensures (forall i :: 0 <= i < n ==> s[i].Full?) ==> |Entries(s, n)| == n
    decreases n
  {
    if n > 0 {
      EntriesHave(s, n - 1);
      forall k | k in Entries(s, n)
        ensures exists i :: 0 <= i < n && s[i] == Full(k, Entries(s, n)[k])
      {
        if s[n - 1].Full? && s[n - 1].key == k {
          assert s[n - 1] == Full(k, Entries(s, n)[k]);
        } else {
          var i :| 0 <= i < n - 1 && s[i] == Full(k, Entries(s, n - 1)[k]);
          assert s[i] == Full(k, Entries(s, n)[k]);
        }
      }
      if s[n - 1].Full? {
        assert s[n - 1].key !in Entries(s, n - 1);
      }
    }
  }

  // The entries are the map.
  lemma EntriesAre<K(!new), V>(t: Table<K, V>, m: map<K, V>)
    requires Unique(t) && Holds(t, m)
    ensures Entries(t.slots, |t.slots|) == m
  {
    hide Entries;
    EntriesHave(t.slots, |t.slots|);
    var e := Entries(t.slots, |t.slots|);
    forall k | k in m
      ensures k in e && e[k] == m[k]
    {
      var i :| 0 <= i < |t.slots| && t.slots[i] == Full(k, m[k]);
    }
    forall k | k in e
      ensures k in m
    {
      var i :| 0 <= i < |t.slots| && t.slots[i] == Full(k, e[k]);
    }
  }

  // Fewer entries than slots leave a free slot.
  lemma RoomLeft<K(!new), V>(t: Table<K, V>, m: map<K, V>)
    requires Unique(t) && Holds(t, m) && |m| < |t.slots|
    ensures HasRoom(t)
  {
    EntriesAre(t, m);
    EntriesHave(t.slots, |t.slots|);
    if forall i :: 0 <= i < |t.slots| ==> t.slots[i].Full? {
      assert false;
    }
  }

  lemma EmptyTable<K(!new), V>(ks: Keys<K>, t: Table<K, V>)
    requires t.Sized() && forall i :: 0 <= i < |t.slots| ==> t.slots[i] == Empty
    ensures Ordered(ks, t, 0) && Unique(t) && Holds(t, map[]) && HasRoom(t)
  {
    assert t.slots[0] == Empty;
  }

  // The entry of slot i is new to the entries before it.
  lemma NextEntry<K(!new), V>(t: Table<K, V>, m: map<K, V>, i: nat)
    requires Unique(t) && Holds(t, m) && i < |t.slots| && t.slots[i].Full?
    ensures var key := t.slots[i].key;
            && key !in Entries(t.slots, i) && |Entries(t.slots, i)| < |m|
  {
    hide Entries;
    var key, e := t.slots[i].key, Entries(t.slots, i);
    EntriesHave(t.slots, i);
    forall k | k in e
      ensures k in m && k != key
    {
      var j :| 0 <= j < i && t.slots[j] == Full(k, e[k]);
      UniquePair(t, j, i);
    }
    HoldsEntry(t, m, i);
    SmallerSet(e.Keys, m.Keys, key);
  }

  lemma HoldsEntry<K, V>(t: Table<K, V>, m: map<K, V>, i: nat)
    requires Holds(t, m) && i < |t.slots| && t.slots[i].Full?
    ensures t.slots[i].key in m && m[t.slots[i].key] == t.slots[i].val
  {
  }

  lemma SmallerSet<T>(a: set<T>, b: set<T>, x: T)
    requires a <= b && x in b && x !in a
    ensures |a| < |b|
  {
    assert b == a + (b - a);
    assert x in b - a;
  }

  // ---------------- what a lookup may conclude ----------------

  // No entry within the first `reach` slots of the key's path compares equal to it.
  ghost predicate Missed<K, V>(ks: Keys<K>, t: Table<K, V>, key: K, reach: nat)
    requires t.Sized()
  {
    forall d :: 0 <= d < reach && d < |t.slots| ==>
      var s := t.slots[Step(Home(ks, t, key), d, |t.slots|)]; s.Full? ==> s.key != key
  }

  lemma MissedNext<K, V>(ks: Keys<K>, t: Table<K, V>, key: K, d: nat, pos: nat)
    requires t.Sized() && Missed(ks, t, key, d) && pos < |t.slots|
    requires d < |t.slots| ==> pos == Step(Home(ks, t, key), d, |t.slots|)
    requires t.slots[pos].Full? ==> t.slots[pos].key != key
    ensures Missed(ks, t, key, d + 1)
  {
  }

  // An entry that compares equal to the key but was missed sits beyond the reach.
  lemma BeyondReach<K(!new), V>(ks: Keys<K>, t: Table<K, V>, key: K, reach: nat, i: nat)
    requires t.Sized() && Missed(ks, t, key, reach)
    requires i < |t.slots| && t.slots[i].Full? && t.slots[i].key == key
    ensures Psl(ks, t, t.slots[i].key, i) >= reach
  {
  }

  // A free slot on the path ends the search for good, and so does having gone
  // all the way round.
  lemma FreeEnds<K(!new), V>(ks: Keys<K>, t: Table<K, V>, key: K, d: nat, lo: nat)
    requires Ordered(ks, t, lo) && Missed(ks, t, key, d)
    requires d < |t.slots| ==> d >= lo && t.slots[Step(Home(ks, t, key), d, |t.slots|)].Empty?
    ensures Absent(t, key)
  {
    forall i | 0 <= i < |t.slots| && t.slots[i].Full?
      ensures t.slots[i].key != key
    {
      assert Placed(ks, t, i, lo);
      if t.slots[i].key == key { BeyondReach(ks, t, key, d, i); }
      assert t.slots[i].key == key && d < Psl(ks, t, key, i) ==> TakenAt(ks, t, key, d);
    }
  }

  // An unused route has no keys.
  lemma UnroutedAbsent<K(!new), V>(ks: Keys<K>, t: Table<K, V>, key: K, lo: nat)
    requires Ordered(ks, t, lo) && Offset(t.route[RouteOf(ks, t, key)]) == 0
    ensures Absent(t, key)
  {
    forall i | 0 <= i < |t.slots| && t.slots[i].Full?
      ensures t.slots[i].key != key
    {
      assert Placed(ks, t, i, lo);
    }
  }

  // Having looked as far as the route's longest probe, saturated routes aside,
  // the key is nowhere.
  lemma ProbesDone<K(!new), V>(ks: Keys<K>, t: Table<K, V>, key: K, reach: nat, lo: nat)
    requires Ordered(ks, t, lo) && Missed(ks, t, key, reach)
    requires var longest := MaxPsl(t.route[RouteOf(ks, t, key)]); longest < PSL_MAX && longest < reach
    ensures Absent(t, key)
  {
    forall i | 0 <= i < |t.slots| && t.slots[i].Full?
      ensures t.slots[i].key != key
    {
      assert Placed(ks, t, i, lo);
      if t.slots[i].key == key {
        BeyondReach(ks, t, key, reach, i);
      }
    }
  }

  // An absent key is not in the map.
  lemma AbsentNotIn<K(!new), V>(t: Table<K, V>, m: map<K, V>, key: K)
    requires Holds(t, m) && Absent(t, key)
    ensures key !in m
  {
  }

  lemma UniqueSlot<K, V>(t: Table<K, V>, i: nat, j: nat)
    requires Unique(t) && i < |t.slots| && j < |t.slots| && t.slots[i].Full? && t.slots[j].Full?
    requires t.slots[i].key == t.slots[j].key
    ensures i == j
  {
  }

  lemma UniquePair<K(!new), V>(t: Table<K, V>, i: nat, j: nat)
    requires Unique(t) && i < |t.slots| && j < |t.slots| && i != j
    requires t.slots[i].Full? && t.slots[j].Full?
    ensures t.slots[i].key != t.slots[j].key
  {
  }
}
