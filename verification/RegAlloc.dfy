// The register allocator: numbers handed out to locals and temporaries, a free
// list, and frees held back until the next statement starts.
module RegAlloc {
  import opened Script

  datatype RegKind = Tmp | Named | Deferred(lit: Lit64)
  datatype Reg = Reg(number: nat, kind: RegKind, freed: bool, renamed: bool)

  const LIMIT: nat := 254
  const GLOBAL: nat := 255
  const NUMBERS: nat := 256

  predicate Live(r: Reg) { r.kind.Tmp? && !r.freed }

  // ---------------- sorting ----------------

  predicate Ascending(s: seq<nat>) {
    forall i, j :: 0 <= i < j < |s| ==> s[i] < s[j]
  }

  predicate Distinct(s: seq<nat>) {
    forall i, j :: 0 <= i < j < |s| ==> s[i] != s[j]
  }

  function Insert(s: seq<nat>, x: nat): (r: seq<nat>)
    ensures forall y :: y in r <==> y in s || y == x
  {
    if |s| == 0 then [x]
    else if x <= s[0] then [x] + s
    else
      assert forall y :: y in s <==> y == s[0] || y in s[1..];
      [s[0]] + Insert(s[1..], x)
  }

  lemma {:induction false} InsertAscends(s: seq<nat>, x: nat)
    requires Ascending(s) && x !in s
    ensures Ascending(Insert(s, x))
    decreases |s|
  {
    if |s| > 0 && x > s[0] {
      var t := Insert(s[1..], x);
      InsertAscends(s[1..], x);
      forall i | 0 <= i < |t|
        ensures s[0] < t[i]
      {
        assert t[i] in t;
      }
    }
  }

  // The library's sort.
  function Sort(s: seq<nat>): (r: seq<nat>)
    ensures forall y :: y in r <==> y in s
  {
    if |s| == 0 then []
    else
      assert forall y :: y in s <==> y == s[0] || y in s[1..];
      Insert(Sort(s[1..]), s[0])
  }

  lemma {:induction false} SortAscends(s: seq<nat>)
    requires Distinct(s)
    ensures Ascending(Sort(s))
    decreases |s|
  {
    if |s| > 0 {
      SortAscends(s[1..]);
      InsertAscends(Sort(s[1..]), s[0]);
    }
  }

  lemma SortDone(s: seq<nat>)
    requires Ascending(s)
    ensures Sort(s) == s
    decreases |s|
  {
    if |s| > 0 {
      SortDone(s[1..]);
      assert s == [s[0]] + s[1..];
    }
  }

  // ---------------- the pool ----------------

  datatype Pool = Pool(regs: seq<Reg>, next: nat, free: seq<nat>, sched: seq<nat>, isLocal: seq<bool>)

  ghost predicate Local(p: Pool, n: nat) { n < |p.isLocal| && p.isLocal[n] }

  // How many live temporaries have the number.
  ghost function Holders(regs: seq<Reg>, n: nat): nat {
    if |regs| == 0 then 0
    else Holders(regs[..|regs| - 1], n) + One(Live(regs[|regs| - 1]) && regs[|regs| - 1].number == n)
  }

  ghost function One(b: bool): nat { if b then 1 else 0 }

  // In how many ways a number is taken: by a local, by a live temporary, on
  // the free list, on the scheduled list, or just drawn.
  ghost function Owners(p: Pool, drawn: set<nat>, n: nat): nat {
    One(Local(p, n)) + Holders(p.regs, n) + One(n in p.free) + One(n in p.sched) + One(n in drawn)
  }

  ghost predicate Partitioned(p: Pool, drawn: set<nat>) {
    forall n: nat :: Owners(p, drawn, n) == One(n < p.next)
  }

  ghost predicate InRange(p: Pool, id: nat)
    requires id < |p.regs|
  {
    var r := p.regs[id];
    && (r.kind.Tmp? ==> r.number < LIMIT)
    && (r.kind.Named? ==> r.number == GLOBAL || Local(p, r.number))
  }

  ghost predicate Ok(p: Pool, drawn: set<nat>) {
    && p.next <= LIMIT && |p.isLocal| == NUMBERS
    && Ascending(p.free) && Distinct(p.sched)
    && Partitioned(p, drawn)
    && forall id :: 0 <= id < |p.regs| ==> InRange(p, id)
  }

  // Numbers whose contents must survive: locals, the global one, live temporaries.
  ghost predicate Kept(p: Pool, n: nat) { n == GLOBAL || Local(p, n) || Holders(p.regs, n) > 0 }

  // ---------------- counting holders ----------------

  lemma HoldersAppend(regs: seq<Reg>, r: Reg, n: nat)
    ensures Holders(regs + [r], n) == Holders(regs, n) + One(Live(r) && r.number == n)
  {
    assert (regs + [r])[..|regs|] == regs;
  }

  lemma {:induction false} HoldersUpdate(regs: seq<Reg>, i: nat, r: Reg, n: nat)
    requires i < |regs|
    ensures Holders(regs[i := r], n) + One(Live(regs[i]) && regs[i].number == n)
         == Holders(regs, n) + One(Live(r) && r.number == n)
    decreases |regs|
  {
    var k := |regs| - 1;
    if i < k {
      HoldersUpdate(regs[..k], i, r, n);
      assert regs[i := r][..k] == regs[..k][i := r];
    } else {
      assert regs[i := r][..k] == regs[..k];
    }
  }

  lemma HoldersLive(regs: seq<Reg>, i: nat)
    requires i < |regs| && Live(regs[i])
    ensures Holders(regs, regs[i].number) >= 1
  {
    HoldersUpdate(regs, i, regs[i].(freed := true), regs[i].number);
  }

  // ---------------- steps on the pool ----------------

  lemma DrawFree(p: Pool)
    requires Ok(p, {}) && |p.free| > 0
    ensures var n := p.free[|p.free| - 1];
            Ok(p.(free := p.free[..|p.free| - 1]), {n}) && n < p.next && !Kept(p, n) && n !in p.sched
  {
    var n := p.free[|p.free| - 1];
    var q := p.(free := p.free[..|p.free| - 1]);
    assert n in p.free;
    assert Owners(p, {}, n) == One(n < p.next);
    forall k: nat ensures Owners(q, {n}, k) == One(k < q.next) {
      assert p.free == q.free + [n];
      assert Owners(p, {}, k) == One(k < p.next);
    }
    assert forall id :: 0 <= id < |q.regs| ==> InRange(p, id) ==> InRange(q, id);
  }

  lemma DrawNext(p: Pool)
    requires Ok(p, {}) && p.next < LIMIT
    ensures Ok(p.(next := p.next + 1), {p.next})
    ensures !Kept(p, p.next) && p.next !in p.sched && p.next !in p.free
  {
    var q := p.(next := p.next + 1);
    assert Owners(p, {}, p.next) == 0;
    forall k: nat ensures Owners(q, {p.next}, k) == One(k < q.next) {
      assert Owners(p, {}, k) == One(k < p.next);
    }
    assert forall id :: 0 <= id < |q.regs| ==> InRange(p, id) ==> InRange(q, id);
  }

  // The drawn number goes to a new temporary.
  lemma HandNew(p: Pool, n: nat)
    requires Ok(p, {n})
    ensures Ok(p.(regs := p.regs + [Reg(n, Tmp, false, false)]), {})
  {
    var r := Reg(n, Tmp, false, false);
    var q := p.(regs := p.regs + [r]);
    forall k: nat ensures Owners(q, {}, k) == One(k < q.next) {
      HoldersAppend(p.regs, r, k);
      assert Owners(p, {n}, k) == One(k < p.next);
    }
    assert Owners(p, {n}, n) == One(n < p.next);
    assert forall id :: 0 <= id < |p.regs| ==> InRange(p, id) ==> InRange(q, id);
  }

  // The drawn number goes to a value that was kept back so far.
  lemma HandDeferred(p: Pool, n: nat, id: nat)
    requires Ok(p, {n}) && id < |p.regs| && p.regs[id].kind.Deferred?
    ensures Ok(p.(regs := p.regs[id := p.regs[id].(number := n, kind := Tmp, freed := false)]), {})
  {
    var r := p.regs[id].(number := n, kind := Tmp, freed := false);
    var q := p.(regs := p.regs[id := r]);
    forall k: nat ensures Owners(q, {}, k) == One(k < q.next) {
      HoldersUpdate(p.regs, id, r, k);
      assert Owners(p, {n}, k) == One(k < p.next);
    }
    assert Owners(p, {n}, n) == One(n < p.next);
    assert forall i :: 0 <= i < |p.regs| ==> InRange(p, i) ==> i != id ==> InRange(q, i);
  }

  // The drawn number goes to a local.
  lemma HandLocal(p: Pool, n: nat)
    requires Ok(p, {n}) && n < LIMIT
    ensures Ok(p.(regs := p.regs + [Reg(n, Named, false, false)], isLocal := p.isLocal[n := true]), {})
  {
    var r := Reg(n, Named, false, false);
    assert Owners(p, {n}, n) == One(n < p.next);
    var q := p.(regs := p.regs + [r], isLocal := p.isLocal[n := true]);
    forall k: nat ensures Owners(q, {}, k) == One(k < q.next) {
      HoldersAppend(p.regs, r, k);
      assert Owners(p, {n}, k) == One(k < p.next);
    }
    assert forall id :: 0 <= id < |p.regs| ==> InRange(p, id) ==> InRange(q, id);
  }

  // An object that holds no number joins.
  lemma JoinIdle(p: Pool, r: Reg)
    requires Ok(p, {}) && !Live(r) && !r.kind.Tmp? && (r.kind.Named? ==> r.number == GLOBAL || Local(p, r.number))
    ensures Ok(p.(regs := p.regs + [r]), {})
  {
    var q := p.(regs := p.regs + [r]);
    forall k: nat ensures Owners(q, {}, k) == One(k < q.next) {
      HoldersAppend(p.regs, r, k);
      assert Owners(p, {}, k) == One(k < p.next);
    }
    assert forall id :: 0 <= id < |p.regs| ==> InRange(p, id) ==> InRange(q, id);
  }

  // A live temporary gives its number up, for the next statement to reuse; it
  // may from now on stand for a local.
  lemma Freed(p: Pool, id: nat, r: Reg)
    requires Ok(p, {}) && id < |p.regs| && Live(p.regs[id]) && !Live(r)
    requires r.kind.Tmp? ==> r.number < LIMIT
    requires r.kind.Named? ==> r.number == GLOBAL || Local(p, r.number)
    ensures Ok(p.(regs := p.regs[id := r], sched := p.sched + [p.regs[id].number]), {})
  {
    var n := p.regs[id].number;
    var q := p.(regs := p.regs[id := r], sched := p.sched + [n]);
    HoldersLive(p.regs, id);
    assert Owners(p, {}, n) == One(n < p.next);
    forall k: nat ensures Owners(q, {}, k) == One(k < q.next) {
      HoldersUpdate(p.regs, id, r, k);
      assert Owners(p, {}, k) == One(k < p.next);
    }
    assert forall i :: 0 <= i < |p.regs| ==> InRange(p, i) ==> i != id ==> InRange(q, i);
  }

  // An object without a number changes into another one.
  lemma Idled(p: Pool, id: nat, r: Reg)
    requires Ok(p, {}) && id < |p.regs| && !Live(p.regs[id]) && !Live(r) && !r.kind.Tmp?
    requires r.kind.Named? ==> r.number == GLOBAL || Local(p, r.number)
    ensures Ok(p.(regs := p.regs[id := r]), {})
  {
    var q := p.(regs := p.regs[id := r]);
    forall k: nat ensures Owners(q, {}, k) == One(k < q.next) {
      HoldersUpdate(p.regs, id, r, k);
      assert Owners(p, {}, k) == One(k < p.next);
    }
    assert forall i :: 0 <= i < |p.regs| ==> InRange(p, i) ==> i != id ==> InRange(q, i);
  }

  lemma Relabelled(p: Pool, id: nat)
    requires Ok(p, {}) && id < |p.regs|
    ensures Ok(p.(regs := p.regs[id := p.regs[id].(renamed := true)]), {})
  {
    var r := p.regs[id].(renamed := true);
    var q := p.(regs := p.regs[id := r]);
    forall k: nat ensures Owners(q, {}, k) == One(k < q.next) {
      HoldersUpdate(p.regs, id, r, k);
      assert Owners(p, {}, k) == One(k < p.next);
    }
    assert forall i :: 0 <= i < |p.regs| ==> InRange(p, i) ==> InRange(q, i);
  }

  // A live temporary becomes a declared local.
  lemma Promoted(p: Pool, id: nat)
    requires Ok(p, {}) && id < |p.regs| && Live(p.regs[id])
    ensures p.regs[id].number < LIMIT
    ensures Ok(p.(regs := p.regs[id := p.regs[id].(kind := Named)],
                  isLocal := p.isLocal[p.regs[id].number := true]), {})
  {
    var n, r := p.regs[id].number, p.regs[id].(kind := Named);
    assert InRange(p, id);
    var q := p.(regs := p.regs[id := r], isLocal := p.isLocal[n := true]);
    HoldersLive(p.regs, id);
    assert Owners(p, {}, n) == One(n < p.next);
    forall k: nat ensures Owners(q, {}, k) == One(k < q.next) {
      HoldersUpdate(p.regs, id, r, k);
      assert Owners(p, {}, k) == One(k < p.next);
    }
    assert forall i :: 0 <= i < |p.regs| ==> InRange(p, i) ==> i != id ==> InRange(q, i);
  }

  lemma FreeSchedApart(p: Pool)
    requires Ok(p, {})
    ensures Distinct(p.free + p.sched)
  {
    forall i, j | 0 <= i < |p.free| && 0 <= j < |p.sched|
      ensures p.free[i] != p.sched[j]
    {
      var n := p.free[i];
      assert n in p.free && Owners(p, {}, n) <= 1;
      assert p.sched[j] in p.sched;
    }
  }

  // The scheduled numbers become free.
  lemma Committed(p: Pool)
    requires Ok(p, {})
    ensures Ok(p.(free := Sort(p.free + p.sched), sched := []), {})
  {
    var q := p.(free := Sort(p.free + p.sched), sched := []);
    FreeSchedApart(p);
    SortAscends(p.free + p.sched);
    forall k: nat ensures Owners(q, {}, k) == One(k < q.next) {
      assert Owners(p, {}, k) == One(k < p.next);
      assert k in q.free <==> k in p.free || k in p.sched;
    }
    assert forall id :: 0 <= id < |p.regs| ==> InRange(p, id) ==> InRange(q, id);
  }

  // New temporaries, one for each number.
  function Fresh(numbers: seq<nat>): seq<Reg> {
    seq(|numbers|, i requires 0 <= i < |numbers| => Reg(numbers[i], Tmp, false, false))
  }

  lemma {:induction false} HoldersFresh(regs: seq<Reg>, numbers: seq<nat>, n: nat)
    requires Distinct(numbers)
    ensures Holders(regs + Fresh(numbers), n) == Holders(regs, n) + One(n in numbers)
    decreases |numbers|
  {
    if |numbers| == 0 {
      assert regs + Fresh(numbers) == regs;
    } else {
      var k := |numbers| - 1;
      HoldersFresh(regs, numbers[..k], n);
      HoldersAppend(regs + Fresh(numbers[..k]), Fresh(numbers)[k], n);
      assert regs + Fresh(numbers) == (regs + Fresh(numbers[..k])) + [Fresh(numbers)[k]];
      assert numbers == numbers[..k] + [numbers[k]];
    }
  }

  // The end of the free list is handed out at once.
  lemma TakeTail(p: Pool, e: nat)
    requires Ok(p, {}) && e <= |p.free|
    ensures Ok(p.(regs := p.regs + Fresh(p.free[e..]), free := p.free[..e]), {})
    ensures forall i :: e <= i < |p.free| ==> !Kept(p, p.free[i]) && p.free[i] < LIMIT
  {
    var tail := p.free[e..];
    assert p.free == p.free[..e] + tail;
    var q := p.(regs := p.regs + Fresh(tail), free := p.free[..e]);
    forall k: nat ensures Owners(q, {}, k) == One(k < q.next) {
      HoldersFresh(p.regs, tail, k);
      assert Owners(p, {}, k) == One(k < p.next);
    }
    forall i | e <= i < |p.free|
      ensures !Kept(p, p.free[i]) && p.free[i] < p.next
    {
      assert p.free[i] in p.free;
      assert Owners(p, {}, p.free[i]) == One(p.free[i] < p.next);
    }
    assert forall id :: 0 <= id < |p.regs| ==> InRange(p, id) ==> InRange(q, id);
  }

  // Two live temporaries never share a number.
  lemma {:induction false} HoldersTwo(regs: seq<Reg>, i: nat, j: nat)
    requires i < j < |regs| && Live(regs[i]) && Live(regs[j]) && regs[i].number == regs[j].number
    ensures Holders(regs, regs[i].number) >= 2
  {
    var n := regs[i].number;
    HoldersUpdate(regs, i, regs[i].(freed := true), n);
    HoldersLive(regs[i := regs[i].(freed := true)], j);
  }

  // Locals, live temporaries, free and scheduled numbers split [0, next).
  lemma OneOwner(p: Pool, n: nat)
    requires Ok(p, {})
    ensures p.next <= LIMIT
    ensures n < p.next <==> Local(p, n) || n in p.free || n in p.sched || Holders(p.regs, n) > 0
    ensures Local(p, n) ==> n !in p.free && n !in p.sched && Holders(p.regs, n) == 0
    ensures n in p.free ==> n !in p.sched && Holders(p.regs, n) == 0
    ensures n in p.sched ==> Holders(p.regs, n) == 0
    ensures forall i, j :: 0 <= i < j < |p.regs| && Live(p.regs[i]) && Live(p.regs[j]) ==> p.regs[i].number != p.regs[j].number
  {
    assert Owners(p, {}, n) == One(n < p.next);
    forall i, j | 0 <= i < j < |p.regs| && Live(p.regs[i]) && Live(p.regs[j])
      ensures p.regs[i].number != p.regs[j].number
    {
      var k := p.regs[i].number;
      assert Owners(p, {}, k) == One(k < p.next);
      if p.regs[j].number == k { HoldersTwo(p.regs, i, j); }
    }
  }

  // The last `count` numbers follow one another.
  ghost predicate EndsInRun(free: seq<nat>, count: nat) {
    && count <= |free|
    && forall j :: |free| - count <= j < |free| ==> free[j] == free[|free| - count] + (j - (|free| - count))
  }

  // `count` live temporaries joined the pool, with consecutive numbers that
  // nothing held.
  ghost predicate Consecutive(p: Pool, regs: seq<Reg>, count: nat) {
    && |regs| == |p.regs| + count && p.regs <= regs
    && forall i :: |p.regs| <= i < |regs| ==>
         && Live(regs[i]) && !Kept(p, regs[i].number)
         && regs[i].number == regs[|p.regs|].number + (i - |p.regs|)
  }

  lemma RunTaken(p: Pool, count: nat)
    requires Ok(p, {}) && EndsInRun(p.free, count)
    ensures Consecutive(p, p.regs + Fresh(p.free[|p.free| - count..]), count)
  {
    TakeTail(p, |p.free| - count);
  }

  lemma NoneIsRun(free: seq<nat>)
    ensures EndsInRun(free, 0)
    ensures forall count: nat :: EndsInRun(free, count) ==> count <= |free|
  {
  }

  lemma FreeAscends(p: Pool)
    requires Ok(p, {})
    ensures Ascending(p.free)
  {
  }

  lemma NotYetUsed(p: Pool, n: nat)
    requires Ok(p, {}) && p.next <= n < LIMIT
    ensures !Kept(p, n)
  {
    assert Owners(p, {}, n) == 0;
  }

  // ---------------- the allocator ----------------

  class Allocator {
    var regs: seq<Reg>
    var next: nat
    var free: seq<nat>
    var sched: seq<nat>
    var isLocal: seq<bool>

    ghost function P(): Pool
      reads this
    {
      Pool(regs, next, free, sched, isLocal)
    }

    ghost predicate Valid()
      reads this
    {
      Ok(P(), {})
    }

    constructor ()
      ensures Valid() && regs == [] && next == 0 && free == [] && sched == []
      ensures forall n :: !Local(P(), n)
    {
      regs, next, free, sched := [], 0, [], [];
      isLocal := seq(NUMBERS, _ => false);
    }

    // The last free number, or the next unused one.
    method TmpNumber() returns (ok: bool, n: nat)
      requires Valid()
      modifies `next, `free
      ensures ok == (|old(free)| > 0 || old(next) < LIMIT)
      ensures !ok ==> P() == old(P())
      ensures ok ==> Ok(P(), {n}) && n < LIMIT && !Kept(old(P()), n)
      ensures ok && |old(free)| > 0 ==> n == old(free[|free| - 1]) && next == old(next) && free == old(free[..|free| - 1])
      ensures ok && |old(free)| == 0 ==> n == old(next) && next == old(next) + 1 && free == old(free)
    {
      if |free| > 0 {
        DrawFree(P());
        ok, n, free := true, free[|free| - 1], free[..|free| - 1];
        assert !isLocal[n];
      } else if next >= LIMIT {
        ok, n := false, 0;
      } else {
        DrawNext(P());
        ok, n, next := true, next, next + 1;
      }
    }

    // A new temporary.
    method NewTmp() returns (ok: bool, id: nat)
      requires Valid()
      modifies `next, `free, `regs
      ensures Valid() && (!ok ==> next == LIMIT && P() == old(P()))
      ensures ok ==>
                && id == |old(regs)| && |regs| == id + 1 && regs[..id] == old(regs)
                && regs[id] == Reg(regs[id].number, Tmp, false, false)
                && regs[id].number < LIMIT && !Kept(old(P()), regs[id].number)
    {
      var n;
      ok, n := TmpNumber();
      id := |regs|;
      if ok {
        HandNew(P(), n);
        regs := regs + [Reg(n, Tmp, false, false)];
      }
    }

    // A new temporary that has never been used before.
    method TmpFresh() returns (ok: bool, id: nat)
      requires Valid()
      modifies `next, `regs
      ensures Valid() && ok == (old(next) < LIMIT) && (!ok ==> P() == old(P()))
      ensures ok ==>
                && id == |old(regs)| && regs == old(regs) + [Reg(old(next), Tmp, false, false)]
                && next == old(next) + 1 && !Kept(old(P()), old(next))
    {
      ok, id := next != LIMIT, |regs|;
      if ok {
        DrawNext(P());
        HandNew(P().(next := next + 1), next);
        regs, next := regs + [Reg(next, Tmp, false, false)], next + 1;
      }
    }

    // A run of temporaries with consecutive numbers: the end of the free list
    // when that is consecutive, fresh ones otherwise.
    method TmpContinuous(count: nat) returns (ok: bool, ids: seq<nat>)
      requires Valid()
      modifies `next, `free, `regs
      ensures Valid() && (!ok ==> next == LIMIT)
      ensures ok <==> EndsInRun(old(free), count) || old(next) + count <= LIMIT
      ensures ok ==> Consecutive(old(P()), regs, count) && ids == seq(count, i => |old(regs)| + i)
    {
      hide Partitioned, InRange, Sort, EndsInRun, Consecutive;
      NoneIsRun(free);
      FreeAscends(P());
      SortDone(free);
      free := Sort(free);
      var run := RunAtEnd(count);
      if run {
        RunTaken(P(), count);
        TakeTail(P(), |free| - count);
        ids := TakeRun(count);
        ok := true;
      } else {
        ok, ids := FreshRun(count);
      }
    }

    method RunAtEnd(count: nat) returns (run: bool)
      ensures run == EndsInRun(free, count)
    {
      var end: int := |free| - count;
      if end < 0 { return false; }
      var pos := |free| - 1;
      while pos > end
        invariant end <= pos + 1 <= |free| && (pos >= end || count == 0)
        invariant pos >= 0 ==> forall j :: pos <= j < |free| ==> free[j] == free[pos] + (j - pos)
        decreases pos
      {
        if free[pos] != free[pos - 1] + 1 { return false; }
        pos := pos - 1;
      }
      return true;
    }

    method TakeRun(count: nat) returns (ids: seq<nat>)
      requires count <= |free|
      modifies `free, `regs
      ensures free == old(free)[..|old(free)| - count]
      ensures regs == old(regs) + Fresh(old(free)[|old(free)| - count..])
      ensures ids == seq(count, i => |old(regs)| + i)
    {
      var start := |free| - count;
      var end := start;
      ids := [];
      while end < |free|
        invariant start <= end <= |free|
        invariant regs == old(regs) + Fresh(free[start..end])
        invariant ids == seq(end - start, i => |old(regs)| + i)
        modifies `regs
      {
        assert free[start..end + 1] == free[start..end] + [free[end]];
        ids := ids + [|regs|];
        regs := regs + [Reg(free[end], Tmp, false, false)];
        end := end + 1;
      }
      free := free[..|free| - count];
    }

    method FreshRun(count: nat) returns (ok: bool, ids: seq<nat>)
      requires Valid() && count > 0
      modifies `next, `regs
      ensures Valid() && (!ok ==> next == LIMIT)
      ensures ok == (old(next) + count <= LIMIT)
      ensures ok ==> Consecutive(old(P()), regs, count) && ids == seq(count, i => |old(regs)| + i)
    {
      ids, ok := [], true;
      hide Partitioned, InRange;
      var left := count;
      while left > 0
        invariant Valid() && left <= count && ok
        invariant next == old(next) + (count - left)
        invariant |regs| == |old(regs)| + (count - left) && old(regs) <= regs
        invariant forall i :: |old(regs)| <= i < |regs| ==>
                    && regs[i] == Reg(old(next) + (i - |old(regs)|), Tmp, false, false)
                    && !Kept(old(P()), regs[i].number)
        invariant ids == seq(count - left, i => |old(regs)| + i)
      {
        var id;
        if next < LIMIT { NotYetUsed(old(P()), next); }
        ok, id := TmpFresh();
        if !ok { return; }
        ids, left := ids + [id], left - 1;
      }
    }

    // A number for a local; locals are never given back.
    method AllocLocal() returns (ok: bool, id: nat)
      requires Valid()
      modifies `next, `regs, `isLocal
      ensures Valid() && ok == (old(next) < LIMIT) && (!ok ==> P() == old(P()))
      ensures ok ==>
                && id == |old(regs)| && regs == old(regs) + [Reg(old(next), Named, false, false)]
                && next == old(next) + 1 && isLocal == old(isLocal)[old(next) := true] && !Kept(old(P()), old(next))
    {
      ok, id := next < LIMIT, |regs|;
      if ok {
        DrawNext(P());
        HandLocal(P().(next := next + 1), next);
        regs, isLocal, next := regs + [Reg(next, Named, false, false)], isLocal[next := true], next + 1;
      }
    }

    // The reserved register that holds the globals.
    method AddGlobal() returns (id: nat)
      requires Valid()
      modifies `regs
      ensures Valid() && id == |old(regs)| && regs == old(regs) + [Reg(GLOBAL, Named, false, false)]
    {
      id := |regs|;
      JoinIdle(P(), Reg(GLOBAL, Named, false, false));
      regs := regs + [Reg(GLOBAL, Named, false, false)];
    }

    // A value that needs no register yet.
    method Defer(lit: Lit64) returns (id: nat)
      requires Valid()
      modifies `regs
      ensures Valid() && id == |old(regs)| && regs == old(regs) + [Reg(0, Deferred(lit), false, false)]
    {
      id := |regs|;
      JoinIdle(P(), Reg(0, Deferred(lit), false, false));
      regs := regs + [Reg(0, Deferred(lit), false, false)];
    }

    // Such a value gets its register, the object staying the same.
    method Materialise(id: nat) returns (ok: bool)
      requires Valid() && id < |regs| && regs[id].kind.Deferred?
      modifies `next, `free, `regs
      ensures Valid() && (!ok ==> next == LIMIT && P() == old(P()))
      ensures ok ==>
                && |regs| == |old(regs)| && regs == old(regs)[id := regs[id]]
                && regs[id] == Reg(regs[id].number, Tmp, false, old(regs)[id].renamed)
                && regs[id].number < LIMIT && !Kept(old(P()), regs[id].number)
    {
      var n;
      ok, n := TmpNumber();
      if ok {
        HandDeferred(P(), n, id);
        regs := regs[id := regs[id].(number := n, kind := Tmp, freed := false)];
      }
    }

    // Freeing twice is harmless; the number is not reusable before a commit.
    method Free(id: nat)
      requires Valid() && id < |regs| && regs[id].kind.Tmp?
      modifies `sched, `regs
      ensures Valid()
      ensures regs == old(regs)[id := old(regs)[id].(freed := true)]
      ensures sched == if old(regs)[id].freed then old(sched) else old(sched) + [old(regs)[id].number]
    {
      if !regs[id].freed {
        assert InRange(P(), id);
        Freed(P(), id, regs[id].(freed := true));
        sched := sched + [regs[id].number];
        regs := regs[id := regs[id].(freed := true)];
      }
    }

    // Locals and deferred values are left alone.
    method Release(id: nat)
      requires Valid() && id < |regs|
      modifies `sched, `regs
      ensures Valid()
      ensures regs == if old(regs)[id].kind.Tmp? then old(regs)[id := old(regs)[id].(freed := true)] else old(regs)
      ensures sched == if Live(old(regs)[id]) then old(sched) + [old(regs)[id].number] else old(sched)
    {
      if regs[id].kind.Tmp? { Free(id); }
    }

    // What was freed becomes reusable.
    method Commit()
      requires Valid()
      modifies `free, `sched
      ensures Valid() && sched == [] && forall n :: n in free <==> n in old(free) || n in old(sched)
    {
      if |sched| == 0 { return; }
      Committed(P());
      free, sched := Sort(free + sched), [];
    }

    method NoRename(id: nat)
      requires Valid() && id < |regs|
      modifies `regs
      ensures Valid() && regs == old(regs)[id := old(regs)[id].(renamed := true)]
    {
      Relabelled(P(), id);
      regs := regs[id := regs[id].(renamed := true)];
    }

    // A temporary takes over the number of its destination.
    method Rename(src: nat, dst: nat) returns (done: bool)
      requires Valid() && src < |regs| && dst < |regs| && regs[dst].kind.Named?
      modifies `sched, `regs
      ensures Valid() && done == (old(regs)[src].kind.Tmp? && !old(regs)[src].renamed)
      ensures regs == if done then old(regs)[src := Reg(old(regs)[dst].number, Named, true, true)] else old(regs)
      ensures sched == if done && !old(regs)[src].freed then old(sched) + [old(regs)[src].number] else old(sched)
    {
      if !regs[src].kind.Tmp? || regs[src].renamed { return false; }
      var r := Reg(regs[dst].number, Named, true, true);
      assert InRange(P(), dst);
      if regs[src].freed {
        Idled(P(), src, r);
      } else {
        Freed(P(), src, r);
        sched := sched + [regs[src].number];
      }
      regs := regs[src := r];
      return true;
    }

    // Declaring a temporary makes it a local.
    method Promote(id: nat)
      requires Valid() && id < |regs| && Live(regs[id])
      modifies `regs, `isLocal
      ensures Valid() && old(regs)[id].number < NUMBERS
      ensures regs == old(regs)[id := old(regs)[id].(kind := Named)]
      ensures isLocal == old(isLocal)[old(regs)[id].number := true]
    {
      Promoted(P(), id);
      isLocal := isLocal[regs[id].number := true];
      regs := regs[id := regs[id].(kind := Named)];
    }
  }
}
