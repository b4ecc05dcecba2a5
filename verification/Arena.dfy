// One arena: a bump pointer, an intrusive free list threaded through the free
// slots, and allocation of several adjacent slots by sorting that list.
module Arena {
  import opened FreeList

  // The slots of a block.
  ghost predicate Covers(blocks: map<nat, nat>, b: nat, s: nat)
    requires b in blocks
  {
    b <= s < b + blocks[b]
  }

  // Live blocks: disjoint stretches of used slots, together with the free
  // slots exactly the slots handed out so far.
  ghost predicate BlocksOk(blocks: map<nat, nat>, list: seq<nat>, bump: nat) {
    && (forall b :: b in blocks ==> blocks[b] >= 1 && b + blocks[b] <= bump)
    && (forall b, c, s :: b in blocks && c in blocks && Covers(blocks, b, s) && Covers(blocks, c, s) ==> b == c)
    && (forall s :: 0 <= s < bump ==> (s in list <==> !Covered(blocks, s)))
  }

  ghost predicate Covered(blocks: map<nat, nat>, s: nat) {
    exists b :: b in blocks && Covers(blocks, b, s)
  }

  class Arena {
    const size: nat            // bytes of a slot
    const room: nat            // bytes for slots
    var links: array<Link>     // the first word of every slot
    var freelist: Link
    var bump: nat
    var live: nat
    ghost var list: seq<nat>
    ghost var blocks: map<nat, nat>

    ghost function Capacity(): nat
      reads this
    {
      links.Length
    }

    ghost predicate ListOk()
      reads this, links
    {
      && Linked(links[..], freelist, list) && Distinct(list)
      && forall i :: 0 <= i < |list| ==> list[i] < bump
    }

    ghost predicate Valid()
      reads this, links
    {
      && size > 0 && links.Length == room / size
      && bump <= Capacity() && ListOk()
      && live + |list| + (Capacity() - bump) == Capacity()
      && BlocksOk(blocks, list, bump)
    }

    constructor (size: nat, room: nat)
      requires size > 0
      ensures Valid() && fresh(links) && blocks == map[] && list == [] && Capacity() == room / size && live == 0 && bump == 0
    {
      this.size, this.room := size, room;
      links := new Link[room / size](_ => Null);
      freelist, bump, live, list, blocks := Null, 0, 0, [], map[];
    }

    // Two neighbours of the list change places.
    method Exchange(prevNext: Link, cur: nat, nxt: nat, ghost i: nat)
      requires Linked(links[..], freelist, list) && Distinct(list) && i + 1 < |list| && cur == list[i] && nxt == list[i + 1]
      requires prevNext == if i == 0 then Null else At(list[i - 1])
      modifies this`freelist, this`list, links
      ensures Linked(links[..], freelist, list) && list == Swap(old(list), i)
      ensures forall s :: 0 <= s < links.Length && s !in old(list) ==> links[s] == old(links[s])
    {
      ghost var was, head := links[..], freelist;
      assert was[cur] == Nth(list, i + 1) && was[nxt] == Nth(list, i + 2);
      links[cur] := links[nxt];
      links[nxt] := At(cur);
      if prevNext.Null? { freelist := At(nxt); } else { links[prevNext.slot] := At(nxt); }
      SwapLinks(was, head, list, i, links[..], freelist);
      list := Swap(list, i);
    }

    // Exchanges two neighbours in the wrong order: one inversion is gone.
    method SwapAt(prevNext: Link, cur: nat, nxt: nat, ghost i: nat)
      requires ListOk() && i + 1 < |list| && cur == list[i] && nxt == list[i + 1] && cur > nxt
      requires prevNext == if i == 0 then Null else At(list[i - 1])
      modifies this`freelist, this`list, links
      ensures ListOk() && SameSlots(old(list), list) && Inversions(list) < Inversions(old(list)) && |list| == |old(list)|
      ensures forall x :: x in list <==> x in old(list)
      ensures list[i] == nxt && list[i + 1] == cur
      ensures forall s :: 0 <= s < links.Length && s !in list ==> links[s] == old(links[s])
    {
      hide Linked, Swap, Inversions, Distinct;
      SwapFewer(list, i);
      SwapSame(list, i);
      SwapEnds(list, i);
      SwapBelow(list, i, bump);
      Exchange(prevNext, cur, nxt, i);
    }

    // One time through the list, exchanging neighbours in the wrong order.
    method BubblePass() returns (swapped: bool)
      requires ListOk() && freelist != Null
      modifies this`freelist, this`list, links
      ensures ListOk() && SameSlots(old(list), list)
      ensures swapped ==> Inversions(list) < Inversions(old(list))
      ensures !swapped ==> list == old(list) && Sorted(list)
      ensures forall s :: 0 <= s < links.Length && s !in list ==> links[s] == old(links[s])
    {
      hide Linked, Swap, Inversions, SameSlots, Distinct, Sorted;
      SameSelf(list);
      SortedOne(list);
      HeadOf(links[..], freelist, list);
      LinkOf(links[..], freelist, list, 0);
      var prevNext := Null;            // whose link leads to cur: none means the head
      var cur := freelist;
      swapped := false;
      ghost var i := 0;
      while cur.At? && links[cur.slot].At?
        invariant ListOk() && SameSlots(old(list), list) && i < |list| == |old(list)|
        invariant cur == At(list[i]) && prevNext == if i == 0 then Null else At(list[i - 1])
        invariant list[i] < links.Length && links[list[i]] == Nth(list, i + 1)
        invariant swapped ==> Inversions(list) < Inversions(old(list))
        invariant !swapped ==> list == old(list) && Sorted(list[..i + 1])
        invariant forall s :: 0 <= s < links.Length && s !in list ==> links[s] == old(links[s])
        decreases |list| - i
      {
        var nxt := links[cur.slot];
        assert nxt == At(list[i + 1]);
        if cur.slot > nxt.slot {
          ghost var before := list;
          SwapAt(prevNext, cur.slot, nxt.slot, i);
          SameTrans(old(list), before, list);
          prevNext := nxt;
          swapped := true;
        } else {
          SortedNext(list, i);
          prevNext := cur;
          cur := nxt;
        }
        i := i + 1;
        LinkOf(links[..], freelist, list, i);
      }
    }

    // Takes `need` slots from position a on out of the list.
    method Unlink(prevStart: Link, start: Link, need: nat, ghost a: nat)
      requires ListOk() && need >= 1 && a + need <= |list| && start == At(list[a])
      requires prevStart == if a == 0 then Null else At(list[a - 1])
      modifies this`freelist, this`list, this`live, links
      ensures ListOk() && list == Cut(old(list), a, need) && live == old(live) + need
    {
      hide Linked, Distinct, Cut;
      ghost var was, head := links[..], freelist;
      var tail := start;
      for i := 0 to need
        invariant tail == Nth(list, a + i)
        modifies {}
      {
        LinkOf(was, head, list, a + i);
        tail := links[tail.slot];
      }
      if a > 0 { LinkOf(was, head, list, a - 1); }
      LinkOf(was, head, list, 0);
      if prevStart.Null? { freelist := tail; } else { links[prevStart.slot] := tail; }
      CutLinks(was, head, list, a, need, links[..], freelist);
      CutDistinct(list, a, need);
      list := Cut(list, a, need);
      live := live + need;
    }

    // The first run of `need` slots in the list is taken out of it.  A run of
    // one is only seen as part of a run of two.
    method FindRun(need: nat) returns (found: Link, ghost a: nat)
      requires ListOk() && need >= 1
      modifies this`freelist, this`list, this`live, links
      ensures ListOk()
      ensures found.Null? ==> list == old(list) && live == old(live) && NoRun(list, Seen(need), |list|)
      ensures found.At? ==>
                && Run(old(list), a, Seen(need)) && a < |old(list)| && found == At(old(list)[a])
                && list == Cut(old(list), a, need) && live == old(live) + need
    {
      hide Linked, Run, Distinct, NoRun, Scanned;
      ghost var was := links[..];
      var prevStart, start, p, seq_, hit := Null, freelist, freelist, 1, false;
      a := 0;
      ghost var i := 0;
      HeadOf(was, freelist, list);
      if list != [] { LinkOf(was, freelist, list, 0); }
      ScanStarts(list, Seen(need));
      while p.At? && links[p.slot].At?
        invariant !hit && (p.Null? ==> list == [])
        invariant p.At? ==>
                    && a <= i < |list| && p == At(list[i]) && start == At(list[a]) && list[i] < links.Length
                    && links[list[i]] == Nth(list, i + 1)
                    && prevStart == (if a == 0 then Null else At(list[a - 1]))
                    && Scanned(list, i, a, seq_, Seen(need))
        decreases |list| - i
        modifies {}
      {
        var nx := links[p.slot];
        ScanNext(list, i, a, seq_, Seen(need));
        ScanSize(list, i, a, seq_, Seen(need));
        if p.slot + 1 == nx.slot {
          seq_ := seq_ + 1;
          if seq_ >= need {
            hit := true;
            break;
          }
        } else {
          prevStart, start, seq_ := p, nx, 1;
          a := i + 1;
        }
        p := nx;
        i := i + 1;
        LinkOf(was, freelist, list, i);
      }
      if hit {
        found := start;
        RunFits(list, a, seq_);
        Unlink(prevStart, start, need, a);
      } else {
        if p.At? { ScanEnds(list, i, a, seq_, Seen(need)); }
        found := Null;
      }
    }

    // Sorts the free list pass by pass until it shows a run, or is sorted and
    // shows none.
    method BubbleSort(need: nat) returns (found: Link)
      requires ListOk() && need >= 1
      modifies this`freelist, this`list, this`live, links
      ensures ListOk()
      ensures found.At? <==> Contiguous(old(list), Seen(need))
      ensures found.Null? ==> SameSlots(old(list), list) && live == old(live)
      ensures found.At? ==> Taken(old(list), list, found.slot, need) && live == old(live) + need
      ensures forall s :: s in list ==> s in old(list)
    {
      hide Linked, Distinct, Run, Sorted, Inversions, Contiguous, Taken, Cut, StartsRun;
      HeadOf(links[..], freelist, list);
      SameSelf(list);
      if freelist.Null? {
        NoneContiguous(list, Seen(need));
        return Null;
      }
      while true
        invariant ListOk() && SameSlots(old(list), list) && freelist != Null && live == old(live)
        decreases Inversions(list)
      {
        var swapped := BubblePass();
        SameTrans(old(list), old(list), list);
        ghost var mid := list;
        ghost var a;
        found, a := FindRun(need);
        SameContiguous(old(list), mid, Seen(need));
        if found.At? {
          CutTaken(old(list), mid, a, need, Seen(need));
          RunContiguous(mid, a, Seen(need));
          TakenIn(old(list), list, found.slot, need);
          return;
        }
        if !swapped {
          SortedNone(mid, Seen(need));
          return;
        }
        HeadOf(links[..], freelist, list);
      }
    }

    // ---------------- the arena's operations ----------------

    // One slot: the most recently freed one, or the next unused one.
    method Alloc() returns (r: Link)
      requires Valid()
      modifies this`freelist, this`bump, this`live, this`list, this`blocks
      ensures Valid()
      ensures r.Null? <==> old(list) == [] && old(bump) == Capacity()
      ensures r.Null? ==> list == old(list) && blocks == old(blocks) && bump == old(bump) && live == old(live)
      ensures r.At? ==> r.slot !in old(blocks) && blocks == old(blocks)[r.slot := 1] && live == old(live) + 1
      ensures r.At? && old(list) != [] ==> r == At(old(list)[0]) && list == old(list)[1..] && bump == old(bump)
      ensures r.At? && old(list) == [] ==> r == At(old(bump)) && list == [] && bump == old(bump) + 1
    {
      hide Linked, Distinct, BlocksOk, Taken;
      HeadOf(links[..], freelist, list);
      if freelist.At? {
        r := freelist;
        PopLinks(links[..], freelist, list);
        BlockTaken(blocks, list, list[1..], bump, r.slot, 1);
        TakenIn(list, list[1..], r.slot, 1);
        freelist := links[r.slot];
        list, blocks := list[1..], blocks[r.slot := 1];
      } else {
        Fits(bump + 1, size, room);
        if (bump + 1) * size > room { return Null; }
        r := At(bump);
        BlockBumped(blocks, list, bump, 1);
        blocks := blocks[bump := 1];
        bump := bump + 1;
      }
      live := live + 1;
    }

    // `count` adjacent slots: a run of free ones if there is one, unused ones
    // otherwise.
    method AllocLinked(count: nat) returns (r: Link)
      requires Valid() && count >= 1
      modifies this`freelist, this`bump, this`live, this`list, this`blocks, links
      ensures Valid()
      ensures r.Null? <==> !Contiguous(old(list), Seen(count)) && old(bump) + count > Capacity()
      ensures r.Null? ==> SameSlots(old(list), list) && blocks == old(blocks) && bump == old(bump) && live == old(live)
      ensures r.At? ==> r.slot !in old(blocks) && blocks == old(blocks)[r.slot := count] && live == old(live) + count
      ensures r.At? && Contiguous(old(list), Seen(count)) ==> Taken(old(list), list, r.slot, count) && bump == old(bump)
      ensures r.At? && !Contiguous(old(list), Seen(count)) ==>
                r == At(old(bump)) && SameSlots(old(list), list) && bump == old(bump) + count
    {
      hide Linked, Distinct, BlocksOk, Taken, SameSlots, Contiguous;
      r := BubbleSort(count);
      if r.At? {
        BlockTaken(blocks, old(list), list, bump, r.slot, count);
        TakenIn(old(list), list, r.slot, count);
        blocks := blocks[r.slot := count];
        return;
      }
      BlocksSame(blocks, old(list), list, bump);
      Fits(bump + count, size, room);
      if (bump + count) * size > room { return Null; }
      r := At(bump);
      BlockBumped(blocks, list, bump, count);
      blocks := blocks[bump := count];
      bump, live := bump + count, live + count;
    }

    // A block of one slot goes to the front of the free list.
    method Free(slot: nat)
      requires Valid() && slot in blocks && blocks[slot] == 1
      modifies this`freelist, this`live, this`list, this`blocks, links
      ensures Valid() && blocks == old(blocks) - {slot} && list == [slot] + old(list) && live == old(live) - 1 && bump == old(bump)
    {
      hide Linked, Distinct, BlocksOk;
      BlockFreed(blocks, list, bump, slot);
      BlockSlots(blocks, list, bump, slot, slot);
      FrontDistinct(slot, list);
      DistinctFits([slot] + list, bump);
      PushOne(slot);
      blocks := blocks - {slot};
    }

    method PushOne(s: nat)
      requires Linked(links[..], freelist, list) && Distinct(list) && s < links.Length && s !in list && live > 0
      modifies this`freelist, this`live, this`list, links
      ensures Linked(links[..], freelist, list) && Distinct(list) && list == [s] + old(list) && live == old(live) - 1
    {
      hide Linked, Distinct;
      ghost var was := links[..];
      PushLinks(was, freelist, list, s);
      links[s] := freelist;
      assert links[..] == was[s := freelist];
      freelist := At(s);
      list, live := [s] + list, live - 1;
    }

    // The loop of FreeLinked: slots first to first + k - 1 go in front of the list.
    method PushRange(first: nat, k: nat)
      requires Linked(links[..], freelist, list) && Distinct(list) && first + k <= bump <= links.Length
      requires (forall x :: x in list ==> x < bump) && (forall x :: first <= x < first + k ==> x !in list)
      requires live + |list| == bump
      modifies this`freelist, this`live, this`list, links
      ensures Linked(links[..], freelist, list) && Distinct(list) && list == Down(first, k) + old(list)
      ensures live + |list| == bump && |list| == |old(list)| + k
      ensures (forall x :: x in list <==> x in old(list) || first <= x < first + k) && forall x :: x in list ==> x < bump
    {
      hide Linked, Distinct, Down;
      ghost var was := list;
      DownNext(first, 0);
      assert list == Down(first, 0) + was;
      for i := 0 to k
        invariant Linked(links[..], freelist, list) && Distinct(list) && list == Down(first, i) + was
        invariant live + |list| == bump && |list| == |was| + i
        invariant forall x :: x in list <==> x in was || first <= x < first + i
      {
        var s := first + i;
        FrontDistinct(s, list);
        FrontFits(s, list, bump);
        DownNext(first, i);
        assert [s] + (Down(first, i) + was) == Down(first, i + 1) + was;
        PushOne(s);
      }
    }

    lemma FrontFits(s: nat, list: seq<nat>, bound: nat)
      requires Distinct([s] + list) && s < bound && forall x :: x in list ==> x < bound
      ensures |list| < bound
    {
      DistinctFits([s] + list, bound);
    }

    // The slots of a block behind its first one are given back, in order.
    method FreeLinked(slot: nat, count: nat)
      requires Valid() && slot in blocks && blocks[slot] == count
      modifies this`freelist, this`live, this`list, this`blocks, links
      ensures Valid() && blocks == old(blocks)[slot := 1] && bump == old(bump)
      ensures list == Down(slot + 1, count - 1) + old(list) && live + (count - 1) == old(live)
    {
      hide Linked, Distinct, BlocksOk;
      ghost var was := list;
      BlockMin(blocks, list, bump, slot);
      forall x | slot + 1 <= x < slot + count
        ensures x !in list
      {
        BlockSlots(blocks, list, bump, slot, x);
      }
      PushRange(slot + 1, count - 1);
      BlockTrimmed(blocks, was, list, bump, slot);
      blocks := blocks[slot := 1];
    }

    // What the owner of a block writes into its first words.
    method Write(slot: nat, word: Link)
      requires Valid() && slot < bump && Covered(blocks, slot)
      modifies links
      ensures Valid() && links[..] == old(links[..])[slot := word]
    {
      ghost var was := links[..];
      assert slot !in list;
      links[slot] := word;
      assert links[..] == was[slot := word];
    }
  }

  // How long a run must be for the search to see `need` slots.
  function Seen(need: nat): nat { if need < 2 then 2 else need }

  lemma Fits(n: nat, size: nat, room: nat)
    requires size > 0
    ensures n * size <= room <==> n <= room / size
  {
    var q := room / size;
    assert q * size <= room < (q + 1) * size;
    if n <= q {
      assert n * size <= q * size;
    } else {
      assert (q + 1) * size <= n * size;
    }
  }

  // ---------------- blocks ----------------

  lemma BlocksSame(blocks: map<nat, nat>, a: seq<nat>, b: seq<nat>, bump: nat)
    requires BlocksOk(blocks, a, bump) && SameSlots(a, b)
    ensures BlocksOk(blocks, b, bump) && |a| == |b| && forall x :: x in a <==> x in b
  {
  }

  lemma BlockMin(blocks: map<nat, nat>, list: seq<nat>, bump: nat, b: nat)
    requires BlocksOk(blocks, list, bump) && b in blocks
    ensures blocks[b] >= 1 && b + blocks[b] <= bump
  {
  }

  lemma BlockSlots(blocks: map<nat, nat>, list: seq<nat>, bump: nat, b: nat, s: nat)
    requires BlocksOk(blocks, list, bump) && b in blocks && Covers(blocks, b, s)
    ensures s < bump && s !in list
  {
    assert Covered(blocks, s);
  }

  lemma BlockTaken(blocks: map<nat, nat>, list: seq<nat>, list': seq<nat>, bump: nat, s: nat, k: nat)
    requires BlocksOk(blocks, list, bump) && Taken(list, list', s, k) && k >= 1 && forall x :: x in list ==> x < bump
    ensures s !in blocks && BlocksOk(blocks[s := k], list', bump)
  {
    var blocks' := blocks[s := k];
    assert s in list && s + k - 1 in list;
    assert !Covered(blocks, s);
    assert s in blocks ==> Covers(blocks, s, s);
    forall b, c, x | b in blocks' && c in blocks' && Covers(blocks', b, x) && Covers(blocks', c, x)
      ensures b == c
    {
      CoversTaken(blocks, list, bump, s, k, b, c, x);
      CoversTaken(blocks, list, bump, s, k, c, b, x);
      assert b != s && c != s ==> Covers(blocks, b, x) && Covers(blocks, c, x);
    }
    forall x | 0 <= x < bump
      ensures x in list' <==> !Covered(blocks', x)
    {
      if Covered(blocks, x) {
        var b :| b in blocks && Covers(blocks, b, x);
        assert Covers(blocks', b, x);
      }
      if s <= x < s + k { assert Covers(blocks', s, x); }
    }
  }

  lemma CoversTaken(blocks: map<nat, nat>, list: seq<nat>, bump: nat, s: nat, k: nat, b: nat, c: nat, x: nat)
    requires BlocksOk(blocks, list, bump) && StartsRun(list, s, k) && s !in blocks && forall y :: y in list ==> y < bump
    requires b in blocks[s := k] && c in blocks[s := k] && Covers(blocks[s := k], b, x) && Covers(blocks[s := k], c, x)
    ensures b == s ==> c == s
  {
    assert c != s ==> Covers(blocks, c, x);
    assert c != s ==> Covered(blocks, x);
    assert b == s ==> x in list;
  }

  lemma BlockBumped(blocks: map<nat, nat>, list: seq<nat>, bump: nat, k: nat)
    requires BlocksOk(blocks, list, bump) && k >= 1 && forall x :: x in list ==> x < bump
    ensures bump !in blocks && BlocksOk(blocks[bump := k], list, bump + k)
  {
    var blocks' := blocks[bump := k];
    forall b | b in blocks
      ensures b != bump && b + blocks[b] <= bump
    {
    }
    forall b, c, x | b in blocks' && c in blocks' && Covers(blocks', b, x) && Covers(blocks', c, x)
      ensures b == c
    {
      assert b != bump && c != bump ==> Covers(blocks, b, x) && Covers(blocks, c, x);
    }
    forall x | 0 <= x < bump + k
      ensures x in list <==> !Covered(blocks', x)
    {
      if x < bump && Covered(blocks, x) {
        var b :| b in blocks && Covers(blocks, b, x);
        assert Covers(blocks', b, x);
      }
      if x >= bump { assert Covers(blocks', bump, x); }
    }
  }

  lemma BlockFreed(blocks: map<nat, nat>, list: seq<nat>, bump: nat, s: nat)
    requires BlocksOk(blocks, list, bump) && s in blocks && blocks[s] == 1
    ensures BlocksOk(blocks - {s}, [s] + list, bump)
  {
    var blocks' := blocks - {s};
    assert Covers(blocks, s, s);
    forall b, c, x | b in blocks' && c in blocks' && Covers(blocks', b, x) && Covers(blocks', c, x)
      ensures b == c
    {
      assert Covers(blocks, b, x) && Covers(blocks, c, x);
    }
    forall x | 0 <= x < bump
      ensures x in [s] + list <==> !Covered(blocks', x)
    {
      if Covered(blocks, x) && x != s {
        var b :| b in blocks && Covers(blocks, b, x);
        assert Covers(blocks', b, x);
      }
      if Covered(blocks', x) {
        var b :| b in blocks' && Covers(blocks', b, x);
        assert Covers(blocks, b, x);
      }
    }
  }

  lemma BlockTrimmed(blocks: map<nat, nat>, list: seq<nat>, list': seq<nat>, bump: nat, s: nat)
    requires BlocksOk(blocks, list, bump) && s in blocks
    requires forall x :: x in list' <==> x in list || s + 1 <= x < s + blocks[s]
    ensures BlocksOk(blocks[s := 1], list', bump)
  {
    var blocks' := blocks[s := 1];
    forall b, c, x | b in blocks' && c in blocks' && Covers(blocks', b, x) && Covers(blocks', c, x)
      ensures b == c
    {
      assert Covers(blocks, b, x) && Covers(blocks, c, x);
    }
    forall x | 0 <= x < bump
      ensures x in list' <==> !Covered(blocks', x)
    {
      if Covered(blocks, x) {
        var b :| b in blocks && Covers(blocks, b, x);
        if Covers(blocks, s, x) { assert b == s; }
        if b != s || x == s { assert Covers(blocks', b, x); }
      }
      if Covered(blocks', x) {
        var b :| b in blocks' && Covers(blocks', b, x);
        assert Covers(blocks, b, x);
        if Covers(blocks, s, x) { assert b == s; }
      }
    }
  }
}
