// Intrusive free lists as sequences of slots: links, inversions, runs.
module FreeList {

  // The first word of a free slot: the next free slot, or none.
  datatype Link = Null | At(slot: nat)

  ghost function Nth(list: seq<nat>, i: nat): Link {
    if i < |list| then At(list[i]) else Null
  }

  ghost predicate Distinct(list: seq<nat>) {
    forall i, j :: 0 <= i < j < |list| ==> list[i] != list[j]
  }

  // The links lead through the list from its head to its end.
  ghost predicate Linked(links: seq<Link>, head: Link, list: seq<nat>) {
    && head == Nth(list, 0)
    && forall i :: 0 <= i < |list| ==> list[i] < |links| && links[list[i]] == Nth(list, i + 1)
  }

  ghost predicate SameSlots(a: seq<nat>, b: seq<nat>) {
    |a| == |b| && forall s :: s in a <==> s in b
  }

  ghost predicate Sorted(list: seq<nat>) {
    forall i :: 0 <= i < |list| - 1 ==> list[i] < list[i + 1]
  }

  // ---------------- inversions ----------------

  ghost function Below(s: seq<nat>, x: nat): nat {
    if |s| == 0 then 0 else (if s[0] < x then 1 else 0) + Below(s[1..], x)
  }

  ghost function Inversions(s: seq<nat>): nat {
    if |s| == 0 then 0 else Below(s[1..], s[0]) + Inversions(s[1..])
  }

  ghost function Swap(s: seq<nat>, i: nat): seq<nat>
    requires i + 1 < |s|
  {
    s[i := s[i + 1]][i + 1 := s[i]]
  }

  lemma {:induction false} BelowSwap(s: seq<nat>, i: nat, x: nat)
    requires i + 1 < |s|
    ensures Below(Swap(s, i), x) == Below(s, x)
    decreases i
  {
    var t := Swap(s, i);
    if i == 0 {
      assert t[1..][1..] == s[1..][1..];
      assert Below(s[1..], x) == (if s[1] < x then 1 else 0) + Below(s[1..][1..], x);
      assert Below(t[1..], x) == (if t[1] < x then 1 else 0) + Below(t[1..][1..], x);
    } else {
      BelowSwap(s[1..], i - 1, x);
      assert t[1..] == Swap(s[1..], i - 1);
    }
  }

  // Swapping two neighbours in the wrong order removes exactly one inversion.
  lemma {:induction false} SwapFewer(s: seq<nat>, i: nat)
    requires i + 1 < |s| && s[i] > s[i + 1]
    ensures Inversions(Swap(s, i)) == Inversions(s) - 1
    decreases i
  {
    var t := Swap(s, i);
    if i == 0 {
      var u := s[1..][1..];
      assert t[1..][1..] == u;
      assert s[1..][0] == s[1] && t[1..][0] == s[0] && t[0] == s[1];
      assert Below(s[1..], s[0]) == 1 + Below(u, s[0]);
      assert Below(t[1..], t[0]) == Below(u, s[1]);
      assert Inversions(s[1..]) == Below(u, s[1]) + Inversions(u);
      assert Inversions(t[1..]) == Below(u, s[0]) + Inversions(u);
    } else {
      SwapFewer(s[1..], i - 1);
      assert t[1..] == Swap(s[1..], i - 1);
      BelowSwap(s[1..], i - 1, s[0]);
    }
  }

  lemma SwapSame(s: seq<nat>, i: nat)
    requires i + 1 < |s| && Distinct(s)
    ensures SameSlots(s, Swap(s, i)) && Distinct(Swap(s, i))
  {
    var t := Swap(s, i);
    assert forall k :: 0 <= k < |s| ==> t[k] == s[if k == i then i + 1 else if k == i + 1 then i else k];
    forall x
      ensures x in s <==> x in t
    {
      if x in s {
        var k :| 0 <= k < |s| && s[k] == x;
        assert t[if k == i then i + 1 else if k == i + 1 then i else k] == x;
      }
    }
  }

  lemma SameSelf(list: seq<nat>)
    ensures SameSlots(list, list)
  {
  }

  lemma SameTrans(a: seq<nat>, b: seq<nat>, c: seq<nat>)
    requires SameSlots(a, b) && SameSlots(b, c)
    ensures SameSlots(a, c)
  {
  }

  lemma LinkOf(links: seq<Link>, head: Link, list: seq<nat>, i: nat)
    requires Linked(links, head, list) && i < |list|
    ensures list[i] < |links| && links[list[i]] == Nth(list, i + 1) && head == At(list[0])
  {
  }

  // Three links exchange two neighbours of the list.
  lemma SwapLinks(links: seq<Link>, head: Link, list: seq<nat>, i: nat, links': seq<Link>, head': Link)
    requires Linked(links, head, list) && Distinct(list) && i + 1 < |list| && |links'| == |links|
    requires forall s :: 0 <= s < |links| ==>
               links'[s] == if s == list[i] then Nth(list, i + 2)
                            else if s == list[i + 1] then At(list[i])
                            else if i > 0 && s == list[i - 1] then At(list[i + 1])
                            else links[s]
    requires head' == if i == 0 then At(list[1]) else head
    ensures Linked(links', head', Swap(list, i))
  {
    var t := Swap(list, i);
    forall k | 0 <= k < |t|
      ensures t[k] < |links'| && links'[t[k]] == Nth(t, k + 1)
    {
      SwapLink(links, head, list, i, links', k);
    }
  }

  lemma SwapLink(links: seq<Link>, head: Link, list: seq<nat>, i: nat, links': seq<Link>, k: nat)
    requires Linked(links, head, list) && Distinct(list) && i + 1 < |list| && |links'| == |links| && k < |list|
    requires forall s :: 0 <= s < |links| ==>
               links'[s] == if s == list[i] then Nth(list, i + 2)
                            else if s == list[i + 1] then At(list[i])
                            else if i > 0 && s == list[i - 1] then At(list[i + 1])
                            else links[s]
    ensures var t := Swap(list, i); t[k] < |links'| && links'[t[k]] == Nth(t, k + 1)
  {
    var t := Swap(list, i);
    LinkOf(links, head, list, i);
    LinkOf(links, head, list, i + 1);
    LinkOf(links, head, list, k);
    hide Linked;
    if k == i {
      assert links'[list[i + 1]] == At(list[i]) == Nth(t, i + 1);
    } else if k == i + 1 {
      assert links'[list[i]] == Nth(list, i + 2) == Nth(t, i + 2);
    } else {
      assert list[k] != list[i] && list[k] != list[i + 1];
      assert links'[list[k]] == if k + 1 == i then At(list[i + 1]) else links[list[k]];
    }
  }

  lemma HeadOf(links: seq<Link>, head: Link, list: seq<nat>)
    requires Linked(links, head, list)
    ensures head.Null? <==> list == []
  {
  }

  lemma SwapBelow(s: seq<nat>, i: nat, n: nat)
    requires i + 1 < |s| && forall k :: 0 <= k < |s| ==> s[k] < n
    ensures forall k :: 0 <= k < |s| ==> Swap(s, i)[k] < n
  {
  }

  lemma SortedNext(s: seq<nat>, i: nat)
    requires Distinct(s) && i + 1 < |s| && s[i] <= s[i + 1]
    ensures Sorted(s[..i + 1]) ==> Sorted(s[..i + 2])
  {
  }

  lemma SortedOne(s: seq<nat>)
    ensures (s != [] ==> Sorted(s[..1])) && (Sorted(s[..|s|]) <==> Sorted(s))
  {
    assert s[..|s|] == s;
  }

  lemma SwapEnds(s: seq<nat>, i: nat)
    requires i + 1 < |s|
    ensures Swap(s, i)[i] == s[i + 1] && Swap(s, i)[i + 1] == s[i] && |Swap(s, i)| == |s|
  {
  }

  // ---------------- runs ----------------

  // Slots that follow one another both in the list and in memory.
  ghost predicate Run(list: seq<nat>, a: nat, k: nat) {
    a + k <= |list| && forall j :: a <= j < a + k ==> list[j] == list[a] + (j - a)
  }

  // Some k free slots follow one another in memory.
  ghost predicate Contiguous(list: seq<nat>, k: nat) {
    exists s :: StartsRun(list, s, k)
  }

  ghost predicate StartsRun(list: seq<nat>, s: nat, k: nat) {
    forall x :: s <= x < s + k ==> x in list
  }

  lemma RunContiguous(list: seq<nat>, a: nat, k: nat)
    requires Run(list, a, k) && a < |list|
    ensures Contiguous(list, k)
  {
    forall x | list[a] <= x < list[a] + k
      ensures x in list
    {
      assert list[a + (x - list[a])] == x;
    }
    assert StartsRun(list, list[a], k);
  }

  lemma {:induction false} SortedFar(list: seq<nat>, i: nat, j: nat)
    requires Sorted(list) && i <= j < |list|
    ensures list[j] >= list[i] + (j - i)
    decreases j - i
  {
    if i < j {
      SortedFar(list, i, j - 1);
    }
  }

  // In a sorted list neighbours in memory are neighbours in the list.
  lemma {:induction false} SortedRun(list: seq<nat>, s: nat, k: nat) returns (a: nat)
    requires Sorted(list) && k >= 1 && StartsRun(list, s, k)
    ensures Run(list, a, k) && a < |list| && list[a] == s
    decreases k
  {
    if k == 1 {
      assert s in list;
      a :| 0 <= a < |list| && list[a] == s;
    } else {
      assert StartsRun(list, s, k - 1);
      a := SortedRun(list, s, k - 1);
      assert s + (k - 1) in list;
      assert list[a + (k - 2)] == s + (k - 2);
      var b :| 0 <= b < |list| && list[b] == s + (k - 1);
      if b < a + (k - 2) {
        SortedFar(list, b, a + (k - 2));
      } else {
        SortedFar(list, a + (k - 2), b);
      }
      assert b == a + (k - 1);
    }
  }

  // The list without a stretch of it.
  ghost function Cut(list: seq<nat>, a: nat, k: nat): seq<nat>
    requires a + k <= |list|
  {
    list[..a] + list[a + k..]
  }

  lemma CutSlots(list: seq<nat>, a: nat, k: nat)
    requires Run(list, a, k) && a < |list| && Distinct(list)
    ensures Distinct(Cut(list, a, k)) && |Cut(list, a, k)| == |list| - k
    ensures forall s :: s in Cut(list, a, k) <==> s in list && !(list[a] <= s < list[a] + k)
  {
    var t := Cut(list, a, k);
    assert forall i :: 0 <= i < |t| ==> t[i] == list[if i < a then i else i + k];
    forall s
      ensures s in t <==> s in list && !(list[a] <= s < list[a] + k)
    {
      if s in list {
        var i :| 0 <= i < |list| && list[i] == s;
        if i < a {
          assert t[i] == s;
        } else if i >= a + k {
          assert t[i - k] == s;
        } else {
          assert list[i] == list[a] + (i - a);
        }
        if list[a] <= s < list[a] + k {
          assert list[a + (s - list[a])] == s;
        }
      }
    }
  }

  lemma RunStep(list: seq<nat>, b: nat, k: nat, j: nat)
    requires Run(list, b, k) && b <= j < b + k - 1
    ensures j + 1 < |list| && list[j + 1] == list[j] + 1
  {
  }

  lemma RunGrows(list: seq<nat>, a: nat, k: nat)
    requires k >= 1 && Run(list, a, k) && a + k < |list| && list[a + k] == list[a + k - 1] + 1
    ensures Run(list, a, k + 1)
  {
  }

  // No run of k slots ends before position `end`.
  ghost predicate NoRun(list: seq<nat>, k: nat, end: nat) {
    forall b: nat :: b + k <= end ==> !Run(list, b, k)
  }

  // The list is cut by one link.
  lemma CutLinks(links: seq<Link>, head: Link, list: seq<nat>, a: nat, k: nat, links': seq<Link>, head': Link)
    requires Linked(links, head, list) && Distinct(list) && a + k <= |list| && |links'| == |links|
    requires forall s :: 0 <= s < |links| ==>
               links'[s] == if a > 0 && s == list[a - 1] then Nth(list, a + k) else links[s]
    requires head' == if a == 0 then Nth(list, k) else head
    ensures Linked(links', head', Cut(list, a, k))
  {
    var t := Cut(list, a, k);
    assert head' == Nth(t, 0);
    forall i | 0 <= i < |t|
      ensures t[i] < |links'| && links'[t[i]] == Nth(t, i + 1)
    {
      CutLink(links, head, list, a, k, links', i);
    }
  }

  lemma CutLink(links: seq<Link>, head: Link, list: seq<nat>, a: nat, k: nat, links': seq<Link>, i: nat)
    requires Linked(links, head, list) && Distinct(list) && a + k <= |list| && |links'| == |links| && i < |Cut(list, a, k)|
    requires forall s :: 0 <= s < |links| ==>
               links'[s] == if a > 0 && s == list[a - 1] then Nth(list, a + k) else links[s]
    ensures var t := Cut(list, a, k); t[i] < |links'| && links'[t[i]] == Nth(t, i + 1)
  {
    hide Linked, Cut, Nth, Distinct;
    CutNext(list, a, k, i);
    var from := if i < a then i else i + k;
    CutAt(list, a, k, i);
    LinkOf(links, head, list, from);
    var s := list[from];
    if from + 1 == a {
      assert links'[s] == Nth(list, a + k);
    } else {
      if a > 0 { OtherSlot(list, from, a - 1); }
      assert links'[s] == links[s];
    }
  }

  lemma CutAt(list: seq<nat>, a: nat, k: nat, i: nat)
    requires a + k <= |list| && i < |Cut(list, a, k)|
    ensures var from := if i < a then i else i + k; from < |list| && Cut(list, a, k)[i] == list[from]
  {
  }

  lemma OtherSlot(list: seq<nat>, i: nat, j: nat)
    requires Distinct(list) && i < |list| && j < |list| && i != j
    ensures list[i] != list[j]
  {
  }

  lemma CutNext(list: seq<nat>, a: nat, k: nat, i: nat)
    requires a + k <= |list| && i < |Cut(list, a, k)|
    ensures Nth(Cut(list, a, k), i + 1) ==
            if i + 1 == a then Nth(list, a + k) else Nth(list, (if i < a then i else i + k) + 1)
  {
  }

  lemma CutDistinct(list: seq<nat>, a: nat, k: nat)
    requires Distinct(list) && a + k <= |list|
    ensures Distinct(Cut(list, a, k)) && forall i :: 0 <= i < |Cut(list, a, k)| ==> Cut(list, a, k)[i] in list
  {
    var t := Cut(list, a, k);
    assert forall i :: 0 <= i < |t| ==> t[i] == list[if i < a then i else i + k];
  }

  lemma RunShorter(list: seq<nat>, a: nat, k: nat, j: nat)
    requires Run(list, a, k) && j <= k
    ensures Run(list, a, j)
  {
  }

  lemma RunOne(list: seq<nat>, a: nat)
    ensures a < |list| ==> Run(list, a, 1)
  {
  }

  // Scanning for a run of k: the slots from a to i are one, a is its first, and
  // no run of k has ended by i.
  ghost predicate Scanned(list: seq<nat>, i: nat, a: nat, n: nat, k: nat) {
    && a <= i < |list| && n == i - a + 1 < k && Run(list, a, n)
    && (a > 0 ==> list[a] != list[a - 1] + 1) && NoRun(list, k, i + 1)
  }

  lemma ScanStarts(list: seq<nat>, k: nat)
    requires k >= 2
    ensures if list == [] then NoRun(list, k, 0) else Scanned(list, 0, 0, 1, k)
  {
    RunOne(list, 0);
    NoRunYet(list, k);
  }

  lemma ScanNext(list: seq<nat>, i: nat, a: nat, n: nat, k: nat)
    requires Scanned(list, i, a, n, k) && k >= 2 && i + 1 < |list|
    ensures list[i + 1] == list[i] + 1 ==> if n + 1 >= k then Run(list, a, n + 1) && n + 1 == k else Scanned(list, i + 1, a, n + 1, k)
    ensures list[i + 1] != list[i] + 1 ==> Scanned(list, i + 1, i + 1, 1, k)
  {
    if list[i + 1] == list[i] + 1 {
      RunGrows(list, a, n);
      if n + 1 < k { NoRunOn(list, k, i, a); }
    } else {
      NoRunOver(list, k, i);
      RunOne(list, i + 1);
    }
  }

  lemma ScanSize(list: seq<nat>, i: nat, a: nat, n: nat, k: nat)
    requires Scanned(list, i, a, n, k)
    ensures a <= i < |list| && n == i - a + 1 < k
  {
  }

  lemma ScanEnds(list: seq<nat>, i: nat, a: nat, n: nat, k: nat)
    requires Scanned(list, i, a, n, k)
    ensures NoRun(list, k, i + 1)
  {
  }

  lemma RunFits(list: seq<nat>, a: nat, k: nat)
    requires Run(list, a, k)
    ensures k >= 1 ==> a + k <= |list|
  {
  }

  lemma NoRunYet(list: seq<nat>, k: nat)
    requires k >= 2
    ensures NoRun(list, k, 1) && (list == [] ==> NoRun(list, k, 0))
  {
  }

  // The run that ends here began too late.
  lemma NoRunOn(list: seq<nat>, k: nat, i: nat, a: nat)
    requires k >= 2 && NoRun(list, k, i + 1) && i + 2 - a < k && a <= i < |list| - 1 && (a > 0 ==> list[a] != list[a - 1] + 1)
    ensures NoRun(list, k, i + 2)
  {
    forall b: nat | b + k <= i + 2
      ensures !Run(list, b, k)
    {
      if Run(list, b, k) && b + k == i + 2 {
        RunStep(list, b, k, a - 1);
      }
    }
  }

  // A gap ends every run.
  lemma NoRunOver(list: seq<nat>, k: nat, i: nat)
    requires k >= 2 && NoRun(list, k, i + 1) && i + 1 < |list| && list[i + 1] != list[i] + 1
    ensures NoRun(list, k, i + 2)
  {
    forall b: nat | b + k <= i + 2
      ensures !Run(list, b, k)
    {
      if Run(list, b, k) && b + k == i + 2 {
        RunStep(list, b, k, i);
      }
    }
  }

  // ---------------- what a search finds ----------------

  lemma SameContiguous(a: seq<nat>, b: seq<nat>, k: nat)
    requires SameSlots(a, b)
    ensures Contiguous(a, k) == Contiguous(b, k)
  {
    if Contiguous(a, k) {
      var s :| StartsRun(a, s, k);
      assert StartsRun(b, s, k);
    }
    if Contiguous(b, k) {
      var s :| StartsRun(b, s, k);
      assert StartsRun(a, s, k);
    }
  }

  // A sorted list without a run: no slots adjacent in memory either.
  lemma SortedNone(list: seq<nat>, k: nat)
    requires Sorted(list) && NoRun(list, k, |list|) && k >= 1
    ensures !Contiguous(list, k)
  {
    if Contiguous(list, k) {
      var s :| StartsRun(list, s, k);
      var a := SortedRun(list, s, k);
    }
  }

  // The slots s, s + 1, ... of a stretch were taken out of the list.
  ghost predicate Taken(before: seq<nat>, after: seq<nat>, s: nat, k: nat) {
    && |after| + k == |before| && StartsRun(before, s, k)
    && forall x :: x in after <==> x in before && !(s <= x < s + k)
  }

  lemma CutTaken(list: seq<nat>, mid: seq<nat>, a: nat, k: nat, seen: nat)
    requires SameSlots(list, mid) && Distinct(mid) && Run(mid, a, seen) && a < |mid| && k <= seen
    ensures Taken(list, Cut(mid, a, k), mid[a], k) && StartsRun(list, mid[a], seen)
  {
    RunShorter(mid, a, seen, k);
    CutSlots(mid, a, k);
    forall x | mid[a] <= x < mid[a] + seen
      ensures x in list
    {
      assert mid[a + (x - mid[a])] == x;
    }
  }

  lemma TakenIn(before: seq<nat>, after: seq<nat>, s: nat, k: nat)
    requires Taken(before, after, s, k)
    ensures |after| + k == |before| && forall x :: x in after ==> x in before
  {
  }

  lemma NoneContiguous(list: seq<nat>, k: nat)
    requires list == [] && k >= 1
    ensures !Contiguous(list, k)
  {
    forall s
      ensures !StartsRun(list, s, k)
    {
      assert s !in list;
    }
  }

  // A slot put in front.
  lemma PushLinks(links: seq<Link>, head: Link, list: seq<nat>, s: nat)
    requires Linked(links, head, list) && Distinct(list) && s < |links| && s !in list
    ensures Linked(links[s := head], At(s), [s] + list) && Distinct([s] + list)
  {
    var t := [s] + list;
    forall i | 0 <= i < |t|
      ensures links[s := head][t[i]] == Nth(t, i + 1)
    {
      if i > 0 {
        LinkOf(links, head, list, i - 1);
        assert t[i] in list;
      }
    }
  }

  lemma PopLinks(links: seq<Link>, head: Link, list: seq<nat>)
    requires Linked(links, head, list) && Distinct(list) && list != []
    ensures list[0] < |links| && head == At(list[0])
    ensures Linked(links, links[list[0]], list[1..]) && Distinct(list[1..]) && Taken(list, list[1..], list[0], 1)
  {
    hide Taken, Distinct;
    PopTaken(list);
    LinkOf(links, head, list, 0);
    forall i | 0 <= i < |list| - 1
      ensures list[1..][i] < |links| && links[list[1..][i]] == Nth(list[1..], i + 1)
    {
      LinkOf(links, head, list, i + 1);
    }
  }

  lemma PopTaken(list: seq<nat>)
    requires Distinct(list) && list != []
    ensures Distinct(list[1..]) && Taken(list, list[1..], list[0], 1)
  {
    assert list == [list[0]] + list[1..];
  }

  // k slots from s on, the last one first.
  ghost function Down(s: nat, k: nat): seq<nat> {
    seq(k, i requires 0 <= i < k => s + k - 1 - i)
  }

  lemma DownNext(s: nat, k: nat)
    ensures Down(s, k + 1) == [s + k] + Down(s, k) && Down(s, 0) == []
    ensures forall x :: x in Down(s, k) <==> s <= x < s + k
  {
    forall x | s <= x < s + k
      ensures x in Down(s, k)
    {
      assert Down(s, k)[s + k - 1 - x] == x;
    }
  }

  lemma {:induction false} DistinctFits(list: seq<nat>, n: nat)
    requires Distinct(list) && forall x :: x in list ==> x < n
    ensures |list| <= n
    decreases n
  {
    if n == 0 {
      assert forall i :: 0 <= i < |list| ==> list[i] in list;
    } else if n - 1 in list {
      var i :| 0 <= i < |list| && list[i] == n - 1;
      CutDistinct(list, i, 1);
      var t := Cut(list, i, 1);
      forall x | x in t
        ensures x < n - 1
      {
        var j :| 0 <= j < |t| && t[j] == x;
        assert t[j] == list[if j < i then j else j + 1];
      }
      DistinctFits(t, n - 1);
    } else {
      DistinctFits(list, n - 1);
    }
  }

  lemma FrontDistinct(s: nat, list: seq<nat>)
    requires Distinct(list) && s !in list
    ensures Distinct([s] + list)
  {
  }
}
