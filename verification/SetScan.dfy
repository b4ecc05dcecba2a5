// The 16-bytes-at-a-time scan for a repetition of a character set.
//
// The set is laid out as two 16-entry tables, indexed by the low nibble of a
// character; bit r of an entry says whether row r (or r + 8) holds it.  A
// vector of 16 input bytes is looked up lane by lane.
module SetScan {
  import opened Peg
  import opened Matcher

  // The bit of a row inside a table entry; rows 8..15 reuse the bits of 0..7.
  function RowBit(row: nat): bv8
    requires row < 16
  {
    [1, 2, 4, 8, 16, 32, 64, 128, 1, 2, 4, 8, 16, 32, 64, 128][row]
  }

  // The two tables describe the set: every bit of every entry.
  ghost predicate Describes(lo: seq<bv8>, hi: seq<bv8>, members: CharSet) {
    && |lo| == 16 && |hi| == 16
    && forall col, row :: 0 <= col < 16 && 0 <= row < 8 ==>
         && (lo[col] & RowBit(row) != 0 <==> members[row * 16 + col])
         && (hi[col] & RowBit(row) != 0 <==> members[(row + 8) * 16 + col])
  }

  // A table entry under construction: rows below `upto` are in.
  ghost predicate Column(entry: bv8, members: CharSet, base: nat, col: nat, upto: nat)
    requires col < 16 && upto <= 8 && base <= 8
  {
    forall row :: 0 <= row < 8 ==>
      (entry & RowBit(row) != 0 <==> row < upto && members[(row + base) * 16 + col])
  }

  lemma RowBitsDistinct(r: nat, q: nat, entry: bv8)
    requires r < 8 && q < 8
    ensures (entry | RowBit(r)) & RowBit(q) != 0 <==> r == q || entry & RowBit(q) != 0
  {
  }

  lemma ColumnStep(entry: bv8, members: CharSet, base: nat, col: nat, row: nat)
    requires col < 16 && row < 8 && base <= 8
    requires Column(entry, members, base, col, row)
    ensures Column(if members[(row + base) * 16 + col] then entry | RowBit(row) else entry,
                   members, base, col, row + 1)
  {
    forall q | 0 <= q < 8 {
      RowBitsDistinct(row, q, entry);
    }
  }

  // The entries of one column in both tables.
  method BuildColumn(members: CharSet, col: nat) returns (b1: bv8, b2: bv8)
    requires col < 16
    ensures Column(b1, members, 0, col, 8) && Column(b2, members, 8, col, 8)
  {
    b1, b2 := 0, 0;
    for row := 0 to 8
      invariant Column(b1, members, 0, col, row) && Column(b2, members, 8, col, row)
    {
      ColumnStep(b1, members, 0, col, row);
      ColumnStep(b2, members, 8, col, row);
      if members[row * 16 + col] { b1 := b1 | RowBit(row); }
      if members[(row + 8) * 16 + col] { b2 := b2 | RowBit(row); }
    }
  }

  method BuildSimd(members: CharSet, lo: array<bv8>, hi: array<bv8>)
    requires lo != hi && lo.Length == 16 && hi.Length == 16
    modifies lo, hi
    ensures Describes(lo[..], hi[..], members)
  {
    ghost var los: seq<bv8>, his: seq<bv8> := [], [];
    for col := 0 to 16
      invariant |los| == |his| == col && lo[..col] == los && hi[..col] == his
      invariant forall c :: 0 <= c < col ==> Column(los[c], members, 0, c, 8) && Column(his[c], members, 8, c, 8)
    {
      var b1, b2 := BuildColumn(members, col);
      lo[col], hi[col] := b1, b2;
      los, his := los + [b1], his + [b2];
    }
    assert lo[..] == los && hi[..] == his;
    ColumnsDescribe(los, his, members);
  }

  lemma ColumnsDescribe(lo: seq<bv8>, hi: seq<bv8>, members: CharSet)
    requires |lo| == |hi| == 16
    requires forall c :: 0 <= c < 16 ==> Column(lo[c], members, 0, c, 8) && Column(hi[c], members, 8, c, 8)
    ensures Describes(lo, hi, members)
  {
    forall col, row | 0 <= col < 16 && 0 <= row < 8
      ensures lo[col] & RowBit(row) != 0 <==> members[row * 16 + col]
      ensures hi[col] & RowBit(row) != 0 <==> members[(row + 8) * 16 + col]
    {
      assert Column(lo[col], members, 0, col, 8) && Column(hi[col], members, 8, col, 8);
    }
  }

  // One lane: both tables are read at the low nibble, the high nibble picks
  // the table and the row bit.
  predicate LaneHit(lo: seq<bv8>, hi: seq<bv8>, ch: byte)
    requires |lo| == 16 && |hi| == 16
  {
    var loNib, hiNib := ch % 16, ch / 16;
    var entry := if hiNib > 7 then hi[loNib] else lo[loNib];
    entry & RowBit(hiNib) != 0
  }

  // The lookup decides membership, for every set and every character.
  lemma LaneIsMembership(lo: seq<bv8>, hi: seq<bv8>, members: CharSet, ch: byte)
    requires Describes(lo, hi, members)
    ensures LaneHit(lo, hi, ch) <==> members[ch]
  {
    var loNib, hiNib := ch % 16, ch / 16;
    if hiNib > 7 {
      assert RowBit(hiNib) == RowBit(hiNib - 8);
      assert (hiNib - 8 + 8) * 16 + loNib == ch;
    } else {
      assert hiNib * 16 + loNib == ch;
    }
  }

  // The lane number of the first character outside the set, 16 if there is none.
  method FirstMiss(lo: seq<bv8>, hi: seq<bv8>, ghost members: CharSet, input: seq<byte>, at: nat) returns (n: nat)
    requires Describes(lo, hi, members) && at + 16 <= |input|
    ensures n <= 16 && (forall k :: at <= k < at + n ==> members[input[k]])
    ensures n < 16 ==> !members[input[at + n]]
  {
    n := 0;
    while n < 16
      invariant n <= 16 && forall k :: at <= k < at + n ==> members[input[k]]
    {
      LaneIsMembership(lo, hi, members, input[at + n]);
      if !LaneHit(lo, hi, input[at + n]) { return; }
      n := n + 1;
    }
  }

  // `count` is a uint32: `count + 16` wraps.
  function Wrap32(n: nat): uint32 {
    n % 0x1_0000_0000
  }

  // The whole stretch of members from `pos` on.
  ghost function Stretch(members: CharSet, input: seq<byte>, pos: nat): nat
    requires pos <= |input|
  {
    Run(members, input, pos, |input|)
  }

  // The counter wraps only on more than 4 GiB of members under a limit within
  // 16 of the largest uint32.
  ghost predicate Overruns(members: CharSet, input: seq<byte>, pos: nat, max: uint32)
    requires pos <= |input|
  {
    && |input| - pos >= 0x1_0000_0000
    && max >= 0xFFFF_FFF0
    && Stretch(members, input, pos) > max
  }

  lemma {:induction false} StretchIs(members: CharSet, input: seq<byte>, pos: nat, n: nat, limit: nat)
    requires pos + n <= |input| && n <= limit
    requires forall k :: pos <= k < pos + n ==> members[input[k]]
    ensures n <= Run(members, input, pos, limit)
    ensures n == limit || pos + n == |input| || !members[input[pos + n]] ==> n == Run(members, input, pos, limit)
    decreases n
  {
    if n > 0 {
      StretchIs(members, input, pos + 1, n - 1, limit - 1);
    }
  }

  // Where a scan of members stands: `total` characters taken from `pos` on.
  ghost predicate Taken(members: CharSet, input: seq<byte>, pos: nat, at: nat, total: nat) {
    && at == pos + total <= |input|
    && forall k :: pos <= k < at ==> members[input[k]]
  }

  // How many characters a scan takes whose counter overruns: vectors take the
  // whole stretch if it ends inside one, else the tail still goes by the counter.
  ghost function OverrunEnd(members: CharSet, input: seq<byte>, pos: nat, max: uint32): nat
    requires pos <= |input| && max >= 0xFFFF_FFF0
  {
    var all := Stretch(members, input, pos);
    var vectors := all / 16 * 16;
    if pos + vectors + 16 <= |input| || all - vectors <= max - Wrap32(vectors) then all
    else vectors + (max - Wrap32(vectors))
  }

  lemma MultiplesOf16(n: nat)
    requires n % 16 == 0
    ensures Wrap32(n) % 16 == 0 && Wrap32(n) <= 0xFFFF_FFF0
  {
    var q := n / 0x1_0000_0000;
    Split32(n, q);
    assert Wrap32(n) == 16 * (n / 16 - 0x1000_0000 * q);
  }

  lemma Split32(n: nat, q: nat)
    requires q == n / 0x1_0000_0000
    ensures n == 0x1_0000_0000 * q + Wrap32(n)
  {
  }

  lemma OverrunPast(members: CharSet, input: seq<byte>, pos: nat, max: uint32)
    requires pos <= |input| && Overruns(members, input, pos, max)
    ensures OverrunEnd(members, input, pos, max) > max
  {
    var all := Stretch(members, input, pos);
    var vectors := all / 16 * 16;
    StretchFits(members, input, pos, |input|);
    MultiplesOf16(vectors);
    assert vectors >= 0xFFFF_FFF0;
    assert vectors == 0xFFFF_FFF0 ==> all < 0x1_0000_0000 && pos + vectors + 16 <= |input|;
  }

  lemma {:induction false} StretchFits(members: CharSet, input: seq<byte>, pos: nat, limit: nat)
    requires pos <= |input|
    ensures pos + Run(members, input, pos, limit) <= |input|
    decreases limit
  {
    if limit > 0 && pos < |input| && members[input[pos]] { StretchFits(members, input, pos + 1, limit - 1); }
  }

  // How far a scan must get: the limited stretch, unless the counter overruns.
  ghost predicate Reached(members: CharSet, input: seq<byte>, pos: nat, max: uint32, at: nat, count: nat)
    requires pos <= |input|
  {
    if Overruns(members, input, pos, max) then at == pos + OverrunEnd(members, input, pos, max) && count == Wrap32(at - pos)
    else count == Run(members, input, pos, max) && at == pos + count
  }

  lemma WrapCases(total: nat)
    requires total < 0x1_0000_0000 && total % 16 == 0
    ensures Wrap32(total) == total
    ensures total <= 0xFFFF_FFF0
    ensures Wrap32(total + 16) == if total == 0xFFFF_FFF0 then 0 else total + 16
  {
  }

  // The counter between two vectors, `total` characters into the scan.
  ghost predicate Between(total: nat, count: uint32, max: uint32) {
    && total % 16 == 0 && count == Wrap32(total)
    && (total <= max || (total >= 0x1_0000_0000 && max >= 0xFFFF_FFF0))
  }

  lemma NextVector(total: nat, count: uint32, max: uint32)
    requires Between(total, count, max) && Wrap32(count + 16) <= max
    ensures Between(total + 16, Wrap32(count + 16), max)
  {
    if total <= max {
      WrapCases(total);
    }
  }

  // The scan stops n lanes into the vector behind `total` characters.
  lemma StoppedAtMiss(members: CharSet, input: seq<byte>, pos: nat, max: uint32, total: nat, count: uint32, n: nat)
    requires Taken(members, input, pos, pos + total + n, total + n) && n < 16 && pos + total + 16 <= |input|
    requires !members[input[pos + total + n]]
    requires Between(total, count, max) && Wrap32(count + 16) <= max
    ensures Reached(members, input, pos, max, pos + total + n, Wrap32(count + n))
  {
    StretchIs(members, input, pos, total + n, |input|);
    WrapOn(total, count, n);
    if Overruns(members, input, pos, max) {
      MissEnds(members, input, pos, max, total, n);
    } else if total <= max {
      WrapCases(total);
      StretchIs(members, input, pos, total + n, max);
    }
  }

  lemma WrapOn(total: nat, count: uint32, n: nat)
    requires count == Wrap32(total)
    ensures Wrap32(count + n) == Wrap32(total + n)
  {
    var q := total / 0x1_0000_0000;
    Split32(total, q);
    var r := (count + n) / 0x1_0000_0000;
    Split32(count + n, r);
    assert total + n == 0x1_0000_0000 * (q + r) + Wrap32(count + n);
  }

  lemma MissEnds(members: CharSet, input: seq<byte>, pos: nat, max: uint32, total: nat, n: nat)
    requires pos <= |input| && max >= 0xFFFF_FFF0 && Stretch(members, input, pos) == total + n
    requires n < 16 && total % 16 == 0 && pos + total + 16 <= |input|
    ensures OverrunEnd(members, input, pos, max) == total + n
  {
    assert (total + n) / 16 * 16 == total;
  }

  // The vector loop runs out of input or of room for a whole vector.
  lemma TailInRange(members: CharSet, input: seq<byte>, pos: nat, max: uint32, total: nat, count: uint32)
    requires pos + total <= |input| && total <= max && Between(total, count, max)
    requires Wrap32(count + 16) > max || pos + total + 16 > |input|
    ensures count == total && !Overruns(members, input, pos, max)
  {
    WrapCases(total);
  }

  // The vector loop: whole vectors first, stopping at a miss inside one.
  method VectorScan(members: CharSet, lo: seq<bv8>, hi: seq<bv8>, input: seq<byte>, pos: nat, max: uint32)
    returns (at: nat, count: uint32, done: bool)
    requires Describes(lo, hi, members) && pos <= |input|
    ensures at <= |input| && pos <= at
    ensures done ==> Reached(members, input, pos, max, at, count)
    ensures !done ==> Taken(members, input, pos, at, at - pos)
    ensures !done ==> if at - pos <= max then count == at - pos && !Overruns(members, input, pos, max)
                                         else Overruns(members, input, pos, max)
                                              && at + 16 > |input| && (at - pos) % 16 == 0 && count == Wrap32(at - pos)
  {
    ghost var total := 0;
    at, count, done := pos, 0, false;
    while Wrap32(count + 16) <= max && at + 16 <= |input|
      invariant Taken(members, input, pos, at, total) && Between(total, count, max)
      decreases |input| - at
    {
      var n := FirstMiss(lo, hi, members, input, at);
      if n < 16 {
        StoppedAtMiss(members, input, pos, max, total, count, n);
        return at + n, Wrap32(count + n), true;
      }
      NextVector(total, count, max);
      at, count, total := at + 16, Wrap32(count + 16), total + 16;
    }
    if total <= max {
      TailInRange(members, input, pos, max, total, count);
    } else {
      StretchIs(members, input, pos, total, |input|);
      MultiplesOf16(total);
    }
  }

  // The vector loop followed by the scalar tail.
  method Scan(members: CharSet, lo: seq<bv8>, hi: seq<bv8>, input: seq<byte>, pos: nat, max: uint32)
    returns (at: nat, count: uint32)
    requires Describes(lo, hi, members) && pos <= |input|
    ensures at <= |input| && Reached(members, input, pos, max, at, count)
  {
    hide Overruns, OverrunEnd, Reached, Wrap32, Describes;
    var done;
    at, count, done := VectorScan(members, lo, hi, input, pos, max);
    if done { return; }
    ghost var vectored := at - pos;
    CountStarts(vectored, max);
    if vectored > max { OverrunLimit(members, input, pos, max); }
    while count < max && at < |input|
      invariant Taken(members, input, pos, at, at - pos) && vectored <= at - pos
      invariant count == Wrap32(vectored) + (at - pos - vectored) <= max
      decreases |input| - at
    {
      if !members[input[at]] { break; }
      at, count := at + 1, count + 1;
    }
    if vectored <= max {
      TailReached(members, input, pos, max, at, count, vectored);
    } else {
      TailOverruns(members, input, pos, max, at, count, vectored);
    }
  }

  lemma CountStarts(total: nat, max: uint32)
    ensures total <= max ==> Wrap32(total) == total
    ensures total % 16 == 0 ==> Wrap32(total) <= 0xFFFF_FFF0
  {
    if total % 16 == 0 { MultiplesOf16(total); }
  }

  lemma OverrunLimit(members: CharSet, input: seq<byte>, pos: nat, max: uint32)
    requires pos <= |input| && Overruns(members, input, pos, max)
    ensures max >= 0xFFFF_FFF0
  {
  }

  lemma TailReached(members: CharSet, input: seq<byte>, pos: nat, max: uint32, at: nat, count: uint32, vectored: nat)
    requires pos <= at && Taken(members, input, pos, at, at - pos) && !Overruns(members, input, pos, max)
    requires vectored <= max && vectored <= at - pos && count == Wrap32(vectored) + (at - pos - vectored) <= max
    requires count >= max || at >= |input| || !members[input[at]]
    ensures Reached(members, input, pos, max, at, count)
  {
    StretchIs(members, input, pos, at - pos, max);
  }

  // The tail of an overrun ends with the stretch or where the counter stops it.
  lemma TailOverruns(members: CharSet, input: seq<byte>, pos: nat, max: uint32, at: nat, count: uint32, vectored: nat)
    requires pos <= at && Taken(members, input, pos, at, at - pos) && Overruns(members, input, pos, max)
    requires vectored % 16 == 0 && vectored <= at - pos && pos + vectored + 16 > |input|
    requires count == Wrap32(vectored) + (at - pos - vectored) <= max
    requires count >= max || at >= |input| || !members[input[at]]
    ensures Reached(members, input, pos, max, at, count)
  {
    var all := Stretch(members, input, pos);
    StretchFits(members, input, pos, |input|);
    StretchIs(members, input, pos, at - pos, |input|);
    assert vectored <= all < vectored + 16 && all / 16 * 16 == vectored;
    TailWraps(vectored, at - pos - vectored, count);
  }

  lemma TailWraps(v: nat, m: nat, count: uint32)
    requires count == Wrap32(v) + m
    ensures Wrap32(v + m) == count
  {
    assert v == 0x1_0000_0000 * (v / 0x1_0000_0000) + Wrap32(v);
    assert v + m == 0x1_0000_0000 * (v / 0x1_0000_0000) + count;
  }

  // The vector form does what the general repetition does, unless the counter
  // overruns; then it ends past the limit, or misses when the wrapped count is
  // below the minimum, which is right exactly when the minimum exceeds the maximum.
  method MatchRepSetSimd(s: State, p: Pattern, lo: array<bv8>, hi: array<bv8>) returns (matched: bool)
    requires s.Valid() && p.Rep? && p.body.Set?
    requires Describes(lo[..], hi[..], p.body.members)
    modifies s
    ensures s.Valid() && s.stack == old(s.stack) && s.farthest >= old(s.farthest)
    ensures !Overruns(p.body.members, s.input, old(s.pos), p.max) ==>
              Behaves(s, p, matched, old(s.pos), old(s.caps))
    ensures Overruns(p.body.members, s.input, old(s.pos), p.max) ==>
              var end := OverrunEnd(p.body.members, s.input, old(s.pos), p.max);
              && matched == (Wrap32(end) >= p.min) && s.caps == old(s.caps)
              && s.pos == old(s.pos) + (if matched then end else 0) && end > p.max
              && (Behaves(s, p, matched, old(s.pos), old(s.caps)) <==> p.max < p.min && Wrap32(end) < p.min)
  {
    hide Describes, OverrunEnd, Wrap32;
    var sp := s.Push();
    var at, count := Scan(p.body.members, lo[..], hi[..], s.input, s.pos, p.max);
    RepOfSet(p.body.members, s.input, s.pos, 0, p.max);
    if Overruns(p.body.members, s.input, s.pos, p.max) {
      RunLimited(p.body.members, s.input, s.pos, p.max, |s.input|);
      OverrunPast(p.body.members, s.input, s.pos, p.max);
    }
    if count < p.min {
      s.Backtrack(sp);
      matched := s.RetMissed();
    } else {
      s.pos := at;
      s.Commit(sp);
      matched := true;
    }
  }

  // Such an input exists: 4 GiB of members under an unbounded repetition.
  lemma OverrunExists()
    ensures var all: CharSet := seq(256, _ => true);
            Overruns(all, seq(0x1_0000_0000, _ => 0 as byte), 0, 0xFFFF_FFFF)
  {
    var all: CharSet := seq(256, _ => true);
    var input: seq<byte> := seq(0x1_0000_0000, _ => 0 as byte);
    StretchIs(all, input, 0, 0x1_0000_0000, |input|);
  }
}
