// Printing and parsing integers in decimal: 64-bit and 128-bit printing into a
// buffer, and a parser that switches to 128 bits and saturates.
module Decimal {

  const MINUS: nat := 45
  const PLUS: nat := 43
  const DOT: nat := 46
  const ZERO: nat := 48

  const INT64_DIGITS: nat := 17
  const I128_DIGITS: nat := 37

  const U64: nat := 0x1_0000_0000_0000_0000
  const I128_MAX: int := 0x7fff_ffff_ffff_ffff_ffff_ffff_ffff_ffff
  const I128_MIN: int := -0x8000_0000_0000_0000_0000_0000_0000_0000
  const TEN19: nat := 10000000000000000000
  const TEN36: int := 1000000000000000000000000000000000000

  ghost function Power(k: nat): (r: nat)
    ensures r >= 1
  {
    if k == 0 then 1 else 10 * Power(k - 1)
  }

  // ---------------- digits ----------------

  // The decimal digits of v, the highest first.
  ghost function Digits(v: nat): (s: seq<nat>)
    ensures |s| >= 1
  {
    if v < 10 then [ZERO + v] else Digits(v / 10) + [ZERO + v % 10]
  }

  // The lowest first.
  ghost function LowFirst(v: nat): (s: seq<nat>)
    ensures |s| >= 1
  {
    [ZERO + v % 10] + if v < 10 then [] else LowFirst(v / 10)
  }

  ghost function Reversed(s: seq<nat>): seq<nat> {
    seq(|s|, i requires 0 <= i < |s| => s[|s| - 1 - i])
  }

  // Exactly k digits, with leading zeros.
  ghost function Padded(v: nat, k: nat): (s: seq<nat>)
    ensures |s| == k
  {
    if k == 0 then [] else Padded(v / 10, k - 1) + [ZERO + v % 10]
  }

  ghost function Number(s: seq<nat>): int {
    if |s| == 0 then 0 else Number(s[..|s| - 1]) * 10 + (s[|s| - 1] - ZERO)
  }

  lemma {:induction false} DigitsReversed(v: nat)
    ensures Digits(v) == Reversed(LowFirst(v))
    decreases v
  {
    if v >= 10 {
      DigitsReversed(v / 10);
      var low := LowFirst(v / 10);
      assert LowFirst(v) == [ZERO + v % 10] + low;
      assert Reversed([ZERO + v % 10] + low) == Reversed(low) + [ZERO + v % 10];
    }
  }

  // k digits suffice below 10^k, and are needed from 10^(k-1) on.
  lemma {:induction false} DigitsLength(v: nat, k: nat)
    requires k >= 1
    ensures v < Power(k) <==> |Digits(v)| <= k
    decreases v
  {
    if v >= 10 {
      PowerOne();
      if k > 1 {
        DigitsLength(v / 10, k - 1);
        assert v / 10 < Power(k - 1) <==> v < 10 * Power(k - 1);
      }
    } else {
      PowerTen(k);
    }
  }

  lemma PowerOne()
    ensures Power(1) == 10
  {
    assert Power(0) == 1;
  }

  lemma PowerTen(k: nat)
    requires k >= 1
    ensures Power(k) >= 10
  {
  }

  lemma {:induction false} NumberDigits(v: nat)
    ensures Number(Digits(v)) == v
    decreases v
  {
    if v >= 10 {
      NumberDigits(v / 10);
      assert Digits(v)[..|Digits(v)| - 1] == Digits(v / 10);
    } else {
      assert Digits(v)[..0] == [];
    }
  }

  lemma {:induction false} DigitsAre(v: nat)
    ensures forall i :: 0 <= i < |Digits(v)| ==> ZERO <= Digits(v)[i] <= ZERO + 9
    decreases v
  {
    if v >= 10 { DigitsAre(v / 10); }
  }

  // A number of more than k digits is its upper digits and its k lower ones.
  lemma {:induction false} DigitsSplit(hi: nat, lo: nat, k: nat)
    requires hi > 0 && lo < Power(k)
    ensures Digits(hi * Power(k) + lo) == Digits(hi) + Padded(lo, k)
    decreases k
  {
    if k == 0 {
      assert Padded(lo, 0) == [];
      assert Digits(hi) + [] == Digits(hi);
    } else {
      var v := hi * Power(k) + lo;
      assert hi * Power(k) == 10 * (hi * Power(k - 1));
      assert v / 10 == hi * Power(k - 1) + lo / 10 && v % 10 == lo % 10;
      AtLeast(hi, Power(k - 1));
      DigitsSplit(hi, lo / 10, k - 1);
      assert Digits(v) == (Digits(hi) + Padded(lo / 10, k - 1)) + [ZERO + lo % 10];
    }
  }

  lemma AtLeast(hi: nat, p: nat)
    requires hi >= 1
    ensures hi * p >= p
  {
    assert (hi - 1) * p >= 0;
    assert (hi - 1) * p == hi * p - p;
  }

  // Padding is zeros in front.
  lemma {:induction false} PaddedIs(lo: nat, k: nat)
    requires k >= 1 && lo < Power(k)
    ensures |Digits(lo)| <= k
    ensures Padded(lo, k) == seq(k - |Digits(lo)|, _ => ZERO) + Digits(lo)
    decreases k
  {
    DigitsLength(lo, k);
    if lo >= 10 {
      PowerOne();
      PaddedIs(lo / 10, k - 1);
      assert Padded(lo, k) == (seq(k - |Digits(lo)|, _ => ZERO) + Digits(lo / 10)) + [ZERO + lo % 10];
    } else {
      PaddedZero(k - 1);
      assert Padded(lo, k) == Padded(0, k - 1) + [ZERO + lo];
    }
  }

  lemma {:induction false} PaddedZero(k: nat)
    ensures Padded(0, k) == seq(k, _ => ZERO)
    decreases k
  {
    if k > 0 { PaddedZero(k - 1); }
  }

  // ---------------- printing ----------------

  // The digits are written lowest first, then turned round in place.
  method Itoa(buf: array<nat>, off: nat, value: nat) returns (n: nat)
    requires value < U64 && off + 20 <= buf.Length
    modifies buf
    ensures 1 <= n <= 20 && buf[off..off + n] == Digits(value)
    ensures forall k :: 0 <= k < buf.Length && !(off <= k < off + n) ==> buf[k] == old(buf[k])
  {
    hide Digits, LowFirst;
    DigitsReversed(value);
    Power20();
    DigitsLength(value, 20);
    n := WriteLow(buf, off, value);
    Reverse(buf, off, n);
  }

  method WriteLow(buf: array<nat>, off: nat, value: nat) returns (n: nat)
    requires off + |LowFirst(value)| <= buf.Length
    modifies buf
    ensures n == |LowFirst(value)| && buf[off..off + n] == LowFirst(value)
    ensures forall k :: 0 <= k < buf.Length && !(off <= k < off + n) ==> buf[k] == old(buf[k])
  {
    ghost var all := LowFirst(value);
    n := 0;
    var v := value;
    while true
      invariant 0 <= n < |all| && all[n..] == LowFirst(v)
      invariant forall k :: off <= k < off + n ==> buf[k] == all[k - off]
      invariant forall k :: 0 <= k < buf.Length && !(off <= k < off + n) ==> buf[k] == old(buf[k])
      decreases v
    {
      LowStep(all, n, v);
      buf[off + n] := ZERO + v % 10;
      n := n + 1;
      if v < 10 { break; }
      v := v / 10;
    }
  }

  lemma LowStep(all: seq<nat>, n: nat, v: nat)
    requires n < |all| && all[n..] == LowFirst(v)
    ensures all[n] == ZERO + v % 10
    ensures if v < 10 then n + 1 == |all| else n + 1 < |all| && all[n + 1..] == LowFirst(v / 10)
  {
    assert all[n] == all[n..][0];
    assert all[n + 1..] == all[n..][1..];
  }

  // The first i and the last i of the n elements from off on exchanged.
  ghost function Mirrored(was: seq<nat>, off: nat, n: nat, i: nat, k: nat): nat
    requires off + n <= |was| && k < |was|
  {
    if off <= k < off + n && (k < off + i || k >= off + n - i) then was[2 * off + n - 1 - k] else was[k]
  }

  method Reverse(buf: array<nat>, off: nat, n: nat)
    requires off + n <= buf.Length && n >= 1
    modifies buf
    ensures buf[off..off + n] == Reversed(old(buf[off..off + n]))
    ensures forall k :: 0 <= k < buf.Length && !(off <= k < off + n) ==> buf[k] == old(buf[k])
  {
    ghost var was := buf[..];
    var i, j := 0, n - 1;
    while i < j
      invariant 0 <= i <= n && j == n - 1 - i && i <= j + 1
      invariant forall k :: 0 <= k < buf.Length ==> buf[k] == Mirrored(was, off, n, i, k)
      decreases j - i
    {
      buf[off + i], buf[off + j] := buf[off + j], buf[off + i];
      i, j := i + 1, j - 1;
    }
    ghost var now := buf[off..off + n];
    forall k | 0 <= k < n
      ensures now[k] == was[off + n - 1 - k]
    {
      assert now[k] == buf[off + k] == Mirrored(was, off, n, i, off + k);
      assert k < i || k >= n - i || k == n - 1 - k;
    }
    assert now == Reversed(was[off..off + n]);
  }

  lemma Power20()
    ensures U64 <= Power(20) && Power(19) == TEN19
  {
    assert Power(5) == 100000;
    PowerAdd(5, 5);
    PowerAdd(10, 5);
    PowerAdd(15, 4);
    assert Power(4) == 10000;
    PowerAdd(19, 1);
  }

  lemma {:induction false} PowerAdd(a: nat, b: nat)
    ensures Power(a + b) == Power(a) * Power(b)
    decreases a
  {
    if a > 0 {
      PowerAdd(a - 1, b);
      assert 10 * (Power(a - 1) * Power(b)) == (10 * Power(a - 1)) * Power(b);
    }
  }

  // 128 bits: above 64 the number is split at 10^19, the lower part padded.
  method Itoa128(buf: array<nat>, off: nat, value: nat) returns (n: nat)
    requires value <= -I128_MIN && off + 40 <= buf.Length
    modifies buf
    ensures 1 <= n <= 40 && buf[off..off + n] == Digits(value)
    ensures forall k :: 0 <= k < buf.Length && !(off <= k < off + n) ==> buf[k] == old(buf[k])
  {
    hide Digits, Padded;
    if value < U64 {
      n := Itoa(buf, off, value);
      return;
    }
    var lo, hi := value % TEN19, value / TEN19;
    Power20();
    DigitsSplit(hi, lo, 19);
    PaddedIs(lo, 19);
    n := ItoaSplit(buf, off, hi, lo);
  }

  method ItoaSplit(buf: array<nat>, off: nat, hi: nat, lo: nat) returns (n: nat)
    requires hi < U64 && lo < TEN19 && |Digits(lo)| <= 19 && off + 40 <= buf.Length
    modifies buf
    ensures 1 <= n <= 40 && buf[off..off + n] == Digits(hi) + (seq(19 - |Digits(lo)|, _ => ZERO) + Digits(lo))
    ensures forall k :: 0 <= k < buf.Length && !(off <= k < off + n) ==> buf[k] == old(buf[k])
  {
    hide Digits, Padded;
    n := Itoa(buf, off, hi);
    var tmp := new nat[20];
    var ln := Itoa(tmp, 0, lo);
    ghost var low := Digits(lo);
    assert tmp[..ln] == tmp[0..ln] == low;
    n := Pad(buf, off, n, 19 - ln);
    n := Append(buf, off, n, tmp, ln);
    assert buf[off..off + n] == Digits(hi) + seq(19 - ln, _ => ZERO) + low;
    assert buf[off..off + n] == Digits(hi) + (seq(19 - ln, _ => ZERO) + low);
  }

  // Zeros behind what is in the buffer.
  method Pad(buf: array<nat>, off: nat, n0: nat, count: nat) returns (n: nat)
    requires off + n0 + count <= buf.Length
    modifies buf
    ensures n == n0 + count && buf[off..off + n] == old(buf[off..off + n0]) + seq(count, _ => ZERO)
    ensures forall k :: 0 <= k < buf.Length && !(off + n0 <= k < off + n) ==> buf[k] == old(buf[k])
  {
    n := n0;
    for i := 0 to count
      invariant n == n0 + i && buf[off..off + n] == old(buf[off..off + n0]) + seq(i, _ => ZERO)
      invariant forall k :: 0 <= k < buf.Length && !(off + n0 <= k < off + n) ==> buf[k] == old(buf[k])
    {
      buf[off + n] := ZERO;
      assert buf[off..off + n + 1] == buf[off..off + n] + [ZERO];
      n := n + 1;
    }
  }

  // The first bytes of another buffer behind it.
  method Append(buf: array<nat>, off: nat, n0: nat, tmp: array<nat>, count: nat) returns (n: nat)
    requires off + n0 + count <= buf.Length && count <= tmp.Length && tmp != buf
    modifies buf
    ensures n == n0 + count && buf[off..off + n] == old(buf[off..off + n0]) + tmp[..count]
    ensures forall k :: 0 <= k < buf.Length && !(off + n0 <= k < off + n) ==> buf[k] == old(buf[k])
  {
    n := n0;
    for i := 0 to count
      invariant n == n0 + i && buf[off..off + n] == old(buf[off..off + n0]) + tmp[..i]
      invariant forall k :: 0 <= k < buf.Length && !(off + n0 <= k < off + n) ==> buf[k] == old(buf[k])
    {
      buf[off + n] := tmp[i];
      assert buf[off..off + n + 1] == buf[off..off + n] + [tmp[i]];
      assert tmp[..i + 1] == tmp[..i] + [tmp[i]];
      n := n + 1;
    }
  }

  // What printing an integer gives.
  ghost function Printed(n: int): seq<nat> {
    if n < 0 then [MINUS] + Digits(-n) else Digits(n)
  }

  // Small integers are packed into the pointer and take the 64-bit path.
  method ToString(buf: array<nat>, v: int, packed: bool) returns (n: nat)
    requires I128_MIN <= v <= I128_MAX && buf.Length >= if packed then 25 else 42
    requires packed ==> -0x4000_0000_0000_0000 <= v < 0x4000_0000_0000_0000
    modifies buf
    ensures n <= (if packed then 21 else 41) && buf[..n] == Printed(v)
    ensures forall k :: n <= k < buf.Length ==> buf[k] == old(buf[k])
  {
    hide Digits;
    if v < 0 {
      buf[0] := MINUS;
      if packed { n := Itoa(buf, 1, -v); } else { n := Itoa128(buf, 1, -v); }
      n := n + 1;
      assert buf[..n] == [buf[0]] + buf[1..n];
    } else {
      if packed { n := Itoa(buf, 0, v); } else { n := Itoa128(buf, 0, v); }
      assert buf[..n] == buf[0..n];
    }
  }

  // ---------------- parsing ----------------

  predicate IsDigit(c: nat) { ZERO <= c <= ZERO + 9 }
  predicate IsSpace(c: nat) { c == 32 || c == 9 || c == 13 || c == 10 }
  predicate IsExp(c: nat) { c == 101 || c == 69 }
  predicate IsSign(c: nat) { c == PLUS || c == MINUS }

  // Not a number; an integer; or text this model stops at: a hexadecimal or
  // binary prefix, or a fraction or an exponent.
  datatype Parsed = Invalid | Integer(n: int) | Elsewhere

  ghost function SpaceEnd(s: seq<nat>, i: nat): (j: nat)
    requires i <= |s|
    ensures i <= j <= |s|
    decreases |s| - i
  {
    if i < |s| && IsSpace(s[i]) then SpaceEnd(s, i + 1) else i
  }

  ghost function DigitEnd(s: seq<nat>, i: nat): (j: nat)
    requires i <= |s|
    ensures i <= j <= |s|
    ensures forall k :: i <= k < j ==> IsDigit(s[k])
    ensures j < |s| ==> !IsDigit(s[j])
    decreases |s| - i
  {
    if i < |s| && IsDigit(s[i]) then DigitEnd(s, i + 1) else i
  }

  // Optional spaces, digits, fraction and exponent, skipped without a look.
  ghost function TailEnd(s: seq<nat>, i: nat): (j: nat)
    requires i <= |s|
    ensures i <= j <= |s|
  {
    var a := DigitEnd(s, SpaceEnd(s, i));
    var b := if a < |s| && s[a] == DOT then DigitEnd(s, a + 1) else a;
    if b < |s| && IsExp(s[b]) then
      DigitEnd(s, if b + 1 < |s| && IsSign(s[b + 1]) then b + 2 else b + 1)
    else b
  }

  // Only spaces are left.
  ghost predicate Closes(s: seq<nat>, i: nat)
    requires i <= |s|
  {
    SpaceEnd(s, i) == |s|
  }

  ghost function Closed(s: seq<nat>, i: nat, n: int): Parsed
    requires i <= |s|
  {
    if Closes(s, i) then Integer(n) else Invalid
  }

  ghost function Signed(neg: bool, n: int): int { if neg then -n else n }

  ghost predicate FloatAt(s: seq<nat>, i: nat) { i < |s| && (s[i] == DOT || IsExp(s[i])) }

  // The number that starts at i, behind its sign.
  ghost function Unsigned(s: seq<nat>, i: nat, neg: bool): Parsed
    requires i <= |s|
  {
    var j := DigitEnd(s, i);
    if i == |s| || (!IsDigit(s[i]) && s[i] != DOT) then Invalid
    else if s[i] == ZERO && i + 2 < |s| && s[i + 1] in {120, 88, 98, 66} then Elsewhere
    else if j == i then Invalid
    else if j - i >= I128_DIGITS then
      Closed(s, TailEnd(s, i + I128_DIGITS), if neg then I128_MIN else I128_MAX)
    else if FloatAt(s, j) then Elsewhere
    else
      var n := Signed(neg, Number(s[i..j]));
      if j - i < INT64_DIGITS then Closed(s, TailEnd(s, j), n) else Closed(s, j, n)
  }

  ghost function Parse(s: seq<nat>): Parsed {
    var i := SpaceEnd(s, 0);
    if i == |s| then Invalid
    else Unsigned(s, if IsSign(s[i]) then i + 1 else i, s[i] == MINUS)
  }

  method SkipSpaces(s: seq<nat>, start: nat) returns (i: nat)
    requires start <= |s|
    ensures i == SpaceEnd(s, start)
  {
    i := start;
    while i < |s| && IsSpace(s[i])
      invariant start <= i <= |s| && SpaceEnd(s, i) == SpaceEnd(s, start)
    {
      i := i + 1;
    }
  }

  method SkipDigits(s: seq<nat>, start: nat) returns (i: nat)
    requires start <= |s|
    ensures i == DigitEnd(s, start)
  {
    i := start;
    while i < |s| && IsDigit(s[i])
      invariant start <= i <= |s| && DigitEnd(s, i) == DigitEnd(s, start)
    {
      i := i + 1;
    }
  }

  method SkipTail(s: seq<nat>, start: nat) returns (i: nat)
    requires start <= |s|
    ensures i == TailEnd(s, start)
  {
    i := SkipSpaces(s, start);
    i := SkipDigits(s, i);
    if i < |s| && s[i] == DOT { i := SkipDigits(s, i + 1); }
    if i < |s| && IsExp(s[i]) {
      i := i + 1;
      if i < |s| && IsSign(s[i]) { i := i + 1; }
      i := SkipDigits(s, i);
    }
  }

  // Reads digits up to a limit; the value stays below ten to their number.
  method ReadDigits(s: seq<nat>, first: nat, start: nat, from: int, most: nat) returns (i: nat, v: int)
    requires first <= start <= |s| && DigitEnd(s, first) >= start && start - first < most
    requires from == Number(s[first..start])
    ensures i == (if DigitEnd(s, first) - first < most then DigitEnd(s, first) else first + most)
    ensures v == Number(s[first..i]) && 0 <= v < Power(i - first)
  {
    i, v := start, from;
    SmallNumber(s[first..start]);
    DigitsOn(s, first, start);
    while i < |s| && IsDigit(s[i])
      invariant start <= i <= |s| && i - first < most && DigitEnd(s, i) == DigitEnd(s, first)
      invariant v == Number(s[first..i]) && 0 <= v < Power(i - first)
    {
      assert s[first..i + 1][..i - first] == s[first..i];
      v := v * 10 + (s[i] - ZERO);
      i := i + 1;
      if i - first >= most { return; }
    }
  }

  lemma {:induction false} DigitsOn(s: seq<nat>, i: nat, j: nat)
    requires i <= |s| && i <= j <= DigitEnd(s, i)
    ensures DigitEnd(s, j) == DigitEnd(s, i)
    decreases j - i
  {
    if i < j { DigitsOn(s, i + 1, j); }
  }

  lemma {:induction false} SmallNumber(s: seq<nat>)
    requires forall k :: 0 <= k < |s| ==> IsDigit(s[k])
    ensures 0 <= Number(s) < Power(|s|)
    decreases |s|
  {
    if |s| > 0 { SmallNumber(s[..|s| - 1]); }
  }

  method FromString(s: seq<nat>) returns (r: Parsed)
    ensures r == Parse(s)
  {
    var i := SkipSpaces(s, 0);
    if i == |s| { return Invalid; }
    var neg := false;
    if s[i] == MINUS { neg := true; i := i + 1; } else if s[i] == PLUS { i := i + 1; }
    r := ReadUnsigned(s, i, neg);
  }

  method ReadUnsigned(s: seq<nat>, first: nat, neg: bool) returns (r: Parsed)
    requires first <= |s|
    ensures r == Unsigned(s, first, neg)
  {
    hide Number, TailEnd, SpaceEnd;
    if first == |s| || (!IsDigit(s[first]) && s[first] != DOT) { return Invalid; }
    if s[first] == ZERO && first + 2 < |s| {
      if s[first + 1] in {120, 88, 98, 66} { return Elsewhere; }
    }
    NoNumber(s, first);
    var i, v64 := ReadDigits(s, first, first, 0, INT64_DIGITS);
    Fits64(v64, i - first);
    if i == first { return Invalid; }
    if i - first < INT64_DIGITS {
      if i < |s| && (s[i] == DOT || IsExp(s[i])) { return Elsewhere; }
      r := Finish(s, i, if neg then -v64 else v64, true);
      return;
    }
    var v128;
    i, v128 := ReadDigits(s, first, i, v64, I128_DIGITS);
    Fits128(v128, i - first);
    if i - first >= I128_DIGITS {
      r := Finish(s, i, if neg then I128_MIN else I128_MAX, true);
      return;
    }
    if i < |s| && (s[i] == DOT || IsExp(s[i])) { return Elsewhere; }
    r := Finish(s, i, if neg then -v128 else v128, false);
  }

  // The end of the text: a tail is skipped when asked for, then only spaces may follow.
  method Finish(s: seq<nat>, start: nat, n: int, tail: bool) returns (r: Parsed)
    requires start <= |s|
    ensures r == Closed(s, if tail then TailEnd(s, start) else start, n)
  {
    var i := start;
    if tail { i := SkipTail(s, start); }
    i := SkipSpaces(s, i);
    r := if i == |s| then Integer(n) else Invalid;
  }

  lemma NoNumber(s: seq<nat>, i: nat)
    requires i <= |s|
    ensures Number(s[i..i]) == 0
  {
  }

  // 17 digits fit 64 bits, 37 digits 128.
  lemma Fits64(v: int, k: nat)
    requires 0 <= v < Power(k) && k <= INT64_DIGITS
    ensures v < 0x8000_0000_0000_0000
  {
    Power20();
    PowerMono(k, 17);
    PowerAdd(17, 2);
    PowerOne();
    PowerAdd(1, 1);
  }

  lemma Fits128(v: int, k: nat)
    requires 0 <= v < Power(k) && k <= I128_DIGITS
    ensures v <= I128_MAX
  {
    Power37();
    PowerMono(k, 37);
  }

  lemma {:induction false} PowerMono(a: nat, b: nat)
    requires a <= b
    ensures Power(a) <= Power(b)
    decreases b
  {
    if a < b { PowerMono(a, b - 1); }
  }

  lemma Power37()
    ensures Power(36) == TEN36 && Power(37) == 10 * TEN36
  {
    Power20();
    PowerAdd(19, 1);
    PowerAdd(20, 16);
    PowerAdd(16, 3);
    PowerOne();
    PowerAdd(1, 1);
    PowerAdd(2, 1);
    PowerAdd(36, 1);
  }

  // ---------------- there and back ----------------

  // Printing and parsing gives the integer back exactly when it has at most 36
  // digits, or is the one number the parser saturates at.
  lemma RoundTrip(n: int)
    requires I128_MIN <= n <= I128_MAX
    ensures Parse(Printed(n)) == Integer(n) <==> -TEN36 < n < TEN36 || n == I128_MAX || n == I128_MIN
    ensures !(-TEN36 < n < TEN36) ==> Parse(Printed(n)) == Integer(if n < 0 then I128_MIN else I128_MAX)
  {
    hide Digits, Number, Power;
    var a := if n < 0 then -n else n;
    var s, i := Printed(n), if n < 0 then 1 else 0;
    var d := Digits(a);
    DigitsAre(a);
    assert s[i..] == d && |s| == i + |d|;
    AllDigits(s, i);
    NumberDigits(a);
    Power37();
    DigitsLength(a, 36);
    EndOf(s);
    assert s[i] == d[0];
    if |d| < I128_DIGITS {
      assert s[i..|s|] == d;
    } else {
      RestDigits(s, i);
    }
  }

  lemma {:induction false} AllDigits(s: seq<nat>, i: nat)
    requires i <= |s| && forall k :: i <= k < |s| ==> IsDigit(s[k])
    ensures DigitEnd(s, i) == |s|
    decreases |s| - i
  {
    if i < |s| { AllDigits(s, i + 1); }
  }

  lemma EndOf(s: seq<nat>)
    ensures SpaceEnd(s, |s|) == |s| && TailEnd(s, |s|) == |s|
  {
  }

  // The digits behind the 37th are skipped.
  lemma RestDigits(s: seq<nat>, i: nat)
    requires i + I128_DIGITS <= |s| && forall k :: i <= k < |s| ==> IsDigit(s[k])
    ensures TailEnd(s, i + I128_DIGITS) == |s|
  {
    AllDigits(s, i + I128_DIGITS);
  }
}
