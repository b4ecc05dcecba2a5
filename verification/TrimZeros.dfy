// Trailing decimal zeros removed by multiplying with an inverse of 5^k modulo
// 2^64 and rotating k bits.
module TrimZeros {

  const WORD: nat := 0x1_0000_0000_0000_0000
  const MAX: nat := 0xffff_ffff_ffff_ffff

  const DIV1E8M: nat := 0xc767074b22e90e21
  const DIV1E4M: nat := 0xd288ce703afb7e91
  const DIV1E2M: nat := 0x8f5c28f5c28f5c29
  const DIV1E1M: nat := 0xcccccccccccccccd

  ghost function Pow(b: nat, e: nat): (r: nat)
    ensures b > 0 ==> r > 0
  {
    if e == 0 then 1 else b * Pow(b, e - 1)
  }

  // (x >> s) | (x << (64 - s)) on 64-bit words; p is 2^s, q is 2^(64-s).
  function Rotated(x: nat, p: nat, q: nat): nat
    requires p > 0
  {
    x / p + (x % p) * q
  }

  // How many times 10 divides x, for x > 0.
  ghost function Zeros(x: nat): nat
    requires x > 0
  {
    if x % 10 == 0 then 1 + Zeros(x / 10) else 0
  }

  // ---------------- the divisibility test ----------------

  lemma NoMultiple(k: int, m: nat, e: int)
    requires m > 0 && k * m == e && e < m && -e < m
    ensures k == 0
  {
    assert (k - 1) * m == k * m - m && (-k - 1) * m == -(k * m) - m;
    assert k >= 1 ==> (k - 1) * m >= 0;
    assert k <= -1 ==> (-k - 1) * m >= 0;
  }

  lemma ModUnique(a: int, b: int, q: int, m: nat)
    requires m > 0 && a == b + q * m && 0 <= b < m
    ensures a % m == b && a / m == q
  {
    var r, d := a % m, a / m;
    assert a == d * m + r && 0 <= r < m;
    assert (d - q) * m == d * m - q * m;
    NoMultiple(d - q, m, b - r);
  }

  // Multiplying a multiple of five by the inverse divides it.
  lemma InverseDivides(t: nat, five: nat, inv: nat, c: nat)
    requires inv * five == c * WORD + 1 && t < WORD
    ensures (t * five * inv) % WORD == t
  {
    calc {
      t * five * inv;
      t * (inv * five);
      t * (c * WORD + 1);
      t + (t * c) * WORD;
    }
    ModUnique(t * five * inv, t, t * c, WORD);
  }

  // A word times the inverse, times five again, is the word modulo 2^64.
  lemma InverseUndone(x: nat, five: nat, inv: nat, c: nat) returns (z: int)
    requires inv * five == c * WORD + 1
    ensures ((x * inv) % WORD) * five == x + z * WORD
  {
    var m, y := (x * inv) % WORD, (x * inv) / WORD;
    assert x * inv == y * WORD + m;
    calc {
      m * five;
      (x * inv - y * WORD) * five;
      x * (inv * five) - y * WORD * five;
      x * (c * WORD + 1) - (y * five) * WORD;
      x + (x * c - y * five) * WORD;
    }
    z := x * c - y * five;
  }

  // For p = 2^k and five = 5^k: the rotated product is at most MAX / 10^k
  // exactly when 10^k divides x, and is then the quotient.
  lemma TestExact(x: nat, p: nat, q: nat, five: nat, inv: nat, c: nat, ten: nat)
    requires x < WORD && p >= 2 && p * q == WORD && five >= 1 && ten == p * five >= 1 && inv * five == c * WORD + 1
    ensures var d := Rotated((x * inv) % WORD, p, q);
            && (d <= MAX / ten <==> x % ten == 0)
            && (x % ten == 0 ==> d == x / ten)
  {
    if x % ten == 0 { Passes(x, p, q, five, inv, c, ten); }
    if Rotated((x * inv) % WORD, p, q) <= MAX / ten { Divides(x, p, q, five, inv, c, ten); }
  }

  lemma Passes(x: nat, p: nat, q: nat, five: nat, inv: nat, c: nat, ten: nat)
    requires x < WORD && p >= 2 && five >= 1 && ten == p * five >= 1 && inv * five == c * WORD + 1 && x % ten == 0
    ensures Rotated((x * inv) % WORD, p, q) == x / ten <= MAX / ten
  {
    var k := x / ten;
    Quotient(x, ten, p, five, k);
    InverseDivides(k * p, five, inv, c);
    ModUnique(k * p, 0, k, p);
    AtMost(x, MAX, ten);
  }

  lemma Divides(x: nat, p: nat, q: nat, five: nat, inv: nat, c: nat, ten: nat)
    requires x < WORD && p >= 2 && p * q == WORD && five >= 1 && ten == p * five >= 1 && inv * five == c * WORD + 1
    requires Rotated((x * inv) % WORD, p, q) <= MAX / ten
    ensures x % ten == 0
  {
    var m := (x * inv) % WORD;
    var d := Rotated(m, p, q);
    var z := InverseUndone(x, five, inv, c);
    NoLowBits(m, p, q, ten, five);
    assert m == d * p;
    assert (d * p) * five == d * (p * five);
    Small(d, ten);
    Exactly(x, z, d * ten);
    ModUnique(x, 0, d, ten);
  }

  lemma Quotient(x: nat, ten: nat, p: nat, five: nat, k: nat)
    requires p >= 1 && five >= 1 && ten == p * five && x % ten == 0 && k == x / ten && x < WORD
    ensures x == (k * p) * five && k * p < WORD
  {
    assert x == k * ten;
    assert k * (p * five) == (k * p) * five;
    assert (k * p) * five >= k * p;
  }

  lemma AtMost(x: nat, y: nat, d: nat)
    requires d > 0 && x <= y
    ensures x / d <= y / d
  {
    var a, b := x / d, y / d;
    assert a * d <= x && y < (b + 1) * d;
    if a > b { TimesMore(b + 1, a, d); }
  }

  lemma TimesMore(a: nat, b: nat, d: nat)
    requires a <= b
    ensures a * d <= b * d
  {
    assert (b - a) * d >= 0 && b * d == a * d + (b - a) * d;
  }

  lemma Times(a: nat, b: nat, k: nat)
    requires a <= b
    ensures a * k <= b * k
  {
    assert (b - a) * k >= 0;
    assert (b - a) * k == b * k - a * k;
  }

  // A rotated word below 2^64 / 10^k has no bits rotated to the top.
  lemma NoLowBits(m: nat, p: nat, q: nat, ten: nat, five: nat)
    requires m < WORD && p >= 2 && p * q == WORD && five >= 1 && ten == p * five >= 1
    requires Rotated(m, p, q) <= MAX / ten
    ensures m % p == 0 && Rotated(m, p, q) == m / p && m == (m / p) * p
  {
    var d, low, most := Rotated(m, p, q), m % p, MAX / ten;
    assert q * (p * five) == (p * q) * five;
    assert most * ten <= MAX;
    Times(1, five, WORD);
    if low > 0 {
      Times(1, low, q);
      Times(q, most, ten);
    }
  }

  lemma Small(d: nat, ten: nat)
    requires ten > 0 && d <= MAX / ten
    ensures d * ten < WORD
  {
    assert d * ten <= (MAX / ten) * ten <= MAX;
  }

  lemma Exactly(x: nat, z: int, y: nat)
    requires x < WORD && y < WORD && y == x + z * WORD
    ensures z == 0
  {
  }

  // The four inverses are what they are meant to be.
  lemma Inverses()
    ensures DIV1E1M * 5 == 4 * WORD + 1
    ensures DIV1E2M * 25 == 14 * WORD + 1
    ensures DIV1E4M * 625 == 514 * WORD + 1
    ensures DIV1E8M * 390625 == 304264 * WORD + 1
  {
  }

  // ---------------- the four steps ----------------

  lemma StepTests(x: nat)
    requires x < WORD
    ensures var d := Rotated((x * DIV1E1M) % WORD, 2, 0x8000_0000_0000_0000);
            (d <= MAX / 10 <==> x % 10 == 0) && (x % 10 == 0 ==> d == x / 10)
    ensures var d := Rotated((x * DIV1E2M) % WORD, 4, 0x4000_0000_0000_0000);
            (d <= MAX / 100 <==> x % 100 == 0) && (x % 100 == 0 ==> d == x / 100)
    ensures var d := Rotated((x * DIV1E4M) % WORD, 16, 0x1000_0000_0000_0000);
            (d <= MAX / 10000 <==> x % 10000 == 0) && (x % 10000 == 0 ==> d == x / 10000)
    ensures var d := Rotated((x * DIV1E8M) % WORD, 256, 0x100_0000_0000_0000);
            (d <= MAX / 100000000 <==> x % 100000000 == 0) && (x % 100000000 == 0 ==> d == x / 100000000)
  {
    Inverses();
    TestExact(x, 2, 0x8000_0000_0000_0000, 5, DIV1E1M, 4, 10);
    TestExact(x, 4, 0x4000_0000_0000_0000, 25, DIV1E2M, 14, 100);
    TestExact(x, 16, 0x1000_0000_0000_0000, 625, DIV1E4M, 514, 10000);
    TestExact(x, 256, 0x100_0000_0000_0000, 390625, DIV1E8M, 304264, 100000000);
  }

  // ---------------- counting zeros ----------------

  lemma PowStep(b: nat, n: nat)
    ensures Pow(b, n + 1) == b * Pow(b, n)
  {
  }

  lemma Assoc(a: int, b: int, c: int)
    ensures a * (b * c) == (a * b) * c
  {
  }

  lemma {:induction false} PowSplit(b: nat, m: nat, n: nat)
    ensures Pow(b, m + n) == Pow(b, m) * Pow(b, n)
    decreases m
  {
    if m > 0 {
      PowSplit(b, m - 1, n);
      hide Pow;
      PowStep(b, m - 1);
      PowStep(b, m + n - 1);
      Assoc(b, Pow(b, m - 1), Pow(b, n));
    }
  }

  // 10^k divides x exactly when x ends in k zeros.
  lemma {:induction false} ZerosDivides(x: nat, k: nat)
    requires x > 0
    ensures x % Pow(10, k) == 0 <==> k <= Zeros(x)
    ensures k <= Zeros(x) ==> x / Pow(10, k) > 0 && Zeros(x / Pow(10, k)) == Zeros(x) - k
    decreases k
  {
    if k > 0 {
      var t := Pow(10, k - 1);
      if x % 10 == 0 {
        ZerosDivides(x / 10, k - 1);
        ScaleDivides(x / 10, t);
      } else {
        NotDivided(x, t);
      }
    }
  }

  // Multiplying both sides by ten changes neither divisibility nor quotient.
  lemma ScaleDivides(y: nat, t: nat)
    requires t > 0
    ensures (10 * y) % (10 * t) == 10 * (y % t) && (10 * y) / (10 * t) == y / t
  {
    assert y == (y / t) * t + y % t;
    assert 10 * y == (y / t) * (10 * t) + 10 * (y % t);
    ModUnique(10 * y, 10 * (y % t), y / t, 10 * t);
  }

  lemma NotDivided(x: nat, t: nat)
    requires t > 0 && x % 10 != 0
    ensures x % (10 * t) != 0
  {
    var q := x / (10 * t);
    assert x == q * (10 * t) + x % (10 * t);
    assert q * (10 * t) == 10 * (q * t);
  }

  lemma Powers()
    ensures Pow(10, 0) == 1 && Pow(10, 1) == 10 && Pow(10, 2) == 100 && Pow(10, 4) == 10000 && Pow(10, 8) == 100000000
  {
    assert Pow(10, 4) == 10 * Pow(10, 3) == 100 * Pow(10, 2);
    PowSplit(10, 4, 4);
  }

  // Takes k zeros off when there are that many.
  ghost predicate Stepped(x: nat, x': nat, k: nat, taken: bool) {
    && taken == (x % Pow(10, k) == 0)
    && x' == if taken then x / Pow(10, k) else x
  }

  // Word by word: the rotated product d passes the test against `most` exactly
  // when there are k zeros to take off, and is then the number without them.
  lemma Test1(x: nat)
    requires x < WORD
    ensures var d := Rotated((x * DIV1E1M) % WORD, 2, 0x8000_0000_0000_0000);
            Stepped(x, if d <= MAX / 10 then d else x, 1, d <= MAX / 10)
  {
    hide Pow, Rotated;
    Powers();
    StepTests(x);
  }

  lemma Test2(x: nat)
    requires x < WORD
    ensures var d := Rotated((x * DIV1E2M) % WORD, 4, 0x4000_0000_0000_0000);
            Stepped(x, if d <= MAX / 100 then d else x, 2, d <= MAX / 100)
  {
    hide Pow, Rotated;
    Powers();
    StepTests(x);
  }

  lemma Test4(x: nat)
    requires x < WORD
    ensures var d := Rotated((x * DIV1E4M) % WORD, 16, 0x1000_0000_0000_0000);
            Stepped(x, if d <= MAX / 10000 then d else x, 4, d <= MAX / 10000)
  {
    hide Pow, Rotated;
    Powers();
    StepTests(x);
  }

  lemma Test8(x: nat)
    requires x < WORD
    ensures var d := Rotated((x * DIV1E8M) % WORD, 256, 0x100_0000_0000_0000);
            Stepped(x, if d <= MAX / 100000000 then d else x, 8, d <= MAX / 100000000)
  {
    hide Pow, Rotated;
    Powers();
    StepTests(x);
  }

  ghost function By(k: nat, taken: bool): nat { if taken then k else 0 }

  lemma StepZeros(x: nat, x': nat, k: nat, taken: bool)
    requires Stepped(x, x', k, taken)
    ensures x' <= x && (x == 0 ==> taken)
    ensures x > 0 ==>
              && x' > 0 && taken == (k <= Zeros(x)) && Zeros(x') == Zeros(x) - By(k, taken)
              && x == x' * Pow(10, By(k, taken))
  {
    hide Zeros, Pow;
    var t := Pow(10, k);
    assert x == (x / t) * t + x % t;
    Times(1, t, x / t);
    if x > 0 { ZerosDivides(x, k); }
    PowZero();
  }

  lemma PowZero()
    ensures Pow(10, 0) == 1
  {
  }

  // One zero first, then eight, four, two and one more: of z zeros at the end
  // exactly min(z, 16) are removed.
  method TrimZeros(x0: nat, p0: int) returns (x: nat, p: int)
    requires x0 < WORD
    ensures x0 == 0 ==> x == 0 && p == p0 + 16
    ensures x0 > 0 ==>
              && x > 0 && p0 <= p && x0 == x * Pow(10, p - p0)
              && p - p0 == (if Zeros(x0) <= 16 then Zeros(x0) else 16)
    ensures x0 > 0 ==> (x % 10 != 0 <==> x0 % Pow(10, 17) != 0)
  {
    hide Zeros, Pow, Rotated, Stepped;
    x, p := x0, p0;
    Test1(x);
    var d := Rotated((x * DIV1E1M) % WORD, 2, 0x8000_0000_0000_0000);
    if d <= MAX / 10 {
      x, p := d, p + 1;
    } else {
      StepZeros(x0, x, 1, false);
      PowZero();
      TrimEnds(x0, x, 0);
      return;
    }
    ghost var x1 := x;
    StepZeros(x0, x1, 1, true);
    Test8(x);
    d := Rotated((x * DIV1E8M) % WORD, 256, 0x100_0000_0000_0000);
    ghost var t8 := d <= MAX / 100000000;
    if d <= MAX / 100000000 { x, p := d, p + 8; }
    ghost var x2 := x;
    StepZeros(x1, x2, 8, t8);
    Test4(x);
    d := Rotated((x * DIV1E4M) % WORD, 16, 0x1000_0000_0000_0000);
    ghost var t4 := d <= MAX / 10000;
    if d <= MAX / 10000 { x, p := d, p + 4; }
    ghost var x3 := x;
    StepZeros(x2, x3, 4, t4);
    Test2(x);
    d := Rotated((x * DIV1E2M) % WORD, 4, 0x4000_0000_0000_0000);
    ghost var t2 := d <= MAX / 100;
    if d <= MAX / 100 { x, p := d, p + 2; }
    ghost var x4 := x;
    StepZeros(x3, x4, 2, t2);
    Test1(x);
    d := Rotated((x * DIV1E1M) % WORD, 2, 0x8000_0000_0000_0000);
    ghost var t0 := d <= MAX / 10;
    if d <= MAX / 10 { x, p := d, p + 1; }
    StepZeros(x4, x, 1, t0);
    if x0 > 0 {
      StepsAdd(x0, x1, x2, x3, x4, x, t8, t4, t2, t0);
      Total(x0, t8, t4, t2, t0);
      TrimEnds(x0, x, p - p0);
    }
  }

  lemma Total(x0: nat, t8: bool, t4: bool, t2: bool, t0: bool)
    requires x0 > 0 && 1 <= Zeros(x0)
    requires t8 == (8 <= Zeros(x0) - 1) && t4 == (4 <= Zeros(x0) - 1 - By(8, t8))
    requires t2 == (2 <= Zeros(x0) - 1 - By(8, t8) - By(4, t4))
    requires t0 == (1 <= Zeros(x0) - 1 - By(8, t8) - By(4, t4) - By(2, t2))
    ensures 1 + By(8, t8) + By(4, t4) + By(2, t2) + By(1, t0) == (if Zeros(x0) <= 16 then Zeros(x0) else 16)
  {
  }

  lemma StepsAdd(x0: nat, x1: nat, x2: nat, x3: nat, x4: nat, x5: nat, t8: bool, t4: bool, t2: bool, t0: bool)
    requires x0 == x1 * Pow(10, 1) && x1 == x2 * Pow(10, By(8, t8)) && x2 == x3 * Pow(10, By(4, t4))
    requires x3 == x4 * Pow(10, By(2, t2)) && x4 == x5 * Pow(10, By(1, t0))
    ensures x0 == x5 * Pow(10, 1 + By(8, t8) + By(4, t4) + By(2, t2) + By(1, t0))
  {
    hide Pow;
    var a, b, c := 1 + By(8, t8), 1 + By(8, t8) + By(4, t4), 1 + By(8, t8) + By(4, t4) + By(2, t2);
    ScalesAdd(x0, x1, x2, 1, By(8, t8));
    ScalesAdd(x0, x2, x3, a, By(4, t4));
    ScalesAdd(x0, x3, x4, b, By(2, t2));
    ScalesAdd(x0, x4, x5, c, By(1, t0));
  }

  lemma ScalesAdd(x: nat, y: nat, z: nat, m: nat, n: nat)
    requires x == y * Pow(10, m) && y == z * Pow(10, n)
    ensures x == z * Pow(10, m + n)
  {
    PowSplit(10, n, m);
    assert (z * Pow(10, n)) * Pow(10, m) == z * (Pow(10, n) * Pow(10, m));
  }

  lemma TrimEnds(x0: nat, x: nat, k: nat)
    requires x0 > 0 ==> x > 0 && Zeros(x) == Zeros(x0) - k && k == (if Zeros(x0) <= 16 then Zeros(x0) else 16)
    ensures x0 > 0 ==> (x % 10 != 0 <==> x0 % Pow(10, 17) != 0)
  {
    if x0 > 0 { ZerosDivides(x0, 17); }
  }
}
