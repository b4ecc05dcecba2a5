// Decimal numbers as text: which characters printing writes, and what the
// parser makes of signs, spaces and leading zeros.
module DecimalText {
  import opened Decimal

  function Codes(t: string): (s: seq<nat>)
    ensures |s| == |t|
  {
    seq(|t|, i requires 0 <= i < |t| => t[i] as nat)
  }

  predicate DigitChar(c: char) { '0' <= c <= '9' }

  predicate SpaceChar(c: char) { c == ' ' || c == '\t' || c == '\r' || c == '\n' }

  // No sign, a plus or a minus.
  predicate SignText(t: string) { |t| == 0 || (|t| == 1 && (t[0] == '+' || t[0] == '-')) }

  predicate Negative(sign: string) { |sign| == 1 && sign[0] == '-' }

  ghost predicate AllDigits(t: string) { forall i :: 0 <= i < |t| ==> DigitChar(t[i]) }

  ghost predicate AllSpaces(t: string) { forall i :: 0 <= i < |t| ==> SpaceChar(t[i]) }

  // The value of a row of digits.
  ghost function Value(t: string): int {
    if |t| == 0 then 0 else Value(t[..|t| - 1]) * 10 + (t[|t| - 1] as int - '0' as int)
  }

  lemma Characters(c: char)
    ensures IsDigit(c as nat) <==> DigitChar(c)
    ensures IsSpace(c as nat) <==> SpaceChar(c)
    ensures IsSign(c as nat) <==> c == '+' || c == '-'
    ensures c as nat == MINUS <==> c == '-'
    ensures c as nat == DOT <==> c == '.'
    ensures IsExp(c as nat) <==> c == 'e' || c == 'E'
  {
  }

  lemma {:induction false} NumberValue(t: string)
    ensures Number(Codes(t)) == Value(t)
    decreases |t|
  {
    if |t| > 0 {
      NumberValue(t[..|t| - 1]);
      assert Codes(t)[..|t| - 1] == Codes(t[..|t| - 1]);
    }
  }

  // ---------------- printing ----------------

  // An integer is printed as a minus sign where it is negative, and the digits
  // of its value without a leading zero.
  lemma PrintedText(n: int) returns (sign: string, d: string)
    ensures Printed(n) == Codes(sign + d)
    ensures sign == if n < 0 then "-" else ""
    ensures AllDigits(d) && |d| >= 1 && (|d| > 1 ==> d[0] != '0')
    ensures Value(d) == if n < 0 then -n else n
  {
    d := DigitsText(if n < 0 then -n else n);
    sign := if n < 0 then "-" else "";
    assert Codes("-" + d) == [MINUS] + Codes(d);
    assert "" + d == d;
  }

  lemma {:induction false} DigitsText(v: nat) returns (d: string)
    ensures Digits(v) == Codes(d) && AllDigits(d) && Value(d) == v
    ensures |d| >= 1 && (v > 0 ==> d[0] != '0') && (|d| > 1 ==> v > 0)
    decreases v
  {
    if v < 10 {
      d := [('0' as int + v) as char];
      assert d[..0] == "";
    } else {
      var e := DigitsText(v / 10);
      var c := ('0' as int + v % 10) as char;
      d := e + [c];
      assert d[..|d| - 1] == e;
    }
  }

  // ---------------- parsing ----------------

  lemma {:induction false} SpaceEndIs(s: seq<nat>, i: nat, k: nat)
    requires i <= k <= |s| && (k == |s| || !IsSpace(s[k])) && forall j :: i <= j < k ==> IsSpace(s[j])
    ensures SpaceEnd(s, i) == k
    decreases k - i
  {
    if i < k { SpaceEndIs(s, i + 1, k); }
  }

  lemma {:induction false} DigitEndIs(s: seq<nat>, i: nat, k: nat)
    requires i <= k <= |s| && (k == |s| || !IsDigit(s[k])) && forall j :: i <= j < k ==> IsDigit(s[j])
    ensures DigitEnd(s, i) == k
    decreases k - i
  {
    if i < k { DigitEndIs(s, i + 1, k); }
  }

  // Where the digits and the spaces behind them end.
  lemma Tail(s: seq<nat>, i: nat, j: nat)
    requires i <= j <= |s|
    requires (forall k :: i <= k < j ==> IsDigit(s[k])) && forall k :: j <= k < |s| ==> IsSpace(s[k])
    ensures DigitEnd(s, i) == j && Closes(s, j) && !FloatAt(s, j)
    ensures Closes(s, TailEnd(s, i))
  {
    DigitEndIs(s, i, j);
    SpaceEndIs(s, j, |s|);
    if i < j {
      SpaceEndIs(s, i, i);
    } else {
      SpaceEndIs(s, i, |s|);
    }
  }

  function Text(before: string, sign: string, d: string, behind: string): (t: string)
    ensures |t| == |before| + |sign| + |d| + |behind|
  {
    before + sign + d + behind
  }

  // Spaces, a sign, digits and spaces again are an integer: leading zeros do
  // not change its value, but with 37 digits or more the number is cut to the
  // greatest or the least one, whatever the digits are.
  lemma ParseText(before: string, sign: string, d: string, behind: string)
    requires AllSpaces(before) && SignText(sign) && AllDigits(d) && |d| >= 1 && AllSpaces(behind)
    ensures Parse(Codes(Text(before, sign, d, behind))) ==
            Integer(if |d| >= 37 then (if Negative(sign) then I128_MIN else I128_MAX)
                    else if Negative(sign) then -Value(d) else Value(d))
  {
    hide Number, Value, Parse, Parts, Codes, Negative, Text, AllSpaces, AllDigits, SignText;
    var s, i := Codes(Text(before, sign, d, behind)), |before| + |sign|;
    PartsThere(before, sign, d, behind);
    MinusThere(before, sign, d, behind);
    DigitsThere(before, sign, d, behind);
    ParseAt(s, |before|, i, i + |d|);
    NumberValue(d);
  }

  // Spaces up to a, a sign or nothing up to i, digits up to j, and spaces.
  ghost predicate Parts(s: seq<nat>, a: nat, i: nat, j: nat) {
    && a <= i < j <= |s| && (i == a || (i == a + 1 && IsSign(s[a])))
    && (forall k :: 0 <= k < a ==> IsSpace(s[k]))
    && (forall k :: i <= k < j ==> IsDigit(s[k]))
    && (forall k :: j <= k < |s| ==> IsSpace(s[k]))
  }

  lemma PartsThere(before: string, sign: string, d: string, behind: string)
    requires AllSpaces(before) && SignText(sign) && AllDigits(d) && |d| >= 1 && AllSpaces(behind)
    ensures var i := |before| + |sign|; Parts(Codes(Text(before, sign, d, behind)), |before|, i, i + |d|)
  {
    hide IsSpace, IsDigit, IsSign, SpaceChar, DigitChar, Codes, Text;
    var t := Text(before, sign, d, behind);
    var s, a := Codes(t), |before|;
    var i, j := a + |sign|, a + |sign| + |d|;
    forall k | 0 <= k < |s|
      ensures k < a ==> IsSpace(s[k])
      ensures i <= k < j ==> IsDigit(s[k])
      ensures j <= k ==> IsSpace(s[k])
    {
      CodeAt(t, k);
      At(before, sign, d, behind, k);
      Characters(t[k]);
    }
    if |sign| == 1 {
      CodeAt(t, a);
      At(before, sign, d, behind, a);
      Characters(sign[0]);
    }
  }

  lemma MinusThere(before: string, sign: string, d: string, behind: string)
    requires SignText(sign)
    ensures var s := Codes(Text(before, sign, d, behind)); |sign| > 0 && s[|before|] == MINUS <==> Negative(sign)
  {
    if |sign| > 0 {
      CodeAt(Text(before, sign, d, behind), |before|);
      At(before, sign, d, behind, |before|);
      Characters(sign[0]);
    }
  }

  lemma DigitsThere(before: string, sign: string, d: string, behind: string)
    ensures var s, i := Codes(Text(before, sign, d, behind)), |before| + |sign|; s[i..i + |d|] == Codes(d)
  {
    var t, i := Text(before, sign, d, behind), |before| + |sign|;
    forall k | 0 <= k < |d|
      ensures Codes(t)[i..i + |d|][k] == Codes(d)[k]
    {
      At(before, sign, d, behind, i + k);
    }
  }

  lemma At(before: string, sign: string, d: string, behind: string, k: nat)
    requires k < |Text(before, sign, d, behind)|
    ensures var t, i, j := Text(before, sign, d, behind), |before| + |sign|, |before| + |sign| + |d|;
            && (k < |before| ==> t[k] == before[k])
            && (|before| <= k < i ==> t[k] == sign[k - |before|])
            && (i <= k < j ==> t[k] == d[k - i])
            && (j <= k ==> t[k] == behind[k - j])
  {
  }

  lemma CodeAt(t: string, k: nat)
    requires k < |t|
    ensures |Codes(t)| == |t| && Codes(t)[k] == t[k] as nat
  {
  }

  lemma ParseAt(s: seq<nat>, a: nat, i: nat, j: nat)
    requires Parts(s, a, i, j)
    ensures var neg := i > a && s[a] == MINUS;
            Parse(s) == Integer(if j - i >= 37 then (if neg then I128_MIN else I128_MAX) else Signed(neg, Number(s[i..j])))
  {
    hide SpaceEnd, DigitEnd, TailEnd, Closes, Number;
    SpaceEndIs(s, 0, a);
    Tail(s, i, j);
    assert IsDigit(s[i]);
    assert i + 2 < |s| ==> IsDigit(s[i + 1]) || IsSpace(s[i + 1]);
    if j - i >= 37 { Tail(s, i + 37, j); } else { Tail(s, j, j); }
  }

  // Thirty-seven zeros are read as the greatest integer.
  lemma ZerosOverflow()
    ensures Parse(Codes(seq(37, _ => '0'))) == Integer(I128_MAX)
    ensures Value(seq(37, _ => '0')) == 0
  {
    var d := seq(37, _ => '0');
    ParseText("", "", d, "");
    assert Text("", "", d, "") == d;
    ZerosValue(d);
  }

  lemma {:induction false} ZerosValue(d: string)
    requires forall i :: 0 <= i < |d| ==> d[i] == '0'
    ensures Value(d) == 0
    decreases |d|
  {
    if |d| > 0 { ZerosValue(d[..|d| - 1]); }
  }
}
