// The layout of a unit file, byte by byte: what stands at which offset.
module UnitLayout {
  import opened Wire
  import opened Unit

  ghost predicate Number16(b: seq<byte>, at: nat, n: nat) {
    at + 2 <= |b| && b[at] as nat + 256 * b[at + 1] as nat == n % 65536
  }

  ghost predicate Number32(b: seq<byte>, at: nat, n: nat) {
    && at + 4 <= |b|
    && b[at] as nat + 256 * b[at + 1] as nat + 65536 * b[at + 2] as nat + 16777216 * b[at + 3] as nat == n % 4294967296
  }

  // Each text takes a length of two bytes and its characters.
  function TextsLength(ts: seq<Text>): nat {
    if |ts| == 0 then 0 else 2 + |ts[0]| + TextsLength(ts[1..])
  }

  // Each function takes ten bytes and its code.
  function FuncsLength(fs: seq<Func>): nat {
    if |fs| == 0 then 0 else 10 + |fs[0].code| + FuncsLength(fs[1..])
  }

  // ---------------- the header ----------------

  lemma Header(pool: seq<Text>, fs: seq<Func>)
    ensures var b := UnitBytes(pool, fs);
            && |b| >= 10
            && b[0] == 'C' as int && b[1] == 'I' as int && b[2] == 'B' as int && b[3] == 'C' as int
            && b[4] == 2 && b[5] == 0
            && Number16(b, 6, |TableOf(pool, fs)|) && Number16(b, 8, |fs|)
  {
    hide TableOf, TextsBytes, FuncsBytes, Le16;
    var table := TableOf(pool, fs);
    var b := UnitBytes(pool, fs);
    var tail := TextsBytes(table) + FuncsBytes(fs, table);
    assert b == MAGIC + Le16(VERSION) + Le16(|table|) + Le16(|fs|) + tail;
    assert b[6] == Le16(|table|)[0] && b[7] == Le16(|table|)[1] && b[8] == Le16(|fs|)[0] && b[9] == Le16(|fs|)[1];
    assert b[4] == Le16(VERSION)[0] && b[5] == Le16(VERSION)[1];
    Bytes16(VERSION);
    Bytes16(|table|);
    Bytes16(|fs|);
  }

  lemma Bytes16(n: nat)
    ensures Le16(n)[0] as nat + 256 * Le16(n)[1] as nat == n % 65536
    ensures n < 256 ==> Le16(n) == [n, 0]
  {
    Le16Back(n);
  }

  lemma Bytes32(n: nat)
    ensures Number32(Le32(n), 0, n)
  {
    Le32Back(n);
  }

  // ---------------- strings and functions ----------------

  ghost predicate TextHere(b: seq<byte>, at: nat, t: Text) {
    && Number16(b, at, |t|) && at + 2 + |t| <= |b|
    && forall k :: 0 <= k < |t| ==> b[at + 2 + k] == t[k]
  }

  // A function: its name's place in the table, the counts of arguments and of
  // registers, no locals, and its code behind the code's length.
  ghost predicate FuncHere(b: seq<byte>, at: nat, f: Func, table: seq<Text>) {
    && at + 10 + |f.code| <= |b|
    && (exists i :: 0 <= i < |table| && table[i] == f.name && Number16(b, at, i))
    && b[at + 2] == f.args && b[at + 3] == f.regs && b[at + 4] == 0 && b[at + 5] == 0
    && Number32(b, at + 6, |f.code|)
    && forall k :: 0 <= k < |f.code| ==> b[at + 10 + k] == f.code[k]
  }

  lemma {:induction false} TextsAt(b: seq<byte>, at: nat, ts: seq<Text>, i: nat)
    requires at + |TextsBytes(ts)| <= |b| && b[at..at + |TextsBytes(ts)|] == TextsBytes(ts) && i < |ts|
    ensures TextHere(b, at + TextsLength(ts[..i]), ts[i])
    decreases |ts|
  {
    hide Le16;
    var t, s, n := TextBytes(ts[0]), TextsBytes(ts), |TextsBytes(ts)|;
    assert s == t + TextsBytes(ts[1..]);
    assert |t| == 2 + |ts[0]|;
    if i == 0 {
      Bytes16(|ts[0]|);
      assert s[0] == Le16(|ts[0]|)[0] && s[1] == Le16(|ts[0]|)[1];
      assert forall k :: 0 <= k < n ==> b[at + k] == b[at..at + n][k] == s[k];
      assert b[at + 0] == s[0] && b[at + 1] == s[1];
      forall k | 0 <= k < |ts[0]|
        ensures b[at + 2 + k] == ts[0][k]
      {
        assert b[at + (2 + k)] == s[2 + k] == t[2 + k];
      }
    } else {
      assert b[at + |t|..at + n] == b[at..at + n][|t|..];
      TextsAt(b, at + |t|, ts[1..], i - 1);
      assert ts[..i][1..] == ts[1..][..i - 1];
    }
  }

  lemma {:induction false} TextsLengthIs(ts: seq<Text>)
    ensures |TextsBytes(ts)| == TextsLength(ts)
  {
    if |ts| > 0 { TextsLengthIs(ts[1..]); }
  }

  lemma FuncAt(b: seq<byte>, at: nat, f: Func, table: seq<Text>)
    requires var s := FuncBytes(f, table); at + |s| <= |b| && b[at..at + |s|] == s
    requires Find(table, f.name, 0) < |table| && table[Find(table, f.name, 0)] == f.name
    ensures FuncHere(b, at, f, table) && |FuncBytes(f, table)| == 10 + |f.code|
  {
    hide Le16, Le32, Find;
    var s, p, n := FuncBytes(f, table), Find(table, f.name, 0), |f.code|;
    assert s == Le16(p) + [f.args, f.regs] + Le16(0) + Le32(n) + f.code;
    assert |s| == 10 + n;
    Bytes16(p);
    Bytes16(0);
    Bytes32(n);
    assert forall k :: 0 <= k < |s| ==> b[at + k] == b[at..at + |s|][k] == s[k];
    assert s[0] == Le16(p)[0] && s[1] == Le16(p)[1] && s[2] == f.args && s[3] == f.regs;
    assert s[4] == Le16(0)[0] && s[5] == Le16(0)[1];
    assert s[6] == Le32(n)[0] && s[7] == Le32(n)[1] && s[8] == Le32(n)[2] && s[9] == Le32(n)[3];
    assert b[at + 0] == s[0] && b[at + 1] == s[1];
    assert Number16(b, at, p);
    forall k | 0 <= k < n
      ensures b[at + 10 + k] == f.code[k]
    {
      assert b[at + (10 + k)] == s[10 + k] == f.code[k];
    }
    assert b[at + (6 + 1)] == s[7] && b[at + (6 + 2)] == s[8] && b[at + (6 + 3)] == s[9];
  }

  lemma {:induction false} FuncsAt(b: seq<byte>, at: nat, fs: seq<Func>, table: seq<Text>, i: nat)
    requires at + |FuncsBytes(fs, table)| <= |b| && b[at..at + |FuncsBytes(fs, table)|] == FuncsBytes(fs, table) && i < |fs|
    requires forall j :: 0 <= j < |fs| ==> Find(table, fs[j].name, 0) < |table| && table[Find(table, fs[j].name, 0)] == fs[j].name
    ensures FuncHere(b, at + FuncsLength(fs[..i]), fs[i], table)
    decreases |fs|
  {
    hide FuncBytes, FuncHere, Find;
    var f, s, n := FuncBytes(fs[0], table), FuncsBytes(fs, table), |FuncsBytes(fs, table)|;
    assert s == f + FuncsBytes(fs[1..], table);
    assert b[at..at + |f|] == b[at..at + n][..|f|] == f;
    FuncAt(b, at, fs[0], table);
    if i > 0 {
      assert b[at + |f|..at + n] == b[at..at + n][|f|..];
      FuncsAt(b, at + |f|, fs[1..], table, i - 1);
      assert fs[..i][1..] == fs[1..][..i - 1];
    }
  }

  // Where the i-th string and the i-th function of a unit stand in its file.
  lemma Layout(pool: seq<Text>, fs: seq<Func>)
    ensures var b, table := UnitBytes(pool, fs), TableOf(pool, fs);
            && (forall i :: 0 <= i < |table| ==> TextHere(b, 10 + TextsLength(table[..i]), table[i]))
            && (forall i :: 0 <= i < |fs| ==> FuncHere(b, 10 + TextsLength(table) + FuncsLength(fs[..i]), fs[i], table))
  {
    hide Le16, TextsBytes, FuncsBytes, TextHere, FuncHere, Find, TableOf, TextsLength, FuncsLength;
    var b, table := UnitBytes(pool, fs), TableOf(pool, fs);
    var head := MAGIC + Le16(VERSION) + Le16(|table|) + Le16(|fs|);
    var t, f := TextsBytes(table), FuncsBytes(fs, table);
    assert b == head + t + f && |head| == 10;
    assert b[10..10 + |t|] == t && b[10 + |t|..10 + |t| + |f|] == f;
    TextsLengthIs(table);
    forall i: nat | i < |table|
      ensures TextHere(b, 10 + TextsLength(table[..i]), table[i])
    {
      TextsAt(b, 10, table, i);
    }
    forall i: nat | i < |fs|
      ensures Find(table, fs[i].name, 0) < |table| && table[Find(table, fs[i].name, 0)] == fs[i].name
    {
      NameThere(pool, fs, i);
    }
    forall i: nat | i < |fs|
      ensures FuncHere(b, 10 + TextsLength(table) + FuncsLength(fs[..i]), fs[i], table)
    {
      FuncsAt(b, 10 + |t|, fs, table, i);
    }
  }
}
