// A compiled unit as a file: the string table, the functions, and the loader.
module Unit {
  import opened Wire

  datatype Func = Func(name: Text, args: byte, regs: byte, code: seq<byte>)

  // The loaded form: names come out of the string table.
  datatype Loaded = Loaded(strings: seq<Text>, funcs: seq<LoadedFunc>)
  datatype LoadedFunc = LoadedFunc(name: Option<Text>, args: byte, regs: byte, code: seq<byte>)

  const MAGIC: seq<byte> := [67, 73, 66, 67]
  const VERSION: nat := 2

  // ---------------- the string table ----------------

  ghost predicate Distinct(table: seq<Text>) {
    forall i, j :: 0 <= i < j < |table| ==> table[i] != table[j]
  }

  // The text's place, a new one at the end when it is not there yet.
  function Find(table: seq<Text>, t: Text, i: nat): (k: nat)
    requires i <= |table|
    ensures i <= k <= |table|
    ensures k < |table| ==> table[k] == t
    ensures forall j :: i <= j < k ==> table[j] != t
    decreases |table| - i
  {
    if i == |table| || table[i] == t then i else Find(table, t, i + 1)
  }

  function Interned(table: seq<Text>, t: Text): (r: seq<Text>)
    ensures table <= r && t in r
  {
    if Find(table, t, 0) < |table| then table else table + [t]
  }

  function InternAll(table: seq<Text>, ts: seq<Text>): (r: seq<Text>)
    ensures table <= r
    decreases |ts|
  {
    if |ts| == 0 then table else InternAll(Interned(table, ts[0]), ts[1..])
  }

  lemma {:induction false} InternHolds(table: seq<Text>, ts: seq<Text>)
    ensures forall t :: t in ts ==> t in InternAll(table, ts)
    ensures Distinct(table) ==> Distinct(InternAll(table, ts))
    decreases |ts|
  {
    if |ts| > 0 {
      var next := Interned(table, ts[0]);
      assert Distinct(table) ==> Distinct(next);
      InternHolds(next, ts[1..]);
      forall t | t in ts
        ensures t in InternAll(table, ts)
      {
        if t == ts[0] {
          var i :| 0 <= i < |next| && next[i] == t;
          assert InternAll(table, ts)[i] == t;
        } else {
          assert t in ts[1..];
        }
      }
    }
  }

  // Distinct texts keep their places: their ids are their indices.
  lemma {:induction false} InternKeeps(table: seq<Text>, ts: seq<Text>)
    requires Distinct(table + ts)
    ensures InternAll(table, ts) == table + ts
    decreases |ts|
  {
    if |ts| == 0 {
      assert table + ts == table;
    } else {
      assert (table + ts)[|table|] == ts[0];
      forall i | 0 <= i < |table|
        ensures table[i] != ts[0]
      {
        assert (table + ts)[i] == table[i];
      }
      assert (table + [ts[0]]) + ts[1..] == table + ts;
      InternKeeps(table + [ts[0]], ts[1..]);
    }
  }

  class StringTable {
    var strs: seq<Text>

    constructor ()
      ensures strs == []
    {
      strs := [];
    }

    method Intern(t: Text) returns (id: nat)
      modifies this
      ensures id == Find(old(strs), t, 0) % U16
      ensures strs == Interned(old(strs), t)
    {
      var i := 0;
      while i < |strs|
        invariant i <= |strs| && Find(strs, t, i) == Find(strs, t, 0)
      {
        if strs[i] == t { return i % U16; }
        i := i + 1;
      }
      id := |strs| % U16;
      strs := strs + [t];
    }
  }

  // ---------------- the file ----------------

  function TextBytes(t: Text): seq<byte> { Le16(|t|) + t }

  function TextsBytes(ts: seq<Text>): seq<byte> {
    if |ts| == 0 then [] else TextBytes(ts[0]) + TextsBytes(ts[1..])
  }

  function FuncBytes(f: Func, table: seq<Text>): seq<byte> {
    Le16(Find(table, f.name, 0)) + ([f.args, f.regs] + (Le16(0) + (Le32(|f.code|) + f.code)))
  }

  function FuncsBytes(fs: seq<Func>, table: seq<Text>): seq<byte> {
    if |fs| == 0 then [] else FuncBytes(fs[0], table) + FuncsBytes(fs[1..], table)
  }

  function NamesOf(fs: seq<Func>): seq<Text> { seq(|fs|, i requires 0 <= i < |fs| => fs[i].name) }

  function TableOf(pool: seq<Text>, fs: seq<Func>): seq<Text> {
    InternAll(InternAll([], pool), NamesOf(fs))
  }

  function UnitBytes(pool: seq<Text>, fs: seq<Func>): seq<byte> {
    var table := TableOf(pool, fs);
    MAGIC + (Le16(VERSION) + (Le16(|table|) + (Le16(|fs|) + (TextsBytes(table) + FuncsBytes(fs, table)))))
  }

  method InternMany(tab: StringTable, ts: seq<Text>)
    modifies tab
    ensures tab.strs == InternAll(old(tab.strs), ts)
  {
    var i := 0;
    assert ts[0..] == ts;
    while i < |ts|
      invariant i <= |ts| && InternAll(tab.strs, ts[i..]) == InternAll(old(tab.strs), ts)
    {
      assert ts[i..][0] == ts[i] && ts[i..][1..] == ts[i + 1..];
      var id := tab.Intern(ts[i]);
      i := i + 1;
    }
  }

  // Writes a unit: code strings first, then the function names they lack.
  method EncodeUnit(pool: seq<Text>, fs: seq<Func>) returns (out: seq<byte>)
    ensures out == UnitBytes(pool, fs)
  {
    hide InternAll, Find;
    var tab := new StringTable();
    InternMany(tab, pool);
    InternMany(tab, NamesOf(fs));
    ghost var table := tab.strs;
    out := MAGIC + (Le16(VERSION) + (Le16(|tab.strs|) + Le16(|fs|)));
    ghost var head := out;
    var i := 0;
    var texts: seq<byte> := [];
    while i < |tab.strs|
      invariant i <= |tab.strs| && tab.strs == table && texts + TextsBytes(table[i..]) == TextsBytes(table)
    {
      assert table[i..][0] == table[i] && table[i..][1..] == table[i + 1..];
      assert texts + (TextBytes(table[i]) + TextsBytes(table[i + 1..])) == (texts + TextBytes(table[i])) + TextsBytes(table[i + 1..]);
      texts := texts + TextBytes(tab.strs[i]);
      i := i + 1;
    }
    assert texts == TextsBytes(table);
    var funcs: seq<byte> := [];
    i := 0;
    while i < |fs|
      invariant i <= |fs| && tab.strs == table && funcs + FuncsBytes(fs[i..], table) == FuncsBytes(fs, table)
    {
      assert fs[i..][0] == fs[i] && fs[i..][1..] == fs[i + 1..];
      NameThere(pool, fs, i);
      var id := tab.Intern(fs[i].name);
      Le16Mod(Find(table, fs[i].name, 0));
      var f := Le16(id) + ([fs[i].args, fs[i].regs] + (Le16(0) + (Le32(|fs[i].code|) + fs[i].code)));
      assert f == FuncBytes(fs[i], table);
      assert funcs + (f + FuncsBytes(fs[i + 1..], table)) == (funcs + f) + FuncsBytes(fs[i + 1..], table);
      funcs := funcs + f;
      i := i + 1;
    }
    assert funcs == FuncsBytes(fs, table);
    out := out + (texts + funcs);
    assert out == UnitBytes(pool, fs) by {
      assert head + (texts + funcs) == MAGIC + (Le16(VERSION) + (Le16(|table|) + (Le16(|fs|) + (texts + funcs))));
    }
  }

  // Interning a function's name again finds it.
  lemma NameThere(pool: seq<Text>, fs: seq<Func>, i: nat)
    requires i < |fs|
    ensures var table := TableOf(pool, fs);
            Find(table, fs[i].name, 0) < |table| && Interned(table, fs[i].name) == table
  {
    var t, table := fs[i].name, TableOf(pool, fs);
    InternHolds(InternAll([], pool), NamesOf(fs));
    assert NamesOf(fs)[i] == t;
    assert t in NamesOf(fs);
    assert t in table;
  }

  lemma Le16Mod(n: nat)
    ensures Le16(n % U16) == Le16(n)
  {
    var a := n / 256;
    var b := n % U16;
    assert n == U16 * (n / U16) + b;
    assert b / 256 == a - 256 * (n / U16);
  }

  // ---------------- the loader ----------------

  // A value read, and the bytes left; none at the end of the file.
  type Read<T> = Option<(T, seq<byte>)>

  function Read16(s: seq<byte>): Read<nat> {
    if |s| < 2 then None else Some((From16(s[..2]), s[2..]))
  }

  function Read32(s: seq<byte>): Read<nat> {
    if |s| < 4 then None else Some((From32(s[..4]), s[4..]))
  }

  function ReadMany(s: seq<byte>, n: nat): Read<seq<byte>> {
    if |s| < n then None else Some((s[..n], s[n..]))
  }

  function ReadText(s: seq<byte>): Read<Text> {
    match Read16(s)
    case None => None
    case Some(n) => ReadMany(n.1, n.0)
  }

  function ReadTexts(s: seq<byte>, n: nat): Read<seq<Text>>
    decreases n
  {
    if n == 0 then Some(([], s))
    else
      match ReadText(s)
      case None => None
      case Some(t) =>
        match ReadTexts(t.1, n - 1)
        case None => None
        case Some(ts) => Some(([t.0] + ts.0, ts.1))
  }

  function ReadFunc(s: seq<byte>, strings: seq<Text>): Read<LoadedFunc> {
    match Read16(s)
    case None => None
    case Some(name) =>
      if |name.1| < 2 then None
      else
        match Read16(name.1[2..])
        case None => None
        case Some(locals) =>
          // three bytes for each local, not looked at
          if |locals.1| < locals.0 * 3 then None
          else
            match Read32(locals.1[locals.0 * 3..])
            case None => None
            case Some(n) =>
              match ReadMany(n.1, n.0)
              case None => None
              case Some(code) =>
                Some((LoadedFunc(if name.0 < |strings| then Some(strings[name.0]) else None,
                                 name.1[0], name.1[1], code.0), code.1))
  }

  function ReadFuncs(s: seq<byte>, strings: seq<Text>, n: nat): Read<seq<LoadedFunc>>
    decreases n
  {
    if n == 0 then Some(([], s))
    else
      match ReadFunc(s, strings)
      case None => None
      case Some(f) =>
        match ReadFuncs(f.1, strings, n - 1)
        case None => None
        case Some(fs) => Some(([f.0] + fs.0, fs.1))
  }

  // What follows the magic and the version.
  function ReadBody(s: seq<byte>): Option<Loaded> {
    match Read16(s)
    case None => None
    case Some(nt) =>
      match Read16(nt.1)
      case None => None
      case Some(nf) =>
        match ReadTexts(nf.1, nt.0)
        case None => None
        case Some(ts) =>
          match ReadFuncs(ts.1, ts.0, nf.0)
          case None => None
          case Some(fs) => Some(Loaded(ts.0, fs.0))
  }

  function ReadUnit(s: seq<byte>): Option<Loaded> {
    if |s| < 4 || s[..4] != MAGIC then None
    else
      match Read16(s[4..])
      case None => None
      case Some(v) => if v.0 != VERSION then None else ReadBody(v.1)
  }

  // ---------------- there and back ----------------

  lemma Read16Back(n: nat, rest: seq<byte>)
    requires n < U16
    ensures Read16(Le16(n) + rest) == Some((n, rest))
  {
    var s := Le16(n) + rest;
    assert s[..2] == Le16(n) && s[2..] == rest;
    Le16Back(n);
  }

  lemma Read32Back(n: nat, rest: seq<byte>)
    requires n < U32
    ensures Read32(Le32(n) + rest) == Some((n, rest))
  {
    hide Le32, From32;
    var s := Le32(n) + rest;
    assert s[..4] == Le32(n) && s[4..] == rest;
    Le32Back(n);
  }

  lemma ReadTextBack(t: Text, rest: seq<byte>)
    requires |t| < U16
    ensures ReadText(TextBytes(t) + rest) == Some((t, rest))
  {
    assert TextBytes(t) + rest == Le16(|t|) + (t + rest);
    Read16Back(|t|, t + rest);
    assert (t + rest)[..|t|] == t && (t + rest)[|t|..] == rest;
  }

  lemma {:induction false} ReadTextsBack(ts: seq<Text>, rest: seq<byte>)
    requires forall i :: 0 <= i < |ts| ==> |ts[i]| < U16
    ensures ReadTexts(TextsBytes(ts) + rest, |ts|) == Some((ts, rest))
    decreases |ts|
  {
    if |ts| == 0 {
      assert TextsBytes(ts) + rest == rest;
    } else {
      assert TextsBytes(ts) + rest == TextBytes(ts[0]) + (TextsBytes(ts[1..]) + rest);
      ReadTextBack(ts[0], TextsBytes(ts[1..]) + rest);
      ReadTextsBack(ts[1..], rest);
      assert [ts[0]] + ts[1..] == ts;
    }
  }

  // The function as it should come back.
  ghost function Expected(f: Func): LoadedFunc { LoadedFunc(Some(f.name), f.args, f.regs, f.code) }

  lemma ReadFuncBack(f: Func, table: seq<Text>, rest: seq<byte>)
    requires Find(table, f.name, 0) < |table| < U16 && |f.code| < U32
    ensures ReadFunc(FuncBytes(f, table) + rest, table) == Some((Expected(f), rest))
  {
    hide Le16, Le32, Find, Read16, Read32, ReadMany;
    var id := Find(table, f.name, 0);
    var c := f.code + rest;
    var b := Le32(|f.code|) + c;
    var a := [f.args, f.regs] + (Le16(0) + b);
    FuncBytesShape(f, table, rest);
    Read16Back(id, a);
    assert a[2..] == Le16(0) + b;
    Read16Back(0, b);
    assert b[0..] == b;
    Read32Back(|f.code|, c);
    ReadManyBack(f.code, rest);
    FindIs(table, f.name);
  }

  lemma FuncBytesShape(f: Func, table: seq<Text>, rest: seq<byte>)
    ensures FuncBytes(f, table) + rest
         == Le16(Find(table, f.name, 0)) + ([f.args, f.regs] + (Le16(0) + (Le32(|f.code|) + (f.code + rest))))
  {
    hide Le16, Le32, Find;
  }

  lemma ReadManyBack(s: seq<byte>, rest: seq<byte>)
    ensures ReadMany(s + rest, |s|) == Some((s, rest))
  {
  }

  lemma FindIs(table: seq<Text>, t: Text)
    ensures Find(table, t, 0) < |table| ==> table[Find(table, t, 0)] == t
  {
  }

  lemma {:induction false} ReadFuncsBack(fs: seq<Func>, table: seq<Text>, rest: seq<byte>)
    requires |table| < U16
    requires forall i :: 0 <= i < |fs| ==> Find(table, fs[i].name, 0) < |table| && |fs[i].code| < U32
    ensures ReadFuncs(FuncsBytes(fs, table) + rest, table, |fs|)
            == Some((seq(|fs|, i requires 0 <= i < |fs| => Expected(fs[i])), rest))
    decreases |fs|
  {
    hide FuncBytes, ReadFunc, Find;
    if |fs| == 0 {
      assert FuncsBytes(fs, table) + rest == rest;
    } else {
      assert FuncsBytes(fs, table) + rest == FuncBytes(fs[0], table) + (FuncsBytes(fs[1..], table) + rest);
      ReadFuncBack(fs[0], table, FuncsBytes(fs[1..], table) + rest);
      ReadFuncsBack(fs[1..], table, rest);
      assert seq(|fs|, i requires 0 <= i < |fs| => Expected(fs[i]))
          == [Expected(fs[0])] + seq(|fs| - 1, i requires 0 <= i < |fs| - 1 => Expected(fs[1..][i]));
    }
  }

  // A unit whose sizes fit their fields loads as it was: the pool's strings
  // under their ids, and every function with its name, counts and code.
  lemma EncodeThenLoad(pool: seq<Text>, fs: seq<Func>)
    requires Distinct(pool) && |TableOf(pool, fs)| < U16 && |fs| < U16
    requires forall i :: 0 <= i < |TableOf(pool, fs)| ==> |TableOf(pool, fs)[i]| < U16
    requires forall i :: 0 <= i < |fs| ==> |fs[i].code| < U32
    ensures var r := ReadUnit(UnitBytes(pool, fs));
            && r.Some? && pool <= r.value.strings
            && r.value.funcs == seq(|fs|, i requires 0 <= i < |fs| => Expected(fs[i]))
  {
    hide Le16, InternAll, ReadFuncs, ReadTexts, FuncsBytes, TextsBytes, Find;
    var table := TableOf(pool, fs);
    InternKeeps([], pool);
    assert [] + pool == pool;
    forall i | 0 <= i < |fs|
      ensures Find(table, fs[i].name, 0) < |table|
    {
      NameThere(pool, fs, i);
    }
    var e: seq<byte> := FuncsBytes(fs, table);
    var d := TextsBytes(table) + e;
    var c := Le16(|fs|) + d;
    var b := Le16(|table|) + c;
    var a := Le16(VERSION) + b;
    var s := MAGIC + a;
    assert s == UnitBytes(pool, fs) && s[..4] == MAGIC && s[4..] == a;
    Read16Back(VERSION, b);
    Read16Back(|table|, c);
    Read16Back(|fs|, d);
    ReadTextsBack(table, e);
    assert e + [] == e;
    ReadFuncsBack(fs, table, []);
  }

  class Reader {
    const data: seq<byte>
    var pos: nat

    ghost predicate Valid()
      reads this
    {
      pos <= |data|
    }

    ghost function Left(): seq<byte>
      requires Valid()
      reads this
    {
      data[pos..]
    }

    constructor (data: seq<byte>)
      ensures Valid() && Left() == data
    {
      this.data, pos := data, 0;
    }

    method U8() returns (r: Option<byte>)
      requires Valid()
      modifies this
      ensures Valid() && (r.Some? <==> |old(Left())| > 0)
      ensures r.Some? ==> r.value == old(Left())[0] && Left() == old(Left())[1..]
    {
      if pos >= |data| { return None; }
      pos := pos + 1;
      r := Some(data[pos - 1]);
    }

    method U16Le() returns (r: Option<nat>)
      requires Valid()
      modifies this
      ensures Valid() && r == (match Read16(old(Left())) case None => None case Some(x) => Some(x.0))
      ensures r.Some? ==> Left() == Read16(old(Left())).value.1
    {
      var lo := U8();
      if lo.None? { return None; }
      var hi := U8();
      if hi.None? { return None; }
      r := Some(From16([lo.value, hi.value]));
    }

    method U32Le() returns (r: Option<nat>)
      requires Valid()
      modifies this
      ensures Valid() && r == (match Read32(old(Left())) case None => None case Some(x) => Some(x.0))
      ensures r.Some? ==> Left() == Read32(old(Left())).value.1
    {
      var lo := U16Le();
      if lo.None? { return None; }
      var hi := U16Le();
      if hi.None? { return None; }
      r := Some(lo.value + hi.value * U16);
    }

    method Take(n: nat) returns (r: Option<seq<byte>>)
      requires Valid()
      modifies this
      ensures Valid() && r == (match ReadMany(old(Left()), n) case None => None case Some(x) => Some(x.0))
      ensures r.Some? ==> Left() == ReadMany(old(Left()), n).value.1
    {
      if pos + n > |data| { return None; }
      assert Left()[..n] == data[pos..pos + n] && Left()[n..] == data[pos + n..];
      r := Some(data[pos..pos + n]);
      pos := pos + n;
    }

    method TextsOf(n: nat) returns (r: Option<seq<Text>>)
      requires Valid()
      modifies this
      ensures Valid() && r == (match ReadTexts(old(Left()), n) case None => None case Some(x) => Some(x.0))
      ensures r.Some? ==> Left() == ReadTexts(old(Left()), n).value.1
    {
      hide Read16, ReadMany;
      ghost var s := Left();
      var ts: seq<Text> := [];
      var i := 0;
      JoinedNone(ReadTexts(s, n));
      while i < n
        invariant i <= n && Valid()
        invariant ReadTexts(s, n) == Joined(ts, ReadTexts(Left(), n - i))
      {
        ghost var here := Left();
        var len := U16Le();
        if len.None? { return None; }
        var t := Take(len.value);
        if t.None? { return None; }
        assert ReadText(here) == Some((t.value, Left()));
        JoinedNext(ts, t.value, ReadTexts(Left(), n - i - 1));
        ts := ts + [t.value];
        i := i + 1;
      }
      assert ts + [] == ts;
      r := Some(ts);
    }

    // The locals' entries are read past.
    method SkipLocals(n: nat) returns (ok: bool)
      requires Valid()
      modifies this
      ensures Valid() && ok == (|old(Left())| >= n * 3)
      ensures ok ==> Left() == old(Left())[n * 3..]
    {
      ghost var s := Left();
      var i := 0;
      while i < n
        invariant i <= n && Valid() && |s| >= i * 3 && Left() == s[i * 3..]
      {
        var a := U16Le();
        if a.None? { return false; }
        var b := U8();
        if b.None? { return false; }
        assert s[i * 3..][2..][1..] == s[(i + 1) * 3..];
        i := i + 1;
      }
      ok := true;
    }

    method Function(strings: seq<Text>) returns (r: Option<LoadedFunc>)
      requires Valid()
      modifies this
      ensures Valid() && r == (match ReadFunc(old(Left()), strings) case None => None case Some(x) => Some(x.0))
      ensures r.Some? ==> Left() == ReadFunc(old(Left()), strings).value.1
    {
      hide Read16, Read32, ReadMany;
      var name := U16Le();
      if name.None? { return None; }
      ghost var here := Left();
      var args := U8();
      if args.None? { return None; }
      var regs := U8();
      if regs.None? { return None; }
      assert here[1..][1..] == here[2..] && here[1..][0] == here[1];
      var locals := U16Le();
      if locals.None? { return None; }
      var ok := SkipLocals(locals.value);
      if !ok { return None; }
      var n := U32Le();
      if n.None? { return None; }
      var code := Take(n.value);
      if code.None? { return None; }
      r := Some(LoadedFunc(if name.value < |strings| then Some(strings[name.value]) else None,
                           args.value, regs.value, code.value));
    }

    method Functions(strings: seq<Text>, n: nat) returns (r: Option<seq<LoadedFunc>>)
      requires Valid()
      modifies this
      ensures Valid() && r == (match ReadFuncs(old(Left()), strings, n) case None => None case Some(x) => Some(x.0))
    {
      hide ReadFunc;
      ghost var s := Left();
      var fs: seq<LoadedFunc> := [];
      var i := 0;
      JoinedNone(ReadFuncs(s, strings, n));
      while i < n
        invariant i <= n && Valid()
        invariant ReadFuncs(s, strings, n) == Joined(fs, ReadFuncs(Left(), strings, n - i))
      {
        var f := Function(strings);
        if f.None? { return None; }
        JoinedNext(fs, f.value, ReadFuncs(Left(), strings, n - i - 1));
        fs := fs + [f.value];
        i := i + 1;
      }
      assert fs + [] == fs;
      r := Some(fs);
    }

    method Body() returns (r: Option<Loaded>)
      requires Valid()
      modifies this
      ensures Valid() && r == ReadBody(old(Left()))
    {
      hide Read16, ReadTexts, ReadFuncs;
      var nt := U16Le();
      if nt.None? { return None; }
      var nf := U16Le();
      if nf.None? { return None; }
      var ts := TextsOf(nt.value);
      if ts.None? { return None; }
      var fs := Functions(ts.value, nf.value);
      if fs.None? { return None; }
      r := Some(Loaded(ts.value, fs.value));
    }
  }

  // Loads a file: none where the loader gives up.
  method LoadUnit(data: seq<byte>) returns (r: Option<Loaded>)
    ensures r == ReadUnit(data)
  {
    hide Read16, ReadBody;
    var reader := new Reader(data);
    var magic := reader.Take(4);
    if magic.None? || magic.value != MAGIC { return None; }
    var v := reader.U16Le();
    if v.None? || v.value != VERSION { return None; }
    r := reader.Body();
  }

  // What was read before, put in front.
  ghost function Joined<T>(a: seq<T>, r: Read<seq<T>>): Read<seq<T>> {
    if r.None? then None else Some((a + r.value.0, r.value.1))
  }

  lemma JoinedNone<T>(r: Read<seq<T>>)
    ensures Joined([], r) == r
  {
    if r.Some? { assert [] + r.value.0 == r.value.0; }
  }

  lemma JoinedNext<T>(a: seq<T>, x: T, r: Read<seq<T>>)
    ensures Joined(a, Joined([x], r)) == Joined(a + [x], r)
  {
    if r.Some? { assert a + ([x] + r.value.0) == (a + [x]) + r.value.0; }
  }
}
