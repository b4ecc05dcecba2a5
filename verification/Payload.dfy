// What the machine's handlers take out of a cached operation, byte by byte as
// each handler reads it, and that it is what the compiler put in.
module Payload {
  import opened Wire
  import opened Opcodes
  import Assembly
  import Encoder
  import Link

  // ---------------- the bytes of an instruction ----------------

  // The opcode stands in the low six bits of the first byte and the form in the
  // two above; a number is written low byte first behind three registers.
  lemma FirstBytes(op: byte, d: byte, a: byte, b: byte, imm: int, to: LabelObj, t: int)
    requires op < 64 && IsI32(imm)
    ensures Bytes(RRR(op, d, a, b), t) == [op, d, a, b, 0, 0, 0, 0]
    ensures Written(Bytes(RRI(op, d, a, imm), t), [64 + op, d, a, 0], imm)
    ensures Written(Bytes(RI(op, d, imm), t), [64 + op, d, d, 0], imm)
    ensures Written(Bytes(Jump(op, to), t), [64 + op, 0, 0, 0], t)
    ensures Written(Bytes(Branch(op, d, to), t), [64 + op, d, 0, 0], t)
    ensures Written(Bytes(IterStep(op, d, a, to), t), [64 + op, d, a, 0], t)
  {
    FixedWritten(64 + op, d, a, imm);
    FixedWritten(64 + op, d, d, imm);
    FixedWritten(64 + op, 0, 0, t);
    FixedWritten(64 + op, d, 0, t);
    FixedWritten(64 + op, d, a, t);
    hide Written;
  }

  // Four bytes, and a number modulo 2^32 in four more, the lowest first.
  ghost predicate Written(s: seq<byte>, head: seq<byte>, n: int) {
    && |s| == 8 && s[..4] == head
    && s[4] as nat + 256 * s[5] as nat + 0x1_0000 * s[6] as nat + 0x100_0000 * s[7] as nat == n % 0x1_0000_0000
  }

  lemma FixedWritten(first: byte, d: byte, a: byte, n: int)
    ensures Written([first, d, a, 0] + Le32(n), [first, d, a, 0], n)
  {
    Le32Back(n);
    hide Le32;
    var s := [first, d, a, 0] + Le32(n);
    assert s[..4] == [first, d, a, 0];
  }

  // ---------------- reading bytes ----------------

  // n bytes from k on as a number, the low byte first.
  function Little(list: seq<byte>, k: nat, n: nat): nat
    requires k + n <= |list|
    decreases n
  {
    if n == 0 then 0 else list[k] as nat + 256 * Little(list, k + 1, n - 1)
  }

  // Four bytes a pair: a type, the register of the value, and the key, which
  // for type 0 is a string id in two bytes and else a register.
  function PairAt(list: seq<byte>, i: nat): (byte, Key)
    requires i * 4 + 4 <= |list|
  {
    (list[i * 4 + 1],
     if list[i * 4] == 0 then KeyText(Little(list, i * 4 + 2, 2)) else KeyReg(list[i * 4 + 2]))
  }

  // Two bytes a key, at least one key, and from the second on up to a zero.
  function KeysFrom(list: seq<byte>, k: nat): (keys: seq<nat>)
    requires k * 2 + 2 <= |list|
    decreases |list| - k
  {
    var rest := if k * 2 + 4 <= |list| && Little(list, k * 2 + 2, 2) != 0 then KeysFrom(list, k + 1) else [];
    [Little(list, k * 2, 2)] + rest
  }

  // ---------------- what a handler does with an operation ----------------

  datatype Reading =
    | Registers(op: nat, a: byte, b: byte, c: byte)
    | Immediate(op: nat, dst: byte, src: byte, imm: int)
    | Text(op: nat, a: byte, b: byte, id: nat)
    | Long(op: nat, dst: byte, bits: nat)
    | Nulls(regs: seq<byte>)
    | Returns(regs: seq<byte>)
    | CopyTo(base: byte, from: seq<byte>)
    | CopyFrom(base: byte, into: seq<byte>)
    | List(dst: byte, elems: seq<byte>)
    | Map(dst: byte, pairs: seq<(byte, Key)>)
    | Lookup(dst: byte, src: byte, keys: seq<nat>)
    | Goto(pc: nat)
    | GotoIf(truthy: bool, cond: byte, pc: nat)
    | Iterate(first: byte, count: byte, pc: nat)
    | Unknown

  // The handlers of the long form; a short payload is no operation of theirs.
  function ReadLong(op: nat, a: byte, b: byte, list: seq<byte>): Reading {
    var x: nat, y: nat := a, b;
    if op in {Number(LOADINT), Number(LOADDOUBLE)} && 8 <= |list| then Long(op, a, Little(list, 0, 8))
    else if op == Number(LOADNULL) && x <= |list| then Nulls(list[..x])
    else if op == Number(RETURN) && x <= |list| then Returns(list[..x])
    else if op == Number(MOVETO) && y <= |list| then CopyTo(a, list[..y])
    else if op == Number(MOVEFROM) && y <= |list| then CopyFrom(a, list[..y])
    else if op == Number(NEWARRAY) && y <= |list| then List(a, list[..y])
    else if op == Number(NEWMAP) && y * 4 <= |list| then Map(a, seq(y, i requires 0 <= i < y => PairAt(list, i)))
    else if op == Number(HASHACCESS) && 2 <= |list| then Lookup(a, b, KeysFrom(list, 0))
    else Unknown
  }

  // The first byte picks the handler: its two high bits are the form and the
  // others the opcode.
  function Read(m: Cached): Reading {
    match m
    case BadOpcode => Unknown
    case Return => Returns([])
    case Cached(code, a, b, c) =>
      var op := code % 64;
      match c
      case Num(n) =>
        if code < 64 then (if n < 256 then Registers(op, a, b, n) else Unknown)
        else if op == Number(JMP) then Goto(n)
        else if op == Number(JMPF) then GotoIf(false, a, n)
        else if op == Number(JMPT) then GotoIf(true, a, n)
        else if op == Number(ITERSTEP) then Iterate(a, b, n)
        else Immediate(op, a, b, Link.Signed32(n))
      case Str(id) => Text(op, a, b, id)
      case Payload(list) => ReadLong(op, a, b, list)
  }

  // ---------------- what the compiler means ----------------

  // Each form is used for the opcodes that have a handler for it.
  predicate Formed(o: Opcode) {
    match o
    case RRR(_, _, _, _) => true
    case RRI(op, _, _, imm) => IsI32(imm) && op !in {Number(JMP), Number(JMPF), Number(JMPT), Number(ITERSTEP)}
    case RRS(_, _, _, _) => true
    case RI(op, _, imm) => op !in {Number(JMP), Number(JMPF), Number(JMPT), Number(ITERSTEP)}
    case RD(op, _, _) => op == Number(LOADDOUBLE)
    case Regs(op, regs) => op in {Number(LOADNULL), Number(RETURN)} && |regs| < 256
    case Moves(op, _, regs) => op in {Number(MOVETO), Number(MOVEFROM)} && |regs| < 256
    case NewArray(op, _, elems) => op == Number(NEWARRAY) && |elems| < 256
    case NewMap(op, _, _) => op == Number(NEWMAP)
    case HashAccess(op, _, _, _) => op == Number(HASHACCESS)
    case Jump(op, _) => op == Number(JMP)
    case Branch(op, _, _) => op in {Number(JMPF), Number(JMPT)}
    case IterStep(op, _, _, _) => op == Number(ITERSTEP)
    case Mark(_) => true
  }

  // A string id keeps its low 16 bits.
  function Kept(p: (byte, Key)): (byte, Key) {
    (p.0, match p.1 case KeyText(id) => KeyText(id % U16) case KeyReg(r) => KeyReg(r))
  }

  function KeptPairs(ps: seq<(byte, Key)>): seq<(byte, Key)> {
    seq(|ps|, i requires 0 <= i < |ps| => Kept(ps[i]))
  }

  // A path of keys is read whole when it is not empty and no key behind the
  // first is a multiple of 65536.
  predicate Readable(keys: seq<nat>) {
    |keys| > 0 && forall i :: 1 <= i < |keys| ==> keys[i] % U16 != 0
  }

  function KeptKeys(keys: seq<nat>): seq<nat> {
    seq(|keys|, i requires 0 <= i < |keys| => keys[i] % U16)
  }

  function Intended(o: Opcode, target: int): Reading
    requires Formed(o) && !o.Mark?
  {
    match o
    case RRR(op, d, a, b) => Registers(op, d, a, b)
    case RRI(op, d, a, imm) => Immediate(op, d, a, imm)
    case RRS(op, d, a, id) => Text(op, d, a, id % U32)
    case RI(op, d, imm) => if IsI32(imm) then Immediate(op, d, d, imm) else Long(op, d, imm % 0x1_0000_0000_0000_0000)
    case RD(op, d, bits) => Long(op, d, bits % 0x1_0000_0000_0000_0000)
    case Regs(op, regs) => if op == Number(LOADNULL) then Nulls(regs) else Returns(regs)
    case Moves(op, base, regs) => if op == Number(MOVETO) then CopyTo(base, regs) else CopyFrom(base, regs)
    case NewArray(_, d, elems) => List(d, elems)
    case NewMap(_, d, pairs) => Map(d, KeptPairs(pairs))
    case HashAccess(_, d, a, keys) => Lookup(d, a, KeptKeys(keys))
    case Jump(_, _) => Goto(target % U32)
    case Branch(op, c, _) => GotoIf(op == Number(JMPT), c, target % U32)
    case IterStep(_, f, n, _) => Iterate(f, n, target % U32)
  }

  // ---------------- the payloads ----------------

  lemma Little2(list: seq<byte>, k: nat)
    requires k + 2 <= |list|
    ensures Little(list, k, 2) == list[k] as nat + 256 * list[k + 1] as nat
  {
    assert Little(list, k + 1, 1) == list[k + 1] as nat + 256 * Little(list, k + 2, 0);
  }

  lemma Little4(list: seq<byte>, k: nat)
    requires k + 4 <= |list|
    ensures Little(list, k, 4) == From32(list[k..k + 4])
  {
    Little2(list, k + 2);
    assert Little(list, k + 1, 3) == list[k + 1] as nat + 256 * Little(list, k + 2, 2);
  }

  lemma Little8(list: seq<byte>, k: nat)
    requires k + 8 <= |list|
    ensures Little(list, k, 8) == From32(list[k..k + 4]) + U32 * From32(list[k + 4..k + 8])
  {
    Little4(list, k + 4);
    assert Little(list, k + 3, 5) == list[k + 3] as nat + 256 * Little(list, k + 4, 4);
    assert Little(list, k + 2, 6) == list[k + 2] as nat + 256 * Little(list, k + 3, 5);
    assert Little(list, k + 1, 7) == list[k + 1] as nat + 256 * Little(list, k + 2, 6);
  }

  lemma LongBack(n: int)
    ensures var list := Le32(n) + Le32(n / U32); |list| == 8 && Little(list, 0, 8) == n % 0x1_0000_0000_0000_0000
  {
    var list := Le32(n) + Le32(n / U32);
    Little8(list, 0);
    assert list[0..4] == Le32(n) && list[4..8] == Le32(n / U32);
    Le32Back(n);
    Le32Back(n / U32);
    hide Little, Le32, From32;
    HalvesBack(n);
  }

  lemma HalvesBack(n: int)
    ensures n % U32 + U32 * ((n / U32) % U32) == n % 0x1_0000_0000_0000_0000
  {
    var q := n / U32;
    var z := n % U32 + U32 * (q % U32);
    assert n == (q / U32) * 0x1_0000_0000_0000_0000 + z && 0 <= z < 0x1_0000_0000_0000_0000;
  }

  // Reading the payload of a map literal gives its pairs back.
  lemma {:induction false} PairsBack(ps: seq<(byte, Key)>, i: nat)
    requires i < |ps|
    ensures PairAt(PairsBytes(ps), i) == Kept(ps[i])
    decreases |ps|
  {
    var n := |ps| - 1;
    var init, last, list := PairsBytes(ps[..n]), PairBytes(ps[n]), PairsBytes(ps);
    assert list == init + last;
    hide PairAt, PairBytes, PairsBytes, Kept;
    if i < n {
      PairsBack(ps[..n], i);
      assert ps[..n][i] == ps[i];
      assert list[i * 4..i * 4 + 4] == init[i * 4..i * 4 + 4];
      SamePair(init, list, i, i);
    } else {
      OnePair(ps[n]);
      assert list[n * 4..n * 4 + 4] == last[0..4];
      SamePair(last, list, 0, n);
    }
  }

  // Four equal bytes are read as one pair.
  lemma SamePair(s: seq<byte>, t: seq<byte>, i: nat, j: nat)
    requires i * 4 + 4 <= |s| && j * 4 + 4 <= |t| && s[i * 4..i * 4 + 4] == t[j * 4..j * 4 + 4]
    ensures PairAt(s, i) == PairAt(t, j)
  {
    var a, b := s[i * 4..i * 4 + 4], t[j * 4..j * 4 + 4];
    assert forall k :: 0 <= k < 4 ==> s[i * 4 + k] == a[k] == b[k] == t[j * 4 + k];
    assert s[i * 4 + 0] == t[j * 4 + 0] && s[i * 4 + 1] == t[j * 4 + 1];
    assert s[i * 4 + 2] == t[j * 4 + 2] && s[i * 4 + 3] == t[j * 4 + 3];
    Little2(s, i * 4 + 2);
    Little2(t, j * 4 + 2);
  }

  lemma OnePair(p: (byte, Key))
    ensures PairAt(PairBytes(p), 0) == Kept(p)
  {
    Little2(PairBytes(p), 2);
    if p.1.KeyText? { Le16Back(p.1.id); }
  }

  lemma {:induction false} KeyBack(ks: seq<nat>, i: nat)
    requires i < |ks|
    ensures Little(KeysBytes(ks), i * 2, 2) == ks[i] % U16
    decreases |ks|
  {
    var n := |ks| - 1;
    var init, last, list := KeysBytes(ks[..n]), Le16(ks[n]), KeysBytes(ks);
    assert list == init + last;
    Little2(list, i * 2);
    if i < n {
      KeyBack(ks[..n], i);
      Little2(init, i * 2);
    } else {
      assert list[i * 2] == last[0] && list[i * 2 + 1] == last[1];
      Le16Back(ks[n]);
    }
  }

  ghost function KeyList(ks: seq<nat>): (list: seq<byte>)
    requires KeyWords(|ks|) <= 255
    ensures |ks| * 2 + 2 <= |list|
  {
    Padded(KeysBytes(ks), KeyWords(|ks|))
  }

  lemma KeyListBack(ks: seq<nat>, i: nat)
    requires KeyWords(|ks|) <= 255 && i <= |ks|
    ensures Little(KeyList(ks), i * 2, 2) == if i < |ks| then ks[i] % U16 else 0
  {
    var list := KeyList(ks);
    Little2(list, i * 2);
    if i < |ks| {
      KeyBack(ks, i);
      Little2(KeysBytes(ks), i * 2);
    }
  }

  lemma {:induction false} KeysBack(ks: seq<nat>, k: nat)
    requires KeyWords(|ks|) <= 255 && k < |ks| && forall i :: k < i < |ks| ==> ks[i] % U16 != 0
    ensures KeysFrom(KeyList(ks), k) == KeptKeys(ks[k..])
    decreases |ks| - k
  {
    hide Little, KeyList;
    KeyListBack(ks, k);
    KeyListBack(ks, k + 1);
    if k + 1 < |ks| { KeysBack(ks, k + 1); }
    assert KeptKeys(ks[k..]) == [ks[k] % U16] + KeptKeys(ks[k + 1..]);
  }

  // A key that is a multiple of 65536 ends the path in front of it.
  lemma {:induction false} KeysStop(ks: seq<nat>, k: nat, i: nat)
    requires KeyWords(|ks|) <= 255 && k < i < |ks| && ks[i] % U16 == 0
    ensures |KeysFrom(KeyList(ks), k)| <= i - k
    decreases i - k
  {
    hide Little, KeyList;
    KeyListBack(ks, k + 1);
    if k + 1 < i { KeysStop(ks, k + 1, i); }
  }

  // The handler's walk over the keys gives them back exactly when it can.
  lemma KeysExactly(ks: seq<nat>)
    requires KeyWords(|ks|) <= 255
    ensures KeysFrom(KeyList(ks), 0) == KeptKeys(ks) <==> Readable(ks)
  {
    hide Little, KeyList;
    if Readable(ks) {
      KeysBack(ks, 0);
      assert ks[0..] == ks;
    } else if |ks| > 0 {
      var i :| 1 <= i < |ks| && ks[i] % U16 == 0;
      KeysStop(ks, 0, i);
    }
  }

  // The path 5.0.7 is read as far as 5.
  lemma PathCut()
    ensures !Readable([5, 0, 7]) && KeysFrom(KeyList([5, 0, 7]), 0) == [5]
  {
    hide Little, KeyList;
    var ks := [5, 0, 7];
    assert ks[1] % U16 == 0;
    KeysStop(ks, 0, 1);
    KeyListBack(ks, 0);
  }

  // ---------------- every operation ----------------

  // A handler takes out of a cached operation what the instruction said.
  lemma ReadBack(o: Opcode, target: int)
    requires Encodable(o) && Formed(o) && !o.Mark?
    ensures Read(Meant(o, target)) == Intended(o, target) <==> (o.HashAccess? ==> Readable(o.keys))
  {
    hide Number, Formed, Meant, Intended, Read, KeysFrom;
    if o.NewMap? || o.HashAccess? {
      ReadMaps(o, target);
    } else if o.RD? || (o.RI? && !IsI32(o.imm)) || o.Regs? || o.Moves? || o.NewArray? {
      ReadLists(o, target);
    } else {
      ReadShort(o, target);
    }
  }

  lemma Places()
    ensures Number(LOADINT) == 1 && Number(LOADDOUBLE) == 2 && Number(LOADNULL) == 4 && Number(HASHACCESS) == 8
    ensures Number(NEWMAP) == 14 && Number(NEWARRAY) == 15 && Number(RETURN) == 38
    ensures Number(JMP) == 39 && Number(JMPF) == 40 && Number(JMPT) == 41
    ensures Number(ITERSTEP) == 45 && Number(MOVETO) == 46 && Number(MOVEFROM) == 47
  {
    hide Number;
    Loads();
    Makers();
    Leavers();
  }

  lemma Loads()
    ensures Number(LOADINT) == 1 && Number(LOADDOUBLE) == 2 && Number(LOADNULL) == 4 && Number(HASHACCESS) == 8
  {
  }

  lemma Makers()
    ensures Number(NEWMAP) == 14 && Number(NEWARRAY) == 15 && Number(MOVETO) == 46 && Number(MOVEFROM) == 47
  {
  }

  lemma Leavers()
    ensures Number(RETURN) == 38 && Number(JMP) == 39 && Number(JMPF) == 40 && Number(JMPT) == 41 && Number(ITERSTEP) == 45
  {
  }

  lemma ReadShort(o: Opcode, target: int)
    requires o.RRR? || o.RRI? || o.RRS? || (o.RI? && IsI32(o.imm)) || Jumps(o)
    requires Encodable(o) && Formed(o)
    ensures Read(Meant(o, target)) == Intended(o, target)
  {
    hide Number, ReadLong;
    Places();
    if o.RRI? || o.RI? { Narrowed(o.imm); }
  }

  lemma ReadLists(o: Opcode, target: int)
    requires o.RD? || (o.RI? && !IsI32(o.imm)) || o.Regs? || o.Moves? || o.NewArray?
    requires Encodable(o) && Formed(o)
    ensures Read(Meant(o, target)) == Intended(o, target)
  {
    hide Number, Le32, Little, KeysFrom, Meant, Intended, Formed, Read;
    if o.RD? || o.RI? { ReadLongs(o, target); } else { ReadRegs(o, target); }
  }

  lemma ReadLongs(o: Opcode, target: int)
    requires o.RD? || (o.RI? && !IsI32(o.imm))
    requires Encodable(o) && Formed(o)
    ensures Read(Meant(o, target)) == Intended(o, target)
  {
    hide Number, Le32, Little, KeysFrom;
    Places();
    LongBack(if o.RD? then o.bits else o.imm);
  }

  lemma ReadRegs(o: Opcode, target: int)
    requires o.Regs? || o.Moves? || o.NewArray?
    requires Encodable(o) && Formed(o)
    ensures Read(Meant(o, target)) == Intended(o, target)
  {
    hide Number, Little, KeysFrom;
    Places();
  }

  lemma ReadMaps(o: Opcode, target: int)
    requires o.NewMap? || o.HashAccess?
    requires Encodable(o) && Formed(o)
    ensures Read(Meant(o, target)) == Intended(o, target) <==> (o.HashAccess? ==> Readable(o.keys))
  {
    hide Number, Little, KeysFrom, KeptKeys, KeptPairs, PairAt, PairsBytes;
    Places();
    if o.NewMap? {
      MapBack(o.pairs);
    } else {
      KeysExactly(o.keys);
    }
  }

  lemma Narrowed(imm: int)
    requires IsI32(imm)
    ensures Link.Signed32(imm % U32) == imm
  {
  }

  lemma MapBack(pairs: seq<(byte, Key)>)
    ensures |PairsBytes(pairs)| == |pairs| * 4
    ensures seq(|pairs|, i requires 0 <= i < |pairs| => PairAt(PairsBytes(pairs), i)) == KeptPairs(pairs)
  {
    forall i: nat | i < |pairs|
      ensures PairAt(PairsBytes(pairs), i) == Kept(pairs[i])
    {
      PairsBack(pairs, i);
    }
  }

  // From the instructions of a function through its bytes to the handlers: the
  // j-th instruction's operation does what the instruction says.
  lemma EncodeThenRead(ops: seq<Opcode>, names: seq<string>, known: set<byte>, j: nat)
    requires Assembly.Named(ops, names) && Assembly.AllEncodable(ops)
    requires forall i, t :: 0 <= i < |ops| && !ops[i].Mark? ==> Bytes(ops[i], t)[0] in known
    requires j < |ops| && !ops[j].Mark? && Formed(ops[j])
    ensures var targets := Assembly.Targets(ops, names, |ops|);
            var code := Assembly.Assemble(ops, targets, |ops|);
            && Assembly.Framed(code, 0)
            && Assembly.Index(ops, j) < |Assembly.DecodeFrom(code, known, 0)|
            && (Read(Assembly.DecodeFrom(code, known, 0)[Assembly.Index(ops, j)]) == Intended(ops[j], targets[j])
                <==> (ops[j].HashAccess? ==> Readable(ops[j].keys)))
  {
    hide Read, Intended, Formed, Encodable, Bytes, Meant, Readable, Assembly.Named, Assembly.Targets;
    Encoder.EncodeThenCache(ops, names, known, j);
    ReadBack(ops[j], Assembly.Targets(ops, names, |ops|)[j]);
  }

  // ---------------- copying registers ----------------

  // One after the other: a later copy sees what an earlier one wrote.
  ghost function MovedTo<V>(s: seq<V>, base: nat, list: seq<byte>): (t: seq<V>)
    requires |s| == 256 && base + |list| <= 256
    ensures |t| == 256
  {
    if |list| == 0 then s
    else
      var n := |list| - 1;
      var t := MovedTo(s, base, list[..n]);
      t[base + n := t[list[n]]]
  }

  ghost function MovedFrom<V>(s: seq<V>, base: nat, list: seq<byte>): (t: seq<V>)
    requires |s| == 256 && base + |list| <= 256
    ensures |t| == 256
  {
    if |list| == 0 then s
    else
      var n := |list| - 1;
      var t := MovedFrom(s, base, list[..n]);
      t[list[n] := t[base + n]]
  }

  method MoveTo<V>(stack: array<V>, base: byte, list: seq<byte>)
    requires stack.Length == 256 && base as nat + |list| <= 256
    modifies stack
    ensures stack[..] == MovedTo(old(stack[..]), base, list)
  {
    var to, i := base as nat, 0;
    while i < |list|
      invariant 0 <= i <= |list| && to == base as nat + i
      invariant stack[..] == MovedTo(old(stack[..]), base, list[..i])
    {
      assert list[..i + 1][..i] == list[..i];
      var src := list[i];
      if src != to { stack[to] := stack[src]; }
      to, i := to + 1, i + 1;
    }
    assert list[..i] == list;
  }

  method MoveFrom<V>(stack: array<V>, base: byte, list: seq<byte>)
    requires stack.Length == 256 && base as nat + |list| <= 256
    modifies stack
    ensures stack[..] == MovedFrom(old(stack[..]), base, list)
  {
    var from, i := base as nat, 0;
    while i < |list|
      invariant 0 <= i <= |list| && from == base as nat + i
      invariant stack[..] == MovedFrom(old(stack[..]), base, list[..i])
    {
      assert list[..i + 1][..i] == list[..i];
      var dst := list[i];
      if dst != from { stack[dst] := stack[from]; }
      from, i := from + 1, i + 1;
    }
    assert list[..i] == list;
  }

  // A register gets the value its source had before, unless the source is a
  // register of the window that was written before it was read.
  lemma {:induction false} MovedToAt<V>(s: seq<V>, base: nat, list: seq<byte>, r: nat)
    requires |s| == 256 && base + |list| <= 256 && r < 256
    requires forall j :: 0 <= j < |list| ==> !(base <= list[j] as nat < base + j)
    ensures MovedTo(s, base, list)[r] == if base <= r < base + |list| then s[list[r - base]] else s[r]
    decreases |list|
  {
    if |list| > 0 {
      var n := |list| - 1;
      MovedToAt(s, base, list[..n], r);
      MovedToAt(s, base, list[..n], list[n]);
      assert !(base <= list[n] as nat < base + n);
    }
  }

  // The other way: with the targets apart, and none of them in the window
  // behind its own place, every target gets the value of its place.
  lemma {:induction false} MovedFromAt<V>(s: seq<V>, base: nat, list: seq<byte>, r: nat, k: nat)
    requires |s| == 256 && base + |list| <= 256 && r < 256
    requires forall i, j :: 0 <= i < j < |list| ==> list[i] != list[j]
    requires forall i :: 0 <= i < |list| ==> !(base + i < list[i] as nat < base + |list|)
    ensures (forall i :: 0 <= i < |list| ==> list[i] as nat != r) ==> MovedFrom(s, base, list)[r] == s[r]
    ensures k < |list| ==> MovedFrom(s, base, list)[list[k]] == s[base + k]
    decreases |list|
  {
    if |list| > 0 {
      var n := |list| - 1;
      MovedFromAt(s, base, list[..n], r, k);
      MovedFromAt(s, base, list[..n], base + n, k);
      assert forall i :: 0 <= i < n ==> list[..n][i] == list[i] && list[i] as nat != base + n;
    }
  }
}
