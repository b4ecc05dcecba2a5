// The instruction format: one opcode as bytes, one instruction's bytes as a
// cached operation for the machine.
module Wire {

  datatype Option<T> = None | Some(value: T)

  type byte = b: nat | b < 256

  type Text = seq<byte>

  // A label object: it has a name, and remembers where to patch it in.
  type LabelObj = nat

  // The register of a map's key, or the id of a string.
  datatype Key = KeyText(id: nat) | KeyReg(r: byte)

  datatype Opcode =
    | RRR(op: byte, dst: byte, src1: byte, src2: byte)
    | RRI(op: byte, dst: byte, src: byte, imm: int)
    | RRS(op: byte, dst: byte, src: byte, id: nat)
    | RI(op: byte, dst: byte, imm: int)
    | RD(op: byte, dst: byte, bits: nat)
    | Regs(op: byte, regs: seq<byte>)
    | Moves(op: byte, base: byte, regs: seq<byte>)
    | NewArray(op: byte, dst: byte, elems: seq<byte>)
    | NewMap(op: byte, dst: byte, pairs: seq<(byte, Key)>)
    | HashAccess(op: byte, dst: byte, src: byte, keys: seq<nat>)
    | Jump(op: byte, to: LabelObj)
    | Branch(op: byte, cond: byte, to: LabelObj)
    | IterStep(op: byte, first: byte, count: byte, to: LabelObj)
    | Mark(to: LabelObj)

  const U16: nat := 0x1_0000
  const U32: nat := 0x1_0000_0000

  const SUB_RRR: nat := 0
  const SUB_RRI: nat := 64
  const SUB_RRS: nat := 128
  const SUB_VAR: nat := 192

  // ---------------- numbers as bytes ----------------

  function Le16(n: int): (s: seq<byte>)
    ensures |s| == 2
  {
    [n % 256, (n / 256) % 256]
  }

  function Le32(n: int): (s: seq<byte>)
    ensures |s| == 4
  {
    [n % 256, (n / 256) % 256, (n / 0x1_0000) % 256, (n / 0x100_0000) % 256]
  }

  function From16(s: seq<byte>): (n: nat)
    requires |s| == 2
    ensures n < U16
  {
    var a: nat, b: nat := s[0], s[1];
    a + b * 256
  }

  function From32(s: seq<byte>): (n: nat)
    requires |s| == 4
    ensures n < U32
  {
    var a: nat, b: nat, c: nat, d: nat := s[0], s[1], s[2], s[3];
    a + b * 256 + c * 0x1_0000 + d * 0x100_0000
  }

  lemma Le16Back(n: int)
    ensures From16(Le16(n)) == n % U16
  {
  }

  lemma Le32Back(n: int)
    ensures From32(Le32(n)) == n % U32
  {
    var a := n / 256;
    var b := a / 256;
    var c := b / 256;
    assert n / 0x1_0000 == b && n / 0x100_0000 == c;
    assert n == U32 * (c / 256) + From32(Le32(n));
  }

  // ---------------- one opcode ----------------

  function Fixed(sub: nat, op: byte, r1: byte, r2: byte, r3: byte, imm: int): (s: seq<byte>)
    requires sub in {SUB_RRR, SUB_RRI, SUB_RRS, SUB_VAR} && op < 64
    ensures |s| == 8
  {
    [sub + op, r1, r2, r3] + Le32(imm)
  }

  function Padded(payload: seq<byte>, words: nat): (s: seq<byte>)
    requires |payload| <= words * 4
    ensures |s| == words * 4
  {
    payload + seq(words * 4 - |payload|, _ => 0)
  }

  function Words(n: nat): nat { (n + 3) / 4 }

  function VarBytes(op: byte, r1: int, r2: int, words: nat, payload: seq<byte>): (s: seq<byte>)
    requires op < 64 && words <= 255 && |payload| <= words * 4
    ensures |s| == 8 + words * 4
  {
    Fixed(SUB_VAR, op, r1 % 256, r2 % 256, words, 0) + Padded(payload, words)
  }

  function PairBytes(p: (byte, Key)): (s: seq<byte>)
    ensures |s| == 4
  {
    match p.1
    case KeyText(id) => [0, p.0] + Le16(id)
    case KeyReg(r) => [1, p.0, r, 0]
  }

  function PairsBytes(ps: seq<(byte, Key)>): (s: seq<byte>)
    ensures |s| == |ps| * 4
  {
    if |ps| == 0 then [] else PairsBytes(ps[..|ps| - 1]) + PairBytes(ps[|ps| - 1])
  }

  function KeysBytes(ks: seq<nat>): (s: seq<byte>)
    ensures |s| == |ks| * 2
  {
    if |ks| == 0 then [] else KeysBytes(ks[..|ks| - 1]) + Le16(ks[|ks| - 1])
  }

  function KeyWords(n: nat): nat { (n + 1) / 2 + 1 }

  predicate IsI32(n: int) { -0x8000_0000 <= n < 0x8000_0000 }

  const LOADINT: byte := 1

  // Opcodes the encoder accepts.
  predicate Encodable(o: Opcode) {
    match o
    case Mark(_) => true
    case RI(op, _, imm) => op < 64 && (IsI32(imm) || op == LOADINT)
    case Regs(op, regs) => op < 64 && Words(|regs|) <= 255
    case Moves(op, _, regs) => op < 64 && Words(|regs|) <= 255
    case NewArray(op, _, elems) => op < 64 && Words(|elems|) <= 255
    case NewMap(op, _, pairs) => op < 64 && |pairs| <= 255
    case HashAccess(op, _, _, keys) => op < 64 && KeyWords(|keys|) <= 255
    case _ => o.op < 64
  }

  // An opcode's bytes; a jump carries the given target.
  function Bytes(o: Opcode, target: int): (s: seq<byte>)
    requires Encodable(o)
    ensures |s| == 0 <==> o.Mark?
    ensures !o.Mark? ==> |s| >= 8
  {
    match o
    case Mark(_) => []
    case RRR(op, d, a, b) => Fixed(SUB_RRR, op, d, a, b, 0)
    case RRI(op, d, a, imm) => Fixed(SUB_RRI, op, d, a, 0, imm)
    case RRS(op, d, a, id) => Fixed(SUB_RRS, op, d, a, 0, id)
    case RI(op, d, imm) =>
      if IsI32(imm) then Fixed(SUB_RRI, op, d, d, 0, imm)
      else VarBytes(op, d, 0, 2, Le32(imm) + Le32(imm / U32))
    case RD(op, d, bits) => VarBytes(op, d, 0, 2, Le32(bits) + Le32(bits / U32))
    case Regs(op, regs) => VarBytes(op, |regs|, 0, Words(|regs|), regs)
    case Moves(op, base, regs) => VarBytes(op, base, |regs|, Words(|regs|), regs)
    case NewArray(op, d, elems) => VarBytes(op, d, |elems|, Words(|elems|), elems)
    case NewMap(op, d, pairs) => VarBytes(op, d, |pairs|, |pairs|, PairsBytes(pairs))
    case HashAccess(op, d, a, keys) => VarBytes(op, d, a, KeyWords(|keys|), KeysBytes(keys))
    case Jump(op, _) => Fixed(SUB_RRI, op, 0, 0, 0, target)
    case Branch(op, c, _) => Fixed(SUB_RRI, op, c, 0, 0, target)
    case IterStep(op, f, n, _) => Fixed(SUB_RRI, op, f, n, 0, target)
  }

  predicate Jumps(o: Opcode) { o.Jump? || o.Branch? || o.IterStep? }

  // ---------------- the machine's cached operations ----------------

  // The third argument: a register or an immediate, a string, or the payload.
  datatype Arg = Num(n: nat) | Str(id: nat) | Payload(data: seq<byte>)

  datatype Cached = Cached(code: byte, a: byte, b: byte, c: Arg) | BadOpcode | Return

  // What the cached operation of an opcode is meant to be.
  ghost function Meant(o: Opcode, target: int): Cached
    requires Encodable(o) && !o.Mark?
  {
    match o
    case RRR(op, d, a, b) => Cached(op, d, a, Num(b))
    case RRI(op, d, a, imm) => Cached(64 + op, d, a, Num(imm % U32))
    case RRS(op, d, a, id) => Cached(128 + op, d, a, Str(id % U32))
    case RI(op, d, imm) =>
      if IsI32(imm) then Cached(64 + op, d, d, Num(imm % U32))
      else Cached(192 + op, d, 0, Payload(Le32(imm) + Le32(imm / U32)))
    case RD(op, d, bits) => Cached(192 + op, d, 0, Payload(Le32(bits) + Le32(bits / U32)))
    case Regs(op, regs) => Cached(192 + op, |regs| % 256, 0, Payload(Padded(regs, Words(|regs|))))
    case Moves(op, base, regs) => Cached(192 + op, base, |regs| % 256, Payload(Padded(regs, Words(|regs|))))
    case NewArray(op, d, elems) => Cached(192 + op, d, |elems| % 256, Payload(Padded(elems, Words(|elems|))))
    case NewMap(op, d, pairs) => Cached(192 + op, d, |pairs|, Payload(PairsBytes(pairs)))
    case HashAccess(op, d, a, keys) => Cached(192 + op, d, a, Payload(Padded(KeysBytes(keys), KeyWords(|keys|))))
    case Jump(op, _) => Cached(64 + op, 0, 0, Num(target % U32))
    case Branch(op, c, _) => Cached(64 + op, c, 0, Num(target % U32))
    case IterStep(op, f, n, _) => Cached(64 + op, f, n, Num(target % U32))
  }

  // How far the instruction at i reaches.
  function Reach(code: seq<byte>, i: nat): (j: nat)
    requires i + 8 <= |code|
    ensures j >= i + 8
  {
    var words: nat := code[i + 3];
    if code[i] >= 192 then i + 8 + words * 4 else i + 8
  }

  // The cached operation of the instruction at i.
  function Decoded(code: seq<byte>, i: nat): Cached
    requires i + 8 <= |code| && Reach(code, i) <= |code|
  {
    var imm := From32(code[i + 4..i + 8]);
    Cached(code[i], code[i + 1], code[i + 2],
           if code[i] < 64 then Num(code[i + 3])
           else if code[i] < 128 then Num(imm)
           else if code[i] < 192 then Str(imm)
           else Payload(code[i + 8..Reach(code, i)]))
  }

  lemma FixedDecodes(code: seq<byte>, i: nat, sub: nat, op: byte, r1: byte, r2: byte, r3: byte, imm: int)
    requires sub in {SUB_RRR, SUB_RRI, SUB_RRS} && op < 64 && i + 8 <= |code|
    requires code[i..i + 8] == Fixed(sub, op, r1, r2, r3, imm)
    ensures Reach(code, i) == i + 8
    ensures Decoded(code, i) ==
            Cached(sub + op, r1, r2, if sub == SUB_RRR then Num(r3) else if sub == SUB_RRI then Num(imm % U32) else Str(imm % U32))
  {
    var s := code[i..i + 8];
    assert s[0] == code[i] && s[1] == code[i + 1] && s[2] == code[i + 2] && s[3] == code[i + 3];
    assert code[i + 4..i + 8] == s[4..8] == Le32(imm);
    Le32Back(imm);
  }

  lemma VarDecodes(code: seq<byte>, i: nat, op: byte, r1: int, r2: int, words: nat, payload: seq<byte>)
    requires op < 64 && words <= 255 && |payload| <= words * 4
    requires i + 8 + words * 4 <= |code| && code[i..i + 8 + words * 4] == VarBytes(op, r1, r2, words, payload)
    ensures Reach(code, i) == i + 8 + words * 4
    ensures Decoded(code, i) == Cached(192 + op, r1 % 256, r2 % 256, Payload(Padded(payload, words)))
  {
    var s := code[i..i + 8 + words * 4];
    assert s[0] == code[i] && s[1] == code[i + 1] && s[2] == code[i + 2] && s[3] == code[i + 3];
    assert code[i + 8..i + 8 + words * 4] == s[8..];
    assert s[8..] == Padded(payload, words);
  }

  // An opcode's bytes, wherever they stand, decode to its cached operation.
  lemma BytesDecode(code: seq<byte>, i: nat, o: Opcode, target: int)
    requires Encodable(o) && !o.Mark? && i + |Bytes(o, target)| <= |code| && code[i..i + |Bytes(o, target)|] == Bytes(o, target)
    ensures i + 8 <= |code| && Reach(code, i) == i + |Bytes(o, target)| && Decoded(code, i) == Meant(o, target)
  {
    if o.RRR? || o.RRI? || o.RRS? || (o.RI? && IsI32(o.imm)) || Jumps(o) {
      ShortDecodes(code, i, o, target);
    } else if o.NewMap? || o.HashAccess? {
      MapDecodes(code, i, o, target);
    } else {
      LongDecodes(code, i, o, target);
    }
  }

  lemma ShortDecodes(code: seq<byte>, i: nat, o: Opcode, target: int)
    requires o.RRR? || o.RRI? || o.RRS? || (o.RI? && IsI32(o.imm)) || Jumps(o)
    requires Encodable(o) && !o.Mark? && i + |Bytes(o, target)| <= |code| && code[i..i + |Bytes(o, target)|] == Bytes(o, target)
    ensures i + 8 <= |code| && Reach(code, i) == i + |Bytes(o, target)| && Decoded(code, i) == Meant(o, target)
  {
    hide Reach, Decoded, Fixed, Padded, VarBytes;
    match o
    case RRR(op, d, a, b) => FixedDecodes(code, i, SUB_RRR, op, d, a, b, 0);
    case RRI(op, d, a, imm) => FixedDecodes(code, i, SUB_RRI, op, d, a, 0, imm);
    case RRS(op, d, a, id) => FixedDecodes(code, i, SUB_RRS, op, d, a, 0, id);
    case RI(op, d, imm) => FixedDecodes(code, i, SUB_RRI, op, d, d, 0, imm);
    case Jump(op, _) => FixedDecodes(code, i, SUB_RRI, op, 0, 0, 0, target);
    case Branch(op, c, _) => FixedDecodes(code, i, SUB_RRI, op, c, 0, 0, target);
    case IterStep(op, f, n, _) => FixedDecodes(code, i, SUB_RRI, op, f, n, 0, target);
  }

  lemma LongDecodes(code: seq<byte>, i: nat, o: Opcode, target: int)
    requires o.RD? || (o.RI? && !IsI32(o.imm)) || o.Regs? || o.Moves? || o.NewArray?
    requires Encodable(o) && i + |Bytes(o, target)| <= |code| && code[i..i + |Bytes(o, target)|] == Bytes(o, target)
    ensures i + 8 <= |code| && Reach(code, i) == i + |Bytes(o, target)| && Decoded(code, i) == Meant(o, target)
  {
    hide Reach, Decoded, Fixed, Padded, VarBytes, Le32;
    match o
    case RI(op, d, imm) =>
      VarDecodes(code, i, op, d, 0, 2, Le32(imm) + Le32(imm / U32));
      PaddedFull(Le32(imm) + Le32(imm / U32), 2);
    case RD(op, d, bits) =>
      VarDecodes(code, i, op, d, 0, 2, Le32(bits) + Le32(bits / U32));
      PaddedFull(Le32(bits) + Le32(bits / U32), 2);
    case Regs(op, regs) => VarDecodes(code, i, op, |regs|, 0, Words(|regs|), regs);
    case Moves(op, base, regs) => VarDecodes(code, i, op, base, |regs|, Words(|regs|), regs);
    case NewArray(op, d, elems) => VarDecodes(code, i, op, d, |elems|, Words(|elems|), elems);
  }

  lemma MapDecodes(code: seq<byte>, i: nat, o: Opcode, target: int)
    requires o.NewMap? || o.HashAccess?
    requires Encodable(o) && i + |Bytes(o, target)| <= |code| && code[i..i + |Bytes(o, target)|] == Bytes(o, target)
    ensures i + 8 <= |code| && Reach(code, i) == i + |Bytes(o, target)| && Decoded(code, i) == Meant(o, target)
  {
    hide Reach, Decoded, Fixed, Padded, VarBytes, PairsBytes, KeysBytes;
    match o
    case NewMap(op, d, pairs) =>
      VarDecodes(code, i, op, d, |pairs|, |pairs|, PairsBytes(pairs));
      PaddedFull(PairsBytes(pairs), |pairs|);
    case HashAccess(op, d, a, keys) => VarDecodes(code, i, op, d, a, KeyWords(|keys|), KeysBytes(keys));
  }

  lemma PaddedFull(payload: seq<byte>, words: nat)
    requires |payload| == words * 4
    ensures Padded(payload, words) == payload
  {
  }
}
