// A function's opcodes as one byte sequence: label positions, jump targets,
// backpatching and decoding, as functions.
module Assembly {
  import opened Wire

  ghost predicate AllEncodable(ops: seq<Opcode>) {
    forall i :: 0 <= i < |ops| ==> Encodable(ops[i])
  }

  // How many instructions stand before position k; labels are none.
  ghost function Index(ops: seq<Opcode>, k: nat): nat
    requires k <= |ops|
  {
    if k == 0 then 0 else Index(ops, k - 1) + if ops[k - 1].Mark? then 0 else 1
  }

  // The instruction behind the last mark of the name among the first k opcodes.
  ghost function LabelAt(ops: seq<Opcode>, names: seq<string>, name: string, k: nat): Option<nat>
    requires k <= |ops|
  {
    if k == 0 then None
    else if ops[k - 1].Mark? && ops[k - 1].to < |names| && names[ops[k - 1].to] == name then Some(Index(ops, k - 1))
    else LabelAt(ops, names, name, k - 1)
  }

  // The bytes of the first k opcodes with the given jump targets.
  ghost function Assemble(ops: seq<Opcode>, targets: seq<int>, k: nat): seq<byte>
    requires AllEncodable(ops) && |targets| == |ops| && k <= |ops|
  {
    if k == 0 then [] else Assemble(ops, targets, k - 1) + Bytes(ops[k - 1], targets[k - 1])
  }

  ghost function Size(o: Opcode): nat
    requires Encodable(o)
  {
    |Bytes(o, 0)|
  }

  ghost function Offset(ops: seq<Opcode>, k: nat): nat
    requires AllEncodable(ops) && k <= |ops|
  {
    if k == 0 then 0 else Offset(ops, k - 1) + Size(ops[k - 1])
  }

  lemma SizeSame(o: Opcode, t: int)
    requires Encodable(o)
    ensures |Bytes(o, t)| == Size(o)
  {
  }

  lemma {:induction false} AssembleSize(ops: seq<Opcode>, targets: seq<int>, k: nat)
    requires AllEncodable(ops) && |targets| == |ops| && k <= |ops|
    ensures |Assemble(ops, targets, k)| == Offset(ops, k)
    decreases k
  {
    if k > 0 {
      AssembleSize(ops, targets, k - 1);
      SizeSame(ops[k - 1], targets[k - 1]);
    }
  }

  // ---------------- backpatching ----------------

  function Patched(s: seq<byte>, at: nat, v: int): (r: seq<byte>)
    requires at + 4 <= |s|
    ensures |r| == |s|
  {
    s[..at] + Le32(v) + s[at + 4..]
  }

  // Patching the four bytes behind a jump's first four changes its target.
  lemma {:induction false} PatchJump(ops: seq<Opcode>, targets: seq<int>, k: nat, j: nat, t: int)
    requires AllEncodable(ops) && |targets| == |ops| && j < k <= |ops| && Jumps(ops[j])
    ensures Offset(ops, j) + 8 <= |Assemble(ops, targets, k)|
    ensures Patched(Assemble(ops, targets, k), Offset(ops, j) + 4, t) == Assemble(ops, targets[j := t], k)
    decreases k
  {
    hide Bytes, Patched, Encodable;
    var s, last := Assemble(ops, targets, k - 1), Bytes(ops[k - 1], targets[k - 1]);
    var at := Offset(ops, j) + 4;
    AssembleSize(ops, targets, k - 1);
    if j < k - 1 {
      PatchJump(ops, targets, k - 1, j, t);
      PatchLeft(s, last, at, t);
    } else {
      PatchFixed(ops[j], targets[j], t);
      AssemblePrefix(ops, targets, j, j, t);
      PatchRight(s, last, t);
    }
  }

  lemma PatchLeft(s: seq<byte>, last: seq<byte>, at: nat, t: int)
    requires at + 4 <= |s|
    ensures Patched(s + last, at, t) == Patched(s, at, t) + last
  {
  }

  lemma PatchRight(s: seq<byte>, last: seq<byte>, t: int)
    requires 8 <= |last|
    ensures Patched(s + last, |s| + 4, t) == s + Patched(last, 4, t)
  {
  }

  lemma PatchFixed(o: Opcode, a: int, t: int)
    requires Encodable(o) && Jumps(o)
    ensures |Bytes(o, a)| == 8 && Patched(Bytes(o, a), 4, t) == Bytes(o, t)
  {
  }

  lemma {:induction false} AssemblePrefix(ops: seq<Opcode>, targets: seq<int>, k: nat, j: nat, t: int)
    requires AllEncodable(ops) && |targets| == |ops| && k <= j < |ops|
    ensures Assemble(ops, targets[j := t], k) == Assemble(ops, targets, k)
    decreases k
  {
    hide Bytes, Encodable;
    if k > 0 { AssemblePrefix(ops, targets, k - 1, j, t); }
  }

  // ---------------- which jump a label object patches ----------------

  // The last of the first k opcodes that jumps with the object.
  ghost function LastUse(ops: seq<Opcode>, obj: LabelObj, k: nat): Option<nat>
    requires k <= |ops|
    ensures match LastUse(ops, obj, k) case None => true case Some(j) => j < k && Jumps(ops[j]) && ops[j].to == obj
  {
    if k == 0 then None
    else if Jumps(ops[k - 1]) && ops[k - 1].to == obj then Some(k - 1)
    else LastUse(ops, obj, k - 1)
  }

  lemma {:induction false} LastUseAfter(ops: seq<Opcode>, obj: LabelObj, k: nat, i: nat)
    requires i < k <= |ops| && Jumps(ops[i]) && ops[i].to == obj
    ensures LastUse(ops, obj, k).Some? && i <= LastUse(ops, obj, k).value
    decreases k
  {
    if i < k - 1 { LastUseAfter(ops, obj, k - 1, i); }
  }

  // The targets once the uses among the first i opcodes asked for patching.
  ghost function Targets(ops: seq<Opcode>, names: seq<string>, i: nat): (ts: seq<int>)
    requires i <= |ops| && Named(ops, names)
    ensures |ts| == |ops|
  {
    seq(|ops|, j requires 0 <= j < |ops| => TargetOf(ops, names, i, j))
  }

  ghost predicate Named(ops: seq<Opcode>, names: seq<string>) {
    forall i :: 0 <= i < |ops| && (Jumps(ops[i]) || ops[i].Mark?) ==> ops[i].to < |names|
  }

  ghost function Known(ops: seq<Opcode>, names: seq<string>, obj: LabelObj): int
    requires obj < |names|
  {
    match LabelAt(ops, names, names[obj], |ops|)
    case None => 0
    case Some(n) => n
  }

  ghost function TargetOf(ops: seq<Opcode>, names: seq<string>, i: nat, j: nat): int
    requires i <= |ops| && j < |ops| && Named(ops, names)
  {
    if Jumps(ops[j]) && LastUse(ops, ops[j].to, |ops|) == Some(j) && LastUse(ops, ops[j].to, i).Some?
    then Known(ops, names, ops[j].to) else 0
  }

  // ---------------- decoding ----------------

  // Whole instructions from i to the end.
  ghost predicate Framed(code: seq<byte>, i: nat)
    decreases |code| - i
  {
    i <= |code| && (i == |code| || (i + 8 <= |code| && Reach(code, i) <= |code| && Framed(code, Reach(code, i))))
  }

  // The cached operations from i on, a return behind them; an opcode the
  // machine does not know ends the list.
  ghost function DecodeFrom(code: seq<byte>, known: set<byte>, i: nat): seq<Cached>
    requires Framed(code, i)
    decreases |code| - i
  {
    if i == |code| then [Return]
    else if code[i] !in known then [BadOpcode, Return]
    else [Decoded(code, i)] + DecodeFrom(code, known, Reach(code, i))
  }

  // The cached operations of opcodes k and following.
  ghost function MeantFrom(ops: seq<Opcode>, targets: seq<int>, k: nat): seq<Cached>
    requires AllEncodable(ops) && |targets| == |ops| && k <= |ops|
    decreases |ops| - k
  {
    if k == |ops| then [Return]
    else if ops[k].Mark? then MeantFrom(ops, targets, k + 1)
    else [Wire.Meant(ops[k], targets[k])] + MeantFrom(ops, targets, k + 1)
  }

  // The part of the assembled bytes that opcode k takes.
  lemma {:induction false} AssembledAt(ops: seq<Opcode>, targets: seq<int>, k: nat, n: nat)
    requires AllEncodable(ops) && |targets| == |ops| && k < n <= |ops|
    ensures var code := Assemble(ops, targets, n);
            && Offset(ops, k + 1) <= |code| && Offset(ops, k) <= Offset(ops, k + 1)
            && code[Offset(ops, k)..Offset(ops, k + 1)] == Bytes(ops[k], targets[k])
    decreases n
  {
    hide Bytes, Encodable;
    AssembleSize(ops, targets, n - 1);
    SizeSame(ops[n - 1], targets[n - 1]);
    var s, last := Assemble(ops, targets, n - 1), Bytes(ops[n - 1], targets[n - 1]);
    if k < n - 1 {
      AssembledAt(ops, targets, k, n - 1);
      SliceLeft(s, last, Offset(ops, k), Offset(ops, k + 1));
    } else {
      SliceRight(s, last);
    }
  }

  lemma SliceLeft(s: seq<byte>, last: seq<byte>, a: nat, b: nat)
    requires a <= b <= |s|
    ensures (s + last)[a..b] == s[a..b]
  {
  }

  lemma SliceRight(s: seq<byte>, last: seq<byte>)
    ensures (s + last)[|s|..|s| + |last|] == last
  {
  }

  // Decoding the assembled bytes gives every opcode's cached operation, in order.
  lemma {:induction false} AssembleDecodes(ops: seq<Opcode>, targets: seq<int>, known: set<byte>, k: nat)
    requires AllEncodable(ops) && |targets| == |ops| && k <= |ops|
    requires forall i :: 0 <= i < |ops| && !ops[i].Mark? ==> Bytes(ops[i], targets[i])[0] in known
    ensures var code := Assemble(ops, targets, |ops|);
            && Framed(code, Offset(ops, k))
            && DecodeFrom(code, known, Offset(ops, k)) == MeantFrom(ops, targets, k)
    decreases |ops| - k
  {
    hide Bytes, Encodable, Reach, Decoded, Wire.Meant, Assemble;
    var code := Assemble(ops, targets, |ops|);
    AssembleSize(ops, targets, |ops|);
    if k < |ops| {
      AssembledAt(ops, targets, k, |ops|);
      AssembleDecodes(ops, targets, known, k + 1);
      SizeSame(ops[k], targets[k]);
      if !ops[k].Mark? {
        BytesDecode(code, Offset(ops, k), ops[k], targets[k]);
        assert code[Offset(ops, k)] == code[Offset(ops, k)..Offset(ops, k + 1)][0];
      }
    }
  }

  // The i-th instruction is the i-th cached operation.
  lemma {:induction false} MeantAt(ops: seq<Opcode>, targets: seq<int>, k: nat, j: nat)
    requires AllEncodable(ops) && |targets| == |ops| && k <= j < |ops| && !ops[j].Mark?
    ensures Index(ops, j) >= Index(ops, k) && Index(ops, j) - Index(ops, k) < |MeantFrom(ops, targets, k)|
    ensures MeantFrom(ops, targets, k)[Index(ops, j) - Index(ops, k)] == Wire.Meant(ops[j], targets[j])
    decreases j - k
  {
    if k < j { MeantAt(ops, targets, k + 1, j); }
  }
}
