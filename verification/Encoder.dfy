// Encoding a function: one pass that emits and remembers, one that patches;
// and the machine's pass over the bytes that caches the operations.
module Encoder {
  import opened Wire
  import opened Assembly

  ghost function Zeros(n: nat): seq<int> { seq(n, _ => 0) }

  class FunctionEncoder {
    const ops: seq<Opcode>
    const names: seq<string>        // the names of the label objects
    var out: seq<byte>
    var labels: map<string, nat>    // where each label stands
    var patches: map<nat, nat>      // what each label object has to patch
    var ic: nat

    ghost predicate Sane() { Named(ops, names) && AllEncodable(ops) }

    ghost predicate LabelsTo(k: nat)
      requires k <= |ops|
      reads this
    {
      LabelsOf(labels, ops, names, k)
    }

    ghost predicate PatchesTo(k: nat, i: nat)
      requires i <= |ops| && k <= |ops| && Sane()
      reads this
    {
      PatchesOf(patches, ops, k, i)
    }

    constructor (ops: seq<Opcode>, names: seq<string>)
      ensures this.ops == ops && this.names == names && out == [] && patches == map[] && labels == map[] && ic == 0
    {
      this.ops, this.names := ops, names;
      out, labels, patches, ic := [], map[], map[], 0;
    }

    // All instructions, with nothing yet in the jumps.
    method EmitPass()
      requires Sane() && out == [] && patches == map[] && labels == map[] && ic == 0
      modifies this
      ensures out == Assemble(ops, Zeros(|ops|), |ops|) && LabelsTo(|ops|) && PatchesTo(|ops|, 0)
    {
      hide Bytes, Encodable, Assemble, LastUse, LabelAt, Offset, LabelsOf, PatchesOf;
      EmitStart(ops, names);
      for i := 0 to |ops|
        invariant out == Assemble(ops, Zeros(|ops|), i) && ic == Index(ops, i)
        invariant LabelsTo(i) && PatchesTo(i, 0)
      {
        var op := ops[i];
        EmitNext(ops, i);
        LabelsNext(labels, ops, names, i);
        PatchesNext(patches, ops, i);
        if op.Mark? {
          labels := labels[names[op.to] := ic];
        } else {
          if Jumps(op) { patches := patches[op.to := |out| + 4]; }
          out := out + Bytes(op, 0);
          ic := ic + 1;
        }
      }
    }

    // A use of a label object that has something to patch patches it.
    method PatchUse(i: nat, target: nat)
      requires Sane() && i < |ops| && Jumps(ops[i]) && ops[i].to in patches && PatchesTo(|ops|, i)
      requires out == Assemble(ops, Targets(ops, names, i), |ops|) && target == Assembly.Known(ops, names, ops[i].to)
      modifies this`out, this`patches
      ensures out == Assemble(ops, Targets(ops, names, i + 1), |ops|) && PatchesTo(|ops|, i + 1)
    {
      hide Bytes, Encodable, Assemble, Patched, LabelAt, LastUse, Offset, Assembly.Known;
      var o := ops[i].to;
      ghost var j := LastUse(ops, o, |ops|).value;
      LastUseIs(ops, o, |ops|);
      PatchJump(ops, Targets(ops, names, i), |ops|, j, target);
      TargetsPatched(ops, names, i, j, target);
      out := Patched(out, patches[o], target);
      UseNext(ops, i + 1);
      patches := map x | x in patches && x != o :: patches[x];
      forall x: nat
        ensures x in patches <==> LastUse(ops, x, |ops|).Some? && LastUse(ops, x, i + 1).None?
      {
        assert UsedNext(ops, i + 1, x);
      }
    }

    method PatchPass() returns (ok: bool)
      requires Sane() && out == Assemble(ops, Zeros(|ops|), |ops|) && LabelsTo(|ops|) && PatchesTo(|ops|, 0)
      modifies this`out, this`patches
      ensures ok ==> out == Assemble(ops, Targets(ops, names, |ops|), |ops|)
      ensures ok <==> forall j :: 0 <= j < |ops| && Jumps(ops[j]) ==> LabelAt(ops, names, names[ops[j].to], |ops|).Some?
    {
      hide Bytes, Encodable, Assemble, Patched, LabelAt, LastUse, Offset;
      NoTargets(ops, names);
      for i := 0 to |ops|
        invariant out == Assemble(ops, Targets(ops, names, i), |ops|)
        invariant PatchesTo(|ops|, i)
        invariant forall j :: 0 <= j < i && Jumps(ops[j]) ==> LabelAt(ops, names, names[ops[j].to], |ops|).Some?
      {
        var op := ops[i];
        if Jumps(op) && op.to in patches {
          if names[op.to] !in labels { return false; }
          PatchUse(i, labels[names[op.to]]);
        } else {
          if Jumps(op) {
            LastUseAfter(ops, op.to, |ops|, i);
            EarlierUse(ops, names, op.to, i);
          }
          TargetsSame(ops, names, i);
          PatchesSame(i);
        }
      }
      ok := true;
    }

    lemma PatchesSame(i: nat)
      requires Sane() && i < |ops| && PatchesTo(|ops|, i)
      requires Jumps(ops[i]) ==> LastUse(ops, ops[i].to, i).Some?
      ensures PatchesTo(|ops|, i + 1)
    {
      hide LastUse;
      UseNext(ops, i + 1);
      forall x: nat
        ensures LastUse(ops, x, i + 1).None? <==> LastUse(ops, x, i).None?
      {
        assert UsedNext(ops, i + 1, x);
      }
    }

    // The function's bytes; none when a jump goes to a label that is nowhere.
    method EncodeFunction() returns (ok: bool)
      requires Sane() && out == [] && patches == map[] && labels == map[] && ic == 0
      modifies this
      ensures ok ==> out == Assemble(ops, Targets(ops, names, |ops|), |ops|)
      ensures ok <==> forall j :: 0 <= j < |ops| && Jumps(ops[j]) ==> LabelAt(ops, names, names[ops[j].to], |ops|).Some?
    {
      EmitPass();
      ok := PatchPass();
    }
  }

  // The marked names, each with the instruction behind its mark.
  ghost predicate LabelsOf(labels: map<string, nat>, ops: seq<Opcode>, names: seq<string>, k: nat)
    requires k <= |ops|
  {
    && (forall l :: l in labels <==> LabelAt(ops, names, l, k).Some?)
    && (forall l :: l in labels ==> labels[l] == LabelAt(ops, names, l, k).value)
  }

  // Every object with a use among the first k opcodes, except those used among
  // the first i, has its last use to patch.
  ghost predicate PatchesOf(patches: map<nat, nat>, ops: seq<Opcode>, k: nat, i: nat)
    requires i <= |ops| && k <= |ops| && AllEncodable(ops)
  {
    && (forall o :: o in patches <==> LastUse(ops, o, k).Some? && LastUse(ops, o, i).None?)
    && (forall o :: o in patches ==> patches[o] == Offset(ops, LastUse(ops, o, k).value) + 4)
  }

  lemma LabelsNext(labels: map<string, nat>, ops: seq<Opcode>, names: seq<string>, i: nat)
    requires i < |ops| && Named(ops, names) && LabelsOf(labels, ops, names, i)
    ensures LabelsOf(if ops[i].Mark? then labels[names[ops[i].to] := Index(ops, i)] else labels, ops, names, i + 1)
  {
    hide LabelAt, Index;
    LabelNext(ops, names, i + 1);
    var labels' := if ops[i].Mark? then labels[names[ops[i].to] := Index(ops, i)] else labels;
    forall l: string
      ensures l in labels' <==> LabelAt(ops, names, l, i + 1).Some?
      ensures l in labels' ==> labels'[l] == LabelAt(ops, names, l, i + 1).value
    {
      assert MarkedNext(ops, names, i + 1, l);
    }
  }

  lemma PatchesNext(patches: map<nat, nat>, ops: seq<Opcode>, i: nat)
    requires i < |ops| && AllEncodable(ops) && PatchesOf(patches, ops, i, 0)
    ensures PatchesOf(if Jumps(ops[i]) then patches[ops[i].to := Offset(ops, i) + 4] else patches, ops, i + 1, 0)
  {
    hide LastUse, Offset, Encodable;
    UseNext(ops, i + 1);
    var patches' := if Jumps(ops[i]) then patches[ops[i].to := Offset(ops, i) + 4] else patches;
    forall o: nat
      ensures o in patches' <==> LastUse(ops, o, i + 1).Some? && LastUse(ops, o, 0).None?
      ensures o in patches' ==> patches'[o] == Offset(ops, LastUse(ops, o, i + 1).value) + 4
    {
      UnusedFirst(ops, o);
      assert UsedNext(ops, i + 1, o);
    }
  }

  lemma UnusedFirst(ops: seq<Opcode>, o: nat)
    ensures LastUse(ops, o, 0).None?
  {
  }

  lemma EmitStart(ops: seq<Opcode>, names: seq<string>)
    requires AllEncodable(ops)
    ensures Assemble(ops, Zeros(|ops|), 0) == []
    ensures LabelsOf(map[], ops, names, 0) && PatchesOf(map[], ops, 0, 0)
  {
  }

  lemma EmitNext(ops: seq<Opcode>, i: nat)
    requires AllEncodable(ops) && i < |ops|
    ensures |Assemble(ops, Zeros(|ops|), i)| == Offset(ops, i)
    ensures Assemble(ops, Zeros(|ops|), i + 1) ==
            if ops[i].Mark? then Assemble(ops, Zeros(|ops|), i) else Assemble(ops, Zeros(|ops|), i) + Bytes(ops[i], 0)
  {
    AssembleSize(ops, Zeros(|ops|), i);
    if ops[i].Mark? { MarkIsEmpty(ops[i]); }
  }

  ghost predicate MarkedNext(ops: seq<Opcode>, names: seq<string>, k: nat, l: string)
    requires 0 < k <= |ops|
  {
    LabelAt(ops, names, l, k) ==
    if ops[k - 1].Mark? && ops[k - 1].to < |names| && names[ops[k - 1].to] == l then Some(Index(ops, k - 1))
    else LabelAt(ops, names, l, k - 1)
  }

  lemma LabelNext(ops: seq<Opcode>, names: seq<string>, k: nat)
    requires 0 < k <= |ops|
    ensures forall l: string :: MarkedNext(ops, names, k, l)
  {
  }

  lemma MarkIsEmpty(o: Opcode)
    requires Encodable(o) && o.Mark?
    ensures Bytes(o, 0) == []
  {
  }

  // Nothing is patched before the first opcode.
  lemma NoTargets(ops: seq<Opcode>, names: seq<string>)
    requires Named(ops, names)
    ensures Targets(ops, names, 0) == Zeros(|ops|)
  {
  }

  // What the opcode before position k adds to the last uses.
  ghost predicate UsedNext(ops: seq<Opcode>, k: nat, o: nat)
    requires 0 < k <= |ops|
  {
    LastUse(ops, o, k) == if Jumps(ops[k - 1]) && ops[k - 1].to == o then Some(k - 1) else LastUse(ops, o, k - 1)
  }

  lemma UseNext(ops: seq<Opcode>, k: nat)
    requires 0 < k <= |ops|
    ensures forall o: nat :: UsedNext(ops, k, o)
  {
  }

  lemma TargetsPatched(ops: seq<Opcode>, names: seq<string>, i: nat, j: nat, t: int)
    requires Named(ops, names) && i < |ops| && Jumps(ops[i]) && LastUse(ops, ops[i].to, i).None?
    requires LastUse(ops, ops[i].to, |ops|) == Some(j) && t == Assembly.Known(ops, names, ops[i].to)
    ensures j < |ops| && Jumps(ops[j]) && Targets(ops, names, i + 1) == Targets(ops, names, i)[j := t]
  {
    hide LastUse, LabelAt;
    LastUseIs(ops, ops[i].to, |ops|);
    UseNext(ops, i + 1);
    var a, b := Targets(ops, names, i + 1), Targets(ops, names, i)[j := t];
    forall k | 0 <= k < |ops|
      ensures a[k] == b[k]
    {
      if Jumps(ops[k]) { assert UsedNext(ops, i + 1, ops[k].to); }
      assert TargetOf(ops, names, i + 1, k) == if k == j then t else TargetOf(ops, names, i, k);
      assert k != j ==> b[k] == Targets(ops, names, i)[k];
    }
    assert a == b;
  }

  lemma LastUseIs(ops: seq<Opcode>, obj: nat, k: nat)
    requires k <= |ops|
    ensures match LastUse(ops, obj, k) case None => true case Some(j) => j < k && Jumps(ops[j]) && ops[j].to == obj
  {
  }

  lemma TargetsSame(ops: seq<Opcode>, names: seq<string>, i: nat)
    requires Named(ops, names) && i < |ops| && (Jumps(ops[i]) ==> LastUse(ops, ops[i].to, i).Some?)
    ensures Targets(ops, names, i + 1) == Targets(ops, names, i)
  {
    hide LastUse, LabelAt;
    UseNext(ops, i + 1);
    forall k | 0 <= k < |ops|
      ensures TargetOf(ops, names, i + 1, k) == TargetOf(ops, names, i, k)
    {
      if Jumps(ops[k]) { assert UsedNext(ops, i + 1, ops[k].to); }
    }
  }

  // An earlier use of the object already looked its label up.
  lemma EarlierUse(ops: seq<Opcode>, names: seq<string>, obj: nat, i: nat)
    requires Named(ops, names) && i <= |ops| && LastUse(ops, obj, i).Some?
    requires forall j :: 0 <= j < i && Jumps(ops[j]) ==> LabelAt(ops, names, names[ops[j].to], |ops|).Some?
    ensures obj < |names| && LabelAt(ops, names, names[obj], |ops|).Some?
  {
    LastUseIs(ops, obj, i);
  }

  // A jump is left with the number of its label's next instruction exactly when
  // no later jump uses its label object, or that number is 0 anyway.
  lemma JumpExact(ops: seq<Opcode>, names: seq<string>, j: nat)
    requires Named(ops, names) && j < |ops| && Jumps(ops[j]) && LabelAt(ops, names, names[ops[j].to], |ops|).Some?
    ensures var meant := LabelAt(ops, names, names[ops[j].to], |ops|).value;
            Targets(ops, names, |ops|)[j] == meant
            <==> (forall k :: j < k < |ops| && Jumps(ops[k]) ==> ops[k].to != ops[j].to) || meant == 0
  {
    hide LabelAt;
    var o := ops[j].to;
    LastUseAfter(ops, o, |ops|, j);
    LastUseIs(ops, o, |ops|);
    var last := LastUse(ops, o, |ops|).value;
    forall k | j < k < |ops| && Jumps(ops[k]) && ops[k].to == o
      ensures k <= last
    {
      LastUseAfter(ops, o, |ops|, k);
    }
    assert Targets(ops, names, |ops|)[j] == TargetOf(ops, names, |ops|, j);
  }

  // ---------------- caching ----------------

  // The machine's list of operations for a function's bytes.
  method BuildCached(code: seq<byte>, known: set<byte>) returns (ops: seq<Cached>)
    requires Framed(code, 0)
    ensures ops == DecodeFrom(code, known, 0)
  {
    hide Decoded, Reach;
    var bi := 0;
    ops := [];
    while bi < |code|
      invariant Framed(code, bi) && DecodeFrom(code, known, 0) == ops + DecodeFrom(code, known, bi)
      decreases |code| - bi
    {
      if code[bi] !in known {
        ops := ops + [BadOpcode];
        break;
      }
      ghost var rest := DecodeFrom(code, known, Reach(code, bi));
      assert ops + ([Decoded(code, bi)] + rest) == (ops + [Decoded(code, bi)]) + rest;
      ops := ops + [Decoded(code, bi)];
      bi := Reach(code, bi);
    }
    ops := ops + [Return];
  }

  // Encoding a function and caching its bytes gives each instruction's cached
  // operation at the instruction's number.
  lemma EncodeThenCache(ops: seq<Opcode>, names: seq<string>, known: set<byte>, j: nat)
    requires Named(ops, names) && AllEncodable(ops)
    requires forall i, t :: 0 <= i < |ops| && !ops[i].Mark? ==> Bytes(ops[i], t)[0] in known
    requires j < |ops| && !ops[j].Mark?
    ensures var targets := Targets(ops, names, |ops|);
            var code := Assemble(ops, targets, |ops|);
            && Framed(code, 0)
            && Index(ops, j) < |DecodeFrom(code, known, 0)|
            && DecodeFrom(code, known, 0)[Index(ops, j)] == Wire.Meant(ops[j], targets[j])
            && DecodeFrom(code, known, 0) == MeantFrom(ops, targets, 0)
  {
    hide Bytes, Encodable, Wire.Meant, Assemble, Targets;
    var targets := Targets(ops, names, |ops|);
    AssembleDecodes(ops, targets, known, 0);
    MeantAt(ops, targets, 0, j);
  }
}
