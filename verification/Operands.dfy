// Operands on their way into an instruction: which objects hold the values of
// which expressions while the code for them grows.
module Operands {
  import opened Script
  import opened Machine
  import opened RegAlloc
  import opened Translation
  import opened Simulation
  import opened Emission

  // The object `id` stands for the value of e.
  datatype Operand = Operand(e: Expr, id: nat)

  ghost function Claims(ops: seq<Operand>, regs: seq<Reg>): seq<Claim>
    requires forall i :: 0 <= i < |ops| ==> ops[i].id < |regs|
  {
    seq(|ops|, i requires 0 <= i < |ops| => Claim(ops[i].e, PlaceOf(regs[ops[i].id])))
  }

  ghost predicate OperandOk(g: Gen, h: Gen, o: Operand) {
    && o.id < |h.p.regs| && Standing(h.p.regs[o.id])
    && (!h.p.regs[o.id].kind.Named? ==> o.id >= |g.p.regs|)
  }

  // The code from g to h computes the operands and disturbs nothing of g.
  ghost predicate Carries<V(!new)>(vm: Values<V>, slots: Slots, g: Gen, h: Gen, ops: seq<Operand>) {
    && Grows(g, h)
    && (forall i :: 0 <= i < |ops| ==> OperandOk(g, h, ops[i]))
    && Gives(vm, slots, Seg(g, h), Claims(ops, h.p.regs), Keep(g.p))
  }

  // The object is the fresh result of the code just emitted, an untouched
  // literal, or a variable.
  ghost predicate ResultOk(g: Gen, h: Gen, res: nat) {
    && OperandOk(g, h, Operand(Literal(Null), res))
    && var r := h.p.regs[res];
       && (!r.kind.Named? ==> !r.renamed)
       && (r.kind.Tmp? ==> r.number !in Keep(g.p) && MadeLast(h.code, res) && |h.code| > |g.code|)
  }

  ghost predicate Evaluated<V(!new)>(vm: Values<V>, slots: Slots, g: Gen, h: Gen, e: Expr, res: nat) {
    Carries(vm, slots, g, h, [Operand(e, res)]) && ResultOk(g, h, res)
  }

  lemma CarriesOk<V(!new)>(vm: Values<V>, slots: Slots, g: Gen, h: Gen, ops: seq<Operand>)
    requires Carries(vm, slots, g, h, ops)
    ensures Sane(h) && forall i :: 0 <= i < |ops| ==> OperandOk(g, h, ops[i])
  {
  }

  lemma GrowsOn(g: Gen, h: Gen, k: Gen)
    requires Grows(g, h) && Grows(h, k)
    ensures Grows(g, k) && Seg(g, k) == Seg(g, h) + Seg(h, k)
  {
    FollowsOn(g, h, k);
  }

  // A second operand is computed after the first.
  lemma CarriesTwo<V(!new)>(vm: Values<V>, slots: Slots, g: Gen, h: Gen, k: Gen, a: Operand, b: Operand)
    requires Carries(vm, slots, g, h, [a]) && Carries(vm, slots, h, k, [b]) && SlotsIn(slots, Keep(g.p))
    ensures Carries(vm, slots, g, k, [a, b])
    ensures b.id < |k.p.regs| && (!k.p.regs[b.id].kind.Named? ==> a.id != b.id)
  {
    hide Gives, Ok, OpSane, Uses;
    GrowsOn(g, h, k);
    KeepGrows(g.p, h.p);
    assert OperandOk(g, h, [a][0]) && OperandOk(h, k, [b][0]);
    if !h.p.regs[a.id].kind.Deferred? { PlaceKept(h.p, a.id); }
    GivesThen(vm, slots, Seg(g, h), Claims([a], h.p.regs), Keep(g.p), Seg(h, k), Claims([b], k.p.regs), Keep(h.p));
    assert Claims([a, b], k.p.regs) == Claims([a], h.p.regs) + Claims([b], k.p.regs);
  }

  // Changes to the pool that leave the operands alone.
  lemma CarriesPool<V(!new)>(vm: Values<V>, slots: Slots, g: Gen, h: Gen, p: Pool, ops: seq<Operand>)
    requires Carries(vm, slots, g, h, ops) && Ok(p, {})
    requires h.p.regs <= p.regs && forall n :: Local(h.p, n) ==> Local(p, n)
    ensures Carries(vm, slots, g, h.(p := p), ops)
  {
    hide Gives, Ok, OpSane, Uses;
    FollowsPool(h, p);
    FollowsOn(g, h, h.(p := p));
    assert Seg(g, h) + [] == Seg(g, h);
    assert Claims(ops, p.regs) == Claims(ops, h.p.regs);
  }

  // A literal got its register and was loaded; anything else stayed as it was.
  ghost predicate LoadedFrom(g: Gen, h: Gen, id: nat) {
    && id < |g.p.regs| == |h.p.regs|
    && if !g.p.regs[id].kind.Deferred? then h == g
       else
         && Ok(h.p, {}) && h.p.isLocal == g.p.isLocal
         && h.p.regs == g.p.regs[id := h.p.regs[id]]
         && Live(h.p.regs[id]) && h.p.regs[id].renamed == g.p.regs[id].renamed
         && h.p.regs[id].number < LIMIT && h.p.regs[id].number !in Keep(g.p)
         && h.code == g.code + [Load(id, g.p.regs[id].kind.lit)]
  }

  lemma CarriesLoaded<V(!new)>(vm: Values<V>, slots: Slots, g: Gen, h: Gen, k: Gen, ops: seq<Operand>, i: nat)
    requires Carries(vm, slots, g, h, ops) && i < |ops| && LoadedFrom(h, k, ops[i].id)
    requires forall j :: 0 <= j < |ops| && j != i ==> ops[j].id != ops[i].id || !h.p.regs[ops[i].id].kind.Deferred?
    ensures Carries(vm, slots, g, k, ops) && !k.p.regs[ops[i].id].kind.Deferred?
  {
    hide Gives, Ok, OpSane, Uses;
    var id := ops[i].id;
    if h.p.regs[id].kind.Deferred? {
      var lit, n, m := h.p.regs[id].kind.lit, k.p.regs[id].number, h.(p := k.p);
      assert OperandOk(g, h, ops[i]);
      FollowsPool(h, k.p);
      LoadSane(k.p, id, lit);
      FollowsEmit(m, Load(id, lit));
      FollowsOn(g, h, m);
      FollowsOn(g, m, k);
      assert Seg(g, k) == Seg(g, h) + [Load(n, lit)];
      KeepGrows(g.p, h.p);
      LoadedClaims(vm, slots, g, h, k, ops, i);
    }
  }

  lemma LoadedClaims<V(!new)>(vm: Values<V>, slots: Slots, g: Gen, h: Gen, k: Gen, ops: seq<Operand>, i: nat)
    requires Carries(vm, slots, g, h, ops) && i < |ops| && LoadedFrom(h, k, ops[i].id)
    requires h.p.regs[ops[i].id].kind.Deferred? && Keep(g.p) <= Keep(h.p)
    requires forall j :: 0 <= j < |ops| && j != i ==> ops[j].id != ops[i].id
    ensures forall j :: 0 <= j < |ops| ==> OperandOk(g, k, ops[j])
    ensures var n := k.p.regs[ops[i].id].number;
            Gives(vm, slots, Seg(g, h) + [Load(n, h.p.regs[ops[i].id].kind.lit)], Claims(ops, k.p.regs), Keep(g.p))
  {
    hide Gives, Ok, OpSane, Uses;
    var n, claims := k.p.regs[ops[i].id].number, Claims(ops, h.p.regs);
    forall j | 0 <= j < |ops|
      ensures OperandOk(g, k, ops[j]) && claims[j].at != InReg(n)
    {
      assert OperandOk(g, h, ops[j]);
      if !h.p.regs[ops[j].id].kind.Deferred? { PlaceKept(h.p, ops[j].id); }
    }
    GivesLoad(vm, slots, Seg(g, h), claims, Keep(g.p), i, n);
    assert Claims(ops, k.p.regs) == claims[i := claims[i].(at := InReg(n))];
  }

  lemma LoadSane(p: Pool, id: nat, lit: Lit64)
    requires id < |p.regs| && !p.regs[id].kind.Deferred?
    ensures OpSane(Load(id, lit), p.regs)
  {
  }

  // ---------------- results ----------------

  lemma LiteralDone<V(!new)>(vm: Values<V>, slots: Slots, g: Gen, p: Pool, lit: Lit)
    requires Sane(g) && Ok(p, {}) && p.isLocal == g.p.isLocal
    requires p.regs == g.p.regs + [Reg(0, Deferred(Meant(lit)), false, false)]
    ensures Evaluated(vm, slots, g, g.(p := p), Literal(lit), |g.p.regs|)
  {
    hide Ok, OpSane, Uses;
    FollowsPool(g, p);
    var o := Operand(Literal(lit), |g.p.regs|);
    forall env: Env<V>, r: File<V> | Rel(env, slots, r)
      ensures GivesAt(vm, [], Claims([o], p.regs), Keep(g.p), env, r)
    {
    }
  }

  lemma NameDone<V(!new)>(vm: Values<V>, slots: Slots, g: Gen, name: string, id: nat)
    requires Sane(g) && id < |g.p.regs| && g.p.regs[id].kind.Named?
    requires Level(slots, name).Some? && g.p.regs[id].number == Slot(slots, name)
    ensures Evaluated(vm, slots, g, g, Name(name), id)
  {
    hide Ok, OpSane, Uses, Level;
    var o := Operand(Name(name), id);
    assert Seg(g, g) == [];
    forall env: Env<V>, r: File<V> | Rel(env, slots, r)
      ensures GivesAt(vm, [], Claims([o], g.p.regs), Keep(g.p), env, r)
    {
      GetFits(env, slots, r, name);
    }
  }

  ghost predicate Unused(code: seq<Op<nat>>, id: nat) {
    forall i :: 0 <= i < |code| ==> !Uses(code[i], id)
  }

  lemma NewUnused(g: Gen)
    requires Sane(g)
    ensures Unused(g.code, |g.p.regs|)
  {
    forall i | 0 <= i < |g.code|
      ensures !Uses(g.code[i], |g.p.regs|)
    {
      assert OpSane(g.code[i], g.p.regs);
    }
  }

  lemma LoadedRegs(g: Gen, h: Gen, id: nat)
    requires LoadedFrom(g, h, id)
    ensures |g.p.regs| == |h.p.regs| && (!g.p.regs[id].kind.Deferred? ==> h == g)
    ensures forall other :: 0 <= other < |g.p.regs| && other != id ==> h.p.regs[other] == g.p.regs[other]
  {
  }

  lemma LoadedUnused(g: Gen, h: Gen, id: nat, other: nat)
    requires LoadedFrom(g, h, id) && id != other
    ensures Unused(g.code, other) ==> Unused(h.code, other)
  {
  }

  // The instruction that makes the value of e in a new temporary.
  lemma OpMade<V(!new)>(vm: Values<V>, slots: Slots, g: Gen, h: Gen, ops: seq<Operand>, op: Op<nat>, e: Expr)
    requires Carries(vm, slots, g, h, ops) && Straight(op) && OpSane(op, h.p.regs)
    requires |g.p.regs| <= op.dst < |h.p.regs| && Live(h.p.regs[op.dst]) && !h.p.regs[op.dst].renamed
    requires h.p.regs[op.dst].number !in Keep(g.p) && Unused(h.code, op.dst) && !Reads(op, op.dst)
    requires Yields(vm, slots, Seg(g, h), Numbered(op, h.p.regs), e)
    ensures Evaluated(vm, slots, g, h.(code := h.code + [op]), e, op.dst)
  {
    hide Gives, Ok, OpSane, Yields, Uses, Reads, InFile;
    var k := h.(code := h.code + [op]);
    NumberedInFile(h, op);
    FollowsEmit(h, op);
    FollowsOn(g, h, k);
    GivesOp(vm, slots, Seg(g, h), Claims(ops, h.p.regs), Keep(g.p), Numbered(op, h.p.regs), e);
    assert Claims([Operand(e, op.dst)], k.p.regs) == [Claim(e, InReg(h.p.regs[op.dst].number))];
  }

  // Releasing other objects changes nothing about a result.
  lemma ResultStays<V(!new)>(vm: Values<V>, slots: Slots, g: Gen, h: Gen, p: Pool, e: Expr, res: nat)
    requires Evaluated(vm, slots, g, h, e, res) && Ok(p, {}) && p.isLocal == h.p.isLocal
    requires |p.regs| == |h.p.regs| && p.regs[res] == h.p.regs[res] && Steady(h.p.regs, p.regs) && g.p.regs <= p.regs
    ensures Evaluated(vm, slots, g, h.(p := p), e, res)
  {
    hide Gives, Ok, OpSane, Uses, Reads;
    FollowsPool(h, p);
    FollowsOn(g, h, h.(p := p));
    assert Seg(g, h) + [] == Seg(g, h);
    assert OperandOk(g, h, [Operand(e, res)][0]);
    assert Claims([Operand(e, res)], p.regs) == Claims([Operand(e, res)], h.p.regs);
  }

  // A result that is loaded is still a result.
  lemma ResultLoaded<V(!new)>(vm: Values<V>, slots: Slots, g: Gen, h: Gen, k: Gen, e: Expr, res: nat)
    requires Evaluated(vm, slots, g, h, e, res) && LoadedFrom(h, k, res)
    ensures Evaluated(vm, slots, g, k, e, res) && !k.p.regs[res].kind.Deferred?
  {
    hide Gives, Ok, OpSane;
    CarriesLoaded(vm, slots, g, h, k, [Operand(e, res)], 0);
    assert OperandOk(g, k, [Operand(e, res)][0]);
    if h.p.regs[res].kind.Deferred? {
      DeferredUnused(h, res);
      KeepGrows(g.p, h.p);
    }
  }

  lemma DeferredUnused(g: Gen, id: nat)
    requires Sane(g) && id < |g.p.regs| && g.p.regs[id].kind.Deferred?
    ensures Unused(g.code, id)
  {
    forall i | 0 <= i < |g.code|
      ensures !Uses(g.code[i], id)
    {
      assert OpSane(g.code[i], g.p.regs);
    }
  }

  lemma EvaluatedOk<V(!new)>(vm: Values<V>, slots: Slots, g: Gen, h: Gen, e: Expr, res: nat)
    requires Evaluated(vm, slots, g, h, e, res)
    ensures Sane(g) && Sane(h) && Carries(vm, slots, g, h, [Operand(e, res)]) && res < |h.p.regs| && g.p.regs <= h.p.regs
    ensures Grows(g, h)
  {
  }

  // A new temporary joins while operands wait.
  ghost predicate Joined(g: Gen, h: Gen) {
    && h == g.(p := h.p) && Ok(h.p, {}) && h.p.isLocal == g.p.isLocal
    && |h.p.regs| == |g.p.regs| + 1 && g.p.regs <= h.p.regs
    && var r := h.p.regs[|g.p.regs|];
       r == Reg(r.number, Tmp, false, false) && r.number < LIMIT && !Kept(g.p, r.number)
  }

  lemma TmpJoins<V(!new)>(vm: Values<V>, slots: Slots, g: Gen, h: Gen, k: Gen, ops: seq<Operand>)
    requires Carries(vm, slots, g, h, ops) && Joined(h, k)
    ensures Carries(vm, slots, g, k, ops) && Sane(k) && Unused(k.code, |h.p.regs|)
    ensures k.p.regs[|h.p.regs|].number !in Keep(g.p)
  {
    CarriesPool(vm, slots, g, h, k.p, ops);
    CarriesOk(vm, slots, g, h, ops);
    NewUnused(h);
    KeepGrows(g.p, h.p);
  }

  lemma PrefixMade<V(!new)>(vm: Values<V>, slots: Slots, g: Gen, h: Gen, op: UnaryOp, a: Operand, dst: nat)
    requires Carries(vm, slots, g, h, [a]) && a.id < |h.p.regs| && !h.p.regs[a.id].kind.Deferred? && a.id != dst
    requires |g.p.regs| <= dst < |h.p.regs| && Live(h.p.regs[dst]) && !h.p.regs[dst].renamed
    requires h.p.regs[dst].number !in Keep(g.p) && Unused(h.code, dst)
    ensures Evaluated(vm, slots, g, h.(code := h.code + [Unary(op, dst, a.id)]), Prefix(op, a.e), dst)
    ensures OperandOk(g, h, a)
  {
    hide Gives, Ok, Yields, InFile;
    var o := Unary(op, dst, a.id);
    assert OperandOk(g, h, [a][0]);
    UnarySane(h.p.regs, op, dst, a.id);
    NumberedInFile(h, o);
    assert Claims([a], h.p.regs) == [Claim(a.e, InReg(h.p.regs[a.id].number))];
    InFileUnary(h, op, dst, a.id);
    YieldsPrefix(vm, slots, Seg(g, h), Keep(g.p), op, h.p.regs[dst].number, Claim(a.e, InReg(h.p.regs[a.id].number)));
    OpMade(vm, slots, g, h, [a], o, Prefix(op, a.e));
  }

  lemma UnarySane(regs: seq<Reg>, op: UnaryOp, d: nat, s: nat)
    requires d < |regs| && s < |regs| && !regs[d].kind.Deferred? && !regs[s].kind.Deferred?
    ensures OpSane(Unary(op, d, s), regs) && OpSane(Move(d, s), regs)
  {
  }

  lemma InFileUnary(h: Gen, op: UnaryOp, d: nat, s: nat)
    requires d < |h.p.regs| && s < |h.p.regs| && InFile(Numbered(Unary(op, d, s), h.p.regs))
    ensures h.p.regs[d].number < REGISTERS && h.p.regs[s].number < REGISTERS
  {
  }

  // Releasing an operand after its use.
  ghost predicate ReleasedFrom(g: Gen, h: Gen, id: nat) {
    && h == g.(p := h.p) && Ok(h.p, {}) && h.p.isLocal == g.p.isLocal && id < |g.p.regs|
    && h.p.regs == if g.p.regs[id].kind.Tmp? then g.p.regs[id := g.p.regs[id].(freed := true)] else g.p.regs
  }

  lemma ResultReleased<V(!new)>(vm: Values<V>, slots: Slots, g: Gen, h: Gen, k: Gen, e: Expr, res: nat, id: nat)
    requires Evaluated(vm, slots, g, h, e, res) && ReleasedFrom(h, k, id) && id != res
    requires h.p.regs[id].kind.Tmp? ==> id >= |g.p.regs|
    ensures Evaluated(vm, slots, g, k, e, res)
  {
    ResultStays(vm, slots, g, h, k.p, e, res);
  }

  // The last instruction is the operation on the two operands.
  ghost predicate Decided(g: Gen, last: Op<nat>, op: BinaryOp, dst: nat, src1: nat, src2: nat) {
    && dst < |g.p.regs| && src1 < |g.p.regs| && src2 < |g.p.regs| && !g.p.regs[src1].kind.Deferred?
    && match last
       case Binary(o, d, s1, s2) => o == op && d == dst && s1 == src1 && s2 == src2 && !g.p.regs[src2].kind.Deferred?
       case BinaryImm(o, d, s1, imm) => o == op && d == dst && s1 == src1 && g.p.regs[src2].kind == Deferred(Int(imm))
       case UpdateImm(o, d, imm) =>
         && o == op && d == dst && g.p.regs[src2].kind == Deferred(Int(imm)) && g.p.regs[dst].kind.Named?
         && g.p.regs[dst].number == g.p.regs[src1].number
       case _ => false
  }

  lemma DecidedYields<V(!new)>(vm: Values<V>, slots: Slots, g: Gen, h: Gen, op: BinaryOp, a: Operand, b: Operand, dst: nat, last: Op<nat>)
    requires Carries(vm, slots, g, h, [a, b]) && Decided(h, last, op, dst, a.id, b.id) && !h.p.regs[dst].kind.Deferred?
    ensures OperandOk(g, h, a) && OperandOk(g, h, b)
    ensures OpSane(last, h.p.regs) && Straight(last) && last.dst == dst && InFile(Numbered(last, h.p.regs))
    ensures Yields(vm, slots, Seg(g, h), Numbered(last, h.p.regs), Infix(op, a.e, b.e))
    ensures a.id != dst && b.id != dst && !h.p.regs[a.id].kind.Deferred? && h.p.regs[dst].kind.Tmp? ==> !Reads(last, dst)
  {
    hide Gives, Ok, Yields, InFile;
    assert OperandOk(g, h, [a, b][0]) && OperandOk(g, h, [a, b][1]);
    assert OpSane(last, h.p.regs);
    NumberedInFile(h, last);
    var claims := Claims([a, b], h.p.regs);
    assert claims == [claims[0], claims[1]];
    YieldsInfix(vm, slots, Seg(g, h), Keep(g.p), Numbered(last, h.p.regs), op, claims[0], claims[1]);
  }

  lemma InfixMade<V(!new)>(vm: Values<V>, slots: Slots, g: Gen, h: Gen, op: BinaryOp, a: Operand, b: Operand, dst: nat, last: Op<nat>)
    requires Carries(vm, slots, g, h, [a, b]) && Decided(h, last, op, dst, a.id, b.id) && a.id != dst && b.id != dst
    requires |g.p.regs| <= dst && Live(h.p.regs[dst]) && !h.p.regs[dst].renamed
    requires h.p.regs[dst].number !in Keep(g.p) && Unused(h.code, dst)
    ensures Evaluated(vm, slots, g, h.(code := h.code + [last]), Infix(op, a.e, b.e), dst)
    ensures OperandOk(g, h, a) && OperandOk(g, h, b)
  {
    hide Carries, Ok, Yields, InFile, OpSane, Reads, Unused, Evaluated;
    DecidedYields(vm, slots, g, h, op, a, b, dst, last);
    OpMade(vm, slots, g, h, [a, b], last, Infix(op, a.e, b.e));
  }

  // ---------------- growing code ----------------

  lemma GrowEmit(g: Gen, h: Gen, op: Op<nat>)
    requires Grows(g, h) && OpSane(op, h.p.regs)
    ensures var k := h.(code := h.code + [op]);
            && Grows(g, k) && Seg(g, k) == Seg(g, h) + [Numbered(op, h.p.regs)]
            && InFile(Numbered(op, h.p.regs))
  {
    hide Ok, OpSane;
    FollowsEmit(h, op);
    GrowsOn(g, h, h.(code := h.code + [op]));
    NumberedInFile(h, op);
  }

  lemma GrowPool(g: Gen, h: Gen, p: Pool)
    requires Grows(g, h) && Ok(p, {}) && Steady(h.p.regs, p.regs) && g.p.regs <= p.regs
    requires forall n :: Local(h.p, n) ==> Local(p, n)
    ensures Grows(g, h.(p := p)) && Seg(g, h.(p := p)) == Seg(g, h)
  {
    hide Ok, OpSane;
    FollowsPool(h, p);
    FollowsOn(g, h, h.(p := p));
    assert Seg(g, h) + [] == Seg(g, h);
  }

  lemma GrowReleased(g: Gen, h: Gen, k: Gen, id: nat)
    requires Grows(g, h) && ReleasedFrom(h, k, id) && (h.p.regs[id].kind.Tmp? ==> id >= |g.p.regs|)
    ensures Grows(g, k) && Seg(g, k) == Seg(g, h)
  {
    hide Ok, OpSane;
    GrowPool(g, h, k.p);
  }

  lemma GrowsSelf(g: Gen)
    requires Sane(g)
    ensures Grows(g, g) && Seg(g, g) == []
  {
    hide Ok, OpSane;
  }

  // ---------------- assignments ----------------

  lemma GivesLess<V(!new)>(vm: Values<V>, slots: Slots, seg: Code, claims: seq<Claim>, keep: set<nat>)
    requires Gives(vm, slots, seg, claims, keep)
    ensures Gives(vm, slots, seg, [], keep)
  {
    forall env: Env<V>, r: File<V> | Rel(env, slots, r)
      ensures GivesAt(vm, seg, [], keep, env, r)
    {
      assert GivesAt(vm, seg, claims, keep, env, r);
    }
  }

  // The code of a result that was made by its last instruction.
  lemma MadeSeg<V(!new)>(vm: Values<V>, slots: Slots, g: Gen, h: Gen, e: Expr, src: nat) returns (pre: Code, op: Op<nat>)
    requires Evaluated(vm, slots, g, h, e, src) && h.p.regs[src].kind.Tmp?
    ensures Seg(g, h) == pre + [op] && Line(pre) && Straight(op) && InFile(op)
    ensures op.dst == h.p.regs[src].number && op.dst !in Keep(g.p)
    ensures Gives(vm, slots, pre + [op], [Claim(e, InReg(op.dst))], Keep(g.p))
    ensures |h.code| > |g.code| && op == Emitted(h)[|h.code| - 1] && pre == Emitted(h)[|g.code|..|h.code| - 1]
  {
    hide Ok, OpSane, Steady, Gives;
    var seg, c := Seg(g, h), [Claim(e, InReg(h.p.regs[src].number))];
    assert Claims([Operand(e, src)], h.p.regs) == c;
    assert Gives(vm, slots, seg, c, Keep(g.p));
    GivesLine(vm, slots, seg, c, Keep(g.p));
    var n := |seg| - 1;
    assert n >= 0 && |h.code| - 1 == |g.code| + n;
    pre, op := seg[..n], seg[n];
    assert seg == pre + [op];
    assert op == Numbered(h.code[|h.code| - 1], h.p.regs);
    NumberedTarget(h.code[|h.code| - 1], h.p.regs, src, h.p.regs[src]);
  }

  // Renaming the source into the destination assigns.
  lemma RenameDone<V(!new)>(vm: Values<V>, slots: Slots, g: Gen, h: Gen, k: Gen, e: Expr, src: nat, id: string, loop: nat)
    requires Evaluated(vm, slots, g, h, e, src) && h.p.regs[src].kind.Tmp? && SlotsIn(slots, Keep(g.p))
    requires k == h.(p := k.p) && Ok(k.p, {}) && k.p.isLocal == h.p.isLocal
    requires Level(slots, id).Some? && Slot(slots, id) < REGISTERS
    requires k.p.regs == h.p.regs[src := Reg(Slot(slots, id), Named, true, true)]
    ensures Grows(g, k) && Line(Seg(g, k))
    ensures Implements(vm, One(Assign(id, e)), slots, slots, Seg(g, k), loop)
  {
    hide Gives, Ok, Yields, Implements, Level, Keep;
    var d := Slot(slots, id);
    var pre, op := MadeSeg(vm, slots, g, h, e, src);
    Renamed(h, src, Reg(d, Named, true, true));
    YieldsRetarget(vm, slots, pre, op, e, Keep(g.p), d);
    RenameGrows(g, h, k, src);
    assert Seg(g, k) == pre + [Retarget(op, d)] by {
      assert Emitted(k) == Emitted(h)[..|h.code| - 1] + [Retarget(op, d)];
    }
    SetDone(vm, One(Assign(id, e)), slots, pre, Retarget(op, d), id, e, Keep(g.p), loop);
    LineRetarget(pre, op, d);
  }

  lemma LineRetarget(pre: Code, op: Op<nat>, d: nat)
    requires Line(pre) && Straight(op) && InFile(op) && d < REGISTERS
    ensures Line(pre + [Retarget(op, d)])
  {
  }

  lemma RenameGrows(g: Gen, h: Gen, k: Gen, src: nat)
    requires Grows(g, h) && |g.p.regs| <= src < |h.p.regs| && k == h.(p := k.p) && Ok(k.p, {}) && k.p.isLocal == h.p.isLocal
    requires |k.p.regs| == |h.p.regs| && k.p.regs == h.p.regs[src := k.p.regs[src]] && !k.p.regs[src].kind.Deferred?
    ensures Grows(g, k)
  {
    hide Ok;
    forall i | 0 <= i < |k.code|
      ensures OpSane(k.code[i], k.p.regs)
    {
      assert OpSane(h.code[i], h.p.regs);
    }
  }

  // Otherwise a move assigns.
  lemma MoveDone<V(!new)>(vm: Values<V>, slots: Slots, g: Gen, h: Gen, e: Expr, dst: nat, src: nat, id: string, loop: nat)
    requires Evaluated(vm, slots, g, h, e, src) && !h.p.regs[src].kind.Deferred? && SlotsIn(slots, Keep(g.p))
    requires dst < |h.p.regs| && h.p.regs[dst].kind.Named?
    requires Level(slots, id).Some? && h.p.regs[dst].number == Slot(slots, id)
    ensures var k := h.(code := h.code + [Move(dst, src)]);
            && Grows(g, k) && Line(Seg(g, k)) && OperandOk(g, h, Operand(e, src))
            && Implements(vm, One(Assign(id, e)), slots, slots, Seg(g, k), loop)
  {
    hide Gives, Ok, Yields, Implements, Level, Keep;
    var op := Move(dst, src);
    assert OperandOk(g, h, [Operand(e, src)][0]);
    UnarySane(h.p.regs, NEG, dst, src);
    GrowEmit(g, h, op);
    var c := Claim(e, InReg(h.p.regs[src].number));
    assert Claims([Operand(e, src)], h.p.regs) == [c];
    YieldsPrefix(vm, slots, Seg(g, h), Keep(g.p), NEG, h.p.regs[dst].number, c);
    GivesLess(vm, slots, Seg(g, h), [c], Keep(g.p));
    GivesLine(vm, slots, Seg(g, h), [c], Keep(g.p));
    SetDone(vm, One(Assign(id, e)), slots, Seg(g, h), Numbered(op, h.p.regs), id, e, Keep(g.p), loop);
  }

  lemma GivesLine<V(!new)>(vm: Values<V>, slots: Slots, seg: Code, claims: seq<Claim>, keep: set<nat>)
    requires Gives(vm, slots, seg, claims, keep)
    ensures Line(seg)
  {
  }

  // An operation straight on a variable's register.
  lemma UpdateDone<V(!new)>(vm: Values<V>, slots: Slots, g: Gen, h: Gen, op: BinaryOp, b: Operand, dst: nat, id: string,
                            last: Op<nat>, loop: nat)
    requires Carries(vm, slots, g, h, [Operand(Name(id), dst), b]) && Decided(h, last, op, dst, dst, b.id)
    requires SlotsIn(slots, Keep(g.p)) && Level(slots, id).Some? && h.p.regs[dst].number == Slot(slots, id)
    ensures var k := h.(code := h.code + [last]);
            && Grows(g, k) && Line(Seg(g, k)) && OperandOk(g, h, b)
            && Implements(vm, One(OpAssign(op, id, b.e)), slots, slots, Seg(g, k), loop)
  {
    hide Gives, Ok, Yields, Implements, Level, Keep, OpSane;
    var a := Operand(Name(id), dst);
    DecidedYields(vm, slots, g, h, op, a, b, dst, last);
    GrowEmit(g, h, last);
    GivesLess(vm, slots, Seg(g, h), Claims([a, b], h.p.regs), Keep(g.p));
    GivesLine(vm, slots, Seg(g, h), [], Keep(g.p));
    SetDone(vm, One(OpAssign(op, id, b.e)), slots, Seg(g, h), Numbered(last, h.p.regs), id, Infix(op, Name(id), b.e), Keep(g.p), loop);
  }
}
