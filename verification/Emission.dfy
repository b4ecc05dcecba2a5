// Code under construction: instructions that name register objects, and what
// changing those objects does to the numbers in the code.
module Emission {
  import opened Script
  import opened Machine
  import opened RegAlloc
  import opened Translation

  datatype Gen = Gen(p: Pool, code: seq<Op<nat>>)

  // ---------------- operands ----------------

  predicate Reads(op: Op<nat>, id: nat) {
    match op
    case Move(_, s) => s == id
    case Unary(_, _, s) => s == id
    case Binary(_, _, s1, s2) => s1 == id || s2 == id
    case BinaryImm(_, _, s, _) => s == id
    case UpdateImm(_, d, _) => d == id
    case JumpFalse(c, _) => c == id
    case JumpTrue(c, _) => c == id
    case _ => false
  }

  predicate Uses(op: Op<nat>, id: nat) { Reads(op, id) || (Straight(op) && op.dst == id) }

  function Number(regs: seq<Reg>, id: nat): nat { if id < |regs| then regs[id].number else 0 }

  // The instruction with its objects' numbers.
  function Numbered(op: Op<nat>, regs: seq<Reg>): Op<nat> {
    match op
    case Load(d, lit) => Load(Number(regs, d), lit)
    case Move(d, s) => Move(Number(regs, d), Number(regs, s))
    case Unary(o, d, s) => Unary(o, Number(regs, d), Number(regs, s))
    case Binary(o, d, s1, s2) => Binary(o, Number(regs, d), Number(regs, s1), Number(regs, s2))
    case BinaryImm(o, d, s, imm) => BinaryImm(o, Number(regs, d), Number(regs, s), imm)
    case UpdateImm(o, d, imm) => UpdateImm(o, Number(regs, d), imm)
    case Mark(l) => Mark(l)
    case Jump(l) => Jump(l)
    case JumpFalse(c, l) => JumpFalse(Number(regs, c), l)
    case JumpTrue(c, l) => JumpTrue(Number(regs, c), l)
  }

  ghost function Emitted(g: Gen): Code {
    seq(|g.code|, i requires 0 <= i < |g.code| => Numbered(g.code[i], g.p.regs))
  }

  // ---------------- sane states ----------------

  ghost predicate OpSane(op: Op<nat>, regs: seq<Reg>) {
    forall id: nat :: Uses(op, id) ==> id < |regs| && !regs[id].kind.Deferred?
  }

  ghost predicate Sane(g: Gen) {
    && Ok(g.p, {})
    && forall i :: 0 <= i < |g.code| ==> OpSane(g.code[i], g.p.regs)
  }

  // Objects that instructions may use keep their numbers.
  ghost predicate Steady(regs: seq<Reg>, regs': seq<Reg>) {
    && |regs| <= |regs'|
    && forall id :: 0 <= id < |regs| && !regs[id].kind.Deferred? ==>
         regs'[id].number == regs[id].number && !regs'[id].kind.Deferred?
  }

  // h came out of g by emitting code.
  ghost predicate Follows(g: Gen, h: Gen) {
    && Sane(g) && Sane(h) && g.code <= h.code && Steady(g.p.regs, h.p.regs)
    && forall n :: Local(g.p, n) ==> Local(h.p, n)
  }

  // ... and nothing that g had was touched.
  ghost predicate Grows(g: Gen, h: Gen) { Follows(g, h) && g.p.regs <= h.p.regs }

  // The code emitted since.
  ghost function Seg(g: Gen, h: Gen): Code
    requires |g.code| <= |h.code|
  {
    Emitted(h)[|g.code|..]
  }

  lemma NumberedSteady(op: Op<nat>, regs: seq<Reg>, regs': seq<Reg>)
    requires OpSane(op, regs) && Steady(regs, regs')
    ensures Numbered(op, regs') == Numbered(op, regs) && OpSane(op, regs')
  {
    assert forall id :: Uses(op, id) ==> Number(regs', id) == Number(regs, id);
    match op
    case Load(d, _) => assert Uses(op, d);
    case Move(d, s) => assert Uses(op, d) && Uses(op, s);
    case Unary(_, d, s) => assert Uses(op, d) && Uses(op, s);
    case Binary(_, d, s1, s2) => assert Uses(op, d) && Uses(op, s1) && Uses(op, s2);
    case BinaryImm(_, d, s, _) => assert Uses(op, d) && Uses(op, s);
    case UpdateImm(_, d, _) => assert Uses(op, d);
    case JumpFalse(c, _) => assert Uses(op, c);
    case JumpTrue(c, _) => assert Uses(op, c);
    case _ =>
  }

  lemma EmittedPrefix(g: Gen, h: Gen)
    requires Follows(g, h)
    ensures |Emitted(h)| >= |Emitted(g)| && Emitted(h)[..|g.code|] == Emitted(g)
    ensures Emitted(h) == Emitted(g) + Seg(g, h)
  {
    forall i | 0 <= i < |g.code|
      ensures Emitted(h)[i] == Emitted(g)[i]
    {
      NumberedSteady(g.code[i], g.p.regs, h.p.regs);
    }
  }

  lemma SteadyOn(a: seq<Reg>, b: seq<Reg>, c: seq<Reg>)
    requires Steady(a, b) && Steady(b, c)
    ensures Steady(a, c)
  {
  }

  lemma FollowsOn(g: Gen, h: Gen, k: Gen)
    requires Follows(g, h) && Follows(h, k)
    ensures Follows(g, k) && Seg(g, k) == Seg(g, h) + Seg(h, k)
  {
    hide Ok, OpSane;
    SteadyOn(g.p.regs, h.p.regs, k.p.regs);
    EmittedPrefix(h, k);
  }

  lemma FollowsEmit(g: Gen, op: Op<nat>)
    requires Sane(g) && OpSane(op, g.p.regs)
    ensures var h := g.(code := g.code + [op]); Grows(g, h) && Seg(g, h) == [Numbered(op, g.p.regs)]
  {
    hide Ok, OpSane;
  }

  // Only objects that no instruction uses changed.
  lemma FollowsPool(g: Gen, p: Pool)
    requires Sane(g) && Ok(p, {}) && Steady(g.p.regs, p.regs) && forall n :: Local(g.p, n) ==> Local(p, n)
    ensures var h := g.(p := p); Follows(g, h) && Seg(g, h) == []
  {
    hide Ok;
    forall i | 0 <= i < |g.code|
      ensures OpSane(g.code[i], p.regs)
    {
      NumberedSteady(g.code[i], g.p.regs, p.regs);
    }
  }

  // Register numbers fit the machine.
  lemma NumberedInFile(g: Gen, op: Op<nat>)
    requires Sane(g) && OpSane(op, g.p.regs)
    ensures InFile(Numbered(op, g.p.regs))
  {
    forall id | Uses(op, id)
      ensures Number(g.p.regs, id) < REGISTERS
    {
      assert InRange(g.p, id);
    }
    match op
    case Load(d, _) => assert Uses(op, d);
    case Move(d, s) => assert Uses(op, d) && Uses(op, s);
    case Unary(_, d, s) => assert Uses(op, d) && Uses(op, s);
    case Binary(_, d, s1, s2) => assert Uses(op, d) && Uses(op, s1) && Uses(op, s2);
    case BinaryImm(_, d, s, _) => assert Uses(op, d) && Uses(op, s);
    case UpdateImm(_, d, _) => assert Uses(op, d);
    case JumpFalse(c, _) => assert Uses(op, c);
    case JumpTrue(c, _) => assert Uses(op, c);
    case _ =>
  }

  // ---------------- what must survive ----------------

  ghost function Keep(p: Pool): set<nat> {
    set n: nat | n < REGISTERS && Kept(p, n)
  }

  lemma {:induction false} HoldersMore(a: seq<Reg>, b: seq<Reg>, n: nat)
    requires a <= b
    ensures Holders(a, n) <= Holders(b, n)
    decreases |b|
  {
    if |a| == |b| {
      assert a == b;
    } else {
      assert a <= b[..|b| - 1];
      HoldersMore(a, b[..|b| - 1], n);
    }
  }

  lemma KeepGrows(p: Pool, q: Pool)
    requires p.regs <= q.regs && forall n :: Local(p, n) ==> Local(q, n)
    ensures Keep(p) <= Keep(q)
  {
    forall n | n in Keep(p)
      ensures n in Keep(q)
    {
      HoldersMore(p.regs, q.regs, n);
    }
  }

  // Where the value of an object is.
  ghost function PlaceOf(r: Reg): Place {
    if r.kind.Deferred? then Later(r.kind.lit) else InReg(r.number)
  }

  // Objects whose values count.
  predicate Standing(r: Reg) { r.kind.Named? || Live(r) || r.kind.Deferred? }

  lemma PlaceKept(p: Pool, id: nat)
    requires Ok(p, {}) && id < |p.regs| && Standing(p.regs[id]) && !p.regs[id].kind.Deferred?
    ensures p.regs[id].number in Keep(p)
  {
    assert InRange(p, id);
    if Live(p.regs[id]) { HoldersLive(p.regs, id); }
  }

  // ---------------- renaming ----------------

  // The object is nowhere in the code but as the target of the last instruction.
  ghost predicate MadeLast(code: seq<Op<nat>>, id: nat) {
    && |code| > 0
    && (forall i :: 0 <= i < |code| - 1 ==> !Uses(code[i], id))
    && Straight(code[|code| - 1]) && code[|code| - 1].dst == id && !Reads(code[|code| - 1], id)
  }

  lemma NumberedUnused(op: Op<nat>, regs: seq<Reg>, id: nat, r: Reg)
    requires id < |regs| && !Uses(op, id)
    ensures Numbered(op, regs[id := r]) == Numbered(op, regs)
  {
    match op
    case Load(d, _) => assert Uses(op, d);
    case Move(d, s) => assert Uses(op, d) && Uses(op, s);
    case Unary(_, d, s) => assert Uses(op, d) && Uses(op, s);
    case Binary(_, d, s1, s2) => assert Uses(op, d) && Uses(op, s1) && Uses(op, s2);
    case BinaryImm(_, d, s, _) => assert Uses(op, d) && Uses(op, s);
    case UpdateImm(_, d, _) => assert Uses(op, d);
    case JumpFalse(c, _) => assert Uses(op, c);
    case JumpTrue(c, _) => assert Uses(op, c);
    case _ =>
  }

  lemma NumberedTarget(op: Op<nat>, regs: seq<Reg>, id: nat, r: Reg)
    requires id < |regs| && Straight(op) && op.dst == id && !Reads(op, id)
    ensures Straight(Numbered(op, regs)) && !op.UpdateImm?
    ensures Numbered(op, regs[id := r]) == Retarget(Numbered(op, regs), r.number)
  {
  }

  // Renaming such an object redirects the last instruction and no other.
  lemma Renamed(g: Gen, id: nat, r: Reg)
    requires id < |g.p.regs| && MadeLast(g.code, id)
    ensures var h := g.(p := g.p.(regs := g.p.regs[id := r]));
            var n := |g.code| - 1;
            && Straight(Emitted(g)[n]) && !Emitted(g)[n].UpdateImm?
            && Emitted(h) == Emitted(g)[..n] + [Retarget(Emitted(g)[n], r.number)]
  {
    var h := g.(p := g.p.(regs := g.p.regs[id := r]));
    var n := |g.code| - 1;
    NumberedTarget(g.code[n], g.p.regs, id, r);
    forall i | 0 <= i < n
      ensures Emitted(h)[i] == Emitted(g)[i]
    {
      NumberedUnused(g.code[i], g.p.regs, id, r);
    }
  }
}
