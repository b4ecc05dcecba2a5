// The code generator: walks the tree, hands out registers and emits
// instructions, and what it emits does what the evaluator does.
module Codegen {
  import opened Script
  import opened Machine
  import opened RegAlloc
  import opened Translation
  import opened Simulation
  import opened Emission
  import opened Operands
  import opened Statements

  // A block being compiled: its names' register objects, and the loop it is
  // the body of, 0 for none.
  datatype Scope = Scope(locals: map<string, nat>, loop: nat)

  ghost function SlotMap(locals: map<string, nat>, regs: seq<Reg>): map<string, nat> {
    map x | x in locals :: Number(regs, locals[x])
  }

  ghost function SlotsOf(scopes: seq<Scope>, regs: seq<Reg>): Slots {
    seq(|scopes|, i requires 0 <= i < |scopes| => SlotMap(scopes[i].locals, regs))
  }

  // The object is the one of the last scope that holds the name.
  ghost predicate Nearest(scopes: seq<Scope>, name: string, id: Option<nat>) {
    match id
    case None => forall j :: 0 <= j < |scopes| ==> name !in scopes[j].locals
    case Some(r) =>
      exists i :: 0 <= i < |scopes| && name in scopes[i].locals && scopes[i].locals[name] == r &&
        forall j :: i < j < |scopes| ==> name !in scopes[j].locals
  }

  ghost predicate NamesSane(scopes: seq<Scope>, p: Pool) {
    forall i, x :: 0 <= i < |scopes| && x in scopes[i].locals ==>
      scopes[i].locals[x] < |p.regs| && p.regs[scopes[i].locals[x]].kind.Named?
  }

  ghost predicate ScopesSane(scopes: seq<Scope>, p: Pool) {
    |scopes| > 0 && NamesSane(scopes, p) && Apart(SlotsOf(scopes, p.regs))
  }

  lemma SlotsStay(scopes: seq<Scope>, p: Pool, q: Pool)
    requires ScopesSane(scopes, p) && p.regs <= q.regs
    ensures ScopesSane(scopes, q) && SlotsOf(scopes, q.regs) == SlotsOf(scopes, p.regs)
  {
    hide Apart;
    forall i | 0 <= i < |scopes|
      ensures SlotMap(scopes[i].locals, q.regs) == SlotMap(scopes[i].locals, p.regs)
    {
    }
    assert SlotsOf(scopes, q.regs) == SlotsOf(scopes, p.regs);
  }

  lemma SlotsKept(scopes: seq<Scope>, p: Pool)
    requires ScopesSane(scopes, p) && Ok(p, {})
    ensures SlotsIn(SlotsOf(scopes, p.regs), Keep(p))
  {
    hide Apart;
    forall i, x | 0 <= i < |scopes| && x in scopes[i].locals
      ensures p.regs[scopes[i].locals[x]].number in Keep(p)
    {
      PlaceKept(p, scopes[i].locals[x]);
    }
  }

  lemma FirstScope(scopes: seq<Scope>, p: Pool)
    requires p.regs == [Reg(0, Named, false, false), Reg(GLOBAL, Named, false, false)]
    requires scopes == [Scope(map["self" := 0, "_global" := 1], 0)]
    ensures ScopesSane(scopes, p) && SlotsOf(scopes, p.regs) == [map["self" := 0, "_global" := GLOBAL]]
  {
    assert SlotMap(scopes[0].locals, p.regs) == map["self" := 0, "_global" := GLOBAL];
  }

  // The innermost loop around a block.
  function CurLoop(scopes: seq<Scope>): nat {
    if |scopes| == 0 then 0
    else if scopes[|scopes| - 1].loop != 0 then scopes[|scopes| - 1].loop
    else CurLoop(scopes[..|scopes| - 1])
  }

  // ---------------- what compiles ----------------

  ghost function Domains(slots: Slots): seq<set<string>> {
    seq(|slots|, i requires 0 <= i < |slots| => slots[i].Keys)
  }

  ghost predicate Known(id: string, names: seq<set<string>>) {
    exists i :: 0 <= i < |names| && id in names[i]
  }

  lemma {:induction false} LevelKnown(slots: Slots, id: string)
    ensures Level(slots, id).Some? <==> Known(id, Domains(slots))
    decreases |slots|
  {
    if |slots| > 0 {
      var n := |slots| - 1;
      LevelKnown(slots[..n], id);
      assert id in slots[n] <==> id in Domains(slots)[n];
      assert forall i :: 0 <= i < n ==> Domains(slots[..n])[i] == Domains(slots)[i];
      if Known(id, Domains(slots)) {
        var i :| 0 <= i < |slots| && id in Domains(slots)[i];
        assert i == n || id in Domains(slots[..n])[i];
      }
    }
  }

  // Every name of the expression is declared.
  ghost predicate NamesKnown(e: Expr, names: seq<set<string>>) {
    match e
    case Literal(_) => true
    case Name(id) => Known(id, names)
    case Prefix(_, arg) => NamesKnown(arg, names)
    case Infix(_, left, right) => NamesKnown(left, names) && NamesKnown(right, names)
  }

  ghost function AddName(names: seq<set<string>>, id: string): seq<set<string>> {
    if |names| == 0 then names else names[|names| - 1 := names[|names| - 1] + {id}]
  }

  ghost function NamesAfter(s: Stmt, names: seq<set<string>>): seq<set<string>> {
    if s.Var? || s.VarAssign? then AddName(names, s.id) else names
  }

  ghost function NamesAfterAll(ss: seq<Stmt>, names: seq<set<string>>): seq<set<string>> {
    if |ss| == 0 then names else NamesAfter(ss[|ss| - 1], NamesAfterAll(ss[..|ss| - 1], names))
  }

  // Names are declared before use, and break and next stand in loops.
  ghost predicate StmtOk(s: Stmt, names: seq<set<string>>, inLoop: bool)
    decreases s
  {
    match s
    case Eval(e) => NamesKnown(e, names)
    case Var(_) => true
    case VarAssign(id, e) => NamesKnown(e, AddName(names, id))
    case Assign(id, e) => Known(id, names) && NamesKnown(e, names)
    case OpAssign(_, id, e) => Known(id, names) && NamesKnown(e, names)
    case If(cond, body, els) =>
      && NamesKnown(cond, names) && ListOk(body, names + [{}], inLoop)
      && ElseOk(els, names, inLoop)
    case While(_, cond, body) => NamesKnown(cond, names) && ListOk(body, names + [{}], true)
    case Break => inLoop
    case Next => inLoop
  }

  ghost predicate ElseOk(els: Else, names: seq<set<string>>, inLoop: bool)
    decreases els
  {
    match els
    case NoElse => true
    case ElseIf(s) => s.If? && StmtOk(s, names, inLoop)
    case ElseBlock(body) => ListOk(body, names + [{}], inLoop)
  }

  ghost predicate ListOk(ss: seq<Stmt>, names: seq<set<string>>, inLoop: bool)
    decreases ss
  {
    |ss| == 0 ||
    (&& ListOk(ss[..|ss| - 1], names, inLoop)
     && StmtOk(ss[|ss| - 1], NamesAfterAll(ss[..|ss| - 1], names), inLoop))
  }

  // Only the innermost block may have gained names.
  ghost predicate TopOnly(a: seq<Scope>, b: seq<Scope>) {
    && |a| == |b| > 0 && a[|a| - 1].loop == b[|b| - 1].loop
    && forall i :: 0 <= i < |a| - 1 ==> a[i] == b[i]
  }

  lemma SlotSmall(slots: Slots, id: string)
    requires Apart(slots) && Level(slots, id).Some?
    ensures Slot(slots, id) < REGISTERS
  {
  }

  lemma TopOnlyLoop(a: seq<Scope>, b: seq<Scope>)
    requires TopOnly(a, b)
    ensures CurLoop(a) == CurLoop(b)
  {
    assert a[..|a| - 1] == b[..|b| - 1];
  }

  class Generator<V(!new)> {
    ghost const vm: Values<V>
    const alloc: Allocator
    var code: seq<Op<nat>>
    var scopes: seq<Scope>
    var labelNext: nat
    var loopNext: nat

    ghost function G(): Gen
      reads this, alloc
    {
      Gen(alloc.P(), code)
    }

    ghost function Names(): Slots
      reads this, alloc
    {
      SlotsOf(scopes, alloc.regs)
    }

    ghost predicate Valid()
      reads this, alloc
    {
      Sane(G()) && ScopesSane(scopes, alloc.P()) && loopNext > 0
    }

    // A function's outermost block: register 0 is `self`, 255 the globals.
    constructor (ghost vm: Values<V>, loopNext: nat)
      requires loopNext > 0
      ensures Valid() && code == [] && this.vm == vm && this.loopNext == loopNext && fresh(alloc)
      ensures Names() == [map["self" := 0, "_global" := GLOBAL]] && CurLoop(scopes) == 0 && alloc.next == 1
    {
      this.vm := vm;
      this.loopNext, labelNext, code := loopNext, 0, [];
      alloc := new Allocator();
      scopes := [Scope(map[], 0)];
      new;
      hide Partitioned, InRange, Holders;
      var ok, self := alloc.AllocLocal();
      var glob := alloc.AddGlobal();
      scopes := [Scope(map["self" := self, "_global" := glob], 0)];
      FirstScope(scopes, alloc.P());
    }

    // ---------------- operands ----------------

    method Emit(op: Op<nat>)
      modifies `code
      ensures code == old(code) + [op]
    {
      code := code + [op];
    }

    // The nearest block that knows the name.
    method Find(name: string) returns (id: Option<nat>)
      requires ScopesSane(scopes, alloc.P())
      ensures id.Some? <==> Level(Names(), name).Some?
      ensures id.Some? ==>
                && id.value < |alloc.regs| && alloc.regs[id.value].kind.Named?
                && alloc.regs[id.value].number == Slot(Names(), name)
      ensures Nearest(scopes, name, id)
    {
      hide Apart, Partitioned, InRange, Holders, OpSane, Ok, Keep;
      ghost var slots := Names();
      var i := |scopes|;
      assert slots[..i] == slots;
      while i > 0
        invariant 0 <= i <= |scopes| == |slots|
        invariant Level(slots, name) == Level(slots[..i], name)
        invariant forall j :: i <= j < |scopes| ==> name !in scopes[j].locals
        modifies {}
      {
        i := i - 1;
        assert slots[..i + 1][..i] == slots[..i];
        if name in scopes[i].locals { return Some(scopes[i].locals[name]); }
      }
      return None;
    }

    // A deferred literal gets its register and is loaded; the object stays the same.
    method InRegister(id: nat) returns (ok: bool)
      requires Sane(G()) && id < |alloc.regs|
      modifies `code, alloc`regs, alloc`next, alloc`free
      ensures ok ==> LoadedFrom(old(G()), G(), id)
      ensures !ok ==> alloc.next == LIMIT
    {
      hide Partitioned, InRange, OpSane, Holders;
      ok := true;
      if alloc.regs[id].kind.Deferred? {
        var lit := alloc.regs[id].kind.lit;
        ok := alloc.Materialise(id);
        if ok { Emit(Load(id, lit)); }
      }
    }

    function IsI32(r: Reg): bool {
      r.kind.Deferred? && r.kind.lit.Int? && -0x8000_0000 <= r.kind.lit.n < 0x8000_0000
    }

    predicate SameNamed(a: Reg, b: Reg) {
      a.kind.Named? && b.kind.Named? && a.number == b.number
    }

    // The form with both operands in registers.
    method EmitRegisters(op: BinaryOp, dst: nat, src1: nat, src2: nat, ghost slots: Slots, ghost g: Gen, ghost a: Expr, ghost b: Expr)
      returns (ok: bool, ghost mid: Gen)
      requires Sane(G()) && Carries(vm, slots, g, G(), [Operand(a, src1), Operand(b, src2)])
      requires src1 < |alloc.regs| && !alloc.regs[src1].kind.Deferred?
      requires src2 < |alloc.regs| && (!alloc.regs[src2].kind.Named? ==> src1 != src2)
      requires dst < |alloc.regs| && (alloc.regs[dst].kind.Named? || (Live(alloc.regs[dst]) && dst != src1 && dst != src2))
      modifies `code, alloc`regs, alloc`next, alloc`free
      ensures !ok ==> alloc.next == LIMIT
      ensures ok ==>
                && |code| > 0 && mid == G().(code := code[..|code| - 1])
                && Carries(vm, slots, g, mid, [Operand(a, src1), Operand(b, src2)])
                && Decided(mid, code[|code| - 1], op, dst, src1, src2)
                && dst < |alloc.regs| && alloc.regs[dst] == old(alloc.regs)[dst]
                && (Unused(old(code), dst) && dst != src1 && dst != src2 ==> Unused(mid.code, dst))
    {
      hide Carries, Sane, Uses, Holders, Partitioned, InRange, OpSane, Apart, NamesSane, Evaluated, Yields, Unused, LoadedFrom, Nearest, ScopesSane, SlotsOf, Line, Lands, Level, Grows, NamesKnown, Known, SlotsIn, Ok, Keep, Seg, Numbered, InFile, Straight;
      ghost var ops := [Operand(a, src1), Operand(b, src2)];
      ghost var g1 := G();
      ok := InRegister(src2);
      mid := G();
      if !ok { return; }
      LoadedRegs(g1, mid, src2);
      CarriesLoaded(vm, slots, g, g1, mid, ops, 1);
      if dst != src2 { LoadedUnused(g1, mid, src2, dst); }
      Emit(Binary(op, dst, src1, src2));
    }

    // Picks the form of a binary instruction: a 32-bit literal on the right
    // becomes part of it, everything else goes through registers.
    method EmitDecide(op: BinaryOp, dst: nat, src1: nat, src2: nat, ghost slots: Slots, ghost g: Gen, ghost a: Expr, ghost b: Expr)
      returns (ok: bool, ghost mid: Gen)
      requires Sane(G()) && Carries(vm, slots, g, G(), [Operand(a, src1), Operand(b, src2)])
      requires src2 < |alloc.regs| && (!alloc.regs[src2].kind.Named? ==> src1 != src2)
      requires dst < |alloc.regs| && (alloc.regs[dst].kind.Named? || (Live(alloc.regs[dst]) && dst != src1 && dst != src2))
      modifies `code, alloc`regs, alloc`next, alloc`free
      ensures !ok ==> alloc.next == LIMIT
      ensures ok ==>
                && |code| > 0 && mid == G().(code := code[..|code| - 1])
                && Carries(vm, slots, g, mid, [Operand(a, src1), Operand(b, src2)])
                && Decided(mid, code[|code| - 1], op, dst, src1, src2)
                && dst < |alloc.regs| && alloc.regs[dst] == old(alloc.regs)[dst]
                && (Unused(old(code), dst) && dst != src1 && dst != src2 ==> Unused(mid.code, dst))
    {
      hide Carries, Sane, Uses, Holders, Partitioned, InRange, OpSane, Apart, NamesSane, Evaluated, Yields, Unused, LoadedFrom, Nearest, ScopesSane, SlotsOf, Line, Lands, Level, Grows, NamesKnown, Known, SlotsIn, Ok, Keep, Seg, Numbered, InFile, Straight;
      ghost var ops := [Operand(a, src1), Operand(b, src2)];
      ghost var g0 := G();
      assert OperandOk(g, g0, ops[0]) && OperandOk(g, g0, ops[1]) by { CarriesOk(vm, slots, g, g0, ops); }
      ok := InRegister(src1);
      mid := G();
      if !ok { return; }
      LoadedRegs(g0, mid, src1);
      CarriesLoaded(vm, slots, g, g0, mid, ops, 0);
      CarriesOk(vm, slots, g, mid, ops);
      if dst != src1 { LoadedUnused(g0, mid, src1, dst); }
      if IsI32(alloc.regs[src2]) {
        var imm := alloc.regs[src2].kind.lit.n;
        if SameNamed(alloc.regs[dst], alloc.regs[src1]) {
          Emit(UpdateImm(op, dst, imm));
        } else {
          Emit(BinaryImm(op, dst, src1, imm));
        }
      } else {
        ok, mid := EmitRegisters(op, dst, src1, src2, slots, g, a, b);
      }
    }

    // ---------------- expressions ----------------

    method ConsumeExpr(e: Expr) returns (ok: bool, res: nat)
      requires Sane(G()) && ScopesSane(scopes, alloc.P())
      modifies `code, alloc
      ensures !ok ==> alloc.next == LIMIT || !NamesKnown(e, Domains(old(Names())))
      ensures ok ==> Evaluated(vm, old(Names()), old(G()), G(), e, res)
      decreases e, 1
    {
      hide Carries, ResultOk, OpSane, Apart, Nearest, NamesSane, Holders, Partitioned, InRange;
      res := 0;
      ghost var g := G();
      match e
      case Literal(lit) =>
        res := alloc.Defer(Meant(lit));
        LiteralDone(vm, old(Names()), g, alloc.P(), lit);
        ok := true;
      case Name(name) =>
        var id := Find(name);
        ok := id.Some?;
        LevelKnown(Names(), name);
        if ok {
          res := id.value;
          NameDone(vm, Names(), g, name, res);
        }
      case Prefix(op, arg) => ok, res := EmitPrefix(op, arg);
      case Infix(op, left, right) => ok, res := EmitInfix(op, left, right);
    }

    method EmitPrefix(op: UnaryOp, arg: Expr) returns (ok: bool, dst: nat)
      requires Sane(G()) && ScopesSane(scopes, alloc.P())
      modifies `code, alloc
      ensures !ok ==> alloc.next == LIMIT || !NamesKnown(arg, Domains(old(Names())))
      ensures ok ==> Evaluated(vm, old(Names()), old(G()), G(), Prefix(op, arg), dst)
      decreases Prefix(op, arg), 0
    {
      hide Carries, ResultOk, Sane, Apart, NamesSane, Holders, Partitioned, InRange, Evaluated, OpSane, Uses, Yields, Unused;
      ghost var g, slots := G(), Names();
      dst := 0;
      var src;
      ok, src := ConsumeExpr(arg);
      if !ok { return; }
      ghost var g1 := G();
      ghost var ops := [Operand(arg, src)];
      EvaluatedOk(vm, slots, g, g1, arg, src);
      ok, dst := alloc.NewTmp();
      if !ok { return; }
      ghost var g2 := G();
      TmpJoins(vm, slots, g, g1, g2, ops);
      ok := InRegister(src);
      if !ok { return; }
      ghost var g3 := G();
      CarriesLoaded(vm, slots, g, g2, g3, ops, 0);
      LoadedUnused(g2, g3, src, dst);
      Emit(Unary(op, dst, src));
      PrefixMade(vm, slots, g, g3, op, Operand(arg, src), dst);
      ghost var g4 := G();
      alloc.Release(src);
      ResultReleased(vm, slots, g, g4, G(), Prefix(op, arg), dst, src);
    }

    method EmitInfix(op: BinaryOp, left: Expr, right: Expr) returns (ok: bool, dst: nat)
      requires Sane(G()) && ScopesSane(scopes, alloc.P())
      modifies `code, alloc
      ensures !ok ==> alloc.next == LIMIT || !NamesKnown(left, Domains(old(Names()))) || !NamesKnown(right, Domains(old(Names())))
      ensures ok ==> Evaluated(vm, old(Names()), old(G()), G(), Infix(op, left, right), dst)
      decreases Infix(op, left, right), 0
    {
      hide Carries, ResultOk, Sane, Apart, Holders, Partitioned, InRange, Evaluated, OpSane, Uses, Yields, Unused, Decided, NamesKnown, Known, SlotsIn, NamesSane, Nearest, ScopesSane, SlotsOf, Line, Lands, Level, Grows, LoadedFrom;
      ghost var g, slots, e := G(), Names(), Infix(op, left, right);
      dst := 0;
      var src1, src2;
      ok, src1 := ConsumeExpr(left);
      if !ok { return; }
      ghost var g1 := G();
      EvaluatedOk(vm, slots, g, g1, left, src1);
      SlotsStay(scopes, g.p, g1.p);
      ok, src2 := ConsumeExpr(right);
      if !ok { return; }
      ghost var g2 := G();
      EvaluatedOk(vm, slots, g1, g2, right, src2);
      ghost var a, b := Operand(left, src1), Operand(right, src2);
      SlotsKept(scopes, g.p);
      CarriesTwo(vm, slots, g, g1, g2, a, b);
      ok, dst := alloc.NewTmp();
      if !ok { return; }
      ghost var g3 := G();
      TmpJoins(vm, slots, g, g2, g3, [a, b]);
      ghost var mid;
      ok, mid := EmitDecide(op, dst, src1, src2, slots, g, left, right);
      if !ok { return; }
      ghost var g4 := G();
      CarriesOk(vm, slots, g, mid, [a, b]);
      InfixMade(vm, slots, g, mid, op, a, b, dst, code[|code| - 1]);
      assert g4 == mid.(code := mid.code + [code[|code| - 1]]);
      alloc.Release(src1);
      ghost var g5 := G();
      ResultReleased(vm, slots, g, g4, g5, e, dst, src1);
      alloc.Release(src2);
      ResultReleased(vm, slots, g, g5, G(), e, dst, src2);
    }

    // ---------------- statements ----------------

    ghost function Count(): Counters
      reads this
    {
      Counters(labelNext, loopNext)
    }

    // The value of an expression in a register.
    method ConsumeToReg(e: Expr) returns (ok: bool, res: nat)
      requires Sane(G()) && ScopesSane(scopes, alloc.P())
      modifies `code, alloc
      ensures !ok ==> alloc.next == LIMIT || !NamesKnown(e, Domains(old(Names())))
      ensures ok ==> Evaluated(vm, old(Names()), old(G()), G(), e, res) && !alloc.regs[res].kind.Deferred?
    {
      hide Carries, ResultOk, Sane, Apart, NamesSane, Holders, Partitioned, InRange, Evaluated, OpSane, Uses, Unused;
      ghost var g, slots := G(), Names();
      ok, res := ConsumeExpr(e);
      if !ok { return; }
      ghost var g1 := G();
      EvaluatedOk(vm, slots, g, g1, e, res);
      ok := InRegister(res);
      if !ok { return; }
      ResultLoaded(vm, slots, g, g1, G(), e, res);
    }

    // The source is renamed into the variable when it is a temporary, moved otherwise.
    method AssignOne(dst: nat, src: nat, ghost g: Gen, ghost slots: Slots, ghost id: string, ghost e: Expr, ghost loop: nat)
      requires Evaluated(vm, slots, g, G(), e, src) && !alloc.regs[src].kind.Deferred? && SlotsIn(slots, Keep(g.p))
      requires dst < |alloc.regs| && alloc.regs[dst].kind.Named?
      requires Level(slots, id).Some? && alloc.regs[dst].number == Slot(slots, id) < REGISTERS
      modifies `code, alloc`regs, alloc`sched
      ensures Grows(g, G()) && Line(Seg(g, G())) && Implements(vm, One(Assign(id, e)), slots, slots, Seg(g, G()), loop)
      ensures |alloc.regs| == |old(alloc.regs)| && alloc.regs[dst] == old(alloc.regs)[dst]
    {
      hide Carries, ResultOk, Sane, Apart, Holders, Partitioned, InRange, Evaluated, OpSane, Uses, Unused, Implements, Line, Lands, Level, Nearest;
      ghost var h := G();
      EvaluatedOk(vm, slots, g, h, e, src);
      var done := alloc.Rename(src, dst);
      if done {
        RenameDone(vm, slots, g, h, G(), e, src, id, loop);
      } else {
        Emit(Move(dst, src));
        MoveDone(vm, slots, g, h, e, dst, src, id, loop);
        ghost var k := G();
        if src != dst { alloc.Release(src); }
        ghost var m := G();
        if src != dst { GrowReleased(g, k, m, src); }
        alloc.Release(src);
        GrowReleased(g, m, G(), src);
      }
    }

    method EmitAssign(id: string, e: Expr) returns (ok: bool, prev: Option<nat>)
      requires Valid()
      modifies `code, alloc
      ensures ok ==> Compiled(vm, One(Assign(id, e)), old(Names()), old(Names()), old(G()), G(), CurLoop(scopes), Count(), Count())
      ensures ok ==> prev.Some? && prev.value < |alloc.regs| && alloc.regs[prev.value].kind.Named?
      ensures !ok ==> alloc.next == LIMIT || !StmtOk(Assign(id, e), Domains(old(Names())), CurLoop(scopes) != 0)
    {
      hide Carries, ResultOk, Apart, Holders, Partitioned, InRange, Evaluated, OpSane, Uses, Unused, Implements, Line, Lands, Level, Nearest;
      prev := None;
      ghost var g, slots := G(), Names();
      SlotsKept(scopes, g.p);
      var src;
      ok, src := ConsumeToReg(e);
      if !ok { return; }
      ghost var h := G();
      EvaluatedOk(vm, slots, g, h, e, src);
      SlotsStay(scopes, g.p, h.p);
      var dst := Find(id);
      LevelKnown(slots, id);
      ok := dst.Some?;
      if !ok { return; }
      SlotSmall(slots, id);
      AssignOne(dst.value, src, g, slots, id, e, CurLoop(scopes));
      LineMade(Seg(g, G()), Count(), CurLoop(scopes));
      prev := dst;
    }

    // An operation that updates a variable works on its register directly.
    method EmitAssignInfix(op: BinaryOp, id: string, e: Expr) returns (ok: bool, prev: Option<nat>)
      requires Valid()
      modifies `code, alloc
      ensures ok ==> Compiled(vm, One(OpAssign(op, id, e)), old(Names()), old(Names()), old(G()), G(), CurLoop(scopes), Count(), Count())
      ensures ok ==> prev.Some? && prev.value < |alloc.regs| && alloc.regs[prev.value].kind.Named?
      ensures !ok ==> alloc.next == LIMIT || !StmtOk(OpAssign(op, id, e), Domains(old(Names())), CurLoop(scopes) != 0)
    {
      hide Carries, ResultOk, Apart, Holders, Partitioned, InRange, Evaluated, OpSane, Uses, Unused, Implements, Line, Lands, Level, Nearest, Decided, Marks, NamesKnown, Known, ScopesSane, NamesSane, SlotsOf, LoadedFrom, SlotsIn, Yields;
      prev := None;
      ghost var g, slots := G(), Names();
      SlotsKept(scopes, g.p);
      var local := Find(id);
      LevelKnown(slots, id);
      ok := local.Some?;
      if !ok { return; }
      NameDone(vm, slots, g, id, local.value);
      EvaluatedOk(vm, slots, g, g, Name(id), local.value);
      var src2;
      ok, src2 := ConsumeExpr(e);
      if !ok { return; }
      ghost var h, a, b := G(), Operand(Name(id), local.value), Operand(e, src2);
      EvaluatedOk(vm, slots, g, h, e, src2);
      CarriesTwo(vm, slots, g, g, h, a, b);
      ghost var mid;
      ok, mid := EmitDecide(op, local.value, local.value, src2, slots, g, Name(id), e);
      if !ok { return; }
      ghost var k, last := G(), code[|code| - 1];
      assert k == mid.(code := mid.code + [last]);
      UpdateDone(vm, slots, g, mid, op, b, local.value, id, last, CurLoop(scopes));
      GrowsKeeps(g, k);
      alloc.Release(src2);
      GrowReleased(g, k, G(), src2);
      LineMade(Seg(g, G()), Count(), CurLoop(scopes));
      prev := local;
    }

    // A new local in the innermost block; declaring a name twice keeps the first.
    method Declare(id: string) returns (ok: bool, r: nat)
      requires Valid()
      modifies `scopes, alloc
      ensures !ok ==> alloc.next == LIMIT
      ensures ok ==>
                && Grows(old(G()), G()) && G().code == old(G()).code && r < |alloc.regs| && alloc.regs[r].kind.Named?
                && Seg(old(G()), G()) == [] && ScopesSane(scopes, alloc.P()) && TopOnly(old(scopes), scopes)
                && old(alloc.next) < LIMIT && alloc.next == old(alloc.next) + 1 && Names() == DeclareSlot(old(Names()), id, old(alloc.next))
                && !Kept(old(alloc.P()), old(alloc.next))
    {
      hide Apart, Holders, Partitioned, InRange, OpSane, Uses;
      ghost var g, slots := G(), Names();
      ok, r := alloc.AllocLocal();
      if !ok { return; }
      FollowsPool(g, alloc.P());
      SlotsStay(scopes, g.p, alloc.P());
      SlotsKept(scopes, g.p);
      var top := |scopes| - 1;
      if id in scopes[top].locals {
        r := scopes[top].locals[id];
      } else {
        NameJoins(scopes, alloc.P(), id, r);
        scopes := scopes[top := Scope(scopes[top].locals[id := r], scopes[top].loop)];
      }
    }

    method EmitDeclare(id: string) returns (ok: bool, prev: Option<nat>)
      requires Valid()
      modifies `scopes, alloc
      ensures !ok ==> alloc.next == LIMIT
      ensures ok ==>
                && Valid() && TopOnly(old(scopes), scopes) && Domains(Names()) == AddName(Domains(old(Names())), id)
                && Compiled(vm, One(Var(id)), old(Names()), Names(), old(G()), G(), CurLoop(old(scopes)), Count(), Count())
                && Seg(old(G()), G()) == []
                && prev.Some? && prev.value < |alloc.regs| && alloc.regs[prev.value].kind.Named?
    {
      hide Apart, Holders, Partitioned, InRange, OpSane, Uses, Implements, Lands, CurLoop, DeclareSlot;
      prev := None;
      ghost var g, slots, n := G(), Names(), alloc.next;
      SlotsKept(scopes, g.p);
      var r;
      ok, r := Declare(id);
      if !ok { return; }
      VarDone(vm, slots, id, n, CurLoop(old(scopes)));
      DeclareDomains(slots, id, n);
      LineMade([], Count(), CurLoop(old(scopes)));
      prev := Some(r);
    }

    method EmitVarAssign(id: string, e: Expr) returns (ok: bool, prev: Option<nat>)
      requires Valid()
      modifies `scopes, `code, alloc
      ensures !ok ==> alloc.next == LIMIT || !StmtOk(VarAssign(id, e), Domains(old(Names())), CurLoop(old(scopes)) != 0)
      ensures ok ==>
                && Valid() && TopOnly(old(scopes), scopes) && Domains(Names()) == AddName(Domains(old(Names())), id)
                && Compiled(vm, One(VarAssign(id, e)), old(Names()), Names(), old(G()), G(), CurLoop(old(scopes)), Count(), Count())
                && prev.Some? && prev.value < |alloc.regs| && alloc.regs[prev.value].kind.Named?
    {
      hide Apart, Holders, Partitioned, InRange, OpSane, Uses, Implements, Lands, CurLoop, DeclareSlot, AddName;
      ghost var g, slots, loop := G(), Names(), CurLoop(scopes);
      ok, prev := EmitDeclare(id);
      if !ok { return; }
      ghost var h, slots' := G(), Names();
      TopOnlyLoop(old(scopes), scopes);
      ok, prev := EmitAssign(id, e);
      if !ok {
        KnownAdded(Domains(slots), id);
        return;
      }
      GrowsOn(g, h, G());
      SlotsStay(scopes, h.p, alloc.P());
      assert [] + Seg(h, G()) == Seg(h, G());
      VarAssignDone(vm, slots, slots', id, e, Seg(h, G()), loop);
    }

    method EmitEval(e: Expr) returns (ok: bool, prev: Option<nat>)
      requires Valid()
      modifies `code, alloc
      ensures !ok ==> alloc.next == LIMIT || !StmtOk(Eval(e), Domains(old(Names())), CurLoop(scopes) != 0)
      ensures ok ==>
                && Compiled(vm, One(Eval(e)), old(Names()), old(Names()), old(G()), G(), CurLoop(scopes), Count(), Count())
                && prev.Some? && prev.value < |alloc.regs| && (alloc.regs[prev.value].kind.Tmp? ==> prev.value >= |old(alloc.regs)|)
    {
      hide ResultOk, Apart, Holders, Partitioned, InRange, OpSane, Uses, Implements, Lands, CurLoop, Line;
      prev := None;
      ghost var g, slots := G(), Names();
      SlotsKept(scopes, g.p);
      var res;
      ok, res := ConsumeExpr(e);
      if !ok { return; }
      EvaluatedOk(vm, slots, g, G(), e, res);
      ghost var ops := [Operand(e, res)];
      CarriesOk(vm, slots, g, G(), ops);
      GivesLine(vm, slots, Seg(g, G()), Claims(ops, alloc.regs), Keep(g.p));
      EvalDone(vm, slots, Seg(g, G()), e, Claims(ops, alloc.regs), Keep(g.p), CurLoop(scopes));
      LineMade(Seg(g, G()), Count(), CurLoop(scopes));
      assert OperandOk(g, G(), ops[0]);
      prev := Some(res);
    }

    // break and next: a jump to the end or the test of the innermost loop.
    method EmitLeave(how: How) returns (ok: bool)
      requires Valid() && how != Normally
      modifies `code
      ensures ok == (CurLoop(scopes) != 0)
      ensures ok ==>
                && Compiled(vm, One(if how == ByBreak then Break else Next), Names(), Names(), old(G()), G(),
                            CurLoop(scopes), Count(), Count())
    {
      hide Apart, Ok, OpSane, Compiled, CurLoop;
      var loop := CurLoop(scopes);
      ok := loop != 0;
      if ok {
        LeaveMade(vm, how, Names(), G(), loop, Count());
        Emit(Jump(Label(if how == ByBreak then LoopEnd else LoopCond, loop)));
      }
    }

    // ---------------- blocks, branches and loops ----------------

    // Between two statements: the last result is released, and everything
    // freed so far becomes reusable.
    method Tidy(prev: Option<nat>, ghost g: Gen)
      requires Valid() && Grows(g, G())
      requires prev.Some? ==> prev.value < |alloc.regs| && (alloc.regs[prev.value].kind.Tmp? ==> prev.value >= |g.p.regs|)
      modifies alloc`regs, alloc`sched, alloc`free
      ensures Valid() && Names() == old(Names()) && Grows(g, G()) && Seg(g, G()) == old(Seg(g, G())) && alloc.sched == []
    {
      hide Apart, Holders, Partitioned, InRange, OpSane;
      ghost var h := G();
      if prev.Some? {
        alloc.Release(prev.value);
        GrowReleased(g, h, G(), prev.value);
        SlotsReleased(scopes, h.p, alloc.P());
      }
      ghost var k := G();
      alloc.Commit();
      GrowPool(g, k, alloc.P());
    }

    method ConsumeStmt(s: Stmt) returns (ok: bool, prev: Option<nat>)
      requires Valid()
      modifies this, alloc
      ensures !ok ==> alloc.next == LIMIT || !StmtOk(s, Domains(old(Names())), CurLoop(old(scopes)) != 0)
      ensures ok ==>
                && Valid() && TopOnly(old(scopes), scopes) && Domains(Names()) == NamesAfter(s, Domains(old(Names())))
                && Compiled(vm, One(s), old(Names()), Names(), old(G()), G(), CurLoop(old(scopes)), old(Count()), Count())
      ensures ok && prev.Some? ==>
                prev.value < |alloc.regs| && (alloc.regs[prev.value].kind.Tmp? ==> prev.value >= |old(alloc.regs)|)
      decreases s, 1
    {
      hide Apart, Ok, OpSane, Implements, Lands, CurLoop, AddName, Marks, Known, ListOk, ElseOk;
      ghost var g := G();
      prev := None;
      match s
      case Eval(e) => ok, prev := EmitEval(e); if ok { SlotsStay(scopes, g.p, alloc.P()); }
      case Var(id) => ok, prev := EmitDeclare(id);
      case VarAssign(id, e) => ok, prev := EmitVarAssign(id, e);
      case Assign(id, e) => ok, prev := EmitAssign(id, e); if ok { SlotsStay(scopes, g.p, alloc.P()); }
      case OpAssign(op, id, e) => ok, prev := EmitAssignInfix(op, id, e); if ok { SlotsStay(scopes, g.p, alloc.P()); }
      case If(cond, body, els) => ok := EmitIf(cond, body, els);
      case While(isDo, cond, body) => ok := EmitWhile(isDo, cond, body);
      case Break => ok := EmitLeave(ByBreak);
      case Next => ok := EmitLeave(ByNext);
    }

    method ConsumeList(ss: seq<Stmt>) returns (ok: bool)
      requires Valid()
      modifies this, alloc
      ensures !ok ==> alloc.next == LIMIT || !ListOk(ss, Domains(old(Names())), CurLoop(old(scopes)) != 0)
      ensures ok ==>
                && Valid() && TopOnly(old(scopes), scopes) && Domains(Names()) == NamesAfterAll(ss, Domains(old(Names())))
                && Compiled(vm, Many(ss), old(Names()), Names(), old(G()), G(), CurLoop(old(scopes)), old(Count()), Count())
      decreases ss, 0
    {
      hide Apart, Ok, OpSane, Implements, Lands, CurLoop, Marks, ListOk, StmtOk, Grows;
      ghost var g, slots, c, loop := G(), Names(), Count(), CurLoop(scopes);
      ghost var names := Domains(slots);
      ListStarts(vm, slots, g, loop, c);
      var prev: Option<nat> := None;
      for i := 0 to |ss|
        invariant Valid() && TopOnly(old(scopes), scopes) && Domains(Names()) == NamesAfterAll(ss[..i], names)
        invariant Compiled(vm, Many(ss[..i]), slots, Names(), g, G(), loop, c, Count())
        invariant prev.Some? ==> prev.value < |alloc.regs| && (alloc.regs[prev.value].kind.Tmp? ==> prev.value >= |g.p.regs|)
      {
        ghost var h, c1, s1 := G(), Count(), Names();
        Tidy(prev, g);
        ghost var h' := G();
        TopOnlyLoop(old(scopes), scopes);
        ok, prev := ConsumeStmt(ss[i]);
        if !ok {
          if alloc.next != LIMIT { ListFails(ss, i, names, loop != 0); }
          return;
        }
        GrowsLonger(g, h');
        ListStep(vm, ss[..i], ss[i], slots, s1, Names(), g, h, h', G(), loop, c, c1, Count());
        assert ss[..i + 1] == ss[..i] + [ss[i]];
        assert ss[..i + 1][..i] == ss[..i];
      }
      assert ss[..|ss|] == ss;
      ok := true;
      if prev.Some? {
        ghost var h := G();
        alloc.Release(prev.value);
        GrowReleased(g, h, G(), prev.value);
        GrowsSane(g, G());
        SlotsReleased(scopes, h.p, alloc.P());
      }
    }

    // A block has its own names; the body of a loop also its number.
    method ConsumeBlock(body: seq<Stmt>, loopId: nat) returns (ok: bool, ghost inner: Slots)
      requires Valid()
      modifies this, alloc
      ensures !ok ==>
                alloc.next == LIMIT || !ListOk(body, Domains(old(Names())) + [{}], loopId != 0 || CurLoop(old(scopes)) != 0)
      ensures ok ==>
                && Valid() && scopes == old(scopes) && Names() == old(Names())
                && Compiled(vm, Many(body), old(Names()) + [map[]], inner, old(G()), G(),
                            if loopId != 0 then loopId else CurLoop(old(scopes)), old(Count()), Count())
      decreases body, 1
    {
      hide Apart, Ok, OpSane, Implements, Lands, Marks, ListOk, Grows;
      ghost var p := alloc.P();
      inner := [];
      BlockOpens(scopes, p, loopId);
      scopes := scopes + [Scope(map[], loopId)];
      ghost var inside := scopes;
      ok := ConsumeList(body);
      if !ok { return; }
      inner := Names();
      CompiledSane(vm, Many(body), old(Names()) + [map[]], inner, old(G()), G(), CurLoop(inside), old(Count()), Count());
      ghost var wide := scopes;
      scopes := scopes[..|scopes| - 1];
      BlockCloses(old(scopes), inside, wide, p, alloc.P());
    }

    method EmitIf(cond: Expr, body: seq<Stmt>, els: Else) returns (ok: bool)
      requires Valid()
      modifies this, alloc
      ensures !ok ==> alloc.next == LIMIT || !StmtOk(If(cond, body, els), Domains(old(Names())), CurLoop(old(scopes)) != 0)
      ensures ok ==>
                && Valid() && scopes == old(scopes) && Names() == old(Names())
                && Compiled(vm, One(If(cond, body, els)), old(Names()), Names(), old(G()), G(), CurLoop(old(scopes)), old(Count()), Count())
      decreases If(cond, body, els), 0
    {
      if els == NoElse {
        ok := EmitIfOnly(cond, body);
      } else {
        ok := EmitIfElse(cond, body, els);
      }
    }

    // The test of an if or a loop with its branch; the tested register is free afterwards.
    method EmitTest(cond: Expr, onTrue: bool, to: Label) returns (ok: bool, c: nat, ghost h: Gen)
      requires Valid()
      modifies `code, alloc
      ensures !ok ==> alloc.next == LIMIT || !NamesKnown(cond, Domains(old(Names())))
      ensures ok ==>
                && Valid() && Names() == old(Names()) && c < |h.p.regs| && !h.p.regs[c].kind.Deferred?
                && Evaluated(vm, Names(), old(G()), h, cond, c)
                && Branched(h, G(), if onTrue then JumpTrue(c, to) else JumpFalse(c, to), c)
    {
      hide Apart, Holders, Partitioned, InRange, OpSane, Evaluated;
      ghost var g, slots := G(), Names();
      h := g;
      ok, c := ConsumeToReg(cond);
      if !ok { return; }
      h := G();
      EvaluatedOk(vm, slots, g, h, cond, c);
      SlotsStay(scopes, g.p, h.p);
      BranchSane(if onTrue then JumpTrue(c, to) else JumpFalse(c, to), h.p.regs, c);
      if onTrue { Emit(JumpTrue(c, to)); } else { Emit(JumpFalse(c, to)); }
      ghost var k := G();
      GrowsSelf(h);
      GrowEmit(h, h, if onTrue then JumpTrue(c, to) else JumpFalse(c, to));
      alloc.Release(c);
      SlotsReleased(scopes, k.p, alloc.P());
      FollowsPool(k, alloc.P());
    }

    method EmitIfOnly(cond: Expr, body: seq<Stmt>) returns (ok: bool)
      requires Valid()
      modifies this, alloc
      ensures !ok ==> alloc.next == LIMIT || !StmtOk(If(cond, body, NoElse), Domains(old(Names())), CurLoop(old(scopes)) != 0)
      ensures ok ==>
                && Valid() && scopes == old(scopes) && Names() == old(Names())
                && Compiled(vm, One(If(cond, body, NoElse)), old(Names()), Names(), old(G()), G(), CurLoop(old(scopes)), old(Count()), Count())
      decreases body, 2
    {
      hide Apart, Ok, OpSane, Implements, Lands, Marks, ListOk, Grows, Evaluated, Branched, Compiled, CurLoop, Nearest, Level;
      ghost var g, slots, a, loop := G(), Names(), Count(), CurLoop(scopes);
      SlotsKept(scopes, g.p);
      var id := labelNext;
      ghost var h;
      var c;
      ok, c, h := EmitTest(cond, false, Label(EndIf, id));
      if !ok { return; }
      ghost var h' := G();
      labelNext := labelNext + 1;
      ghost var inner;
      ok, inner := ConsumeBlock(body, 0);
      if !ok { return; }
      ghost var k := G();
      Emit(Mark(Label(EndIf, id)));
      IfMade(vm, slots, inner, cond, body, loop, g, h, c, h', k, id, a, Count());
      MarkSane(k.p.regs, Label(EndIf, id));
      CompiledSane(vm, One(If(cond, body, NoElse)), slots, slots, g, G(), loop, a, Count());
    }

    method EmitIfElse(cond: Expr, body: seq<Stmt>, els: Else) returns (ok: bool)
      requires Valid() && els != NoElse
      modifies this, alloc
      ensures !ok ==> alloc.next == LIMIT || !StmtOk(If(cond, body, els), Domains(old(Names())), CurLoop(old(scopes)) != 0)
      ensures ok ==>
                && Valid() && scopes == old(scopes) && Names() == old(Names())
                && Compiled(vm, One(If(cond, body, els)), old(Names()), Names(), old(G()), G(), CurLoop(old(scopes)), old(Count()), Count())
      decreases If(cond, body, els), 0, 0
    {
      hide Apart, Ok, OpSane, Implements, Lands, Marks, ListOk, Grows, Evaluated, Branched, Compiled, CurLoop, Nearest, Level;
      ghost var g, slots, a, loop := G(), Names(), Count(), CurLoop(scopes);
      SlotsKept(scopes, g.p);
      var id := labelNext;
      ghost var h, inner;
      var c;
      ok, c, h := EmitTest(cond, false, Label(ElseLabel, id));
      if !ok { return; }
      ghost var h' := G();
      labelNext := labelNext + 2;
      ok, inner := ConsumeBlock(body, 0);
      if !ok { return; }
      ghost var k, mid := G(), Count();
      Emit(Jump(Label(EndIf, id + 1)));
      Emit(Mark(Label(ElseLabel, id)));
      ghost var k' := G();
      assert k'.code == k.code + [Jump(Label(EndIf, id + 1)), Mark(Label(ElseLabel, id))];
      MarksStaySane(k, k', Label(EndIf, id + 1), Label(ElseLabel, id));
      ok := EmitElse(els);
      if !ok { return; }
      ghost var m := G();
      Emit(Mark(Label(EndIf, id + 1)));
      IfElseMade(vm, slots, inner, cond, body, els, loop, g, h, c, h', k, k', m, id, a, mid, Count());
      CompiledSane(vm, One(If(cond, body, els)), slots, slots, g, G(), loop, a, Count());
    }

    method EmitElse(els: Else) returns (ok: bool)
      requires Valid() && els != NoElse
      modifies this, alloc
      ensures !ok ==> alloc.next == LIMIT || !ElseOk(els, Domains(old(Names())), CurLoop(old(scopes)) != 0)
      ensures ok ==>
                && Valid() && scopes == old(scopes) && Names() == old(Names())
                && Compiled(vm, Other(els), old(Names()), Names(), old(G()), G(), CurLoop(old(scopes)), old(Count()), Count())
      decreases els, 2
    {
      hide Apart, Ok, OpSane, Implements, Lands, Marks, ListOk, Grows, CurLoop;
      ghost var g, slots, loop := G(), Names(), CurLoop(scopes);
      match els
      case ElseIf(s) =>
        match s {
          case If(cond, body, rest) => ok := EmitIf(cond, body, rest);
          case _ => ok := false;
        }
        if ok {
          CompiledSane(vm, One(s), slots, slots, g, G(), loop, old(Count()), Count());
          ElseDone(vm, els, slots, Seg(g, G()), loop);
        }
      case ElseBlock(body) =>
        ghost var inner;
        ok, inner := ConsumeBlock(body, 0);
        if ok {
          CompiledSane(vm, Many(body), slots + [map[]], inner, g, G(), loop, old(Count()), Count());
          BlockDone(vm, body, slots, inner, Seg(g, G()), loop);
          ElseDone(vm, els, slots, Seg(g, G()), loop);
        }
    }

    method EmitWhile(isDo: bool, cond: Expr, body: seq<Stmt>) returns (ok: bool)
      requires Valid()
      modifies this, alloc
      ensures !ok ==> alloc.next == LIMIT || !StmtOk(While(isDo, cond, body), Domains(old(Names())), CurLoop(old(scopes)) != 0)
      ensures ok ==>
                && Valid() && scopes == old(scopes) && Names() == old(Names())
                && Compiled(vm, One(While(isDo, cond, body)), old(Names()), Names(), old(G()), G(), CurLoop(old(scopes)), old(Count()), Count())
      decreases body, 2
    {
      hide Apart, Ok, OpSane, Implements, Lands, Marks, ListOk, Grows, Evaluated, Branched, Compiled, CurLoop, Nearest, Level;
      ghost var g, slots, a, outer := G(), Names(), Count(), CurLoop(scopes);
      var id := loopNext;
      loopNext := loopNext + 1;
      HeadMade(g, isDo, id);
      if !isDo { Emit(Jump(Label(LoopCond, id))); }
      Emit(Mark(Label(LoopBody, id)));
      ghost var g1, inner := G(), [];
      assert g1.code == g.code + LoopHead(isDo, id);
      GrowsSane(g, g1);
      ok, inner := ConsumeBlock(body, id);
      if !ok { return; }
      ghost var k := G();
      Emit(Mark(Label(LoopCond, id)));
      ghost var k1 := G();
      MarkStaysSane(k, k1, Label(LoopCond, id));
      SlotsKept(scopes, k1.p);
      ghost var h;
      var c;
      ok, c, h := EmitTest(cond, true, Label(LoopBody, id));
      if !ok { return; }
      ghost var h' := G();
      Emit(Mark(Label(LoopEnd, id)));
      WhileMade(vm, slots, inner, isDo, cond, body, outer, g, g1, k, k1, h, c, h', id, a, Count());
      CompiledSane(vm, One(While(isDo, cond, body)), slots, slots, g, G(), outer, a, Count());
    }
  }

  lemma BlockOpens(scopes: seq<Scope>, p: Pool, loop: nat)
    requires ScopesSane(scopes, p)
    ensures var inside := scopes + [Scope(map[], loop)];
            && ScopesSane(inside, p) && SlotsOf(inside, p.regs) == SlotsOf(scopes, p.regs) + [map[]]
            && CurLoop(inside) == (if loop != 0 then loop else CurLoop(scopes))
            && Domains(SlotsOf(inside, p.regs)) == Domains(SlotsOf(scopes, p.regs)) + [{}]
  {
    var inside := scopes + [Scope(map[], loop)];
    var empty: map<string, nat> := map[];
    assert inside[..|scopes|] == scopes;
    assert SlotMap(inside[|scopes|].locals, p.regs) == empty;
    assert SlotsOf(inside, p.regs) == SlotsOf(scopes, p.regs) + [empty];
    assert empty.Keys == {};
  }

  lemma BlockCloses(scopes: seq<Scope>, inside: seq<Scope>, wide: seq<Scope>, p: Pool, q: Pool)
    requires ScopesSane(scopes, p) && |inside| == |scopes| + 1 && inside[..|scopes|] == scopes && TopOnly(inside, wide)
    requires p.regs <= q.regs
    ensures wide[..|wide| - 1] == scopes && ScopesSane(scopes, q) && SlotsOf(scopes, q.regs) == SlotsOf(scopes, p.regs)
  {
    hide Apart;
    SlotsStay(scopes, p, q);
  }

  lemma CompiledSane<V(!new)>(vm: Values<V>, t: Task, slots: Slots, slots': Slots, g: Gen, h: Gen, loop: nat, a: Counters, b: Counters)
    requires Compiled(vm, t, slots, slots', g, h, loop, a, b)
    ensures Sane(h) && g.p.regs <= h.p.regs && |g.code| <= |h.code|
  {
  }

  lemma GrowsSane(g: Gen, h: Gen)
    requires Grows(g, h)
    ensures Sane(h)
  {
  }

  lemma MarkStaysSane(k: Gen, k': Gen, l: Label)
    requires Sane(k) && k' == k.(code := k.code + [Mark(l)])
    ensures Sane(k')
  {
    MarkSane(k.p.regs, l);
  }

  lemma MarksStaySane(k: Gen, k': Gen, end: Label, other: Label)
    requires Sane(k) && k' == k.(code := k.code + [Jump(end), Mark(other)])
    ensures Sane(k')
  {
    MarkSane(k.p.regs, end);
    MarkSane(k.p.regs, other);
  }

  lemma GrowsKeeps(g: Gen, h: Gen)
    requires Grows(g, h)
    ensures forall id :: 0 <= id < |g.p.regs| ==> id < |h.p.regs| && h.p.regs[id] == g.p.regs[id]
  {
  }

  lemma GrowsLonger(g: Gen, h: Gen)
    requires Grows(g, h)
    ensures |g.p.regs| <= |h.p.regs|
  {
  }

  lemma SlotsReleased(scopes: seq<Scope>, p: Pool, q: Pool)
    requires ScopesSane(scopes, p) && |p.regs| == |q.regs|
    requires forall id :: 0 <= id < |p.regs| ==> q.regs[id].number == p.regs[id].number && q.regs[id].kind == p.regs[id].kind
    ensures ScopesSane(scopes, q) && SlotsOf(scopes, q.regs) == SlotsOf(scopes, p.regs)
  {
    hide Apart;
    forall i | 0 <= i < |scopes|
      ensures SlotMap(scopes[i].locals, q.regs) == SlotMap(scopes[i].locals, p.regs)
    {
    }
    assert SlotsOf(scopes, q.regs) == SlotsOf(scopes, p.regs);
  }

  lemma {:induction false} ListFails(ss: seq<Stmt>, i: nat, names: seq<set<string>>, inLoop: bool)
    requires i < |ss| && !StmtOk(ss[i], NamesAfterAll(ss[..i], names), inLoop)
    ensures !ListOk(ss, names, inLoop)
    decreases |ss|
  {
    if i < |ss| - 1 {
      assert ss[..|ss| - 1][..i] == ss[..i];
      ListFails(ss[..|ss| - 1], i, names, inLoop);
    }
  }

  lemma KnownAdded(names: seq<set<string>>, id: string)
    requires |names| > 0
    ensures Known(id, AddName(names, id))
  {
    assert id in AddName(names, id)[|names| - 1];
  }

  lemma DeclareDomains(slots: Slots, id: string, n: nat)
    requires |slots| > 0
    ensures Domains(DeclareSlot(slots, id, n)) == AddName(Domains(slots), id)
  {
    var top := |slots| - 1;
    assert DeclareSlot(slots, id, n)[top].Keys == slots[top].Keys + {id};
  }

  lemma NameJoins(scopes: seq<Scope>, p: Pool, id: string, r: nat)
    requires ScopesSane(scopes, p) && r < |p.regs| && p.regs[r].kind.Named? && p.regs[r].number < REGISTERS
    requires id !in scopes[|scopes| - 1].locals
    requires forall i, x :: 0 <= i < |scopes| && x in SlotsOf(scopes, p.regs)[i] ==> SlotsOf(scopes, p.regs)[i][x] != p.regs[r].number
    ensures var top := |scopes| - 1;
            var scopes' := scopes[top := Scope(scopes[top].locals[id := r], scopes[top].loop)];
            && ScopesSane(scopes', p) && TopOnly(scopes, scopes')
            && SlotsOf(scopes', p.regs) == DeclareSlot(SlotsOf(scopes, p.regs), id, p.regs[r].number)
  {
    hide Apart;
    var top, slots, n := |scopes| - 1, SlotsOf(scopes, p.regs), p.regs[r].number;
    var scopes' := scopes[top := Scope(scopes[top].locals[id := r], scopes[top].loop)];
    DeclareApart(slots, id, n);
    assert SlotMap(scopes'[top].locals, p.regs) == SlotMap(scopes[top].locals, p.regs)[id := n];
    assert SlotsOf(scopes', p.regs) == DeclareSlot(slots, id, n);
  }
}
