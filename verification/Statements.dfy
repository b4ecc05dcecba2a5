// Compiled statements: code that grew, implements its task, and marks only
// labels of its own.
module Statements {
  import opened Script
  import opened Machine
  import opened RegAlloc
  import opened Translation
  import opened Simulation
  import opened Emission
  import opened Operands

  // The counters new labels are numbered from.
  datatype Counters = Counters(labels: nat, loops: nat)

  ghost predicate NotBefore(a: Counters, b: Counters) { a.labels <= b.labels && a.loops <= b.loops }

  ghost predicate InSpan(l: Label, a: Counters, b: Counters) {
    if l.kind.ElseLabel? || l.kind.EndIf? then a.labels <= l.id < b.labels else a.loops <= l.id < b.loops
  }

  ghost function LabelsOf(seg: Code): set<Label> {
    set i | 0 <= i < |seg| && seg[i].Mark? :: seg[i].to
  }

  // No label is marked twice, and all were numbered between a and b.
  ghost predicate Marks(seg: Code, a: Counters, b: Counters) {
    NotBefore(a, b) && LabelsApart(seg) && forall l :: l in LabelsOf(seg) ==> InSpan(l, a, b)
  }

  lemma LabelsCat(a: Code, b: Code)
    ensures LabelsOf(a + b) == LabelsOf(a) + LabelsOf(b)
    ensures LabelsApart(a) && LabelsApart(b) && LabelsOf(a) !! LabelsOf(b) ==> LabelsApart(a + b)
  {
    forall l | l in LabelsOf(b)
      ensures l in LabelsOf(a + b)
    {
      var i :| 0 <= i < |b| && b[i].Mark? && b[i].to == l;
      assert (a + b)[|a| + i] == b[i];
    }
    forall l | l in LabelsOf(a)
      ensures l in LabelsOf(a + b)
    {
      var i :| 0 <= i < |a| && a[i].Mark? && a[i].to == l;
      assert (a + b)[i] == a[i];
    }
    assert forall i :: 0 <= i < |a| && a[i].Mark? ==> a[i].to in LabelsOf(a);
    assert forall i :: 0 <= i < |b| && b[i].Mark? ==> b[i].to in LabelsOf(b);
  }

  lemma LabelsOne(op: Op<nat>)
    ensures LabelsOf([op]) == (if op.Mark? then {op.to} else {}) && LabelsApart([op])
  {
    if op.Mark? { assert [op][0].to in LabelsOf([op]); }
  }

  lemma MarksJoin(a: Code, b: Code, c0: Counters, c1: Counters, c2: Counters)
    requires Marks(a, c0, c1) && Marks(b, c1, c2)
    ensures Marks(a + b, c0, c2)
  {
    hide LabelsApart, LabelsOf;
    LabelsCat(a, b);
  }

  lemma MarksLine(seg: Code, c: Counters)
    requires Line(seg)
    ensures LabelsOf(seg) == {} && Marks(seg, c, c)
  {
  }

  // ---------------- where jumps go ----------------

  predicate Jumps(op: Op<nat>) { op.Jump? || op.JumpFalse? || op.JumpTrue? }

  ghost function JumpsOf(seg: Code): set<Label> {
    set i | 0 <= i < |seg| && Jumps(seg[i]) :: seg[i].to
  }

  // What break and next in a loop jump to.
  ghost function Exits(loop: nat): set<Label> {
    if loop == 0 then {} else {Exit(ByBreak, loop), Exit(ByNext, loop)}
  }

  // Every jump goes to a mark of the segment, or leaves the loop around it.
  ghost predicate Lands(seg: Code, loop: nat) {
    JumpsOf(seg) <= LabelsOf(seg) + Exits(loop)
  }

  lemma JumpsCat(a: Code, b: Code)
    ensures JumpsOf(a + b) == JumpsOf(a) + JumpsOf(b)
  {
    forall l | l in JumpsOf(b)
      ensures l in JumpsOf(a + b)
    {
      var i :| 0 <= i < |b| && Jumps(b[i]) && b[i].to == l;
      assert (a + b)[|a| + i] == b[i];
    }
    forall l | l in JumpsOf(a)
      ensures l in JumpsOf(a + b)
    {
      var i :| 0 <= i < |a| && Jumps(a[i]) && a[i].to == l;
      assert (a + b)[i] == a[i];
    }
  }

  lemma JumpsOne(op: Op<nat>)
    ensures JumpsOf([op]) == if Jumps(op) then {op.to} else {}
  {
    if Jumps(op) { assert [op][0].to in JumpsOf([op]); }
  }

  lemma LandsJoin(a: Code, b: Code, loop: nat)
    requires Lands(a, loop) && Lands(b, loop)
    ensures Lands(a + b, loop)
  {
    hide LabelsOf, JumpsOf;
    LabelsCat(a, b);
    JumpsCat(a, b);
  }

  lemma LandsLine(seg: Code, loop: nat)
    requires Line(seg)
    ensures JumpsOf(seg) == {} && Lands(seg, loop)
  {
  }

  // Straight code marks nothing and jumps nowhere.
  lemma LineMade(seg: Code, c: Counters, loop: nat)
    requires Line(seg)
    ensures Marks(seg, c, c) && Lands(seg, loop)
  {
    hide Marks, Lands;
    MarksLine(seg, c);
    LandsLine(seg, loop);
  }

  // ---------------- compiled tasks ----------------

  ghost predicate Compiled<V(!new)>(vm: Values<V>, t: Task, slots: Slots, slots': Slots, g: Gen, h: Gen, loop: nat,
                                    a: Counters, b: Counters) {
    Grows(g, h) && Implements(vm, t, slots, slots', Seg(g, h), loop) && Marks(Seg(g, h), a, b) && Lands(Seg(g, h), loop)
  }

  lemma ListStarts<V(!new)>(vm: Values<V>, slots: Slots, g: Gen, loop: nat, c: Counters)
    requires Sane(g)
    ensures Compiled(vm, Many([]), slots, slots, g, g, loop, c, c)
  {
    hide Implements;
    GrowsSelf(g);
    NothingToDo(vm, Many([]), slots, loop);
    LineMade([], c, loop);
  }

  // A statement more; in between only the pool was tidied.
  lemma ListStep<V(!new)>(vm: Values<V>, ss: seq<Stmt>, s: Stmt, s0: Slots, s1: Slots, s2: Slots, g: Gen, h: Gen, h': Gen,
                          k: Gen, loop: nat, c0: Counters, c1: Counters, c2: Counters)
    requires Compiled(vm, Many(ss), s0, s1, g, h, loop, c0, c1) && Grows(g, h') && Seg(g, h') == Seg(g, h)
    requires Compiled(vm, One(s), s1, s2, h', k, loop, c1, c2)
    ensures Compiled(vm, Many(ss + [s]), s0, s2, g, k, loop, c0, c2)
  {
    hide Implements, Ok, OpSane, Steady, Lands;
    GrowsOn(g, h', k);
    ListGrows(vm, ss, s, s0, s1, s2, Seg(g, h'), Seg(h', k), loop);
    MarksJoin(Seg(g, h'), Seg(h', k), c0, c1, c2);
    LandsJoin(Seg(g, h'), Seg(h', k), loop);
  }

  // What an if without else grows through: its test, a branch, its body, a mark.
  lemma IfMade<V(!new)>(vm: Values<V>, slots: Slots, inner: Slots, cond: Expr, body: seq<Stmt>, loop: nat, g: Gen, h: Gen, c: nat,
                        h': Gen, k: Gen, id: nat, a: Counters, b: Counters)
    requires |slots| > 0 && SlotsIn(slots, Keep(g.p)) && a.labels == id
    requires Evaluated(vm, slots, g, h, cond, c) && !h.p.regs[c].kind.Deferred?
    requires Branched(h, h', JumpFalse(c, Label(EndIf, id)), c)
    requires Compiled(vm, Many(body), slots + [map[]], inner, h', k, loop, a.(labels := id + 1), b)
    ensures Compiled(vm, One(If(cond, body, NoElse)), slots, slots, g, k.(code := k.code + [Mark(Label(EndIf, id))]), loop, a, b)
  {
    hide Implements, Ok, OpSane, Gives, Steady, Lands;
    var end, n := Label(EndIf, id), h.p.regs[c].number;
    TestBranched(vm, slots, g, h, h', cond, c, JumpFalse(c, end));
    GrowsOn(g, h', k);
    MarkSane(k.p.regs, end);
    GrowEmit(g, k, Mark(end));
    BlockDone(vm, body, slots, inner, Seg(h', k), loop);
    IfDone(vm, slots, cond, body, Keep(g.p), loop, Seg(g, h), n, Seg(h', k), end);
    assert Seg(g, k) + [Mark(end)] == IfCode(Seg(g, h), n, Seg(h', k), end);
    IfMarks(Seg(g, h), n, Seg(h', k), id, a, b);
    IfLands(Seg(g, h), n, Seg(h', k), end, loop);
  }

  lemma IfLands(test: Code, n: nat, then_: Code, end: Label, loop: nat)
    requires Line(test) && Lands(then_, loop)
    ensures Lands(IfCode(test, n, then_, end), loop)
  {
    hide LabelsOf, JumpsOf;
    var x: Code := test + [JumpFalse(n, end)];
    LandsLine(test, loop);
    MarksLine(test, Counters(0, 0));
    JumpsOne(JumpFalse(n, end));
    JumpsCat(test, [JumpFalse(n, end)]);
    LabelsOne(JumpFalse(n, end));
    LabelsCat(test, [JumpFalse(n, end)]);
    JumpsCat(x, then_);
    LabelsCat(x, then_);
    JumpsOne(Mark(end));
    LabelsOne(Mark(end));
    JumpsCat(x + then_, [Mark(end)]);
    LabelsCat(x + then_, [Mark(end)]);
  }

  lemma IfMarks(test: Code, n: nat, then_: Code, id: nat, a: Counters, b: Counters)
    requires Line(test) && a.labels == id && Marks(then_, a.(labels := id + 1), b)
    ensures Marks(IfCode(test, n, then_, Label(EndIf, id)), a, b)
  {
    hide LabelsApart, LabelsOf;
    var end := Label(EndIf, id);
    MarksLine(test, a);
    LabelsOne(JumpFalse(n, end));
    LabelsCat(test, [JumpFalse(n, end)]);
    LabelsCat(test + [JumpFalse(n, end)], then_);
    LabelsOne(Mark(end));
    LabelsCat(test + [JumpFalse(n, end)] + then_, [Mark(end)]);
  }

  lemma MarkSane(regs: seq<Reg>, l: Label)
    ensures OpSane(Mark(l), regs) && OpSane(Jump(l), regs)
  {
  }

  // The branch is emitted and the tested register released.
  ghost predicate Branched(h: Gen, h': Gen, op: Op<nat>, c: nat) {
    && (op.JumpFalse? || op.JumpTrue?) && op.cond == c
    && ReleasedFrom(h.(code := h.code + [op]), h', c)
  }

  lemma TestBranched<V(!new)>(vm: Values<V>, slots: Slots, g: Gen, h: Gen, h': Gen, cond: Expr, c: nat, op: Op<nat>)
    requires Evaluated(vm, slots, g, h, cond, c) && !h.p.regs[c].kind.Deferred? && Branched(h, h', op, c)
    ensures Grows(g, h') && Seg(g, h') == Seg(g, h) + [Numbered(op, h.p.regs)]
    ensures Gives(vm, slots, Seg(g, h), [Claim(cond, InReg(h.p.regs[c].number))], Keep(g.p)) && Line(Seg(g, h))
  {
    hide Gives, Ok, Steady;
    var o := Operand(cond, c);
    assert OperandOk(g, h, [o][0]);
    assert Claims([o], h.p.regs) == [Claim(cond, InReg(h.p.regs[c].number))];
    BranchSane(op, h.p.regs, c);
    GrowEmit(g, h, op);
    GrowReleased(g, h.(code := h.code + [op]), h', c);
    GivesLine(vm, slots, Seg(g, h), Claims([o], h.p.regs), Keep(g.p));
  }

  lemma BranchSane(op: Op<nat>, regs: seq<Reg>, c: nat)
    requires op.JumpFalse? || op.JumpTrue?
    requires op.cond == c < |regs| && !regs[c].kind.Deferred?
    ensures OpSane(op, regs)
  {
  }

  lemma IfElseMade<V(!new)>(vm: Values<V>, slots: Slots, inner: Slots, cond: Expr, body: seq<Stmt>, els: Else, loop: nat,
                            g: Gen, h: Gen, c: nat, h': Gen, k: Gen, k': Gen, m: Gen, id: nat,
                            a: Counters, mid: Counters, b: Counters)
    requires |slots| > 0 && SlotsIn(slots, Keep(g.p)) && a.labels == id
    requires Evaluated(vm, slots, g, h, cond, c) && !h.p.regs[c].kind.Deferred?
    requires Branched(h, h', JumpFalse(c, Label(ElseLabel, id)), c)
    requires Compiled(vm, Many(body), slots + [map[]], inner, h', k, loop, a.(labels := id + 2), mid)
    requires k' == k.(code := k.code + [Jump(Label(EndIf, id + 1)), Mark(Label(ElseLabel, id))])
    requires Compiled(vm, Other(els), slots, slots, k', m, loop, mid, b)
    ensures Compiled(vm, One(If(cond, body, els)), slots, slots, g,
                     m.(code := m.code + [Mark(Label(EndIf, id + 1))]), loop, a, b)
  {
    hide Implements, Ok, OpSane, Gives, Steady, Marks, Lands;
    var other, end, n := Label(ElseLabel, id), Label(EndIf, id + 1), h.p.regs[c].number;
    TestBranched(vm, slots, g, h, h', cond, c, JumpFalse(c, other));
    GrowsOn(g, h', k);
    MarkSane(k.p.regs, end);
    MarkSane(k.p.regs, other);
    GrowEmit(g, k, Jump(end));
    GrowEmit(g, k.(code := k.code + [Jump(end)]), Mark(other));
    assert (k.code + [Jump(end)]) + [Mark(other)] == k'.code;
    GrowsOn(g, k', m);
    MarkSane(m.p.regs, end);
    GrowEmit(g, m, Mark(end));
    BlockDone(vm, body, slots, inner, Seg(h', k), loop);
    IfElseDone(vm, slots, cond, body, els, Keep(g.p), loop, Seg(g, h), n, Seg(h', k), Seg(k', m), other, end);
    var test, then_, else_ := Seg(g, h), Seg(h', k), Seg(k', m);
    assert (((test + [JumpFalse(n, other)] + then_) + [Jump(end)]) + [Mark(other)]) + else_ + [Mark(end)]
        == IfElseCode(test, n, then_, else_, other, end);
    IfElseMarks(test, n, then_, else_, id, a, mid, b);
    IfElseLands(test, n, then_, else_, other, end, loop);
  }

  lemma IfElseLands(test: Code, n: nat, then_: Code, else_: Code, other: Label, end: Label, loop: nat)
    requires Line(test) && Lands(then_, loop) && Lands(else_, loop)
    ensures Lands(IfElseCode(test, n, then_, else_, other, end), loop)
  {
    hide LabelsOf, JumpsOf;
    var x: Code := test + [JumpFalse(n, other)];
    var over: Code := [Jump(end), Mark(other)];
    assert [Jump(end)] + [Mark(other)] == over;
    LandsLine(test, loop);
    MarksLine(test, Counters(0, 0));
    JumpsOne(JumpFalse(n, other));
    JumpsCat(test, [JumpFalse(n, other)]);
    LabelsOne(JumpFalse(n, other));
    LabelsCat(test, [JumpFalse(n, other)]);
    JumpsCat(x, then_);
    LabelsCat(x, then_);
    JumpsOne(Jump(end));
    LabelsOne(Jump(end));
    JumpsOne(Mark(other));
    LabelsOne(Mark(other));
    JumpsCat([Jump(end)], [Mark(other)]);
    LabelsCat([Jump(end)], [Mark(other)]);
    JumpsCat(x + then_, over);
    LabelsCat(x + then_, over);
    var y := x + then_ + over;
    JumpsCat(y, else_);
    LabelsCat(y, else_);
    JumpsOne(Mark(end));
    LabelsOne(Mark(end));
    JumpsCat(y + else_, [Mark(end)]);
    LabelsCat(y + else_, [Mark(end)]);
  }

  lemma IfElseMarks(test: Code, n: nat, then_: Code, else_: Code, id: nat, a: Counters, mid: Counters, b: Counters)
    requires Line(test) && a.labels == id && Marks(then_, a.(labels := id + 2), mid) && Marks(else_, mid, b)
    ensures Marks(IfElseCode(test, n, then_, else_, Label(ElseLabel, id), Label(EndIf, id + 1)), a, b)
  {
    hide LabelsApart, LabelsOf;
    var other, end := Label(ElseLabel, id), Label(EndIf, id + 1);
    MarksLine(test, a);
    LabelsOne(JumpFalse(n, other));
    LabelsCat(test, [JumpFalse(n, other)]);
    var x := test + [JumpFalse(n, other)];
    LabelsCat(x, then_);
    LabelsOne(Jump(end));
    LabelsOne(Mark(other));
    LabelsCat([Jump(end)], [Mark(other)]);
    var over: Code := [Jump(end), Mark(other)];
    assert [Jump(end)] + [Mark(other)] == over;
    LabelsCat(x + then_, over);
    var y := x + then_ + over;
    LabelsCat(y, else_);
    LabelsOne(Mark(end));
    LabelsCat(y + else_, [Mark(end)]);
  }

  // ---------------- loops ----------------

  ghost function LoopHead(isDo: bool, id: nat): seq<Op<nat>> {
    (if isDo then [] else [Jump(Label(LoopCond, id))]) + [Mark(Label(LoopBody, id))]
  }

  lemma HeadMade(g: Gen, isDo: bool, id: nat)
    requires Sane(g)
    ensures var h := g.(code := g.code + LoopHead(isDo, id)); Grows(g, h) && Seg(g, h) == LoopHead(isDo, id)
  {
    hide Ok, OpSane;
    GrowsSelf(g);
    MarkSane(g.p.regs, Label(LoopBody, id));
    MarkSane(g.p.regs, Label(LoopCond, id));
    if isDo {
      GrowEmit(g, g, Mark(Label(LoopBody, id)));
      assert LoopHead(isDo, id) == [Mark(Label(LoopBody, id))];
    } else {
      var m := g.(code := g.code + [Jump(Label(LoopCond, id))]);
      GrowEmit(g, g, Jump(Label(LoopCond, id)));
      GrowEmit(g, m, Mark(Label(LoopBody, id)));
      assert m.code + [Mark(Label(LoopBody, id))] == g.code + LoopHead(isDo, id);
    }
  }

  lemma WhileMade<V(!new)>(vm: Values<V>, slots: Slots, inner: Slots, isDo: bool, cond: Expr, body: seq<Stmt>, outer: nat,
                           g: Gen, g1: Gen, k: Gen, k1: Gen, h: Gen, c: nat, h': Gen, id: nat, a: Counters, b: Counters)
    requires |slots| > 0 && id > 0 && a.loops == id && Sane(g)
    requires g1 == g.(code := g.code + LoopHead(isDo, id))
    requires Compiled(vm, Many(body), slots + [map[]], inner, g1, k, id, a.(loops := id + 1), b)
    requires k1 == k.(code := k.code + [Mark(Label(LoopCond, id))]) && SlotsIn(slots, Keep(k1.p))
    requires Evaluated(vm, slots, k1, h, cond, c) && !h.p.regs[c].kind.Deferred?
    requires Branched(h, h', JumpTrue(c, Label(LoopBody, id)), c)
    ensures Compiled(vm, One(While(isDo, cond, body)), slots, slots, g,
                     h'.(code := h'.code + [Mark(Label(LoopEnd, id))]), outer, a, b)
  {
    hide Ok, OpSane, Gives, Steady, Marks, Lands;
    var n := h.p.regs[c].number;
    HeadMade(g, isDo, id);
    GrowsOn(g, g1, k);
    MarkSane(k.p.regs, Label(LoopCond, id));
    GrowEmit(g, k, Mark(Label(LoopCond, id)));
    TestBranched(vm, slots, k1, h, h', cond, c, JumpTrue(c, Label(LoopBody, id)));
    GrowsOn(g, k1, h');
    MarkSane(h'.p.regs, Label(LoopEnd, id));
    GrowEmit(g, h', Mark(Label(LoopEnd, id)));
    var code_, test := Seg(g1, k), Seg(k1, h);
    assert Outer(inner) == slots by { assert Outer(slots + [map[]]) == slots; }
    WhileDone(vm, slots, inner, isDo, cond, body, Keep(k1.p), outer, id, test, n, code_);
    LoopShape(isDo, code_, test, n, id);
    LoopMarks(isDo, code_, test, n, id, a, b);
    LoopLands(isDo, code_, test, n, id, outer);
  }

  // break and next of the body land on the loop's own marks.
  lemma LoopLands(isDo: bool, code_: Code, test: Code, n: nat, id: nat, outer: nat)
    requires Line(test) && Lands(code_, id)
    ensures Lands(LoopCode(isDo, code_, test, n, id), outer)
  {
    hide LabelsOf, JumpsOf;
    var top, mid, end := Label(LoopBody, id), Label(LoopCond, id), Label(LoopEnd, id);
    JumpsOne(Mark(top));
    JumpsOne(Mark(mid));
    JumpsOne(Mark(end));
    JumpsOne(Jump(mid));
    JumpsOne(JumpTrue(n, top));
    LabelsOne(Mark(top));
    LabelsOne(Mark(mid));
    LabelsOne(Mark(end));
    LabelsOne(Jump(mid));
    LabelsOne(JumpTrue(n, top));
    LabelsCat([Jump(mid)], [Mark(top)]);
    JumpsCat([Jump(mid)], [Mark(top)]);
    var head: Code := LoopHead(isDo, id);
    assert head == if isDo then [Mark(top)] else [Jump(mid)] + [Mark(top)];
    LabelsCat(head, code_);
    JumpsCat(head, code_);
    LabelsCat(head + code_, [Mark(mid)]);
    JumpsCat(head + code_, [Mark(mid)]);
    LandsLine(test, outer);
    MarksLine(test, Counters(0, 0));
    LabelsCat(test, [JumpTrue(n, top)]);
    JumpsCat(test, [JumpTrue(n, top)]);
    var x := (head + code_) + [Mark(mid)];
    var y := test + [JumpTrue(n, top)];
    LabelsCat(x, y);
    JumpsCat(x, y);
    LabelsCat(x + y, [Mark(end)]);
    JumpsCat(x + y, [Mark(end)]);
    LoopShape(isDo, code_, test, n, id);
    assert Exits(id) <= {mid, end};
  }

  lemma LoopShape(isDo: bool, code_: Code, test: Code, n: nat, id: nat)
    ensures ((LoopHead(isDo, id) + code_) + [Mark(Label(LoopCond, id))])
            + (test + [JumpTrue(n, Label(LoopBody, id))]) + [Mark(Label(LoopEnd, id))]
         == LoopCode(isDo, code_, test, n, id)
  {
  }

  lemma LoopMarks(isDo: bool, code_: Code, test: Code, n: nat, id: nat, a: Counters, b: Counters)
    requires Line(test) && a.loops == id && Marks(code_, a.(loops := id + 1), b)
    ensures Marks(LoopCode(isDo, code_, test, n, id), a, b)
  {
    hide LabelsApart, LabelsOf;
    var top, mid, end := Label(LoopBody, id), Label(LoopCond, id), Label(LoopEnd, id);
    LabelsOne(Mark(top));
    LabelsOne(Mark(mid));
    LabelsOne(Mark(end));
    LabelsOne(Jump(mid));
    LabelsOne(JumpTrue(n, top));
    LabelsCat([Jump(mid)], [Mark(top)]);
    var head: Code := LoopHead(isDo, id);
    assert head == if isDo then [Mark(top)] else [Jump(mid)] + [Mark(top)];
    LabelsCat(head, code_);
    LabelsCat(head + code_, [Mark(mid)]);
    MarksLine(test, a);
    LabelsCat(test, [JumpTrue(n, top)]);
    var x := (head + code_) + [Mark(mid)];
    var y := test + [JumpTrue(n, top)];
    LabelsCat(x, y);
    LabelsCat(x + y, [Mark(end)]);
    LoopShape(isDo, code_, test, n, id);
  }

  lemma LeaveMade<V(!new)>(vm: Values<V>, how: How, slots: Slots, g: Gen, loop: nat, c: Counters)
    requires Sane(g) && how != Normally && loop != 0 && |slots| > 0
    ensures Compiled(vm, One(if how == ByBreak then Break else Next), slots, slots, g,
                     g.(code := g.code + [Jump(Exit(how, loop))]), loop, c, c)
  {
    hide Implements, Ok, OpSane, Marks;
    GrowsSelf(g);
    MarkSane(g.p.regs, Exit(how, loop));
    GrowEmit(g, g, Jump(Exit(how, loop)));
    var k := g.(code := g.code + [Jump(Exit(how, loop))]);
    assert Seg(g, k) == [Jump(Exit(how, loop))];
    LeaveDone(vm, how, slots, loop);
    JumpMarks(Exit(how, loop), c);
    JumpsOne(Jump(Exit(how, loop)));
  }

  lemma JumpMarks(l: Label, c: Counters)
    ensures Marks([Jump(l)], c, c)
  {
  }
}
