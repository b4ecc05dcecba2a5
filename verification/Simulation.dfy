// Emitted code simulates the evaluator: statements, lists, blocks and loops.
module Simulation {
  import opened Script
  import opened Machine
  import opened Translation

  // No label is marked twice.
  ghost predicate LabelsApart(code: Code) {
    forall i, j :: 0 <= i < j < |code| && code[i].Mark? && code[j].Mark? ==> code[i].to != code[j].to
  }

  lemma TargetIs(code: Code, p: nat)
    requires LabelsApart(code) && p < |code| && code[p].Mark?
    ensures Target(code, code[p].to) == p
  {
    var q := Target(code, code[p].to);
    assert TargetFrom(code, code[p].to, 0) == q;
    assert q <= p;
  }

  // ---------------- outcomes ----------------

  ghost predicate Arrives<V>(vm: Values<V>, code: Code, s: State<V>, k: nat, r: File<V>, pc: nat, env: Env<V>, slots: Slots)
    requires Sound(code, s)
  {
    Steps(vm, code, s, k) == Some(State(pc, r)) && Rel(env, slots, r)
  }

  // The machine gets from s to pc, with the registers holding the environment.
  ghost predicate Reaches<V(!new)>(vm: Values<V>, code: Code, s: State<V>, pc: nat, env: Env<V>, slots: Slots)
    requires Sound(code, s)
  {
    exists k: nat, r: File<V> :: Arrives(vm, code, s, k, r, pc, env, slots)
  }

  ghost function Outer<T>(levels: seq<T>): seq<T> {
    if |levels| == 0 then levels else levels[..|levels| - 1]
  }

  ghost function Exit(how: How, loop: nat): Label {
    Label(if how == ByBreak then LoopEnd else LoopCond, loop)
  }

  // The machine, started in s, does what the evaluator found out: it arrives
  // behind the code, or at the end or the test of the loop it leaves; and when
  // the evaluator ran out of fuel, it goes on for that many steps at least.
  ghost predicate Sim<V(!new)>(vm: Values<V>, code: Code, s: State<V>, end: nat, slots: Slots, loop: nat, fuel: nat,
                         res: Result<V>)
    requires Sound(code, s)
  {
    match res
    case Stuck => true
    case OutOfFuel => Steps(vm, code, s, fuel).Some?
    case Done(how, env) =>
      if how == Normally then Reaches(vm, code, s, end, env, slots)
      else
        && loop != 0 && |env| == |slots| > 0
        && Reaches(vm, code, s, Target(code, Exit(how, loop)), Outer(env), Outer(slots))
  }

  lemma ReachesVia<V(!new)>(vm: Values<V>, code: Code, s: State<V>, k: nat, t: State<V>, pc: nat, env: Env<V>, slots: Slots)
    requires Sound(code, s) && Steps(vm, code, s, k) == Some(t) && Reaches(vm, code, t, pc, env, slots)
    ensures Reaches(vm, code, s, pc, env, slots)
  {
    var j: nat, r: File<V> :| Arrives(vm, code, t, j, r, pc, env, slots);
    StepsAdd(vm, code, s, k, j);
    assert Arrives(vm, code, s, k + j, r, pc, env, slots);
  }

  // Steps before a simulation belong to it, and buy fuel.
  lemma SimVia<V(!new)>(vm: Values<V>, code: Code, s: State<V>, k: nat, t: State<V>, end: nat, slots: Slots, loop: nat,
                  fuel: nat, more: nat, res: Result<V>)
    requires Sound(code, s) && Steps(vm, code, s, k) == Some(t) && fuel <= more + k
    requires Sim(vm, code, t, end, slots, loop, more, res)
    ensures Sim(vm, code, s, end, slots, loop, fuel, res)
  {
    match res
    case Stuck =>
    case OutOfFuel =>
      StepsAdd(vm, code, s, k, more);
      StepsFewer(vm, code, s, fuel, more + k);
    case Done(how, env) =>
      if how == Normally {
        ReachesVia(vm, code, s, k, t, end, env, slots);
      } else {
        ReachesVia(vm, code, s, k, t, Target(code, Exit(how, loop)), Outer(env), Outer(slots));
      }
  }

  // ---------------- tasks ----------------

  datatype Task = One(s: Stmt) | Many(ss: seq<Stmt>) | Block(body: seq<Stmt>) | Other(els: Else)

  ghost function Does<V>(vm: Values<V>, t: Task, env: Env<V>, fuel: nat): Result<V> {
    match t
    case One(s) => Exec(vm, s, env, fuel)
    case Many(ss) => ExecList(vm, ss, env, fuel)
    case Block(body) => InBlock(ExecList(vm, body, env + [map[]], fuel))
    case Other(els) => ExecElse(vm, els, env, fuel)
  }

  ghost predicate Ready<V>(code: Code, lo: nat, seg: Code, r: File<V>) {
    Placed(code, lo, seg) && LabelsApart(code) && Sound(code, State(lo, r))
  }

  ghost predicate SimTask<V(!new)>(vm: Values<V>, t: Task, seg: Code, slots': Slots, loop: nat,
                                   code: Code, lo: nat, env: Env<V>, r: File<V>, fuel: nat)
    requires Sound(code, State(lo, r))
  {
    Sim(vm, code, State(lo, r), lo + |seg|, slots', loop, fuel, Does(vm, t, env, fuel))
  }

  // Wherever the segment stands in a program, it does its work; only
  // the innermost block may have gained names.
  ghost predicate Implements<V(!new)>(vm: Values<V>, t: Task, slots: Slots, slots': Slots, seg: Code, loop: nat) {
    && |slots| == |slots'| && Outer(slots) == Outer(slots')
    && forall code: Code, lo: nat, env: Env<V>, r: File<V>, fuel: nat ::
         Ready(code, lo, seg, r) && Rel(env, slots, r) ==>
           SimTask(vm, t, seg, slots', loop, code, lo, env, r, fuel)
  }

  // ---------------- lists and blocks ----------------

  lemma ArrivesNow<V(!new)>(vm: Values<V>, code: Code, s: State<V>, env: Env<V>, slots: Slots)
    requires Sound(code, s) && Rel(env, slots, s.file)
    ensures Reaches(vm, code, s, s.pc, env, slots)
  {
    assert Arrives(vm, code, s, 0, s.file, s.pc, env, slots);
  }

  lemma NothingToDo<V(!new)>(vm: Values<V>, t: Task, slots: Slots, loop: nat)
    requires t == Many([]) || t == Other(NoElse)
    ensures Implements(vm, t, slots, slots, [], loop)
  {
    forall code: Code, lo: nat, env: Env<V>, r: File<V>, fuel: nat | Ready(code, lo, [], r) && Rel(env, slots, r)
      ensures SimTask(vm, t, [], slots, loop, code, lo, env, r, fuel)
    {
      ArrivesNow(vm, code, State(lo, r), env, slots);
    }
  }

  lemma ReadyParts<V>(code: Code, lo: nat, a: Code, b: Code, r: File<V>)
    requires Ready(code, lo, a + b, r)
    ensures Ready(code, lo, a, r) && Placed(code, lo + |a|, b)
  {
    SplitPlaced(code, lo, a, b);
  }

  lemma ListGrows<V(!new)>(vm: Values<V>, ss: seq<Stmt>, s: Stmt, s0: Slots, s1: Slots, s2: Slots, a: Code, b: Code, loop: nat)
    requires Implements(vm, Many(ss), s0, s1, a, loop) && Implements(vm, One(s), s1, s2, b, loop)
    ensures Implements(vm, Many(ss + [s]), s0, s2, a + b, loop)
  {
    forall code: Code, lo: nat, env: Env<V>, r: File<V>, fuel: nat | Ready(code, lo, a + b, r) && Rel(env, s0, r)
      ensures SimTask(vm, Many(ss + [s]), a + b, s2, loop, code, lo, env, r, fuel)
    {
      ListRuns(vm, ss, s, s0, s1, s2, a, b, loop, code, lo, env, r, fuel);
    }
  }

  lemma ListRuns<V(!new)>(vm: Values<V>, ss: seq<Stmt>, s: Stmt, s0: Slots, s1: Slots, s2: Slots, a: Code, b: Code, loop: nat,
                          code: Code, lo: nat, env: Env<V>, r: File<V>, fuel: nat)
    requires Implements(vm, Many(ss), s0, s1, a, loop) && Implements(vm, One(s), s1, s2, b, loop)
    requires |s1| == |s2| && Outer(s1) == Outer(s2) && Ready(code, lo, a + b, r) && Rel(env, s0, r)
    ensures Sim(vm, code, State(lo, r), lo + |a + b|, s2, loop, fuel, ExecList(vm, ss + [s], env, fuel))
  {
    hide Implements, Reaches, Steps, Step, Placed, LabelsApart, Rel, Exec;
    ReadyParts(code, lo, a, b, r);
    RunsAt(vm, Many(ss), s0, s1, a, loop, code, lo, env, r, fuel);
    assert (ss + [s])[..|ss|] == ss;
    var first := ExecList(vm, ss, env, fuel);
    if first.Done? && first.how == Normally {
      var k, r1 := Arrival(vm, code, State(lo, r), lo + |a|, first.env, s1);
      RunsAt(vm, One(s), s1, s2, b, loop, code, lo + |a|, first.env, r1, fuel);
      SimVia(vm, code, State(lo, r), k, State(lo + |a|, r1), lo + |a + b|, s2, loop, fuel, fuel, Exec(vm, s, first.env, fuel));
    } else {
      ListStops(vm, code, State(lo, r), lo + |a|, lo + |a + b|, s0, s1, s2, loop, fuel, first);
    }
  }

  // An outcome that does not go on is the same for the longer list.
  lemma ListStops<V(!new)>(vm: Values<V>, code: Code, s: State<V>, mid: nat, end: nat, s0: Slots, s1: Slots, s2: Slots,
                           loop: nat, fuel: nat, res: Result<V>)
    requires Sound(code, s) && Sim(vm, code, s, mid, s1, loop, fuel, res) && !(res.Done? && res.how == Normally)
    requires |s1| == |s2| && Outer(s1) == Outer(s2)
    ensures Sim(vm, code, s, end, s2, loop, fuel, res)
  {
    hide Reaches, Steps;
  }

  // Leaving a block with its innermost names forgotten.
  lemma ReachesOuter<V(!new)>(vm: Values<V>, code: Code, s: State<V>, pc: nat, env: Env<V>, slots: Slots)
    requires Sound(code, s) && Reaches(vm, code, s, pc, env, slots)
    ensures Reaches(vm, code, s, pc, Outer(env), Outer(slots)) && |env| == |slots|
  {
    var k: nat, r: File<V> :| Arrives(vm, code, s, k, r, pc, env, slots);
    if |env| > 0 { RelPrefix(env, slots, r, |env| - 1); }
    assert Arrives(vm, code, s, k, r, pc, Outer(env), Outer(slots));
  }

  lemma RelOpens<V>(env: Env<V>, slots: Slots, r: File<V>)
    requires Rel(env, slots, r)
    ensures Rel(env + [map[]], slots + [map[]], r)
  {
  }

  lemma BlockDone<V(!new)>(vm: Values<V>, body: seq<Stmt>, slots: Slots, inner: Slots, seg: Code, loop: nat)
    requires |slots| > 0 && Implements(vm, Many(body), slots + [map[]], inner, seg, loop)
    ensures Implements(vm, Block(body), slots, slots, seg, loop)
  {
    forall code: Code, lo: nat, env: Env<V>, r: File<V>, fuel: nat | Ready(code, lo, seg, r) && Rel(env, slots, r)
      ensures SimTask(vm, Block(body), seg, slots, loop, code, lo, env, r, fuel)
    {
      RelOpens(env, slots, r);
      assert SimTask(vm, Many(body), seg, inner, loop, code, lo, env + [map[]], r, fuel);
      var res := ExecList(vm, body, env + [map[]], fuel);
      assert Outer(slots + [map[]]) == slots;
      if res.Done? {
        if res.how == Normally {
          ReachesOuter(vm, code, State(lo, r), lo + |seg|, res.env, inner);
        } else {
          ReachesOuter(vm, code, State(lo, r), Target(code, Exit(res.how, loop)), Outer(res.env), slots);
        }
      }
    }
  }

  // ---------------- branches ----------------

  // The code of a test, run to its end.
  lemma TestRuns<V(!new)>(vm: Values<V>, slots: Slots, seg: Code, e: Expr, c: nat, keep: set<nat>,
                          code: Code, lo: nat, env: Env<V>, r: File<V>) returns (r1: File<V>)
    requires Gives(vm, slots, seg, [Claim(e, InReg(c))], keep) && SlotsIn(slots, keep)
    requires Placed(code, lo, seg) && Sound(code, State(lo, r)) && Rel(env, slots, r)
    ensures |r1| == REGISTERS && c < REGISTERS && Rel(env, slots, r1)
    ensures Steps(vm, code, State(lo, r), |seg|) == Some(State(lo + |seg|, r1))
    ensures Evaluate(vm, e, env).Some? ==> r1[c] == Evaluate(vm, e, env).value
  {
    var claims := [Claim(e, InReg(c))];
    r1 := Fold(vm, seg, r);
    LineRuns(vm, code, lo, seg, r);
    assert GivesAt(vm, seg, claims, keep, env, r);
    assert Holds(vm, claims[0], env, r1);
    RelKept(env, slots, keep, r, r1);
  }

  // Code that only moves on from one place to another.
  ghost predicate Passes<V(!new)>(vm: Values<V>, code: Code, from: nat, to: nat) {
    && (forall i :: 0 <= i < |code| ==> InFile(code[i]))
    && exists j: nat :: PassesIn<V>(vm, code, from, to, j)
  }

  ghost predicate PassesIn<V(!new)>(vm: Values<V>, code: Code, from: nat, to: nat, j: nat)
    requires forall i :: 0 <= i < |code| ==> InFile(code[i])
  {
    forall r: File<V> :: |r| == REGISTERS ==> Steps(vm, code, State(from, r), j) == Some(State(to, r))
  }

  lemma MarkPasses<V(!new)>(vm: Values<V>, code: Code, p: nat)
    requires p < |code| && code[p].Mark? && forall i :: 0 <= i < |code| ==> InFile(code[i])
    ensures Passes(vm, code, p, p + 1)
  {
    forall r: File<V> | |r| == REGISTERS
      ensures Steps(vm, code, State(p, r), 1) == Some(State(p + 1, r))
    {
      assert Steps(vm, code, State(p + 1, r), 0) == Some(State(p + 1, r));
    }
    assert PassesIn(vm, code, p, p + 1, 1);
  }

  lemma JumpPasses<V(!new)>(vm: Values<V>, code: Code, p: nat, q: nat)
    requires LabelsApart(code) && p < |code| && q < |code| && code[p].Jump? && code[q] == Mark(code[p].to)
    requires forall i :: 0 <= i < |code| ==> InFile(code[i])
    ensures Passes(vm, code, p, q)
  {
    TargetIs(code, q);
    forall r: File<V> | |r| == REGISTERS
      ensures Steps(vm, code, State(p, r), 1) == Some(State(q, r))
    {
      assert Steps(vm, code, State(q, r), 0) == Some(State(q, r));
    }
    assert PassesIn(vm, code, p, q, 1);
  }

  lemma PassesOn<V(!new)>(vm: Values<V>, code: Code, a: nat, b: nat, c: nat)
    requires Passes(vm, code, a, b) && Passes(vm, code, b, c)
    ensures Passes(vm, code, a, c)
  {
    var i: nat :| PassesIn(vm, code, a, b, i);
    var j: nat :| PassesIn(vm, code, b, c, j);
    forall r: File<V> | |r| == REGISTERS
      ensures Steps(vm, code, State(a, r), i + j) == Some(State(c, r))
    {
      StepsAdd(vm, code, State(a, r), i, j);
    }
    assert PassesIn(vm, code, a, c, i + j);
  }

  lemma ReachesOn<V(!new)>(vm: Values<V>, code: Code, s: State<V>, mid: nat, end: nat, env: Env<V>, slots: Slots)
    requires Sound(code, s) && Reaches(vm, code, s, mid, env, slots) && Passes(vm, code, mid, end)
    ensures Reaches(vm, code, s, end, env, slots)
  {
    var k: nat, r: File<V> :| Arrives(vm, code, s, k, r, mid, env, slots);
    var j: nat :| PassesIn(vm, code, mid, end, j);
    StepsAdd(vm, code, s, k, j);
    assert Arrives(vm, code, s, k + j, r, end, env, slots);
  }

  lemma SimOn<V(!new)>(vm: Values<V>, code: Code, s: State<V>, mid: nat, end: nat, slots: Slots, loop: nat, fuel: nat,
                       res: Result<V>)
    requires Sound(code, s) && Sim(vm, code, s, mid, slots, loop, fuel, res) && Passes(vm, code, mid, end)
    ensures Sim(vm, code, s, end, slots, loop, fuel, res)
  {
    if res.Done? && res.how == Normally {
      ReachesOn(vm, code, s, mid, end, res.env, slots);
    }
  }

  // Steps that only move on, before a simulation.
  lemma SimFrom<V(!new)>(vm: Values<V>, code: Code, s: State<V>, mid: nat, end: nat, slots: Slots, loop: nat, fuel: nat,
                         res: Result<V>)
    requires Sound(code, s) && Passes(vm, code, s.pc, mid) && Sim(vm, code, State(mid, s.file), end, slots, loop, fuel, res)
    ensures Sim(vm, code, s, end, slots, loop, fuel, res)
  {
    var j: nat :| PassesIn(vm, code, s.pc, mid, j);
    SimVia(vm, code, s, j, State(mid, s.file), end, slots, loop, fuel, fuel, res);
  }

  // The branch after a test: one step, to either side.
  lemma BranchStep<V(!new)>(vm: Values<V>, code: Code, p: nat, q: nat, r: File<V>)
    requires LabelsApart(code) && Sound(code, State(p, r)) && p < |code| && q < |code|
    requires code[p].JumpFalse? || code[p].JumpTrue?
    requires code[q] == Mark(code[p].to)
    ensures Steps(vm, code, State(p, r), 1) ==
            Some(State(if vm.truthy(r[code[p].cond]) == code[p].JumpTrue? then q else p + 1, r))
  {
    TargetIs(code, q);
    var t := Step(vm, code, State(p, r)).value;
    assert Steps(vm, code, t, 0) == Some(t);
  }

  ghost function IfCode(test: Code, c: nat, body: Code, end: Label): Code {
    test + [JumpFalse(c, end)] + body + [Mark(end)]
  }

  ghost function IfElseCode(test: Code, c: nat, body: Code, els: Code, other: Label, end: Label): Code {
    test + [JumpFalse(c, other)] + body + [Jump(end), Mark(other)] + els + [Mark(end)]
  }

  // One run of an implemented task.
  lemma RunsAt<V(!new)>(vm: Values<V>, t: Task, slots: Slots, slots': Slots, seg: Code, loop: nat,
                        code: Code, lo: nat, env: Env<V>, r: File<V>, fuel: nat)
    requires Implements(vm, t, slots, slots', seg, loop)
    requires Placed(code, lo, seg) && LabelsApart(code) && Sound(code, State(lo, r)) && Rel(env, slots, r)
    ensures Sim(vm, code, State(lo, r), lo + |seg|, slots', loop, fuel, Does(vm, t, env, fuel))
  {
    assert SimTask(vm, t, seg, slots', loop, code, lo, env, r, fuel);
  }

  lemma IfDone<V(!new)>(vm: Values<V>, slots: Slots, cond: Expr, body: seq<Stmt>, keep: set<nat>, loop: nat,
                        test: Code, c: nat, then_: Code, end: Label)
    requires Gives(vm, slots, test, [Claim(cond, InReg(c))], keep) && SlotsIn(slots, keep)
    requires Implements(vm, Block(body), slots, slots, then_, loop)
    ensures Implements(vm, One(If(cond, body, NoElse)), slots, slots, IfCode(test, c, then_, end), loop)
  {
    var seg, t := IfCode(test, c, then_, end), One(If(cond, body, NoElse));
    forall code: Code, lo: nat, env: Env<V>, r: File<V>, fuel: nat | Ready(code, lo, seg, r) && Rel(env, slots, r)
      ensures SimTask(vm, t, seg, slots, loop, code, lo, env, r, fuel)
    {
      IfRuns(vm, slots, cond, body, keep, loop, test, c, then_, end, code, lo, env, r, fuel);
    }
  }

  lemma IfRuns<V(!new)>(vm: Values<V>, slots: Slots, cond: Expr, body: seq<Stmt>, keep: set<nat>, loop: nat,
                        test: Code, c: nat, then_: Code, end: Label,
                        code: Code, lo: nat, env: Env<V>, r: File<V>, fuel: nat)
    requires Gives(vm, slots, test, [Claim(cond, InReg(c))], keep) && SlotsIn(slots, keep)
    requires Implements(vm, Block(body), slots, slots, then_, loop)
    requires Ready(code, lo, IfCode(test, c, then_, end), r) && Rel(env, slots, r)
    ensures Sim(vm, code, State(lo, r), lo + |IfCode(test, c, then_, end)|, slots, loop, fuel,
                Exec(vm, If(cond, body, NoElse), env, fuel))
  {
    hide Gives, Implements, SlotsIn, Sim, Reaches, Steps, Step, Placed, LabelsApart, Passes, Rel, Target, TargetFrom, Evaluate;
    var p := lo + |test|;
    var q := p + 1 + |then_|;
    IfParts(code, lo, test, c, then_, end);
    var r1 := TestRuns(vm, slots, test, cond, c, keep, code, lo, env, r);
    BranchStep(vm, code, p, q, r1);
    MarkPasses(vm, code, q);
    StepsAdd(vm, code, State(lo, r), |test|, 1);
    var v, res := Evaluate(vm, cond, env), Exec(vm, If(cond, body, NoElse), env, fuel);
    if v.None? {
      SimStuck(vm, code, State(lo, r), q + 1, slots, loop, fuel);
    } else if vm.truthy(v.value) {
      RunsAt(vm, Block(body), slots, slots, then_, loop, code, p + 1, env, r1, fuel);
      SimOn(vm, code, State(p + 1, r1), q, q + 1, slots, loop, fuel, res);
      SimVia(vm, code, State(lo, r), |test| + 1, State(p + 1, r1), q + 1, slots, loop, fuel, fuel, res);
    } else {
      assert ExecElse(vm, NoElse, env, fuel) == Done(Normally, env);
      SimNow(vm, code, State(q, r1), env, slots, loop, fuel);
      SimOn(vm, code, State(q, r1), q, q + 1, slots, loop, fuel, res);
      SimVia(vm, code, State(lo, r), |test| + 1, State(q, r1), q + 1, slots, loop, fuel, fuel, res);
    }
  }

  lemma SimStuck<V(!new)>(vm: Values<V>, code: Code, s: State<V>, end: nat, slots: Slots, loop: nat, fuel: nat)
    requires Sound(code, s)
    ensures Sim(vm, code, s, end, slots, loop, fuel, Stuck)
  {
  }

  lemma SimNow<V(!new)>(vm: Values<V>, code: Code, s: State<V>, env: Env<V>, slots: Slots, loop: nat, fuel: nat)
    requires Sound(code, s) && Rel(env, slots, s.file)
    ensures Sim(vm, code, s, s.pc, slots, loop, fuel, Done(Normally, env))
  {
    ArrivesNow(vm, code, s, env, slots);
  }

  lemma IfParts(code: Code, lo: nat, test: Code, c: nat, body: Code, end: Label)
    requires Placed(code, lo, IfCode(test, c, body, end))
    ensures Placed(code, lo, test) && Placed(code, lo + |test| + 1, body) && lo + |test| + 1 + |body| < |code|
    ensures code[lo + |test|] == JumpFalse(c, end) && code[lo + |test| + 1 + |body|] == Mark(end)
  {
    hide Placed;
    var a := test + [JumpFalse(c, end)];
    SplitPlaced(code, lo, a + body, [Mark(end)]);
    SplitPlaced(code, lo, a, body);
    SplitPlaced(code, lo, test, [JumpFalse(c, end)]);
    PlacedOps(code, lo + |test|, [JumpFalse(c, end)]);
    PlacedOps(code, lo + |a + body|, [Mark(end)]);
  }

  // ---------------- if with an else ----------------

  lemma IfElseParts(code: Code, lo: nat, test: Code, c: nat, body: Code, els: Code, other: Label, end: Label)
    requires Placed(code, lo, IfElseCode(test, c, body, els, other, end))
    ensures Placed(code, lo, test) && Placed(code, lo + |test| + 1, body) && Placed(code, lo + |test| + |body| + 3, els)
    ensures var q := lo + |test| + 1 + |body|;
            && q + |els| + 2 < |code| && code[lo + |test|] == JumpFalse(c, other)
            && code[q] == Jump(end) && code[q + 1] == Mark(other) && code[q + 2 + |els|] == Mark(end)
  {
    hide Placed;
    var a := test + [JumpFalse(c, other)];
    var b := a + body;
    var d := b + [Jump(end), Mark(other)];
    SplitPlaced(code, lo, d + els, [Mark(end)]);
    SplitPlaced(code, lo, d, els);
    SplitPlaced(code, lo, b, [Jump(end), Mark(other)]);
    SplitPlaced(code, lo, a, body);
    SplitPlaced(code, lo, test, [JumpFalse(c, other)]);
    PlacedOps(code, lo + |test|, [JumpFalse(c, other)]);
    PlacedOps(code, lo + |b|, [Jump(end), Mark(other)]);
    PlacedOps(code, lo + |d + els|, [Mark(end)]);
  }

  lemma SplitPlaced(code: Code, lo: nat, a: Code, b: Code)
    requires Placed(code, lo, a + b)
    ensures Placed(code, lo, a) && Placed(code, lo + |a|, b)
  {
    assert forall i :: 0 <= i < |a| ==> (a + b)[i] == a[i];
    forall i | 0 <= i < |b|
      ensures code[lo + |a| + i] == b[i]
    {
      assert code[lo + (|a| + i)] == (a + b)[|a| + i];
    }
  }

  // The first two instructions of a placed segment.
  lemma PlacedOps(code: Code, lo: nat, seg: Code)
    requires Placed(code, lo, seg) && |seg| > 0
    ensures lo + |seg| <= |code| && code[lo] == seg[0] && (|seg| > 1 ==> code[lo + 1] == seg[1])
  {
    assert code[lo + 0] == seg[0];
  }

  lemma IfElseDone<V(!new)>(vm: Values<V>, slots: Slots, cond: Expr, body: seq<Stmt>, els: Else, keep: set<nat>, loop: nat,
                            test: Code, c: nat, then_: Code, else_: Code, other: Label, end: Label)
    requires Gives(vm, slots, test, [Claim(cond, InReg(c))], keep) && SlotsIn(slots, keep)
    requires Implements(vm, Block(body), slots, slots, then_, loop) && Implements(vm, Other(els), slots, slots, else_, loop)
    ensures Implements(vm, One(If(cond, body, els)), slots, slots, IfElseCode(test, c, then_, else_, other, end), loop)
  {
    var seg, t := IfElseCode(test, c, then_, else_, other, end), One(If(cond, body, els));
    forall code: Code, lo: nat, env: Env<V>, r: File<V>, fuel: nat | Ready(code, lo, seg, r) && Rel(env, slots, r)
      ensures SimTask(vm, t, seg, slots, loop, code, lo, env, r, fuel)
    {
      IfElseRuns(vm, slots, cond, body, els, keep, loop, test, c, then_, else_, other, end, code, lo, env, r, fuel);
    }
  }

  lemma IfElseRuns<V(!new)>(vm: Values<V>, slots: Slots, cond: Expr, body: seq<Stmt>, els: Else, keep: set<nat>, loop: nat,
                            test: Code, c: nat, then_: Code, else_: Code, other: Label, end: Label,
                            code: Code, lo: nat, env: Env<V>, r: File<V>, fuel: nat)
    requires Gives(vm, slots, test, [Claim(cond, InReg(c))], keep) && SlotsIn(slots, keep)
    requires Implements(vm, Block(body), slots, slots, then_, loop) && Implements(vm, Other(els), slots, slots, else_, loop)
    requires Ready(code, lo, IfElseCode(test, c, then_, else_, other, end), r) && Rel(env, slots, r)
    ensures Sim(vm, code, State(lo, r), lo + |IfElseCode(test, c, then_, else_, other, end)|, slots, loop, fuel,
                Exec(vm, If(cond, body, els), env, fuel))
  {
    hide Gives, Implements, SlotsIn, Sim, Reaches, Steps, Step, Placed, LabelsApart, Passes, Rel, Target, TargetFrom, Evaluate;
    var p := lo + |test|;
    var q := p + 1 + |then_|;
    var e := q + 2 + |else_|;
    IfElseParts(code, lo, test, c, then_, else_, other, end);
    var r1 := TestRuns(vm, slots, test, cond, c, keep, code, lo, env, r);
    BranchStep(vm, code, p, q + 1, r1);
    MarkPasses(vm, code, q + 1);
    JumpPasses(vm, code, q, e);
    MarkPasses(vm, code, e);
    PassesOn(vm, code, q, e, e + 1);
    StepsAdd(vm, code, State(lo, r), |test|, 1);
    var v, res := Evaluate(vm, cond, env), Exec(vm, If(cond, body, els), env, fuel);
    if v.None? {
      SimStuck(vm, code, State(lo, r), e + 1, slots, loop, fuel);
    } else if vm.truthy(v.value) {
      RunsAt(vm, Block(body), slots, slots, then_, loop, code, p + 1, env, r1, fuel);
      SimOn(vm, code, State(p + 1, r1), q, e + 1, slots, loop, fuel, res);
      SimVia(vm, code, State(lo, r), |test| + 1, State(p + 1, r1), e + 1, slots, loop, fuel, fuel, res);
    } else {
      RunsAt(vm, Other(els), slots, slots, else_, loop, code, q + 2, env, r1, fuel);
      SimOn(vm, code, State(q + 2, r1), e, e + 1, slots, loop, fuel, res);
      SimFrom(vm, code, State(q + 1, r1), q + 2, e + 1, slots, loop, fuel, res);
      SimVia(vm, code, State(lo, r), |test| + 1, State(q + 1, r1), e + 1, slots, loop, fuel, fuel, res);
    }
  }

  // The else part is another if, or a block.
  lemma ElseDone<V(!new)>(vm: Values<V>, els: Else, slots: Slots, seg: Code, loop: nat)
    requires els.ElseIf? ==> Implements(vm, One(els.s), slots, slots, seg, loop)
    requires els.ElseBlock? ==> Implements(vm, Block(els.body), slots, slots, seg, loop)
    requires els.NoElse? ==> seg == []
    ensures Implements(vm, Other(els), slots, slots, seg, loop)
  {
    if els.NoElse? {
      NothingToDo(vm, Other(els), slots, loop);
    } else {
      var t := if els.ElseIf? then One(els.s) else Block(els.body);
      forall code: Code, lo: nat, env: Env<V>, r: File<V>, fuel: nat | Ready(code, lo, seg, r) && Rel(env, slots, r)
        ensures SimTask(vm, Other(els), seg, slots, loop, code, lo, env, r, fuel)
      {
        RunsAt(vm, t, slots, slots, seg, loop, code, lo, env, r, fuel);
      }
    }
  }

  // ---------------- loops ----------------

  ghost predicate LoopPlaced(code: Code, top: nat, body: Code, test: Code, c: nat, id: nat) {
    var m := top + 1 + |body|;
    var p := m + 1 + |test|;
    && p + 1 < |code|
    && code[top] == Mark(Label(LoopBody, id)) && Placed(code, top + 1, body)
    && code[m] == Mark(Label(LoopCond, id)) && Placed(code, m + 1, test)
    && code[p] == JumpTrue(c, Label(LoopBody, id)) && code[p + 1] == Mark(Label(LoopEnd, id))
  }

  // What the proof of a loop knows of its parts.
  ghost predicate LoopParts<V(!new)>(vm: Values<V>, slots: Slots, inner: Slots, cond: Expr, body: seq<Stmt>, keep: set<nat>,
                                     id: nat, test: Code, c: nat, code_: Code) {
    && id > 0 && Gives(vm, slots, test, [Claim(cond, InReg(c))], keep) && SlotsIn(slots, keep)
    && Implements(vm, Many(body), slots + [map[]], inner, code_, id) && Outer(inner) == slots
  }

  // From the test of a loop on: while the test holds, back to the body.
  lemma {:induction false} RoundsRun<V(!new)>(
      vm: Values<V>, slots: Slots, inner: Slots, cond: Expr, body: seq<Stmt>, keep: set<nat>, outer: nat, id: nat,
      test: Code, c: nat, code_: Code, code: Code, top: nat, env: Env<V>, r: File<V>, fuel: nat)
    requires LoopParts(vm, slots, inner, cond, body, keep, id, test, c, code_)
    requires LoopPlaced(code, top, code_, test, c, id)
    requires LabelsApart(code) && Sound(code, State(top, r)) && Rel(env, slots, r)
    ensures Sim(vm, code, State(top + 1 + |code_|, r), top + |code_| + |test| + 4, slots, outer, fuel,
                Rounds(vm, cond, body, env, fuel))
    decreases fuel, 0
  {
    hide Gives, Implements, SlotsIn, Sim, Reaches, Steps, Step, Placed, LabelsApart, Passes, Rel, Target, TargetFrom, Evaluate, ExecList;
    var m := top + 1 + |code_|;
    var p := m + 1 + |test|;
    var end := p + 2;
    MarkPasses(vm, code, m);
    MarkPasses(vm, code, p + 1);
    MarkPasses(vm, code, top);
    var r1 := TestRuns(vm, slots, test, cond, c, keep, code, m + 1, env, r);
    BranchStep(vm, code, p, top, r1);
    StepsAdd(vm, code, State(m + 1, r), |test|, 1);
    var v, res := Evaluate(vm, cond, env), Rounds(vm, cond, body, env, fuel);
    if v.None? {
      SimStuck(vm, code, State(m, r), end, slots, outer, fuel);
    } else if !vm.truthy(v.value) {
      SimNow(vm, code, State(p + 1, r1), env, slots, outer, fuel);
      SimOn(vm, code, State(p + 1, r1), p + 1, end, slots, outer, fuel, res);
      SimVia(vm, code, State(m + 1, r), |test| + 1, State(p + 1, r1), end, slots, outer, fuel, fuel, res);
      SimFrom(vm, code, State(m, r), m + 1, end, slots, outer, fuel, res);
    } else if fuel == 0 {
      SimStart(vm, code, State(m, r), end, slots, outer);
    } else {
      RoundRuns(vm, slots, inner, cond, body, keep, outer, id, test, c, code_, code, top, env, r1, fuel - 1);
      SimFrom(vm, code, State(top, r1), top + 1, end, slots, outer, fuel - 1, res);
      SimVia(vm, code, State(m + 1, r), |test| + 1, State(top, r1), end, slots, outer, fuel, fuel - 1, res);
      SimFrom(vm, code, State(m, r), m + 1, end, slots, outer, fuel, res);
    }
  }

  // One time through the body, and the rounds after it.
  lemma {:induction false} RoundRuns<V(!new)>(
      vm: Values<V>, slots: Slots, inner: Slots, cond: Expr, body: seq<Stmt>, keep: set<nat>, outer: nat, id: nat,
      test: Code, c: nat, code_: Code, code: Code, top: nat, env: Env<V>, r: File<V>, fuel: nat)
    requires LoopParts(vm, slots, inner, cond, body, keep, id, test, c, code_)
    requires LoopPlaced(code, top, code_, test, c, id)
    requires LabelsApart(code) && Sound(code, State(top, r)) && Rel(env, slots, r)
    ensures Sim(vm, code, State(top + 1, r), top + |code_| + |test| + 4, slots, outer, fuel,
                AfterBody(vm, cond, body, env, fuel))
    decreases fuel, 1
  {
    hide Gives, Implements, SlotsIn, Reaches, Steps, Step, Placed, LabelsApart, Passes, Rel, Target, TargetFrom, Evaluate, ExecList;
    var m := top + 1 + |code_|;
    var p := m + 1 + |test|;
    var end, s := p + 2, State(top + 1, r);
    RelOpens(env, slots, r);
    RunsAt(vm, Many(body), slots + [map[]], inner, code_, id, code, top + 1, env + [map[]], r, fuel);
    var b, res := ExecList(vm, body, env + [map[]], fuel), AfterBody(vm, cond, body, env, fuel);
    if b.Done? {
      TargetIs(code, m);
      TargetIs(code, p + 1);
      MarkPasses(vm, code, p + 1);
      var q := if b.how == ByBreak then p + 1 else m;
      if b.how == Normally { ReachesOuter(vm, code, s, m, b.env, inner); }
      var k, r2 := Arrival(vm, code, s, q, Outer(b.env), slots);
      if b.how == ByBreak {
        SimNow(vm, code, State(q, r2), Outer(b.env), slots, outer, fuel);
        SimOn(vm, code, State(q, r2), q, end, slots, outer, fuel, res);
      } else {
        RoundsRun(vm, slots, inner, cond, body, keep, outer, id, test, c, code_, code, top, Outer(b.env), r2, fuel);
      }
      SimVia(vm, code, s, k, State(q, r2), end, slots, outer, fuel, fuel, res);
    }
  }

  lemma Arrival<V(!new)>(vm: Values<V>, code: Code, s: State<V>, pc: nat, env: Env<V>, slots: Slots)
    returns (k: nat, r: File<V>)
    requires Sound(code, s) && Reaches(vm, code, s, pc, env, slots)
    ensures Steps(vm, code, s, k) == Some(State(pc, r)) && Rel(env, slots, r) && |r| == REGISTERS
  {
    k, r :| Arrives(vm, code, s, k, r, pc, env, slots);
  }

  // The body once, then the rounds.
  ghost function AfterBody<V>(vm: Values<V>, cond: Expr, body: seq<Stmt>, env: Env<V>, fuel: nat): Result<V> {
    var b := InBlock(ExecList(vm, body, env + [map[]], fuel));
    if b.Done? && b.how != ByBreak then Rounds(vm, cond, body, b.env, fuel)
    else if b.Done? then Done(Normally, b.env) else b
  }

  lemma SimStart<V(!new)>(vm: Values<V>, code: Code, s: State<V>, end: nat, slots: Slots, loop: nat)
    requires Sound(code, s)
    ensures Sim(vm, code, s, end, slots, loop, 0, OutOfFuel)
  {
  }

  ghost function LoopCode(isDo: bool, body: Code, test: Code, c: nat, id: nat): Code {
    (if isDo then [] else [Jump(Label(LoopCond, id))])
    + ([Mark(Label(LoopBody, id))] + body + [Mark(Label(LoopCond, id))] + test
       + [JumpTrue(c, Label(LoopBody, id)), Mark(Label(LoopEnd, id))])
  }

  lemma LoopIsPlaced(code: Code, lo: nat, isDo: bool, body: Code, test: Code, c: nat, id: nat)
    requires Placed(code, lo, LoopCode(isDo, body, test, c, id))
    ensures LoopPlaced(code, if isDo then lo else lo + 1, body, test, c, id)
    ensures !isDo ==> code[lo] == Jump(Label(LoopCond, id))
  {
    hide Placed;
    var head: Code := if isDo then [] else [Jump(Label(LoopCond, id))];
    var x := [Mark(Label(LoopBody, id))] + body;
    var y := x + [Mark(Label(LoopCond, id))];
    var end: Code := [JumpTrue(c, Label(LoopBody, id)), Mark(Label(LoopEnd, id))];
    var top := lo + |head|;
    SplitPlaced(code, lo, head, y + test + end);
    SplitPlaced(code, top, y + test, end);
    SplitPlaced(code, top, y, test);
    SplitPlaced(code, top, x, [Mark(Label(LoopCond, id))]);
    SplitPlaced(code, top, [Mark(Label(LoopBody, id))], body);
    if !isDo { PlacedOps(code, lo, head); }
    PlacedOps(code, top, [Mark(Label(LoopBody, id))]);
    PlacedOps(code, top + |x|, [Mark(Label(LoopCond, id))]);
    PlacedOps(code, top + |y + test|, end);
  }

  lemma WhileRuns<V(!new)>(
      vm: Values<V>, slots: Slots, inner: Slots, isDo: bool, cond: Expr, body: seq<Stmt>, keep: set<nat>, outer: nat, id: nat,
      test: Code, c: nat, code_: Code, code: Code, lo: nat, env: Env<V>, r: File<V>, fuel: nat)
    requires LoopParts(vm, slots, inner, cond, body, keep, id, test, c, code_)
    requires Ready(code, lo, LoopCode(isDo, code_, test, c, id), r) && Rel(env, slots, r)
    ensures Sim(vm, code, State(lo, r), lo + |LoopCode(isDo, code_, test, c, id)|, slots, outer, fuel,
                Exec(vm, While(isDo, cond, body), env, fuel))
  {
    hide LoopParts, Sim, Reaches, Steps, Step, Placed, LabelsApart, Passes, Rel, Target, TargetFrom, Evaluate, ExecList, Rounds;
    LoopIsPlaced(code, lo, isDo, code_, test, c, id);
    var top := if isDo then lo else lo + 1;
    var m := top + 1 + |code_|;
    var res := Exec(vm, While(isDo, cond, body), env, fuel);
    var end := m + |test| + 3;
    if isDo {
      assert res == AfterBody(vm, cond, body, env, fuel);
      RoundRuns(vm, slots, inner, cond, body, keep, outer, id, test, c, code_, code, top, env, r, fuel);
      MarkPasses(vm, code, top);
      SimFrom(vm, code, State(lo, r), top + 1, end, slots, outer, fuel, res);
    } else {
      assert res == Rounds(vm, cond, body, env, fuel);
      RoundsRun(vm, slots, inner, cond, body, keep, outer, id, test, c, code_, code, top, env, r, fuel);
      JumpPasses(vm, code, lo, m);
      SimFrom(vm, code, State(lo, r), m, end, slots, outer, fuel, res);
    }
  }

  lemma WhileDone<V(!new)>(
      vm: Values<V>, slots: Slots, inner: Slots, isDo: bool, cond: Expr, body: seq<Stmt>, keep: set<nat>, outer: nat, id: nat,
      test: Code, c: nat, code_: Code)
    requires LoopParts(vm, slots, inner, cond, body, keep, id, test, c, code_)
    ensures Implements(vm, One(While(isDo, cond, body)), slots, slots, LoopCode(isDo, code_, test, c, id), outer)
  {
    var seg, t := LoopCode(isDo, code_, test, c, id), One(While(isDo, cond, body));
    forall code: Code, lo: nat, env: Env<V>, r: File<V>, fuel: nat | Ready(code, lo, seg, r) && Rel(env, slots, r)
      ensures SimTask(vm, t, seg, slots, outer, code, lo, env, r, fuel)
    {
      WhileRuns(vm, slots, inner, isDo, cond, body, keep, outer, id, test, c, code_, code, lo, env, r, fuel);
    }
  }

  // Break and next jump to labels of the loop around them.
  lemma LeaveDone<V(!new)>(vm: Values<V>, how: How, slots: Slots, loop: nat)
    requires how != Normally && loop != 0 && |slots| > 0
    ensures Implements(vm, One(if how == ByBreak then Break else Next), slots, slots, [Jump(Exit(how, loop))], loop)
  {
    var seg, t := [Jump(Exit(how, loop))], One(if how == ByBreak then Break else Next);
    forall code: Code, lo: nat, env: Env<V>, r: File<V>, fuel: nat | Ready(code, lo, seg, r) && Rel(env, slots, r)
      ensures SimTask(vm, t, seg, slots, loop, code, lo, env, r, fuel)
    {
      assert code[lo] == seg[0];
      var pc := Target(code, Exit(how, loop));
      RelPrefix(env, slots, r, |env| - 1);
      assert Steps(vm, code, State(pc, r), 0) == Some(State(pc, r));
      assert Arrives(vm, code, State(lo, r), 1, r, pc, Outer(env), Outer(slots));
    }
  }

  // ---------------- assignments ----------------

  // Code that computes a value and stores it in a variable's register.
  lemma SetDone<V(!new)>(vm: Values<V>, t: Task, slots: Slots, seg: Code, op: Op<nat>, id: string, e: Expr, keep: set<nat>, loop: nat)
    requires Gives(vm, slots, seg, [], keep) && SlotsIn(slots, keep) && Yields(vm, slots, seg, op, e)
    requires Level(slots, id).Some? && op.dst == Slot(slots, id)
    requires t == One(Assign(id, e)) || (e.Infix? && e.left == Name(id) && t == One(OpAssign(e.op, id, e.right)))
    ensures Implements(vm, t, slots, slots, seg + [op], loop)
  {
    forall code: Code, lo: nat, env: Env<V>, r: File<V>, fuel: nat | Ready(code, lo, seg + [op], r) && Rel(env, slots, r)
      ensures SimTask(vm, t, seg + [op], slots, loop, code, lo, env, r, fuel)
    {
      SetSim(vm, t, slots, seg, op, id, e, keep, loop, code, lo, env, r, fuel);
    }
  }

  lemma SetSim<V(!new)>(vm: Values<V>, t: Task, slots: Slots, seg: Code, op: Op<nat>, id: string, e: Expr, keep: set<nat>,
                        loop: nat, code: Code, lo: nat, env: Env<V>, r: File<V>, fuel: nat)
    requires Gives(vm, slots, seg, [], keep) && SlotsIn(slots, keep) && Yields(vm, slots, seg, op, e)
    requires Level(slots, id).Some? && op.dst == Slot(slots, id)
    requires t == One(Assign(id, e)) || (e.Infix? && e.left == Name(id) && t == One(OpAssign(e.op, id, e.right)))
    requires Ready(code, lo, seg + [op], r) && Rel(env, slots, r)
    ensures Sim(vm, code, State(lo, r), lo + |seg + [op]|, slots, loop, fuel, Does(vm, t, env, fuel))
  {
    hide Gives, Yields, Evaluate, Reaches, Steps, Exec, Put, Does, SlotsIn, Ready, Rel;
    SetIs(vm, t, env, id, e, fuel);
    SetRuns(vm, slots, seg, op, id, e, keep, code, lo, env, r);
    assert lo + |seg + [op]| == lo + |seg| + 1;
  }

  lemma SetIs<V>(vm: Values<V>, t: Task, env: Env<V>, id: string, e: Expr, fuel: nat)
    requires t == One(Assign(id, e)) || (e.Infix? && e.left == Name(id) && t == One(OpAssign(e.op, id, e.right)))
    ensures Does(vm, t, env, fuel) == Set(env, id, Evaluate(vm, e, env))
  {
  }

  lemma SetRuns<V(!new)>(vm: Values<V>, slots: Slots, seg: Code, op: Op<nat>, id: string, e: Expr, keep: set<nat>,
                         code: Code, lo: nat, env: Env<V>, r: File<V>)
    requires Gives(vm, slots, seg, [], keep) && SlotsIn(slots, keep) && Yields(vm, slots, seg, op, e)
    requires Level(slots, id).Some? && op.dst == Slot(slots, id)
    requires Ready(code, lo, seg + [op], r) && Rel(env, slots, r)
    ensures var v := Evaluate(vm, e, env);
            v.Some? ==> Reaches(vm, code, State(lo, r), lo + |seg| + 1, Put(env, id, v.value), slots)
  {
    hide Evaluate, Steps, Put, Level;
    var v := Evaluate(vm, e, env);
    FoldOne(vm, seg, op, r);
    LineRuns(vm, code, lo, seg + [op], r);
    assert GivesAt(vm, seg, [], keep, env, r) && YieldsAt(vm, seg, op, e, env, r);
    RelKept(env, slots, keep, r, Fold(vm, seg, r));
    if v.Some? {
      PutFits(env, slots, Fold(vm, seg, r), id, v.value);
      assert Arrives(vm, code, State(lo, r), |seg| + 1, Fold(vm, seg + [op], r), lo + |seg| + 1, Put(env, id, v.value), slots);
    }
  }

  // A statement that is only an expression.
  lemma EvalDone<V(!new)>(vm: Values<V>, slots: Slots, seg: Code, e: Expr, claims: seq<Claim>, keep: set<nat>, loop: nat)
    requires Gives(vm, slots, seg, claims, keep) && SlotsIn(slots, keep)
    ensures Implements(vm, One(Eval(e)), slots, slots, seg, loop)
  {
    forall code: Code, lo: nat, env: Env<V>, r: File<V>, fuel: nat | Ready(code, lo, seg, r) && Rel(env, slots, r)
      ensures SimTask(vm, One(Eval(e)), seg, slots, loop, code, lo, env, r, fuel)
    {
      LineRuns(vm, code, lo, seg, r);
      assert GivesAt(vm, seg, claims, keep, env, r);
      RelKept(env, slots, keep, r, Fold(vm, seg, r));
      assert Arrives(vm, code, State(lo, r), |seg|, Fold(vm, seg, r), lo + |seg|, env, slots);
    }
  }

  // ---------------- declarations ----------------

  // The register of a new name, when the block does not have the name yet.
  ghost function DeclareSlot(slots: Slots, id: string, n: nat): Slots {
    if |slots| == 0 || id in slots[|slots| - 1] then slots
    else
      var top: map<string, nat> := slots[|slots| - 1][id := n];
      slots[|slots| - 1 := top]
  }

  lemma DeclareApart(slots: Slots, id: string, n: nat)
    requires Apart(slots) && n < REGISTERS && |slots| > 0
    requires forall i, x :: 0 <= i < |slots| && x in slots[i] ==> slots[i][x] != n
    ensures Apart(DeclareSlot(slots, id, n))
  {
    var top, slots' := |slots| - 1, DeclareSlot(slots, id, n);
    if id !in slots[top] {
      forall i, x | 0 <= i < |slots| && x in slots'[i]
        ensures if i == top && x == id then slots'[i][x] == n else x in slots[i] && slots'[i][x] == slots[i][x]
      {
      }
    }
  }

  lemma DeclareFits<V>(env: Env<V>, slots: Slots, r: File<V>, id: string, n: nat)
    requires Rel(env, slots, r) && n < REGISTERS && |slots| > 0
    requires forall i, x :: 0 <= i < |slots| && x in slots[i] ==> slots[i][x] != n
    ensures Rel(Declare(env, id), DeclareSlot(slots, id, n), r)
  {
    DeclareApart(slots, id, n);
    DeclareKeys(env, slots, id, n);
    hide Apart, Fits;
    var env': Env<V> := Declare(env, id);
    var slots' := DeclareSlot(slots, id, n);
    forall i, x | 0 <= i < |env'| && x in env'[i] && env'[i][x].Some?
      ensures r[slots'[i][x]] == env'[i][x].value
    {
      DeclareAt(env, slots, id, n, i, x);
    }
  }

  lemma DeclareKeys<V>(env: Env<V>, slots: Slots, id: string, n: nat)
    requires Fits(env, slots)
    ensures Fits(Declare(env, id), DeclareSlot(slots, id, n))
  {
    if |slots| > 0 {
      var top := |slots| - 1;
      assert id in env[top] <==> id in env[top].Keys;
      assert id in slots[top] <==> id in slots[top].Keys;
      assert env[top][id := None].Keys == env[top].Keys + {id};
      assert slots[top][id := n].Keys == slots[top].Keys + {id};
    }
  }

  // A variable that is set was there before, in the same register.
  lemma DeclareAt<V>(env: Env<V>, slots: Slots, id: string, n: nat, i: nat, x: string)
    requires Fits(env, slots) && i < |env|
    requires x in Declare(env, id)[i] && Declare(env, id)[i][x].Some?
    ensures x in env[i] && x in slots[i] && env[i][x] == Declare(env, id)[i][x]
    ensures x in DeclareSlot(slots, id, n)[i] && DeclareSlot(slots, id, n)[i][x] == slots[i][x]
  {
    var top := |slots| - 1;
    assert id in env[top] <==> id in env[top].Keys;
    assert id in slots[top] <==> id in slots[top].Keys;
    assert x in env[i] ==> x in env[i].Keys;
    assert x in slots[i] <==> x in slots[i].Keys;
  }

  lemma VarDone<V(!new)>(vm: Values<V>, slots: Slots, id: string, n: nat, loop: nat)
    requires n < REGISTERS && |slots| > 0
    requires forall i, x :: 0 <= i < |slots| && x in slots[i] ==> slots[i][x] != n
    ensures Implements(vm, One(Var(id)), slots, DeclareSlot(slots, id, n), [], loop)
  {
    var slots' := DeclareSlot(slots, id, n);
    forall code: Code, lo: nat, env: Env<V>, r: File<V>, fuel: nat | Ready(code, lo, [], r) && Rel(env, slots, r)
      ensures SimTask(vm, One(Var(id)), [], slots', loop, code, lo, env, r, fuel)
    {
      DeclareFits(env, slots, r, id, n);
      ArrivesNow(vm, code, State(lo, r), Declare(env, id), slots');
    }
  }

  // A declaration with a value declares, then assigns.
  lemma VarAssignDone<V(!new)>(vm: Values<V>, slots: Slots, slots': Slots, id: string, e: Expr, seg: Code, loop: nat)
    requires Implements(vm, One(Var(id)), slots, slots', [], loop)
    requires Implements(vm, One(Assign(id, e)), slots', slots', seg, loop)
    ensures Implements(vm, One(VarAssign(id, e)), slots, slots', seg, loop)
  {
    forall code: Code, lo: nat, env: Env<V>, r: File<V>, fuel: nat | Ready(code, lo, seg, r) && Rel(env, slots, r)
      ensures SimTask(vm, One(VarAssign(id, e)), seg, slots', loop, code, lo, env, r, fuel)
    {
      VarAssignRuns(vm, slots, slots', id, e, seg, loop, code, lo, env, r, fuel);
    }
  }

  lemma VarAssignRuns<V(!new)>(vm: Values<V>, slots: Slots, slots': Slots, id: string, e: Expr, seg: Code, loop: nat,
                               code: Code, lo: nat, env: Env<V>, r: File<V>, fuel: nat)
    requires Implements(vm, One(Var(id)), slots, slots', [], loop)
    requires Implements(vm, One(Assign(id, e)), slots', slots', seg, loop)
    requires Ready(code, lo, seg, r) && Rel(env, slots, r)
    ensures Sim(vm, code, State(lo, r), lo + |seg|, slots', loop, fuel, Exec(vm, VarAssign(id, e), env, fuel))
  {
    hide Implements, Reaches, Steps, Step, LabelsApart, Rel, Evaluate, Declare, Put;
    var none: Code := [];
    assert Placed(code, lo, none);
    RunsAt(vm, One(Var(id)), slots, slots', none, loop, code, lo, env, r, fuel);
    var k, r1 := Arrival(vm, code, State(lo, r), lo, Declare(env, id), slots');
    RunsAt(vm, One(Assign(id, e)), slots', slots', seg, loop, code, lo, Declare(env, id), r1, fuel);
    SimVia(vm, code, State(lo, r), k, State(lo, r1), lo + |seg|, slots', loop, fuel, fuel, Exec(vm, VarAssign(id, e), env, fuel));
  }
}
