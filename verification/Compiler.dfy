// A whole function: arguments, body, numbered code; and the theorem that the
// machine running that code and the evaluator agree.
module Compiler {
  import opened Script
  import opened Machine
  import opened RegAlloc
  import opened Translation
  import opened Simulation
  import opened Emission
  import opened Operands
  import opened Statements
  import opened Codegen

  // Where a function finds its arguments: `self` in register 0, the others
  // behind it in order; of two with the same name the first counts.
  ghost function ArgSlots(args: seq<string>): map<string, nat> {
    if |args| == 0 then map["self" := 0, "_global" := GLOBAL]
    else
      var m := ArgSlots(args[..|args| - 1]);
      if args[|args| - 1] in m then m else m[args[|args| - 1] := |args|]
  }

  lemma {:induction false} ArgsInOrder(args: seq<string>, i: nat)
    requires i < |args| && args[i] != "self" && args[i] != "_global"
    requires forall j :: 0 <= j < i ==> args[j] != args[i]
    ensures args[i] in ArgSlots(args) && ArgSlots(args)[args[i]] == i + 1
    decreases |args|
  {
    var n := |args| - 1;
    if i < n {
      ArgsInOrder(args[..n], i);
    } else {
      ArgNew(args[..n], args[n]);
    }
  }

  lemma {:induction false} ArgNew(args: seq<string>, id: string)
    requires id != "self" && id != "_global" && forall j :: 0 <= j < |args| ==> args[j] != id
    ensures id !in ArgSlots(args)
    decreases |args|
  {
    if |args| > 0 {
      ArgNew(args[..|args| - 1], id);
    }
  }

  // Code that carries the body out from its first instruction on; every label
  // is marked once, and every jump goes to a mark.
  ghost predicate Runnable<V(!new)>(vm: Values<V>, args: seq<string>, body: seq<Stmt>, locals: map<string, nat>, code: Code) {
    && (forall i :: 0 <= i < |code| ==> InFile(code[i])) && LabelsApart(code) && Lands(code, 0)
    && Implements(vm, Many(body), [ArgSlots(args)], [locals], code, 0)
  }

  // Fails only when registers run out, a name is not declared, or a break or
  // next stands outside every loop.
  method CompileFunction<V(!new)>(ghost vm: Values<V>, args: seq<string>, body: seq<Stmt>, firstLoop: nat)
    returns (ok: bool, code: Code, ghost locals: map<string, nat>, ghost used: nat)
    requires firstLoop > 0
    ensures ok ==> Runnable(vm, args, body, locals, code)
    ensures !ok ==> used == LIMIT || !ListOk(body, [ArgSlots(args).Keys], false)
  {
    hide Partitioned, InRange, Holders, OpSane, Apart, ListOk, Implements, Marks, LabelsApart;
    code, locals := [], map[];
    var gen := new Generator(vm, firstLoop);
    ok := DeclareArgs(gen, args);
    used := gen.alloc.next;
    if !ok { return; }
    ghost var g, slots := gen.G(), gen.Names();
    assert Domains(slots) == [ArgSlots(args).Keys];
    ghost var c := gen.Count();
    ok := gen.ConsumeList(body);
    used := gen.alloc.next;
    if !ok { return; }
    locals := gen.Names()[0];
    ghost var h := gen.G();
    assert gen.Names() == [locals];
    code := NumberAll(gen);
    WholeCode(vm, body, slots, gen.Names(), g, h, c, gen.Count());
  }

  method DeclareArgs<V(!new)>(gen: Generator<V>, args: seq<string>) returns (ok: bool)
    requires gen.Valid() && gen.code == [] && gen.alloc.next == 1 && gen.Names() == [ArgSlots([])] && CurLoop(gen.scopes) == 0
    modifies gen, gen.alloc
    ensures !ok ==> gen.alloc.next == LIMIT
    ensures ok ==> gen.Valid() && gen.code == [] && gen.Names() == [ArgSlots(args)] && CurLoop(gen.scopes) == 0
  {
    hide Partitioned, InRange, Holders, OpSane, Apart, CurLoop;
    for i := 0 to |args|
      invariant gen.Valid() && gen.code == [] && gen.alloc.next == i + 1
      invariant gen.Names() == [ArgSlots(args[..i])] && CurLoop(gen.scopes) == 0
    {
      var r;
      ghost var before := gen.scopes;
      ok, r := gen.Declare(args[i]);
      if !ok { return; }
      TopOnlyLoop(before, gen.scopes);
      assert args[..i + 1][..i] == args[..i];
    }
    assert args[..|args|] == args;
    ok := true;
  }

  // The instructions with the final register numbers.
  method NumberAll<V(!new)>(gen: Generator<V>) returns (out: Code)
    ensures out == Emitted(gen.G())
  {
    out := [];
    for i := 0 to |gen.code|
      invariant |out| == i && forall j :: 0 <= j < i ==> out[j] == Emitted(gen.G())[j]
    {
      out := out + [Numbered(gen.code[i], gen.alloc.regs)];
    }
  }

  lemma WholeCode<V(!new)>(vm: Values<V>, body: seq<Stmt>, slots: Slots, slots': Slots, g: Gen, h: Gen, a: Counters, b: Counters)
    requires Compiled(vm, Many(body), slots, slots', g, h, 0, a, b) && g.code == []
    ensures Seg(g, h) == Emitted(h) && LabelsApart(Emitted(h)) && Lands(Emitted(h), 0)
    ensures forall i :: 0 <= i < |h.code| ==> InFile(Emitted(h)[i])
  {
    hide Ok, OpSane, Implements;
    assert Seg(g, h) == Emitted(h);
    forall i | 0 <= i < |h.code|
      ensures InFile(Emitted(h)[i])
    {
      NumberedInFile(h, h.code[i]);
    }
  }

  // ---------------- the machine and the evaluator agree ----------------

  ghost predicate Halts<V>(vm: Values<V>, code: Code, r: File<V>, k: nat, r': File<V>)
    requires Sound(code, State(0, r))
  {
    Steps(vm, code, State(0, r), k) == Some(State(|code|, r'))
  }

  // The evaluator finishes: so does the machine, with every variable that is
  // set holding its value.  No break or next escapes.
  lemma EvaluatorThenMachine<V(!new)>(vm: Values<V>, args: seq<string>, body: seq<Stmt>, locals: map<string, nat>, code: Code,
                                      env: Env<V>, r: File<V>, fuel: nat) returns (k: nat, r': File<V>)
    requires Runnable(vm, args, body, locals, code) && Rel(env, [ArgSlots(args)], r) && |r| == REGISTERS
    requires ExecList(vm, body, env, fuel).Done?
    ensures ExecList(vm, body, env, fuel).how == Normally
    ensures Halts(vm, code, r, k, r') && Rel(ExecList(vm, body, env, fuel).env, [locals], r')
  {
    hide Implements, Exec, Rel;
    RunsAt(vm, Many(body), [ArgSlots(args)], [locals], code, 0, code, 0, env, r, fuel);
    k, r' := Arrival(vm, code, State(0, r), |code|, ExecList(vm, body, env, fuel).env, [locals]);
  }

  // The machine halts: the evaluator finishes too, with fuel for as many
  // rounds as the machine made steps, unless it reads a variable never set.
  lemma MachineThenEvaluator<V(!new)>(vm: Values<V>, args: seq<string>, body: seq<Stmt>, locals: map<string, nat>, code: Code,
                                      env: Env<V>, r: File<V>, k: nat, r': File<V>)
    requires Runnable(vm, args, body, locals, code) && Rel(env, [ArgSlots(args)], r) && Sound(code, State(0, r))
    requires Halts(vm, code, r, k, r')
    ensures var res := ExecList(vm, body, env, k + 1);
            res.Stuck? || (res.Done? && res.how == Normally && Rel(res.env, [locals], r'))
  {
    hide Implements, Exec, Rel;
    var res := ExecList(vm, body, env, k + 1);
    RunsAt(vm, Many(body), [ArgSlots(args)], [locals], code, 0, code, 0, env, r, k + 1);
    StepsAdd(vm, code, State(0, r), k, 1);
    if res.Done? {
      var j, s := EvaluatorThenMachine(vm, args, body, locals, code, env, r, k + 1);
      HaltsOnce(vm, code, r, k, r', j, s);
    }
  }

  lemma HaltsOnce<V>(vm: Values<V>, code: Code, r: File<V>, k: nat, r1: File<V>, j: nat, r2: File<V>)
    requires Sound(code, State(0, r)) && Halts(vm, code, r, k, r1) && Halts(vm, code, r, j, r2)
    ensures k == j && r1 == r2
  {
    if k < j {
      StepsAdd(vm, code, State(0, r), k, j - k);
    } else if j < k {
      StepsAdd(vm, code, State(0, r), j, k - j);
    }
  }
}
