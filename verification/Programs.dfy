// What whole programs come to, worked out apart from the evaluator: which
// operand is subtracted, which way a comparison goes, what `break` and `next`
// skip, and what a loop adds up.
module Programs {
  import opened Script
  import opened ScriptLaws
  import opened Opcodes
  import Machine
  import Translation
  import Compiler
  import Assembly
  import Link
  import Wire

  // ---------------- arithmetic on numbers ----------------

  function Bit(b: bool): int { if b then 1 else 0 }

  function Lit(l: Script.Lit): int {
    match l
    case Int(n) => n
    case True => 1
    case _ => 0
  }

  function Two(op: nat, x: int, y: int): int {
    if op == Number(ADD) then x + y
    else if op == Number(SUB) then x - y
    else if op == Number(EQ) then Bit(x == y)
    else if op == Number(LT) then Bit(x < y)
    else if op == Number(GT) then Bit(x > y)
    else 0
  }

  lemma Tests(x: int, y: int)
    ensures Two(17, x, y) == x + y && Two(31, x, y) == Bit(x == y) && Two(33, x, y) == Bit(x > y) && Two(34, x, y) == Bit(x < y)
  {
  }

  function One(op: nat, x: int): int {
    if op == Number(NEG) then -x else if op == Number(NOT) then Bit(x == 0) else 0
  }

  function Arith(): Values<int> {
    Values(Lit, One, Two, (x: int) => x != 0)
  }

  // The right operand is subtracted from the left one: by the evaluator,
  lemma EvaluatesInOrder(x: Int32, y: Int32, env: Env<int>)
    ensures Evaluate(Arith(), Infix(Number(SUB), Literal(Int(x)), Literal(Int(y))), env) == Some(x - y)
    ensures Evaluate(Arith(), Infix(Number(LT), Literal(Int(x)), Literal(Int(y))), env) == Some(Bit(x < y))
  {
    Narrow(x);
    Narrow(y);
  }

  lemma Narrow(x: Int32)
    ensures forall env: Env<int> :: Evaluate(Arith(), Literal(Int(x)), env) == Some(x)
  {
  }

  // and by the handlers that take it from a register and from the instruction.
  lemma HandlesInOrder(y: Int32, r: Machine.File<int>, b: Wire.byte, c: Wire.byte)
    requires |r| == Machine.REGISTERS
    ensures Link.Result(Arith(), Number(SUB), b, Wire.Num(c), r) == Some(r[b] - r[c])
    ensures Link.Result(Arith(), 64 + Number(SUB), b, Wire.Num(y % 0x1_0000_0000), r) == Some(r[b] - y)
  {
  }

  // ---------------- a loop with `next` and `break` ----------------

  // i += 1; if (i == k) { next }; if (i > m) { break }; s += i
  const BODY: seq<Stmt> := [
    OpAssign(17, "i", Literal(Int(1))),
    If(Infix(31, Name("i"), Name("k")), [Next], NoElse),
    If(Infix(33, Name("i"), Name("m")), [Break], NoElse),
    OpAssign(17, "s", Name("i"))
  ]

  // while (i < n) { ... }
  const LOOP: Stmt := While(false, Infix(34, Name("i"), Name("n")), BODY)

  type Vars = map<string, Option<int>>

  function State(n: int, m: int, k: int, i: int, s: int): Vars {
    map["self" := None, "_global" := None, "n" := Some(n), "m" := Some(m), "k" := Some(k), "i" := Some(i), "s" := Some(s)]
  }

  lemma Fields(n: int, m: int, k: int, i: int, s: int)
    ensures var v := State(n, m, k, i, s);
            && v.Keys == {"self", "_global", "n", "m", "k", "i", "s"}
            && v["n"] == Some(n) && v["m"] == Some(m) && v["k"] == Some(k) && v["i"] == Some(i) && v["s"] == Some(s)
            && v["i" := Some(i + 1)] == State(n, m, k, i + 1, s) && v["s" := Some(s + i)] == State(n, m, k, i, s + i)
  {
  }

  // The sum of the numbers above i and up to n and m, k left out.
  function Sum(n: int, m: int, k: int, i: int): int
    decreases n - i
  {
    if i >= n then 0
    else if i + 1 == k then Sum(n, m, k, i + 1)
    else if i + 1 > m then 0
    else i + 1 + Sum(n, m, k, i + 1)
  }

  // Inside the loop's block, however many empty blocks deeper, the variables
  // are those outside it.
  lemma Inner(v: Vars, e: Env<int>, id: string, x: int)
    requires |e| >= 1 && e[0] == v && id in v && forall j :: 1 <= j < |e| ==> e[j] == map[]
    ensures Get(e, id) == v[id]
    ensures Put(e, id, x) == e[0 := v[id := Some(x)]]
  {
    LevelIs(e, id, 0);
  }

  lemma First(s: Stmt, rest: seq<Stmt>, env: Env<int>, fuel: nat)
    ensures ExecList(Arith(), [s] + rest, env, fuel) == Then(Arith(), Exec(Arith(), s, env, fuel), rest, fuel)
  {
    ListThen(Arith(), [s], rest, env, fuel);
    ListOfOne(Arith(), s, env, fuel);
  }

  lemma Adds(v: Vars, id: string, e: Expr, d: int, fuel: nat)
    requires id in v && v[id].Some? && Evaluate(Arith(), e, [v, map[]]) == Some(d)
    ensures Exec(Arith(), OpAssign(17, id, e), [v, map[]], fuel) == Done(Normally, [v[id := Some(v[id].value + d)], map[]])
  {
    var x := v[id].value + d;
    Inner(v, [v, map[]], id, x);
    assert [v, map[]][0 := v[id := Some(x)]] == [v[id := Some(x)], map[]];
    assert Two(17, v[id].value, d) == x;
    assert Evaluate(Arith(), Infix(17, Name(id), e), [v, map[]]) == Some(x);
  }

  // A test that leaves, and one that does not.
  lemma Leaves(op: BinaryOp, a: string, b: string, s: Stmt, v: Vars, fuel: nat)
    requires a in v && b in v && v[a].Some? && v[b].Some? && (s.Next? || s.Break?)
    ensures Exec(Arith(), If(Infix(op, Name(a), Name(b)), [s], NoElse), [v, map[]], fuel) ==
            if Two(op, v[a].value, v[b].value) == 0 then Done(Normally, [v, map[]])
            else Done(if s.Next? then ByNext else ByBreak, [v, map[]])
  {
    var e := [v, map[]];
    Inner(v, e, a, 0);
    Inner(v, e, b, 0);
    var c := Infix(op, Name(a), Name(b));
    assert Evaluate(Arith(), c, e) == Some(Two(op, v[a].value, v[b].value));
    ListOfOne(Arith(), s, e + [map[]], fuel);
    assert (e + [map[]])[..2] == e;
    assert ExecElse(Arith(), NoElse, e, fuel) == Done(Normally, e);
  }

  lemma Statements(n: int, m: int, k: int, i: int, s: int, fuel: nat)
    ensures Exec(Arith(), BODY[0], [State(n, m, k, i, s), map[]], fuel) == Done(Normally, [State(n, m, k, i + 1, s), map[]])
    ensures Exec(Arith(), BODY[1], [State(n, m, k, i, s), map[]], fuel) ==
            Done(if i == k then ByNext else Normally, [State(n, m, k, i, s), map[]])
    ensures Exec(Arith(), BODY[2], [State(n, m, k, i, s), map[]], fuel) ==
            Done(if i > m then ByBreak else Normally, [State(n, m, k, i, s), map[]])
    ensures Exec(Arith(), BODY[3], [State(n, m, k, i, s), map[]], fuel) == Done(Normally, [State(n, m, k, i, s + i), map[]])
  {
    hide Exec, Get, Put, State, Number, Two;
    Tests(i, k);
    Tests(i, m);
    var v := State(n, m, k, i, s);
    Fields(n, m, k, i, s);
    Narrow(1);
    Adds(v, "i", Literal(Int(1)), 1, fuel);
    Leaves(31, "i", "k", Next, v, fuel);
    Leaves(33, "i", "m", Break, v, fuel);
    Inner(v, [v, map[]], "i", 0);
    Adds(v, "s", Name("i"), i, fuel);
  }

  lemma Round(n: int, m: int, k: int, i: int, s: int, fuel: nat)
    ensures ExecList(Arith(), BODY, [State(n, m, k, i, s), map[]], fuel) ==
            if i + 1 == k then Done(ByNext, [State(n, m, k, i + 1, s), map[]])
            else if i + 1 > m then Done(ByBreak, [State(n, m, k, i + 1, s), map[]])
            else Done(Normally, [State(n, m, k, i + 1, s + i + 1), map[]])
  {
    hide Exec, ExecList, State;
    var v, w := State(n, m, k, i, s), State(n, m, k, i + 1, s);
    assert BODY == [BODY[0]] + BODY[1..] && BODY[1..] == [BODY[1]] + BODY[2..] && BODY[2..] == [BODY[2]] + [BODY[3]];
    First(BODY[0], BODY[1..], [v, map[]], fuel);
    First(BODY[1], BODY[2..], [w, map[]], fuel);
    First(BODY[2], [BODY[3]], [w, map[]], fuel);
    ListOfOne(Arith(), BODY[3], [w, map[]], fuel);
    Statements(n, m, k, i, s, fuel);
    Statements(n, m, k, i + 1, s, fuel);
  }

  ghost predicate Totals(r: Result<int>, total: int) {
    r.Done? && r.how == Normally && |r.env| == 1 && "s" in r.env[0] && r.env[0]["s"] == Some(total)
  }

  // The loop adds up what it should, whatever the bounds are.
  lemma {:induction false} LoopSums(n: int, m: int, k: int, i: int, s: int, fuel: nat)
    requires fuel >= n - i
    ensures var r := Exec(Arith(), LOOP, [State(n, m, k, i, s)], fuel);
            Totals(r, s + Sum(n, m, k, i))
    decreases fuel
  {
    RoundsSum(n, m, k, i, s, fuel);
  }

  lemma {:induction false} RoundsSum(n: int, m: int, k: int, i: int, s: int, fuel: nat)
    requires fuel >= n - i
    ensures var r := Rounds(Arith(), LOOP.cond, BODY, [State(n, m, k, i, s)], fuel);
            Totals(r, s + Sum(n, m, k, i))
    decreases fuel
  {
    hide ExecList, Get, Put, State, Arith;
    var v := State(n, m, k, i, s);
    Fields(n, m, k, i, s);
    Inner(v, [v], "i", 0);
    Inner(v, [v], "n", 0);
    TestOf([v]);
    if i < n {
      Round(n, m, k, i, s, fuel - 1);
      assert [v] + [map[]] == [v, map[]];
      OneLess(State(n, m, k, i + 1, s));
      OneLess(State(n, m, k, i + 1, s + i + 1));
      if i + 1 == k {
        RoundsSum(n, m, k, i + 1, s, fuel - 1);
      } else if i + 1 <= m {
        RoundsSum(n, m, k, i + 1, s + i + 1, fuel - 1);
      }
    }
  }

  lemma TestOf(e: Env<int>)
    requires Get(e, "i").Some? && Get(e, "n").Some?
    ensures var c := Evaluate(Arith(), LOOP.cond, e);
            c.Some? && (Arith().truthy(c.value) <==> Get(e, "i").value < Get(e, "n").value)
  {
    hide Number, Get;
    Tests(Get(e, "i").value, Get(e, "n").value);
  }

  lemma OneLess(v: Vars)
    ensures [v, map[]][..1] == [v]
  {
  }

  lemma {:induction false} SumClosed(n: int, m: int, k: int, i: int)
    requires 0 <= i <= n <= m && k <= i
    ensures 2 * Sum(n, m, k, i) == n * (n + 1) - i * (i + 1)
    decreases n - i
  {
    if i < n { SumClosed(n, m, k, i + 1); }
  }

  // ---------------- the same loop on the machine ----------------

  const ARGS: seq<string> := ["n", "m", "k", "i", "s"]

  lemma Slots()
    ensures Compiler.ArgSlots(ARGS) == map["self" := 0, "_global" := 255, "n" := 1, "m" := 2, "k" := 3, "i" := 4, "s" := 5]
  {
    hide Compiler.ArgSlots;
    NoArgs();
    OneMore([], "n");
    OneMore(["n"], "m");
    OneMore(["n", "m"], "k");
    OneMore(["n", "m", "k"], "i");
    OneMore(["n", "m", "k", "i"], "s");
    assert [] + ["n"] == ["n"] && ["n"] + ["m"] == ["n", "m"] && ["n", "m"] + ["k"] == ["n", "m", "k"];
    assert ["n", "m", "k"] + ["i"] == ["n", "m", "k", "i"] && ["n", "m", "k", "i"] + ["s"] == ARGS;
  }

  lemma NoArgs()
    ensures Compiler.ArgSlots([]) == map["self" := 0, "_global" := 255]
  {
  }

  lemma OneMore(args: seq<string>, id: string)
    ensures var v := Compiler.ArgSlots(args);
            Compiler.ArgSlots(args + [id]) == if id in v then v else v[id := |args| + 1]
  {
    var all := args + [id];
    assert |all| == |args| + 1 && all[|all| - 1] == id;
    assert all[..|all| - 1] == args;
  }

  lemma SlotsRel(n: int, m: int, k: int, i: int, s: int, r: Machine.File<int>)
    requires |r| == Machine.REGISTERS && r[1] == n && r[2] == m && r[3] == k && r[4] == i && r[5] == s
    ensures Translation.Rel([State(n, m, k, i, s)], [Compiler.ArgSlots(ARGS)], r)
  {
    Slots();
    hide Compiler.ArgSlots;
  }

  // Compiled, encoded and cached, the loop leaves the sum in its variable's
  // register, whatever the arguments in registers 1 to 5 are.
  lemma MachineSums(n: int, m: int, k: int, i: int, s: int, locals: map<string, nat>, code: Machine.Code,
                    known: set<Wire.byte>, r: Machine.File<int>) returns (steps: nat, r': Machine.File<int>)
    requires Compiler.Runnable(Arith(), ARGS, [LOOP], locals, code) && |code| < Wire.U32
    requires forall b: Wire.byte :: Link.Handled(b) ==> b in known
    requires |r| == Machine.REGISTERS && r[1] == n && r[2] == m && r[3] == k && r[4] == i && r[5] == s
    ensures Assembly.Framed(Link.CodeBytes(code), 0)
    ensures Link.Returns(Arith(), Assembly.DecodeFrom(Link.CodeBytes(code), known, 0), Machine.State(0, r), steps, r')
    ensures "s" in locals && locals["s"] < |r'| && r'[locals["s"]] == s + Sum(n, m, k, i)
  {
    hide Compiler.Runnable, Compiler.ArgSlots, Link.Handled, Exec, ExecList, State, Sum, Arith, LOOP, ARGS;
    var env := [State(n, m, k, i, s)];
    var fuel := if n > i then n - i else 0;
    LoopSums(n, m, k, i, s, fuel);
    ListOfOne(Arith(), LOOP, env, fuel);
    SlotsRel(n, m, k, i, s, r);
    steps, r' := Link.EvaluatorThenOperations(Arith(), ARGS, [LOOP], locals, code, known, env, r, fuel);
    var e := ExecList(Arith(), [LOOP], env, fuel).env;
    assert "s" in e[0] && e[0]["s"] == Some(s + Sum(n, m, k, i));
  }
}
