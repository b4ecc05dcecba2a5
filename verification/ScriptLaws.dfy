// Laws of the evaluator a reader of the language would name: which block a
// name belongs to, what a statement can change, and how statements compose.
module ScriptLaws {
  import opened Script

  // ---------------- the innermost block wins ----------------

  lemma {:induction false} LevelIs<T>(s: seq<map<string, T>>, id: string, i: nat)
    ensures Level(s, id) == Some(i) <==> i < |s| && id in s[i] && forall j :: i < j < |s| ==> id !in s[j]
  {
    var n := |s| - 1;
    if |s| > 0 && id !in s[n] {
      LevelIs(s[..n], id, i);
      assert i < n ==> s[..n][i] == s[i];
      assert (forall j :: i < j < n ==> id !in s[..n][j]) <==> (forall j :: i < j < n ==> id !in s[j]);
    }
  }

  lemma {:induction false} NoLevel<T>(s: seq<map<string, T>>, id: string)
    ensures Level(s, id).None? <==> forall j :: 0 <= j < |s| ==> id !in s[j]
  {
    var n := |s| - 1;
    if |s| > 0 && id !in s[n] {
      NoLevel(s[..n], id);
      assert (forall j :: 0 <= j < n ==> id !in s[..n][j]) <==> (forall j :: 0 <= j < n ==> id !in s[j]);
    }
  }

  // Setting a name changes its innermost block's entry and nothing else.
  lemma PutIs<V>(env: Env<V>, id: string, v: V, i: nat)
    requires i < |env| && id in env[i] && forall j :: i < j < |env| ==> id !in env[j]
    ensures |Put(env, id, v)| == |env| && Put(env, id, v)[i] == env[i][id := Some(v)]
    ensures forall j :: 0 <= j < |env| && j != i ==> Put(env, id, v)[j] == env[j]
    ensures Get(env, id) == env[i][id] && Get(Put(env, id, v), id) == Some(v)
  {
    LevelIs(env, id, i);
    LevelIs(Put(env, id, v), id, i);
  }

  // A name declared in a new block is the block's own.
  lemma DeclareShadows<V>(env: Env<V>, x: string, v: V)
    ensures var e := Put(Declare(env + [map[]], x), x, v);
            |e| == |env| + 1 && e[..|env|] == env && e[|env|] == map[x := Some(v)] && Get(e, x) == Some(v)
  {
    var d := Declare(env + [map[]], x);
    assert d[|env|] == map[x := None];
    PutIs(d, x, v, |env|);
  }

  // ---------------- what a statement can change ----------------

  function Touched(s: Stmt): set<string>
    decreases s
  {
    match s
    case Var(id) => {id}
    case VarAssign(id, _) => {id}
    case Assign(id, _) => {id}
    case OpAssign(_, id, _) => {id}
    case If(_, body, els) => AllTouched(body) + ElseTouched(els)
    case While(_, _, body) => AllTouched(body)
    case _ => {}
  }

  function ElseTouched(els: Else): set<string>
    decreases els
  {
    match els
    case NoElse => {}
    case ElseIf(s) => Touched(s)
    case ElseBlock(body) => AllTouched(body)
  }

  function AllTouched(ss: seq<Stmt>): set<string>
    decreases ss
  {
    if |ss| == 0 then {} else AllTouched(ss[..|ss| - 1]) + Touched(ss[|ss| - 1])
  }

  ghost predicate Hidden<V>(env: Env<V>, i: nat, id: string) {
    exists j :: i < j < |env| && id in env[j]
  }

  ghost predicate Alike<V>(a: map<string, Option<V>>, b: map<string, Option<V>>, id: string) {
    (id in a <==> id in b) && (id in a ==> a[id] == b[id])
  }

  // From `a` to `b` only names in `names` changed, and of each only the
  // innermost variable; no name was lost and outer blocks gained none.
  ghost predicate Framed<V>(a: Env<V>, b: Env<V>, names: set<string>) {
    && |a| == |b|
    && (forall i, id :: 0 <= i < |a| && (id !in names || Hidden(a, i, id)) ==> Alike(a[i], b[i], id))
    && (forall i, id :: 0 <= i < |a| && id in a[i] ==> id in b[i])
    && (forall i, id :: 0 <= i < |a| - 1 && id in b[i] ==> id in a[i])
  }

  ghost predicate FramedResult<V>(a: Env<V>, r: Result<V>, names: set<string>) {
    r.Done? ==> Framed(a, r.env, names)
  }

  lemma FramedThen<V>(a: Env<V>, b: Env<V>, c: Env<V>, m: set<string>, n: set<string>)
    requires Framed(a, b, m) && Framed(b, c, n)
    ensures Framed(a, c, m + n)
  {
    forall i: nat, id | i < |a| && (id !in m + n || Hidden(a, i, id))
      ensures Alike(a[i], c[i], id)
    {
      if Hidden(a, i, id) {
        var j :| i < j < |a| && id in a[j];
        assert id in b[j] && Hidden(b, i, id);
      }
      assert Alike(a[i], b[i], id) && Alike(b[i], c[i], id);
    }
  }

  lemma FramedMore<V>(a: Env<V>, b: Env<V>, m: set<string>, n: set<string>)
    requires Framed(a, b, m) && m <= n
    ensures Framed(a, b, n)
  {
  }

  // A block's own names go with it.
  lemma FramedBlock<V>(a: Env<V>, r: Result<V>, names: set<string>)
    requires FramedResult(a + [map[]], r, names)
    ensures FramedResult(a, InBlock(r), names)
  {
    if r.Done? {
      var a1, b := a + [map[]], r.env[..|a|];
      forall i: nat, id | i < |a| && (id !in names || Hidden(a, i, id))
        ensures Alike(a[i], b[i], id)
      {
        if Hidden(a, i, id) {
          var j :| i < j < |a| && id in a[j];
          assert id in a1[j] && Hidden(a1, i, id);
        }
        assert Alike(a1[i], r.env[i], id);
      }
      assert forall i, id :: 0 <= i < |a| && id in a[i] ==> id in a1[i];
      assert forall i, id :: 0 <= i < |a| && id in b[i] ==> id in a1[i];
    }
  }

  lemma SetFramed<V>(env: Env<V>, id: string, v: Option<V>)
    ensures FramedResult(env, Set(env, id, v), {id})
  {
    if v.Some? {
      NoLevel(env, id);
      if l: nat :| Level(env, id) == Some(l) {
        LevelIs(env, id, l);
        PutIs(env, id, v.value, l);
      }
    }
  }

  lemma DeclareFramed<V>(env: Env<V>, id: string)
    ensures Framed(env, Declare(env, id), {id})
  {
  }

  // Whatever a statement does, it keeps every name it does not mention and
  // every variable that an inner block hides.
  lemma {:induction false} ExecFramed<V>(vm: Values<V>, s: Stmt, env: Env<V>, fuel: nat)
    ensures FramedResult(env, Exec(vm, s, env, fuel), Touched(s))
    decreases fuel, s
  {
    hide Framed, Evaluate, Declare, Put;
    match s
    case Var(id) => DeclareFramed(env, id);
    case VarAssign(id, e) =>
      DeclareFramed(env, id);
      var d := Declare(env, id);
      SetFramed(d, id, Evaluate(vm, e, d));
      var r := Exec(vm, s, env, fuel);
      if r.Done? {
        FramedThen(env, d, r.env, {id}, {id});
        assert {id} + {id} == {id};
      }
    case Assign(id, e) => SetFramed(env, id, Evaluate(vm, e, env));
    case OpAssign(op, id, e) => SetFramed(env, id, Evaluate(vm, Infix(op, Name(id), e), env));
    case If(cond, body, els) =>
      ListFramed(vm, body, env + [map[]], fuel);
      FramedBlock(env, ExecList(vm, body, env + [map[]], fuel), AllTouched(body));
      ElseFramed(vm, els, env, fuel);
      var r := Exec(vm, s, env, fuel);
      if r.Done? {
        if Framed(env, r.env, AllTouched(body)) {
          FramedMore(env, r.env, AllTouched(body), Touched(s));
        } else {
          FramedMore(env, r.env, ElseTouched(els), Touched(s));
        }
      }
    case While(isDo, cond, body) =>
      ListFramed(vm, body, env + [map[]], fuel);
      var r := InBlock(ExecList(vm, body, env + [map[]], fuel));
      FramedBlock(env, ExecList(vm, body, env + [map[]], fuel), AllTouched(body));
      if isDo && r.Done? && r.how != ByBreak {
        RoundsFramed(vm, cond, body, r.env, fuel);
        RoundsAfter(env, r.env, Rounds(vm, cond, body, r.env, fuel), AllTouched(body));
      } else if !isDo {
        RoundsFramed(vm, cond, body, env, fuel);
      }
    case _ => Same(env, {});
  }

  lemma Same<V>(env: Env<V>, names: set<string>)
    ensures Framed(env, env, names)
  {
  }

  lemma RoundsAfter<V>(a: Env<V>, b: Env<V>, r: Result<V>, names: set<string>)
    requires Framed(a, b, names) && FramedResult(b, r, names)
    ensures FramedResult(a, r, names)
  {
    if r.Done? {
      FramedThen(a, b, r.env, names, names);
      assert names + names == names;
    }
  }

  lemma {:induction false} ElseFramed<V>(vm: Values<V>, els: Else, env: Env<V>, fuel: nat)
    ensures FramedResult(env, ExecElse(vm, els, env, fuel), ElseTouched(els))
    decreases fuel, els
  {
    match els
    case NoElse =>
    case ElseIf(s) => ExecFramed(vm, s, env, fuel);
    case ElseBlock(body) =>
      ListFramed(vm, body, env + [map[]], fuel);
      FramedBlock(env, ExecList(vm, body, env + [map[]], fuel), AllTouched(body));
  }

  lemma {:induction false} ListFramed<V>(vm: Values<V>, ss: seq<Stmt>, env: Env<V>, fuel: nat)
    ensures FramedResult(env, ExecList(vm, ss, env, fuel), AllTouched(ss))
    decreases fuel, ss
  {
    hide Framed, Exec;
    if |ss| == 0 {
      Same(env, {});
    } else {
      var init, last := ss[..|ss| - 1], ss[|ss| - 1];
      ListFramed(vm, init, env, fuel);
      var r := ExecList(vm, init, env, fuel);
      if r.Done? {
        FramedMore(env, r.env, AllTouched(init), AllTouched(ss));
        if r.how == Normally {
          ExecFramed(vm, last, r.env, fuel);
          var q := Exec(vm, last, r.env, fuel);
          if q.Done? { FramedThen(env, r.env, q.env, AllTouched(init), Touched(last)); }
        }
      }
    }
  }

  lemma {:induction false} RoundsFramed<V>(vm: Values<V>, cond: Expr, body: seq<Stmt>, env: Env<V>, fuel: nat)
    ensures FramedResult(env, Rounds(vm, cond, body, env, fuel), AllTouched(body))
    decreases fuel, body
  {
    hide Framed, ExecList, Evaluate;
    Same(env, AllTouched(body));
    if fuel > 0 {
      ListFramed(vm, body, env + [map[]], fuel - 1);
      var l := ExecList(vm, body, env + [map[]], fuel - 1);
      FramedBlock(env, l, AllTouched(body));
      var r := InBlock(l);
      if r.Done? && r.how != ByBreak {
        RoundsFramed(vm, cond, body, r.env, fuel - 1);
        RoundsAfter(env, r.env, Rounds(vm, cond, body, r.env, fuel - 1), AllTouched(body));
      }
    }
  }

  // ---------------- fuel only bounds ----------------

  // A run that ends, or gets stuck, does so with any more fuel.
  lemma {:induction false} MoreFuel<V>(vm: Values<V>, s: Stmt, env: Env<V>, fuel: nat, more: nat)
    requires fuel <= more && !Exec(vm, s, env, fuel).OutOfFuel?
    ensures Exec(vm, s, env, more) == Exec(vm, s, env, fuel)
    decreases fuel, s
  {
    hide Evaluate, ExecList, Rounds;
    match s
    case If(cond, body, els) =>
      var c := Evaluate(vm, cond, env);
      if c.Some? {
        if vm.truthy(c.value) {
          MoreFuelList(vm, body, env + [map[]], fuel, more);
        } else {
          MoreFuelElse(vm, els, env, fuel, more);
        }
      }
    case While(isDo, cond, body) =>
      if isDo {
        MoreFuelList(vm, body, env + [map[]], fuel, more);
        var r := InBlock(ExecList(vm, body, env + [map[]], fuel));
        if r.Done? && r.how != ByBreak { MoreFuelRounds(vm, cond, body, r.env, fuel, more); }
      } else {
        MoreFuelRounds(vm, cond, body, env, fuel, more);
      }
    case _ =>
  }

  lemma {:induction false} MoreFuelElse<V>(vm: Values<V>, els: Else, env: Env<V>, fuel: nat, more: nat)
    requires fuel <= more && !ExecElse(vm, els, env, fuel).OutOfFuel?
    ensures ExecElse(vm, els, env, more) == ExecElse(vm, els, env, fuel)
    decreases fuel, els
  {
    match els
    case NoElse =>
    case ElseIf(s) => MoreFuel(vm, s, env, fuel, more);
    case ElseBlock(body) => MoreFuelList(vm, body, env + [map[]], fuel, more);
  }

  lemma {:induction false} MoreFuelList<V>(vm: Values<V>, ss: seq<Stmt>, env: Env<V>, fuel: nat, more: nat)
    requires fuel <= more && !ExecList(vm, ss, env, fuel).OutOfFuel?
    ensures ExecList(vm, ss, env, more) == ExecList(vm, ss, env, fuel)
    decreases fuel, ss
  {
    hide Exec;
    if |ss| > 0 {
      var init := ss[..|ss| - 1];
      MoreFuelList(vm, init, env, fuel, more);
      var r := ExecList(vm, init, env, fuel);
      if r.Done? && r.how == Normally { MoreFuel(vm, ss[|ss| - 1], r.env, fuel, more); }
    }
  }

  lemma {:induction false} MoreFuelRounds<V>(vm: Values<V>, cond: Expr, body: seq<Stmt>, env: Env<V>, fuel: nat, more: nat)
    requires fuel <= more && !Rounds(vm, cond, body, env, fuel).OutOfFuel?
    ensures Rounds(vm, cond, body, env, more) == Rounds(vm, cond, body, env, fuel)
    decreases fuel, body
  {
    hide ExecList, Evaluate;
    var c := Evaluate(vm, cond, env);
    if c.Some? && vm.truthy(c.value) {
      MoreFuelList(vm, body, env + [map[]], fuel - 1, more - 1);
      var r := InBlock(ExecList(vm, body, env + [map[]], fuel - 1));
      if r.Done? && r.how != ByBreak { MoreFuelRounds(vm, cond, body, r.env, fuel - 1, more - 1); }
    }
  }

  // ---------------- statements after one another ----------------

  ghost function Then<V>(vm: Values<V>, r: Result<V>, ss: seq<Stmt>, fuel: nat): Result<V> {
    if r.Done? && r.how == Normally then ExecList(vm, ss, r.env, fuel) else r
  }

  lemma {:induction false} ListThen<V>(vm: Values<V>, a: seq<Stmt>, b: seq<Stmt>, env: Env<V>, fuel: nat)
    ensures ExecList(vm, a + b, env, fuel) == Then(vm, ExecList(vm, a, env, fuel), b, fuel)
    decreases |b|
  {
    hide Exec;
    if |b| == 0 {
      assert a + b == a;
    } else {
      var n := |b| - 1;
      ListThen(vm, a, b[..n], env, fuel);
      assert (a + b)[..|a + b| - 1] == a + b[..n];
      assert (a + b)[|a + b| - 1] == b[n];
    }
  }

  lemma ListOfOne<V>(vm: Values<V>, s: Stmt, env: Env<V>, fuel: nat)
    ensures ExecList(vm, [s], env, fuel) == Exec(vm, s, env, fuel)
  {
    assert [s][..0] == [];
    var empty := ExecList(vm, [s][..0], env, fuel);
    assert empty == Done(Normally, env);
  }

  ghost function InNewBlock<V>(vm: Values<V>, ss: seq<Stmt>, env: Env<V>, fuel: nat): Result<V> {
    InBlock(ExecList(vm, ss, env + [map[]], fuel))
  }

  // Exactly one branch is taken.
  lemma OneBranch<V>(vm: Values<V>, cond: Expr, body: seq<Stmt>, s: Stmt, other: seq<Stmt>, env: Env<V>, fuel: nat, v: V)
    requires Evaluate(vm, cond, env) == Some(v)
    ensures vm.truthy(v) ==> forall els :: Exec(vm, If(cond, body, els), env, fuel) == InNewBlock(vm, body, env, fuel)
    ensures !vm.truthy(v) ==>
              && Exec(vm, If(cond, body, NoElse), env, fuel) == Done(Normally, env)
              && Exec(vm, If(cond, body, ElseIf(s)), env, fuel) == Exec(vm, s, env, fuel)
              && Exec(vm, If(cond, body, ElseBlock(other)), env, fuel) == InNewBlock(vm, other, env, fuel)
  {
  }

  // Nothing behind a `break` or a `next` is carried out.
  lemma NothingBehind<V>(vm: Values<V>, leave: Stmt, rest: seq<Stmt>, env: Env<V>, fuel: nat)
    requires leave.Break? || leave.Next?
    ensures ExecList(vm, [leave] + rest, env, fuel) == Done(if leave.Break? then ByBreak else ByNext, env)
  {
    ListThen(vm, [leave], rest, env, fuel);
    ListOfOne(vm, leave, env, fuel);
  }

  // With a test that fails, a `while` does nothing and a `do` its body once;
  // a `break` ends either one.
  lemma Once<V>(vm: Values<V>, cond: Expr, body: seq<Stmt>, env: Env<V>, fuel: nat, v: V, w: V)
    requires Evaluate(vm, cond, env) == Some(v)
    ensures !vm.truthy(v) ==> Exec(vm, While(false, cond, body), env, fuel) == Done(Normally, env)
    ensures var r := InNewBlock(vm, body, env, fuel);
            && (r.Done? && r.how == ByBreak ==> Exec(vm, While(true, cond, body), env, fuel) == Done(Normally, r.env))
            && (r.Done? && r.how != ByBreak && Evaluate(vm, cond, r.env) == Some(w) && !vm.truthy(w) ==>
                  Exec(vm, While(true, cond, body), env, fuel) == Done(Normally, r.env))
            && (r.Done? && r.how == ByBreak && vm.truthy(v) ==>
                  Exec(vm, While(false, cond, body), env, fuel + 1) == Done(Normally, r.env))
  {
  }

  // A block that first declares x, and after that sets only x, changes no
  // variable outside it.
  lemma InnerStaysInside<V>(vm: Values<V>, x: string, e: Expr, rest: seq<Stmt>, env: Env<V>, fuel: nat)
    requires AllTouched(rest) <= {x}
    ensures var r := InBlock(ExecList(vm, [VarAssign(x, e)] + rest, env + [map[]], fuel));
            r.Done? ==> r.env == env
  {
    var first := VarAssign(x, e);
    var l := ExecList(vm, [first] + rest, env + [map[]], fuel);
    ListThen(vm, [first], rest, env + [map[]], fuel);
    ListOfOne(vm, first, env + [map[]], fuel);
    var one := Exec(vm, first, env + [map[]], fuel);
    if l.Done? {
      var v := Evaluate(vm, e, Declare(env + [map[]], x)).value;
      DeclareShadows(env, x, v);
      var a := one.env;
      assert a == env + [map[x := Some(v)]];
      ListFramed(vm, rest, a, fuel);
      OuterKept(env, a, l.env, x, AllTouched(rest));
    }
  }

  lemma OuterKept<V>(env: Env<V>, a: Env<V>, b: Env<V>, x: string, names: set<string>)
    requires |a| == |env| + 1 && a[..|env|] == env && x in a[|env|] && names <= {x} && Framed(a, b, names)
    ensures b[..|env|] == env
  {
    forall i: nat | i < |env|
      ensures b[i] == env[i]
    {
      forall id: string
        ensures Alike(env[i], b[i], id)
      {
        assert a[i] == a[..|env|][i] == env[i];
        if id == x {
          assert id in a[|env|] && Hidden(a, i, id);
        } else {
          assert id !in names;
        }
        assert Alike(a[i], b[i], id);
      }
      MapsAlike(env[i], b[i]);
    }
  }

  lemma MapsAlike<V>(m: map<string, Option<V>>, n: map<string, Option<V>>)
    requires forall id :: Alike(m, n, id)
    ensures m == n
  {
    assert forall id :: id in m <==> id in n by {
      forall id: string
        ensures id in m <==> id in n
      {
        assert Alike(m, n, id);
      }
    }
    forall id | id in m
      ensures m[id] == n[id]
    {
      assert Alike(m, n, id);
    }
  }
}
