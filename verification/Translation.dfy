// What it means for emitted instructions to do what the source says, and how
// that is built up from the parts of an expression or a statement.
module Translation {
  import opened Script
  import opened Machine

  // ---------------- variables and registers ----------------

  // The register of every declared name, block by block like the environment.
  type Slots = seq<map<string, nat>>

  ghost predicate Apart(slots: Slots) {
    && (forall i, x :: 0 <= i < |slots| && x in slots[i] ==> slots[i][x] < REGISTERS)
    && (forall i, j, x, y ::
          0 <= i < |slots| && 0 <= j < |slots| && x in slots[i] && y in slots[j] && slots[i][x] == slots[j][y] ==>
            i == j && x == y)
  }

  ghost predicate Fits<V>(env: Env<V>, slots: Slots) {
    |env| == |slots| && forall i :: 0 <= i < |env| ==> env[i].Keys == slots[i].Keys
  }

  // Every variable that is set has its value in its register.
  ghost predicate Rel<V>(env: Env<V>, slots: Slots, r: File<V>) {
    && |r| == REGISTERS && Fits(env, slots) && Apart(slots)
    && forall i, x :: 0 <= i < |env| && x in env[i] && env[i][x].Some? ==> r[slots[i][x]] == env[i][x].value
  }

  ghost predicate SlotsIn(slots: Slots, keep: set<nat>) {
    forall i, x :: 0 <= i < |slots| && x in slots[i] ==> slots[i][x] in keep
  }

  ghost predicate Agree<V>(keep: set<nat>, r: File<V>, r': File<V>)
    requires |r| == |r'| == REGISTERS
  {
    forall n :: n in keep && n < REGISTERS ==> r'[n] == r[n]
  }

  lemma RelKept<V>(env: Env<V>, slots: Slots, keep: set<nat>, r: File<V>, r': File<V>)
    requires Rel(env, slots, r) && |r'| == REGISTERS && SlotsIn(slots, keep) && Agree(keep, r, r')
    ensures Rel(env, slots, r')
  {
  }

  lemma {:induction false} LevelFits<V>(env: Env<V>, slots: Slots, id: string)
    requires Fits(env, slots)
    ensures Level(env, id) == Level(slots, id)
    decreases |env|
  {
    if |env| > 0 {
      assert id in env[|env| - 1] <==> id in env[|env| - 1].Keys;
      assert id in slots[|env| - 1] <==> id in slots[|env| - 1].Keys;
      assert Fits(env[..|env| - 1], slots[..|env| - 1]);
      LevelFits(env[..|env| - 1], slots[..|env| - 1], id);
    }
  }

  // The register of a name.
  ghost function Slot(slots: Slots, id: string): nat
    requires Level(slots, id).Some?
  {
    slots[Level(slots, id).value][id]
  }

  lemma GetFits<V>(env: Env<V>, slots: Slots, r: File<V>, id: string)
    requires Rel(env, slots, r) && Level(slots, id).Some?
    ensures Slot(slots, id) < REGISTERS
    ensures Get(env, id).Some? ==> r[Slot(slots, id)] == Get(env, id).value
  {
    LevelFits(env, slots, id);
  }

  lemma PutFits<V>(env: Env<V>, slots: Slots, r: File<V>, id: string, v: V)
    requires Rel(env, slots, r) && Level(slots, id).Some?
    ensures Slot(slots, id) < REGISTERS && Rel(Put(env, id, v), slots, r[Slot(slots, id) := v])
  {
    hide Level;
    LevelFits(env, slots, id);
    var l := Level(slots, id).value;
    var env': Env<V> := Put(env, id, v);
    var r' := r[Slot(slots, id) := v];
    forall i, x | 0 <= i < |env'| && x in env'[i] && env'[i][x].Some?
      ensures r'[slots[i][x]] == env'[i][x].value
    {
      assert x in slots[i].Keys && x in env[i].Keys && id in slots[l].Keys;
      assert slots[i][x] == slots[l][id] ==> i == l && x == id;
    }
    assert env'[l].Keys == env[l].Keys;
  }

  lemma RelPrefix<V>(env: Env<V>, slots: Slots, r: File<V>, n: nat)
    requires Rel(env, slots, r) && n <= |env|
    ensures Rel(env[..n], slots[..n], r)
  {
    forall i, j, x, y | 0 <= i < n && 0 <= j < n && x in slots[..n][i] && y in slots[..n][j] && slots[..n][i][x] == slots[..n][j][y]
      ensures i == j && x == y
    {
      assert x in slots[i] && y in slots[j];
    }
  }

  // ---------------- expressions ----------------

  // Where a value is to be found: in a register, or it is a literal not yet loaded.
  datatype Place = InReg(n: nat) | Later(lit: Lit64)

  datatype Claim = Claim(e: Expr, at: Place)

  ghost predicate Holds<V>(vm: Values<V>, c: Claim, env: Env<V>, r: File<V>)
    requires |r| == REGISTERS
  {
    match c.at
    case InReg(n) => n < REGISTERS && (Evaluate(vm, c.e, env).Some? ==> r[n] == Evaluate(vm, c.e, env).value)
    case Later(lit) => Evaluate(vm, c.e, env) == Some(vm.lit(lit))
  }

  ghost predicate GivesAt<V>(vm: Values<V>, seg: Code, claims: seq<Claim>, keep: set<nat>, env: Env<V>, r: File<V>)
    requires Line(seg) && |r| == REGISTERS
  {
    && Agree(keep, r, Fold(vm, seg, r))
    && forall i :: 0 <= i < |claims| ==> Holds(vm, claims[i], env, Fold(vm, seg, r))
  }

  // Running the segment leaves the claimed values where it is claimed and
  // changes no register in `keep`.
  ghost predicate Gives<V(!new)>(vm: Values<V>, slots: Slots, seg: Code, claims: seq<Claim>, keep: set<nat>) {
    && Line(seg)
    && forall env: Env<V>, r: File<V> :: Rel(env, slots, r) ==> GivesAt(vm, seg, claims, keep, env, r)
  }

  ghost predicate PlacesIn(claims: seq<Claim>, keep: set<nat>) {
    forall i :: 0 <= i < |claims| && claims[i].at.InReg? ==> claims[i].at.n in keep
  }

  lemma GivesThen<V(!new)>(vm: Values<V>, slots: Slots, a: Code, ca: seq<Claim>, ka: set<nat>,
                     b: Code, cb: seq<Claim>, kb: set<nat>)
    requires Gives(vm, slots, a, ca, ka) && Gives(vm, slots, b, cb, kb)
    requires ka <= kb && SlotsIn(slots, ka) && PlacesIn(ca, kb)
    ensures Gives(vm, slots, a + b, ca + cb, ka)
  {
    assert Line(a + b);
    forall env: Env<V>, r: File<V> | Rel(env, slots, r)
      ensures GivesAt(vm, a + b, ca + cb, ka, env, r)
    {
      var m := Fold(vm, a, r);
      assert GivesAt(vm, a, ca, ka, env, r);
      RelKept(env, slots, ka, r, m);
      assert GivesAt(vm, b, cb, kb, env, m);
      FoldAdd(vm, a, b, r);
      forall i | 0 <= i < |ca|
        ensures Holds(vm, ca[i], env, Fold(vm, b, m))
      {
        assert Holds(vm, ca[i], env, m);
      }
    }
  }

  // One more instruction, into a register nothing depends on.
  lemma GivesOp<V(!new)>(vm: Values<V>, slots: Slots, seg: Code, claims: seq<Claim>, keep: set<nat>, op: Op<nat>, e: Expr)
    requires Gives(vm, slots, seg, claims, keep) && Straight(op) && InFile(op) && op.dst !in keep
    requires Yields(vm, slots, seg, op, e)
    ensures Gives(vm, slots, seg + [op], [Claim(e, InReg(op.dst))], keep)
  {
    var c := Claim(e, InReg(op.dst));
    forall env: Env<V>, r: File<V> | Rel(env, slots, r)
      ensures GivesAt(vm, seg + [op], [c], keep, env, r)
    {
      assert GivesAt(vm, seg, claims, keep, env, r);
      FoldOne(vm, seg, op, r);
      assert YieldsAt(vm, seg, op, e, env, r);
    }
  }

  lemma FoldOne<V>(vm: Values<V>, seg: Code, op: Op<nat>, r: File<V>)
    requires Line(seg) && Straight(op) && InFile(op) && |r| == REGISTERS
    ensures Line(seg + [op]) && Fold(vm, seg + [op], r) == Effect(vm, op, Fold(vm, seg, r))
  {
    assert (seg + [op])[..|seg|] == seg;
  }

  // After the segment the instruction stores the value of e.
  ghost predicate Yields<V(!new)>(vm: Values<V>, slots: Slots, seg: Code, op: Op<nat>, e: Expr) {
    && Line(seg) && Straight(op) && InFile(op)
    && forall env: Env<V>, r: File<V> :: Rel(env, slots, r) ==> YieldsAt(vm, seg, op, e, env, r)
  }

  ghost predicate YieldsAt<V>(vm: Values<V>, seg: Code, op: Op<nat>, e: Expr, env: Env<V>, r: File<V>)
    requires Line(seg) && Straight(op) && InFile(op) && |r| == REGISTERS
  {
    Evaluate(vm, e, env).Some? ==> Stored(vm, op, Fold(vm, seg, r)) == Evaluate(vm, e, env).value
  }

  // A literal that was kept back is loaded; the other claim stays true.
  lemma GivesLoad<V(!new)>(vm: Values<V>, slots: Slots, seg: Code, claims: seq<Claim>, keep: set<nat>, i: nat, n: nat)
    requires Gives(vm, slots, seg, claims, keep) && i < |claims| && claims[i].at.Later? && n !in keep && n < REGISTERS
    requires forall j :: 0 <= j < |claims| ==> claims[j].at != InReg(n)
    ensures Gives(vm, slots, seg + [Load(n, claims[i].at.lit)], claims[i := claims[i].(at := InReg(n))], keep)
  {
    var op := Load(n, claims[i].at.lit);
    var claims' := claims[i := claims[i].(at := InReg(n))];
    forall env: Env<V>, r: File<V> | Rel(env, slots, r)
      ensures GivesAt(vm, seg + [op], claims', keep, env, r)
    {
      assert GivesAt(vm, seg, claims, keep, env, r);
      FoldOne(vm, seg, op, r);
      forall j | 0 <= j < |claims|
        ensures Holds(vm, claims'[j], env, Fold(vm, seg + [op], r))
      {
        assert Holds(vm, claims[j], env, Fold(vm, seg, r));
      }
    }
  }

  lemma YieldsInfix<V(!new)>(vm: Values<V>, slots: Slots, seg: Code, keep: set<nat>, op: Op<nat>,
                       o: BinaryOp, a: Claim, b: Claim)
    requires Gives(vm, slots, seg, [a, b], keep) && InFile(op) && a.at.InReg?
    requires
      || (op.Binary? && op.op == o && a.at == InReg(op.src1) && b.at == InReg(op.src2))
      || (op.BinaryImm? && op.op == o && a.at == InReg(op.src1) && b.at == Later(Int(op.imm)))
      || (op.UpdateImm? && op.op == o && a.at == InReg(op.dst) && b.at == Later(Int(op.imm)))
    ensures Yields(vm, slots, seg, op, Infix(o, a.e, b.e))
  {
    forall env: Env<V>, r: File<V> | Rel(env, slots, r)
      ensures YieldsAt(vm, seg, op, Infix(o, a.e, b.e), env, r)
    {
      assert GivesAt(vm, seg, [a, b], keep, env, r);
      assert Holds(vm, [a, b][0], env, Fold(vm, seg, r)) && Holds(vm, [a, b][1], env, Fold(vm, seg, r));
    }
  }

  lemma YieldsPrefix<V(!new)>(vm: Values<V>, slots: Slots, seg: Code, keep: set<nat>, o: UnaryOp, d: nat, a: Claim)
    requires Gives(vm, slots, seg, [a], keep) && a.at.InReg? && a.at.n < REGISTERS && d < REGISTERS
    ensures Yields(vm, slots, seg, Unary(o, d, a.at.n), Prefix(o, a.e))
    ensures Yields(vm, slots, seg, Move(d, a.at.n), a.e)
  {
    forall env: Env<V>, r: File<V> | Rel(env, slots, r)
      ensures YieldsAt(vm, seg, Unary(o, d, a.at.n), Prefix(o, a.e), env, r)
      ensures YieldsAt(vm, seg, Move(d, a.at.n), a.e, env, r)
    {
      assert GivesAt(vm, seg, [a], keep, env, r);
      assert Holds(vm, [a][0], env, Fold(vm, seg, r));
    }
  }

  // The instruction that made a value may make it elsewhere instead.
  ghost function Retarget(op: Op<nat>, d: nat): Op<nat>
    requires Straight(op)
  {
    op.(dst := d)
  }

  lemma YieldsRetarget<V(!new)>(vm: Values<V>, slots: Slots, seg: Code, op: Op<nat>, e: Expr, keep: set<nat>, d: nat)
    requires Line(seg) && Straight(op) && !op.UpdateImm? && InFile(op) && d < REGISTERS
    requires op.dst !in keep && SlotsIn(slots, keep)
    requires Gives(vm, slots, seg + [op], [Claim(e, InReg(op.dst))], keep)
    ensures Yields(vm, slots, seg, Retarget(op, d), e) && Gives(vm, slots, seg, [], keep)
  {
    var c := [Claim(e, InReg(op.dst))];
    forall env: Env<V>, r: File<V> | Rel(env, slots, r)
      ensures YieldsAt(vm, seg, Retarget(op, d), e, env, r) && GivesAt(vm, seg, [], keep, env, r)
    {
      assert GivesAt(vm, seg + [op], c, keep, env, r);
      assert Holds(vm, c[0], env, Fold(vm, seg + [op], r));
      FoldOne(vm, seg, op, r);
    }
  }
}
