// The part of the language the compiler proof is about, and its direct
// evaluator: what a program means, without registers, labels or jumps.
module Script {

  datatype Option<T> = None | Some(value: T)

  datatype Lit = Int(n: int) | Null | True | False

  type Int32 = n: int | -0x8000_0000 <= n < 0x8000_0000

  // A literal as the compiler keeps it.
  type Lit64 = l: Lit | l.Int? ==> -0x8000_0000_0000_0000 <= l.n < 0x8000_0000_0000_0000 witness Null

  // Operators by the number of their opcode: ADD to POW and BIN_OR to LT_EQ
  // take two operands, NEG, NOT and BIN_INV one.
  type BinaryOp = o: nat | 17 <= o <= 22 || 26 <= o <= 36 witness 17
  type UnaryOp = o: nat | 23 <= o <= 25 witness 23

  const NEG: UnaryOp := 23

  datatype Expr =
    | Literal(lit: Lit)
    | Name(id: string)
    | Prefix(un: UnaryOp, arg: Expr)
    | Infix(op: BinaryOp, left: Expr, right: Expr)

  datatype Stmt =
    | Eval(e: Expr)
    | Var(id: string)
    | VarAssign(id: string, e: Expr)
    | Assign(id: string, e: Expr)
    | OpAssign(op: BinaryOp, id: string, e: Expr)
    | If(cond: Expr, body: seq<Stmt>, els: Else)
    | While(isDo: bool, cond: Expr, body: seq<Stmt>)
    | Break
    | Next

  datatype Else = NoElse | ElseIf(s: Stmt) | ElseBlock(body: seq<Stmt>)

  // What the operators do; nothing is assumed about them.
  datatype Values<!V> = Values(lit: Lit -> V, un: (nat, V) -> V, bin: (nat, V, V) -> V, truthy: V -> bool)

  // A literal is read as an unsigned 64-bit number and kept as a signed one.
  function ToInt64(n: int): (i: int)
    ensures -0x8000_0000_0000_0000 <= i < 0x8000_0000_0000_0000
    ensures (i - n) % 0x1_0000_0000_0000_0000 == 0
  {
    var m := n % 0x1_0000_0000_0000_0000;
    if m < 0x8000_0000_0000_0000 then m else m - 0x1_0000_0000_0000_0000
  }

  function Meant(lit: Lit): Lit64 {
    if lit.Int? then Int(ToInt64(lit.n)) else lit
  }

  // ---------------- scopes ----------------

  // One map a block, the outermost first; a variable that was declared but
  // never set is None.
  type Env<V> = seq<map<string, Option<V>>>

  // The innermost level that knows the name.
  ghost function Level<T>(scopes: seq<map<string, T>>, id: string): (i: Option<nat>)
    ensures i.Some? ==> i.value < |scopes| && id in scopes[i.value]
  {
    if |scopes| == 0 then None
    else if id in scopes[|scopes| - 1] then Some(|scopes| - 1)
    else Level(scopes[..|scopes| - 1], id)
  }

  ghost function Get<V>(env: Env<V>, id: string): Option<V> {
    match Level(env, id)
    case None => None
    case Some(i) => env[i][id]
  }

  ghost function Put<V>(env: Env<V>, id: string, v: V): Env<V> {
    match Level(env, id)
    case None => env
    case Some(i) => env[i := env[i][id := Some(v)]]
  }

  // Declaring a name again in the same block changes nothing.
  ghost function Declare<V>(env: Env<V>, id: string): Env<V> {
    if |env| == 0 || id in env[|env| - 1] then env
    else env[|env| - 1 := env[|env| - 1][id := None]]
  }

  // ---------------- evaluation ----------------

  // None: the expression reads a variable that was never set.
  ghost function Evaluate<V>(vm: Values<V>, e: Expr, env: Env<V>): Option<V> {
    match e
    case Literal(lit) => Some(vm.lit(Meant(lit)))
    case Name(id) => Get(env, id)
    case Prefix(op, arg) =>
      var a := Evaluate(vm, arg, env);
      if a.None? then None else Some(vm.un(op, a.value))
    case Infix(op, left, right) =>
      var a, b := Evaluate(vm, left, env), Evaluate(vm, right, env);
      if a.None? || b.None? then None else Some(vm.bin(op, a.value, b.value))
  }

  datatype How = Normally | ByBreak | ByNext
  datatype Result<V> = Done(how: How, env: Env<V>) | Stuck | OutOfFuel

  ghost function Set<V>(env: Env<V>, id: string, v: Option<V>): Result<V> {
    if v.None? then Stuck else Done(Normally, Put(env, id, v.value))
  }

  // `fuel` bounds how many loop rounds are nested in or follow one another.
  ghost function Exec<V>(vm: Values<V>, s: Stmt, env: Env<V>, fuel: nat): Result<V>
    decreases fuel, s
  {
    match s
    case Eval(e) => if Evaluate(vm, e, env).None? then Stuck else Done(Normally, env)
    case Var(id) => Done(Normally, Declare(env, id))
    case VarAssign(id, e) => Set(Declare(env, id), id, Evaluate(vm, e, Declare(env, id)))
    case Assign(id, e) => Set(env, id, Evaluate(vm, e, env))
    case OpAssign(op, id, e) => Set(env, id, Evaluate(vm, Infix(op, Name(id), e), env))
    case If(cond, body, els) =>
      var c := Evaluate(vm, cond, env);
      if c.None? then Stuck
      else if vm.truthy(c.value) then InBlock(ExecList(vm, body, env + [map[]], fuel))
      else ExecElse(vm, els, env, fuel)
    case While(isDo, cond, body) =>
      if isDo then
        var r := InBlock(ExecList(vm, body, env + [map[]], fuel));
        if r.Done? && r.how != ByBreak then
          Rounds(vm, cond, body, r.env, fuel)
        else if r.Done? then Done(Normally, r.env) else r
      else Rounds(vm, cond, body, env, fuel)
    case Break => Done(ByBreak, env)
    case Next => Done(ByNext, env)
  }

  // Leaving a block forgets its names.
  ghost function InBlock<V>(r: Result<V>): Result<V> {
    if r.Done? && |r.env| > 0 then Done(r.how, r.env[..|r.env| - 1]) else r
  }

  ghost function ExecElse<V>(vm: Values<V>, els: Else, env: Env<V>, fuel: nat): Result<V>
    decreases fuel, els
  {
    match els
    case NoElse => Done(Normally, env)
    case ElseIf(s) => Exec(vm, s, env, fuel)
    case ElseBlock(body) => InBlock(ExecList(vm, body, env + [map[]], fuel))
  }

  ghost function ExecList<V>(vm: Values<V>, ss: seq<Stmt>, env: Env<V>, fuel: nat): Result<V>
    decreases fuel, ss
  {
    if |ss| == 0 then Done(Normally, env)
    else
      var r := ExecList(vm, ss[..|ss| - 1], env, fuel);
      if r.Done? && r.how == Normally then Exec(vm, ss[|ss| - 1], r.env, fuel) else r
  }

  // From the loop's test on.
  ghost function Rounds<V>(vm: Values<V>, cond: Expr, body: seq<Stmt>, env: Env<V>, fuel: nat): Result<V>
    decreases fuel, body
  {
    var c := Evaluate(vm, cond, env);
    if c.None? then Stuck
    else if !vm.truthy(c.value) then Done(Normally, env)
    else if fuel == 0 then OutOfFuel
    else
      var r := InBlock(ExecList(vm, body, env + [map[]], fuel - 1));
      if r.Done? && r.how != ByBreak then Rounds(vm, cond, body, r.env, fuel - 1)
      else if r.Done? then Done(Normally, r.env) else r
  }
}
