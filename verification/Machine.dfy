// Instructions and the virtual machine that runs them.
module Machine {
  import opened Script

  datatype Kind = ElseLabel | EndIf | LoopCond | LoopBody | LoopEnd
  datatype Label = Label(kind: Kind, id: nat)

  // R names a register: an object still subject to renaming while code is
  // generated, its number once it is emitted.
  datatype Op<R> =
    | Load(dst: R, lit: Lit64)
    | Move(dst: R, src: R)
    | Unary(un: UnaryOp, dst: R, src: R)
    | Binary(op: BinaryOp, dst: R, src1: R, src2: R)
    | BinaryImm(op: BinaryOp, dst: R, src1: R, imm: Int32)
    | UpdateImm(op: BinaryOp, dst: R, imm: Int32)
    | Mark(to: Label)
    | Jump(to: Label)
    | JumpFalse(cond: R, to: Label)
    | JumpTrue(cond: R, to: Label)

  const REGISTERS: nat := 256

  type Code = seq<Op<nat>>
  type File<V> = seq<V>

  predicate Straight<R>(op: Op<R>) {
    op.Load? || op.Move? || op.Unary? || op.Binary? || op.BinaryImm? || op.UpdateImm?
  }

  predicate InFile(op: Op<nat>) {
    match op
    case Load(d, _) => d < REGISTERS
    case Move(d, s) => d < REGISTERS && s < REGISTERS
    case Unary(_, d, s) => d < REGISTERS && s < REGISTERS
    case Binary(_, d, s1, s2) => d < REGISTERS && s1 < REGISTERS && s2 < REGISTERS
    case BinaryImm(_, d, s, _) => d < REGISTERS && s < REGISTERS
    case UpdateImm(_, d, _) => d < REGISTERS
    case JumpFalse(c, _) => c < REGISTERS
    case JumpTrue(c, _) => c < REGISTERS
    case _ => true
  }

  // What a value instruction stores.
  function Stored<V>(vm: Values<V>, op: Op<nat>, r: File<V>): V
    requires Straight(op) && InFile(op) && |r| == REGISTERS
  {
    match op
    case Load(_, lit) => vm.lit(lit)
    case Move(_, s) => r[s]
    case Unary(o, _, s) => vm.un(o, r[s])
    case Binary(o, _, s1, s2) => vm.bin(o, r[s1], r[s2])
    case BinaryImm(o, _, s, imm) => vm.bin(o, r[s], vm.lit(Int(imm)))
    case UpdateImm(o, d, imm) => vm.bin(o, r[d], vm.lit(Int(imm)))
  }

  function Effect<V>(vm: Values<V>, op: Op<nat>, r: File<V>): (r': File<V>)
    requires Straight(op) && InFile(op) && |r| == REGISTERS
    ensures |r'| == REGISTERS
  {
    r[op.dst := Stored(vm, op, r)]
  }

  // The position of a label, or the end.
  function Target(code: Code, to: Label): (p: nat)
    ensures p <= |code|
    ensures p < |code| ==> code[p] == Mark(to)
  {
    TargetFrom(code, to, 0)
  }

  function TargetFrom(code: Code, to: Label, p: nat): (q: nat)
    requires p <= |code|
    ensures p <= q <= |code|
    ensures q < |code| ==> code[q] == Mark(to)
    ensures forall i :: p <= i < q ==> code[i] != Mark(to)
    decreases |code| - p
  {
    if p == |code| || code[p] == Mark(to) then p else TargetFrom(code, to, p + 1)
  }

  datatype State<V> = State(pc: nat, file: File<V>)

  ghost predicate Sound<V>(code: Code, s: State<V>) {
    |s.file| == REGISTERS && forall i :: 0 <= i < |code| ==> InFile(code[i])
  }

  // One instruction; None once the code has ended.
  function Step<V>(vm: Values<V>, code: Code, s: State<V>): (s': Option<State<V>>)
    requires Sound(code, s)
    ensures s'.Some? ==> Sound(code, s'.value)
  {
    if s.pc >= |code| then None
    else
      var op := code[s.pc];
      match op
      case Mark(_) => Some(State(s.pc + 1, s.file))
      case Jump(l) => Some(State(Target(code, l), s.file))
      case JumpFalse(c, l) =>
        Some(State(if vm.truthy(s.file[c]) then s.pc + 1 else Target(code, l), s.file))
      case JumpTrue(c, l) =>
        Some(State(if vm.truthy(s.file[c]) then Target(code, l) else s.pc + 1, s.file))
      case _ => Some(State(s.pc + 1, Effect(vm, op, s.file)))
  }

  function Steps<V>(vm: Values<V>, code: Code, s: State<V>, n: nat): (s': Option<State<V>>)
    requires Sound(code, s)
    ensures s'.Some? ==> Sound(code, s'.value)
    decreases n
  {
    if n == 0 then Some(s)
    else
      var t := Step(vm, code, s);
      if t.None? then None else Steps(vm, code, t.value, n - 1)
  }

  lemma {:induction false} StepsAdd<V>(vm: Values<V>, code: Code, s: State<V>, m: nat, n: nat)
    requires Sound(code, s) && Steps(vm, code, s, m).Some?
    ensures Steps(vm, code, s, m + n) == Steps(vm, code, Steps(vm, code, s, m).value, n)
    decreases m
  {
    if m > 0 {
      StepsAdd(vm, code, Step(vm, code, s).value, m - 1, n);
    }
  }

  // A run of n steps made its first m.
  lemma {:induction false} StepsFewer<V>(vm: Values<V>, code: Code, s: State<V>, m: nat, n: nat)
    requires Sound(code, s) && Steps(vm, code, s, n).Some? && m <= n
    ensures Steps(vm, code, s, m).Some?
    decreases m
  {
    if m > 0 {
      StepsFewer(vm, code, Step(vm, code, s).value, m - 1, n - 1);
    }
  }

  // ---------------- straight-line code ----------------

  ghost predicate Line(seg: Code) {
    forall i :: 0 <= i < |seg| ==> Straight(seg[i]) && InFile(seg[i])
  }

  function Fold<V>(vm: Values<V>, seg: Code, r: File<V>): (r': File<V>)
    requires Line(seg) && |r| == REGISTERS
    ensures |r'| == REGISTERS
  {
    if |seg| == 0 then r
    else Effect(vm, seg[|seg| - 1], Fold(vm, seg[..|seg| - 1], r))
  }

  lemma {:induction false} FoldAdd<V>(vm: Values<V>, a: Code, b: Code, r: File<V>)
    requires Line(a) && Line(b) && |r| == REGISTERS
    ensures Line(a + b) && Fold(vm, a + b, r) == Fold(vm, b, Fold(vm, a, r))
    decreases |b|
  {
    if |b| == 0 {
      assert a + b == a;
    } else {
      FoldAdd(vm, a, b[..|b| - 1], r);
      assert (a + b)[..|a + b| - 1] == a + b[..|b| - 1];
    }
  }

  ghost predicate Placed(code: Code, lo: nat, seg: Code) {
    lo + |seg| <= |code| && forall i :: 0 <= i < |seg| ==> code[lo + i] == seg[i]
  }

  lemma {:induction false} LineRuns<V>(vm: Values<V>, code: Code, lo: nat, seg: Code, r: File<V>)
    requires Placed(code, lo, seg) && Line(seg) && Sound(code, State(lo, r))
    ensures Steps(vm, code, State(lo, r), |seg|) == Some(State(lo + |seg|, Fold(vm, seg, r)))
    decreases |seg|
  {
    if |seg| > 0 {
      var n := |seg| - 1;
      LineRuns(vm, code, lo, seg[..n], r);
      StepsAdd(vm, code, State(lo, r), n, 1);
      assert code[lo + n] == seg[n];
    }
  }
}
