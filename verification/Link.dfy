// From the compiler's code to the machine's cached operations: the code is
// encoded as bytes, the bytes are cached, and running the cached operations
// does what the labelled code does.
module Link {
  import opened Script
  import opened Machine
  import opened Translation
  import opened Simulation
  import opened Statements
  import opened Compiler
  import Decimal
  import Wire
  import Assembly
  import Encoder

  type byte = Wire.byte

  // ---------------- opcode numbers ----------------

  const LOADNULL: byte := 4
  const LOADTRUE: byte := 5
  const LOADFALSE: byte := 6
  const MOVE: byte := 7
  const JMP: byte := 39
  const JMPF: byte := 40
  const JMPT: byte := 41

  // A first byte is the opcode and one of four forms.
  const RRI: nat := 64
  const VAR: nat := 192

  predicate IsBinary(o: nat) { 17 <= o <= 22 || 26 <= o <= 36 }

  predicate IsUnary(o: nat) { 23 <= o <= 25 }

  // The first bytes with a handler that this fragment needs.
  predicate Handled(b: nat) {
    || IsBinary(b) || IsUnary(b) || b in {LOADNULL, LOADTRUE, LOADFALSE, MOVE}
    || (b >= RRI && (IsBinary(b - RRI) || b - RRI in {Wire.LOADINT, JMP, JMPF, JMPT}))
    || b == VAR + Wire.LOADINT
  }

  // ---------------- from instructions to opcodes ----------------

  function KindName(k: Kind): string {
    match k
    case ElseLabel => "_else"
    case EndIf => "_endif"
    case LoopCond => "wcond"
    case LoopBody => "wbody"
    case LoopEnd => "wend"
  }

  ghost function LabelName(l: Label): string {
    var d := Decimal.Digits(l.id);
    Decimal.DigitsAre(l.id);
    KindName(l.kind) + "_" + seq(|d|, i requires 0 <= i < |d| => d[i] as char)
  }

  predicate HasLabel(op: Op<nat>) { op.Mark? || Jumps(op) }

  // The opcode of an instruction; `obj` is its label object.
  function Lower(op: Op<nat>, obj: nat): (o: Wire.Opcode)
    requires InFile(op)
    ensures Wire.Encodable(o)
    ensures o.Mark? <==> op.Mark?
    ensures Wire.Jumps(o) <==> Jumps(op)
    ensures HasLabel(op) ==> o.to == obj
  {
    match op
    case Load(d, lit) =>
      (match lit
       case Int(n) => Wire.RI(Wire.LOADINT, d, n)
       case Null => Wire.RRR(LOADNULL, d, 0, 0)
       case True => Wire.RRR(LOADTRUE, d, 0, 0)
       case False => Wire.RRR(LOADFALSE, d, 0, 0))
    case Move(d, s) => Wire.RRR(MOVE, d, s, 0)
    case Unary(un, d, s) => Wire.RRR(un, d, s, 0)
    case Binary(b, d, s1, s2) => Wire.RRR(b, d, s1, s2)
    case BinaryImm(b, d, s, imm) => Wire.RRI(b, d, s, imm)
    case UpdateImm(b, d, imm) => Wire.RI(b, d, imm)
    case Mark(_) => Wire.Mark(obj)
    case Jump(_) => Wire.Jump(JMP, obj)
    case JumpFalse(c, _) => Wire.Branch(JMPF, c, obj)
    case JumpTrue(c, _) => Wire.Branch(JMPT, c, obj)
  }

  ghost predicate AllInFile(code: Code) { forall i :: 0 <= i < |code| ==> InFile(code[i]) }

  // Every jump has a label object of its own: the compiler makes one for each
  // branch and each break and next.
  ghost function Lowered(code: Code): (ops: seq<Wire.Opcode>)
    requires AllInFile(code)
    ensures |ops| == |code| && Assembly.AllEncodable(ops)
  {
    seq(|code|, i requires 0 <= i < |code| => Lower(code[i], i))
  }

  ghost function ObjectNames(code: Code): (names: seq<string>)
    ensures |names| == |code|
  {
    seq(|code|, i requires 0 <= i < |code| => if HasLabel(code[i]) then LabelName(code[i].to) else "")
  }

  // ---------------- the machine on cached operations ----------------

  function Signed32(u: nat): Int32 {
    var m := u % 0x1_0000_0000;
    if m < 0x8000_0000 then m else m - 0x1_0000_0000
  }

  function From64(s: seq<byte>): nat
    requires |s| == 8
  {
    Wire.From32(s[..4]) + Wire.From32(s[4..]) * 0x1_0000_0000
  }

  // What the handler of a first byte stores in register a; None for the
  // handlers that store nothing, and where there is none.
  function Result<V>(vm: Values<V>, code: byte, b: byte, c: Wire.Arg, r: File<V>): Option<V>
    requires |r| == REGISTERS
  {
    if code == LOADNULL then Some(vm.lit(Null))
    else if code == LOADTRUE then Some(vm.lit(True))
    else if code == LOADFALSE then Some(vm.lit(False))
    else if code == MOVE then Some(r[b])
    else if IsUnary(code) then Some(vm.un(code, r[b]))
    else if IsBinary(code) && c.Num? && c.n < REGISTERS then Some(vm.bin(code, r[b], r[c.n]))
    else if code >= RRI && IsBinary(code - RRI) && c.Num? then Some(vm.bin(code - RRI, r[b], vm.lit(Int(Signed32(c.n)))))
    else if code == RRI + Wire.LOADINT && c.Num? then Some(vm.lit(Int(Signed32(c.n))))
    else if code == VAR + Wire.LOADINT && c.Payload? && |c.data| >= 8 then Some(vm.lit(Int(ToInt64(From64(c.data[..8])))))
    else None
  }

  // One dispatch; None at a return and where there is no handler.
  function Dispatch<V>(vm: Values<V>, ops: seq<Wire.Cached>, s: State<V>): (s': Option<State<V>>)
    requires |s.file| == REGISTERS
    ensures s'.Some? ==> |s'.value.file| == REGISTERS
  {
    if s.pc >= |ops| then None
    else
      match ops[s.pc]
      case BadOpcode => None
      case Return => None
      case Cached(code, a, b, c) =>
        if code == RRI + JMP && c.Num? then Some(State(c.n, s.file))
        else if code == RRI + JMPF && c.Num? then Some(State(if vm.truthy(s.file[a]) then s.pc + 1 else c.n, s.file))
        else if code == RRI + JMPT && c.Num? then Some(State(if vm.truthy(s.file[a]) then c.n else s.pc + 1, s.file))
        else
          match Result(vm, code, b, c, s.file)
          case None => None
          case Some(v) => Some(State(s.pc + 1, s.file[a := v]))
  }

  function Dispatches<V>(vm: Values<V>, ops: seq<Wire.Cached>, s: State<V>, n: nat): (s': Option<State<V>>)
    requires |s.file| == REGISTERS
    ensures s'.Some? ==> |s'.value.file| == REGISTERS
    decreases n
  {
    if n == 0 then Some(s)
    else
      var t := Dispatch(vm, ops, s);
      if t.None? then None else Dispatches(vm, ops, t.value, n - 1)
  }

  // The operations, started at the first, come to a return.
  ghost predicate Returns<V>(vm: Values<V>, ops: seq<Wire.Cached>, s: State<V>, n: nat, r: File<V>)
    requires |s.file| == REGISTERS
  {
    var t := Dispatches(vm, ops, s, n);
    t.Some? && t.value.pc < |ops| && ops[t.value.pc].Return? && t.value.file == r
  }

  // ---------------- labels and their names ----------------

  lemma NamesDiffer(a: Label, b: Label)
    requires a != b
    ensures LabelName(a) != LabelName(b)
  {
    var x, y := LabelName(a), LabelName(b);
    if a.kind != b.kind {
      assert x[0] == KindName(a.kind)[0] && x[1] == KindName(a.kind)[1] && x[2] == KindName(a.kind)[2];
      assert y[0] == KindName(b.kind)[0] && y[1] == KindName(b.kind)[1] && y[2] == KindName(b.kind)[2];
    } else if x == y {
      var k, d, e := |KindName(a.kind)| + 1, Decimal.Digits(a.id), Decimal.Digits(b.id);
      Decimal.DigitsAre(a.id);
      Decimal.DigitsAre(b.id);
      assert |d| == |x| - k == |e|;
      forall i | 0 <= i < |d|
        ensures d[i] == e[i]
      {
        assert x[k + i] == d[i] as char && y[k + i] == e[i] as char;
      }
      assert d == e;
      Decimal.NumberDigits(a.id);
      Decimal.NumberDigits(b.id);
    }
  }

  lemma LabelAfter(code: Code, name: string, k: nat)
    requires AllInFile(code) && k < |code|
    ensures var ops, names := Lowered(code), ObjectNames(code);
            Assembly.LabelAt(ops, names, name, k + 1) ==
            if code[k].Mark? && LabelName(code[k].to) == name then Wire.Some(Assembly.Index(ops, k))
            else Assembly.LabelAt(ops, names, name, k)
  {
    hide Lower, LabelName, Wire.Encodable, Assembly.Index;
  }

  // The encoder finds a marked label where it is marked.
  lemma {:induction false} LabelFound(code: Code, p: nat, k: nat)
    requires AllInFile(code) && LabelsApart(code) && p < k <= |code| && code[p].Mark?
    ensures Assembly.LabelAt(Lowered(code), ObjectNames(code), LabelName(code[p].to), k)
            == Wire.Some(Assembly.Index(Lowered(code), p))
    decreases k
  {
    hide Lowered, ObjectNames, LabelName, Assembly.Index, Assembly.LabelAt;
    LabelAfter(code, LabelName(code[p].to), k - 1);
    if p < k - 1 {
      if code[k - 1].Mark? { NamesDiffer(code[k - 1].to, code[p].to); }
      LabelFound(code, p, k - 1);
    }
  }

  // Where a jump of the code goes, as a position.
  lemma JumpLands(code: Code, i: nat)
    requires Lands(code, 0) && i < |code| && Jumps(code[i])
    ensures Target(code, code[i].to) < |code|
  {
    assert code[i].to in JumpsOf(code);
    var j :| 0 <= j < |code| && code[j].Mark? && code[j].to == code[i].to;
    assert TargetFrom(code, code[i].to, 0) == Target(code, code[i].to);
  }

  // The encoder gives each jump the number of the instruction behind its mark.
  lemma JumpNumber(code: Code, i: nat)
    requires AllInFile(code) && LabelsApart(code) && Lands(code, 0) && i < |code| && Jumps(code[i])
    ensures var ops, names := Lowered(code), ObjectNames(code);
            && Assembly.Named(ops, names)
            && Assembly.LabelAt(ops, names, names[ops[i].to], |ops|).Some?
            && Assembly.Targets(ops, names, |ops|)[i] == Assembly.Index(ops, Target(code, code[i].to))
  {
    var ops, names := Lowered(code), ObjectNames(code);
    JumpLands(code, i);
    LabelFound(code, Target(code, code[i].to), |code|);
    Encoder.JumpExact(ops, names, i);
  }

  // ---------------- bytes and cached operations of a function ----------------

  // What the compiler's code has to be for the rest; CompileFunction's is.
  ghost predicate Linkable(code: Code) {
    AllInFile(code) && LabelsApart(code) && Lands(code, 0)
  }

  ghost function JumpTargets(code: Code): (ts: seq<int>)
    requires AllInFile(code)
    ensures |ts| == |code|
  {
    Assembly.Targets(Lowered(code), ObjectNames(code), |code|)
  }

  // A function's bytes in the file.
  ghost function CodeBytes(code: Code): seq<byte>
    requires AllInFile(code)
  {
    Assembly.Assemble(Lowered(code), JumpTargets(code), |code|)
  }

  // What is cached of them: one operation for each instruction, and a return.
  ghost function Operations(code: Code): seq<Wire.Cached>
    requires AllInFile(code)
  {
    Assembly.MeantFrom(Lowered(code), JumpTargets(code), 0)
  }

  ghost function Number(code: Code, p: nat): nat
    requires AllInFile(code) && p <= |code|
  {
    Assembly.Index(Lowered(code), p)
  }

  lemma FirstHandled(op: Op<nat>, obj: nat, target: int)
    requires InFile(op) && !op.Mark?
    ensures Handled(Wire.Bytes(Lower(op, obj), target)[0])
  {
  }

  // Encoding finds every label, and caching the bytes gives the operations.
  lemma CachedFromBytes(code: Code, known: set<byte>)
    requires Linkable(code) && forall b: byte :: Handled(b) ==> b in known
    ensures Assembly.Framed(CodeBytes(code), 0)
    ensures Assembly.DecodeFrom(CodeBytes(code), known, 0) == Operations(code)
    ensures var ops, names := Lowered(code), ObjectNames(code);
            forall i :: 0 <= i < |ops| && Wire.Jumps(ops[i]) ==>
              ops[i].to < |names| && Assembly.LabelAt(ops, names, names[ops[i].to], |ops|).Some?
  {
    hide Wire.Bytes, Wire.Encodable, Lands, LabelsApart, Assembly.LabelAt, Handled;
    var ops := Lowered(code);
    forall i | 0 <= i < |ops| && !ops[i].Mark?
      ensures Wire.Bytes(ops[i], JumpTargets(code)[i])[0] in known
    {
      FirstHandled(code[i], i, JumpTargets(code)[i]);
    }
    Assembly.AssembleDecodes(ops, JumpTargets(code), known, 0);
    forall i | 0 <= i < |ops| && Wire.Jumps(ops[i])
      ensures ops[i].to < |code| && Assembly.LabelAt(ops, ObjectNames(code), ObjectNames(code)[ops[i].to], |ops|).Some?
    {
      JumpNumber(code, i);
    }
  }

  lemma OperationAt(code: Code, p: nat)
    requires AllInFile(code) && p < |code| && !code[p].Mark?
    ensures Number(code, p) < |Operations(code)|
    ensures Operations(code)[Number(code, p)] == Wire.Meant(Lower(code[p], p), JumpTargets(code)[p])
    ensures Operations(code)[Number(code, p)].Cached? && Number(code, p + 1) == Number(code, p) + 1
  {
    hide Assembly.MeantFrom, Assembly.Targets;
    Assembly.MeantAt(Lowered(code), JumpTargets(code), 0, p);
  }

  lemma {:induction false} ReturnLast(ops: seq<Wire.Opcode>, targets: seq<int>, k: nat)
    requires Assembly.AllEncodable(ops) && |targets| == |ops| && k <= |ops|
    ensures var n, m := Assembly.Index(ops, |ops|) - Assembly.Index(ops, k), Assembly.MeantFrom(ops, targets, k);
            n >= 0 && |m| == n + 1 && m[n] == Wire.Return
    decreases |ops| - k
  {
    hide Wire.Meant, Wire.Encodable;
    if k < |ops| { ReturnLast(ops, targets, k + 1); }
  }

  lemma {:induction false} NumberSmall(code: Code, p: nat)
    requires AllInFile(code) && p <= |code|
    ensures Number(code, p) <= p
    decreases p
  {
    if p > 0 { NumberSmall(code, p - 1); }
  }

  // ---------------- one instruction, one operation ----------------

  lemma Narrow(n: Int32)
    ensures Signed32(n % Wire.U32) == n
  {
  }

  lemma Wide(n: int)
    requires -0x8000_0000_0000_0000 <= n < 0x8000_0000_0000_0000
    ensures var s := Wire.Le32(n) + Wire.Le32(n / Wire.U32); ToInt64(From64(s)) == n
  {
    var s := Wire.Le32(n) + Wire.Le32(n / Wire.U32);
    assert s[..4] == Wire.Le32(n) && s[4..] == Wire.Le32(n / Wire.U32);
    Wire.Le32Back(n);
    Wire.Le32Back(n / Wire.U32);
    hide Wire.Le32, Wire.From32;
    Halves(n);
  }

  lemma Halves(n: int)
    requires -0x8000_0000_0000_0000 <= n < 0x8000_0000_0000_0000
    ensures ToInt64(n % Wire.U32 + (n / Wire.U32) % Wire.U32 * 0x1_0000_0000) == n
  {
    var q := n / Wire.U32;
    var z := n % Wire.U32 + q % Wire.U32 * Wire.U32;
    assert 0 <= z < 0x1_0000_0000_0000_0000;
    assert n == q / Wire.U32 * 0x1_0000_0000_0000_0000 + z;
    assert -1 <= q / Wire.U32 <= 0;
  }

  // The handler of a value instruction's operation stores what the instruction does.
  lemma ValueStored<V>(vm: Values<V>, op: Op<nat>, obj: nat, target: int, r: File<V>)
    requires InFile(op) && Straight(op) && |r| == REGISTERS
    ensures var m := Wire.Meant(Lower(op, obj), target);
            && m.Cached? && m.a == op.dst && m.code !in {RRI + JMP, RRI + JMPF, RRI + JMPT}
            && Result(vm, m.code, m.b, m.c, r) == Some(Stored(vm, op, r))
  {
    match op
    case Load(d, lit) =>
      if lit.Int? {
        if Wire.IsI32(lit.n) {
          Narrow(lit.n);
        } else {
          Wide(lit.n);
          var s := Wire.Le32(lit.n) + Wire.Le32(lit.n / Wire.U32);
          assert s[..8] == s;
        }
      }
    case BinaryImm(_, _, _, imm) => Narrow(imm);
    case UpdateImm(_, _, imm) => Narrow(imm);
    case _ =>
  }

  lemma DispatchesStep<V>(vm: Values<V>, code: Code, s: State<V>)
    requires Sound(code, s) && Linkable(code) && |code| < Wire.U32 && s.pc < |code| && !code[s.pc].Mark?
    ensures var t := Step(vm, code, s).value;
            && t.pc <= |code|
            && Dispatch(vm, Operations(code), State(Number(code, s.pc), s.file)) == Some(State(Number(code, t.pc), t.file))
  {
    hide Lands, LabelsApart, Result, Stored, Lower, Wire.Meant, Operations, Number, JumpTargets, Target;
    var op := code[s.pc];
    OperationAt(code, s.pc);
    if Straight(op) {
      ValueStored(vm, op, s.pc, JumpTargets(code)[s.pc], s.file);
    } else {
      var l := Target(code, op.to);
      NumberSmall(code, l);
      JumpTargetIs(code, s.pc);
      JumpMeant(op, s.pc, Number(code, l));
    }
  }

  lemma JumpTargetIs(code: Code, i: nat)
    requires Linkable(code) && i < |code| && Jumps(code[i])
    ensures JumpTargets(code)[i] == Number(code, Target(code, code[i].to))
  {
    hide Lands, LabelsApart, Assembly.Targets, Assembly.Index, Assembly.LabelAt;
    JumpNumber(code, i);
  }

  lemma JumpMeant(op: Op<nat>, obj: nat, target: nat)
    requires InFile(op) && Jumps(op) && target < Wire.U32
    ensures var m := Wire.Meant(Lower(op, obj), target);
            && m.Cached? && m.c == Wire.Num(target)
            && m.code == RRI + (if op.Jump? then JMP else if op.JumpFalse? then JMPF else JMPT)
            && (!op.Jump? ==> m.a == op.cond)
  {
  }

  // ---------------- whole runs ----------------

  // When the labelled code comes to its end, the cached operations come to a
  // return with the same registers.
  lemma {:induction false} Forward<V>(vm: Values<V>, code: Code, s: State<V>, k: nat, r: File<V>) returns (n: nat)
    requires Sound(code, s) && Linkable(code) && |code| < Wire.U32 && s.pc <= |code|
    requires Steps(vm, code, s, k) == Some(State(|code|, r))
    ensures Returns(vm, Operations(code), State(Number(code, s.pc), s.file), n, r)
    decreases k
  {
    hide Lands, LabelsApart, Dispatch, Step;
    if k == 0 {
      ReturnAtEnd(code);
      n := 0;
    } else {
      InCode(vm, code, s);
      var t := Step(vm, code, s).value;
      if code[s.pc].Mark? {
        n := Forward(vm, code, t, k - 1, r);
      } else {
        DispatchesStep(vm, code, s);
        var m := Forward(vm, code, t, k - 1, r);
        n := m + 1;
      }
    }
  }

  lemma InCode<V>(vm: Values<V>, code: Code, s: State<V>)
    requires Sound(code, s) && AllInFile(code)
    ensures Step(vm, code, s).Some? ==> s.pc < |code|
    ensures s.pc < |code| ==> Step(vm, code, s).Some?
    ensures s.pc < |code| && code[s.pc].Mark? ==>
              Step(vm, code, s) == Some(State(s.pc + 1, s.file)) && Number(code, s.pc + 1) == Number(code, s.pc)
  {
  }

  // And the other way round.
  lemma {:induction false} Backward<V>(vm: Values<V>, code: Code, s: State<V>, n: nat, r: File<V>) returns (k: nat)
    requires Sound(code, s) && Linkable(code) && |code| < Wire.U32 && s.pc <= |code|
    requires Returns(vm, Operations(code), State(Number(code, s.pc), s.file), n, r)
    ensures Steps(vm, code, s, k) == Some(State(|code|, r))
    decreases n, |code| - s.pc
  {
    hide Lands, LabelsApart, Step, Dispatch, Operations, Number;
    var q := State(Number(code, s.pc), s.file);
    ReturnsNext(vm, Operations(code), q, n, r);
    if s.pc == |code| {
      ReturnAtEnd(code);
      k := 0;
    } else {
      InCode(vm, code, s);
      var t := Step(vm, code, s).value;
      var m;
      if code[s.pc].Mark? {
        m := Backward(vm, code, t, n, r);
      } else {
        OperationAt(code, s.pc);
        DispatchesStep(vm, code, s);
        m := Backward(vm, code, t, n - 1, r);
      }
      k := m + 1;
    }
  }

  lemma ReturnAtEnd(code: Code)
    requires AllInFile(code)
    ensures Number(code, |code|) < |Operations(code)| && Operations(code)[Number(code, |code|)].Return?
  {
    ReturnLast(Lowered(code), JumpTargets(code), 0);
  }

  // A run that returns either stands at the return or makes a step.
  lemma ReturnsNext<V>(vm: Values<V>, ops: seq<Wire.Cached>, s: State<V>, n: nat, r: File<V>)
    requires |s.file| == REGISTERS && Returns(vm, ops, s, n, r)
    ensures s.pc < |ops| && (ops[s.pc].Return? <==> n == 0)
    ensures n == 0 ==> s.file == r
    ensures n > 0 ==> var t := Dispatch(vm, ops, s); t.Some? && Returns(vm, ops, t.value, n - 1, r)
  {
  }

  // ---------------- from the evaluator to the cached operations ----------------

  // Whenever the evaluator finishes, so does the machine on the operations it
  // cached from the function's bytes, with every set variable in its register.
  lemma EvaluatorThenOperations<V(!new)>(vm: Values<V>, args: seq<string>, body: seq<Stmt>, locals: map<string, nat>, code: Code,
                                         known: set<byte>, env: Env<V>, r: File<V>, fuel: nat) returns (n: nat, r': File<V>)
    requires Runnable(vm, args, body, locals, code) && |code| < Wire.U32 && forall b: byte :: Handled(b) ==> b in known
    requires Rel(env, [ArgSlots(args)], r) && |r| == REGISTERS && ExecList(vm, body, env, fuel).Done?
    ensures Assembly.Framed(CodeBytes(code), 0)
    ensures Returns(vm, Assembly.DecodeFrom(CodeBytes(code), known, 0), State(0, r), n, r')
    ensures Rel(ExecList(vm, body, env, fuel).env, [locals], r')
  {
    hide Implements, Rel, Lands, LabelsApart, Handled, CodeBytes, Operations;
    CachedFromBytes(code, known);
    var k;
    k, r' := EvaluatorThenMachine(vm, args, body, locals, code, env, r, fuel);
    n := Forward(vm, code, State(0, r), k, r');
  }

  // Whenever the machine returns, the evaluator finishes with the same values,
  // unless it reads a variable that was never set.
  lemma OperationsThenEvaluator<V(!new)>(vm: Values<V>, args: seq<string>, body: seq<Stmt>, locals: map<string, nat>, code: Code,
                                         known: set<byte>, env: Env<V>, r: File<V>, n: nat, r': File<V>) returns (fuel: nat)
    requires Runnable(vm, args, body, locals, code) && |code| < Wire.U32 && forall b: byte :: Handled(b) ==> b in known
    requires Rel(env, [ArgSlots(args)], r) && |r| == REGISTERS
    requires Assembly.Framed(CodeBytes(code), 0)
    requires Returns(vm, Assembly.DecodeFrom(CodeBytes(code), known, 0), State(0, r), n, r')
    ensures var res := ExecList(vm, body, env, fuel);
            res.Stuck? || (res.Done? && res.how == Normally && Rel(res.env, [locals], r'))
  {
    hide Implements, Rel, Lands, LabelsApart, Handled, CodeBytes, Operations;
    CachedFromBytes(code, known);
    var k := Backward(vm, code, State(0, r), n, r');
    MachineThenEvaluator(vm, args, body, locals, code, env, r, k, r');
    fuel := k + 1;
  }
}
