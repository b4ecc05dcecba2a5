// The priority table, the parser as a function on token lists, printing with
// the parentheses the table asks for, and how the two fit together.
module Grammar {

  datatype Option<T> = None | Some(value: T)

  datatype Sym =
    | Sub | Not | BinInv | Incr | Decr | Mul | Div | Mod | Add | LShift | RShift | Gt | Lt | GtEq | LtEq
    | BinAnd | BinXor | BinOr | Eq | Neq | And | Or | NotNull
    | AddAssign | SubAssign | MulAssign | DivAssign | ModAssign | PowAssign | OrAssign | AndAssign
    | NotNullAssign | BinOrAssign | BinAndAssign | BinXorAssign | LShiftAssign | RShiftAssign
    | Var | Goto | Assignment

  datatype Bracket = Paren | Square | Curly

  datatype Kind = Atom | Open(b: Bracket) | Close(b: Bracket) | Op(sym: Sym)
  datatype Token = Token(kind: Kind, text: nat)

  datatype PrefixFn = NoPrefix | AtomFn | GroupFn | UnaryFn
  datatype InfixFn = NoInfix | WrapFn | PostfixFn | BinaryFn

  datatype Entry = Entry(prio: nat, kind: Kind, prefix: PrefixFn, infix: InfixFn)

  // Operands, and the prefix operators that bind like one.
  const OPERANDS: seq<Entry> := [
    Entry(10, Atom, AtomFn, NoInfix),
    Entry(110, Open(Curly), GroupFn, NoInfix),
    Entry(110, Open(Paren), GroupFn, WrapFn),
    Entry(110, Open(Square), GroupFn, WrapFn),
    Entry(112, Op(Sub), UnaryFn, NoInfix),
    Entry(112, Op(Not), UnaryFn, NoInfix),
    Entry(112, Op(BinInv), UnaryFn, NoInfix),
    Entry(112, Op(Incr), UnaryFn, PostfixFn),
    Entry(112, Op(Decr), UnaryFn, PostfixFn)
  ]

  const ARITHMETIC: seq<Entry> := [
    Entry(115, Op(Mul), NoPrefix, BinaryFn),
    Entry(115, Op(Div), NoPrefix, BinaryFn),
    Entry(115, Op(Mod), NoPrefix, BinaryFn),
    Entry(120, Op(Add), NoPrefix, BinaryFn),
    Entry(120, Op(Sub), NoPrefix, BinaryFn),
    Entry(125, Op(LShift), NoPrefix, BinaryFn),
    Entry(125, Op(RShift), NoPrefix, BinaryFn)
  ]

  const LOGIC: seq<Entry> := [
    Entry(130, Op(Gt), NoPrefix, BinaryFn),
    Entry(130, Op(Lt), NoPrefix, BinaryFn),
    Entry(130, Op(GtEq), NoPrefix, BinaryFn),
    Entry(130, Op(LtEq), NoPrefix, BinaryFn),
    Entry(140, Op(BinAnd), NoPrefix, BinaryFn),
    Entry(145, Op(BinXor), NoPrefix, BinaryFn),
    Entry(150, Op(BinOr), NoPrefix, BinaryFn),
    Entry(155, Op(Eq), NoPrefix, BinaryFn),
    Entry(155, Op(Neq), NoPrefix, BinaryFn),
    Entry(160, Op(And), NoPrefix, BinaryFn),
    Entry(165, Op(Or), NoPrefix, BinaryFn),
    Entry(170, Op(NotNull), NoPrefix, BinaryFn)
  ]

  const ASSIGNMENTS: seq<Entry> := [
    Entry(250, Op(AddAssign), NoPrefix, BinaryFn),
    Entry(250, Op(SubAssign), NoPrefix, BinaryFn),
    Entry(250, Op(MulAssign), NoPrefix, BinaryFn),
    Entry(250, Op(DivAssign), NoPrefix, BinaryFn),
    Entry(250, Op(ModAssign), NoPrefix, BinaryFn),
    Entry(250, Op(PowAssign), NoPrefix, BinaryFn),
    Entry(250, Op(OrAssign), NoPrefix, BinaryFn),
    Entry(250, Op(AndAssign), NoPrefix, BinaryFn),
    Entry(250, Op(NotNullAssign), NoPrefix, BinaryFn),
    Entry(250, Op(BinOrAssign), NoPrefix, BinaryFn),
    Entry(250, Op(BinAndAssign), NoPrefix, BinaryFn),
    Entry(250, Op(BinXorAssign), NoPrefix, BinaryFn),
    Entry(250, Op(LShiftAssign), NoPrefix, BinaryFn),
    Entry(250, Op(RShiftAssign), NoPrefix, BinaryFn)
  ]

  const STATEMENTS: seq<Entry> := [
    Entry(500, Op(Var), UnaryFn, NoInfix),
    Entry(500, Op(Goto), UnaryFn, NoInfix),
    Entry(500, Op(Assignment), NoPrefix, BinaryFn)
  ]

  const TABLE: seq<Entry> := OPERANDS + ARITHMETIC + LOGIC + ASSIGNMENTS + STATEMENTS

  const TOP: nat := 0xffff_ffff
  const CALL_PRIO: nat := 110
  const UNARY_PRIO: nat := 112

  // ---------------- looking up the table ----------------

  // The first entry from i on that may start an expression at this priority.
  function FirstPrefix(t: seq<Entry>, kind: Kind, max: nat, i: nat): Option<Entry>
    requires i <= |t|
    decreases |t| - i
  {
    if i == |t| then None
    else if t[i].prefix != NoPrefix && t[i].prio <= max && t[i].kind == kind then Some(t[i])
    else FirstPrefix(t, kind, max, i + 1)
  }

  // The first one that may go on behind an operand: strictly below the limit.
  function FirstInfix(t: seq<Entry>, kind: Kind, max: nat, i: nat): Option<Entry>
    requires i <= |t|
    decreases |t| - i
  {
    if i == |t| then None
    else if t[i].infix != NoInfix && t[i].prio < max && t[i].kind == kind then Some(t[i])
    else FirstInfix(t, kind, max, i + 1)
  }

  function PrefixEntry(kind: Kind, max: nat): Option<Entry> { FirstPrefix(TABLE, kind, max, 0) }
  function InfixEntry(kind: Kind, max: nat): Option<Entry> { FirstInfix(TABLE, kind, max, 0) }

  // No kind of token has two prefix entries or two infix entries.
  ghost predicate Unambiguous(t: seq<Entry>) {
    && (forall i, j :: 0 <= i < j < |t| && t[i].prefix != NoPrefix && t[j].prefix != NoPrefix ==> t[i].kind != t[j].kind)
    && (forall i, j :: 0 <= i < j < |t| && t[i].infix != NoInfix && t[j].infix != NoInfix ==> t[i].kind != t[j].kind)
  }

  function PrefixIndex(kind: Kind): nat {
    match kind
    case Atom => 0
    case Open(Curly) => 1
    case Open(Paren) => 2
    case Open(Square) => 3
    case Op(Sub) => 4
    case Op(Not) => 5
    case Op(BinInv) => 6
    case Op(Incr) => 7
    case Op(Decr) => 8
    case Op(Var) => 42
    case Op(Goto) => 43
    case _ => 100
  }

  function InfixIndex(kind: Kind): nat {
    match kind
    case Open(Paren) => 2
    case Open(Square) => 3
    case Op(Incr) => 7
    case Op(Decr) => 8
    case Op(Mul) => 9
    case Op(Div) => 10
    case Op(Mod) => 11
    case Op(Add) => 12
    case Op(Sub) => 13
    case Op(LShift) => 14
    case Op(RShift) => 15
    case Op(Gt) => 16
    case Op(Lt) => 17
    case Op(GtEq) => 18
    case Op(LtEq) => 19
    case Op(BinAnd) => 20
    case Op(BinXor) => 21
    case Op(BinOr) => 22
    case Op(Eq) => 23
    case Op(Neq) => 24
    case Op(And) => 25
    case Op(Or) => 26
    case Op(NotNull) => 27
    case Op(AddAssign) => 28
    case Op(SubAssign) => 29
    case Op(MulAssign) => 30
    case Op(DivAssign) => 31
    case Op(ModAssign) => 32
    case Op(PowAssign) => 33
    case Op(OrAssign) => 34
    case Op(AndAssign) => 35
    case Op(NotNullAssign) => 36
    case Op(BinOrAssign) => 37
    case Op(BinAndAssign) => 38
    case Op(BinXorAssign) => 39
    case Op(LShiftAssign) => 40
    case Op(RShiftAssign) => 41
    case Op(Assignment) => 44
    case _ => 100
  }

  // Each entry stands where the index of its token says.
  ghost predicate Indexed(i: nat)
    requires i < |TABLE|
  {
    && (TABLE[i].prefix != NoPrefix ==> PrefixIndex(TABLE[i].kind) == i)
    && (TABLE[i].infix != NoInfix ==> InfixIndex(TABLE[i].kind) == i)
  }

  // Where the groups lie in the table.
  lemma TableParts(i: nat)
    ensures |TABLE| == 45 && |OPERANDS| == 9 && |ARITHMETIC| == 7 && |LOGIC| == 12 && |ASSIGNMENTS| == 14 && |STATEMENTS| == 3
    ensures i < 45 ==>
              TABLE[i] == if i < 9 then OPERANDS[i] else if i < 16 then ARITHMETIC[i - 9] else if i < 28 then LOGIC[i - 16]
                          else if i < 42 then ASSIGNMENTS[i - 28] else STATEMENTS[i - 42]
  {
  }

  lemma IndexedOperands(i: nat)
    requires 0 <= i < 9
    ensures |TABLE| == 45 && Indexed(i)
  {
    TableParts(i);
    hide TABLE;
  }

  lemma IndexedArithmetic(i: nat)
    requires 9 <= i < 16
    ensures |TABLE| == 45 && Indexed(i)
  {
    TableParts(i);
    hide TABLE;
  }

  lemma IndexedLogic(i: nat)
    requires 16 <= i < 28
    ensures |TABLE| == 45 && Indexed(i)
  {
    TableParts(i);
    hide TABLE;
  }

  lemma IndexedAssignments(i: nat)
    requires 28 <= i < 42
    ensures |TABLE| == 45 && Indexed(i)
  {
    TableParts(i);
    if i < 35 { IndexedFirst(i); } else { IndexedSecond(i); }
  }

  lemma IndexedFirst(i: nat)
    requires 28 <= i < 35
    ensures |TABLE| == 45 && Indexed(i)
  {
    TableParts(i);
    hide TABLE;
  }

  lemma IndexedSecond(i: nat)
    requires 35 <= i < 42
    ensures |TABLE| == 45 && Indexed(i)
  {
    TableParts(i);
    hide TABLE;
  }

  lemma IndexedStatements(i: nat)
    requires 42 <= i < 45
    ensures |TABLE| == 45 && Indexed(i)
  {
    TableParts(i);
    hide TABLE;
  }

  lemma TableIndexed(i: nat)
    requires i < |TABLE|
    ensures Indexed(i)
  {
    hide PrefixIndex, InfixIndex, TABLE;
    TableParts(i);
    if i < 9 { IndexedOperands(i); } else if i < 16 { IndexedArithmetic(i); } else if i < 28 { IndexedLogic(i); }
    else if i < 42 { IndexedAssignments(i); } else { IndexedStatements(i); }
  }

  lemma TableUnambiguous()
    ensures Unambiguous(TABLE)
  {
    hide PrefixIndex, InfixIndex, TABLE;
    forall i | 0 <= i < |TABLE|
      ensures Indexed(i)
    {
      TableIndexed(i);
    }
    forall i, j | 0 <= i < j < |TABLE|
      ensures TABLE[i].prefix != NoPrefix && TABLE[j].prefix != NoPrefix ==> TABLE[i].kind != TABLE[j].kind
      ensures TABLE[i].infix != NoInfix && TABLE[j].infix != NoInfix ==> TABLE[i].kind != TABLE[j].kind
    {
      assert Indexed(i) && Indexed(j);
    }
  }

  // ---------------- what the lookups find ----------------

  lemma {:induction false} PrefixFound(t: seq<Entry>, kind: Kind, max: nat, i: nat, k: nat)
    requires Unambiguous(t) && i <= k < |t| && t[k].prefix != NoPrefix && t[k].kind == kind
    ensures FirstPrefix(t, kind, max, i) == if t[k].prio <= max then Some(t[k]) else None
    decreases |t| - i
  {
    if i < k {
      PrefixFound(t, kind, max, i + 1, k);
    } else {
      PrefixNone(t, kind, max, i + 1);
    }
  }

  lemma {:induction false} PrefixNone(t: seq<Entry>, kind: Kind, max: nat, i: nat)
    requires i <= |t| && forall j :: i <= j < |t| && t[j].prefix != NoPrefix ==> t[j].kind != kind
    ensures FirstPrefix(t, kind, max, i) == None
    decreases |t| - i
  {
    if i < |t| { PrefixNone(t, kind, max, i + 1); }
  }

  lemma {:induction false} InfixFound(t: seq<Entry>, kind: Kind, max: nat, i: nat, k: nat)
    requires Unambiguous(t) && i <= k < |t| && t[k].infix != NoInfix && t[k].kind == kind
    ensures FirstInfix(t, kind, max, i) == if t[k].prio < max then Some(t[k]) else None
    decreases |t| - i
  {
    if i < k {
      InfixFound(t, kind, max, i + 1, k);
    } else {
      InfixNone(t, kind, max, i + 1);
    }
  }

  lemma {:induction false} InfixNone(t: seq<Entry>, kind: Kind, max: nat, i: nat)
    requires i <= |t| && forall j :: i <= j < |t| && t[j].infix != NoInfix ==> t[j].kind != kind
    ensures FirstInfix(t, kind, max, i) == None
    decreases |t| - i
  {
    if i < |t| { InfixNone(t, kind, max, i + 1); }
  }

  lemma {:induction false} FirstPrefixIn(t: seq<Entry>, kind: Kind, max: nat, i: nat)
    requires i <= |t|
    ensures var r := FirstPrefix(t, kind, max, i);
            r.Some? ==> exists k :: i <= k < |t| && t[k] == r.value && t[k].prefix != NoPrefix && t[k].kind == kind && t[k].prio <= max
    decreases |t| - i
  {
    if i < |t| { FirstPrefixIn(t, kind, max, i + 1); }
  }

  lemma {:induction false} FirstInfixIn(t: seq<Entry>, kind: Kind, max: nat, i: nat)
    requires i <= |t|
    ensures var r := FirstInfix(t, kind, max, i);
            r.Some? ==> exists k :: i <= k < |t| && t[k] == r.value && t[k].infix != NoInfix && t[k].kind == kind && t[k].prio < max
    decreases |t| - i
  {
    if i < |t| { FirstInfixIn(t, kind, max, i + 1); }
  }

  // The priority at which a token starts, or goes on with, an expression.
  function PrefixPrio(kind: Kind): Option<nat> {
    match PrefixEntry(kind, TOP)
    case None => None
    case Some(e) => Some(e.prio)
  }

  function InfixPrio(kind: Kind): Option<nat> {
    match InfixEntry(kind, TOP)
    case None => None
    case Some(e) => Some(e.prio)
  }

  // A lookup under a limit finds the token's one entry when that fits.
  lemma PrefixAt(kind: Kind, max: nat)
    requires max <= TOP
    ensures PrefixEntry(kind, max) ==
            if PrefixPrio(kind).Some? && PrefixPrio(kind).value <= max then PrefixEntry(kind, TOP) else None
  {
    hide FirstPrefix, Unambiguous;
    TableUnambiguous();
    FirstPrefixIn(TABLE, kind, TOP, 0);
    FirstPrefixIn(TABLE, kind, max, 0);
    if PrefixEntry(kind, TOP).Some? {
      var k :| 0 <= k < |TABLE| && TABLE[k] == PrefixEntry(kind, TOP).value && TABLE[k].prefix != NoPrefix && TABLE[k].kind == kind;
      PrefixFound(TABLE, kind, max, 0, k);
    } else if PrefixEntry(kind, max).Some? {
      var k :| 0 <= k < |TABLE| && TABLE[k] == PrefixEntry(kind, max).value && TABLE[k].prefix != NoPrefix
               && TABLE[k].kind == kind && TABLE[k].prio <= max;
      PrefixFound(TABLE, kind, TOP, 0, k);
    }
  }

  lemma InfixAt(kind: Kind, max: nat)
    requires max <= TOP
    ensures InfixEntry(kind, max) ==
            if InfixPrio(kind).Some? && InfixPrio(kind).value < max then InfixEntry(kind, TOP) else None
  {
    hide FirstInfix, Unambiguous;
    TableUnambiguous();
    FirstInfixIn(TABLE, kind, TOP, 0);
    FirstInfixIn(TABLE, kind, max, 0);
    if InfixEntry(kind, TOP).Some? {
      var k :| 0 <= k < |TABLE| && TABLE[k] == InfixEntry(kind, TOP).value && TABLE[k].infix != NoInfix && TABLE[k].kind == kind;
      InfixFound(TABLE, kind, max, 0, k);
    } else if InfixEntry(kind, max).Some? {
      var k :| 0 <= k < |TABLE| && TABLE[k] == InfixEntry(kind, max).value && TABLE[k].infix != NoInfix
               && TABLE[k].kind == kind && TABLE[k].prio < max;
      InfixFound(TABLE, kind, TOP, 0, k);
    }
  }

  // ---------------- what the entries are ----------------

  ghost predicate EntryShape(e: Entry) {
    && e.prio <= 500
    && match e.kind
       case Atom => e.prefix == AtomFn && e.infix == NoInfix && e.prio == 10
       case Open(b) => e.prefix == GroupFn && e.prio == CALL_PRIO && e.infix == if b == Curly then NoInfix else WrapFn
       case Close(_) => false
       case Op(sym) =>
         && (e.prefix == NoPrefix || (e.prefix == UnaryFn && (e.prio == UNARY_PRIO || (e.prio == 500 && e.infix == NoInfix && Statement(sym)))))
         && match e.infix
            case NoInfix => true
            case WrapFn => false
            case PostfixFn => e.prio == UNARY_PRIO && !Statement(sym)
            case BinaryFn => e.prio >= 115 && !Statement(sym)
  }

  // Prefix operators of statement priority; nothing goes on with an operand.
  predicate Statement(sym: Sym) { sym == Var || sym == Goto }

  lemma TableShape(i: nat)
    requires i < |TABLE|
    ensures EntryShape(TABLE[i])
  {
    TableParts(i);
    hide TABLE, EntryShape;
    if i < 9 { ShapeOperands(i); } else if i < 16 { ShapeArithmetic(i); } else if i < 28 { ShapeLogic(i); }
    else if i < 42 { ShapeAssignments(i); } else { ShapeStatements(i); }
  }

  lemma ShapeOperands(i: nat)
    requires 0 <= i < 9
    ensures |TABLE| == 45 && EntryShape(TABLE[i])
  {
    TableParts(i);
    hide TABLE;
  }

  lemma ShapeArithmetic(i: nat)
    requires 9 <= i < 16
    ensures |TABLE| == 45 && EntryShape(TABLE[i])
  {
    TableParts(i);
    hide TABLE;
  }

  lemma ShapeLogic(i: nat)
    requires 16 <= i < 28
    ensures |TABLE| == 45 && EntryShape(TABLE[i])
  {
    TableParts(i);
    hide TABLE;
  }

  lemma ShapeAssignments(i: nat)
    requires 28 <= i < 42
    ensures |TABLE| == 45 && EntryShape(TABLE[i])
  {
    TableParts(i);
    hide TABLE;
  }

  lemma ShapeStatements(i: nat)
    requires 42 <= i < 45
    ensures |TABLE| == 45 && EntryShape(TABLE[i])
  {
    TableParts(i);
    hide TABLE;
  }

  lemma PrefixShape(kind: Kind, max: nat)
    ensures var r := PrefixEntry(kind, max);
            r.Some? ==> EntryShape(r.value) && r.value.kind == kind && r.value.prefix != NoPrefix && r.value.prio <= max
  {
    hide FirstPrefix, EntryShape;
    FirstPrefixIn(TABLE, kind, max, 0);
    var r := PrefixEntry(kind, max);
    if r.Some? {
      var k :| 0 <= k < |TABLE| && TABLE[k] == r.value && TABLE[k].prefix != NoPrefix && TABLE[k].kind == kind && TABLE[k].prio <= max;
      TableShape(k);
    }
  }

  lemma InfixShape(kind: Kind, max: nat)
    ensures var r := InfixEntry(kind, max);
            r.Some? ==> EntryShape(r.value) && r.value.kind == kind && r.value.infix != NoInfix && r.value.prio < max
  {
    hide FirstInfix, EntryShape;
    FirstInfixIn(TABLE, kind, max, 0);
    var r := InfixEntry(kind, max);
    if r.Some? {
      var k :| 0 <= k < |TABLE| && TABLE[k] == r.value && TABLE[k].infix != NoInfix && TABLE[k].kind == kind && TABLE[k].prio < max;
      TableShape(k);
    }
  }

  // Atoms and brackets start expressions at every limit in use; a parenthesis
  // or square bracket behind an operand is a call or an access.
  lemma Brackets(max: nat, b: Bracket)
    requires CALL_PRIO < max <= TOP
    ensures PrefixEntry(Atom, max) == Some(Entry(10, Atom, AtomFn, NoInfix))
    ensures PrefixEntry(Open(b), max) == Some(Entry(CALL_PRIO, Open(b), GroupFn, if b == Curly then NoInfix else WrapFn))
    ensures InfixEntry(Open(b), max) == if b == Curly then None else Some(Entry(CALL_PRIO, Open(b), GroupFn, WrapFn))
    ensures InfixEntry(Close(b), max) == None && PrefixEntry(Close(b), max) == None && InfixEntry(Atom, max) == None
  {
    hide FirstPrefix, FirstInfix;
    TableUnambiguous();
    TableStart();
    var k := if b == Curly then 1 else if b == Paren then 2 else 3;
    PrefixFound(TABLE, Atom, max, 0, 0);
    PrefixFound(TABLE, Open(b), max, 0, k);
    if b != Curly { InfixFound(TABLE, Open(b), max, 0, k); }
    InfixShape(Open(b), max);
    PrefixShape(Close(b), max);
    InfixShape(Close(b), max);
    InfixShape(Atom, max);
  }

  lemma TableStart()
    ensures |TABLE| == 45 && TABLE[0] == Entry(10, Atom, AtomFn, NoInfix) && TABLE[1] == Entry(CALL_PRIO, Open(Curly), GroupFn, NoInfix)
    ensures TABLE[2] == Entry(CALL_PRIO, Open(Paren), GroupFn, WrapFn) && TABLE[3] == Entry(CALL_PRIO, Open(Square), GroupFn, WrapFn)
  {
    TableParts(0);
    TableParts(1);
    TableParts(2);
    TableParts(3);
    hide TABLE;
  }

  ghost predicate IsUnary(sym: Sym) { PrefixEntry(Op(sym), TOP).Some? }
  ghost predicate IsPostfix(sym: Sym) { InfixEntry(Op(sym), TOP).Some? && InfixEntry(Op(sym), TOP).value.infix == PostfixFn }
  ghost predicate IsBinary(sym: Sym) { InfixEntry(Op(sym), TOP).Some? && InfixEntry(Op(sym), TOP).value.infix == BinaryFn }

  // The priority of a prefix operator, and of one behind an operand.
  ghost function UnaryPrio(sym: Sym): nat {
    match PrefixEntry(Op(sym), TOP)
    case None => 0
    case Some(e) => e.prio
  }

  ghost function InfixPrioOf(sym: Sym): nat {
    match InfixEntry(Op(sym), TOP)
    case None => 0
    case Some(e) => e.prio
  }

  // What a prefix operator's lookup finds under a limit.
  lemma UnaryAt(sym: Sym, max: nat)
    requires max <= TOP
    ensures PrefixEntry(Op(sym), max) == if IsUnary(sym) && UnaryPrio(sym) <= max then PrefixEntry(Op(sym), TOP) else None
    ensures IsUnary(sym) ==>
              && PrefixEntry(Op(sym), TOP).value.prefix == UnaryFn && PrefixEntry(Op(sym), TOP).value.kind == Op(sym)
              && (UnaryPrio(sym) == UNARY_PRIO || (UnaryPrio(sym) == 500 && Statement(sym)))
  {
    hide FirstPrefix;
    PrefixAt(Op(sym), max);
    PrefixShape(Op(sym), TOP);
  }

  lemma InfixOpAt(sym: Sym, max: nat)
    requires max <= TOP
    ensures InfixEntry(Op(sym), max) ==
            if (IsBinary(sym) || IsPostfix(sym)) && InfixPrioOf(sym) < max then InfixEntry(Op(sym), TOP) else None
    ensures IsPostfix(sym) ==> InfixPrioOf(sym) == UNARY_PRIO && !Statement(sym) && InfixEntry(Op(sym), TOP).value.kind == Op(sym)
    ensures IsBinary(sym) ==> 115 <= InfixPrioOf(sym) <= 500 && !Statement(sym) && InfixEntry(Op(sym), TOP).value.kind == Op(sym)
    ensures !(IsPostfix(sym) && IsBinary(sym))
  {
    hide FirstInfix;
    InfixAt(Op(sym), max);
    InfixShape(Op(sym), TOP);
  }

  // ---------------- trees and the parser as a function ----------------

  // `grouped`: the expression stood in parentheses.
  datatype Tree =
    | Leaf(tok: Token, grouped: bool)
    | Empty(grouped: bool)
    | Lit(b: Bracket, inner: Option<Tree>, grouped: bool)
    | Unary(sym: Sym, arg: Tree, grouped: bool)
    | Postfix(sym: Sym, arg: Tree, grouped: bool)
    | Binary(sym: Sym, left: Tree, right: Tree, grouped: bool)
    | Wrap(b: Bracket, fn: Tree, args: Option<Tree>, grouped: bool)   // a call, or an access by index

  type Outcome = (Option<Tree>, seq<Token>)

  // The expression at the front of the tokens, with operators below the limit;
  // and the tokens left.
  ghost function Expr(ts: seq<Token>, max: nat): (r: Outcome)
    ensures |r.1| <= |ts| && (r.0.Some? ==> |r.1| < |ts|)
    decreases |ts|, 1
  {
    if |ts| == 0 then (None, ts)
    else
      match PrefixEntry(ts[0].kind, max)
      case None => (None, ts)
      case Some(e) =>
        var start := Start(e, ts);
        if start.0.None? then start else Rest(start.0.value, start.1, max)
  }

  // What brackets around an expression, or around nothing, make.
  function Bracketed(b: Bracket, inner: Option<Tree>): Tree {
    if b != Paren then Lit(b, inner, false)
    else if inner.None? then Empty(false)
    else inner.value.(grouped := true)
  }

  // The operand a prefix entry makes.
  ghost function Start(e: Entry, ts: seq<Token>): (r: Outcome)
    requires |ts| > 0
    ensures |r.1| <= |ts| && (r.0.Some? ==> |r.1| < |ts|)
    decreases |ts|, 0
  {
    match e.prefix
    case NoPrefix => (None, ts)
    case AtomFn => (Some(Leaf(ts[0], false)), ts[1..])
    case UnaryFn =>
      var a := Expr(ts[1..], e.prio);
      if a.0.None? || !ts[0].kind.Op? then (None, a.1) else (Some(Unary(ts[0].kind.sym, a.0.value, false)), a.1)
    case GroupFn =>
      var a := Expr(ts[1..], TOP);
      if |a.1| == 0 || !ts[0].kind.Open? || a.1[0].kind != Close(ts[0].kind.b) then (None, a.1)
      else (Some(Bracketed(ts[0].kind.b, a.0)), a.1[1..])
  }

  // What follows an operand is taken as long as it fits.
  ghost function Rest(left: Tree, ts: seq<Token>, max: nat): (r: Outcome)
    ensures |r.1| <= |ts| && r.0.Some?
    decreases |ts|, 0
  {
    if |ts| == 0 then (Some(left), ts)
    else
      match InfixEntry(ts[0].kind, max)
      case None => (Some(left), ts)
      case Some(e) =>
        match e.infix
        case NoInfix => (Some(left), ts)
        case PostfixFn =>
          if !ts[0].kind.Op? then (Some(left), ts[1..]) else Rest(Postfix(ts[0].kind.sym, left, false), ts[1..], max)
        case BinaryFn =>
          var b := Expr(ts[1..], e.prio);
          if b.0.None? || !ts[0].kind.Op? then (Some(left), b.1)
          else Rest(Binary(ts[0].kind.sym, left, b.0.value, false), b.1, max)
        case WrapFn =>
          var b := Expr(ts[1..], TOP);
          if !ts[0].kind.Open? || (b.0.None? && ts[0].kind.b != Paren) || |b.1| == 0 || b.1[0].kind != Close(ts[0].kind.b)
          then (Some(left), b.1)
          else Rest(Wrap(ts[0].kind.b, left, b.0, false), b.1[1..], max)
  }

  // ---------------- writing a tree ----------------

  // Trees over the table's operators.
  ghost predicate Proper(t: Tree) {
    match t
    case Leaf(tok, _) => tok.kind == Atom
    case Empty(_) => true
    case Lit(b, inner, _) => b != Paren && (inner.Some? ==> Proper(inner.value))
    case Unary(sym, arg, _) => IsUnary(sym) && Proper(arg)
    case Postfix(sym, arg, _) => IsPostfix(sym) && Proper(arg)
    case Binary(sym, left, right, _) => IsBinary(sym) && Proper(left) && Proper(right)
    case Wrap(b, fn, args, _) =>
      && b != Curly && Proper(fn) && (args.Some? ==> Proper(args.value)) && (b == Square ==> args.Some?)
  }

  function OpenTok(b: Bracket): Token { Token(Open(b), 0) }
  function CloseTok(b: Bracket): Token { Token(Close(b), 0) }
  function OpTok(sym: Sym): Token { Token(Op(sym), 0) }

  // The tree with a pair of parentheses wherever it is marked to have one.
  ghost function Spell(t: Tree): (s: seq<Token>)
    ensures |s| > 0
    decreases t, 1
  {
    if t.grouped then [OpenTok(Paren)] + Bare(t) + [CloseTok(Paren)] else Bare(t)
  }

  ghost function Bare(t: Tree): (s: seq<Token>)
    ensures |s| > 0
    decreases t, 0
  {
    match t
    case Leaf(tok, _) => [tok]
    case Empty(_) => [OpenTok(Paren), CloseTok(Paren)]
    case Lit(b, inner, _) => [OpenTok(b)] + (if inner.None? then [] else Spell(inner.value)) + [CloseTok(b)]
    case Unary(sym, arg, _) => [OpTok(sym)] + Spell(arg)
    case Postfix(sym, arg, _) => Spell(arg) + [OpTok(sym)]
    case Binary(sym, left, right, _) => Spell(left) + ([OpTok(sym)] + Spell(right))
    case Wrap(b, fn, args, _) =>
      Spell(fn) + ([OpenTok(b)] + (if args.None? then [] else Spell(args.value)) + [CloseTok(b)])
  }

  // ---------------- which parentheses are needed ----------------

  // May the tree stand without parentheses where operators below max go?
  ghost predicate Fits(t: Tree, max: nat) {
    match t
    case Unary(sym, _, _) => UnaryPrio(sym) <= max
    case Postfix(_, _, _) => UNARY_PRIO < max
    case Binary(sym, _, _, _) => InfixPrioOf(sym) < max
    case _ => true
  }

  // ... and there, in front of an operator of priority p?
  ghost predicate FitsLeft(t: Tree, p: nat, max: nat) {
    match t
    case Unary(sym, _, _) => UnaryPrio(sym) <= p
    case Postfix(_, _, _) => UNARY_PRIO < max
    case Binary(sym, _, _, _) => InfixPrioOf(sym) <= p
    case _ => true
  }

  // Every part has its parentheses where it does not fit.  What stands in
  // parentheses is parsed without a limit, what begins an expression under the
  // limit of the whole.
  ghost predicate Enough(t: Tree, max: nat)
    decreases t, 1
  {
    if t.grouped then Inside(t, TOP) else Fits(t, max) && Inside(t, max)
  }

  ghost predicate EnoughLeft(t: Tree, p: nat, max: nat)
    decreases t, 1
  {
    if t.grouped then Inside(t, TOP) else FitsLeft(t, p, max) && Inside(t, max)
  }

  ghost predicate Inside(t: Tree, max: nat)
    decreases t, 0
  {
    match t
    case Leaf(_, _) => true
    case Empty(_) => true
    case Lit(_, inner, _) => inner.Some? ==> Enough(inner.value, TOP)
    case Unary(sym, arg, _) => Enough(arg, UnaryPrio(sym))
    case Postfix(_, arg, _) => EnoughLeft(arg, UNARY_PRIO, max)
    case Binary(sym, left, right, _) => EnoughLeft(left, InfixPrioOf(sym), max) && Enough(right, InfixPrioOf(sym))
    case Wrap(_, fn, args, _) => EnoughLeft(fn, CALL_PRIO, max) && (args.Some? ==> Enough(args.value, TOP))
  }

  // The limit the last part of a tree was parsed under.
  ghost function Edge(t: Tree): nat {
    if t.grouped then 0
    else
      match t
      case Unary(sym, _, _) => UnaryPrio(sym)
      case Binary(sym, _, _, _) => InfixPrioOf(sym)
      case _ => 0
  }

  // Nothing that follows goes on with an expression parsed under the limit m.
  ghost predicate Stops(ts: seq<Token>, m: nat) {
    |ts| == 0 || InfixEntry(ts[0].kind, m).None?
  }

  lemma StopsLower(ts: seq<Token>, m: nat, n: nat)
    requires Stops(ts, m) && n <= m <= TOP
    ensures Stops(ts, n)
  {
    hide FirstInfix;
    if |ts| > 0 {
      InfixAt(ts[0].kind, m);
      InfixAt(ts[0].kind, n);
    }
  }

  lemma StopsRest(u: Tree, rest: seq<Token>, max: nat)
    requires Stops(rest, max)
    ensures Rest(u, rest, max) == (Some(u), rest)
  {
  }

  // ---------------- enough parentheses: the tree comes back ----------------

  // An operand, parsed: the tree, and the tokens behind it.
  lemma {:induction false} ParseSpelled(t: Tree, max: nat, rest: seq<Token>)
    requires Proper(t) && CALL_PRIO < max <= TOP && Enough(t, max) && Stops(rest, max)
    ensures Expr(Spell(t) + rest, max) == (Some(t), rest)
    decreases t, 2
  {
    hide Bare, FirstPrefix, FirstInfix, PrefixEntry, Proper, Expr, Inside;
    EdgeFits(t, max);
    StopsLower(rest, max, Edge(t));
    if t.grouped { ParseGroup(t, max, rest); } else { ParseBare(t, max, rest); }
    StopsRest(t, rest, max);
  }

  lemma EdgeFits(t: Tree, max: nat)
    requires t.grouped || Fits(t, max)
    ensures Edge(t) <= max
  {
  }

  // A left operand, parsed: the loop goes on with the tree.
  lemma {:induction false} ParseLeft(t: Tree, p: nat, max: nat, rest: seq<Token>)
    requires Proper(t) && CALL_PRIO <= p < max <= TOP && EnoughLeft(t, p, max) && Stops(rest, p)
    ensures Expr(Spell(t) + rest, max) == Rest(t, rest, max)
    decreases t, 2
  {
    hide Bare, FirstPrefix, FirstInfix, PrefixEntry, Proper, Expr, Inside;
    LeftFits(t, p, max);
    StopsLower(rest, p, Edge(t));
    if t.grouped { ParseGroup(t, max, rest); } else { ParseBare(t, max, rest); }
  }

  lemma LeftFits(t: Tree, p: nat, max: nat)
    requires p < max && (t.grouped || FitsLeft(t, p, max))
    ensures Edge(t) <= p && (t.grouped || Fits(t, max))
  {
  }

  // A tree in parentheses is an operand wherever it stands.
  lemma {:induction false} ParseGroup(t: Tree, max: nat, rest: seq<Token>)
    requires t.grouped && Proper(t) && CALL_PRIO < max <= TOP && Inside(t, TOP)
    ensures Expr(Spell(t) + rest, max) == Rest(t, rest, max)
    decreases t, 1
  {
    hide Bare, FirstPrefix, FirstInfix, PrefixEntry, InfixEntry, Proper, Inside, Expr, Rest;
    var tail := [CloseTok(Paren)] + rest;
    var u := t.(grouped := false);
    FitsTop(t);
    CloseStops(tail, Edge(u));
    CloseStops(tail, TOP);
    ParseBare(t, TOP, tail);
    StopsRest(u, tail, TOP);
    assert tail[1..] == rest;
    InBrackets(Paren, Some(u), Bare(t), max, rest);
  }

  lemma CloseStops(ts: seq<Token>, max: nat)
    requires |ts| > 0 && ts[0].kind.Close?
    ensures Stops(ts, max)
  {
    hide FirstInfix;
    InfixShape(ts[0].kind, max);
  }

  lemma FitsTop(t: Tree)
    requires Proper(t)
    ensures Fits(t, TOP) && Edge(t.(grouped := false)) <= 500
  {
    hide FirstPrefix, FirstInfix;
    match t
    case Unary(sym, _, _) => UnaryAt(sym, TOP);
    case Postfix(sym, _, _) => InfixOpAt(sym, TOP);
    case Binary(sym, _, _, _) => InfixOpAt(sym, TOP);
    case _ =>
  }

  // A tree written without parentheses around it.
  lemma {:induction false} ParseBare(t: Tree, max: nat, rest: seq<Token>)
    requires Proper(t) && CALL_PRIO < max <= TOP && Fits(t, max) && Inside(t, max) && Stops(rest, Edge(t.(grouped := false)))
    ensures Expr(Bare(t) + rest, max) == Rest(t.(grouped := false), rest, max)
    decreases t, 0
  {
    match t
    case Leaf(tok, _) => BareLeaf(tok, max, rest);
    case Empty(_) => BareEmpty(max, rest);
    case Lit(b, inner, _) => BareBrackets(b, inner, max, rest);
    case Unary(sym, arg, _) => BareUnary(sym, arg, max, rest);
    case Postfix(sym, arg, _) => BarePostfix(sym, arg, max, rest);
    case Binary(sym, left, right, _) => BareBinary(sym, left, right, t.grouped, max, rest);
    case Wrap(b, fn, args, _) => BareWrap(b, fn, args, t.grouped, max, rest);
  }

  lemma BareEmpty(max: nat, rest: seq<Token>)
    requires CALL_PRIO < max <= TOP
    ensures Expr([OpenTok(Paren), CloseTok(Paren)] + rest, max) == Rest(Empty(false), rest, max)
  {
    NothingBetween(Paren, rest);
    InBrackets(Paren, None, Between(None), max, rest);
    assert [OpenTok(Paren)] + Between(None) + [CloseTok(Paren)] == [OpenTok(Paren), CloseTok(Paren)];
  }

  lemma NothingBetween(b: Bracket, rest: seq<Token>)
    ensures var tail := [CloseTok(b)] + rest; Expr(Between(None) + tail, TOP) == (None, tail) && tail[1..] == rest
  {
    hide FirstPrefix, FirstInfix, PrefixEntry, InfixEntry;
    Brackets(TOP, b);
    var tail := [CloseTok(b)] + rest;
    assert Between(None) + tail == tail;
  }

  lemma InBrackets(b: Bracket, inner: Option<Tree>, s: seq<Token>, max: nat, rest: seq<Token>)
    requires CALL_PRIO < max <= TOP
    requires var tail := [CloseTok(b)] + rest; Expr(s + tail, TOP) == (inner, tail) && tail[1..] == rest
    ensures Expr([OpenTok(b)] + s + [CloseTok(b)] + rest, max) == Rest(Bracketed(b, inner), rest, max)
  {
    hide FirstPrefix, FirstInfix, PrefixEntry, InfixEntry;
    Brackets(max, b);
    var ts := [OpenTok(b)] + s + [CloseTok(b)] + rest;
    assert ts[0] == OpenTok(b) && ts[1..] == s + ([CloseTok(b)] + rest);
  }

  lemma BareLeaf(tok: Token, max: nat, rest: seq<Token>)
    requires tok.kind == Atom && CALL_PRIO < max <= TOP
    ensures Expr([tok] + rest, max) == Rest(Leaf(tok, false), rest, max)
  {
    hide FirstPrefix, FirstInfix, PrefixEntry, InfixEntry;
    Brackets(max, Paren);
    var ts := [tok] + rest;
    assert ts[0] == tok && ts[1..] == rest;
  }

  // What stands between brackets, in front of the closing one.
  ghost function Between(inner: Option<Tree>): seq<Token> { if inner.None? then [] else Spell(inner.value) }

  lemma {:induction false} ParseBetween(b: Bracket, inner: Option<Tree>, rest: seq<Token>)
    requires inner.Some? ==> Proper(inner.value) && Enough(inner.value, TOP)
    ensures var tail := [CloseTok(b)] + rest; Expr(Between(inner) + tail, TOP) == (inner, tail) && tail[1..] == rest
    decreases inner, 3
  {
    hide FirstPrefix, FirstInfix, PrefixEntry, InfixEntry, Proper, Inside;
    var tail := [CloseTok(b)] + rest;
    Brackets(TOP, b);
    if inner.Some? { ParseSpelled(inner.value, TOP, tail); } else { NothingBetween(b, rest); }
  }

  lemma {:induction false} BareBrackets(b: Bracket, inner: Option<Tree>, max: nat, rest: seq<Token>)
    requires CALL_PRIO < max <= TOP && (inner.Some? ==> Proper(inner.value) && Enough(inner.value, TOP))
    ensures Expr([OpenTok(b)] + Between(inner) + [CloseTok(b)] + rest, max) == Rest(Bracketed(b, inner), rest, max)
    decreases inner, 4
  {
    ParseBetween(b, inner, rest);
    InBrackets(b, inner, Between(inner), max, rest);
  }

  lemma {:induction false} BareUnary(sym: Sym, arg: Tree, max: nat, rest: seq<Token>)
    requires IsUnary(sym) && Proper(arg) && CALL_PRIO < max <= TOP && UnaryPrio(sym) <= max && Enough(arg, UnaryPrio(sym))
    requires Stops(rest, UnaryPrio(sym))
    ensures Expr([OpTok(sym)] + Spell(arg) + rest, max) == Rest(Unary(sym, arg, false), rest, max)
    decreases arg, 3
  {
    hide Spell, Proper, Enough, Expr, Rest, Stops;
    UnaryAt(sym, max);
    ParseSpelled(arg, UnaryPrio(sym), rest);
    UnaryMeans(sym, arg, Spell(arg), max, rest);
  }

  lemma UnaryMeans(sym: Sym, arg: Tree, s: seq<Token>, max: nat, rest: seq<Token>)
    requires IsUnary(sym) && UnaryPrio(sym) <= max <= TOP && Expr(s + rest, UnaryPrio(sym)) == (Some(arg), rest)
    ensures Expr([OpTok(sym)] + s + rest, max) == Rest(Unary(sym, arg, false), rest, max)
  {
    hide FirstPrefix, FirstInfix, InfixEntry;
    UnaryAt(sym, max);
    var ts := [OpTok(sym)] + s + rest;
    assert ts[0] == OpTok(sym) && ts[1..] == s + rest;
  }

  // An operator of priority p does not go on with what is parsed under p.
  lemma OpStops(sym: Sym, ts: seq<Token>, p: nat)
    requires |ts| > 0 && ts[0].kind == Op(sym) && InfixPrioOf(sym) == p <= TOP
    ensures Stops(ts, p)
  {
    hide FirstInfix, InfixEntry;
    InfixOpAt(sym, p);
  }

  lemma {:induction false} BarePostfix(sym: Sym, arg: Tree, max: nat, rest: seq<Token>)
    requires IsPostfix(sym) && Proper(arg) && UNARY_PRIO < max <= TOP && EnoughLeft(arg, UNARY_PRIO, max)
    ensures Expr((Spell(arg) + [OpTok(sym)]) + rest, max) == Rest(Postfix(sym, arg, false), rest, max)
    decreases arg, 3
  {
    hide FirstPrefix, FirstInfix, Spell, Proper, PrefixEntry, InfixEntry, Expr, Inside;
    InfixOpAt(sym, max);
    var tail := [OpTok(sym)] + rest;
    OpStops(sym, tail, UNARY_PRIO);
    ParseLeft(arg, UNARY_PRIO, max, tail);
    assert (Spell(arg) + [OpTok(sym)]) + rest == Spell(arg) + tail;
    assert tail[0] == OpTok(sym) && tail[1..] == rest;
  }

  lemma {:induction false} BareBinary(sym: Sym, left: Tree, right: Tree, g: bool, max: nat, rest: seq<Token>)
    requires IsBinary(sym) && Proper(left) && Proper(right) && CALL_PRIO < max <= TOP && InfixPrioOf(sym) < max
    requires EnoughLeft(left, InfixPrioOf(sym), max) && Enough(right, InfixPrioOf(sym)) && Stops(rest, InfixPrioOf(sym))
    ensures Expr((Spell(left) + ([OpTok(sym)] + Spell(right))) + rest, max) == Rest(Binary(sym, left, right, false), rest, max)
    decreases Binary(sym, left, right, g), -1
  {
    hide Spell, Proper, Enough, EnoughLeft, Expr, Rest, Stops;
    var p := InfixPrioOf(sym);
    InfixOpAt(sym, max);
    var tail := [OpTok(sym)] + Spell(right) + rest;
    OpStops(sym, tail, p);
    ParseLeft(left, p, max, tail);
    ParseSpelled(right, p, rest);
    assert (Spell(left) + ([OpTok(sym)] + Spell(right))) + rest == Spell(left) + tail;
    BinaryMeans(sym, left, right, Spell(right), max, rest);
  }

  lemma BinaryMeans(sym: Sym, left: Tree, right: Tree, s: seq<Token>, max: nat, rest: seq<Token>)
    requires IsBinary(sym) && InfixPrioOf(sym) < max <= TOP && Expr(s + rest, InfixPrioOf(sym)) == (Some(right), rest)
    ensures Rest(left, [OpTok(sym)] + s + rest, max) == Rest(Binary(sym, left, right, false), rest, max)
  {
    hide FirstPrefix, FirstInfix, PrefixEntry, Expr;
    InfixOpAt(sym, max);
    var ts := [OpTok(sym)] + s + rest;
    assert ts[0] == OpTok(sym) && ts[1..] == s + rest;
  }

  lemma {:induction false} BareWrap(b: Bracket, fn: Tree, args: Option<Tree>, g: bool, max: nat, rest: seq<Token>)
    requires b != Curly && Proper(fn) && (args.Some? ==> Proper(args.value) && Enough(args.value, TOP)) && (b == Square ==> args.Some?)
    requires CALL_PRIO < max <= TOP && EnoughLeft(fn, CALL_PRIO, max)
    ensures Expr((Spell(fn) + ([OpenTok(b)] + Between(args) + [CloseTok(b)])) + rest, max) == Rest(Wrap(b, fn, args, false), rest, max)
    decreases Wrap(b, fn, args, g), -1
  {
    hide FirstPrefix, FirstInfix, Spell, Proper, PrefixEntry, InfixEntry, Expr, Inside, Between;
    Brackets(max, b);
    var tail := [OpenTok(b)] + Between(args) + [CloseTok(b)] + rest;
    WrapStops(b, tail);
    ParseLeft(fn, CALL_PRIO, max, tail);
    ParseBetween(b, args, rest);
    assert (Spell(fn) + ([OpenTok(b)] + Between(args) + [CloseTok(b)])) + rest == Spell(fn) + tail;
    assert tail[0] == OpenTok(b) && tail[1..] == Between(args) + ([CloseTok(b)] + rest);
  }

  lemma WrapStops(b: Bracket, ts: seq<Token>)
    requires |ts| > 0 && ts[0].kind == Open(b)
    ensures Stops(ts, CALL_PRIO)
  {
    hide FirstInfix;
    InfixAt(Open(b), CALL_PRIO);
    InfixShape(Open(b), TOP);
  }
}
