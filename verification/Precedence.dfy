// The precedence of the language, named level by level, and that the parser's
// trees follow it.
module Precedence {
  import opened Grammar

  // The tightest first.
  datatype Level =
    | Multiplying | Adding | Shifting | Comparing | BitAnd | BitXor | BitOr | Equating
    | Both | Either | Fallback | Updating | Assigning

  function LevelOf(sym: Sym): Option<Level> {
    match sym
    case Mul => Some(Multiplying)
    case Div => Some(Multiplying)
    case Mod => Some(Multiplying)
    case Add => Some(Adding)
    case Sub => Some(Adding)
    case LShift => Some(Shifting)
    case RShift => Some(Shifting)
    case Gt => Some(Comparing)
    case Lt => Some(Comparing)
    case GtEq => Some(Comparing)
    case LtEq => Some(Comparing)
    case BinAnd => Some(BitAnd)
    case BinXor => Some(BitXor)
    case BinOr => Some(BitOr)
    case Eq => Some(Equating)
    case Neq => Some(Equating)
    case And => Some(Both)
    case Or => Some(Either)
    case NotNull => Some(Fallback)
    case Assignment => Some(Assigning)
    case Not => None
    case BinInv => None
    case Incr => None
    case Decr => None
    case Var => None
    case Goto => None
    case _ => Some(Updating)
  }

  function Rank(l: Level): nat {
    match l
    case Multiplying => 0
    case Adding => 1
    case Shifting => 2
    case Comparing => 3
    case BitAnd => 4
    case BitXor => 5
    case BitOr => 6
    case Equating => 7
    case Both => 8
    case Either => 9
    case Fallback => 10
    case Updating => 11
    case Assigning => 12
  }

  predicate Infix(sym: Sym) { LevelOf(sym).Some? }

  predicate Tighter(m: Sym, s: Sym)
    requires Infix(m) && Infix(s)
  {
    Rank(LevelOf(m).value) < Rank(LevelOf(s).value)
  }

  predicate Prefix(sym: Sym) { sym in {Sub, Not, BinInv, Incr, Decr} }

  // ---------------- the table's priorities ----------------

  function Prio(l: Level): nat {
    match l
    case Multiplying => 115
    case Adding => 120
    case Shifting => 125
    case Comparing => 130
    case BitAnd => 140
    case BitXor => 145
    case BitOr => 150
    case Equating => 155
    case Both => 160
    case Either => 165
    case Fallback => 170
    case Updating => 250
    case Assigning => 500
  }

  lemma PrioRank(k: Level, l: Level)
    ensures Prio(k) < Prio(l) <==> Rank(k) < Rank(l)
  {
  }

  ghost predicate Stands(sym: Sym, l: Level) {
    var i := InfixIndex(Op(sym));
    && i < |TABLE| && TABLE[i].kind == Op(sym) && TABLE[i].infix == BinaryFn && TABLE[i].prio == Prio(l)
  }

  lemma EntryOf(sym: Sym)
    requires Infix(sym)
    ensures Stands(sym, LevelOf(sym).value)
  {
    hide TABLE, InfixIndex, LevelOf, Prio, Stands;
    if LevelOf(sym).value == Updating { UpdatingEntry(sym); } else { OtherEntry(sym); }
  }

  lemma UpdatingEntry(sym: Sym)
    requires LevelOf(sym) == Some(Updating)
    ensures Stands(sym, Updating)
  {
    TableParts(InfixIndex(Op(sym)));
    hide TABLE;
  }

  lemma OtherEntry(sym: Sym)
    requires Infix(sym) && LevelOf(sym).value != Updating
    ensures Stands(sym, LevelOf(sym).value)
  {
    TableParts(InfixIndex(Op(sym)));
    hide TABLE;
  }

  lemma InfixPrioIs(sym: Sym)
    requires Infix(sym)
    ensures IsBinary(sym) && InfixPrioOf(sym) == Prio(LevelOf(sym).value)
  {
    hide TABLE, InfixIndex, LevelOf, FirstInfix, Unambiguous;
    EntryOf(sym);
    TableUnambiguous();
    InfixFound(TABLE, Op(sym), TOP, 0, InfixIndex(Op(sym)));
  }

  lemma UnaryPrioIs(sym: Sym)
    requires Prefix(sym)
    ensures IsUnary(sym) && UnaryPrio(sym) == UNARY_PRIO
  {
    hide TABLE, FirstPrefix, Unambiguous;
    var i := PrefixIndex(Op(sym));
    TableParts(i);
    TableUnambiguous();
    PrefixFound(TABLE, Op(sym), TOP, 0, i);
  }

  lemma PostfixIs(sym: Sym)
    requires sym == Incr || sym == Decr
    ensures IsPostfix(sym)
  {
    hide TABLE, FirstInfix, Unambiguous;
    var i := InfixIndex(Op(sym));
    TableParts(i);
    TableUnambiguous();
    InfixFound(TABLE, Op(sym), TOP, 0, i);
  }

  // The levels hold every operator that stands between operands.
  lemma EveryInfix(sym: Sym)
    ensures IsBinary(sym) <==> Infix(sym)
  {
    hide TABLE, FirstInfix, InfixEntry, LevelOf;
    if Infix(sym) {
      InfixPrioIs(sym);
    } else if IsBinary(sym) {
      InfixOpAt(sym, TOP);
      if sym == Incr || sym == Decr { PostfixIs(sym); }
      NotInTable(sym);
    }
  }

  lemma NotInTable(sym: Sym)
    requires !Infix(sym) && sym != Incr && sym != Decr
    ensures InfixEntry(Op(sym), TOP).None?
  {
    hide TABLE, FirstInfix;
    FirstInfixIn(TABLE, Op(sym), TOP, 0);
    if k: nat :| k < |TABLE| && TABLE[k].infix != NoInfix && TABLE[k].kind == Op(sym) {
      TableIndexed(k);
      TableParts(k);
    }
  }

  // ---------------- the trees ----------------

  function Tok(x: nat): Token { Token(Atom, x) }

  function Name(x: nat): Tree { Leaf(Tok(x), false) }

  // a s b: one operator between operands.
  function Pair(sym: Sym, a: Tree, b: Tree): Tree { Binary(sym, a, b, false) }

  // A written tree with its parentheses in place comes back.
  lemma Back(t: Tree, ts: seq<Token>)
    requires Proper(t) && Enough(t, TOP) && ts == Spell(t)
    ensures Expr(ts, TOP) == (Some(t), [])
  {
    hide Proper, Enough, Spell, Expr, Stops;
    StopsNone();
    ParseSpelled(t, TOP, []);
    assert ts + [] == ts;
  }

  lemma StopsNone()
    ensures Stops([], TOP)
  {
  }

  // Of two operators without parentheses the tighter one takes the operand
  // between them, and of two of one level the left one.
  lemma TwoOperators(s: Sym, m: Sym, a: nat, b: nat, c: nat)
    requires Infix(s) && Infix(m)
    ensures Expr([Tok(a), OpTok(s), Tok(b), OpTok(m), Tok(c)], TOP) ==
            (Some(if Tighter(m, s) then Pair(s, Name(a), Pair(m, Name(b), Name(c)))
                  else Pair(m, Pair(s, Name(a), Name(b)), Name(c))), [])
  {
    hide TABLE, FirstInfix, InfixEntry, LevelOf, Expr, Proper, Enough, EnoughLeft, Spell, InfixPrioOf, IsBinary;
    NameWritten(a);
    NameWritten(b);
    NameWritten(c);
    var t := if Tighter(m, s) then Pair(s, Name(a), Pair(m, Name(b), Name(c))) else Pair(m, Pair(s, Name(a), Name(b)), Name(c));
    InfixPrioIs(s);
    InfixPrioIs(m);
    PrioRank(LevelOf(m).value, LevelOf(s).value);
    PairWritten(s, Name(a), Pair(m, Name(b), Name(c)));
    PairWritten(m, Pair(s, Name(a), Name(b)), Name(c));
    PairWritten(s, Name(a), Name(b));
    PairWritten(m, Name(b), Name(c));
    assert Spell(t) == [Tok(a), OpTok(s), Tok(b), OpTok(m), Tok(c)];
    Back(t, Spell(t));
  }

  lemma PairWritten(sym: Sym, a: Tree, b: Tree)
    ensures Spell(Pair(sym, a, b)) == Spell(a) + ([OpTok(sym)] + Spell(b))
    ensures Proper(Pair(sym, a, b)) <==> IsBinary(sym) && Proper(a) && Proper(b)
    ensures forall max :: Enough(Pair(sym, a, b), max) <==>
                            InfixPrioOf(sym) < max && EnoughLeft(a, InfixPrioOf(sym), max) && Enough(b, InfixPrioOf(sym))
    ensures forall p, max :: EnoughLeft(Pair(sym, a, b), p, max) <==>
                               InfixPrioOf(sym) <= p && EnoughLeft(a, InfixPrioOf(sym), max) && Enough(b, InfixPrioOf(sym))
  {
    hide IsBinary, InfixPrioOf;
  }

  lemma NameWritten(x: nat)
    ensures Spell(Name(x)) == [Tok(x)] && Proper(Name(x))
    ensures forall max :: Enough(Name(x), max)
    ensures forall p, max :: EnoughLeft(Name(x), p, max)
  {
  }

  // A prefix operator takes less than any operator between operands.
  lemma PrefixTighter(u: Sym, s: Sym, a: nat, b: nat)
    requires Prefix(u) && Infix(s)
    ensures Expr([OpTok(u), Tok(a), OpTok(s), Tok(b)], TOP) == (Some(Pair(s, Unary(u, Name(a), false), Name(b))), [])
    ensures Expr([Tok(a), OpTok(s), OpTok(u), Tok(b)], TOP) == (Some(Pair(s, Name(a), Unary(u, Name(b), false))), [])
  {
    hide TABLE, FirstInfix, FirstPrefix, InfixEntry, PrefixEntry, LevelOf, Expr, Proper, Enough, EnoughLeft, Spell, InfixPrioOf, IsBinary, UnaryPrio, IsUnary;
    NameWritten(a);
    NameWritten(b);
    var t, v := Pair(s, Unary(u, Name(a), false), Name(b)), Pair(s, Name(a), Unary(u, Name(b), false));
    InfixPrioIs(s);
    UnaryPrioIs(u);
    PairWritten(s, t.left, t.right);
    PairWritten(s, v.left, v.right);
    UnaryWritten(u, Name(a));
    UnaryWritten(u, Name(b));
    assert Spell(t) == [OpTok(u), Tok(a), OpTok(s), Tok(b)];
    assert Spell(v) == [Tok(a), OpTok(s), OpTok(u), Tok(b)];
    Back(t, Spell(t));
    Back(v, Spell(v));
  }

  lemma UnaryWritten(u: Sym, a: Tree)
    ensures Spell(Unary(u, a, false)) == [OpTok(u)] + Spell(a)
    ensures Proper(Unary(u, a, false)) <==> IsUnary(u) && Proper(a)
    ensures forall max :: Enough(Unary(u, a, false), max) <==> UnaryPrio(u) <= max && Enough(a, UnaryPrio(u))
    ensures forall p, max :: EnoughLeft(Unary(u, a, false), p, max) <==> UnaryPrio(u) <= p && Enough(a, UnaryPrio(u))
  {
    hide IsUnary, UnaryPrio;
  }

  function Called(b: Bracket, fn: Tree, x: Tree): Tree { Wrap(b, fn, Some(x), false) }

  lemma CalledWritten(b: Bracket, fn: Tree, x: Tree)
    ensures Spell(Called(b, fn, x)) == Spell(fn) + ([OpenTok(b)] + Spell(x) + [CloseTok(b)])
    ensures b != Curly && Proper(fn) && Proper(x) ==> Proper(Called(b, fn, x))
    ensures forall max :: Enough(Called(b, fn, x), max) <==> EnoughLeft(fn, CALL_PRIO, max) && Enough(x, TOP)
  {
  }

  // A call or an access is taken first, also behind a prefix operator.
  lemma CallTightest(u: Sym, s: Sym, b: Bracket, a: nat, f: nat, x: nat)
    requires Prefix(u) && Infix(s) && (b == Paren || b == Square)
    ensures Expr([OpTok(u), Tok(f), OpenTok(b), Tok(x), CloseTok(b)], TOP) == (Some(Unary(u, Called(b, Name(f), Name(x)), false)), [])
    ensures Expr([Tok(a), OpTok(s), Tok(f), OpenTok(b), Tok(x), CloseTok(b)], TOP) ==
            (Some(Pair(s, Name(a), Called(b, Name(f), Name(x)))), [])
  {
    hide TABLE, FirstInfix, FirstPrefix, InfixEntry, PrefixEntry, LevelOf, Expr, Proper, Enough, EnoughLeft, Spell, InfixPrioOf, IsBinary, UnaryPrio, IsUnary;
    NameWritten(a);
    NameWritten(f);
    NameWritten(x);
    var c := Called(b, Name(f), Name(x));
    var t, v := Unary(u, c, false), Pair(s, Name(a), c);
    InfixPrioIs(s);
    UnaryPrioIs(u);
    CalledWritten(b, Name(f), Name(x));
    UnaryWritten(u, c);
    PairWritten(s, Name(a), c);
    assert Spell(t) == [OpTok(u), Tok(f), OpenTok(b), Tok(x), CloseTok(b)];
    assert Spell(v) == [Tok(a), OpTok(s), Tok(f), OpenTok(b), Tok(x), CloseTok(b)];
    Back(t, Spell(t));
    Back(v, Spell(v));
  }

  // An increment behind an operand stays outside a prefix operator.
  lemma PostfixOutside(u: Sym, i: Sym, s: Sym, a: nat, b: nat)
    requires Prefix(u) && (i == Incr || i == Decr) && Infix(s)
    ensures Expr([OpTok(u), Tok(a), OpTok(i)], TOP) == (Some(Postfix(i, Unary(u, Name(a), false), false)), [])
    ensures Expr([Tok(a), OpTok(s), Tok(b), OpTok(i)], TOP) == (Some(Pair(s, Name(a), Postfix(i, Name(b), false))), [])
  {
    hide TABLE, FirstInfix, FirstPrefix, InfixEntry, PrefixEntry, LevelOf, Expr, Proper, Enough, EnoughLeft, Spell, InfixPrioOf, IsBinary, UnaryPrio, IsUnary, IsPostfix;
    NameWritten(a);
    NameWritten(b);
    var t, v := Postfix(i, Unary(u, Name(a), false), false), Pair(s, Name(a), Postfix(i, Name(b), false));
    InfixPrioIs(s);
    UnaryPrioIs(u);
    PostfixIs(i);
    PostfixWritten(i, Unary(u, Name(a), false));
    PostfixWritten(i, Name(b));
    UnaryWritten(u, Name(a));
    PairWritten(s, v.left, v.right);
    assert Spell(t) == [OpTok(u), Tok(a), OpTok(i)];
    assert Spell(v) == [Tok(a), OpTok(s), Tok(b), OpTok(i)];
    Back(t, Spell(t));
    Back(v, Spell(v));
  }

  lemma PostfixWritten(i: Sym, a: Tree)
    ensures Spell(Postfix(i, a, false)) == Spell(a) + [OpTok(i)]
    ensures Proper(Postfix(i, a, false)) <==> IsPostfix(i) && Proper(a)
    ensures forall max :: Enough(Postfix(i, a, false), max) <==> UNARY_PRIO < max && EnoughLeft(a, UNARY_PRIO, max)
  {
    hide IsPostfix;
  }
}
