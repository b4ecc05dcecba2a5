// Which parentheses the parser needs: a written tree parses back to itself
// exactly when it has enough of them, and which way of writing has the fewest.
module Spelling {
  import opened Grammar

  // ---------------- the parser without recovery ----------------

  // As Expr, but with no result where an operand or a closing bracket is missing.
  ghost function Strict(ts: seq<Token>, max: nat): (r: Option<(Tree, seq<Token>)>)
    ensures r.Some? ==> |r.value.1| < |ts|
    decreases |ts|, 1
  {
    if |ts| == 0 then None
    else
      match PrefixEntry(ts[0].kind, max)
      case None => None
      case Some(e) =>
        match StrictStart(e, ts)
        case None => None
        case Some(s) => StrictRest(s.0, s.1, max)
  }

  // What stands before the closing bracket, and what behind it.
  ghost function StrictBetween(ts: seq<Token>, b: Bracket): (r: Option<(Option<Tree>, seq<Token>)>)
    ensures r.Some? ==> |r.value.1| < |ts|
    decreases |ts|, 2
  {
    if |ts| > 0 && ts[0].kind == Close(b) then Some((None, ts[1..]))
    else
      match Strict(ts, TOP)
      case None => None
      case Some(a) => if |a.1| > 0 && a.1[0].kind == Close(b) then Some((Some(a.0), a.1[1..])) else None
  }

  ghost function StrictStart(e: Entry, ts: seq<Token>): (r: Option<(Tree, seq<Token>)>)
    requires |ts| > 0
    ensures r.Some? ==> |r.value.1| < |ts|
    decreases |ts|, 0
  {
    match ts[0].kind
    case Atom => Some((Leaf(ts[0], false), ts[1..]))
    case Close(_) => None
    case Op(sym) =>
      (match Strict(ts[1..], e.prio)
       case None => None
       case Some(a) => Some((Unary(sym, a.0, false), a.1)))
    case Open(b) =>
      match StrictBetween(ts[1..], b)
      case None => None
      case Some(a) => Some((Bracketed(b, a.0), a.1))
  }

  ghost function StrictRest(left: Tree, ts: seq<Token>, max: nat): (r: Option<(Tree, seq<Token>)>)
    ensures r.Some? ==> |r.value.1| <= |ts|
    decreases |ts|, 0
  {
    if |ts| == 0 then Some((left, ts))
    else
      match InfixEntry(ts[0].kind, max)
      case None => Some((left, ts))
      case Some(e) =>
        match ts[0].kind
        case Atom => None
        case Close(_) => None
        case Op(sym) =>
          if e.infix == PostfixFn then StrictRest(Postfix(sym, left, false), ts[1..], max)
          else (match Strict(ts[1..], e.prio)
                case None => None
                case Some(b) => StrictRest(Binary(sym, left, b.0, false), b.1, max))
        case Open(b) =>
          match StrictBetween(ts[1..], b)
          case None => None
          case Some(a) => if a.0.None? && b != Paren then None else StrictRest(Wrap(b, left, a.0, false), a.1, max)
  }

  // ---------------- what it returns has enough parentheses ----------------

  lemma StopsNothing(ts: seq<Token>)
    ensures Stops(ts, 0)
  {
    hide FirstInfix;
    if |ts| > 0 { InfixShape(ts[0].kind, 0); }
  }

  lemma {:induction false} StrictEnough(ts: seq<Token>, max: nat)
    requires CALL_PRIO < max <= TOP && Strict(ts, max).Some?
    ensures var (u, rest) := Strict(ts, max).value; Enough(u, max) && Stops(rest, max)
    decreases |ts|, 1
  {
    hide FirstPrefix, FirstInfix, Enough, Inside, Stops;
    var e := PrefixEntry(ts[0].kind, max).value;
    StartEnough(e, ts, max);
    var (u, rest) := StrictStart(e, ts).value;
    RestEnough(u, rest, max);
  }

  lemma {:induction false} BetweenEnough(ts: seq<Token>, b: Bracket)
    requires StrictBetween(ts, b).Some?
    ensures var inner := StrictBetween(ts, b).value.0; inner.Some? ==> Enough(inner.value, TOP)
    decreases |ts|, 2
  {
    hide FirstPrefix, FirstInfix, Enough;
    if !(|ts| > 0 && ts[0].kind == Close(b)) { StrictEnough(ts, TOP); }
  }

  lemma {:induction false} StartEnough(e: Entry, ts: seq<Token>, max: nat)
    requires |ts| > 0 && CALL_PRIO < max <= TOP && PrefixEntry(ts[0].kind, max) == Some(e) && StrictStart(e, ts).Some?
    ensures var (u, rest) := StrictStart(e, ts).value; Enough(u, max) && Stops(rest, Edge(u))
    decreases |ts|, 0
  {
    hide FirstPrefix, FirstInfix, PrefixEntry, InfixEntry;
    var (u, rest) := StrictStart(e, ts).value;
    StopsNothing(rest);
    match ts[0].kind
    case Atom =>
    case Op(sym) =>
      UnaryAt(sym, max);
      UnaryAt(sym, TOP);
      StrictEnough(ts[1..], e.prio);
    case Open(b) =>
      BetweenEnough(ts[1..], b);
  }

  // The operator behind a left operand does not bind tighter than its edge.
  lemma LeftEnough(left: Tree, ts: seq<Token>, max: nat)
    requires max <= TOP && Enough(left, max) && |ts| > 0 && Stops(ts, Edge(left)) && InfixEntry(ts[0].kind, max).Some?
    ensures EnoughLeft(left, InfixEntry(ts[0].kind, max).value.prio, max)
  {
    hide FirstInfix, Inside;
    var e := InfixEntry(ts[0].kind, max).value;
    InfixShape(ts[0].kind, max);
    if Edge(left) <= TOP { InfixAt(ts[0].kind, Edge(left)); }
    InfixAt(ts[0].kind, max);
    EdgeFits(left, max);
  }

  lemma {:induction false} RestEnough(left: Tree, ts: seq<Token>, max: nat)
    requires CALL_PRIO < max <= TOP && Enough(left, max) && Stops(ts, Edge(left)) && StrictRest(left, ts, max).Some?
    ensures var (u, rest) := StrictRest(left, ts, max).value; Enough(u, max) && Stops(rest, max)
    decreases |ts|, 0
  {
    hide FirstPrefix, FirstInfix, PrefixEntry, InfixEntry, Enough, EnoughLeft, Inside;
    if |ts| > 0 && InfixEntry(ts[0].kind, max).Some? {
      var e := InfixEntry(ts[0].kind, max).value;
      InfixShape(ts[0].kind, max);
      LeftEnough(left, ts, max);
      match ts[0].kind
      case Op(sym) =>
        InfixOpAt(sym, max);
        InfixOpAt(sym, TOP);
        if e.infix == PostfixFn {
          JoinedPostfix(sym, left, max);
          StopsNothing(ts[1..]);
          RestEnough(Postfix(sym, left, false), ts[1..], max);
        } else {
          StrictEnough(ts[1..], e.prio);
          var (r, more) := Strict(ts[1..], e.prio).value;
          JoinedBinary(sym, left, r, max);
          RestEnough(Binary(sym, left, r, false), more, max);
        }
      case Open(b) =>
        BetweenEnough(ts[1..], b);
        var (args, more) := StrictBetween(ts[1..], b).value;
        JoinedWrap(b, left, args, max);
        StopsNothing(more);
        RestEnough(Wrap(b, left, args, false), more, max);
    }
  }

  lemma JoinedPostfix(sym: Sym, left: Tree, max: nat)
    requires IsPostfix(sym) && InfixPrioOf(sym) == UNARY_PRIO < max && EnoughLeft(left, UNARY_PRIO, max)
    ensures Enough(Postfix(sym, left, false), max)
  {
    hide EnoughLeft;
  }

  lemma JoinedBinary(sym: Sym, left: Tree, right: Tree, max: nat)
    requires InfixPrioOf(sym) < max && EnoughLeft(left, InfixPrioOf(sym), max) && Enough(right, InfixPrioOf(sym))
    ensures Enough(Binary(sym, left, right, false), max)
  {
    hide EnoughLeft;
  }

  lemma JoinedWrap(b: Bracket, fn: Tree, args: Option<Tree>, max: nat)
    requires EnoughLeft(fn, CALL_PRIO, max) && (args.Some? ==> Enough(args.value, TOP))
    ensures Enough(Wrap(b, fn, args, false), max)
  {
    hide EnoughLeft;
  }

  // ---------------- written trees as token streams ----------------

  // Operands and operators alternate and brackets match: `st` are the brackets
  // open so far, `operand` says what is due next.
  ghost predicate WellFormed(ts: seq<Token>, st: seq<Bracket>, operand: bool)
    decreases |ts|
  {
    if |ts| == 0 then !operand && st == []
    else
      match ts[0].kind
      case Atom => operand && WellFormed(ts[1..], st, false)
      case Close(b) => !operand && st != [] && st[0] == b && WellFormed(ts[1..], st[1..], false)
      case Op(sym) =>
        if operand then IsUnary(sym) && WellFormed(ts[1..], st, true)
        else if IsPostfix(sym) then WellFormed(ts[1..], st, false)
        else IsBinary(sym) && WellFormed(ts[1..], st, true)
      case Open(b) =>
        && (operand || b != Curly)
        && if |ts| > 1 && ts[1].kind == Close(b) then (operand || b == Paren) && WellFormed(ts[2..], st, false)
           else WellFormed(ts[1..], [b] + st, true)
  }

  lemma {:induction false} SpelledWell(t: Tree, rest: seq<Token>, st: seq<Bracket>)
    requires Proper(t) && WellFormed(rest, st, false)
    ensures WellFormed(Spell(t) + rest, st, true)
    decreases t, 1
  {
    hide Proper, Bare, IsUnary, IsPostfix, IsBinary;
    if t.grouped {
      var tail := [CloseTok(Paren)] + rest;
      CloseWell(Paren, rest, st);
      BareWell(t, tail, [Paren] + st);
      var ts := Spell(t) + rest;
      assert ts[0] == OpenTok(Paren) && ts[1..] == Bare(t) + tail;
    } else {
      BareWell(t, rest, st);
    }
  }

  lemma CloseWell(b: Bracket, rest: seq<Token>, st: seq<Bracket>)
    requires WellFormed(rest, st, false)
    ensures WellFormed([CloseTok(b)] + rest, [b] + st, false)
  {
    var ts := [CloseTok(b)] + rest;
    assert ts[1..] == rest && ([b] + st)[1..] == st;
  }

  lemma {:induction false} BareWell(t: Tree, rest: seq<Token>, st: seq<Bracket>)
    requires Proper(t) && WellFormed(rest, st, false)
    ensures WellFormed(Bare(t) + rest, st, true)
    decreases t, 0
  {
    hide IsUnary, IsPostfix, IsBinary, Spell, WellFormed;
    var ts := Bare(t) + rest;
    match t
    case Leaf(tok, _) => NextWell(ts, tok, rest, st);
    case Empty(_) =>
      BracketsWell(Paren, None, rest, st, true);
      assert ts == [OpenTok(Paren)] + (Between(None) + ([CloseTok(Paren)] + rest));
    case Lit(b, inner, _) =>
      BetweenWell(b, inner, rest, st);
      BracketsWell(b, inner, rest, st, true);
      assert ts == [OpenTok(b)] + (Between(inner) + ([CloseTok(b)] + rest));
    case Unary(sym, arg, _) =>
      SpelledWell(arg, rest, st);
      NextWell(ts, OpTok(sym), Spell(arg) + rest, st);
    case Postfix(sym, arg, _) =>
      var tail := [OpTok(sym)] + rest;
      NextWell(tail, OpTok(sym), rest, st);
      SpelledWell(arg, tail, st);
      assert ts == Spell(arg) + tail;
    case Binary(sym, left, right, _) =>
      SpelledWell(right, rest, st);
      var tail := [OpTok(sym)] + (Spell(right) + rest);
      OnlyBinary(sym);
      NextWell(tail, OpTok(sym), Spell(right) + rest, st);
      SpelledWell(left, tail, st);
      assert ts == Spell(left) + tail;
    case Wrap(b, fn, args, _) =>
      BetweenWell(b, args, rest, st);
      BracketsWell(b, args, rest, st, false);
      var tail := [OpenTok(b)] + (Between(args) + ([CloseTok(b)] + rest));
      SpelledWell(fn, tail, st);
      assert ts == Spell(fn) + tail;
  }

  // One token in front of a well-formed stream.
  lemma NextWell(ts: seq<Token>, tok: Token, rest: seq<Token>, st: seq<Bracket>)
    requires ts == [tok] + rest
    ensures tok.kind == Atom && WellFormed(rest, st, false) ==> WellFormed(ts, st, true)
    ensures tok.kind.Op? && IsUnary(tok.kind.sym) && WellFormed(rest, st, true) ==> WellFormed(ts, st, true)
    ensures tok.kind.Op? && IsPostfix(tok.kind.sym) && WellFormed(rest, st, false) ==> WellFormed(ts, st, false)
    ensures tok.kind.Op? && IsBinary(tok.kind.sym) && !IsPostfix(tok.kind.sym) && WellFormed(rest, st, true) ==> WellFormed(ts, st, false)
  {
    hide IsUnary, IsPostfix, IsBinary;
    assert ts[1..] == rest;
  }

  // Brackets around an expression or nothing.
  lemma BracketsWell(b: Bracket, inner: Option<Tree>, rest: seq<Token>, st: seq<Bracket>, operand: bool)
    requires WellFormed(rest, st, false) && (operand || b != Curly) && (inner.None? ==> operand || b == Paren)
    requires inner.Some? ==>
               var ts := Between(inner) + ([CloseTok(b)] + rest); ts[0].kind != Close(b) && WellFormed(ts, [b] + st, true)
    ensures WellFormed([OpenTok(b)] + (Between(inner) + ([CloseTok(b)] + rest)), st, operand)
  {
    hide IsUnary, IsPostfix, IsBinary, Spell;
    var more := Between(inner) + ([CloseTok(b)] + rest);
    var ts := [OpenTok(b)] + more;
    assert ts[1..] == more;
    if inner.None? { assert ts[1] == CloseTok(b) && ts[2..] == rest; }
  }

  lemma OnlyBinary(sym: Sym)
    ensures IsBinary(sym) ==> !IsPostfix(sym)
  {
    InfixOpAt(sym, TOP);
  }

  // Between brackets: nothing, or a well-formed expression that does not start
  // with the closing one.
  lemma {:induction false} BetweenWell(b: Bracket, inner: Option<Tree>, rest: seq<Token>, st: seq<Bracket>)
    requires (inner.Some? ==> Proper(inner.value)) && WellFormed(rest, st, false)
    ensures var ts := Between(inner) + ([CloseTok(b)] + rest);
            if inner.None? then ts[0] == CloseTok(b) && ts[1..] == rest
            else ts[0].kind != Close(b) && WellFormed(ts, [b] + st, true)
    decreases inner, 2
  {
    hide Proper, IsUnary, IsPostfix, IsBinary;
    if inner.Some? {
      CloseWell(b, rest, st);
      SpelledWell(inner.value, [CloseTok(b)] + rest, [b] + st);
    }
  }

  // ---------------- on written trees the two parsers agree ----------------

  // Where the parser gives up on such a stream a statement's operator stands,
  // and nothing goes on from there.
  ghost predicate Blocked(ts: seq<Token>) {
    |ts| > 0 && ts[0].kind.Op? && !IsBinary(ts[0].kind.sym) && !IsPostfix(ts[0].kind.sym)
  }

  lemma BlockedStops(ts: seq<Token>, max: nat)
    requires Blocked(ts) && max <= TOP
    ensures Stops(ts, max)
  {
    InfixOpAt(ts[0].kind.sym, max);
  }

  ghost predicate Agree(strict: Option<(Tree, seq<Token>)>, full: Outcome, st: seq<Bracket>) {
    match strict
    case Some(s) => full == (Some(s.0), s.1) && WellFormed(s.1, st, false)
    case None => Blocked(full.1)
  }

  lemma {:induction false} ExprAgrees(ts: seq<Token>, max: nat, st: seq<Bracket>)
    requires UNARY_PRIO <= max <= TOP && WellFormed(ts, st, true)
    ensures Agree(Strict(ts, max), Expr(ts, max), st)
    decreases |ts|, 1
  {
    hide FirstPrefix, FirstInfix, PrefixEntry, InfixEntry, IsUnary, IsBinary, IsPostfix;
    StarterFound(ts, max, st);
    if PrefixEntry(ts[0].kind, max).Some? {
      var e := PrefixEntry(ts[0].kind, max).value;
      PrefixShape(ts[0].kind, max);
      StartAgrees(e, ts, max, st);
      if StrictStart(e, ts).Some? {
        var (u, rest) := StrictStart(e, ts).value;
        RestAgrees(u, rest, max, st);
      } else if Start(e, ts).0.Some? {
        BlockedStops(Start(e, ts).1, max);
      }
    }
  }

  lemma StarterFound(ts: seq<Token>, max: nat, st: seq<Bracket>)
    requires UNARY_PRIO <= max <= TOP && WellFormed(ts, st, true)
    ensures |ts| > 0 && !ts[0].kind.Close? && (PrefixEntry(ts[0].kind, max).None? ==> Blocked(ts))
  {
    hide FirstPrefix, FirstInfix;
    match ts[0].kind
    case Atom => Brackets(max, Paren);
    case Open(b) => Brackets(max, b);
    case Op(sym) =>
      UnaryAt(sym, max);
      InfixOpAt(sym, TOP);
  }

  // Between brackets, up to the closing one.
  lemma {:induction false} BetweenAgrees(ts: seq<Token>, b: Bracket, st: seq<Bracket>)
    requires WellFormed(ts, [b] + st, true)
    ensures var a := Expr(ts, TOP);
            match StrictBetween(ts, b)
            case Some(s) =>
              s.0.Some? && a.0 == s.0 && |a.1| > 0 && a.1[0].kind == Close(b) && s.1 == a.1[1..] && WellFormed(s.1, st, false)
            case None => Blocked(a.1)
    decreases |ts|, 2
  {
    hide FirstPrefix, FirstInfix, PrefixEntry, InfixEntry, IsUnary, IsBinary, IsPostfix;
    ExprAgrees(ts, TOP, [b] + st);
    if Strict(ts, TOP).Some? {
      var (u, rest) := Strict(ts, TOP).value;
      StrictEnough(ts, TOP);
      ClosingDue(rest, b, st, TOP);
    }
  }

  lemma ClosingDue(rest: seq<Token>, b: Bracket, st: seq<Bracket>, max: nat)
    requires WellFormed(rest, [b] + st, false) && 500 < max <= TOP && Stops(rest, max)
    ensures |rest| > 0 && rest[0].kind == Close(b) && WellFormed(rest[1..], st, false)
  {
    hide FirstInfix;
    assert ([b] + st)[1..] == st;
    if |rest| > 0 {
      if rest[0].kind.Op? { InfixOpAt(rest[0].kind.sym, max); }
      if rest[0].kind.Open? { Brackets(max, rest[0].kind.b); }
    }
  }

  lemma {:induction false} StartAgrees(e: Entry, ts: seq<Token>, max: nat, st: seq<Bracket>)
    requires |ts| > 0 && UNARY_PRIO <= max <= TOP && WellFormed(ts, st, true) && PrefixEntry(ts[0].kind, max) == Some(e)
    ensures Agree(StrictStart(e, ts), Start(e, ts), st)
    decreases |ts|, 0
  {
    hide FirstPrefix, FirstInfix, PrefixEntry, InfixEntry, IsUnary, IsBinary, IsPostfix;
    PrefixShape(ts[0].kind, max);
    match ts[0].kind
    case Atom =>
    case Op(sym) =>
      ExprAgrees(ts[1..], e.prio, st);
    case Open(b) =>
      if |ts| > 1 && ts[1].kind == Close(b) {
        ClosedAtOnce(ts[1..], b);
        assert ts[1..][1..] == ts[2..];
      } else {
        BetweenAgrees(ts[1..], b, st);
      }
  }

  lemma ClosedAtOnce(ts: seq<Token>, b: Bracket)
    requires |ts| > 0 && ts[0].kind == Close(b)
    ensures Expr(ts, TOP) == (None, ts) && StrictBetween(ts, b) == Some((None, ts[1..]))
  {
    hide FirstPrefix, FirstInfix, PrefixEntry, InfixEntry;
    Brackets(TOP, b);
  }

  lemma {:induction false} RestAgrees(left: Tree, ts: seq<Token>, max: nat, st: seq<Bracket>)
    requires UNARY_PRIO <= max <= TOP && WellFormed(ts, st, false)
    ensures Agree(StrictRest(left, ts, max), Rest(left, ts, max), st)
    decreases |ts|, 0
  {
    hide FirstPrefix, FirstInfix, PrefixEntry, InfixEntry, Blocked;
    if |ts| > 0 && InfixEntry(ts[0].kind, max).Some? {
      var e := InfixEntry(ts[0].kind, max).value;
      InfixShape(ts[0].kind, max);
      match ts[0].kind
      case Op(sym) =>
        InfixOpAt(sym, max);
        if e.infix == PostfixFn {
          RestAgrees(Postfix(sym, left, false), ts[1..], max, st);
        } else {
          ExprAgrees(ts[1..], e.prio, st);
          BinaryAgrees(sym, left, ts, e, max, st);
        }
      case Open(b) =>
        if |ts| > 1 && ts[1].kind == Close(b) {
          ClosedAtOnce(ts[1..], b);
          assert ts[1..][1..] == ts[2..];
          RestAgrees(Wrap(b, left, None, false), ts[2..], max, st);
        } else {
          BetweenAgrees(ts[1..], b, st);
          if StrictBetween(ts[1..], b).Some? {
            var (args, more) := StrictBetween(ts[1..], b).value;
            RestAgrees(Wrap(b, left, args, false), more, max, st);
          } else {
            NotClosing(Expr(ts[1..], TOP).1, b);
          }
        }
    }
  }

  lemma NotClosing(ts: seq<Token>, b: Bracket)
    requires Blocked(ts)
    ensures |ts| > 0 && ts[0].kind != Close(b)
  {
  }

  lemma {:induction false} BinaryAgrees(sym: Sym, left: Tree, ts: seq<Token>, e: Entry, max: nat, st: seq<Bracket>)
    requires |ts| > 0 && ts[0].kind == Op(sym) && InfixEntry(ts[0].kind, max) == Some(e) && e.infix == BinaryFn
    requires UNARY_PRIO <= max <= TOP && e.prio < max && Agree(Strict(ts[1..], e.prio), Expr(ts[1..], e.prio), st)
    ensures Agree(StrictRest(left, ts, max), Rest(left, ts, max), st)
    decreases |ts|, -1
  {
    hide FirstPrefix, FirstInfix, PrefixEntry, InfixEntry, Blocked;
    var b := Expr(ts[1..], e.prio);
    if Strict(ts[1..], e.prio).Some? {
      RestAgrees(Binary(sym, left, b.0.value, false), b.1, max, st);
    } else if b.0.Some? {
      BlockedStops(b.1, max);
      StopsRest(Binary(sym, left, b.0.value, false), b.1, max);
    }
  }

  // ---------------- the theorems ----------------

  // A written tree is what its tokens parse to, all of them, exactly when
  // every part has its parentheses where it does not fit.
  lemma Exactly(t: Tree, max: nat)
    requires Proper(t) && UNARY_PRIO <= max <= TOP
    ensures Expr(Spell(t), max) == (Some(t), []) <==> Enough(t, max)
  {
    hide FirstPrefix, FirstInfix, Enough, Proper, Spell, Expr, Strict, Blocked;
    assert Spell(t) + [] == Spell(t);
    SpelledWell(t, [], []);
    ExprAgrees(Spell(t), max, []);
    if Enough(t, max) {
      ParseSpelled(t, max, []);
    } else {
      BlockedMore(Expr(Spell(t), max).1);
      if Strict(Spell(t), max).Some? { StrictEnough(Spell(t), max); }
    }
  }

  lemma BlockedMore(ts: seq<Token>)
    ensures Blocked(ts) ==> ts != []
  {
  }

  // ---------------- the fewest parentheses ----------------

  // The tree without the marks of its parentheses.
  ghost function Strip(t: Tree): Tree {
    match t
    case Leaf(tok, _) => Leaf(tok, false)
    case Empty(_) => Empty(false)
    case Lit(b, inner, _) => Lit(b, if inner.None? then None else Some(Strip(inner.value)), false)
    case Unary(sym, arg, _) => Unary(sym, Strip(arg), false)
    case Postfix(sym, arg, _) => Postfix(sym, Strip(arg), false)
    case Binary(sym, left, right, _) => Binary(sym, Strip(left), Strip(right), false)
    case Wrap(b, fn, args, _) => Wrap(b, Strip(fn), if args.None? then None else Some(Strip(args.value)), false)
  }

  // The tree with parentheses only where a part does not fit.
  ghost function Least(t: Tree, max: nat): Tree
    decreases t, 1
  {
    LeastIn(t, if Fits(t, max) then max else TOP, !Fits(t, max))
  }

  ghost function LeastLeft(t: Tree, p: nat, max: nat): Tree
    decreases t, 1
  {
    LeastIn(t, if FitsLeft(t, p, max) then max else TOP, !FitsLeft(t, p, max))
  }

  ghost function LeastIn(t: Tree, max: nat, g: bool): (u: Tree)
    ensures u.grouped == g
    decreases t, 0
  {
    match t
    case Leaf(tok, _) => Leaf(tok, g)
    case Empty(_) => Empty(g)
    case Lit(b, inner, _) => Lit(b, if inner.None? then None else Some(Least(inner.value, TOP)), g)
    case Unary(sym, arg, _) => Unary(sym, Least(arg, UnaryPrio(sym)), g)
    case Postfix(sym, arg, _) => Postfix(sym, LeastLeft(arg, UNARY_PRIO, max), g)
    case Binary(sym, left, right, _) => Binary(sym, LeastLeft(left, InfixPrioOf(sym), max), Least(right, InfixPrioOf(sym)), g)
    case Wrap(b, fn, args, _) =>
      Wrap(b, LeastLeft(fn, CALL_PRIO, max), if args.None? then None else Some(Least(args.value, TOP)), g)
  }

  // Fitting looks at the outermost operator only.
  lemma SameFit(t: Tree, u: Tree)
    requires Strip(t) == Strip(u)
    ensures forall max :: Fits(t, max) <==> Fits(u, max)
    ensures forall p, max :: FitsLeft(t, p, max) <==> FitsLeft(u, p, max)
  {
  }

  lemma {:induction false} LeastEnough(t: Tree, max: nat)
    ensures Strip(Least(t, max)) == Strip(t) && Enough(Least(t, max), max) && (Proper(t) ==> Proper(Least(t, max)))
    decreases t, 1
  {
    InEnough(t, if Fits(t, max) then max else TOP, !Fits(t, max));
    SameFit(t, Least(t, max));
  }

  lemma {:induction false} LeftLeast(t: Tree, p: nat, max: nat)
    ensures var u := LeastLeft(t, p, max);
            Strip(u) == Strip(t) && EnoughLeft(u, p, max) && (Proper(t) ==> Proper(u))
    decreases t, 1
  {
    InEnough(t, if FitsLeft(t, p, max) then max else TOP, !FitsLeft(t, p, max));
    SameFit(t, LeastLeft(t, p, max));
  }

  lemma {:induction false} InEnough(t: Tree, max: nat, g: bool)
    ensures var u := LeastIn(t, max, g); Strip(u) == Strip(t) && Inside(u, max) && (Proper(t) ==> Proper(u))
    decreases t, 0
  {
    hide Enough, EnoughLeft, Least, LeastLeft;
    match t
    case Leaf(_, _) =>
    case Empty(_) =>
    case Lit(_, inner, _) => if inner.Some? { LeastEnough(inner.value, TOP); }
    case Unary(sym, arg, _) => LeastEnough(arg, UnaryPrio(sym));
    case Postfix(_, arg, _) => LeftLeast(arg, UNARY_PRIO, max);
    case Binary(sym, left, right, _) =>
      LeftLeast(left, InfixPrioOf(sym), max);
      LeastEnough(right, InfixPrioOf(sym));
    case Wrap(_, fn, args, _) =>
      LeftLeast(fn, CALL_PRIO, max);
      if args.Some? { LeastEnough(args.value, TOP); }
  }

  // A pair around the whole saves at most one pair at the beginning of it.
  lemma {:induction false} PairSaves(t: Tree, max: nat, g: bool, h: bool)
    requires max <= TOP
    ensures |Bare(LeastIn(t, max, g))| <= |Bare(LeastIn(t, TOP, h))| + 2
    decreases t, 0
  {
    hide Least, LeastLeft, Spell;
    match t
    case Postfix(_, arg, _) => PairSavesLeft(arg, UNARY_PRIO, max);
    case Binary(sym, left, _, _) => PairSavesLeft(left, InfixPrioOf(sym), max);
    case Wrap(_, fn, _, _) => PairSavesLeft(fn, CALL_PRIO, max);
    case _ =>
  }

  lemma {:induction false} PairSavesLeft(t: Tree, p: nat, max: nat)
    requires max <= TOP
    ensures |Spell(LeastLeft(t, p, max))| <= |Spell(LeastLeft(t, p, TOP))| + 2
    decreases t, 1
  {
    hide LeastIn, Bare;
    PairSaves(t, max, false, false);
    SameBare(t, TOP);
  }

  // The mark of the whole does not change what stands inside.
  lemma SameBare(t: Tree, max: nat)
    ensures Bare(LeastIn(t, max, true)) == Bare(LeastIn(t, max, false))
  {
    hide Least, LeastLeft, Spell;
  }

  lemma {:induction false} LeastFewest(t: Tree, u: Tree, max: nat)
    requires max <= TOP && Strip(u) == Strip(t) && Enough(u, max)
    ensures |Spell(Least(t, max))| <= |Spell(u)|
    decreases t, 1
  {
    hide LeastIn, Bare, Inside;
    SameFit(t, u);
    SameBare(t, TOP);
    PairSaves(t, max, false, false);
    InFewest(t, u, if u.grouped then TOP else max, false);
  }

  lemma {:induction false} LeftFewest(t: Tree, u: Tree, p: nat, max: nat)
    requires max <= TOP && Strip(u) == Strip(t) && EnoughLeft(u, p, max)
    ensures |Spell(LeastLeft(t, p, max))| <= |Spell(u)|
    decreases t, 1
  {
    hide LeastIn, Bare, Inside;
    SameFit(t, u);
    SameBare(t, TOP);
    PairSaves(t, max, false, false);
    InFewest(t, u, if u.grouped then TOP else max, false);
  }

  lemma PriosLow(sym: Sym)
    ensures UnaryPrio(sym) <= TOP && InfixPrioOf(sym) <= TOP
  {
    hide FirstPrefix, FirstInfix;
    PrefixShape(Op(sym), TOP);
    InfixShape(Op(sym), TOP);
  }

  lemma {:induction false} InFewest(t: Tree, u: Tree, max: nat, g: bool)
    requires max <= TOP && Strip(u) == Strip(t) && Inside(u, max)
    ensures |Bare(LeastIn(t, max, g))| <= |Bare(u)|
    decreases t, 0
  {
    hide Enough, EnoughLeft, Least, LeastLeft, Spell;
    match t
    case Leaf(_, _) =>
    case Empty(_) =>
    case Lit(_, inner, _) => if inner.Some? { LeastFewest(inner.value, u.inner.value, TOP); }
    case Unary(sym, arg, _) =>
      PriosLow(sym);
      LeastFewest(arg, u.arg, UnaryPrio(sym));
    case Postfix(_, arg, _) => LeftFewest(arg, u.arg, UNARY_PRIO, max);
    case Binary(sym, left, right, _) =>
      PriosLow(sym);
      LeftFewest(left, u.left, InfixPrioOf(sym), max);
      LeastFewest(right, u.right, InfixPrioOf(sym));
    case Wrap(_, fn, args, _) =>
      LeftFewest(fn, u.fn, CALL_PRIO, max);
      if args.Some? { LeastFewest(args.value, u.args.value, TOP); }
  }

  // Of all ways to write a tree so that it parses back, this one has the
  // fewest parentheses.
  lemma Fewest(t: Tree, u: Tree, max: nat)
    requires Proper(t) && Proper(u) && Strip(u) == Strip(t) && UNARY_PRIO <= max <= TOP
    ensures Expr(Spell(Least(t, max)), max) == (Some(Least(t, max)), []) && Strip(Least(t, max)) == Strip(t)
    ensures Expr(Spell(u), max) == (Some(u), []) ==> |Spell(Least(t, max))| <= |Spell(u)|
  {
    hide Expr, Spell, Enough, Least, Proper;
    LeastEnough(t, max);
    Exactly(Least(t, max), max);
    Exactly(u, max);
    if Enough(u, max) { LeastFewest(t, u, max); }
  }
}
