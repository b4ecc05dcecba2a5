// The expression parser: a position that moves over the tokens, and a loop
// that replaces the left operand as long as operators fit.
module Parser {
  import opened Grammar
  import opened Spelling

  class Parser {
    const toks: seq<Token>
    var pos: nat

    ghost predicate Valid()
      reads this
    {
      pos <= |toks|
    }

    // The tokens not consumed yet.
    ghost function Ahead(): seq<Token>
      requires Valid()
      reads this
    {
      toks[pos..]
    }

    constructor (toks: seq<Token>)
      ensures Valid() && Ahead() == toks
    {
      this.toks, pos := toks, 0;
    }

    method TryNext(kind: Kind) returns (tok: Option<Token>)
      requires Valid()
      modifies this
      ensures Valid()
      ensures tok.Some? <==> |old(Ahead())| > 0 && old(Ahead())[0].kind == kind
      ensures tok.Some? ==> tok.value == old(Ahead())[0] && Ahead() == old(Ahead())[1..]
      ensures tok.None? ==> Ahead() == old(Ahead()) && pos == old(pos)
    {
      if pos < |toks| && toks[pos].kind == kind {
        tok := Some(toks[pos]);
        pos := pos + 1;
      } else {
        tok := None;
      }
    }

    method FindPrefix(max: nat) returns (e: Option<Entry>)
      requires Valid()
      ensures e == if |Ahead()| == 0 then None else PrefixEntry(Ahead()[0].kind, max)
    {
      if pos == |toks| { return None; }
      var i := 0;
      while i < |TABLE|
        invariant i <= |TABLE| && FirstPrefix(TABLE, toks[pos].kind, max, i) == PrefixEntry(toks[pos].kind, max)
      {
        if TABLE[i].prefix != NoPrefix && TABLE[i].prio <= max && TABLE[i].kind == toks[pos].kind { return Some(TABLE[i]); }
        i := i + 1;
      }
      return None;
    }

    method FindInfix(max: nat) returns (e: Option<Entry>)
      requires Valid()
      ensures e == if |Ahead()| == 0 then None else InfixEntry(Ahead()[0].kind, max)
    {
      if pos == |toks| { return None; }
      var i := 0;
      while i < |TABLE|
        invariant i <= |TABLE| && FirstInfix(TABLE, toks[pos].kind, max, i) == InfixEntry(toks[pos].kind, max)
      {
        if TABLE[i].infix != NoInfix && TABLE[i].prio < max && TABLE[i].kind == toks[pos].kind { return Some(TABLE[i]); }
        i := i + 1;
      }
      return None;
    }

    // An expression of operators below the limit.
    method ExprBp(max: nat) returns (r: Option<Tree>)
      requires Valid()
      modifies this
      ensures Valid() && (r, Ahead()) == Expr(old(Ahead()), max)
      decreases |toks| - pos, 2
    {
      hide FirstPrefix, FirstInfix, PrefixEntry, InfixEntry;
      ghost var ts := Ahead();
      var pre := FindPrefix(max);
      if pre.None? { return None; }
      PrefixShape(ts[0].kind, max);
      r := Operand(pre.value);
      if r.None? { return; }
      var left := r.value;
      while true
        invariant Valid() && pos > old(pos) && Rest(left, Ahead(), max) == Expr(ts, max)
        decreases |toks| - pos
      {
        ghost var here, was := Ahead(), left;
        var entry := FindInfix(max);
        if entry.None? { break; }
        InfixShape(here[0].kind, max);
        var combined := Combine(left, entry.value);
        if combined.None? { break; }
        left := combined.value;
      }
      r := Some(left);
    }

    method Operand(e: Entry) returns (r: Option<Tree>)
      requires Valid() && |Ahead()| > 0 && EntryShape(e) && e.kind == Ahead()[0].kind && e.prefix != NoPrefix
      modifies this
      ensures Valid() && (r, Ahead()) == Start(e, old(Ahead())) && (r.Some? ==> pos > old(pos))
      decreases |toks| - pos, 1
    {
      match e.prefix
      case AtomFn =>
        var tok := TryNext(e.kind);
        r := Some(Leaf(tok.value, false));
      case UnaryFn => r := SimplePrefix(e);
      case GroupFn => r := WrappingExpression(e);
    }

    method SimplePrefix(e: Entry) returns (r: Option<Tree>)
      requires Valid() && |Ahead()| > 0 && e.prefix == UnaryFn && e.kind == Ahead()[0].kind && e.kind.Op?
      modifies this
      ensures Valid() && (r, Ahead()) == Start(e, old(Ahead())) && (r.Some? ==> pos > old(pos))
      decreases |toks| - pos, 0
    {
      var op := TryNext(e.kind);
      var operand := ExprBp(e.prio);
      r := if operand.None? then None else Some(Unary(op.value.kind.sym, operand.value, false));
    }

    // Parentheses group, with a mark on what stands in them; the other brackets
    // make a literal.
    method WrappingExpression(e: Entry) returns (r: Option<Tree>)
      requires Valid() && |Ahead()| > 0 && e.prefix == GroupFn && e.kind == Ahead()[0].kind && e.kind.Open?
      modifies this
      ensures Valid() && (r, Ahead()) == Start(e, old(Ahead())) && (r.Some? ==> pos > old(pos))
      decreases |toks| - pos, 0
    {
      var opening := TryNext(e.kind);
      var inner := ExprBp(TOP);
      var closing := TryNext(Close(e.kind.b));
      if closing.None? { return None; }
      r := Some(Bracketed(e.kind.b, inner));
    }

    // What an infix entry makes of the left operand and the tokens; none when
    // the rest of it is missing, the tokens read so far staying consumed.
    method Combine(left: Tree, e: Entry) returns (r: Option<Tree>)
      requires Valid() && |Ahead()| > 0 && EntryShape(e) && e.kind == Ahead()[0].kind && e.infix != NoInfix
      modifies this
      ensures Valid() && pos > old(pos)
      ensures forall max :: InfixEntry(old(Ahead())[0].kind, max) == Some(e) ==>
                Rest(left, old(Ahead()), max) == if r.None? then (Some(left), Ahead()) else Rest(r.value, Ahead(), max)
      decreases |toks| - pos, 1
    {
      match e.infix
      case BinaryFn => r := SimpleInfix(left, e);
      case PostfixFn => r := SimplePostfix(left, e);
      case WrapFn => r := WrappingInfix(left, e, e.kind.b == Paren);
    }

    method SimpleInfix(left: Tree, e: Entry) returns (r: Option<Tree>)
      requires Valid() && |Ahead()| > 0 && e.kind == Ahead()[0].kind && e.kind.Op? && e.infix == BinaryFn
      modifies this
      ensures Valid() && pos > old(pos)
      ensures forall max :: InfixEntry(old(Ahead())[0].kind, max) == Some(e) ==>
                Rest(left, old(Ahead()), max) == if r.None? then (Some(left), Ahead()) else Rest(r.value, Ahead(), max)
      decreases |toks| - pos, 0
    {
      var op := TryNext(e.kind);
      var right := ExprBp(e.prio);
      r := if right.None? then None else Some(Binary(op.value.kind.sym, left, right.value, false));
    }

    method SimplePostfix(left: Tree, e: Entry) returns (r: Option<Tree>)
      requires Valid() && |Ahead()| > 0 && e.kind == Ahead()[0].kind && e.kind.Op? && e.infix == PostfixFn
      modifies this
      ensures Valid() && pos > old(pos) && r.Some?
      ensures forall max :: InfixEntry(old(Ahead())[0].kind, max) == Some(e) ==> Rest(left, old(Ahead()), max) == Rest(r.value, Ahead(), max)
    {
      var op := TryNext(e.kind);
      r := Some(Postfix(op.value.kind.sym, left, false));
    }

    // A call may have nothing between its brackets, an access by index may not.
    method WrappingInfix(left: Tree, e: Entry, acceptEmpty: bool) returns (r: Option<Tree>)
      requires Valid() && |Ahead()| > 0 && e.kind == Ahead()[0].kind && e.kind.Open? && e.infix == WrapFn
      requires acceptEmpty == (e.kind.b == Paren)
      modifies this
      ensures Valid() && pos > old(pos)
      ensures forall max :: InfixEntry(old(Ahead())[0].kind, max) == Some(e) ==>
                Rest(left, old(Ahead()), max) == if r.None? then (Some(left), Ahead()) else Rest(r.value, Ahead(), max)
      decreases |toks| - pos, 0
    {
      var op := TryNext(e.kind);
      var index := ExprBp(TOP);
      if !acceptEmpty && index.None? { return None; }
      var closing := TryNext(Close(e.kind.b));
      if closing.None? { return None; }
      r := Some(Wrap(e.kind.b, left, index, false));
    }
  }

  // Parsing a tree written with enough parentheses gives the tree back and
  // consumes exactly its tokens.
  method ParseWritten(t: Tree, written: seq<Token>, rest: seq<Token>, max: nat) returns (u: Option<Tree>, left: nat)
    requires Proper(t) && CALL_PRIO < max <= TOP && Enough(t, max) && written == Spell(t) && Stops(rest, max)
    ensures u == Some(t) && left == |rest|
  {
    var p := new Parser(written + rest);
    ParseSpelled(t, max, rest);
    u := p.ExprBp(max);
    left := |p.toks| - p.pos;
  }

  // A tree written as a whole comes back exactly when it has enough of them.
  method ParseAll(t: Tree, written: seq<Token>, max: nat) returns (same: bool)
    requires Proper(t) && UNARY_PRIO <= max <= TOP && written == Spell(t)
    ensures same <==> Enough(t, max)
  {
    var p := new Parser(written);
    Exactly(t, max);
    var u := p.ExprBp(max);
    same := u == Some(t) && p.pos == |p.toks|;
  }
}
