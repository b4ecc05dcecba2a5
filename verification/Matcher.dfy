// The backtracking matcher: one state with a position, a stack of saved
// positions and a flat list of captures, changed in place by one method per
// opcode.  Every method is proved to compute the meaning given in Peg.dfy.
// The state is in end-is-miss mode: running out of input is an ordinary miss.
module Matcher {
  import opened Peg

  datatype Save = Save(pos: nat, capLen: nat)

  // What a finished match function may have done to the state.
  ghost predicate Behaves(s: State, p: Pattern, matched: bool, pos0: nat, caps0: seq<Capture>)
    reads s
    requires pos0 <= |s.input|
  {
    match Eval(p, s.input, pos0)
    case Miss => !matched && s.pos == pos0 && s.caps == caps0
    case Hit(pos, caps) => matched && s.pos == pos && s.caps == caps0 + caps
  }

  class State {
    const input: seq<byte>
    var pos: nat
    var stack: seq<Save>
    var caps: seq<Capture>
    var farthest: nat

    constructor (input: seq<byte>)
      ensures this.input == input && pos == 0 && farthest == 0 && stack == [] && caps == []
    {
      this.input, pos, farthest, stack, caps := input, 0, 0, [], [];
    }

    ghost predicate Valid()
      reads this
    {
      pos <= |input| && farthest <= |input|
    }

    // ---------------- return helpers and the backtrack stack ----------------

    method RetMissed() returns (matched: bool)
      requires Valid()
      modifies `farthest
      ensures Valid() && !matched && farthest == if pos > old(farthest) then pos else old(farthest)
    {
      if pos > farthest { farthest := pos; }
      return false;
    }

    method Push() returns (sp: nat)
      modifies `stack
      ensures sp == |old(stack)| && stack == old(stack) + [Save(pos, |caps|)]
    {
      sp := |stack|;
      stack := stack + [Save(pos, |caps|)];
    }

    method Backtrack(sp: nat)
      requires sp < |stack| && stack[sp].capLen <= |caps|
      modifies `pos, `caps, `stack
      ensures pos == old(stack)[sp].pos && caps == old(caps)[..old(stack)[sp].capLen]
      ensures stack == old(stack)[..sp]
    {
      pos := stack[sp].pos;
      caps := caps[..stack[sp].capLen];
      stack := stack[..sp];
    }

    method Commit(sp: nat)
      requires sp <= |stack|
      modifies `stack
      ensures stack == old(stack)[..sp]
    {
      stack := stack[..sp];
    }

    // The record is filled in only once the inner pattern has matched.
    method CapPush(unset: Capture) returns (index: nat)
      modifies `caps
      ensures index == |old(caps)| && caps == old(caps) + [unset]
    {
      index := |caps|;
      caps := caps + [unset];
    }

    // ---------------- match functions ----------------

    // Runs the match function of an opcode.  A hit moves the position and adds
    // captures as the pattern's meaning says; a miss leaves position and
    // captures as they were; either way the stack is as deep as before.
    method Call(p: Pattern) returns (matched: bool)
      requires Valid()
      modifies this
      ensures Valid() && stack == old(stack) && farthest >= old(farthest)
      ensures Behaves(this, p, matched, old(pos), old(caps))
      decreases p, 1
    {
      match p
      case Noop => matched := true;
      case Endl =>
        if pos >= |input| { matched := true; } else { matched := RetMissed(); }
      case Str(_, _) => matched := MatchStr(p);
      case Set(_) => matched := MatchSet(p);
      case And(_) => matched := MatchAnd(p);
      case Or(_) => matched := MatchOr(p);
      case Not(_) => matched := MatchNot(p);
      case Ahead(_) => matched := MatchAhead(p);
      case Cap(_, _) => matched := MatchCap(p);
      case Rep(_, _, body) =>
        // chosen when the opcode is initialised
        if body.Set? { matched := MatchRepSet(p); } else { matched := MatchRep(p); }
    }

    method MatchStr(p: Pattern) returns (matched: bool)
      requires Valid() && p.Str?
      modifies this
      ensures Valid() && stack == old(stack) && farthest >= old(farthest)
      ensures Behaves(this, p, matched, old(pos), old(caps))
    {
      var text, insensitive := p.text, p.insensitive;
      if pos + |text| > |input| {
        var same := SameUpTo(text, insensitive, |input| - pos);
        if same { return false; }
        matched := RetMissed();
        return;
      }
      // whole words are compared first when the match is exact
      if !insensitive && |text| >= 4 && input[pos..pos + 4] != text[..4] {
        assert !TextAt(text, insensitive, input, pos) by {
          var k :| 0 <= k < 4 && input[pos..pos + 4][k] != text[..4][k];
          assert !SameChar(input[pos + k], text[k], insensitive);
        }
        matched := RetMissed();
        return;
      }
      var same := SameUpTo(text, insensitive, |text|);
      if !same {
        matched := RetMissed();
        return;
      }
      pos := pos + |text|;
      return true;
    }

    method SameUpTo(text: seq<byte>, insensitive: bool, n: nat) returns (same: bool)
      requires n <= |text| && pos + n <= |input|
      ensures same <==> forall k :: 0 <= k < n ==> SameChar(input[pos + k], text[k], insensitive)
    {
      for i := 0 to n
        invariant forall k :: 0 <= k < i ==> SameChar(input[pos + k], text[k], insensitive)
      {
        if !SameChar(input[pos + i], text[i], insensitive) { return false; }
      }
      return true;
    }

    method MatchSet(p: Pattern) returns (matched: bool)
      requires Valid() && p.Set?
      modifies this
      ensures Valid() && stack == old(stack) && farthest >= old(farthest)
      ensures Behaves(this, p, matched, old(pos), old(caps))
    {
      if pos >= |input| { return false; }
      if !p.members[input[pos]] {
        matched := RetMissed();
        return;
      }
      pos := pos + 1;
      return true;
    }

    method MatchAnd(p: Pattern) returns (matched: bool)
      requires Valid() && p.And?
      modifies this
      ensures Valid() && stack == old(stack) && farthest >= old(farthest)
      ensures Behaves(this, p, matched, old(pos), old(caps))
      decreases p, 0
    {
      ghost var pos0, caps0 := pos, caps;
      var sp := Push();
      var i := 0;
      assert p.all[0..] == p.all;
      while i < |p.all|
        invariant i <= |p.all| && Valid() && farthest >= old(farthest)
        invariant stack == old(stack) + [Save(pos0, |caps0|)]
        invariant caps0 <= caps
        invariant EvalAll(p.all, input, pos0) == After(caps[|caps0|..], EvalAll(p.all[i..], input, pos))
      {
        ghost var before := caps;
        var ok := Call(p.all[i]);
        if !ok {
          Backtrack(sp);
          matched := RetMissed();
          return;
        }
        assert p.all[i..][1..] == p.all[i + 1..];
        assert forall more: seq<Capture> :: (before + more)[|caps0|..] == before[|caps0|..] + more;
        AfterTwice(before[|caps0|..], caps[|before|..], EvalAll(p.all[i + 1..], input, pos));
        i := i + 1;
      }
      assert caps0 + caps[|caps0|..] == caps;
      Commit(sp);
      return true;
    }

    method MatchOr(p: Pattern) returns (matched: bool)
      requires Valid() && p.Or?
      modifies this
      ensures Valid() && stack == old(stack) && farthest >= old(farthest)
      ensures Behaves(this, p, matched, old(pos), old(caps))
      decreases p, 0
    {
      var i := 0;
      assert p.any[0..] == p.any;
      while i < |p.any|
        invariant i <= |p.any| && Valid() && farthest >= old(farthest)
        invariant stack == old(stack) && pos == old(pos) && caps == old(caps)
        invariant EvalAny(p.any, input, pos) == EvalAny(p.any[i..], input, pos)
      {
        var ok := Call(p.any[i]);
        if ok { return true; }
        assert p.any[i..][1..] == p.any[i + 1..];
        i := i + 1;
      }
      matched := RetMissed();
    }

    method MatchNot(p: Pattern) returns (matched: bool)
      requires Valid() && p.Not?
      modifies this
      ensures Valid() && stack == old(stack) && farthest >= old(farthest)
      ensures Behaves(this, p, matched, old(pos), old(caps))
      decreases p, 0
    {
      var sp := Push();
      var ok := Call(p.body);
      Backtrack(sp);
      if ok { matched := RetMissed(); } else { matched := true; }
    }

    method MatchAhead(p: Pattern) returns (matched: bool)
      requires Valid() && p.Ahead?
      modifies this
      ensures Valid() && stack == old(stack) && farthest >= old(farthest)
      ensures Behaves(this, p, matched, old(pos), old(caps))
      decreases p, 0
    {
      var sp := Push();
      var ok := Call(p.body);
      Backtrack(sp);
      if ok { matched := true; } else { matched := RetMissed(); }
    }

    method MatchCap(p: Pattern) returns (matched: bool)
      requires Valid() && p.Cap?
      modifies this
      ensures Valid() && stack == old(stack) && farthest >= old(farthest)
      ensures Behaves(this, p, matched, old(pos), old(caps))
      decreases p, 0
    {
      ghost var caps0 := caps;
      var sp := Push();
      var capIndex := CapPush(Capture(p.tag, 0, 0, 0));
      var innerStart := |caps|;
      var start := pos;
      var ok := Call(p.body);
      if !ok {
        Backtrack(sp);
        matched := RetMissed();
        return;
      }
      caps := caps[capIndex := Capture(p.tag, start, pos, |caps| - innerStart)];
      Commit(sp);
      return true;
    }

    method MatchRep(p: Pattern) returns (matched: bool)
      requires Valid() && p.Rep?
      modifies this
      ensures Valid() && stack == old(stack) && farthest >= old(farthest)
      ensures Behaves(this, p, matched, old(pos), old(caps))
      decreases p, 0
    {
      hide Eval, EvalRep, Repeat;
      ghost var pos0, caps0 := pos, caps;
      var sp := Push();
      var count := 0;
      ghost var whole := EvalRep(p.body, input, pos0, 0, p.max);
      RepeatNone(whole);
      RepMeans(p, input, pos0);
      ghost var made: seq<Capture> := [];
      while count < p.max
        invariant Valid() && farthest >= old(farthest)
        invariant stack == old(stack) + [Save(pos0, |caps0|)]
        invariant caps == caps0 + made
        invariant whole == Repeat(made, EvalRep(p.body, input, pos, count, p.max))
        decreases |input| - pos
      {
        var before := pos;
        ghost var had := made;
        ghost var step := Eval(p.body, input, pos);
        RepeatStep(p.body, input, pos, count, p.max, made);
        var ok := Call(p.body);
        if ok {
          made := had + step.caps;
          assert caps0 + made == (caps0 + had) + step.caps;
        }
        if !ok || pos == before {
          assert whole == Repeated(count, pos, made);
          break;
        }
        count := count + 1;
      }
      if count >= p.max { RepeatFull(p.body, input, pos, count, p.max, made); }
      assert whole == Repeated(count, pos, made);
      if count < p.min {
        Backtrack(sp);
        matched := RetMissed();
        return;
      }
      Commit(sp);
      return true;
    }

    // The tight loop for a repetition of a SET: no call per character.
    method MatchRepSet(p: Pattern) returns (matched: bool)
      requires Valid() && p.Rep? && p.body.Set?
      modifies this
      ensures Valid() && stack == old(stack) && farthest >= old(farthest)
      ensures Behaves(this, p, matched, old(pos), old(caps))
    {
      var members := p.body.members;
      var sp := Push();
      var at, count := pos, 0;
      ghost var whole := Run(members, input, pos, p.max);
      while count < p.max && at < |input|
        invariant at == pos + count <= |input| && count <= p.max
        invariant whole == count + Run(members, input, at, p.max - count)
        decreases |input| - at
      {
        if !members[input[at]] { break; }
        at, count := at + 1, count + 1;
      }
      RepOfSet(members, input, pos, 0, p.max);
      if count < p.min {
        Backtrack(sp);
        matched := RetMissed();
        return;
      }
      pos := at;
      Commit(sp);
      return true;
    }
  }

  // Puts captures made earlier in front of those of the remaining repetitions.
  ghost function Repeat(caps: seq<Capture>, r: Repeated): Repeated {
    Repeated(r.count, r.pos, caps + r.caps)
  }

  lemma RepeatNone(r: Repeated)
    ensures Repeat([], r) == r
  {
  }

  lemma RepeatFull(p: Pattern, input: seq<byte>, pos: nat, count: nat, max: nat, made: seq<Capture>)
    requires pos <= |input| && count >= max
    ensures Repeat(made, EvalRep(p, input, pos, count, max)) == Repeated(count, pos, made)
  {
  }

  lemma RepMeans(p: Pattern, input: seq<byte>, pos: nat)
    requires p.Rep? && pos <= |input|
    ensures Eval(p, input, pos) ==
            var r := EvalRep(p.body, input, pos, 0, p.max); if r.count < p.min then Miss else Hit(r.pos, r.caps)
  {
  }

  // One turn of the repetition loop.
  lemma RepeatStep(p: Pattern, input: seq<byte>, pos: nat, count: nat, max: nat, made: seq<Capture>)
    requires pos <= |input| && count < max
    ensures var whole := Repeat(made, EvalRep(p, input, pos, count, max));
            match Eval(p, input, pos)
            case Miss => whole == Repeated(count, pos, made)
            case Hit(mid, caps) =>
              whole == if mid == pos then Repeated(count, pos, made + caps)
                       else Repeat(made + caps, EvalRep(p, input, mid, count + 1, max))
  {
    var o := Eval(p, input, pos);
    if o.Hit? && o.pos != pos {
      var rest := EvalRep(p, input, o.pos, count + 1, max);
      assert made + (o.caps + rest.caps) == (made + o.caps) + rest.caps;
    }
  }

  lemma AfterTwice(a: seq<Capture>, b: seq<Capture>, o: Outcome)
    ensures After(a, After(b, o)) == After(a + b, o)
  {
    if o.Hit? {
      assert a + (b + o.caps) == (a + b) + o.caps;
    }
  }

  // One-shot entry: a fresh state, the end position on a hit, -1 on a miss.
  // The C code casts the position to a 32-bit int.
  method RunOnce(p: Pattern, input: seq<byte>) returns (end: int, caps: seq<Capture>)
    ensures Eval(p, input, 0).Miss? ==> end == -1 && caps == []
    ensures var o := Eval(p, input, 0);
            o.Hit? ==> end == ToInt32(o.pos) && caps == o.caps && Forest(caps, 0, o.pos)
  {
    var s := new State(input);
    var matched := s.Call(p);
    EvalForest(p, input, 0);
    caps := s.caps;
    end := if matched then ToInt32(s.pos) else -1;
  }

  function ToInt32(n: nat): (r: int)
    ensures -0x8000_0000 <= r < 0x8000_0000 && (r - n) % 0x1_0000_0000 == 0
    ensures n < 0x8000_0000 ==> r == n
  {
    var low := n % 0x1_0000_0000;
    if low < 0x8000_0000 then low else low - 0x1_0000_0000
  }
}
