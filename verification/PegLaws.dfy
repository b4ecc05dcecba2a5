// The laws of the pattern language, each stated without the function that
// picks, chains or counts: ordered choice, sequence, lookahead, repetition.
module PegLaws {
  import opened Peg

  // ---------------- ordered choice ----------------

  // The first alternative that matches decides, whatever stands behind it.
  lemma {:induction false} OrIsFirst(ps: seq<Pattern>, i: nat, input: seq<byte>, pos: nat)
    requires pos <= |input| && i < |ps| && Eval(ps[i], input, pos).Hit?
    requires forall j :: 0 <= j < i ==> Eval(ps[j], input, pos).Miss?
    ensures Eval(Or(ps), input, pos) == Eval(ps[i], input, pos)
    decreases |ps|
  {
    if i > 0 {
      assert Eval(ps[0], input, pos).Miss?;
      OrIsFirst(ps[1..], i - 1, input, pos);
    }
  }

  lemma OrMisses(ps: seq<Pattern>, input: seq<byte>, pos: nat)
    requires pos <= |input|
    ensures Eval(Or(ps), input, pos).Miss? <==> forall i :: 0 <= i < |ps| ==> Eval(ps[i], input, pos).Miss?
    decreases |ps|
  {
    if |ps| > 0 {
      OrMisses(ps[1..], input, pos);
      assert forall i :: 1 <= i < |ps| ==> ps[i] == ps[1..][i - 1];
      assert forall i :: 0 <= i < |ps[1..]| ==> ps[1..][i] == ps[i + 1];
    }
  }

  // ---------------- sequence ----------------

  ghost function Joined(caps: seq<seq<Capture>>): seq<Capture> {
    if |caps| == 0 then [] else caps[0] + Joined(caps[1..])
  }

  // The i-th pattern matches from at[i] to at[i + 1] and captures caps[i].
  ghost predicate Chain(ps: seq<Pattern>, input: seq<byte>, at: seq<nat>, caps: seq<seq<Capture>>) {
    && |at| == |ps| + 1 && |caps| == |ps| && (forall i :: 0 <= i < |at| ==> at[i] <= |input|)
    && forall i :: 0 <= i < |ps| ==> Eval(ps[i], input, at[i]) == Hit(at[i + 1], caps[i])
  }

  lemma {:induction false} AndOfChain(ps: seq<Pattern>, input: seq<byte>, at: seq<nat>, caps: seq<seq<Capture>>)
    requires Chain(ps, input, at, caps)
    ensures Eval(And(ps), input, at[0]) == Hit(at[|ps|], Joined(caps))
    decreases |ps|
  {
    if |ps| > 0 {
      ChainRest(ps, input, at, caps);
      AndOfChain(ps[1..], input, at[1..], caps[1..]);
    }
  }

  lemma ChainRest(ps: seq<Pattern>, input: seq<byte>, at: seq<nat>, caps: seq<seq<Capture>>)
    requires Chain(ps, input, at, caps) && |ps| > 0
    ensures Chain(ps[1..], input, at[1..], caps[1..])
  {
    forall i | 0 <= i < |ps[1..]|
      ensures Eval(ps[1..][i], input, at[1..][i]) == Hit(at[1..][i + 1], caps[1..][i])
    {
      assert Eval(ps[i + 1], input, at[i + 1]) == Hit(at[i + 2], caps[i + 1]);
    }
  }

  // A sequence that matches does so along such a chain.
  lemma {:induction false} ChainOfAnd(ps: seq<Pattern>, input: seq<byte>, pos: nat) returns (at: seq<nat>, caps: seq<seq<Capture>>)
    requires pos <= |input| && Eval(And(ps), input, pos).Hit?
    ensures Chain(ps, input, at, caps) && at[0] == pos
    ensures forall i :: 0 <= i < |ps| ==> at[i] <= at[i + 1]
    decreases |ps|
  {
    if |ps| == 0 {
      at, caps := [pos], [];
    } else {
      assert EvalAll(ps, input, pos).Hit?;
      var o := Eval(ps[0], input, pos);
      assert Eval(And(ps[1..]), input, o.pos) == EvalAll(ps[1..], input, o.pos);
      var a, c := ChainOfAnd(ps[1..], input, o.pos);
      at, caps := [pos] + a, [o.caps] + c;
      forall i | 0 <= i < |ps|
        ensures Eval(ps[i], input, at[i]) == Hit(at[i + 1], caps[i]) && at[i] <= at[i + 1]
      {
        if i > 0 {
          assert at[i] == a[i - 1] && at[i + 1] == a[i] && caps[i] == c[i - 1] && ps[i] == ps[1..][i - 1];
        }
      }
    }
  }

  // ---------------- lookahead ----------------

  lemma LookaheadConsumesNothing(p: Pattern, input: seq<byte>, pos: nat)
    requires pos <= |input|
    ensures Eval(Ahead(p), input, pos).Miss? <==> Eval(p, input, pos).Miss?
    ensures Eval(Not(p), input, pos).Miss? <==> Eval(p, input, pos).Hit?
    ensures Eval(Ahead(p), input, pos).Hit? ==> Eval(Ahead(p), input, pos) == Hit(pos, [])
    ensures Eval(Not(p), input, pos).Hit? ==> Eval(Not(p), input, pos) == Hit(pos, [])
    ensures Eval(Not(Not(p)), input, pos) == Eval(Ahead(p), input, pos)
  {
  }

  // A pattern and its negation: one of them matches and never both.
  lemma ExcludedMiddle(p: Pattern, input: seq<byte>, pos: nat)
    requires pos <= |input|
    ensures Eval(Or([p, Not(p)]), input, pos).Hit?
    ensures Eval(And([Not(p), p]), input, pos).Miss?
    ensures Eval(And([Ahead(p), p]), input, pos) == Eval(p, input, pos)
  {
    Two(p, Not(p), input, pos);
    Two(Not(p), p, input, pos);
    Two(Ahead(p), p, input, pos);
    assert forall o: Outcome :: After([], o) == o;
  }

  lemma Two(p: Pattern, q: Pattern, input: seq<byte>, pos: nat)
    requires pos <= |input|
    ensures var o := Eval(p, input, pos);
            && Eval(Or([p, q]), input, pos) == (if o.Hit? then o else Eval(q, input, pos))
            && Eval(And([p, q]), input, pos) == (if o.Miss? then o else After(o.caps, Eval(q, input, o.pos)))
  {
    hide Eval, EvalAny, EvalAll;
    Unfolded([p, q], input, pos);
    Step(p, [q], input, pos);
    assert [p] + [q] == [p, q];
    One(q, input, pos);
    var o := Eval(p, input, pos);
    if o.Hit? { One(q, input, o.pos); }
  }

  lemma Unfolded(ps: seq<Pattern>, input: seq<byte>, pos: nat)
    requires pos <= |input|
    ensures Eval(Or(ps), input, pos) == EvalAny(ps, input, pos)
    ensures Eval(And(ps), input, pos) == EvalAll(ps, input, pos)
  {
  }

  lemma Step(p: Pattern, rest: seq<Pattern>, input: seq<byte>, pos: nat)
    requires pos <= |input|
    ensures var o := Eval(p, input, pos);
            && EvalAny([p] + rest, input, pos) == (if o.Hit? then o else EvalAny(rest, input, pos))
            && EvalAll([p] + rest, input, pos) == (if o.Miss? then o else After(o.caps, EvalAll(rest, input, o.pos)))
  {
    hide Eval;
    assert ([p] + rest)[1..] == rest && ([p] + rest)[0] == p;
  }

  lemma One(q: Pattern, input: seq<byte>, pos: nat)
    requires pos <= |input|
    ensures EvalAny([q], input, pos) == EvalAll([q], input, pos) == Eval(q, input, pos)
  {
    hide Eval;
    Step(q, [], input, pos);
    assert [q] + [] == [q];
    var o := Eval(q, input, pos);
    assert o.Hit? ==> o.caps + [] == o.caps;
  }

  // ---------------- repetition ----------------

  // Matches of p behind one another, each of which consumes something.
  ghost predicate Repeats(p: Pattern, input: seq<byte>, at: seq<nat>, caps: seq<seq<Capture>>) {
    && |at| == |caps| + 1 && (forall i :: 0 <= i < |at| ==> at[i] <= |input|)
    && forall i :: 0 <= i < |caps| ==> at[i] < at[i + 1] && Eval(p, input, at[i]) == Hit(at[i + 1], caps[i])
  }

  // Nothing more to repeat: the pattern misses or matches without consuming.
  ghost predicate Exhausted(p: Pattern, input: seq<byte>, pos: nat)
    requires pos <= |input|
  {
    var o := Eval(p, input, pos);
    o.Hit? ==> o.pos == pos
  }

  // What a match that consumes nothing captures is kept.
  ghost function Trailing(p: Pattern, input: seq<byte>, pos: nat): seq<Capture>
    requires pos <= |input|
  {
    var o := Eval(p, input, pos);
    if o.Hit? then o.caps else []
  }

  // The repetition counts up to its maximum or until nothing more repeats.
  lemma {:induction false} RepIsMaximal(p: Pattern, input: seq<byte>, at: seq<nat>, caps: seq<seq<Capture>>, min: uint32, max: uint32)
    requires Repeats(p, input, at, caps)
    requires |caps| <= max && (|caps| < max ==> Exhausted(p, input, at[|caps|]))
    ensures var end := at[|caps|];
            Eval(Rep(min, max, p), input, at[0]) ==
            if |caps| < min then Miss
            else Hit(end, Joined(caps) + if |caps| < max then Trailing(p, input, end) else [])
  {
    RepCounts(p, input, at, caps, 0, max);
  }

  lemma {:induction false} RepCounts(p: Pattern, input: seq<byte>, at: seq<nat>, caps: seq<seq<Capture>>, count: nat, max: nat)
    requires Repeats(p, input, at, caps)
    requires count + |caps| <= max && (count + |caps| < max ==> Exhausted(p, input, at[|caps|]))
    ensures var end := at[|caps|];
            EvalRep(p, input, at[0], count, max) ==
            Repeated(count + |caps|, end, Joined(caps) + if count + |caps| < max then Trailing(p, input, end) else [])
    decreases |caps|
  {
    hide Eval;
    var end := at[|caps|];
    var tail := if count + |caps| < max then Trailing(p, input, end) else [];
    if |caps| == 0 {
      RepStops(p, input, at[0], count, max);
    } else {
      RepeatsRest(p, input, at, caps);
      RepCounts(p, input, at[1..], caps[1..], count + 1, max);
      RepGoesOn(p, input, at, caps, count, max);
      assert caps[0] + (Joined(caps[1..]) + tail) == Joined(caps) + tail;
    }
  }

  lemma RepStops(p: Pattern, input: seq<byte>, pos: nat, count: nat, max: nat)
    requires pos <= |input| && count <= max && (count < max ==> Exhausted(p, input, pos))
    ensures EvalRep(p, input, pos, count, max) == Repeated(count, pos, if count < max then Trailing(p, input, pos) else [])
  {
    hide Eval;
  }

  lemma RepGoesOn(p: Pattern, input: seq<byte>, at: seq<nat>, caps: seq<seq<Capture>>, count: nat, max: nat)
    requires Repeats(p, input, at, caps) && |caps| > 0 && count < max
    ensures var r := EvalRep(p, input, at[1], count + 1, max);
            EvalRep(p, input, at[0], count, max) == Repeated(r.count, r.pos, caps[0] + r.caps)
  {
    hide Eval;
    assert Eval(p, input, at[0]) == Hit(at[0 + 1], caps[0]);
  }

  lemma RepeatsRest(p: Pattern, input: seq<byte>, at: seq<nat>, caps: seq<seq<Capture>>)
    requires Repeats(p, input, at, caps) && |caps| > 0
    ensures Repeats(p, input, at[1..], caps[1..])
  {
    hide Eval;
    forall i | 0 <= i < |caps[1..]|
      ensures at[1..][i] < at[1..][i + 1] && Eval(p, input, at[1..][i]) == Hit(at[1..][i + 1], caps[1..][i])
    {
      assert at[1..][i] == at[i + 1] && at[1..][i + 1] == at[i + 2] && caps[1..][i] == caps[i + 1];
    }
  }

  // Such a run of matches always exists, so the law above covers every input.
  lemma {:induction false} RepRuns(p: Pattern, input: seq<byte>, pos: nat, max: nat) returns (at: seq<nat>, caps: seq<seq<Capture>>)
    requires pos <= |input|
    ensures Repeats(p, input, at, caps) && at[0] == pos
    ensures |caps| <= max && (|caps| < max ==> Exhausted(p, input, at[|caps|]))
    decreases |input| - pos
  {
    at, caps := [pos], [];
    var o := Eval(p, input, pos);
    if max > 0 && o.Hit? && o.pos > pos {
      var a, c := RepRuns(p, input, o.pos, max - 1);
      at, caps := [pos] + a, [o.caps] + c;
      forall i | 0 <= i < |caps|
        ensures at[i] < at[i + 1] && Eval(p, input, at[i]) == Hit(at[i + 1], caps[i])
      {
        if i > 0 {
          assert at[i] == a[i - 1] && at[i + 1] == a[i] && caps[i] == c[i - 1];
        }
      }
    }
  }

  // ---------------- captures and single characters ----------------

  lemma CapWraps(tag: nat, p: Pattern, input: seq<byte>, pos: nat)
    requires pos <= |input| && Eval(p, input, pos).Hit?
    ensures var inner, o := Eval(p, input, pos), Eval(Cap(tag, p), input, pos);
            && o.Hit? && o.pos == inner.pos && |o.caps| == |inner.caps| + 1
            && o.caps[0] == Capture(tag, pos, inner.pos, |inner.caps|) && o.caps[1..] == inner.caps
  {
  }

  // The patterns that look at characters.
  lemma Leaves(text: seq<byte>, members: CharSet, input: seq<byte>, pos: nat)
    requires pos <= |input|
    ensures Eval(Str(text, false), input, pos) ==
            if pos + |text| <= |input| && input[pos..pos + |text|] == text then Hit(pos + |text|, []) else Miss
    ensures Eval(Set(members), input, pos) == if pos < |input| && members[input[pos]] then Hit(pos + 1, []) else Miss
    ensures Eval(Endl, input, pos) == if pos == |input| then Hit(pos, []) else Miss
    ensures Eval(Noop, input, pos) == Hit(pos, [])
  {
    if pos + |text| <= |input| {
      var part := input[pos..pos + |text|];
      if TextAt(text, false, input, pos) {
        forall k | 0 <= k < |text|
          ensures part[k] == text[k]
        {
          assert SameChar(input[pos + k], text[k], false);
        }
        assert part == text;
      } else {
        var k :| 0 <= k < |text| && !SameChar(input[pos + k], text[k], false);
        assert part[k] != text[k];
      }
    }
  }

  // Without case, two different characters are the same exactly when they are
  // one letter in its two cases, which are 32 apart.
  lemma SameLetter(a: byte, b: byte)
    ensures SameChar(a, b, false) <==> a == b
    ensures SameChar(a, b, true) <==> a == b || Cases(a as char, b as char) || Cases(b as char, a as char)
  {
  }

  predicate Cases(upper: char, lower: char) {
    'A' <= upper <= 'Z' && 'a' <= lower <= 'z' && lower as int - upper as int == 'a' as int - 'A' as int
  }
}
