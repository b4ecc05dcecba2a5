// The pattern language of the matcher and its meaning.
//
// `Eval` is the recursive meaning of a pattern: ordered choice, greedy
// repetition and lookahead that consumes nothing, read off the input with no
// machine state.  The stack matcher in Matcher.dfy is proved against it.
module Peg {
  type byte = x: int | 0 <= x < 256

  type uint32 = x: int | 0 <= x < 0x1_0000_0000

  // An unbounded repetition has max == 0xFFFFFFFF.
  datatype Pattern =
    | Noop
    | Endl
    | Str(text: seq<byte>, insensitive: bool)
    | Set(members: CharSet)
    | And(all: seq<Pattern>)
    | Or(any: seq<Pattern>)
    | Not(body: Pattern)
    | Ahead(body: Pattern)
    | Cap(tag: nat, body: Pattern)
    | Rep(min: uint32, max: uint32, body: Pattern)

  // The 256-bit character set: bit ch is bits[ch].
  type CharSet = bits: seq<bool> | |bits| == 256 witness seq(256, _ => false)

  // A capture record: which CAP made it, its span, and how many of the
  // records right behind it were made inside it.
  datatype Capture = Capture(tag: nat, start: nat, end: nat, nested: nat)

  datatype Outcome = Miss | Hit(pos: nat, caps: seq<Capture>)

  datatype Repeated = Repeated(count: nat, pos: nat, caps: seq<Capture>)

  function ToLower(c: byte): byte {
    if 65 <= c <= 90 then c + 32 else c
  }

  predicate SameChar(a: byte, b: byte, insensitive: bool) {
    if insensitive then ToLower(a) == ToLower(b) else a == b
  }

  ghost predicate TextAt(text: seq<byte>, insensitive: bool, input: seq<byte>, pos: nat) {
    && pos + |text| <= |input|
    && forall k :: 0 <= k < |text| ==> SameChar(input[pos + k], text[k], insensitive)
  }

  // Puts captures made earlier in front of those of a later outcome.
  ghost function After(caps: seq<Capture>, o: Outcome): Outcome {
    match o
    case Miss => Miss
    case Hit(pos, rest) => Hit(pos, caps + rest)
  }

  ghost function Eval(p: Pattern, input: seq<byte>, pos: nat): (o: Outcome)
    requires pos <= |input|
    ensures o.Hit? ==> pos <= o.pos <= |input|
    decreases p, 0, 0
  {
    match p
    case Noop => Hit(pos, [])
    case Endl => if pos == |input| then Hit(pos, []) else Miss
    case Str(text, insensitive) =>
      if TextAt(text, insensitive, input, pos) then Hit(pos + |text|, []) else Miss
    case Set(members) =>
      if pos < |input| && members[input[pos]] then Hit(pos + 1, []) else Miss
    case And(all) => EvalAll(all, input, pos)
    case Or(any) => EvalAny(any, input, pos)
    case Not(body) => if Eval(body, input, pos).Hit? then Miss else Hit(pos, [])
    case Ahead(body) => if Eval(body, input, pos).Hit? then Hit(pos, []) else Miss
    case Cap(tag, body) =>
      (match Eval(body, input, pos)
       case Miss => Miss
       case Hit(end, caps) => Hit(end, [Capture(tag, pos, end, |caps|)] + caps))
    case Rep(min, max, body) =>
      var r := EvalRep(body, input, pos, 0, max);
      if r.count < min then Miss else Hit(r.pos, r.caps)
  }

  // Every pattern in turn, each from where the one before it stopped.
  ghost function EvalAll(ps: seq<Pattern>, input: seq<byte>, pos: nat): (o: Outcome)
    requires pos <= |input|
    ensures o.Hit? ==> pos <= o.pos <= |input|
    decreases ps, 0, 0
  {
    if ps == [] then Hit(pos, [])
    else
      match Eval(ps[0], input, pos)
      case Miss => Miss
      case Hit(mid, caps) => After(caps, EvalAll(ps[1..], input, mid))
  }

  // The first pattern that matches.
  ghost function EvalAny(ps: seq<Pattern>, input: seq<byte>, pos: nat): (o: Outcome)
    requires pos <= |input|
    ensures o.Hit? ==> pos <= o.pos <= |input|
    decreases ps, 0, 0
  {
    if ps == [] then Miss
    else
      var first := Eval(ps[0], input, pos);
      if first.Hit? then first else EvalAny(ps[1..], input, pos)
  }

  // As many repetitions as possible.  One that consumes nothing ends the loop
  // and is not counted, but the captures it made stay.
  ghost function EvalRep(p: Pattern, input: seq<byte>, pos: nat, count: nat, max: nat): (r: Repeated)
    requires pos <= |input|
    ensures pos <= r.pos <= |input| && count <= r.count
    decreases p, 1, |input| - pos
  {
    if count >= max then Repeated(count, pos, [])
    else
      match Eval(p, input, pos)
      case Miss => Repeated(count, pos, [])
      case Hit(mid, caps) =>
        if mid == pos then Repeated(count, pos, caps)
        else
          var r := EvalRep(p, input, mid, count + 1, max);
          Repeated(r.count, r.pos, caps + r.caps)
  }

  // ---------------- captures form a forest ----------------

  // `caps` lists, in preorder, a forest of captures inside [lo, hi]: the first
  // record is a root, the `nested` records behind it are its descendants and
  // lie inside its span, and everything after them starts where it ended.
  ghost predicate Forest(caps: seq<Capture>, lo: nat, hi: nat)
    decreases |caps|
  {
    if caps == [] then lo <= hi
    else
      var c := caps[0];
      && lo <= c.start <= c.end <= hi
      && c.nested <= |caps| - 1
      && Forest(caps[1..1 + c.nested], c.start, c.end)
      && Forest(caps[1 + c.nested..], c.end, hi)
  }

  lemma {:induction false} ForestAppend(a: seq<Capture>, b: seq<Capture>, lo: nat, mid: nat, hi: nat)
    requires Forest(a, lo, mid) && Forest(b, mid, hi)
    ensures Forest(a + b, lo, hi)
    decreases |a|
  {
    if a == [] {
      assert a + b == b;
      ForestWiden(b, mid, hi, lo, hi);
    } else {
      var n := a[0].nested;
      ForestBounds(b, mid, hi);
      ForestAppend(a[1 + n..], b, a[0].end, mid, hi);
      SlicesOf(a, b, 1 + n);
    }
  }

  lemma SlicesOf<T>(a: seq<T>, b: seq<T>, n: nat)
    requires 1 <= n <= |a|
    ensures (a + b)[1..n] == a[1..n] && (a + b)[n..] == a[n..] + b
  {
  }

  lemma {:induction false} ForestBounds(caps: seq<Capture>, lo: nat, hi: nat)
    requires Forest(caps, lo, hi)
    ensures lo <= hi
    decreases |caps|
  {
    if caps != [] {
      ForestBounds(caps[1 + caps[0].nested..], caps[0].end, hi);
    }
  }

  lemma {:induction false} ForestWiden(caps: seq<Capture>, lo: nat, hi: nat, lo': nat, hi': nat)
    requires Forest(caps, lo, hi) && lo' <= lo && hi <= hi'
    ensures Forest(caps, lo', hi')
    decreases |caps|
  {
    if caps != [] {
      ForestWiden(caps[1 + caps[0].nested..], caps[0].end, hi, caps[0].end, hi');
    }
  }

  // Whatever matches, its captures are a forest inside the matched span.
  lemma {:induction false} EvalForest(p: Pattern, input: seq<byte>, pos: nat)
    requires pos <= |input|
    ensures var o := Eval(p, input, pos); o.Hit? ==> Forest(o.caps, pos, o.pos)
    decreases p, 0, 0
  {
    match p
    case And(all) => EvalAllForest(all, input, pos);
    case Or(any) => EvalAnyForest(any, input, pos);
    case Cap(tag, body) =>
      EvalForest(body, input, pos);
      var o := Eval(body, input, pos);
      if o.Hit? {
        var caps := [Capture(tag, pos, o.pos, |o.caps|)] + o.caps;
        assert caps[1..1 + |o.caps|] == o.caps;
        assert caps[1 + |o.caps|..] == [];
      }
    case Rep(min, max, body) => EvalRepForest(body, input, pos, 0, max);
    case _ =>
  }

  lemma {:induction false} EvalAllForest(ps: seq<Pattern>, input: seq<byte>, pos: nat)
    requires pos <= |input|
    ensures var o := EvalAll(ps, input, pos); o.Hit? ==> Forest(o.caps, pos, o.pos)
    decreases ps, 0, 0
  {
    if ps != [] {
      EvalForest(ps[0], input, pos);
      var first := Eval(ps[0], input, pos);
      if first.Hit? {
        EvalAllForest(ps[1..], input, first.pos);
        var rest := EvalAll(ps[1..], input, first.pos);
        if rest.Hit? {
          ForestAppend(first.caps, rest.caps, pos, first.pos, rest.pos);
        }
      }
    }
  }

  lemma {:induction false} EvalAnyForest(ps: seq<Pattern>, input: seq<byte>, pos: nat)
    requires pos <= |input|
    ensures var o := EvalAny(ps, input, pos); o.Hit? ==> Forest(o.caps, pos, o.pos)
    decreases ps, 0, 0
  {
    if ps != [] {
      EvalForest(ps[0], input, pos);
      EvalAnyForest(ps[1..], input, pos);
    }
  }

  lemma {:induction false} EvalRepForest(p: Pattern, input: seq<byte>, pos: nat, count: nat, max: nat)
    requires pos <= |input|
    ensures var r := EvalRep(p, input, pos, count, max); Forest(r.caps, pos, r.pos)
    decreases p, 1, |input| - pos
  {
    if count < max {
      EvalForest(p, input, pos);
      var o := Eval(p, input, pos);
      if o.Hit? && o.pos != pos {
        EvalRepForest(p, input, o.pos, count + 1, max);
        var r := EvalRep(p, input, o.pos, count + 1, max);
        ForestAppend(o.caps, r.caps, pos, o.pos, r.pos);
      }
    }
  }

  // ---------------- reading a forest by index ----------------

  // The records made inside record i are i+1 .. i+nested.
  function BlockEnd(caps: seq<Capture>, i: nat): nat
    requires i < |caps|
  {
    i + 1 + caps[i].nested
  }

  // In a forest any two records i < j are either nested, with the span of j
  // inside the span of i, or disjoint, with j starting no earlier than i ends.
  lemma {:induction false} ForestPairs(caps: seq<Capture>, lo: nat, hi: nat, i: nat, j: nat)
    requires Forest(caps, lo, hi)
    requires i < j < |caps|
    ensures lo <= caps[i].start <= caps[i].end <= hi
    ensures lo <= caps[j].start <= caps[j].end <= hi
    ensures BlockEnd(caps, i) <= |caps|
    ensures j < BlockEnd(caps, i) ==>
              && BlockEnd(caps, j) <= BlockEnd(caps, i)
              && caps[i].start <= caps[j].start && caps[j].end <= caps[i].end
    ensures BlockEnd(caps, i) <= j ==> caps[i].end <= caps[j].start
    decreases |caps|
  {
    var n := caps[0].nested;
    var inner, rest := caps[1..1 + n], caps[1 + n..];
    ForestBounds(inner, caps[0].start, caps[0].end);
    ForestBounds(rest, caps[0].end, hi);
    if j < 1 + n {
      assert caps[j] == inner[j - 1];
      ForestSpan(inner, caps[0].start, caps[0].end, j - 1);
      if i > 0 {
        assert caps[i] == inner[i - 1];
        ForestPairs(inner, caps[0].start, caps[0].end, i - 1, j - 1);
      }
    } else {
      assert caps[j] == rest[j - 1 - n];
      ForestSpan(rest, caps[0].end, hi, j - 1 - n);
      if i > n {
        assert caps[i] == rest[i - 1 - n];
        ForestPairs(rest, caps[0].end, hi, i - 1 - n, j - 1 - n);
      } else if i > 0 {
        assert caps[i] == inner[i - 1];
        ForestSpan(inner, caps[0].start, caps[0].end, i - 1);
      }
    }
  }

  lemma {:induction false} ForestSpan(caps: seq<Capture>, lo: nat, hi: nat, i: nat)
    requires Forest(caps, lo, hi) && i < |caps|
    ensures lo <= caps[i].start <= caps[i].end <= hi && BlockEnd(caps, i) <= |caps|
    decreases |caps|
  {
    var n := caps[0].nested;
    ForestBounds(caps[1..1 + n], caps[0].start, caps[0].end);
    ForestBounds(caps[1 + n..], caps[0].end, hi);
    if 0 < i < 1 + n {
      assert caps[i] == caps[1..1 + n][i - 1];
      ForestSpan(caps[1..1 + n], caps[0].start, caps[0].end, i - 1);
    } else if i > 0 {
      assert caps[i] == caps[1 + n..][i - 1 - n];
      ForestSpan(caps[1 + n..], caps[0].end, hi, i - 1 - n);
    }
  }

  // ---------------- lookahead leaves no captures ----------------

  // The tags of the CAPs that are not under a NOT or an AHEAD.
  ghost function VisibleTags(p: Pattern): set<nat>
    decreases p
  {
    match p
    case And(all) => VisibleTagsOf(all)
    case Or(any) => VisibleTagsOf(any)
    case Cap(tag, body) => {tag} + VisibleTags(body)
    case Rep(_, _, body) => VisibleTags(body)
    case _ => {}
  }

  ghost function VisibleTagsOf(ps: seq<Pattern>): set<nat>
    decreases ps
  {
    if ps == [] then {} else VisibleTags(ps[0]) + VisibleTagsOf(ps[1..])
  }

  ghost function TagsOf(caps: seq<Capture>): set<nat> {
    set c | c in caps :: c.tag
  }

  lemma {:induction false} OnlyVisibleCaptures(p: Pattern, input: seq<byte>, pos: nat)
    requires pos <= |input|
    ensures var o := Eval(p, input, pos); o.Hit? ==> TagsOf(o.caps) <= VisibleTags(p)
    decreases p, 0, 0
  {
    match p
    case And(all) => OnlyVisibleAll(all, input, pos);
    case Or(any) => OnlyVisibleAny(any, input, pos);
    case Cap(_, body) => OnlyVisibleCaptures(body, input, pos);
    case Rep(_, max, body) => OnlyVisibleRep(body, input, pos, 0, max);
    case _ =>
  }

  lemma {:induction false} OnlyVisibleAll(ps: seq<Pattern>, input: seq<byte>, pos: nat)
    requires pos <= |input|
    ensures var o := EvalAll(ps, input, pos); o.Hit? ==> TagsOf(o.caps) <= VisibleTagsOf(ps)
    decreases ps, 0, 0
  {
    if ps != [] {
      OnlyVisibleCaptures(ps[0], input, pos);
      var first := Eval(ps[0], input, pos);
      if first.Hit? {
        OnlyVisibleAll(ps[1..], input, first.pos);
      }
    }
  }

  lemma {:induction false} OnlyVisibleAny(ps: seq<Pattern>, input: seq<byte>, pos: nat)
    requires pos <= |input|
    ensures var o := EvalAny(ps, input, pos); o.Hit? ==> TagsOf(o.caps) <= VisibleTagsOf(ps)
    decreases ps, 0, 0
  {
    if ps != [] {
      OnlyVisibleCaptures(ps[0], input, pos);
      OnlyVisibleAny(ps[1..], input, pos);
    }
  }

  lemma {:induction false} OnlyVisibleRep(p: Pattern, input: seq<byte>, pos: nat, count: nat, max: nat)
    requires pos <= |input|
    ensures TagsOf(EvalRep(p, input, pos, count, max).caps) <= VisibleTags(p)
    decreases p, 1, |input| - pos
  {
    if count < max {
      OnlyVisibleCaptures(p, input, pos);
      var o := Eval(p, input, pos);
      if o.Hit? && o.pos != pos {
        OnlyVisibleRep(p, input, o.pos, count + 1, max);
      }
    }
  }

  // ---------------- repetition of a character set ----------------

  // How many characters from `pos` on belong to the set, at most `limit`.
  ghost function Run(members: CharSet, input: seq<byte>, pos: nat, limit: nat): (n: nat)
    requires pos <= |input|
    ensures n <= limit && pos + n <= |input|
    decreases limit
  {
    if limit > 0 && pos < |input| && members[input[pos]]
    then 1 + Run(members, input, pos + 1, limit - 1)
    else 0
  }

  // Run is exactly the longest stretch of members within the limit.
  lemma {:induction false} RunIsLongest(members: CharSet, input: seq<byte>, pos: nat, limit: nat)
    requires pos <= |input|
    ensures var n := Run(members, input, pos, limit);
            && (forall k :: pos <= k < pos + n ==> members[input[k]])
            && (n == limit || pos + n == |input| || !members[input[pos + n]])
    decreases limit
  {
    if limit > 0 && pos < |input| && members[input[pos]] {
      RunIsLongest(members, input, pos + 1, limit - 1);
    }
  }

  // A limit cuts a stretch short and does nothing else.
  lemma {:induction false} RunLimited(members: CharSet, input: seq<byte>, pos: nat, limit: nat, more: nat)
    requires pos <= |input| && limit <= more
    ensures var n := Run(members, input, pos, more);
            Run(members, input, pos, limit) == if n <= limit then n else limit
    decreases limit
  {
    if limit > 0 && pos < |input| && members[input[pos]] {
      RunLimited(members, input, pos + 1, limit - 1, more - 1);
    }
  }

  // The general repetition of a SET is one such stretch, with no captures.
  lemma {:induction false} RepOfSet(members: CharSet, input: seq<byte>, pos: nat, count: nat, max: nat)
    requires pos <= |input| && count <= max
    ensures var n := Run(members, input, pos, max - count);
            EvalRep(Set(members), input, pos, count, max) == Repeated(count + n, pos + n, [])
    decreases max - count
  {
    if count < max && pos < |input| && members[input[pos]] {
      RepOfSet(members, input, pos + 1, count + 1, max);
    }
  }
}
