// The tree's default comparison, and exactly when it orders a set of keys.
module DefaultOrder {
  import opened OrderedSeq
  import opened BTree

  type byte = b: nat | b < 256

  // Everything that is neither a small integer nor a string counts as an object.
  datatype Key = Int(v: int) | Str(s: seq<byte>) | Object(id: nat)

  // memcmp over the common length, then the shorter first.
  function CompareBytes(a: seq<byte>, b: seq<byte>): int {
    if |a| == 0 && |b| == 0 then 0
    else if |a| == 0 then -1
    else if |b| == 0 then 1
    else if a[0] < b[0] then -1
    else if a[0] > b[0] then 1
    else CompareBytes(a[1..], b[1..])
  }

  function DefaultCmp(a: Key, b: Key): int {
    if a.Int? && b.Int? then (if a.v < b.v then -1 else if a.v > b.v then 1 else 0)
    else if a.Str? && b.Str? then CompareBytes(a.s, b.s)
    else if a.Str? && b.Int? then 1
    else if a.Int? && b.Str? then -1
    else 0
  }

  // The comparison is a total order on these keys, up to keys that compare equal.
  ghost predicate Orders(keys: set<Key>) {
    && (forall a :: a in keys ==> DefaultCmp(a, a) == 0)
    && (forall a, b :: a in keys && b in keys ==> (DefaultCmp(a, b) < 0 <==> DefaultCmp(b, a) > 0))
    && (forall a, b, c :: a in keys && b in keys && c in keys && DefaultCmp(a, b) <= 0 && DefaultCmp(b, c) <= 0 ==>
          DefaultCmp(a, c) <= 0)
  }

  lemma {:induction false} BytesFlip(a: seq<byte>, b: seq<byte>)
    ensures CompareBytes(a, b) == -CompareBytes(b, a)
    ensures CompareBytes(a, a) == 0
    decreases |a| + |b|
  {
    if |a| > 0 { BytesFlip(a[1..], if |b| > 0 then b[1..] else b); }
  }

  lemma {:induction false} BytesChain(a: seq<byte>, b: seq<byte>, c: seq<byte>)
    requires CompareBytes(a, b) <= 0 && CompareBytes(b, c) <= 0
    ensures CompareBytes(a, c) <= 0
    decreases |a|
  {
    if |a| > 0 && |b| > 0 && |c| > 0 && a[0] == b[0] == c[0] {
      BytesChain(a[1..], b[1..], c[1..]);
    }
  }

  lemma Flips(a: Key, b: Key)
    ensures DefaultCmp(a, a) == 0 && DefaultCmp(a, b) == -DefaultCmp(b, a)
  {
    if a.Str? { BytesFlip(a.s, a.s); }
    if a.Str? && b.Str? { BytesFlip(a.s, b.s); }
  }

  // It does so for integers and strings; one object among the keys spoils the
  // order unless all of them compare equal.
  lemma DefaultOrders(keys: set<Key>)
    ensures Orders(keys) <==>
            (forall k :: k in keys ==> !k.Object?) || (forall a, b :: a in keys && b in keys ==> DefaultCmp(a, b) == 0)
  {
    forall a, b | a in keys && b in keys
      ensures DefaultCmp(a, a) == 0 && DefaultCmp(a, b) == -DefaultCmp(b, a)
    {
      Flips(a, b);
    }
    if forall k :: k in keys ==> !k.Object? {
      forall a, b, c | a in keys && b in keys && c in keys && DefaultCmp(a, b) <= 0 && DefaultCmp(b, c) <= 0
        ensures DefaultCmp(a, c) <= 0
      {
        if a.Str? && b.Str? && c.Str? { BytesChain(a.s, b.s, c.s); }
      }
    } else if Orders(keys) {
      var o :| o in keys && o.Object?;
      forall a, b | a in keys && b in keys
        ensures DefaultCmp(a, b) == 0
      {
        assert DefaultCmp(a, o) == 0 && DefaultCmp(o, b) == 0;
        assert DefaultCmp(b, o) == 0 && DefaultCmp(o, a) == 0;
      }
    }
  }

  // ---------------- maps with the default comparison ----------------

  // The keys it orders: integers and strings.
  type Plain = k: Key | !k.Object? witness Int(0)

  lemma PlainOrder()
    ensures TotalOrder((a: Plain, b: Plain) => DefaultCmp(a, b))
  {
    forall a: Plain, b: Plain
      ensures DefaultCmp(a, a) == 0 && (DefaultCmp(a, b) < 0 <==> DefaultCmp(b, a) > 0)
    {
      Flips(a, b);
    }
    forall a: Plain, b: Plain, c: Plain | DefaultCmp(a, b) <= 0 && DefaultCmp(b, c) <= 0
      ensures DefaultCmp(a, c) <= 0
    {
      if a.Str? && b.Str? && c.Str? { BytesChain(a.s, b.s, c.s); }
    }
  }

  // The first difference decides; a proper prefix comes first.
  ghost predicate LexLess(a: seq<byte>, b: seq<byte>) {
    exists k :: 0 <= k <= |a| && FirstDiffers(a, b, k)
  }

  ghost predicate FirstDiffers(a: seq<byte>, b: seq<byte>, k: nat)
    requires k <= |a|
  {
    k < |b| && a[..k] == b[..k] && (k == |a| || a[k] < b[k])
  }

  lemma {:induction false} BytesLess(a: seq<byte>, b: seq<byte>)
    ensures CompareBytes(a, b) < 0 <==> LexLess(a, b)
    ensures CompareBytes(a, b) == 0 <==> a == b
    decreases |a|
  {
    if |a| > 0 && |b| > 0 && a[0] == b[0] {
      var a', b' := a[1..], b[1..];
      BytesLess(a', b');
      assert a == [a[0]] + a' && b == [b[0]] + b';
      if LexLess(a', b') {
        var k :| 0 <= k <= |a'| && FirstDiffers(a', b', k);
        assert a[..k + 1] == [a[0]] + a'[..k] && b[..k + 1] == [b[0]] + b'[..k];
        assert FirstDiffers(a, b, k + 1);
      }
      if LexLess(a, b) {
        var k :| 0 <= k <= |a| && FirstDiffers(a, b, k);
        assert k > 0;
        assert a'[..k - 1] == a[..k][1..] && b'[..k - 1] == b[..k][1..];
        assert FirstDiffers(a', b', k - 1);
      }
    } else if |a| > 0 && |b| > 0 {
      assert FirstDiffers(a, b, 0) <==> a[0] < b[0];
      forall k | 0 < k <= |a|
        ensures !FirstDiffers(a, b, k)
      {
        if k < |b| { assert a[..k][0] != b[..k][0]; }
      }
    } else if |a| == 0 && |b| > 0 {
      assert FirstDiffers(a, b, 0);
    }
  }

  // The order itself: integers by value, before all strings, and these byte by
  // byte; only equal keys compare equal.
  lemma PlainIs(a: Plain, b: Plain)
    ensures DefaultCmp(a, b) == 0 <==> a == b
    ensures a.Int? && b.Int? ==> (DefaultCmp(a, b) < 0 <==> a.v < b.v)
    ensures a.Int? && b.Str? ==> DefaultCmp(a, b) < 0 < DefaultCmp(b, a)
    ensures a.Str? && b.Str? ==> (DefaultCmp(a, b) < 0 <==> LexLess(a.s, b.s))
  {
    if a.Str? && b.Str? { BytesLess(a.s, b.s); }
  }

  // What the last operation on exactly this key left.
  ghost function LastWrite<V>(ops: seq<MapOp<Plain, V>>, key: Plain): OrderedSeq.Option<Item<Plain, V>> {
    if ops == [] then OrderedSeq.None
    else
      match ops[|ops| - 1]
      case Put(item) => if item.key == key then OrderedSeq.Some(item) else LastWrite(ops[..|ops| - 1], key)
      case Drop(gone) => if gone == key then OrderedSeq.None else LastWrite(ops[..|ops| - 1], key)
  }

  lemma {:induction false} LastWriteIs<V(!new)>(ops: seq<MapOp<Plain, V>>, key: Plain)
    ensures LastSay((a: Plain, b: Plain) => DefaultCmp(a, b), ops, key) == LastWrite(ops, key)
    decreases |ops|
  {
    if ops != [] {
      var last := ops[|ops| - 1];
      PlainIs(key, if last.Put? then last.item.key else last.key);
      LastWriteIs(ops[..|ops| - 1], key);
    }
  }

  // A new map with the default comparison, after any run of operations on
  // integers and strings, answers every key as the last operation on it says.
  method DefaultMap<V(!new)>(ops: seq<MapOp<Plain, V>>, key: Plain) returns (r: OrderedSeq.Option<Item<Plain, V>>)
    ensures r == LastWrite(ops, key)
  {
    PlainOrder();
    var cmp := (a: Plain, b: Plain) => DefaultCmp(a, b);
    var t := new OrderedMap<Plain, V>(cmp);
    t.Replay(ops);
    RunIsMap(cmp, ops, key);
    LastWriteIs(ops, key);
    r := t.Find(key);
  }
}
