/** structures/radix/src/lib.rs: the trie as a map from byte strings. */
module RadixMap {
  import opened Trees
  import opened Radix
  import opened RadixShape
  import opened RadixUnique
  import KeyValues
  import Nibbles

  /** `Nibbles::new`: the key, high half of every byte first. */
  function NibblesOf(k: Bytes): (r: Nibs)
    ensures |r| == 2 * |k|
  {
    Nibbles.Window(k, 0, 2 * |k|)
  }

  /** By number: the bytes of a key in order, and of every byte the high half first. */
  lemma NibblesAre(k: Bytes, i: nat)
    requires i < |k|
    ensures k[i] as int == 16 * (NibblesOf(k)[2 * i] as int) + NibblesOf(k)[2 * i + 1] as int
  {
    Nibbles.BytesShown(k, i);
  }

  lemma NibblesInjective(a: Bytes, b: Bytes)
    requires NibblesOf(a) == NibblesOf(b)
    ensures a == b
  {
    hide NibblesOf;
    forall i | 0 <= i < |a|
      ensures a[i] == b[i]
    {
      NibblesAre(a, i);
      NibblesAre(b, i);
      SameByte(a[i], b[i]);
    }
  }

  lemma ByteIs(hi: Nibble, lo: Nibble) returns (b: bv8)
    ensures Nibbles.High(b) == hi && Nibbles.Low(b) == lo
  {
    hide Nibbles.High, Nibbles.Low, Nibbles.WithHigh, Nibbles.WithLow;
    Nibbles.HalvesApart(0, lo);
    Nibbles.HalvesApart(Nibbles.WithLow(0, lo), hi);
    b := Nibbles.WithHigh(Nibbles.WithLow(0, lo), hi);
  }

  /** Every sequence of an even number of nibbles is that of some key. */
  lemma {:induction false} EvenIsKey(q: Nibs) returns (k: Bytes)
    requires |q| % 2 == 0
    ensures NibblesOf(k) == q
  {
    hide Nibbles.High, Nibbles.Low;
    k := [];
    if q != [] {
      var rest := EvenIsKey(q[2..]);
      var b := ByteIs(q[0], q[1]);
      k := [b] + rest;
      forall i | 0 <= i < |q|
        ensures NibblesOf(k)[i] == q[i]
      {
        if i >= 2 {
          assert k[i / 2] == rest[(i - 2) / 2] && NibblesOf(rest)[i - 2] == q[2..][i - 2];
        }
      }
    }
  }

  lemma AfterInsertion<V>(n: Trie<V>, k: Nibs, v: V)
    requires Sized(n)
    ensures Full(n) ==> Full(Inserted(n, k, v))
    ensures Tight(n) ==> Tight(Inserted(n, k, v))
    ensures Clean(n) ==> Clean(Inserted(n, k, v))
  {
    if Full(n) {
      InsertedFull(n, k, v);
    }
    if Tight(n) {
      InsertedTight(n, k, v);
    }
    if Clean(n) {
      InsertedClean(n, k, v);
    }
  }

  lemma AfterRemoval<V>(n: Trie<V>, k: Nibs)
    requires Sized(n)
    ensures Full(n) ==> (Full(Removed(n, k)) <==> !Withers(n, k, false))
    ensures Clean(n) ==> Clean(Removed(n, k))
  {
    if Full(n) {
      RemovedFull(n, k, false);
    }
    if Clean(n) {
      RemovedClean(n, k);
    }
  }

  class RadixMap<V> {
    var root: Trie<V>
    ghost var contents: map<Bytes, V>

    ghost predicate Valid()
      reads this
    {
      && Sized(root)
      && (forall k: Bytes :: Find(root, NibblesOf(k)) == KeyValues.Lookup(contents, k))
      && forall q: Nibs :: Find(root, q).Some? ==> |q| % 2 == 0
    }

    /** Without a key, the trie is in its empty state exactly if all nodes left in it are needed. */
    lemma EmptyState()
      requires Valid()
      ensures Bare(root) ==> contents == map[]
      ensures contents == map[] ==> (Bare(root) <==> Full(root))
    {
      if Bare(root) {
        forall k: Bytes
          ensures k !in contents
        {
          BareHolds(root, NibblesOf(k));
        }
      }
      if Full(root) && !Bare(root) {
        var q := CrowdedHolds(root);
        var k := EvenIsKey(q);
        assert k in contents;
      }
    }

    /** Insertions alone lead to one trie, whatever their order: two tries that were never removed from and hold the
        same are the same. */
    lemma SameTrie(other: RadixMap<V>)
      requires Valid() && other.Valid() && Tight(root) && Tight(other.root)
      requires contents == other.contents
      ensures root == other.root
    {
      forall q: Nibs
        ensures Find(root, q) == Find(other.root, q)
      {
        if |q| % 2 == 0 {
          var k := EvenIsKey(q);
          assert Find(root, NibblesOf(k)) == KeyValues.Lookup(contents, k);
          assert Find(other.root, NibblesOf(k)) == KeyValues.Lookup(contents, k);
        }
      }
      TightUnique(root, other.root);
    }

    /** All keys are `n` bytes long. */
    ghost predicate ValidFor(n: nat)
      reads this
    {
      Valid() && Uniform(root, 2 * n)
    }

    constructor ()
      ensures Valid() && contents == map[] && Full(root) && Tight(root) && Clean(root)
      ensures forall n: nat :: ValidFor(n)
    {
      root, contents := New(), map[];
      new;
      forall n: nat
        ensures Uniform(root, 2 * n)
      {
        NewUniform<V>(2 * n);
      }
    }

    /** `insert`. With keys of one length it cannot panic; in general it does exactly when the key goes on past the
        leaf of another, or stops at an inner node. */
    method Insert(k: Bytes, v: V) returns (r: Outcome<V>)
      requires Valid()
      modifies this
      ensures r.Panic? <==> Blocked(old(root), NibblesOf(k))
      ensures r.Old? ==> Valid() && contents == old(contents)[k := v] && r.val == KeyValues.Lookup(old(contents), k)
      ensures r.Old? ==> root == Inserted(old(root), NibblesOf(k), v)
      ensures r.Old? && old(Full(root)) ==> Full(root)
      ensures r.Old? && old(Tight(root)) ==> Tight(root)
      ensures r.Old? && old(Clean(root)) ==> Clean(root)
      ensures old(ValidFor(|k|)) ==> r.Old? && ValidFor(|k|)
    {
      hide Tight, Full, Clean, Blocked;
      var search := NibblesOf(k);
      ghost var was := root;
      var n;
      r, n := InsertIn(root, search, v);
      if Uniform(root, |search|) {
        UniformFree(root, search);
      }
      root, contents := n, contents[k := v];
      if r.Old? {
        UpdatesMap(was, n, k, Some(v), old(contents), contents);
        AfterInsertion(was, search, v);
      }
    }

    /** `remove`; the root never collapses. It leaves a node behind that is not needed exactly if one withers. */
    method Remove(k: Bytes) returns (r: Outcome<V>)
      requires Valid()
      modifies this
      ensures r.Panic? <==> RemovePanics(old(root), NibblesOf(k), false)
      ensures r.Old? ==> Valid() && contents == old(contents) - {k} && r.val == KeyValues.Lookup(old(contents), k)
      ensures r.Old? ==> root == Removed(old(root), NibblesOf(k))
      ensures r.Old? && old(Full(root)) ==> (Full(root) <==> !Withers(old(root), NibblesOf(k), false))
      ensures r.Old? && old(Clean(root)) ==> Clean(root)
      ensures old(ValidFor(|k|)) ==> r.Old? && ValidFor(|k|)
    {
      hide Blocked, Strands, Uniform, Full, Clean, Withers, Removed;
      var search := NibblesOf(k);
      ghost var was := root;
      var o, n := RemoveIn(root, search, 0);
      AfterRemoval(was, search);
      root, contents := n, contents - {k};
      match o
      case Panicked =>
        r := Panic;
      case None =>
        UpdatesMap(was, n, k, Option.None, old(contents), contents);
        r := Old(Option.None);
      case Taken(v) =>
        UpdatesMap(was, n, k, Option.None, old(contents), contents);
        r := Old(Some(v));
    }

    /** `get`: right exactly when the search is not misled by a longer key; so with keys of one length always. */
    method Get(k: Bytes) returns (r: Option<V>)
      requires Valid()
      ensures r == KeyValues.Lookup(contents, k) <==> !Misled(root, NibblesOf(k), false)
      ensures ValidFor(|k|) ==> r == KeyValues.Lookup(contents, k)
    {
      r := GetIn(root, NibblesOf(k));
      LookupRight(root, NibblesOf(k));
      if ValidFor(|k|) {
        forall q: Nibs | Find(root, q).Some?
          ensures |q| <= 2 * |k|
        {
          UniformKeys(root, 2 * |k|, q);
        }
      }
    }
  }

  lemma UpdatesMap<V>(n: Trie<V>, n': Trie<V>, k: Bytes, v: Option<V>, m: map<Bytes, V>, m': map<Bytes, V>)
    requires Sized(n) && Sized(n') && forall q: Bytes :: Find(n, NibblesOf(q)) == KeyValues.Lookup(m, q)
    requires forall q: Nibs :: Find(n, q).Some? ==> |q| % 2 == 0
    requires Updated(n, n', NibblesOf(k), v) || (n' == n && v == Find(n, NibblesOf(k)))
    requires forall q: Bytes :: KeyValues.Lookup(m', q) == if q == k then v else KeyValues.Lookup(m, q)
    ensures forall q: Bytes :: Find(n', NibblesOf(q)) == KeyValues.Lookup(m', q)
    ensures forall q: Nibs :: Find(n', q).Some? ==> |q| % 2 == 0
  {
    forall q: Nibs
      ensures Find(n', q).Some? ==> |q| % 2 == 0
    {
      assert n' != n ==> Find(n', q) == if q == NibblesOf(k) then v else Find(n, q);
    }
    forall q: Bytes
      ensures Find(n', NibblesOf(q)) == KeyValues.Lookup(m', q)
    {
      if NibblesOf(q) == NibblesOf(k) {
        NibblesInjective(q, k);
      }
    }
  }

  // ---- keys the code does not survive

  lemma NibblesOfBytes()
    ensures NibblesOf([0x00]) == [0, 0] && NibblesOf([0x00, 0x01]) == [0, 0, 0, 1]
    ensures NibblesOf([0x00, 0x10]) == [0, 0, 1, 0] && NibblesOf([0x00, 0x20]) == [0, 0, 2, 0]
    ensures NibblesOf([0x00, 0x00]) == [0, 0, 0, 0] && NibblesOf([0x01, 0x00]) == [0, 1, 0, 0]
  {
    assert Nibbles.High(0x00) == 0 && Nibbles.Low(0x00) == 0;
    assert Nibbles.High(0x01) == 0 && Nibbles.Low(0x01) == 1;
    assert Nibbles.High(0x10) == 1 && Nibbles.Low(0x10) == 0;
    assert Nibbles.High(0x20) == 2 && Nibbles.Low(0x20) == 0;
  }

  /** After an insertion of `00 01` a lookup of `00` hits. */
  lemma FalseHit()
    ensures var n, k := Inserted(New<int>(), NibblesOf([0x00, 0x01]), 7), NibblesOf([0x00]);
            Find(n, k).None? && Misled(n, k, false) && Walk(n, k, []) == Hit(NibblesOf([0x00, 0x01]), 7)
  {
    NibblesOfBytes();
    var n, k: Nibs := Inserted(New<int>(), NibblesOf([0x00, 0x01]), 7), [0, 0];
    assert n == Put(New(), NibblesOf([0x00, 0x01]), [0, 0, 1], Slot.Leaf(7));
    assert k[1..] == [0] && [0] <= Prefix(n, k) == [0, 0, 1];
    WalkStep(n, k, []);
    WithinPrefix([0, 0, 1], [0]);
  }

  /** After an insertion of `00` one of `00 01` panics: it goes on past a leaf. */
  lemma PastLeafPanics()
    ensures Blocked(Inserted(New<int>(), NibblesOf([0x00]), 7), NibblesOf([0x00, 0x01]))
  {
    NibblesOfBytes();
    var n, k: Nibs := Inserted(New<int>(), NibblesOf([0x00]), 7), [0, 0, 0, 1];
    assert n == Put(New(), NibblesOf([0x00]), [0], Slot.Leaf(7));
    assert k[1..] == [0, 0, 1] && Prefix(n, k) == [0] && [0] < [0, 0, 1];
    PastLeaf(n, k);
  }

  /** `00 10` on its own, and what becomes of its slot when its path is cut after one nibble. */
  lemma OneKey(n: Trie<int>)
    requires n == Inserted(New(), NibblesOf([0x00, 0x10]), 7)
    ensures n.handles[1] == Slot.Leaf(7) && n.prefixes[0] == [0, 1, 0]
  {
    NibblesOfBytes();
    assert n == Put(New(), NibblesOf([0x00, 0x10]), [0, 1, 0], Slot.Leaf(7));
  }

  /** After insertions of `00 10` and `00 20` one of `00` panics: it stops at the node the two share. */
  lemma AtNodePanics()
    ensures var n := Inserted(Inserted(New(), NibblesOf([0x00, 0x10]), 7), NibblesOf([0x00, 0x20]), 8);
              Blocked(n, NibblesOf([0x00]))
  {
    NibblesOfBytes();
    var n := Inserted(New(), NibblesOf([0x00, 0x10]), 7);
    var k: Nibs, p: Nibs, rest: Nibs := [0, 0, 2, 0], [0, 1, 0], [0, 2, 0];
    OneKey(n);
    assert k[1..] == rest && Prefix(n, k) == p;
    Nibbles.CommonIs(rest, p, 1);
    var m := Inserted(n, k, 8);
    assert m.handles[1].Node? && m.prefixes[0] == p[..1] == [0];
    var short: Nibs := [0, 0];
    assert short[1..] == [0];
    assert InnerNode(m, short);
  }

  /** After insertions of `00 10` and `00` a removal of `00 10` panics: the shorter key is left alone in its node, in a
      slot that has no prefix to hand up. */
  lemma StrandingPanics()
    ensures var n := Inserted(Inserted(New(), NibblesOf([0x00, 0x10]), 7), NibblesOf([0x00]), 8);
            RemovePanics(n, NibblesOf([0x00, 0x10]), false)
  {
    NibblesOfBytes();
    var n := Inserted(New(), NibblesOf([0x00, 0x10]), 7);
    var k: Nibs, p: Nibs, short: Nibs := [0, 0, 1, 0], [0, 1, 0], [0, 0];
    OneKey(n);
    assert short[1..] == [0] && Prefix(n, short) == p;
    Nibbles.CommonIs([0], p, 1);
    var m := Inserted(n, short, 8);
    var c := m.handles[1].node;
    assert p[1..] == [1, 0] && p[2..] == [0] && [0][1..] == [] && p[..1] == [0];
    assert c == Inserted(Put(New(), [1, 0], [0], Slot.Leaf(7)), [], 8);
    assert k[1..] == p && p[|m.prefixes[0]|..] == [1, 0];
    assert Strands(c, [1, 0], true);
    assert Strands(m, k, false);
  }

  // ---- runs over keys of one length

  datatype Op<+V> = Insert(key: Bytes, val: V) | Get(key: Bytes) | Remove(key: Bytes)

  /** What an operation answers, and what it makes of the map. */
  ghost function Expected<V>(op: Op<V>, m: map<Bytes, V>): (Option<V>, map<Bytes, V>) {
    match op
    case Insert(k, v) => (KeyValues.Lookup(m, k), m[k := v])
    case Get(k) => (KeyValues.Lookup(m, k), m)
    case Remove(k) => (KeyValues.Lookup(m, k), m - {k})
  }

  method Do<V>(t: RadixMap<V>, op: Op<V>, ghost n: nat) returns (r: Option<V>)
    requires t.ValidFor(n) && |op.key| == n
    modifies t
    ensures t.ValidFor(n)
    ensures r == Expected(op, old(t.contents)).0 && t.contents == Expected(op, old(t.contents)).1
  {
    match op
    case Insert(k, v) =>
      var o := t.Insert(k, v);
      r := o.val;
    case Get(k) =>
      r := t.Get(k);
    case Remove(k) =>
      var o := t.Remove(k);
      r := o.val;
  }

  /** The answers of a plain map to `ops`, and the map they lead to. */
  ghost function Answers<V>(ops: seq<Op<V>>): (seq<Option<V>>, map<Bytes, V>) {
    if ops == [] then ([], map[])
    else
      var (outs, m) := Answers(ops[..|ops| - 1]);
      var (out, m') := Expected(ops[|ops| - 1], m);
      (outs + [out], m')
  }

  /** What a script last made of one key, read off the script from its end. */
  ghost function Latest<V>(ops: seq<Op<V>>, k: Bytes): Option<V> {
    if ops == [] then Option.None
    else
      match ops[|ops| - 1]
      case Insert(a, v) => if a == k then Some(v) else Latest(ops[..|ops| - 1], k)
      case Remove(a) => if a == k then Option.None else Latest(ops[..|ops| - 1], k)
      case Get(_) => Latest(ops[..|ops| - 1], k)
  }

  lemma {:induction false} Remembers<V>(ops: seq<Op<V>>, k: Bytes)
    ensures KeyValues.Lookup(Answers(ops).1, k) == Latest(ops, k)
  {
    if ops != [] {
      Remembers(ops[..|ops| - 1], k);
    }
  }

  lemma {:induction false} AnswersLatest<V>(ops: seq<Op<V>>, i: nat)
    requires i < |ops|
    ensures |Answers(ops).0| == |ops| && Answers(ops).0[i] == Latest(ops[..i], ops[i].key)
    decreases |ops|
  {
    var before := ops[..|ops| - 1];
    AnswersEach(before);
    if i < |before| {
      assert before[..i] == ops[..i];
      AnswersLatest(before, i);
    } else {
      Remembers(before, ops[i].key);
    }
  }

  lemma {:induction false} AnswersEach<V>(ops: seq<Op<V>>)
    ensures |Answers(ops).0| == |ops|
  {
    if ops != [] {
      AnswersEach(ops[..|ops| - 1]);
    }
  }

  /** Over keys of one length, every run agrees with a run over a plain map, which gives the value last inserted under a
      key and not removed since; and none panics. */
  method Run<V>(ops: seq<Op<V>>, n: nat) returns (outs: seq<Option<V>>)
    requires forall i :: 0 <= i < |ops| ==> |ops[i].key| == n
    ensures outs == Answers(ops).0
    ensures |outs| == |ops| && forall i :: 0 <= i < |ops| ==> outs[i] == Latest(ops[..i], ops[i].key)
  {
    var t := new RadixMap<V>();
    outs := [];
    for i := 0 to |ops|
      invariant t.ValidFor(n) && (outs, t.contents) == Answers(ops[..i])
    {
      assert ops[..i + 1][..i] == ops[..i];
      var r := Do(t, ops[i], n);
      outs := outs + [r];
    }
    assert ops[..|ops|] == ops;
    AnswersEach(ops);
    forall i | 0 <= i < |ops|
      ensures outs[i] == Latest(ops[..i], ops[i].key)
    {
      AnswersLatest(ops, i);
    }
  }
}
