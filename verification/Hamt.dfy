/** structures/hamt/src/lib.rs: the hash array mapped trie, sixteen or four slots wide. */
module Hamt {
  import opened Trees
  import opened Content
  import opened Store
  import opened Handles
  import opened KeyValues

  // ---- slots

  function Width(k: Kind): nat {
    match k
    case Two3 => 3
    case Wide => 16
    case Narrow => 4
  }

  /** How many depths index into a digest of `n` bytes. */
  function Limit(k: Kind, n: nat): nat {
    if k.Wide? then 2 * n else 4 * n
  }

  /** The byte of the digest that depth `d` looks at. */
  function SlotByte(k: Kind, d: nat): nat {
    if k.Wide? then d / 2 else d / 4
  }

  /** What is taken out of byte `ofs`. In the narrow trie every arm comes down to the two lowest bits, as `&`
      binds looser than `>>` in the source. */
  function SlotBits(k: Kind, byte: bv8, ofs: nat): bv8 {
    if k.Wide? then
      if ofs % 2 == 0 then (byte & 0xF0) >> 4 else byte & 0x0F
    else
      match ofs % 4
      case 0 => byte & (0xC0 >> 6)
      case 1 => byte & (0x30 >> 4)
      case 2 => byte & (0x0C >> 2)
      case _ => byte & 0x03
  }

  /** `select_slot`; `None` is the index out of bounds past the end of the digest. */
  function SelectSlot(k: Kind, hash: Bytes, depth: nat): (r: Option<nat>)
    ensures r.Some? <==> depth < Limit(k, |hash|)
    ensures r.Some? && !k.Two3? ==> r.value < Width(k)
  {
    var ofs := SlotByte(k, depth);
    if ofs < |hash| then Some(SlotBits(k, hash[ofs], ofs) as nat) else Option.None
  }

  lemma ByteParts(b: bv8)
    ensures ((b & 0xF0) >> 4) as nat == b as nat / 16
    ensures (b & 0x0F) as nat == b as nat % 16
    ensures (b & 0x03) as nat == b as nat % 4
  {
  }

  /** Which slot that is, by number: the wide trie takes the same half of a byte twice, the high one of every other
      byte and the low one of the rest; the narrow trie takes the two lowest bits of a byte four times. */
  lemma SlotIs(h: Bytes, d: nat)
    ensures SelectSlot(Wide, h, d) ==
            if d >= 2 * |h| then Option.None
            else Some(if d % 4 < 2 then h[d / 2] as nat / 16 else h[d / 2] as nat % 16)
    ensures SelectSlot(Narrow, h, d) == if d >= 4 * |h| then Option.None else Some(h[d / 4] as nat % 4)
  {
    if d < 2 * |h| {
      ByteParts(h[d / 2]);
      assert d / 2 % 2 == 0 <==> d % 4 < 2;
    }
    if d < 4 * |h| {
      ByteParts(h[d / 4]);
    }
  }

  /** The bits of byte `j` that `select_slot` looks at. */
  function SlotMask(k: Kind, j: nat): bv8 {
    if !k.Wide? then 0x03 else if j % 2 == 0 then 0xF0 else 0x0F
  }

  lemma BitsEqual(k: Kind, x: bv8, y: bv8, j: nat)
    ensures SlotBits(k, x, j) == SlotBits(k, y, j) <==> x & SlotMask(k, j) == y & SlotMask(k, j)
  {
    if k.Wide? {
      assert (x & 0xF0) >> 4 == (y & 0xF0) >> 4 <==> x & 0xF0 == y & 0xF0;
    } else {
      assert SlotBits(k, x, j) == x & 0x03 && SlotBits(k, y, j) == y & 0x03;
    }
  }

  lemma SelectsEqual(k: Kind, a: Bytes, b: Bytes, d: nat)
    requires !k.Two3? && |a| == |b| && d < Limit(k, |a|)
    ensures SlotByte(k, d) < |a|
    ensures var j := SlotByte(k, d);
              SelectSlot(k, a, d) == SelectSlot(k, b, d) <==> SlotBits(k, a[j], j) == SlotBits(k, b[j], j)
  {
    hide SlotBits;
    var j := SlotByte(k, d);
    SameByte(SlotBits(k, a[j], j), SlotBits(k, b[j], j));
  }

  lemma SlotsEqual(k: Kind, a: Bytes, b: Bytes, d: nat)
    requires !k.Two3? && |a| == |b| && d < Limit(k, |a|)
    ensures SlotByte(k, d) < |a|
    ensures SelectSlot(k, a, d) == SelectSlot(k, b, d) <==>
      a[SlotByte(k, d)] & SlotMask(k, SlotByte(k, d)) == b[SlotByte(k, d)] & SlotMask(k, SlotByte(k, d))
  {
    hide SelectSlot, SlotBits, SlotMask;
    var j := SlotByte(k, d);
    SelectsEqual(k, a, b, d);
    BitsEqual(k, a[j], b[j], j);
  }

  /** Two digests meet in every slot exactly when they agree on the bits `select_slot` looks at: one
      nibble of each byte for the wide trie, two bits of it for the narrow one. */
  lemma Inseparable(k: Kind, a: Bytes, b: Bytes)
    requires !k.Two3? && |a| == |b|
    ensures (forall d :: 0 <= d < Limit(k, |a|) ==> SelectSlot(k, a, d) == SelectSlot(k, b, d)) <==> Masked(k, a, b)
  {
    if Masked(k, a, b) {
      MaskedMeet(k, a, b);
    }
    if forall d :: 0 <= d < Limit(k, |a|) ==> SelectSlot(k, a, d) == SelectSlot(k, b, d) {
      MeetingMasked(k, a, b);
    }
  }

  ghost predicate Masked(k: Kind, a: Bytes, b: Bytes)
    requires |a| == |b|
  {
    forall j :: 0 <= j < |a| ==> a[j] & SlotMask(k, j) == b[j] & SlotMask(k, j)
  }

  lemma MaskedMeet(k: Kind, a: Bytes, b: Bytes)
    requires !k.Two3? && |a| == |b| && Masked(k, a, b)
    ensures forall d :: 0 <= d < Limit(k, |a|) ==> SelectSlot(k, a, d) == SelectSlot(k, b, d)
  {
    forall d: nat | d < Limit(k, |a|)
      ensures SelectSlot(k, a, d) == SelectSlot(k, b, d)
    {
      SlotsEqual(k, a, b, d);
    }
  }

  lemma MeetingMasked(k: Kind, a: Bytes, b: Bytes)
    requires !k.Two3? && |a| == |b|
    requires forall d :: 0 <= d < Limit(k, |a|) ==> SelectSlot(k, a, d) == SelectSlot(k, b, d)
    ensures Masked(k, a, b)
  {
    forall j: nat | j < |a|
      ensures a[j] & SlotMask(k, j) == b[j] & SlotMask(k, j)
    {
      var d := if k.Wide? then 2 * j else 4 * j;
      assert SlotByte(k, d) == j && SelectSlot(k, a, d) == SelectSlot(k, b, d);
      SlotsEqual(k, a, b, d);
    }
  }

  /** Distinct digests that no depth separates. */
  lemma Unseparated()
    ensures [0x01] != [0x02 as bv8]
    ensures forall d: nat :: SelectSlot(Wide, [0x01], d) == SelectSlot(Wide, [0x02], d)
    ensures [0x04] != [0x08 as bv8]
    ensures forall d: nat :: SelectSlot(Narrow, [0x04], d) == SelectSlot(Narrow, [0x08], d)
  {
    assert [0x01 as bv8][0] != [0x02 as bv8][0] && [0x04 as bv8][0] != [0x08 as bv8][0];
    assert (0x01 as bv8) & 0xF0 == (0x02 as bv8) & 0xF0 && (0x04 as bv8) & 0x03 == (0x08 as bv8) & 0x03;
  }

  // ---- the canonical trie of a map

  /** Keys hash to digests of the length the environment fixes. */
  ghost predicate Hashed<V(!new), A(!new)>(e: Env<KV<V>, A>, kh: int -> Bytes) {
    && !e.kind.Two3?
    && e.Lawful()
    && forall k :: |kh(k)| == e.digestLen
  }

  function Depths<V(!new), A(!new)>(e: Env<KV<V>, A>): nat {
    Limit(e.kind, e.digestLen)
  }

  function Slot<V(!new), A(!new)>(e: Env<KV<V>, A>, kh: int -> Bytes, k: int, d: nat): nat {
    SelectSlot(e.kind, kh(k), d).Or(0)
  }

  /** The part of `m` that slot `i` of a node at depth `d` has to hold. */
  ghost function Share<V(!new), A(!new)>(e: Env<KV<V>, A>, kh: int -> Bytes, m: map<int, V>, d: nat,
      i: nat): map<int, V> {
    map k | k in m && Slot(e, kh, k, d) == i :: m[k]
  }

  ghost predicate Many<V>(m: map<int, V>) {
    exists a, b :: a in m && b in m && a != b
  }

  /** A slot is empty, a leaf or a node exactly when no key, one key or more share its path. */
  ghost predicate CanonicalSlot<V(!new), A(!new)>(e: Env<KV<V>, A>, kh: int -> Bytes, t: Tree<KV<V>, A>, d: nat,
      m: map<int, V>)
    decreases t, 0
  {
    match t
    case Empty => m == map[]
    case Leaf(l) => m == map[l.key := l.val]
    case Node(a, kids) => Many(m) && Combine(e, kids) == Some(a) && Canonical(e, kh, kids, d + 1, m)
  }

  ghost predicate Canonical<V(!new), A(!new)>(e: Env<KV<V>, A>, kh: int -> Bytes, ts: seq<Tree<KV<V>, A>>, d: nat,
      m: map<int, V>)
    decreases ts, 1
  {
    && |ts| == Width(e.kind)
    && d < Depths(e)
    && forall i :: 0 <= i < |ts| ==> CanonicalSlot(e, kh, ts[i], d, Share(e, kh, m, d, i))
  }

  /** One map has one canonical trie. */
  lemma CanonicalUnique<V(!new), A(!new)>(e: Env<KV<V>, A>, kh: int -> Bytes,
      ts: seq<Tree<KV<V>, A>>, us: seq<Tree<KV<V>, A>>, d: nat, m: map<int, V>)
    requires Canonical(e, kh, ts, d, m) && Canonical(e, kh, us, d, m)
    ensures ts == us
  {
    TrieIs(e, kh, ts, d, m);
    TrieIs(e, kh, us, d, m);
  }

  lemma SlotKind<V(!new), A(!new)>(e: Env<KV<V>, A>, kh: int -> Bytes, t: Tree<KV<V>, A>, d: nat, m: map<int, V>)
    requires CanonicalSlot(e, kh, t, d, m)
    ensures t.Node? <==> Many(m)
    ensures t.Empty? <==> m == map[]
    ensures t.Leaf? ==> m.Keys == {t.leaf.key} && m[t.leaf.key] == t.leaf.val
  {
    if t.Leaf? {
      assert t.leaf.key in m;
    }
  }

  /** Two tries holding the same map, however they came about, have the same root hash. */
  lemma HistoryIndependent<V(!new), A(!new)>(e: Env<KV<V>, A>, kh: int -> Bytes, ts: seq<Tree<KV<V>, A>>,
      us: seq<Tree<KV<V>, A>>, m: map<int, V>)
    requires Canonical(e, kh, ts, 0, m) && Canonical(e, kh, us, 0, m)
    ensures Digest(e, ts) == Digest(e, us)
  {
    CanonicalUnique(e, kh, ts, us, 0, m);
  }

  lemma {:induction false} CanonicalExact<V(!new), A(!new)>(e: Env<KV<V>, A>, kh: int -> Bytes,
      ts: seq<Tree<KV<V>, A>>, d: nat, m: map<int, V>)
    requires Canonical(e, kh, ts, d, m)
    ensures AllExact(e, ts)
    decreases ts
  {
    forall i | 0 <= i < |ts|
      ensures Exact(e, ts[i])
    {
      if ts[i].Node? {
        CanonicalExact(e, kh, ts[i].kids, d + 1, Share(e, kh, m, d, i));
      }
    }
  }

  // ---- changing one key

  lemma SlotBound<V(!new), A(!new)>(e: Env<KV<V>, A>, kh: int -> Bytes, k: int, d: nat)
    requires Hashed(e, kh)
    ensures SelectSlot(e.kind, kh(k), d).Some? <==> d < Depths(e)
    ensures d < Depths(e) ==> Slot(e, kh, k, d) < Width(e.kind)
  {
  }

  lemma PutShare<V(!new), A(!new)>(e: Env<KV<V>, A>, kh: int -> Bytes, m: map<int, V>, d: nat, k: int, v: V, i: nat)
    ensures var was := Share(e, kh, m, d, i);
              Share(e, kh, m[k := v], d, i) == if i == Slot(e, kh, k, d) then was[k := v] else was
  {
  }

  lemma DelShare<V(!new), A(!new)>(e: Env<KV<V>, A>, kh: int -> Bytes, m: map<int, V>, d: nat, k: int, i: nat)
    ensures var was := Share(e, kh, m, d, i);
              Share(e, kh, m - {k}, d, i) == if i == Slot(e, kh, k, d) then was - {k} else was
  {
  }

  lemma PutSlot<V(!new), A(!new)>(e: Env<KV<V>, A>, kh: int -> Bytes, ts: seq<Tree<KV<V>, A>>, d: nat, m: map<int, V>,
      k: int, v: V, t: Tree<KV<V>, A>)
    requires Hashed(e, kh) && Canonical(e, kh, ts, d, m)
    requires Slot(e, kh, k, d) < |ts|
    requires CanonicalSlot(e, kh, t, d, Share(e, kh, m, d, Slot(e, kh, k, d))[k := v])
    ensures Canonical(e, kh, ts[Slot(e, kh, k, d) := t], d, m[k := v])
  {
    var s := Slot(e, kh, k, d);
    var us := ts[s := t];
    forall i | 0 <= i < |us|
      ensures CanonicalSlot(e, kh, us[i], d, Share(e, kh, m[k := v], d, i))
    {
      PutShare(e, kh, m, d, k, v, i);
      assert i != s ==> CanonicalSlot(e, kh, ts[i], d, Share(e, kh, m, d, i));
    }
  }

  lemma DelSlot<V(!new), A(!new)>(e: Env<KV<V>, A>, kh: int -> Bytes, ts: seq<Tree<KV<V>, A>>, d: nat, m: map<int, V>,
      k: int, t: Tree<KV<V>, A>)
    requires Hashed(e, kh) && Canonical(e, kh, ts, d, m)
    requires Slot(e, kh, k, d) < |ts|
    requires CanonicalSlot(e, kh, t, d, Share(e, kh, m, d, Slot(e, kh, k, d)) - {k})
    ensures Canonical(e, kh, ts[Slot(e, kh, k, d) := t], d, m - {k})
  {
    var s := Slot(e, kh, k, d);
    var us := ts[s := t];
    forall i | 0 <= i < |us|
      ensures CanonicalSlot(e, kh, us[i], d, Share(e, kh, m - {k}, d, i))
    {
      DelShare(e, kh, m, d, k, i);
      assert i != s ==> CanonicalSlot(e, kh, ts[i], d, Share(e, kh, m, d, i));
    }
  }

  // ---- insertion

  /** The two keys pick the same slots from depth `d` on. */
  ghost predicate Meet<V(!new), A(!new)>(e: Env<KV<V>, A>, kh: int -> Bytes, a: int, b: int, d: nat) {
    forall j :: d <= j < Depths(e) ==> Slot(e, kh, a, j) == Slot(e, kh, b, j)
  }

  /** Some other key of `m` cannot be told apart from `k`. */
  ghost predicate Clash<V(!new), A(!new)>(e: Env<KV<V>, A>, kh: int -> Bytes, m: map<int, V>, k: int, d: nat) {
    exists a :: a in m && a != k && Meet(e, kh, a, k, d)
  }

  /** Two keys meet everywhere exactly when their digests agree on every bit `select_slot` looks at. */
  lemma MeetMasked<V(!new), A(!new)>(e: Env<KV<V>, A>, kh: int -> Bytes, a: int, b: int)
    requires Hashed(e, kh)
    ensures Meet(e, kh, a, b, 0) <==> Masked(e.kind, kh(a), kh(b))
  {
    Inseparable(e.kind, kh(a), kh(b));
    forall d: nat | d < Depths(e)
      ensures Slot(e, kh, a, d) == Slot(e, kh, b, d) <==> SelectSlot(e.kind, kh(a), d) == SelectSlot(e.kind, kh(b), d)
    {
      SlotBound(e, kh, a, d);
      SlotBound(e, kh, b, d);
    }
  }

  /** A key hash that tells keys apart by bits of its first byte that neither trie looks at. */
  function NearHash(n: nat, k: int): Bytes
    requires n > 0
  {
    [if k == 1 then 0x04 else 0x08] + seq(n - 1, _ => 0)
  }

  /** Two keys with different digests, of any length: inserting 2 next to 1 panics in either trie. */
  lemma ClashingKeys<V(!new), A(!new)>(e: Env<KV<V>, A>, v: V)
    requires !e.kind.Two3? && e.Lawful() && e.digestLen > 0
    ensures var kh := k => NearHash(e.digestLen, k);
              Hashed(e, kh) && kh(1) != kh(2) && Clash(e, kh, map[1 := v], 2, 0)
  {
    var kh := k => NearHash(e.digestLen, k);
    assert kh(1)[0] != kh(2)[0];
    assert (0x04 as bv8) & 0xF0 == (0x08 as bv8) & 0xF0 && (0x04 as bv8) & 0x03 == (0x08 as bv8) & 0x03;
    assert Masked(e.kind, kh(1), kh(2));
    MeetMasked(e, kh, 1, 2);
    assert 1 in map[1 := v];
  }

  /** `Panic` is the index out of bounds in `select_slot`. */
  datatype Insertion<+V> = Old(val: Option<V>) | Panic

  function Slots<V, A>(n: nat): seq<Handle<KV<V>, A>> {
    seq(n, _ => Handle.None)
  }

  ghost function EmptyTrees<V, A>(n: nat): seq<Tree<KV<V>, A>> {
    seq(n, _ => Tree.Empty)
  }

  lemma EmptyCanonical<V(!new), A(!new)>(e: Env<KV<V>, A>, kh: int -> Bytes, s: Blobs, d: nat)
    requires Hashed(e, kh)
    ensures Holds(e, s, Slots(Width(e.kind)), EmptyTrees(Width(e.kind)))
    ensures d < Depths(e) ==> Canonical(e, kh, EmptyTrees(Width(e.kind)), d, map[])
  {
  }

  /** What inserting `k` into the trie `ts` of `m` at depth `d` has to do. */
  ghost predicate InsertDone<V(!new), A(!new)>(e: Env<KV<V>, A>, kh: int -> Bytes, d: nat, m: map<int, V>, k: int, v: V,
      r: Insertion<V>, us: seq<Tree<KV<V>, A>>)
  {
    && (r.Panic? <==> d >= Depths(e) || Clash(e, kh, m, k, d))
    && (r.Old? ==> r.val == Lookup(m, k) && Canonical(e, kh, us, d, m[k := v]))
  }

  /** `sub_insert`. */
  method SubInsert<V(!new), A(!new)>(e: Env<KV<V>, A>, kh: int -> Bytes, store: Store, kids: seq<Handle<KV<V>, A>>,
      d: nat, kv: KV<V>,
      ghost ts: seq<Tree<KV<V>, A>>, ghost m: map<int, V>)
    returns (r: Insertion<V>, kids': seq<Handle<KV<V>, A>>, ghost us: seq<Tree<KV<V>, A>>)
    requires Hashed(e, kh) && store.Valid()
    requires Holds(e, store.blobs, kids, ts)
    requires if d < Depths(e) then Canonical(e, kh, ts, d, m) else m == map[]
    ensures Holds(e, store.blobs, kids', us)
    ensures r.Panic? <==> d >= Depths(e) || Clash(e, kh, m, kv.key, d)
    ensures r.Old? ==> r.val == Lookup(m, kv.key)
    ensures InsertDone(e, kh, d, m, kv.key, kv.val, r, us)
    decreases Depths(e) - d, 1
  {
    SlotBound(e, kh, kv.key, d);
    var slot := SelectSlot(e.kind, kh(kv.key), d);
    if slot.None? {
      return Panic, kids, ts;
    }
    var s := slot.value;
    assert Represents(e, store.blobs, kids[s], ts[s]) && CanonicalSlot(e, kh, ts[s], d, Share(e, kh, m, d, s));
    var c := InnerMut(e, store, kids[s], ts[s]);
    match c
    case None =>
      r, kids', us := Old(Option.None), kids[s := Handle.Leaf(kv)], ts[s := Tree.Leaf(kv)];
      InsertedEmpty(e, kh, ts, d, m, kv);
    case Leaf(l) =>
      if l.key == kv.key {
        r, kids', us := Old(Some(l.val)), kids[s := Handle.Leaf(kv)], ts[s := Tree.Leaf(kv)];
        InsertedSame(e, kh, ts, d, m, kv);
      } else {
        assert ts[s] == Tree.Leaf(l);
        r, kids', us := SplitLeaf(e, kh, store, kids, s, l, d, kv, ts, m);
      }
    case Node(_, _, _) =>
      assert ts[s].Node?;
      r, kids', us := InsertBelow(e, kh, store, kids, s, c, d, kv, ts, m);
  }

  /** The recursive case of `sub_insert`. */
  method InsertBelow<V(!new), A(!new)>(e: Env<KV<V>, A>, kh: int -> Bytes, store: Store, kids: seq<Handle<KV<V>, A>>,
      s: nat, c: Handle<KV<V>, A>,
      d: nat, kv: KV<V>, ghost ts: seq<Tree<KV<V>, A>>, ghost m: map<int, V>)
    returns (r: Insertion<V>, kids': seq<Handle<KV<V>, A>>, ghost us: seq<Tree<KV<V>, A>>)
    requires Hashed(e, kh) && store.Valid()
    requires Holds(e, store.blobs, kids, ts) && Canonical(e, kh, ts, d, m)
    requires s == Slot(e, kh, kv.key, d) && s < |ts| && ts[s].Node?
    requires c.Node? && Represents(e, store.blobs, c, ts[s])
    ensures Holds(e, store.blobs, kids', us)
    ensures InsertDone(e, kh, d, m, kv.key, kv.val, r, us)
    decreases Depths(e) - d, 0
  {
    var ck;
    ghost var cs;
    assert CanonicalSlot(e, kh, ts[s], d, Share(e, kh, m, d, s));
    r, ck, cs := SubInsert(e, kh, store, c.kids, d + 1, kv, ts[s].kids, Share(e, kh, m, d, s));
    var h := DropMut(e, store.blobs, ck, c.ann, cs);
    kids', us := kids[s := h], ts[s := Tree.Node(Combine(e, cs).Or(c.ann), cs)];
    InsertedBelow(e, kh, ts, d, m, kv, c.ann, r, cs);
  }

  lemma InsertedEmpty<V(!new), A(!new)>(e: Env<KV<V>, A>, kh: int -> Bytes, ts: seq<Tree<KV<V>, A>>, d: nat,
      m: map<int, V>, kv: KV<V>)
    requires Hashed(e, kh) && Canonical(e, kh, ts, d, m)
    requires var s := Slot(e, kh, kv.key, d); s < |ts| && ts[s].Empty?
    ensures InsertDone(e, kh, d, m, kv.key, kv.val, Old(Option.None), ts[Slot(e, kh, kv.key, d) := Tree.Leaf(kv)])
  {
    var s := Slot(e, kh, kv.key, d);
    forall a | a in m
      ensures Slot(e, kh, a, d) != s
    {
      assert a !in Share(e, kh, m, d, s);
    }
    PutSlot(e, kh, ts, d, m, kv.key, kv.val, Tree.Leaf(kv));
  }

  lemma InsertedSame<V(!new), A(!new)>(e: Env<KV<V>, A>, kh: int -> Bytes, ts: seq<Tree<KV<V>, A>>, d: nat,
      m: map<int, V>, kv: KV<V>)
    requires Hashed(e, kh) && Canonical(e, kh, ts, d, m)
    requires var s := Slot(e, kh, kv.key, d); s < |ts| && ts[s].Leaf? && ts[s].leaf.key == kv.key
    ensures var s := Slot(e, kh, kv.key, d);
      InsertDone(e, kh, d, m, kv.key, kv.val, Old(Some(ts[s].leaf.val)), ts[s := Tree.Leaf(kv)])
  {
    var s := Slot(e, kh, kv.key, d);
    var share := Share(e, kh, m, d, s);
    assert kv.key in share;
    forall a | a in m && a != kv.key
      ensures Slot(e, kh, a, d) != s
    {
      assert a !in share;
    }
    PutSlot(e, kh, ts, d, m, kv.key, kv.val, Tree.Leaf(kv));
  }

  lemma InsertedBelow<V(!new), A(!new)>(e: Env<KV<V>, A>, kh: int -> Bytes, ts: seq<Tree<KV<V>, A>>, d: nat,
      m: map<int, V>, kv: KV<V>,
      ann: A, r: Insertion<V>, cs: seq<Tree<KV<V>, A>>)
    requires Hashed(e, kh) && Canonical(e, kh, ts, d, m)
    requires var s := Slot(e, kh, kv.key, d);
      s < |ts| && ts[s].Node? && InsertDone(e, kh, d + 1, Share(e, kh, m, d, s), kv.key, kv.val, r, cs)
    ensures InsertDone(e, kh, d, m, kv.key, kv.val, r,
              ts[Slot(e, kh, kv.key, d) := Tree.Node(Combine(e, cs).Or(ann), cs)])
  {
    var s := Slot(e, kh, kv.key, d);
    var share := Share(e, kh, m, d, s);
    assert CanonicalSlot(e, kh, ts[s], d, share);
    ClashBelow(e, kh, m, kv.key, d);
    if r.Old? {
      GrownNode(e, kh, cs, d, share, kv);
      PutSlot(e, kh, ts, d, m, kv.key, kv.val, Tree.Node(Combine(e, cs).Or(ann), cs));
    }
  }

  /** Only keys sharing the slot of `k` can clash with it. */
  lemma ClashBelow<V(!new), A(!new)>(e: Env<KV<V>, A>, kh: int -> Bytes, m: map<int, V>, k: int, d: nat)
    requires d < Depths(e)
    ensures Clash(e, kh, m, k, d) <==> Clash(e, kh, Share(e, kh, m, d, Slot(e, kh, k, d)), k, d + 1)
  {
    var share := Share(e, kh, m, d, Slot(e, kh, k, d));
    if Clash(e, kh, m, k, d) {
      var a :| a in m && a != k && Meet(e, kh, a, k, d);
      assert a in share && Meet(e, kh, a, k, d + 1);
    }
    if Clash(e, kh, share, k, d + 1) {
      var a :| a in share && a != k && Meet(e, kh, a, k, d + 1);
      assert Meet(e, kh, a, k, d);
    }
  }

  lemma GrownNode<V(!new), A(!new)>(e: Env<KV<V>, A>, kh: int -> Bytes, cs: seq<Tree<KV<V>, A>>, d: nat,
      m: map<int, V>, kv: KV<V>)
    requires Canonical(e, kh, cs, d + 1, m[kv.key := kv.val]) && Hashed(e, kh)
    requires exists a :: a in m && (a != kv.key || Many(m))
    ensures Many(m[kv.key := kv.val])
    ensures Combine(e, cs).Some?
    ensures CanonicalSlot(e, kh, Tree.Node(Combine(e, cs).value, cs), d, m[kv.key := kv.val])
  {
    var m' := m[kv.key := kv.val];
    var a :| a in m && (a != kv.key || Many(m));
    if a != kv.key {
      assert a in m' && kv.key in m';
    } else {
      var b, c :| b in m && c in m && b != c;
      assert b in m' && c in m';
    }
    Inhabited(e, kh, cs, d + 1, m', kv.key);
  }

  /** A trie of a map with a key in it has an annotation. */
  lemma Inhabited<V(!new), A(!new)>(e: Env<KV<V>, A>, kh: int -> Bytes, ts: seq<Tree<KV<V>, A>>, d: nat,
      m: map<int, V>, k: int)
    requires Canonical(e, kh, ts, d, m) && Hashed(e, kh) && k in m
    ensures Combine(e, ts).Some?
  {
    var s := Slot(e, kh, k, d);
    SlotBound(e, kh, k, d);
    assert k in Share(e, kh, m, d, s) && CanonicalSlot(e, kh, ts[s], d, Share(e, kh, m, d, s));
    CombineSome(e, ts, s);
  }

  /** Two keys in one slot: a new node takes the new leaf and then the old one. */
  method SplitLeaf<V(!new), A(!new)>(e: Env<KV<V>, A>, kh: int -> Bytes, store: Store, kids: seq<Handle<KV<V>, A>>,
      s: nat, prior: KV<V>, d: nat, kv: KV<V>,
      ghost ts: seq<Tree<KV<V>, A>>, ghost m: map<int, V>)
    returns (r: Insertion<V>, kids': seq<Handle<KV<V>, A>>, ghost us: seq<Tree<KV<V>, A>>)
    requires Hashed(e, kh) && store.Valid()
    requires Holds(e, store.blobs, kids, ts) && Canonical(e, kh, ts, d, m)
    requires s == Slot(e, kh, kv.key, d) && s < |ts| && ts[s] == Tree.Leaf(prior) && prior.key != kv.key
    ensures Holds(e, store.blobs, kids', us)
    ensures r == if Clash(e, kh, m, kv.key, d) then Panic else Old(Option.None)
    ensures InsertDone(e, kh, d, m, kv.key, kv.val, r, us)
    decreases Depths(e) - d, 0
  {
    assert d < Depths(e);
    hide Canonical, CanonicalSlot, Meet, SelectSlot, Represents, Share, Combine;
    EmptyCanonical(e, kh, store.blobs, d + 1);
    var r1, k1, r2, k2;
    ghost var u1, u2;
    r1, k1, u1 := SubInsert(e, kh, store, Slots(Width(e.kind)), d + 1, kv, EmptyTrees(Width(e.kind)), map[]);
    if r1.Panic? {
      SplitClash(e, kh, ts, d, m, kv, prior);
      return Panic, kids, ts;
    }
    r2, k2, u2 := SubInsert(e, kh, store, k1, d + 1, prior, u1, map[kv.key := kv.val]);
    SplitClash(e, kh, ts, d, m, kv, prior);
    if r2.Panic? {
      return Panic, kids, ts;
    }
    SplitMade(e, kh, ts, d, m, kv, prior, r2, u2);
    var h := NewNode(e, store.blobs, k2, u2);
    r, kids', us := Old(Option.None), kids[s := h], ts[s := Tree.Node(Combine(e, u2).value, u2)];
    HoldsUpdate(e, store.blobs, kids, ts, s, h, us[s]);
  }

  lemma SplitMade<V(!new), A(!new)>(e: Env<KV<V>, A>, kh: int -> Bytes, ts: seq<Tree<KV<V>, A>>, d: nat,
      m: map<int, V>, kv: KV<V>, prior: KV<V>,
      r: Insertion<V>, us: seq<Tree<KV<V>, A>>)
    requires Hashed(e, kh) && Canonical(e, kh, ts, d, m)
    requires var s := Slot(e, kh, kv.key, d); s < |ts| && ts[s] == Tree.Leaf(prior) && prior.key != kv.key
    requires InsertDone(e, kh, d + 1, map[kv.key := kv.val], prior.key, prior.val, r, us) && r.Old?
    ensures Combine(e, us).Some?
    ensures InsertDone(e, kh, d, m, kv.key, kv.val, Old(Option.None),
              ts[Slot(e, kh, kv.key, d) := Tree.Node(Combine(e, us).value, us)])
  {
    SplitClash(e, kh, ts, d, m, kv, prior);
    assert kv.key in map[kv.key := kv.val];
    GrownNode(e, kh, us, d, map[kv.key := kv.val], prior);
    PutSlot(e, kh, ts, d, m, kv.key, kv.val, Tree.Node(Combine(e, us).value, us));
  }

  lemma SplitClash<V(!new), A(!new)>(e: Env<KV<V>, A>, kh: int -> Bytes, ts: seq<Tree<KV<V>, A>>, d: nat,
      m: map<int, V>, kv: KV<V>, prior: KV<V>)
    requires Hashed(e, kh) && Canonical(e, kh, ts, d, m)
    requires var s := Slot(e, kh, kv.key, d); s < |ts| && ts[s] == Tree.Leaf(prior) && prior.key != kv.key
    ensures Clash(e, kh, m, kv.key, d) <==> Clash(e, kh, map[kv.key := kv.val], prior.key, d + 1)
    ensures d + 1 >= Depths(e) ==> Clash(e, kh, m, kv.key, d)
    ensures !Clash(e, kh, map[], kv.key, d + 1)
    ensures kv.key !in m
    ensures var share := Share(e, kh, m, d, Slot(e, kh, kv.key, d));
              share[kv.key := kv.val] == map[kv.key := kv.val][prior.key := prior.val]
  {
    var s := Slot(e, kh, kv.key, d);
    var share := Share(e, kh, m, d, s);
    assert CanonicalSlot(e, kh, ts[s], d, share) && prior.key in share && kv.key !in share;
    ClashBelow(e, kh, m, kv.key, d);
    var one := map[kv.key := kv.val];
    assert kv.key in one && (Meet(e, kh, kv.key, prior.key, d + 1) <==> Meet(e, kh, prior.key, kv.key, d + 1));
  }

  // ---- removal

  datatype Removal<+V> = Nothing | Taken(leaf: KV<V>) | Collapse(leaf: KV<V>, reinsert: KV<V>)

  /** Removing `k` from the trie `ts` of `m` at depth `d`. A node below the root that would keep a single leaf
      hands that leaf up; one that is kept still has more than one key. */
  ghost predicate RemoveDone<V(!new), A(!new)>(e: Env<KV<V>, A>, kh: int -> Bytes, d: nat, m: map<int, V>, k: int,
      r: Removal<V>, ts: seq<Tree<KV<V>, A>>, us: seq<Tree<KV<V>, A>>)
  {
    match r
    case Nothing =>
      k !in m && us == ts
    case Taken(l) =>
      && k in m && l == KV(k, m[k])
      && Canonical(e, kh, us, d, m - {k})
      && (d > 0 && Many(m) ==> Many(m - {k}))
    case Collapse(l, kept) =>
      && d > 0
      && k in m && l == KV(k, m[k])
      && m - {k} == map[kept.key := kept.val]
  }

  ghost predicate OnlyLeaf<L, A>(ts: seq<Tree<L, A>>, l: L) {
    exists i :: 0 <= i < |ts| && ts[i] == Tree.Leaf(l) && forall j :: 0 <= j < |ts| && j != i ==> ts[j].Empty?
  }

  /** `remove_singleton`: the one leaf of a node with nothing else in it. */
  method RemoveSingleton<V(!new), A(!new)>(e: Env<KV<V>, A>, ghost s: Blobs, kids: seq<Handle<KV<V>, A>>,
      ghost ts: seq<Tree<KV<V>, A>>)
    returns (r: Option<KV<V>>)
    requires Holds(e, s, kids, ts)
    ensures r.Some? ==> OnlyLeaf(ts, r.value)
    ensures r.None? ==> forall l :: !OnlyLeaf(ts, l)
  {
    var singleton: Option<nat> := Option.None;
    for i := 0 to |kids|
      invariant singleton.Some? ==> singleton.value < i && ts[singleton.value].Leaf?
      invariant forall j :: 0 <= j < i ==> ts[j].Empty? || singleton == Some(j)
    {
      assert Represents(e, s, kids[i], ts[i]);
      if kids[i].Leaf? && singleton.None? {
        singleton := Some(i);
      } else if !kids[i].None? {
        return Option.None;
      }
    }
    if singleton.Some? {
      assert Represents(e, s, kids[singleton.value], ts[singleton.value]);
      r := Some(kids[singleton.value].leaf);
    } else {
      r := Option.None;
    }
  }

  lemma EmptyOrNot<V>(m: map<int, V>)
    ensures m == map[] || exists k :: k in m
  {
    if forall k :: k !in m {
      assert m == map[];
    }
  }

  /** The trie of a map with one key is one leaf; that of a map with more is not. */
  lemma SingleLeaf<V(!new), A(!new)>(e: Env<KV<V>, A>, kh: int -> Bytes, ts: seq<Tree<KV<V>, A>>, d: nat,
      m: map<int, V>)
    requires Hashed(e, kh) && Canonical(e, kh, ts, d, m)
    ensures forall l :: OnlyLeaf(ts, l) <==> m == map[l.key := l.val]
    ensures (forall l :: !OnlyLeaf(ts, l)) ==> m == map[] || Many(m)
  {
    forall l: KV<V>
      ensures OnlyLeaf(ts, l) <==> m == map[l.key := l.val]
    {
      if OnlyLeaf(ts, l) {
        LeafAlone(e, kh, ts, d, m, l);
      }
      if m == map[l.key := l.val] {
        AloneLeaf(e, kh, ts, d, m, l);
      }
    }
    if m != map[] && !Many(m) {
      EmptyOrNot(m);
      var k :| k in m;
      assert forall a :: a in m ==> a == k;
      assert m == map[k := m[k]];
      assert OnlyLeaf(ts, KV(k, m[k]));
    }
  }

  lemma LeafAlone<V(!new), A(!new)>(e: Env<KV<V>, A>, kh: int -> Bytes, ts: seq<Tree<KV<V>, A>>, d: nat,
      m: map<int, V>, l: KV<V>)
    requires Hashed(e, kh) && Canonical(e, kh, ts, d, m) && OnlyLeaf(ts, l)
    ensures m == map[l.key := l.val]
  {
    var i :| 0 <= i < |ts| && ts[i] == Tree.Leaf(l) && forall j :: 0 <= j < |ts| && j != i ==> ts[j].Empty?;
    assert l.key in Share(e, kh, m, d, i);
    forall k | k in m
      ensures k == l.key && m[k] == l.val
    {
      SlotBound(e, kh, k, d);
      var j := Slot(e, kh, k, d);
      assert k in Share(e, kh, m, d, j) && CanonicalSlot(e, kh, ts[j], d, Share(e, kh, m, d, j));
    }
  }

  lemma AloneLeaf<V(!new), A(!new)>(e: Env<KV<V>, A>, kh: int -> Bytes, ts: seq<Tree<KV<V>, A>>, d: nat,
      m: map<int, V>, l: KV<V>)
    requires Hashed(e, kh) && Canonical(e, kh, ts, d, m) && m == map[l.key := l.val]
    ensures OnlyLeaf(ts, l)
  {
    SlotBound(e, kh, l.key, d);
    var i := Slot(e, kh, l.key, d);
    forall j | 0 <= j < |ts|
      ensures if j == i then ts[j] == Tree.Leaf(l) else ts[j].Empty?
    {
      var share := Share(e, kh, m, d, j);
      SlotKind(e, kh, ts[j], d, share);
      if j == i {
        assert l.key in share;
      } else {
        assert share == map[];
      }
    }
    assert ts[i] == Tree.Leaf(l);
  }

  /** `sub_remove`. */
  method SubRemove<V(!new), A(!new)>(e: Env<KV<V>, A>, kh: int -> Bytes, store: Store, kids: seq<Handle<KV<V>, A>>,
      d: nat, k: int,
      ghost ts: seq<Tree<KV<V>, A>>, ghost m: map<int, V>)
    returns (r: Removal<V>, kids': seq<Handle<KV<V>, A>>, ghost us: seq<Tree<KV<V>, A>>)
    requires Hashed(e, kh) && store.Valid()
    requires Holds(e, store.blobs, kids, ts) && Canonical(e, kh, ts, d, m)
    ensures Holds(e, store.blobs, kids', us)
    ensures if r.Nothing? then k !in m else k in m && r.leaf == KV(k, m[k])
    ensures r.Collapse? ==> d > 0 && m - {k} == map[r.reinsert.key := r.reinsert.val]
    ensures RemoveDone(e, kh, d, m, k, r, ts, us)
    decreases Depths(e) - d, 1
  {
    SlotBound(e, kh, k, d);
    var s := SelectSlot(e.kind, kh(k), d).value;
    ghost var share := Share(e, kh, m, d, s);
    assert Represents(e, store.blobs, kids[s], ts[s]) && CanonicalSlot(e, kh, ts[s], d, share);
    var c := InnerMut(e, store, kids[s], ts[s]);
    SlotKind(e, kh, ts[s], d, share);
    assert k in m <==> k in share;
    match c
    case None =>
      r, kids', us := Nothing, kids, ts;
    case Leaf(l) =>
      if l.key != k {
        r, kids', us := Nothing, kids, ts;
      } else {
        assert share - {k} == map[];
        DelSlot(e, kh, ts, d, m, k, Tree.Empty);
        r, kids', us := Hoist(e, kh, store.blobs, kids[s := Handle.None], d, l, ts[s := Tree.Empty], m);
      }
    case Node(_, _, _) =>
      assert ts[s].Node?;
      r, kids', us := RemoveBelow(e, kh, store, kids, s, c, d, k, ts, m);
  }

  /** The end of `sub_remove`: below the root, a lone leaf left over is handed up. */
  method Hoist<V(!new), A(!new)>(e: Env<KV<V>, A>, kh: int -> Bytes, ghost s: Blobs, kids: seq<Handle<KV<V>, A>>,
      d: nat, leaf: KV<V>,
      ghost ts: seq<Tree<KV<V>, A>>, ghost m: map<int, V>)
    returns (r: Removal<V>, kids': seq<Handle<KV<V>, A>>, ghost us: seq<Tree<KV<V>, A>>)
    requires Hashed(e, kh)
    requires leaf.key in m && leaf.val == m[leaf.key]
    requires Holds(e, s, kids, ts) && Canonical(e, kh, ts, d, m - {leaf.key})
    ensures Holds(e, s, kids', us)
    ensures !r.Nothing? && RemoveDone(e, kh, d, m, leaf.key, r, us, us)
  {
    SingleLeaf(e, kh, ts, d, m - {leaf.key});
    r, kids', us := Taken(leaf), kids, ts;
    if d > 0 {
      var kept := RemoveSingleton(e, s, kids, ts);
      if kept.Some? {
        r := Collapse(leaf, kept.value);
      } else if Many(m) {
        var a, b :| a in m && b in m && a != b;
        assert a in m - {leaf.key} || b in m - {leaf.key};
      }
    }
  }

  /** The recursive case of `sub_remove`. */
  method RemoveBelow<V(!new), A(!new)>(e: Env<KV<V>, A>, kh: int -> Bytes, store: Store, kids: seq<Handle<KV<V>, A>>,
      s: nat, c: Handle<KV<V>, A>,
      d: nat, k: int, ghost ts: seq<Tree<KV<V>, A>>, ghost m: map<int, V>)
    returns (r: Removal<V>, kids': seq<Handle<KV<V>, A>>, ghost us: seq<Tree<KV<V>, A>>)
    requires Hashed(e, kh) && store.Valid()
    requires Holds(e, store.blobs, kids, ts) && Canonical(e, kh, ts, d, m)
    requires s == Slot(e, kh, k, d) && s < |ts| && ts[s].Node?
    requires c.Node? && Represents(e, store.blobs, c, ts[s])
    ensures Holds(e, store.blobs, kids', us)
    ensures RemoveDone(e, kh, d, m, k, r, ts, us)
    decreases Depths(e) - d, 0
  {
    ghost var share := Share(e, kh, m, d, s);
    assert CanonicalSlot(e, kh, ts[s], d, share) && (k in m <==> k in share);
    hide Canonical, Represents, Meet;
    var ck;
    ghost var cs;
    r, ck, cs := SubRemove(e, kh, store, c.kids, d + 1, k, ts[s].kids, share);
    match r
    case Collapse(leaf, reinsert) =>
      DelSlot(e, kh, ts, d, m, k, Tree.Leaf(reinsert));
      kids', us := kids[s := Handle.Leaf(reinsert)], ts[s := Tree.Leaf(reinsert)];
      r, kids', us := Hoist(e, kh, store.blobs, kids', d, leaf, us, m);
    case _ =>
      var h := DropMut(e, store.blobs, ck, c.ann, cs);
      kids', us := kids[s := h], ts[s := Tree.Node(Combine(e, cs).Or(c.ann), cs)];
      RemovedBelow(e, kh, ts, d, m, k, c.ann, r, cs);
  }

  lemma RemovedBelow<V(!new), A(!new)>(e: Env<KV<V>, A>, kh: int -> Bytes, ts: seq<Tree<KV<V>, A>>, d: nat,
      m: map<int, V>, k: int,
      ann: A, r: Removal<V>, cs: seq<Tree<KV<V>, A>>)
    requires Hashed(e, kh) && Canonical(e, kh, ts, d, m)
    requires var s := Slot(e, kh, k, d);
               && s < |ts| && ts[s].Node? && ann == ts[s].ann
               && RemoveDone(e, kh, d + 1, Share(e, kh, m, d, s), k, r, ts[s].kids, cs)
    requires !r.Collapse?
    ensures RemoveDone(e, kh, d, m, k, r, ts, ts[Slot(e, kh, k, d) := Tree.Node(Combine(e, cs).Or(ann), cs)])
  {
    var s := Slot(e, kh, k, d);
    var share := Share(e, kh, m, d, s);
    var t := Tree.Node(Combine(e, cs).Or(ann), cs);
    assert CanonicalSlot(e, kh, ts[s], d, share);
    if r.Nothing? {
      assert ts[s := t] == ts;
    } else {
      var a, b :| a in share - {k} && b in share - {k} && a != b;
      assert a in m - {k} && b in m - {k};
      Inhabited(e, kh, cs, d + 1, share - {k}, a);
      DelSlot(e, kh, ts, d, m, k, t);
    }
  }

  // ---- the trie of a map, built from the map alone

  ghost function TrieOf<V(!new), A(!new)>(e: Env<KV<V>, A>, kh: int -> Bytes, m: map<int, V>,
      d: nat): seq<Tree<KV<V>, A>>
    decreases Depths(e) - d, 1
  {
    if d >= Depths(e) then []
    else seq(Width(e.kind), i requires 0 <= i < Width(e.kind) => SlotOf(e, kh, Share(e, kh, m, d, i), d))
  }

  ghost function SlotOf<V(!new), A(!new)>(e: Env<KV<V>, A>, kh: int -> Bytes, m: map<int, V>, d: nat): Tree<KV<V>, A>
    requires d < Depths(e)
    decreases Depths(e) - d, 0
  {
    EmptyOrNot(m);
    if m == map[] then Tree.Empty
    else if Many(m) then NodeOver(e, TrieOf(e, kh, m, d + 1))
    else
      var k :| k in m;
      Tree.Leaf(KV(k, m[k]))
  }

  /** A trie can only be the one its map gives. */
  lemma {:induction false} TrieIs<V(!new), A(!new)>(e: Env<KV<V>, A>, kh: int -> Bytes, ts: seq<Tree<KV<V>, A>>,
      d: nat, m: map<int, V>)
    requires Canonical(e, kh, ts, d, m)
    ensures ts == TrieOf(e, kh, m, d)
    decreases ts
  {
    var us := TrieOf(e, kh, m, d);
    forall i | 0 <= i < |ts|
      ensures ts[i] == us[i]
    {
      var share := Share(e, kh, m, d, i);
      assert CanonicalSlot(e, kh, ts[i], d, share);
      SlotKind(e, kh, ts[i], d, share);
      if ts[i].Node? {
        TrieIs(e, kh, ts[i].kids, d + 1, share);
      }
    }
  }

  /** From depth `d` on every two keys of `m` part somewhere. */
  ghost predicate Separable<V(!new), A(!new)>(e: Env<KV<V>, A>, kh: int -> Bytes, m: map<int, V>, d: nat) {
    forall a, b :: a in m && b in m && a != b ==> !Meet(e, kh, a, b, d)
  }

  /** A map has a trie exactly when no two of its keys meet at every depth. */
  lemma {:induction false} TrieExists<V(!new), A(!new)>(e: Env<KV<V>, A>, kh: int -> Bytes, m: map<int, V>, d: nat)
    requires Hashed(e, kh) && d < Depths(e)
    ensures Canonical(e, kh, TrieOf(e, kh, m, d), d, m) <==> Separable(e, kh, m, d)
    decreases Depths(e) - d
  {
    var ts := TrieOf(e, kh, m, d);
    forall i | 0 <= i < |ts|
      ensures CanonicalSlot(e, kh, ts[i], d, Share(e, kh, m, d, i)) <==> Separable(e, kh, Share(e, kh, m, d, i), d + 1)
    {
      SlotExists(e, kh, Share(e, kh, m, d, i), d);
    }
    SharesSeparable(e, kh, m, d);
  }

  lemma {:induction false} SlotExists<V(!new), A(!new)>(e: Env<KV<V>, A>, kh: int -> Bytes, m: map<int, V>, d: nat)
    requires Hashed(e, kh) && d < Depths(e)
    ensures CanonicalSlot(e, kh, SlotOf(e, kh, m, d), d, m) <==> Separable(e, kh, m, d + 1)
    decreases Depths(e) - d, 0
  {
    EmptyOrNot(m);
    var t := SlotOf(e, kh, m, d);
    if m == map[] {
    } else if Many(m) {
      var a, b :| a in m && b in m && a != b;
      var kids := TrieOf(e, kh, m, d + 1);
      if d + 1 < Depths(e) {
        TrieExists(e, kh, m, d + 1);
        if Separable(e, kh, m, d + 1) {
          Inhabited(e, kh, kids, d + 1, m, a);
        }
      } else {
        assert Meet(e, kh, a, b, d + 1);
      }
    } else {
      var k :| k in m && t == Tree.Leaf(KV(k, m[k]));
      assert forall a :: a in m ==> a == k;
      assert m == map[k := m[k]];
    }
  }

  lemma SharesSeparable<V(!new), A(!new)>(e: Env<KV<V>, A>, kh: int -> Bytes, m: map<int, V>, d: nat)
    requires Hashed(e, kh) && d < Depths(e)
    ensures Separable(e, kh, m, d) <==>
            forall i :: 0 <= i < Width(e.kind) ==> Separable(e, kh, Share(e, kh, m, d, i), d + 1)
  {
    if Separable(e, kh, m, d) {
      forall i: nat, a, b | i < Width(e.kind) && a in Share(e, kh, m, d, i) && b in Share(e, kh, m, d, i) && a != b
        ensures !Meet(e, kh, a, b, d + 1)
      {
        assert !Meet(e, kh, a, b, d);
      }
    }
    if forall i :: 0 <= i < Width(e.kind) ==> Separable(e, kh, Share(e, kh, m, d, i), d + 1) {
      forall a, b | a in m && b in m && a != b
        ensures !Meet(e, kh, a, b, d)
      {
        var i := Slot(e, kh, a, d);
        SlotBound(e, kh, a, d);
        if Meet(e, kh, a, b, d) {
          assert Slot(e, kh, b, d) == i;
          assert a in Share(e, kh, m, d, i) && b in Share(e, kh, m, d, i);
          assert Separable(e, kh, Share(e, kh, m, d, i), d + 1) && Meet(e, kh, a, b, d + 1);
        }
      }
    }
  }
}
