/** The trees that stand for a map, whichever structure keeps it. */
module MapTrees {
  import opened Trees
  import opened KeyValues
  import opened Frames
  import Two3
  import Hamt
  import HamtLookup

  /** What a map is kept with: `mk` borrows the maximum key of a 2-3 tree's annotation, `keyHash` hashes the keys of
      a trie. */
  datatype Config<!V(!new), !A(!new)> = Config(env: Env<KV<V>, A>, mk: A -> int, keyHash: int -> Bytes)
  {
    ghost predicate Lawful() {
      if env.kind.Two3? then Two3.MaxKeyed(env, mk) else Hamt.Hashed(env, keyHash) && env.digestLen > 0
    }
  }

  ghost predicate TreeOf<V(!new), A(!new)>(c: Config<V, A>, ts: seq<Tree<KV<V>, A>>, h: nat, m: map<int, V>) {
    if c.env.kind.Two3? then Two3.WellFormed(c.env, ts, h) && Two3.Occupied(ts, h, 0) && m == MapOf(Leaves(ts))
    else Hamt.Canonical(c.env, c.keyHash, ts, 0, m)
  }

  lemma TreeLists<V(!new), A(!new)>(c: Config<V, A>, ts: seq<Tree<KV<V>, A>>, h: nat, m: map<int, V>)
    requires c.Lawful() && TreeOf(c, ts, h, m)
    ensures AllExact(c.env, ts) && Lists(Leaves(ts), m)
    ensures c.env.kind.Two3? ==> Sorted(Leaves(ts))
  {
    if c.env.kind.Two3? {
      DistinctLists(Leaves(ts));
    } else {
      Hamt.CanonicalExact(c.env, c.keyHash, ts, 0, m);
      HamtLookup.CanonicalLists(c.env, c.keyHash, ts, 0, m);
    }
  }

  /** Where a leaf lies in the trie of a map, by number: from the root down, on the path of slots that the hash of its
      key spells, in half-bytes for the wide trie and in the two lowest bits of bytes for the narrow one. */
  lemma LeafPlace<V(!new), A(!new)>(c: Config<V, A>, ts: seq<Tree<KV<V>, A>>, h: nat, m: map<int, V>, path: seq<nat>,
      l: KV<V>)
    requires c.Lawful() && !c.env.kind.Two3? && TreeOf(c, ts, h, m) && Reach(ts, path) == Tree.Leaf(l)
    ensures l.key in m && m[l.key] == l.val
    ensures var b := c.keyHash(l.key);
      && (c.env.kind.Wide? ==> |path| <= 2 * |b|)
      && (c.env.kind.Narrow? ==> |path| <= 4 * |b|)
      && forall j :: 0 <= j < |path| ==>
           && (c.env.kind.Wide? ==> path[j] == if j % 4 < 2 then b[j / 2] as nat / 16 else b[j / 2] as nat % 16)
           && (c.env.kind.Narrow? ==> path[j] == b[j / 4] as nat % 4)
  {
    hide Hamt.SelectSlot, Hamt.Canonical, Reach;
    HamtLookup.LeafOnPath(c.env, c.keyHash, ts, 0, m, path, l);
    forall j | 0 <= j < |path|
      ensures path[j] == Hamt.SelectSlot(c.env.kind, c.keyHash(l.key), j).Or(0)
    {
      assert path[j] == Hamt.Slot(c.env, c.keyHash, l.key, 0 + j);
    }
    var b := c.keyHash(l.key);
    forall j: nat | j < |path|
      ensures c.env.kind.Wide? ==> path[j] == if j % 4 < 2 then b[j / 2] as nat / 16 else b[j / 2] as nat % 16
      ensures c.env.kind.Narrow? ==> path[j] == b[j / 4] as nat % 4
    {
      Hamt.SlotIs(c.keyHash(l.key), j);
    }
  }

  /** The tree of a map without keys has no occupied child, and only that one has none. */
  lemma EmptyTree<V(!new), A(!new)>(c: Config<V, A>, ts: seq<Tree<KV<V>, A>>, h: nat, m: map<int, V>)
    requires c.Lawful() && TreeOf(c, ts, h, m)
    ensures m == map[] <==> forall i :: 0 <= i < |ts| ==> ts[i].Empty?
  {
    TreeLists(c, ts, h, m);
    if m == map[] {
      forall i | 0 <= i < |ts|
        ensures ts[i].Empty?
      {
        NoLeavesNoKid(c, ts, h, m, i);
      }
    }
    if forall i :: 0 <= i < |ts| ==> ts[i].Empty? {
      NoKidsNoLeaves(ts);
      assert m == map[];
    }
  }

  lemma NoLeavesNoKid<V(!new), A(!new)>(c: Config<V, A>, ts: seq<Tree<KV<V>, A>>, h: nat, m: map<int, V>, i: nat)
    requires TreeOf(c, ts, h, m) && m == map[] && Lists(Leaves(ts), m) && i < |ts|
    ensures ts[i].Empty?
  {
    if c.env.kind.Two3? {
      LeavesAt(ts, i);
      Two3.KidHasLeaves(ts[i], h);
      assert false;
    } else {
      var share := Hamt.Share(c.env, c.keyHash, m, 0, i);
      assert share == map[];
      Hamt.SlotKind(c.env, c.keyHash, ts[i], 0, share);
    }
  }

  lemma {:induction false} NoKidsNoLeaves<L, A>(ts: seq<Tree<L, A>>)
    requires forall i :: 0 <= i < |ts| ==> ts[i].Empty?
    ensures Leaves(ts) == []
  {
    if ts != [] {
      NoKidsNoLeaves(ts[1..]);
    }
  }

  // ---- trees that differ in values only

  ghost predicate KeysAlike<V>(ls: seq<KV<V>>, ks: seq<KV<V>>) {
    |ls| == |ks| && forall i :: 0 <= i < |ls| ==> ls[i].key == ks[i].key
  }

  ghost predicate SameKeys<V(!new), A(!new)>(t: Tree<KV<V>, A>, u: Tree<KV<V>, A>)
    decreases t, 0
  {
    match t
    case Empty => u.Empty?
    case Leaf(l) => u.Leaf? && u.leaf.key == l.key
    case Node(_, ts) => u.Node? && AllSameKeys(ts, u.kids)
  }

  ghost predicate AllSameKeys<V(!new), A(!new)>(ts: seq<Tree<KV<V>, A>>, us: seq<Tree<KV<V>, A>>)
    decreases ts, 1
  {
    |ts| == |us| && forall i :: 0 <= i < |ts| ==> SameKeys(ts[i], us[i])
  }

  lemma {:induction false} ShapeCounts<L(!new), A(!new)>(ts: seq<Tree<L, A>>, us: seq<Tree<L, A>>)
    requires SameShape(ts, us)
    ensures |Leaves(ts)| == |Leaves(us)|
    decreases ts, |ts|
  {
    if ts != [] {
      assert SameShapeKid(ts[0], us[0]);
      if ts[0].Node? {
        ShapeCounts(ts[0].kids, us[0].kids);
      }
      var ts', us' := ts[1..], us[1..];
      assert forall i :: 0 <= i < |ts'| ==> ts'[i] == ts[i + 1] && us'[i] == us[i + 1];
      ShapeCounts(ts', us');
    }
  }

  lemma {:induction false} ShapeKeys<V(!new), A(!new)>(ts: seq<Tree<KV<V>, A>>, us: seq<Tree<KV<V>, A>>)
    requires SameShape(ts, us) && KeysAlike(Leaves(ts), Leaves(us))
    ensures AllSameKeys(ts, us)
    decreases ts, |ts|
  {
    if ts != [] {
      var t, u, ts', us' := ts[0], us[0], ts[1..], us[1..];
      assert SameShapeKid(t, u);
      assert SameShape(ts', us') by {
        assert forall i :: 0 <= i < |ts'| ==> ts'[i] == ts[i + 1] && us'[i] == us[i + 1];
      }
      if t.Node? {
        ShapeCounts(t.kids, u.kids);
      }
      AlikeConcat(LeavesOf(t), Leaves(ts'), LeavesOf(u), Leaves(us'));
      ShapeKeys(ts', us');
      if t.Node? {
        ShapeKeys(t.kids, u.kids);
      }
      forall i | 0 <= i < |ts|
        ensures SameKeys(ts[i], us[i])
      {
        if i > 0 {
          assert SameKeys(ts'[i - 1], us'[i - 1]);
        } else if t.Leaf? {
          assert LeavesOf(t)[0].key == LeavesOf(u)[0].key;
        }
      }
    }
  }

  lemma AlikeConcat<V>(a: seq<KV<V>>, b: seq<KV<V>>, c: seq<KV<V>>, d: seq<KV<V>>)
    requires |a| == |c| && KeysAlike(a + b, c + d)
    ensures KeysAlike(a, c) && KeysAlike(b, d)
  {
    assert forall i :: 0 <= i < |a| ==> (a + b)[i] == a[i] && (c + d)[i] == c[i];
    assert forall i :: 0 <= i < |b| ==> (a + b)[|a| + i] == b[i] && (c + d)[|a| + i] == d[i];
  }

  lemma {:induction false} BalancedSameKeys<V(!new), A(!new)>(ts: seq<Tree<KV<V>, A>>, us: seq<Tree<KV<V>, A>>, h: nat)
    requires Two3.Balanced(ts, h) && AllSameKeys(ts, us)
    ensures Two3.Balanced(us, h)
    decreases h
  {
    forall i | 0 <= i < |us|
      ensures Two3.BalancedKid(us[i], h)
    {
      assert Two3.BalancedKid(ts[i], h) && SameKeys(ts[i], us[i]);
      if h > 0 {
        BalancedSameKeys(ts[i].kids, us[i].kids, h - 1);
      }
    }
  }

  ghost predicate ValuesFrom<V(!new)>(ls: seq<KV<V>>, m: map<int, V>) {
    forall l :: l in ls && l.key in m ==> m[l.key] == l.val
  }

  lemma {:induction false} CanonicalSameKeys<V(!new), A(!new)>(e: Env<KV<V>, A>, kh: int -> Bytes,
      ts: seq<Tree<KV<V>, A>>, us: seq<Tree<KV<V>, A>>, d: nat, m: map<int, V>, n: map<int, V>)
    requires Hamt.Canonical(e, kh, ts, d, m) && AllSameKeys(ts, us) && AllExact(e, us)
    requires n.Keys == m.Keys && ValuesFrom(Leaves(us), n)
    ensures Hamt.Canonical(e, kh, us, d, n)
    decreases ts
  {
    forall i | 0 <= i < |us|
      ensures Hamt.CanonicalSlot(e, kh, us[i], d, Hamt.Share(e, kh, n, d, i))
    {
      var ms, ns := Hamt.Share(e, kh, m, d, i), Hamt.Share(e, kh, n, d, i);
      assert Hamt.CanonicalSlot(e, kh, ts[i], d, ms) && SameKeys(ts[i], us[i]) && Exact(e, us[i]);
      assert ns.Keys == ms.Keys;
      LeavesAt(us, i);
      assert forall l :: l in LeavesOf(us[i]) ==> l in Leaves(us);
      SlotSameKeys(e, kh, ts[i], us[i], d, ms, ns);
    }
  }

  lemma {:induction false} SlotSameKeys<V(!new), A(!new)>(e: Env<KV<V>, A>, kh: int -> Bytes,
      t: Tree<KV<V>, A>, u: Tree<KV<V>, A>, d: nat, m: map<int, V>, n: map<int, V>)
    requires Hamt.CanonicalSlot(e, kh, t, d, m) && SameKeys(t, u) && Exact(e, u)
    requires n.Keys == m.Keys && ValuesFrom(LeavesOf(u), n)
    ensures Hamt.CanonicalSlot(e, kh, u, d, n)
    decreases t
  {
    Hamt.SlotKind(e, kh, t, d, m);
    match t
    case Empty =>
      assert n == map[];
    case Leaf(l) =>
      assert u.leaf in LeavesOf(u) && u.leaf.key in n;
      assert n == map[u.leaf.key := u.leaf.val];
    case Node(_, kids) =>
      var a, b :| a in m && b in m && a != b;
      assert a in n && b in n;
      CanonicalSameKeys(e, kh, kids, u.kids, d + 1, m, n);
  }

  /** The tree `ts` with the leaves `ls` in place of its own, annotated anew. */
  ghost function Refilled<L(!new), A(!new)>(e: Env<L, A>, ts: seq<Tree<L, A>>, ls: seq<L>): seq<Tree<L, A>>
    decreases ts, 1
  {
    if ts == [] || |LeavesOf(ts[0])| > |ls| then ts
    else
      var n := |LeavesOf(ts[0])|;
      [RefilledKid(e, ts[0], ls[..n])] + Refilled(e, ts[1..], ls[n..])
  }

  ghost function RefilledKid<L(!new), A(!new)>(e: Env<L, A>, t: Tree<L, A>, ls: seq<L>): Tree<L, A>
    decreases t, 0
  {
    match t
    case Empty => t
    case Leaf(_) => if ls == [] then t else Tree.Leaf(ls[0])
    case Node(_, ts) => NodeOver(e, Refilled(e, ts, ls))
  }

  /** A tree is given by its shape and its leaves. */
  lemma {:induction false} RefilledIs<L(!new), A(!new)>(e: Env<L, A>, ts: seq<Tree<L, A>>, us: seq<Tree<L, A>>)
    requires SameShape(ts, us) && AllExact(e, us)
    ensures us == Refilled(e, ts, Leaves(us))
    decreases ts, 1
  {
    if ts != [] {
      var t, u, ts', us' := ts[0], us[0], ts[1..], us[1..];
      assert SameShapeKid(t, u) && Exact(e, u);
      assert SameShape(ts', us') && AllExact(e, us') by {
        assert forall i :: 0 <= i < |ts'| ==> ts'[i] == ts[i + 1] && us'[i] == us[i + 1];
      }
      if t.Node? {
        ShapeCounts(t.kids, u.kids);
        RefilledIs(e, t.kids, u.kids);
      }
      RefilledIs(e, ts', us');
      hide SameShape, AllExact;
      var ls, n := Leaves(us), |LeavesOf(t)|;
      assert n == |LeavesOf(u)| && ls == LeavesOf(u) + Leaves(us');
      assert ls[..n] == LeavesOf(u) && ls[n..] == Leaves(us');
      assert us == [u] + us';
    }
  }

  // ---- the tree an operation leads to

  ghost function Started<V(!new), A(!new)>(c: Config<V, A>): seq<Tree<KV<V>, A>> {
    if c.env.kind.Two3? then [] else Hamt.TrieOf(c.env, c.keyHash, map[], 0)
  }

  ghost function Inserted<V(!new), A(!new)>(c: Config<V, A>, ts: seq<Tree<KV<V>, A>>, m: map<int, V>, k: int,
      v: V): seq<Tree<KV<V>, A>> {
    if c.env.kind.Two3? then Two3.InsertT(c.env, c.mk, ts, KV(k, v), 0).0
    else Hamt.TrieOf(c.env, c.keyHash, m[k := v], 0)
  }

  ghost function Removed<V(!new), A(!new)>(c: Config<V, A>, ts: seq<Tree<KV<V>, A>>, m: map<int, V>,
      k: int): seq<Tree<KV<V>, A>> {
    if c.env.kind.Two3? then Two3.RemoveT(c.env, c.mk, ts, k, 0).0
    else Hamt.TrieOf(c.env, c.keyHash, m - {k}, 0)
  }

  /** Writing the values of `ls`, the leaves of the map `n`, to the tree `ts`. */
  ghost function Revised<V(!new), A(!new)>(c: Config<V, A>, ts: seq<Tree<KV<V>, A>>, ls: seq<KV<V>>,
      n: map<int, V>): seq<Tree<KV<V>, A>> {
    if c.env.kind.Two3? then Refilled(c.env, ts, ls) else Hamt.TrieOf(c.env, c.keyHash, n, 0)
  }

  /** The leaves `ls` with `v` for the value at `k`. */
  ghost function WithValue<V>(ls: seq<KV<V>>, k: int, v: V): seq<KV<V>> {
    seq(|ls|, i requires 0 <= i < |ls| => if ls[i].key == k then KV(k, v) else ls[i])
  }

  ghost function Assigned<V(!new), A(!new)>(c: Config<V, A>, ts: seq<Tree<KV<V>, A>>, m: map<int, V>, k: int,
      v: V): seq<Tree<KV<V>, A>> {
    Revised(c, ts, WithValue(Leaves(ts), k, v), m[k := v])
  }

  // ---- writing to the values of a map

  /** `m` after its leaves `ls` were rewritten as `ks`. */
  lemma Rewritten<V(!new)>(ls: seq<KV<V>>, ks: seq<KV<V>>, m: map<int, V>) returns (n: map<int, V>)
    requires Lists(ls, m) && KeysAlike(ls, ks)
    ensures n.Keys == m.Keys && Lists(ks, n)
  {
    assert Distinct(ks);
    DistinctLists(ks);
    n := MapOf(ks);
    forall k
      ensures k in m <==> k in n
    {
      if k in m {
        var i :| 0 <= i < |ls| && ls[i] == KV(k, m[k]);
        assert ks[i] in ks;
      }
      if k in n {
        var i :| 0 <= i < |ks| && ks[i] == KV(k, n[k]);
        assert ls[i] in ls;
      }
    }
  }

  /** Rewriting values keeps a tree the tree of its map. */
  lemma TreeRewritten<V(!new), A(!new)>(c: Config<V, A>, ts: seq<Tree<KV<V>, A>>, us: seq<Tree<KV<V>, A>>, h: nat,
      m: map<int, V>)
    returns (n: map<int, V>)
    requires c.Lawful() && TreeOf(c, ts, h, m)
    requires SameShape(ts, us) && AllExact(c.env, us) && KeysAlike(Leaves(ts), Leaves(us))
    ensures TreeOf(c, us, h, n) && Lists(Leaves(us), n) && n.Keys == m.Keys
    ensures us == Revised(c, ts, Leaves(us), n)
  {
    hide Refilled, Hamt.TrieOf;
    TreeLists(c, ts, h, m);
    n := Rewritten(Leaves(ts), Leaves(us), m);
    ShapeKeys(ts, us);
    if c.env.kind.Two3? {
      BalancedSameKeys(ts, us, h);
      DistinctLists(Leaves(us));
      ListsUnique(Leaves(us), n, MapOf(Leaves(us)));
      RefilledIs(c.env, ts, us);
    } else {
      CanonicalSameKeys(c.env, c.keyHash, ts, us, 0, m, n);
      Hamt.TrieIs(c.env, c.keyHash, us, 0, n);
    }
  }
}
