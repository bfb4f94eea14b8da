/** The map interface the structures share: `insert`, `get`, `get_mut`, `remove`, `values`, `values_mut`, `count`,
    hashing, persisting and restoring. */
module Maps {
  import opened Trees
  import opened Content
  import opened Store
  import opened Handles
  import opened KeyValues
  import opened Search
  import opened Frames
  import opened MapTrees
  import Branch
  import Cardinality
  import Iter
  import Hamt
  import HamtLookup
  import Proof
  import Snapshots
  import Two3
  import Two3Lookup

  // ---- insert

  /** `Two3Tree::insert`: the root never comes back split. */
  method InsertTwo3<V(!new), A(!new)>(c: Config<V, A>, store: Store, kids: seq<Handle<KV<V>, A>>, kv: KV<V>,
      ghost ts: seq<Tree<KV<V>, A>>, ghost h: nat, ghost m: map<int, V>)
    returns (r: Option<V>, kids': seq<Handle<KV<V>, A>>, ghost us: seq<Tree<KV<V>, A>>, ghost g: nat)
    requires c.Lawful() && c.env.kind.Two3? && store.Valid()
    requires Holds(c.env, store.blobs, kids, ts) && TreeOf(c, ts, h, m)
    ensures Holds(c.env, store.blobs, kids', us) && TreeOf(c, us, g, m[kv.key := kv.val])
    ensures r == Lookup(m, kv.key) && us == Inserted(c, ts, m, kv.key, kv.val)
  {
    hide Two3.InsertT;
    var i;
    ghost var sib;
    i, kids', us, g, sib := Two3.InsertIn(c.env, c.mk, store, kids, kv, 0, ts, h);
    PutIsUpdate(Leaves(ts), kv);
    MapOfMembers(Leaves(ts));
    r := if i.Replaced? then Some(i.leaf.val) else Option.None;
  }

  /** `insert`. The trie panics, running out of digest, exactly when another key of the map meets `k` in every slot. */
  method InsertTree<V(!new), A(!new)>(c: Config<V, A>, store: Store, kids: seq<Handle<KV<V>, A>>, kv: KV<V>,
      ghost ts: seq<Tree<KV<V>, A>>, ghost h: nat, ghost m: map<int, V>)
    returns (r: Hamt.Insertion<V>, kids': seq<Handle<KV<V>, A>>, ghost us: seq<Tree<KV<V>, A>>, ghost g: nat)
    requires c.Lawful() && store.Valid()
    requires Holds(c.env, store.blobs, kids, ts) && TreeOf(c, ts, h, m)
    ensures r.Panic? <==> !c.env.kind.Two3? && Hamt.Clash(c.env, c.keyHash, m, kv.key, 0)
    ensures r.Old? ==>
      && Holds(c.env, store.blobs, kids', us) && TreeOf(c, us, g, m[kv.key := kv.val]) && r.val == Lookup(m, kv.key)
      && us == Inserted(c, ts, m, kv.key, kv.val)
  {
    hide Hamt.TrieOf;
    if c.env.kind.Two3? {
      var o;
      o, kids', us, g := InsertTwo3(c, store, kids, kv, ts, h, m);
      r := Hamt.Old(o);
    } else {
      r, kids', us := Hamt.SubInsert(c.env, c.keyHash, store, kids, 0, kv, ts, m);
      g := 0;
      if r.Old? {
        Hamt.TrieIs(c.env, c.keyHash, us, 0, m[kv.key := kv.val]);
      }
    }
  }

  // ---- remove

  /** `Two3Tree::remove`: the root never asks to be merged. */
  method RemoveTwo3<V(!new), A(!new)>(c: Config<V, A>, store: Store, kids: seq<Handle<KV<V>, A>>, k: int,
      ghost ts: seq<Tree<KV<V>, A>>, ghost h: nat, ghost m: map<int, V>)
    returns (r: Option<V>, kids': seq<Handle<KV<V>, A>>, ghost us: seq<Tree<KV<V>, A>>, ghost g: nat)
    requires c.Lawful() && c.env.kind.Two3? && store.Valid()
    requires Holds(c.env, store.blobs, kids, ts) && TreeOf(c, ts, h, m)
    ensures Holds(c.env, store.blobs, kids', us) && TreeOf(c, us, g, m - {k})
    ensures r == Lookup(m, k) && us == Removed(c, ts, m, k)
  {
    hide Two3.RemoveT;
    var o;
    o, kids', us, g := Two3.RemoveIn(c.env, c.mk, store, kids, k, 0, ts, h);
    DelIsRemoval(Leaves(ts), k);
    MapOfMembers(Leaves(ts));
    if o.Noop? {
      assert k !in m && m - {k} == m;
      r := Option.None;
    } else {
      r := Some(o.leaf.val);
    }
  }

  /** `HAMT::remove`: the root never collapses. */
  method RemoveHamt<V(!new), A(!new)>(c: Config<V, A>, store: Store, kids: seq<Handle<KV<V>, A>>, k: int,
      ghost ts: seq<Tree<KV<V>, A>>, ghost m: map<int, V>)
    returns (r: Option<V>, kids': seq<Handle<KV<V>, A>>, ghost us: seq<Tree<KV<V>, A>>)
    requires c.Lawful() && !c.env.kind.Two3? && store.Valid()
    requires Holds(c.env, store.blobs, kids, ts) && TreeOf(c, ts, 0, m)
    ensures Holds(c.env, store.blobs, kids', us) && TreeOf(c, us, 0, m - {k})
    ensures r == Lookup(m, k) && us == Removed(c, ts, m, k)
  {
    hide Hamt.TrieOf;
    var o;
    o, kids', us := Hamt.SubRemove(c.env, c.keyHash, store, kids, 0, k, ts, m);
    assert o.Nothing? ==> m - {k} == m;
    Hamt.TrieIs(c.env, c.keyHash, us, 0, m - {k});
    if o.Nothing? {
      assert m - {k} == m;
      r := Option.None;
    } else {
      r := Some(o.leaf.val);
    }
  }

  // ---- lookup

  /** Where looking `k` up from the root leaves a branch. */
  ghost predicate Found<V(!new), A(!new)>(gs: Stack<KV<V>, A>, exact: bool, k: int, m: map<int, V>) {
    (exact <==> k in m) && (exact ==> AtLeafOf(gs, KV(k, m[k])))
  }

  lemma Two3Finds<V(!new), A(!new)>(c: Config<V, A>, kind: NodeKind, k: int, ts: seq<Tree<KV<V>, A>>, h: nat,
      m: map<int, V>)
    requires c.Lawful() && c.env.kind.Two3? && TreeOf(c, ts, h, m) && !kind.Owned?
    ensures var fs := Push(Frame(0, kind, ts), Stack.Empty);
            var (gs, exact, _) := Run(c.env, OnTrees(Two3Lookup.Lookup(c.env, c.mk, k)), (), fs);
            Found(gs, exact, k, m)
  {
    Two3Lookup.LookupRun(c.env, c.mk, k, Push(Frame(0, kind, ts), Stack.Empty), h);
    MapOfMembers(Leaves(ts));
  }

  /** `ValPath::new`: a branch searching for `k`. */
  method Seek<V(!new), A(!new)>(c: Config<V, A>, store: Store, kind: NodeKind, kids: seq<Handle<KV<V>, A>>, k: int,
      ghost ts: seq<Tree<KV<V>, A>>, ghost h: nat, ghost m: map<int, V>)
    returns (branch: Branch.RawBranch<KV<V>, A>)
    requires c.Lawful() && store.Valid() && !kind.Owned?
    requires Holds(c.env, store.blobs, kids, ts) && TreeOf(c, ts, h, m)
    ensures fresh(branch) && branch.Valid(c.env, store.blobs)
    ensures Found(branch.frames, branch.exact, k, m)
    ensures Frames.Relink(c.env, branch.frames) == ts && Proof.Pristine(branch.frames) && Root(branch.frames).kids == ts
  {
    TreeLists(c, ts, h, m);
    branch := new Branch.RawBranch(c.env, store.blobs, kind, kids, ts);
    ghost var fs := branch.frames;
    if c.env.kind.Two3? {
      var select := Two3Lookup.Lookup(c.env, c.mk, k);
      Two3Finds(c, kind, k, ts, h, m);
      RunKeeps(c.env, OnTrees(select), (), fs);
      Proof.RunPristine(c.env, OnTrees(select), (), fs);
      ViewsAgree(c.env, store.blobs, select);
      var _ := branch.Search(c.env, store, OnHandles(select), OnTrees(select), ());
    } else {
      var select, start := HamtLookup.Select(c.env, c.keyHash, k), HamtLookup.HamtSearch(0, false);
      HamtLookup.LookupRun(c.env, c.keyHash, k, fs, 0, m);
      RunKeeps(c.env, OnTrees(select), start, fs);
      Proof.RunPristine(c.env, OnTrees(select), start, fs);
      ViewsAgree(c.env, store.blobs, select);
      var _ := branch.Search(c.env, store, OnHandles(select), OnTrees(select), start);
    }
  }

  /** Writing `v` to the leaf of `k` through a branch updates the map at `k` and nowhere else. */
  lemma LeafWritten<V(!new), A(!new)>(c: Config<V, A>, gs: Stack<KV<V>, A>, k: int, v: V,
      ts: seq<Tree<KV<V>, A>>, h: nat, m: map<int, V>)
    requires c.Lawful() && TreeOf(c, ts, h, m) && k in m
    requires Linked(c.env, gs) && Frames.Relink(c.env, gs) == ts && AtLeafOf(gs, KV(k, m[k]))
    ensures var us := Frames.Relink(c.env, SetLeaf(gs, KV(k, v)));
              && Linked(c.env, SetLeaf(gs, KV(k, v))) && TreeOf(c, us, h, m[k := v])
              && us == Assigned(c, ts, m, k, v)
  {
    hide Revised, TreeOf, Frames.Relink, SameShape, Linked, Before, After, AllExact;
    var was, now, hs := KV(k, m[k]), KV(k, v), SetLeaf(gs, KV(k, v));
    var us := Frames.Relink(c.env, hs);
    SetLeafLinked(c.env, gs, was, now);
    SetLeafWrites(c.env, gs, was, now);
    Stands(c.env, gs, was);
    Stands(c.env, hs, now);
    var n := TreeRewritten(c, ts, us, h, m);
    TreeLists(c, ts, h, m);
    OnePairChanged(Before(gs), After(gs), k, v, m, n);
    OneLeafChanged(Before(gs), After(gs), k, m[k], v);
  }

  lemma OneLeafChanged<V(!new)>(before: seq<KV<V>>, after: seq<KV<V>>, k: int, was: V, v: V)
    requires Distinct(before + [KV(k, was)] + after)
    ensures WithValue(before + [KV(k, was)] + after, k, v) == before + [KV(k, v)] + after
  {
    var ls := before + [KV(k, was)] + after;
    assert ls[|before|] == KV(k, was);
  }

  lemma OnePairChanged<V(!new)>(before: seq<KV<V>>, after: seq<KV<V>>, k: int, v: V, m: map<int, V>, n: map<int, V>)
    requires k in m && n.Keys == m.Keys
    requires Lists(before + [KV(k, m[k])] + after, m) && Lists(before + [KV(k, v)] + after, n)
    ensures n == m[k := v]
  {
    forall a | a in m
      ensures n[a] == m[k := v][a]
    {
      if a == k {
        assert KV(k, v) in before + [KV(k, v)] + after;
      } else {
        assert KV(a, m[a]) in before + [KV(k, m[k])] + after;
        assert KV(a, m[a]) in before + [KV(k, v)] + after;
      }
    }
  }

  // ---- values

  /** The leaves `ls`, the first of them given values out of those they had and `xs`. */
  ghost function Revalued<V, X>(w: (V, X) -> V, ls: seq<KV<V>>, xs: seq<X>): (r: seq<KV<V>>)
    ensures KeysAlike(ls, r)
  {
    seq(|ls|, i requires 0 <= i < |ls| => KV(ls[i].key, if i < |xs| then w(ls[i].val, xs[i]) else ls[i].val))
  }

  lemma ValuesWritten<V(!new), X>(w: (V, X) -> V, ls: seq<KV<V>>, xs: seq<X>, n: map<int, V>)
    requires Lists(Revalued(w, ls, xs), n)
    ensures forall i :: 0 <= i < |ls| ==>
              ls[i].key in n && n[ls[i].key] == if i < |xs| then w(ls[i].val, xs[i]) else ls[i].val
  {
    forall i | 0 <= i < |ls|
      ensures ls[i].key in n && n[ls[i].key] == if i < |xs| then w(ls[i].val, xs[i]) else ls[i].val
    {
      assert Revalued(w, ls, xs)[i] in Revalued(w, ls, xs);
    }
  }

  /** A loop over `values_mut` that takes `xs` in turn, until it is out of them or of values. */
  method RewriteValues<V(!new), A(!new), X>(e: Env<KV<V>, A>, store: Store, kids: seq<Handle<KV<V>, A>>,
      w: (V, X) -> V, xs: seq<X>,
      ghost ts: seq<Tree<KV<V>, A>>)
    returns (kids': seq<Handle<KV<V>, A>>, ghost us: seq<Tree<KV<V>, A>>)
    requires e.Lawful() && store.Valid() && Holds(e, store.blobs, kids, ts) && AllExact(e, ts)
    ensures Holds(e, store.blobs, kids', us) && AllExact(e, us) && SameShape(ts, us)
    ensures Leaves(us) == Revalued(w, Leaves(ts), xs)
  {
    var write := (l: KV<V>, x: X) => KV(l.key, w(l.val, x));
    kids', us := Iter.Update(e, store, kids, write, xs, ts);
    assert Iter.Rewritten(write, Leaves(ts), xs) == Revalued(w, Leaves(ts), xs);
  }

  ghost function MappedLeaves<V>(f: V -> V, ls: seq<KV<V>>): (r: seq<KV<V>>)
    ensures KeysAlike(ls, r)
  {
    seq(|ls|, i requires 0 <= i < |ls| => KV(ls[i].key, f(ls[i].val)))
  }

  /** A loop over `values_mut`, run to its end. */
  method RewriteAll<V(!new), A(!new)>(e: Env<KV<V>, A>, store: Store, kids: seq<Handle<KV<V>, A>>, f: V -> V,
      ghost ts: seq<Tree<KV<V>, A>>)
    returns (kids': seq<Handle<KV<V>, A>>, ghost us: seq<Tree<KV<V>, A>>)
    requires e.Lawful() && store.Valid() && Holds(e, store.blobs, kids, ts) && AllExact(e, ts)
    ensures Holds(e, store.blobs, kids', us) && AllExact(e, us) && SameShape(ts, us)
    ensures Leaves(us) == MappedLeaves(f, Leaves(ts))
  {
    var write := (l: KV<V>) => KV(l.key, f(l.val));
    kids', us := Iter.UpdateEach(e, store, kids, write, ts);
    assert Iter.Mapped(write, Leaves(ts)) == MappedLeaves(f, Leaves(ts));
  }

  lemma AllValuesMapped<V(!new)>(f: V -> V, ls: seq<KV<V>>, m: map<int, V>, n: map<int, V>)
    requires Lists(ls, m) && Lists(MappedLeaves(f, ls), n) && n.Keys == m.Keys
    ensures n == map k | k in m :: f(m[k])
  {
    forall k | k in m
      ensures n[k] == f(m[k])
    {
      var i :| 0 <= i < |ls| && ls[i] == KV(k, m[k]);
      assert MappedLeaves(f, ls)[i] in MappedLeaves(f, ls);
    }
  }

  // ---- the map itself

  function EmptyRoot<V(!new), A(!new)>(c: Config<V, A>): seq<Handle<KV<V>, A>> {
    if c.env.kind.Two3? then [] else Hamt.Slots(Hamt.Width(c.env.kind))
  }

  lemma EmptyMap<V(!new), A(!new)>(c: Config<V, A>, s: Blobs) returns (ts: seq<Tree<KV<V>, A>>)
    requires c.Lawful()
    ensures Holds(c.env, s, EmptyRoot(c), ts) && TreeOf(c, ts, 0, map[]) && ts == Started(c)
  {
    if c.env.kind.Two3? {
      ts := [];
    } else {
      Hamt.EmptyCanonical(c.env, c.keyHash, s, 0);
      ts := Hamt.EmptyTrees(Hamt.Width(c.env.kind));
      Hamt.TrieIs(c.env, c.keyHash, ts, 0, map[]);
    }
  }

  class Map<V(!new), A(!new)> {
    var kids: seq<Handle<KV<V>, A>>
    ghost var tree: seq<Tree<KV<V>, A>>
    ghost var height: nat
    ghost var contents: map<int, V>

    ghost predicate Valid(c: Config<V, A>, s: Blobs)
      reads this
    {
      Holds(c.env, s, kids, tree) && TreeOf(c, tree, height, contents)
    }

    constructor (c: Config<V, A>, ghost s: Blobs)
      requires c.Lawful()
      ensures Valid(c, s) && contents == map[] && tree == Started(c)
    {
      ghost var ts := EmptyMap(c, s);
      kids, tree, height, contents := EmptyRoot(c), ts, 0, map[];
    }

    /** A map has no key exactly if no child of its root is occupied, whatever it held before. */
    lemma EmptyState(c: Config<V, A>, s: Blobs)
      requires c.Lawful() && Valid(c, s)
      ensures contents == map[] <==> forall i :: 0 <= i < |kids| ==> kids[i].None?
    {
      EmptyTree(c, tree, height, contents);
      forall i | 0 <= i < |kids|
        ensures kids[i].None? <==> tree[i].Empty?
      {
        assert Represents(c.env, s, kids[i], tree[i]);
      }
    }

    method Insert(c: Config<V, A>, store: Store, k: int, v: V) returns (r: Hamt.Insertion<V>)
      requires c.Lawful() && store.Valid() && Valid(c, store.blobs)
      modifies this
      ensures r.Panic? <==> !c.env.kind.Two3? && Hamt.Clash(c.env, c.keyHash, old(contents), k, 0)
      ensures r.Old? ==> Valid(c, store.blobs) && contents == old(contents)[k := v] && r.val == Lookup(old(contents), k)
      ensures r.Old? ==> tree == Inserted(c, old(tree), old(contents), k, v)
    {
      r, kids, tree, height := InsertTree(c, store, kids, KV(k, v), tree, height, contents);
      contents := contents[k := v];
    }

    method Remove(c: Config<V, A>, store: Store, k: int) returns (r: Option<V>)
      requires c.Lawful() && store.Valid() && Valid(c, store.blobs)
      modifies this
      ensures Valid(c, store.blobs) && contents == old(contents) - {k}
      ensures r == Lookup(old(contents), k)
      ensures tree == Removed(c, old(tree), old(contents), k)
    {
      if c.env.kind.Two3? {
        r, kids, tree, height := RemoveTwo3(c, store, kids, k, tree, height, contents);
      } else {
        r, kids, tree := RemoveHamt(c, store, kids, k, tree, contents);
      }
      contents := contents - {k};
    }

    method Get(c: Config<V, A>, store: Store, k: int) returns (r: Option<V>)
      requires c.Lawful() && store.Valid() && Valid(c, store.blobs)
      ensures r == Lookup(contents, k)
    {
      var branch := Seek(c, store, Cached, kids, k, tree, height, contents);
      var leaf := branch.Leaf();
      if k in contents {
        branch.LeafSeen(c.env, store.blobs, KV(k, contents[k]));
      }
      r := if leaf.Some? then Some(leaf.value.val) else Option.None;
    }

    /** `get_mut`, and a write of `f` of the value through what it returns. */
    method Assign(c: Config<V, A>, store: Store, k: int, f: V -> V) returns (found: bool)
      requires c.Lawful() && store.Valid() && Valid(c, store.blobs)
      modifies this
      ensures Valid(c, store.blobs)
      ensures found <==> k in old(contents)
      ensures contents == if found then old(contents)[k := f(old(contents)[k])] else old(contents)
      ensures tree == if found then Assigned(c, old(tree), old(contents), k, f(old(contents)[k])) else old(tree)
    {
      var branch := Seek(c, store, Mutable, kids, k, tree, height, contents);
      var leaf := branch.Leaf();
      found := leaf.Some?;
      if k in contents {
        branch.LeafSeen(c.env, store.blobs, KV(k, contents[k]));
      }
      if found {
        var v := f(leaf.value.val);
        LeafWritten(c, branch.frames, k, v, tree, height, contents);
        branch.PutLeaf(c.env, store.blobs, KV(leaf.value.key, v));
        tree := Frames.Relink(c.env, branch.frames);
        kids := branch.Relink(c.env, store.blobs);
        contents := contents[k := v];
      }
    }

    /** `values`, as the leaves they come from. */
    method Values(c: Config<V, A>, store: Store) returns (ls: seq<KV<V>>)
      requires c.Lawful() && store.Valid() && Valid(c, store.blobs)
      ensures Lists(ls, contents) && ls == Leaves(tree)
      ensures c.env.kind.Two3? ==> Sorted(ls)
    {
      TreeLists(c, tree, height, contents);
      ls := Iter.Collect(c.env, store, kids, tree);
    }

    /** A loop over `values_mut` that takes `xs` in turn, and drops the iterator when it has run out of them. */
    method WriteValues<X>(c: Config<V, A>, store: Store, w: (V, X) -> V, xs: seq<X>)
      requires c.Lawful() && store.Valid() && Valid(c, store.blobs)
      modifies this
      ensures Valid(c, store.blobs)
      ensures Lists(Revalued(w, Leaves(old(tree)), xs), contents) && contents.Keys == old(contents).Keys
      ensures forall i :: 0 <= i < |Leaves(old(tree))| ==>
                var l := Leaves(old(tree))[i];
                l.key in contents && contents[l.key] == if i < |xs| then w(l.val, xs[i]) else l.val
      ensures tree == Revised(c, old(tree), Revalued(w, Leaves(old(tree)), xs), contents)
    {
      hide TreeOf, Revised, Lists;
      TreeLists(c, tree, height, contents);
      var written;
      ghost var us;
      written, us := RewriteValues(c.env, store, kids, w, xs, tree);
      ghost var n := TreeRewritten(c, tree, us, height, contents);
      ValuesWritten(w, Leaves(tree), xs, n);
      kids, tree, contents := written, us, n;
    }

    /** A loop over `values_mut` run to its end, giving every value `f` of what it was. */
    method MapValues(c: Config<V, A>, store: Store, f: V -> V)
      requires c.Lawful() && store.Valid() && Valid(c, store.blobs)
      modifies this
      ensures Valid(c, store.blobs)
      ensures contents == map k | k in old(contents) :: f(old(contents)[k])
      ensures tree == Revised(c, old(tree), MappedLeaves(f, Leaves(old(tree))), contents)
    {
      hide TreeOf, Revised, Lists;
      TreeLists(c, tree, height, contents);
      var written;
      ghost var us;
      written, us := RewriteAll(c.env, store, kids, f, tree);
      ghost var n := TreeRewritten(c, tree, us, height, contents);
      AllValuesMapped(f, Leaves(tree), contents, n);
      kids, tree, contents := written, us, n;
    }

    method Count(c: Config<V, A>, cnt: A -> nat, ghost s: Blobs) returns (n: nat)
      requires c.Lawful() && Valid(c, s) && Cardinality.Counting(c.env, cnt)
      ensures n == |contents|
    {
      TreeLists(c, tree, height, contents);
      n := Cardinality.Count(c.env, cnt, s, kids, tree);
    }

    method RootHash(c: Config<V, A>, store: Store) returns (d: Bytes)
      requires c.Lawful() && store.Valid() && Valid(c, store.blobs)
      modifies this`kids
      ensures Valid(c, store.blobs) && d == Digest(c.env, tree)
    {
      d, kids := Snapshots.RootHash(c.env, store, kids, tree);
    }

    method Persist(c: Config<V, A>, store: Store) returns (d: Bytes)
      requires c.Lawful() && store.Valid() && Valid(c, store.blobs)
      requires Room(c.env, store.blobs, BlobsOf(c.env, tree))
      modifies this`kids, store
      ensures store.Valid() && Valid(c, store.blobs)
      ensures d == Digest(c.env, tree) && Stored(c.env, store.blobs, tree)
      ensures Grew(c.env, old(store.blobs), store.blobs, BlobsOf(c.env, tree))
    {
      hide TreeOf, Grew, Stored, Room, BlobsOf, Digest, Represents;
      d, kids := Snapshots.Persist(c.env, store, kids, tree);
    }

    /** The map a snapshot was taken of, back from its hash. */
    method Restore(c: Config<V, A>, store: Store, d: Bytes, ghost ts: seq<Tree<KV<V>, A>>, ghost h: nat,
        ghost m: map<int, V>)
      requires c.Lawful() && store.Valid()
      requires TreeOf(c, ts, h, m) && Stored(c.env, store.blobs, ts) && d == Digest(c.env, ts)
      modifies this
      ensures Valid(c, store.blobs) && contents == m && tree == ts
    {
      hide TreeOf, Stored, Digest, Represents;
      var loaded := Load(c.env, store, d);
      kids := loaded.value;
      tree, height, contents := ts, h, m;
    }
  }
}
