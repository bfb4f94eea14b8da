/** tests/proof.rs: proofs that a map holds a key, and what checking them against a map shows. */
module Membership {
  import opened Trees
  import opened Content
  import opened Store
  import opened Handles
  import opened KeyValues
  import opened Frames
  import opened MapTrees
  import opened Snapshots
  import Branch
  import Maps
  import Proof

  lemma {:induction false} ReachHeld<L(!new), A(!new)>(ts: seq<Tree<L, A>>, path: seq<nat>, l: L)
    requires Reach(ts, path) == Tree.Leaf(l)
    ensures l in Leaves(ts)
    decreases path
  {
    var i := path[0];
    LeavesAt(ts, i);
    if |path| > 1 {
      ReachHeld(ts[i].kids, path[1..], l);
    }
    assert l in LeavesOf(ts[i]);
  }

  /** The proof was taken of the leaf `l` of the tree `ts`, unmodified. */
  ghost predicate TakenOf<V(!new), A(!new)>(c: Config<V, A>, p: Proof.Proof<KV<V>, A>, ts: seq<Tree<KV<V>, A>>,
      l: KV<V>)
    reads p
  {
    && Proof.Chained(c.env, Proof.Path(p.levels), p.nodes) && p.nodes != [] && p.nodes[0] == ts
    && Proof.Bottom(Proof.Path(p.levels), p.nodes) == Tree.Leaf(l)
  }

  /** Taking a proof from a branch that found `l`, and dropping the branch. */
  method TakeProof<V(!new), A(!new)>(c: Config<V, A>, store: Store, branch: Branch.RawBranch<KV<V>, A>, ghost l: KV<V>)
    returns (p: Proof.Proof<KV<V>, A>, root: seq<Handle<KV<V>, A>>)
    requires c.env.Lawful() && store.Valid() && branch.Valid(c.env, store.blobs) && branch.Leaf().Some?
    requires Proof.Pristine(branch.frames) && AtLeafOf(branch.frames, l)
    modifies branch
    ensures fresh(p) && p.Valid(c.env, store.blobs) && TakenOf(c, p, Root(old(branch.frames)).kids, l)
    ensures Holds(c.env, store.blobs, root, Root(old(branch.frames)).kids)
  {
    ghost var fs := branch.frames;
    Proof.PristineChained(c.env, fs);
    Proof.OwningRelinks(c.env, fs);
    p := Proof.New(c.env, store, branch);
    root := branch.Relink(c.env, store.blobs);
  }

  /** A proof of what `m` holds under `k`; taking it leaves the map as it is. */
  method Prove<V(!new), A(!new)>(c: Config<V, A>, store: Store, m: Maps.Map<V, A>, k: int)
    returns (p: Option<Proof.Proof<KV<V>, A>>)
    requires c.Lawful() && store.Valid() && m.Valid(c, store.blobs)
    modifies m`kids
    ensures m.Valid(c, store.blobs)
    ensures p.Some? <==> k in m.contents
    ensures p.Some? ==> fresh(p.value) && p.value.Valid(c.env, store.blobs)
    ensures p.Some? ==> TakenOf(c, p.value, m.tree, KV(k, m.contents[k]))
  {
    hide TreeOf, TakenOf, Represents, Proof.Proof.Valid;
    var branch := Maps.Seek(c, store, Mutable, m.kids, k, m.tree, m.height, m.contents);
    var leaf := branch.Leaf();
    p := Option.None;
    if k in m.contents {
      branch.LeafSeen(c.env, store.blobs, KV(k, m.contents[k]));
    }
    if leaf.Some? {
      var proof, root := TakeProof(c, store, branch, KV(k, m.contents[k]));
      m.kids := root;
      p := Some(proof);
    }
  }

  /** `prove_member` against the map `n`. */
  method Check<V(!new), A(!new)>(c: Config<V, A>, store: Store, p: Proof.Proof<KV<V>, A>, n: Maps.Map<V, A>)
    returns (r: Option<KV<V>>)
    requires c.Lawful() && store.Valid() && p.Valid(c.env, store.blobs) && n.Valid(c, store.blobs)
    modifies p`levels, n`kids
    ensures p.Valid(c.env, store.blobs) && n.Valid(c, store.blobs)
    ensures r.Some? <==> old(p.Shows(c.env, n.tree) && Proof.Bottom(Proof.Path(p.levels), p.nodes).Leaf?)
    ensures r.Some? ==> old(Proof.Bottom(Proof.Path(p.levels), p.nodes)) == Tree.Leaf(r.value)
    ensures r.Some? && CollisionFree(c.env, Proof.LevelBytes(c.env, p.nodes) + BlobsOf(c.env, n.tree)) ==>
      r.value.key in n.contents && n.contents[r.value.key] == r.value.val
  {
    var kids;
    r, kids := p.ProveMember(c.env, store, n.kids, n.tree);
    n.kids := kids;
    if r.Some? && CollisionFree(c.env, Proof.LevelBytes(c.env, p.nodes) + BlobsOf(c.env, n.tree)) {
      ReachHeld(n.tree, Proof.Path(p.levels), r.value);
      TreeLists(c, n.tree, n.height, n.contents);
    }
  }

  /** A proof taken of one tree checks out against another, with the leaf it was taken of, exactly when the two have
      one root hash; that is, unless nodes of theirs collide, when they are one tree. */
  method ProveAndCheck<V(!new), A(!new)>(c: Config<V, A>, store: Store, m: Maps.Map<V, A>, k: int, n: Maps.Map<V, A>)
    returns (r: Option<KV<V>>)
    requires c.Lawful() && store.Valid() && m.Valid(c, store.blobs) && n.Valid(c, store.blobs)
    requires k in m.contents
    modifies m`kids, n`kids
    ensures m.Valid(c, store.blobs) && n.Valid(c, store.blobs)
    ensures r == if Digest(c.env, m.tree) == Digest(c.env, n.tree) then Some(KV(k, m.contents[k])) else Option.None
    ensures CollisionFree(c.env, BlobsOf(c.env, m.tree) + BlobsOf(c.env, n.tree)) ==> (r.Some? <==> m.tree == n.tree)
  {
    var p := Prove(c, store, m, k);
    r := Check(c, store, p.value, n);
    if r.Some? && CollisionFree(c.env, BlobsOf(c.env, m.tree) + BlobsOf(c.env, n.tree)) {
      HoldsFit(c.env, store.blobs, m.kids, m.tree);
      HoldsFit(c.env, store.blobs, n.kids, n.tree);
      HashCommits(c.env, m.tree, n.tree);
    }
  }
}
