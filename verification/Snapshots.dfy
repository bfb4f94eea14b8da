/** src/compound.rs, src/store.rs: root hashes, persisting a whole tree, and restoring it from its hash. */
module Snapshots {
  import opened Trees
  import opened Content
  import opened Store
  import opened Handles

  /** `root_hash`: a dry run over the tree, which only fills in hash caches. */
  method RootHash<L(!new), A(!new)>(e: Env<L, A>, store: Store, kids: seq<Handle<L, A>>, ghost ts: seq<Tree<L, A>>)
    returns (d: Bytes, kids': seq<Handle<L, A>>)
    requires e.Lawful() && store.Valid() && Holds(e, store.blobs, kids, ts)
    ensures d == Digest(e, ts) && Holds(e, store.blobs, kids', ts)
    ensures d == e.hash(Header(e.kind, ts) + Body(e, ts))
  {
    var sink := new Sink(store, DryRun);
    kids' := PersistNode(e, kids, sink, ts);
    assert sink.bytes == NodeBytes(e, ts);
    d := sink.Fin(e);
  }

  /** `Store::persist`: the digest a dry run would have given, now resolvable, together with every digest below it. */
  method Persist<L(!new), A(!new)>(e: Env<L, A>, store: Store, kids: seq<Handle<L, A>>, ghost ts: seq<Tree<L, A>>)
    returns (d: Bytes, kids': seq<Handle<L, A>>)
    requires e.Lawful() && store.Valid() && Holds(e, store.blobs, kids, ts)
    requires Room(e, store.blobs, BlobsOf(e, ts))
    modifies store
    ensures store.Valid() && Grew(e, old(store.blobs), store.blobs, BlobsOf(e, ts))
    ensures d == Digest(e, ts) && Stored(e, store.blobs, ts) && Holds(e, store.blobs, kids', ts)
  {
    assert Fits(e.kind, |ts|);
    hide Room, Grew, BlobsOf, Stored, Represents, Holds, ChildrenStored, NodeBytes, Wrote;
    var sink := new Sink(store, Writing);
    kids' := PersistNode(e, kids, sink, ts);
    ghost var s := store.blobs;
    assert sink.bytes == NodeBytes(e, ts);
    d := sink.Fin(e);
    NodeStored(e, old(store.blobs), s, store.blobs, ts);
    HoldsExtends(e, s, store.blobs, kids', ts);
  }

  // ---- what a root hash commits to

  /** Every node of the tree has a number of children its kind can have. */
  ghost predicate AllFit<L(!new), A(!new)>(e: Env<L, A>, ts: seq<Tree<L, A>>) {
    Fits(e.kind, |ts|) && forall i :: 0 <= i < |ts| && ts[i].Node? ==> AllFit(e, ts[i].kids)
  }

  lemma {:induction false} HoldsFit<L(!new), A(!new)>(e: Env<L, A>, s: Blobs, kids: seq<Handle<L, A>>,
      ts: seq<Tree<L, A>>)
    requires Holds(e, s, kids, ts)
    ensures AllFit(e, ts)
    decreases ts
  {
    forall i | 0 <= i < |ts| && ts[i].Node?
      ensures AllFit(e, ts[i].kids)
    {
      assert Represents(e, s, kids[i], ts[i]);
      match kids[i]
      case Node(ks, _, _) => HoldsFit(e, s, ks, ts[i].kids);
      case Persisted(_, _) => StoredFit(e, s, ts[i].kids);
    }
  }

  lemma {:induction false} StoredFit<L(!new), A(!new)>(e: Env<L, A>, s: Blobs, ts: seq<Tree<L, A>>)
    requires Stored(e, s, ts)
    ensures AllFit(e, ts)
    decreases ts
  {
    forall i | 0 <= i < |ts| && ts[i].Node?
      ensures AllFit(e, ts[i].kids)
    {
      StoredFit(e, s, ts[i].kids);
    }
  }

  /** Trees with the same root hash are the same tree, unless two of their nodes collide. */
  lemma {:induction false} HashCommits<L(!new), A(!new)>(e: Env<L, A>, ts: seq<Tree<L, A>>, us: seq<Tree<L, A>>)
    requires e.Lawful() && AllFit(e, ts) && AllFit(e, us)
    requires CollisionFree(e, BlobsOf(e, ts) + BlobsOf(e, us))
    requires Digest(e, ts) == Digest(e, us)
    ensures ts == us
    decreases ts
  {
    assert NodeBytes(e, ts) in BlobsOf(e, ts) && NodeBytes(e, us) in BlobsOf(e, us);
    NodeBytesInjective(e, ts, us);
    forall i | 0 <= i < |ts|
      ensures ts[i] == us[i]
    {
      assert StubOf(e, ts[i]) == StubOf(e, us[i]);
      if ts[i].Node? {
        assert BlobsUnder(e, ts[i]) <= BlobsOf(e, ts) && BlobsUnder(e, us[i]) <= BlobsOf(e, us);
        HashCommits(e, ts[i].kids, us[i].kids);
      }
    }
  }
}
