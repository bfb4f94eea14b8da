/** src/proof.rs: Merkle proofs of membership. */
module Proof {
  import opened Trees
  import opened Content
  import opened Store
  import opened Handles
  import opened Frames
  import opened Branch
  import Search
  import opened Snapshots

  datatype ProofLevel<+L, +A> = ProofLevel(ofs: nat, kids: seq<Handle<L, A>>)

  function Path<L, A>(levels: seq<ProofLevel<L, A>>): seq<nat> {
    seq(|levels|, i requires 0 <= i < |levels| => levels[i].ofs)
  }

  /** Every level's node is, by its hash, the child that the level above points at. */
  ghost predicate Chained<L(!new), A(!new)>(e: Env<L, A>, path: seq<nat>, nodes: seq<seq<Tree<L, A>>>) {
    && |path| == |nodes|
    && (forall i :: 0 <= i < |nodes| ==> path[i] < |nodes[i]|)
    && forall i :: 0 < i < |nodes| ==> Joined(e, nodes[i - 1][path[i - 1]], nodes[i])
  }

  ghost predicate Joined<L(!new), A(!new)>(e: Env<L, A>, t: Tree<L, A>, node: seq<Tree<L, A>>) {
    t.Node? && Digest(e, t.kids) == Digest(e, node)
  }

  ghost function Bottom<L(!new), A(!new)>(path: seq<nat>, nodes: seq<seq<Tree<L, A>>>): Tree<L, A>
    requires |path| == |nodes| > 0 && path[|path| - 1] < |nodes[|nodes| - 1]|
  {
    nodes[|nodes| - 1][path[|path| - 1]]
  }

  ghost function LevelBytes<L(!new), A(!new)>(e: Env<L, A>, nodes: seq<seq<Tree<L, A>>>): set<Bytes> {
    set i | 0 <= i < |nodes| :: NodeBytes(e, nodes[i])
  }

  /** Soundness: a chain of nodes that ends at a leaf and starts at the root hash of a tree shows that the tree holds
      that leaf at the chain's path, or that two of the nodes involved collide. */
  lemma {:induction false} Sound<L(!new), A(!new)>(e: Env<L, A>, path: seq<nat>, nodes: seq<seq<Tree<L, A>>>,
      against: seq<Tree<L, A>>, l: L)
    requires e.Lawful()
    requires Chained(e, path, nodes) && nodes != [] && Bottom(path, nodes) == Tree.Leaf(l)
    requires Digest(e, nodes[0]) == Digest(e, against)
    requires AllFit(e, against) && forall i :: 0 <= i < |nodes| ==> Fits(e.kind, |nodes[i]|)
    requires CollisionFree(e, LevelBytes(e, nodes) + BlobsOf(e, against))
    ensures Reach(against, path) == Tree.Leaf(l)
    decreases |nodes|
  {
    var top, i := nodes[0], path[0];
    assert NodeBytes(e, top) in LevelBytes(e, nodes) && NodeBytes(e, against) in BlobsOf(e, against);
    NodeBytesInjective(e, top, against);
    assert StubOf(e, top[i]) == StubOf(e, against[i]);
    if |nodes| > 1 {
      assert Joined(e, nodes[0][path[0]], nodes[1]);
      ChainedBelow(e, path, nodes);
      SmallerBlobs(e, nodes, against, i);
      Sound(e, path[1..], nodes[1..], against[i].kids, l);
    }
  }

  lemma ChainedBelow<L(!new), A(!new)>(e: Env<L, A>, path: seq<nat>, nodes: seq<seq<Tree<L, A>>>)
    requires Chained(e, path, nodes) && |nodes| > 1
    ensures Chained(e, path[1..], nodes[1..]) && Bottom(path[1..], nodes[1..]) == Bottom(path, nodes)
  {
    forall i | 0 < i < |nodes[1..]|
      ensures Joined(e, nodes[1..][i - 1][path[1..][i - 1]], nodes[1..][i])
    {
      assert Joined(e, nodes[i + 1 - 1][path[i + 1 - 1]], nodes[i + 1]);
    }
  }

  lemma SmallerBlobs<L(!new), A(!new)>(e: Env<L, A>, nodes: seq<seq<Tree<L, A>>>, against: seq<Tree<L, A>>, i: nat)
    requires |nodes| > 1 && i < |against| && against[i].Node?
    ensures LevelBytes(e, nodes[1..]) + BlobsOf(e, against[i].kids) <= LevelBytes(e, nodes) + BlobsOf(e, against)
  {
    forall b | b in LevelBytes(e, nodes[1..])
      ensures b in LevelBytes(e, nodes)
    {
      var j :| 0 <= j < |nodes[1..]| && b == NodeBytes(e, nodes[1..][j]);
      assert b == NodeBytes(e, nodes[j + 1]);
    }
    assert BlobsUnder(e, against[i]) == BlobsOf(e, against[i].kids);
  }

  class Proof<L(!new), A(!new)> {
    var levels: seq<ProofLevel<L, A>>
    ghost var nodes: seq<seq<Tree<L, A>>>

    ghost predicate Valid(e: Env<L, A>, s: Blobs)
      reads this
    {
      && |levels| == |nodes| > 0
      && forall i :: 0 <= i < |levels| ==> Holds(e, s, levels[i].kids, nodes[i]) && levels[i].ofs < |nodes[i]|
    }

    constructor (e: Env<L, A>, ghost s: Blobs, levels: seq<ProofLevel<L, A>>, ghost nodes: seq<seq<Tree<L, A>>>)
      requires |levels| == |nodes| > 0
      requires forall i :: 0 <= i < |levels| ==> Holds(e, s, levels[i].kids, nodes[i]) && levels[i].ofs < |nodes[i]|
      ensures Valid(e, s) && this.levels == levels && this.nodes == nodes
    {
      this.levels, this.nodes := levels, nodes;
    }

    function GetLeaf(): (r: Option<L>)
      requires levels != [] && levels[|levels| - 1].ofs < |levels[|levels| - 1].kids|
      reads this
    {
      var last := levels[|levels| - 1];
      if last.kids[last.ofs].Leaf? then Some(last.kids[last.ofs].leaf) else Option.None
    }

    /** Whether the proof shows a member of `against`. */
    ghost predicate Shows(e: Env<L, A>, against: seq<Tree<L, A>>)
      reads this
    {
      Chained(e, Path(levels), nodes) && nodes != [] && Digest(e, nodes[0]) == Digest(e, against)
    }

    /** `node_hash` of the child a level points at. */
    method NodeHash(e: Env<L, A>, store: Store, i: nat) returns (d: Option<Bytes>)
      requires e.Lawful() && store.Valid() && Valid(e, store.blobs) && i < |levels|
      modifies this`levels
      ensures Valid(e, store.blobs) && Path(levels) == old(Path(levels))
      ensures var t := nodes[i][levels[i].ofs]; d == if t.Node? then Some(Digest(e, t.kids)) else Option.None
    {
      var level := levels[i];
      ghost var t := nodes[i][level.ofs];
      assert Represents(e, store.blobs, level.kids[level.ofs], t);
      match level.kids[level.ofs]
      case Node(kids, ann, cached) =>
        var digest, kids' := RootHash(e, store, kids, t.kids);
        d := Some(digest);
        levels := levels[i := ProofLevel(level.ofs, level.kids[level.ofs := Handle.Node(kids', ann, cached)])];
      case Persisted(digest, _) =>
        d := Some(digest);
      case _ =>
        d := Option.None;
    }

    method LevelHash(e: Env<L, A>, store: Store, i: nat) returns (d: Bytes)
      requires e.Lawful() && store.Valid() && Valid(e, store.blobs) && i < |levels|
      modifies this`levels
      ensures Valid(e, store.blobs) && Path(levels) == old(Path(levels))
      ensures d == Digest(e, nodes[i])
    {
      var kids;
      d, kids := RootHash(e, store, levels[i].kids, nodes[i]);
      levels := levels[i := ProofLevel(levels[i].ofs, kids)];
    }

    /** One turn of the loop of `prove_member`: the node's hash, if it points at the hash of the node below. */
    method Step(e: Env<L, A>, store: Store, i: nat, previous: Option<Bytes>) returns (d: Option<Bytes>)
      requires e.Lawful() && store.Valid() && Valid(e, store.blobs) && i < |levels|
      requires previous == if i + 1 == |levels| then Option.None else Some(Digest(e, nodes[i + 1]))
      modifies this`levels
      ensures Valid(e, store.blobs) && Path(levels) == old(Path(levels))
      ensures var joined := i + 1 == |levels| || Joined(e, nodes[i][Path(levels)[i]], nodes[i + 1]);
                d == if joined then Some(Digest(e, nodes[i])) else Option.None
    {
      if previous.Some? {
        var hash := NodeHash(e, store, i);
        if hash != previous {
          return Option.None;
        }
      }
      var digest := LevelHash(e, store, i);
      d := Some(digest);
    }

    /** The loop, bottom up: the hash of the topmost node, if every node hashes to what the one above says. */
    method Climb(e: Env<L, A>, store: Store) returns (top: Option<Bytes>)
      requires e.Lawful() && store.Valid() && Valid(e, store.blobs)
      modifies this`levels
      ensures Valid(e, store.blobs) && Path(levels) == old(Path(levels))
      ensures top == if Chained(e, Path(levels), nodes) then Some(Digest(e, nodes[0])) else Option.None
    {
      ghost var path := Path(levels);
      var i := |levels|;
      top := Option.None;
      while i > 0
        invariant 0 <= i <= |levels| == |nodes|
        invariant Valid(e, store.blobs) && Path(levels) == path
        invariant top == if i == |levels| then Option.None else Some(Digest(e, nodes[i]))
        invariant forall j :: i < j < |nodes| ==> Joined(e, nodes[j - 1][path[j - 1]], nodes[j])
      {
        i := i - 1;
        top := Step(e, store, i, top);
        if top.None? {
          assert !Joined(e, nodes[i + 1 - 1][path[i + 1 - 1]], nodes[i + 1]);
          return;
        }
      }
    }

    /** `prove_member`. */
    method ProveMember(e: Env<L, A>, store: Store, against: seq<Handle<L, A>>, ghost ats: seq<Tree<L, A>>)
      returns (r: Option<L>, against': seq<Handle<L, A>>)
      requires e.Lawful() && store.Valid() && Valid(e, store.blobs) && Holds(e, store.blobs, against, ats)
      modifies this`levels
      ensures Valid(e, store.blobs) && Path(levels) == old(Path(levels)) && Holds(e, store.blobs, against', ats)
      ensures r.Some? <==> Shows(e, ats) && Bottom(Path(levels), nodes).Leaf?
      ensures r.Some? ==> Bottom(Path(levels), nodes) == Tree.Leaf(r.value)
      ensures r.Some? && CollisionFree(e, LevelBytes(e, nodes) + BlobsOf(e, ats)) ==>
                Reach(ats, Path(levels)) == Tree.Leaf(r.value)
    {
      hide Valid, Chained, LevelBytes, CollisionFree, BlobsOf, Reach, GetLeaf, Holds, Digest;
      Leveled(e, store.blobs);
      var root := Climb(e, store);
      if root.None? {
        return Option.None, against;
      }
      var d;
      d, against' := RootHash(e, store, against, ats);
      if root.value != d {
        return Option.None, against';
      }
      Leveled(e, store.blobs);
      r := GetLeaf();
      if r.Some? && CollisionFree(e, LevelBytes(e, nodes) + BlobsOf(e, ats)) {
        HoldsFit(e, store.blobs, against, ats);
        Sound(e, Path(levels), nodes, ats, r.value);
      }
    }

    lemma Leveled(e: Env<L, A>, s: Blobs)
      requires Valid(e, s)
      ensures |levels| == |nodes| > 0 && forall i :: 0 <= i < |nodes| ==> Fits(e.kind, |nodes[i]|)
      ensures levels[|levels| - 1].ofs < |levels[|levels| - 1].kids| == |nodes[|nodes| - 1]|
      ensures Path(levels)[|levels| - 1] == levels[|levels| - 1].ofs
      ensures var t := Bottom(Path(levels), nodes);
                (GetLeaf().Some? <==> t.Leaf?) && (GetLeaf().Some? ==> t == Tree.Leaf(GetLeaf().value))
    {
      var n := |levels| - 1;
      assert Represents(e, s, levels[n].kids[levels[n].ofs], nodes[n][levels[n].ofs]);
    }
  }

  // ---- proofs taken from a branch

  function Offsets<L, A>(fs: Stack<L, A>): seq<nat> {
    match fs
    case Empty => []
    case Push(f, rest) => Offsets(rest) + [f.ofs]
  }

  function Nodes<L, A>(fs: Stack<L, A>): seq<seq<Tree<L, A>>> {
    match fs
    case Empty => []
    case Push(f, rest) => Nodes(rest) + [f.kids]
  }

  function Kinds<L, A>(fs: Stack<L, A>): seq<NodeKind> {
    match fs
    case Empty => []
    case Push(f, rest) => Kinds(rest) + [f.kind]
  }

  function Own(k: NodeKind): NodeKind {
    if k.Cached? then Owned else k
  }

  /** The levels once each has been borrowed mutably. */
  function Owning<L, A>(fs: Stack<L, A>): Stack<L, A> {
    match fs
    case Empty => Stack.Empty
    case Push(f, rest) => Push(f.(kind := Own(f.kind)), Owning(rest))
  }

  lemma {:induction false} OwningSame<L(!new), A(!new)>(e: Env<L, A>, fs: Stack<L, A>)
    ensures Offsets(Owning(fs)) == Offsets(fs) && Nodes(Owning(fs)) == Nodes(fs)
    ensures |Kinds(fs)| == |Nodes(fs)| == |Offsets(fs)| == |Kinds(Owning(fs))|
    ensures forall i :: 0 <= i < |Kinds(fs)| ==> Kinds(Owning(fs))[i] == Own(Kinds(fs)[i])
    ensures Linked(e, fs) ==> Linked(e, Owning(fs))
  {
    if fs.Push? {
      OwningSame(e, fs.rest);
    }
  }

  ghost predicate LevelAt<L(!new), A(!new)>(e: Env<L, A>, s: Blobs, level: Level<L, A>, ofs: nat, kind: NodeKind,
      node: seq<Tree<L, A>>) {
    level.ofs == ofs && level.kind == kind && Holds(e, s, level.kids, node)
  }

  /** A branch's levels against its frames, by index from the root. */
  ghost predicate LevelsAt<L(!new), A(!new)>(e: Env<L, A>, s: Blobs, levels: seq<Level<L, A>>, ofs: seq<nat>,
      kinds: seq<NodeKind>, nodes: seq<seq<Tree<L, A>>>) {
    && |levels| == |ofs| == |kinds| == |nodes|
    && forall i :: 0 <= i < |levels| ==> LevelAt(e, s, levels[i], ofs[i], kinds[i], nodes[i])
  }

  lemma LevelsIndexed<L(!new), A(!new)>(e: Env<L, A>, s: Blobs, levels: seq<Level<L, A>>, fs: Stack<L, A>)
    ensures LevelsHold(e, s, levels, fs) <==> LevelsAt(e, s, levels, Offsets(fs), Kinds(fs), Nodes(fs))
  {
    if LevelsHold(e, s, levels, fs) {
      HoldsAt(e, s, levels, fs);
    }
    if LevelsAt(e, s, levels, Offsets(fs), Kinds(fs), Nodes(fs)) {
      AtHolds(e, s, levels, fs);
    }
  }

  lemma {:induction false} HoldsAt<L(!new), A(!new)>(e: Env<L, A>, s: Blobs, levels: seq<Level<L, A>>, fs: Stack<L, A>)
    requires LevelsHold(e, s, levels, fs)
    ensures LevelsAt(e, s, levels, Offsets(fs), Kinds(fs), Nodes(fs))
  {
    hide Linked, Holds;
    OwningSame(e, fs);
    if fs.Push? {
      var n, below := |levels| - 1, levels[..|levels| - 1];
      OwningSame(e, fs.rest);
      HoldsAt(e, s, below, fs.rest);
      forall i | 0 <= i < |levels|
        ensures LevelAt(e, s, levels[i], Offsets(fs)[i], Kinds(fs)[i], Nodes(fs)[i])
      {
        if i < n {
          assert LevelAt(e, s, below[i], Offsets(fs.rest)[i], Kinds(fs.rest)[i], Nodes(fs.rest)[i]);
        }
      }
    }
  }

  lemma {:induction false} AtHolds<L(!new), A(!new)>(e: Env<L, A>, s: Blobs, levels: seq<Level<L, A>>, fs: Stack<L, A>)
    requires LevelsAt(e, s, levels, Offsets(fs), Kinds(fs), Nodes(fs))
    ensures LevelsHold(e, s, levels, fs)
  {
    if fs.Push? {
      var n, below := |levels| - 1, levels[..|levels| - 1];
      OwningSame(e, fs.rest);
      forall i | 0 <= i < n
        ensures LevelAt(e, s, below[i], Offsets(fs.rest)[i], Kinds(fs.rest)[i], Nodes(fs.rest)[i])
      {
        assert LevelAt(e, s, levels[i], Offsets(fs)[i], Kinds(fs)[i], Nodes(fs)[i]);
      }
      AtHolds(e, s, below, fs.rest);
      assert LevelAt(e, s, levels[n], Offsets(fs)[n], Kinds(fs)[n], Nodes(fs)[n]);
    }
  }

  /** Every level is the very child the level above points at: nothing was written through the branch. */
  ghost predicate Pristine<L(!new), A(!new)>(fs: Stack<L, A>) {
    match fs
    case Empty => true
    case Push(_, Empty) => true
    case Push(g, Push(f, _)) =>
      Pristine(fs.rest) && f.ofs < |f.kids| && f.kids[f.ofs].Node? && g.kids == f.kids[f.ofs].kids
  }

  /** Completeness: an unmodified branch chains up to the root of the tree it stands in. */
  lemma {:induction false} PristineChained<L(!new), A(!new)>(e: Env<L, A>, fs: Stack<L, A>)
    requires Pristine(fs) && fs.Push? && fs.top.ofs < |fs.top.kids|
    ensures Chained(e, Offsets(fs), Nodes(fs))
    ensures Nodes(fs)[0] == Root(fs).kids && Bottom(Offsets(fs), Nodes(fs)) == fs.top.kids[fs.top.ofs]
  {
    if fs.rest.Push? {
      PristineChained(e, fs.rest);
      var path, nodes, n := Offsets(fs), Nodes(fs), |Nodes(fs)| - 1;
      forall i | 0 < i < |nodes|
        ensures Joined(e, nodes[i - 1][path[i - 1]], nodes[i])
      {
        if i < n {
          assert Joined(e, Nodes(fs.rest)[i - 1][Offsets(fs.rest)[i - 1]], Nodes(fs.rest)[i]);
        } else {
          assert nodes[i - 1][path[i - 1]] == fs.rest.top.kids[fs.rest.top.ofs];
        }
      }
    }
  }

  /** Taking a pristine level back puts the same node where it was. */
  lemma PopPristine<L(!new), A(!new)>(e: Env<L, A>, fs: Stack<L, A>)
    requires Linked(e, fs) && fs.rest.Push? && Pristine(fs)
    ensures Pristine(Pop(e, fs)) && Pop(e, fs).top.kids == fs.rest.top.kids && Pop(e, fs).rest == fs.rest.rest
  {
    var f := fs.rest.top;
    assert AllExact(e, f.kids) by {
      PopLinked(e, fs);
    }
    assert Exact(e, f.kids[f.ofs]);
  }

  /** No search modifies a branch. */
  lemma {:induction false} RunPristine<M, L(!new), A(!new)>(e: Env<L, A>, sel: Search.Method<M, Tree<L, A>>, m: M,
      fs: Stack<L, A>)
    requires Linked(e, fs) && Pristine(fs)
    ensures var gs := Run(e, sel, m, fs).0; gs.Push? && Pristine(gs) && Root(gs).kids == Root(fs).kids
    decreases Measure(fs)
  {
    var (found, ofs, m') := LevelSearch(sel, m, fs.top.ofs, fs.top.kids);
    var gs := MoveTop(fs, ofs);
    MoveKeeps(e, fs, ofs);
    match found
    case FoundLeaf =>
    case FoundPath =>
      if ofs < |fs.top.kids| && fs.top.kids[ofs].Node? {
        EnterShrinks(fs, ofs);
        EnterKeeps(e, gs);
        RunPristine(e, sel, m', Enter(gs));
      }
    case FoundNone =>
      if fs.rest.Push? {
        PopShrinks(e, fs);
        PopLinked(e, fs);
        PopPristine(e, fs);
        MoveKeeps(e, Pop(e, fs), Pop(e, fs).top.ofs + 1);
        RunPristine(e, sel, m', Frames.Advance(Pop(e, fs)));
      }
  }

  /** Dropping an unmodified branch leaves the tree as it was. */
  lemma {:induction false} RelinkPristine<L(!new), A(!new)>(e: Env<L, A>, fs: Stack<L, A>)
    requires Linked(e, fs) && Pristine(fs)
    ensures Frames.Relink(e, fs) == Root(fs).kids
    decreases fs.rest
  {
    if fs.rest.Push? {
      PopLinked(e, fs);
      PopPristine(e, fs);
      RelinkPristine(e, Pop(e, fs));
    }
  }

  lemma {:induction false} OwningRelinks<L(!new), A(!new)>(e: Env<L, A>, fs: Stack<L, A>)
    requires Linked(e, fs) && Pristine(fs)
    ensures Linked(e, Owning(fs)) && Frames.Relink(e, Owning(fs)) == Root(fs).kids
  {
    OwningSame(e, fs);
    OwningPristine(fs);
    RelinkPristine(e, Owning(fs));
  }

  lemma {:induction false} OwningPristine<L(!new), A(!new)>(fs: Stack<L, A>)
    requires Pristine(fs)
    ensures Pristine(Owning(fs)) && (fs.Push? ==> Owning(fs).Push? && Root(Owning(fs)).kids == Root(fs).kids)
  {
    if fs.Push? {
      OwningPristine(fs.rest);
    }
  }

  /** The serializations of the nodes of a branch, and of every node below them. */
  ghost function StackBlobs<L(!new), A(!new)>(e: Env<L, A>, fs: Stack<L, A>): set<Bytes> {
    match fs
    case Empty => {}
    case Push(f, rest) => StackBlobs(e, rest) + BlobsOf(e, f.kids)
  }

  ghost predicate StackFits<L(!new), A(!new)>(e: Env<L, A>, fs: Stack<L, A>) {
    match fs
    case Empty => true
    case Push(f, rest) => StackFits(e, rest) && AllFit(e, f.kids)
  }

  lemma {:induction false} LevelsFit<L(!new), A(!new)>(e: Env<L, A>, s: Blobs, levels: seq<Level<L, A>>,
      fs: Stack<L, A>)
    requires LevelsHold(e, s, levels, fs)
    ensures StackFits(e, fs)
  {
    if fs.Push? {
      HoldsFit(e, s, levels[|levels| - 1].kids, fs.top.kids);
      LevelsFit(e, s, levels[..|levels| - 1], fs.rest);
    }
  }

  lemma ChainedAbove<L(!new), A(!new)>(e: Env<L, A>, fs: Stack<L, A>)
    requires fs.Push? && fs.rest.Push? && Chained(e, Offsets(fs), Nodes(fs))
    ensures Chained(e, Offsets(fs.rest), Nodes(fs.rest))
    ensures fs.rest.top.ofs < |fs.rest.top.kids| && Joined(e, fs.rest.top.kids[fs.rest.top.ofs], fs.top.kids)
  {
    var path, nodes, n := Offsets(fs), Nodes(fs), |Nodes(fs)| - 1;
    var above, nodesAbove := Offsets(fs.rest), Nodes(fs.rest);
    OwningSame(e, fs.rest);
    assert forall i :: 0 <= i < n ==> path[i] == above[i] && nodes[i] == nodesAbove[i];
    assert Joined(e, nodes[n - 1][path[n - 1]], nodes[n]);
    forall i | 0 < i < n
      ensures Joined(e, nodesAbove[i - 1][above[i - 1]], nodesAbove[i])
    {
      assert Joined(e, nodes[i - 1][path[i - 1]], nodes[i]);
    }
  }

  /** Hashes that chain up a branch leave no room for a modification: only an unmodified branch gives a chain. */
  lemma {:induction false} ChainedPristine<L(!new), A(!new)>(e: Env<L, A>, fs: Stack<L, A>)
    requires e.Lawful() && fs.Push? && StackFits(e, fs) && CollisionFree(e, StackBlobs(e, fs))
    ensures Chained(e, Offsets(fs), Nodes(fs)) <==> Pristine(fs) && fs.top.ofs < |fs.top.kids|
  {
    if Pristine(fs) && fs.top.ofs < |fs.top.kids| {
      PristineChained(e, fs);
    }
    if Chained(e, Offsets(fs), Nodes(fs)) {
      OwningSame(e, fs);
      assert Bottom(Offsets(fs), Nodes(fs)) == fs.top.kids[fs.top.ofs];
      if fs.rest.Push? {
        var f := fs.rest.top;
        ChainedAbove(e, fs);
        ChainedPristine(e, fs.rest);
        assert BlobsUnder(e, f.kids[f.ofs]) <= BlobsOf(e, f.kids);
        HashCommits(e, f.kids[f.ofs].kids, fs.top.kids);
      }
    }
  }

  /** So a branch through which the tree was changed, and that was searched on in whatever way since, gives a proof
      of nothing until the change has reached its root. */
  lemma ChangedUnchained<L(!new), A(!new)>(e: Env<L, A>, fs: Stack<L, A>)
    requires e.Lawful() && Linked(e, fs) && StackFits(e, fs) && CollisionFree(e, StackBlobs(e, fs))
    requires Frames.Relink(e, fs) != Root(fs).kids
    ensures !Chained(e, Offsets(fs), Nodes(fs))
  {
    ChainedPristine(e, fs);
    if Pristine(fs) {
      RelinkPristine(e, fs);
    }
  }

  /** A leaf is given another value, and the branch is searched on with any method: a proof taken then can only
      chain up to a root that is not the one the tree had before. */
  lemma SearchedUnchained<M, L(!new), A(!new)>(e: Env<L, A>, fs: Stack<L, A>, was: L, l: L,
      sel: Search.Method<M, Tree<L, A>>, m: M)
    requires e.Lawful() && Linked(e, fs) && Pristine(fs) && AtLeafOf(fs, was) && was != l
    requires var gs := Run(e, sel, m, Frames.Advance(SetLeaf(fs, l))).0;
               StackFits(e, gs) && CollisionFree(e, StackBlobs(e, gs))
    ensures var gs := Run(e, sel, m, Frames.Advance(SetLeaf(fs, l))).0;
              gs.Push? && (Root(gs).kids == Root(fs).kids ==> !Chained(e, Offsets(gs), Nodes(gs)))
  {
    var hs := SetLeaf(fs, l);
    var gs := Run(e, sel, m, Frames.Advance(hs)).0;
    SetLeafLinked(e, fs, was, l);
    MoveKeeps(e, hs, hs.top.ofs + 1);
    RunKeeps(e, sel, m, Frames.Advance(hs));
    SetLeafWrites(e, fs, was, l);
    RelinkPristine(e, fs);
    Stands(e, fs, was);
    Stands(e, hs, l);
    assert (Before(fs) + [was] + After(fs))[|Before(fs)|] != (Before(fs) + [l] + After(fs))[|Before(fs)|];
    if Root(gs).kids == Root(fs).kids {
      ChangedUnchained(e, gs);
    }
  }

  /** Of a leaf just given another value below the root less is needed: that its node, before and after, does not
      collide. */
  lemma WrittenUnchained<L(!new), A(!new)>(e: Env<L, A>, fs: Stack<L, A>, was: L, l: L)
    requires e.Lawful() && Pristine(fs) && fs.Push? && fs.rest.Push? && AtLeafOf(fs, was) && was != l
    requires Fits(e.kind, |fs.top.kids|)
    requires CollisionFree(e, {NodeBytes(e, fs.top.kids), NodeBytes(e, SetLeaf(fs, l).top.kids)})
    ensures !Chained(e, Offsets(SetLeaf(fs, l)), Nodes(SetLeaf(fs, l)))
  {
    var gs := SetLeaf(fs, l);
    var path, nodes, n := Offsets(gs), Nodes(gs), |Nodes(gs)| - 1;
    OwningSame(e, gs.rest);
    if Chained(e, path, nodes) {
      assert Joined(e, nodes[n - 1][path[n - 1]], nodes[n]);
      assert nodes[n - 1][path[n - 1]] == gs.rest.top.kids[gs.rest.top.ofs];
      NodeBytesInjective(e, fs.top.kids, gs.top.kids);
      assert false;
    }
  }

  /** The first `n` levels have been hashed, and copied into the proof. */
  ghost predicate Copied<L(!new), A(!new)>(e: Env<L, A>, s: Blobs, fs: Stack<L, A>, n: nat, ls: seq<Level<L, A>>,
      ps: seq<ProofLevel<L, A>>) {
    && n == |ps| <= |ls| == |Nodes(fs)| == |Offsets(fs)| == |Kinds(fs)|
    && (forall j :: 0 <= j < |ls| ==>
          LevelAt(e, s, ls[j], Offsets(fs)[j], if j < n then Own(Kinds(fs)[j]) else Kinds(fs)[j], Nodes(fs)[j]))
    && (forall j :: 0 <= j < n ==> ps[j].ofs == Offsets(fs)[j] && Holds(e, s, ps[j].kids, Nodes(fs)[j]))
  }

  method CopyLevel<L(!new), A(!new)>(e: Env<L, A>, store: Store, ls: seq<Level<L, A>>, ps: seq<ProofLevel<L, A>>,
      ghost fs: Stack<L, A>)
    returns (ls': seq<Level<L, A>>, ps': seq<ProofLevel<L, A>>)
    requires e.Lawful() && store.Valid() && Copied(e, store.blobs, fs, |ps|, ls, ps) && |ps| < |ls|
    ensures Copied(e, store.blobs, fs, |ps| + 1, ls', ps')
  {
    var level := ls[|ps|];
    assert LevelAt(e, store.blobs, level, Offsets(fs)[|ps|], Kinds(fs)[|ps|], Nodes(fs)[|ps|]);
    var _, kids := RootHash(e, store, level.kids, Nodes(fs)[|ps|]);
    ls' := ls[|ps| := Level(level.ofs, Own(level.kind), kids)];
    ps' := ps + [ProofLevel(level.ofs, kids)];
  }

  /** `Proof::new`: hashes the levels from the root down, and keeps a copy of each. */
  method New<L(!new), A(!new)>(e: Env<L, A>, store: Store, branch: RawBranch<L, A>) returns (p: Proof<L, A>)
    requires e.Lawful() && store.Valid() && branch.Valid(e, store.blobs) && branch.Leaf().Some?
    modifies branch
    ensures fresh(p) && p.Valid(e, store.blobs) && branch.Valid(e, store.blobs) && branch.exact
    ensures branch.frames == Owning(old(branch.frames))
    ensures Path(p.levels) == Offsets(old(branch.frames)) && p.nodes == Nodes(old(branch.frames))
    ensures CollisionFree(e, StackBlobs(e, old(branch.frames))) ==>
              (Chained(e, Path(p.levels), p.nodes) <==> Pristine(old(branch.frames)))
  {
    ghost var fs := branch.frames;
    ChainOf(e, store.blobs, branch.levels, fs);
    CopyStarts(e, store.blobs, branch.levels, fs);
    hide Copied, LevelsHold, Linked, Owning, Offsets, Nodes, Path, Holds, Chained, Pristine, StackBlobs, CollisionFree;
    var levels: seq<ProofLevel<L, A>> := [];
    for i := 0 to |branch.levels|
      invariant branch.exact == old(branch.exact) && branch.frames == fs
      invariant Copied(e, store.blobs, fs, i, branch.levels, levels)
    {
      branch.levels, levels := CopyLevel(e, store, branch.levels, levels, fs);
    }
    CopyEnds(e, store.blobs, fs, branch.levels, levels);
    branch.frames := Owning(fs);
    p := new Proof(e, store.blobs, levels, Nodes(fs));
  }

  lemma ChainOf<L(!new), A(!new)>(e: Env<L, A>, s: Blobs, levels: seq<Level<L, A>>, fs: Stack<L, A>)
    requires e.Lawful() && LevelsHold(e, s, levels, fs) && fs.Push? && fs.top.ofs < |fs.top.kids|
    ensures CollisionFree(e, StackBlobs(e, fs)) ==> (Chained(e, Offsets(fs), Nodes(fs)) <==> Pristine(fs))
  {
    LevelsFit(e, s, levels, fs);
    if CollisionFree(e, StackBlobs(e, fs)) {
      ChainedPristine(e, fs);
    }
  }

  lemma CopyStarts<L(!new), A(!new)>(e: Env<L, A>, s: Blobs, ls: seq<Level<L, A>>, fs: Stack<L, A>)
    requires LevelsHold(e, s, ls, fs)
    ensures Copied(e, s, fs, 0, ls, [])
  {
    LevelsIndexed(e, s, ls, fs);
  }

  lemma CopyEnds<L(!new), A(!new)>(e: Env<L, A>, s: Blobs, fs: Stack<L, A>, ls: seq<Level<L, A>>,
      ps: seq<ProofLevel<L, A>>)
    requires Linked(e, fs) && fs.top.ofs < |fs.top.kids| && Copied(e, s, fs, |ls|, ls, ps)
    ensures LevelsHold(e, s, ls, Owning(fs)) && Linked(e, Owning(fs))
    ensures Path(ps) == Offsets(fs) && |ps| == |Nodes(fs)| > 0
    ensures forall i :: 0 <= i < |ps| ==> Holds(e, s, ps[i].kids, Nodes(fs)[i]) && ps[i].ofs < |Nodes(fs)[i]|
  {
    OwningSame(e, fs);
    InRange(e, fs);
    LevelsIndexed(e, s, ls, Owning(fs));
  }

  lemma {:induction false} InRange<L(!new), A(!new)>(e: Env<L, A>, fs: Stack<L, A>)
    requires Linked(e, fs) && fs.top.ofs < |fs.top.kids|
    ensures |Offsets(fs)| == |Nodes(fs)| && forall i :: 0 <= i < |Nodes(fs)| ==> Offsets(fs)[i] < |Nodes(fs)[i]|
  {
    if fs.rest.Push? {
      InRange(e, fs.rest);
    }
  }
}
