/** src/raw_branch.rs, src/branch.rs: the cursor. */
module Branch {
  import opened Trees
  import opened Content
  import opened Store
  import opened Handles
  import opened Search
  import opened Frames

  /** A level of a branch: an offset into a node that is borrowed from the tree, mutably borrowed, or a clone of its
      own. */
  datatype Level<+L, +A> = Level(ofs: nat, kind: NodeKind, kids: seq<Handle<L, A>>)

  ghost predicate LevelsHold<L(!new), A(!new)>(e: Env<L, A>, s: Blobs, levels: seq<Level<L, A>>, fs: Stack<L, A>) {
    match fs
    case Empty => levels == []
    case Push(f, rest) =>
      && levels != []
      && levels[|levels| - 1].ofs == f.ofs
      && levels[|levels| - 1].kind == f.kind
      && Holds(e, s, levels[|levels| - 1].kids, f.kids)
      && LevelsHold(e, s, levels[..|levels| - 1], rest)
  }

  lemma LevelsBelow<L(!new), A(!new)>(e: Env<L, A>, s: Blobs, levels: seq<Level<L, A>>, fs: Stack<L, A>)
    requires LevelsHold(e, s, levels, fs) && fs.Push?
    ensures |levels| > 1 <==> fs.rest.Push?
    ensures fs.rest.Push? ==>
      && LevelsHold(e, s, levels[..|levels| - 1], fs.rest)
      && var (l, f) := (levels[|levels| - 2], fs.rest.top);
         l.ofs == f.ofs && l.kind == f.kind && Holds(e, s, l.kids, f.kids)
  {
  }

  /** `Level::insert_child`. */
  method InsertNode<L(!new), A(!new)>(e: Env<L, A>, ghost s: Blobs, level: Level<L, A>, node: seq<Handle<L, A>>,
      ghost f: Frame<L, A>, ghost g: Frame<L, A>) returns (r: Level<L, A>)
    requires level.ofs == f.ofs && level.kind == f.kind && Holds(e, s, level.kids, f.kids)
    requires Holds(e, s, node, g.kids) && AllExact(e, f.kids) && Above(e, f, g)
    ensures var p := InsertChild(e, f, g.kids);
      r.ofs == p.ofs && r.kind == p.kind && Holds(e, s, r.kids, p.kids)
  {
    var h := NewNode(e, s, node, g.kids);
    r := Level(level.ofs, if level.kind.Mutable? then Mutable else Owned, level.kids[level.ofs := h]);
  }

  class RawBranch<L(!new), A(!new)> {
    var levels: seq<Level<L, A>>
    var exact: bool
    ghost var frames: Stack<L, A>

    ghost predicate Valid(e: Env<L, A>, s: Blobs)
      reads this
    {
      LevelsHold(e, s, levels, frames) && Linked(e, frames)
    }

    constructor (e: Env<L, A>, ghost s: Blobs, kind: NodeKind, kids: seq<Handle<L, A>>, ghost ts: seq<Tree<L, A>>)
      requires Holds(e, s, kids, ts) && AllExact(e, ts)
      ensures Valid(e, s) && !exact
      ensures frames == Push(Frame(0, kind, ts), Stack.Empty)
    {
      levels := [Level(0, kind, kids)];
      exact := false;
      frames := Push(Frame(0, kind, ts), Stack.Empty);
    }

    function Leaf(): (r: Option<L>)
      reads this
    {
      if exact && levels != [] then
        var l := levels[|levels| - 1];
        if l.ofs < |l.kids| && l.kids[l.ofs].Leaf? then Some(l.kids[l.ofs].leaf) else Option.None
      else Option.None
    }

    lemma LeafSeen(e: Env<L, A>, s: Blobs, l: L)
      requires Valid(e, s)
      ensures Leaf() == Some(l) <==> exact && AtLeafOf(frames, l)
    {
      var top := levels[|levels| - 1];
      if top.ofs < |top.kids| {
        assert Represents(e, s, top.kids[top.ofs], frames.top.kids[top.ofs]);
      }
    }

    method PopLevel(e: Env<L, A>, ghost s: Blobs)
      requires Valid(e, s) && frames.rest.Push?
      modifies this`levels, this`frames
      ensures Valid(e, s)
      ensures frames == Pop(e, old(frames))
    {
      var n := |levels| - 1;
      LevelsBelow(e, s, levels, frames);
      PopLinked(e, frames);
      hide Linked, Holds, Combine, SameShape;
      var popped := levels[n];
      levels := levels[..n];
      if popped.kind.Owned? {
        var last := InsertNode(e, s, levels[n - 1], popped.kids, frames.rest.top, frames.top);
        levels := levels[n - 1 := last];
        assert levels[..n - 1] == old(levels)[..n][..n - 1];
      }
      frames := Pop(e, frames);
    }

    method MoveTo(e: Env<L, A>, ghost s: Blobs, ofs: nat)
      requires Valid(e, s)
      modifies this`levels, this`frames
      ensures Valid(e, s) && frames == MoveTop(old(frames), ofs)
    {
      var n := |levels| - 1;
      levels := levels[n := levels[n].(ofs := ofs)];
      MoveKeeps(e, frames, ofs);
      frames := MoveTop(frames, ofs);
      assert levels[..n] == old(levels)[..n];
    }

    method Advance(e: Env<L, A>, ghost s: Blobs)
      requires Valid(e, s)
      modifies this`levels, this`frames
      ensures Valid(e, s) && frames == Frames.Advance(old(frames))
    {
      var n := |levels| - 1;
      MoveTo(e, s, levels[n].ofs + 1);
    }

    /** Follows the handle the top level points at, if a node is behind it. */
    method Descend(e: Env<L, A>, store: Store) returns (entered: bool)
      requires e.Lawful() && store.Valid() && Valid(e, store.blobs)
      modifies this`levels, this`frames
      ensures Valid(e, store.blobs)
      ensures var f := old(frames).top;
        && (entered <==> f.ofs < |f.kids| && f.kids[f.ofs].Node?)
        && frames == if entered then Enter(old(frames)) else old(frames)
    {
      var top := levels[|levels| - 1];
      entered := false;
      if top.ofs < |top.kids| {
        ghost var t := frames.top.kids[top.ofs];
        assert Represents(e, store.blobs, top.kids[top.ofs], t);
        var h := InnerMut(e, store, top.kids[top.ofs], t);
        if h.Node? {
          EnterKeeps(e, frames);
          levels := levels + [Level(0, Cached, h.kids)];
          assert levels[..|levels| - 1] == old(levels);
          frames := Enter(frames);
          entered := true;
        }
      }
    }

    /** One turn of the search loop. */
    method Turn<M(!new)>(e: Env<L, A>, store: Store, look: Method<M, Handle<L, A>>, ghost sel: Method<M, Tree<L, A>>,
        m: M)
      returns (go: bool, m': M)
      requires e.Lawful() && store.Valid() && Valid(e, store.blobs) && !exact
      requires Agrees(e, store.blobs, look, sel)
      modifies this
      ensures Valid(e, store.blobs)
      ensures go ==>
        !exact && Run(e, sel, m, old(frames)) == Run(e, sel, m', frames) && Measure(frames) < old(Measure(frames))
      ensures !go ==> Run(e, sel, m, old(frames)) == (frames, exact, m')
    {
      var top := levels[|levels| - 1];
      ghost var fs := frames;
      assert Holds(e, store.blobs, top.kids, frames.top.kids);
      var step := LevelSearch(look, m, top.ofs, top.kids);
      assert step == LevelSearch(sel, m, top.ofs, frames.top.kids);
      go, m' := false, step.2;
      MoveTo(e, store.blobs, step.1);
      LevelsBelow(e, store.blobs, levels, frames);
      match step.0
      case FoundLeaf =>
        exact := true;
      case FoundPath =>
        go := Descend(e, store);
        if go {
          EnterShrinks(fs, step.1);
        }
      case FoundNone =>
        if |levels| > 1 {
          PopShrinks(e, fs);
          PopLevel(e, store.blobs);
          Advance(e, store.blobs);
          go := true;
        }
    }

    /** `RawBranch::search`, for any method. */
    method Search<M(!new)>(e: Env<L, A>, store: Store, look: Method<M, Handle<L, A>>, ghost sel: Method<M, Tree<L, A>>,
        m: M)
      returns (m': M)
      requires e.Lawful() && store.Valid() && Valid(e, store.blobs)
      requires Agrees(e, store.blobs, look, sel)
      modifies this
      ensures Valid(e, store.blobs)
      ensures (frames, exact, m') == Run(e, sel, m, old(frames))
    {
      exact := false;
      var go;
      go, m' := Turn(e, store, look, sel, m);
      while go
        invariant Valid(e, store.blobs)
        invariant go ==> !exact && Run(e, sel, m', frames) == Run(e, sel, m, old(frames))
        invariant !go ==> (frames, exact, m') == Run(e, sel, m, old(frames))
        decreases if go then Measure(frames) + 1 else 0
      {
        go, m' := Turn(e, store, look, sel, m');
      }
    }

    /** A new value through `leaf_mut`. */
    method PutLeaf(e: Env<L, A>, ghost s: Blobs, l: L)
      requires Valid(e, s) && Leaf().Some?
      modifies this`levels, this`frames
      ensures Valid(e, s) && frames == SetLeaf(old(frames), l)
    {
      var n := |levels| - 1;
      var top := levels[n];
      LeafSeen(e, s, top.kids[top.ofs].leaf);
      SetLeafLinked(e, frames, top.kids[top.ofs].leaf, l);
      var kind := if top.kind.Cached? then Owned else top.kind;
      levels := levels[n := Level(top.ofs, kind, top.kids[top.ofs := Handle.Leaf(l)])];
      assert levels[..n] == old(levels)[..n];
      frames := SetLeaf(frames, l);
    }

    /** `relink`, which leaves the root as the branch's drop leaves it. */
    method Relink(e: Env<L, A>, ghost s: Blobs) returns (root: seq<Handle<L, A>>)
      requires Valid(e, s)
      modifies this
      ensures Holds(e, s, root, Frames.Relink(e, old(frames))) && AllExact(e, Frames.Relink(e, old(frames)))
    {
      RelinkShape(e, frames);
      LevelsBelow(e, s, levels, frames);
      while |levels| > 1
        invariant Valid(e, s) && Frames.Relink(e, frames) == Frames.Relink(e, old(frames))
        invariant |levels| > 1 <==> frames.rest.Push?
        decreases frames.rest
      {
        PopLevel(e, s);
        LevelsBelow(e, s, levels, frames);
      }
      root := levels[0].kids;
      levels, frames, exact := [], Stack.Empty, false;
    }
  }
}
