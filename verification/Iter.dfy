/** src/iter.rs: iteration over the leaves of a tree, shared and mutable. */
module Iter {
  import opened Trees
  import opened Content
  import opened Store
  import opened Handles
  import opened Search
  import opened Frames
  import opened Branch

  datatype State = Initial | Walking | Exhausted

  class LeafIter<L(!new), A(!new)> {
    var state: State
    /** The root the iterator borrows; while it walks, the branch stands in for it. */
    var node: seq<Handle<L, A>>
    const branch: RawBranch<L, A>
    const kind: NodeKind
    ghost const origin: seq<Tree<L, A>>
    ghost var tree: seq<Tree<L, A>>
    ghost var passed: seq<L>
    ghost var todo: seq<L>

    ghost predicate Valid(e: Env<L, A>, s: Blobs)
      reads this, branch
    {
      match state
      case Initial => Fresh(e, s)
      case Walking => OnLeaf(e, s)
      case Exhausted => Done(e, s)
    }

    ghost predicate Fresh(e: Env<L, A>, s: Blobs)
      reads this, branch
    {
      && passed == [] && todo == Leaves(origin) && tree == origin && Holds(e, s, node, tree) && AllExact(e, tree)
      && branch.Valid(e, s) && branch.frames == Push(Frame(0, kind, tree), Stack.Empty)
    }

    ghost predicate OnLeaf(e: Env<L, A>, s: Blobs)
      reads this, branch
    {
      && branch.Valid(e, s) && branch.exact
      && passed != [] && AtLeafOf(branch.frames, passed[|passed| - 1])
      && passed == Before(branch.frames) + [passed[|passed| - 1]] && todo == After(branch.frames)
      && SameShape(origin, Relink(e, branch.frames))
    }

    ghost predicate Done(e: Env<L, A>, s: Blobs)
      reads this
    {
      todo == [] && Leaves(tree) == passed && Holds(e, s, node, tree) && AllExact(e, tree) && SameShape(origin, tree)
    }

    constructor (e: Env<L, A>, ghost s: Blobs, kind: NodeKind, kids: seq<Handle<L, A>>, ghost ts: seq<Tree<L, A>>)
      requires Holds(e, s, kids, ts) && AllExact(e, ts)
      ensures Valid(e, s) && fresh(branch)
      ensures passed == [] && todo == Leaves(ts) && origin == ts && this.kind == kind
    {
      state, node, this.kind := Initial, kids, kind;
      branch := new RawBranch(e, s, kind, kids, ts);
      origin, tree, passed, todo := ts, ts, [], Leaves(ts);
    }

    /** Where a search with `First` has left the branch: on a leaf to yield, or, all passed, to be dropped. */
    method Settle(e: Env<L, A>, ghost s: Blobs, ghost fs: Stack<L, A>) returns (r: Option<L>)
      requires branch.Valid(e, s)
      requires Linked(e, fs) && SameShape(origin, Relink(e, fs))
      requires branch.frames == Run(e, OnTrees(First), (), fs).0 && branch.exact == Run(e, OnTrees(First), (), fs).1
      requires passed == Before(fs) && todo == Pending(fs)
      modifies this`state, this`node, this`tree, this`passed, this`todo, branch
      ensures Valid(e, s)
      ensures Yields(old(passed), old(todo), r)
    {
      FirstSettles(e, fs);
      r := branch.Leaf();
      if todo != [] {
        branch.LeafSeen(e, s, todo[0]);
      }
      if r.Some? {
        Yield(e, s);
      } else {
        Finish(e, s);
      }
    }

    method Yield(e: Env<L, A>, ghost s: Blobs)
      requires branch.Valid(e, s) && branch.exact
      requires todo != [] && AtLeafOf(branch.frames, todo[0])
      requires passed == Before(branch.frames) && todo[1..] == After(branch.frames)
      requires SameShape(origin, Relink(e, branch.frames))
      modifies this`state, this`passed, this`todo
      ensures OnLeaf(e, s) && state == Walking
      ensures passed == old(passed) + [old(todo)[0]] && todo == old(todo)[1..]
    {
      state := Walking;
      passed, todo := passed + [todo[0]], todo[1..];
    }

    method Finish(e: Env<L, A>, ghost s: Blobs)
      requires branch.Valid(e, s)
      requires SameShape(origin, Relink(e, branch.frames)) && Leaves(Relink(e, branch.frames)) == passed && todo == []
      modifies this`state, this`node, this`tree, branch
      ensures Done(e, s) && state == Exhausted
    {
      state := Exhausted;
      tree := Relink(e, branch.frames);
      node := branch.Relink(e, s);
    }

    /** One step of the iteration moves the first of the leaves to come to the leaves passed. */
    ghost predicate Yields(passed0: seq<L>, todo0: seq<L>, r: Option<L>)
      reads this
    {
      if todo0 == [] then r.None? && passed == passed0 && todo == [] && state == Exhausted
      else r == Some(todo0[0]) && passed == passed0 + [todo0[0]] && todo == todo0[1..] && state == Walking
    }

    method Next(e: Env<L, A>, store: Store) returns (r: Option<L>)
      requires e.Lawful() && store.Valid() && Valid(e, store.blobs)
      modifies this, branch
      ensures Valid(e, store.blobs)
      ensures Yields(old(passed), old(todo), r)
    {
      hide SameShape, Holds, AllExact, Before, After, Run;
      if state.Exhausted? {
        r := Option.None;
      } else {
        ghost var fs := branch.frames;
        if state.Walking? {
          Resumes(e, fs, passed[|passed| - 1]);
          branch.Advance(e, store.blobs);
          fs := branch.frames;
        } else {
          Starts(e, kind, tree);
        }
        ViewsAgree(e, store.blobs, First);
        var _ := branch.Search(e, store, OnHandles(First), OnTrees(First), ());
        r := Settle(e, store.blobs, fs);
      }
    }

    /** Assigns through the reference the last `next` handed out. */
    method Put(e: Env<L, A>, ghost s: Blobs, l: L)
      requires Valid(e, s) && state == Walking
      modifies this`passed, branch
      ensures Valid(e, s) && state == Walking
      ensures passed == old(passed)[|old(passed)| - 1 := l] && todo == old(todo)
    {
      hide Linked, Relink, SameShape, Holds, AllExact, Before, After;
      ghost var was := passed[|passed| - 1];
      branch.LeafSeen(e, s, was);
      SetLeafWrites(e, branch.frames, was, l);
      SameShapeTrans(origin, Relink(e, branch.frames), Relink(e, SetLeaf(branch.frames, l)));
      branch.PutLeaf(e, s, l);
      passed := passed[|passed| - 1 := l];
    }

    /** `LeafIterMut::next`: handing out the reference already makes the node its own. */
    method NextMut(e: Env<L, A>, store: Store) returns (r: Option<L>)
      requires e.Lawful() && store.Valid() && Valid(e, store.blobs)
      modifies this, branch
      ensures Valid(e, store.blobs)
      ensures Yields(old(passed), old(todo), r)
    {
      r := Next(e, store);
      if r.Some? {
        Put(e, store.blobs, r.value);
      }
    }

    /** Dropping the iterator, wherever it stands, leaves the leaves passed as they were written and the others as
        they were. */
    method Drop(e: Env<L, A>, ghost s: Blobs)
      requires Valid(e, s)
      modifies this, branch
      ensures Holds(e, s, node, tree) && AllExact(e, tree) && SameShape(origin, tree)
      ensures Leaves(tree) == old(passed) + old(todo)
    {
      match state
      case Initial =>
        SameShapeRefl(origin);
        assert [] + todo == todo;
      case Walking =>
        Stands(e, branch.frames, passed[|passed| - 1]);
        tree := Relink(e, branch.frames);
        node := branch.Relink(e, s);
      case Exhausted =>
        assert passed + [] == passed;
    }
  }

  /** `iter`, run to its end: every leaf once, in order. */
  method Collect<L(!new), A(!new)>(e: Env<L, A>, store: Store, node: seq<Handle<L, A>>, ghost ts: seq<Tree<L, A>>)
    returns (ls: seq<L>)
    requires e.Lawful() && store.Valid() && Holds(e, store.blobs, node, ts) && AllExact(e, ts)
    ensures ls == Leaves(ts)
  {
    var it := new LeafIter(e, store.blobs, Cached, node, ts);
    ls := Drain(e, store, it);
  }

  method Drain<L(!new), A(!new)>(e: Env<L, A>, store: Store, it: LeafIter<L, A>) returns (ls: seq<L>)
    requires e.Lawful() && store.Valid() && it.Valid(e, store.blobs)
    modifies it, it.branch
    ensures it.Valid(e, store.blobs) && it.todo == []
    ensures ls == old(it.todo)
  {
    ls := [];
    var more := true;
    while more
      invariant it.Valid(e, store.blobs)
      invariant ls + it.todo == old(it.todo)
      invariant !more ==> it.todo == []
      decreases |it.todo|, more
    {
      ghost var todo := it.todo;
      var l := it.Next(e, store);
      more := l.Some?;
      if more {
        Shift(ls, todo);
        ls := ls + [l.value];
      }
    }
  }

  lemma Shift<T>(a: seq<T>, b: seq<T>)
    requires b != []
    ensures a + b == (a + [b[0]]) + b[1..]
  {
  }

  /** The leaves `ls`, the first of them rewritten by `w` with the values `xs`. */
  ghost function Rewritten<L, X>(w: (L, X) -> L, ls: seq<L>, xs: seq<X>): seq<L> {
    seq(|ls|, i requires 0 <= i < |ls| => if i < |xs| then w(ls[i], xs[i]) else ls[i])
  }

  /** One turn of a loop over `iter_mut`: the next leaf, if there is one, is rewritten with `x`. */
  method Assign<L(!new), A(!new), X>(e: Env<L, A>, store: Store, it: LeafIter<L, A>, w: (L, X) -> L, x: X)
    returns (more: bool)
    requires e.Lawful() && store.Valid() && it.Valid(e, store.blobs)
    modifies it, it.branch
    ensures it.Valid(e, store.blobs)
    ensures more <==> old(it.todo) != []
    ensures it.passed == if more then old(it.passed) + [w(old(it.todo)[0], x)] else old(it.passed)
    ensures it.todo == if more then old(it.todo)[1..] else []
  {
    hide LeafIter.Valid;
    var l := it.NextMut(e, store);
    more := l.Some?;
    if more {
      it.Put(e, store.blobs, w(l.value, x));
    }
  }

  ghost predicate Midway<L, X>(w: (L, X) -> L, ls: seq<L>, xs: seq<X>, i: nat, more: bool, passed: seq<L>,
      todo: seq<L>) {
    i <= |xs| && i <= |ls| && passed == Rewritten(w, ls, xs)[..i] && todo == ls[i..] && (!more ==> i == |ls|)
  }

  lemma Onward<L, X>(w: (L, X) -> L, ls: seq<L>, xs: seq<X>, i: nat, passed: seq<L>, todo: seq<L>, more: bool,
      passed': seq<L>, todo': seq<L>)
    requires i < |xs| && Midway(w, ls, xs, i, true, passed, todo)
    requires more <==> todo != []
    requires passed' == if more then passed + [w(todo[0], xs[i])] else passed
    requires todo' == if more then todo[1..] else []
    ensures Midway(w, ls, xs, if more then i + 1 else i, more, passed', todo')
  {
    if more {
      assert passed + [w(todo[0], xs[i])] == Rewritten(w, ls, xs)[..i + 1];
    }
  }

  /** The loop runs until it is out of values or of leaves. */
  method AssignAll<L(!new), A(!new), X>(e: Env<L, A>, store: Store, it: LeafIter<L, A>, w: (L, X) -> L, xs: seq<X>)
    requires e.Lawful() && store.Valid() && it.Valid(e, store.blobs) && it.passed == []
    modifies it, it.branch
    ensures it.Valid(e, store.blobs)
    ensures it.passed + it.todo == Rewritten(w, old(it.todo), xs)
  {
    ghost var ls := it.todo;
    var i, more := 0, true;
    while i < |xs| && more
      invariant it.Valid(e, store.blobs)
      invariant Midway(w, ls, xs, i, more, it.passed, it.todo)
      decreases |xs| - i, more
    {
      ghost var passed, todo := it.passed, it.todo;
      more := Assign(e, store, it, w, xs[i]);
      Onward(w, ls, xs, i, passed, todo, more, it.passed, it.todo);
      i := if more then i + 1 else i;
    }
    Ends(w, ls, xs, i, more, it.passed, it.todo);
  }

  lemma Ends<L, X>(w: (L, X) -> L, ls: seq<L>, xs: seq<X>, i: nat, more: bool, passed: seq<L>, todo: seq<L>)
    requires Midway(w, ls, xs, i, more, passed, todo) && (i == |xs| || !more)
    ensures passed + todo == Rewritten(w, ls, xs)
  {
  }

  /** `iter_mut`, dropped after at most |xs| leaves have been rewritten. */
  method Update<L(!new), A(!new), X>(e: Env<L, A>, store: Store, node: seq<Handle<L, A>>, w: (L, X) -> L, xs: seq<X>,
      ghost ts: seq<Tree<L, A>>)
    returns (node': seq<Handle<L, A>>, ghost us: seq<Tree<L, A>>)
    requires e.Lawful() && store.Valid() && Holds(e, store.blobs, node, ts) && AllExact(e, ts)
    ensures Holds(e, store.blobs, node', us) && AllExact(e, us) && SameShape(ts, us)
    ensures Leaves(us) == Rewritten(w, Leaves(ts), xs)
  {
    var it := new LeafIter(e, store.blobs, Mutable, node, ts);
    AssignAll(e, store, it, w, xs);
    it.Drop(e, store.blobs);
    node', us := it.node, it.tree;
  }

  ghost function Mapped<L>(f: L -> L, ls: seq<L>): seq<L> {
    seq(|ls|, i requires 0 <= i < |ls| => f(ls[i]))
  }

  /** The loop over `iter_mut` run to its end, each leaf rewritten from what it was. */
  method AssignEach<L(!new), A(!new)>(e: Env<L, A>, store: Store, it: LeafIter<L, A>, f: L -> L)
    requires e.Lawful() && store.Valid() && it.Valid(e, store.blobs) && it.passed == []
    modifies it, it.branch
    ensures it.Valid(e, store.blobs) && it.todo == []
    ensures it.passed == Mapped(f, old(it.todo))
  {
    hide LeafIter.Valid;
    ghost var ls, i := it.todo, 0;
    var more := true;
    while more
      invariant it.Valid(e, store.blobs)
      invariant Through(f, ls, i, it.passed, it.todo)
      invariant !more ==> it.todo == []
      decreases |it.todo|, more
    {
      ghost var passed, todo := it.passed, it.todo;
      more := Assign(e, store, it, (l: L, x: ()) => f(l), ());
      if more {
        ThroughNext(f, ls, i, passed, todo);
        i := i + 1;
      }
    }
    assert Mapped(f, ls)[..i] == Mapped(f, ls);
  }

  /** `passed` holds the first `i` of `ls`, rewritten. */
  ghost predicate Through<L>(f: L -> L, ls: seq<L>, i: nat, passed: seq<L>, todo: seq<L>) {
    i <= |ls| && passed == Mapped(f, ls)[..i] && todo == ls[i..]
  }

  lemma ThroughNext<L>(f: L -> L, ls: seq<L>, i: nat, passed: seq<L>, todo: seq<L>)
    requires Through(f, ls, i, passed, todo) && todo != []
    ensures Through(f, ls, i + 1, passed + [f(todo[0])], todo[1..])
  {
    assert Mapped(f, ls)[..i] + [f(ls[i])] == Mapped(f, ls)[..i + 1];
  }

  /** `iter_mut`, run to its end. */
  method UpdateEach<L(!new), A(!new)>(e: Env<L, A>, store: Store, node: seq<Handle<L, A>>, f: L -> L,
      ghost ts: seq<Tree<L, A>>)
    returns (node': seq<Handle<L, A>>, ghost us: seq<Tree<L, A>>)
    requires e.Lawful() && store.Valid() && Holds(e, store.blobs, node, ts) && AllExact(e, ts)
    ensures Holds(e, store.blobs, node', us) && AllExact(e, us) && SameShape(ts, us)
    ensures Leaves(us) == Mapped(f, Leaves(ts))
  {
    var it := new LeafIter(e, store.blobs, Mutable, node, ts);
    AssignEach(e, store, it, f);
    it.Drop(e, store.blobs);
    node', us := it.node, it.tree;
  }
}
