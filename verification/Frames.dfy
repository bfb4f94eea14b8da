/** src/raw_branch.rs on trees: a branch is a stack of frames, each a node and an offset into it. */
module Frames {
  import opened Trees
  import opened Search

  datatype NodeKind = Cached | Mutable | Owned

  datatype Frame<+L, +A> = Frame(ofs: nat, kind: NodeKind, kids: seq<Tree<L, A>>)

  /** The levels of a branch, deepest first. */
  datatype Stack<+L, +A> = Empty | Push(top: Frame<L, A>, rest: Stack<L, A>)

  datatype Found = FoundLeaf | FoundPath | FoundNone

  /** `Level::search`: past the last child the method is not asked. */
  function LevelSearch<M, N>(sel: Method<M, N>, m: M, ofs: nat, kids: seq<N>): (r: (Found, nat, M))
    ensures ofs <= r.1 && (r.0.FoundNone? ==> r.1 == ofs)
    ensures ofs >= |kids| ==> r == (FoundNone, ofs, m)
  {
    if ofs + 1 > |kids| then (FoundNone, ofs, m)
    else
      var (r, m') := sel(m, kids, ofs);
      match r
      case AtLeaf(i) => (FoundLeaf, ofs + i, m')
      case AtPath(i) => (FoundPath, ofs + i, m')
      case Nothing => (FoundNone, ofs, m')
  }

  /** `Level::insert_child`. */
  function InsertChild<L(!new), A(!new)>(e: Env<L, A>, f: Frame<L, A>, kids: seq<Tree<L, A>>): Frame<L, A> {
    if f.ofs < |f.kids| && Combine(e, kids).Some? then
      Frame(f.ofs, if f.kind.Mutable? then Mutable else Owned, f.kids[f.ofs := Tree.Node(Combine(e, kids).value, kids)])
    else f
  }

  /** `pop_level`, with levels left: an owned node goes back into the level below it. */
  function Pop<L(!new), A(!new)>(e: Env<L, A>, fs: Stack<L, A>): Stack<L, A>
    requires fs.Push? && fs.rest.Push?
  {
    if fs.top.kind.Owned? then Push(InsertChild(e, fs.rest.top, fs.top.kids), fs.rest.rest) else fs.rest
  }

  function MoveTop<L, A>(fs: Stack<L, A>, ofs: nat): Stack<L, A>
    requires fs.Push?
  {
    Push(fs.top.(ofs := ofs), fs.rest)
  }

  function Advance<L, A>(fs: Stack<L, A>): Stack<L, A>
    requires fs.Push?
  {
    MoveTop(fs, fs.top.ofs + 1)
  }

  function Enter<L, A>(fs: Stack<L, A>): Stack<L, A>
    requires fs.Push? && fs.top.ofs < |fs.top.kids| && fs.top.kids[fs.top.ofs].Node?
  {
    Push(Frame(0, Cached, fs.top.kids[fs.top.ofs].kids), fs)
  }

  // ---- how much of the tree a branch has yet to see

  function Weight<L, A>(t: Tree<L, A>): nat
    decreases t, 0
  {
    if t.Node? then 2 + Weights(t.kids) else 1
  }

  function Weights<L, A>(ts: seq<Tree<L, A>>): nat
    decreases ts, 1
  {
    if ts == [] then 0 else Weight(ts[0]) + Weights(ts[1..])
  }

  function Ahead<L, A>(ts: seq<Tree<L, A>>, ofs: nat): nat {
    if ofs <= |ts| then Weights(ts[ofs..]) else 0
  }

  function Under<L, A>(fs: Stack<L, A>): nat {
    match fs
    case Empty => 0
    case Push(f, rest) => Under(rest) + 1 + Ahead(f.kids, f.ofs + 1)
  }

  function Measure<L, A>(fs: Stack<L, A>): nat {
    match fs
    case Empty => 0
    case Push(f, rest) => Under(rest) + 1 + Ahead(f.kids, f.ofs)
  }

  lemma {:induction false} AheadShrinks<L, A>(ts: seq<Tree<L, A>>, a: nat, b: nat)
    requires a <= b
    ensures Ahead(ts, b) <= Ahead(ts, a)
    ensures a == b < |ts| ==> Ahead(ts, a) == Weight(ts[a]) + Ahead(ts, a + 1)
    decreases b - a
  {
    if a < |ts| {
      assert ts[a..][1..] == ts[a + 1..];
    }
    if a < b {
      AheadShrinks(ts, a + 1, b);
    }
  }

  /** Leaving a finished level for what follows it makes progress. */
  lemma PopShrinks<L(!new), A(!new)>(e: Env<L, A>, fs: Stack<L, A>)
    requires fs.Push? && fs.rest.Push?
    ensures Measure(Advance(Pop(e, fs))) < Measure(fs)
  {
    var f, g := fs.rest.top, Pop(e, fs).top;
    if f.ofs < |f.kids| {
      assert g.kids[f.ofs + 1..] == f.kids[f.ofs + 1..];
    }
  }

  /** So does entering a node. */
  lemma EnterShrinks<L(!new), A(!new)>(fs: Stack<L, A>, ofs: nat)
    requires fs.Push? && fs.top.ofs <= ofs < |fs.top.kids| && fs.top.kids[ofs].Node?
    ensures Measure(Enter(MoveTop(fs, ofs))) < Measure(fs)
  {
    AheadShrinks(fs.top.kids, fs.top.ofs, ofs);
    AheadShrinks(fs.top.kids, ofs, ofs);
    var child := Enter(MoveTop(fs, ofs)).top;
    assert child.kids[0..] == child.kids;
  }

  /** `RawBranch::search`: the levels it stops at, whether it stopped on a match, and the method's last state.
      Total for every method: the measure is the preorder distance to the end of the tree. */
  function Run<M, L(!new), A(!new)>(e: Env<L, A>, sel: Method<M, Tree<L, A>>, m: M,
      fs: Stack<L, A>): (Stack<L, A>, bool, M)
    decreases Measure(fs)
  {
    if fs.Empty? then (fs, false, m)
    else
      var (found, ofs, m') := LevelSearch(sel, m, fs.top.ofs, fs.top.kids);
      var gs := MoveTop(fs, ofs);
      match found
      case FoundLeaf => (gs, true, m')
      case FoundPath =>
        if ofs < |fs.top.kids| && fs.top.kids[ofs].Node? then
          EnterShrinks(fs, ofs);
          Run(e, sel, m', Enter(gs))
        else (gs, false, m')
      case FoundNone =>
        if fs.rest.Push? then
          PopShrinks(e, fs);
          Run(e, sel, m', Advance(Pop(e, fs)))
        else (gs, false, m')
  }

  // ---- relinking

  /** Each frame holds the node the one below points at, or, once owned, its replacement. */
  ghost predicate Linked<L(!new), A(!new)>(e: Env<L, A>, fs: Stack<L, A>) {
    match fs
    case Empty => false
    case Push(g, Empty) => AllExact(e, g.kids)
    case Push(g, Push(f, rest)) => Linked(e, fs.rest) && Above(e, f, g)
  }

  ghost predicate Above<L(!new), A(!new)>(e: Env<L, A>, f: Frame<L, A>, g: Frame<L, A>) {
    && f.ofs < |f.kids| && f.kids[f.ofs].Node?
    && AllExact(e, g.kids) && Combine(e, g.kids).Some?
    && SameShape(f.kids[f.ofs].kids, g.kids)
    && (g.kind.Cached? ==> g.kids == f.kids[f.ofs].kids)
    && !g.kind.Mutable?
  }

  function Root<L, A>(fs: Stack<L, A>): Frame<L, A>
    requires fs.Push?
  {
    if fs.rest.Push? then Root(fs.rest) else fs.top
  }

  /** The same tree but for the values of its leaves. */
  ghost predicate SameShape<L(!new), A(!new)>(ts: seq<Tree<L, A>>, us: seq<Tree<L, A>>)
    decreases ts, 1
  {
    |ts| == |us| && forall i :: 0 <= i < |ts| ==> SameShapeKid(ts[i], us[i])
  }

  ghost predicate SameShapeKid<L(!new), A(!new)>(t: Tree<L, A>, u: Tree<L, A>)
    decreases t, 0
  {
    match t
    case Empty => u.Empty?
    case Leaf(_) => u.Leaf?
    case Node(_, ts) => u.Node? && SameShape(ts, u.kids)
  }

  lemma {:induction false} SameShapeRefl<L(!new), A(!new)>(ts: seq<Tree<L, A>>)
    ensures SameShape(ts, ts)
  {
    forall i | 0 <= i < |ts|
      ensures SameShapeKid(ts[i], ts[i])
    {
      if ts[i].Node? {
        SameShapeRefl(ts[i].kids);
      }
    }
  }

  lemma {:induction false} SameShapeTrans<L(!new), A(!new)>(ts: seq<Tree<L, A>>, us: seq<Tree<L, A>>,
      vs: seq<Tree<L, A>>)
    requires SameShape(ts, us) && SameShape(us, vs)
    ensures SameShape(ts, vs)
  {
    forall i | 0 <= i < |ts|
      ensures SameShapeKid(ts[i], vs[i])
    {
      assert SameShapeKid(ts[i], us[i]) && SameShapeKid(us[i], vs[i]);
      if ts[i].Node? {
        SameShapeTrans(ts[i].kids, us[i].kids, vs[i].kids);
      }
    }
  }

  lemma {:induction false} SameShapeSym<L(!new), A(!new)>(ts: seq<Tree<L, A>>, us: seq<Tree<L, A>>)
    requires SameShape(ts, us)
    ensures SameShape(us, ts)
    decreases ts
  {
    forall i | 0 <= i < |ts|
      ensures SameShapeKid(us[i], ts[i])
    {
      assert SameShapeKid(ts[i], us[i]);
      if ts[i].Node? {
        SameShapeSym(ts[i].kids, us[i].kids);
      }
    }
  }

  /** One child replaced by one of the same shape. */
  lemma ReplacedKid<L(!new), A(!new)>(e: Env<L, A>, ts: seq<Tree<L, A>>, i: nat, t: Tree<L, A>)
    requires AllExact(e, ts) && i < |ts| && SameShapeKid(ts[i], t) && Exact(e, t) && !t.Empty?
    ensures AllExact(e, ts[i := t]) && SameShape(ts, ts[i := t]) && Combine(e, ts[i := t]).Some?
  {
    CombineSome(e, ts[i := t], i);
    SameShapeRefl(ts);
    forall j | 0 <= j < |ts|
      ensures SameShapeKid(ts[j], ts[i := t][j]) && Exact(e, ts[i := t][j])
    {
      assert Exact(e, ts[j]) && SameShapeKid(ts[j], ts[j]);
    }
  }

  /** `relink`: the root, once every owned node is back in place. */
  ghost function Relink<L(!new), A(!new)>(e: Env<L, A>, fs: Stack<L, A>): seq<Tree<L, A>>
    requires fs.Push?
    decreases fs.rest
  {
    if fs.rest.Empty? then fs.top.kids else Relink(e, Pop(e, fs))
  }

  lemma InsertedChild<L(!new), A(!new)>(e: Env<L, A>, f: Frame<L, A>, g: Frame<L, A>)
    requires AllExact(e, f.kids) && Above(e, f, g)
    ensures var p := InsertChild(e, f, g.kids);
      && p.ofs == f.ofs && !p.kind.Cached? && (p.kind.Mutable? <==> f.kind.Mutable?)
      && p.kids == f.kids[f.ofs := Tree.Node(Combine(e, g.kids).value, g.kids)]
      && AllExact(e, p.kids) && SameShape(f.kids, p.kids) && Combine(e, p.kids).Some?
  {
    ReplacedKid(e, f.kids, f.ofs, Tree.Node(Combine(e, g.kids).value, g.kids));
  }

  lemma PopLinked<L(!new), A(!new)>(e: Env<L, A>, fs: Stack<L, A>)
    requires Linked(e, fs) && fs.rest.Push?
    ensures Linked(e, Pop(e, fs))
    ensures AllExact(e, fs.rest.top.kids) && Above(e, fs.rest.top, fs.top)
    ensures var (p, f) := (Pop(e, fs).top, fs.rest.top);
      && p.ofs == f.ofs < |f.kids| && |p.kids| == |f.kids| && LeavesOf(p.kids[p.ofs]) == Leaves(fs.top.kids)
      && p.kids[..p.ofs] == f.kids[..f.ofs] && p.kids[p.ofs + 1..] == f.kids[f.ofs + 1..]
      && SameShape(f.kids, p.kids) && (p.kind.Mutable? <==> f.kind.Mutable?)
  {
    var f := fs.rest.top;
    if fs.top.kind.Owned? {
      InsertedChild(e, f, fs.top);
      var p := Pop(e, fs).top;
      if fs.rest.rest.Push? {
        var q := fs.rest.rest.top;
        SameShapeTrans(q.kids[q.ofs].kids, f.kids, p.kids);
      }
    } else {
      SameShapeRefl(f.kids);
    }
  }

  lemma MoveKeeps<L(!new), A(!new)>(e: Env<L, A>, fs: Stack<L, A>, ofs: nat)
    requires Linked(e, fs)
    ensures Linked(e, MoveTop(fs, ofs)) && Relink(e, MoveTop(fs, ofs)) == Relink(e, fs)
  {
  }

  lemma EnterKeeps<L(!new), A(!new)>(e: Env<L, A>, fs: Stack<L, A>)
    requires Linked(e, fs) && fs.top.ofs < |fs.top.kids| && fs.top.kids[fs.top.ofs].Node?
    ensures Linked(e, Enter(fs)) && Relink(e, Enter(fs)) == Relink(e, fs)
  {
    assert AllExact(e, fs.top.kids);
    assert Exact(e, fs.top.kids[fs.top.ofs]);
    SameShapeRefl(fs.top.kids[fs.top.ofs].kids);
  }

  /** No search, whatever its method, changes the tree a branch stands in. */
  lemma {:induction false} RunKeeps<M, L(!new), A(!new)>(e: Env<L, A>, sel: Method<M, Tree<L, A>>, m: M,
      fs: Stack<L, A>)
    requires Linked(e, fs)
    ensures var gs := Run(e, sel, m, fs).0; Linked(e, gs) && Relink(e, gs) == Relink(e, fs)
    decreases Measure(fs)
  {
    var (found, ofs, m') := LevelSearch(sel, m, fs.top.ofs, fs.top.kids);
    var gs := MoveTop(fs, ofs);
    MoveKeeps(e, fs, ofs);
    match found
    case FoundLeaf =>
    case FoundPath =>
      if ofs < |fs.top.kids| && fs.top.kids[ofs].Node? {
        EnterShrinks(fs, ofs);
        EnterKeeps(e, gs);
        RunKeeps(e, sel, m', Enter(gs));
      }
    case FoundNone =>
      if fs.rest.Push? {
        PopShrinks(e, fs);
        PopLinked(e, fs);
        MoveKeeps(e, Pop(e, fs), Pop(e, fs).top.ofs + 1);
        RunKeeps(e, sel, m', Advance(Pop(e, fs)));
      }
  }

  lemma {:induction false} RelinkShape<L(!new), A(!new)>(e: Env<L, A>, fs: Stack<L, A>)
    requires Linked(e, fs)
    ensures AllExact(e, Relink(e, fs)) && SameShape(Root(fs).kids, Relink(e, fs))
    decreases fs.rest
  {
    if fs.rest.Empty? {
      SameShapeRefl(fs.top.kids);
    } else {
      PopLinked(e, fs);
      RelinkShape(e, Pop(e, fs));
      PopRoot(e, fs);
      SameShapeTrans(Root(fs).kids, Root(Pop(e, fs)).kids, Relink(e, fs));
    }
  }

  lemma PopRoot<L(!new), A(!new)>(e: Env<L, A>, fs: Stack<L, A>)
    requires Linked(e, fs) && fs.rest.Push?
    ensures SameShape(Root(fs).kids, Root(Pop(e, fs)).kids)
  {
    PopLinked(e, fs);
    SameShapeRefl(Root(fs).kids);
  }

  // ---- leaves before and after a branch

  function LeavesTo<L, A>(ts: seq<Tree<L, A>>, ofs: nat): seq<L> {
    if ofs <= |ts| then Leaves(ts[..ofs]) else Leaves(ts)
  }

  function LeavesFrom<L, A>(ts: seq<Tree<L, A>>, ofs: nat): seq<L> {
    if ofs <= |ts| then Leaves(ts[ofs..]) else []
  }

  lemma LeavesSplit<L, A>(ts: seq<Tree<L, A>>, ofs: nat)
    ensures Leaves(ts) == LeavesTo(ts, ofs) + LeavesFrom(ts, ofs)
  {
    if ofs <= |ts| {
      assert ts == ts[..ofs] + ts[ofs..];
      LeavesConcat(ts[..ofs], ts[ofs..]);
    }
  }

  lemma LeavesStep<L, A>(ts: seq<Tree<L, A>>, i: nat)
    requires i < |ts|
    ensures LeavesFrom(ts, i) == LeavesOf(ts[i]) + LeavesFrom(ts, i + 1)
    ensures LeavesTo(ts, i + 1) == LeavesTo(ts, i) + LeavesOf(ts[i])
    ensures ts[i].Empty? ==> LeavesFrom(ts, i) == LeavesFrom(ts, i + 1)
  {
    assert ts[i..] == [ts[i]] + ts[i + 1..] && ts[..i + 1] == ts[..i] + [ts[i]];
    LeavesConcat([ts[i]], ts[i + 1..]);
    LeavesConcat(ts[..i], [ts[i]]);
    assert Leaves([ts[i]]) == LeavesOf(ts[i]) + [] == LeavesOf(ts[i]);
  }

  /** Leaves left of what the frames point at. */
  function Before<L, A>(fs: Stack<L, A>): seq<L> {
    match fs
    case Empty => []
    case Push(f, rest) => Before(rest) + LeavesTo(f.kids, f.ofs)
  }

  /** Leaves right of what the frames point at. */
  function After<L, A>(fs: Stack<L, A>): seq<L> {
    match fs
    case Empty => []
    case Push(f, rest) => LeavesFrom(f.kids, f.ofs + 1) + After(rest)
  }

  /** Leaves a branch has yet to visit, the one it points at included. */
  function Pending<L, A>(fs: Stack<L, A>): seq<L> {
    match fs
    case Empty => []
    case Push(f, rest) => LeavesFrom(f.kids, f.ofs) + After(rest)
  }

  lemma Regroup<T>(a: seq<T>, x: seq<T>, y: seq<T>, z: seq<T>, b: seq<T>)
    ensures a + (x + y + z) + b == (a + x) + y + (z + b)
  {
  }

  lemma {:induction false} RelinkLeaves<L(!new), A(!new)>(e: Env<L, A>, fs: Stack<L, A>)
    requires Linked(e, fs)
    ensures Leaves(Relink(e, fs)) == Before(fs.rest) + Leaves(fs.top.kids) + After(fs.rest)
    decreases fs.rest
  {
    if fs.rest.Push? {
      var p, rest := Pop(e, fs).top, fs.rest.rest;
      PopLinked(e, fs);
      RelinkLeaves(e, Pop(e, fs));
      LeavesAt(p.kids, p.ofs);
      Regroup(Before(rest), Leaves(p.kids[..p.ofs]), Leaves(fs.top.kids), Leaves(p.kids[p.ofs + 1..]), After(rest));
    } else {
      assert Leaves(fs.top.kids) == [] + Leaves(fs.top.kids) + [];
    }
  }

  /** The tree's leaves are those a branch has passed and those it has yet to visit. */
  lemma Visited<L(!new), A(!new)>(e: Env<L, A>, fs: Stack<L, A>)
    requires Linked(e, fs)
    ensures Leaves(Relink(e, fs)) == Before(fs) + Pending(fs)
  {
    var f := fs.top;
    RelinkLeaves(e, fs);
    LeavesSplit(f.kids, f.ofs);
    Regroup(Before(fs.rest), LeavesTo(f.kids, f.ofs), LeavesFrom(f.kids, f.ofs), [], After(fs.rest));
  }

  // ---- iteration

  ghost predicate AtLeafOf<L(!new), A(!new)>(fs: Stack<L, A>, l: L) {
    fs.Push? && fs.top.ofs < |fs.top.kids| && fs.top.kids[fs.top.ofs] == Tree.Leaf(l)
  }

  lemma {:induction false} FirstFinds<L(!new), A(!new)>(ts: seq<Tree<L, A>>, ofs: nat, i: nat)
    requires ofs <= i <= |ts|
    ensures match FirstFrom(TreeViews(ts), ofs, i)
            case AtLeaf(j) => i <= ofs + j < |ts| && ts[ofs + j].Leaf? && LeavesFrom(ts, i) == LeavesFrom(ts, ofs + j)
            case AtPath(j) => i <= ofs + j < |ts| && ts[ofs + j].Node? && LeavesFrom(ts, i) == LeavesFrom(ts, ofs + j)
            case Nothing => LeavesFrom(ts, i) == []
    decreases |ts| - i
  {
    if i == |ts| {
      assert ts[i..] == [];
    } else if ts[i].Empty? {
      LeavesStep(ts, i);
      FirstFinds(ts, ofs, i + 1);
    } else {
      assert FirstFrom(TreeViews(ts), ofs, i) == if ts[i].Leaf? then AtLeaf(i - ofs) else AtPath(i - ofs);
    }
  }

  /** What `First` finds in a node from an offset on: the next child that is not empty. */
  lemma FirstLevel<L(!new), A(!new)>(ts: seq<Tree<L, A>>, ofs: nat)
    ensures var (found, i, _) := LevelSearch(OnTrees(First), (), ofs, ts);
              match found
              case FoundLeaf => ofs <= i < |ts| && ts[i].Leaf? && LeavesFrom(ts, ofs) == LeavesFrom(ts, i)
              case FoundPath => ofs <= i < |ts| && ts[i].Node? && LeavesFrom(ts, ofs) == LeavesFrom(ts, i)
              case FoundNone => LeavesFrom(ts, ofs) == []
  {
    hide FirstFrom, OnTrees;
    if ofs < |ts| {
      FirstFinds(ts, ofs, ofs);
      FirstOnTrees(ts, ofs);
    }
  }

  lemma EnterPending<L(!new), A(!new)>(fs: Stack<L, A>)
    requires fs.Push? && fs.top.ofs < |fs.top.kids| && fs.top.kids[fs.top.ofs].Node?
    ensures Pending(Enter(fs)) == Pending(fs)
  {
    var f := fs.top;
    LeavesStep(f.kids, f.ofs);
    assert f.kids[f.ofs].kids[0..] == f.kids[f.ofs].kids;
    var x, y, z := LeavesOf(f.kids[f.ofs]), LeavesFrom(f.kids, f.ofs + 1), After(fs.rest);
    assert x + (y + z) == (x + y) + z;
  }

  lemma LeafPending<L(!new), A(!new)>(fs: Stack<L, A>, l: L)
    requires AtLeafOf(fs, l)
    ensures Pending(fs) == [l] + After(fs)
  {
    var f := fs.top;
    LeavesStep(f.kids, f.ofs);
    assert LeavesOf(f.kids[f.ofs]) == [l];
    Reassociate([l], LeavesFrom(f.kids, f.ofs + 1), After(fs.rest));
  }

  lemma PopPending<L(!new), A(!new)>(e: Env<L, A>, fs: Stack<L, A>)
    requires Linked(e, fs) && fs.rest.Push?
    ensures Linked(e, Advance(Pop(e, fs))) && Pending(Advance(Pop(e, fs))) == After(fs.rest)
  {
    PopLinked(e, fs);
    MoveKeeps(e, Pop(e, fs), Pop(e, fs).top.ofs + 1);
  }

  /** Searching with `First` stops on the first leaf not yet visited, and only fails when there is none. */
  lemma {:induction false} FirstRun<L(!new), A(!new)>(e: Env<L, A>, fs: Stack<L, A>)
    requires Linked(e, fs)
    ensures var (gs, exact, _) := Run(e, OnTrees(First), (), fs);
      if Pending(fs) == [] then !exact else exact && AtLeafOf(gs, Pending(fs)[0]) && Pending(gs) == Pending(fs)
    decreases Measure(fs)
  {
    hide OnTrees, FirstFrom, Relink;
    var f := fs.top;
    var (found, ofs, m) := LevelSearch(OnTrees(First), (), f.ofs, f.kids);
    var gs := MoveTop(fs, ofs);
    MoveKeeps(e, fs, ofs);
    FirstLevel(f.kids, f.ofs);
    assert m == ();
    match found
    case FoundLeaf =>
      LeafPending(gs, f.kids[ofs].leaf);
      assert Pending(gs) == Pending(fs);
    case FoundPath =>
      assert Pending(gs) == Pending(fs);
      EnterPending(gs);
      EnterShrinks(fs, ofs);
      EnterKeeps(e, gs);
      FirstRun(e, Enter(gs));
    case FoundNone =>
      assert Pending(fs) == After(fs.rest);
      if fs.rest.Push? {
        PopShrinks(e, fs);
        PopPending(e, fs);
        FirstRun(e, Advance(Pop(e, fs)));
      }
  }

  /** Where `First` leaves a branch: on the next leaf, or, the tree being done, with all of it passed. */
  lemma FirstSettles<L(!new), A(!new)>(e: Env<L, A>, fs: Stack<L, A>)
    requires Linked(e, fs)
    ensures var (gs, exact, _) := Run(e, OnTrees(First), (), fs);
      && Linked(e, gs) && Relink(e, gs) == Relink(e, fs)
      && if Pending(fs) == [] then !exact && Leaves(Relink(e, gs)) == Before(fs)
         else exact && AtLeafOf(gs, Pending(fs)[0]) && Before(gs) == Before(fs) && After(gs) == Pending(fs)[1..]
  {
    var (gs, exact, _) := Run(e, OnTrees(First), (), fs);
    RunKeeps(e, OnTrees(First), (), fs);
    FirstRun(e, fs);
    Visited(e, fs);
    Visited(e, gs);
    if Pending(fs) != [] {
      LeafPending(gs, Pending(fs)[0]);
      CancelRight(Before(gs), Before(fs), Pending(fs));
    }
  }

  lemma CancelRight<T>(a: seq<T>, b: seq<T>, c: seq<T>)
    requires a + c == b + c
    ensures a == b
  {
    assert |a| == |b|;
    assert a == (a + c)[..|a|] && b == (b + c)[..|b|];
  }

  /** Writing through `leaf_mut`: the node at the top is cloned if it was only borrowed. */
  function SetLeaf<L(!new), A(!new)>(fs: Stack<L, A>, l: L): Stack<L, A>
    requires fs.Push? && fs.top.ofs < |fs.top.kids|
  {
    var f := fs.top;
    Push(Frame(f.ofs, if f.kind.Cached? then Owned else f.kind, f.kids[f.ofs := Tree.Leaf(l)]), fs.rest)
  }

  lemma SetLeafLinked<L(!new), A(!new)>(e: Env<L, A>, fs: Stack<L, A>, was: L, l: L)
    requires Linked(e, fs) && AtLeafOf(fs, was)
    ensures Linked(e, SetLeaf(fs, l)) && AtLeafOf(SetLeaf(fs, l), l)
    ensures SameShape(Root(fs).kids, Root(SetLeaf(fs, l)).kids)
  {
    var f, g := fs.top, SetLeaf(fs, l).top;
    ReplacedKid(e, f.kids, f.ofs, Tree.Leaf(l));
    if fs.rest.Push? {
      var p := fs.rest.top;
      SameShapeTrans(p.kids[p.ofs].kids, f.kids, g.kids);
      SameShapeRefl(Root(fs).kids);
      assert Root(SetLeaf(fs, l)) == Root(fs.rest) == Root(fs);
    }
  }

  /** The tree a branch stands in, before and after a leaf was written through it. */
  lemma SetLeafWrites<L(!new), A(!new)>(e: Env<L, A>, fs: Stack<L, A>, was: L, l: L)
    requires Linked(e, fs) && AtLeafOf(fs, was)
    ensures Before(SetLeaf(fs, l)) == Before(fs) && After(SetLeaf(fs, l)) == After(fs)
    ensures SameShape(Relink(e, fs), Relink(e, SetLeaf(fs, l)))
  {
    var f, gs := fs.top, SetLeaf(fs, l);
    assert gs.top.kids[..f.ofs] == f.kids[..f.ofs] && gs.top.kids[f.ofs + 1..] == f.kids[f.ofs + 1..];
    SetLeafLinked(e, fs, was, l);
    RelinkShape(e, fs);
    RelinkShape(e, gs);
    SameShapeSym(Root(fs).kids, Relink(e, fs));
    SameShapeTrans(Relink(e, fs), Root(fs).kids, Root(gs).kids);
    SameShapeTrans(Relink(e, fs), Root(gs).kids, Relink(e, gs));
  }

  /** The tree around a branch that points at a leaf. */
  lemma Stands<L(!new), A(!new)>(e: Env<L, A>, fs: Stack<L, A>, l: L)
    requires Linked(e, fs) && AtLeafOf(fs, l)
    ensures AllExact(e, Relink(e, fs)) && Leaves(Relink(e, fs)) == Before(fs) + [l] + After(fs)
  {
    Visited(e, fs);
    LeafPending(fs, l);
    RelinkShape(e, fs);
    assert Before(fs) + ([l] + After(fs)) == Before(fs) + [l] + After(fs);
  }

  /** Stepping past a leaf. */
  lemma Resumes<L(!new), A(!new)>(e: Env<L, A>, fs: Stack<L, A>, l: L)
    requires Linked(e, fs) && AtLeafOf(fs, l)
    ensures Linked(e, Advance(fs)) && Relink(e, Advance(fs)) == Relink(e, fs)
    ensures Before(Advance(fs)) == Before(fs) + [l] && Pending(Advance(fs)) == After(fs)
  {
    LeavesStep(fs.top.kids, fs.top.ofs);
    MoveKeeps(e, fs, fs.top.ofs + 1);
  }

  lemma Starts<L(!new), A(!new)>(e: Env<L, A>, kind: NodeKind, ts: seq<Tree<L, A>>)
    requires AllExact(e, ts)
    ensures var fs := Push(Frame(0, kind, ts), Stack.Empty);
      Linked(e, fs) && Relink(e, fs) == ts && Before(fs) == [] && Pending(fs) == Leaves(ts) && SameShape(ts, ts)
  {
    SameShapeRefl(ts);
    assert ts[0..] == ts && ts[..0] == [];
  }
}
