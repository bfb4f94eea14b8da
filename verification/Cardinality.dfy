/** src/annotations/mod.rs, src/annotations/cardinality.rs: what annotations say about the leaves, and picking the
    n-th leaf by them. */
module Cardinality {
  import opened Trees
  import opened Content
  import opened Store
  import opened Handles
  import opened Search
  import opened Frames
  import opened Branch

  // ---- associative annotations

  ghost predicate Associative<L(!new), A(!new)>(e: Env<L, A>) {
    forall a, b, c {:trigger e.op(e.op(a, b), c)} :: e.op(e.op(a, b), c) == e.op(a, e.op(b, c))
  }

  /** The annotation of a sequence of leaves, taken one by one. */
  ghost function Fold<L(!new), A(!new)>(e: Env<L, A>, ls: seq<L>): Option<A> {
    if ls == [] then Option.None else Join(e, Fold(e, ls[..|ls| - 1]), Some(e.from(ls[|ls| - 1])))
  }

  lemma FoldLast<L(!new), A(!new)>(e: Env<L, A>, a: seq<L>, l: L)
    ensures Fold(e, a + [l]) == Join(e, Fold(e, a), Some(e.from(l)))
  {
    assert (a + [l])[..|a|] == a;
  }

  lemma {:induction false} FoldConcat<L(!new), A(!new)>(e: Env<L, A>, a: seq<L>, b: seq<L>)
    requires Associative(e)
    ensures Fold(e, a + b) == Join(e, Fold(e, a), Fold(e, b))
    decreases |b|
  {
    if b == [] {
      assert a + b == a;
    } else {
      var n := |b| - 1;
      FoldConcat(e, a, b[..n]);
      FoldLast(e, a + b[..n], b[n]);
      FoldLast(e, b[..n], b[n]);
      assert a + b == (a + b[..n]) + [b[n]] && b == b[..n] + [b[n]];
      JoinAssociative(e, Fold(e, a), Fold(e, b[..n]), Some(e.from(b[n])));
    }
  }

  lemma JoinAssociative<L(!new), A(!new)>(e: Env<L, A>, a: Option<A>, b: Option<A>, c: Option<A>)
    requires Associative(e)
    ensures Join(e, Join(e, a, b), c) == Join(e, a, Join(e, b, c))
  {
  }

  /** However its nodes are arranged, an exactly annotated tree carries the fold over its leaves. */
  lemma {:induction false} CombineIsFold<L(!new), A(!new)>(e: Env<L, A>, ts: seq<Tree<L, A>>)
    requires Associative(e) && AllExact(e, ts)
    ensures Combine(e, ts) == Fold(e, Leaves(ts))
    decreases ts, |ts|
  {
    if ts != [] {
      var n := |ts| - 1;
      CombineIsFold(e, ts[..n]);
      AnnIsFold(e, ts[n]);
      LeavesAt(ts, n);
      assert ts[n + 1..] == [] && Leaves(ts) == Leaves(ts[..n]) + LeavesOf(ts[n]);
      FoldConcat(e, Leaves(ts[..n]), LeavesOf(ts[n]));
    }
  }

  lemma {:induction false} AnnIsFold<L(!new), A(!new)>(e: Env<L, A>, t: Tree<L, A>)
    requires Associative(e) && Exact(e, t)
    ensures AnnOf(e, t) == Fold(e, LeavesOf(t))
    decreases t
  {
    match t
    case Empty =>
    case Leaf(l) => assert [l][..0] == [];
    case Node(_, kids) => CombineIsFold(e, kids);
  }

  /** The fold by its two laws: one leaf has its own annotation, and of two stretches of leaves the left one is the left
      operand. */
  lemma FoldIs<L(!new), A(!new)>(e: Env<L, A>, a: seq<L>, b: seq<L>)
    requires Associative(e)
    ensures Fold(e, a).None? <==> a == []
    ensures |a| == 1 ==> Fold(e, a) == Some(e.from(a[0]))
    ensures a != [] && b != [] ==> Fold(e, a + b) == Some(e.op(Fold(e, a).value, Fold(e, b).value))
  {
    FoldConcat(e, a, b);
    if b != [] {
      assert b == b[..|b| - 1] + [b[|b| - 1]];
      FoldLast(e, b[..|b| - 1], b[|b| - 1]);
    }
  }

  // ---- counting

  /** The annotation carries a cardinality, which `cnt` borrows. */
  ghost predicate Counting<L(!new), A(!new)>(e: Env<L, A>, cnt: A -> nat) {
    && (forall l :: cnt(e.from(l)) == 1)
    && (forall a, b :: cnt(e.op(a, b)) == cnt(a) + cnt(b))
  }

  function Total<A>(cnt: A -> nat, a: Option<A>): nat {
    if a.Some? then cnt(a.value) else 0
  }

  lemma {:induction false} KidsTotal<L(!new), A(!new)>(e: Env<L, A>, cnt: A -> nat, ts: seq<Tree<L, A>>)
    requires Counting(e, cnt) && AllExact(e, ts)
    ensures Total(cnt, Combine(e, ts)) == |Leaves(ts)|
    decreases ts, |ts|
  {
    if ts != [] {
      var n := |ts| - 1;
      KidsTotal(e, cnt, ts[..n]);
      KidTotal(e, cnt, ts[n]);
      LeavesAt(ts, n);
      assert ts[n + 1..] == [];
    }
  }

  lemma {:induction false} KidTotal<L(!new), A(!new)>(e: Env<L, A>, cnt: A -> nat, t: Tree<L, A>)
    requires Counting(e, cnt) && Exact(e, t)
    ensures Total(cnt, AnnOf(e, t)) == |LeavesOf(t)|
    decreases t
  {
    if t.Node? {
      KidsTotal(e, cnt, t.kids);
    }
  }

  /** `count`. */
  method Count<L(!new), A(!new)>(e: Env<L, A>, cnt: A -> nat, ghost s: Blobs, kids: seq<Handle<L, A>>,
      ghost ts: seq<Tree<L, A>>)
    returns (n: nat)
    requires Counting(e, cnt) && Holds(e, s, kids, ts) && AllExact(e, ts)
    ensures n == |Leaves(ts)|
  {
    KidsTotal(e, cnt, ts);
    var a := Combined(e, s, kids, ts);
    n := if a.Some? then cnt(a.value) else 0;
  }

  // ---- the n-th leaf

  /** `Nth::select` from child `i` on, with `n` leaves still to skip. */
  function NthFrom<L(!new), A(!new)>(cnt: A -> nat, n: nat, views: seq<View<L, A>>, i: nat): (SearchResult, nat)
    requires i <= |views|
    decreases |views| - i
  {
    if i == |views| then (Nothing, n)
    else
      match views[i]
      case LeafView(_) => if n == 0 then (AtLeaf(i), n) else NthFrom(cnt, n - 1, views, i + 1)
      case NodeView(a) => if n >= cnt(a) then NthFrom(cnt, n - cnt(a), views, i + 1) else (AtPath(i), n)
      case NoView => NthFrom(cnt, n, views, i + 1)
  }

  /** `Nth::select`: the answer, and what is left of the counter. */
  method NthSelect<L(!new), A(!new)>(cnt: A -> nat, n: nat, views: seq<View<L, A>>) returns (r: SearchResult, n': nat)
    ensures (r, n') == NthFrom(cnt, n, views, 0)
  {
    n' := n;
    for i := 0 to |views|
      invariant NthFrom(cnt, n', views, i) == NthFrom(cnt, n, views, 0)
    {
      match views[i]
      case LeafView(_) =>
        if n' == 0 {
          return AtLeaf(i), n';
        }
        n' := n' - 1;
      case NodeView(a) =>
        if n' >= cnt(a) {
          n' := n' - cnt(a);
        } else {
          return AtPath(i), n';
        }
      case NoView =>
    }
    r := Nothing;
  }

  function Nth<L(!new), A(!new)>(cnt: A -> nat): Method<nat, View<L, A>> {
    (n: nat, views: seq<View<L, A>>, _) => NthFrom(cnt, n, views, 0)
  }

  ghost predicate NthFinds<L(!new), A(!new)>(ts: seq<Tree<L, A>>, n: nat, r: SearchResult, n': nat) {
    match r
    case AtLeaf(i) => i < |ts| && ts[i].Leaf? && n == |Leaves(ts[..i])| && n' == 0
    case AtPath(i) => i < |ts| && ts[i].Node? && n == |Leaves(ts[..i])| + n' && n' < |LeavesOf(ts[i])|
    case Nothing => n == |Leaves(ts)| + n'
  }

  lemma ViewCounts<L(!new), A(!new)>(e: Env<L, A>, cnt: A -> nat, ts: seq<Tree<L, A>>, i: nat)
    requires Counting(e, cnt) && AllExact(e, ts) && i < |ts|
    ensures |LeavesOf(ts[i])| ==
            match TreeViews(ts)[i] case NoView => 0 case LeafView(_) => 1 case NodeView(a) => cnt(a)
    ensures match TreeViews(ts)[i]
            case NoView => ts[i].Empty?
            case LeafView(_) => ts[i].Leaf?
            case NodeView(_) => ts[i].Node?
  {
    assert Exact(e, ts[i]);
    KidTotal(e, cnt, ts[i]);
  }

  /** `Nth` answers with the child the n-th leaf is in, and counts down to its place there. */
  lemma {:induction false} NthSelects<L(!new), A(!new)>(e: Env<L, A>, cnt: A -> nat, ts: seq<Tree<L, A>>, n: nat,
      i: nat, m: nat)
    requires Counting(e, cnt) && AllExact(e, ts)
    requires i <= |ts| && n == |Leaves(ts[..i])| + m
    ensures var (r, n') := NthFrom(cnt, m, TreeViews(ts), i); NthFinds(ts, n, r, n')
    decreases |ts| - i
  {
    hide Leaves, Counting, AllExact;
    if i == |ts| {
      assert ts[..i] == ts;
    } else {
      var size := |LeavesOf(ts[i])|;
      ViewCounts(e, cnt, ts, i);
      if m >= size {
        assert |Leaves(ts[..i + 1])| == |Leaves(ts[..i])| + size by {
          LeavesStep(ts, i);
        }
        NthSelects(e, cnt, ts, n, i + 1, m - size);
      }
    }
  }

  lemma NthPlace<L, A>(ts: seq<Tree<L, A>>, i: nat, n: nat, n': nat)
    requires i < |ts| && n == |Leaves(ts[..i])| + n' && n' < |LeavesOf(ts[i])|
    ensures n < |Leaves(ts)| && Leaves(ts)[n] == LeavesOf(ts[i])[n']
  {
    LeavesAt(ts, i);
  }

  /** The levels `gs` were reached from `fs` by entering nodes only. */
  ghost predicate Entered<L, A>(fs: Stack<L, A>, gs: Stack<L, A>) {
    gs == fs || (gs.Push? && Entered(fs, gs.rest))
  }

  /** A search for leaf `n` of a node that has it ends on that leaf, without ever leaving the node for the level
      below. */
  lemma {:induction false} NthRun<L(!new), A(!new)>(e: Env<L, A>, cnt: A -> nat, n: nat, fs: Stack<L, A>)
    requires Counting(e, cnt)
    requires fs.Push? && fs.top.ofs == 0 && AllExact(e, fs.top.kids) && n < |Leaves(fs.top.kids)|
    ensures var (gs, exact, _) := Run(e, OnTrees(Nth(cnt)), n, fs);
      && exact && AtLeafOf(gs, Leaves(fs.top.kids)[n])
      && Entered(fs.rest, gs) && |Before(gs)| == |Before(fs.rest)| + n
    decreases Measure(fs)
  {
    var ts := fs.top.kids;
    NthSelects(e, cnt, ts, n, 0, n);
    var (r, n') := NthFrom(cnt, n, TreeViews(ts), 0);
    var i := r.i;
    assert r.Nothing? ==> n >= |Leaves(ts)|;
    NthPlace(ts, i, n, n');
    hide Leaves, Counting, NthFrom;
    var gs := MoveTop(fs, i);
    if r.AtPath? {
      EnterShrinks(fs, i);
      assert Exact(e, ts[i]);
      NthRun(e, cnt, n', Enter(gs));
      var (hs, _, _) := Run(e, OnTrees(Nth(cnt)), n', Enter(gs));
      EnteredBelow(fs.rest, gs, hs);
    } else {
      assert Entered(fs.rest, fs.rest);
    }
  }

  lemma {:induction false} EnteredBelow<L, A>(fs: Stack<L, A>, gs: Stack<L, A>, hs: Stack<L, A>)
    requires Entered(gs, hs) && gs.Push? && gs.rest == fs
    ensures Entered(fs, hs)
    decreases hs
  {
    if hs == gs {
      assert Entered(fs, gs.rest);
    } else {
      EnteredBelow(fs, gs, hs.rest);
    }
  }

  /** Past the last leaf, a search from the root finds nothing. */
  lemma NthPastEnd<L(!new), A(!new)>(e: Env<L, A>, cnt: A -> nat, n: nat, fs: Stack<L, A>)
    requires Counting(e, cnt)
    requires fs.Push? && fs.rest.Empty? && fs.top.ofs == 0 && AllExact(e, fs.top.kids) && n >= |Leaves(fs.top.kids)|
    ensures !Run(e, OnTrees(Nth(cnt)), n, fs).1
  {
    var ts := fs.top.kids;
    NthSelects(e, cnt, ts, n, 0, n);
    var (r, n') := NthFrom(cnt, n, TreeViews(ts), 0);
    if !r.Nothing? {
      LeavesAt(ts, r.i);
    }
  }

  /** `nth`: the leaf that has `n` leaves to its left. */
  method GetNth<L(!new), A(!new)>(e: Env<L, A>, cnt: A -> nat, store: Store, kids: seq<Handle<L, A>>, n: nat,
      ghost ts: seq<Tree<L, A>>)
    returns (r: Option<L>)
    requires e.Lawful() && Counting(e, cnt) && store.Valid()
    requires Holds(e, store.blobs, kids, ts) && AllExact(e, ts)
    ensures r == if n < |Leaves(ts)| then Some(Leaves(ts)[n]) else Option.None
  {
    var branch := new RawBranch(e, store.blobs, Cached, kids, ts);
    ghost var fs := branch.frames;
    ViewsAgree(e, store.blobs, Nth(cnt));
    var _ := branch.Search(e, store, OnHandles(Nth(cnt)), OnTrees(Nth(cnt)), n);
    r := branch.Leaf();
    if n < |Leaves(ts)| {
      NthRun(e, cnt, n, fs);
      branch.LeafSeen(e, store.blobs, Leaves(ts)[n]);
    } else {
      NthPastEnd(e, cnt, n, fs);
    }
  }
}
