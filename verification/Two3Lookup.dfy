/** structures/two3/src/lib.rs: looking keys up in a 2-3 tree, and how high one gets. */
module Two3Lookup {
  import opened Trees
  import opened KeyValues
  import opened Search
  import opened Frames
  import Two3

  /** `Two3TreeSearch::select`, which does not look at the offset. */
  function Lookup<V(!new), A(!new)>(e: Env<KV<V>, A>, mk: A -> int, k: int): Method<(), View<KV<V>, A>> {
    (_, views: seq<View<KV<V>, A>>, _) => (Two3.Select(e, mk, k, views), ())
  }

  /** Frames of a search that has written nothing, each on its last child. */
  ghost predicate AllLast<L, A>(fs: Stack<L, A>) {
    match fs
    case Empty => true
    case Push(f, rest) => !f.kind.Owned? && f.ofs + 1 == |f.kids| && AllLast(rest)
  }

  /** From the end of the last node on every level, the search runs back to the root and gives up. */
  lemma {:induction false} Backtracks<M, L(!new), A(!new)>(e: Env<L, A>, sel: Method<M, Tree<L, A>>, m: M,
      fs: Stack<L, A>)
    requires fs.Push? && !fs.top.kind.Owned? && fs.top.ofs >= |fs.top.kids| && AllLast(fs.rest)
    ensures var (gs, exact, _) := Run(e, sel, m, fs); !exact && gs.Push? && gs.rest.Empty?
    decreases fs.rest
  {
    if fs.rest.Push? {
      PopShrinks(e, fs);
      Backtracks(e, sel, m, Frames.Advance(Pop(e, fs)));
    }
  }

  ghost predicate Finds<V(!new), A(!new)>(gs: Stack<KV<V>, A>, exact: bool, k: int, ls: seq<KV<V>>) {
    if exact then exists l :: l in ls && l.key == k && AtLeafOf(gs, l)
    else Absent(ls, k)
  }

  /** Looking `k` up below a node: on its leaf if it is there. A key past the greatest one, which sends the search
      into the last child of every node, comes back out through the root. */
  lemma {:induction false} LookupRun<V(!new), A(!new)>(e: Env<KV<V>, A>, mk: A -> int, k: int, fs: Stack<KV<V>, A>,
      h: nat)
    requires Two3.MaxKeyed(e, mk)
    requires fs.Push? && fs.top.ofs == 0 && !fs.top.kind.Owned? && Two3.WellFormed(e, fs.top.kids, h)
    requires Leaves(fs.top.kids) == [] || Last(Leaves(fs.top.kids)).key < k ==> AllLast(fs.rest)
    ensures var (gs, exact, _) := Run(e, OnTrees(Lookup(e, mk, k)), (), fs); Finds(gs, exact, k, Leaves(fs.top.kids))
    decreases Measure(fs)
  {
    var ts, sel := fs.top.kids, OnTrees(Lookup(e, mk, k));
    if ts == [] {
      Backtracks(e, sel, (), fs);
    } else {
      Two3.SelectFinds(e, mk, k, ts, h, 0);
      match Two3.Select(e, mk, k, TreeViews(ts))
      case AtLeaf(i) =>
        LeavesAt(ts, i);
        assert ts[i].leaf in Leaves(ts) && AtLeafOf(MoveTop(fs, i), ts[i].leaf);
      case AtPath(i) =>
        LookupBelow(e, mk, k, fs, h, i);
      case Nothing =>
        NothingFound(e, mk, k, fs, h);
    }
  }

  lemma NothingFound<V(!new), A(!new)>(e: Env<KV<V>, A>, mk: A -> int, k: int, fs: Stack<KV<V>, A>, h: nat)
    requires fs.Push? && fs.top.ofs == 0 && !fs.top.kind.Owned? && fs.top.kids != []
    requires Leaves(fs.top.kids) == [] || Last(Leaves(fs.top.kids)).key < k ==> AllLast(fs.rest)
    requires Two3.Select(e, mk, k, TreeViews(fs.top.kids)) == Nothing
    requires Two3.Selected(fs.top.kids, h, k, Nothing)
    ensures var (gs, exact, _) := Run(e, OnTrees(Lookup(e, mk, k)), (), fs); Finds(gs, exact, k, Leaves(fs.top.kids))
  {
    var ls := Leaves(fs.top.kids);
    assert ls != [] ==> Last(ls) in ls;
    if fs.rest.Push? {
      PopShrinks(e, fs);
      Backtracks(e, OnTrees(Lookup(e, mk, k)), (), Frames.Advance(Pop(e, fs)));
    }
  }

  lemma {:induction false} LookupBelow<V(!new), A(!new)>(e: Env<KV<V>, A>, mk: A -> int, k: int, fs: Stack<KV<V>, A>,
      h: nat, i: nat)
    requires Two3.MaxKeyed(e, mk)
    requires fs.Push? && fs.top.ofs == 0 && !fs.top.kind.Owned? && Two3.WellFormed(e, fs.top.kids, h)
    requires Leaves(fs.top.kids) == [] || Last(Leaves(fs.top.kids)).key < k ==> AllLast(fs.rest)
    requires Two3.Select(e, mk, k, TreeViews(fs.top.kids)) == AtPath(i)
    requires Two3.Selected(fs.top.kids, h, k, AtPath(i))
    ensures var (gs, exact, _) := Run(e, OnTrees(Lookup(e, mk, k)), (), fs); Finds(gs, exact, k, Leaves(fs.top.kids))
    decreases Measure(fs), 0
  {
    hide Leaves, AllExact, Sorted;
    var ts := fs.top.kids;
    var t := ts[i];
    Two3.KidHolds(e, ts, h, i);
    if t.Leaf? {
      Two3.BeforeNext(ts, h, i, k);
    } else {
      EnterShrinks(fs, i);
      KidWellFormed(e, ts, h, i);
      KeyInKid(ts, h, i, k);
      LookupRun(e, mk, k, Enter(MoveTop(fs, i)), h - 1);
    }
  }

  lemma KidWellFormed<V(!new), A(!new)>(e: Env<KV<V>, A>, ts: seq<Tree<KV<V>, A>>, h: nat, i: nat)
    requires Two3.WellFormed(e, ts, h) && i < |ts| && ts[i].Node?
    ensures h > 0 && Two3.WellFormed(e, ts[i].kids, h - 1)
  {
    Two3.KidSorted(ts, i);
    assert Two3.BalancedKid(ts[i], h) && Exact(e, ts[i]);
  }

  /** The selected child holds `k` if any does; past the greatest key it is the last child. */
  lemma KeyInKid<V(!new), A(!new)>(ts: seq<Tree<KV<V>, A>>, h: nat, i: nat, k: int)
    requires Sorted(Leaves(ts)) && Two3.Selected(ts, h, k, AtPath(i))
    ensures forall l :: l in LeavesOf(ts[i]) ==> l in Leaves(ts)
    ensures Absent(LeavesOf(ts[i]), k) ==> Absent(Leaves(ts), k)
    ensures Last(LeavesOf(ts[i])).key < k ==> i + 1 == |ts| && Leaves(ts) != [] && Last(Leaves(ts)).key < k
  {
    LeavesAt(ts, i);
    if Last(LeavesOf(ts[i])).key < k {
      Two3.LastOfLast(ts, i);
      Two3.BeyondLast(ts, h, i, k);
    } else {
      Two3.DelInKid(ts, h, i, k);
    }
  }

  // ---- height

  function Power(b: nat, n: nat): nat {
    if n == 0 then 1 else b * Power(b, n - 1)
  }

  lemma {:induction false} KidCount<L(!new), A(!new)>(t: Tree<L, A>, h: nat)
    requires Two3.BalancedKid(t, h)
    ensures Power(2, h) <= |LeavesOf(t)| <= Power(3, h)
    decreases h, 0, 0
  {
    if h > 0 {
      KidsCount(t.kids, h - 1);
      Scaled(2, |t.kids|, Power(2, h - 1));
      Scaled(|t.kids|, 3, Power(3, h - 1));
    }
  }

  lemma Scaled(a: nat, b: nat, p: nat)
    requires a <= b
    ensures a * p <= b * p
  {
    assert (b - a) * p >= 0;
  }

  lemma {:induction false} KidsCount<L(!new), A(!new)>(ts: seq<Tree<L, A>>, h: nat)
    requires Two3.Balanced(ts, h)
    ensures |ts| * Power(2, h) <= |Leaves(ts)| <= |ts| * Power(3, h)
    decreases h, 1, |ts|
  {
    if ts != [] {
      KidCount(ts[0], h);
      KidsCount(ts[1..], h);
      assert |ts| * Power(2, h) == Power(2, h) + |ts[1..]| * Power(2, h);
      assert |ts| * Power(3, h) == Power(3, h) + |ts[1..]| * Power(3, h);
    }
  }

  /** A tree with more than one level of nodes has at least 2^n and at most 3^n leaves, n being its levels. */
  lemma HeightBound<V(!new), A(!new)>(e: Env<KV<V>, A>, ts: seq<Tree<KV<V>, A>>, h: nat)
    requires Two3.WellFormed(e, ts, h) && Two3.Occupied(ts, h, 0)
    ensures |Leaves(ts)| <= Power(3, h + 1)
    ensures h > 0 ==> Power(2, h + 1) <= |Leaves(ts)|
  {
    KidsCount(ts, h);
    Scaled(|ts|, 3, Power(3, h));
    if h > 0 {
      Scaled(2, |ts|, Power(2, h));
    }
  }
}
