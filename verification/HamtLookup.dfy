/** structures/hamt/src/lib.rs: looking keys up in a trie, and the leaves it lists. */
module HamtLookup {
  import opened Trees
  import opened KeyValues
  import opened Search
  import opened Frames
  import Hamt

  /** `HAMTSearch`: the depth it has reached, and whether it ran past the end of the digest. */
  datatype HamtSearch = HamtSearch(depth: nat, panicked: bool)

  function Select<V(!new), A(!new)>(e: Env<KV<V>, A>, kh: int -> Bytes, k: int): Method<HamtSearch, View<KV<V>, A>> {
    (m: HamtSearch, views: seq<View<KV<V>, A>>, _) =>
      match Hamt.SelectSlot(e.kind, kh(k), m.depth)
      case None => (Nothing, HamtSearch(m.depth, true))
      case Some(slot) =>
        var found := slot < |views| && views[slot].LeafView? && views[slot].leaf.key == k;
        var r := if found then AtLeaf(slot) else AtPath(slot);
        (r, HamtSearch(m.depth + 1, m.panicked))
  }

  /** Where a lookup of `k` ends: on its leaf if the map has it, otherwise without a match; it never runs out of
      digest. */
  lemma {:induction false} LookupRun<V(!new), A(!new)>(e: Env<KV<V>, A>, kh: int -> Bytes, k: int, fs: Stack<KV<V>, A>,
      d: nat, m: map<int, V>)
    requires Hamt.Hashed(e, kh)
    requires fs.Push? && fs.top.ofs == 0 && Hamt.Canonical(e, kh, fs.top.kids, d, m)
    ensures var (gs, exact, h) := Run(e, OnTrees(Select(e, kh, k)), HamtSearch(d, false), fs);
      !h.panicked && (exact <==> k in m) && (exact ==> AtLeafOf(gs, KV(k, m[k])))
    decreases Measure(fs)
  {
    var sel := OnTrees(Select(e, kh, k));
    var ts := fs.top.kids;
    Hamt.SlotBound(e, kh, k, d);
    var s := Hamt.Slot(e, kh, k, d);
    var share := Hamt.Share(e, kh, m, d, s);
    assert Hamt.CanonicalSlot(e, kh, ts[s], d, share);
    Hamt.SlotKind(e, kh, ts[s], d, share);
    assert k in m <==> k in share;
    assert TreeViews(ts)[s] == TreeView(ts[s]);
    var step := LevelSearch(sel, HamtSearch(d, false), 0, ts);
    assert step == (if ts[s].Leaf? && ts[s].leaf.key == k then FoundLeaf else FoundPath, s, HamtSearch(d + 1, false));
    if ts[s].Node? {
      EnterShrinks(fs, s);
      LookupRun(e, kh, k, Enter(MoveTop(fs, s)), d + 1, share);
    }
  }

  // ---- the leaves of a trie

  ghost function Upto<V(!new), A(!new)>(e: Env<KV<V>, A>, kh: int -> Bytes, m: map<int, V>, d: nat,
      n: nat): map<int, V> {
    map k | k in m && Hamt.Slot(e, kh, k, d) < n :: m[k]
  }

  lemma {:induction false} CanonicalLists<V(!new), A(!new)>(e: Env<KV<V>, A>, kh: int -> Bytes,
      ts: seq<Tree<KV<V>, A>>, d: nat, m: map<int, V>)
    requires Hamt.Hashed(e, kh) && Hamt.Canonical(e, kh, ts, d, m)
    ensures Lists(Leaves(ts), m)
    decreases ts, 1, 0
  {
    ListsUpto(e, kh, ts, d, m, |ts|);
    assert ts[..|ts|] == ts;
    forall k | k in m
      ensures Hamt.Slot(e, kh, k, d) < |ts|
    {
      Hamt.SlotBound(e, kh, k, d);
    }
    assert Upto(e, kh, m, d, |ts|) == m;
  }

  lemma {:induction false} ListsUpto<V(!new), A(!new)>(e: Env<KV<V>, A>, kh: int -> Bytes, ts: seq<Tree<KV<V>, A>>,
      d: nat, m: map<int, V>, n: nat)
    requires Hamt.Hashed(e, kh) && Hamt.Canonical(e, kh, ts, d, m) && n <= |ts|
    ensures Lists(Leaves(ts[..n]), Upto(e, kh, m, d, n))
    decreases ts, 0, n
  {
    if n == 0 {
      assert Upto(e, kh, m, d, 0) == map[];
    } else {
      hide Lists, Upto, Leaves, Hamt.Share;
      assert LeavesTo(ts, n - 1) == Leaves(ts[..n - 1]) && LeavesTo(ts, n) == Leaves(ts[..n]);
      ListsUpto(e, kh, ts, d, m, n - 1);
      SlotLists(e, kh, ts[n - 1], d, Hamt.Share(e, kh, m, d, n - 1));
      LeavesStep(ts, n - 1);
      UptoStep(e, kh, m, d, n - 1);
      var share := Hamt.Share(e, kh, m, d, n - 1);
      ListsConcat(LeavesTo(ts, n - 1), LeavesOf(ts[n - 1]), Upto(e, kh, m, d, n - 1), share, Upto(e, kh, m, d, n));
    }
  }

  lemma UptoStep<V(!new), A(!new)>(e: Env<KV<V>, A>, kh: int -> Bytes, m: map<int, V>, d: nat, n: nat)
    ensures Upto(e, kh, m, d, n + 1) == Upto(e, kh, m, d, n) + Hamt.Share(e, kh, m, d, n)
    ensures Upto(e, kh, m, d, n).Keys !! Hamt.Share(e, kh, m, d, n).Keys
  {
  }

  lemma {:induction false} SlotLists<V(!new), A(!new)>(e: Env<KV<V>, A>, kh: int -> Bytes, t: Tree<KV<V>, A>, d: nat,
      m: map<int, V>)
    requires Hamt.Hashed(e, kh) && Hamt.CanonicalSlot(e, kh, t, d, m)
    ensures Lists(LeavesOf(t), m)
    decreases t, 2, 0
  {
    match t
    case Empty =>
    case Leaf(l) => assert |m| == 1;
    case Node(_, kids) => CanonicalLists(e, kh, kids, d + 1, m);
  }

  // ---- where leaves and nodes lie

  /** Every leaf lies on the slot path of its own key's hash. */
  lemma {:induction false} LeafOnPath<V(!new), A(!new)>(e: Env<KV<V>, A>, kh: int -> Bytes, ts: seq<Tree<KV<V>, A>>,
      d: nat, m: map<int, V>,
      path: seq<nat>, l: KV<V>)
    requires Hamt.Canonical(e, kh, ts, d, m) && Reach(ts, path) == Tree.Leaf(l)
    ensures l.key in m && m[l.key] == l.val
    ensures d + |path| <= Hamt.Depths(e)
    ensures forall j :: 0 <= j < |path| ==> path[j] == Hamt.Slot(e, kh, l.key, d + j)
    decreases path
  {
    var i := path[0];
    var share := Hamt.Share(e, kh, m, d, i);
    assert Hamt.CanonicalSlot(e, kh, ts[i], d, share);
    if |path| == 1 {
      assert l.key in share;
    } else {
      LeafOnPath(e, kh, ts[i].kids, d + 1, share, path[1..], l);
      forall j | 0 <= j < |path|
        ensures path[j] == Hamt.Slot(e, kh, l.key, d + j)
      {
        if j > 0 {
          assert path[1..][j - 1] == Hamt.Slot(e, kh, l.key, d + 1 + (j - 1));
        }
      }
    }
  }

  /** No node below the root is empty, or holds a single leaf. */
  lemma ManyLeaves<V(!new), A(!new)>(e: Env<KV<V>, A>, kh: int -> Bytes, t: Tree<KV<V>, A>, d: nat, m: map<int, V>)
    requires Hamt.Hashed(e, kh) && Hamt.CanonicalSlot(e, kh, t, d, m) && t.Node?
    ensures |LeavesOf(t)| >= 2
  {
    SlotLists(e, kh, t, d, m);
    hide Hamt.Canonical;
    var a, b :| a in m && b in m && a != b;
    var ls := LeavesOf(t);
    assert KV(a, m[a]) in ls && KV(b, m[b]) in ls;
  }

  lemma {:induction false} NodeHoldsTwo<V(!new), A(!new)>(e: Env<KV<V>, A>, kh: int -> Bytes, ts: seq<Tree<KV<V>, A>>,
      d: nat, m: map<int, V>,
      path: seq<nat>)
    requires Hamt.Hashed(e, kh) && Hamt.Canonical(e, kh, ts, d, m) && Reach(ts, path).Node?
    ensures |LeavesOf(Reach(ts, path))| >= 2
    decreases path
  {
    var i := path[0];
    var share := Hamt.Share(e, kh, m, d, i);
    assert Hamt.CanonicalSlot(e, kh, ts[i], d, share);
    if |path| == 1 {
      ManyLeaves(e, kh, ts[i], d, share);
    } else {
      NodeHoldsTwo(e, kh, ts[i].kids, d + 1, share, path[1..]);
    }
  }
}
