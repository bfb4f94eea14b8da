/** structures/two3/src/lib.rs: the 2-3 tree. */
module Two3 {
  import opened Trees
  import opened Content
  import opened Store
  import opened Handles
  import opened Search
  import opened KeyValues

  const N := 2
  const M := 3

  /** The annotation carries a maximum key, which `mk` borrows. */
  ghost predicate MaxKeyed<V(!new), A(!new)>(e: Env<KV<V>, A>, mk: A -> int) {
    && e.kind.Two3?
    && e.Lawful()
    && (forall l: KV<V> :: mk(e.from(l)) == l.key)
    && (forall a: A, b: A :: mk(e.op(a, b)) == if mk(b) > mk(a) then mk(b) else mk(a))
  }

  // ---- shape

  ghost predicate BalancedKid<L(!new), A(!new)>(t: Tree<L, A>, h: nat)
    decreases h, 0
  {
    if h == 0 then t.Leaf? else t.Node? && N <= |t.kids| <= M && Balanced(t.kids, h - 1)
  }

  /** All leaves lie `h` levels of nodes below these children. */
  ghost predicate Balanced<L(!new), A(!new)>(ts: seq<Tree<L, A>>, h: nat)
    decreases h, 1
  {
    forall i :: 0 <= i < |ts| ==> BalancedKid(ts[i], h)
  }

  ghost predicate WellFormed<V(!new), A(!new)>(e: Env<KV<V>, A>, ts: seq<Tree<KV<V>, A>>, h: nat) {
    && |ts| <= M
    && Balanced(ts, h)
    && AllExact(e, ts)
    && Sorted(Leaves(ts))
  }

  lemma {:induction false} KidHasLeaves<L(!new), A(!new)>(t: Tree<L, A>, h: nat)
    requires BalancedKid(t, h)
    ensures LeavesOf(t) != []
    decreases h
  {
    if h > 0 {
      KidHasLeaves(t.kids[0], h - 1);
    }
  }

  lemma KidSorted<V(!new), A(!new)>(ts: seq<Tree<KV<V>, A>>, i: nat)
    requires i < |ts| && Sorted(Leaves(ts))
    ensures Sorted(Leaves(ts[..i])) && Sorted(LeavesOf(ts[i])) && Sorted(Leaves(ts[i + 1..]))
    ensures forall x, y :: x in Leaves(ts[..i]) && y in LeavesOf(ts[i]) ==> x.key < y.key
    ensures forall x, y :: x in LeavesOf(ts[i]) && y in Leaves(ts[i + 1..]) ==> x.key < y.key
  {
    LeavesAt(ts, i);
    SortedConcat(Leaves(ts[..i]) + LeavesOf(ts[i]), Leaves(ts[i + 1..]));
    SortedConcat(Leaves(ts[..i]), LeavesOf(ts[i]));
  }

  lemma KidHolds<V(!new), A(!new)>(e: Env<KV<V>, A>, ts: seq<Tree<KV<V>, A>>, h: nat, i: nat)
    requires i < |ts| && WellFormed(e, ts, h)
    ensures BalancedKid(ts[i], h) && Exact(e, ts[i])
  {
  }

  lemma KidWellFormed<V(!new), A(!new)>(e: Env<KV<V>, A>, ts: seq<Tree<KV<V>, A>>, h: nat, i: nat)
    requires i < |ts| && h > 0 && WellFormed(e, ts, h)
    ensures ts[i].Node? && WellFormed(e, ts[i].kids, h - 1) && N <= |ts[i].kids|
  {
    KidSorted(ts, i);
    assert BalancedKid(ts[i], h) && Exact(e, ts[i]);
  }

  /** The annotation of a subtree names its last, hence greatest, key. */
  lemma {:induction false} KidMaxKey<V(!new), A(!new)>(e: Env<KV<V>, A>, mk: A -> int, t: Tree<KV<V>, A>, h: nat)
    requires MaxKeyed(e, mk)
    requires BalancedKid(t, h) && Exact(e, t) && Sorted(LeavesOf(t))
    ensures LeavesOf(t) != []
    ensures AnnOf(e, t).Some? && mk(AnnOf(e, t).value) == Last(LeavesOf(t)).key
    decreases h, 0, 0
  {
    if h > 0 {
      NodeMaxKey(e, mk, t.kids, h - 1);
    }
  }

  lemma {:induction false} NodeMaxKey<V(!new), A(!new)>(e: Env<KV<V>, A>, mk: A -> int, ts: seq<Tree<KV<V>, A>>, h: nat)
    requires MaxKeyed(e, mk)
    requires Balanced(ts, h) && AllExact(e, ts) && Sorted(Leaves(ts)) && ts != []
    ensures Leaves(ts) != []
    ensures Combine(e, ts).Some? && mk(Combine(e, ts).value) == Last(Leaves(ts)).key
    decreases h, 1, |ts|
  {
    var n := |ts| - 1;
    var p := ts[..n];
    KidSorted(ts, n);
    KidMaxKey(e, mk, ts[n], h);
    LastOfLast(ts, n);
    if p != [] {
      assert AllExact(e, p) && Balanced(p, h) by {
        assert forall j :: 0 <= j < |p| ==> p[j] == ts[j];
      }
      NodeMaxKey(e, mk, p, h);
      assert Last(Leaves(p)) in Leaves(p) && Last(LeavesOf(ts[n])) in LeavesOf(ts[n]);
      LaterKeyWins(e, mk, Combine(e, p).value, AnnOf(e, ts[n]).value);
    }
  }

  lemma LaterKeyWins<V(!new), A(!new)>(e: Env<KV<V>, A>, mk: A -> int, a: A, b: A)
    requires MaxKeyed(e, mk) && mk(a) < mk(b)
    ensures Join(e, Some(a), Some(b)) == Some(e.op(a, b)) && mk(e.op(a, b)) == mk(b)
  {
  }

  lemma LastOfLast<L, A>(ts: seq<Tree<L, A>>, i: nat)
    requires i + 1 == |ts| && LeavesOf(ts[i]) != []
    ensures Leaves(ts) != [] && Last(Leaves(ts)) == Last(LeavesOf(ts[i]))
  {
    LeavesAt(ts, i);
    assert Leaves(ts[i + 1..]) == [];
  }

  // ---- search

  /** The first child whose maximum key reaches `k`; past them all, the last child if it is a node. */
  function SelectFrom<V(!new), A(!new)>(e: Env<KV<V>, A>, mk: A -> int, k: int, views: seq<View<KV<V>, A>>,
      i: nat): (r: SearchResult)
    requires i <= |views|
    ensures !r.Nothing? ==> r.i < |views|
    decreases |views| - i
  {
    if i == |views| then
      if i > 0 && views[i - 1].NodeView? then AtPath(i - 1) else Nothing
    else
      match ViewAnn(e, views[i])
      case None => SelectFrom(e, mk, k, views, i + 1)
      case Some(a) =>
        if k == mk(a) then (if views[i].LeafView? then AtLeaf(i) else AtPath(i))
        else if k < mk(a) then AtPath(i)
        else SelectFrom(e, mk, k, views, i + 1)
  }

  function Select<V(!new), A(!new)>(e: Env<KV<V>, A>, mk: A -> int, k: int,
      views: seq<View<KV<V>, A>>): (r: SearchResult)
    ensures !r.Nothing? ==> r.i < |views|
  {
    SelectFrom(e, mk, k, views, 0)
  }

  ghost predicate Selected<V(!new), A(!new)>(ts: seq<Tree<KV<V>, A>>, h: nat, k: int, r: SearchResult) {
    match r
    case AtLeaf(i) =>
      i < |ts| && ts[i].Leaf? && ts[i].leaf.key == k && Below(Leaves(ts[..i]), k)
    case AtPath(i) =>
      && i < |ts|
      && Below(Leaves(ts[..i]), k)
      && LeavesOf(ts[i]) != []
      && (k <= Last(LeavesOf(ts[i])).key || (i == |ts| - 1 && ts[i].Node?))
      && (ts[i].Leaf? ==> k < ts[i].leaf.key)
    case Nothing =>
      Below(Leaves(ts), k) && (ts == [] || h == 0)
  }

  lemma {:induction false} SelectFinds<V(!new), A(!new)>(e: Env<KV<V>, A>, mk: A -> int, k: int,
      ts: seq<Tree<KV<V>, A>>, h: nat, i: nat)
    requires MaxKeyed(e, mk) && WellFormed(e, ts, h)
    requires i <= |ts| && Below(Leaves(ts[..i]), k)
    ensures Selected(ts, h, k, SelectFrom(e, mk, k, TreeViews(ts), i))
    decreases |ts| - i
  {
    if i == |ts| {
      assert ts[..i] == ts;
      if i > 0 {
        LeavesAt(ts, i - 1);
        KidHasLeaves(ts[i - 1], h);
      }
    } else {
      KidSorted(ts, i);
      KidMaxKey(e, mk, ts[i], h);
      if mk(AnnOf(e, ts[i]).value) < k {
        BelowNext(ts, i, k);
        SelectFinds(e, mk, k, ts, h, i + 1);
      }
    }
  }

  lemma BelowNext<V(!new), A(!new)>(ts: seq<Tree<KV<V>, A>>, i: nat, k: int)
    requires i < |ts| && Below(Leaves(ts[..i]), k)
    requires Sorted(LeavesOf(ts[i])) && LeavesOf(ts[i]) != [] && Last(LeavesOf(ts[i])).key < k
    ensures Below(Leaves(ts[..i + 1]), k)
  {
    assert ts[..i + 1] == ts[..i] + [ts[i]] && Leaves([ts[i]]) == LeavesOf(ts[i]) + [];
    LeavesConcat(ts[..i], [ts[i]]);
    var ls := LeavesOf(ts[i]);
    forall l | l in ls
      ensures l.key < k
    {
      var j :| 0 <= j < |ls| && ls[j] == l;
      assert ls[j].key <= Last(ls).key;
    }
  }

  // ---- insertion

  datatype InsertResult<+V, +A> = Inserted | Replaced(leaf: KV<V>) | Split(handle: Handle<KV<V>, A>)

  function InsertSeq<T>(s: seq<T>, i: nat, x: T): seq<T>
    requires i <= |s|
  {
    s[..i] + [x] + s[i..]
  }

  lemma InsertSeqAt<T>(s: seq<T>, i: nat, x: T)
    requires i <= |s|
    ensures |InsertSeq(s, i, x)| == |s| + 1
    ensures forall j :: 0 <= j <= |s| ==>
                          InsertSeq(s, i, x)[j] == if j < i then s[j] else if j == i then x else s[j - 1]
  {
  }

  ghost predicate NoneEmpty<L(!new), A(!new)>(ts: seq<Tree<L, A>>) {
    forall i :: 0 <= i < |ts| ==> !ts[i].Empty?
  }

  lemma NoneEmptyCombines<L(!new), A(!new)>(e: Env<L, A>, ts: seq<Tree<L, A>>)
    requires NoneEmpty(ts) && ts != []
    ensures Combine(e, ts).Some?
  {
    CombineSome(e, ts, 0);
  }

  /** The full node `kids` with `h` inserted at `i`, cut into two nodes of two. */
  method SplitAt<V(!new), A(!new)>(e: Env<KV<V>, A>, ghost s: Blobs, kids: seq<Handle<KV<V>, A>>, i: nat,
      h: Handle<KV<V>, A>,
      ghost ts: seq<Tree<KV<V>, A>>, ghost t: Tree<KV<V>, A>)
    returns (left: seq<Handle<KV<V>, A>>, right: seq<Handle<KV<V>, A>>, ghost us: seq<Tree<KV<V>, A>>,
        ghost vs: seq<Tree<KV<V>, A>>)
    requires e.kind.Two3?
    requires Holds(e, s, kids, ts) && |kids| == M
    requires Represents(e, s, h, t) && i <= |kids|
    ensures |left| == N && |right| == N && left + right == InsertSeq(kids, i, h)
    ensures |us| == N && |vs| == N && us + vs == InsertSeq(ts, i, t)
    ensures Holds(e, s, left, us) && Holds(e, s, right, vs)
  {
    hide InsertSeq, Represents;
    Thirds(kids);
    left := kids;
    var popped := left[2];
    left := left[..2];
    if i < N {
      var second := left[1];
      left := left[..1];
      right := [second, popped];
      HoldsCut(e, s, kids, ts, 1);
      HoldsInsert(e, s, left, ts[..1], i, h, t);
      left := InsertSeq(left, i, h);
      us, vs := InsertSeq(ts[..1], i, t), ts[1..];
      CutAt(kids, ts, i, 1, h, t);
      InsertSeqLength(kids[..1], ts[..1], i, h, t);
    } else {
      right := [popped];
      HoldsCut(e, s, kids, ts, 2);
      HoldsInsert(e, s, right, ts[2..], i - N, h, t);
      right := InsertSeq(right, i - N, h);
      us, vs := ts[..2], InsertSeq(ts[2..], i - N, t);
      CutAt(kids, ts, i, 2, h, t);
      InsertSeqLength(kids[2..], ts[2..], i - N, h, t);
    }
  }

  lemma Thirds<T>(s: seq<T>)
    requires |s| == M
    ensures s[..2][1] == s[1] && s[..2][..1] == s[..1] && s[1..] == [s[1], s[2]] && s[2..] == [s[2]]
  {
  }

  lemma InsertSeqLength<T, U>(a: seq<T>, b: seq<U>, i: nat, x: T, y: U)
    requires i <= |a| == |b|
    ensures |InsertSeq(a, i, x)| == |a| + 1 == |InsertSeq(b, i, y)|
  {
  }

  lemma HoldsCut<L(!new), A(!new)>(e: Env<L, A>, s: Blobs, kids: seq<Handle<L, A>>, ts: seq<Tree<L, A>>, n: nat)
    requires e.kind.Two3? && Holds(e, s, kids, ts) && n <= |ts|
    ensures Holds(e, s, kids[..n], ts[..n]) && Holds(e, s, kids[n..], ts[n..])
  {
  }

  /** Where a sequence is cut does not matter to what comes of inserting into it. */
  lemma CutAt<T, U>(a: seq<T>, b: seq<U>, i: nat, j: nat, x: T, y: U)
    requires i <= |a| == |b| && j <= |a|
    ensures i <= j ==> InsertSeq(a[..j], i, x) + a[j..] == InsertSeq(a, i, x)
    ensures i <= j ==> InsertSeq(b[..j], i, y) + b[j..] == InsertSeq(b, i, y)
    ensures j <= i ==> a[..j] + InsertSeq(a[j..], i - j, x) == InsertSeq(a, i, x)
    ensures j <= i ==> b[..j] + InsertSeq(b[j..], i - j, y) == InsertSeq(b, i, y)
  {
    if i <= j {
      InsertLeft(a, i, j, x);
      InsertLeft(b, i, j, y);
    }
    if j <= i {
      InsertRight(a, i, j, x);
      InsertRight(b, i, j, y);
    }
  }

  lemma HoldsWithout<L(!new), A(!new)>(e: Env<L, A>, s: Blobs, kids: seq<Handle<L, A>>, ts: seq<Tree<L, A>>, i: nat)
    requires e.kind.Two3? && Holds(e, s, kids, ts) && i < |ts|
    ensures Holds(e, s, kids[..i] + kids[i + 1..], ts[..i] + ts[i + 1..])
  {
  }

  lemma HoldsInsert<L(!new), A(!new)>(e: Env<L, A>, s: Blobs, kids: seq<Handle<L, A>>, ts: seq<Tree<L, A>>, i: nat,
      h: Handle<L, A>, t: Tree<L, A>)
    requires e.kind.Two3? && Holds(e, s, kids, ts) && |ts| < M && i <= |ts| && Represents(e, s, h, t)
    ensures Holds(e, s, InsertSeq(kids, i, h), InsertSeq(ts, i, t))
  {
    var ks, us := InsertSeq(kids, i, h), InsertSeq(ts, i, t);
    forall j | 0 <= j < |us|
      ensures Represents(e, s, ks[j], us[j])
    {
      if j != i {
        var was := if j < i then j else j - 1;
        assert ks[j] == kids[was] && us[j] == ts[was];
      }
    }
  }

  lemma InsertLeft<T>(s: seq<T>, i: nat, j: nat, x: T)
    requires i <= j <= |s|
    ensures InsertSeq(s[..j], i, x) + s[j..] == InsertSeq(s, i, x)
  {
    assert s[..j][..i] == s[..i] && s[i..] == s[..j][i..] + s[j..];
  }

  lemma InsertRight<T>(s: seq<T>, i: nat, j: nat, x: T)
    requires j <= i <= |s|
    ensures s[..j] + InsertSeq(s[j..], i - j, x) == InsertSeq(s, i, x)
  {
    assert s[j..][i - j..] == s[i..] && s[..i] == s[..j] + s[j..][..i - j];
  }

  /** How the sequence `all` of children came out: in one node, in two, or in two below a new root. */
  ghost predicate Spliced<V(!new), A(!new)>(e: Env<KV<V>, A>, all: seq<Tree<KV<V>, A>>, depth: nat,
      r: InsertResult<V, A>, us: seq<Tree<KV<V>, A>>, sib: Tree<KV<V>, A>)
  {
    && AllExact(e, us)
    && if |all| <= M then r.Inserted? && us == all
       else if depth > 0 then
         r.Split? && sib.Node? && Exact(e, sib) && |us| == N == |sib.kids| && us + sib.kids == all
       else
         && r.Inserted? && |us| == N && us[0].Node? && us[1].Node?
         && |us[0].kids| == N == |us[1].kids| && us[0].kids + us[1].kids == all
  }

  /** The same as a function: the node's children, and the node next to it if it was split. */
  ghost function Splice<V(!new), A(!new)>(e: Env<KV<V>, A>, all: seq<Tree<KV<V>, A>>,
      depth: nat): (seq<Tree<KV<V>, A>>, Tree<KV<V>, A>) {
    if |all| <= M then (all, Empty)
    else if depth > 0 then (all[..N], NodeOver(e, all[N..]))
    else ([NodeOver(e, all[..N]), NodeOver(e, all[N..])], Empty)
  }

  /** `_insert` on trees: the children `ts` come to `us`, and the node next to them, if they were split, to `sib`. */
  ghost predicate Gives<V(!new), A(!new)>(r: InsertResult<V, A>, us: seq<Tree<KV<V>, A>>, sib: Tree<KV<V>, A>,
      all: (seq<Tree<KV<V>, A>>, Tree<KV<V>, A>))
  {
    us == all.0 && all.1 == if r.Split? then sib else Empty
  }

  lemma SplicedGives<V(!new), A(!new)>(e: Env<KV<V>, A>, all: seq<Tree<KV<V>, A>>, depth: nat,
      r: InsertResult<V, A>, us: seq<Tree<KV<V>, A>>, sib: Tree<KV<V>, A>)
    requires Spliced(e, all, depth, r, us, sib)
    ensures Gives(r, us, sib, Splice(e, all, depth))
  {
    if |all| > M {
      var left, right := if depth > 0 then us else us[0].kids, if depth > 0 then sib.kids else us[1].kids;
      assert all[..N] == left && all[N..] == right;
      assert depth == 0 ==> Exact(e, us[0]) && Exact(e, us[1]);
    }
  }

  /** `_insert` on trees. */
  ghost function InsertT<V(!new), A(!new)>(e: Env<KV<V>, A>, mk: A -> int, ts: seq<Tree<KV<V>, A>>, kv: KV<V>,
      depth: nat):
    (seq<Tree<KV<V>, A>>, Tree<KV<V>, A>)
    decreases ts
  {
    match Select(e, mk, kv.key, TreeViews(ts))
    case AtLeaf(i) => (ts[i := Tree.Leaf(kv)], Empty)
    case AtPath(i) =>
      if ts[i].Node? then BackT(e, ts, i, depth, ts[i].ann, InsertT(e, mk, ts[i].kids, kv, depth + 1))
      else Splice(e, InsertSeq(ts, i, Tree.Leaf(kv)), depth)
    case Nothing => Splice(e, InsertSeq(ts, |ts|, Tree.Leaf(kv)), depth)
  }

  /** Child `i` with what inserting below it gave. */
  ghost function BackT<V(!new), A(!new)>(e: Env<KV<V>, A>, ts: seq<Tree<KV<V>, A>>, i: nat, depth: nat, ann: A,
      below: (seq<Tree<KV<V>, A>>, Tree<KV<V>, A>)): (seq<Tree<KV<V>, A>>, Tree<KV<V>, A>)
    requires i < |ts|
  {
    var us := ts[i := Tree.Node(Combine(e, below.0).Or(ann), below.0)];
    if below.1.Empty? then (us, Empty) else Splice(e, InsertSeq(us, i + 1, below.1), depth)
  }

  /** Inserts a handle; a full node is split, and at the root the two halves get a new root above them. */
  method InsertAt<V(!new), A(!new)>(e: Env<KV<V>, A>, ghost s: Blobs, kids: seq<Handle<KV<V>, A>>, i: nat,
      h: Handle<KV<V>, A>, depth: nat,
      ghost ts: seq<Tree<KV<V>, A>>, ghost t: Tree<KV<V>, A>)
    returns (r: InsertResult<V, A>, kids': seq<Handle<KV<V>, A>>, ghost us: seq<Tree<KV<V>, A>>,
        ghost sib: Tree<KV<V>, A>)
    requires e.kind.Two3?
    requires Holds(e, s, kids, ts) && AllExact(e, ts) && NoneEmpty(ts)
    requires Represents(e, s, h, t) && Exact(e, t) && !t.Empty?
    requires i <= |kids|
    ensures Holds(e, s, kids', us)
    ensures r.Split? ==> Represents(e, s, r.handle, sib)
    ensures Spliced(e, InsertSeq(ts, i, t), depth, r, us, sib)
  {
    if |kids| < M {
      r, kids', us, sib := Inserted, InsertSeq(kids, i, h), InsertSeq(ts, i, t), Empty;
    } else {
      var left, right;
      ghost var vs;
      left, right, us, vs := SplitAt(e, s, kids, i, h, ts, t);
      ExactHalves(e, ts, i, t, us, vs);
      var rightHandle := NewNode(e, s, right, vs);
      sib := Tree.Node(Combine(e, vs).value, vs);
      if depth == 0 {
        var leftHandle := NewNode(e, s, left, us);
        us := [Tree.Node(Combine(e, us).value, us), sib];
        r, kids' := Inserted, [leftHandle, rightHandle];
      } else {
        r, kids' := Split(rightHandle), left;
      }
    }
  }

  lemma ExactHalves<L(!new), A(!new)>(e: Env<L, A>, ts: seq<Tree<L, A>>, i: nat, t: Tree<L, A>, us: seq<Tree<L, A>>,
      vs: seq<Tree<L, A>>)
    requires AllExact(e, ts) && NoneEmpty(ts) && Exact(e, t) && !t.Empty?
    requires i <= |ts| && us + vs == InsertSeq(ts, i, t) && us != [] && vs != []
    ensures AllExact(e, us) && AllExact(e, vs)
    ensures Combine(e, us).Some? && Combine(e, vs).Some?
  {
    hide Exact, Combine, InsertSeq;
    InsertedExact(e, ts, i, t);
    ExactParts(e, us, vs);
    NoneEmptyCombines(e, us);
    NoneEmptyCombines(e, vs);
  }

  lemma InsertedExact<L(!new), A(!new)>(e: Env<L, A>, ts: seq<Tree<L, A>>, i: nat, t: Tree<L, A>)
    requires AllExact(e, ts) && NoneEmpty(ts) && Exact(e, t) && !t.Empty? && i <= |ts|
    ensures AllExact(e, InsertSeq(ts, i, t)) && NoneEmpty(InsertSeq(ts, i, t))
  {
    hide Exact;
    var all := InsertSeq(ts, i, t);
    InsertSeqAt(ts, i, t);
    forall j | 0 <= j < |all|
      ensures Exact(e, all[j]) && !all[j].Empty?
    {
      assert j == i || all[j] == ts[if j < i then j else j - 1];
    }
  }

  lemma ExactParts<L(!new), A(!new)>(e: Env<L, A>, a: seq<Tree<L, A>>, b: seq<Tree<L, A>>)
    requires AllExact(e, a + b) && NoneEmpty(a + b)
    ensures AllExact(e, a) && NoneEmpty(a) && AllExact(e, b) && NoneEmpty(b)
  {
    hide Exact;
    assert forall j :: 0 <= j < |a| ==> a[j] == (a + b)[j];
    assert forall j :: 0 <= j < |b| ==> b[j] == (a + b)[|a| + j];
  }

  /** Below the root, and at a root above other nodes, a node has at least two children. */
  ghost predicate Occupied<L(!new), A(!new)>(ts: seq<Tree<L, A>>, h: nat, depth: nat) {
    depth > 0 || h > 0 ==> N <= |ts|
  }

  /** What inserting `kv` into the children `ts` of a node of height `h` has to leave: `us` of height `g`,
      and next to it `sib` if the node was split. */
  ghost predicate InsertDone<V(!new), A(!new)>(e: Env<KV<V>, A>, ts: seq<Tree<KV<V>, A>>, h: nat, kv: KV<V>, depth: nat,
      r: InsertResult<V, A>, us: seq<Tree<KV<V>, A>>, g: nat, sib: Tree<KV<V>, A>)
  {
    match r
    case Inserted =>
      && (depth > 0 ==> g == h)
      && WellFormed(e, us, g) && Occupied(us, g, depth)
      && Leaves(us) == Put(Leaves(ts), kv) && Absent(Leaves(ts), kv.key)
    case Replaced(l) =>
      && g == h
      && WellFormed(e, us, g) && Occupied(us, g, depth)
      && Leaves(us) == Put(Leaves(ts), kv) && l in Leaves(ts) && l.key == kv.key
    case Split(_) =>
      && depth > 0 && g == h
      && sib.Node? && |us| == N == |sib.kids|
      && Balanced(us, h) && AllExact(e, us) && BalancedKid(sib, h + 1) && Exact(e, sib)
      && Leaves(us + sib.kids) == Put(Leaves(ts), kv) && Absent(Leaves(ts), kv.key)
  }

  /** From `InsertAt`'s answer to `InsertDone`, once the inserted sequence is known to be right. */
  lemma InsertAtDone<V(!new), A(!new)>(e: Env<KV<V>, A>, ts: seq<Tree<KV<V>, A>>, h: nat, kv: KV<V>, depth: nat,
      all: seq<Tree<KV<V>, A>>, r: InsertResult<V, A>, us: seq<Tree<KV<V>, A>>, sib: Tree<KV<V>, A>) returns (g: nat)
    requires Sorted(Leaves(ts)) && Absent(Leaves(ts), kv.key)
    requires Balanced(all, h) && Leaves(all) == Put(Leaves(ts), kv)
    requires |all| <= M + 1 && Occupied(all, h, depth)
    requires Spliced(e, all, depth, r, us, sib)
    ensures InsertDone(e, ts, h, kv, depth, r, us, g, sib)
  {
    PutSorted(Leaves(ts), kv);
    g := if |all| > M && depth == 0 then h + 1 else h;
    if |all| > M {
      if depth == 0 {
        HalvesBalanced(us[0].kids, us[1].kids, h);
        GrownLeaves(us);
        GrownBalanced(us, h);
      } else {
        HalvesBalanced(us, sib.kids, h);
      }
    }
    hide Balanced, AllExact, Leaves, Sorted, Put;
    assert |all| > M && depth > 0 ==> BalancedKid(sib, h + 1);
  }

  lemma GrownBalanced<L(!new), A(!new)>(us: seq<Tree<L, A>>, h: nat)
    requires |us| == N && us[0].Node? && us[1].Node? && |us[0].kids| == N == |us[1].kids|
    requires Balanced(us[0].kids, h) && Balanced(us[1].kids, h)
    ensures Balanced(us, h + 1)
  {
  }

  lemma HalvesBalanced<L(!new), A(!new)>(a: seq<Tree<L, A>>, b: seq<Tree<L, A>>, h: nat)
    requires Balanced(a + b, h)
    ensures Balanced(a, h) && Balanced(b, h)
  {
    assert forall j :: 0 <= j < |a| ==> a[j] == (a + b)[j];
    assert forall j :: 0 <= j < |b| ==> b[j] == (a + b)[|a| + j];
  }

  lemma GrownLeaves<L(!new), A(!new)>(us: seq<Tree<L, A>>)
    requires |us| == N && us[0].Node? && us[1].Node?
    ensures Leaves(us) == Leaves(us[0].kids + us[1].kids)
  {
    LeavesConcat(us[0].kids, us[1].kids);
    TwoLeavesAround([], us[0], us[1], []);
    assert us == [] + [us[0], us[1]] + [];
  }

  lemma BelowAbove<V(!new), A(!new)>(ts: seq<Tree<KV<V>, A>>, i: nat, k: int)
    requires i <= |ts| && Sorted(Leaves(ts)) && Below(Leaves(ts[..i]), k)
    requires i < |ts| ==> ts[i].Leaf? && k < ts[i].leaf.key
    ensures Leaves(ts) == Leaves(ts[..i]) + Leaves(ts[i..])
    ensures Above(k, Leaves(ts[i..]))
  {
    hide Sorted;
    LeavesCut(ts, i);
    if i < |ts| {
      KidSorted(ts, i);
      LeavesHead(ts, i);
      assert ts[i].leaf in LeavesOf(ts[i]);
    }
  }

  lemma NewLeaf<V(!new), A(!new)>(ts: seq<Tree<KV<V>, A>>, i: nat, kv: KV<V>)
    requires i <= |ts| && Sorted(Leaves(ts)) && Below(Leaves(ts[..i]), kv.key)
    requires i < |ts| ==> ts[i].Leaf? && kv.key < ts[i].leaf.key
    requires Balanced(ts, 0)
    ensures Balanced(InsertSeq(ts, i, Tree.Leaf(kv)), 0)
    ensures Leaves(InsertSeq(ts, i, Tree.Leaf(kv))) == Put(Leaves(ts), kv)
    ensures Absent(Leaves(ts), kv.key)
  {
    hide Sorted, Put;
    BelowAbove(ts, i, kv.key);
    PutBetween(Leaves(ts[..i]), Leaves(ts[i..]), kv);
    LeavesAround(ts[..i], Tree.Leaf(kv), ts[i..]);
  }

  method InsertLeaf<V(!new), A(!new)>(e: Env<KV<V>, A>, ghost s: Blobs, kids: seq<Handle<KV<V>, A>>, i: nat, kv: KV<V>,
      depth: nat,
      ghost ts: seq<Tree<KV<V>, A>>)
    returns (r: InsertResult<V, A>, kids': seq<Handle<KV<V>, A>>, ghost us: seq<Tree<KV<V>, A>>, ghost g: nat,
        ghost sib: Tree<KV<V>, A>)
    requires e.kind.Two3?
    requires Holds(e, s, kids, ts) && WellFormed(e, ts, 0) && Occupied(ts, 0, depth)
    requires i <= |ts| && Below(Leaves(ts[..i]), kv.key)
    requires i < |ts| ==> kv.key < ts[i].leaf.key
    ensures Holds(e, s, kids', us)
    ensures r.Split? ==> Represents(e, s, r.handle, sib)
    ensures InsertDone(e, ts, 0, kv, depth, r, us, g, sib)
    ensures Gives(r, us, sib, Splice(e, InsertSeq(ts, i, Tree.Leaf(kv)), depth))
  {
    hide Splice, Gives;
    NewLeaf(ts, i, kv);
    r, kids', us, sib := InsertAt(e, s, kids, i, Handle.Leaf(kv), depth, ts, Tree.Leaf(kv));
    SplicedGives(e, InsertSeq(ts, i, Tree.Leaf(kv)), depth, r, us, sib);
    g := InsertAtDone(e, ts, 0, kv, depth, InsertSeq(ts, i, Tree.Leaf(kv)), r, us, sib);
  }

  /** Inserting below child `i` inserts into the whole node. */
  lemma PutInKid<V(!new), A(!new)>(ts: seq<Tree<KV<V>, A>>, h: nat, i: nat, kv: KV<V>)
    requires Sorted(Leaves(ts)) && Selected(ts, h, kv.key, AtPath(i))
    ensures Put(Leaves(ts), kv) == Leaves(ts[..i]) + Put(LeavesOf(ts[i]), kv) + Leaves(ts[i + 1..])
    ensures Absent(LeavesOf(ts[i]), kv.key) ==> Absent(Leaves(ts), kv.key)
  {
    var a, b, c := Leaves(ts[..i]), LeavesOf(ts[i]), Leaves(ts[i + 1..]);
    LeavesAt(ts, i);
    assert i == |ts| - 1 ==> c == [];
    PutMiddle(a, b, c, kv);
    if Absent(b, kv.key) {
      AbsentMiddle(a, b, c, kv.key);
    }
  }

  lemma ReplacedShape<L(!new), A(!new)>(e: Env<L, A>, ts: seq<Tree<L, A>>, h: nat, i: nat, t: Tree<L, A>)
    requires Balanced(ts, h) && AllExact(e, ts) && i < |ts|
    requires BalancedKid(t, h) && Exact(e, t)
    ensures Balanced(ts[i := t], h) && AllExact(e, ts[i := t]) && NoneEmpty(ts[i := t])
  {
    var us := ts[i := t];
    forall j | 0 <= j < |us|
      ensures BalancedKid(us[j], h) && Exact(e, us[j]) && !us[j].Empty?
    {
      assert BalancedKid(ts[j], h) && Exact(e, ts[j]);
    }
  }

  /** A node with enough children of one height, put back under its annotation. */
  lemma RejoinedKid<L(!new), A(!new)>(e: Env<L, A>, cs: seq<Tree<L, A>>, h: nat, ann: A)
    requires h > 0 && Balanced(cs, h - 1) && AllExact(e, cs) && N <= |cs| <= M
    ensures var t := Tree.Node(Combine(e, cs).Or(ann), cs); BalancedKid(t, h) && Exact(e, t)
  {
    assert forall j :: 0 <= j < |cs| ==> BalancedKid(cs[j], h - 1);
    NoneEmptyCombines(e, cs);
  }

  lemma KidReplaced<V(!new), A(!new)>(e: Env<KV<V>, A>, ts: seq<Tree<KV<V>, A>>, h: nat, i: nat, kv: KV<V>,
      t: Tree<KV<V>, A>)
    requires WellFormed(e, ts, h) && Selected(ts, h, kv.key, AtPath(i))
    requires BalancedKid(t, h) && Exact(e, t) && LeavesOf(t) == Put(LeavesOf(ts[i]), kv)
    ensures WellFormed(e, ts[i := t], h) && Leaves(ts[i := t]) == Put(Leaves(ts), kv)
    ensures Absent(LeavesOf(ts[i]), kv.key) ==> Absent(Leaves(ts), kv.key)
  {
    hide Sorted, Put;
    PutInKid(ts, h, i, kv);
    PutSorted(Leaves(ts), kv);
    LeavesUpdate(ts, i, t);
  }

  lemma KidSplit<V(!new), A(!new)>(e: Env<KV<V>, A>, ts: seq<Tree<KV<V>, A>>, h: nat, i: nat, kv: KV<V>,
      t: Tree<KV<V>, A>, sib: Tree<KV<V>, A>)
    requires WellFormed(e, ts, h) && Selected(ts, h, kv.key, AtPath(i))
    requires BalancedKid(t, h) && BalancedKid(sib, h)
    requires LeavesOf(t) + LeavesOf(sib) == Put(LeavesOf(ts[i]), kv) && Absent(LeavesOf(ts[i]), kv.key)
    ensures Balanced(InsertSeq(ts[i := t], i + 1, sib), h)
    ensures Leaves(InsertSeq(ts[i := t], i + 1, sib)) == Put(Leaves(ts), kv)
    ensures Absent(Leaves(ts), kv.key)
  {
    var us := ts[i := t];
    var all := InsertSeq(us, i + 1, sib);
    InsertSeqAt(us, i + 1, sib);
    forall j | 0 <= j < |all|
      ensures BalancedKid(all[j], h)
    {
      if j != i && j != i + 1 {
        assert all[j] == ts[if j < i then j else j - 1];
      }
    }
    PutInKid(ts, h, i, kv);
    SplitLeaves(ts, i, t, sib);
  }

  lemma SplitLeaves<L, A>(ts: seq<Tree<L, A>>, i: nat, t: Tree<L, A>, sib: Tree<L, A>)
    requires i < |ts|
    ensures Leaves(InsertSeq(ts[i := t], i + 1, sib)) ==
            Leaves(ts[..i]) + (LeavesOf(t) + LeavesOf(sib)) + Leaves(ts[i + 1..])
  {
    assert InsertSeq(ts[i := t], i + 1, sib) == ts[..i] + [t, sib] + ts[i + 1..];
    TwoLeavesAround(ts[..i], t, sib, ts[i + 1..]);
  }

  lemma LeafReplaced<V(!new), A(!new)>(e: Env<KV<V>, A>, ts: seq<Tree<KV<V>, A>>, h: nat, i: nat, kv: KV<V>)
    requires WellFormed(e, ts, h) && Selected(ts, h, kv.key, AtLeaf(i))
    ensures WellFormed(e, ts[i := Tree.Leaf(kv)], h) && Leaves(ts[i := Tree.Leaf(kv)]) == Put(Leaves(ts), kv)
    ensures ts[i].leaf in Leaves(ts)
  {
    assert BalancedKid(ts[i], h);
    PutSorted(Leaves(ts), kv);
    ReplacedShape(e, ts, h, i, Tree.Leaf(kv));
    LeafPut(ts, i, kv);
  }

  lemma LeafPut<V(!new), A(!new)>(ts: seq<Tree<KV<V>, A>>, i: nat, kv: KV<V>)
    requires i < |ts| && ts[i].Leaf? && ts[i].leaf.key == kv.key && Below(Leaves(ts[..i]), kv.key)
    ensures Leaves(ts[i := Tree.Leaf(kv)]) == Put(Leaves(ts), kv) && ts[i].leaf in Leaves(ts)
  {
    LeavesAt(ts, i);
    PutMiddle(Leaves(ts[..i]), [ts[i].leaf], Leaves(ts[i + 1..]), kv);
    assert Put([ts[i].leaf], kv) == [kv];
    LeavesUpdate(ts, i, Tree.Leaf(kv));
    assert ts[i].leaf in LeavesOf(ts[i]);
  }

  /** `_insert`. */
  method InsertIn<V(!new), A(!new)>(e: Env<KV<V>, A>, mk: A -> int, store: Store, kids: seq<Handle<KV<V>, A>>,
      kv: KV<V>, depth: nat,
      ghost ts: seq<Tree<KV<V>, A>>, ghost h: nat)
    returns (r: InsertResult<V, A>, kids': seq<Handle<KV<V>, A>>, ghost us: seq<Tree<KV<V>, A>>, ghost g: nat,
        ghost sib: Tree<KV<V>, A>)
    requires MaxKeyed(e, mk) && store.Valid()
    requires Holds(e, store.blobs, kids, ts) && WellFormed(e, ts, h) && Occupied(ts, h, depth)
    ensures Holds(e, store.blobs, kids', us)
    ensures r.Split? ==> Represents(e, store.blobs, r.handle, sib)
    ensures InsertDone(e, ts, h, kv, depth, r, us, g, sib)
    ensures if r.Replaced? then r.leaf in Leaves(ts) && r.leaf.key == kv.key else Absent(Leaves(ts), kv.key)
    ensures r.Split? ==> depth > 0
    ensures Gives(r, us, sib, InsertT(e, mk, ts, kv, depth))
    decreases h, 1
  {
    hide Splice, BackT, SelectFrom;
    SelectFinds(e, mk, kv.key, ts, h, 0);
    SameViews(e, store.blobs, kids, ts);
    match Select(e, mk, kv.key, Views(kids))
    case AtLeaf(i) =>
      assert Represents(e, store.blobs, kids[i], ts[i]);
      LeafReplaced(e, ts, h, i, kv);
      r, kids' := Replaced(kids[i].leaf), kids[i := Handle.Leaf(kv)];
      us, g, sib := ts[i := Tree.Leaf(kv)], h, Empty;
      HoldsUpdate(e, store.blobs, kids, ts, i, Handle.Leaf(kv), Tree.Leaf(kv));
    case AtPath(i) =>
      assert Represents(e, store.blobs, kids[i], ts[i]) && BalancedKid(ts[i], h);
      var c := InnerMut(e, store, kids[i], ts[i]);
      if c.Leaf? {
        // the selected leaf is past the new key, so the other two branches of the source are not reached
        assert c.leaf.key > kv.key;
        r, kids', us, g, sib := InsertLeaf(e, store.blobs, kids, i, kv, depth, ts);
      } else {
        var ann := Combined(e, store.blobs, c.kids, ts[i].kids);
        assert mk(ann.value) >= kv.key || i + 1 == |kids| by {
          KidSorted(ts, i);
          KidMaxKey(e, mk, ts[i], h);
        }
        r, kids', us, g, sib := InsertBelow(e, mk, store, kids, i, c, kv, depth, ts, h);
      }
    case Nothing =>
      assert ts[..|ts|] == ts;
      r, kids', us, g, sib := InsertLeaf(e, store.blobs, kids, |kids|, kv, depth, ts);
  }

  /** The recursive case of `_insert`, and what comes back from it. */
  method InsertBelow<V(!new), A(!new)>(e: Env<KV<V>, A>, mk: A -> int, store: Store, kids: seq<Handle<KV<V>, A>>,
      i: nat, c: Handle<KV<V>, A>,
      kv: KV<V>, depth: nat, ghost ts: seq<Tree<KV<V>, A>>, ghost h: nat)
    returns (r: InsertResult<V, A>, kids': seq<Handle<KV<V>, A>>, ghost us: seq<Tree<KV<V>, A>>, ghost g: nat,
        ghost sib: Tree<KV<V>, A>)
    requires MaxKeyed(e, mk) && store.Valid()
    requires Holds(e, store.blobs, kids, ts) && WellFormed(e, ts, h) && Occupied(ts, h, depth)
    requires h > 0 && Selected(ts, h, kv.key, AtPath(i))
    requires c.Node? && Represents(e, store.blobs, c, ts[i])
    ensures Holds(e, store.blobs, kids', us)
    ensures r.Split? ==> Represents(e, store.blobs, r.handle, sib)
    ensures InsertDone(e, ts, h, kv, depth, r, us, g, sib)
    ensures Gives(r, us, sib, BackT(e, ts, i, depth, ts[i].ann, InsertT(e, mk, ts[i].kids, kv, depth + 1)))
    decreases h, 0
  {
    hide InsertT, BackT;
    var r0, ck;
    ghost var cs, g0, sib0;
    KidWellFormed(e, ts, h, i);
    r0, ck, cs, g0, sib0 := InsertIn(e, mk, store, c.kids, kv, depth + 1, ts[i].kids, h - 1);
    assert InsertT(e, mk, ts[i].kids, kv, depth + 1) == (cs, if r0.Split? then sib0 else Empty);
    r, kids', us, g, sib := InsertBack(e, store.blobs, kids, i, c.ann, r0, ck, kv, depth, ts, h, cs, g0, sib0);
  }

  /** The child is put back, with its second half next to it if it was split. */
  method InsertBack<V(!new), A(!new)>(e: Env<KV<V>, A>, ghost s: Blobs, kids: seq<Handle<KV<V>, A>>, i: nat, ann: A,
      r0: InsertResult<V, A>, ck: seq<Handle<KV<V>, A>>, ghost kv: KV<V>, depth: nat,
      ghost ts: seq<Tree<KV<V>, A>>, ghost h: nat, ghost cs: seq<Tree<KV<V>, A>>, ghost g0: nat,
          ghost sib0: Tree<KV<V>, A>)
    returns (r: InsertResult<V, A>, kids': seq<Handle<KV<V>, A>>, ghost us: seq<Tree<KV<V>, A>>, ghost g: nat,
        ghost sib: Tree<KV<V>, A>)
    requires e.kind.Two3?
    requires Holds(e, s, kids, ts) && WellFormed(e, ts, h) && Occupied(ts, h, depth)
    requires h > 0 && Selected(ts, h, kv.key, AtPath(i)) && ts[i].Node?
    requires Holds(e, s, ck, cs) && (r0.Split? ==> Represents(e, s, r0.handle, sib0))
    requires InsertDone(e, ts[i].kids, h - 1, kv, depth + 1, r0, cs, g0, sib0)
    ensures Holds(e, s, kids', us)
    ensures r.Split? ==> Represents(e, s, r.handle, sib)
    ensures InsertDone(e, ts, h, kv, depth, r, us, g, sib)
    ensures Gives(r, us, sib, BackT(e, ts, i, depth, ann, (cs, if r0.Split? then sib0 else Empty)))
  {
    hide Splice, InsertDone, WellFormed, Balanced, BalancedKid, AllExact, Exact, Represents, Occupied, Combine;
    var d := DropMut(e, s, ck, ann, cs);
    ghost var t := Tree.Node(Combine(e, cs).Or(ann), cs);
    kids' := kids[i := d];
    HoldsUpdate(e, s, kids, ts, i, d, t);
    if r0.Split? {
      SplitKid(e, ts, h, i, kv, depth, r0, cs, g0, sib0, ann);
      r, kids', us, g, sib := InsertSibling(e, s, kids', i, r0.handle, kv, depth, ts, h, t, sib0);
    } else {
      KidInsertDone(e, ts, h, i, kv, depth, r0, cs, g0, sib0, ann);
      r, us, g, sib := r0, ts[i := t], h, Empty;
    }
  }

  lemma SplitKid<V(!new), A(!new)>(e: Env<KV<V>, A>, ts: seq<Tree<KV<V>, A>>, h: nat, i: nat, kv: KV<V>, depth: nat,
      r: InsertResult<V, A>, cs: seq<Tree<KV<V>, A>>, g: nat, sib: Tree<KV<V>, A>, ann: A)
    requires h > 0 && i < |ts| && ts[i].Node? && r.Split?
    requires InsertDone(e, ts[i].kids, h - 1, kv, depth + 1, r, cs, g, sib)
    ensures var t := Tree.Node(Combine(e, cs).Or(ann), cs);
              && BalancedKid(t, h) && Exact(e, t) && BalancedKid(sib, h) && Exact(e, sib) && sib.Node?
              && Leaves(t.kids + sib.kids) == Put(LeavesOf(ts[i]), kv) && Absent(LeavesOf(ts[i]), kv.key)
  {
    RejoinedKid(e, cs, h, ann);
  }

  lemma KidInsertDone<V(!new), A(!new)>(e: Env<KV<V>, A>, ts: seq<Tree<KV<V>, A>>, h: nat, i: nat, kv: KV<V>,
      depth: nat,
      r: InsertResult<V, A>, cs: seq<Tree<KV<V>, A>>, g: nat, sib: Tree<KV<V>, A>, ann: A)
    requires WellFormed(e, ts, h) && Occupied(ts, h, depth) && h > 0 && Selected(ts, h, kv.key, AtPath(i))
    requires ts[i].Node? && InsertDone(e, ts[i].kids, h - 1, kv, depth + 1, r, cs, g, sib) && !r.Split?
    ensures InsertDone(e, ts, h, kv, depth, r, ts[i := Tree.Node(Combine(e, cs).Or(ann), cs)], h, Empty)
  {
    RejoinedKid(e, cs, h, ann);
    KidReplaced(e, ts, h, i, kv, Tree.Node(Combine(e, cs).Or(ann), cs));
    LeavesAt(ts, i);
  }

  /** A child came back split: its second half goes in next to it. */
  method InsertSibling<V(!new), A(!new)>(e: Env<KV<V>, A>, ghost s: Blobs, kids: seq<Handle<KV<V>, A>>, i: nat,
      hd: Handle<KV<V>, A>,
      ghost kv: KV<V>, depth: nat, ghost ts: seq<Tree<KV<V>, A>>, ghost h: nat, ghost t: Tree<KV<V>, A>,
          ghost sib0: Tree<KV<V>, A>)
    returns (r: InsertResult<V, A>, kids': seq<Handle<KV<V>, A>>, ghost us: seq<Tree<KV<V>, A>>, ghost g: nat,
        ghost sib: Tree<KV<V>, A>)
    requires e.kind.Two3?
    requires WellFormed(e, ts, h) && Occupied(ts, h, depth) && h > 0 && Selected(ts, h, kv.key, AtPath(i))
    requires Holds(e, s, kids, ts[i := t]) && Represents(e, s, hd, sib0)
    requires BalancedKid(t, h) && Exact(e, t) && BalancedKid(sib0, h) && Exact(e, sib0)
    requires t.Node? && Leaves(t.kids + sib0.kids) == Put(LeavesOf(ts[i]), kv) && Absent(LeavesOf(ts[i]), kv.key)
    ensures Holds(e, s, kids', us)
    ensures r.Split? ==> Represents(e, s, r.handle, sib)
    ensures InsertDone(e, ts, h, kv, depth, r, us, g, sib)
    ensures Gives(r, us, sib, Splice(e, InsertSeq(ts[i := t], i + 1, sib0), depth))
  {
    hide Splice, Gives, Represents, AllExact, Balanced;
    LeavesConcat(t.kids, sib0.kids);
    KidSplit(e, ts, h, i, kv, t, sib0);
    ReplacedShape(e, ts, h, i, t);
    r, kids', us, sib := InsertAt(e, s, kids, i + 1, hd, depth, ts[i := t], sib0);
    SplicedGives(e, InsertSeq(ts[i := t], i + 1, sib0), depth, r, us, sib);
    g := InsertAtDone(e, ts, h, kv, depth, InsertSeq(ts[i := t], i + 1, sib0), r, us, sib);
  }

  // ---- removal

  datatype RemoveResult<+V> = Noop | Removed(leaf: KV<V>) | Merge(leaf: KV<V>)

  /** What the short node `ss` and the neighbour `ps` on its left come to. */
  ghost function SharedPrev<T>(ps: seq<T>, ss: seq<T>): (seq<T>, seq<T>)
    requires ps != []
  {
    if |ps| == N then (ps + ss, []) else (ps[..|ps| - 1], [Last(ps)] + ss)
  }

  /** Likewise with the neighbour on its right; the neighbour first. */
  ghost function SharedNext<T>(ss: seq<T>, ps: seq<T>): (seq<T>, seq<T>)
    requires ps != []
  {
    if |ps| == N then (ss + ps, []) else (ps[1..], ss + [ps[0]])
  }

  /** The merge step of `_remove` on trees: the children it leaves, and whether they ask to be merged in turn. */
  ghost function MergeT<V(!new), A(!new)>(e: Env<KV<V>, A>, ts: seq<Tree<KV<V>, A>>, i: nat,
      depth: nat): (seq<Tree<KV<V>, A>>, bool) {
    var at := if i > 0 then i - 1 else i + 1;
    if i >= |ts| || at >= |ts| || !ts[i].Node? || !ts[at].Node? || ts[at].kids == [] then (ts, false)
    else
      var (ns, ms) := if i > 0 then SharedPrev(ts[at].kids, ts[i].kids) else SharedNext(ts[i].kids, ts[at].kids);
      SettleT(e, ts[at := Tree.Node(Combine(e, ns).Or(ts[at].ann), ns)], i, ms, depth)
  }

  ghost function SettleT<V(!new), A(!new)>(e: Env<KV<V>, A>, ts: seq<Tree<KV<V>, A>>, i: nat, ms: seq<Tree<KV<V>, A>>,
      depth: nat):
    (seq<Tree<KV<V>, A>>, bool)
    requires i < |ts|
  {
    if ms != [] then (ts[i := NodeOver(e, ms)], false) else CloseT(ts[..i] + ts[i + 1..], depth)
  }

  /** A root left with one child gives way to it. */
  ghost function CloseT<L, A>(ts: seq<Tree<L, A>>, depth: nat): (seq<Tree<L, A>>, bool) {
    if |ts| >= N then (ts, false)
    else if depth > 0 then (ts, true)
    else if |ts| == 1 && ts[0].Node? then (ts[0].kids, false)
    else (ts, false)
  }

  /** `_remove` on trees. */
  ghost function RemoveT<V(!new), A(!new)>(e: Env<KV<V>, A>, mk: A -> int, ts: seq<Tree<KV<V>, A>>, k: int, depth: nat):
    (seq<Tree<KV<V>, A>>, bool)
    decreases ts, 1
  {
    match Select(e, mk, k, TreeViews(ts))
    case AtLeaf(i) => (ts[..i] + ts[i + 1..], |ts| <= N && depth > 0)
    case AtPath(i) =>
      PathT(e, mk, ts, i, k, depth)
    case Nothing => (ts, false)
  }

  /** Nothing is done past the greatest key. */
  ghost function PathT<V(!new), A(!new)>(e: Env<KV<V>, A>, mk: A -> int, ts: seq<Tree<KV<V>, A>>, i: nat, k: int,
      depth: nat):
    (seq<Tree<KV<V>, A>>, bool)
    requires i < |ts|
    decreases ts, 0
  {
    if ts[i].Node? && Combine(e, ts[i].kids).Some? && mk(Combine(e, ts[i].kids).value) >= k then
      RemoveBackT(e, ts, i, depth, ts[i].ann, RemoveT(e, mk, ts[i].kids, k, depth + 1))
    else (ts, false)
  }

  ghost function RemoveBackT<V(!new), A(!new)>(e: Env<KV<V>, A>, ts: seq<Tree<KV<V>, A>>, i: nat, depth: nat, ann: A,
      below: (seq<Tree<KV<V>, A>>, bool)): (seq<Tree<KV<V>, A>>, bool)
    requires i < |ts|
  {
    var us := ts[i := Tree.Node(Combine(e, below.0).Or(ann), below.0)];
    if below.1 then MergeT(e, us, i, depth) else (us, false)
  }

  ghost predicate Leads<V(!new), A(!new)>(r: RemoveResult<V>, us: seq<Tree<KV<V>, A>>,
      all: (seq<Tree<KV<V>, A>>, bool)) {
    all == (us, r.Merge?)
  }

  /** Cases A and B: the short node `small` joins its left neighbour, or takes that one's last child. */
  method MergePrev<V(!new), A(!new)>(e: Env<KV<V>, A>, ghost s: Blobs, prev: seq<Handle<KV<V>, A>>,
      small: seq<Handle<KV<V>, A>>,
      ghost ps: seq<Tree<KV<V>, A>>, ghost ss: seq<Tree<KV<V>, A>>)
    returns (n: seq<Handle<KV<V>, A>>, m: seq<Handle<KV<V>, A>>, ghost ns: seq<Tree<KV<V>, A>>,
        ghost ms: seq<Tree<KV<V>, A>>)
    requires e.kind.Two3?
    requires Holds(e, s, prev, ps) && Holds(e, s, small, ss) && N <= |ps| <= M && |ss| == 1
    ensures n + m == prev + small && (if |prev| == N then m == [] else |n| == N)
    ensures Holds(e, s, n, ns) && Holds(e, s, m, ms) && ns + ms == ps + ss && (ns, ms) == SharedPrev(ps, ss)
    ensures if |ps| == N then |ns| == M && ms == [] else |ns| == N && |ms| == N
  {
    n, m, ns, ms := prev, small, ps, ss;
    if |n| == N {
      var popped := m[|m| - 1];
      m, ms := m[..|m| - 1], [];
      n, ns := n + [popped], ps + ss;
    } else {
      var popped := n[|n| - 1];
      n, ns := n[..|n| - 1], ps[..N];
      m, ms := [popped] + m, [ps[N]] + ss;
    }
  }

  /** Cases C and D: the short node joins its right neighbour, or takes that one's first child. */
  method MergeNext<V(!new), A(!new)>(e: Env<KV<V>, A>, ghost s: Blobs, small: seq<Handle<KV<V>, A>>,
      next: seq<Handle<KV<V>, A>>,
      ghost ss: seq<Tree<KV<V>, A>>, ghost ps: seq<Tree<KV<V>, A>>)
    returns (m: seq<Handle<KV<V>, A>>, n: seq<Handle<KV<V>, A>>, ghost ms: seq<Tree<KV<V>, A>>,
        ghost ns: seq<Tree<KV<V>, A>>)
    requires e.kind.Two3?
    requires Holds(e, s, next, ps) && Holds(e, s, small, ss) && N <= |ps| <= M && |ss| == 1
    ensures m + n == small + next && (if |next| == N then m == [] else |n| == N)
    ensures Holds(e, s, n, ns) && Holds(e, s, m, ms) && ms + ns == ss + ps && (ns, ms) == SharedNext(ss, ps)
    ensures if |ps| == N then |ns| == M && ms == [] else |ns| == N && |ms| == N
  {
    n, m, ns, ms := next, small, ps, ss;
    if |n| == N {
      var popped := m[|m| - 1];
      m, ms := m[..|m| - 1], [];
      n, ns := [popped] + n, ss + ps;
    } else {
      var removed := n[0];
      n, ns := n[1..], ps[1..];
      m, ms := m + [removed], ss + [ps[0]];
    }
  }

  /** Children of one height, but for child `i`, whose node is down to a single child. */
  ghost predicate Lopsided<V(!new), A(!new)>(e: Env<KV<V>, A>, ts: seq<Tree<KV<V>, A>>, h: nat, i: nat) {
    && h > 0 && N <= |ts| <= M && i < |ts|
    && (forall j :: 0 <= j < |ts| && j != i ==> BalancedKid(ts[j], h))
    && ts[i].Node? && |ts[i].kids| == 1 && Balanced(ts[i].kids, h - 1)
    && AllExact(e, ts)
    && Sorted(Leaves(ts))
  }

  lemma LopsidedKids<V(!new), A(!new)>(e: Env<KV<V>, A>, ts: seq<Tree<KV<V>, A>>, h: nat, i: nat, at: nat)
    requires Lopsided(e, ts, h, i) && (if i > 0 then at == i - 1 else at == 1)
    ensures h > 0 && at < |ts| && i < |ts|
    ensures ts[i].Node? && |ts[i].kids| == 1 && Balanced(ts[i].kids, h - 1) && AllExact(e, ts[i].kids)
    ensures ts[at].Node? && N <= |ts[at].kids| <= M && Balanced(ts[at].kids, h - 1) && AllExact(e, ts[at].kids)
  {
    assert BalancedKid(ts[at], h) && Exact(e, ts[i]) && Exact(e, ts[at]);
  }

  /** The neighbours at `a` and `a + 1` with their children put together: in one node if it holds them, else in two
      of two. */
  ghost function Regrouped<V(!new), A(!new)>(e: Env<KV<V>, A>, ts: seq<Tree<KV<V>, A>>, a: nat): seq<Tree<KV<V>, A>>
    requires a + 1 < |ts| && ts[a].Node? && ts[a + 1].Node?
  {
    var all := ts[a].kids + ts[a + 1].kids;
    var mid := if |all| <= M then [NodeOver(e, all)] else [NodeOver(e, all[..N]), NodeOver(e, all[N..])];
    ts[..a] + mid + ts[a + 2..]
  }

  /** What all four merge cases come to: the short node is regrouped with the node on its left, or, being the first,
      with the one on its right, and no other child is touched. A node left with one child asks its parent to be merged
      in turn; a root left with one child is replaced by it. */
  lemma MergeIs<V(!new), A(!new)>(e: Env<KV<V>, A>, ts: seq<Tree<KV<V>, A>>, h: nat, i: nat, depth: nat)
    requires Lopsided(e, ts, h, i)
    ensures var a := if i == 0 then 0 else i - 1;
      && a + 1 < |ts| && ts[a].Node? && ts[a + 1].Node?
      && var us := Regrouped(e, ts, a);
      && us != []
      && if |us| >= N then MergeT(e, ts, i, depth) == (us, false)
         else if depth > 0 then MergeT(e, ts, i, depth) == (us, true)
         else us[0].Node? && MergeT(e, ts, i, depth) == (us[0].kids, false)
  {
    hide AllExact, Exact, Balanced, BalancedKid, Combine, Lopsided, MergeT, Leaves;
    var at, a := if i > 0 then i - 1 else i + 1, if i == 0 then 0 else i - 1;
    LopsidedKids(e, ts, h, i, at);
    PairCombines(e, ts[a].kids, ts[a + 1].kids, h - 1);
    if i > 0 {
      PrevIs(e, ts, i, depth);
    } else {
      NextIs(e, ts, depth);
    }
  }

  ghost predicate Combines<L(!new), A(!new)>(e: Env<L, A>, all: seq<Tree<L, A>>) {
    Combine(e, all).Some? && (|all| > M ==> Combine(e, all[..N]).Some? && Combine(e, all[N..]).Some?)
  }

  lemma PairCombines<L(!new), A(!new)>(e: Env<L, A>, a: seq<Tree<L, A>>, b: seq<Tree<L, A>>, h: nat)
    requires Balanced(a, h) && Balanced(b, h) && AllExact(e, a) && AllExact(e, b) && a != []
    ensures Combines(e, a + b)
  {
    hide AllExact, Exact, Balanced, BalancedKid, Combine;
    var all := a + b;
    assert all == all + [];
    SharedShape(e, a, b, all, [], h);
    if |all| > M {
      assert all == all[..N] + all[N..];
      SharedShape(e, a, b, all[..N], all[N..], h);
    }
  }

  lemma PrevIs<V(!new), A(!new)>(e: Env<KV<V>, A>, ts: seq<Tree<KV<V>, A>>, i: nat, depth: nat)
    requires 0 < i < |ts| && ts[i - 1].Node? && ts[i].Node? && N <= |ts[i - 1].kids| <= M && |ts[i].kids| == 1
    requires Combines(e, ts[i - 1].kids + ts[i].kids)
    ensures MergeT(e, ts, i, depth) == CloseT(Regrouped(e, ts, i - 1), depth)
  {
    hide Combine, SharedPrev;
    var (ns, ms) := SharedPrev(ts[i - 1].kids, ts[i].kids);
    SharedParts(ts[i - 1].kids, ts[i].kids, true);
    var t := NodeOver(e, ns);
    assert Tree.Node(Combine(e, ns).Or(ts[i - 1].ann), ns) == t;
    if ms == [] {
      assert ts[i - 1 := t][..i] + ts[i - 1 := t][i + 1..] == ts[..i - 1] + [t] + ts[i + 1..];
    } else {
      TwoUpdates(ts, i - 1, t, NodeOver(e, ms));
    }
  }

  lemma NextIs<V(!new), A(!new)>(e: Env<KV<V>, A>, ts: seq<Tree<KV<V>, A>>, depth: nat)
    requires 1 < |ts| && ts[0].Node? && ts[1].Node? && N <= |ts[1].kids| <= M && |ts[0].kids| == 1
    requires Combines(e, ts[0].kids + ts[1].kids)
    ensures MergeT(e, ts, 0, depth) == CloseT(Regrouped(e, ts, 0), depth)
  {
    hide Combine, SharedNext;
    var (ns, ms) := SharedNext(ts[0].kids, ts[1].kids);
    SharedParts(ts[0].kids, ts[1].kids, false);
    var t := NodeOver(e, ns);
    assert Tree.Node(Combine(e, ns).Or(ts[1].ann), ns) == t;
    if ms == [] {
      assert ts[1 := t][..0] + ts[1 := t][1..] == ts[..0] + [t] + ts[2..];
    } else {
      TwoUpdates(ts, 0, NodeOver(e, ms), t);
    }
  }

  /** The two nodes come to all their children in order, cut after the second if there are four. */
  lemma SharedParts<T>(a: seq<T>, b: seq<T>, prev: bool)
    requires if prev then N <= |a| <= M && |b| == 1 else |a| == 1 && N <= |b| <= M
    ensures var (ns, ms) := if prev then SharedPrev(a, b) else SharedNext(a, b);
      && (if prev then ns + ms == a + b else ms + ns == a + b)
      && if |a + b| <= M then ns == a + b && ms == []
         else if prev then ns == (a + b)[..N] && ms == (a + b)[N..] else ms == (a + b)[..N] && ns == (a + b)[N..]
  {
  }

  ghost predicate MergeDone<V(!new), A(!new)>(e: Env<KV<V>, A>, ts: seq<Tree<KV<V>, A>>, h: nat, leaf: KV<V>,
      depth: nat,
      r: RemoveResult<V>, us: seq<Tree<KV<V>, A>>, g: nat)
  {
    && WellFormed(e, us, g) && Leaves(us) == Leaves(ts)
    && (depth > 0 ==> g == h)
    && ((r == Removed(leaf) && Occupied(us, g, depth)) || (r == Merge(leaf) && depth > 0 && |us| == 1))
  }

  /** The two neighbours at `a` were rebuilt as `mid`. */
  lemma PairRebuilt<V(!new), A(!new)>(e: Env<KV<V>, A>, ts: seq<Tree<KV<V>, A>>, h: nat, i: nat, a: nat,
      mid: seq<Tree<KV<V>, A>>)
    requires Lopsided(e, ts, h, i) && a + 1 < |ts| && (i == a || i == a + 1)
    requires Balanced(mid, h) && AllExact(e, mid) && 1 <= |mid| <= 2
    requires ts[a].Node? && ts[a + 1].Node? && Leaves(mid) == Leaves(ts[a].kids + ts[a + 1].kids)
    ensures WellFormed(e, ts[..a] + mid + ts[a + 2..], h)
    ensures Leaves(ts[..a] + mid + ts[a + 2..]) == Leaves(ts)
  {
    hide Sorted, BalancedKid, Exact, Leaves;
    var us := ts[..a] + mid + ts[a + 2..];
    forall j | 0 <= j < |us|
      ensures BalancedKid(us[j], h) && Exact(e, us[j])
    {
      if j < a {
        assert us[j] == ts[j] && Exact(e, ts[j]);
      } else if j < a + |mid| {
        assert us[j] == mid[j - a] && BalancedKid(mid[j - a], h);
      } else {
        assert us[j] == ts[j - |mid| + 2] && Exact(e, ts[j - |mid| + 2]);
      }
    }
    PairLeaves(ts, a, mid);
  }

  lemma PairLeaves<L(!new), A(!new)>(ts: seq<Tree<L, A>>, a: nat, mid: seq<Tree<L, A>>)
    requires a + 1 < |ts|
    requires ts[a].Node? && ts[a + 1].Node? && Leaves(mid) == Leaves(ts[a].kids + ts[a + 1].kids)
    ensures Leaves(ts[..a] + mid + ts[a + 2..]) == Leaves(ts)
  {
    assert ts == ts[..a] + [ts[a], ts[a + 1]] + ts[a + 2..];
    TwoLeavesAround(ts[..a], ts[a], ts[a + 1], ts[a + 2..]);
    LeavesConcat(ts[a].kids, ts[a + 1].kids);
    LeavesConcat(ts[..a], mid);
    LeavesConcat(ts[..a] + mid, ts[a + 2..]);
  }

  /** The merge step of `_remove`: child `i` has one child of its own left. */
  method MergeKid<V(!new), A(!new)>(e: Env<KV<V>, A>, store: Store, kids: seq<Handle<KV<V>, A>>, i: nat, leaf: KV<V>,
      depth: nat,
      ghost ts: seq<Tree<KV<V>, A>>, ghost h: nat)
    returns (r: RemoveResult<V>, kids': seq<Handle<KV<V>, A>>, ghost us: seq<Tree<KV<V>, A>>, ghost g: nat)
    requires e.kind.Two3? && e.Lawful() && store.Valid()
    requires Holds(e, store.blobs, kids, ts) && Lopsided(e, ts, h, i) && kids[i].Node?
    ensures Holds(e, store.blobs, kids', us)
    ensures r == Removed(leaf) || (r == Merge(leaf) && depth > 0 && |kids'| == 1)
    ensures MergeDone(e, ts, h, leaf, depth, r, us, g)
    ensures Leads(r, us, MergeT(e, ts, i, depth))
  {
    hide SettleT, AllExact, Exact, Balanced, BalancedKid, Lopsided, SharedPrev, SharedNext, Leads;
    var at := if i > 0 then i - 1 else i + 1;
    LopsidedKids(e, ts, h, i, at);
    var toMerge := kids[i].kids;
    assert Represents(e, store.blobs, kids[i], ts[i]) && Represents(e, store.blobs, kids[at], ts[at]);
    var c := InnerMut(e, store, kids[at], ts[at]);
    var n, m;
    ghost var ns, ms;
    if i > 0 {
      n, m, ns, ms := MergePrev(e, store.blobs, c.kids, toMerge, ts[at].kids, ts[i].kids);
      SharedShape(e, ts[at].kids, ts[i].kids, ns, ms, h - 1);
    } else {
      m, n, ms, ns := MergeNext(e, store.blobs, toMerge, c.kids, ts[i].kids, ts[at].kids);
      SharedShape(e, ts[i].kids, ts[at].kids, ms, ns, h - 1);
    }
    var d := DropMut(e, store.blobs, n, c.ann, ns);
    HoldsUpdate(e, store.blobs, kids, ts, at, d, Tree.Node(Combine(e, ns).Or(c.ann), ns));
    RejoinedKid(e, ns, h, c.ann);
    r, kids', us, g := Settle(e, store.blobs, kids[at := d], i, at, m, leaf, depth,
                              ts, h, Tree.Node(Combine(e, ns).Or(c.ann), ns), ms);
  }

  lemma JoinedShape<L(!new), A(!new)>(e: Env<L, A>, a: seq<Tree<L, A>>, b: seq<Tree<L, A>>, h: nat)
    requires Balanced(a, h) && Balanced(b, h) && AllExact(e, a) && AllExact(e, b)
    ensures Balanced(a + b, h) && AllExact(e, a + b) && NoneEmpty(a + b)
  {
    forall j | 0 <= j < |a + b|
      ensures BalancedKid((a + b)[j], h) && Exact(e, (a + b)[j]) && !(a + b)[j].Empty?
    {
      assert (a + b)[j] == if j < |a| then a[j] else b[j - |a|];
    }
  }

  /** Children moved between two nodes keep height and annotations. */
  lemma SharedShape<L(!new), A(!new)>(e: Env<L, A>, a: seq<Tree<L, A>>, b: seq<Tree<L, A>>, c: seq<Tree<L, A>>,
      d: seq<Tree<L, A>>, h: nat)
    requires Balanced(a, h) && Balanced(b, h) && AllExact(e, a) && AllExact(e, b)
    requires c + d == a + b
    ensures Balanced(c, h) && Balanced(d, h) && AllExact(e, c) && AllExact(e, d)
    ensures c != [] ==> Combine(e, c).Some?
    ensures d != [] ==> Combine(e, d).Some?
  {
    hide Balanced, BalancedKid, AllExact, Exact;
    JoinedShape(e, a, b, h);
    HalvesBalanced(c, d, h);
    ExactParts(e, c, d);
    if c != [] {
      NoneEmptyCombines(e, c);
    }
    if d != [] {
      NoneEmptyCombines(e, d);
    }
  }

  ghost predicate Neighbours(i: nat, at: nat) {
    if i > 0 then at == i - 1 else at == 1
  }

  lemma KeptBoth<V(!new), A(!new)>(e: Env<KV<V>, A>, ts: seq<Tree<KV<V>, A>>, h: nat, i: nat, at: nat,
      t: Tree<KV<V>, A>, u: Tree<KV<V>, A>)
    requires Lopsided(e, ts, h, i) && at < |ts| && Neighbours(i, at) && ts[at].Node?
    requires BalancedKid(t, h) && Exact(e, t) && BalancedKid(u, h) && Exact(e, u)
    requires if i > 0 then t.kids + u.kids == ts[at].kids + ts[i].kids else u.kids + t.kids == ts[i].kids + ts[at].kids
    ensures WellFormed(e, ts[at := t][i := u], h) && Leaves(ts[at := t][i := u]) == Leaves(ts)
  {
    if i > 0 {
      PairKept(e, ts, h, i, at, t, u);
      TwoUpdates(ts, at, t, u);
    } else {
      PairKept(e, ts, h, i, i, u, t);
      TwoUpdates(ts, i, u, t);
    }
  }

  lemma TwoUpdates<T>(s: seq<T>, a: nat, x: T, y: T)
    requires a + 1 < |s|
    ensures s[a := x][a + 1 := y] == s[..a] + [x, y] + s[a + 2..] == s[a + 1 := y][a := x]
  {
  }

  lemma PairKept<V(!new), A(!new)>(e: Env<KV<V>, A>, ts: seq<Tree<KV<V>, A>>, h: nat, i: nat, a: nat,
      t: Tree<KV<V>, A>, u: Tree<KV<V>, A>)
    requires Lopsided(e, ts, h, i) && a + 1 < |ts| && (i == a || i == a + 1) && ts[a].Node? && ts[a + 1].Node?
    requires BalancedKid(t, h) && Exact(e, t) && BalancedKid(u, h) && Exact(e, u)
    requires t.kids + u.kids == ts[a].kids + ts[a + 1].kids
    ensures WellFormed(e, ts[..a] + [t, u] + ts[a + 2..], h) && Leaves(ts[..a] + [t, u] + ts[a + 2..]) == Leaves(ts)
  {
    GrownLeaves([t, u]);
    PairRebuilt(e, ts, h, i, a, [t, u]);
  }

  lemma KeptOne<V(!new), A(!new)>(e: Env<KV<V>, A>, ts: seq<Tree<KV<V>, A>>, h: nat, i: nat, at: nat, t: Tree<KV<V>, A>)
    requires Lopsided(e, ts, h, i) && at < |ts| && Neighbours(i, at) && ts[at].Node?
    requires BalancedKid(t, h) && Exact(e, t)
    requires t.kids == if i > 0 then ts[at].kids + ts[i].kids else ts[i].kids + ts[at].kids
    ensures var us := ts[at := t][..i] + ts[at := t][i + 1..];
      |us| == |ts| - 1 && WellFormed(e, us, h) && Leaves(us) == Leaves(ts) && (|us| == 1 ==> us == [t])
  {
    var a := if i > 0 then at else i;
    assert Leaves([t]) == LeavesOf(t) + [];
    assert ts[at := t][..i] + ts[at := t][i + 1..] == ts[..a] + [t] + ts[a + 2..];
    PairRebuilt(e, ts, h, i, a, [t]);
  }

  /** Puts what is left of the merged node back, or removes it; a root left with one child gives way to it. */
  method Settle<V(!new), A(!new)>(e: Env<KV<V>, A>, ghost s: Blobs, kids: seq<Handle<KV<V>, A>>, i: nat, ghost at: nat,
      m: seq<Handle<KV<V>, A>>, leaf: KV<V>, depth: nat,
      ghost ts: seq<Tree<KV<V>, A>>, ghost h: nat, ghost t: Tree<KV<V>, A>, ghost ms: seq<Tree<KV<V>, A>>)
    returns (r: RemoveResult<V>, kids': seq<Handle<KV<V>, A>>, ghost us: seq<Tree<KV<V>, A>>, ghost g: nat)
    requires e.kind.Two3?
    requires Lopsided(e, ts, h, i) && at < |ts| && Neighbours(i, at)
    requires Holds(e, s, kids, ts[at := t]) && Holds(e, s, m, ms) && kids[at].Node?
    requires ts[at].Node? && t.Node? && BalancedKid(t, h) && Exact(e, t)
    requires Balanced(ms, h - 1) && AllExact(e, ms)
    requires if i > 0 then t.kids + ms == ts[at].kids + ts[i].kids else ms + t.kids == ts[i].kids + ts[at].kids
    requires ms != [] ==> |ms| == N && Combine(e, ms).Some?
    ensures Holds(e, s, kids', us)
    ensures MergeDone(e, ts, h, leaf, depth, r, us, g)
    ensures Leads(r, us, SettleT(e, ts[at := t], i, ms, depth))
  {
    hide Leaves, Balanced, BalancedKid, AllExact, Exact, Represents, WellFormed, MergeDone, SettleT, CloseT, Leads;
    us, g := ts[at := t], h;
    if |m| > 0 {
      var back := NewNode(e, s, m, ms);
      ghost var u := NodeOver(e, ms);
      RejoinedKid(e, ms, h, u.ann);
      HoldsUpdate(e, s, kids, us, i, back, u);
      PutBack(e, ts, h, i, at, t, ms, leaf, depth);
      r, kids', us := Removed(leaf), kids[i := back], us[i := u];
    } else {
      KeptOne(e, ts, h, i, at, t);
      r, kids', us, g := DropEmptied(e, s, kids, i, at, leaf, depth, us, h, t);
      TakenOut(e, ts, h, i, at, t, leaf, depth, r, us, g);
    }
  }

  lemma PutBack<V(!new), A(!new)>(e: Env<KV<V>, A>, ts: seq<Tree<KV<V>, A>>, h: nat, i: nat, at: nat, t: Tree<KV<V>, A>,
      ms: seq<Tree<KV<V>, A>>, leaf: KV<V>, depth: nat)
    requires Lopsided(e, ts, h, i) && at < |ts| && Neighbours(i, at) && ts[at].Node?
    requires t.Node? && BalancedKid(t, h) && Exact(e, t) && Combine(e, ms).Some? && ms != []
    requires BalancedKid(NodeOver(e, ms), h) && Exact(e, NodeOver(e, ms))
    requires if i > 0 then t.kids + ms == ts[at].kids + ts[i].kids else ms + t.kids == ts[i].kids + ts[at].kids
    ensures var us := ts[at := t][i := NodeOver(e, ms)];
              && MergeDone(e, ts, h, leaf, depth, Removed(leaf), us, h)
              && Leads(Removed(leaf), us, SettleT(e, ts[at := t], i, ms, depth))
  {
    hide Leaves, BalancedKid, AllExact, Exact;
    KeptBoth(e, ts, h, i, at, t, NodeOver(e, ms));
  }

  lemma TakenOut<V(!new), A(!new)>(e: Env<KV<V>, A>, ts: seq<Tree<KV<V>, A>>, h: nat, i: nat, at: nat,
      t: Tree<KV<V>, A>, leaf: KV<V>, depth: nat, r: RemoveResult<V>, us: seq<Tree<KV<V>, A>>, g: nat)
    requires i < |ts| && at < |ts|
    requires var vs := ts[at := t][..i] + ts[at := t][i + 1..];
               && Leaves(vs) == Leaves(ts) && Leaves(us) == Leaves(vs) && Leads(r, us, CloseT(vs, depth))
    requires WellFormed(e, us, g) && (depth > 0 ==> g == h)
    requires (r == Removed(leaf) && Occupied(us, g, depth)) || (r == Merge(leaf) && depth > 0 && |us| == 1)
    ensures MergeDone(e, ts, h, leaf, depth, r, us, g)
    ensures Leads(r, us, SettleT(e, ts[at := t], i, [], depth))
  {
  }

  method DropEmptied<V(!new), A(!new)>(e: Env<KV<V>, A>, ghost s: Blobs, kids: seq<Handle<KV<V>, A>>, i: nat,
      ghost at: nat, leaf: KV<V>, depth: nat,
      ghost ts: seq<Tree<KV<V>, A>>, ghost h: nat, ghost t: Tree<KV<V>, A>)
    returns (r: RemoveResult<V>, kids': seq<Handle<KV<V>, A>>, ghost us: seq<Tree<KV<V>, A>>, ghost g: nat)
    requires e.kind.Two3?
    requires Holds(e, s, kids, ts) && |ts| >= N && i < |ts| && h > 0
    requires WellFormed(e, ts[..i] + ts[i + 1..], h) && (|ts| == N ==> (ts[..i] + ts[i + 1..]) == [t])
    requires t.Node? && at < |ts| && at != i && kids[at].Node? && ts[at] == t
    ensures Holds(e, s, kids', us)
    ensures WellFormed(e, us, g) && Leaves(us) == Leaves(ts[..i] + ts[i + 1..])
    ensures depth > 0 ==> g == h
    ensures (r == Removed(leaf) && Occupied(us, g, depth)) || (r == Merge(leaf) && depth > 0 && |us| == 1)
    ensures Leads(r, us, CloseT(ts[..i] + ts[i + 1..], depth))
  {
    kids', us, g := kids[..i] + kids[i + 1..], ts[..i] + ts[i + 1..], h;
    HoldsWithout(e, s, kids, ts, i);
    if |kids'| >= N {
      r := Removed(leaf);
    } else if depth > 0 {
      r := Merge(leaf);
    } else {
      r, kids', us, g := CollapseRoot(e, s, kids', leaf, us, h);
    }
  }

  method CollapseRoot<V(!new), A(!new)>(e: Env<KV<V>, A>, ghost s: Blobs, kids: seq<Handle<KV<V>, A>>, leaf: KV<V>,
      ghost ts: seq<Tree<KV<V>, A>>, ghost h: nat)
    returns (r: RemoveResult<V>, kids': seq<Handle<KV<V>, A>>, ghost us: seq<Tree<KV<V>, A>>, ghost g: nat)
    requires Holds(e, s, kids, ts) && |kids| == 1 && kids[0].Node?
    requires h > 0 && WellFormed(e, ts, h)
    ensures Holds(e, s, kids', us)
    ensures r == Removed(leaf) && g == h - 1 && WellFormed(e, us, g) && Occupied(us, g, 1) && Leaves(us) == Leaves(ts)
    ensures Leads(r, us, CloseT(ts, 0))
  {
    assert Represents(e, s, kids[0], ts[0]) && BalancedKid(ts[0], h) && Exact(e, ts[0]);
    r, kids', us, g := Removed(leaf), kids[0].kids, ts[0].kids, h - 1;
    assert Leaves(ts) == Leaves(us) + [] == Leaves(us);
  }

  /** What removing `k` from the children `ts` of a node of height `h` has to leave. */
  ghost predicate RemoveDone<V(!new), A(!new)>(e: Env<KV<V>, A>, ts: seq<Tree<KV<V>, A>>, h: nat, k: int, depth: nat,
      r: RemoveResult<V>, us: seq<Tree<KV<V>, A>>, g: nat)
  {
    match r
    case Noop =>
      us == ts && g == h && Absent(Leaves(ts), k)
    case Removed(l) =>
      && (depth > 0 ==> g == h)
      && WellFormed(e, us, g) && Occupied(us, g, depth)
      && Leaves(us) == Del(Leaves(ts), k) && l in Leaves(ts) && l.key == k
    case Merge(l) =>
      && depth > 0 && g == h
      && WellFormed(e, us, g) && |us| == 1
      && Leaves(us) == Del(Leaves(ts), k) && l in Leaves(ts) && l.key == k
  }

  /** The selected child is the only one that can hold `k`. */
  lemma DelInKid<V(!new), A(!new)>(ts: seq<Tree<KV<V>, A>>, h: nat, i: nat, k: int)
    requires Sorted(Leaves(ts)) && Selected(ts, h, k, AtPath(i)) && k <= Last(LeavesOf(ts[i])).key
    ensures Del(Leaves(ts), k) == Leaves(ts[..i]) + Del(LeavesOf(ts[i]), k) + Leaves(ts[i + 1..])
    ensures Absent(LeavesOf(ts[i]), k) ==> Absent(Leaves(ts), k)
    ensures forall l :: l in LeavesOf(ts[i]) ==> l in Leaves(ts)
  {
    LeavesAt(ts, i);
    KidSorted(ts, i);
    assert Last(LeavesOf(ts[i])) in LeavesOf(ts[i]);
    DelMiddle(Leaves(ts[..i]), LeavesOf(ts[i]), Leaves(ts[i + 1..]), k);
  }

  lemma DelKid<V(!new), A(!new)>(ts: seq<Tree<KV<V>, A>>, h: nat, i: nat, k: int, t: Tree<KV<V>, A>)
    requires Sorted(Leaves(ts)) && Selected(ts, h, k, AtPath(i)) && k <= Last(LeavesOf(ts[i])).key
    requires LeavesOf(t) == Del(LeavesOf(ts[i]), k)
    ensures Leaves(ts[i := t]) == Del(Leaves(ts), k) && Sorted(Leaves(ts[i := t]))
  {
    DelInKid(ts, h, i, k);
    DelSorted(Leaves(ts), k);
    LeavesUpdate(ts, i, t);
  }

  /** Past the greatest key there is nothing to remove. */
  lemma BeyondLast<V(!new), A(!new)>(ts: seq<Tree<KV<V>, A>>, h: nat, i: nat, k: int)
    requires Sorted(Leaves(ts)) && Selected(ts, h, k, AtPath(i)) && Last(LeavesOf(ts[i])).key < k
    ensures Absent(Leaves(ts), k)
  {
    LeavesAt(ts, i);
    KidSorted(ts, i);
    BelowNext(ts, i, k);
    assert ts[..i + 1] == ts;
  }

  lemma BeforeNext<V(!new), A(!new)>(ts: seq<Tree<KV<V>, A>>, h: nat, i: nat, k: int)
    requires Sorted(Leaves(ts)) && Selected(ts, h, k, AtPath(i)) && ts[i].Leaf?
    ensures Absent(Leaves(ts), k)
  {
    DelInKid(ts, h, i, k);
  }

  lemma LeafRemoved<V(!new), A(!new)>(e: Env<KV<V>, A>, ts: seq<Tree<KV<V>, A>>, h: nat, i: nat, k: int)
    requires WellFormed(e, ts, h) && Selected(ts, h, k, AtLeaf(i))
    ensures h == 0 && Balanced(ts[..i] + ts[i + 1..], 0) && AllExact(e, ts[..i] + ts[i + 1..])
    ensures Leaves(ts[..i] + ts[i + 1..]) == Del(Leaves(ts), k) && Sorted(Del(Leaves(ts), k))
    ensures ts[i].leaf in Leaves(ts)
  {
    var us := ts[..i] + ts[i + 1..];
    assert BalancedKid(ts[i], h);
    forall j | 0 <= j < |us|
      ensures BalancedKid(us[j], 0) && Exact(e, us[j])
    {
      assert us[j] == ts[if j < i then j else j + 1];
    }
    DelLeaf(ts, i, k);
    DelSorted(Leaves(ts), k);
  }

  lemma DelLeaf<V(!new), A(!new)>(ts: seq<Tree<KV<V>, A>>, i: nat, k: int)
    requires Sorted(Leaves(ts)) && i < |ts| && ts[i].Leaf? && ts[i].leaf.key == k
    ensures Leaves(ts[..i] + ts[i + 1..]) == Del(Leaves(ts), k)
    ensures ts[i].leaf in Leaves(ts)
  {
    hide Sorted;
    LeavesAt(ts, i);
    KidSorted(ts, i);
    assert ts[i].leaf in LeavesOf(ts[i]);
    DelMiddle(Leaves(ts[..i]), [ts[i].leaf], Leaves(ts[i + 1..]), k);
    LeavesConcat(ts[..i], ts[i + 1..]);
    assert Del([ts[i].leaf], k) == [];
  }

  /** `_remove`. */
  method RemoveIn<V(!new), A(!new)>(e: Env<KV<V>, A>, mk: A -> int, store: Store, kids: seq<Handle<KV<V>, A>>, k: int,
      depth: nat,
      ghost ts: seq<Tree<KV<V>, A>>, ghost h: nat)
    returns (r: RemoveResult<V>, kids': seq<Handle<KV<V>, A>>, ghost us: seq<Tree<KV<V>, A>>, ghost g: nat)
    requires MaxKeyed(e, mk) && store.Valid()
    requires Holds(e, store.blobs, kids, ts) && WellFormed(e, ts, h) && Occupied(ts, h, depth)
    ensures Holds(e, store.blobs, kids', us)
    ensures RemoveDone(e, ts, h, k, depth, r, us, g)
    ensures if r.Noop? then Absent(Leaves(ts), k) else r.leaf in Leaves(ts) && r.leaf.key == k
    ensures r.Merge? ==> depth > 0
    ensures Leads(r, us, RemoveT(e, mk, ts, k, depth))
    decreases h, 2
  {
    hide RemoveBackT, PathT, Balanced, AllExact, SelectFrom, Combine;
    SelectFinds(e, mk, k, ts, h, 0);
    SameViews(e, store.blobs, kids, ts);
    match Select(e, mk, k, Views(kids))
    case AtLeaf(i) =>
      assert Represents(e, store.blobs, kids[i], ts[i]);
      LeafRemoved(e, ts, h, i, k);
      kids', us, g := kids[..i] + kids[i + 1..], ts[..i] + ts[i + 1..], h;
      HoldsWithout(e, store.blobs, kids, ts, i);
      r := if |kids'| < N && depth > 0 then Merge(kids[i].leaf) else Removed(kids[i].leaf);
    case AtPath(i) =>
      r, kids', us, g := RemovePath(e, mk, store, kids, i, k, depth, ts, h);
    case Nothing =>
      r, kids', us, g := Noop, kids, ts, h;
  }

  method RemovePath<V(!new), A(!new)>(e: Env<KV<V>, A>, mk: A -> int, store: Store, kids: seq<Handle<KV<V>, A>>,
      i: nat, k: int, depth: nat,
      ghost ts: seq<Tree<KV<V>, A>>, ghost h: nat)
    returns (r: RemoveResult<V>, kids': seq<Handle<KV<V>, A>>, ghost us: seq<Tree<KV<V>, A>>, ghost g: nat)
    requires MaxKeyed(e, mk) && store.Valid()
    requires Holds(e, store.blobs, kids, ts) && WellFormed(e, ts, h) && Occupied(ts, h, depth)
    requires Selected(ts, h, k, AtPath(i))
    ensures Holds(e, store.blobs, kids', us)
    ensures RemoveDone(e, ts, h, k, depth, r, us, g)
    ensures Leads(r, us, PathT(e, mk, ts, i, k, depth))
    decreases h, 1
  {
    hide RemoveBackT, RemoveT;
    assert Represents(e, store.blobs, kids[i], ts[i]) && BalancedKid(ts[i], h);
    KidSorted(ts, i);
    KidMaxKey(e, mk, ts[i], h);
    var c := InnerMut(e, store, kids[i], ts[i]);
    r, kids', us, g := Noop, kids[i := c], ts, h;
    if c.Node? {
      var ann := Combined(e, store.blobs, c.kids, ts[i].kids);
      if mk(ann.value) >= k {
        r, kids', us, g := RemoveBelow(e, mk, store, kids', i, k, depth, ts, h);
      } else {
        var d := DropMut(e, store.blobs, c.kids, c.ann, ts[i].kids);
        assert Exact(e, ts[i]);
        kids' := kids[i := d];
        BeyondLast(ts, h, i, k);
      }
    } else {
      BeforeNext(ts, h, i, k);
    }
  }

  /** The recursive case of `_remove`, and what comes back from it. */
  method RemoveBelow<V(!new), A(!new)>(e: Env<KV<V>, A>, mk: A -> int, store: Store, kids: seq<Handle<KV<V>, A>>,
      i: nat,
      k: int, depth: nat, ghost ts: seq<Tree<KV<V>, A>>, ghost h: nat)
    returns (r: RemoveResult<V>, kids': seq<Handle<KV<V>, A>>, ghost us: seq<Tree<KV<V>, A>>, ghost g: nat)
    requires MaxKeyed(e, mk) && store.Valid()
    requires Holds(e, store.blobs, kids, ts) && WellFormed(e, ts, h) && Occupied(ts, h, depth)
    requires h > 0 && Selected(ts, h, k, AtPath(i)) && k <= Last(LeavesOf(ts[i])).key
    requires kids[i].Node? && ts[i].Node?
    ensures Holds(e, store.blobs, kids', us)
    ensures RemoveDone(e, ts, h, k, depth, r, us, g)
    ensures Leads(r, us, RemoveBackT(e, ts, i, depth, ts[i].ann, RemoveT(e, mk, ts[i].kids, k, depth + 1)))
    decreases h, 0
  {
    hide RemoveT, MergeT, RemoveDone, WellFormed, Balanced, AllExact;
    assert Represents(e, store.blobs, kids[i], ts[i]);
    KidWellFormed(e, ts, h, i);
    var ck;
    ghost var cs, g0;
    r, ck, cs, g0 := RemoveIn(e, mk, store, kids[i].kids, k, depth + 1, ts[i].kids, h - 1);
    var d := DropMut(e, store.blobs, ck, kids[i].ann, cs);
    kids', us, g := kids[i := d], ts[i := Tree.Node(Combine(e, cs).Or(kids[i].ann), cs)], h;
    HoldsUpdate(e, store.blobs, kids, ts, i, d, us[i]);
    if r.Merge? {
      MergeAsked(e, ts[i].kids, h - 1, k, depth + 1, r, cs, g0);
      r, kids', us, g := RemoveMerging(e, store, kids', i, k, r.leaf, depth, ts, h, cs, kids[i].ann);
    } else {
      KidRemoveDone(e, ts, h, i, k, depth, r, cs, g0, kids[i].ann);
    }
  }

  lemma MergeAsked<V(!new), A(!new)>(e: Env<KV<V>, A>, ts: seq<Tree<KV<V>, A>>, h: nat, k: int, depth: nat,
      r: RemoveResult<V>, us: seq<Tree<KV<V>, A>>, g: nat)
    requires RemoveDone(e, ts, h, k, depth, r, us, g) && r.Merge?
    ensures WellFormed(e, us, h) && |us| == 1 && Leaves(us) == Del(Leaves(ts), k)
    ensures r.leaf in Leaves(ts) && r.leaf.key == k
  {
  }

  /** The child came back with a single child of its own. */
  method RemoveMerging<V(!new), A(!new)>(e: Env<KV<V>, A>, store: Store, kids: seq<Handle<KV<V>, A>>, i: nat,
      ghost k: int, leaf: KV<V>, depth: nat,
      ghost ts: seq<Tree<KV<V>, A>>, ghost h: nat, ghost cs: seq<Tree<KV<V>, A>>, ghost ann: A)
    returns (r: RemoveResult<V>, kids': seq<Handle<KV<V>, A>>, ghost us: seq<Tree<KV<V>, A>>, ghost g: nat)
    requires e.kind.Two3? && e.Lawful() && store.Valid()
    requires h > 0 && WellFormed(e, ts, h) && N <= |ts|
    requires Selected(ts, h, k, AtPath(i)) && k <= Last(LeavesOf(ts[i])).key
    requires WellFormed(e, cs, h - 1) && |cs| == 1 && Leaves(cs) == Del(LeavesOf(ts[i]), k)
    requires leaf in LeavesOf(ts[i]) && leaf.key == k
    requires Holds(e, store.blobs, kids, ts[i := Tree.Node(Combine(e, cs).Or(ann), cs)]) && kids[i].Node?
    ensures Holds(e, store.blobs, kids', us)
    ensures RemoveDone(e, ts, h, k, depth, r, us, g)
    ensures Leads(r, us, MergeT(e, ts[i := Tree.Node(Combine(e, cs).Or(ann), cs)], i, depth))
  {
    hide MergeT, Leads;
    ShortKid(e, ts, h, i, k, cs, ann);
    DelInKid(ts, h, i, k);
    r, kids', us, g := MergeKid(e, store, kids, i, leaf, depth, ts[i := Tree.Node(Combine(e, cs).Or(ann), cs)], h);
  }

  lemma KidRemoveDone<V(!new), A(!new)>(e: Env<KV<V>, A>, ts: seq<Tree<KV<V>, A>>, h: nat, i: nat, k: int, depth: nat,
      r: RemoveResult<V>, cs: seq<Tree<KV<V>, A>>, g: nat, ann: A)
    requires WellFormed(e, ts, h) && Occupied(ts, h, depth)
    requires h > 0 && Selected(ts, h, k, AtPath(i)) && k <= Last(LeavesOf(ts[i])).key
    requires ts[i].Node? && RemoveDone(e, ts[i].kids, h - 1, k, depth + 1, r, cs, g) && !r.Merge?
    ensures RemoveDone(e, ts, h, k, depth, r, ts[i := Tree.Node(Combine(e, cs).Or(ann), cs)], h)
  {
    var t := Tree.Node(Combine(e, cs).Or(ann), cs);
    KidHolds(e, ts, h, i);
    DelInKid(ts, h, i, k);
    if r.Noop? {
      assert ts[i := t] == ts;
    } else {
      hide Sorted, Selected;
      RejoinedKid(e, cs, h, ann);
      ReplacedShape(e, ts, h, i, t);
      DelKid(ts, h, i, k, t);
    }
  }

  lemma ShortKid<V(!new), A(!new)>(e: Env<KV<V>, A>, ts: seq<Tree<KV<V>, A>>, h: nat, i: nat, k: int,
      cs: seq<Tree<KV<V>, A>>, ann: A)
    requires h > 0 && WellFormed(e, ts, h) && N <= |ts|
    requires Selected(ts, h, k, AtPath(i)) && k <= Last(LeavesOf(ts[i])).key
    requires WellFormed(e, cs, h - 1) && |cs| == 1 && Leaves(cs) == Del(LeavesOf(ts[i]), k)
    ensures var us := ts[i := Tree.Node(Combine(e, cs).Or(ann), cs)];
      Lopsided(e, us, h, i) && Leaves(us) == Del(Leaves(ts), k)
  {
    var t := Tree.Node(Combine(e, cs).Or(ann), cs);
    assert BalancedKid(cs[0], h - 1);
    NoneEmptyCombines(e, cs);
    DelKid(ts, h, i, k, t);
    var us := ts[i := t];
    forall j | 0 <= j < |us|
      ensures Exact(e, us[j]) && (j != i ==> BalancedKid(us[j], h))
    {
      assert Exact(e, ts[j]) && BalancedKid(ts[j], h);
    }
  }
}
