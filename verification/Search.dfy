/** src/search.rs: search methods. */
module Search {
  import opened Trees
  import opened Content
  import opened Handles

  datatype SearchResult = AtLeaf(i: nat) | AtPath(i: nat) | Nothing

  /** What a search method sees of a child: its type, its annotation, its leaf. */
  datatype View<+L, +A> = NoView | LeafView(leaf: L) | NodeView(ann: A)

  function ViewOf<L(!new), A(!new)>(h: Handle<L, A>): View<L, A> {
    match h
    case None => NoView
    case Leaf(l) => LeafView(l)
    case Node(_, a, _) => NodeView(a)
    case Persisted(_, a) => NodeView(a)
  }

  function Views<L(!new), A(!new)>(kids: seq<Handle<L, A>>): seq<View<L, A>> {
    seq(|kids|, i requires 0 <= i < |kids| => ViewOf(kids[i]))
  }

  function TreeView<L(!new), A(!new)>(t: Tree<L, A>): View<L, A> {
    match t
    case Empty => NoView
    case Leaf(l) => LeafView(l)
    case Node(a, _) => NodeView(a)
  }

  function TreeViews<L(!new), A(!new)>(ts: seq<Tree<L, A>>): seq<View<L, A>> {
    seq(|ts|, i requires 0 <= i < |ts| => TreeView(ts[i]))
  }

  /** A search sees the same tree whether or not its nodes are loaded or hashed. */
  lemma SameViews<L(!new), A(!new)>(e: Env<L, A>, s: Blobs, kids: seq<Handle<L, A>>, ts: seq<Tree<L, A>>)
    requires Holds(e, s, kids, ts)
    ensures Views(kids) == TreeViews(ts)
  {
    forall i | 0 <= i < |kids|
      ensures Views(kids)[i] == TreeViews(ts)[i]
    {
      assert Represents(e, s, kids[i], ts[i]);
    }
  }

  function ViewAnn<L(!new), A(!new)>(e: Env<L, A>, v: View<L, A>): Option<A> {
    match v
    case NoView => Option.None
    case LeafView(l) => Some(e.from(l))
    case NodeView(a) => Some(a)
  }

  /** A method is its state and its `select`: given the children of a node and the current offset it answers, and
      moves to its next state. Children are handles when it runs, and trees when it is reasoned about. */
  type Method<!M, !N> = (M, seq<N>, nat) -> (SearchResult, M)

  /** Looking at handles, `look` answers as `sel` does of what they stand for: it may look as far down as it likes,
      but cannot tell whether nodes are loaded or hashed. */
  ghost predicate Agrees<M(!new), L(!new), A(!new)>(e: Env<L, A>, s: Blobs, look: Method<M, Handle<L, A>>,
      sel: Method<M, Tree<L, A>>)
  {
    forall m: M, kids, ts, ofs: nat :: Holds(e, s, kids, ts) ==> look(m, kids, ofs) == sel(m, ts, ofs)
  }

  /** A method that looks at direct children only. */
  function OnHandles<M, L(!new), A(!new)>(sel: Method<M, View<L, A>>): Method<M, Handle<L, A>> {
    (m: M, kids: seq<Handle<L, A>>, ofs: nat) => sel(m, Views(kids), ofs)
  }

  function OnTrees<M, L(!new), A(!new)>(sel: Method<M, View<L, A>>): Method<M, Tree<L, A>> {
    (m: M, ts: seq<Tree<L, A>>, ofs: nat) => sel(m, TreeViews(ts), ofs)
  }

  lemma ViewsAgree<M(!new), L(!new), A(!new)>(e: Env<L, A>, s: Blobs, sel: Method<M, View<L, A>>)
    ensures Agrees(e, s, OnHandles(sel), OnTrees(sel))
  {
    forall m: M, kids, ts, ofs: nat | Holds(e, s, kids, ts)
      ensures OnHandles(sel)(m, kids, ofs) == OnTrees(sel)(m, ts, ofs)
    {
      SameViews(e, s, kids, ts);
    }
  }

  /** `First::select`, from child `i` on. */
  function FirstFrom<L(!new), A(!new)>(views: seq<View<L, A>>, ofs: nat, i: nat): SearchResult
    requires ofs <= i <= |views|
    decreases |views| - i
  {
    if i == |views| then Nothing
    else
      match views[i]
      case LeafView(_) => AtLeaf(i - ofs)
      case NodeView(_) => AtPath(i - ofs)
      case NoView => FirstFrom(views, ofs, i + 1)
  }

  function First<L(!new), A(!new)>(m: (), views: seq<View<L, A>>, ofs: nat): (SearchResult, ()) {
    if ofs <= |views| then (FirstFrom(views, ofs, ofs), ()) else (Nothing, ())
  }

  lemma FirstOnTrees<L(!new), A(!new)>(ts: seq<Tree<L, A>>, ofs: nat)
    requires ofs <= |ts|
    ensures OnTrees(First)((), ts, ofs) == (FirstFrom(TreeViews(ts), ofs, ofs), ())
  {
    hide FirstFrom, TreeView;
    assert OnTrees(First)((), ts, ofs) == First((), TreeViews(ts), ofs);
  }
}
