/** Trees of leaves and annotated nodes: what a handle stands for, whether or not its nodes are loaded or hashed. */
module Trees {
  datatype Option<+T> = None | Some(value: T) {
    function Or(default: T): T {
      if Some? then value else default
    }
  }

  type Bytes = seq<bv8>

  lemma SameByte(x: bv8, y: bv8)
    ensures x as nat == y as nat <==> x == y
  {
    assert (x as nat) as bv8 == x && (y as nat) as bv8 == y;
  }

  datatype Kind = Two3 | Wide | Narrow

  datatype Codec<!T> = Codec(enc: T -> Bytes, dec: Bytes -> Option<(T, nat)>)

  ghost predicate PrefixExact<T(!new)>(c: Codec<T>) {
    forall t: T, tail: Bytes :: c.dec(c.enc(t) + tail) == Some((t, |c.enc(t)|))
  }

  datatype Env<!L(!new), !A(!new)> = Env(
    kind: Kind,
    hash: Bytes -> Bytes,
    digestLen: nat,
    leaf: Codec<L>,
    ann: Codec<A>,
    from: L -> A,
    op: (A, A) -> A
  )
  {
    ghost predicate Lawful() {
      && (forall b: Bytes :: |hash(b)| == digestLen)
      && PrefixExact(leaf)
      && PrefixExact(ann)
    }
  }

  datatype Tree<+L, +A> =
    | Empty
    | Leaf(leaf: L)
    | Node(ann: A, kids: seq<Tree<L, A>>)

  function AnnOf<L(!new), A(!new)>(e: Env<L, A>, t: Tree<L, A>): Option<A> {
    match t
    case Empty => None
    case Leaf(l) => Some(e.from(l))
    case Node(a, _) => Some(a)
  }

  function Join<L(!new), A(!new)>(e: Env<L, A>, a: Option<A>, b: Option<A>): Option<A> {
    if a.None? then b else if b.None? then a else Some(e.op(a.value, b.value))
  }

  /** `Combine::combine`: the first annotation present, with the later ones applied to it in order. */
  function Combine<L(!new), A(!new)>(e: Env<L, A>, ts: seq<Tree<L, A>>): Option<A> {
    if ts == [] then None
    else Join(e, Combine(e, ts[..|ts| - 1]), AnnOf(e, ts[|ts| - 1]))
  }

  /** Every node carries the annotation its children combine to. */
  ghost predicate Exact<L(!new), A(!new)>(e: Env<L, A>, t: Tree<L, A>) {
    t.Node? ==>
      && Combine(e, t.kids) == Some(t.ann)
      && AllExact(e, t.kids)
  }

  ghost predicate AllExact<L(!new), A(!new)>(e: Env<L, A>, ts: seq<Tree<L, A>>) {
    forall i :: 0 <= i < |ts| ==> Exact(e, ts[i])
  }

  /** A node with anything in it has an annotation. */
  lemma {:induction false} CombineSome<L(!new), A(!new)>(e: Env<L, A>, ts: seq<Tree<L, A>>, i: nat)
    requires i < |ts| && !ts[i].Empty?
    ensures Combine(e, ts).Some?
    decreases |ts|
  {
    if i < |ts| - 1 {
      CombineSome(e, ts[..|ts| - 1], i);
    }
  }

  /** A new node for the children `ts`, which are not all empty. */
  ghost function NodeOver<L(!new), A(!new)>(e: Env<L, A>, ts: seq<Tree<L, A>>): Tree<L, A> {
    match Combine(e, ts)
    case None => Empty
    case Some(a) => Tree.Node(a, ts)
  }

  function LeavesOf<L, A>(t: Tree<L, A>): seq<L>
    decreases t, 0
  {
    match t
    case Empty => []
    case Leaf(l) => [l]
    case Node(_, kids) => Leaves(kids)
  }

  function Leaves<L, A>(ts: seq<Tree<L, A>>): seq<L>
    decreases ts, 1
  {
    if ts == [] then [] else LeavesOf(ts[0]) + Leaves(ts[1..])
  }

  lemma Reassociate<T>(a: seq<T>, b: seq<T>, c: seq<T>)
    ensures a + (b + c) == (a + b) + c
  {
  }

  lemma CancelLeft<T>(a: seq<T>, b: seq<T>, c: seq<T>, d: seq<T>)
    requires a + b == c + d && |a| == |c|
    ensures a == c && b == d
  {
    assert a == (a + b)[..|a|] && c == (c + d)[..|c|];
    assert b == (a + b)[|a|..] && d == (c + d)[|c|..];
  }

  lemma {:induction false} LeavesConcat<L, A>(a: seq<Tree<L, A>>, b: seq<Tree<L, A>>)
    ensures Leaves(a + b) == Leaves(a) + Leaves(b)
  {
    if a == [] {
      assert a + b == b;
    } else {
      var ab, rest := a + b, a[1..];
      assert ab[0] == a[0] && ab[1..] == rest + b;
      LeavesConcat(rest, b);
      Reassociate(LeavesOf(a[0]), Leaves(rest), Leaves(b));
    }
  }

  lemma LeavesAt<L, A>(ts: seq<Tree<L, A>>, i: nat)
    requires i < |ts|
    ensures Leaves(ts) == Leaves(ts[..i]) + LeavesOf(ts[i]) + Leaves(ts[i + 1..])
  {
    assert ts == ts[..i] + ts[i..] && ts[i..] == [ts[i]] + ts[i + 1..];
    LeavesConcat(ts[..i], ts[i..]);
  }

  lemma LeavesCut<L, A>(ts: seq<Tree<L, A>>, i: nat)
    requires i <= |ts|
    ensures Leaves(ts) == Leaves(ts[..i]) + Leaves(ts[i..])
  {
    assert ts == ts[..i] + ts[i..];
    LeavesConcat(ts[..i], ts[i..]);
  }

  lemma LeavesHead<L, A>(ts: seq<Tree<L, A>>, i: nat)
    requires i < |ts|
    ensures Leaves(ts[i..]) == LeavesOf(ts[i]) + Leaves(ts[i + 1..])
  {
    assert ts[i..][0] == ts[i] && ts[i..][1..] == ts[i + 1..];
  }

  lemma LeavesAround<L, A>(a: seq<Tree<L, A>>, t: Tree<L, A>, b: seq<Tree<L, A>>)
    ensures Leaves(a + [t] + b) == Leaves(a) + LeavesOf(t) + Leaves(b)
  {
    var ts := a + [t] + b;
    LeavesAt(ts, |a|);
    assert ts[..|a|] == a && ts[|a| + 1..] == b;
  }

  lemma LeavesUpdate<L, A>(ts: seq<Tree<L, A>>, i: nat, t: Tree<L, A>)
    requires i < |ts|
    ensures Leaves(ts[i := t]) == Leaves(ts[..i]) + LeavesOf(t) + Leaves(ts[i + 1..])
  {
    assert ts[i := t] == ts[..i] + [t] + ts[i + 1..];
    LeavesAround(ts[..i], t, ts[i + 1..]);
  }

  lemma TwoLeavesAround<L, A>(a: seq<Tree<L, A>>, t: Tree<L, A>, u: Tree<L, A>, b: seq<Tree<L, A>>)
    ensures Leaves(a + [t, u] + b) == Leaves(a) + (LeavesOf(t) + LeavesOf(u)) + Leaves(b)
  {
    LeavesConcat(a, [t, u]);
    LeavesConcat(a + [t, u], b);
    assert Leaves([t, u]) == LeavesOf(t) + Leaves([u]) && Leaves([u]) == LeavesOf(u) + [] by {
      assert [t, u][1..] == [u];
    }
  }

  /** What a path of offsets leads to. */
  function Reach<L, A>(ts: seq<Tree<L, A>>, path: seq<nat>): Tree<L, A>
    decreases path
  {
    if path == [] || path[0] >= |ts| then Tree.Empty
    else if |path| == 1 then ts[path[0]]
    else if ts[path[0]].Node? then Reach(ts[path[0]].kids, path[1..])
    else Tree.Empty
  }
}
