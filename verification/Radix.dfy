/** structures/radix/src/lib.rs: the radix trie over nibbles. */
module Radix {
  import opened Trees
  import Nibbles

  const N_BUCKETS := 17

  type Nibble = n: nat | n < 16 witness 0

  type Nibs = seq<Nibble>

  /** A slot of a node. Slot 0 holds the key that ends at the node; slot `i + 1` the keys that go on with nibble `i`,
      and then with the prefix at `i`. */
  datatype Slot<+V> = Vacant | Leaf(val: V) | Node(node: Trie<V>)

  datatype Trie<+V> = Trie(handles: seq<Slot<V>>, prefixes: seq<Nibs>)

  predicate Sized<V>(n: Trie<V>) {
    && |n.handles| == N_BUCKETS
    && |n.prefixes| == N_BUCKETS - 1
    && !n.handles[0].Node?
    && forall i :: 0 <= i < N_BUCKETS ==> SizedSlot(n.handles[i])
  }

  predicate SizedSlot<V>(s: Slot<V>) {
    s.Node? ==> Sized(s.node)
  }

  lemma SizedWidths<V>(n: Trie<V>)
    requires Sized(n)
    ensures |n.handles| == N_BUCKETS && |n.prefixes| == N_BUCKETS - 1
  {
  }

  /** The slot a key other than the empty one goes through, and the prefix of that slot. */
  function Toward<V>(n: Trie<V>, k: Nibs): (s: Slot<V>)
    requires Sized(n) && k != []
    ensures SizedSlot(s)
  {
    n.handles[k[0] + 1]
  }

  function Prefix<V>(n: Trie<V>, k: Nibs): Nibs
    requires Sized(n) && k != []
  {
    n.prefixes[k[0]]
  }

  function Common(a: Nibs, b: Nibs): nat {
    |Nibbles.CommonPrefix(a, b)|
  }

  function New<V>(): Trie<V> {
    Trie(seq(N_BUCKETS, _ => Vacant), seq(N_BUCKETS - 1, _ => []))
  }

  /** What a trie holds under `k`. */
  ghost function Find<V>(n: Trie<V>, k: Nibs): Option<V>
    requires Sized(n)
    decreases |k|, 0
  {
    if k == [] then
      if n.handles[0].Leaf? then Some(n.handles[0].val) else Option.None
    else FindIn(Toward(n, k), Prefix(n, k), k[1..])
  }

  /** What a slot with prefix `p` holds under the rest of a key. */
  ghost function FindIn<V>(s: Slot<V>, p: Nibs, rest: Nibs): Option<V>
    requires SizedSlot(s)
    decreases |rest|, 1
  {
    match s
    case Vacant => Option.None
    case Leaf(v) => if rest == p then Some(v) else Option.None
    case Node(c) => if p <= rest then Find(c, rest[|p|..]) else Option.None
  }

  /** Which keys lie where: slot 0 holds the key that ends at the node, slot `i + 1` only keys that start with nibble
      `i` and the prefix at `i`, which is all of a leaf's key; what a child node holds is held with that in front. */
  lemma FindBySlot<V>(n: Trie<V>, i: Nibble, k: Nibs)
    requires Sized(n) && |n.handles| == 17 && |n.prefixes| == 16
    ensures Find(n, []) == if n.handles[0].Leaf? then Some(n.handles[0].val) else Option.None
    ensures Find(n, [i] + k).Some? ==> n.prefixes[i] <= k
    ensures n.handles[i + 1].Vacant? ==> Find(n, [i] + k).None?
    ensures n.handles[i + 1].Leaf? ==>
              Find(n, [i] + k) == if k == n.prefixes[i] then Some(n.handles[i + 1].val) else Option.None
    ensures n.handles[i + 1].Node? ==>
              && Sized(n.handles[i + 1].node)
              && Find(n, [i] + n.prefixes[i] + k) == Find(n.handles[i + 1].node, k)
  {
    var p, q := n.prefixes[i], [i] + k;
    assert q[0] == i && q[1..] == k;
    var r := [i] + p + k;
    assert r[0] == i && r[1..] == p + k && (p + k)[|p|..] == k;
    assert Find(n, q) == FindIn(n.handles[i + 1], p, k);
  }

  // ---- what the code does not survive

  /** `k` is stored in a leaf of its own slot, not as the key that ends at a node. */
  ghost predicate EndLeaf<V>(n: Trie<V>, k: Nibs)
    requires Sized(n)
    decreases |k|
  {
    k != [] &&
    var p, rest := Prefix(n, k), k[1..];
    match Toward(n, k)
    case Vacant => false
    case Leaf(_) => rest == p
    case Node(c) => p <= rest && EndLeaf(c, rest[|p|..])
  }

  /** `k` is the path of a node below the root. */
  ghost predicate InnerNode<V>(n: Trie<V>, k: Nibs)
    requires Sized(n)
    decreases |k|
  {
    k != [] &&
    var p, rest := Prefix(n, k), k[1..];
    Toward(n, k).Node? && p <= rest && (rest == p || InnerNode(Toward(n, k).node, rest[|p|..]))
  }

  /** `k` goes on past a leaf, or stops at a node. */
  ghost predicate Blocked<V>(n: Trie<V>, k: Nibs)
    requires Sized(n)
  {
    InnerNode(n, k) || exists p :: p < k && EndLeaf(n, p)
  }

  lemma PastLeaf<V>(n: Trie<V>, k: Nibs)
    requires Sized(n) && k != [] && Toward(n, k).Leaf?
    ensures Blocked(n, k) <==> Prefix(n, k) < k[1..]
  {
    var p := Prefix(n, k);
    if p < k[1..] {
      assert EndLeaf(n, [k[0]] + p) && [k[0]] + p < k;
    }
    if q :| q < k && EndLeaf(n, q) {
      assert q[1..] == p && q[1..] < k[1..];
    }
  }

  lemma PastVacant<V>(n: Trie<V>, k: Nibs)
    requires Sized(n) && (k == [] || Toward(n, k).Vacant? || (Toward(n, k).Node? && !(Prefix(n, k) <= k[1..])))
    ensures !Blocked(n, k)
  {
    forall q | q < k && q != []
      ensures !EndLeaf(n, q)
    {
      assert q[1..] <= k[1..];
    }
  }

  lemma PastNode<V>(n: Trie<V>, k: Nibs)
    requires Sized(n) && k != [] && Toward(n, k).Node?
    requires Prefix(n, k) < k[1..]
    ensures Blocked(n, k) <==> Blocked(Toward(n, k).node, k[1..][|Prefix(n, k)|..])
  {
    var p, c := Prefix(n, k), Toward(n, k).node;
    var rest := k[1..][|p|..];
    var at := [k[0]] + p;
    assert k == at + rest;
    if q :| q < k && EndLeaf(n, q) {
      assert q[1..] <= k[1..];
      var r := q[1..][|p|..];
      assert q == at + r;
      assert EndLeaf(c, r) && r < rest;
    }
    if r :| r < rest && EndLeaf(c, r) {
      var q := at + r;
      assert q[0] == k[0] && q[1..] == p + r && q[1..][|p|..] == r;
      assert q < k && EndLeaf(n, q);
    }
  }

  // ---- keys of one length

  /** All keys have `len` nibbles, and no node lies as deep as that. */
  ghost predicate Uniform<V>(n: Trie<V>, len: nat)
    requires Sized(n)
    decreases len, 1
  {
    && (len > 0 ==> n.handles[0].Vacant?)
    && forall x: Nibble :: UniformSlot(Toward(n, [x]), Prefix(n, [x]), len)
  }

  ghost predicate UniformSlot<V>(s: Slot<V>, p: Nibs, len: nat)
    requires SizedSlot(s)
    decreases len, 0
  {
    match s
    case Vacant => true
    case Leaf(_) => 1 + |p| == len
    case Node(c) => 1 + |p| < len && Uniform(c, len - 1 - |p|)
  }

  lemma {:induction false} UniformFree<V>(n: Trie<V>, k: Nibs)
    requires Sized(n) && Uniform(n, |k|)
    ensures !Blocked(n, k)
    decreases |k|
  {
    if k == [] {
      PastVacant(n, k);
    } else {
      var p, rest := Prefix(n, k), k[1..];
      assert UniformSlot(Toward(n, [k[0]]), p, |k|);
      match Toward(n, k)
      case Vacant => PastVacant(n, k);
      case Leaf(_) => PastLeaf(n, k);
      case Node(c) =>
        if p <= rest {
          UniformFree(c, rest[|p|..]);
          PastNode(n, k);
        } else {
          PastVacant(n, k);
        }
    }
  }

  lemma {:induction false} UniformKeys<V>(n: Trie<V>, len: nat, k: Nibs)
    requires Sized(n) && Uniform(n, len) && Find(n, k).Some?
    ensures |k| == len
    decreases len
  {
    if k != [] {
      var p := Prefix(n, k);
      assert UniformSlot(Toward(n, [k[0]]), p, len);
      if Toward(n, k).Node? {
        UniformKeys(Toward(n, k).node, len - 1 - |p|, k[1..][|p|..]);
      }
    }
  }

  // ---- insertion

  /** What was under the key before, if the call comes back. */
  datatype Outcome<+V> = Old(val: Option<V>) | Panic

  /** The trie an insertion leaves, where it comes back. */
  ghost function Inserted<V>(n: Trie<V>, k: Nibs, v: V): (m: Trie<V>)
    requires Sized(n)
    ensures Sized(m)
    decreases |k|
  {
    if k == [] then
      var m := Trie(n.handles[0 := Slot.Leaf(v)], n.prefixes);
      assert forall i :: 0 <= i < N_BUCKETS ==> SizedSlot(m.handles[i]);
      m
    else
      var s, p, rest := Toward(n, k), Prefix(n, k), k[1..];
      var c := Common(rest, p);
      if s.Vacant? then Put(n, k, rest, Slot.Leaf(v))
      else if c < |p| then Put(n, k, p[..c], Slot.Node(Inserted(Put(New(), p[c..], p[c + 1..], s), rest[c..], v)))
      else if s.Leaf? then Put(n, k, p, Slot.Leaf(v))
      else Put(n, k, p, Slot.Node(Inserted(s.node, rest[c..], v)))
  }

  /** `b` is `a` with `v` under `k`. */
  ghost predicate Updated<V>(a: Trie<V>, b: Trie<V>, k: Nibs, v: Option<V>) {
    Sized(a) && Sized(b) && forall q: Nibs :: Find(b, q) == if q == k then v else Find(a, q)
  }

  /** The slot towards `k` replaced, with its prefix. */
  function Put<V>(n: Trie<V>, k: Nibs, p: Nibs, s: Slot<V>): (r: Trie<V>)
    requires Sized(n) && k != [] && SizedSlot(s)
    ensures Sized(r)
  {
    Trie(n.handles[k[0] + 1 := s], n.prefixes[k[0] := p])
  }

  /** Only keys through the replaced slot see the change. */
  lemma PutUpdates<V>(n: Trie<V>, k: Nibs, p: Nibs, s: Slot<V>, v: Option<V>)
    requires Sized(n) && k != [] && SizedSlot(s)
    requires forall rest: Nibs ::
               FindIn(s, p, rest) == if rest == k[1..] then v else FindIn(Toward(n, k), Prefix(n, k), rest)
    ensures Updated(n, Put(n, k, p, s), k, v)
  {
    var m := Put(n, k, p, s);
    forall q: Nibs
      ensures Find(m, q) == if q == k then v else Find(n, q)
    {
      if q != [] && q[0] == k[0] {
        assert q == [q[0]] + q[1..] && k == [k[0]] + k[1..];
        assert FindIn(s, p, q[1..]) == if q[1..] == k[1..] then v else FindIn(Toward(n, k), Prefix(n, k), q[1..]);
      }
    }
  }

  lemma PutUniform<V>(n: Trie<V>, k: Nibs, p: Nibs, s: Slot<V>)
    requires Sized(n) && k != [] && SizedSlot(s)
    requires Uniform(n, |k|) ==> UniformSlot(s, p, |k|)
    ensures Uniform(n, |k|) ==> Uniform(Put(n, k, p, s), |k|)
  {
    if Uniform(n, |k|) {
      var m := Put(n, k, p, s);
      forall x: Nibble
        ensures UniformSlot(Toward(m, [x]), Prefix(m, [x]), |k|)
      {
        assert UniformSlot(Toward(n, [x]), Prefix(n, [x]), |k|);
      }
    }
  }

  lemma NewUniform<V>(len: nat)
    ensures Uniform(New<V>(), len)
  {
  }

  /** A trie of keys as long as `k`, at the slot towards `k`. */
  lemma UniformAt<V>(n: Trie<V>, k: Nibs)
    requires Sized(n) && k != [] && Uniform(n, |k|)
    ensures UniformSlot(Toward(n, k), Prefix(n, k), |k|)
  {
    assert UniformSlot(Toward(n, [k[0]]), Prefix(n, [k[0]]), |k|);
  }

  lemma NodeUpdates<V>(a: Trie<V>, b: Trie<V>, p: Nibs, rest: Nibs, v: Option<V>, q: Nibs)
    requires p <= rest && Updated(a, b, rest[|p|..], v)
    ensures FindIn(Slot.Node(b), p, q) == if q == rest then v else FindIn(Slot.Node(a), p, q)
  {
    if p <= q {
      assert q == p + q[|p|..] && rest == p + rest[|p|..];
      assert Find(b, q[|p|..]) == if q[|p|..] == rest[|p|..] then v else Find(a, q[|p|..]);
    }
  }

  /** A slot whose path is cut after `c` nibbles holds what it held. */
  lemma CutSame<V>(s: Slot<V>, p: Nibs, c: nat, q: Nibs)
    requires SizedSlot(s) && c < |p|
    ensures FindIn(Slot.Node(Put(New(), p[c..], p[c + 1..], s)), p[..c], q) == FindIn(s, p, q)
  {
    var n := Put(New(), p[c..], p[c + 1..], s);
    assert p <= q ==> p[..c] <= q && |q| > c && q[c] == p[c];
    if p[..c] <= q {
      var rest := q[c..];
      assert q == p[..c] + rest && p == p[..c] + p[c..];
      if rest != [] && rest[0] == p[c] {
        assert Find(n, rest) == FindIn(s, p[c + 1..], rest[1..]);
        CutFurther(p, q, c);
      } else {
        assert Find(n, rest).None?;
      }
    }
  }

  lemma CutFurther(p: Nibs, q: Nibs, c: nat)
    requires c < |p| && c < |q| && p[..c] == q[..c] && p[c] == q[c]
    ensures p <= q <==> p[c + 1..] <= q[c..][1..]
    ensures p == q <==> p[c + 1..] == q[c..][1..]
    ensures p <= q ==> q[|p|..] == q[c..][1..][|p[c + 1..]|..]
  {
    assert p == p[..c] + [p[c]] + p[c + 1..] && q == p[..c] + [p[c]] + q[c..][1..];
  }

  lemma EndUniform<V>(n: Trie<V>, m: Trie<V>)
    requires Sized(n) && Sized(m) && m == Trie(n.handles[0 := m.handles[0]], n.prefixes)
    ensures Uniform(n, 0) ==> Uniform(m, 0)
  {
    if Uniform(n, 0) {
      forall x: Nibble
        ensures UniformSlot(Toward(m, [x]), Prefix(m, [x]), 0)
      {
        assert UniformSlot(Toward(n, [x]), Prefix(n, [x]), 0);
      }
    }
  }

  lemma CutUniform<V>(s: Slot<V>, p: Nibs, c: nat, len: nat)
    requires SizedSlot(s) && c < |p| && UniformSlot(s, p, 1 + c + len)
    ensures len > 0 ==> Uniform(Put(New(), p[c..], p[c + 1..], s), len)
    ensures !s.Vacant? ==> len > 0
  {
    var n := Put(New(), p[c..], p[c + 1..], s);
    forall x: Nibble
      ensures UniformSlot(Toward(n, [x]), Prefix(n, [x]), len)
    {
    }
  }

  method InsertIn<V>(n: Trie<V>, search: Nibs, v: V) returns (r: Outcome<V>, n': Trie<V>)
    requires Sized(n)
    ensures r.Panic? <==> Blocked(n, search)
    ensures r.Old? ==> r.val == Find(n, search) && Updated(n, n', search, Some(v))
    ensures r.Old? && Uniform(n, |search|) ==> Uniform(n', |search|)
    ensures r.Old? ==> n' == Inserted(n, search, v)
    decreases |search|, 1
  {
    if |search| == 0 {
      PastVacant(n, search);
      r := if n.handles[0].Leaf? then Old(Some(n.handles[0].val)) else Old(Option.None);
      n' := Trie(n.handles[0 := Slot.Leaf(v)], n.prefixes);
      EndUniform(n, n');
      return;
    }
    var s, p, rest := Toward(n, search), Prefix(n, search), search[1..];
    var c := Common(rest, p);
    assert rest[..c] == p[..c];
    if Uniform(n, |search|) {
      UniformAt(n, search);
    }
    if s.Vacant? {
      PastVacant(n, search);
      PutUpdates(n, search, rest, Slot.Leaf(v), Some(v));
      PutUniform(n, search, rest, Slot.Leaf(v));
      r, n' := Old(Option.None), Put(n, search, rest, Slot.Leaf(v));
    } else if c == |rest| && c == |p| {
      if s.Leaf? {
        PastLeaf(n, search);
        PutUpdates(n, search, p, Slot.Leaf(v), Some(v));
        PutUniform(n, search, p, Slot.Leaf(v));
        r, n' := Old(Some(s.val)), Put(n, search, p, Slot.Leaf(v));
      } else {
        r, n' := Panic, n;
      }
    } else if c < |p| {
      r, n' := SplitSlot(n, search, c, v);
    } else if s.Node? {
      r, n' := InsertBelow(n, search, v);
    } else {
      PastLeaf(n, search);
      r, n' := Panic, n;
    }
  }

  /** The recursive case of `_insert`: the key goes on below the node in its slot. */
  method InsertBelow<V>(n: Trie<V>, search: Nibs, v: V) returns (r: Outcome<V>, n': Trie<V>)
    requires Sized(n) && search != [] && Toward(n, search).Node?
    requires Prefix(n, search) < search[1..] && Common(search[1..], Prefix(n, search)) == |Prefix(n, search)|
    ensures r.Panic? <==> Blocked(n, search)
    ensures r.Old? ==> r.val == Find(n, search) && Updated(n, n', search, Some(v))
    ensures r.Old? && Uniform(n, |search|) ==> Uniform(n', |search|)
    ensures r.Old? ==> n' == Inserted(n, search, v)
    decreases |search|, 0
  {
    hide Blocked, Updated, EndLeaf, InnerNode;
    var node, p, rest := Toward(n, search).node, Prefix(n, search), search[1..];
    if Uniform(n, |search|) {
      UniformAt(n, search);
    }
    PastNode(n, search);
    var m;
    r, m := InsertIn(node, rest[|p|..], v);
    n' := n;
    if r.Old? {
      forall q: Nibs
        ensures FindIn(Slot.Node(m), p, q) == if q == rest then Some(v) else FindIn(Slot.Node(node), p, q)
      {
        NodeUpdates(node, m, p, rest, Some(v), q);
      }
      PutUpdates(n, search, p, Slot.Node(m), Some(v));
      PutUniform(n, search, p, Slot.Node(m));
      n' := Put(n, search, p, Slot.Node(m));
    }
  }

  /** The slot's path and the key part after `c` nibbles: a node goes in between. */
  method SplitSlot<V>(n: Trie<V>, search: Nibs, c: nat, v: V) returns (r: Outcome<V>, n': Trie<V>)
    requires Sized(n) && search != [] && !Toward(n, search).Vacant?
    requires var rest, p := search[1..], Prefix(n, search);
               && c == Common(rest, p) < |p| && c <= |rest| && rest[..c] == p[..c]
               && (c < |rest| ==> rest[c] != p[c])
    ensures !Blocked(n, search)
    ensures r == Old(Option.None) && Find(n, search).None? && Updated(n, n', search, Some(v))
    ensures Uniform(n, |search|) ==> Uniform(n', |search|)
    ensures n' == Inserted(n, search, v)
    decreases |search|, 0
  {
    hide Updated, Uniform, Blocked;
    var s, p, rest := Toward(n, search), Prefix(n, search), search[1..];
    if s.Leaf? {
      PastLeaf(n, search);
    } else {
      PastVacant(n, search);
    }
    var node := Put(New(), p[c..], p[c + 1..], s);
    PastVacant(node, rest[c..]);
    var o, m := InsertIn(node, rest[c..], v);
    forall q: Nibs
      ensures FindIn(Slot.Node(m), p[..c], q) == if q == rest then Some(v) else FindIn(s, p, q)
    {
      NodeUpdates(node, m, p[..c], rest, Some(v), q);
      CutSame(s, p, c, q);
    }
    if Uniform(n, |search|) {
      UniformAt(n, search);
      NewUniform<V>(|rest[c..]|);
      CutUniform(s, p, c, |rest[c..]|);
    }
    PutUpdates(n, search, p[..c], Slot.Node(m), Some(v));
    PutUniform(n, search, p[..c], Slot.Node(m));
    r, n' := Old(Option.None), Put(n, search, p[..c], Slot.Node(m));
  }

  // ---- lookup

  /** `Nibbles::select`: the slot to go on with, and what is left of the search. */
  datatype Selection = AtLeaf(i: nat) | AtPath(i: nat) | Nothing

  function Select<V>(n: Trie<V>, search: Nibs): (r: (Selection, Nibs))
    requires Sized(n)
    ensures !r.0.Nothing? && r.0.i < N_BUCKETS
  {
    if |search| == 0 then (AtLeaf(0), search)
    else
      var i: nat, rest := search[0] as int + 1, search[1..];
      var commonLen := |Nibbles.CommonPrefix(n.prefixes[i - 1], rest)|;
      if commonLen == |rest| && n.handles[i].Leaf? then (AtLeaf(i), rest)
      else if commonLen <= |rest| then (AtPath(i), if n.handles[i].Node? then rest[commonLen..] else rest)
      else (Nothing, rest)
  }

  /** A leaf and the whole path it lies on. */
  datatype Hit<+V> = Hit(key: Nibs, val: V) | Miss

  /** Where a search from a node at path `at` ends. */
  ghost function Walk<V>(n: Trie<V>, search: Nibs, at: Nibs): Hit<V>
    requires Sized(n)
    decreases |search|
  {
    match Select(n, search)
    case (AtLeaf(i), _) =>
      if !n.handles[i].Leaf? then Miss
      else if i == 0 then Hit(at, n.handles[0].val)
      else Hit(at + [i - 1] + n.prefixes[i - 1], n.handles[i].val)
    case (AtPath(i), rest) =>
      if n.handles[i].Node? then
        assert SizedSlot(n.handles[i]);
        Walk(n.handles[i].node, rest, at + [i - 1] + n.prefixes[i - 1])
      else Miss
    case (Nothing, _) => Miss
  }

  /** A walk that has strayed from its key, being cut short on a path longer than it, can only end on a longer key. */
  lemma {:induction false} StrayWalk<V>(n: Trie<V>, search: Nibs, at: Nibs, k: Nibs)
    requires Sized(n) && |at| + |search| > |k|
    ensures Walk(n, search, at).Hit? ==> |Walk(n, search, at).key| > |k|
    decreases |search|
  {
    if search != [] {
      var i: nat := search[0] as int + 1;
      var (r, rest) := Select(n, search);
      assert r.i == i;
      if r.AtPath? && n.handles[i].Node? {
        assert SizedSlot(n.handles[i]);
        StrayWalk(n.handles[i].node, rest, at + [i - 1] + n.prefixes[i - 1], k);
      }
    }
  }

  lemma WalkStep<V>(n: Trie<V>, search: Nibs, at: Nibs)
    requires Sized(n) && search != []
    ensures var p, rest := Prefix(n, search), search[1..];
      Common(p, rest) <= |rest| && Common(p, rest) <= |p| &&
      Walk(n, search, at) ==
        match Toward(n, search)
        case Vacant => Miss
        case Leaf(v) => if Common(p, rest) == |rest| then Hit(at + [search[0]] + p, v) else Miss
        case Node(c) => Walk(c, rest[Common(p, rest)..], at + [search[0]] + p)
  {
    assert Select(n, search).0.i == search[0] as int + 1;
  }

  /** What a walk has to end on: `k` itself, or nothing, or a leaf with a longer key; `held` is what is held under
      `k`. */
  ghost predicate Right<V>(hit: Hit<V>, k: Nibs, held: Option<V>) {
    match hit
    case Hit(key, v) => (key == k && held == Some(v)) || (|key| > |k| && held.None?)
    case Miss => held.None?
  }

  /** A search finds its key if it is there. Otherwise it finds nothing, or a leaf whose key is longer than the one
      searched for. */
  lemma {:induction false} WalkFinds<V>(n: Trie<V>, search: Nibs, at: Nibs)
    requires Sized(n)
    ensures Right(Walk(n, search, at), at + search, Find(n, search))
    decreases |search|
  {
    if search != [] {
      var p, rest := Prefix(n, search), search[1..];
      var c := Common(p, rest);
      WalkStep(n, search, at);
      assert rest[..c] == p[..c];
      match Toward(n, search)
      case Vacant =>
      case Leaf(v) => LeafRight(at, search, p, v);
      case Node(m) =>
        var at' := at + [search[0]] + p;
        if c == |p| {
          WalkFinds(m, rest[c..], at');
          OnPath(at, search, p);
        } else {
          assert !(p <= rest);
          StrayWalk(m, rest[c..], at', at + search);
        }
    }
  }

  lemma OnPath(at: Nibs, search: Nibs, p: Nibs)
    requires search != [] && p <= search[1..]
    ensures at + [search[0]] + p + search[1..][|p|..] == at + search
  {
    assert search == [search[0]] + (p + search[1..][|p|..]);
  }

  lemma LeafRight<V>(at: Nibs, search: Nibs, p: Nibs, v: V)
    requires search != []
    ensures var rest := search[1..];
      Right(if Common(p, rest) == |rest| then Hit(at + [search[0]] + p, v) else Miss, at + search,
            if rest == p then Some(v) else Option.None)
  {
    var rest := search[1..];
    assert search == [search[0]] + rest;
    if rest == p {
      Nibbles.CommonIs(p, rest, |p|);
    } else if Common(p, rest) == |rest| {
      assert rest <= p;
    }
  }

  /** Every hit is a stored pair. */
  lemma {:induction false} WalkStored<V>(n: Trie<V>, search: Nibs, at: Nibs)
    requires Sized(n)
    ensures var hit := Walk(n, search, at);
      hit.Hit? ==> at <= hit.key && Find(n, hit.key[|at|..]) == Some(hit.val)
    decreases |search|
  {
    if search == [] {
      assert at[|at|..] == [];
    } else {
      var p, rest := Prefix(n, search), search[1..];
      WalkStep(n, search, at);
      match Toward(n, search)
      case Vacant =>
      case Leaf(v) =>
        Rooted(n, search[0], at, [], at + [search[0]] + p);
        assert p + [] == p;
      case Node(m) =>
        var at' := at + [search[0]] + p;
        WalkStored(m, rest[Common(p, rest)..], at');
        var hit := Walk(m, rest[Common(p, rest)..], at');
        if hit.Hit? {
          RootedBelow(n, search[0], at, m, hit.key);
        }
    }
  }

  lemma RootedBelow<V>(n: Trie<V>, x: Nibble, at: Nibs, m: Trie<V>, key: Nibs)
    requires Sized(n) && Toward(n, [x]) == Slot.Node(m)
    requires at + [x] + n.prefixes[x] <= key
    ensures at <= key && Find(n, key[|at|..]) == Find(m, key[|at + [x] + n.prefixes[x]|..])
  {
    var p := n.prefixes[x];
    var q := key[|at + [x] + p|..];
    assert key == at + [x] + p + q;
    Rooted(n, x, at, q, key);
    assert (p + q)[|p|..] == q;
  }

  /** A key that goes through slot `x` and on with `q`, seen from a node at path `at`. */
  lemma Rooted<V>(n: Trie<V>, x: Nibble, at: Nibs, q: Nibs, key: Nibs)
    requires Sized(n)
    requires key == at + [x] + n.prefixes[x] + q
    ensures at <= key
    ensures Find(n, key[|at|..]) == FindIn(Toward(n, [x]), n.prefixes[x], n.prefixes[x] + q)
  {
    assert key[|at|..] == [x] + (n.prefixes[x] + q);
  }

  /** One turn of the cursor's loop takes one step of the walk. */
  lemma WalkTurn<V>(n: Trie<V>, search: Nibs, at: Nibs)
    requires Sized(n)
    ensures var (step, rest) := Select(n, search);
              var s := n.handles[step.i];
              match step
              case AtLeaf(i) =>
                && (Walk(n, search, at).Hit? <==> s.Leaf?)
                && (s.Leaf? ==> Walk(n, search, at).val == s.val)
              case AtPath(i) =>
                && 0 < i && |rest| < |search|
                && (s.Node? ==> SizedSlot(s))
                && Walk(n, search, at) ==
                   if s.Node? then Walk(s.node, rest, at + [i - 1] + n.prefixes[i - 1]) else Miss
  {
  }

  /** `get`. */
  method GetIn<V>(n: Trie<V>, k: Nibs) returns (r: Option<V>)
    requires Sized(n)
    ensures r == match Walk(n, k, []) case Hit(_, v) => Some(v) case Miss => Option.None
  {
    hide Walk, Select, Sized;
    var node, search := n, k;
    ghost var at: Nibs := [];
    while true
      invariant Sized(node) && Walk(node, search, at) == Walk(n, k, [])
      decreases |search|
    {
      var step := Select(node, search);
      WalkTurn(node, search, at);
      SizedWidths(node);
      match step.0
      case AtLeaf(i) =>
        return if node.handles[i].Leaf? then Some(node.handles[i].val) else Option.None;
      case AtPath(i) =>
        if !node.handles[i].Node? {
          return Option.None;
        }
        at := at + [i - 1] + node.prefixes[i - 1];
        node, search := node.handles[i].node, step.1;
    }
  }

  /** The path of a search for `k`, trimmed by common lengths only, leads to a leaf that is not `k`'s: the search gives
      out on the way to the leaf, or has strayed from the path of a node it went through before. */
  ghost predicate Misled<V>(n: Trie<V>, k: Nibs, strayed: bool)
    requires Sized(n)
    decreases |k|
  {
    if k == [] then strayed && n.handles[0].Leaf?
    else
      var p, rest := Prefix(n, k), k[1..];
      match Toward(n, k)
      case Vacant => false
      case Leaf(_) => rest <= p && (strayed || rest != p)
      case Node(c) => Misled(c, rest[Common(p, rest)..], strayed || !(p <= rest))
  }

  lemma WithinPrefix(p: Nibs, rest: Nibs)
    ensures Common(p, rest) == |rest| <==> rest <= p
  {
    if rest <= p {
      Nibbles.CommonIs(p, rest, |rest|);
    }
  }

  lemma {:induction false} StrayMisled<V>(n: Trie<V>, search: Nibs, at: Nibs)
    requires Sized(n)
    ensures Misled(n, search, true) <==> Walk(n, search, at).Hit?
    decreases |search|
  {
    if search != [] {
      var p, rest := Prefix(n, search), search[1..];
      WalkStep(n, search, at);
      WithinPrefix(p, rest);
      if Toward(n, search).Node? {
        StrayMisled(Toward(n, search).node, rest[Common(p, rest)..], at + [search[0]] + p);
      }
    }
  }

  lemma {:induction false} WalkMisled<V>(n: Trie<V>, search: Nibs, at: Nibs)
    requires Sized(n)
    ensures Misled(n, search, false) <==> Walk(n, search, at).Hit? && |Walk(n, search, at).key| > |at + search|
    decreases |search|
  {
    if search != [] {
      var p, rest := Prefix(n, search), search[1..];
      WalkStep(n, search, at);
      WithinPrefix(p, rest);
      if Toward(n, search).Node? {
        NodeMisled(n, search, at);
      }
    }
  }

  lemma {:induction false} NodeMisled<V>(n: Trie<V>, search: Nibs, at: Nibs)
    requires Sized(n) && search != [] && Toward(n, search).Node?
    ensures Misled(n, search, false) <==> Walk(n, search, at).Hit? && |Walk(n, search, at).key| > |at + search|
    decreases |search|, 0
  {
    var p, rest, m := Prefix(n, search), search[1..], Toward(n, search).node;
    var c, at' := Common(p, rest), at + [search[0]] + p;
    WalkStep(n, search, at);
    if p <= rest {
      Nibbles.CommonIs(p, rest, |p|);
      WalkMisled(m, rest[c..], at');
      OnPath(at, search, p);
    } else {
      StrayMisled(m, rest[c..], at');
      StrayWalk(m, rest[c..], at', at + search);
    }
  }

  /** A lookup is right exactly when its search is not misled; so it is right whenever no stored key is longer. */
  lemma LookupRight<V>(n: Trie<V>, k: Nibs)
    requires Sized(n)
    ensures var r := match Walk(n, k, []) case Hit(_, v) => Some(v) case Miss => Option.None;
            && (r == Find(n, k) <==> !Misled(n, k, false))
            && ((forall q: Nibs :: Find(n, q).Some? ==> |q| <= |k|) ==> r == Find(n, k))
  {
    WalkFinds(n, k, []);
    WalkStored(n, k, []);
    WalkMisled(n, k, []);
    var hit := Walk(n, k, []);
    assert [] + k == k;
    assert hit.Hit? ==> hit.key[0..] == hit.key;
  }

  // ---- removal

  datatype Removal<+V> = None | Taken(val: V) | Collapse(val: V, reinsert: V, path: Nibs, inner: nat) | Panicked

  /** Taking the leaf of `k` out of a node below the root leaves there only the key that ends at that node. */
  ghost predicate Strands<V>(n: Trie<V>, k: Nibs, below: bool)
    requires Sized(n)
    decreases |k|
  {
    k != [] &&
    var p, rest := Prefix(n, k), k[1..];
    match Toward(n, k)
    case Vacant => false
    case Leaf(_) =>
      && below && rest == p && n.handles[0].Leaf?
      && forall i :: 1 <= i < N_BUCKETS && i != k[0] as int + 1 ==> n.handles[i].Vacant?
    case Node(c) => p <= rest && rest != p && Strands(c, rest[|p|..], true)
  }

  lemma {:induction false} UniformUnstranded<V>(n: Trie<V>, k: Nibs, below: bool)
    requires Sized(n) && Uniform(n, |k|)
    ensures !Strands(n, k, below)
    decreases |k|
  {
    if k != [] {
      var p, rest := Prefix(n, k), k[1..];
      UniformAt(n, k);
      if Toward(n, k).Node? && p <= rest {
        UniformUnstranded(Toward(n, k).node, rest[|p|..], true);
      }
    }
  }

  /** What a removal does to a trie of keys as long as `k`. */
  ghost predicate KeptUniform<V>(n: Trie<V>, k: Nibs, r: Removal<V>, n': Trie<V>)
    requires Sized(n)
  {
    Uniform(n, |k|) ==> !r.Panicked? && Sized(n') && Uniform(n', |k|) && (r.Collapse? ==> 1 + |r.path| == |k|)
  }

  /** What is left of `n` is one leaf, in slot `i`. */
  ghost predicate OnlyLeaf<V>(n: Trie<V>, i: nat)
    requires Sized(n)
  {
    i < N_BUCKETS && n.handles[i].Leaf? && forall j :: 0 <= j < N_BUCKETS && j != i ==> n.handles[j].Vacant?
  }

  /** `remove_singleton`: where the one leaf of a node with nothing else in it is. */
  method FindSingleton<V>(n: Trie<V>) returns (r: Option<nat>)
    requires Sized(n)
    ensures r.Some? ==> OnlyLeaf(n, r.value)
    ensures r.None? ==> forall i: nat :: !OnlyLeaf(n, i)
  {
    r := Option.None;
    for i := 0 to N_BUCKETS
      invariant r.Some? ==> r.value < i && n.handles[r.value].Leaf?
      invariant forall j :: 0 <= j < i ==> n.handles[j].Vacant? || r == Some(j)
    {
      match n.handles[i]
      case Vacant =>
      case Leaf(_) =>
        if r.Some? {
          return Option.None;
        }
        r := Some(i);
      case Node(_) =>
        return Option.None;
    }
  }

  ghost predicate RemovePanics<V>(n: Trie<V>, k: Nibs, below: bool)
    requires Sized(n)
  {
    Blocked(n, k) || Strands(n, k, below)
  }

  /** The node holds nothing but `v` under `k`. */
  ghost predicate Only<V>(n: Trie<V>, k: Nibs, v: V)
    requires Sized(n)
  {
    forall q: Nibs :: Find(n, q) == if q == k then Some(v) else Option.None
  }

  /** Taking the leaf of `k` out of the node leaves one leaf there and nothing else. */
  ghost predicate Collapses<V>(n: Trie<V>, k: Nibs)
    requires Sized(n)
  {
    && k != [] && Toward(n, k).Leaf? && k[1..] == Prefix(n, k)
    && exists i: nat :: OnlyLeaf(Put(n, k, [], Slot.Vacant), i)
  }

  ghost function LoneLeaf<V>(n: Trie<V>): (i: nat)
    requires Sized(n) && exists i: nat :: OnlyLeaf(n, i)
    ensures OnlyLeaf(n, i)
  {
    var i: nat :| OnlyLeaf(n, i);
    i
  }

  /** `_remove` as a function: what a removal that does not panic leaves of `n`. */
  ghost function Removed<V>(n: Trie<V>, k: Nibs): (m: Trie<V>)
    requires Sized(n)
    ensures Sized(m)
    ensures Collapses(n, k) ==> m == Put(n, k, [], Slot.Vacant)
    decreases |k|
  {
    if k == [] then
      var m := Trie(n.handles[0 := Slot.Vacant], n.prefixes);
      assert forall i :: 0 <= i < N_BUCKETS ==> SizedSlot(m.handles[i]);
      m
    else
      var p, rest := Prefix(n, k), k[1..];
      match Toward(n, k)
      case Vacant => n
      case Leaf(_) => if rest == p then Put(n, k, [], Slot.Vacant) else n
      case Node(c) =>
        if !(p < rest) then n
        else if Collapses(c, rest[|p|..]) then Pulled(n, k, Removed(c, rest[|p|..]))
        else Put(n, k, p, Slot.Node(Removed(c, rest[|p|..])))
  }

  /** The one leaf left in `m` put in the place of the node, under the path put together. */
  ghost function Pulled<V>(n: Trie<V>, k: Nibs, m: Trie<V>): (r: Trie<V>)
    requires Sized(n) && k != [] && Sized(m) && exists i: nat :: OnlyLeaf(m, i)
    ensures Sized(r)
  {
    var i := LoneLeaf(m);
    Put(n, k, Prefix(n, k) + (if i > 0 then [(i - 1) as Nibble] + m.prefixes[i - 1] else []), m.handles[i])
  }

  lemma PutSame<V>(n: Trie<V>, k: Nibs)
    requires Sized(n) && k != []
    ensures Put(n, k, Prefix(n, k), Toward(n, k)) == n
  {
  }

  /** What a removal returns is what `Removed` says is left. */
  ghost predicate AsRemoved<V>(n: Trie<V>, k: Nibs, below: bool, r: Removal<V>, n': Trie<V>)
    requires Sized(n)
  {
    !r.Panicked? ==>
      && n' == Removed(n, k)
      && (r.Collapse? <==> below && Collapses(n, k))
      && (r.Collapse? ==>
            && 0 < r.inner && OnlyLeaf(n', r.inner)
            && n'.handles[r.inner] == Slot.Leaf(r.reinsert) && n'.prefixes[r.inner - 1] == r.path)
  }

  ghost predicate RemoveDone<V>(n: Trie<V>, k: Nibs, below: bool, r: Removal<V>, n': Trie<V>)
    requires Sized(n)
  {
    match r
    case None => Find(n, k).None? && n' == n
    case Taken(v) => Find(n, k) == Some(v) && Updated(n, n', k, Option.None)
    case Collapse(v, w, path, inner) =>
      && below && 0 < inner < N_BUCKETS
      && Find(n, k) == Some(v) && Updated(n, n', k, Option.None) && Only(n', [inner - 1] + path, w)
    case Panicked => RemovePanics(n, k, below)
  }

  method RemoveIn<V>(n: Trie<V>, search: Nibs, depth: nat) returns (r: Removal<V>, n': Trie<V>)
    requires Sized(n)
    ensures r.Panicked? <==> RemovePanics(n, search, depth > 0)
    ensures RemoveDone(n, search, depth > 0, r, n')
    ensures KeptUniform(n, search, r, n')
    ensures AsRemoved(n, search, depth > 0, r, n')
    decreases |search|, 1
  {
    if Uniform(n, |search|) {
      UniformFree(n, search);
      UniformUnstranded(n, search, depth > 0);
    }
    if |search| == 0 {
      PastVacant(n, search);
      r, n' := Removal.None, n;
      if n.handles[0].Leaf? {
        r, n' := Taken(n.handles[0].val), Trie(n.handles[0 := Vacant], n.prefixes);
        assert Sized(n');
        EndUniform(n, n');
      }
      return;
    }
    var s, p, rest := Toward(n, search), Prefix(n, search), search[1..];
    var c := Common(rest, p);
    assert rest[..c] == p[..c];
    r, n' := Removal.None, n;
    if s.Vacant? {
      PastVacant(n, search);
    } else if c == |rest| && c == |p| {
      if s.Leaf? {
        r, n' := TakeLeaf(n, search, depth, s.val);
      } else {
        r := Panicked;
      }
    } else if c < |p| {
      if s.Node? {
        PastVacant(n, search);
      } else {
        PastLeaf(n, search);
      }
    } else if s.Node? {
      r, n' := RemoveBelow(n, search, depth);
    } else {
      PastLeaf(n, search);
      r := Panicked;
    }
  }

  /** The leaf of the key is here: it goes, and below the root a lone leaf left over goes with it to the node above. */
  method TakeLeaf<V>(n: Trie<V>, search: Nibs, depth: nat, v: V) returns (r: Removal<V>, n': Trie<V>)
    requires Sized(n) && search != [] && Toward(n, search) == Slot.Leaf(v) && search[1..] == Prefix(n, search)
    ensures r.Panicked? <==> RemovePanics(n, search, depth > 0)
    ensures RemoveDone(n, search, depth > 0, r, n')
    ensures !r.Panicked? ==> KeptUniform(n, search, r, n')
    ensures AsRemoved(n, search, depth > 0, r, n')
  {
    PastLeaf(n, search);
    PutUpdates(n, search, [], Slot.Vacant, Option.None);
    PutUniform(n, search, [], Slot.Vacant);
    n' := Put(n, search, [], Slot.Vacant);
    r := Taken(v);
    if depth > 0 {
      var singleton := FindSingleton(n');
      StrandedWhen(n, search, n');
      if singleton.Some? {
        var idx := singleton.value;
        if idx == 0 {
          r := Panicked;
        } else {
          OnlyLeafHolds(n', idx);
          assert Uniform(n', |search|) ==> UniformSlot(Toward(n', [idx - 1]), Prefix(n', [idx - 1]), |search|);
          r := Collapse(v, n'.handles[idx].val, n'.prefixes[idx - 1], idx);
        }
      }
    }
  }

  lemma StrandedWhen<V>(n: Trie<V>, k: Nibs, m: Trie<V>)
    requires Sized(n) && k != [] && Toward(n, k).Leaf? && k[1..] == Prefix(n, k) && m == Put(n, k, [], Slot.Vacant)
    ensures Strands(n, k, true) <==> OnlyLeaf(m, 0)
  {
    assert forall i :: 0 <= i < N_BUCKETS ==> m.handles[i] == if i == k[0] as int + 1 then Vacant else n.handles[i];
  }

  lemma OnlyLeafHolds<V>(n: Trie<V>, i: nat)
    requires Sized(n) && 0 < i && OnlyLeaf(n, i)
    ensures Only(n, [i - 1] + n.prefixes[i - 1], n.handles[i].val)
  {
    var k: Nibs := [i - 1] + n.prefixes[i - 1];
    forall q: Nibs
      ensures Find(n, q) == if q == k then Some(n.handles[i].val) else Option.None
    {
      if q != [] {
        assert q == [q[0]] + q[1..];
      }
    }
  }

  /** The recursive case of `_remove`; a node that collapsed is replaced by its last leaf, its path put together. */
  method RemoveBelow<V>(n: Trie<V>, search: Nibs, depth: nat) returns (r: Removal<V>, n': Trie<V>)
    requires Sized(n) && search != [] && Toward(n, search).Node?
    requires Prefix(n, search) < search[1..]
    ensures r.Panicked? <==> RemovePanics(n, search, depth > 0)
    ensures RemoveDone(n, search, depth > 0, r, n') && !r.Collapse?
    ensures !r.Panicked? ==> KeptUniform(n, search, r, n')
    ensures AsRemoved(n, search, depth > 0, r, n')
    decreases |search|, 0
  {
    hide Removed, Collapses, Blocked;
    if Uniform(n, |search|) {
      UniformAt(n, search);
    }
    var node, p, rest := Toward(n, search).node, Prefix(n, search), search[1..];
    PastNode(n, search);
    var m;
    r, m := RemoveIn(node, rest[|p|..], depth + 1);
    n' := n;
    ghost var below := r;
    assert r.None? ==> Find(n, search).None?;
    assert r.Taken? ==> Find(n, search) == Some(r.val);
    assert r.Collapse? ==> Find(n, search) == Some(r.val);
    if r.Taken? {
      forall q: Nibs
        ensures FindIn(Slot.Node(m), p, q) == if q == rest then Option.None else FindIn(Slot.Node(node), p, q)
      {
        NodeUpdates(node, m, p, rest, Option.None, q);
      }
      PutUpdates(n, search, p, Slot.Node(m), Option.None);
      PutUniform(n, search, p, Slot.Node(m));
      n' := Put(n, search, p, Slot.Node(m));
    } else if r.Collapse? {
      var path := p;
      if r.inner > 0 {
        path := path + [r.inner - 1];
      }
      path := path + r.path;
      forall q: Nibs
        ensures FindIn(Slot.Leaf(r.reinsert), path, q) ==
                if q == rest then Option.None else FindIn(Slot.Node(node), p, q)
      {
        NodeUpdates(node, m, p, rest, Option.None, q);
        LeafForNode(m, p, [r.inner - 1] + r.path, r.reinsert, path, q);
      }
      PutUpdates(n, search, path, Slot.Leaf(r.reinsert), Option.None);
      PutUniform(n, search, path, Slot.Leaf(r.reinsert));
      n' := Put(n, search, path, Slot.Leaf(r.reinsert));
      r := Taken(r.val);
    }
    if !r.Panicked? {
      BelowRemoved(n, search, depth > 0, below, m, r, n');
    }
  }

  /** `n'` is `n` with what removing below its slot left. */
  ghost predicate PutBack<V>(n: Trie<V>, k: Nibs, r: Removal<V>, m: Trie<V>, n': Trie<V>)
    requires Sized(n) && k != [] && Sized(m)
  {
    match r
    case Collapse(_, w, path, inner) =>
      && 0 < inner <= 16
      && n' == Put(n, k, Prefix(n, k) + [(inner - 1) as Nibble] + path, Slot.Leaf(w))
    case Taken(_) => n' == Put(n, k, Prefix(n, k), Slot.Node(m))
    case _ => n' == n
  }

  lemma BelowRemoved<V>(n: Trie<V>, k: Nibs, below: bool, r: Removal<V>, m: Trie<V>, r': Removal<V>, n': Trie<V>)
    requires Sized(n) && k != [] && Toward(n, k).Node? && Prefix(n, k) < k[1..]
    requires !r.Panicked? && Sized(m) && AsRemoved(Toward(n, k).node, k[1..][|Prefix(n, k)|..], true, r, m)
    requires (r.None? ==> m == Toward(n, k).node) && PutBack(n, k, r, m, n')
    requires !r'.Panicked? && !r'.Collapse?
    ensures AsRemoved(n, k, below, r', n')
  {
    var node, p, rest := Toward(n, k).node, Prefix(n, k), k[1..];
    match r
    case Collapse(_, w, path, inner) =>
      assert LoneLeaf(m) == inner;
      assert p + [(inner - 1) as Nibble] + path == p + ([(inner - 1) as Nibble] + m.prefixes[inner - 1]);
    case Taken(_) =>
    case None =>
      PutSame(n, k);
    case Panicked =>
  }

  lemma LeafForNode<V>(m: Trie<V>, p: Nibs, k: Nibs, w: V, path: Nibs, q: Nibs)
    requires Sized(m) && Only(m, k, w) && path == p + k
    ensures FindIn(Slot.Leaf(w), path, q) == FindIn(Slot.Node(m), p, q)
  {
    if p <= q {
      assert q == p + q[|p|..];
      assert Find(m, q[|p|..]) == if q[|p|..] == k then Some(w) else Option.None;
    }
    assert q == path ==> p <= q;
  }
}
