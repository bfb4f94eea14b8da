/** structures/radix/src/lib.rs: which nodes of the radix trie are left empty, or with a single leaf. */
module RadixShape {
  import opened Trees
  import opened Radix

  /** `assert_correct_empty_state` of a root: none of its children is occupied. */
  predicate Bare<V>(n: Trie<V>)
    requires Sized(n)
  {
    forall i :: 0 <= i < N_BUCKETS ==> n.handles[i].Vacant?
  }

  /** The node has a node below it, or two children. */
  ghost predicate Crowded<V>(n: Trie<V>)
    requires Sized(n)
  {
    || (exists i :: 0 <= i < N_BUCKETS && n.handles[i].Node?)
    || exists i, j :: 0 <= i < j < N_BUCKETS && !n.handles[i].Vacant? && !n.handles[j].Vacant?
  }

  /** Every node below `n` is needed: none is empty, or has one leaf and nothing else. */
  ghost predicate Full<V>(n: Trie<V>)
    requires Sized(n)
  {
    forall i :: 0 <= i < N_BUCKETS ==> FullSlot(n.handles[i])
  }

  ghost predicate FullSlot<V>(s: Slot<V>)
    requires SizedSlot(s)
  {
    s.Node? ==> Crowded(s.node) && Full(s.node)
  }

  /** What is not crowded is empty, or has one leaf. */
  lemma CrowdedWhen<V>(n: Trie<V>)
    requires Sized(n)
    ensures Crowded(n) <==> !Bare(n) && forall i: nat :: !OnlyLeaf(n, i)
  {
    if !Bare(n) && !Crowded(n) {
      var i :| 0 <= i < N_BUCKETS && !n.handles[i].Vacant?;
      assert forall j :: 0 <= j < N_BUCKETS && j != i ==> n.handles[j].Vacant?;
      assert OnlyLeaf(n, i);
    }
  }

  // ---- a full trie with nothing in it is bare

  /** A needed node holds a key. */
  lemma {:induction false} CrowdedHolds<V>(n: Trie<V>) returns (k: Nibs)
    requires Sized(n) && Full(n) && !Bare(n)
    ensures Find(n, k).Some?
    decreases n
  {
    var i :| 0 <= i < N_BUCKETS && !n.handles[i].Vacant?;
    assert FullSlot(n.handles[i]) && SizedSlot(n.handles[i]);
    if i == 0 {
      k := [];
    } else {
      var x: Nibble, p: Nibs := i - 1, n.prefixes[i - 1];
      var rest: Nibs := [];
      if n.handles[i].Node? {
        CrowdedWhen(n.handles[i].node);
        rest := CrowdedHolds(n.handles[i].node);
      }
      k := [x] + p + rest;
      assert k[0] == x && k[1..] == p + rest && (p + rest)[|p|..] == rest;
    }
  }

  lemma {:induction false} BareHolds<V>(n: Trie<V>, k: Nibs)
    requires Sized(n) && Bare(n)
    ensures Find(n, k).None?
  {
  }

  // ---- insertion

  /** `m` is `n` with slot `i` occupied, by a node if one was there. */
  ghost predicate Filled<V>(n: Trie<V>, m: Trie<V>, i: nat)
    requires Sized(n) && Sized(m) && i < N_BUCKETS
  {
    && !m.handles[i].Vacant? && (n.handles[i].Node? ==> m.handles[i].Node?) && FullSlot(m.handles[i])
    && forall j :: 0 <= j < N_BUCKETS && j != i ==> m.handles[j] == n.handles[j]
  }

  lemma FilledFull<V>(n: Trie<V>, m: Trie<V>, i: nat)
    requires Sized(n) && Sized(m) && i < N_BUCKETS && Full(n) && Filled(n, m, i)
    ensures Full(m) && (Crowded(n) ==> Crowded(m))
  {
    forall j | 0 <= j < N_BUCKETS
      ensures FullSlot(m.handles[j]) && (n.handles[j].Node? ==> m.handles[j].Node?)
      ensures !n.handles[j].Vacant? ==> !m.handles[j].Vacant?
    {
      assert FullSlot(n.handles[j]);
    }
  }

  lemma PutFilled<V>(n: Trie<V>, k: Nibs, p: Nibs, s: Slot<V>)
    requires Sized(n) && k != [] && SizedSlot(s) && FullSlot(s)
    requires !s.Vacant? && (Toward(n, k).Node? ==> s.Node?)
    ensures Filled(n, Put(n, k, p, s), k[0] as int + 1)
  {
  }

  /** A node put in the middle of a path has two children. */
  lemma SplitFull<V>(s: Slot<V>, p: Nibs, rest: Nibs, v: V)
    requires SizedSlot(s) && !s.Vacant? && FullSlot(s) && Common(rest, p) < |p|
    ensures var c := Common(rest, p);
              var m := Inserted(Put(New(), p[c..], p[c + 1..], s), rest[c..], v);
              Full(m) && Crowded(m)
  {
    var c := Common(rest, p);
    var node := Put(New(), p[c..], p[c + 1..], s);
    var m := Inserted(node, rest[c..], v);
    var x: nat, y: nat := p[c] as int + 1, if c < |rest| then rest[c] as int + 1 else 0;
    assert m.handles[x] == s && m.handles[y] == Slot.Leaf(v) && x != y;
    assert forall i :: 0 <= i < N_BUCKETS && i != x && i != y ==> m.handles[i].Vacant?;
    if x < y {
      assert !m.handles[x].Vacant? && !m.handles[y].Vacant?;
    } else {
      assert !m.handles[y].Vacant? && !m.handles[x].Vacant?;
    }
  }

  /** Insertion leaves no node that is not needed. */
  lemma {:induction false} InsertedFull<V>(n: Trie<V>, k: Nibs, v: V)
    requires Sized(n) && Full(n)
    ensures Full(Inserted(n, k, v))
    ensures Crowded(n) ==> Crowded(Inserted(n, k, v))
    decreases |k|
  {
    hide Full, Crowded, Filled;
    if k == [] {
      EndFilled(n, v);
      FilledFull(n, Inserted(n, k, v), 0);
    } else {
      var s, p, rest := Toward(n, k), Prefix(n, k), k[1..];
      var c := Common(rest, p);
      SlotFull(n, k);
      if s.Vacant? {
        PutFilled(n, k, rest, Slot.Leaf(v));
      } else if c < |p| {
        SplitFull(s, p, rest, v);
        PutFilled(n, k, p[..c], Slot.Node(Inserted(Put(New(), p[c..], p[c + 1..], s), rest[c..], v)));
      } else if s.Leaf? {
        PutFilled(n, k, p, Slot.Leaf(v));
      } else {
        InsertedFull(s.node, rest[c..], v);
        PutFilled(n, k, p, Slot.Node(Inserted(s.node, rest[c..], v)));
      }
      FilledFull(n, Inserted(n, k, v), k[0] as int + 1);
    }
  }

  lemma EndFilled<V>(n: Trie<V>, v: V)
    requires Sized(n)
    ensures Filled(n, Inserted(n, [], v), 0)
  {
  }

  lemma SlotFull<V>(n: Trie<V>, k: Nibs)
    requires Sized(n) && Full(n) && k != []
    ensures FullSlot(Toward(n, k))
  {
  }

  // ---- removal

  /** The slot towards `k` is the only one occupied. */
  ghost predicate Alone<V>(n: Trie<V>, k: Nibs)
    requires Sized(n) && k != []
  {
    forall i :: 0 <= i < N_BUCKETS && i != k[0] as int + 1 ==> n.handles[i].Vacant?
  }

  /** On the way to `k` a node below the root has one child only, a node that collapses as the leaf of `k` goes: the
      leaf handed up is all that is left in it, and it is not handed up once more. */
  ghost predicate Withers<V>(n: Trie<V>, k: Nibs, below: bool)
    requires Sized(n)
    decreases |k|
  {
    k != [] && Toward(n, k).Node? && Prefix(n, k) < k[1..] &&
    var c, rest := Toward(n, k).node, k[1..][|Prefix(n, k)|..];
    Withers(c, rest, true) || (below && Alone(n, k) && Collapses(c, rest))
  }

  ghost predicate Needed<V>(n: Trie<V>, below: bool)
    requires Sized(n)
  {
    Full(n) && (below ==> Crowded(n))
  }

  /** Removal leaves a node that is not needed exactly if it withers. */
  lemma {:induction false} RemovedFull<V>(n: Trie<V>, k: Nibs, below: bool)
    requires Sized(n) && Needed(n, below) && (below ==> k != [])
    ensures !(below && Collapses(n, k)) ==> (Needed(Removed(n, k), below) <==> !Withers(n, k, below))
    decreases |k|
  {
    if k == [] {
      EndTaken(n);
    } else {
      var p, rest := Prefix(n, k), k[1..];
      match Toward(n, k)
      case Vacant =>
      case Leaf(_) =>
        if rest == p {
          LeafTaken(n, k, below);
        }
      case Node(c) =>
        if p < rest {
          SlotFull(n, k);
          RemovedFull(c, rest[|p|..], true);
          if Collapses(c, rest[|p|..]) {
            LeafPulled(n, k, below);
          } else {
            NodeKept(n, k, p, Removed(c, rest[|p|..]));
          }
        }
    }
  }

  lemma EndTaken<V>(n: Trie<V>)
    requires Sized(n) && Full(n)
    ensures Full(Removed(n, []))
  {
    var m := Removed(n, []);
    assert forall i :: 0 <= i < N_BUCKETS ==> m.handles[i] == if i == 0 then Slot.Vacant else n.handles[i];
  }

  /** `n` with another slot towards `k` is full if the slot is. */
  lemma PutFull<V>(n: Trie<V>, k: Nibs, p: Nibs, s: Slot<V>)
    requires Sized(n) && k != [] && SizedSlot(s) && Full(n)
    ensures Full(Put(n, k, p, s)) <==> FullSlot(s)
  {
    var m := Put(n, k, p, s);
    assert forall i :: 0 <= i < N_BUCKETS ==> m.handles[i] == if i == k[0] as int + 1 then s else n.handles[i];
    assert m.handles[k[0] as int + 1] == s;
  }

  lemma LeafTaken<V>(n: Trie<V>, k: Nibs, below: bool)
    requires Sized(n) && k != [] && Toward(n, k).Leaf? && k[1..] == Prefix(n, k) && Needed(n, below)
    ensures !(below && Collapses(n, k)) ==> Needed(Put(n, k, [], Slot.Vacant), below)
  {
    var m := Put(n, k, [], Slot.Vacant);
    PutFull(n, k, [], Slot.Vacant);
    if below && !Collapses(n, k) {
      CrowdedWhen(n);
      CrowdedWhen(m);
      if Bare(m) {
        assert forall j :: 0 <= j < N_BUCKETS && j != k[0] as int + 1 ==> n.handles[j] == m.handles[j];
        assert OnlyLeaf(n, k[0] as int + 1);
      }
    }
  }

  lemma LeafPulled<V>(n: Trie<V>, k: Nibs, below: bool)
    requires Sized(n) && k != [] && Toward(n, k).Node? && Prefix(n, k) < k[1..] && Needed(n, below)
    requires Collapses(Toward(n, k).node, k[1..][|Prefix(n, k)|..])
    ensures Needed(Removed(n, k), below) <==> !(below && Alone(n, k))
  {
    var m := Removed(Toward(n, k).node, k[1..][|Prefix(n, k)|..]);
    var i := LoneLeaf(m);
    var n', x: nat := Removed(n, k), k[0] as int + 1;
    var p := Prefix(n, k) + (if i > 0 then [(i - 1) as Nibble] + m.prefixes[i - 1] else []);
    assert n' == Put(n, k, p, m.handles[i]);
    PutFull(n, k, p, m.handles[i]);
    assert n'.handles[x].Leaf? && forall j :: 0 <= j < N_BUCKETS && j != x ==> n'.handles[j] == n.handles[j];
    CrowdedWhen(n');
    if Alone(n, k) {
      assert OnlyLeaf(n', x);
    } else {
      var j :| 0 <= j < N_BUCKETS && j != x && !n.handles[j].Vacant?;
      assert forall i: nat :: !OnlyLeaf(n', i);
    }
  }

  lemma NodeKept<V>(n: Trie<V>, k: Nibs, p: Nibs, m: Trie<V>)
    requires Sized(n) && k != [] && Sized(m) && Full(n)
    ensures Crowded(Put(n, k, p, Slot.Node(m)))
    ensures Full(Put(n, k, p, Slot.Node(m))) <==> Needed(m, true)
  {
    PutFull(n, k, p, Slot.Node(m));
    assert Put(n, k, p, Slot.Node(m)).handles[k[0] as int + 1].Node?;
  }
}
