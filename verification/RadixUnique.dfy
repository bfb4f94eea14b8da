/** structures/radix/src/lib.rs: the trie that insertions alone lead to is given by what it holds. */
module RadixUnique {
  import opened Trees
  import opened Radix

  /** Two slots of the node are occupied. */
  ghost predicate Forked<V>(n: Trie<V>)
    requires Sized(n)
  {
    exists i, j :: 0 <= i < j < N_BUCKETS && !n.handles[i].Vacant? && !n.handles[j].Vacant?
  }

  /** Every node below `n` is one at which two keys part, and slots that hold nothing have no prefix. */
  ghost predicate Tight<V>(n: Trie<V>)
    requires Sized(n)
  {
    && (forall i :: 0 <= i < N_BUCKETS ==> TightSlot(n.handles[i]))
    && forall i :: 0 <= i < N_BUCKETS - 1 ==> (n.handles[i + 1].Vacant? ==> n.prefixes[i] == [])
  }

  ghost predicate TightSlot<V>(s: Slot<V>)
    requires SizedSlot(s)
  {
    s.Node? ==> Forked(s.node) && Tight(s.node)
  }

  // ---- slots that hold nothing

  /** At no node a slot that holds nothing has a prefix left. */
  ghost predicate Clean<V>(n: Trie<V>)
    requires Sized(n)
  {
    && (forall i :: 0 <= i < N_BUCKETS ==> CleanSlot(n.handles[i]))
    && forall i :: 0 <= i < N_BUCKETS - 1 ==> (n.handles[i + 1].Vacant? ==> n.prefixes[i] == [])
  }

  ghost predicate CleanSlot<V>(s: Slot<V>)
    requires SizedSlot(s)
  {
    s.Node? ==> Clean(s.node)
  }

  lemma PutClean<V>(n: Trie<V>, k: Nibs, p: Nibs, s: Slot<V>)
    requires Sized(n) && Clean(n) && k != [] && SizedSlot(s) && CleanSlot(s) && (s.Vacant? ==> p == [])
    ensures Clean(Put(n, k, p, s))
  {
  }

  lemma EndClean<V>(n: Trie<V>, s: Slot<V>)
    requires Sized(n) && Clean(n) && !s.Node?
    ensures Sized(Trie(n.handles[0 := s], n.prefixes)) && Clean(Trie(n.handles[0 := s], n.prefixes))
  {
    var m := Trie(n.handles[0 := s], n.prefixes);
    forall i | 0 <= i < N_BUCKETS
      ensures SizedSlot(m.handles[i]) && CleanSlot(m.handles[i])
    {
      assert i > 0 ==> m.handles[i] == n.handles[i] && SizedSlot(n.handles[i]) && CleanSlot(n.handles[i]);
    }
  }

  lemma CleanToward<V>(n: Trie<V>, k: Nibs)
    requires Sized(n) && Clean(n) && k != []
    ensures CleanSlot(Toward(n, k))
  {
  }

  lemma NewClean<V>()
    ensures Sized(New<V>()) && Clean(New<V>())
  {
  }

  lemma {:induction false} InsertedClean<V>(n: Trie<V>, k: Nibs, v: V)
    requires Sized(n) && Clean(n)
    ensures Clean(Inserted(n, k, v))
    decreases |k|
  {
    hide Clean;
    if k == [] {
      EndClean(n, Slot.Leaf(v));
    } else {
      var s, p, rest := Toward(n, k), Prefix(n, k), k[1..];
      var c := Common(rest, p);
      CleanToward(n, k);
      if s.Vacant? {
        PutClean(n, k, rest, Slot.Leaf(v));
      } else if c < |p| {
        NewClean<V>();
        PutClean(New(), p[c..], p[c + 1..], s);
        InsertedClean(Put(New(), p[c..], p[c + 1..], s), rest[c..], v);
        PutClean(n, k, p[..c], Slot.Node(Inserted(Put(New(), p[c..], p[c + 1..], s), rest[c..], v)));
      } else if s.Leaf? {
        PutClean(n, k, p, Slot.Leaf(v));
      } else {
        InsertedClean(s.node, rest[c..], v);
        PutClean(n, k, p, Slot.Node(Inserted(s.node, rest[c..], v)));
      }
    }
  }

  /** Removal takes the prefix along with the leaf, also where a node collapses. */
  lemma {:induction false} RemovedClean<V>(n: Trie<V>, k: Nibs)
    requires Sized(n) && Clean(n)
    ensures Clean(Removed(n, k))
    decreases |k|
  {
    hide Clean;
    if k == [] {
      EndClean(n, Slot.Vacant);
    } else {
      var p, rest := Prefix(n, k), k[1..];
      CleanToward(n, k);
      match Toward(n, k)
      case Vacant =>
      case Leaf(_) =>
        PutClean(n, k, [], Slot.Vacant);
      case Node(c) =>
        if p < rest {
          RemovedClean(c, rest[|p|..]);
          var m := Removed(c, rest[|p|..]);
          if Collapses(c, rest[|p|..]) {
            var i := LoneLeaf(m);
            var path := p + (if i > 0 then [(i - 1) as Nibble] + m.prefixes[i - 1] else []);
            PutClean(n, k, path, m.handles[i]);
          } else {
            PutClean(n, k, p, Slot.Node(m));
          }
        }
    }
  }

  // ---- insertion

  lemma PutTight<V>(n: Trie<V>, k: Nibs, p: Nibs, s: Slot<V>)
    requires Sized(n) && Tight(n) && k != [] && SizedSlot(s) && TightSlot(s) && !s.Vacant?
    ensures Tight(Put(n, k, p, s)) && (Forked(n) ==> Forked(Put(n, k, p, s)))
  {
    var m := Put(n, k, p, s);
    if Forked(n) {
      var i, j :| 0 <= i < j < N_BUCKETS && !n.handles[i].Vacant? && !n.handles[j].Vacant?;
      assert !m.handles[i].Vacant? && !m.handles[j].Vacant?;
    }
  }

  lemma EndTight<V>(n: Trie<V>, v: V)
    requires Sized(n) && Tight(n)
    ensures Tight(Inserted(n, [], v)) && (Forked(n) ==> Forked(Inserted(n, [], v)))
  {
    var m := Inserted(n, [], v);
    if Forked(n) {
      var i, j :| 0 <= i < j < N_BUCKETS && !n.handles[i].Vacant? && !n.handles[j].Vacant?;
      assert !m.handles[i].Vacant? && !m.handles[j].Vacant?;
    }
  }

  /** Keys part where a path is split: the nibbles there differ, or one key ends. */
  lemma SplitForks<V>(s: Slot<V>, p: Nibs, rest: Nibs, v: V)
    requires SizedSlot(s) && !s.Vacant? && Common(rest, p) < |p|
    ensures var c := Common(rest, p);
            var node := Put(New(), p[c..], p[c + 1..], s);
            && Forked(Inserted(node, rest[c..], v))
            && (rest[c..] != [] ==> Toward(node, rest[c..]).Vacant?)
  {
    var c := Common(rest, p);
    var m := Inserted(Put(New(), p[c..], p[c + 1..], s), rest[c..], v);
    var x: nat, y: nat := p[c] as int + 1, if c < |rest| then rest[c] as int + 1 else 0;
    assert m.handles[x] == s && m.handles[y] == Slot.Leaf(v);
    if x < y {
      assert !m.handles[x].Vacant? && !m.handles[y].Vacant?;
    } else {
      assert !m.handles[y].Vacant? && !m.handles[x].Vacant?;
    }
  }

  lemma SplitTight<V>(s: Slot<V>, p: Nibs, rest: Nibs, v: V)
    requires SizedSlot(s) && !s.Vacant? && TightSlot(s) && Common(rest, p) < |p|
    ensures var c := Common(rest, p);
            var m := Inserted(Put(New(), p[c..], p[c + 1..], s), rest[c..], v);
            Tight(m) && Forked(m)
  {
    hide Tight, Forked, Put, New;
    var c := Common(rest, p);
    NewTight<V>();
    var node := Put(New(), p[c..], p[c + 1..], s);
    PutTight(New(), p[c..], p[c + 1..], s);
    SplitForks(s, p, rest, v);
    if rest[c..] == [] {
      EndTight(node, v);
    } else {
      PutTight(node, rest[c..], rest[c..][1..], Slot.Leaf(v));
    }
  }

  lemma TightToward<V>(n: Trie<V>, k: Nibs)
    requires Sized(n) && Tight(n) && k != []
    ensures TightSlot(Toward(n, k))
  {
  }

  lemma NewTight<V>()
    ensures Sized(New<V>()) && Tight(New<V>())
  {
  }

  /** Insertion makes nodes only where keys part. */
  lemma {:induction false} InsertedTight<V>(n: Trie<V>, k: Nibs, v: V)
    requires Sized(n) && Tight(n)
    ensures Tight(Inserted(n, k, v)) && (Forked(n) ==> Forked(Inserted(n, k, v)))
    decreases |k|
  {
    hide Tight, Forked;
    if k == [] {
      EndTight(n, v);
    } else {
      var s, p, rest := Toward(n, k), Prefix(n, k), k[1..];
      var c := Common(rest, p);
      TightToward(n, k);
      if s.Vacant? {
        PutTight(n, k, rest, Slot.Leaf(v));
      } else if c < |p| {
        SplitTight(s, p, rest, v);
        PutTight(n, k, p[..c], Slot.Node(Inserted(Put(New(), p[c..], p[c + 1..], s), rest[c..], v)));
      } else if s.Leaf? {
        PutTight(n, k, p, Slot.Leaf(v));
      } else {
        InsertedTight(s.node, rest[c..], v);
        PutTight(n, k, p, Slot.Node(Inserted(s.node, rest[c..], v)));
      }
    }
  }

  // ---- what a tight trie holds

  /** A key that is held through slot `i`. */
  lemma {:induction false} SlotKey<V>(n: Trie<V>, i: nat) returns (k: Nibs)
    requires Sized(n) && Tight(n) && i < N_BUCKETS && !n.handles[i].Vacant?
    ensures Find(n, k).Some?
    ensures if i == 0 then k == [] else k != [] && k[0] == i - 1
    decreases n
  {
    if i == 0 {
      k := [];
    } else {
      var x: Nibble, p: Nibs := i - 1, n.prefixes[i - 1];
      var rest: Nibs := [];
      assert TightSlot(n.handles[i]) && SizedSlot(n.handles[i]);
      if n.handles[i].Node? {
        var c := n.handles[i].node;
        assert Sized(c) && Forked(c) && Tight(c);
        var a: nat, b: nat :| a < b < N_BUCKETS && !c.handles[a].Vacant? && !c.handles[b].Vacant?;
        rest := SlotKey(c, a);
      }
      k := [x] + p + rest;
      assert k[0] == x && k[1..] == p + rest && (p + rest)[|p|..] == rest;
    }
  }

  /** The keys differ in their first nibble, if both have one. */
  ghost predicate Part(a: Nibs, b: Nibs) {
    if a == [] || b == [] then a != b else a[0] != b[0]
  }

  /** Two keys that part at once. */
  lemma ForkKeys<V>(n: Trie<V>) returns (a: Nibs, b: Nibs)
    requires Sized(n) && Tight(n) && Forked(n)
    ensures Find(n, a).Some? && Find(n, b).Some? && Part(a, b)
  {
    hide Tight;
    var i, j :| 0 <= i < j < N_BUCKETS && !n.handles[i].Vacant? && !n.handles[j].Vacant?;
    a := SlotKey(n, i);
    b := SlotKey(n, j);
  }

  /** What two keys have in common ends where they part. */
  lemma PrefixEnds(p: Nibs, q: Nibs, a: Nibs, b: Nibs)
    requires Part(a, b) && q <= p + a && q <= p + b
    ensures q <= p
  {
    assert a != [] ==> (p + a)[|p|] == a[0];
    assert b != [] ==> (p + b)[|p|] == b[0];
    assert |q| <= |p|;
    assert forall i :: 0 <= i < |q| ==> q[i] == (p + a)[i];
  }

  // ---- what fixes a tight trie

  ghost predicate SlotsAlike<V>(s: Slot<V>, p: Nibs, t: Slot<V>, q: Nibs)
    requires SizedSlot(s) && SizedSlot(t)
  {
    forall rest: Nibs :: FindIn(s, p, rest) == FindIn(t, q, rest)
  }

  ghost predicate TightAt<V>(s: Slot<V>, p: Nibs)
    requires SizedSlot(s)
  {
    TightSlot(s) && (s.Vacant? ==> p == [])
  }

  lemma NodeHeld<V>(s: Slot<V>, p: Nibs) returns (a: Nibs, b: Nibs)
    requires SizedSlot(s) && TightSlot(s) && s.Node?
    ensures Part(a, b) && FindIn(s, p, p + a).Some? && FindIn(s, p, p + b).Some?
  {
    a, b := ForkKeys(s.node);
    assert (p + a)[|p|..] == a && (p + b)[|p|..] == b;
  }

  /** A slot that holds a leaf, or nothing, is not one that holds a node. */
  lemma NotNode<V>(s: Slot<V>, p: Nibs, t: Slot<V>, q: Nibs)
    requires SizedSlot(s) && SizedSlot(t) && TightSlot(t) && SlotsAlike(s, p, t, q)
    ensures t.Node? ==> s.Node?
  {
    if t.Node? {
      var a, b := NodeHeld(t, q);
      assert FindIn(s, p, q + a).Some? && FindIn(s, p, q + b).Some?;
      assert (q + a)[|q|..] == a && (q + b)[|q|..] == b;
    }
  }

  lemma PrefixesSame<V>(s: Slot<V>, p: Nibs, t: Slot<V>, q: Nibs)
    requires SizedSlot(s) && SizedSlot(t) && TightSlot(s) && TightSlot(t)
    requires SlotsAlike(s, p, t, q) && s.Node? && t.Node?
    ensures q <= p
  {
    var a, b := NodeHeld(s, p);
    assert FindIn(t, q, p + a).Some? && FindIn(t, q, p + b).Some?;
    PrefixEnds(p, q, a, b);
  }

  lemma SlotsSame<V>(s: Slot<V>, p: Nibs, t: Slot<V>, q: Nibs)
    requires SizedSlot(s) && SizedSlot(t) && TightAt(s, p) && TightAt(t, q) && SlotsAlike(s, p, t, q)
    ensures p == q
    ensures !s.Node? ==> s == t
    ensures s.Node? ==> t.Node? && forall k: Nibs :: Find(s.node, k) == Find(t.node, k)
  {
    NotNode(s, p, t, q);
    NotNode(t, q, s, p);
    match s
    case Vacant =>
      assert FindIn(t, q, q).None?;
    case Leaf(v) =>
      assert FindIn(t, q, p) == Some(v);
    case Node(c) =>
      PrefixesSame(s, p, t, q);
      PrefixesSame(t, q, s, p);
      forall k: Nibs
        ensures Find(c, k) == Find(t.node, k)
      {
        assert (p + k)[|p|..] == k;
        assert FindIn(s, p, p + k) == FindIn(t, q, p + k);
      }
  }

  lemma AlikeBySlot<V>(n: Trie<V>, m: Trie<V>, i: Nibble)
    requires Sized(n) && Sized(m) && forall k: Nibs :: Find(n, k) == Find(m, k)
    ensures SizedSlot(n.handles[i + 1]) && SizedSlot(m.handles[i + 1])
    ensures SlotsAlike(n.handles[i + 1], n.prefixes[i], m.handles[i + 1], m.prefixes[i])
  {
    var s, p, t, q := n.handles[i + 1], n.prefixes[i], m.handles[i + 1], m.prefixes[i];
    forall rest: Nibs
      ensures FindIn(s, p, rest) == FindIn(t, q, rest)
    {
      var k := [i] + rest;
      assert k[0] == i && k[1..] == rest;
      assert Find(n, k) == Find(m, k);
    }
  }

  /** Tight tries that hold the same are the same. */
  lemma {:induction false} TightUnique<V>(n: Trie<V>, m: Trie<V>)
    requires Sized(n) && Sized(m) && Tight(n) && Tight(m)
    requires forall k: Nibs :: Find(n, k) == Find(m, k)
    ensures n == m
    decreases n
  {
    assert Find(n, []) == Find(m, []);
    forall i: nat | i < N_BUCKETS - 1
      ensures n.prefixes[i] == m.prefixes[i]
    {
      AlikeBySlot(n, m, i);
      SlotsSame(n.handles[i + 1], n.prefixes[i], m.handles[i + 1], m.prefixes[i]);
    }
    forall i: nat | i < N_BUCKETS
      ensures n.handles[i] == m.handles[i]
    {
      if i > 0 {
        AlikeBySlot(n, m, i - 1);
        SlotsSame(n.handles[i], n.prefixes[i - 1], m.handles[i], m.prefixes[i - 1]);
        if n.handles[i].Node? {
          TightUnique(n.handles[i].node, m.handles[i].node);
        }
      }
    }
    assert n.handles == m.handles && n.prefixes == m.prefixes;
  }
}
