/** structures/radix/src/lib.rs: keys after whose removal the radix trie is not empty, though no key is left. */
module RadixRemains {
  import opened Trees
  import opened Radix
  import opened RadixMap
  import opened RadixShape
  import Nibbles

  /** The node of `00 00` and `00 10`, and above it that of all three keys. */
  ghost function Lower(): (n: Trie<int>)
    ensures Sized(n)
  {
    Put(Put(New(), [0], [0], Slot.Leaf(1)), [1], [0], Slot.Leaf(2))
  }

  ghost function Upper(): (n: Trie<int>)
    ensures Sized(n)
  {
    Put(New(), [0], [], Slot.Node(Lower()))
  }

  ghost function Above(p: Nibs, n: Trie<int>): (r: Trie<int>)
    requires Sized(n)
    ensures Sized(r)
  {
    Put(New(), [0], p, Slot.Node(n))
  }

  /** An insertion beside a slot whose path, like the key, goes on with `common`, and then in another way. */
  lemma Parted(n: Trie<int>, k: Nibs, common: Nibs, y: Nibble, tail: Nibs, z: Nibble, rest: Nibs, v: int)
    requires Sized(n) && k != [] && !Toward(n, k).Vacant? && y != z
    requires Prefix(n, k) == common + ([y] + tail) && k[1..] == common + ([z] + rest)
    ensures Inserted(n, k, v) ==
            Put(n, k, common, Slot.Node(Put(Put(New(), [y], tail, Toward(n, k)), [z], rest, Slot.Leaf(v))))
  {
    var p, q, c := Prefix(n, k), k[1..], |common|;
    assert q[..c] == common == p[..c] && q[c..] == [z] + rest && p[c..] == [y] + tail && p[c + 1..] == tail;
    Nibbles.CommonIs(q, p, c);
    InFork(Toward(n, k), y, tail, z, rest, v);
  }

  lemma InFork(s: Slot<int>, y: Nibble, tail: Nibs, z: Nibble, rest: Nibs, v: int)
    requires SizedSlot(s) && y != z
    ensures var fork := Put(New(), [y], tail, s);
              fork == Put(New(), [y] + tail, tail, s)
              && Inserted(fork, [z] + rest, v) == Put(fork, [z], rest, Slot.Leaf(v))
  {
    assert ([z] + rest)[1..] == rest;
  }

  lemma SecondIn(one: Trie<int>, b: Nibs)
    requires Sized(one) && one == Put(New(), [0], [0, 0, 0], Slot.Leaf(1)) && b == [0, 0, 1, 0]
    ensures Inserted(one, b, 2) == Above([0], Lower())
  {
    hide Inserted;
    assert [0, 0, 0] == [0] + ([0] + [0]) && b[1..] == [0] + ([1] + [0]);
    Parted(one, b, [0], 0, [0], 1, [0], 2);
    assert Put(one, b, [0], Slot.Node(Lower())) == Above([0], Lower());
  }

  lemma ThirdIn(two: Trie<int>, c: Nibs)
    requires Sized(two) && two == Above([0], Lower()) && c == [0, 1, 0, 0]
    ensures Inserted(two, c, 3) == Above([], Put(Upper(), [1], [0, 0], Slot.Leaf(3)))
  {
    hide Inserted, Lower;
    assert [0] == [] + ([0] + []) && c[1..] == [] + ([1] + [0, 0]);
    Parted(two, c, [], 0, [], 1, [0, 0], 3);
    assert Put(two, c, [], Slot.Node(Put(Upper(), [1], [0, 0], Slot.Leaf(3)))) ==
           Above([], Put(Upper(), [1], [0, 0], Slot.Leaf(3)));
  }

  /** What insertions of `00 00`, `00 10` and `01 00` build: two nodes, one in the other. */
  ghost function ThreeKeys(): (n: Trie<int>)
    ensures Sized(n)
  {
    var one := Inserted(New(), NibblesOf([0x00, 0x00]), 1);
    Inserted(Inserted(one, NibblesOf([0x00, 0x10]), 2), NibblesOf([0x01, 0x00]), 3)
  }

  lemma Built()
    ensures ThreeKeys() == Above([], Put(Upper(), [1], [0, 0], Slot.Leaf(3)))
  {
    hide Above, Lower, Upper;
    NibblesOfBytes();
    var one := Inserted(New(), [0, 0, 0, 0], 1);
    assert one == Put(New(), [0], [0, 0, 0], Slot.Leaf(1)) by {
      assert [0, 0, 0, 0][1..] == [0, 0, 0];
    }
    SecondIn(one, [0, 0, 1, 0]);
    ThirdIn(Inserted(one, [0, 0, 1, 0], 2), [0, 1, 0, 0]);
  }

  /** A removal below a node whose path is empty. */
  lemma RemovedUnder(n: Trie<int>, k: Nibs)
    requires Sized(n) && |k| > 1 && Toward(n, k).Node? && Prefix(n, k) == []
    ensures var c, rest := Toward(n, k).node, k[1..];
              Removed(n, k) ==
              if Collapses(c, rest) then Pulled(n, k, Removed(c, rest)) else Put(n, k, [], Slot.Node(Removed(c, rest)))
  {
    assert k[1..][0..] == k[1..];
  }

  /** Removing `01 00` leaves the lower node alone in the upper one. */
  lemma FirstOut(k: Nibs)
    requires k == [0, 1, 0, 0]
    ensures Removed(Above([], Put(Upper(), [1], [0, 0], Slot.Leaf(3))), k) == Above([], Upper())
  {
    var c := Put(Upper(), [1], [0, 0], Slot.Leaf(3));
    var n := Above([], c);
    assert k[1..] == [1, 0, 0] && k[1..][1..] == [0, 0];
    RemovedUnder(n, k);
    var m := Put(c, k[1..], [], Slot.Vacant);
    assert m == Upper() && m.handles[1].Node?;
    assert !Collapses(c, k[1..]);
    assert Put(n, k, [], Slot.Node(Upper())) == Above([], Upper());
  }

  /** Removing `00 00` makes the lower node collapse, and leaves one leaf in the upper one: that withers. */
  lemma SecondOut(k: Nibs)
    requires k == [0, 0, 0, 0]
    ensures Withers(Above([], Upper()), k, false)
    ensures Removed(Above([], Upper()), k) == Above([], Put(New(), [0], [1, 0], Slot.Leaf(2)))
  {
    var n, low, one: Nibs, two: Nibs := Above([], Upper()), Lower(), k[1..], k[1..][1..];
    assert one == [0, 0, 0] && two == [0, 0] && two[1..] == [0] && k[1..][0..] == one && one[0..] == one;
    var left := Put(low, two, [], Slot.Vacant);
    assert OnlyLeaf(left, 2) && left.prefixes[1] == [0];
    assert LoneLeaf(left) == 2;
    assert Collapses(low, two) && !Collapses(Upper(), one);
    RemovedUnder(n, k);
    RemovedUnder(Upper(), one);
    assert [] + ([1] + [0]) == [1, 0];
    assert Removed(Upper(), one) == Put(New(), [0], [1, 0], Slot.Leaf(2));
    assert Alone(Upper(), one);
  }

  /** Removing `00 10` then leaves the upper node with nothing in it. */
  lemma ThirdOut(k: Nibs)
    requires k == [0, 0, 1, 0]
    ensures Removed(Above([], Put(New(), [0], [1, 0], Slot.Leaf(2))), k) == Above([], New())
  {
    var c := Put(New(), [0], [1, 0], Slot.Leaf(2));
    var n := Above([], c);
    assert k[1..] == [0, 1, 0] && k[1..][1..] == [1, 0];
    RemovedUnder(n, k);
    var m := Put(c, k[1..], [], Slot.Vacant);
    assert m == New();
    assert !Collapses(c, k[1..]);
    assert Put(n, k, [], Slot.Node(m)) == Above([], New());
  }

  /** After insertions of `00 00`, `00 10` and `01 00` and removals of `01 00`, `00 00` and `00 10` no key is left, and
      the root still has a node: the second removal leaves one leaf in a node, which nothing hands up. */
  lemma LeftBehind()
    ensures var two := Removed(ThreeKeys(), NibblesOf([0x01, 0x00]));
            var n := Removed(Removed(two, NibblesOf([0x00, 0x00])), NibblesOf([0x00, 0x10]));
            && Withers(two, NibblesOf([0x00, 0x00]), false)
            && (forall k :: Find(n, k).None?)
            && !Bare(n)
  {
    hide ThreeKeys, Removed, Withers, Upper;
    NibblesOfBytes();
    Built();
    FirstOut([0, 1, 0, 0]);
    SecondOut([0, 0, 0, 0]);
    ThirdOut([0, 0, 1, 0]);
    var n := Above([], New<int>());
    assert n.handles[1] == Slot.Node(New());
    forall k
      ensures Find(n, k).None?
    {
      if k != [] && Toward(n, k).Node? {
        BareHolds(New<int>(), k[1..]);
        assert k[1..][0..] == k[1..];
      }
    }
  }
}
