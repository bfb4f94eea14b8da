/** The bytes of nodes and handles (src/handle.rs and the `persist` of each structure), what they determine, and what
    a store has to hold of a tree. */
module Content {
  import opened Trees

  // ---- child masks

  function Bit(i: nat): bv16
    requires i < 16
  {
    1 << i
  }

  lemma BitsDistinct(i: nat, j: nat)
    requires i < 16 && j < 16
    ensures Bit(i) & Bit(j) != 0 <==> i == j
  {
  }

  lemma OrAnd(a: bv16, b: bv16, c: bv16)
    ensures (a | b) & c != 0 <==> a & c != 0 || b & c != 0
  {
  }

  /** The mask built over the first `n` slots. */
  function MaskUpTo<L(!new), A(!new)>(kids: seq<Tree<L, A>>, n: nat): bv16
    requires n <= |kids| && n <= 16
  {
    if n == 0 then 0
    else MaskUpTo(kids, n - 1) | (if kids[n - 1].Empty? then 0 else Bit(n - 1))
  }

  lemma {:induction false} MaskBit<L(!new), A(!new)>(kids: seq<Tree<L, A>>, n: nat, j: nat)
    requires n <= |kids| <= 16
    requires j < 16
    ensures MaskUpTo(kids, n) & Bit(j) != 0 <==> j < n && !kids[j].Empty?
  {
    if n > 0 {
      MaskBit(kids, n - 1, j);
      OrAnd(MaskUpTo(kids, n - 1), if kids[n - 1].Empty? then 0 else Bit(n - 1), Bit(j));
      BitsDistinct(n - 1, j);
    }
  }

  /** Bit `j` of a mask, the one worth two to the power `j`, is a one. */
  predicate MaskOneAt(m: bv16, j: nat)
    requires j < 16
  {
    (m >> j) & 1 == 1
  }

  lemma BitHeld(m: bv16, j: nat)
    requires j < 16 && m & Bit(j) != 0
    ensures MaskOneAt(m, j)
  {
  }

  lemma BitMissing(m: bv16, j: nat)
    requires j < 16 && m & Bit(j) == 0
    ensures !MaskOneAt(m, j)
  {
  }

  /** What `persist` and `restore` test a mask for. */
  lemma BitTest(m: bv16, j: nat)
    requires j < 16
    ensures m & Bit(j) != 0 <==> MaskOneAt(m, j)
  {
    hide Bit, MaskOneAt;
    if m & Bit(j) != 0 {
      BitHeld(m, j);
    } else {
      BitMissing(m, j);
    }
  }

  /** By place: bit `j` of the mask stands for slot `j`. */
  lemma MaskPlace<L(!new), A(!new)>(kids: seq<Tree<L, A>>, n: nat, j: nat)
    requires n <= |kids| <= 16
    requires j < 16
    ensures MaskOneAt(MaskUpTo(kids, n), j) <==> j < n && !kids[j].Empty?
  {
    hide Bit, MaskOneAt, MaskUpTo;
    MaskBit(kids, n, j);
    BitTest(MaskUpTo(kids, n), j);
  }

  /** A node's mask tells which children were written; a 2-3 node writes all of them. */
  lemma MaskWritten<L(!new), A(!new)>(k: Kind, mask: bv16, i: nat, ts: seq<Tree<L, A>>)
    requires Fits(k, |ts|) && i < |ts|
    requires !k.Two3? ==> mask == MaskUpTo(ts, |ts|)
    ensures k.Two3? || mask & Bit(i) != 0 <==> Written(k, ts[i])
  {
    if !k.Two3? {
      MaskBit(ts, |ts|, i);
    }
  }

  function HighByte(m: bv16): bv8 {
    ((m >> 8) & 0xFF) as bv8
  }

  function LowByte(m: bv16): bv8 {
    (m & 0xFF) as bv8
  }

  function MaskBytes(m: bv16): (r: Bytes)
    ensures |r| == 2
  {
    [HighByte(m), LowByte(m)]
  }

  function BytesMask(hi: bv8, lo: bv8): bv16 {
    ((hi as bv16) << 8) | (lo as bv16)
  }

  lemma MaskRoundTrip(m: bv16)
    ensures BytesMask(MaskBytes(m)[0], MaskBytes(m)[1]) == m
  {
  }

  lemma SmallByte(x: bv16)
    requires x <= 0xFF
    ensures (x as bv8) as nat == x as nat
  {
  }

  lemma MaskParts(m: bv16)
    ensures 256 * ((m >> 8) as nat) + (m & 0xFF) as nat == m as nat
  {
  }

  /** Big endian, by number, as it is written and as it is read. */
  lemma MaskValue(m: bv16)
    ensures 256 * (MaskBytes(m)[0] as nat) + MaskBytes(m)[1] as nat == m as nat
  {
    var x, y := (m >> 8) & 0xFF, m & 0xFF;
    assert x == m >> 8;
    SmallByte(x);
    SmallByte(y);
    MaskParts(m);
  }

  lemma MaskRead(hi: bv8, lo: bv8)
    ensures BytesMask(hi, lo) as nat == 256 * (hi as nat) + lo as nat
  {
    MaskValue(BytesMask(hi, lo));
    assert MaskBytes(BytesMask(hi, lo)) == [hi, lo];
  }

  // ---- the bytes of a node

  predicate Fits(k: Kind, n: nat) {
    match k
    case Two3 => n <= 3
    case Wide => n == 16
    case Narrow => n == 4
  }

  function Min(a: nat, b: nat): nat {
    if a < b then a else b
  }

  /** Length byte of a 2-3 node, occupancy mask of a trie node. */
  function Header<L(!new), A(!new)>(k: Kind, kids: seq<Tree<L, A>>): Bytes
  {
    match k
    case Two3 => [(|kids| % 256) as bv8]
    case Wide => MaskBytes(MaskUpTo(kids, Min(|kids|, 16)))
    case Narrow => [LowByte(MaskUpTo(kids, Min(|kids|, 4)))]
  }

  /** Bit `j` of a byte is a one. */
  predicate OneAt(b: bv8, j: nat)
    requires j < 8
  {
    (b >> j) & 1 == 1
  }

  lemma LowShifted(m: bv16, j: nat)
    requires j < 8
    ensures (((m & 0xFF) as bv8) >> j) & 1 == 1 <==> (m >> j) & 1 == 1
  {
  }

  lemma HighShifted(m: bv16, j: nat)
    requires j < 8
    ensures ((((m >> 8) & 0xFF) as bv8) >> j) & 1 == 1 <==> (m >> (j + 8)) & 1 == 1
  {
  }

  /** The two bytes of a mask hold its two halves. */
  lemma LowHalf(m: bv16, j: nat)
    requires j < 8
    ensures OneAt(LowByte(m), j) <==> MaskOneAt(m, j)
  {
    LowShifted(m, j);
  }

  lemma HighHalf(m: bv16, j: nat)
    requires j < 8
    ensures OneAt(HighByte(m), j) <==> MaskOneAt(m, j + 8)
  {
    HighShifted(m, j);
  }

  /** The header, bit by bit: a 2-3 node has the number of its children, a narrow node a bit for each slot, lowest
      first, a wide one its upper eight slots in the first byte and its lower eight in the second. */
  lemma HeaderIs<L(!new), A(!new)>(k: Kind, kids: seq<Tree<L, A>>, j: nat)
    requires Fits(k, |kids|) && j < 8
    ensures |Header(k, kids)| == if k.Wide? then 2 else 1
    ensures k.Two3? ==> Header(k, kids)[0] as nat == |kids|
    ensures k.Narrow? ==> (OneAt(Header(k, kids)[0], j) <==> j < 4 && !kids[j].Empty?)
    ensures k.Wide? ==> (OneAt(Header(k, kids)[1], j) <==> !kids[j].Empty?)
    ensures k.Wide? ==> (OneAt(Header(k, kids)[0], j) <==> !kids[j + 8].Empty?)
  {
    hide MaskUpTo, OneAt, MaskOneAt, HighByte, LowByte;
    if k.Two3? {
      SmallLength(|kids|);
    } else {
      MaskPlace(kids, |kids|, j);
      MaskPlace(kids, |kids|, j + 8);
      LowHalf(MaskUpTo(kids, |kids|), j);
      HighHalf(MaskUpTo(kids, |kids|), j);
    }
  }

  lemma SmallLength(n: nat)
    requires n <= 3
    ensures ((n % 256) as bv8) as nat == n
  {
  }

  predicate Written<L(!new), A(!new)>(k: Kind, t: Tree<L, A>) {
    k.Two3? || !t.Empty?
  }

  ghost function Digest<L(!new), A(!new)>(e: Env<L, A>, kids: seq<Tree<L, A>>): Bytes
    decreases kids, 2
  {
    e.hash(NodeBytes(e, kids))
  }

  ghost function NodeBytes<L(!new), A(!new)>(e: Env<L, A>, kids: seq<Tree<L, A>>): Bytes
    decreases kids, 1
  {
    Header(e.kind, kids) + Body(e, kids)
  }

  ghost function Body<L(!new), A(!new)>(e: Env<L, A>, kids: seq<Tree<L, A>>): Bytes
    decreases kids, 0
  {
    if kids == [] then []
    else (if Written(e.kind, kids[0]) then HandleBytes(e, kids[0]) else []) + Body(e, kids[1..])
  }

  ghost function HandleBytes<L(!new), A(!new)>(e: Env<L, A>, t: Tree<L, A>): Bytes
    decreases t, 3
  {
    match t
    case Empty => [0]
    case Leaf(l) => [1] + e.leaf.enc(l)
    case Node(a, kids) => [2] + Digest(e, kids) + e.ann.enc(a)
  }

  lemma BodyStep<L(!new), A(!new)>(e: Env<L, A>, kids: seq<Tree<L, A>>, i: nat, tail: Bytes)
    requires i < |kids|
    ensures Written(e.kind, kids[i]) ==>
      Body(e, kids[i..]) + tail == HandleBytes(e, kids[i]) + (Body(e, kids[i + 1..]) + tail)
    ensures !Written(e.kind, kids[i]) ==> Body(e, kids[i..]) == Body(e, kids[i + 1..])
  {
    assert kids[i..][0] == kids[i] && kids[i..][1..] == kids[i + 1..];
    if !Written(e.kind, kids[i]) {
      assert Body(e, kids[i..]) == [] + Body(e, kids[i + 1..]);
    }
  }

  lemma BodyAfter<L(!new), A(!new)>(e: Env<L, A>, kids: seq<Tree<L, A>>, i: nat, before: Bytes)
    requires i < |kids|
    ensures Written(e.kind, kids[i]) ==>
      before + HandleBytes(e, kids[i]) + Body(e, kids[i + 1..]) == before + Body(e, kids[i..])
    ensures !Written(e.kind, kids[i]) ==> Body(e, kids[i..]) == Body(e, kids[i + 1..])
  {
    BodyStep(e, kids, i, []);
  }

  /** Children are written one behind the other, in order, and empty slots of a trie not at all. */
  lemma {:induction false} BodyConcat<L(!new), A(!new)>(e: Env<L, A>, a: seq<Tree<L, A>>, b: seq<Tree<L, A>>)
    ensures Body(e, a + b) == Body(e, a) + Body(e, b)
    ensures forall t :: Body(e, [t]) == if t.Empty? && !e.kind.Two3? then [] else HandleBytes(e, t)
  {
    hide HandleBytes;
    forall t: Tree<L, A>
      ensures Body(e, [t]) == if t.Empty? && !e.kind.Two3? then [] else HandleBytes(e, t)
    {
      assert Body(e, [t][1..]) == [];
    }
    if a == [] {
      assert a + b == b;
    } else {
      assert (a + b)[0] == a[0] && (a + b)[1..] == a[1..] + b;
      BodyConcat(e, a[1..], b);
      var x := if Written(e.kind, a[0]) then HandleBytes(e, a[0]) else [];
      Reassociate(x, Body(e, a[1..]), Body(e, b));
    }
  }

  // ---- what those bytes determine

  /** As much of a child as its parent's bytes hold: a leaf, or the digest and annotation of a node. */
  datatype Stub<+L, +A> = NoStub | LeafStub(leaf: L) | NodeStub(digest: Bytes, ann: A)

  ghost function StubOf<L(!new), A(!new)>(e: Env<L, A>, t: Tree<L, A>): Stub<L, A>
  {
    match t
    case Empty => NoStub
    case Leaf(l) => LeafStub(l)
    case Node(a, kids) => NodeStub(Digest(e, kids), a)
  }

  lemma CodecCancel<T(!new)>(c: Codec<T>, t: T, u: T, x: Bytes, y: Bytes)
    requires PrefixExact(c) && c.enc(t) + x == c.enc(u) + y
    ensures t == u && x == y
  {
    assert c.dec(c.enc(t) + x) == Some((t, |c.enc(t)|));
    CancelLeft(c.enc(t), x, c.enc(u), y);
  }

  lemma HandleBytesCancel<L(!new), A(!new)>(e: Env<L, A>, t: Tree<L, A>, u: Tree<L, A>, x: Bytes, y: Bytes)
    requires e.Lawful()
    requires HandleBytes(e, t) + x == HandleBytes(e, u) + y
    ensures StubOf(e, t) == StubOf(e, u) && x == y
  {
    assert (HandleBytes(e, t) + x)[0] == HandleBytes(e, t)[0] && (HandleBytes(e, u) + y)[0] == HandleBytes(e, u)[0];
    match t
    case Empty =>
      CancelLeft([0], x, [0], y);
    case Leaf(l) =>
      Reassociate([1], e.leaf.enc(l), x);
      Reassociate([1], e.leaf.enc(u.leaf), y);
      CancelLeft([1], e.leaf.enc(l) + x, [1], e.leaf.enc(u.leaf) + y);
      CodecCancel(e.leaf, l, u.leaf, x, y);
    case Node(a, kids) =>
      var d, d' := [2] + Digest(e, kids), [2] + Digest(e, u.kids);
      Reassociate(d, e.ann.enc(a), x);
      Reassociate(d', e.ann.enc(u.ann), y);
      CancelLeft(d, e.ann.enc(a) + x, d', e.ann.enc(u.ann) + y);
      CancelLeft([2], Digest(e, kids), [2], Digest(e, u.kids));
      CodecCancel(e.ann, a, u.ann, x, y);
  }

  lemma {:induction false} BodyCancel<L(!new), A(!new)>(e: Env<L, A>, ts: seq<Tree<L, A>>, us: seq<Tree<L, A>>)
    requires e.Lawful()
    requires |ts| == |us|
    requires forall i :: 0 <= i < |ts| ==> (Written(e.kind, ts[i]) <==> Written(e.kind, us[i]))
    requires Body(e, ts) == Body(e, us)
    ensures forall i :: 0 <= i < |ts| ==> StubOf(e, ts[i]) == StubOf(e, us[i])
  {
    if ts != [] {
      if Written(e.kind, ts[0]) {
        HandleBytesCancel(e, ts[0], us[0], Body(e, ts[1..]), Body(e, us[1..]));
      } else {
        assert Body(e, ts) == Body(e, ts[1..]) && Body(e, us) == Body(e, us[1..]);
      }
      BodyCancel(e, ts[1..], us[1..]);
      forall i | 0 <= i < |ts|
        ensures StubOf(e, ts[i]) == StubOf(e, us[i])
      {
        if i > 0 {
          assert ts[i] == ts[1..][i - 1] && us[i] == us[1..][i - 1];
        }
      }
    }
  }

  lemma HeaderCancel<L(!new), A(!new)>(k: Kind, ts: seq<Tree<L, A>>, us: seq<Tree<L, A>>, x: Bytes, y: Bytes)
    requires Fits(k, |ts|) && Fits(k, |us|)
    requires Header(k, ts) + x == Header(k, us) + y
    ensures |ts| == |us| && x == y
    ensures forall i :: 0 <= i < |ts| ==> (Written(k, ts[i]) <==> Written(k, us[i]))
  {
    var b, c, n := Header(k, ts) + x, Header(k, us) + y, if k.Wide? then 2 else 1;
    assert b[..n] == Header(k, ts) && c[..n] == Header(k, us) && b[n..] == x && c[n..] == y;
    if !k.Two3? {
      var w := |ts|;
      if k.Wide? {
        MaskRoundTrip(MaskUpTo(ts, 16));
        MaskRoundTrip(MaskUpTo(us, 16));
      } else {
        SmallMask(ts);
        SmallMask(us);
      }
      forall i | 0 <= i < w
        ensures ts[i].Empty? <==> us[i].Empty?
      {
        MaskBit(ts, w, i);
        MaskBit(us, w, i);
      }
    }
  }

  /** The mask of a four-slot node fits in one byte. */
  lemma SmallMask<L(!new), A(!new)>(kids: seq<Tree<L, A>>)
    requires |kids| == 4
    ensures ((MaskUpTo(kids, 4) & 0xFF) as bv8) as bv16 == MaskUpTo(kids, 4)
  {
    assert MaskUpTo(kids, 0) == 0;
    assert MaskUpTo(kids, 1) & 0xFFFE == 0;
    assert MaskUpTo(kids, 2) & 0xFFFC == 0;
    assert MaskUpTo(kids, 3) & 0xFFF8 == 0;
    assert MaskUpTo(kids, 4) & 0xFFF0 == 0;
  }

  /** Nodes of one kind with equal bytes agree on every child, up to the digest of child nodes. */
  lemma NodeBytesInjective<L(!new), A(!new)>(e: Env<L, A>, ts: seq<Tree<L, A>>, us: seq<Tree<L, A>>)
    requires e.Lawful()
    requires Fits(e.kind, |ts|) && Fits(e.kind, |us|)
    requires NodeBytes(e, ts) == NodeBytes(e, us)
    ensures |ts| == |us|
    ensures forall i :: 0 <= i < |ts| ==> StubOf(e, ts[i]) == StubOf(e, us[i])
  {
    HeaderCancel(e.kind, ts, us, Body(e, ts), Body(e, us));
    BodyCancel(e, ts, us);
  }

  // ---- what a store has to hold

  type Blobs = map<Bytes, Bytes>

  /** The store resolves this node and every node below it. */
  ghost predicate Stored<L(!new), A(!new)>(e: Env<L, A>, s: Blobs, kids: seq<Tree<L, A>>) {
    && Fits(e.kind, |kids|)
    && Digest(e, kids) in s
    && s[Digest(e, kids)] == NodeBytes(e, kids)
    && forall i :: 0 <= i < |kids| && kids[i].Node? ==> Stored(e, s, kids[i].kids)
  }

  ghost predicate ChildrenStored<L(!new), A(!new)>(e: Env<L, A>, s: Blobs, kids: seq<Tree<L, A>>) {
    forall i :: 0 <= i < |kids| && kids[i].Node? ==> Stored(e, s, kids[i].kids)
  }

  /** The serializations of a node and of every node below it. */
  ghost function BlobsOf<L(!new), A(!new)>(e: Env<L, A>, kids: seq<Tree<L, A>>): set<Bytes>
    decreases kids, 0
  {
    {NodeBytes(e, kids)} + set i, b | 0 <= i < |kids| && b in BlobsUnder(e, kids[i]) :: b
  }

  ghost function BlobsUnder<L(!new), A(!new)>(e: Env<L, A>, t: Tree<L, A>): set<Bytes>
    decreases t, 1
  {
    if t.Node? then BlobsOf(e, t.kids) else {}
  }

  ghost predicate Extends(s: Blobs, t: Blobs) {
    forall d :: d in s ==> d in t && t[d] == s[d]
  }

  ghost predicate CollisionFree<L(!new), A(!new)>(e: Env<L, A>, bs: set<Bytes>) {
    forall x, y :: x in bs && y in bs && e.hash(x) == e.hash(y) ==> x == y
  }

  /** A snapshot stays resolvable as the store grows. */
  lemma {:induction false} StoredExtends<L(!new), A(!new)>(e: Env<L, A>, s: Blobs, t: Blobs, kids: seq<Tree<L, A>>)
    requires Stored(e, s, kids) && Extends(s, t)
    ensures Stored(e, t, kids)
  {
    forall i | 0 <= i < |kids| && kids[i].Node?
      ensures Stored(e, t, kids[i].kids)
    {
      StoredExtends(e, s, t, kids[i].kids);
    }
  }

  /** Every blob is stored under its own hash. */
  ghost predicate Addressed<L(!new), A(!new)>(e: Env<L, A>, s: Blobs) {
    forall d :: d in s ==> d == e.hash(s[d])
  }

  /** The store can take the blobs `bs`: none of them and of those already there collide. */
  ghost predicate Room<L(!new), A(!new)>(e: Env<L, A>, s: Blobs, bs: set<Bytes>) {
    Addressed(e, s) && CollisionFree(e, s.Values + bs)
  }

  /** `t` is what `s` becomes by storing blobs out of `bs`. */
  ghost predicate Grew<L(!new), A(!new)>(e: Env<L, A>, s: Blobs, t: Blobs, bs: set<Bytes>) {
    Extends(s, t) && Addressed(e, t) && t.Values <= s.Values + bs
  }

  lemma GrewTwice<L(!new), A(!new)>(e: Env<L, A>, s: Blobs, t: Blobs, u: Blobs, bs: set<Bytes>, cs: set<Bytes>)
    requires Grew(e, s, t, bs) && Grew(e, t, u, cs) && cs <= bs
    ensures Grew(e, s, u, bs)
  {
  }

  lemma GrewExtends<L(!new), A(!new)>(e: Env<L, A>, s: Blobs, t: Blobs, bs: set<Bytes>)
    requires Grew(e, s, t, bs)
    ensures Extends(s, t)
  {
  }

  lemma RoomKept<L(!new), A(!new)>(e: Env<L, A>, s: Blobs, t: Blobs, bs: set<Bytes>, cs: set<Bytes>)
    requires Room(e, s, bs) && Grew(e, s, t, bs) && cs <= bs
    ensures Room(e, t, cs)
  {
  }

  /** Once its children are stored, putting a node's own bytes stores the node. */
  lemma PutStores<L(!new), A(!new)>(e: Env<L, A>, s: Blobs, t: Blobs, kids: seq<Tree<L, A>>)
    requires Fits(e.kind, |kids|)
    requires Room(e, s, BlobsOf(e, kids))
    requires t == if Digest(e, kids) in s then s else s[Digest(e, kids) := NodeBytes(e, kids)]
    requires ChildrenStored(e, s, kids)
    ensures Grew(e, s, t, BlobsOf(e, kids)) && Stored(e, t, kids)
  {
    var d, b := Digest(e, kids), NodeBytes(e, kids);
    assert b in BlobsOf(e, kids);
    if d in s {
      assert s[d] in s.Values;
      assert s[d] == b;
    }
    ChildrenStoredExtends(e, s, t, kids);
  }

  lemma ChildrenStoredExtends<L(!new), A(!new)>(e: Env<L, A>, s: Blobs, t: Blobs, kids: seq<Tree<L, A>>)
    requires ChildrenStored(e, s, kids) && Extends(s, t)
    ensures ChildrenStored(e, t, kids)
  {
    forall i | 0 <= i < |kids| && kids[i].Node?
      ensures Stored(e, t, kids[i].kids)
    {
      StoredExtends(e, s, t, kids[i].kids);
    }
  }
}
