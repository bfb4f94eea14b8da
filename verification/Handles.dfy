/** src/handle.rs: handles, lazy loading, annotation upkeep, persisting and hashing. */
module Handles {
  import opened Trees
  import opened Content
  import opened Store

  datatype Handle<+L, +A> =
    | None
    | Leaf(leaf: L)
    | Node(kids: seq<Handle<L, A>>, ann: A, cached: Option<Bytes>)
    | Persisted(digest: Bytes, ann: A)

  /** Handle `h`, read against store contents `s`, stands for tree `t`. Every cached hash is right. */
  ghost predicate Represents<L(!new), A(!new)>(e: Env<L, A>, s: Blobs, h: Handle<L, A>, t: Tree<L, A>)
    decreases t, 1
  {
    match t
    case Empty => h.None?
    case Leaf(l) => h == Handle.Leaf(l)
    case Node(a, ts) =>
      match h
      case Node(kids, b, cached) => b == a && (cached.Some? ==> cached.value == Digest(e, ts)) && Holds(e, s, kids, ts)
      case Persisted(d, b) => b == a && d == Digest(e, ts) && Stored(e, s, ts)
      case _ => false
  }

  /** A node in memory stands for a node of the tree. */
  ghost predicate Holds<L(!new), A(!new)>(e: Env<L, A>, s: Blobs, kids: seq<Handle<L, A>>, ts: seq<Tree<L, A>>)
    decreases ts, 0
  {
    && Fits(e.kind, |ts|)
    && |kids| == |ts|
    && forall i :: 0 <= i < |ts| ==> Represents(e, s, kids[i], ts[i])
  }

  lemma {:induction false} HoldsExtends<L(!new), A(!new)>(e: Env<L, A>, s: Blobs, u: Blobs, kids: seq<Handle<L, A>>,
      ts: seq<Tree<L, A>>)
    requires Holds(e, s, kids, ts) && Extends(s, u)
    ensures Holds(e, u, kids, ts)
    decreases ts, 0
  {
    forall i | 0 <= i < |ts|
      ensures Represents(e, u, kids[i], ts[i])
    {
      RepresentsExtends(e, s, u, kids[i], ts[i]);
    }
  }

  lemma {:induction false} RepresentsExtends<L(!new), A(!new)>(e: Env<L, A>, s: Blobs, u: Blobs, h: Handle<L, A>,
      t: Tree<L, A>)
    requires Represents(e, s, h, t) && Extends(s, u)
    ensures Represents(e, u, h, t)
    decreases t, 1
  {
    match h
    case Node(kids, _, _) => HoldsExtends(e, s, u, kids, t.kids);
    case Persisted(_, _) => StoredExtends(e, s, u, t.kids);
    case _ =>
  }

  lemma HoldsUpdate<L(!new), A(!new)>(e: Env<L, A>, s: Blobs, kids: seq<Handle<L, A>>, ts: seq<Tree<L, A>>,
      i: nat, h: Handle<L, A>, t: Tree<L, A>)
    requires Holds(e, s, kids, ts) && i < |ts| && Represents(e, s, h, t)
    ensures |kids| == |ts| && Holds(e, s, kids[i := h], ts[i := t])
  {
  }

  // ---- annotations

  function Annotation<L(!new), A(!new)>(e: Env<L, A>, h: Handle<L, A>): Option<A> {
    match h
    case None => Option.None
    case Leaf(l) => Some(e.from(l))
    case Node(_, a, _) => Some(a)
    case Persisted(_, a) => Some(a)
  }

  /** `Combine::combine` over the children of a node. */
  method Combined<L(!new), A(!new)>(e: Env<L, A>, ghost s: Blobs, kids: seq<Handle<L, A>>, ghost ts: seq<Tree<L, A>>)
    returns (r: Option<A>)
    requires Holds(e, s, kids, ts)
    ensures r == Combine(e, ts)
  {
    r := Option.None;
    for i := 0 to |kids|
      invariant r == Combine(e, ts[..i])
    {
      assert ts[..i + 1][..i] == ts[..i];
      assert Represents(e, s, kids[i], ts[i]);
      var a := Annotation(e, kids[i]);
      if a.Some? {
        r := if r.None? then a else Some(e.op(r.value, a.value));
      }
    }
    assert ts[..|kids|] == ts;
  }

  method NewNode<L(!new), A(!new)>(e: Env<L, A>, ghost s: Blobs, kids: seq<Handle<L, A>>, ghost ts: seq<Tree<L, A>>)
    returns (h: Handle<L, A>)
    requires Holds(e, s, kids, ts)
    requires Combine(e, ts).Some?
    ensures h == Handle.Node(kids, Combine(e, ts).value, Option.None)
    ensures Represents(e, s, h, Tree.Node(Combine(e, ts).value, ts))
  {
    var a := Combined(e, s, kids, ts);
    h := Handle.Node(kids, a.value, Option.None);
  }

  /** `HandleMut::drop` after the node behind a handle was written to: forget the hash, redo the annotation. */
  method DropMut<L(!new), A(!new)>(e: Env<L, A>, ghost s: Blobs, kids: seq<Handle<L, A>>, ann: A,
      ghost ts: seq<Tree<L, A>>)
    returns (h: Handle<L, A>)
    requires Holds(e, s, kids, ts)
    ensures h == Handle.Node(kids, Combine(e, ts).Or(ann), Option.None)
    ensures Represents(e, s, h, Tree.Node(Combine(e, ts).Or(ann), ts))
  {
    var a := Combined(e, s, kids, ts);
    h := Handle.Node(kids, a.Or(ann), Option.None);
  }

  // ---- restoring

  /** The handle read back from a child's bytes: nodes come back unloaded. */
  ghost function Unloaded<L(!new), A(!new)>(e: Env<L, A>, t: Tree<L, A>): Handle<L, A> {
    match t
    case Empty => Handle.None
    case Leaf(l) => Handle.Leaf(l)
    case Node(a, kids) => Persisted(Digest(e, kids), a)
  }

  /** Decoding from the front of `b`: the value, and what follows it. */
  function Decoded<T>(c: Codec<T>, b: Bytes): Option<(T, Bytes)> {
    match c.dec(b)
    case None => Option.None
    case Some((t, n)) => if n <= |b| then Some((t, b[n..])) else Option.None
  }

  lemma DecodedBack<T(!new)>(c: Codec<T>, t: T, tail: Bytes)
    requires PrefixExact(c)
    ensures Decoded(c, c.enc(t) + tail) == Some((t, tail))
  {
    assert (c.enc(t) + tail)[|c.enc(t)|..] == tail;
  }

  /** A handle at the front of `b`; a node comes as its digest and annotation. Other tags than these three are
      invalid. */
  function ParseHandle<L(!new), A(!new)>(e: Env<L, A>, b: Bytes): Option<(Handle<L, A>, Bytes)> {
    if b == [] then Option.None
    else if b[0] == 0 then Some((Handle.None, b[1..]))
    else if b[0] == 1 then ParseLeaf(e, b[1..])
    else if b[0] == 2 then ParseStub(e, b[1..])
    else Option.None
  }

  function ParseLeaf<L(!new), A(!new)>(e: Env<L, A>, b: Bytes): Option<(Handle<L, A>, Bytes)> {
    match Decoded(e.leaf, b)
    case None => Option.None
    case Some((l, rest)) => Some((Handle.Leaf(l), rest))
  }

  function ParseStub<L(!new), A(!new)>(e: Env<L, A>, b: Bytes): Option<(Handle<L, A>, Bytes)> {
    if |b| < e.digestLen then Option.None
    else
      match Decoded(e.ann, b[e.digestLen..])
      case None => Option.None
      case Some((a, rest)) => Some((Persisted(b[..e.digestLen], a), rest))
  }

  /** What the first byte says: 0 is an empty slot, 1 a leaf, 2 a digest and an annotation, and nothing else is
      accepted. */
  lemma HandleRead<L(!new), A(!new)>(e: Env<L, A>, b: Bytes)
    ensures match ParseHandle(e, b)
            case None => b == [] || b[0] as nat != 0
            case Some((h, rest)) =>
              && |rest| < |b| && b[|b| - |rest|..] == rest && b[0] as nat <= 2
              && (b[0] as nat == 0 ==> h.None? && |rest| == |b| - 1)
              && (b[0] as nat == 1 ==> h.Leaf? && e.leaf.dec(b[1..]) == Some((h.leaf, |b| - 1 - |rest|)))
              && (b[0] as nat == 2 ==>
                    && h.Persisted? && e.digestLen < |b| && h.digest == b[1..e.digestLen + 1]
                    && e.ann.dec(b[e.digestLen + 1..]) == Some((h.ann, |b| - 1 - e.digestLen - |rest|)))
  {
    if b != [] && b[0] == 2 && |b| > e.digestLen {
      assert b[1..][..e.digestLen] == b[1..e.digestLen + 1] && b[1..][e.digestLen..] == b[e.digestLen + 1..];
    }
  }

  /** Every handle written is read back, whatever follows it. */
  lemma HandleParses<L(!new), A(!new)>(e: Env<L, A>, t: Tree<L, A>, tail: Bytes)
    requires e.Lawful()
    ensures ParseHandle(e, HandleBytes(e, t) + tail) == Some((Unloaded(e, t), tail))
  {
    hide NodeBytes;
    var b := HandleBytes(e, t) + tail;
    assert b[0] == HandleBytes(e, t)[0] && b[1..] == HandleBytes(e, t)[1..] + tail;
    match t
    case Empty =>
    case Leaf(l) =>
      assert b[1..] == e.leaf.enc(l) + tail;
      DecodedBack(e.leaf, l, tail);
    case Node(a, kids) =>
      var d := Digest(e, kids);
      assert |d| == e.digestLen && b[1..] == d + (e.ann.enc(a) + tail);
      assert b[1..][..|d|] == d && b[1..][|d|..] == e.ann.enc(a) + tail;
      DecodedBack(e.ann, a, tail);
  }

  /** What comes of reading a node: bytes that are none are an error, a 2-3 node with more than its three children
      overflows the array they are pushed into, and a digest may not be there at all. */
  datatype Restored<+T> = Back(value: T) | Invalid | Overflow | Missing

  /** Number of slots, and mask of those that were written. */
  function ParseHeader(k: Kind, b: Bytes): Option<(nat, bv16, Bytes)>
    ensures ParseHeader(k, b).Some? && !k.Two3? ==> ParseHeader(k, b).value.0 <= 16
  {
    match k
    case Two3 => if |b| < 1 then Option.None else Some((b[0] as nat, 0, b[1..]))
    case Wide => if |b| < 2 then Option.None else Some((16, BytesMask(b[0], b[1]), b[2..]))
    case Narrow => if |b| < 1 then Option.None else Some((4, b[0] as bv16, b[1..]))
  }

  function ParseSlot<L(!new), A(!new)>(e: Env<L, A>, mask: bv16, i: nat, b: Bytes): Restored<(Handle<L, A>, Bytes)>
    requires e.kind.Two3? || i < 16
  {
    if e.kind.Two3? || mask & Bit(i) != 0 then
      match ParseHandle(e, b)
      case None => Invalid
      case Some((h, rest)) => if e.kind.Two3? && i >= 3 then Overflow else Back((h, rest))
    else Back((Handle.None, b))
  }

  /** The header by number, and which slots it announces. */
  lemma HeaderRead(k: Kind, b: Bytes)
    ensures ParseHeader(k, b).Some? <==> |b| >= if k.Wide? then 2 else 1
    ensures ParseHeader(k, b).Some? ==>
            var (width, mask, rest) := ParseHeader(k, b).value;
            match k
            case Two3 => width == b[0] as nat && rest == b[1..]
            case Wide => width == 16 && mask as nat == 256 * (b[0] as nat) + b[1] as nat && rest == b[2..]
            case Narrow => width == 4 && mask as nat == b[0] as nat && rest == b[1..]
  {
    if k.Wide? && |b| >= 2 {
      hide BytesMask;
      MaskRead(b[0], b[1]);
    }
  }

  lemma SlotRead<L(!new), A(!new)>(e: Env<L, A>, mask: bv16, i: nat, b: Bytes)
    requires !e.kind.Two3? && i < 16
    ensures !MaskOneAt(mask, i) ==> ParseSlot(e, mask, i, b) == Back((Handle.None, b))
    ensures MaskOneAt(mask, i) ==>
            match ParseHandle(e, b)
            case None => ParseSlot(e, mask, i, b) == Invalid
            case Some(x) => ParseSlot(e, mask, i, b) == Back(x)
  {
    hide ParseHandle, MaskOneAt, Bit;
    BitTest(mask, i);
  }

  /** The slots from `i` on. */
  function ParseSlots<L(!new), A(!new)>(e: Env<L, A>, mask: bv16, i: nat, width: nat,
      b: Bytes): Restored<(seq<Handle<L, A>>, Bytes)>
    requires e.kind.Two3? || width <= 16
    decreases width - i
  {
    if i >= width then Back(([], b))
    else
      match ParseSlot(e, mask, i, b)
      case Back((h, rest)) => Prepended(h, ParseSlots(e, mask, i + 1, width, rest))
      case Overflow => Overflow
      case _ => Invalid
  }

  function Prepended<T>(x: T, r: Restored<(seq<T>, Bytes)>): Restored<(seq<T>, Bytes)> {
    match r
    case Back((xs, rest)) => Back(([x] + xs, rest))
    case _ => r
  }

  function ParseNode<L(!new), A(!new)>(e: Env<L, A>, b: Bytes): Restored<(seq<Handle<L, A>>, Bytes)> {
    match ParseHeader(e.kind, b)
    case None => Invalid
    case Some((width, mask, rest)) => ParseSlots(e, mask, 0, width, rest)
  }

  ghost function AllUnloaded<L(!new), A(!new)>(e: Env<L, A>, ts: seq<Tree<L, A>>): seq<Handle<L, A>> {
    seq(|ts|, i requires 0 <= i < |ts| => Unloaded(e, ts[i]))
  }

  lemma HeaderParses<L(!new), A(!new)>(k: Kind, ts: seq<Tree<L, A>>, tail: Bytes)
    requires Fits(k, |ts|)
    ensures ParseHeader(k, Header(k, ts) + tail).Some?
    ensures var (width, mask, rest) := ParseHeader(k, Header(k, ts) + tail).value;
              width == |ts| && rest == tail && (!k.Two3? ==> mask == MaskUpTo(ts, |ts|))
  {
    hide MaskUpTo, BytesMask;
    var h := Header(k, ts);
    HeaderFront(h, tail);
    match k
    case Two3 => SmallLength(|ts|);
    case Wide => MaskRoundTrip(MaskUpTo(ts, 16));
    case Narrow => SmallMask(ts);
  }

  lemma HeaderFront(h: Bytes, tail: Bytes)
    ensures (h + tail)[|h|..] == tail && forall i :: 0 <= i < |h| ==> (h + tail)[i] == h[i]
  {
  }

  lemma SlotParses<L(!new), A(!new)>(e: Env<L, A>, mask: bv16, i: nat, ts: seq<Tree<L, A>>, tail: Bytes)
    requires e.Lawful() && Fits(e.kind, |ts|) && i < |ts|
    requires !e.kind.Two3? ==> mask == MaskUpTo(ts, |ts|)
    ensures ParseSlot(e, mask, i, Body(e, ts[i..]) + tail) == Back((Unloaded(e, ts[i]), Body(e, ts[i + 1..]) + tail))
  {
    hide Body, HandleBytes, ParseHandle, MaskUpTo, Bit;
    BodyStep(e, ts, i, tail);
    MaskWritten(e.kind, mask, i, ts);
    HandleParses(e, ts[i], Body(e, ts[i + 1..]) + tail);
  }

  lemma {:induction false} SlotsParse<L(!new), A(!new)>(e: Env<L, A>, mask: bv16, i: nat, ts: seq<Tree<L, A>>,
      tail: Bytes)
    requires e.Lawful() && Fits(e.kind, |ts|) && i <= |ts|
    requires !e.kind.Two3? ==> mask == MaskUpTo(ts, |ts|)
    ensures ParseSlots(e, mask, i, |ts|, Body(e, ts[i..]) + tail) == Back((AllUnloaded(e, ts[i..]), tail))
    decreases |ts| - i
  {
    if i == |ts| {
      assert Body(e, ts[i..]) + tail == tail;
    } else {
      hide Body, ParseSlot, MaskUpTo;
      SlotParses(e, mask, i, ts, tail);
      SlotsParse(e, mask, i + 1, ts, tail);
      assert AllUnloaded(e, ts[i..]) == [Unloaded(e, ts[i])] + AllUnloaded(e, ts[i + 1..]);
    }
  }

  /** Every node written is read back, whatever follows it, and nothing behind it is read. */
  lemma NodeParses<L(!new), A(!new)>(e: Env<L, A>, ts: seq<Tree<L, A>>, tail: Bytes)
    requires e.Lawful() && Fits(e.kind, |ts|)
    ensures ParseNode(e, NodeBytes(e, ts) + tail) == Back((AllUnloaded(e, ts), tail))
  {
    assert NodeBytes(e, ts) + tail == Header(e.kind, ts) + (Body(e, ts) + tail);
    HeaderParses(e.kind, ts, Body(e, ts) + tail);
    assert ts[0..] == ts;
    SlotsParse(e, MaskUpTo(ts, if e.kind.Two3? then 0 else |ts|), 0, ts, tail);
    if e.kind.Two3? {
      SlotsParse(e, 0, 0, ts, tail);
    }
  }

  method Decode<T>(c: Codec<T>, src: Source) returns (r: Option<T>)
    modifies src
    ensures match Decoded(c, old(src.rest))
            case None => r.None?
            case Some((t, rest)) => r == Some(t) && src.rest == rest
  {
    r := Option.None;
    var d := c.dec(src.rest);
    if d.Some? {
      var read := src.Read(d.value.1);
      if read.Some? {
        r := Some(d.value.0);
      }
    }
  }

  /** `Handle::restore`. */
  method RestoreHandle<L(!new), A(!new)>(e: Env<L, A>, src: Source) returns (r: Option<Handle<L, A>>)
    modifies src
    ensures match ParseHandle(e, old(src.rest))
            case None => r.None?
            case Some((h, rest)) => r == Some(h) && src.rest == rest
  {
    r := Option.None;
    var tag := src.Read(1);
    if tag.None? {
      return;
    }
    if tag.value == [0] {
      r := Some(Handle.None);
    } else if tag.value == [1] {
      var l := Decode(e.leaf, src);
      if l.Some? {
        r := Some(Handle.Leaf(l.value));
      }
    } else if tag.value == [2] {
      var d := src.Read(e.digestLen);
      if d.Some? {
        var a := Decode(e.ann, src);
        if a.Some? {
          r := Some(Persisted(d.value, a.value));
        }
      }
    }
  }

  /** Reads a node's header: how many slots it has and which of them were written. */
  method RestoreHeader(k: Kind, src: Source) returns (r: Option<(nat, bv16)>)
    modifies src
    ensures match ParseHeader(k, old(src.rest))
            case None => r.None?
            case Some((width, mask, rest)) => r == Some((width, mask)) && src.rest == rest
  {
    r := Option.None;
    var bytes := src.Read(if k.Wide? then 2 else 1);
    if bytes.Some? {
      match k
      case Two3 => r := Some((bytes.value[0] as nat, 0));
      case Wide => r := Some((16, BytesMask(bytes.value[0], bytes.value[1])));
      case Narrow => r := Some((4, bytes.value[0] as bv16));
    }
  }

  method RestoreSlot<L(!new), A(!new)>(e: Env<L, A>, src: Source, mask: bv16, i: nat)
    returns (r: Restored<Handle<L, A>>)
    requires e.kind.Two3? || i < 16
    modifies src
    ensures match ParseSlot(e, mask, i, old(src.rest))
            case Back((h, rest)) => r == Back(h) && src.rest == rest
            case Invalid => r.Invalid?
            case Overflow => r.Overflow?
            case Missing => false
  {
    r := Back(Handle.None);
    if e.kind.Two3? || mask & Bit(i) != 0 {
      var h := RestoreHandle(e, src);
      if h.None? {
        r := Invalid;
      } else if e.kind.Two3? && i >= 3 {
        r := Overflow;
      } else {
        r := Back(h.value);
      }
    }
  }

  /** `restore` of a node, from any bytes. */
  method RestoreNode<L(!new), A(!new)>(e: Env<L, A>, src: Source) returns (r: Restored<seq<Handle<L, A>>>)
    modifies src
    ensures match ParseNode(e, old(src.rest))
            case Back((kids, rest)) => r == Back(kids) && src.rest == rest
            case Invalid => r.Invalid?
            case Overflow => r.Overflow?
            case Missing => false
  {
    var header := RestoreHeader(e.kind, src);
    if header.None? {
      return Invalid;
    }
    var (width, mask) := header.value;
    ghost var body := src.rest;
    var kids := [];
    PrependedNone(ParseSlots(e, mask, 0, width, body));
    hide ParseSlot;
    for i := 0 to width
      invariant |kids| == i
      invariant ParseSlots(e, mask, 0, width, body) == AllPrepended(kids, ParseSlots(e, mask, i, width, src.rest))
    {
      var slot := RestoreSlot(e, src, mask, i);
      match slot
      case Back(h) =>
        PrependedLast(kids, h, ParseSlots(e, mask, i + 1, width, src.rest));
        kids := kids + [h];
      case Overflow =>
        return Overflow;
      case _ =>
        return Invalid;
    }
    assert kids + [] == kids;
    r := Back(kids);
  }

  function AllPrepended<T>(xs: seq<T>, r: Restored<(seq<T>, Bytes)>): Restored<(seq<T>, Bytes)> {
    match r
    case Back((ys, rest)) => Back((xs + ys, rest))
    case _ => r
  }

  lemma PrependedNone<T>(r: Restored<(seq<T>, Bytes)>)
    ensures AllPrepended([], r) == r
  {
    if r.Back? {
      assert [] + r.value.0 == r.value.0;
    }
  }

  lemma PrependedLast<T>(xs: seq<T>, x: T, r: Restored<(seq<T>, Bytes)>)
    ensures AllPrepended(xs, Prepended(x, r)) == AllPrepended(xs + [x], r)
  {
    if r.Back? {
      assert xs + ([x] + r.value.0) == (xs + [x]) + r.value.0;
    }
  }

  /** `Snapshot::restore`: looks the digest up and decodes the node at the front of what the store returns. It gives a
      node that stands for the tree stored under the digest, if there is one. */
  method Load<L(!new), A(!new)>(e: Env<L, A>, store: Store, digest: Bytes) returns (r: Restored<seq<Handle<L, A>>>)
    requires e.Lawful() && store.Valid()
    ensures r.Missing? <==> digest !in store.blobs
    ensures forall ts :: Stored(e, store.blobs, ts) && digest == Digest(e, ts) ==>
                           r.Back? && Holds(e, store.blobs, r.value, ts)
  {
    var src := store.Get(digest);
    if src.None? {
      return Missing;
    }
    ghost var tail :| src.value.rest == store.blobs[digest] + tail;
    r := RestoreNode(e, src.value);
    forall ts | Stored(e, store.blobs, ts) && digest == Digest(e, ts)
      ensures r.Back? && Holds(e, store.blobs, r.value, ts)
    {
      NodeParses(e, ts, tail);
      UnloadedHolds(e, store.blobs, ts);
    }
  }

  lemma UnloadedHolds<L(!new), A(!new)>(e: Env<L, A>, s: Blobs, ts: seq<Tree<L, A>>)
    requires Stored(e, s, ts)
    ensures Holds(e, s, AllUnloaded(e, ts), ts)
  {
    forall i | 0 <= i < |ts|
      ensures Represents(e, s, Unloaded(e, ts[i]), ts[i])
    {
    }
  }

  /** `Handle::inner_mut`: a persisted child is loaded in place; the handle keeps its meaning. */
  method InnerMut<L(!new), A(!new)>(e: Env<L, A>, store: Store, h: Handle<L, A>, ghost t: Tree<L, A>)
    returns (r: Handle<L, A>)
    requires e.Lawful() && store.Valid()
    requires Represents(e, store.blobs, h, t)
    ensures Represents(e, store.blobs, r, t)
    ensures !r.Persisted?
  {
    match h
    case Persisted(d, a) =>
      var kids := Load(e, store, d);
      r := Handle.Node(kids.value, a, Option.None);
    case _ =>
      r := h;
  }

  // ---- persisting and hashing

  ghost predicate Ready<L(!new), A(!new)>(e: Env<L, A>, sink: Sink, bs: set<Bytes>)
    reads sink, sink.store
  {
    && sink.store.Valid()
    && (!sink.mode.DryRun? ==> Room(e, sink.store.blobs, bs))
  }

  /** Persists one handle to a sink. A dry run only hashes, and caches the hashes it computes;
      a writing run puts every node below in the store and leaves digests in their place. */
  method PersistHandle<L(!new), A(!new)>(e: Env<L, A>, h: Handle<L, A>, sink: Sink, ghost t: Tree<L, A>)
    returns (r: Handle<L, A>)
    requires e.Lawful() && Ready(e, sink, BlobsUnder(e, t))
    requires Represents(e, sink.store.blobs, h, t)
    modifies sink`bytes, if sink.mode.DryRun? then {} else {sink.store}
    ensures sink.store.Valid()
    ensures sink.bytes == old(sink.bytes) + HandleBytes(e, t)
    ensures Represents(e, sink.store.blobs, r, t)
    ensures !sink.mode.DryRun? ==>
      && Grew(e, old(sink.store.blobs), sink.store.blobs, BlobsUnder(e, t))
      && ChildrenStored(e, sink.store.blobs, [t])
      && !r.Node?
    decreases t, 1
  {
    match h
    case None =>
      sink.Write([0]);
      r := h;
    case Leaf(l) =>
      sink.Write([1] + e.leaf.enc(l));
      r := h;
    case Persisted(d, a) =>
      sink.Write([2] + d + e.ann.enc(a));
      r := h;
    case Node(kids, a, cached) =>
      if sink.mode.DryRun? {
        var d, hashed := HashNode(e, kids, cached, sink.store, t.kids);
        r := Handle.Node(hashed, a, Some(d));
        sink.Write([2] + d + e.ann.enc(a));
      } else {
        var d := StoreNode(e, kids, cached, sink.store, t.kids);
        r := Persisted(d, a);
        sink.Write([2] + d + e.ann.enc(a));
      }
  }

  /** The hash of a node, out of its cache or worked out by a dry run. */
  method HashNode<L(!new), A(!new)>(e: Env<L, A>, kids: seq<Handle<L, A>>, cached: Option<Bytes>, store: Store,
      ghost ts: seq<Tree<L, A>>)
    returns (d: Bytes, kids': seq<Handle<L, A>>)
    requires e.Lawful() && store.Valid() && Holds(e, store.blobs, kids, ts)
    requires cached.Some? ==> cached.value == Digest(e, ts)
    ensures d == Digest(e, ts) && Holds(e, store.blobs, kids', ts)
    decreases ts, 3
  {
    hide Holds, NodeBytes;
    if cached.Some? {
      d, kids' := cached.value, kids;
    } else {
      var sub := new Sink(store, DryRun);
      kids' := PersistNode(e, kids, sub, ts);
      assert sub.bytes == NodeBytes(e, ts);
      d := sub.Fin(e);
    }
  }

  /** Writes a node to the store and returns the digest it is stored under. */
  method StoreNode<L(!new), A(!new)>(e: Env<L, A>, kids: seq<Handle<L, A>>, cached: Option<Bytes>, store: Store,
      ghost ts: seq<Tree<L, A>>)
    returns (d: Bytes)
    requires e.Lawful() && store.Valid()
    requires Room(e, store.blobs, BlobsOf(e, ts))
    requires Holds(e, store.blobs, kids, ts)
    requires cached.Some? ==> cached.value == Digest(e, ts)
    modifies store
    ensures store.Valid() && Grew(e, old(store.blobs), store.blobs, BlobsOf(e, ts))
    ensures d == Digest(e, ts) && Stored(e, store.blobs, ts)
    decreases ts, 3
  {
    assert Fits(e.kind, |ts|);
    hide Room, Grew, BlobsOf, Stored, Represents, Holds, ChildrenStored, NodeBytes, Wrote;
    var sub := new Sink(store, if cached.Some? then WritingCached(cached.value) else Writing);
    var _ := PersistNode(e, kids, sub, ts);
    ghost var s := store.blobs;
    assert sub.bytes == NodeBytes(e, ts);
    d := sub.Fin(e);
    NodeStored(e, old(store.blobs), s, store.blobs, ts);
  }

  method PersistNode<L(!new), A(!new)>(e: Env<L, A>, kids: seq<Handle<L, A>>, sink: Sink, ghost ts: seq<Tree<L, A>>)
    returns (r: seq<Handle<L, A>>)
    requires e.Lawful() && Ready(e, sink, BlobsOf(e, ts))
    requires Holds(e, sink.store.blobs, kids, ts)
    modifies sink`bytes, if sink.mode.DryRun? then {} else {sink.store}
    ensures sink.store.Valid()
    ensures sink.bytes == old(sink.bytes) + NodeBytes(e, ts)
    ensures Holds(e, sink.store.blobs, r, ts)
    ensures !sink.mode.DryRun? ==> Wrote(e, old(sink.store.blobs), sink.store.blobs, ts, |ts|)
    decreases ts, 2
  {
    hide Room, Represents, Wrote, Body, Header;
    ghost var before := sink.bytes;
    var mask := PersistHeader(e, kids, sink, ts);
    r := PersistBody(e, kids, mask, sink, ts);
    Reassociate(before, Header(e.kind, ts), Body(e, ts));
  }

  /** The store went from `s` to `u` by writing the first `n` children. */
  ghost predicate Wrote<L(!new), A(!new)>(e: Env<L, A>, s: Blobs, u: Blobs, ts: seq<Tree<L, A>>, n: nat)
    requires n <= |ts|
  {
    Grew(e, s, u, BlobsOf(e, ts)) && ChildrenStored(e, u, ts[..n])
  }

  /** Once its children are written, putting the node's own bytes stores it. */
  lemma NodeStored<L(!new), A(!new)>(e: Env<L, A>, s: Blobs, t: Blobs, u: Blobs, ts: seq<Tree<L, A>>)
    requires Fits(e.kind, |ts|) && Room(e, s, BlobsOf(e, ts)) && Wrote(e, s, t, ts, |ts|)
    requires u == if Digest(e, ts) in t then t else t[Digest(e, ts) := NodeBytes(e, ts)]
    ensures Grew(e, s, u, BlobsOf(e, ts)) && Stored(e, u, ts) && Extends(t, u)
  {
    hide Room, Grew, BlobsOf, Stored, NodeBytes, Digest;
    assert ts[..|ts|] == ts;
    RoomKept(e, s, t, BlobsOf(e, ts), BlobsOf(e, ts));
    PutStores(e, t, u, ts);
    GrewTwice(e, s, t, u, BlobsOf(e, ts), BlobsOf(e, ts));
    GrewExtends(e, t, u, BlobsOf(e, ts));
  }

  method PersistBody<L(!new), A(!new)>(e: Env<L, A>, kids: seq<Handle<L, A>>, mask: bv16, sink: Sink,
      ghost ts: seq<Tree<L, A>>)
    returns (r: seq<Handle<L, A>>)
    requires e.Lawful() && Ready(e, sink, BlobsOf(e, ts))
    requires Holds(e, sink.store.blobs, kids, ts)
    requires !e.kind.Two3? ==> mask == MaskUpTo(ts, |ts|)
    modifies sink`bytes, if sink.mode.DryRun? then {} else {sink.store}
    ensures sink.store.Valid()
    ensures sink.bytes == old(sink.bytes) + Body(e, ts)
    ensures Holds(e, sink.store.blobs, r, ts)
    ensures !sink.mode.DryRun? ==> Wrote(e, old(sink.store.blobs), sink.store.blobs, ts, |ts|)
    decreases ts, 1
  {
    r := kids;
    assert ts[0..] == ts;
    assert !sink.mode.DryRun? ==> Wrote(e, sink.store.blobs, sink.store.blobs, ts, 0);
    hide Room, Grew, BlobsOf, Represents, Header;
    for i := 0 to |kids|
      invariant Ready(e, sink, BlobsOf(e, ts))
      invariant Holds(e, sink.store.blobs, r, ts)
      invariant sink.bytes + Body(e, ts[i..]) == old(sink.bytes) + Body(e, ts)
      invariant !sink.mode.DryRun? ==> Wrote(e, old(sink.store.blobs), sink.store.blobs, ts, i)
    {
      ghost var s := sink.store.blobs;
      var h := PersistSlot(e, r, mask, i, sink, ts);
      r := r[i := h];
      if !sink.mode.DryRun? {
        GrewTwice(e, old(sink.store.blobs), s, sink.store.blobs, BlobsOf(e, ts), BlobsOf(e, ts));
      }
    }
  }

  method PersistSlot<L(!new), A(!new)>(e: Env<L, A>, kids: seq<Handle<L, A>>, mask: bv16, i: nat, sink: Sink,
      ghost ts: seq<Tree<L, A>>)
    returns (h: Handle<L, A>)
    requires e.Lawful() && Ready(e, sink, BlobsOf(e, ts))
    requires Holds(e, sink.store.blobs, kids, ts) && i < |kids|
    requires !e.kind.Two3? ==> mask == MaskUpTo(ts, |ts|)
    requires !sink.mode.DryRun? ==> ChildrenStored(e, sink.store.blobs, ts[..i])
    modifies sink`bytes, if sink.mode.DryRun? then {} else {sink.store}
    ensures Ready(e, sink, BlobsOf(e, ts))
    ensures Holds(e, sink.store.blobs, kids[i := h], ts)
    ensures sink.bytes + Body(e, ts[i + 1..]) == old(sink.bytes) + Body(e, ts[i..])
    ensures !sink.mode.DryRun? ==> Wrote(e, old(sink.store.blobs), sink.store.blobs, ts, i + 1)
    decreases ts, 0
  {
    ghost var s := sink.store.blobs;
    assert Represents(e, s, kids[i], ts[i]);
    assert BlobsUnder(e, ts[i]) <= BlobsOf(e, ts);
    hide BlobsOf, Body, HandleBytes, Grew, Stored, MaskUpTo, Bit;
    BodyAfter(e, ts, i, sink.bytes);
    MaskWritten(e.kind, mask, i, ts);
    if e.kind.Two3? || mask & Bit(i) != 0 {
      h := PersistHandle(e, kids[i], sink, ts[i]);
    } else {
      h := kids[i];
    }
    SlotKept(e, s, sink.store.blobs, !sink.mode.DryRun?, kids, i, h, ts);
  }

  lemma SlotKept<L(!new), A(!new)>(e: Env<L, A>, s: Blobs, u: Blobs, writing: bool, kids: seq<Handle<L, A>>, i: nat,
      h: Handle<L, A>, ts: seq<Tree<L, A>>)
    requires Holds(e, s, kids, ts) && i < |kids|
    requires Represents(e, u, h, ts[i])
    requires !writing ==> s == u
    requires writing ==>
      && Room(e, s, BlobsOf(e, ts))
      && ChildrenStored(e, s, ts[..i])
      && Grew(e, s, u, BlobsUnder(e, ts[i])) && (ts[i].Node? ==> ChildrenStored(e, u, [ts[i]]))
    ensures Holds(e, u, kids[i := h], ts)
    ensures writing ==> Wrote(e, s, u, ts, i + 1) && Room(e, u, BlobsOf(e, ts))
  {
    if writing {
      assert BlobsUnder(e, ts[i]) <= BlobsOf(e, ts);
      GrewTwice(e, s, s, u, BlobsOf(e, ts), BlobsUnder(e, ts[i]));
      RoomKept(e, s, u, BlobsOf(e, ts), BlobsOf(e, ts));
      HoldsExtends(e, s, u, kids, ts);
      ChildrenStoredExtends(e, s, u, ts[..i]);
      assert ts[i].Node? ==> [ts[i]][0].Node?;
      forall j | 0 <= j < i + 1 && ts[j].Node?
        ensures Stored(e, u, ts[j].kids)
      {
        if j < i {
          assert ts[..i][j].Node?;
        }
      }
    }
  }

  /** The length byte, or the occupancy mask built slot by slot. */
  method PersistHeader<L(!new), A(!new)>(e: Env<L, A>, kids: seq<Handle<L, A>>, sink: Sink, ghost ts: seq<Tree<L, A>>)
    returns (mask: bv16)
    requires Holds(e, sink.store.blobs, kids, ts)
    modifies sink`bytes
    ensures sink.bytes == old(sink.bytes) + Header(e.kind, ts)
    ensures !e.kind.Two3? ==> mask == MaskUpTo(ts, |ts|)
  {
    mask := 0;
    if e.kind.Two3? {
      sink.Write([(|kids| % 256) as bv8]);
    } else {
      for i := 0 to |kids|
        invariant mask == MaskUpTo(ts, i)
      {
        assert Represents(e, sink.store.blobs, kids[i], ts[i]);
        if !kids[i].None? {
          mask := mask | Bit(i);
        }
      }
      sink.Write(if e.kind.Wide? then MaskBytes(mask) else [(mask & 0xFF) as bv8]);
    }
  }
}
