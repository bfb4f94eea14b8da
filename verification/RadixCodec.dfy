/** structures/radix/src/lib.rs: a node of the radix trie as bytes, seventeen handles and then sixteen prefixes. */
module RadixCodec {
  import opened Trees
  import opened Handles
  import opened Store
  import Nibbles
  import Radix

  /** A handle as it is written: a node is known by its digest. */
  predicate Stub<L(!new), A(!new)>(e: Env<L, A>, h: Handle<L, A>) {
    !h.Node? && (h.Persisted? ==> |h.digest| == e.digestLen)
  }

  ghost function StubBytes<L(!new), A(!new)>(e: Env<L, A>, h: Handle<L, A>): Bytes
    requires Stub(e, h)
  {
    match h
    case None => [0]
    case Leaf(l) => [1] + e.leaf.enc(l)
    case Persisted(d, a) => [2] + d + e.ann.enc(a)
  }

  lemma StubParses<L(!new), A(!new)>(e: Env<L, A>, h: Handle<L, A>, tail: Bytes)
    requires e.Lawful() && Stub(e, h)
    ensures ParseHandle(e, StubBytes(e, h) + tail) == Some((h, tail))
  {
    var b := StubBytes(e, h) + tail;
    assert b[0] == StubBytes(e, h)[0] && b[1..] == StubBytes(e, h)[1..] + tail;
    match h
    case None =>
    case Leaf(l) =>
      assert b[1..] == e.leaf.enc(l) + tail;
      DecodedBack(e.leaf, l, tail);
    case Persisted(d, a) =>
      assert b[1..] == d + (e.ann.enc(a) + tail);
      assert b[1..][..|d|] == d && b[1..][|d|..] == e.ann.enc(a) + tail;
      DecodedBack(e.ann, a, tail);
  }

  ghost predicate Stubs<L(!new), A(!new)>(e: Env<L, A>, hs: seq<Handle<L, A>>) {
    forall i :: 0 <= i < |hs| ==> Stub(e, hs[i])
  }

  ghost function StubsBytes<L(!new), A(!new)>(e: Env<L, A>, hs: seq<Handle<L, A>>): Bytes
    requires Stubs(e, hs)
  {
    if hs == [] then [] else StubBytes(e, hs[0]) + StubsBytes(e, hs[1..])
  }

  /** `n` handles off the front of `b`. */
  function ParseStubs<L(!new), A(!new)>(e: Env<L, A>, n: nat, b: Bytes): Option<(seq<Handle<L, A>>, Bytes)> {
    if n == 0 then Some(([], b))
    else
      match ParseHandle(e, b)
      case None => Option.None
      case Some((h, rest)) => Before([h], ParseStubs(e, n - 1, rest))
  }

  function Before<T>(xs: seq<T>, r: Option<(seq<T>, Bytes)>): Option<(seq<T>, Bytes)> {
    match r
    case None => Option.None
    case Some((ys, rest)) => Some((xs + ys, rest))
  }

  lemma BeforeBefore<T>(xs: seq<T>, ys: seq<T>, r: Option<(seq<T>, Bytes)>)
    ensures Before(xs, Before(ys, r)) == Before(xs + ys, r)
  {
    if r.Some? {
      assert xs + (ys + r.value.0) == xs + ys + r.value.0;
    }
  }

  lemma {:induction false} StubsParse<L(!new), A(!new)>(e: Env<L, A>, hs: seq<Handle<L, A>>, tail: Bytes)
    requires e.Lawful() && Stubs(e, hs)
    ensures ParseStubs(e, |hs|, StubsBytes(e, hs) + tail) == Some((hs, tail))
  {
    hide StubBytes, ParseHandle, PrefixExact;
    if hs == [] {
      assert StubsBytes(e, hs) + tail == tail;
    } else {
      Reassociate(StubBytes(e, hs[0]), StubsBytes(e, hs[1..]), tail);
      StubParses(e, hs[0], StubsBytes(e, hs[1..]) + tail);
      StubsParse(e, hs[1..], tail);
      assert hs == [hs[0]] + hs[1..];
    }
  }

  // ---- prefixes

  /** A nibble buffer: bytes, and the window on them. */
  datatype Buf = Buf(bytes: Bytes, front: nat, back: nat)

  predicate Valid(b: Buf) {
    b.front <= b.back <= 2 * |b.bytes|
  }

  /** Its offsets can be written in 16 bits. */
  predicate Short(b: Buf) {
    Valid(b) && b.back - b.front + b.front % 2 < 0x1_0000
  }

  function Shown(b: Buf): seq<nat>
    requires Valid(b)
  {
    Nibbles.Window(b.bytes, b.front, b.back)
  }

  /** The same nibbles, whatever lies around them. */
  ghost predicate Same(b: Buf, c: Buf) {
    Valid(b) && Valid(c) && Shown(b) == Shown(c)
  }

  function ParseBuf(b: Bytes): Option<(Buf, Bytes)> {
    if |b| < 4 then Option.None
    else
      var front, back := Nibbles.BytesU16(b[0], b[1]), Nibbles.BytesU16(b[2], b[3]);
      var n := (back + 1) / 2;
      if |b| < 4 + n then Option.None else Some((Buf(b[4..4 + n], front, back), b[4 + n..]))
  }

  ghost predicate AllValid(bs: seq<Buf>) {
    forall i :: 0 <= i < |bs| ==> Valid(bs[i])
  }

  ghost predicate AllShort(bs: seq<Buf>) {
    forall i :: 0 <= i < |bs| ==> Short(bs[i])
  }

  ghost predicate AllSame(bs: seq<Buf>, cs: seq<Buf>) {
    |bs| == |cs| && forall i :: 0 <= i < |bs| ==> Same(bs[i], cs[i])
  }

  function BufBytes(b: Buf): Bytes
    requires Valid(b)
  {
    Nibbles.Encoding(b.bytes, b.front, b.back)
  }

  ghost function BufsBytes(bs: seq<Buf>): Bytes
    requires AllValid(bs)
  {
    if bs == [] then []
    else
      assert Valid(bs[0]);
      BufBytes(bs[0]) + BufsBytes(bs[1..])
  }

  function ParseBufs(n: nat, b: Bytes): Option<(seq<Buf>, Bytes)> {
    if n == 0 then Some(([], b))
    else
      match ParseBuf(b)
      case None => Option.None
      case Some((buf, rest)) => Before([buf], ParseBufs(n - 1, rest))
  }

  lemma BufParses(b: Buf, tail: Bytes)
    requires Short(b)
    ensures var r := ParseBuf(BufBytes(b) + tail);
              r.Some? && Same(b, r.value.0) && r.value.1 == tail
  {
    hide Nibbles.Encoding, Nibbles.BytesU16, Nibbles.Window;
    var all := BufBytes(b) + tail;
    Nibbles.EncodingDecodes(b.bytes, b.front, b.back, tail);
    var (c, rest) := ParseBuf(all).value;
    assert all[4..] == c.bytes + rest;
    Nibbles.RoundTrip(b.bytes, b.front, b.back, tail, c.front, c.back, c.bytes, rest);
  }

  lemma {:induction false} BufsParse(bs: seq<Buf>, tail: Bytes)
    requires AllValid(bs) && AllShort(bs)
    ensures var r := ParseBufs(|bs|, BufsBytes(bs) + tail);
              r.Some? && AllSame(bs, r.value.0) && r.value.1 == tail
  {
    if bs == [] {
      assert BufsBytes(bs) + tail == tail;
    } else {
      hide BufBytes, ParseBuf, Same;
      assert Short(bs[0]);
      Reassociate(BufBytes(bs[0]), BufsBytes(bs[1..]), tail);
      BufParses(bs[0], BufsBytes(bs[1..]) + tail);
      BufsParse(bs[1..], tail);
      var (c, rest) := ParseBuf(BufsBytes(bs) + tail).value;
      SameNext(bs, c, ParseBufs(|bs| - 1, rest).value.0);
    }
  }

  lemma SameNext(bs: seq<Buf>, c: Buf, cs: seq<Buf>)
    requires bs != [] && Same(bs[0], c) && AllSame(bs[1..], cs)
    ensures AllSame(bs, [c] + cs)
  {
    forall i | 0 <= i < |bs|
      ensures Same(bs[i], ([c] + cs)[i])
    {
      assert i > 0 ==> Same(bs[1..][i - 1], cs[i - 1]);
    }
  }

  // ---- a node

  ghost predicate Writable<L(!new), A(!new)>(e: Env<L, A>, hs: seq<Handle<L, A>>, bs: seq<Buf>) {
    |hs| == Radix.N_BUCKETS && |bs| == Radix.N_BUCKETS - 1 && Stubs(e, hs) && AllValid(bs)
  }

  ghost function NodeBytes<L(!new), A(!new)>(e: Env<L, A>, hs: seq<Handle<L, A>>, bs: seq<Buf>): Bytes
    requires Writable(e, hs, bs)
  {
    StubsBytes(e, hs) + BufsBytes(bs)
  }

  function ParseNode<L(!new), A(!new)>(e: Env<L, A>, b: Bytes): Option<(seq<Handle<L, A>>, seq<Buf>, Bytes)> {
    match ParseStubs(e, Radix.N_BUCKETS, b)
    case None => Option.None
    case Some((hs, rest)) =>
      match ParseBufs(Radix.N_BUCKETS - 1, rest)
      case None => Option.None
      case Some((bs, end)) => Some((hs, bs, end))
  }

  lemma {:induction false} StubsConcat<L(!new), A(!new)>(e: Env<L, A>, a: seq<Handle<L, A>>, b: seq<Handle<L, A>>)
    requires Stubs(e, a) && Stubs(e, b)
    ensures Stubs(e, a + b) && StubsBytes(e, a + b) == StubsBytes(e, a) + StubsBytes(e, b)
  {
    hide StubBytes;
    if a == [] {
      assert a + b == b;
    } else {
      assert (a + b)[0] == a[0] && (a + b)[1..] == a[1..] + b;
      StubsConcat(e, a[1..], b);
      Reassociate(StubBytes(e, a[0]), StubsBytes(e, a[1..]), StubsBytes(e, b));
    }
  }

  lemma {:induction false} BufsConcat(a: seq<Buf>, b: seq<Buf>)
    requires AllValid(a) && AllValid(b)
    ensures AllValid(a + b) && BufsBytes(a + b) == BufsBytes(a) + BufsBytes(b)
  {
    if a == [] {
      assert a + b == b;
    } else {
      hide BufBytes, Valid;
      assert (a + b)[0] == a[0] && (a + b)[1..] == a[1..] + b;
      BufsConcat(a[1..], b);
      Reassociate(BufBytes(a[0]), BufsBytes(a[1..]), BufsBytes(b));
    }
  }

  /** The order on disk: handle by handle from slot 0 on, then prefix by prefix. Handle `i` is read where the handles
      before it end, and prefix `j` lies where all handles and the prefixes before it end. */
  lemma NodeOrder<L(!new), A(!new)>(e: Env<L, A>, hs: seq<Handle<L, A>>, bs: seq<Buf>, i: nat, j: nat)
    returns (before: Bytes, after: Bytes)
    requires e.Lawful() && Writable(e, hs, bs) && i < 17 && j < 16
    ensures Stubs(e, hs[..i]) && AllValid(bs[..j])
    ensures NodeBytes(e, hs, bs) == StubsBytes(e, hs[..i]) + before && ParseHandle(e, before).Some?
    ensures ParseHandle(e, before).value.0 == hs[i]
    ensures NodeBytes(e, hs, bs) ==
            StubsBytes(e, hs) + BufsBytes(bs[..j]) + Nibbles.Encoding(bs[j].bytes, bs[j].front, bs[j].back) + after
  {
    hide ParseHandle, StubBytes, Nibbles.Encoding, Valid;
    assert hs == hs[..i] + hs[i..] && bs == bs[..j] + bs[j..];
    StubsConcat(e, hs[..i], hs[i..]);
    BufsConcat(bs[..j], bs[j..]);
    before := StubsBytes(e, hs[i..]) + BufsBytes(bs);
    after := BufsBytes(bs[j + 1..]);
    assert hs[i..][0] == hs[i] && bs[j..][0] == bs[j] && bs[j..][1..] == bs[j + 1..];
    Reassociate(StubsBytes(e, hs[..i]), StubsBytes(e, hs[i..]), BufsBytes(bs));
    Reassociate(StubBytes(e, hs[i]), StubsBytes(e, hs[i..][1..]), BufsBytes(bs));
    StubParses(e, hs[i], StubsBytes(e, hs[i..][1..]) + BufsBytes(bs));
    Reassociate(BufsBytes(bs[..j]), BufBytes(bs[j]), after);
    Reassociate(StubsBytes(e, hs), BufsBytes(bs[..j]) + BufBytes(bs[j]), after);
    Reassociate(StubsBytes(e, hs), BufsBytes(bs[..j]), BufBytes(bs[j]));
  }

  /** A node is read back with all its handles and the nibbles of all its prefixes, whatever follows it. */
  lemma NodeParses<L(!new), A(!new)>(e: Env<L, A>, hs: seq<Handle<L, A>>, bs: seq<Buf>, tail: Bytes)
    requires e.Lawful() && Writable(e, hs, bs) && AllShort(bs)
    ensures var r := ParseNode(e, NodeBytes(e, hs, bs) + tail);
              r.Some? && r.value.0 == hs && AllSame(bs, r.value.1) && r.value.2 == tail
  {
    hide AllSame;
    Reassociate(StubsBytes(e, hs), BufsBytes(bs), tail);
    StubsParse(e, hs, BufsBytes(bs) + tail);
    BufsParse(bs, tail);
  }

  /** Nodes with the same bytes have the same handles and the same prefixes. */
  lemma NodeBytesInjective<L(!new), A(!new)>(e: Env<L, A>, hs: seq<Handle<L, A>>, bs: seq<Buf>,
      hs': seq<Handle<L, A>>, bs': seq<Buf>)
    requires e.Lawful() && Writable(e, hs, bs) && Writable(e, hs', bs') && AllShort(bs) && AllShort(bs')
    requires NodeBytes(e, hs, bs) == NodeBytes(e, hs', bs')
    ensures hs == hs' && AllSame(bs, bs')
  {
    hide NodeBytes, ParseNode;
    NodeParses(e, hs, bs, []);
    NodeParses(e, hs', bs', []);
    var cs := ParseNode(e, NodeBytes(e, hs, bs) + []).value.1;
    forall i | 0 <= i < |bs|
      ensures Same(bs[i], bs'[i])
    {
      assert Same(bs[i], cs[i]) && Same(bs'[i], cs[i]);
    }
  }

  // ---- writing and reading

  ghost function View(buf: Nibbles.NibbleBuf): Buf
    reads buf
  {
    Buf(buf.bytes, buf.ofsFront, buf.ofsBack)
  }

  ghost function Views(bufs: seq<Nibbles.NibbleBuf>): seq<Buf>
    reads bufs
  {
    seq(|bufs|, i requires 0 <= i < |bufs| reads bufs => View(bufs[i]))
  }

  /** `persist`, of a node whose child nodes have been hashed or stored. */
  method Persist<L(!new), A(!new)>(e: Env<L, A>, hs: seq<Handle<L, A>>, bufs: seq<Nibbles.NibbleBuf>, sink: Sink)
    requires Writable(e, hs, Views(bufs))
    modifies sink`bytes
    ensures sink.bytes == old(sink.bytes) + NodeBytes(e, hs, Views(bufs))
  {
    ghost var before := sink.bytes;
    PersistStubs(e, hs, sink);
    PersistBufs(bufs, sink);
    Reassociate(before, StubsBytes(e, hs), BufsBytes(Views(bufs)));
  }

  method PersistStubs<L(!new), A(!new)>(e: Env<L, A>, hs: seq<Handle<L, A>>, sink: Sink)
    requires Stubs(e, hs)
    modifies sink`bytes
    ensures sink.bytes == old(sink.bytes) + StubsBytes(e, hs)
  {
    assert hs[0..] == hs;
    for i := 0 to |hs|
      invariant sink.bytes + StubsBytes(e, hs[i..]) == old(sink.bytes) + StubsBytes(e, hs)
    {
      assert hs[i..][0] == hs[i] && hs[i..][1..] == hs[i + 1..];
      Reassociate(sink.bytes, StubBytes(e, hs[i]), StubsBytes(e, hs[i + 1..]));
      match hs[i]
      case None => sink.Write([0]);
      case Leaf(l) => sink.Write([1] + e.leaf.enc(l));
      case Persisted(d, a) => sink.Write([2] + d + e.ann.enc(a));
    }
    assert sink.bytes + [] == sink.bytes;
  }

  method PersistBufs(bufs: seq<Nibbles.NibbleBuf>, sink: Sink)
    requires AllValid(Views(bufs))
    modifies sink`bytes
    ensures sink.bytes == old(sink.bytes) + BufsBytes(Views(bufs))
  {
    ghost var bs := Views(bufs);
    assert bs[0..] == bs;
    for i := 0 to |bufs|
      invariant Views(bufs) == bs
      invariant sink.bytes + BufsBytes(bs[i..]) == old(sink.bytes) + BufsBytes(bs)
    {
      assert bs[i..][0] == bs[i] == View(bufs[i]) && bs[i..][1..] == bs[i + 1..] && Valid(bs[i]);
      Reassociate(sink.bytes, BufBytes(bs[i]), BufsBytes(bs[i + 1..]));
      bufs[i].Persist(sink);
    }
    assert sink.bytes + [] == sink.bytes;
  }

  /** `restore`, from any bytes. */
  method Restore<L(!new), A(!new)>(e: Env<L, A>, src: Source)
    returns (r: Option<(seq<Handle<L, A>>, seq<Nibbles.NibbleBuf>)>)
    modifies src
    ensures match ParseNode(e, old(src.rest))
            case None => r.None?
            case Some((hs, bs, rest)) => r.Some? && r.value.0 == hs && Views(r.value.1) == bs && src.rest == rest
  {
    var hs := RestoreStubs(e, src);
    if hs.None? {
      return Option.None;
    }
    var bufs := RestoreBufs(src);
    r := if bufs.None? then Option.None else Some((hs.value, bufs.value));
  }

  method RestoreStubs<L(!new), A(!new)>(e: Env<L, A>, src: Source) returns (r: Option<seq<Handle<L, A>>>)
    modifies src
    ensures match ParseStubs(e, Radix.N_BUCKETS, old(src.rest))
            case None => r.None?
            case Some((hs, rest)) => r == Some(hs) && src.rest == rest
  {
    hide ParseHandle;
    var hs: seq<Handle<L, A>> := [];
    ghost var all := ParseStubs(e, Radix.N_BUCKETS, src.rest);
    assert all.Some? ==> [] + all.value.0 == all.value.0;
    for i := 0 to Radix.N_BUCKETS
      invariant all == Before(hs, ParseStubs(e, Radix.N_BUCKETS - i, src.rest))
    {
      var h := RestoreHandle(e, src);
      if h.None? {
        return Option.None;
      }
      BeforeBefore(hs, [h.value], ParseStubs(e, Radix.N_BUCKETS - i - 1, src.rest));
      hs := hs + [h.value];
    }
    assert hs + [] == hs;
    r := Some(hs);
  }

  method RestoreBuf(src: Source) returns (r: Option<Nibbles.NibbleBuf>)
    modifies src
    ensures r.Some? ==> fresh(r.value)
    ensures match ParseBuf(old(src.rest))
            case None => r.None?
            case Some((buf, rest)) => r.Some? && View(r.value) == buf && src.rest == rest
  {
    hide Nibbles.BytesU16;
    ghost var b := src.rest;
    r := Nibbles.Restore(src);
    if r.Some? {
      ghost var n := |r.value.bytes|;
      assert b[4..][..n] == r.value.bytes && b[4..][n..] == src.rest;
      assert b[4..][..n] == b[4..4 + n] && b[4..][n..] == b[4 + n..];
    }
  }

  method RestoreBufs(src: Source) returns (r: Option<seq<Nibbles.NibbleBuf>>)
    modifies src
    ensures match ParseBufs(Radix.N_BUCKETS - 1, old(src.rest))
            case None => r.None?
            case Some((bs, rest)) => r.Some? && Views(r.value) == bs && src.rest == rest
  {
    hide ParseBuf;
    var bufs: seq<Nibbles.NibbleBuf> := [];
    ghost var all := ParseBufs(Radix.N_BUCKETS - 1, src.rest);
    assert Views(bufs) == [];
    assert all.Some? ==> [] + all.value.0 == all.value.0;
    for i := 0 to Radix.N_BUCKETS - 1
      invariant all == Before(Views(bufs), ParseBufs(Radix.N_BUCKETS - 1 - i, src.rest))
    {
      var buf := RestoreBuf(src);
      if buf.None? {
        return Option.None;
      }
      BeforeBefore(Views(bufs), [View(buf.value)], ParseBufs(Radix.N_BUCKETS - 2 - i, src.rest));
      assert Views(bufs + [buf.value]) == Views(bufs) + [View(buf.value)];
      bufs := bufs + [buf.value];
    }
    assert Views(bufs) + [] == Views(bufs);
    r := Some(bufs);
  }
}
