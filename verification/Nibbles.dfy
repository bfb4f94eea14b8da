/** structures/radix/src/nibbles.rs: windows of half-bytes over byte buffers. */
module Nibbles {
  import opened Trees
  import opened Store

  // ---- half-bytes

  function High(b: bv8): (r: nat)
    ensures r < 16
  {
    ((b & 0xF0) >> 4) as nat
  }

  function Low(b: bv8): (r: nat)
    ensures r < 16
  {
    (b & 0x0F) as nat
  }

  /** The two half-bytes of a byte, by number. */
  lemma Halves(b: bv8)
    ensures b as nat == 16 * High(b) + Low(b)
  {
  }

  lemma NextByte(b: bv8)
    requires b as nat < 255
    ensures (b + 1) as nat == b as nat + 1
  {
  }

  /** The byte of value `n`, counted up to, which is easier on the solver than a conversion to bits. */
  function ByteOf(n: nat): (r: bv8)
    requires n < 256
    ensures r as nat == n
  {
    if n == 0 then 0
    else
      NextByte(ByteOf(n - 1));
      ByteOf(n - 1) + 1
  }

  /** The half-byte `set` writes: `to as u8`, and of that the low four bits. */
  function WithHigh(b: bv8, to: nat): bv8 {
    (b & 0x0F) | ((ByteOf(to % 256) << 4) & 0xF0)
  }

  function WithLow(b: bv8, to: nat): bv8 {
    (b & 0xF0) | (ByteOf(to % 256) & 0x0F)
  }

  lemma LowNibble(b: bv8)
    ensures (b & 0x0F) as nat == b as nat % 16
  {
  }

  lemma HighBits(b: bv8, n: bv8)
    ensures (((b & 0x0F) | ((n << 4) & 0xF0)) & 0xF0) >> 4 == n & 0x0F
    ensures ((b & 0x0F) | ((n << 4) & 0xF0)) & 0x0F == b & 0x0F
  {
  }

  lemma LowBits(b: bv8, n: bv8)
    ensures ((b & 0xF0) | (n & 0x0F)) & 0x0F == n & 0x0F
    ensures ((b & 0xF0) | (n & 0x0F)) & 0xF0 == b & 0xF0
  {
  }

  lemma Remainder(n: nat, q: nat, r: nat)
    requires n == 16 * q + r && r < 16
    ensures n % 16 == r
  {
  }

  lemma ModMod(n: nat)
    ensures n % 256 % 16 == n % 16
  {
    var a, b := n / 256, n % 256;
    var c, d := b / 16, b % 16;
    Remainder(n, 16 * a + c, d);
  }

  lemma ByteNibble(to: nat, b: bv8)
    requires b as nat == to % 256
    ensures (b & 0x0F) as nat == to % 16
  {
    LowNibble(b);
    ModMod(to);
  }

  /** A write to one half of a byte leaves the other half alone. */
  lemma HalvesApart(b: bv8, to: nat)
    ensures High(WithHigh(b, to)) == to % 16 && Low(WithHigh(b, to)) == Low(b)
    ensures Low(WithLow(b, to)) == to % 16 && High(WithLow(b, to)) == High(b)
  {
    ByteNibble(to, ByteOf(to % 256));
    HighBits(b, ByteOf(to % 256));
    LowBits(b, ByteOf(to % 256));
  }

  lemma JoinedHalves(b: bv8, c: bv8)
    requires (b & 0xF0) >> 4 == (c & 0xF0) >> 4 && b & 0x0F == c & 0x0F
    ensures b == c
  {
  }

  /** Both halves of a byte determine it. */
  lemma HalvesDetermine(b: bv8, c: bv8)
    requires High(b) == High(c) && Low(b) == Low(c)
    ensures b == c
  {
    SameByte((b & 0xF0) >> 4, (c & 0xF0) >> 4);
    SameByte(b & 0x0F, c & 0x0F);
    JoinedHalves(b, c);
  }

  // ---- positions in a buffer

  function NibbleAt(bytes: Bytes, p: nat): (r: nat)
    requires p / 2 < |bytes|
    ensures r < 16
  {
    if p % 2 == 0 then High(bytes[p / 2]) else Low(bytes[p / 2])
  }

  function SetAt(bytes: Bytes, p: nat, n: nat): Bytes
    requires p / 2 < |bytes|
  {
    bytes[p / 2 := if p % 2 == 0 then WithHigh(bytes[p / 2], n) else WithLow(bytes[p / 2], n)]
  }

  lemma SetAtOnly(bytes: Bytes, p: nat, n: nat, q: nat)
    requires p / 2 < |bytes| && q / 2 < |bytes|
    ensures NibbleAt(SetAt(bytes, p, n), q) == if q == p then n % 16 else NibbleAt(bytes, q)
  {
    HalvesApart(bytes[p / 2], n);
  }

  lemma ZeroHalves()
    ensures High(0) == 0 && Low(0) == 0
  {
  }

  /** The buffer `a` has become `b`: at other positions than `front..back` it is as it was, and zero where it grew. */
  ghost predicate Changed(a: Bytes, b: Bytes, front: nat, back: nat) {
    && |a| <= |b|
    && forall p :: 0 <= p < 2 * |b| && !(front <= p < back) ==>
                     NibbleAt(b, p) == if p < 2 * |a| then NibbleAt(a, p) else 0
  }

  /** The nibbles a window shows. */
  function Window(bytes: Bytes, front: nat, back: nat): (r: seq<nat>)
    requires front <= back <= 2 * |bytes|
    ensures |r| == back - front
    ensures forall i :: 0 <= i < |r| ==> r[i] == NibbleAt(bytes, front + i) && r[i] < 16
  {
    seq<nat>(back - front, i requires 0 <= i < back - front => NibbleAt(bytes, front + i))
  }

  /** A window over a whole buffer shows the two halves of every byte, the high one first. */
  lemma BytesShown(bytes: Bytes, i: nat)
    requires i < |bytes|
    ensures |Window(bytes, 0, 2 * |bytes|)| == 2 * |bytes|
    ensures var w := Window(bytes, 0, 2 * |bytes|); bytes[i] as nat == 16 * w[2 * i] + w[2 * i + 1]
  {
    hide High, Low;
    Halves(bytes[i]);
    assert 2 * i / 2 == i && (2 * i + 1) / 2 == i;
  }

  /** A narrower window shows a part of what a wider one shows. */
  lemma WindowWithin(bytes: Bytes, front: nat, back: nat)
    requires front <= back <= 2 * |bytes|
    ensures Window(bytes, front, back) == Window(bytes, 0, 2 * |bytes|)[front..back]
  {
  }

  /** A window over whole bytes around `front..back`, with its offsets shifted to match. */
  lemma WindowShift(bytes: Bytes, front: nat, back: nat)
    requires front <= back <= 2 * |bytes|
    ensures var a, b := front / 2, (back + 1) / 2;
              && a <= b <= |bytes| && back - 2 * a <= 2 * |bytes[a..b]|
              && Window(bytes[a..b], front - 2 * a, back - 2 * a) == Window(bytes, front, back)
  {
    var a, b := front / 2, (back + 1) / 2;
    var v, w := Window(bytes[a..b], front - 2 * a, back - 2 * a), Window(bytes, front, back);
    forall i | 0 <= i < |v|
      ensures v[i] == w[i]
    {
      assert (front - 2 * a + i) / 2 == (front + i) / 2 - a;
    }
  }

  // ---- offsets on disk

  /** `as u16`, big endian. */
  function U16Bytes(n: nat): (r: Bytes)
    ensures |r| == 2
  {
    [ByteOf(n % 0x1_0000 / 256), ByteOf(n % 0x1_0000 % 256)]
  }

  function BytesU16(hi: bv8, lo: bv8): nat {
    (hi as nat) * 256 + (lo as nat)
  }

  lemma U16RoundTrip(n: nat)
    ensures BytesU16(U16Bytes(n)[0], U16Bytes(n)[1]) == n % 0x1_0000
  {
  }

  /** Big endian, by number, as it is written and as it is read. */
  lemma U16Value(n: nat, hi: bv8, lo: bv8)
    ensures 256 * (U16Bytes(n)[0] as nat) + U16Bytes(n)[1] as nat == n % 0x1_0000
    ensures BytesU16(hi, lo) == 256 * (hi as nat) + lo as nat
  {
  }

  /** The bytes of `persist`: both offsets, counted from the first byte written, and the bytes the window touches. */
  function Encoding(bytes: Bytes, front: nat, back: nat): Bytes
    requires front <= back <= 2 * |bytes|
  {
    Headed(front - front / 2 * 2, back - front / 2 * 2, bytes[front / 2..(back + 1) / 2])
  }

  function Headed(front: nat, back: nat, bytes: Bytes): Bytes {
    U16Bytes(front) + U16Bytes(back) + bytes
  }

  /** `restore` reads these offsets and bytes off the front of `b`, and leaves `rest`. */
  ghost predicate Decodes(b: Bytes, front: nat, back: nat, bytes: Bytes, rest: Bytes) {
    && |b| >= 4 && front == BytesU16(b[0], b[1]) && back == BytesU16(b[2], b[3])
    && |bytes| == (back + 1) / 2 && b[4..] == bytes + rest
  }

  /** The encoding by number: the start offset is that in its byte, the end offset counts on from there, both are big
      endian and cut to 16 bits, and the bytes are those the window touches. */
  lemma EncodingIs(bytes: Bytes, front: nat, back: nat)
    requires front <= back <= 2 * |bytes|
    ensures var b := Encoding(bytes, front, back);
      && |b| == 4 + (back + 1) / 2 - front / 2
      && 256 * (b[0] as nat) + b[1] as nat == front % 2
      && 256 * (b[2] as nat) + b[3] as nat == (back - front + front % 2) % 0x1_0000
      && forall i :: front / 2 <= i < (back + 1) / 2 ==> b[4 + i - front / 2] == bytes[i]
  {
    hide BytesU16;
    var b := Encoding(bytes, front, back);
    OffsetsFit(front, back);
    var x, y := U16Bytes(front - front / 2 * 2), U16Bytes(back - front / 2 * 2);
    U16Value(front - front / 2 * 2, 0, 0);
    U16Value(back - front / 2 * 2, 0, 0);
    assert b[0] == x[0] && b[1] == x[1] && b[2] == y[0] && b[3] == y[1];
    assert b[4..] == bytes[front / 2..(back + 1) / 2];
    forall i | front / 2 <= i < (back + 1) / 2
      ensures b[4 + i - front / 2] == bytes[i]
    {
      assert b[4 + i - front / 2] == b[4..][i - front / 2];
    }
  }

  /** What is read, by number. */
  lemma DecodingIs(b: Bytes, front: nat, back: nat, bytes: Bytes, rest: Bytes)
    requires Decodes(b, front, back, bytes, rest)
    ensures front == 256 * (b[0] as nat) + b[1] as nat && back == 256 * (b[2] as nat) + b[3] as nat
    ensures |b| == 4 + |bytes| + |rest| && |bytes| == (back + 1) / 2
    ensures forall i :: 0 <= i < |bytes| ==> b[4 + i] == bytes[i]
    ensures b[4 + |bytes|..] == rest
  {
    hide BytesU16;
    U16Value(0, b[0], b[1]);
    U16Value(0, b[2], b[3]);
    assert |b[4..]| == |bytes| + |rest|;
    forall i | 0 <= i < |bytes|
      ensures b[4 + i] == bytes[i]
    {
      assert b[4..][i] == bytes[i];
    }
    assert b[4..][|bytes|..] == rest;
  }

  ghost predicate Reads(front: nat, back: nat, bytes: Bytes, w: seq<nat>) {
    front <= back <= 2 * |bytes| && Window(bytes, front, back) == w
  }

  lemma OffsetsFit(front: nat, back: nat)
    requires front <= back
    ensures front - front / 2 * 2 == front % 2 == (front - front / 2 * 2) % 0x1_0000
    ensures back - front / 2 * 2 == back - front + front % 2
    ensures (back - front / 2 * 2 + 1) / 2 == (back + 1) / 2 - front / 2
  {
  }

  lemma EncodedParts(bytes: Bytes, front: nat, back: nat, tail: Bytes)
    requires front <= back <= 2 * |bytes|
    ensures var b := Encoding(bytes, front, back) + tail;
      && |b| >= 4 && BytesU16(b[0], b[1]) == front % 2 && BytesU16(b[2], b[3]) == (back - front + front % 2) % 0x1_0000
      && b[4..] == bytes[front / 2..(back + 1) / 2] + tail
  {
    var b := Encoding(bytes, front, back) + tail;
    OffsetsFit(front, back);
    var x, y := U16Bytes(front - front / 2 * 2), U16Bytes(back - front / 2 * 2);
    U16RoundTrip(front - front / 2 * 2);
    U16RoundTrip(back - front / 2 * 2);
    assert b[0] == x[0] && b[1] == x[1] && b[2] == y[0] && b[3] == y[1];
  }

  lemma Truncated(n: nat)
    ensures n < 0x1_0000 ==> n % 0x1_0000 == n
    ensures n >= 0x1_0000 ==> n % 0x1_0000 < n
  {
  }

  /** A buffer is read back as what was written, and nothing past it is read, exactly when its offsets fit in 16
      bits. */
  lemma RoundTrip(bytes: Bytes, front: nat, back: nat, tail: Bytes, front': nat, back': nat, bytes': Bytes, rest: Bytes)
    requires front <= back <= 2 * |bytes|
    requires Decodes(Encoding(bytes, front, back) + tail, front', back', bytes', rest)
    ensures Reads(front', back', bytes', Window(bytes, front, back)) <==> back - front + front % 2 < 0x1_0000
    ensures back - front + front % 2 < 0x1_0000 ==> rest == tail
  {
    EncodedParts(bytes, front, back, tail);
    var n := back - front + front % 2;
    Truncated(n);
    if n < 0x1_0000 {
      WholeBytes(bytes, front, back, tail, bytes', rest);
    } else {
      assert back' - front' < back - front;
    }
  }

  lemma WholeBytes(bytes: Bytes, front: nat, back: nat, tail: Bytes, bytes': Bytes, rest: Bytes)
    requires front <= back <= 2 * |bytes|
    requires |bytes'| == (back - front + front % 2 + 1) / 2 && bytes[front / 2..(back + 1) / 2] + tail == bytes' + rest
    ensures Reads(front % 2, back - front + front % 2, bytes', Window(bytes, front, back)) && rest == tail
  {
    var a, e := front / 2, (back + 1) / 2;
    OffsetsFit(front, back);
    CancelLeft(bytes', rest, bytes[a..e], tail);
    WindowShift(bytes, front, back);
    assert front - 2 * a == front % 2 && back - 2 * a == back - front + front % 2;
  }

  /** And there is always enough to read. */
  lemma EncodingDecodes(bytes: Bytes, front: nat, back: nat, tail: Bytes)
    requires front <= back <= 2 * |bytes|
    ensures var b := Encoding(bytes, front, back) + tail; |b| >= 4 + (BytesU16(b[2], b[3]) + 1) / 2
  {
    EncodedParts(bytes, front, back, tail);
    OffsetsFit(front, back);
    var n := back - front + front % 2;
    Truncated(n);
  }

  /** Keys within `MAX_KEY_LEN` bytes have paths that fit. */
  lemma KeysFit(bytes: Bytes, front: nat, back: nat)
    requires front <= back <= 2 * |bytes| && back - front <= 2 * (0xFFFF / 2)
    ensures back - front + front % 2 < 0x1_0000
  {
  }

  /** A window that is too long by one nibble: 65536 of them, which is written with end offset zero. */
  lemma TooLong(bytes: Bytes, tail: Bytes, front: nat, back: nat, bytes': Bytes, rest: Bytes)
    requires bytes == seq(0x8000, _ => 0)
    requires Decodes(Encoding(bytes, 0, 0x1_0000) + tail, front, back, bytes', rest)
    ensures front == 0 && back == 0 && rest == bytes + tail
    ensures !Reads(front, back, bytes', Window(bytes, 0, 0x1_0000))
  {
    EncodedParts(bytes, 0, 0x1_0000, tail);
    RoundTrip(bytes, 0, 0x1_0000, tail, front, back, bytes', rest);
    assert bytes[0..0x8000] == bytes;
  }

  /** Windows of one length are written as the same bytes exactly if they start on the same half of a byte, and the
      bytes they touch are the same. */
  lemma EncodingsEqual(a: Bytes, fa: nat, ba: nat, b: Bytes, fb: nat, bb: nat)
    requires fa <= ba <= 2 * |a| && fb <= bb <= 2 * |b| && ba - fa == bb - fb
    ensures Encoding(a, fa, ba) == Encoding(b, fb, bb) <==>
            fa % 2 == fb % 2 && a[fa / 2..(ba + 1) / 2] == b[fb / 2..(bb + 1) / 2]
  {
    hide U16Bytes;
    OffsetsFit(fa, ba);
    OffsetsFit(fb, bb);
    var x, y := a[fa / 2..(ba + 1) / 2], b[fb / 2..(bb + 1) / 2];
    HeadedAlike(fa - fa / 2 * 2, ba - fa / 2 * 2, x, fb - fb / 2 * 2, bb - fb / 2 * 2, y);
  }

  lemma U16Injective(p: nat, q: nat)
    requires p < 0x1_0000 && q < 0x1_0000 && U16Bytes(p) == U16Bytes(q)
    ensures p == q
  {
    U16RoundTrip(p);
    U16RoundTrip(q);
    Truncated(p);
    Truncated(q);
  }

  lemma HeadedAlike(p: nat, m: nat, x: Bytes, q: nat, k: nat, y: Bytes)
    requires p < 2 && q < 2 && m - p == k - q
    ensures Headed(p, m, x) == Headed(q, k, y) <==> p == q && x == y
  {
    if Headed(p, m, x) == Headed(q, k, y) {
      CancelLeft(U16Bytes(p) + U16Bytes(m), x, U16Bytes(q) + U16Bytes(k), y);
      CancelLeft(U16Bytes(p), U16Bytes(m), U16Bytes(q), U16Bytes(k));
      U16Injective(p, q);
    }
  }

  /** Buffers that show the same nibbles are written as the same bytes exactly if they start on the same half of a byte,
      and the half-bytes that their outermost bytes hold besides are the same too. */
  lemma EqualBuffersWritten(a: Bytes, fa: nat, ba: nat, b: Bytes, fb: nat, bb: nat)
    requires fa <= ba <= 2 * |a| && fb <= bb <= 2 * |b| && Window(a, fa, ba) == Window(b, fb, bb)
    ensures Encoding(a, fa, ba) == Encoding(b, fb, bb) <==>
            && fa % 2 == fb % 2
            && (fa % 2 == 1 ==> High(a[fa / 2]) == High(b[fb / 2]))
            && (ba % 2 == 1 ==> Low(a[ba / 2]) == Low(b[bb / 2]))
  {
    assert ba - fa == |Window(a, fa, ba)| == |Window(b, fb, bb)| == bb - fb;
    EncodingsEqual(a, fa, ba, b, fb, bb);
    if fa % 2 == fb % 2 {
      TouchedBytes(a, fa, ba, b, fb, bb);
    }
  }

  lemma TouchedBytes(a: Bytes, fa: nat, ba: nat, b: Bytes, fb: nat, bb: nat)
    requires fa <= ba <= 2 * |a| && fb <= bb <= 2 * |b| && Window(a, fa, ba) == Window(b, fb, bb)
    requires ba - fa == bb - fb && fa % 2 == fb % 2
    ensures a[fa / 2..(ba + 1) / 2] == b[fb / 2..(bb + 1) / 2] <==>
            && (fa % 2 == 1 ==> High(a[fa / 2]) == High(b[fb / 2]))
            && (ba % 2 == 1 ==> Low(a[ba / 2]) == Low(b[bb / 2]))
  {
    hide High, Low, Window;
    var x, y := a[fa / 2..(ba + 1) / 2], b[fb / 2..(bb + 1) / 2];
    if x == y {
      OuterBytes(a, fa, ba, b, fb, bb);
    }
    if (fa % 2 == 1 ==> High(a[fa / 2]) == High(b[fb / 2])) && (ba % 2 == 1 ==> Low(a[ba / 2]) == Low(b[bb / 2])) {
      forall j | 0 <= j < |x|
        ensures x[j] == y[j]
      {
        TouchedByte(a, fa, ba, b, fb, bb, j);
      }
    }
  }

  lemma OuterBytes(a: Bytes, fa: nat, ba: nat, b: Bytes, fb: nat, bb: nat)
    requires fa <= ba <= 2 * |a| && fb <= bb <= 2 * |b| && ba - fa == bb - fb && fa % 2 == fb % 2
    requires a[fa / 2..(ba + 1) / 2] == b[fb / 2..(bb + 1) / 2]
    ensures fa % 2 == 1 ==> a[fa / 2] == b[fb / 2]
    ensures ba % 2 == 1 ==> a[ba / 2] == b[bb / 2]
  {
    var x, y := a[fa / 2..(ba + 1) / 2], b[fb / 2..(bb + 1) / 2];
    assert fa % 2 == 1 && fa < ba ==> x[0] == a[fa / 2] && y[0] == b[fb / 2];
    assert ba % 2 == 1 ==> x[|x| - 1] == a[ba / 2] && y[|y| - 1] == b[bb / 2];
  }

  lemma TouchedByte(a: Bytes, fa: nat, ba: nat, b: Bytes, fb: nat, bb: nat, j: nat)
    requires fa <= ba <= 2 * |a| && fb <= bb <= 2 * |b| && Window(a, fa, ba) == Window(b, fb, bb)
    requires ba - fa == bb - fb && fa % 2 == fb % 2 && fa / 2 + j < (ba + 1) / 2
    requires fa % 2 == 1 ==> High(a[fa / 2]) == High(b[fb / 2])
    requires ba % 2 == 1 ==> Low(a[ba / 2]) == Low(b[bb / 2])
    ensures a[fa / 2 + j] == b[fb / 2 + j]
  {
    var p, q := 2 * (fa / 2 + j), 2 * (fb / 2 + j);
    if p >= fa {
      assert Window(a, fa, ba)[p - fa] == Window(b, fb, bb)[p - fa];
    }
    if p + 1 < ba {
      assert Window(a, fa, ba)[p + 1 - fa] == Window(b, fb, bb)[p + 1 - fa];
    }
    HalvesDetermine(a[p / 2], b[q / 2]);
  }

  /** Two buffers that show the same nibble, and are written as different bytes. */
  lemma EqualNotIdentical()
    ensures Window([0x12], 0, 1) == Window([0x13], 0, 1)
    ensures Encoding([0x12], 0, 1) != Encoding([0x13], 0, 1)
  {
    var a: Bytes, b: Bytes := [0x12], [0x13];
    assert a[0] & 0xF0 == b[0] & 0xF0 && a[0] & 0x0F != b[0] & 0x0F;
    SameByte(a[0] & 0x0F, b[0] & 0x0F);
    EqualBuffersWritten(a, 0, 1, b, 0, 1);
  }

  // ---- buffers

  /** `NibbleBuf`, and, as far as reading goes, the borrowed slice `Nibbles` with the same fields. */
  class NibbleBuf {
    var bytes: Bytes
    var ofsFront: nat
    var ofsBack: nat

    ghost predicate Valid()
      reads this
    {
      ofsFront <= ofsBack <= 2 * |bytes|
    }

    ghost function Seq(): seq<nat>
      requires Valid()
      reads this
    {
      Window(bytes, ofsFront, ofsBack)
    }

    constructor (bytes: Bytes)
      ensures Valid() && Seq() == Window(bytes, 0, 2 * |bytes|)
    {
      this.bytes, ofsFront, ofsBack := bytes, 0, 2 * |bytes|;
    }

    constructor Slice(bytes: Bytes, ofsFront: nat, ofsBack: nat)
      ensures this.bytes == bytes && this.ofsFront == ofsFront && this.ofsBack == ofsBack
    {
      this.bytes, this.ofsFront, this.ofsBack := bytes, ofsFront, ofsBack;
    }

    function Len(): (r: nat)
      requires Valid()
      reads this
      ensures r == |Seq()|
    {
      ofsBack - ofsFront
    }

    function Get(idx: nat): (r: nat)
      requires Valid() && idx < Len()
      reads this
      ensures r == Seq()[idx]
    {
      var byteIndex := (ofsFront + idx) / 2;
      if (idx + ofsFront) % 2 == 0 then High(bytes[byteIndex]) else Low(bytes[byteIndex])
    }

    method PopNibble() returns (nibble: nat)
      requires Valid() && Len() > 0
      modifies this`ofsFront
      ensures Valid() && old(Seq()) == [nibble] + Seq()
    {
      nibble := Get(0);
      ofsFront := ofsFront + 1;
    }

    method TrimFront(n: nat)
      requires Valid() && n <= Len()
      modifies this`ofsFront
      ensures Valid() && Seq() == old(Seq())[n..]
    {
      ofsFront := ofsFront + n;
    }

    method TrimBack(n: nat)
      requires Valid() && n <= Len()
      modifies this`ofsBack
      ensures Valid() && Seq() == old(Seq())[..|old(Seq())| - n]
    {
      ofsBack := ofsBack - n;
    }

    /** `set`: one half of one byte changes; at the end of the buffer a byte is added first. */
    method Set(idx: nat, to: nat)
      requires ofsFront + idx <= 2 * |bytes| + 1
      modifies this`bytes
      ensures |bytes| == if ofsFront + idx < 2 * |old(bytes)| then |old(bytes)| else |old(bytes)| + 1
      ensures NibbleAt(bytes, ofsFront + idx) == to % 16
      ensures Changed(old(bytes), bytes, ofsFront + idx, ofsFront + idx + 1)
    {
      hide High, Low, WithHigh, WithLow;
      var byteIndex := (ofsFront + idx) / 2;
      if byteIndex >= |bytes| {
        bytes := bytes + [0];
      }
      ghost var b, p := bytes, ofsFront + idx;
      ZeroHalves();
      var was := bytes[byteIndex];
      bytes := bytes[byteIndex := if (idx + ofsFront) % 2 == 0 then WithHigh(was, to) else WithLow(was, to)];
      forall q | 0 <= q < 2 * |b|
        ensures NibbleAt(bytes, q) == if q == p then to % 16 else NibbleAt(b, q)
      {
        SetAtOnly(b, p, to, q);
      }
    }

    method Push(nibble: nat)
      requires Valid()
      modifies this`bytes, this`ofsBack
      ensures Valid() && Seq() == old(Seq()) + [nibble % 16]
      ensures Changed(old(bytes), bytes, old(ofsBack), ofsBack)
    {
      var i := Len();
      ofsBack := ofsBack + 1;
      Set(i, nibble);
    }

    method Append(other: NibbleBuf)
      requires Valid() && other.Valid() && other != this
      modifies this`bytes, this`ofsBack
      ensures Valid() && Seq() == old(Seq()) + other.Seq()
      ensures Changed(old(bytes), bytes, old(ofsBack), ofsBack)
    {
      for i := 0 to other.Len()
        invariant Valid() && Seq() == old(Seq()) + other.Seq()[..i]
        invariant ofsBack == old(ofsBack) + i && Changed(old(bytes), bytes, old(ofsBack), ofsBack)
      {
        ghost var nibble := other.Get(i);
        assert nibble % 16 == nibble;
        Push(other.Get(i));
      }
      assert other.Seq()[..|other.Seq()|] == other.Seq();
    }

    method CommonPrefixLen(other: NibbleBuf) returns (n: nat)
      requires Valid() && other.Valid()
      ensures n == |CommonPrefix(Seq(), other.Seq())|
    {
      var minLen := if Len() < other.Len() then Len() else other.Len();
      ghost var a, b := Seq(), other.Seq();
      for i := 0 to minLen
        invariant a[..i] == b[..i]
      {
        if Get(i) != other.Get(i) {
          CommonIs(a, b, i);
          return i;
        }
      }
      CommonIs(a, b, minLen);
      return minLen;
    }

    /** `common_prefix`, a window over the same bytes. */
    method Common(other: NibbleBuf) returns (r: NibbleBuf)
      requires Valid() && other.Valid()
      ensures fresh(r) && r.Valid() && r.Seq() == CommonPrefix(Seq(), other.Seq())
    {
      var len := CommonPrefixLen(other);
      r := new NibbleBuf.Slice(bytes, ofsFront, ofsBack);
      r.TrimBack(Len() - len);
    }

    method Persist(sink: Sink)
      requires Valid()
      modifies sink`bytes
      ensures sink.bytes == old(sink.bytes) + Encoding(bytes, ofsFront, ofsBack)
    {
      var start, end := ofsFront / 2, (ofsBack + 1) / 2;
      var front, back := U16Bytes(ofsFront - start * 2), U16Bytes(ofsBack - start * 2);
      sink.Write(front);
      sink.Write(back);
      sink.Write(bytes[start..end]);
      Reassociate(old(sink.bytes), front, back);
      Reassociate(old(sink.bytes), front + back, bytes[start..end]);
    }
  }

  function CommonPrefix(a: seq<nat>, b: seq<nat>): (r: seq<nat>)
    ensures r <= a && r <= b
    ensures |r| == |a| || |r| == |b| || a[|r|] != b[|r|]
  {
    if a != [] && b != [] && a[0] == b[0] then [a[0]] + CommonPrefix(a[1..], b[1..]) else []
  }

  lemma CommonIs(a: seq<nat>, b: seq<nat>, n: nat)
    requires n <= |a| && n <= |b| && a[..n] == b[..n]
    requires n == |a| || n == |b| || a[n] != b[n]
    ensures |CommonPrefix(a, b)| == n && CommonPrefix(a, b) == a[..n]
  {
    var r := CommonPrefix(a, b);
    assert forall i :: 0 <= i < n ==> a[i] == a[..n][i] && b[i] == b[..n][i];
    assert forall i :: 0 <= i < |r| ==> r[i] == a[i] && r[i] == b[i];
  }

  method ReadU16(src: Source) returns (r: Option<nat>)
    modifies src
    ensures var b := old(src.rest);
            && (r.Some? <==> |b| >= 2)
            && (r.Some? ==> r.value == BytesU16(b[0], b[1]) && src.rest == b[2..])
  {
    var two := src.Read(2);
    r := if two.Some? then Some(BytesU16(two.value[0], two.value[1])) else Option.None;
  }

  /** `n` bytes, one by one. */
  method ReadBytes(src: Source, n: nat) returns (r: Option<Bytes>)
    modifies src
    ensures var b := old(src.rest);
            && (r.Some? <==> |b| >= n)
            && (r.Some? ==> r.value == b[..n] && src.rest == b[n..])
  {
    ghost var b := src.rest;
    var vec := [];
    for i := 0 to n
      invariant |b| >= i && vec == b[..i] && src.rest == b[i..]
    {
      var byte := src.Read(1);
      if byte.None? {
        return Option.None;
      }
      assert byte.value == [b[i]] && b[..i] + [b[i]] == b[..i + 1];
      vec := vec + byte.value;
    }
    r := Some(vec);
  }

  /** `NibbleBuf::restore`. */
  method Restore(src: Source) returns (r: Option<NibbleBuf>)
    modifies src
    ensures r.Some? ==> fresh(r.value)
    ensures var b := old(src.rest);
            && (r.Some? <==> |b| >= 4 && |b| >= 4 + (BytesU16(b[2], b[3]) + 1) / 2)
            && (r.Some? ==> Decodes(b, r.value.ofsFront, r.value.ofsBack, r.value.bytes, src.rest))
  {
    hide BytesU16;
    ghost var b := src.rest;
    var front := ReadU16(src);
    if front.None? {
      return Option.None;
    }
    var back := ReadU16(src);
    if back.None? {
      return Option.None;
    }
    assert src.rest == b[4..] && back.value == BytesU16(b[2], b[3]);
    var vec := ReadBytes(src, (back.value + 1) / 2);
    if vec.None? {
      return Option.None;
    }
    assert b[4..] == vec.value + src.rest;
    var buf := new NibbleBuf.Slice(vec.value, front.value, back.value);
    r := Some(buf);
  }
}
