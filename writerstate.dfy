/**
 * What each operation of the bit writer (writer.go) does to its state,
 * written as functions on a state value, and what they mean as bits.
 *
 * A writer keeps one pending byte `b` whose top 8 - p bits have been
 * written, and the count p of its free bits (1 to 8; 8 means the stream is
 * byte-aligned and b is zero). Each completed byte is pushed to the sink,
 * directly or through a buffer (module Output). What the writer has been
 * asked to write is its stream: the bits of every byte handed to the sink,
 * then of the buffered bytes, then the pending bits.
 */
module WriterState {
  import opened BitModel
  import opened FieldModel
  import opened Output

  /** The bytes handed to the sink, the buffered bytes, and the pending byte b with p free bits. */
  datatype WState = WState(sent: seq<bv8>, buf: seq<bv8>, b: bv8, p: bv8)

  /** A pending byte b with p free bits: 1 <= p <= 8, and every free bit is zero. */
  ghost predicate Pending(b: bv8, p: bv8) {
    1 <= p <= 8 && HoldsOnly(b, 8 - p)
  }

  /** The invariant every writer keeps. */
  ghost predicate Ok(m: Sink, s: WState) {
    Pending(s.b, s.p) && BufferOk(m, s.buf)
  }

  /** How many bits of the pending byte are written when p are free: 8 - p, as a length. */
  function Used(p: bv8): (n: nat)
    requires 1 <= p <= 8
    ensures n < 8
    ensures n == 0 <==> p == 8
  {
    if p == 8 then 0 else if p == 7 then 1 else if p == 6 then 2 else if p == 5 then 3
    else if p == 4 then 4 else if p == 3 then 5 else if p == 2 then 6 else 7
  }

  lemma UsedValue(p: bv8)
    requires 1 <= p <= 8
    ensures Used(p) == (8 - p) as int
    ensures 1 < p ==> Used(p - 1) == Used(p) + 1
  {}

  lemma UsedInjective(p: bv8, q: bv8)
    requires 1 <= p <= 8 && 1 <= q <= 8 && Used(p) == Used(q)
    ensures p == q
  {}

  /** Everything written so far, as bits. */
  ghost function Stream(s: WState): (bits: seq<bool>)
    requires 1 <= s.p <= 8
    ensures |bits| == 8 * |s.sent + s.buf| + Used(s.p)
  {
    Bits(s.sent + s.buf) + Top(s.b, Used(s.p))
  }

  // ---------------------------------------------------------------------------
  // The pending byte, one step at a time

  /** Taking a free bit keeps a pending byte pending, whether the bit is a zero or a one. */
  lemma Narrower(b: bv8, p: bv8)
    requires Pending(b, p) && p > 1
    ensures Pending(b, p - 1) && Pending(b | (1 << (p - 1)), p - 1)
  {
    UsedValue(p);
    AppendOne(b, 8 - p, Used(p));
    assert 7 - (8 - p) == p - 1;
  }

  /** A zero bit taking a free bit extends the pending bits by a zero. */
  lemma ZeroTop(b: bv8, p: bv8)
    requires Pending(b, p) && p > 1
    ensures Top(b, Used(p - 1)) == Top(b, Used(p)) + [false]
  {
    UsedValue(p);
    AppendZero(b, 8 - p, Used(p));
  }

  /** A one bit taking a free bit extends the pending bits by a one. */
  lemma OneTop(b: bv8, p: bv8)
    requires Pending(b, p) && p > 1
    ensures Top(b | (1 << (p - 1)), Used(p - 1)) == Top(b, Used(p)) + [true]
  {
    UsedValue(p);
    AppendOne(b, 8 - p, Used(p));
    assert 7 - (8 - p) == p - 1;
  }

  /** A zero bit taking the last free bit completes b. */
  lemma LastZero(b: bv8)
    requires Pending(b, 1)
    ensures Top(b, Used(1)) + [false] == ByteBits(b)
  {
    AppendZero(b, 7, 7);
    TopFull(b);
  }

  /** A one bit taking the last free bit completes b | 1. */
  lemma LastOne(b: bv8)
    requires Pending(b, 1)
    ensures Top(b, Used(1)) + [true] == ByteBits(b | 1)
  {
    AppendOne(b, 7, 7);
    TopFull(b | 1);
  }

  /**
   * A whole byte x behind the pending bits: the completed byte
   * b | (x >> (8 - p)) and the new pending byte x << p hold the old pending
   * bits followed by the bits of x.
   */
  lemma ByteTop(b: bv8, p: bv8, x: bv8)
    requires Pending(b, p)
    ensures Pending(x << p, p)
    ensures ByteBits(b | (x >> (8 - p))) + Top(x << p, Used(p)) == Top(b, Used(p)) + ByteBits(x)
  {
    UsedValue(p);
    assert 8 - (8 - p) == p;
    MergeStep(b, 8 - p, Used(p), x);
  }

  /** A pending byte is determined by its pending bits. */
  lemma PendingInjective(b: bv8, d: bv8, p: bv8)
    requires Pending(b, p) && Pending(d, p)
    requires Top(b, Used(p)) == Top(d, Used(p))
    ensures b == d
  {
    UsedValue(p);
    TopInjective(b, d, 8 - p, Used(p));
  }

  // ---------------------------------------------------------------------------
  // Single bits

  /**
   * WriteZero: with a free bit left, a zero bit only takes it; otherwise
   * it completes b, which is pushed, and the writer is aligned again.
   */
  function PutZero(m: Sink, s: WState): (r: WState)
    requires Ok(m, s)
    ensures Ok(m, r)
  {
    if s.p > 1 then
      Narrower(s.b, s.p);
      s.(p := s.p - 1)
    else
      var q := Pushed(m, s.sent, s.buf, s.b);
      WState(q.0, q.1, 0, 8)
  }

  /**
   * WriteOne: with a free bit left, a one bit sets the highest free bit;
   * otherwise it completes b | 1, which is pushed.
   */
  function PutOne(m: Sink, s: WState): (r: WState)
    requires Ok(m, s)
    ensures Ok(m, r)
  {
    if s.p > 1 then
      Narrower(s.b, s.p);
      s.(b := s.b | (1 << (s.p - 1)), p := s.p - 1)
    else
      var q := Pushed(m, s.sent, s.buf, s.b | 1);
      WState(q.0, q.1, 0, 8)
  }

  /** WriteBit: a one or a zero bit. */
  function PutBit(m: Sink, s: WState, bit: bool): (r: WState)
    requires Ok(m, s)
    ensures Ok(m, r)
  {
    if bit then PutOne(m, s) else PutZero(m, s)
  }

  /** Pushing a completed byte c, with nothing left pending, turns its bits into sent or buffered ones. */
  lemma Completes(m: Sink, s: WState, c: bv8, t: seq<bool>)
    requires BufferOk(m, s.buf) && 1 <= s.p <= 8 && Top(s.b, Used(s.p)) + t == ByteBits(c)
    ensures var q := Pushed(m, s.sent, s.buf, c);
      Bits(q.0 + q.1) + Top(0, 0) == Bits(s.sent + s.buf) + Top(s.b, Used(s.p)) + t
  {
    PushedKeepsOrder(m, s.sent, s.buf, c);
    BitsSnoc(s.sent + s.buf, c);
    Assoc(Bits(s.sent + s.buf), Top(s.b, Used(s.p)), t);
  }

  /** A zero bit extends the stream by exactly that bit. */
  lemma ZeroAppends(m: Sink, s: WState)
    requires Ok(m, s)
    ensures Stream(PutZero(m, s)) == Stream(s) + [false]
  {
    var out := s.sent + s.buf;
    if s.p > 1 {
      ZeroTop(s.b, s.p);
      Assoc(Bits(out), Top(s.b, Used(s.p)), [false]);
    } else {
      LastZero(s.b);
      Completes(m, s, s.b, [false]);
    }
  }

  /** A one bit extends the stream by exactly that bit. */
  lemma OneAppends(m: Sink, s: WState)
    requires Ok(m, s)
    ensures Stream(PutOne(m, s)) == Stream(s) + [true]
  {
    var out := s.sent + s.buf;
    if s.p > 1 {
      OneTop(s.b, s.p);
      Assoc(Bits(out), Top(s.b, Used(s.p)), [true]);
    } else {
      LastOne(s.b);
      Completes(m, s, s.b | 1, [true]);
    }
  }

  /** Any bit extends the stream by exactly that bit. */
  lemma BitAppends(m: Sink, s: WState, bit: bool)
    requires Ok(m, s)
    ensures Stream(PutBit(m, s, bit)) == Stream(s) + [bit]
  {
    if bit {
      OneAppends(m, s);
    } else {
      ZeroAppends(m, s);
    }
  }

  /**
   * A bit pushes a byte exactly when it takes the last free bit: otherwise
   * nothing is sent or buffered and one bit fewer is free.
   */
  lemma BitPushes(m: Sink, s: WState, bit: bool)
    requires Ok(m, s)
    ensures var r := PutBit(m, s, bit);
      if s.p > 1 then r.sent == s.sent && r.buf == s.buf && Used(r.p) == Used(s.p) + 1
      else (r.sent, r.buf) == Pushed(m, s.sent, s.buf, s.b | (if bit then 1 else 0)) && r.b == 0 && r.p == 8
  {
    UsedValue(s.p);
    assert s.b | 0 == s.b;
  }

  /**
   * What a bit does to the output: the bytes sent and buffered before it
   * stay, in order, and exactly one byte follows them when it took the last
   * free bit, none otherwise.
   */
  lemma BitOutput(m: Sink, s: WState, bit: bool)
    requires Ok(m, s)
    ensures var r := PutBit(m, s, bit);
      s.sent + s.buf <= r.sent + r.buf &&
      |r.sent + r.buf| == |s.sent + s.buf| + (if s.p == 1 then 1 else 0)
  {
    BitPushes(m, s, bit);
    if s.p == 1 {
      PushedKeepsOrder(m, s.sent, s.buf, s.b | (if bit then 1 else 0));
    }
  }

  // ---------------------------------------------------------------------------
  // Bit sequences

  /** The state after writing each of bits in turn with WriteBit. */
  function PutBits(m: Sink, s: WState, bits: seq<bool>): (r: WState)
    requires Ok(m, s)
    ensures Ok(m, r)
  {
    if bits == [] then s else PutBit(m, PutBits(m, s, bits[..|bits| - 1]), bits[|bits| - 1])
  }

  /** PutBits unfolded once at its last bit. */
  lemma PutBitsSnoc(m: Sink, s: WState, bits: seq<bool>, bit: bool)
    requires Ok(m, s)
    ensures PutBits(m, s, bits + [bit]) == PutBit(m, PutBits(m, s, bits), bit)
  {
    assert (bits + [bit])[..|bits|] == bits;
  }

  /** Writing a then c is writing a + c. */
  lemma {:induction false} PutBitsAppend(m: Sink, s: WState, a: seq<bool>, c: seq<bool>)
    requires Ok(m, s)
    ensures PutBits(m, s, a + c) == PutBits(m, PutBits(m, s, a), c)
  {
    if c == [] {
      assert a + c == a;
    } else {
      var d, bit := c[..|c| - 1], c[|c| - 1];
      assert c == d + [bit];
      assert a + c == (a + d) + [bit];
      PutBitsAppend(m, s, a, d);
      PutBitsSnoc(m, s, a + d, bit);
      PutBitsSnoc(m, PutBits(m, s, a), d, bit);
    }
  }

  /** Writing bits one at a time extends the stream by exactly those bits. */
  lemma {:induction false} BitsAppendToStream(m: Sink, s: WState, bits: seq<bool>)
    requires Ok(m, s)
    ensures Stream(PutBits(m, s, bits)) == Stream(s) + bits
  {
    if bits != [] {
      var a, bit := bits[..|bits| - 1], bits[|bits| - 1];
      BitsAppendToStream(m, s, a);
      BitAppends(m, PutBits(m, s, a), bit);
      assert bits == a + [bit];
    }
  }

  /** The number of pending bits after writing bits: the old count plus |bits|, modulo 8. */
  lemma {:induction false} PendingCount(m: Sink, s: WState, bits: seq<bool>)
    requires Ok(m, s)
    ensures Used(PutBits(m, s, bits).p) == (Used(s.p) + |bits|) % 8
  {
    if bits != [] {
      var a, bit := bits[..|bits| - 1], bits[|bits| - 1];
      PendingCount(m, s, a);
      var r := PutBits(m, s, a);
      BitPushes(m, r, bit);
      CountStep(Used(s.p) + |a|, Used(r.p), Used(PutBit(m, r, bit).p));
    }
  }

  /** One more bit: a count modulo 8 goes up by one, wrapping from 7 to 0. */
  lemma CountStep(n: nat, u: nat, v: nat)
    requires u == n % 8 && v == (if u == 7 then 0 else u + 1)
    ensures v == (n + 1) % 8
  {}

  /**
   * Fewer bits than are free only fill the pending byte: nothing is sent
   * or buffered.
   */
  lemma {:induction false} NoPush(m: Sink, s: WState, bits: seq<bool>)
    requires Ok(m, s) && Used(s.p) + |bits| < 8
    ensures var r := PutBits(m, s, bits);
      r.sent == s.sent && r.buf == s.buf && Used(r.p) == Used(s.p) + |bits|
  {
    if bits != [] {
      var a, bit := bits[..|bits| - 1], bits[|bits| - 1];
      NoPush(m, s, a);
      BitPushes(m, PutBits(m, s, a), bit);
    }
  }

  /**
   * Exactly as many bits as are free complete the pending byte: one byte is
   * pushed, the one the last bit completes, and the writer is aligned.
   */
  lemma Fills(m: Sink, s: WState, bits: seq<bool>)
    requires Ok(m, s) && Used(s.p) + |bits| == 8
    ensures var a := PutBits(m, s, bits[..|bits| - 1]);
      var r := PutBits(m, s, bits);
      (r.sent, r.buf) == Pushed(m, s.sent, s.buf, a.b | (if bits[|bits| - 1] then 1 else 0)) &&
      r.b == 0 && r.p == 8
  {
    var a := bits[..|bits| - 1];
    NoPush(m, s, a);
    var f := PutBits(m, s, a);
    assert Used(f.p) == 7;
    BitPushes(m, f, bits[|bits| - 1]);
  }

  // ---------------------------------------------------------------------------
  // Whole bytes

  /**
   * WriteByte: the pending bits and the high bits of x complete one byte,
   * which is pushed, and the low bits of x become the pending byte.
   */
  function PutByte(m: Sink, s: WState, x: bv8): (r: WState)
    requires Ok(m, s)
    ensures Ok(m, r) && r.p == s.p
  {
    var q := Pushed(m, s.sent, s.buf, s.b | (x >> (8 - s.p)));
    WState(q.0, q.1, x << s.p, s.p)
  }

  /** A byte extends the stream by its eight bits, high bit first. */
  lemma ByteAppends(m: Sink, s: WState, x: bv8)
    requires Ok(m, s)
    ensures Stream(PutByte(m, s, x)) == Stream(s) + ByteBits(x)
  {
    var out, n := s.sent + s.buf, Used(s.p);
    var c := s.b | (x >> (8 - s.p));
    var r := PutByte(m, s, x);
    BytePushes(m, s, x);
    PushedKeepsOrder(m, s.sent, s.buf, c);
    assert Stream(r) == Bits(out + [c]) + Top(x << s.p, n);
    ByteTop(s.b, s.p, x);
    BitsSnoc(out, c);
    Assoc(Bits(out), ByteBits(c), Top(x << s.p, n));
    Assoc(Bits(out), Top(s.b, n), ByteBits(x));
  }

  /** A byte pushes exactly one byte, and keeps the number of free bits. */
  lemma BytePushes(m: Sink, s: WState, x: bv8)
    requires Ok(m, s)
    ensures var q := Pushed(m, s.sent, s.buf, s.b | (x >> (8 - s.p)));
      PutByte(m, s, x) == WState(q.0, q.1, x << s.p, s.p)
  {}

  /**
   * What a byte does to the output: the bytes sent and buffered before it
   * stay, in order, exactly one byte follows them, and p is unchanged.
   */
  lemma ByteOutput(m: Sink, s: WState, x: bv8)
    requires Ok(m, s)
    ensures var r := PutByte(m, s, x);
      s.sent + s.buf <= r.sent + r.buf && |r.sent + r.buf| == |s.sent + s.buf| + 1 && r.p == s.p
  {
    BytePushes(m, s, x);
    PushedKeepsOrder(m, s.sent, s.buf, s.b | (x >> (8 - s.p)));
  }

  /**
   * Two states that push onto the same sent and buffered bytes, keep the
   * same number of bits pending and stand for the same stream are equal.
   */
  lemma SameStream(m: Sink, s: WState, c: bv8, d: bv8, r: WState, t: WState)
    requires BufferOk(m, s.buf) && Ok(m, r) && Ok(m, t) && r.p == t.p
    requires (r.sent, r.buf) == Pushed(m, s.sent, s.buf, c)
    requires (t.sent, t.buf) == Pushed(m, s.sent, s.buf, d)
    requires Stream(r) == Stream(t)
    ensures r == t
  {
    var n := Used(r.p);
    PushedKeepsOrder(m, s.sent, s.buf, c);
    PushedKeepsOrder(m, s.sent, s.buf, d);
    var u, v := s.sent + s.buf + [c], s.sent + s.buf + [d];
    assert Bits(u) + Top(r.b, n) == Bits(v) + Top(t.b, n);
    assert Bits(u) == Stream(r)[..8 * |u|] == Stream(t)[..8 * |v|] == Bits(v);
    assert Top(r.b, n) == Stream(r)[8 * |u|..] == Stream(t)[8 * |v|..] == Top(t.b, n);
    BitsInjective(u, v);
    assert c == u[|u| - 1] == v[|v| - 1] == d;
    PendingInjective(r.b, t.b, r.p);
  }

  /** WriteByte(x) does exactly what eight WriteBit calls do, high bit of x first. */
  lemma ByteIsEightBits(m: Sink, s: WState, x: bv8)
    requires Ok(m, s)
    ensures PutByte(m, s, x) == PutBits(m, s, ByteBits(x))
  {
    var c := EightBitsPushOnce(m, s, ByteBits(x));
    ByteAppends(m, s, x);
    BitsAppendToStream(m, s, ByteBits(x));
    BytePushes(m, s, x);
    SameStream(m, s, c, s.b | (x >> (8 - s.p)), PutBits(m, s, ByteBits(x)), PutByte(m, s, x));
  }

  /** Eight bits written one at a time push exactly one byte c and keep the number of free bits. */
  lemma EightBitsPushOnce(m: Sink, s: WState, bits: seq<bool>) returns (c: bv8)
    requires Ok(m, s) && |bits| == 8
    ensures var r := PutBits(m, s, bits);
      (r.sent, r.buf) == Pushed(m, s.sent, s.buf, c) && r.p == s.p
  {
    var n := 8 - Used(s.p);
    var a, rest := bits[..n], bits[n..];
    assert bits == a + rest;
    PutBitsAppend(m, s, a, rest);
    c := FillsThenHolds(m, s, a, rest);
  }

  /** Bits that complete the pending byte, then fewer than eight more: one push, the same free count. */
  lemma FillsThenHolds(m: Sink, s: WState, a: seq<bool>, rest: seq<bool>) returns (c: bv8)
    requires Ok(m, s) && Used(s.p) + |a| == 8 && |rest| == Used(s.p)
    ensures var r := PutBits(m, PutBits(m, s, a), rest);
      (r.sent, r.buf) == Pushed(m, s.sent, s.buf, c) && r.p == s.p
  {
    Fills(m, s, a);
    c := PutBits(m, s, a[..|a| - 1]).b | (if a[|a| - 1] then 1 else 0);
    var f := PutBits(m, s, a);
    NoPush(m, f, rest);
    var r := PutBits(m, f, rest);
    UsedInjective(r.p, s.p);
  }

  /** The state after writing each byte of bs in turn with WriteByte. */
  function PutBytes(m: Sink, s: WState, bs: seq<bv8>): (r: WState)
    requires Ok(m, s)
    ensures Ok(m, r) && r.p == s.p
  {
    if bs == [] then s else PutByte(m, PutBytes(m, s, bs[..|bs| - 1]), bs[|bs| - 1])
  }

  /** PutBytes unfolded once at its last byte. */
  lemma PutBytesSnoc(m: Sink, s: WState, bs: seq<bv8>, x: bv8)
    requires Ok(m, s)
    ensures PutBytes(m, s, bs + [x]) == PutByte(m, PutBytes(m, s, bs), x)
  {
    assert (bs + [x])[..|bs|] == bs;
  }

  /**
   * The bytes an unaligned Write pushes are those of the merge loop with
   * the 8 - p pending bits of b: each byte of bs merged behind the bits
   * carried from the byte before it, the last carry staying pending.
   */
  lemma {:induction false} UnalignedWriteMerges(m: Sink, s: WState, bs: seq<bv8>)
    requires Ok(m, s)
    ensures var r := PutBytes(m, s, bs);
      (r.sent, r.buf) == PushedAll(m, s.sent, s.buf, Merge(s.b, 8 - s.p, bs)) &&
      r.b == Carry(s.b, 8 - s.p, bs)
  {
    if bs != [] {
      var a, x := bs[..|bs| - 1], bs[|bs| - 1];
      assert bs == a + [x];
      UnalignedWriteMerges(m, s, a);
      PutBytesSnoc(m, s, a, x);
      MergeSnoc(s.b, 8 - s.p, a, x);
      PushedAllSnoc(m, s.sent, s.buf, Merge(s.b, 8 - s.p, a), MergedByte(Carry(s.b, 8 - s.p, a), 8 - s.p, x));
      assert 8 - (8 - s.p) == s.p;
    }
  }

  /** With a byte sink, an unaligned Write hands every merged byte to the sink at once. */
  lemma ByteSinkWrite(s: WState, bs: seq<bv8>)
    requires Ok(ByteSink, s)
    ensures PutBytes(ByteSink, s, bs).sent == s.sent + Merge(s.b, 8 - s.p, bs)
  {
    UnalignedWriteMerges(ByteSink, s, bs);
    PushedAllBuffers(ByteSink, s.sent, Merge(s.b, 8 - s.p, bs));
  }

  /** Writing bytes one at a time extends the stream by exactly their bits. */
  lemma {:induction false} BytesAppendToStream(m: Sink, s: WState, bs: seq<bv8>)
    requires Ok(m, s)
    ensures Stream(PutBytes(m, s, bs)) == Stream(s) + Bits(bs)
  {
    if bs != [] {
      var a, x := bs[..|bs| - 1], bs[|bs| - 1];
      BytesAppendToStream(m, s, a);
      ByteAppends(m, PutBytes(m, s, a), x);
      assert bs == a + [x];
      BitsSnoc(a, x);
    }
  }

  // ---------------------------------------------------------------------------
  // Padding

  /**
   * The number of bits Flush and FlushOnes add when p bits of the pending
   * byte are free: none when aligned, otherwise exactly the free bits, so
   * that the stream ends on a byte boundary.
   */
  function Padding(p: bv8): (n: nat)
    requires 1 <= p <= 8
    ensures n < 8
    ensures (Used(p) + n) % 8 == 0
    ensures n == 0 <==> p == 8
  {
    if p == 8 then 0 else 8 - Used(p)
  }

  /** One more bit of padding leaves one free bit fewer to fill. */
  lemma PadStep(m: Sink, s: WState, bits: seq<bool>, bit: bool)
    requires Ok(m, s) && PutBits(m, s, bits).p != 8
    ensures var r := PutBits(m, s, bits);
      PutBits(m, s, bits + [bit]) == PutBit(m, r, bit) && Padding(PutBit(m, r, bit).p) + 1 == Padding(r.p)
  {
    var r := PutBits(m, s, bits);
    PutBitsSnoc(m, s, bits, bit);
    BitPushes(m, r, bit);
    UsedValue(r.p);
  }

  /**
   * Writing the padding's worth of bits leaves the writer aligned with every
   * bit in sent or buffered bytes: the old stream followed by the pad.
   */
  lemma Aligns(m: Sink, s: WState, pad: seq<bool>)
    requires Ok(m, s) && |pad| == Padding(s.p)
    ensures var r := PutBits(m, s, pad);
      r.p == 8 && r.b == 0 && Bits(r.sent + r.buf) == Stream(s) + pad &&
      (s.p == 8 ==> r == s)
  {
    var r := PutBits(m, s, pad);
    PendingCount(m, s, pad);
    BitsAppendToStream(m, s, pad);
    assert HoldsOnly(r.b, 0);
  }

  // ---------------------------------------------------------------------------
  // Sending the buffer

  /** flush: the buffered bytes are handed to the sink as well, and stay buffered. */
  function SendBuffer(s: WState): (r: WState)
    ensures s.sent <= r.sent && r.sent[|s.sent|..] == s.buf
    ensures r.buf == s.buf && r.b == s.b && r.p == s.p
  {
    s.(sent := s.sent + s.buf)
  }

  /**
   * Write when aligned: the buffered bytes are handed to the sink, and stay
   * buffered; then bs goes to the sink directly, bypassing the buffer.
   */
  function WriteAligned(s: WState, bs: seq<bv8>): (r: WState)
    ensures s.sent <= r.sent && r.sent[|s.sent|..] == s.buf + bs
    ensures r.buf == s.buf && r.b == s.b && r.p == s.p
  {
    s.(sent := s.sent + s.buf + bs)
  }

  /**
   * An aligned Write keeps the invariant and sends, in order, everything
   * written before it and then bs. The buffer is not emptied, so from then
   * on its bytes stand in the stream a second time, behind bs.
   */
  lemma AlignedWriteSends(m: Sink, s: WState, bs: seq<bv8>)
    requires Ok(m, s) && s.p == 8
    ensures var r := WriteAligned(s, bs);
      Ok(m, r) && Bits(r.sent) == Stream(s) + Bits(bs) &&
      Stream(r) == Stream(s) + Bits(bs) + Bits(s.buf)
  {
    var r := WriteAligned(s, bs);
    assert Top(s.b, 0) == [];
    BitsAppend(s.sent + s.buf, bs);
    BitsAppend(r.sent, s.buf);
  }

  /**
   * Flush and FlushOnes: once the pad has been written, every bit written
   * so far, followed by the pad, has been handed to the sink; the writer is
   * aligned and still holds its buffered bytes. When it was aligned
   * already, nothing is padded and only the buffer is sent.
   */
  lemma FlushSends(m: Sink, s: WState, pad: seq<bool>)
    requires Ok(m, s) && |pad| == Padding(s.p)
    ensures var r := SendBuffer(PutBits(m, s, pad));
      Ok(m, r) && r.p == 8 && r.b == 0 && Bits(r.sent) == Stream(s) + pad &&
      (s.p == 8 ==> r == SendBuffer(s))
  {
    Aligns(m, s, pad);
  }
}
