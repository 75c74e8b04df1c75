/**
 * What each operation of the bit reader (reader.go) does to its state,
 * written as functions on a state value, and what they mean as bits.
 *
 * A reader draws bytes from a source, here the byte sequence src of which
 * the first pos bytes have been taken. It keeps one byte b whose top p bits
 * (0 to 7) are read from the source but not yet returned; every other bit
 * of b is zero. What is left to read is those p bits, then the bits of the
 * bytes not yet taken.
 */
module ReaderState {
  import opened BitModel
  import opened WordModel
  import opened FieldModel
  import opened WholeBytes

  /** How far the source has been taken, and the byte b holding p unread bits at its top. */
  datatype RState = RState(pos: nat, b: bv8, p: bv8)

  /** The invariant every reader keeps. */
  predicate Fine(src: seq<bv8>, s: RState) {
    s.pos <= |src| && s.p < 8 && HoldsOnly(s.b, s.p)
  }

  /** The count p of held bits, as a length. */
  function Avail(p: bv8): (n: nat)
    requires p < 8
    ensures n < 8
    ensures n == 0 <==> p == 0
  {
    if p == 0 then 0 else if p == 1 then 1 else if p == 2 then 2 else if p == 3 then 3
    else if p == 4 then 4 else if p == 5 then 5 else if p == 6 then 6 else 7
  }

  lemma AvailValue(p: bv8)
    requires p < 8
    ensures Avail(p) == p as int
    ensures 0 < p ==> Avail(p - 1) + 1 == Avail(p)
  {}

  /** Everything still to be read, as bits. */
  ghost function Remaining(src: seq<bv8>, s: RState): (bits: seq<bool>)
    requires s.pos <= |src| && s.p < 8
    ensures |bits| == Count(src, s)
  {
    Top(s.b, Avail(s.p)) + Bits(src[s.pos..])
  }

  /** How many bits are still to be read. */
  function Count(src: seq<bv8>, s: RState): nat
    requires s.pos <= |src| && s.p < 8
  {
    Avail(s.p) + 8 * (|src| - s.pos)
  }

  /** The untaken bytes are the first one, then the rest. */
  lemma SourceStep(src: seq<bv8>, pos: nat)
    requires pos < |src|
    ensures Bits(src[pos..]) == ByteBits(src[pos]) + Bits(src[pos + 1..])
  {
    assert src[pos..][1..] == src[pos + 1..];
  }

  /** ReadBit when a bit is left: a held bit if there is one, else the top bit of the next byte. */
  function NextBit(src: seq<bv8>, s: RState): (r: (bool, RState))
    requires Fine(src, s) && 0 < Count(src, s)
    ensures Fine(src, r.1) && Count(src, r.1) + 1 == Count(src, s)
  {
    AvailValue(s.p);
    if s.p > 0 then
      TakeAt(s.b, s.p, 0);
      (s.b & 0x80 != 0, RState(s.pos, s.b << 1, s.p - 1))
    else
      var x := src[s.pos];
      TakeAt(x, 8, 0);
      (x & 0x80 != 0, RState(s.pos + 1, x << 1, 7))
  }

  /** ReadBit returns the first bit left and leaves the rest. */
  lemma BitTaken(src: seq<bv8>, s: RState)
    requires Fine(src, s) && 0 < Count(src, s)
    ensures var r := NextBit(src, s);
      Remaining(src, s) == [r.0] + Remaining(src, r.1)
  {
    if s.p > 0 {
      HeldBitTaken(src, s);
    } else {
      FreshBitTaken(src, s);
    }
  }

  lemma HeldBitTaken(src: seq<bv8>, s: RState)
    requires Fine(src, s) && 0 < s.p
    ensures var r := NextBit(src, s);
      Remaining(src, s) == [r.0] + Remaining(src, r.1)
  {
    var r := NextBit(src, s);
    AvailValue(s.p);
    TakeBit(s.b, s.p, Avail(s.p));
    Assoc([r.0], Top(r.1.b, Avail(r.1.p)), Bits(src[s.pos..]));
  }

  lemma FreshBitTaken(src: seq<bv8>, s: RState)
    requires Fine(src, s) && s.p == 0 && s.pos < |src|
    ensures var r := NextBit(src, s);
      Remaining(src, s) == [r.0] + Remaining(src, r.1)
  {
    var r := NextBit(src, s);
    var x := src[s.pos];
    SourceStep(src, s.pos);
    TakeBit(x, 8, 8);
    TopFull(x);
    assert Top(s.b, Avail(s.p)) == [];
    Assoc([r.0], Top(r.1.b, 7), Bits(src[s.pos + 1..]));
  }

  /**
   * ReadByte when a byte is left in the source: the held bits, then the top
   * bits of the next byte; its low bits are held in their place.
   */
  function NextByte(src: seq<bv8>, s: RState): (r: (bv8, RState))
    requires Fine(src, s) && s.pos < |src|
    ensures Fine(src, r.1) && r.1.pos == s.pos + 1 && r.1.p == s.p
  {
    var x := src[s.pos];
    if s.p == 0 then (x, RState(s.pos + 1, s.b, s.p))
    else
      CarryAt(s.p, x, 0);
      (s.b | (x >> s.p), RState(s.pos + 1, x << (8 - s.p), s.p))
  }

  /** ReadByte returns the first eight bits left and leaves the rest. */
  lemma ByteTaken(src: seq<bv8>, s: RState)
    requires Fine(src, s) && s.pos < |src|
    ensures var r := NextByte(src, s);
      Remaining(src, s) == ByteBits(r.0) + Remaining(src, r.1)
  {
    var r := NextByte(src, s);
    var x := src[s.pos];
    var n := Avail(s.p);
    AvailValue(s.p);
    SourceStep(src, s.pos);
    if s.p == 0 {
      assert Top(s.b, n) == [];
    } else {
      MergeStep(s.b, s.p, n, x);
      Rebracket(Top(s.b, n), ByteBits(x), ByteBits(r.0), Top(r.1.b, n), Bits(src[s.pos + 1..]));
    }
  }

  lemma Rebracket(t: seq<bool>, x: seq<bool>, m: seq<bool>, d: seq<bool>, rest: seq<bool>)
    requires m + d == t + x
    ensures t + (x + rest) == m + (d + rest)
  {
    calc {
      t + (x + rest);
      (t + x) + rest;
      (m + d) + rest;
    }
  }

  /**
   * ReadBytes into L bytes when L bytes are left in the source: the next L
   * bytes, each merged with the bits held before it when bits are held.
   */
  function NextBytes(src: seq<bv8>, s: RState, L: nat): (r: (seq<bv8>, RState))
    requires Fine(src, s) && L <= |src| - s.pos
    ensures |r.0| == L && Fine(src, r.1) && r.1.pos == s.pos + L && r.1.p == s.p
    ensures Count(src, r.1) + 8 * L == Count(src, s)
  {
    var xs := src[s.pos..s.pos + L];
    if s.p == 0 then (xs, RState(s.pos + L, s.b, s.p))
    else
      MergeBits(s.b, s.p, Avail(s.p), xs);
      (Merge(s.b, s.p, xs), RState(s.pos + L, Carry(s.b, s.p, xs), s.p))
  }

  /**
   * The early return of ReadBytes when no bits are held agrees with the
   * merge loop: in every case the bytes returned are the next L bytes
   * merged behind the held bits, and the last carry is held.
   */
  lemma BytesMerged(src: seq<bv8>, s: RState, L: nat)
    requires Fine(src, s) && L <= |src| - s.pos
    ensures var xs := src[s.pos..s.pos + L];
      NextBytes(src, s, L) == (Merge(s.b, s.p, xs), RState(s.pos + L, Carry(s.b, s.p, xs), s.p))
  {
    if s.p == 0 {
      var xs := src[s.pos..s.pos + L];
      assert s.b == 0;
      MergeAligned(xs);
    }
  }

  /** ReadBytes returns the first 8 * L bits left and leaves the rest. */
  lemma BytesTaken(src: seq<bv8>, s: RState, L: nat)
    requires Fine(src, s) && L <= |src| - s.pos
    ensures var r := NextBytes(src, s, L);
      Remaining(src, s) == Bits(r.0) + Remaining(src, r.1)
  {
    var r := NextBytes(src, s, L);
    var xs := src[s.pos..s.pos + L];
    var n := Avail(s.p);
    AvailValue(s.p);
    assert src[s.pos..] == xs + src[s.pos + L..];
    BitsAppend(xs, src[s.pos + L..]);
    if s.p == 0 {
      assert Top(s.b, n) == [];
    } else {
      MergeBits(s.b, s.p, n, xs);
      Rebracket(Top(s.b, n), Bits(xs), Bits(r.0), Top(r.1.b, n), Bits(src[s.pos + L..]));
    }
  }

  /** L calls of ReadByte, one after the other. */
  function ByteByByte(src: seq<bv8>, s: RState, L: nat): (r: (seq<bv8>, RState))
    requires Fine(src, s) && L <= |src| - s.pos
    ensures |r.0| == L && Fine(src, r.1) && r.1.pos == s.pos + L && r.1.p == s.p
  {
    if L == 0 then ([], s)
    else
      var t := ByteByByte(src, s, L - 1);
      var q := NextByte(src, t.1);
      (t.0 + [q.0], q.1)
  }

  /** Reading L bytes at once gives the same bytes and the same state as reading them one by one. */
  lemma {:induction false} BytesAreSingleBytes(src: seq<bv8>, s: RState, L: nat)
    requires Fine(src, s) && L <= |src| - s.pos
    ensures NextBytes(src, s, L) == ByteByByte(src, s, L)
  {
    if L > 0 {
      BytesAreSingleBytes(src, s, L - 1);
      var xs := src[s.pos..s.pos + L - 1];
      var x := src[s.pos + L - 1];
      assert src[s.pos..s.pos + L] == xs + [x];
      if s.p != 0 {
        MergeSnoc(s.b, s.p, xs, x);
      }
    }
  }

  /** k calls of ReadBit, one after the other, with the bits they return. */
  ghost function NextBits(src: seq<bv8>, s: RState, k: nat): (r: (seq<bool>, RState))
    requires Fine(src, s) && k <= Count(src, s)
    ensures |r.0| == k && Fine(src, r.1) && Count(src, r.1) + k == Count(src, s)
  {
    if k == 0 then ([], s)
    else
      var t := NextBits(src, s, k - 1);
      var q := NextBit(src, t.1);
      (t.0 + [q.0], q.1)
  }

  /** ReadBit k times returns the first k bits left and leaves the rest. */
  lemma {:induction false} BitsTaken(src: seq<bv8>, s: RState, k: nat)
    requires Fine(src, s) && k <= Count(src, s)
    ensures var r := NextBits(src, s, k);
      Remaining(src, s) == r.0 + Remaining(src, r.1)
  {
    if k > 0 {
      var t := NextBits(src, s, k - 1);
      BitsTaken(src, s, k - 1);
      BitTaken(src, t.1);
      Assoc(t.0, [NextBit(src, t.1).0], Remaining(src, NextBit(src, t.1).1));
    }
  }

  /** ReadBits(n) when n bits are left: n / 8 bytes at once, then n % 8 single bits. */
  ghost function Field(src: seq<bv8>, s: RState, n: nat): (r: (seq<bool>, RState))
    requires Fine(src, s) && n <= Count(src, s)
    ensures |r.0| == n && Fine(src, r.1) && Count(src, r.1) + n == Count(src, s)
  {
    var t := NextBytes(src, s, n / 8);
    var q := NextBits(src, t.1, n % 8);
    (Bits(t.0) + q.0, q.1)
  }

  /** Reading no whole bytes changes nothing. */
  lemma NoBytes(src: seq<bv8>, s: RState)
    requires Fine(src, s)
    ensures NextBytes(src, s, 0) == ([], s)
  {
    assert src[s.pos..s.pos] == [];
  }

  /** Field, given the state and the bits after its whole bytes. */
  lemma FieldOf(src: seq<bv8>, s: RState, n: nat, mid: RState, done: seq<bool>)
    requires Fine(src, s) && n <= Count(src, s)
    requires mid == NextBytes(src, s, n / 8).1 && done == Bits(NextBytes(src, s, n / 8).0)
    ensures Field(src, s, n) == (done + NextBits(src, mid, n % 8).0, NextBits(src, mid, n % 8).1)
  {}

  /** ReadBits(n) reads exactly the first n bits left, whatever its split into bytes and bits. */
  lemma FieldTaken(src: seq<bv8>, s: RState, n: nat)
    requires Fine(src, s) && n <= Count(src, s)
    ensures var r := Field(src, s, n);
      r.0 == Remaining(src, s)[..n] && Remaining(src, r.1) == Remaining(src, s)[n..]
  {
    var t := NextBytes(src, s, n / 8);
    var q := NextBits(src, t.1, n % 8);
    BytesTaken(src, s, n / 8);
    BitsTaken(src, t.1, n % 8);
    Assoc(Bits(t.0), q.0, Remaining(src, q.1));
  }

  /** Eight bits at i that spell x move x in at the bottom of the value read so far. */
  lemma ValueAt(s: seq<bool>, i: nat, x: bv8)
    requires i + 8 <= |s| && forall j | 0 <= j < 8 :: s[i + j] == BitAt(x, j)
    ensures ValueOf(s, i + 8) == (ValueOf(s, i) << 8) | (x as bv64)
  {
    ValueByte(s, i, x);
  }

  /** The value of some bits followed by the eight bits of x. */
  lemma ValueAppendByte(a: seq<bool>, x: bv8)
    ensures FromBits(a + ByteBits(x)) == (FromBits(a) << 8) | (x as bv64)
  {
    ValueAtEnd(a, x);
    assert (a + ByteBits(x))[..|a|] == a;
    FromBitsPrefix(a + ByteBits(x), |a|);
  }

  lemma ValueAtEnd(a: seq<bool>, x: bv8)
    ensures ValueOf(a + ByteBits(x), |a| + 8) == (ValueOf(a + ByteBits(x), |a|) << 8) | (x as bv64)
  {
    SpelledAtEnd(a, x);
    ValueAt(a + ByteBits(x), |a|, x);
  }

  lemma SpelledAtEnd(a: seq<bool>, x: bv8)
    ensures |a + ByteBits(x)| == |a| + 8
    ensures forall j | 0 <= j < 8 :: (a + ByteBits(x))[|a| + j] == BitAt(x, j)
  {
    var s := a + ByteBits(x);
    assert forall j | 0 <= j < 8 :: s[|a| + j] == ByteBits(x)[j];
  }

  /** The bytes moved in at the bottom of a word, one after the other: the value of their bits. */
  lemma AssembleStep(xs: seq<bv8>, x: bv8)
    ensures FromBits(Bits(xs + [x])) == (FromBits(Bits(xs)) << 8) | (x as bv64)
  {
    BitsSnoc(xs, x);
    ValueAppendByte(Bits(xs), x);
  }

  /**
   * What ReadBits returns holds the bits it read: at most 64 of them fit,
   * and writing the result back as a field of that width gives them back.
   */
  lemma FieldValueRead(src: seq<bv8>, s: RState, n: nat)
    requires Fine(src, s) && n <= Count(src, s) && n <= 64
    ensures var u := FromBits(Field(src, s, n).0);
      Fits(u, n) && FieldBits(u, n) == Remaining(src, s)[..n]
  {
    FieldTaken(src, s, n);
    FromBitsFits(Field(src, s, n).0);
    FieldFromBits(Field(src, s, n).0);
  }

  /** Merge, one byte at a time: each merged byte takes the carry of the byte before it. */
  lemma {:induction false} MergeIndex(c: bv8, k: bv8, xs: seq<bv8>, j: nat)
    requires k < 8 && j < |xs|
    ensures Merge(c, k, xs)[j] == MergedByte(if j == 0 then c else Leftover(k, xs[j - 1]), k, xs[j])
    decreases |xs|
  {
    var ys := xs[..|xs| - 1];
    if j < |ys| {
      MergeIndex(c, k, ys, j);
    }
  }

  /** One more bit read: the value so far shifted up, with the bit at the bottom. */
  lemma ShiftIn(a: seq<bool>, bit: bool)
    ensures FromBits(a + [bit]) == if bit then (FromBits(a) << 1) | 1 else FromBits(a) << 1
  {
    FromBitsSnoc(a, bit);
  }

  /** When what is left starts with the bit x, ReadBit succeeds and returns x. */
  lemma BitReadBack(src: seq<bv8>, s: RState, x: bool, rest: seq<bool>)
    requires Fine(src, s) && Remaining(src, s) == [x] + rest
    ensures 0 < Count(src, s)
    ensures NextBit(src, s).0 == x && Remaining(src, NextBit(src, s).1) == rest
  {
    var r := NextBit(src, s);
    BitTaken(src, s);
    assert ([r.0] + Remaining(src, r.1))[0] == r.0 && ([r.0] + Remaining(src, r.1))[1..] == Remaining(src, r.1);
    assert ([x] + rest)[1..] == rest;
  }

  /** When what is left starts with the bits of xs, ReadBytes into |xs| bytes succeeds and returns xs. */
  lemma BytesReadBack(src: seq<bv8>, s: RState, xs: seq<bv8>, rest: seq<bool>)
    requires Fine(src, s) && Remaining(src, s) == Bits(xs) + rest
    ensures |xs| <= |src| - s.pos
    ensures NextBytes(src, s, |xs|).0 == xs && Remaining(src, NextBytes(src, s, |xs|).1) == rest
  {
    var all := Remaining(src, s);
    var k := 8 * |xs|;
    assert k + |rest| == Avail(s.p) + 8 * (|src| - s.pos);
    var r := NextBytes(src, s, |xs|);
    BytesTaken(src, s, |xs|);
    assert Bits(r.0) == all[..k] && Remaining(src, r.1) == all[k..];
    assert Bits(xs) == all[..k] && rest == all[k..];
    BitsInjective(r.0, xs);
  }

  /** Fewer than eight bits left: they are held bits, and no byte is left in the source. */
  lemma SourceDrained(src: seq<bv8>, s: RState)
    requires Fine(src, s) && Count(src, s) < 8
    ensures s.pos == |src|
  {}
}
