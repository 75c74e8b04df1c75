/**
 * The bit-level view of a byte stream that the writer and the reader share.
 *
 * Bytes are written and read most significant bit first, so a byte stream
 * stands for the concatenation of the bit sequences of its bytes. Each side
 * keeps one partial byte whose top k bits are in use; the rest of it is zero.
 *
 * Dafny's `<<` and `>>` bind more loosely than `|` and `&`, so every shift
 * below is parenthesised. A shift by the full width of a bit-vector yields
 * zero, which is also Go's rule for shifting a byte by 8.
 */
module BitModel {

  // ---------------------------------------------------------------------------
  // Bytes as bits

  /** The mask that selects bit i of a byte, counting from the most significant. */
  function BitMask(i: nat): bv8
    requires i < 8
  {
    if i == 0 then 0x80 else if i == 1 then 0x40 else if i == 2 then 0x20
    else if i == 3 then 0x10 else if i == 4 then 0x08 else if i == 5 then 0x04
    else if i == 6 then 0x02 else 0x01
  }

  /** Bit i of x, counting from the most significant. */
  predicate BitAt(x: bv8, i: nat)
    requires i < 8
  {
    x & BitMask(i) != 0
  }

  /** The eight bits of a byte, most significant first. */
  function ByteBits(x: bv8): (s: seq<bool>)
    ensures |s| == 8
    ensures forall i | 0 <= i < 8 :: s[i] == BitAt(x, i)
  {
    seq(8, i requires 0 <= i < 8 => BitAt(x, i))
  }

  /** The bits of a byte sequence, each byte most significant bit first. */
  function Bits(bs: seq<bv8>): (s: seq<bool>)
    ensures |s| == 8 * |bs|
  {
    if bs == [] then [] else ByteBits(bs[0]) + Bits(bs[1..])
  }

  lemma ByteBitsInjective(x: bv8, y: bv8)
    requires ByteBits(x) == ByteBits(y)
    ensures x == y
  {
    assert ByteBits(x)[0] == ByteBits(y)[0] && ByteBits(x)[1] == ByteBits(y)[1];
    assert ByteBits(x)[2] == ByteBits(y)[2] && ByteBits(x)[3] == ByteBits(y)[3];
    assert ByteBits(x)[4] == ByteBits(y)[4] && ByteBits(x)[5] == ByteBits(y)[5];
    assert ByteBits(x)[6] == ByteBits(y)[6] && ByteBits(x)[7] == ByteBits(y)[7];
    SameBits(x, y);
  }

  lemma SameBits(x: bv8, y: bv8)
    requires BitAt(x, 0) == BitAt(y, 0) && BitAt(x, 1) == BitAt(y, 1)
    requires BitAt(x, 2) == BitAt(y, 2) && BitAt(x, 3) == BitAt(y, 3)
    requires BitAt(x, 4) == BitAt(y, 4) && BitAt(x, 5) == BitAt(y, 5)
    requires BitAt(x, 6) == BitAt(y, 6) && BitAt(x, 7) == BitAt(y, 7)
    ensures x == y
  {}

  /** Bits distributes over concatenation. */
  lemma {:induction false} BitsAppend(a: seq<bv8>, b: seq<bv8>)
    ensures Bits(a + b) == Bits(a) + Bits(b)
  {
    if a == [] {
      assert a + b == b;
    } else {
      assert (a + b)[1..] == a[1..] + b;
      BitsAppend(a[1..], b);
    }
  }

  lemma BitsSnoc(a: seq<bv8>, x: bv8)
    ensures Bits(a + [x]) == Bits(a) + ByteBits(x)
  {
    BitsAppend(a, [x]);
    assert Bits([x]) == ByteBits(x) + Bits([]);
  }

  /** A byte stream is determined by its bits. */
  lemma {:induction false} BitsInjective(a: seq<bv8>, b: seq<bv8>)
    requires Bits(a) == Bits(b)
    ensures a == b
  {
    if a != [] {
      assert |b| == |a|;
      assert Bits(a)[..8] == ByteBits(a[0]) && Bits(a)[8..] == Bits(a[1..]);
      assert Bits(b)[..8] == ByteBits(b[0]) && Bits(b)[8..] == Bits(b[1..]);
      ByteBitsInjective(a[0], b[0]);
      BitsInjective(a[1..], b[1..]);
      assert a == [a[0]] + a[1..] && b == [b[0]] + b[1..];
    }
  }

  /**
   * Regrouping a concatenation. Stated on its own so that callers can
   * regroup pieces made of bits of bytes without the solver looking inside.
   */
  lemma Assoc<T>(a: seq<T>, b: seq<T>, c: seq<T>)
    ensures (a + b) + c == a + (b + c)
  {}

  // ---------------------------------------------------------------------------
  // A partially filled byte
  //
  // The shift amounts that act on a partial byte are bv8 values k, so that
  // shifts stay in bit-vector arithmetic; the matching length of a bit
  // sequence is a nat n with n == k as int. The conversion between the two
  // is kept inside the lemmas of this section.

  /** The first n bits of x: what a byte whose top n bits are in use holds. */
  function Top(x: bv8, n: nat): (s: seq<bool>)
    requires n <= 8
    ensures |s| == n
  {
    ByteBits(x)[..n]
  }

  /** Every bit of x below its top k bits is zero (for k = 0, x is zero). */
  predicate HoldsOnly(x: bv8, k: bv8)
    requires k <= 8
  {
    x << k == 0
  }

  /** Bit-level facts behind AppendZero and AppendOne, kept apart from sequences. */
  lemma AppendAt(x: bv8, k: bv8, i: nat)
    requires k < 8 && HoldsOnly(x, k) && i < 8
    ensures i < k as int ==> BitAt(x | (1 << (7 - k)), i) == BitAt(x, i)
    ensures i == k as int ==> BitAt(x | (1 << (7 - k)), i) && !BitAt(x, i)
    ensures HoldsOnly(x, k + 1) && HoldsOnly(x | (1 << (7 - k)), k + 1)
  {}

  /** The next free position of a byte holding k bits reads as a zero bit. */
  lemma AppendZero(x: bv8, k: bv8, n: nat)
    requires k < 8 && n == k as int && HoldsOnly(x, k)
    ensures Top(x, n + 1) == Top(x, n) + [false]
    ensures HoldsOnly(x, k + 1)
  {
    AppendAt(x, k, n);
  }

  /** Setting bit 7 - k of a byte holding k bits appends a one bit. */
  lemma AppendOne(x: bv8, k: bv8, n: nat)
    requires k < 8 && n == k as int && HoldsOnly(x, k)
    ensures Top(x | (1 << (7 - k)), n + 1) == Top(x, n) + [true]
    ensures HoldsOnly(x | (1 << (7 - k)), k + 1)
  {
    var y := x | (1 << (7 - k));
    AppendAt(x, k, 0);
    forall i | 0 <= i <= n ensures Top(y, n + 1)[i] == (Top(x, n) + [true])[i] {
      AppendAt(x, k, i);
    }
  }

  /** All eight bits of a byte are in use. */
  lemma TopFull(x: bv8)
    ensures Top(x, 8) == ByteBits(x)
  {}

  /** Below its top k bits a byte holding only k bits is zero. */
  lemma BelowTop(x: bv8, k: bv8, i: nat)
    requires k <= 8 && HoldsOnly(x, k) && k as int <= i < 8
    ensures !BitAt(x, i)
  {}

  /** A byte holding only its top k bits is determined by them. */
  lemma TopInjective(x: bv8, y: bv8, k: bv8, n: nat)
    requires k <= 8 && n == k as int && HoldsOnly(x, k) && HoldsOnly(y, k)
    requires Top(x, n) == Top(y, n)
    ensures x == y
  {
    forall i | 0 <= i < 8
      ensures BitAt(x, i) == BitAt(y, i)
    {
      if i < n {
        assert Top(x, n)[i] == Top(y, n)[i];
      } else {
        BelowTop(x, k, i);
        BelowTop(y, k, i);
      }
    }
    SameBits(x, y);
  }

  /** Bit-level facts behind TakeBit. */
  lemma TakeAt(x: bv8, k: bv8, i: nat)
    requires 0 < k <= 8 && HoldsOnly(x, k) && i < 8
    ensures i < 7 ==> BitAt(x << 1, i) == BitAt(x, i + 1)
    ensures HoldsOnly(x << 1, k - 1)
    ensures BitAt(x, 0) == (x & 0x80 != 0)
  {}

  /** Taking the first of the k bits a byte holds: shift it out at the top. */
  lemma TakeBit(x: bv8, k: bv8, n: nat)
    requires 0 < k <= 8 && n == k as int && HoldsOnly(x, k)
    ensures Top(x, n) == [x & 0x80 != 0] + Top(x << 1, n - 1)
    ensures HoldsOnly(x << 1, k - 1)
  {
    TakeAt(x, k, 0);
    TakeShift(ByteBits(x), ByteBits(x << 1), n);
  }

  /** Sequence form of TakeBit: dropping the first of k bits. */
  lemma TakeShift(all: seq<bool>, rest: seq<bool>, k: nat)
    requires |all| == |rest| == 8 && 0 < k <= 8
    requires forall i | 0 <= i < 7 :: rest[i] == all[i + 1]
    ensures all[..k] == [all[0]] + rest[..k - 1]
  {
    assert all[..k] == [all[0]] + all[1..k];
  }

  // ---------------------------------------------------------------------------
  // Merging whole bytes behind k pending bits

  /** Bit-level facts about the merged byte c | (x >> k). */
  lemma MergeAt(c: bv8, k: bv8, x: bv8, i: nat)
    requires k < 8 && HoldsOnly(c, k) && i < 8
    ensures i < k as int ==> BitAt(c | (x >> k), i) == BitAt(c, i)
    ensures k as int <= i ==> BitAt(c | (x >> k), i) == BitAt(x, i - k as int)
  {}

  /** Bit-level facts about the carried remainder x << (8 - k). */
  lemma CarryAt(k: bv8, x: bv8, i: nat)
    requires k < 8 && i < 8
    ensures i < k as int ==> BitAt(x << (8 - k), i) == BitAt(x, 8 - k as int + i)
    ensures HoldsOnly(x << (8 - k), k)
  {}

  /**
   * One step of the byte merge: behind k pending bits held in c, the byte x
   * comes out as the complete byte c | (x >> k) and leaves its low k bits
   * pending in x << (8 - k). No bit is lost, duplicated or reordered.
   */
  lemma MergeStep(c: bv8, k: bv8, n: nat, x: bv8)
    requires k < 8 && n == k as int && HoldsOnly(c, k)
    ensures ByteBits(c | (x >> k)) + Top(x << (8 - k), n) == Top(c, n) + ByteBits(x)
    ensures HoldsOnly(x << (8 - k), k)
  {
    var m, d, t, b := ByteBits(c | (x >> k)), Top(x << (8 - k), n), Top(c, n), ByteBits(x);
    CarryAt(k, x, 0);
    forall i | 0 <= i < 8 ensures m[i] == if i < n then t[i] else b[i - n] {
      MergeAt(c, k, x, i);
    }
    forall i | 0 <= i < n ensures d[i] == b[8 - n + i] {
      CarryAt(k, x, i);
    }
    SplitMergedByte(m, d, t, b, n);
  }

  /** The sequence shape of MergeStep: m + d and t + b agree at every index. */
  lemma SplitMergedByte(m: seq<bool>, d: seq<bool>, t: seq<bool>, b: seq<bool>, n: nat)
    requires |m| == |b| == 8 && |d| == |t| == n < 8
    requires forall i | 0 <= i < 8 :: m[i] == if i < n then t[i] else b[i - n]
    requires forall i | 0 <= i < n :: d[i] == b[8 - n + i]
    ensures m + d == t + b
  {
    assert forall i | 0 <= i < 8 + n :: (m + d)[i] == (t + b)[i];
  }

  /** The complete byte made of the k bits pending in c and the high 8 - k bits of x. */
  function MergedByte(c: bv8, k: bv8, x: bv8): bv8
    requires k < 8
  {
    c | (x >> k)
  }

  /** The low k bits of x, moved to the top: what stays pending after x is merged. */
  function Leftover(k: bv8, x: bv8): bv8
    requires k < 8
  {
    x << (8 - k)
  }

  /**
   * The bytes produced by the merge loop that the writer's unaligned Write
   * and the reader's ReadBytes both run: k bits pending at the top of c,
   * then the bytes xs, each split into a high part merged into the pending
   * byte and a low part carried to the next.
   */
  function Merge(c: bv8, k: bv8, xs: seq<bv8>): (r: seq<bv8>)
    requires k < 8
    ensures |r| == |xs|
  {
    if xs == [] then []
    else Merge(c, k, xs[..|xs| - 1]) + [MergedByte(Carry(c, k, xs[..|xs| - 1]), k, xs[|xs| - 1])]
  }

  /** The pending byte after the merge loop. */
  function Carry(c: bv8, k: bv8, xs: seq<bv8>): (r: bv8)
    requires k < 8
    ensures xs == [] ==> r == c
    ensures xs != [] || HoldsOnly(c, k) ==> HoldsOnly(r, k)
  {
    if xs == [] then c
    else
      CarryAt(k, xs[|xs| - 1], 0);
      Leftover(k, xs[|xs| - 1])
  }

  /** Merge and Carry unfolded once at the last byte. */
  lemma MergeSnoc(c: bv8, k: bv8, xs: seq<bv8>, x: bv8)
    requires k < 8
    ensures Merge(c, k, xs + [x]) == Merge(c, k, xs) + [MergedByte(Carry(c, k, xs), k, x)]
    ensures Carry(c, k, xs + [x]) == Leftover(k, x)
  {
    assert (xs + [x])[..|xs|] == xs;
  }

  /**
   * The merge loop keeps the bit stream intact: the merged bytes followed by
   * the new pending bits are the old pending bits followed by all of xs.
   */
  lemma {:induction false} MergeBits(c: bv8, k: bv8, n: nat, xs: seq<bv8>)
    requires k < 8 && n == k as int && HoldsOnly(c, k)
    ensures Bits(Merge(c, k, xs)) + Top(Carry(c, k, xs), n) == Top(c, n) + Bits(xs)
    ensures HoldsOnly(Carry(c, k, xs), k)
  {
    if xs != [] {
      var ys, x := xs[..|xs| - 1], xs[|xs| - 1];
      assert xs == ys + [x];
      MergeBits(c, k, n, ys);
      MergeSnoc(c, k, ys, x);
      var d := Carry(c, k, ys);
      MergeStep(d, k, n, x);
      BitsSnoc(Merge(c, k, ys), MergedByte(d, k, x));
      BitsSnoc(ys, x);
      Regroup(Bits(Merge(c, k, ys)), Top(d, n), ByteBits(MergedByte(d, k, x)),
              Top(Leftover(k, x), n), Top(c, n), Bits(ys), ByteBits(x));
    }
  }

  lemma Regroup<T>(a: seq<T>, t: seq<T>, m: seq<T>, d: seq<T>, u: seq<T>, b: seq<T>, x: seq<T>)
    requires a + t == u + b && m + d == t + x
    ensures (a + m) + d == u + (b + x)
  {
    calc {
      (a + m) + d;
      a + (m + d);
      a + (t + x);
      (a + t) + x;
      (u + b) + x;
    }
  }

  /**
   * With nothing pending, the merge loop changes nothing: skipping it when
   * no bits are held, as ReadBytes does, gives the same bytes.
   */
  lemma {:induction false} MergeAligned(xs: seq<bv8>)
    ensures Merge(0, 0, xs) == xs
    ensures Carry(0, 0, xs) == 0
  {
    if xs != [] {
      var ys := xs[..|xs| - 1];
      MergeAligned(ys);
      assert xs == ys + [xs[|xs| - 1]];
    }
  }
}
