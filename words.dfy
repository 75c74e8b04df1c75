/**
 * Facts about 64-bit words, the `uint64` that WriteBits takes apart and
 * ReadBits assembles.
 *
 * Every fact here is a bit-vector fact about one bit position or about
 * constant shifts; facts that compare whole words shifted by symbolic
 * amounts are avoided, because they are expensive for the solver.
 */
module WordModel {
  /** Bit j of v, counting from the least significant; there are none from 64 up. */
  predicate Bit(v: bv64, j: bv8) {
    j < 64 && v & (1 << j) != 0
  }

  /** Whether the least significant bit of v is set. */
  predicate LowBit(v: bv64) {
    v & 1 == 1
  }

  /** Whether the most significant bit of u is set. */
  predicate HighBit(u: bv64) {
    u >> 63 == 1
  }

  function BoolWord(b: bool): bv64 {
    if b then 1 else 0
  }

  /** u shifted left by one with the bit b moved in at the bottom. */
  function PushBit(u: bv64, b: bool): bv64 {
    (u << 1) | BoolWord(b)
  }

  /** The bit position n as a word, counted up without leaving bit-vector arithmetic. */
  function Pos(n: nat): bv8
    requires n <= 64
  {
    if n == 0 then 0 else Pos(n - 1) + 1
  }

  lemma {:induction false} PosValue(n: nat)
    requires n <= 64
    ensures Pos(n) as int == n
  {
    if n != 0 {
      PosValue(n - 1);
    }
  }

  lemma PosBound(n: nat)
    requires n <= 64
    ensures Pos(n) <= 64
    ensures n < 64 ==> Pos(n) < 64
    ensures n == 64 ==> Pos(n) == 64
  {
    PosValue(n);
  }

  /** Counting up a and then b more positions reaches position a + b. */
  lemma {:induction false} PosSum(a: nat, b: nat)
    requires a + b <= 64
    ensures Pos(a) + Pos(b) == Pos(a + b)
    decreases b
  {
    if b != 0 {
      PosSum(a, b - 1);
      assert Pos(a + b) == Pos(a + (b - 1)) + 1;
    }
  }

  // ---------------------------------------------------------------------------
  // One bit at a time

  lemma BitHalf(v: bv64, j: bv8)
    requires j <= 62
    ensures Bit(v >> 1, j) == Bit(v, j + 1)
  {}

  /** Shifting u up by one moves bit j to bit i = j + 1. */
  lemma BitDouble(u: bv64, j: bv8, i: bv8)
    requires j <= 62 && i == j + 1
    ensures Bit(u << 1, i) == Bit(u, j)
  {}

  lemma BitEnds(u: bv64)
    ensures HighBit(u) == Bit(u, 63)
    ensures LowBit(u) == Bit(u, 0)
  {}

  /**
   * Shifting v up by m places moves bit j - m to bit j: the one fact about
   * a shift by a varying amount that the rest builds on. The solver handles
   * a shift by a constant far better than one by an unknown amount, so the
   * proof goes case by case.
   */
  lemma ShlBit(v: bv64, m: bv8, j: bv8)
    requires m <= j < 64
    ensures Bit(v << m, j) == Bit(v, j - m)
  {
    if m < 16 {
      ShlBitFrom0(v, m, j);
    } else if m < 32 {
      ShlBitFrom16(v, m, j);
    } else if m < 48 {
      ShlBitFrom32(v, m, j);
    } else {
      ShlBitFrom48(v, m, j);
    }
  }

  lemma ShlBitFrom0(v: bv64, m: bv8, j: bv8)
    requires m < 16 && m <= j < 64
    ensures Bit(v << m, j) == Bit(v, j - m)
  {
    if m == 0 {} else if m == 1 {} else if m == 2 {} else if m == 3 {} else
    if m == 4 {} else if m == 5 {} else if m == 6 {} else if m == 7 {} else
    if m == 8 {} else if m == 9 {} else if m == 10 {} else if m == 11 {} else
    if m == 12 {} else if m == 13 {} else if m == 14 {} else {}
  }

  lemma ShlBitFrom16(v: bv64, m: bv8, j: bv8)
    requires 16 <= m < 32 && m <= j < 64
    ensures Bit(v << m, j) == Bit(v, j - m)
  {
    if m == 16 {} else if m == 17 {} else if m == 18 {} else if m == 19 {} else
    if m == 20 {} else if m == 21 {} else if m == 22 {} else if m == 23 {} else
    if m == 24 {} else if m == 25 {} else if m == 26 {} else if m == 27 {} else
    if m == 28 {} else if m == 29 {} else if m == 30 {} else {}
  }

  lemma ShlBitFrom32(v: bv64, m: bv8, j: bv8)
    requires 32 <= m < 48 && m <= j < 64
    ensures Bit(v << m, j) == Bit(v, j - m)
  {
    if m == 32 {} else if m == 33 {} else if m == 34 {} else if m == 35 {} else
    if m == 36 {} else if m == 37 {} else if m == 38 {} else if m == 39 {} else
    if m == 40 {} else if m == 41 {} else if m == 42 {} else if m == 43 {} else
    if m == 44 {} else if m == 45 {} else if m == 46 {} else {}
  }

  lemma ShlBitFrom48(v: bv64, m: bv8, j: bv8)
    requires 48 <= m < 64 && m <= j < 64
    ensures Bit(v << m, j) == Bit(v, j - m)
  {
    if m == 48 {} else if m == 49 {} else if m == 50 {} else if m == 51 {} else
    if m == 52 {} else if m == 53 {} else if m == 54 {} else if m == 55 {} else
    if m == 56 {} else if m == 57 {} else if m == 58 {} else if m == 59 {} else
    if m == 60 {} else if m == 61 {} else if m == 62 {} else {}
  }

  lemma ClearTop(a: bv64)
    requires !Bit(a, 63)
    ensures a >> 63 == 0
  {}

  /** A bit pushed in below a word with a clear top bit can be shifted out again. */
  lemma PushPop(a: bv64, b: bool)
    requires a >> 63 == 0
    ensures PushBit(a, b) >> 1 == a
    ensures LowBit(PushBit(a, b)) == b
  {}

  /** Shifting the low bit out and pushing it back in restores the word. */
  lemma Rebuild(v: bv64)
    ensures PushBit(v >> 1, LowBit(v)) == v
  {}

  /** No bit of zero is set. */
  lemma BitsOfZero()
    ensures forall j: bv8 | j < 64 :: !Bit(0, j)
  {}

  /** Pushing a bit in at the bottom moves every bit up by one. */
  lemma BitPushed(a: bv64, b: bool, j: bv8)
    requires 1 <= j < 64
    ensures Bit(PushBit(a, b), j) == Bit(a, j - 1)
  {
    OrLow(a << 1, b, j);
    BitDouble(a, j - 1, j);
  }

  /** Or-ing in a bottom bit leaves every other bit as it was. */
  lemma OrLow(x: bv64, b: bool, j: bv8)
    requires 1 <= j < 64
    ensures Bit(x | BoolWord(b), j) == Bit(x, j)
  {}

  /** The writer's test of the top bit, u >> 63 == 0, says the bit is clear. */
  lemma HighBitTest(u: bv64)
    ensures (u >> 63 == 0) == !HighBit(u)
  {}
}
