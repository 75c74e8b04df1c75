/**
 * Whole bytes of a 64-bit word: WriteBits hands the top byte of its word to
 * WriteByte, and ReadBits moves each byte it reads in at the bottom of its
 * result. These facts join the byte view of BitModel to the word view of
 * FieldModel.
 */
module WholeBytes {
  import opened BitModel
  import opened WordModel
  import opened FieldModel

  /** The bits of the high byte of u are the top bits of u, u << 1, ..., u << 7. */
  lemma HighByteAt(u: bv64)
    ensures BitAt((u >> 56) as bv8, 0) == HighBit(u)
    ensures BitAt((u >> 56) as bv8, 1) == HighBit(u << 1)
    ensures BitAt((u >> 56) as bv8, 2) == HighBit(u << 2)
    ensures BitAt((u >> 56) as bv8, 3) == HighBit(u << 3)
    ensures BitAt((u >> 56) as bv8, 4) == HighBit(u << 4)
    ensures BitAt((u >> 56) as bv8, 5) == HighBit(u << 5)
    ensures BitAt((u >> 56) as bv8, 6) == HighBit(u << 6)
    ensures BitAt((u >> 56) as bv8, 7) == HighBit(u << 7)
  {}

  lemma ShiftSteps(u: bv64)
    ensures (u << 1) << 1 == u << 2 && (u << 2) << 1 == u << 3
    ensures (u << 3) << 1 == u << 4 && (u << 4) << 1 == u << 5
    ensures (u << 5) << 1 == u << 6 && (u << 6) << 1 == u << 7
    ensures (u << 7) << 1 == u << 8
  {}

  /** Pushing the eight bits of x one at a time moves in the whole byte. */
  lemma PushByte(a: bv64, x: bv8)
    ensures PushBit(PushBit(PushBit(PushBit(PushBit(PushBit(PushBit(PushBit(a,
      BitAt(x, 0)), BitAt(x, 1)), BitAt(x, 2)), BitAt(x, 3)), BitAt(x, 4)),
      BitAt(x, 5)), BitAt(x, 6)), BitAt(x, 7)) == (a << 8) | (x as bv64)
  {}

  /** Eight more bits read, one after the other. */
  lemma ValueEight(s: seq<bool>, i: nat)
    requires i + 8 <= |s|
    ensures ValueOf(s, i + 8) == PushBit(PushBit(PushBit(PushBit(PushBit(PushBit(PushBit(PushBit(
      ValueOf(s, i), s[i]), s[i + 1]), s[i + 2]), s[i + 3]), s[i + 4]), s[i + 5]), s[i + 6]), s[i + 7])
  {
    ValueStep(s, i);
    ValueStep(s, i + 1);
    ValueStep(s, i + 2);
    ValueStep(s, i + 3);
    ValueStep(s, i + 4);
    ValueStep(s, i + 5);
    ValueStep(s, i + 6);
    ValueStep(s, i + 7);
  }

  lemma ValueBits(s: seq<bool>, i: nat, x: bv8)
    requires i + 8 <= |s|
    requires s[i] == BitAt(x, 0) && s[i + 1] == BitAt(x, 1)
    requires s[i + 2] == BitAt(x, 2) && s[i + 3] == BitAt(x, 3)
    requires s[i + 4] == BitAt(x, 4) && s[i + 5] == BitAt(x, 5)
    requires s[i + 6] == BitAt(x, 6) && s[i + 7] == BitAt(x, 7)
    ensures ValueOf(s, i + 8) == PushBit(PushBit(PushBit(PushBit(PushBit(PushBit(PushBit(PushBit(
      ValueOf(s, i), BitAt(x, 0)), BitAt(x, 1)), BitAt(x, 2)), BitAt(x, 3)), BitAt(x, 4)), BitAt(x, 5)),
      BitAt(x, 6)), BitAt(x, 7))
  {
    ValueEight(s, i);
  }

  /** Eight bits that spell x, read after the first i bits, move x in at the bottom. */
  lemma ValueByte(s: seq<bool>, i: nat, x: bv8)
    requires i + 8 <= |s|
    requires s[i] == BitAt(x, 0) && s[i + 1] == BitAt(x, 1)
    requires s[i + 2] == BitAt(x, 2) && s[i + 3] == BitAt(x, 3)
    requires s[i + 4] == BitAt(x, 4) && s[i + 5] == BitAt(x, 5)
    requires s[i + 6] == BitAt(x, 6) && s[i + 7] == BitAt(x, 7)
    ensures ValueOf(s, i + 8) == (ValueOf(s, i) << 8) | (x as bv64)
  {
    ValueBits(s, i, x);
    PushByte(ValueOf(s, i), x);
  }

  lemma ShiftedOutSteps(u: bv64)
    ensures ShiftedOut(u, 1) == u << 1 && ShiftedOut(u, 2) == u << 2
    ensures ShiftedOut(u, 3) == u << 3 && ShiftedOut(u, 4) == u << 4
    ensures ShiftedOut(u, 5) == u << 5 && ShiftedOut(u, 6) == u << 6
    ensures ShiftedOut(u, 7) == u << 7 && ShiftedOut(u, 8) == u << 8
  {
    ShiftSteps(u);
    assert ShiftedOut(u, 8) == ShiftedOut(u << 1, 7) == ShiftedOut((u << 1) << 1, 6);
    assert ShiftedOut(u << 2, 6) == ShiftedOut((u << 2) << 1, 5);
    assert ShiftedOut(u << 3, 5) == ShiftedOut((u << 3) << 1, 4);
    assert ShiftedOut(u << 4, 4) == ShiftedOut((u << 4) << 1, 3);
    assert ShiftedOut(u << 5, 3) == ShiftedOut((u << 5) << 1, 2);
    assert ShiftedOut(u << 6, 2) == ShiftedOut((u << 6) << 1, 1);
    assert ShiftedOut(u << 7, 1) == ShiftedOut((u << 7) << 1, 0);
  }

  /** The sequence shape of TopBitsByte: eight single bits, then the rest. */
  lemma EightThenRest(s: seq<bool>, t: seq<bool>, r: seq<bool>)
    requires |t| == 8 && |s| == 8 + |r|
    requires s[0] == t[0] && s[1] == t[1] && s[2] == t[2] && s[3] == t[3]
    requires s[4] == t[4] && s[5] == t[5] && s[6] == t[6] && s[7] == t[7]
    requires s[8..] == r
    ensures s == t + r
  {
    assert forall i | 0 <= i < |s| :: s[i] == (t + r)[i];
  }

  /**
   * Taking eight bits from the top of u is taking its high byte, after
   * which u has moved up by eight: how WriteBits writes whole bytes.
   */
  lemma TopBitsByte(u: bv64, n: nat)
    requires 8 <= n
    ensures TopBits(u, n) == ByteBits((u >> 56) as bv8) + TopBits(u << 8, n - 8)
  {
    HighByteAt(u);
    ShiftedOutSteps(u);
    TopBitsAt(u, n, 0);
    TopBitsAt(u, n, 1);
    TopBitsAt(u, n, 2);
    TopBitsAt(u, n, 3);
    TopBitsAt(u, n, 4);
    TopBitsAt(u, n, 5);
    TopBitsAt(u, n, 6);
    TopBitsAt(u, n, 7);
    TopBitsDrop(u, n, 8);
    EightThenRest(TopBits(u, n), ByteBits((u >> 56) as bv8), TopBits(u << 8, n - 8));
  }
}
