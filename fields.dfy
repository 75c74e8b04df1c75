/**
 * Bit fields of a 64-bit word, as WriteBits writes them and ReadBits
 * assembles them.
 *
 * Lengths and counts are `nat`; where a count is also a bit position it
 * is turned into a word by Pos, so that no proof here mixes bit-vector and
 * integer arithmetic.
 */
module FieldModel {
  import opened WordModel

  /** The n least significant bits of v, most significant first. */
  function FieldBits(v: bv64, n: nat): (s: seq<bool>)
    requires n <= 64
    ensures |s| == n
  {
    if n == 0 then [] else FieldBits(v >> 1, n - 1) + [LowBit(v)]
  }

  /** The first n bits of u, from the most significant one down. */
  function TopBits(u: bv64, n: nat): (s: seq<bool>)
    ensures |s| == n
    decreases n
  {
    if n == 0 then [] else [HighBit(u)] + TopBits(u << 1, n - 1)
  }

  /** u shifted left one place at a time, i times. */
  function ShiftedOut(u: bv64, i: nat): bv64
    decreases i
  {
    if i == 0 then u else ShiftedOut(u << 1, i - 1)
  }

  /**
   * The value of the first i bits of s read most significant bit first,
   * each bit pushed in at the bottom; bits beyond the 64th push the
   * earliest ones out of the word.
   */
  function ValueOf(s: seq<bool>, i: nat): bv64
    requires i <= |s|
  {
    if i == 0 then 0 else PushBit(ValueOf(s, i - 1), s[i - 1])
  }

  /** The value of all of s. */
  function FromBits(s: seq<bool>): bv64 {
    ValueOf(s, |s|)
  }

  /** Shifting n bits out of v at the bottom leaves nothing: v < 2^n. */
  predicate Fits(v: bv64, n: nat) {
    if n == 0 then v == 0 else Fits(v >> 1, n - 1)
  }

  /** A run of n zero bits. */
  function Zeros(n: nat): (s: seq<bool>)
    ensures |s| == n && forall i | 0 <= i < n :: !s[i]
  {
    seq(n, _ => false)
  }

  /** A run of n one bits. */
  function Ones(n: nat): (s: seq<bool>)
    ensures |s| == n && forall i | 0 <= i < n :: s[i]
  {
    seq(n, _ => true)
  }

  // ---------------------------------------------------------------------------
  // Assembling a value from bits, as ReadBits does

  /** The value of a prefix depends on nothing after it. */
  lemma {:induction false} ValueAgree(s: seq<bool>, t: seq<bool>, i: nat)
    requires i <= |s| && i <= |t|
    requires forall j | 0 <= j < i :: s[j] == t[j]
    ensures ValueOf(s, i) == ValueOf(t, i)
  {
    if i != 0 {
      ValueAgree(s, t, i - 1);
      assert s[i - 1] == t[i - 1];
    }
  }

  lemma FromBitsSnoc(s: seq<bool>, b: bool)
    ensures FromBits(s + [b]) == PushBit(FromBits(s), b)
  {
    ValueAgree(s + [b], s, |s|);
  }

  /** A prefix of a bit sequence has the value of that many bits of it. */
  lemma FromBitsPrefix(s: seq<bool>, i: nat)
    requires i <= |s|
    ensures FromBits(s[..i]) == ValueOf(s, i)
  {
    ValueAgree(s[..i], s, i);
  }

  lemma ValueStep(s: seq<bool>, i: nat)
    requires i < |s|
    ensures ValueOf(s, i + 1) == PushBit(ValueOf(s, i), s[i])
  {}

  /** n bits read into a value leave every bit from position n up clear. */
  lemma {:induction false} FromBitsHigh(s: seq<bool>)
    requires |s| <= 64
    ensures forall j: bv8 | Pos(|s|) <= j < 64 :: !Bit(FromBits(s), j)
    decreases |s|
  {
    if s == [] {
      BitsOfZero();
    } else {
      var t, b := s[..|s| - 1], s[|s| - 1];
      assert s == t + [b];
      FromBitsSnoc(t, b);
      FromBitsHigh(t);
      PosBound(|t|);
      forall j: bv8 | Pos(|s|) <= j < 64 ensures !Bit(FromBits(s), j) {
        BitPushed(FromBits(t), b, j);
      }
    }
  }

  /** At most 63 bits read into a value leave its top bit clear. */
  lemma FromBitsTop(s: seq<bool>)
    requires |s| <= 63
    ensures FromBits(s) >> 63 == 0
  {
    FromBitsHigh(s);
    PosBound(|s|);
    ClearTop(FromBits(s));
  }

  /** One more bit read: the value moves up and takes the bit at the bottom. */
  lemma FromBitsLast(s: seq<bool>)
    requires 1 <= |s| <= 64
    ensures FromBits(s) >> 1 == FromBits(s[..|s| - 1])
    ensures LowBit(FromBits(s)) == s[|s| - 1]
  {
    var t, b := s[..|s| - 1], s[|s| - 1];
    assert s == t + [b];
    FromBitsSnoc(t, b);
    FromBitsTop(t);
    PushPop(FromBits(t), b);
  }

  /** n bits make a value below 2^n. */
  lemma {:induction false} FromBitsFits(s: seq<bool>)
    requires |s| <= 64
    ensures Fits(FromBits(s), |s|)
    decreases |s|
  {
    if s != [] {
      FromBitsLast(s);
      FromBitsFits(s[..|s| - 1]);
    }
  }

  /** Up to 64 bits read into a value come back out as its low bits. */
  lemma {:induction false} FieldFromBits(s: seq<bool>)
    requires |s| <= 64
    ensures FieldBits(FromBits(s), |s|) == s
    decreases |s|
  {
    if s != [] {
      FromBitsLast(s);
      FieldFromBits(s[..|s| - 1]);
      assert s == s[..|s| - 1] + [s[|s| - 1]];
    }
  }

  /** A value below 2^n is rebuilt from its low n bits. */
  lemma {:induction false} FieldValue(v: bv64, n: nat)
    requires n <= 64 && Fits(v, n)
    ensures FromBits(FieldBits(v, n)) == v
  {
    if n != 0 {
      FieldValue(v >> 1, n - 1);
      FromBitsSnoc(FieldBits(v >> 1, n - 1), LowBit(v));
      Rebuild(v);
    }
  }

  /**
   * Reading back the n low bits of v gives a value below 2^n with the same
   * low n bits as v, which is v itself when v is below 2^n: v mod 2^n.
   */
  lemma FieldRoundTrip(v: bv64, n: nat)
    requires n <= 64
    ensures Fits(FromBits(FieldBits(v, n)), n)
    ensures FieldBits(FromBits(FieldBits(v, n)), n) == FieldBits(v, n)
    ensures Fits(v, n) ==> FromBits(FieldBits(v, n)) == v
  {
    FromBitsFits(FieldBits(v, n));
    FieldFromBits(FieldBits(v, n));
    if Fits(v, n) {
      FieldValue(v, n);
    }
  }

  // ---------------------------------------------------------------------------
  // Taking bits from the top of a word, as WriteBits does

  /** After j single shifts the top bit of v is the one from position k = 63 - j. */
  lemma {:induction false} HighShiftedOut(v: bv64, j: nat, k: bv8)
    requires j <= 63 && k == 63 - Pos(j)
    ensures HighBit(ShiftedOut(v, j)) == Bit(v, k)
    decreases j
  {
    PosBound(j);
    if j == 0 {
      BitEnds(v);
    } else {
      PosBound(j - 1);
      HighShiftedOut(v << 1, j - 1, k + 1);
      BitDouble(v, k, k + 1);
    }
  }

  /** Bit i of FieldBits(v, n), counted from the first, is bit n - 1 - i of v. */
  lemma {:induction false} FieldBitsAt(v: bv64, n: nat, i: nat)
    requires i < n <= 64
    ensures Pos(n - 1 - i) < 64
    ensures FieldBits(v, n)[i] == Bit(v, Pos(n - 1 - i))
  {
    PosBound(n - 1 - i);
    if i == n - 1 {
      BitEnds(v);
    } else {
      FieldBitsAt(v >> 1, n - 1, i);
      PosBound(n - 2 - i);
      BitHalf(v, Pos(n - 2 - i));
    }
  }

  /** Bit i of the top n bits of w, where w holds v shifted up by m = 64 - n places. */
  lemma TopBitsShiftedAt(w: bv64, v: bv64, n: nat, m: bv8, i: nat)
    requires i < n <= 64 && m == Pos(64 - n)
    requires forall j: bv8 | m <= j < 64 :: Bit(w, j) == Bit(v, j - m)
    ensures TopBits(w, n)[i] == FieldBits(v, n)[i]
  {
    PosBound(i);
    var j := 63 - Pos(i);
    PosSplit(n, i, m, j);
    TopBitsAt(w, n, i);
    HighShiftedOut(w, i, j);
    FieldBitsAt(v, n, i);
  }

  /** Counting position i from the top of an n-bit field placed at the top of a word. */
  lemma PosSplit(n: nat, i: nat, m: bv8, j: bv8)
    requires i < n <= 64 && m == Pos(64 - n) && Pos(i) <= 63 && j == 63 - Pos(i)
    ensures m <= j < 64 && j - m == Pos(n - 1 - i)
  {
    PosBound(i);
    PosBound(64 - n);
    PosBound(64 - n + i);
    PosSum(i, 64 - n);
    PosSum(n - 1 - i, 64 - n);
    PosSum(63 - i, i);
    PosValue(63);
  }

  /**
   * Shifting v up by m = 64 - n places, so that its low n bits sit at the
   * top, then taking n bits from the top, yields the low n bits of v: how
   * WriteBits finds its bits.
   */
  lemma TopBitsField(v: bv64, n: nat, m: bv8)
    requires n <= 64 && m == Pos(64 - n)
    ensures m <= 64
    ensures TopBits(v << m, n) == FieldBits(v, n)
  {
    PosBound(64 - n);
    var w := v << m;
    forall j: bv8 | m <= j < 64 ensures Bit(w, j) == Bit(v, j - m) {
      ShlBit(v, m, j);
    }
    forall i | 0 <= i < n ensures TopBits(w, n)[i] == FieldBits(v, n)[i] {
      TopBitsShiftedAt(w, v, n, m, i);
    }
  }

  /**
   * u shifted up by 64 - n places, as WriteBits begins: its first n bits
   * from the top are the low n bits of u. For n = 0 the shift is by the
   * whole width, which leaves zero.
   */
  function ShiftToTop(u: bv64, n: nat): (v: bv64)
    requires n <= 64
    ensures TopBits(v, n) == FieldBits(u, n)
    ensures n == 0 ==> v == 0
  {
    var m := Pos(64 - n);
    PosValue(64 - n);
    TopBitsField(u, n, m);
    u << m
  }

  /** Dropping the first i of the top bits of u leaves the top bits of u shifted i times. */
  lemma {:induction false} TopBitsDrop(u: bv64, n: nat, i: nat)
    requires i <= n
    ensures TopBits(u, n)[i..] == TopBits(ShiftedOut(u, i), n - i)
    decreases i
  {
    if i != 0 {
      TopBitsDrop(u << 1, n - 1, i - 1);
    }
  }

  /** Bit i of TopBits(u, n) is the top bit of u shifted i times. */
  lemma TopBitsAt(u: bv64, n: nat, i: nat)
    requires i < n
    ensures TopBits(u, n)[i] == HighBit(ShiftedOut(u, i))
  {
    TopBitsDrop(u, n, i);
  }
}
