/**
 * The scenarios of bitstream_test.go, stated on the model: each method drives a
 * writer and a reader as the test does and states, as its postcondition,
 * what the test checks.
 */
module Scenarios {
  import opened BitModel
  import opened FieldModel
  import opened Output
  import opened WriterState
  import opened BitWriter
  import opened ReaderState
  import opened BitReader

  /** "Hello World!" as bytes. */
  const Hello: seq<bv8> := [0x48, 0x65, 0x6c, 0x6c, 0x6f, 0x20, 0x57, 0x6f, 0x72, 0x6c, 0x64, 0x21]

  /** "foo bar baz!" as bytes. */
  const FooBarBaz: seq<bv8> := [0x66, 0x6f, 0x6f, 0x20, 0x62, 0x61, 0x72, 0x20, 0x62, 0x61, 0x7a, 0x21]

  /** A one-byte source gives its byte, then end of stream. */
  method ReadOneByte() returns (x: bv8, eof1: bool, eof2: bool)
    ensures x == 0x31 && !eof1 && eof2
  {
    var r := new Reader([0x31]);
    x, eof1 := r.ReadByte();
    var y;
    y, eof2 := r.ReadByte();
  }

  /** ReadBytes fills a buffer from a source of exactly its size, then the source is at its end. */
  method ReadThreeBytes() returns (bs: seq<bv8>, eof1: bool, eof2: bool)
    ensures bs == [0x62, 0x61, 0x72] && !eof1 && eof2
  {
    var r := new Reader([0x62, 0x61, 0x72]);
    var a := new bv8[3];
    eof1 := r.ReadBytes(a);
    bs := a[..];
    var y;
    y, eof2 := r.ReadByte();
  }

  /**
   * An aligned Write followed by Flush hands the sink exactly the bytes
   * written, and reading them back gives them again, then end of stream.
   */
  method AlignedRoundTrip(bs: seq<bv8>) returns (out: seq<bv8>, back: seq<bv8>, eof1: bool, eof2: bool)
    ensures out == bs && back == bs && (eof1 <==> bs == []) && eof2
  {
    out := AlignedWriteFlush(bs);
    back, eof1, eof2 := AlignedReadBack(bs);
  }

  /** The writing half: a fresh writer is aligned, so Write sends the bytes as they are. */
  method AlignedWriteFlush(bs: seq<bv8>) returns (out: seq<bv8>)
    ensures out == bs
  {
    var w := new Writer.Buffered();
    var e := w.Write(bs);
    e := w.Flush();
    assert Zeros(0) == [];
    out := w.sent;
  }

  /** The reading half: ReadBytes of the whole source, then ReadBit. */
  method AlignedReadBack(bs: seq<bv8>) returns (back: seq<bv8>, eof1: bool, eof2: bool)
    ensures back == bs && (eof1 <==> bs == []) && eof2
  {
    var r := new Reader(bs);
    var a := new bv8[|bs|];
    eof1 := r.ReadBytes(a);
    back := a[..];
    assert bs[0..|bs|] == bs;
    var bit;
    bit, eof2 := r.ReadBit();
  }

  /** The test's own text, as the aligned round trip. */
  method HelloWorld() returns (out: seq<bv8>, back: seq<bv8>, eof1: bool, eof2: bool)
    ensures out == Hello && back == Hello && !eof1 && eof2
  {
    out, back, eof1, eof2 := AlignedRoundTrip(Hello);
  }

  /**
   * Two bits, then bytes that are therefore not aligned, then Flush: reading
   * the two bits and the bytes back gives them again, and the padding of the
   * last byte is not a byte of its own.
   */
  method UnalignedRoundTrip(bs: seq<bv8>) returns (bit1: bool, bit2: bool, back: seq<bv8>, eof: bool)
    ensures bit1 && !bit2 && back == bs && eof
  {
    var out, pad := WriteMixed(bs);
    bit1, bit2, back, eof := ReadMixed(out, bs, pad);
  }

  /** The test's own text, as the unaligned round trip. */
  method FooBarBazMixed() returns (bit1: bool, bit2: bool, back: seq<bv8>, eof: bool)
    ensures bit1 && !bit2 && back == FooBarBaz && eof
  {
    bit1, bit2, back, eof := UnalignedRoundTrip(FooBarBaz);
  }

  /** The writing half: the bits 1 and 0, the bytes, then zero bits up to a byte boundary. */
  method WriteMixed(bs: seq<bv8>) returns (out: seq<bv8>, ghost pad: seq<bool>)
    ensures Bits(out) == [true, false] + (Bits(bs) + pad) && |pad| < 8
  {
    var w := new Writer.Buffered();
    var m := w.sink;
    ghost var s0 := w.State();
    var e := w.WriteOne();
    ghost var s1 := w.State();
    OneAppends(m, s0);
    e := w.WriteZero();
    ghost var s2 := w.State();
    ZeroAppends(m, s1);
    e := w.Write(bs);
    ghost var s3 := w.State();
    BytesAppendToStream(m, s2, bs);
    e := w.Flush();
    pad := Zeros(Padding(s3.p));
    FlushSends(m, s3, pad);
    out := w.sent;
    assert Stream(s3) == [true, false] + Bits(bs);
    Assoc([true, false], Bits(bs), pad);
  }

  /** The reading half, on any source that holds those bits. */
  method ReadMixed(src: seq<bv8>, bs: seq<bv8>, ghost pad: seq<bool>) returns (bit1: bool, bit2: bool, back: seq<bv8>, eof: bool)
    requires Bits(src) == [true, false] + (Bits(bs) + pad) && |pad| < 8
    ensures bit1 && !bit2 && back == bs && eof
  {
    var r := new Reader(src);
    BitReadBack(src, r.State(), true, [false] + (Bits(bs) + pad));
    bit1, eof := r.ReadBit();
    BitReadBack(src, r.State(), false, Bits(bs) + pad);
    bit2, eof := r.ReadBit();
    BytesReadBack(src, r.State(), bs, pad);
    var a := new bv8[|bs|];
    eof := r.ReadBytes(a);
    back := a[..];
    SourceDrained(src, r.State());
    var x;
    x, eof := r.ReadByte();
  }

  /**
   * A length in six bits, then a value of that many bits, then Flush:
   * reading the length back and then that many bits gives the value back,
   * and the source is at its end.
   */
  method FieldsRoundTrip(len: bv64, v: bv64) returns (l: bv64, u: bv64, eof: bool)
    requires len < 64 && Fits(v, Width(len))
    ensures l == len && u == v && eof
  {
    var out, pad := WriteFields(len, v);
    l, u, eof := ReadFields(out, len, v, pad);
  }

  /** A word below 64 as a count of bits, as Go's uint(l). */
  function Width(x: bv64): (n: nat)
    requires x < 64
    ensures n == x as int && n < 64
    decreases x
  {
    if x == 0 then 0 else Width(x - 1) + 1
  }

  /** The writing half: WriteBits of the length in six bits, then of the value, then Flush. */
  method WriteFields(len: bv64, v: bv64) returns (out: seq<bv8>, ghost pad: seq<bool>)
    requires len < 64
    ensures Bits(out) == FieldBits(len, 6) + (FieldBits(v, Width(len)) + pad) && |pad| < 8
  {
    var w := new Writer.Buffered();
    var m := w.sink;
    ghost var s0 := w.State();
    var e := w.WriteBits(len, 6);
    ghost var s1 := w.State();
    BitsAppendToStream(m, s0, FieldBits(len, 6));
    e := w.WriteBits(v, Width(len));
    ghost var s2 := w.State();
    BitsAppendToStream(m, s1, FieldBits(v, Width(len)));
    e := w.Flush();
    pad := Zeros(Padding(s2.p));
    FlushSends(m, s2, pad);
    out := w.sent;
    assert Stream(s2) == FieldBits(len, 6) + FieldBits(v, Width(len));
    Assoc(FieldBits(len, 6), FieldBits(v, Width(len)), pad);
  }

  /** The reading half: ReadBits(6), then ReadBits of the length just read, then ReadByte. */
  method ReadFields(src: seq<bv8>, len: bv64, v: bv64, ghost pad: seq<bool>) returns (l: bv64, u: bv64, eof: bool)
    requires len < 64 && Fits(v, Width(len))
    requires Bits(src) == FieldBits(len, 6) + (FieldBits(v, Width(len)) + pad) && |pad| < 8
    ensures l == len && u == v && eof
  {
    var r := new Reader(src);
    FitsSix(len);
    FieldReadBack(src, r.State(), 6, len, FieldBits(v, Width(len)) + pad);
    l, eof := r.ReadBits(6);
    FieldReadBack(src, r.State(), Width(len), v, pad);
    u, eof := r.ReadBits(Width(l));
    SourceDrained(src, r.State());
    var x;
    x, eof := r.ReadByte();
  }

  /** When what is left starts with the n-bit field v, ReadBits(n) succeeds and returns v. */
  lemma FieldReadBack(src: seq<bv8>, s: RState, n: nat, v: bv64, rest: seq<bool>)
    requires Fine(src, s) && n <= 64 && Fits(v, n) && Remaining(src, s) == FieldBits(v, n) + rest
    ensures n <= Count(src, s)
    ensures FromBits(Field(src, s, n).0) == v && Remaining(src, Field(src, s, n).1) == rest
  {
    FieldTaken(src, s, n);
    assert Remaining(src, s)[..n] == FieldBits(v, n);
    FieldRoundTrip(v, n);
  }

  /** A word below 64 fits in six bits. */
  lemma FitsSix(x: bv64)
    requires x < 64
    ensures Fits(x, 6)
  {
    var y := x >> 1 >> 1 >> 1 >> 1 >> 1;
    assert y >> 1 == 0;
    assert Fits(y, 1);
    assert Fits(x >> 1 >> 1 >> 1 >> 1, 2);
    assert Fits(x >> 1 >> 1 >> 1, 3);
    assert Fits(x >> 1 >> 1, 4);
    assert Fits(x >> 1, 5);
  }
}
