/**
 * The bit writer (writer.go).
 *
 * Each method changes the writer's fields exactly as the step function of
 * module WriterState says, so what is proved there about the stream holds
 * of the writer. Errors from the sink are not short-circuited: every
 * operation carries on after a failure, and the error flag, once set,
 * stays set.
 */
module BitWriter {
  import opened BitModel
  import opened WordModel
  import opened FieldModel
  import opened WholeBytes
  import opened Output
  import opened WriterState

  class Writer {
    /** The pending byte: its top 8 - p bits are written, the rest is zero. */
    var b: bv8
    /** How many bits of b are still free (Go keeps it in a uint16). */
    var p: bv8
    /** The buffered bytes, unused with a byte sink. */
    var buf: seq<bv8>
    /** Where completed bytes go. */
    const sink: Sink
    /** Whether the sink has ever reported a failure. */
    var err: bool
    /** Every byte handed to the sink so far, in order. */
    var sent: seq<bv8>

    /** The fields that make up the writer's state. */
    ghost function State(): WState
      reads this
    {
      WState(sent, buf, b, p)
    }

    ghost predicate Valid()
      reads this
    {
      Ok(sink, State())
    }

    /** NewByteWriter: every completed byte goes straight to a byte sink. */
    constructor ByteWriter()
      ensures Valid() && sink == ByteSink && !err
      ensures State() == WState([], [], 0, 8) && Stream(State()) == []
    {
      b, p, buf, sink, err, sent := 0, 8, [], ByteSink, false, [];
    }

    /** NewWriter: buffered, with the default buffer size. */
    constructor Buffered()
      ensures Valid() && sink == BufferedSink(DefaultBufferSize) && !err
      ensures State() == WState([], [], 0, 8) && Stream(State()) == []
    {
      b, p, buf, sink, err, sent := 0, 8, [], BufferedSink(DefaultBufferSize), false, [];
    }

    /** NewWriterSize: buffered, with a buffer of capacity n. */
    constructor Sized(n: nat)
      requires 1 <= n
      ensures Valid() && sink == BufferedSink(n) && !err
      ensures State() == WState([], [], 0, 8) && Stream(State()) == []
    {
      b, p, buf, sink, err, sent := 0, 8, [], BufferedSink(n), false, [];
    }

    /**
     * NewWriterBuffer: buffered through a caller's buffer of the given
     * capacity, whose current contents count as already written.
     */
    constructor WithBuffer(initial: seq<bv8>, capacity: nat)
      requires 1 <= capacity && |initial| < capacity
      ensures Valid() && sink == BufferedSink(capacity) && !err
      ensures State() == WState([], initial, 0, 8) && Stream(State()) == Bits(initial)
    {
      b, p, buf, sink, err, sent := 0, 8, initial, BufferedSink(capacity), false, [];
      new;
      assert sent + buf == initial;
      assert Top(0, 0) == [];
    }

    /** One call to the sink: it takes bs, and may report a failure. */
    method Send(bs: seq<bv8>)
      modifies this
      ensures sent == old(sent) + bs
      ensures b == old(b) && p == old(p) && buf == old(buf)
      ensures old(err) ==> err
    {
      sent := sent + bs;
      var ok: bool :| true;
      if !ok {
        err := true;
      }
    }

    /**
     * push: hand one completed byte to the byte sink, or buffer it and send
     * the whole buffer once it is full. (Go's push also returns err, which
     * every caller ignores.)
     */
    method Push(x: bv8)
      requires BufferOk(sink, buf)
      modifies this
      ensures (sent, buf) == Pushed(sink, old(sent), old(buf), x)
      ensures b == old(b) && p == old(p)
      ensures old(err) ==> err
    {
      if sink.ByteSink? {
        Send([x]);
      } else {
        buf := buf + [x];
        if |buf| < sink.capacity {
          return;
        }
        Send(buf);
        buf := [];
        assert sent == old(sent) + old(buf) + [x];
      }
    }

    /** Appends a zero bit; a byte completed by it is pushed. */
    method WriteZero() returns (e: bool)
      requires Valid()
      modifies this
      ensures Valid() && State() == PutZero(sink, old(State()))
      ensures old(p) > 1 ==> err == old(err)
      ensures old(err) ==> err
      ensures e == err
    {
      if p > 1 {
        p := p - 1;
        return err;
      }
      Push(b);
      b, p := 0, 8;
      e := err;
    }

    /** Appends a one bit; a byte completed by it is pushed. */
    method WriteOne() returns (e: bool)
      requires Valid()
      modifies this
      ensures Valid() && State() == PutOne(sink, old(State()))
      ensures old(p) > 1 ==> err == old(err)
      ensures old(err) ==> err
      ensures e == err
    {
      if p > 1 {
        var c := p - 1;
        b := b | (1 << c);
        p := c;
        return err;
      }
      Push(b | 1);
      b, p := 0, 8;
      e := err;
    }

    /** Appends the given bit. */
    method WriteBit(bit: bool) returns (e: bool)
      requires Valid()
      modifies this
      ensures Valid() && State() == PutBit(sink, old(State()), bit)
      ensures old(p) > 1 ==> err == old(err)
      ensures old(err) ==> err
      ensures e == err
    {
      if bit {
        e := WriteOne();
      } else {
        e := WriteZero();
      }
    }

    /**
     * Appends the eight bits of x, high bit first: the pending bits and the
     * top of x complete one byte, which is pushed, and the low bits of x
     * become the pending byte.
     */
    method WriteByte(x: bv8) returns (e: bool)
      requires Valid()
      modifies this
      ensures Valid() && State() == PutByte(sink, old(State()), x)
      ensures old(err) ==> err
      ensures e == err
    {
      Push(b | (x >> (8 - p)));
      b := x << p;
      BytePushes(sink, old(State()), x);
      e := err;
    }

    /**
     * Appends the bytes bs. Unaligned, each byte is merged behind the
     * pending bits and pushed, as WriteByte does. Aligned, a non-empty
     * buffer is sent to the sink but not emptied, and then bs is sent
     * directly.
     */
    method Write(bs: seq<bv8>) returns (e: bool)
      requires Valid() && (p == 8 ==> sink.BufferedSink?)
      modifies this
      ensures Valid()
      ensures old(p) == 8 ==> State() == WriteAligned(old(State()), bs)
      ensures old(p) != 8 ==> State() == PutBytes(sink, old(State()), bs)
      ensures old(err) ==> err
      ensures e == err
    {
      if p == 8 {
        if |buf| > 0 {
          Send(buf);
        }
        Send(bs);
        assert sent == old(sent) + old(buf) + bs;
      } else {
        var wb := b;
        var wp := p;
        var wp8 := 8 - p;
        for i := 0 to |bs|
          invariant wp == p == old(p) && wp8 == 8 - wp && BufferOk(sink, buf)
          invariant PutBytes(sink, old(State()), bs[..i]) == WState(sent, buf, wb, wp)
          invariant old(err) ==> err
        {
          MergeNext(sink, old(State()), bs[..i], bs[i], WState(sent, buf, wb, wp));
          assert bs[..i + 1] == bs[..i] + [bs[i]];
          Push(wb | (bs[i] >> wp8));
          wb := bs[i] << wp;
        }
        assert bs[..|bs|] == bs;
        b := wb;
      }
      e := err;
    }

    /**
     * Appends the n low bits of u, most significant first: whole bytes
     * while at least eight bits are left, then single bits.
     */
    method WriteBits(u: bv64, n: nat) returns (e: bool)
      requires Valid() && n <= 64
      modifies this
      ensures Valid() && State() == PutBits(sink, old(State()), FieldBits(u, n))
      ensures old(err) ==> err
      ensures e == err
    {
      ghost var target := PutBits(sink, State(), FieldBits(u, n));
      var v := ShiftToTop(u, n);
      var left: nat := n;
      while left >= 8
        invariant Valid() && PutBits(sink, State(), TopBits(v, left)) == target
        invariant old(err) ==> err
      {
        WriteChunk(sink, State(), v, left);
        e := WriteByte((v >> 56) as bv8);
        v := v << 8;
        left := left - 8;
      }
      WriteTailBits(v, left);
      e := err;
    }

    /**
     * The second loop of WriteBits: the top n bits of u one at a time, each
     * tested as the top bit of what is left of u.
     */
    method WriteTailBits(u: bv64, n: nat)
      requires Valid()
      modifies this
      ensures Valid() && State() == PutBits(sink, old(State()), TopBits(u, n))
      ensures old(err) ==> err
    {
      ghost var target := PutBits(sink, State(), TopBits(u, n));
      var v, left := u, n;
      while left > 0
        invariant Valid() && PutBits(sink, State(), TopBits(v, left)) == target
        invariant old(err) ==> err
      {
        WriteTail(sink, State(), v, left);
        var e;
        if v >> 63 == 0 {
          e := WriteZero();
        } else {
          e := WriteOne();
        }
        v := v << 1;
        left := left - 1;
      }
      assert TopBits(v, left) == [];
    }

    /** flush: sends a non-empty buffer to the sink, without emptying it. */
    method FlushBuffer() returns (e: bool)
      requires Valid()
      modifies this
      ensures Valid() && State() == SendBuffer(old(State()))
      ensures old(buf) == [] ==> err == old(err)
      ensures old(err) ==> err
      ensures e == err
    {
      if |buf| > 0 {
        Send(buf);
      }
      e := err;
    }

    /**
     * Pads the pending byte with zero bits up to the byte boundary, then
     * sends the buffer, without emptying it.
     */
    method Flush() returns (e: bool)
      requires Valid()
      modifies this
      ensures Valid() && State() == SendBuffer(PutBits(sink, old(State()), Zeros(Padding(old(p)))))
      ensures old(err) ==> err
      ensures e == err
    {
      ghost var pad: nat := 0;
      while p != 8
        invariant Valid() && pad + Padding(p) == Padding(old(p))
        invariant State() == PutBits(sink, old(State()), Zeros(pad))
        invariant old(err) ==> err
        decreases Padding(p)
      {
        PadStep(sink, old(State()), Zeros(pad), false);
        assert Zeros(pad) + [false] == Zeros(pad + 1);
        e := WriteZero();
        pad := pad + 1;
      }
      e := FlushBuffer();
    }

    /**
     * Pads the pending byte with one bits up to the byte boundary, then
     * sends the buffer, without emptying it.
     */
    method FlushOnes() returns (e: bool)
      requires Valid()
      modifies this
      ensures Valid() && State() == SendBuffer(PutBits(sink, old(State()), Ones(Padding(old(p)))))
      ensures old(err) ==> err
      ensures e == err
    {
      ghost var pad: nat := 0;
      while p != 8
        invariant Valid() && pad + Padding(p) == Padding(old(p))
        invariant State() == PutBits(sink, old(State()), Ones(pad))
        invariant old(err) ==> err
        decreases Padding(p)
      {
        PadStep(sink, old(State()), Ones(pad), true);
        assert Ones(pad) + [true] == Ones(pad + 1);
        e := WriteOne();
        pad := pad + 1;
      }
      e := FlushBuffer();
    }
  }

  /**
   * One more byte of an unaligned Write: the state after bs + [x] is the
   * state t after bs with x merged behind its pending bits.
   */
  lemma MergeNext(m: Sink, s: WState, bs: seq<bv8>, x: bv8, t: WState)
    requires Ok(m, s) && PutBytes(m, s, bs) == t
    ensures Ok(m, t) && t.p == s.p
    ensures var q := Pushed(m, t.sent, t.buf, t.b | (x >> (8 - t.p)));
      PutBytes(m, s, bs + [x]) == WState(q.0, q.1, x << t.p, t.p)
  {
    PutBytesSnoc(m, s, bs, x);
    BytePushes(m, t, x);
  }

  /**
   * One whole byte of a WriteBits field: writing the high byte of v and
   * then the bits below it is writing the top bits of v.
   */
  lemma WriteChunk(m: Sink, t: WState, v: bv64, left: nat)
    requires Ok(m, t) && 8 <= left
    ensures PutBits(m, PutByte(m, t, (v >> 56) as bv8), TopBits(v << 8, left - 8)) == PutBits(m, t, TopBits(v, left))
  {
    var x := (v >> 56) as bv8;
    TopBitsByte(v, left);
    PutBitsAppend(m, t, ByteBits(x), TopBits(v << 8, left - 8));
    ByteIsEightBits(m, t, x);
  }

  /**
   * One bit of a WriteBits field: writing the bit the writer tests, the
   * top bit of v, and then the bits below it is writing the top bits of v.
   */
  lemma WriteTail(m: Sink, t: WState, v: bv64, left: nat)
    requires Ok(m, t) && 0 < left
    ensures v >> 63 == 0 ==> PutBits(m, PutZero(m, t), TopBits(v << 1, left - 1)) == PutBits(m, t, TopBits(v, left))
    ensures v >> 63 != 0 ==> PutBits(m, PutOne(m, t), TopBits(v << 1, left - 1)) == PutBits(m, t, TopBits(v, left))
  {
    HighBitTest(v);
    PutBitsAppend(m, t, [HighBit(v)], TopBits(v << 1, left - 1));
    PutBitsSnoc(m, t, [], HighBit(v));
    assert [] + [HighBit(v)] == [HighBit(v)];
  }
}
