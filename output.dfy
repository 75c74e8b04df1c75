/**
 * Where the writer's completed bytes go (writer.go, push).
 *
 * A writer made by NewByteWriter hands every completed byte straight to a
 * byte sink. Every other writer appends it to a buffer of fixed capacity
 * and hands the whole buffer to a bulk sink, then empties it, as soon as
 * the buffer is full. Here the sinks are one byte sequence `sent`: every
 * byte handed to a sink, in order.
 */
module Output {

  /** The buffer size NewWriter uses. */
  const DefaultBufferSize: nat := 128

  /** How a writer passes completed bytes on. */
  datatype Sink = ByteSink | BufferedSink(capacity: nat)

  /**
   * The buffer a writer with this sink can hold between calls: none for a
   * byte sink, fewer bytes than the capacity (which is at least one) for a
   * buffered one.
   */
  predicate BufferOk(m: Sink, buf: seq<bv8>) {
    match m
    case ByteSink => buf == []
    case BufferedSink(c) => 1 <= c && |buf| < c
  }

  /**
   * The bytes sent and the buffer after pushing x: with a byte sink x is
   * sent at once; otherwise x joins the buffer, and a buffer that has
   * become full is sent and emptied.
   */
  function Pushed(m: Sink, sent: seq<bv8>, buf: seq<bv8>, x: bv8): (r: (seq<bv8>, seq<bv8>))
    requires BufferOk(m, buf)
    ensures BufferOk(m, r.1)
  {
    match m
    case ByteSink => (sent + [x], buf)
    case BufferedSink(c) =>
      if |buf| + 1 < c then (sent, buf + [x]) else (sent + buf + [x], [])
  }

  /**
   * Nothing pushed is lost or reordered: sent bytes followed by buffered
   * bytes grow by exactly x. Bytes once sent stay sent, and either x joins
   * the buffer or the buffer has just been emptied into the sink, which
   * happens exactly when the buffer has become full.
   */
  lemma PushedKeepsOrder(m: Sink, sent: seq<bv8>, buf: seq<bv8>, x: bv8)
    requires BufferOk(m, buf)
    ensures var r := Pushed(m, sent, buf, x);
      r.0 + r.1 == sent + buf + [x] && sent <= r.0 &&
      ((r.0 == sent && r.1 == buf + [x]) || r.1 == []) &&
      (m.BufferedSink? && |buf| + 1 == m.capacity ==> r.0 == sent + buf + [x]) &&
      (m.BufferedSink? && |buf| + 1 < m.capacity ==> r.0 == sent)
  {
    if m.ByteSink? {
      assert buf == [];
    }
  }

  /** The bytes sent and the buffer after pushing each byte of xs in turn. */
  function PushedAll(m: Sink, sent: seq<bv8>, buf: seq<bv8>, xs: seq<bv8>): (r: (seq<bv8>, seq<bv8>))
    requires BufferOk(m, buf)
    ensures BufferOk(m, r.1)
    ensures r.0 + r.1 == sent + buf + xs
    ensures sent <= r.0
  {
    if xs == [] then (sent, buf)
    else
      var q := PushedAll(m, sent, buf, xs[..|xs| - 1]);
      PushedKeepsOrder(m, q.0, q.1, xs[|xs| - 1]);
      assert xs == xs[..|xs| - 1] + [xs[|xs| - 1]];
      Pushed(m, q.0, q.1, xs[|xs| - 1])
  }

  /** PushedAll unfolded once at its last byte. */
  lemma PushedAllSnoc(m: Sink, sent: seq<bv8>, buf: seq<bv8>, xs: seq<bv8>, x: bv8)
    requires BufferOk(m, buf)
    ensures var q := PushedAll(m, sent, buf, xs);
      PushedAll(m, sent, buf, xs + [x]) == Pushed(m, q.0, q.1, x)
  {
    assert (xs + [x])[..|xs|] == xs;
  }

  /**
   * With a byte sink nothing is ever buffered, and with an empty buffer of
   * capacity c, pushing fewer than c bytes sends nothing.
   */
  lemma {:induction false} PushedAllBuffers(m: Sink, sent: seq<bv8>, xs: seq<bv8>)
    requires BufferOk(m, [])
    ensures m.ByteSink? ==> PushedAll(m, sent, [], xs) == (sent + xs, [])
    ensures m.BufferedSink? && |xs| < m.capacity ==> PushedAll(m, sent, [], xs) == (sent, xs)
  {
    if xs != [] {
      var ys := xs[..|xs| - 1];
      PushedAllBuffers(m, sent, ys);
      assert xs == ys + [xs[|xs| - 1]];
      PushedAllSnoc(m, sent, [], ys, xs[|xs| - 1]);
      assert sent + xs == (sent + ys) + [xs[|xs| - 1]];
    } else {
      assert sent + xs == sent;
    }
  }
}
