# bitstream in Dafny

A model of the Go package `bitstream`. The package packs single bits, bytes, byte runs and n-bit
fields into a byte stream, most significant bit first, and unpacks them again. It has two
stateful parts:

- the `Writer` (writer.go). It keeps a pending byte `b` with `p` free bits (1 to 8; 8 means
  aligned). Completed bytes go either straight to a byte sink, or into a fixed-capacity buffer
  that is handed to a bulk sink once it is full.
- the `Reader` (reader.go). It keeps a byte `b` whose top `p` bits (0 to 7) were read from the
  source but not yet returned.

Each part is a `class` whose methods update its fields in place, as the Go methods do. Each
method is proved to move the object's state exactly as a pure step function does:

- `WriterState`: `PutZero`, `PutOne`, `PutBit`, `PutByte`, `PutBytes`, `PutBits`, `SendBuffer`,
  `WriteAligned`;
- `ReaderState`: `NextBit`, `NextByte`, `NextBytes`, `NextBits`, `Field`.

Lemmas about these functions give their meaning as bits, through two abstraction functions:

- `WriterState.Stream` is the bits of every byte handed to the sink, then the bits of the
  buffered bytes, then the pending bits.
- `ReaderState.Remaining` is the held bits, then the bits of the bytes not yet taken from the
  source.

Every bit, byte, unaligned byte run and field written appends exactly its bits to `Stream`.
Two operations do more, because they send the buffer without emptying it:

- An aligned `Write` appends the new bytes and then the buffered bytes again.
- `Flush` and `FlushOnes` append the padding, and then the buffered bytes again.

Every read removes exactly its bits from the front of `Remaining`. The `Scenarios` module
follows the patterns of bitstream_test.go on the classes and proves what those tests check.

Modules:

- `BitModel` (bits.dfy): bytes as bit sequences, and the merge loop shared by the unaligned
  `Write` and by `ReadBytes`.
- `WordModel` (words.dfy), `FieldModel` (fields.dfy) and `WholeBytes` (wholebytes.dfy): n-bit
  fields of a `uint64` as bits, and back.
- `Output` (output.dfy): `push` and the two kinds of sink.
- `WriterState` (writerstate.dfy) and `BitWriter` (writer.dfy): the writer.
- `ReaderState` (readerstate.dfy) and `BitReader` (reader.dfy): the reader.
- `Scenarios` (scenarios.dfy): the test patterns.

How the outside world is represented:

- Sinks. Every byte handed to either kind of sink is appended to one sequence, `sent`. Whether a
  sink call fails is a nondeterministic choice. `err` is a flag that, once set, stays set.
- Source. The `io.Reader` is a byte sequence `src` with a cursor `pos`. `Read` hands out any
  number of the remaining bytes that fits the request; the number is a nondeterministic choice,
  at least one when any byte is asked for. `Read` reports end of stream exactly when no byte is
  left.

The model follows the code, including where it departs from what its doc comments suggest
(writer.go:163-164 says Flush flushes "any unwritten bits"):

- `flush` hands a non-empty buffer to the sink but never empties it. A second `Flush`, or any
  write after a `Flush`, therefore sends the old buffered bytes again.
- An aligned `Write` sends a non-empty buffer and then the new bytes, without emptying the
  buffer, so it is not equivalent to the unaligned path. `WriterState.AlignedWriteSends` states
  exactly what it sends.
- `ReadByte` asks the source for a byte even when bits are held. It reports end of stream
  whenever no source byte is left, even if bits are still held.

## Model

| member | source | states |
|---|---|---|
| Output.Pushed | writer.go:52-68 | After a push the buffer is still below its capacity, which is at least 1. With a byte sink nothing is buffered. |
| Output.PushedKeepsOrder | writer.go:52-68 | A push appends x after the sent and buffered bytes, never reorders or drops one, and never takes back a sent byte. Either x joins the buffer, or the buffer is emptied into the sink. The buffer is sent exactly when it reaches its capacity. |
| Output.PushedAll | writer.go:52-68 | Pushing a run of bytes keeps sent bytes followed by buffered bytes equal to everything pushed, and the buffer below capacity. |
| Output.PushedAllBuffers | writer.go:52-68 | A byte sink sends every byte at once. An empty buffer of capacity c sends nothing for fewer than c bytes. |
| BitWriter.Writer.Push | writer.go:52-68 | The method's sent bytes and buffer are exactly those of Pushed. b and p are unchanged. An error once set stays set. |
| BitWriter.Writer.Send | writer.go:63-65 | A sink call appends its bytes to what was sent and leaves the rest unchanged. A failure sets err for good. |
| BitWriter.Writer.ByteWriter | writer.go:31-34 | A byte writer starts aligned (p = 8, b = 0) with an empty stream. |
| BitWriter.Writer.Buffered | writer.go:36-39 | A buffered writer of capacity 128 starts aligned with an empty stream. |
| BitWriter.Writer.Sized | writer.go:41-44 | A buffered writer of capacity n starts aligned with an empty stream. |
| BitWriter.Writer.WithBuffer | writer.go:46-50 | A writer through the caller's buffer starts aligned. The buffer's current bytes count as already written. |
| WriterState.PutZero | writer.go:70-80 | WriteZero keeps the writer invariant: 1 <= p <= 8, the free low bits of b are zero, and the buffer is below capacity. |
| WriterState.PutOne | writer.go:82-94 | WriteOne keeps the writer invariant. |
| WriterState.ZeroAppends | writer.go:70-80 | WriteZero extends the stream by exactly one 0 bit. |
| WriterState.OneAppends | writer.go:82-94 | WriteOne extends the stream by exactly one 1 bit. |
| WriterState.BitAppends | writer.go:96-102 | WriteBit extends the stream by exactly the given bit. |
| WriterState.PutBit | writer.go:96-102 | WriteBit's step, PutOne for a one bit and PutZero for a zero bit, keeps the writer invariant. |
| WriterState.BitOutput | writer.go:70-94 | A bit keeps the bytes already sent and buffered, in order. Exactly one byte is added after them when p was 1, and none otherwise. |
| BitWriter.Writer.WriteZero | writer.go:70-80 | The writer moves as PutZero says and stays valid. err is unchanged when nothing is pushed. The result is err. |
| BitWriter.Writer.WriteOne | writer.go:82-94 | The writer moves as PutOne says and stays valid. err is unchanged when nothing is pushed. The result is err. |
| BitWriter.Writer.WriteBit | writer.go:96-102 | The writer moves as PutBit says. |
| WriterState.PutByte | writer.go:104-109 | WriteByte keeps the invariant and leaves p unchanged. |
| WriterState.ByteOutput | writer.go:104-109 | WriteByte keeps the bytes already sent and buffered, in order, adds exactly one byte after them and leaves p unchanged. |
| WriterState.ByteAppends | writer.go:104-109 | WriteByte extends the stream by the eight bits of x, high bit first. |
| WriterState.ByteIsEightBits | writer.go:104-109 | WriteByte(x) reaches the same state as eight WriteBit calls, high bit of x first. |
| WriterState.EightBitsPushOnce | writer.go:104-109 | Any eight WriteBit calls push exactly one byte and leave p unchanged. |
| BitWriter.Writer.WriteByte | writer.go:104-109 | The writer moves as PutByte says. |
| WriterState.PutBytes | writer.go:129-138 | An unaligned Write leaves p unchanged and keeps the invariant. |
| WriterState.BytesAppendToStream | writer.go:129-138 | Writing bytes one at a time extends the stream by exactly their bits. |
| WriterState.UnalignedWriteMerges | writer.go:129-138 | The bytes an unaligned Write pushes are the merge-loop output for the 8 - p pending bits, and the final carry stays pending. |
| WriterState.WriteAligned | writer.go:113-128 | The aligned branch of Write: the bytes sent so far stay, followed by the buffer and then bs. The buffer is kept, and b and p are unchanged. |
| WriterState.ByteSinkWrite | writer.go:129-138 | With a byte sink, an unaligned Write sends every merged byte at once. |
| WriterState.AlignedWriteSends | writer.go:113-128 | An aligned Write sends everything written so far, then bs. The buffer is kept, so its bytes stand in the stream again after bs. |
| BitWriter.Writer.Write | writer.go:111-140 | Aligned, the writer sends the buffer and then bs, as WriteAligned says. Unaligned, it ends in the state of WriteByte on each byte in order (PutBytes); the loop invariant ties each step to PutBytes. |
| BitWriter.MergeNext | writer.go:133-136 | One step of the unaligned Write loop is one more WriteByte. |
| WriterState.PutBits | writer.go:142-161 | Writing any bits one at a time keeps the invariant. |
| WriterState.PutBitsAppend | writer.go:142-161 | Writing a and then c is writing a + c. |
| WriterState.BitsAppendToStream | writer.go:142-161 | Writing bits one at a time extends the stream by exactly those bits. |
| WriterState.PendingCount | writer.go:142-161 | After writing bits, the pending bit count is the old count plus the number of bits, modulo 8. |
| WriterState.NoPush | writer.go:70-94 | Fewer bits than are free push nothing. |
| WriterState.Fills | writer.go:70-94 | Exactly as many bits as are free push the completed byte and realign the writer. |
| FieldModel.ShiftToTop | writer.go:144 | u << (64 - n) holds the n low bits of u at its top. For n = 0 the shift is by the full width and yields 0. |
| BitWriter.WriteChunk | writer.go:145-149 | One iteration of the byte loop of WriteBits writes the next eight field bits. |
| BitWriter.WriteTail | writer.go:150-159 | One iteration of the bit loop of WriteBits writes the next field bit. |
| BitWriter.Writer.WriteBits | writer.go:142-161 | For n <= 64 the writer ends where writing the n low bits of u, most significant first, takes it. By BitsAppendToStream those are exactly the bits appended, and n = 0 appends nothing. |
| BitWriter.Writer.WriteTailBits | writer.go:150-159 | The bit loop writes the top n bits of what is left of u. |
| WriterState.Padding | writer.go:163-179 | The padding is fewer than 8 bits, ends the stream on a byte boundary, and is empty exactly when the writer is aligned. |
| WriterState.PadStep | writer.go:166-168 | Each padding bit leaves one free bit fewer to fill. |
| WriterState.Aligns | writer.go:163-179 | After the padding the writer is aligned, b = 0, and the sent and buffered bytes hold the old stream followed by the pad. An aligned writer is left unchanged. |
| WriterState.FlushSends | writer.go:163-188 | After Flush the sink has received the whole stream and then the pad, and the writer is aligned. An aligned writer pads nothing and only sends its buffer. |
| WriterState.SendBuffer | writer.go:181-188 | flush: the bytes sent so far stay, followed by the buffer. The buffer is kept, and b and p are unchanged. |
| BitWriter.Writer.FlushBuffer | writer.go:181-188 | flush sends a non-empty buffer without emptying it. With an empty buffer err is unchanged. |
| BitWriter.Writer.Flush | writer.go:163-170 | The writer ends where writing Padding(p) zero bits and then flush takes it. |
| BitWriter.Writer.FlushOnes | writer.go:172-179 | The writer ends where writing Padding(p) one bits and then flush takes it. |
| BitModel.MergeBits | reader.go:82-88 | The merge loop keeps the bits intact: the merged bytes followed by the new carry are the old pending bits followed by the input bytes. |
| BitModel.Merge | reader.go:82-88 | The carry loop shared with writer.go:129-138 gives one output byte per input byte. MergeIndex gives each byte, and MergeBits shows no bit is lost. |
| BitModel.Carry | reader.go:82-88 | The final carry of the loop: c itself for no input. After at least one byte it holds at most k bits at its top, and it keeps that bound whenever c held it. |
| BitModel.MergeAligned | reader.go:78-81 | With nothing pending, the merge loop returns its input unchanged, so skipping it is safe. |
| ReaderState.BytesMerged | reader.go:78-88 | In both branches, held bits or none, ReadBytes returns the next bytes merged behind the held bits, and the last carry is held. |
| BitReader.Reader.constructor | reader.go:15-22 | A new reader holds nothing (p = 0, b = 0). What is left to read is the whole source. |
| BitReader.Reader.Read | reader.go:33 | The source hands out a prefix of its remaining bytes, at least one when asked for any. It reports end of stream exactly when it is exhausted. |
| ReaderState.NextBit | reader.go:24-40 | ReadBit keeps the reader invariant (p < 8, the unheld bits of b are zero) and consumes exactly one bit. |
| ReaderState.BitTaken | reader.go:24-40 | ReadBit returns the first bit left and leaves the rest. |
| ReaderState.HeldBitTaken | reader.go:26-31 | With bits held, ReadBit returns the top held bit and takes no source byte. |
| ReaderState.FreshBitTaken | reader.go:32-39 | With no bits held, ReadBit takes one source byte, returns its top bit and holds the other seven. |
| BitReader.Reader.ReadBit | reader.go:24-40 | The reader moves as NextBit says. At end of stream it returns Zero with EOF, and its state is unchanged. |
| ReaderState.NextByte | reader.go:42-56 | ReadByte takes exactly one source byte, leaves p unchanged and keeps the invariant. |
| ReaderState.ByteTaken | reader.go:42-56 | ReadByte returns the first eight bits left and leaves the rest. |
| BitReader.Reader.ReadByte | reader.go:42-56 | At end of the source ReadByte returns 0 with EOF, even with bits held, and changes nothing. Otherwise it moves as NextByte says. |
| ReaderState.NextBytes | reader.go:58-90 | ReadBytes into L bytes takes exactly L source bytes, consumes 8 * L bits and leaves p unchanged. |
| ReaderState.BytesTaken | reader.go:58-90 | ReadBytes returns the first 8 * L bits left and leaves the rest. |
| ReaderState.BytesAreSingleBytes | reader.go:58-90 | ReadBytes into L bytes gives the same bytes and state as L calls of ReadByte. |
| BitReader.Reader.ReadBytes | reader.go:58-90 | If the source runs out, it reports EOF; the buffer then holds the bytes the source had. Otherwise the buffer and state are those of NextBytes. p is unchanged either way. |
| BitReader.Reader.MergeBytes | reader.go:82-88 | The in-place carry loop turns the buffer into Merge of its old contents and leaves the final carry in b. |
| ReaderState.MergeIndex | reader.go:84-87 | Each merged byte is the carry from the byte before it, merged with the high bits of its own byte. |
| ReaderState.NextBits | reader.go:110-121 | k ReadBit calls consume exactly k bits. |
| ReaderState.BitsTaken | reader.go:110-121 | k ReadBit calls return the first k bits left and leave the rest. |
| ReaderState.Field | reader.go:92-123 | ReadBits(n) consumes exactly n bits. |
| ReaderState.FieldTaken | reader.go:92-123 | ReadBits(n) returns exactly the first n bits left, whatever their split into bytes and bits, and leaves the rest. |
| ReaderState.FieldValueRead | reader.go:92-123 | For n <= 64, ReadBits returns a value below 2^n whose n low bits are the n bits read. |
| ReaderState.AssembleStep | reader.go:105-107 | Each step of the byte loop moves the next byte in at the bottom of the value. |
| ReaderState.ShiftIn | reader.go:116-120 | Each step of the bit loop moves the next bit in at the bottom of the value. |
| BitReader.Pack | reader.go:105-107 | The byte loop of ReadBits returns the value of the bytes' bits. |
| BitReader.Reader.ReadTailBits | reader.go:110-121 | The bit loop of ReadBits fails with 0 when fewer than k bits are left. Otherwise it returns the value of the bits read so far followed by the next k bits. |
| BitReader.Reader.ReadBits | reader.go:92-123 | ReadBits fails with 0 exactly when fewer than n bits are left. Otherwise it returns the value of Field's bits and moves as Field says. |
| FieldModel.FieldRoundTrip | reader.go:92-123 | Reading back the n low bits of v gives v mod 2^n, which is v when v is below 2^n. |
| ReaderState.BitReadBack | reader.go:24-40 | When what is left starts with the bit x, ReadBit returns x and leaves the rest. |
| ReaderState.BytesReadBack | reader.go:58-90 | When what is left starts with the bits of xs, ReadBytes into len(xs) bytes succeeds and returns xs. |
| ReaderState.SourceDrained | reader.go:43-48 | With fewer than eight bits left, the source is exhausted, so ReadByte reports EOF. |
| Scenarios.ReadOneByte | bitstream_test.go:14-27 | Reading "1" gives 0x31, then EOF. |
| Scenarios.ReadThreeBytes | bitstream_test.go:29-42 | ReadBytes of "bar" into three bytes gives "bar", then ReadByte gives EOF. |
| Scenarios.AlignedRoundTrip | bitstream_test.go:44-65 | For any bytes bs: an aligned Write and Flush send exactly bs; ReadBytes returns bs, and then ReadBit gives EOF. |
| Scenarios.AlignedWriteFlush | bitstream_test.go:45-54 | A fresh buffered writer's Write and Flush send exactly the bytes written. |
| Scenarios.AlignedReadBack | bitstream_test.go:55-64 | ReadBytes of a whole source returns it, then ReadBit gives EOF. |
| Scenarios.HelloWorld | bitstream_test.go:44-65 | The round trip of "Hello World!". |
| Scenarios.UnalignedRoundTrip | bitstream_test.go:67-100 | For any bytes bs: WriteOne, WriteZero, Write(bs), Flush, then ReadBit, ReadBit and ReadBytes give true, false and bs, and then ReadByte gives EOF. |
| Scenarios.WriteMixed | bitstream_test.go:68-74 | The bytes sent hold 1, 0, the bits of bs, then fewer than eight pad bits. |
| Scenarios.ReadMixed | bitstream_test.go:75-99 | From any source holding those bits, the three reads give true, false and bs, and then ReadByte gives EOF. |
| Scenarios.FooBarBazMixed | bitstream_test.go:67-100 | The mixed round trip of "foo bar baz!". |
| Scenarios.FieldsRoundTrip | bitstream_test.go:102-145 | For any length below 64 and any value that fits in it: WriteBits of the length in six bits, WriteBits of the value, Flush, then ReadBits(6) and ReadBits(length) give back the length and the value, and ReadByte then gives EOF. |
| Scenarios.WriteFields | bitstream_test.go:105-118 | The bytes sent hold the six-bit length, the value's bits, then fewer than eight pad bits. |
| Scenarios.ReadFields | bitstream_test.go:122-144 | From any source holding those bits, the two ReadBits calls give the length and the value, and ReadByte then gives EOF. |
| Scenarios.FieldReadBack | bitstream_test.go:125-134 | When what is left starts with the n-bit field v and v fits in n bits, ReadBits(n) succeeds and returns v. |
| Scenarios.Width | bitstream_test.go:130 | A length below 64 converted to a bit count (Go's uint(l)) keeps its value. |

## Left out

- Real I/O. Sinks and the source are byte sequences. The identity of errors is not kept: the writer keeps a flag, and the reader reports end of stream as a boolean.
- Sources that return (0, nil), or data together with an error, are not modelled. The Go code would loop forever in ReadBytes on the first; ReadBit would return Zero without an error.
- The reader's `br` field is not modelled. NewReader sets it and nothing reads it.
- A buffer capacity of 0 is not modelled: the constructors require at least 1. With capacity 0, Go's `append` reallocates and the flush trigger changes.
- BitWriter.Writer.WithBuffer requires the caller's buffer to be shorter than its capacity. Go also accepts a full buffer (len == cap). Its first push then reallocates through `append`, and the buffer is only sent once the grown slice fills, a capacity this model does not represent.
- The source fails only by running out. A read error in the middle of the stream is not modelled, although the code handles one (reader.go:33-35, 62-65, 71-74). The writer's sinks, by contrast, may fail on any call.
- BitWriter.Writer.Write requires a buffered sink when the writer is aligned. With a byte writer, Go's aligned Write calls Write on a nil io.Writer, which panics.
- BitWriter.Writer.WriteBits requires n <= 64. For larger n, Go's `64 - n` wraps around.
- BitReader.Reader.ReadBits requires n < 72. For larger n, Go's eight-byte scratch array is sliced out of range and the call panics. For 64 < n < 72 the model matches the code, but FieldValueRead says nothing about the value.
- BitReader.Reader.ReadBits uses a fresh array of n / 8 bytes where Go slices a local [8]byte.
- The `if err != nil` after `n < len(b)` in ReadBytes can never be taken, so it has no counterpart.
- Go keeps the writer's p in a uint16 and the reader's p in a uint32. Both only ever hold 0 to 8, so the model keeps them as bv8.
- Some single Go functions are split into a method per loop: WriteBits into WriteTailBits, ReadBytes into MergeBytes, and ReadBits into Pack and ReadTailBits. Each split-out method runs exactly the statements of its loop.
- Go's `push` also returns err. Every caller ignores it, so Push returns nothing.
- Scenarios.FieldsRoundTrip models one length-and-value pair rather than a million pseudo-random ones. The generator and `bits.Clz` are outside this model, so the pair is any length below 64 and any value that fits in it.
- Benchmarks, the comparisons with another bitstream package in writer_test.go, and fmt output are not modelled.
