/**
 * The bit reader of reader.go: a class whose methods update its fields in
 * place, each proved to do what the matching function of ReaderState says.
 *
 * The io.Reader it draws from is modelled by the byte sequence src and the
 * count pos of bytes taken from it. Read hands out any number of the bytes
 * left that fits the request, at least one when any is asked for, and
 * reports end of stream when none is left.
 */
module BitReader {
  import opened BitModel
  import opened FieldModel
  import opened ReaderState

  class Reader {
    /** The bytes the underlying reader delivers, and how many it has delivered. */
    const src: seq<bv8>
    var pos: nat
    /** The byte holding the bits read but not yet returned, at its top, and their count. */
    var b: bv8
    var p: bv8

    ghost function State(): RState
      reads this
    {
      RState(pos, b, p)
    }

    ghost predicate Valid()
      reads this
    {
      Fine(src, State())
    }

    /** NewReader: nothing read yet, nothing held. */
    constructor (source: seq<bv8>)
      ensures Valid() && src == source
      ensures State() == RState(0, 0, 0) && Remaining(src, State()) == Bits(source)
    {
      src := source;
      pos := 0;
      b := 0;
      p := 0;
      new;
      assert Top(0, 0) == [] && src[0..] == src;
    }

    /**
     * The underlying reader's Read into a[lo..]: some of the bytes left, at
     * least one when a[lo..] is not empty, and end of stream when none is left.
     */
    method Read(a: array<bv8>, lo: nat) returns (n: nat, eof: bool)
      requires pos <= |src| && lo <= a.Length
      modifies this`pos, a
      ensures eof <==> old(pos) == |src|
      ensures old(pos) <= pos <= |src| && n == pos - old(pos) && lo + n <= a.Length
      ensures !eof && lo < a.Length ==> 1 <= n
      ensures forall j | lo <= j < lo + n :: a[j] == src[old(pos) + (j - lo)]
      ensures forall j | 0 <= j < a.Length && !(lo <= j < lo + n) :: a[j] == old(a[j])
    {
      if pos == |src| {
        return 0, true;
      }
      var most := if a.Length - lo < |src| - pos then a.Length - lo else |src| - pos;
      n :| (lo < a.Length ==> 1 <= n) && n <= most;
      for k := 0 to n
        invariant pos == old(pos)
        invariant forall j | lo <= j < lo + k :: a[j] == src[pos + (j - lo)]
        invariant forall j | 0 <= j < a.Length && !(lo <= j < lo + k) :: a[j] == old(a[j])
      {
        a[lo + k] := src[pos + k];
      }
      pos := pos + n;
      eof := false;
    }

    /** ReadBit: the next bit, or end of stream when no bit is left. */
    method ReadBit() returns (bit: bool, eof: bool)
      requires Valid()
      modifies this
      ensures Valid()
      ensures eof <==> Count(src, old(State())) == 0
      ensures eof ==> !bit && State() == old(State())
      ensures !eof ==> (bit, State()) == NextBit(src, old(State()))
    {
      if p > 0 {
        var d := b & 0x80;
        p := p - 1;
        b := b << 1;
        return d != 0, false;
      }
      var one := new bv8[1];
      var n, e := Read(one, 0);
      if n != 1 || e {
        return false, e;
      }
      p := 7;
      b := one[0] << 1;
      return one[0] & 0x80 != 0, false;
    }

    /**
     * ReadByte: the next eight bits, or end of stream when the underlying
     * reader has no byte left, even if bits are held.
     */
    method ReadByte() returns (x: bv8, eof: bool)
      requires Valid()
      modifies this
      ensures Valid()
      ensures eof <==> old(pos) == |src|
      ensures eof ==> x == 0 && State() == old(State())
      ensures !eof ==> (x, State()) == NextByte(src, old(State()))
    {
      var one := new bv8[1];
      var n, e := Read(one, 0);
      if n != 1 || e {
        return 0, e;
      }
      if p == 0 {
        return one[0], false;
      }
      x := b | (one[0] >> p);
      b := one[0] << (8 - p);
      eof := false;
    }

    /**
     * ReadBytes: fills a with the next 8 * a.Length bits, or reports end of
     * stream when the underlying reader runs out first (or has nothing left
     * at all), after copying the bytes it had into a.
     */
    method ReadBytes(a: array<bv8>) returns (eof: bool)
      requires Valid()
      modifies this, a
      ensures Valid() && p == old(p)
      ensures eof <==> old(pos) == |src| || |src| - old(pos) < a.Length
      ensures !eof ==> (a[..], State()) == NextBytes(src, old(State()), a.Length)
      ensures eof ==> pos == |src| && b == old(b)
      ensures eof ==> forall j | 0 <= j < a.Length ::
        a[j] == if j < |src| - old(pos) then src[old(pos) + j] else old(a[j])
    {
      var n, e := Read(a, 0);
      if e {
        return true;
      }
      while n < a.Length
        invariant n <= a.Length && pos == old(pos) + n && pos <= |src|
        invariant forall j | 0 <= j < n :: a[j] == src[old(pos) + j]
        invariant forall j | n <= j < a.Length :: a[j] == old(a[j])
        invariant b == old(b) && p == old(p)
        decreases a.Length - n
      {
        var nn;
        nn, e := Read(a, n);
        if e {
          return true;
        }
        n := n + nn;
      }
      assert a[..] == src[old(pos)..pos];
      if p == 0 {
        return false;
      }
      MergeBytes(a);
      eof := false;
    }

    /** The in-place merge that ends ReadBytes when bits are held. */
    method MergeBytes(a: array<bv8>)
      requires Valid() && 0 < p
      modifies this`b, a
      ensures Valid()
      ensures a[..] == Merge(old(b), p, old(a[..])) && b == Carry(old(b), p, old(a[..]))
    {
      ghost var xs := a[..];
      ghost var held := b;
      var k := p;
      var k8 := 8 - k;
      var carry := b;
      for i := 0 to a.Length
        invariant forall j | 0 <= j < i :: a[j] == Merge(held, k, xs)[j]
        invariant forall j | i <= j < a.Length :: a[j] == xs[j]
        invariant carry == if i == 0 then held else Leftover(k, xs[i - 1])
      {
        MergeIndex(held, k, xs, i);
        var c := a[i];
        a[i] := carry | (c >> k);
        carry := c << k8;
      }
      assert a[..] == Merge(held, k, xs);
      if a.Length > 0 {
        CarryAt(k, xs[a.Length - 1], 0);
      }
      b := carry;
    }

    /**
     * ReadBits: the next n bits as the low n bits of a word, the first read
     * the most significant, or end of stream (and 0) when fewer are left.
     * Whole bytes are taken with ReadBytes, the rest bit by bit. More than
     * 71 bits would overrun the source's eight-byte scratch buffer.
     */
    method ReadBits(n: nat) returns (u: bv64, eof: bool)
      requires Valid() && n < 72
      modifies this
      ensures Valid()
      ensures eof <==> Count(src, old(State())) < n
      ensures eof ==> u == 0
      ensures !eof ==> u == FromBits(Field(src, old(State()), n).0) && State() == Field(src, old(State()), n).1
    {
      ghost var s := State();
      ghost var done: seq<bool> := [];
      u := 0;
      var k := n;
      var l := n / 8;
      if l > 0 {
        var scratch := new bv8[l];
        var e := ReadBytes(scratch);
        if e {
          return 0, true;
        }
        u := Pack(scratch);
        done := Bits(scratch[..]);
        k := k - l * 8;
      } else {
        NoBytes(src, s);
      }
      ghost var mid := State();
      u, eof := ReadTailBits(done, u, k);
      if !eof {
        FieldOf(src, s, n, mid, done);
      }
    }

    /** The bit loop that ends ReadBits, after the bits done have been read into u0. */
    method ReadTailBits(ghost done: seq<bool>, u0: bv64, k: nat) returns (u: bv64, eof: bool)
      requires Valid() && u0 == FromBits(done)
      modifies this
      ensures Valid()
      ensures eof <==> Count(src, old(State())) < k
      ensures eof ==> u == 0
      ensures !eof ==> u == FromBits(done + NextBits(src, old(State()), k).0)
      ensures !eof ==> State() == NextBits(src, old(State()), k).1
    {
      ghost var s := State();
      ghost var j: nat := 0;
      u := u0;
      var left := k;
      assert done + [] == done;
      while left > 0
        invariant Valid() && j + left == k && j <= Count(src, s)
        invariant State() == NextBits(src, s, j).1
        invariant u == FromBits(done + NextBits(src, s, j).0)
      {
        ghost var t := NextBits(src, s, j);
        var bit, e := ReadBit();
        if e {
          return 0, true;
        }
        ShiftIn(done + t.0, bit);
        Assoc(done, t.0, [bit]);
        if bit {
          u := (u << 1) | 1;
        } else {
          u := u << 1;
        }
        left := left - 1;
        j := j + 1;
      }
      assert j == k;
      assert State() == NextBits(src, s, k).1;
      assert s == old(State());
      eof := false;
    }
  }

  /**
   * The loop of ReadBits that moves each byte read in at the bottom of the
   * result, the first byte read ending up the most significant.
   */
  method Pack(a: array<bv8>) returns (u: bv64)
    ensures u == FromBits(Bits(a[..]))
  {
    u := 0;
    for i := 0 to a.Length
      invariant u == FromBits(Bits(a[..i]))
    {
      AssembleStep(a[..i], a[i]);
      assert a[..i + 1] == a[..i] + [a[i]];
      u := (u << 8) | (a[i] as bv64);
    }
    assert a[..a.Length] == a[..];
  }
}
