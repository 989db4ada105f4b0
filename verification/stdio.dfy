/**
  The part of C's `<stdio.h>` that fat.c relies on: a binary stream opened
  for reading (`FILE*` from `fopen(path, "rb")`), `fseek` with `SEEK_SET`
  and `fread`, following sections 7.21.9.2 and 7.21.8.1 of ISO C11.
  The image is a byte sequence and the stream a position within it. A stream
  that cannot be positioned (a pipe, say) rejects every seek.
 */
module Stdio {
  import opened Bytes

  /** What a `FILE*` over a disk image amounts to for this program. */
  datatype Stream = Stream(data: seq<Byte>, pos: nat, seekable: bool)
  {
    /** Bytes left between the position and the end of the image. */
    function Available(): nat {
      if pos <= |data| then |data| - pos else 0
    }
  }

  /** The return value of `fseek` and the stream after it. */
  datatype SeekResult = SeekResult(rc: int, after: Stream)

  /** The return value of `fread`, the bytes it stored and the stream after it. */
  datatype ReadResult = ReadResult(items: nat, bytes: seq<Byte>, after: Stream)

  /**
    `fseek(stream, offset, SEEK_SET)`: returns zero and moves to `offset`
    (which may lie past the end of the image) on a seekable stream; returns
    non-zero and leaves the position alone otherwise.
   */
  function Fseek(s: Stream, offset: nat): (r: SeekResult)
    ensures r.rc == 0 <==> s.seekable
    ensures r.after.data == s.data && r.after.seekable == s.seekable
    ensures r.after.pos == if r.rc == 0 then offset else s.pos
  {
    if s.seekable then SeekResult(0, s.(pos := offset)) else SeekResult(-1, s)
  }

  /**
    `fread(buffer, size, count, stream)`: reads `size * count` bytes or as many
    as remain, advances past what it read and returns the number of whole
    items read (zero when `size` or `count` is zero).
   */
  function Fread(s: Stream, size: nat, count: nat): (r: ReadResult)
    ensures r.items <= count
    ensures |r.bytes| <= size * count && |r.bytes| <= s.Available()
    ensures forall i :: 0 <= i < |r.bytes| ==> r.bytes[i] == s.data[s.pos + i]
    ensures r.after == s.(pos := s.pos + |r.bytes|)
  {
    var want := size * count;
    var got := if want <= s.Available() then want else s.Available();
    var items := if size == 0 then 0 else got / size;
    assert size > 0 ==> items <= count by {
      if size > 0 {
        QuotientBelow(got, size, count + 1);
      }
    }
    var bytes := if got == 0 then [] else s.data[s.pos..s.pos + got];
    ReadResult(items, bytes, s.(pos := s.pos + got))
  }

  /** Below `d * k`, the quotient by `d` is below `k`. */
  lemma QuotientBelow(a: nat, d: nat, k: nat)
    requires d > 0 && a < d * k
    ensures a / d < k
  {
    var q := a / d;
    assert q * d <= a;
    assert q * d < k * d;
    assert (k - q) * d > 0;
  }

  /** Dividing `d * k` by `d` gives back `k`. */
  lemma QuotientOfProduct(k: nat, d: nat)
    requires d > 0
    ensures (d * k) / d == k
  {
    var q, r := (d * k) / d, (d * k) % d;
    assert d * (k - q) == r;
    // k - q is neither at least 1 (d * (k - q) would reach d) nor negative.
    if k - q >= 1 {
    } else if k - q <= -1 {
    }
  }

  /**
    `fread` reports every requested item read exactly when `count` is zero or
    the stream holds all `size * count` bytes with `size` non-zero; a short
    read never reports completion.
   */
  lemma {:induction false} FreadComplete(s: Stream, size: nat, count: nat)
    ensures var r := Fread(s, size, count);
      r.items == count <==> count == 0 || (size > 0 && size * count <= s.Available())
    ensures var r := Fread(s, size, count);
      r.items == count ==> |r.bytes| == size * count
  {
    var r := Fread(s, size, count);
    var want := size * count;
    if size > 0 && count > 0 {
      if want > s.Available() {
        QuotientBelow(s.Available(), size, count);
        assert r.items < count;
      } else {
        assert |r.bytes| == want;
        QuotientOfProduct(count, size);
      }
    }
  }

  /** A `FILE*` opened on a disk image: the bytes are fixed, the position moves. */
  class Disk {
    const data: seq<Byte>
    const seekable: bool
    var pos: nat

    /** `fopen(path, "rb")` that succeeded: the position is the start of the image. */
    constructor Open(data: seq<Byte>, seekable: bool)
      ensures State() == Stream(data, 0, seekable)
    {
      this.data := data;
      this.seekable := seekable;
      pos := 0;
    }

    function State(): Stream
      reads this
    {
      Stream(data, pos, seekable)
    }

    method Seek(offset: nat) returns (rc: int)
      modifies this`pos
      ensures SeekResult(rc, State()) == Fseek(old(State()), offset)
    {
      if seekable {
        pos := offset;
        rc := 0;
      } else {
        rc := -1;
      }
    }

    /** Fills the front of `buffer` with what `fread` reads; the rest keeps its contents. */
    method Read(buffer: array<Byte>, size: nat, count: nat) returns (items: nat)
      requires size * count <= buffer.Length
      modifies this`pos, buffer
      ensures var r := Fread(old(State()), size, count);
        items == r.items && State() == r.after
        && buffer[..|r.bytes|] == r.bytes
        && buffer[|r.bytes|..] == old(buffer[|r.bytes|..])
    {
      var r := Fread(State(), size, count);
      forall i | 0 <= i < |r.bytes| {
        buffer[i] := r.bytes[i];
      }
      pos := pos + |r.bytes|;
      items := r.items;
    }
  }
}
