/**
  Petra's fixed-width strings. A field of width N is read as exactly N bytes
  and cut before the first terminator byte. The terminator the reader scans
  for is the ASCII digit '0' (0x30), not NUL: NUL padding is kept and any
  text containing the digit 0 is cut short. The lossy UTF-8 conversion that
  follows is not modelled; strings stay byte sequences.
 */
module PetraStrings {
  import opened Primitives
  import opened Errors
  import opened Stream

  const TERMINATOR: byte := 0x30

  /** The position of the first terminator, or the length of the buffer
      when there is none (`position(..).unwrap_or(buf.len())`). */
  function TerminatorIndex(buf: seq<byte>): (n: nat)
    ensures n <= |buf|
    ensures forall i :: 0 <= i < n ==> buf[i] != TERMINATOR
    ensures n < |buf| ==> buf[n] == TERMINATOR
  {
    if |buf| == 0 || buf[0] == TERMINATOR then 0
    else 1 + TerminatorIndex(buf[1..])
  }

  /** `petra_string`, on bytes. */
  function PetraString(buf: seq<byte>): (s: seq<byte>)
    ensures |s| <= |buf|
    ensures s == buf[..|s|]
    ensures TERMINATOR !in s
    ensures s == buf || buf[|s|] == TERMINATOR
  {
    buf[..TerminatorIndex(buf)]
  }

  /** The decoded string is the only prefix that is free of terminators and
      either is the whole buffer or stops right at a terminator; in
      particular it is the longest terminator-free prefix. */
  lemma PetraStringUnique(buf: seq<byte>, p: seq<byte>)
    requires |p| <= |buf| && p == buf[..|p|] && TERMINATOR !in p
    requires p == buf || buf[|p|] == TERMINATOR
    ensures p == PetraString(buf)
  {
  }

  /** Decoding a decoded string changes nothing. */
  lemma PetraStringIdempotent(buf: seq<byte>)
    ensures PetraString(PetraString(buf)) == PetraString(buf)
  {
    var s := PetraString(buf);
    PetraStringUnique(s, s);
  }

  /** A buffer without the digit 0 decodes to itself, NUL padding included. */
  lemma PetraStringWhole(buf: seq<byte>)
    requires TERMINATOR !in buf
    ensures PetraString(buf) == buf
  {
    PetraStringUnique(buf, buf);
  }

  /** `read_petra_string`: `read_exact` of `width` bytes, then decode. */
  function ReadPetraString(c: Cursor, width: nat): Outcome<Parsed<seq<byte>>> {
    var p :- ReadExact(c, width);
    Ok(Parsed(PetraString(p.value), p.rest))
  }

  /** A fixed-width string read takes exactly `width` bytes, whatever the
      decoded length, and fails with IOError only when they run past the
      end of the data. */
  lemma ReadPetraStringLayout(c: Cursor, width: nat)
    ensures ReadPetraString(c, width).Ok? <==> c.pos + width <= |c.data|
    ensures !ReadPetraString(c, width).Ok? ==> ReadPetraString(c, width) == Err(IOError)
    ensures ReadPetraString(c, width).Ok? ==>
      && ReadPetraString(c, width).value.value == PetraString(c.data[c.pos..c.pos + width])
      && ReadPetraString(c, width).value.rest == Cursor(c.data, c.pos + width)
  {
  }
}
