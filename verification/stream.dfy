/**
  The seekable byte source the reader works on. The whole file is an
  immutable byte sequence; a cursor is that sequence plus the position the
  next read starts at. Seeking past the end is allowed (as for files) and
  only a read that runs past the end fails, with IOError.
 */
module Stream {
  import opened Primitives
  import opened Errors

  datatype Cursor = Cursor(data: seq<byte>, pos: nat)

  /** A value read together with the cursor after it. */
  datatype Parsed<+T> = Parsed(value: T, rest: Cursor)

  /** `rewind`: position 0. */
  function Rewind(data: seq<byte>): Cursor {
    Cursor(data, 0)
  }

  /** `seek(SeekFrom::Start(offset))`. */
  function Seek(c: Cursor, offset: nat): Cursor {
    c.(pos := offset)
  }

  /** `read_exact` into a buffer of `width` bytes. */
  function ReadExact(c: Cursor, width: nat): (r: Outcome<Parsed<seq<byte>>>)
    ensures r.Ok? ==> |r.value.value| == width
  {
    if c.pos + width <= |c.data| then
      Ok(Parsed(c.data[c.pos..c.pos + width], Seek(c, c.pos + width)))
    else
      Err(IOError)
  }

  /** `read_u32::<LittleEndian>`. */
  function ReadU32(c: Cursor): Outcome<Parsed<u32>> {
    var p :- ReadExact(c, 4);
    Ok(Parsed(LeU32(p.value), p.rest))
  }

  /** `read_f64::<LittleEndian>`, keeping the eight bytes uninterpreted. */
  function ReadF64(c: Cursor): Outcome<Parsed<F64>> {
    var p :- ReadExact(c, 8);
    Ok(Parsed(p.value, p.rest))
  }

  /** Cuts a buffer of `8 * count` bytes into `count` floats. */
  function Chunks(raw: seq<byte>, count: nat): (fs: seq<F64>)
    requires |raw| == 8 * count
  {
    seq(count, i requires 0 <= i < count => raw[8 * i..8 * i + 8])
  }

  /** `read_f64_into::<LittleEndian>` with a buffer of `count` floats. */
  function ReadF64Into(c: Cursor, count: nat): Outcome<Parsed<seq<F64>>> {
    var p :- ReadExact(c, 8 * count);
    Ok(Parsed(Chunks(p.value, count), p.rest))
  }

  /** A bulk read yields exactly the requested number of floats, float `i`
      being the eight bytes at `pos + 8 * i`, and fails only when those bytes
      run past the end of the data. */
  lemma ReadF64IntoLayout(c: Cursor, count: nat)
    ensures ReadF64Into(c, count).Ok? <==> c.pos + 8 * count <= |c.data|
    ensures !ReadF64Into(c, count).Ok? ==> ReadF64Into(c, count) == Err(IOError)
    ensures ReadF64Into(c, count).Ok? ==>
      var fs := ReadF64Into(c, count).value.value;
      |fs| == count &&
      forall i :: 0 <= i < count ==> fs[i] == c.data[c.pos + 8 * i..c.pos + 8 * i + 8]
  {
  }
}
