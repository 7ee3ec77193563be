/**
  `Grid::read` as written passes the byte strides (72, 8, 24) of the
  triangle layout to ndarray, which counts strides in elements. The reshape
  then addresses element 72n - 8 of a buffer of 9n floats and the `unwrap`
  panics, so no triangular grid can be read. Everything else is unaffected:
  rectangular grids and every error outcome are the same as with the
  element strides (9, 1, 3) the rest of this model uses.
 */
module StridesFinding {
  import opened Primitives
  import opened Errors
  import opened Stream
  import opened Layout
  import opened Reshape
  import opened GridReader
  import opened HeaderLayout
  import opened ReadProperties
  import opened ReadOutcome

  /** What read as written does to the bulk data of a triangular grid: a
      panic once the floats are there, an IOError when they are not. */
  lemma AsWrittenTriangleData(data: seq<byte>, h: Header)
    requires h.nTriangles > 0
    ensures ReadData(data, h, AS_WRITTEN_STRIDES) ==
      if GRID_OFFSET + 72 * h.nTriangles <= |data| then Panic(ShapeRejected) else Err(IOError)
  {
    var start := Cursor(data, GRID_OFFSET);
    ReadF64IntoLayout(start, 9 * h.nTriangles);
    if GRID_OFFSET + 72 * h.nTriangles <= |data| {
      AsWrittenStridesOverrun(ReadF64Into(start, 9 * h.nTriangles).value.value, h.nTriangles);
    }
  }

  /** A file whose header cannot be read fails identically either way. */
  lemma HeaderFailureIgnoresStrides(data: seq<byte>, floats: FloatSemantics, s: Strides)
    requires !HeaderComplete(data, floats)
    ensures ReadWithStrides(data, floats, s) == Read(data, floats)
    ensures !Read(data, floats).Ok?
  {
    ReadHeaderFollowsLayout(data, floats);
  }

  /** Without triangles the strides are never used. */
  lemma AsWrittenRectangular(data: seq<byte>, floats: FloatSemantics)
    requires HeaderComplete(data, floats) && HeaderAt(data).nTriangles == 0
    ensures ReadAsWritten(data, floats) == Read(data, floats)
  {
    var h := HeaderAt(data);
    ReadAfterHeader(data, floats, ELEMENT_STRIDES);
    ReadAfterHeader(data, floats, AS_WRITTEN_STRIDES);
    assert ReadData(data, h, AS_WRITTEN_STRIDES) == ReadData(data, h, ELEMENT_STRIDES);
  }

  /** With triangles, read as written agrees with read up to the bulk data
      and panics where read would decode. */
  lemma AsWrittenTriangular(data: seq<byte>, floats: FloatSemantics)
    requires HeaderComplete(data, floats) && HeaderAt(data).nTriangles > 0
    ensures Decodes(data, floats) ==> ReadAsWritten(data, floats) == Panic(ShapeRejected)
    ensures !Decodes(data, floats) ==> ReadAsWritten(data, floats) == Read(data, floats)
  {
    if DataSizeMatches(data, floats) {
      AsWrittenTriangleRead(data, floats);
    } else {
      AsWrittenBeforeData(data, floats);
    }
  }

  /** A file that fails a check fails identically either way. */
  lemma AsWrittenBeforeData(data: seq<byte>, floats: FloatSemantics)
    requires HeaderComplete(data, floats) && !DataSizeMatches(data, floats)
    ensures ReadAsWritten(data, floats) == Read(data, floats)
  {
    ValidateOkExactly(data, floats);
    ReadAfterHeader(data, floats, ELEMENT_STRIDES);
    ReadAfterHeader(data, floats, AS_WRITTEN_STRIDES);
  }

  lemma AsWrittenTriangleRead(data: seq<byte>, floats: FloatSemantics)
    requires DataSizeMatches(data, floats) && HeaderAt(data).nTriangles > 0
    ensures Decodes(data, floats) ==> ReadAsWritten(data, floats) == Panic(ShapeRejected)
    ensures !Decodes(data, floats) ==> ReadAsWritten(data, floats) == Read(data, floats)
  {
    var h := HeaderAt(data);
    ValidateOkExactly(data, floats);
    ReadTrailerFollowsLayout(data);
    ReadAfterHeader(data, floats, ELEMENT_STRIDES);
    ReadAfterHeader(data, floats, AS_WRITTEN_STRIDES);
    AsWrittenTriangleData(data, h);
    ReadDataLayout(data, floats);
    TriangularDataLayout(data, h);
  }

  /** Read as written decodes only rectangular grids, the same ones read
      decodes; every triangular grid that read decodes makes it panic; on
      every other file the two agree. */
  lemma AsWrittenNeverDecodesTriangles(data: seq<byte>, floats: FloatSemantics)
    ensures ReadAsWritten(data, floats).Ok? ==>
      && ReadAsWritten(data, floats) == Read(data, floats)
      && ReadAsWritten(data, floats).value.data.Rectangular?
    ensures Decodes(data, floats) && HeaderAt(data).nTriangles > 0 ==>
      && Read(data, floats).Ok?
      && ReadAsWritten(data, floats) == Panic(ShapeRejected)
    ensures !(Decodes(data, floats) && HeaderAt(data).nTriangles > 0) ==>
      ReadAsWritten(data, floats) == Read(data, floats)
  {
    ReadSucceedsExactly(data, floats);
    if !HeaderComplete(data, floats) {
      HeaderFailureIgnoresStrides(data, floats, AS_WRITTEN_STRIDES);
    } else if HeaderAt(data).nTriangles == 0 {
      AsWrittenRectangular(data, floats);
      if Decodes(data, floats) {
        ReadGridContents(data, floats);
      }
    } else {
      AsWrittenTriangular(data, floats);
    }
  }
}
