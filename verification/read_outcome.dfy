/**
  The complete outcome of `Grid::read`: it decodes exactly the files that
  pass every check of the chain in ReadProperties, the decoded grid is the
  one the offset table describes, and the length checks accept exactly the
  byte counts that floor division lets through.
 */
module ReadOutcome {
  import opened Primitives
  import opened Errors
  import opened Layout
  import opened Reshape
  import opened GridReader
  import opened HeaderLayout
  import opened ReadProperties

  /** The strings taken from their spans of the offset table. */
  function TrailerAt(data: seq<byte>): Trailer
    requires GRID_OFFSET <= |data|
  {
    Trailer(StringAt(data, SOURCE), StringAt(data, UNKNOWN), StringAt(data, PROJECTION), StringAt(data, DATUM))
  }

  /** Once every check has passed, read fails only when the bulk data is
      too short for the floats it must hold, with an IOError, and otherwise
      returns the header, the strings and the bulk data of the table. */
  lemma ReadAfterChecks(data: seq<byte>, floats: FloatSemantics)
    requires DataSizeMatches(data, floats)
    ensures !Decodes(data, floats) ==> Read(data, floats) == Err(IOError)
    ensures Decodes(data, floats) ==>
      && ReadData(data, HeaderAt(data), ELEMENT_STRIDES).Ok?
      && Read(data, floats) ==
           Ok(Grid(HeaderAt(data), TrailerAt(data), ReadData(data, HeaderAt(data), ELEMENT_STRIDES).value))
  {
    var h := HeaderAt(data);
    ValidateDataLength(h, |data|, floats.withinTolerance);
    ReadTrailerFollowsLayout(data);
    ReadAfterHeader(data, floats, ELEMENT_STRIDES);
    if Decodes(data, floats) {
      BulkDataDecodes(data, floats);
    } else {
      BulkDataTooShort(data, floats);
    }
  }

  // The two outcomes of the bulk read once the checks have passed.

  lemma BulkDataDecodes(data: seq<byte>, floats: FloatSemantics)
    requires Decodes(data, floats)
    ensures ReadData(data, HeaderAt(data), ELEMENT_STRIDES).Ok?
  {
    ReadDataLayout(data, floats);
  }

  lemma BulkDataTooShort(data: seq<byte>, floats: FloatSemantics)
    requires DataSizeMatches(data, floats) && !Decodes(data, floats)
    ensures ReadData(data, HeaderAt(data), ELEMENT_STRIDES) == Err(IOError)
  {
    ReadDataLayout(data, floats);
  }

  /** Read decodes a grid exactly when every check passes. */
  lemma ReadSucceedsExactly(data: seq<byte>, floats: FloatSemantics)
    ensures Read(data, floats).Ok? <==> Decodes(data, floats)
  {
    if !HeaderComplete(data, floats) {
      ReadStopsInHeader(data, floats);
    } else if !DataSizeMatches(data, floats) {
      ReadFailsBeforeData(data, floats);
    } else {
      ReadAfterChecks(data, floats);
    }
  }

  lemma ReadFailsBeforeData(data: seq<byte>, floats: FloatSemantics)
    requires HeaderComplete(data, floats) && !DataSizeMatches(data, floats)
    ensures !Read(data, floats).Ok?
  {
    ValidateOkExactly(data, floats);
    ReadFailsAsValidate(data, floats);
  }

  /** A decoded grid is the grid the offset table describes: the header and
      strings at their spans, the bulk data row-major or coordinate-major. */
  lemma ReadGridContents(data: seq<byte>, floats: FloatSemantics)
    requires Decodes(data, floats)
    ensures Read(data, floats).Ok?
    ensures var g := Read(data, floats).value;
      && g.header == HeaderAt(data)
      && g.trailer == TrailerAt(data)
      && (g.header.nTriangles == 0 ==> RectangularAt(data, g.header, g.data))
      && (g.header.nTriangles > 0 ==> TriangularAt(data, g.header, g.data))
  {
    ReadAfterChecks(data, floats);
    ReadDataLayout(data, floats);
  }

  /** Every decoded grid satisfies the checks read made: its date
      converts, the geometry checks pass (rows * columns is `size`, at
      least one column, both extents within tolerance), the bulk data
      covers the floats, and the shape matches the header. */
  lemma DecodedGridInvariants(data: seq<byte>, floats: FloatSemantics, g: Grid)
    requires Read(data, floats) == Ok(g)
    ensures floats.dateConverts(g.header.createdDate)
    ensures GeometryHolds(g.header, floats.withinTolerance)
    ensures var h := g.header;
      && (h.nTriangles == 0 ==> GRID_OFFSET + 8 * h.size <= |data| && g.data.Rectangular?
                                && IsMatrix(g.data.cells, h.rows, h.columns))
      && (h.nTriangles > 0 ==> GRID_OFFSET + 72 * h.nTriangles <= |data| && h.nTriangles <= h.size
                               && g.data.Triangular? && |g.data.triangles| == h.nTriangles)
  {
    ReadSucceedsExactly(data, floats);
    ReadGridContents(data, floats);
    DecodedHeaderFacts(data, floats);
  }

  lemma DecodedHeaderFacts(data: seq<byte>, floats: FloatSemantics)
    requires Decodes(data, floats)
    ensures var h := HeaderAt(data);
      && GeometryHolds(h, floats.withinTolerance)
      && (h.nTriangles == 0 ==> GRID_OFFSET + 8 * h.size <= |data|)
      && (h.nTriangles > 0 ==> GRID_OFFSET + 72 * h.nTriangles <= |data| && h.nTriangles <= h.size)
  {
    var h := HeaderAt(data);
    if h.nTriangles == 0 {
      FloorDivisionExact(DataSize(data), 8, h.size);
    } else {
      FloorDivision(DataSize(data), 72, h.nTriangles);
    }
  }

  /** No file shorter than the bulk-data offset decodes. */
  lemma ShortFileNeverDecodes(data: seq<byte>, floats: FloatSemantics)
    requires |data| < GRID_OFFSET
    ensures !Read(data, floats).Ok?
  {
    ReadSucceedsExactly(data, floats);
  }

  /** The rectangular length check accepts up to 7 bytes beyond the
      `size` floats, and nothing more is needed for the grid to decode. */
  lemma RectangularLengthCheck(data: seq<byte>, floats: FloatSemantics)
    requires ReachesBulkData(data, floats) && HeaderAt(data).nTriangles == 0
    ensures var size := HeaderAt(data).size;
      DataSizeMatches(data, floats) <==> 8 * size <= DataSize(data) < 8 * size + 8
    ensures Decodes(data, floats) <==> DataSizeMatches(data, floats)
  {
    FloorDivisionExact(DataSize(data), 8, HeaderAt(data).size);
  }

  /** The triangular length check compares with `size`, not with the
      triangle count: it accepts up to 71 bytes beyond `size` * 72, and the
      grid then decodes exactly when the triangle count is at most `size`
      (surplus bulk data is ignored; a larger count fails the bulk read). */
  lemma TriangularLengthCheck(data: seq<byte>, floats: FloatSemantics)
    requires ReachesBulkData(data, floats) && HeaderAt(data).nTriangles > 0
    ensures var size := HeaderAt(data).size;
      DataSizeMatches(data, floats) <==> 72 * size <= DataSize(data) < 72 * size + 72
    ensures Decodes(data, floats) <==>
      DataSizeMatches(data, floats) && HeaderAt(data).nTriangles <= HeaderAt(data).size
  {
    FloorDivisionExact(DataSize(data), 72, HeaderAt(data).size);
  }
}
