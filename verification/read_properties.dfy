/**
  What `Grid::read` returns, for every byte sequence, stated against the
  offset table: the checks run in a fixed order, the first failing one
  decides the outcome with its own payload, and a decoded grid holds the
  bytes at the table's spans and the bulk data in row-major or
  coordinate-major order.

  The checks are a chain of predicates, each one implying the previous:
  HeaderComplete (HeaderLayout), then SizeConsistent, HasColumns,
  XSpecHolds, YSpecHolds, ReachesBulkData, DataSizeMatches, Decodes.
  YSpecHolds and DataSizeMatches are stated through the header-level
  GeometryHolds and LengthMatches, the form the Validate lemmas use.
 */
module ReadProperties {
  import opened Primitives
  import opened Errors
  import opened Stream
  import opened Layout
  import opened Units
  import opened PetraStrings
  import opened Reshape
  import opened GridReader
  import opened HeaderLayout

  /** rows * columns == size (which also rules out u32 overflow). */
  predicate SizeConsistent(data: seq<byte>, floats: FloatSemantics) {
    HeaderComplete(data, floats) && HeaderAt(data).rows * HeaderAt(data).columns == HeaderAt(data).size
  }

  predicate HasColumns(data: seq<byte>, floats: FloatSemantics) {
    SizeConsistent(data, floats) && HeaderAt(data).columns >= 1
  }

  predicate XSpecHolds(data: seq<byte>, floats: FloatSemantics) {
    HasColumns(data, floats) &&
    var h := HeaderAt(data);
    floats.withinTolerance(h.xmin, h.xmax, h.xstep, h.columns - 1)
  }

  /** Every geometry check of the header passes: rows * columns == size,
      at least one column, and both extents within tolerance. The y check,
      like the x check, counts columns - 1 steps. */
  predicate GeometryHolds(h: Header, withinTolerance: ToleranceCheck) {
    && h.rows * h.columns == h.size
    && h.columns >= 1
    && withinTolerance(h.xmin, h.xmax, h.xstep, h.columns - 1)
    && withinTolerance(h.ymin, h.ymax, h.ystep, h.columns - 1)
  }

  predicate YSpecHolds(data: seq<byte>, floats: FloatSemantics) {
    HeaderComplete(data, floats) && GeometryHolds(HeaderAt(data), floats.withinTolerance)
  }

  predicate ReachesBulkData(data: seq<byte>, floats: FloatSemantics) {
    YSpecHolds(data, floats) && GRID_OFFSET <= |data|
  }

  /** Bytes from GRID_OFFSET to the end of the file. */
  function DataSize(data: seq<byte>): nat
    requires GRID_OFFSET <= |data|
  {
    |data| - GRID_OFFSET
  }

  /** The bulk-data length check on a file of `fileLength` bytes, with
      floor division: by 8 for a rectangular grid, by 72 for a triangular
      one, compared with `size` in both cases. */
  predicate LengthMatches(h: Header, fileLength: nat) {
    && GRID_OFFSET <= fileLength
    && if h.nTriangles == 0 then (fileLength - GRID_OFFSET) / 8 == h.size
       else (fileLength - GRID_OFFSET) / 72 == h.size
  }

  predicate DataSizeMatches(data: seq<byte>, floats: FloatSemantics) {
    ReachesBulkData(data, floats) && LengthMatches(HeaderAt(data), |data|)
  }

  /** Every check passes and the bulk data holds the floats to be read:
      `size` of them, or 9 per triangle. */
  predicate Decodes(data: seq<byte>, floats: FloatSemantics) {
    DataSizeMatches(data, floats) &&
    var h := HeaderAt(data);
    h.nTriangles == 0 || h.nTriangles <= h.size
  }

  /** The trailing strings are read from their spans and succeed exactly
      when the file reaches the bulk data. */
  lemma ReadTrailerFollowsLayout(data: seq<byte>)
    ensures ReadTrailer(data).Ok? <==> GRID_OFFSET <= |data|
    ensures GRID_OFFSET <= |data| ==>
      ReadTrailer(data) == Ok(Trailer(StringAt(data, SOURCE), StringAt(data, UNKNOWN),
                                      StringAt(data, PROJECTION), StringAt(data, DATUM)))
  {
    HeaderFieldsDisjoint();
  }

  /** Once the header is complete, read is: validate, then read the
      strings, then the bulk data. */
  lemma ReadAfterHeader(data: seq<byte>, floats: FloatSemantics, strides: Strides)
    requires HeaderComplete(data, floats)
    ensures var v := Validate(HeaderAt(data), |data|, floats.withinTolerance);
      ReadWithStrides(data, floats, strides) ==
        if !v.Ok? then v.PropagateFailure()
        else if !ReadTrailer(data).Ok? then ReadTrailer(data).PropagateFailure()
        else if !ReadData(data, HeaderAt(data), strides).Ok? then ReadData(data, HeaderAt(data), strides).PropagateFailure()
        else Ok(Grid(HeaderAt(data), ReadTrailer(data).value, ReadData(data, HeaderAt(data), strides).value))
  {
    CompleteHeader(data, floats);
  }

  /** Before validation, read fails exactly as the header reader does: an
      IOError for a file too short for the next header read, a panic for a
      date that does not convert, or the unit error carrying the unknown
      code. */
  lemma ReadStopsInHeader(data: seq<byte>, floats: FloatSemantics)
    ensures !ReachesDate(data) ==> Read(data, floats) == Err(IOError)
    ensures ReachesDate(data) && !DateConverts(data, floats) ==> Read(data, floats) == Panic(DateOutOfRange)
    ensures DateConverts(data, floats) && !ReachesXYUnits(data, floats) ==> Read(data, floats) == Err(IOError)
    ensures ReachesXYUnits(data, floats) && !XYUnitsKnown(data, floats) ==>
      Read(data, floats) == Err(InvalidXYUnitOfMeasure(U32At(data, XYUNITS)))
    ensures XYUnitsKnown(data, floats) && !ReachesZUnits(data, floats) ==> Read(data, floats) == Err(IOError)
    ensures ReachesZUnits(data, floats) && !ZUnitsKnown(data, floats) ==>
      Read(data, floats) == Err(InvalidZUnitOfMeasure(U32At(data, ZUNITS)))
    ensures ZUnitsKnown(data, floats) && !HeaderComplete(data, floats) ==> Read(data, floats) == Err(IOError)
  {
    ReadHeaderFollowsLayout(data, floats);
  }

  /** After the header, the geometry checks run in source order and the
      first one that fails decides the outcome, with exactly these payloads:
      the product rows * columns (a panic if it overflows u32), then the x
      extent, then the y extent, both counted with columns - 1 steps (a
      panic when there are no columns). */
  lemma ReadChecksGeometry(data: seq<byte>, floats: FloatSemantics)
    requires HeaderComplete(data, floats)
    ensures var h := HeaderAt(data);
      h.rows * h.columns >= U32_LIMIT ==> Read(data, floats) == Panic(ProductOverflow)
    ensures var h := HeaderAt(data);
      h.rows * h.columns < U32_LIMIT && h.rows * h.columns != h.size ==>
        Read(data, floats) == Err(SizeMismatch(h.size, h.rows, h.columns))
    ensures SizeConsistent(data, floats) && HeaderAt(data).columns == 0 ==>
      Read(data, floats) == Panic(ColumnsUnderflow)
    ensures var h := HeaderAt(data);
      HasColumns(data, floats) && !XSpecHolds(data, floats) ==>
        Read(data, floats) == Err(InvalidXSpec(h.xmin, h.xmax, h.xstep, h.columns))
    ensures var h := HeaderAt(data);
      XSpecHolds(data, floats) && !YSpecHolds(data, floats) ==>
        Read(data, floats) == Err(InvalidYSpec(h.ymin, h.ymax, h.ystep, h.columns))
  {
    var h := HeaderAt(data);
    var v := Validate(h, |data|, floats.withinTolerance);
    ReadAfterHeader(data, floats, ELEMENT_STRIDES);
    assert !v.Ok? ==> Read(data, floats) == v.PropagateFailure();
    ValidateInOrder(h, |data|, floats.withinTolerance);
  }

  /** Once the geometry is consistent, the length of the file is checked:
      a panic if it is shorter than GRID_OFFSET, then the bulk-data size
      divided (rounding down) by 8 or by 72 must equal `size`; the triangle
      error carries the triangle count although `size` is what was
      compared. */
  lemma ReadChecksDataLength(data: seq<byte>, floats: FloatSemantics)
    requires YSpecHolds(data, floats)
    ensures |data| < GRID_OFFSET ==> Read(data, floats) == Panic(DataSizeUnderflow)
    ensures var h := HeaderAt(data);
      GRID_OFFSET <= |data| && h.nTriangles == 0 && DataSize(data) / 8 != h.size ==>
        Read(data, floats) == Err(InvalidRectangularSize(h.size, DataSize(data)))
    ensures var h := HeaderAt(data);
      GRID_OFFSET <= |data| && h.nTriangles > 0 && DataSize(data) / 72 != h.size ==>
        Read(data, floats) == Err(InvalidTriangleCount(h.nTriangles, DataSize(data)))
  {
    var h := HeaderAt(data);
    if |data| < GRID_OFFSET {
      ReadTooShortForData(data, floats);
    } else if h.nTriangles == 0 && DataSize(data) / 8 != h.size {
      ReadRectangularSizeMismatch(data, floats);
    } else if h.nTriangles > 0 && DataSize(data) / 72 != h.size {
      ReadTriangleSizeMismatch(data, floats);
    }
  }

  // One case of ReadChecksDataLength each.

  lemma ReadTooShortForData(data: seq<byte>, floats: FloatSemantics)
    requires YSpecHolds(data, floats) && |data| < GRID_OFFSET
    ensures Read(data, floats) == Panic(DataSizeUnderflow)
  {
    var h := HeaderAt(data);
    assert Validate(h, |data|, floats.withinTolerance) == Panic(DataSizeUnderflow) by {
      ValidateDataLength(h, |data|, floats.withinTolerance);
    }
    ReadFailsAsValidate(data, floats);
  }

  lemma ReadRectangularSizeMismatch(data: seq<byte>, floats: FloatSemantics)
    requires YSpecHolds(data, floats) && GRID_OFFSET <= |data|
    requires HeaderAt(data).nTriangles == 0 && DataSize(data) / 8 != HeaderAt(data).size
    ensures Read(data, floats) == Err(InvalidRectangularSize(HeaderAt(data).size, DataSize(data)))
  {
    var h := HeaderAt(data);
    assert Validate(h, |data|, floats.withinTolerance) == Err(InvalidRectangularSize(h.size, DataSize(data))) by {
      ValidateDataLength(h, |data|, floats.withinTolerance);
    }
    ReadFailsAsValidate(data, floats);
  }

  lemma ReadTriangleSizeMismatch(data: seq<byte>, floats: FloatSemantics)
    requires YSpecHolds(data, floats) && GRID_OFFSET <= |data|
    requires HeaderAt(data).nTriangles > 0 && DataSize(data) / 72 != HeaderAt(data).size
    ensures Read(data, floats) == Err(InvalidTriangleCount(HeaderAt(data).nTriangles, DataSize(data)))
  {
    var h := HeaderAt(data);
    assert Validate(h, |data|, floats.withinTolerance) == Err(InvalidTriangleCount(h.nTriangles, DataSize(data))) by {
      ValidateDataLength(h, |data|, floats.withinTolerance);
    }
    ReadFailsAsValidate(data, floats);
  }

  /** A failed validation is the outcome of read. */
  lemma ReadFailsAsValidate(data: seq<byte>, floats: FloatSemantics)
    requires HeaderComplete(data, floats)
    requires !Validate(HeaderAt(data), |data|, floats.withinTolerance).Ok?
    ensures Read(data, floats) == Validate(HeaderAt(data), |data|, floats.withinTolerance).PropagateFailure()
  {
    ReadAfterHeader(data, floats, ELEMENT_STRIDES);
  }

  /** The length checks of Validate on a header whose geometry passed. */
  lemma ValidateDataLength(h: Header, fileLength: nat, withinTolerance: ToleranceCheck)
    requires GeometryHolds(h, withinTolerance)
    ensures fileLength < GRID_OFFSET ==> Validate(h, fileLength, withinTolerance) == Panic(DataSizeUnderflow)
    ensures GRID_OFFSET <= fileLength && h.nTriangles == 0 && (fileLength - GRID_OFFSET) / 8 != h.size ==>
      Validate(h, fileLength, withinTolerance) == Err(InvalidRectangularSize(h.size, fileLength - GRID_OFFSET))
    ensures GRID_OFFSET <= fileLength && h.nTriangles > 0 && (fileLength - GRID_OFFSET) / 72 != h.size ==>
      Validate(h, fileLength, withinTolerance) == Err(InvalidTriangleCount(h.nTriangles, fileLength - GRID_OFFSET))
    ensures LengthMatches(h, fileLength) ==> Validate(h, fileLength, withinTolerance) == Ok(fileLength - GRID_OFFSET)
  {
  }

  /** Validation passes exactly when the chain reaches the bulk-data
      length check and that check passes. */
  lemma ValidateOkExactly(data: seq<byte>, floats: FloatSemantics)
    requires HeaderComplete(data, floats)
    ensures Validate(HeaderAt(data), |data|, floats.withinTolerance).Ok? <==> DataSizeMatches(data, floats)
  {
    var h := HeaderAt(data);
    ValidateInOrder(h, |data|, floats.withinTolerance);
    if YSpecHolds(data, floats) {
      ValidateDataLength(h, |data|, floats.withinTolerance);
    }
  }

  /** The validation chain on a header, one outcome per failing check. */
  lemma ValidateInOrder(h: Header, fileLength: nat, withinTolerance: ToleranceCheck)
    ensures h.rows * h.columns >= U32_LIMIT ==> Validate(h, fileLength, withinTolerance) == Panic(ProductOverflow)
    ensures h.rows * h.columns < U32_LIMIT && h.rows * h.columns != h.size ==>
      Validate(h, fileLength, withinTolerance) == Err(SizeMismatch(h.size, h.rows, h.columns))
    ensures h.rows * h.columns == h.size && h.columns == 0 ==>
      Validate(h, fileLength, withinTolerance) == Panic(ColumnsUnderflow)
    ensures h.rows * h.columns == h.size && h.columns > 0 && !withinTolerance(h.xmin, h.xmax, h.xstep, h.columns - 1) ==>
      Validate(h, fileLength, withinTolerance) == Err(InvalidXSpec(h.xmin, h.xmax, h.xstep, h.columns))
    ensures (h.rows * h.columns == h.size && h.columns > 0 && withinTolerance(h.xmin, h.xmax, h.xstep, h.columns - 1)
             && !withinTolerance(h.ymin, h.ymax, h.ystep, h.columns - 1)) ==>
      Validate(h, fileLength, withinTolerance) == Err(InvalidYSpec(h.ymin, h.ymax, h.ystep, h.columns))
  {
  }

  /** Bulk data of a grid that passed the checks: the rectangular read
      always succeeds and puts entry (r, c) at byte 8 (r columns + c) of the
      bulk data; the triangular read succeeds exactly when the file holds
      9 floats per triangle and puts entry (t, vertex, coordinate) at byte
      72 t + 8 vertex + 24 coordinate. */
  lemma ReadDataLayout(data: seq<byte>, floats: FloatSemantics)
    requires DataSizeMatches(data, floats)
    ensures var h := HeaderAt(data);
      var r := ReadData(data, h, ELEMENT_STRIDES);
      && (r.Ok? <==> Decodes(data, floats))
      && (!r.Ok? ==> r == Err(IOError))
      && (r.Ok? && h.nTriangles == 0 ==> RectangularAt(data, h, r.value))
      && (r.Ok? && h.nTriangles > 0 ==> TriangularAt(data, h, r.value))
  {
    var h := HeaderAt(data);
    if h.nTriangles == 0 {
      assert 8 * h.size <= DataSize(data);
      RectangularDataLayout(data, h);
    } else {
      FloorDivision(DataSize(data), 72, h.nTriangles);
      TriangularDataLayout(data, h);
    }
  }

  /** `cells` holds entry (r, c) at byte 8 (r columns + c) of the bulk data. */
  predicate RectangularAt(data: seq<byte>, h: Header, g: GridData) {
    && g.Rectangular?
    && IsMatrix(g.cells, h.rows, h.columns)
    && forall i, j :: 0 <= i < h.rows && 0 <= j < h.columns ==>
         && GRID_OFFSET + 8 * CellIndex(h.columns, i, j) + 8 <= |data|
         && g.cells[i][j] == data[GRID_OFFSET + 8 * CellIndex(h.columns, i, j)..][..8]
  }

  /** `triangles` holds entry (t, vertex, coordinate) at byte
      72 t + 8 vertex + 24 coordinate of the bulk data. */
  predicate TriangularAt(data: seq<byte>, h: Header, g: GridData) {
    && g.Triangular?
    && |g.triangles| == h.nTriangles
    && forall t, v, c :: 0 <= t < h.nTriangles && 0 <= v < 3 && 0 <= c < 3 ==>
         && |g.triangles[t]| == 3 && |g.triangles[t][v]| == 3
         && GRID_OFFSET + 72 * t + 8 * v + 24 * c + 8 <= |data|
         && g.triangles[t][v][c] == data[GRID_OFFSET + 72 * t + 8 * v + 24 * c..][..8]
  }

  /** A rectangular read of `size` = rows * columns floats succeeds when the
      file holds them, in row-major order. */
  lemma RectangularDataLayout(data: seq<byte>, h: Header)
    requires h.nTriangles == 0 && h.rows * h.columns == h.size
    requires GRID_OFFSET + 8 * h.size <= |data|
    ensures ReadData(data, h, ELEMENT_STRIDES).Ok?
    ensures RectangularAt(data, h, ReadData(data, h, ELEMENT_STRIDES).value)
  {
    var start := Cursor(data, GRID_OFFSET);
    ReadF64IntoLayout(start, h.size);
    var buf := ReadF64Into(start, h.size).value.value;
    var m := FromShapeVec2(buf, h.rows, h.columns).value;
    forall i, j | 0 <= i < h.rows && 0 <= j < h.columns
      ensures GRID_OFFSET + 8 * CellIndex(h.columns, i, j) + 8 <= |data|
      ensures m[i][j] == data[GRID_OFFSET + 8 * CellIndex(h.columns, i, j)..][..8]
    {
      CellIndexBound(h.rows, h.columns, i, j);
    }
  }

  /** A triangular read succeeds exactly when the file holds 9 floats per
      triangle, a short file being an IOError, and lays them out
      coordinate-major. */
  lemma TriangularDataLayout(data: seq<byte>, h: Header)
    requires h.nTriangles > 0
    ensures var r := ReadData(data, h, ELEMENT_STRIDES);
      && (r.Ok? <==> GRID_OFFSET + 72 * h.nTriangles <= |data|)
      && (!r.Ok? ==> r == Err(IOError))
      && (r.Ok? ==> TriangularAt(data, h, r.value))
  {
    ReadF64IntoLayout(Cursor(data, GRID_OFFSET), 9 * h.nTriangles);
    if GRID_OFFSET + 72 * h.nTriangles <= |data| {
      TriangularCells(data, h);
    }
  }

  lemma TriangularCells(data: seq<byte>, h: Header)
    requires h.nTriangles > 0 && GRID_OFFSET + 72 * h.nTriangles <= |data|
    ensures ReadData(data, h, ELEMENT_STRIDES).Ok?
    ensures TriangularAt(data, h, ReadData(data, h, ELEMENT_STRIDES).value)
  {
    var n: nat := h.nTriangles;
    var start := Cursor(data, GRID_OFFSET);
    ReadF64IntoLayout(start, 9 * n);
    var buf := ReadF64Into(start, 9 * n).value.value;
    TriangleEntries(buf, n);
    var a := FromShapeVec3(buf, n, ELEMENT_STRIDES).value;
    assert ReadData(data, h, ELEMENT_STRIDES) == Ok(Triangular(a));
    forall t, v, c | 0 <= t < n && 0 <= v < 3 && 0 <= c < 3
      ensures GRID_OFFSET + 72 * t + 8 * v + 24 * c + 8 <= |data|
      ensures a[t][v][c] == data[GRID_OFFSET + 72 * t + 8 * v + 24 * c..][..8]
    {
      var k := 9 * t + v + 3 * c;
      assert a[t][v][c] == buf[k];
      assert 8 * k == 72 * t + 8 * v + 24 * c;
    }
  }
}
