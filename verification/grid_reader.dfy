/**
  `Grid::read`: the Petra GRD decoder. It reads the header by seeking to the
  offsets of the Layout table and reading sequentially from each, checks the
  header's consistency, reads the strings and finally the bulk data, which
  it reshapes into a rectangular or a triangular grid. The first failing
  step decides the outcome; no partial grid is ever produced.

  Float arithmetic is not modelled; the two places where the reader's
  outcome depends on it are the parameters gathered in FloatSemantics:
  - the x and y consistency checks compare floats with a relative
    tolerance, `withinTolerance(min, max, step, count)`: true when
    |min + count * step - max| / max is NOT above 0.0001 (note: divided by
    max itself, not by its absolute value). The reader calls it with
    count = columns - 1 for BOTH axes;
  - `petra_datetime` turns the stored "days since 1899-12-30" into a date
    and panics when it cannot (a NaN, or a date outside what the time crate
    represents), `dateConverts(days)` being false exactly then.
 */
module GridReader {
  import opened Primitives
  import opened Errors
  import opened Stream
  import opened Layout
  import opened Units
  import opened PetraStrings
  import opened Reshape

  type ToleranceCheck = (F64, F64, F64, u32) -> bool

  datatype FloatSemantics = FloatSemantics(withinTolerance: ToleranceCheck, dateConverts: F64 -> bool)

  datatype GridData =
    | Rectangular(cells: seq<seq<F64>>)
    | Triangular(triangles: seq<seq<seq<F64>>>)

  /** The fields read before validation. `createdDate` is the raw "days
      since 1899-12-30" float; only whether it converts to a date is
      modelled. */
  datatype Header = Header(
    version: u32, name: seq<byte>, size: u32,
    xmin: F64, xmax: F64, ymin: F64, ymax: F64,
    xstep: F64, ystep: F64, zmin: F64, zmax: F64,
    cm: F64, rlat: F64, createdDate: F64,
    rows: u32, columns: u32, gridMethod: u32, projectionCode: u32,
    xyunits: UnitOfMeasure, zunits: UnitOfMeasure, nTriangles: u32)

  /** The strings read after validation. */
  datatype Trailer = Trailer(
    sourceData: seq<byte>, unknownMetadata: seq<byte>,
    projection: seq<byte>, datum: seq<byte>)

  /** A decoded grid: every field of the Rust `Grid`, grouped by when the
      reader obtains it. */
  datatype Grid = Grid(header: Header, trailer: Trailer, data: GridData)

  /** A unit code, or the given error when it is not a known code. */
  function UnitOr(code: u32, e: Error): Outcome<UnitOfMeasure> {
    match FromCode(code)
    case Some(u) => Ok(u)
    case None => Err(e)
  }

  /** `petra_datetime`: the stored date, or a panic when it does not
      convert. */
  function PetraDatetime(days: F64, floats: FloatSemantics): Outcome<F64> {
    if floats.dateConverts(days) then Ok(days) else Panic(DateOutOfRange)
  }

  /** The header reads in file order, with the date conversion right after
      the date is read and the two unit checks at the point where each unit
      code has been read. */
  function ReadHeader(data: seq<byte>, floats: FloatSemantics): Outcome<Header> {
    var version :- ReadU32(Rewind(data));
    var name :- ReadPetraString(version.rest, NAME_LEN);
    var size :- ReadU32(name.rest);
    var xmin :- ReadF64(size.rest);
    var xmax :- ReadF64(xmin.rest);
    var ymin :- ReadF64(xmax.rest);
    var ymax :- ReadF64(ymin.rest);
    var xstep :- ReadF64(ymax.rest);
    var ystep :- ReadF64(xstep.rest);
    var zmin :- ReadF64(ystep.rest);
    var zmax :- ReadF64(zmin.rest);
    var cm :- ReadF64(Seek(zmax.rest, CM_RLAT_OFFSET));
    var rlat :- ReadF64(cm.rest);
    var date :- ReadF64(Seek(rlat.rest, DATE_OFFSET));
    var createdDate :- PetraDatetime(date.value, floats);
    var rows :- ReadU32(Seek(date.rest, ROWS_COLS_OFFSET));
    var columns :- ReadU32(rows.rest);
    var gridMethod :- ReadU32(columns.rest);
    var projectionCode :- ReadU32(gridMethod.rest);
    var xyCode :- ReadU32(projectionCode.rest);
    var xyunits :- UnitOr(xyCode.value, InvalidXYUnitOfMeasure(xyCode.value));
    var zCode :- ReadU32(Seek(xyCode.rest, ZUNITS_OFFSET));
    var zunits :- UnitOr(zCode.value, InvalidZUnitOfMeasure(zCode.value));
    var nTriangles :- ReadU32(Seek(zCode.rest, N_TRIANGLES_OFFSET));
    Ok(Header(
      version.value, name.value, size.value,
      xmin.value, xmax.value, ymin.value, ymax.value,
      xstep.value, ystep.value, zmin.value, zmax.value,
      cm.value, rlat.value, createdDate,
      rows.value, columns.value, gridMethod.value, projectionCode.value,
      xyunits, zunits, nTriangles.value))
  }

  /** The consistency checks, in order, given the file length (the result
      of seeking to the end). On success, the size in bytes of the bulk
      data. Panics where the Rust arithmetic overflows. */
  function Validate(h: Header, fileLength: nat, withinTolerance: ToleranceCheck): Outcome<nat> {
    if h.rows * h.columns >= U32_LIMIT then Panic(ProductOverflow)
    else if h.rows * h.columns != h.size then Err(SizeMismatch(h.size, h.rows, h.columns))
    else if h.columns == 0 then Panic(ColumnsUnderflow)
    else if !withinTolerance(h.xmin, h.xmax, h.xstep, h.columns - 1) then
      Err(InvalidXSpec(h.xmin, h.xmax, h.xstep, h.columns))
    else if !withinTolerance(h.ymin, h.ymax, h.ystep, h.columns - 1) then
      Err(InvalidYSpec(h.ymin, h.ymax, h.ystep, h.columns))
    else if fileLength < GRID_OFFSET then Panic(DataSizeUnderflow)
    else
      var dataSize := fileLength - GRID_OFFSET;
      if h.nTriangles == 0 && dataSize / 8 != h.size then
        Err(InvalidRectangularSize(h.size, dataSize))
      else if h.nTriangles > 0 && dataSize / 72 != h.size then
        Err(InvalidTriangleCount(h.nTriangles, dataSize))
      else
        Ok(dataSize)
  }

  /** The source string, then the unknown, projection and datum strings,
      which are contiguous. */
  function ReadTrailer(data: seq<byte>): Outcome<Trailer> {
    var source :- ReadPetraString(Cursor(data, SOURCE_OFFSET), SOURCE_LEN);
    var unknown :- ReadPetraString(Cursor(data, UNK_PROJ_DATUM_OFFSET), UNK_LEN);
    var projection :- ReadPetraString(unknown.rest, PROJ_LEN);
    var datum :- ReadPetraString(projection.rest, DATUM_LEN);
    Ok(Trailer(source.value, unknown.value, projection.value, datum.value))
  }

  /** The bulk data from GRID_OFFSET: `size` floats reshaped to
      rows x columns when there are no triangles, otherwise 9 floats per
      triangle reshaped to (n_triangles, 3, 3) with the given strides. */
  function ReadData(data: seq<byte>, h: Header, strides: Strides): Outcome<GridData> {
    var start := Cursor(data, GRID_OFFSET);
    if h.nTriangles == 0 then
      var buf :- ReadF64Into(start, h.size);
      var cells :- FromShapeVec2(buf.value, h.rows, h.columns);
      Ok(Rectangular(cells))
    else
      var buf :- ReadF64Into(start, 9 * h.nTriangles);
      var triangles :- FromShapeVec3(buf.value, h.nTriangles, strides);
      Ok(Triangular(triangles))
  }

  function ReadWithStrides(data: seq<byte>, floats: FloatSemantics, strides: Strides): Outcome<Grid> {
    var header :- ReadHeader(data, floats);
    var dataSize :- Validate(header, |data|, floats.withinTolerance);
    var trailer :- ReadTrailer(data);
    var gridData :- ReadData(data, header, strides);
    Ok(Grid(header, trailer, gridData))
  }

  /** `Grid::read` with the triangle strides that match the file layout. */
  function Read(data: seq<byte>, floats: FloatSemantics): Outcome<Grid> {
    ReadWithStrides(data, floats, ELEMENT_STRIDES)
  }

  /** `Grid::read` exactly as written, with the byte strides (72, 8, 24)
      handed to ndarray as element strides. */
  function ReadAsWritten(data: seq<byte>, floats: FloatSemantics): Outcome<Grid> {
    ReadWithStrides(data, floats, AS_WRITTEN_STRIDES)
  }
}
