/**
  The header as a function of the Layout table: each field is the value
  stored at its fixed span, and the sequential reader of GridReader reads
  exactly those spans, stopping at the first short read, unconvertible
  date or unknown unit.
 */
module HeaderLayout {
  import opened Primitives
  import opened Errors
  import opened Layout
  import opened Units
  import opened PetraStrings
  import opened GridReader

  function U32At(data: seq<byte>, s: Span): u32
    requires s.width == 4 && s.End() <= |data|
  {
    LeU32(data[s.start..s.End()])
  }

  function F64At(data: seq<byte>, s: Span): F64
    requires s.width == 8 && s.End() <= |data|
  {
    data[s.start..s.End()]
  }

  function StringAt(data: seq<byte>, s: Span): seq<byte>
    requires s.End() <= |data|
  {
    PetraString(data[s.start..s.End()])
  }

  /** The file is long enough for every read up to the date. */
  predicate ReachesDate(data: seq<byte>) {
    DATE.End() <= |data|
  }

  /** ... and `petra_datetime` converts the stored date. */
  predicate DateConverts(data: seq<byte>, floats: FloatSemantics) {
    ReachesDate(data) && floats.dateConverts(F64At(data, DATE))
  }

  /** The file is long enough for every read up to the xy unit code. */
  predicate ReachesXYUnits(data: seq<byte>, floats: FloatSemantics) {
    DateConverts(data, floats) && XYUNITS.End() <= |data|
  }

  predicate XYUnitsKnown(data: seq<byte>, floats: FloatSemantics) {
    ReachesXYUnits(data, floats) && FromCode(U32At(data, XYUNITS)).Some?
  }

  predicate ReachesZUnits(data: seq<byte>, floats: FloatSemantics) {
    XYUnitsKnown(data, floats) && ZUNITS.End() <= |data|
  }

  predicate ZUnitsKnown(data: seq<byte>, floats: FloatSemantics) {
    ReachesZUnits(data, floats) && FromCode(U32At(data, ZUNITS)).Some?
  }

  /** Every header read succeeds, the date converts and both unit codes
      are known. */
  predicate HeaderComplete(data: seq<byte>, floats: FloatSemantics) {
    ZUnitsKnown(data, floats) && N_TRIANGLES.End() <= |data|
  }

  /** The file holds every header field and both unit codes are known:
      what taking the header from the table needs, whatever the date. */
  predicate HeaderFieldsPresent(data: seq<byte>) {
    && N_TRIANGLES.End() <= |data|
    && FromCode(U32At(data, XYUNITS)).Some?
    && FromCode(U32At(data, ZUNITS)).Some?
  }

  /** The header taken field by field from the spans of the Layout table. */
  function HeaderAt(data: seq<byte>): Header
    requires HeaderFieldsPresent(data)
  {
    Header(
      U32At(data, VERSION), StringAt(data, NAME), U32At(data, SIZE),
      F64At(data, XMIN), F64At(data, XMAX), F64At(data, YMIN), F64At(data, YMAX),
      F64At(data, XSTEP), F64At(data, YSTEP), F64At(data, ZMIN), F64At(data, ZMAX),
      F64At(data, CM), F64At(data, RLAT), F64At(data, DATE),
      U32At(data, ROWS), U32At(data, COLUMNS), U32At(data, GRID_METHOD), U32At(data, PROJECTION_CODE),
      FromCode(U32At(data, XYUNITS)).value, FromCode(U32At(data, ZUNITS)).value,
      U32At(data, N_TRIANGLES))
  }

  /** The sequential header reader agrees with the offset table: a file too
      short for the reads up to the date gives IOError; a date that does not
      convert panics, before rows and columns are even read; a file too
      short for the reads up to the xy unit code gives IOError; an unknown
      xy code gives InvalidXYUnitOfMeasure carrying it, before the z code is
      read; then the same for the z code; a file too short for the triangle
      count gives IOError; otherwise the header is exactly the values stored
      at the table's spans. */
  lemma ReadHeaderFollowsLayout(data: seq<byte>, floats: FloatSemantics)
    ensures !ReachesDate(data) ==> ReadHeader(data, floats) == Err(IOError)
    ensures ReachesDate(data) && !DateConverts(data, floats) ==> ReadHeader(data, floats) == Panic(DateOutOfRange)
    ensures DateConverts(data, floats) && !ReachesXYUnits(data, floats) ==> ReadHeader(data, floats) == Err(IOError)
    ensures ReachesXYUnits(data, floats) && !XYUnitsKnown(data, floats) ==>
      ReadHeader(data, floats) == Err(InvalidXYUnitOfMeasure(U32At(data, XYUNITS)))
    ensures XYUnitsKnown(data, floats) && !ReachesZUnits(data, floats) ==> ReadHeader(data, floats) == Err(IOError)
    ensures ReachesZUnits(data, floats) && !ZUnitsKnown(data, floats) ==>
      ReadHeader(data, floats) == Err(InvalidZUnitOfMeasure(U32At(data, ZUNITS)))
    ensures ZUnitsKnown(data, floats) && !HeaderComplete(data, floats) ==> ReadHeader(data, floats) == Err(IOError)
    ensures HeaderComplete(data, floats) ==> ReadHeader(data, floats) == Ok(HeaderAt(data))
  {
    if !ReachesDate(data) {
      TruncatedBeforeDate(data, floats);
    } else if !DateConverts(data, floats) {
      DateRejected(data, floats);
    } else if !ReachesXYUnits(data, floats) {
      TruncatedInRaster(data, floats);
    } else if !XYUnitsKnown(data, floats) {
      UnknownXYUnits(data, floats);
    } else if !ReachesZUnits(data, floats) {
      TruncatedBeforeZUnits(data, floats);
    } else if !ZUnitsKnown(data, floats) {
      UnknownZUnits(data, floats);
    } else if !HeaderComplete(data, floats) {
      TruncatedBeforeTriangleCount(data, floats);
    } else {
      CompleteHeader(data, floats);
    }
  }

  // One case of ReadHeaderFollowsLayout each; separate so that each proof
  // stays small.

  lemma TruncatedBeforeDate(data: seq<byte>, floats: FloatSemantics)
    requires !ReachesDate(data)
    ensures ReadHeader(data, floats) == Err(IOError)
  {
    if |data| < ZMAX.End() {
      TruncatedInExtents(data, floats);
    } else if |data| < RLAT.End() {
      TruncatedInProjectionCentre(data, floats);
    } else {
      TruncatedInDate(data, floats);
    }
  }

  // Where a file too short for the date ends: in the extents block, in the
  // projection centre, or in the date itself.

  lemma TruncatedInExtents(data: seq<byte>, floats: FloatSemantics)
    requires |data| < ZMAX.End()
    ensures ReadHeader(data, floats) == Err(IOError)
  {
  }

  lemma TruncatedInProjectionCentre(data: seq<byte>, floats: FloatSemantics)
    requires ZMAX.End() <= |data| < RLAT.End()
    ensures ReadHeader(data, floats) == Err(IOError)
  {
  }

  lemma TruncatedInDate(data: seq<byte>, floats: FloatSemantics)
    requires RLAT.End() <= |data| < DATE.End()
    ensures ReadHeader(data, floats) == Err(IOError)
  {
  }

  lemma DateRejected(data: seq<byte>, floats: FloatSemantics)
    requires ReachesDate(data) && !DateConverts(data, floats)
    ensures ReadHeader(data, floats) == Panic(DateOutOfRange)
  {
  }

  lemma TruncatedInRaster(data: seq<byte>, floats: FloatSemantics)
    requires DateConverts(data, floats) && |data| < XYUNITS.End()
    ensures ReadHeader(data, floats) == Err(IOError)
  {
  }

  lemma UnknownXYUnits(data: seq<byte>, floats: FloatSemantics)
    requires ReachesXYUnits(data, floats) && !XYUnitsKnown(data, floats)
    ensures ReadHeader(data, floats) == Err(InvalidXYUnitOfMeasure(U32At(data, XYUNITS)))
  {
  }

  lemma TruncatedBeforeZUnits(data: seq<byte>, floats: FloatSemantics)
    requires XYUnitsKnown(data, floats) && !ReachesZUnits(data, floats)
    ensures ReadHeader(data, floats) == Err(IOError)
  {
  }

  lemma UnknownZUnits(data: seq<byte>, floats: FloatSemantics)
    requires ReachesZUnits(data, floats) && !ZUnitsKnown(data, floats)
    ensures ReadHeader(data, floats) == Err(InvalidZUnitOfMeasure(U32At(data, ZUNITS)))
  {
  }

  lemma TruncatedBeforeTriangleCount(data: seq<byte>, floats: FloatSemantics)
    requires ZUnitsKnown(data, floats) && !HeaderComplete(data, floats)
    ensures ReadHeader(data, floats) == Err(IOError)
  {
  }

  lemma CompleteHeader(data: seq<byte>, floats: FloatSemantics)
    requires HeaderComplete(data, floats)
    ensures ReadHeader(data, floats) == Ok(HeaderAt(data))
  {
  }
}
