/**
  The Petra GRD offset table: the seek targets and string widths the reader
  uses, and the byte span every header field occupies as a consequence of
  reading sequentially from those seek targets.
 */
module Layout {
  import opened Primitives

  const CM_RLAT_OFFSET: nat := 0xB9
  const DATE_OFFSET: nat := 0xE1
  const ROWS_COLS_OFFSET: nat := 0x3FD
  const ZUNITS_OFFSET: nat := 0x429
  const N_TRIANGLES_OFFSET: nat := 0x431
  const SOURCE_OFFSET: nat := 0x5B9
  const UNK_PROJ_DATUM_OFFSET: nat := 0x8BF
  const GRID_OFFSET: nat := 0x119C

  /** Widths of the fixed-width strings. */
  const NAME_LEN: nat := 81
  const SOURCE_LEN: nat := 246
  const UNK_LEN: nat := 2009
  const PROJ_LEN: nat := 65
  const DATUM_LEN: nat := 195

  /** A half-open byte range [start, start + width). */
  datatype Span = Span(start: nat, width: nat) {
    function End(): nat {
      start + width
    }
  }

  const VERSION := Span(0, 4)
  const NAME := Span(4, NAME_LEN)
  const SIZE := Span(85, 4)
  const XMIN := Span(89, 8)
  const XMAX := Span(97, 8)
  const YMIN := Span(105, 8)
  const YMAX := Span(113, 8)
  const XSTEP := Span(121, 8)
  const YSTEP := Span(129, 8)
  const ZMIN := Span(137, 8)
  const ZMAX := Span(145, 8)
  const CM := Span(CM_RLAT_OFFSET, 8)
  const RLAT := Span(CM_RLAT_OFFSET + 8, 8)
  const DATE := Span(DATE_OFFSET, 8)
  const ROWS := Span(ROWS_COLS_OFFSET, 4)
  const COLUMNS := Span(ROWS_COLS_OFFSET + 4, 4)
  const GRID_METHOD := Span(ROWS_COLS_OFFSET + 8, 4)
  const PROJECTION_CODE := Span(ROWS_COLS_OFFSET + 12, 4)
  const XYUNITS := Span(ROWS_COLS_OFFSET + 16, 4)
  const ZUNITS := Span(ZUNITS_OFFSET, 4)
  const N_TRIANGLES := Span(N_TRIANGLES_OFFSET, 4)
  const SOURCE := Span(SOURCE_OFFSET, SOURCE_LEN)
  const UNKNOWN := Span(UNK_PROJ_DATUM_OFFSET, UNK_LEN)
  const PROJECTION := Span(UNK_PROJ_DATUM_OFFSET + UNK_LEN, PROJ_LEN)
  const DATUM := Span(UNK_PROJ_DATUM_OFFSET + UNK_LEN + PROJ_LEN, DATUM_LEN)

  /** Every header field, in file order. */
  const HEADER_FIELDS: seq<Span> := [
    VERSION, NAME, SIZE, XMIN, XMAX, YMIN, YMAX, XSTEP, YSTEP, ZMIN, ZMAX,
    CM, RLAT, DATE, ROWS, COLUMNS, GRID_METHOD, PROJECTION_CODE, XYUNITS,
    ZUNITS, N_TRIANGLES, SOURCE, UNKNOWN, PROJECTION, DATUM]

  predicate Disjoint(a: Span, b: Span) {
    a.End() <= b.start || b.End() <= a.start
  }

  /** Each span ends no later than the next one starts. */
  predicate Ascending(spans: seq<Span>) {
    forall i :: 0 < i < |spans| ==> spans[i - 1].End() <= spans[i].start
  }

  /** In an ascending list every earlier span ends before every later one
      starts. */
  lemma {:induction false} AscendingIsOrdered(spans: seq<Span>)
    requires Ascending(spans)
    ensures forall i, j :: 0 <= i < j < |spans| ==> spans[i].End() <= spans[j].start
  {
    if |spans| > 1 {
      var tail := spans[1..];
      assert Ascending(tail) by {
        forall i | 0 < i < |tail|
          ensures tail[i - 1].End() <= tail[i].start
        {
          assert tail[i - 1] == spans[i] && tail[i] == spans[i + 1];
        }
      }
      AscendingIsOrdered(tail);
      forall i, j | 0 <= i < j < |spans|
        ensures spans[i].End() <= spans[j].start
      {
        if 0 < i {
          assert spans[i] == tail[i - 1] && spans[j] == tail[j - 1];
        } else if 1 < j {
          assert spans[1] == tail[0] && spans[j] == tail[j - 1];
          assert spans[1].start <= spans[1].End();
        }
      }
    }
  }

  /** No two header fields overlap, all of them lie before the bulk data,
      and the last string (the datum) ends exactly where the bulk data
      starts. */
  lemma HeaderFieldsDisjoint()
    ensures forall i, j :: 0 <= i < j < |HEADER_FIELDS| ==> Disjoint(HEADER_FIELDS[i], HEADER_FIELDS[j])
    ensures forall i :: 0 <= i < |HEADER_FIELDS| ==> HEADER_FIELDS[i].End() <= GRID_OFFSET
    ensures DATUM.End() == GRID_OFFSET
  {
    var fs := HEADER_FIELDS;
    HeaderFieldsAscending();
    AscendingIsOrdered(fs);
    var last := |fs| - 1;
    assert fs[last] == DATUM;
    forall i | 0 <= i < |fs|
      ensures fs[i].End() <= GRID_OFFSET
    {
      if i < last {
        assert fs[i].End() <= fs[last].start;
      }
    }
  }

  /** The table lists the fields in file order. */
  lemma HeaderFieldsAscending()
    ensures Ascending(HEADER_FIELDS)
  {
  }
}
