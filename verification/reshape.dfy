/**
  Turning the flat float buffer of the bulk data into the two grid shapes,
  the way ndarray's `Array::from_shape_vec` does. ndarray itself is not part
  of this model; what is modelled is the rule the reader relies on: a shape
  (with optional strides, counted in ELEMENTS of the vector) is accepted only
  when every index of the shape addresses an element inside the vector, and
  the reader unwraps the result, so a rejected shape is a panic.
 */
module Reshape {
  import opened Primitives
  import opened Errors

  /** `m` has `rows` rows of `columns` entries each. */
  predicate IsMatrix<T>(m: seq<seq<T>>, rows: nat, columns: nat) {
    |m| == rows && forall i :: 0 <= i < rows ==> |m[i]| == columns
  }

  /** Position of entry (i, j) in a row-major buffer with `columns` columns. */
  function CellIndex(columns: nat, i: nat, j: nat): nat {
    i * columns + j
  }

  lemma CellIndexBound(rows: nat, columns: nat, i: nat, j: nat)
    requires i < rows && j < columns
    ensures CellIndex(columns, i, j) < rows * columns
  {
    calc {
      i * columns + j;
    <
      (i + 1) * columns;
    <= { MultiplyMonotonic(i + 1, rows, columns); }
      rows * columns;
    }
  }

  /** `from_shape_vec((rows, columns), v)` in the default row-major order,
      unwrapped: the shape must hold exactly the elements of `v`. */
  function FromShapeVec2(v: seq<F64>, rows: nat, columns: nat): (r: Outcome<seq<seq<F64>>>)
    ensures r.Ok? <==> rows * columns == |v|
    ensures r.Ok? ==> IsMatrix(r.value, rows, columns)
    ensures !r.Ok? ==> r == Panic(ShapeRejected)
  {
    if rows * columns != |v| then Panic(ShapeRejected)
    else
      Ok(seq(rows, i requires 0 <= i < rows =>
           seq(columns, j requires 0 <= j < columns =>
             CellIndexBound(rows, columns, i, j); v[CellIndex(columns, i, j)])))
  }

  /** Concatenation of the rows of a matrix: row-major serialisation. */
  function Flatten<T>(m: seq<seq<T>>): seq<T> {
    if |m| == 0 then [] else m[0] + Flatten(m[1..])
  }

  lemma {:induction false} FlattenLength<T>(m: seq<seq<T>>, rows: nat, columns: nat)
    requires IsMatrix(m, rows, columns)
    ensures |Flatten(m)| == rows * columns
  {
    if rows > 0 {
      assert IsMatrix(m[1..], rows - 1, columns);
      FlattenLength(m[1..], rows - 1, columns);
      assert rows * columns == columns + (rows - 1) * columns;
    }
  }

  lemma {:induction false} FlattenAt<T>(m: seq<seq<T>>, rows: nat, columns: nat, i: nat, j: nat)
    requires IsMatrix(m, rows, columns) && i < rows && j < columns
    ensures CellIndex(columns, i, j) < |Flatten(m)|
    ensures Flatten(m)[CellIndex(columns, i, j)] == m[i][j]
  {
    FlattenLength(m, rows, columns);
    var tail := m[1..];
    assert Flatten(m) == m[0] + Flatten(tail);
    if i > 0 {
      assert IsMatrix(tail, rows - 1, columns);
      FlattenAt(tail, rows - 1, columns, i - 1, j);
      assert CellIndex(columns, i, j) == columns + CellIndex(columns, i - 1, j);
      assert tail[i - 1] == m[i];
    }
  }

  /** Entry (i, j) of a matrix is element `i * columns + j` of its row-major
      serialisation. */
  lemma FlattenCell<T>(m: seq<seq<T>>, rows: nat, columns: nat)
    requires IsMatrix(m, rows, columns)
    ensures |Flatten(m)| == rows * columns
    ensures forall i, j :: 0 <= i < rows && 0 <= j < columns ==>
      CellIndex(columns, i, j) < |Flatten(m)| && Flatten(m)[CellIndex(columns, i, j)] == m[i][j]
  {
    FlattenLength(m, rows, columns);
    forall i, j | 0 <= i < rows && 0 <= j < columns
      ensures CellIndex(columns, i, j) < |Flatten(m)| && Flatten(m)[CellIndex(columns, i, j)] == m[i][j]
    {
      FlattenAt(m, rows, columns, i, j);
    }
  }

  /** Reshaping a row-major serialisation rebuilds the matrix. */
  lemma RowMajorOfFlatten(m: seq<seq<F64>>, rows: nat, columns: nat)
    requires IsMatrix(m, rows, columns)
    ensures FromShapeVec2(Flatten(m), rows, columns) == Ok(m)
  {
    FlattenCell(m, rows, columns);
    var r := FromShapeVec2(Flatten(m), rows, columns).value;
    forall i | 0 <= i < rows
      ensures r[i] == m[i]
    {
      forall j | 0 <= j < columns
        ensures r[i][j] == m[i][j]
      {
      }
    }
    assert r == m;
  }

  /** Serialising a reshaped buffer row by row gives the buffer back: the
      reshape neither drops, duplicates nor reorders elements. */
  lemma FlattenOfRowMajor(v: seq<F64>, rows: nat, columns: nat)
    requires rows * columns == |v|
    ensures Flatten(FromShapeVec2(v, rows, columns).value) == v
  {
    var m := FromShapeVec2(v, rows, columns).value;
    FlattenCell(m, rows, columns);
    forall k | 0 <= k < |v|
      ensures Flatten(m)[k] == v[k]
    {
      CellOfIndex(rows, columns, k);
    }
  }

  /** Every position of a row-major buffer is the position of one entry. */
  lemma CellOfIndex(rows: nat, columns: nat, k: nat)
    requires k < rows * columns
    ensures columns > 0 && k / columns < rows && k % columns < columns
    ensures k == CellIndex(columns, k / columns, k % columns)
  {
    if columns > 0 && k / columns >= rows {
      MultiplyMonotonic(rows, k / columns, columns);
    }
  }

  /** Strides of an (n, 3, 3) array, in elements. */
  datatype Strides = Strides(triangle: nat, vertex: nat, coordinate: nat)

  /** The strides that match the file's coordinate-major layout: triangle t
      starts at element 9t, vertices are adjacent, coordinates are three
      elements apart. */
  const ELEMENT_STRIDES := Strides(9, 1, 3)

  /** The strides lib.rs passes: the layout's BYTE strides, which ndarray
      reads as element strides. */
  const AS_WRITTEN_STRIDES := Strides(72, 8, 24)

  function ElementIndex(s: Strides, t: nat, v: nat, c: nat): nat {
    t * s.triangle + v * s.vertex + c * s.coordinate
  }

  /** Every index of the (n, 3, 3) shape addresses an element of a vector of
      length `len`. */
  predicate StridesFit(n: nat, s: Strides, len: nat) {
    forall t: nat, v: nat, c: nat | t < n && v < 3 && c < 3 :: ElementIndex(s, t, v, c) < len
  }

  /** Distinct indices of the (n, 3, 3) shape address distinct elements. */
  predicate NoOverlap(n: nat, s: Strides) {
    forall t1: nat, v1: nat, c1: nat, t2: nat, v2: nat, c2: nat |
      && t1 < n && v1 < 3 && c1 < 3 && t2 < n && v2 < 3 && c2 < 3
      && ElementIndex(s, t1, v1, c1) == ElementIndex(s, t2, v2, c2)
      :: t1 == t2 && v1 == v2 && c1 == c2
  }

  /** ndarray also rejects custom strides under which two indices share an
      element. Neither stride triple the reader passes can do that, so for
      both the reshape is accepted exactly when StridesFit holds. */
  lemma ReaderStridesNeverOverlap(n: nat)
    ensures NoOverlap(n, ELEMENT_STRIDES)
    ensures NoOverlap(n, AS_WRITTEN_STRIDES)
  {
  }

  /** `from_shape_vec((n, 3, 3).strides(s), v)`, unwrapped, for the stride
      triples of ReaderStridesNeverOverlap: the in-bounds rule decides. */
  function FromShapeVec3(v: seq<F64>, n: nat, s: Strides): (r: Outcome<seq<seq<seq<F64>>>>)
    ensures r.Ok? <==> StridesFit(n, s, |v|)
  {
    if !StridesFit(n, s, |v|) then Panic(ShapeRejected)
    else
      Ok(seq(n, t requires 0 <= t < n =>
           seq(3, x requires 0 <= x < 3 =>
             seq(3, c requires 0 <= c < 3 => v[ElementIndex(s, t, x, c)]))))
  }

  /** As written, the reshape of every non-empty triangle buffer of the
      expected length 9n fails: index (n-1, 2, 2) lands on element 72n - 8,
      past the end, so the `unwrap` panics. */
  lemma AsWrittenStridesOverrun(v: seq<F64>, n: nat)
    requires n >= 1 && |v| == 9 * n
    ensures FromShapeVec3(v, n, AS_WRITTEN_STRIDES) == Panic(ShapeRejected)
  {
    assert ElementIndex(AS_WRITTEN_STRIDES, n - 1, 2, 2) == 72 * n - 8;
  }

  /** With element strides the reshape of a buffer of 9n floats always
      succeeds, gives an n x 3 x 3 array whose (t, vertex, coordinate) entry
      is float 9t + vertex + 3 coordinate, and every float of the buffer
      appears in exactly the cell the coordinate-major order assigns it:
      x0 x1 x2 y0 y1 y2 z0 z1 z2 for each triangle. */
  lemma TriangleCells(v: seq<F64>, n: nat)
    requires |v| == 9 * n
    ensures FromShapeVec3(v, n, ELEMENT_STRIDES).Ok?
    ensures var a := FromShapeVec3(v, n, ELEMENT_STRIDES).value;
      && |a| == n
      && (forall t :: 0 <= t < n ==> |a[t]| == 3 && |a[t][0]| == 3 && |a[t][1]| == 3 && |a[t][2]| == 3)
      && (forall t, x, c :: 0 <= t < n && 0 <= x < 3 && 0 <= c < 3 ==> a[t][x][c] == v[9 * t + x + 3 * c])
      && (forall k :: 0 <= k < 9 * n ==> v[k] == a[k / 9][k % 9 % 3][k % 9 / 3])
  {
    TriangleEntries(v, n);
    var a := FromShapeVec3(v, n, ELEMENT_STRIDES).value;
    forall k | 0 <= k < 9 * n
      ensures v[k] == a[k / 9][k % 9 % 3][k % 9 / 3]
    {
      CoordinateMajorPosition(n, k);
    }
  }

  /** The reshape succeeds with shape n x 3 x 3 and entry (t, vertex,
      coordinate) is float 9t + vertex + 3 coordinate. */
  lemma TriangleEntries(v: seq<F64>, n: nat)
    requires |v| == 9 * n
    ensures FromShapeVec3(v, n, ELEMENT_STRIDES).Ok?
    ensures var a := FromShapeVec3(v, n, ELEMENT_STRIDES).value;
      && |a| == n
      && (forall t :: 0 <= t < n ==> |a[t]| == 3 && |a[t][0]| == 3 && |a[t][1]| == 3 && |a[t][2]| == 3)
      && (forall t, x, c :: 0 <= t < n && 0 <= x < 3 && 0 <= c < 3 ==> a[t][x][c] == v[9 * t + x + 3 * c])
  {
    ElementStridesFit(n);
  }

  lemma ElementStridesFit(n: nat)
    ensures StridesFit(n, ELEMENT_STRIDES, 9 * n)
  {
    forall t: nat, x: nat, c: nat | t < n && x < 3 && c < 3
      ensures ElementIndex(ELEMENT_STRIDES, t, x, c) < 9 * n
    {
    }
  }

  /** Element k of a coordinate-major buffer belongs to triangle k / 9,
      coordinate (k % 9) / 3 and vertex (k % 9) % 3. */
  lemma CoordinateMajorPosition(n: nat, k: nat)
    requires k < 9 * n
    ensures k / 9 < n
    ensures k == ElementIndex(ELEMENT_STRIDES, k / 9, k % 9 % 3, k % 9 / 3)
  {
    var r := k % 9;
    assert k == 9 * (k / 9) + r;
    assert r == r % 3 + 3 * (r / 3);
  }
}
