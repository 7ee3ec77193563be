/**
  The outcomes of reading a Petra grid: a value, one of the reader's error
  kinds, or a Rust panic (an arithmetic overflow check or a failed `unwrap`).
 */
module Errors {
  import opened Primitives

  /** The reader's error kinds with their payloads, in the constructor
      argument order (lib.rs Error). The wrapped `io::Error` carries no
      information the model uses, so IOError has no payload. */
  datatype Error =
    | IOError
    | SizeMismatch(size: u32, rows: u32, columns: u32)
    | InvalidXSpec(xmin: F64, xmax: F64, xstep: F64, columns: u32)
    | InvalidYSpec(ymin: F64, ymax: F64, ystep: F64, columns: u32)
    | InvalidRectangularSize(size: u32, actualBytes: nat)
    | InvalidTriangleCount(nTriangles: u32, actualBytes: nat)
    | InvalidXYUnitOfMeasure(code: u32)
    | InvalidZUnitOfMeasure(code: u32)

  /** The places where the reader panics instead of returning an error,
      taking Rust's overflow-checked arithmetic. */
  datatype Trap =
    | ProductOverflow     // `rows * columns` exceeds u32
    | ColumnsUnderflow    // `columns - 1` with no columns
    | DateOutOfRange      // `petra_datetime` on a NaN or a date the time crate cannot hold
    | DataSizeUnderflow   // `source_len - GRID_OFFSET` on a file shorter than the header
    | ShapeRejected       // `unwrap` of an ndarray reshape that failed

  /** Result of a reading step; failure-compatible, so steps chain with `:-`
      and the first failure ends the read, as `?` does in Rust. */
  datatype Outcome<+T> = Ok(value: T) | Err(error: Error) | Panic(trap: Trap) {

    predicate IsFailure() {
      !Ok?
    }

    function PropagateFailure<U>(): Outcome<U>
      requires !Ok?
    {
      if Err? then Err(error) else Panic(trap)
    }

    function Extract(): T
      requires Ok?
    {
      value
    }
  }
}
