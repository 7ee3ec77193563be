# petra_grid: the Petra GRD decoder in Dafny

This project models `Grid::read` from the Rust crate petra_grid (`src/lib.rs`). It decodes a Petra grid file: a fixed 0x119C-byte header followed by the bulk data, which holds either a rectangular grid of `size` floats or a list of triangles of nine floats each. The reader is modelled as a pure function from the file's bytes to an outcome. The outcome is one of:

- a decoded `Grid`;
- one of the crate's `Error` values, with the same payload;
- a Rust panic.

The proofs state the following, for every byte sequence:

- which offset each header field is read from;
- that the checks run in a fixed order;
- which outcome each failing check produces;
- which files decode, up to the two float computations the model takes as parameters and leaving out memory exhaustion (see "## Left out");
- how each cell of a decoded grid maps to a byte position in the file.

Modules, in dependency order:

- `Primitives`: bytes (octets as integers 0..255), `u32` and its little-endian decoding, and `F64`.
  - A float is kept as its eight raw bytes and never interpreted.
  - It also holds the multiplication and floor-division facts that the length checks rest on.
- `Errors`: `Error` with the payloads in constructor order, the panics (`Trap`), and `Outcome`. `Outcome` is the result type; it chains with `:-`.
- `Stream`: the seekable source.
  - A cursor is the data plus a position.
  - Seeking never fails.
  - A read of `w` bytes at position `p` fails with `IOError` exactly when `p + w` is past the end.
- `Layout`: the seek offsets, the string widths, and the byte span of every header field.
- `Units`: `UnitOfMeasure::from_code`, returning an `Option`.
- `PetraStrings`: `petra_string` and `read_petra_string`.
- `Reshape`: the two `Array::from_shape_vec` calls, unwrapped.
- `GridReader`: `Grid::read` itself.
  - `ReadHeader` performs the reads, seeks, date conversion and unit checks in source order.
  - `Validate` is the check chain.
  - `ReadTrailer` reads the strings.
  - `ReadData` reads and reshapes the bulk data.
- `HeaderLayout`, `ReadProperties`, `ReadOutcome` and `StridesFinding`: what `Read` returns, stated against the offset table.

How the source's behaviour is modelled:

- **Floats.** Float arithmetic decides the outcome in two places. Both become fields of the parameter `FloatSemantics` of `Read`:
  - `withinTolerance(min, max, step, count)` is the x and y consistency check. The reader calls it with `count = columns - 1` for both axes.
  - `dateConverts(days)` says whether `petra_datetime` (src/lib.rs:197, 408-412) can turn the stored date into a date. When it cannot (a NaN, or a date outside what the `time` crate represents), the source panics. That panic comes right after the date is read, before rows, columns and the unit codes are read, and the model places it there too.
- **The y check uses columns.** The y check uses the column count, not the row count, both in its formula and in the `InvalidYSpec` payload (src/lib.rs:226-229). The error documentation says "rows". The model follows the code.
- **Strings cut at the digit 0.** `petra_string` cuts the buffer at the first byte 0x30, the ASCII digit '0' (src/lib.rs:395). The comment above it speaks of NUL. The model follows the code: NUL padding is kept, and a name such as "W10" decodes to "W1".
- **The triangular length check.** The check divides the bulk-data size by 72 and compares the result with `size`, not with the triangle count. The error it returns carries the triangle count. The model follows the code. `ReadOutcome.TriangularLengthCheck` states what this lets through: surplus bulk data is ignored when the count is below `size`, and a count above `size` fails the later bulk read with `IOError`.
- **Panics.** Integer arithmetic follows Rust's overflow-checked (debug) semantics, so each overflow is a panic:
  - `rows * columns` beyond u32 gives `ProductOverflow`;
  - `columns - 1` when there are no columns gives `ColumnsUnderflow`;
  - `source_len - GRID_OFFSET` on a file shorter than 0x119C gives `DataSizeUnderflow`.
  - A date that `petra_datetime` cannot convert gives `DateOutOfRange`.
  - An `unwrap` of a reshape that ndarray rejects gives `ShapeRejected`.

## Model

| member | source | states |
|---|---|---|
| GridReader.Read | src/lib.rs:178-297 | `Grid::read` with the corrected triangle strides; what it returns on every file is stated by ReadOutcome.ReadSucceedsExactly and ReadOutcome.ReadGridContents, and failure by failure by the header and check lemmas below |
| GridReader.ReadAsWritten | src/lib.rs:178-297 | `Grid::read` with the strides as written; stated by StridesFinding.AsWrittenNeverDecodesTriangles |
| GridReader.ReadHeader | src/lib.rs:179-214 | the header reads, the date conversion and the unit checks in source order; stated by HeaderLayout.ReadHeaderFollowsLayout |
| GridReader.PetraDatetime | src/lib.rs:408-412 | the date conversion: the stored date, or the `DateOutOfRange` panic when it does not convert; stated in place by HeaderLayout.ReadHeaderFollowsLayout |
| GridReader.UnitOr | src/lib.rs:205-211 | `from_code(code).ok_or(e)?`: the unit, or the given error; stated by Units.FromCode and, with the raw code as payload, by HeaderLayout.ReadHeaderFollowsLayout |
| GridReader.Validate | src/lib.rs:216-241 | the check chain; stated by ReadProperties.ValidateInOrder, ReadProperties.ValidateDataLength and ReadProperties.ValidateOkExactly |
| GridReader.ReadTrailer | src/lib.rs:243-249 | the four string reads; stated by ReadProperties.ReadTrailerFollowsLayout |
| GridReader.ReadData | src/lib.rs:251-267 | the bulk read and reshape; stated by ReadProperties.ReadDataLayout, ReadProperties.RectangularDataLayout, ReadProperties.TriangularDataLayout and StridesFinding.AsWrittenTriangleData |
| Primitives.LeU32 | src/lib.rs:180 | little-endian u32 decoding; stated by Primitives.LeU32OfU32Le and Primitives.U32LeOfLeU32 |
| Stream.ReadExact | src/lib.rs:403 | `read_exact`: the bytes read number exactly `width`; when it fails is stated by Stream.ReadF64IntoLayout and PetraStrings.ReadPetraStringLayout |
| Stream.ReadU32 | src/lib.rs:180 | `read_u32`; that each u32 field is the value at its span is stated by HeaderLayout.ReadHeaderFollowsLayout |
| Stream.ReadF64 | src/lib.rs:183 | `read_f64`; that each float field is the eight bytes at its span is stated by HeaderLayout.ReadHeaderFollowsLayout |
| Stream.ReadF64Into | src/lib.rs:254 | `read_f64_into`; stated by Stream.ReadF64IntoLayout |
| PetraStrings.ReadPetraString | src/lib.rs:400-405 | `read_petra_string`; stated by PetraStrings.ReadPetraStringLayout |
| Units.FromCode | src/lib.rs:37-43 | a code decodes to a unit exactly when it is 0 or 1 |
| Units.FromCodeInvertsToCode | src/lib.rs:37-43 | code 0 is feet and code 1 is meters; no other code decodes to either unit |
| Primitives.LeU32OfU32Le | src/lib.rs:180 | the little-endian u32 decoding recovers every u32 from its four bytes |
| Primitives.U32LeOfLeU32 | src/lib.rs:180 | every four bytes are the encoding of the u32 they decode to, so the decoding is a bijection |
| Stream.ReadF64IntoLayout | src/lib.rs:254 | a bulk read of `count` floats succeeds exactly when `8 * count` bytes remain; it otherwise fails with IOError; float `i` is the 8 bytes at `pos + 8i` |
| PetraStrings.TerminatorIndex | src/lib.rs:395 | the position of the first 0x30 byte, or the length when there is none |
| PetraStrings.PetraString | src/lib.rs:394-397 | the result is a prefix of the buffer, free of 0x30, and it is either the whole buffer or is followed by 0x30 |
| PetraStrings.PetraStringUnique | src/lib.rs:394-397 | that prefix is unique: the decoded string is the longest prefix without 0x30 |
| PetraStrings.PetraStringIdempotent | src/lib.rs:394-397 | decoding a decoded string changes nothing |
| PetraStrings.PetraStringWhole | src/lib.rs:394-397 | a buffer without 0x30 decodes to itself, NUL bytes included |
| PetraStrings.ReadPetraStringLayout | src/lib.rs:400-405 | a string read consumes exactly `width` bytes and fails with IOError only when they run past the end |
| Layout.HeaderFieldsDisjoint | src/lib.rs:156-172 | the spans of all 25 header fields are pairwise disjoint and lie before 0x119C, and the datum ends exactly at 0x119C |
| HeaderLayout.ReadHeaderFollowsLayout | src/lib.rs:179-214 | the sequential header reads give exactly the values at the fields' spans; a short file gives IOError at the first read that runs past the end; a date that does not convert panics before rows and columns are read; an unknown xy or z unit code stops the read with its own error carrying the raw code |
| ReadProperties.ReadStopsInHeader | src/lib.rs:179-214 | on every file whose header cannot be read, read fails with IOError, with the date panic or with the unit error carrying the raw code, in the order the reads happen |
| ReadProperties.ReadTrailerFollowsLayout | src/lib.rs:243-249 | the four strings come from their spans and are read successfully exactly when the file reaches 0x119C |
| ReadProperties.ReadAfterHeader | src/lib.rs:216-269 | once the header is read, read is the check chain, then the strings, then the bulk data; the first failure is the outcome |
| ReadProperties.ValidateInOrder | src/lib.rs:216-230 | the geometry checks run in source order: u32 overflow of `rows * columns`, then `SizeMismatch(size, rows, columns)`, then the zero-column underflow, then the x extent, then the y extent counted with `columns - 1` steps |
| ReadProperties.ReadChecksGeometry | src/lib.rs:216-230 | the same order and payloads hold for read on every complete header; `InvalidYSpec` carries the column count |
| ReadProperties.ValidateDataLength | src/lib.rs:232-241 | after the geometry checks: a file shorter than 0x119C panics; otherwise the bulk size, floor-divided by 8 (rectangular) or by 72 (triangular), must equal `size`; each mismatch has its own error and payload |
| ReadProperties.ReadChecksDataLength | src/lib.rs:232-241 | the same for read; the triangle error carries the triangle count, although `size` is what was compared |
| ReadProperties.ValidateOkExactly | src/lib.rs:216-241 | validation passes exactly when every geometry check and the length check pass |
| ReadProperties.ReadDataLayout | src/lib.rs:251-267 | once the checks pass, the bulk read fails only with IOError, and only for a triangular grid with fewer than 9 floats per triangle; otherwise the data has the layout described in the next two rows |
| ReadProperties.RectangularDataLayout | src/lib.rs:252-259 | a rectangular grid is a rows x columns matrix; cell (r, c) is the 8 bytes at `0x119C + 8 (r columns + c)` |
| ReadProperties.TriangularDataLayout | src/lib.rs:260-266 | a triangular read succeeds exactly when 72 bytes per triangle remain; cell (t, v, c) is the 8 bytes at `0x119C + 72t + 8v + 24c` |
| Reshape.FromShapeVec2 | src/lib.rs:257-258 | a row-major reshape succeeds exactly when rows * columns is the buffer length; it gives a rows x columns matrix and panics otherwise |
| Reshape.RowMajorOfFlatten | src/lib.rs:257-258 | reshaping the row-major serialisation of a matrix gives the matrix back |
| Reshape.FlattenOfRowMajor | src/lib.rs:257-258 | serialising a reshaped buffer gives the buffer back: nothing is dropped, duplicated or reordered |
| Reshape.FromShapeVec3 | src/lib.rs:264-265 | for the two stride triples the reader passes, an (n, 3, 3) reshape succeeds exactly when every index lands inside the buffer |
| Reshape.ReaderStridesNeverOverlap | src/lib.rs:264-265 | neither stride triple maps two indices to the same element, so ndarray's overlap rule never rejects them |
| Reshape.TriangleCells | src/lib.rs:264-265 | with element strides (9, 1, 3) a buffer of 9n floats always reshapes; entry (t, v, c) is float `9t + v + 3c`, and every float is in exactly that cell |
| Reshape.AsWrittenStridesOverrun | src/lib.rs:264-265 | with strides (72, 8, 24) counted in elements, the reshape of every non-empty buffer of 9n floats is rejected, so the `unwrap` panics |
| ReadOutcome.ReadAfterChecks | src/lib.rs:243-269 | once all checks pass, read returns the header, the strings at their spans and the bulk data; it fails with IOError only when the bulk data is too short |
| ReadOutcome.ReadSucceedsExactly | src/lib.rs:178-297 | read decodes a grid exactly when the header is complete, its date converts, every check passes and the bulk data holds the floats to be read |
| ReadOutcome.ReadGridContents | src/lib.rs:269-296 | a decoded grid holds the header at its spans, the strings at their spans, and the bulk data in row-major or coordinate-major order |
| ReadOutcome.DecodedGridInvariants | src/lib.rs:197-266 | every decoded grid has a date that converts, satisfies rows * columns == size, has at least one column and passes both extent checks; its data covers the floats and has the header's shape |
| ReadOutcome.ShortFileNeverDecodes | src/lib.rs:232-233 | no file shorter than 0x119C bytes decodes |
| ReadOutcome.RectangularLengthCheck | src/lib.rs:235-237 | a rectangular file passes the length check exactly when its bulk data has between `8 size` and `8 size + 7` bytes |
| ReadOutcome.TriangularLengthCheck | src/lib.rs:239-263 | a triangular file passes exactly when its bulk data has between `72 size` and `72 size + 71` bytes; it then decodes exactly when the triangle count is at most `size` |
| StridesFinding.AsWrittenTriangleData | src/lib.rs:260-266 | as written, the triangular bulk read panics whenever the floats are present and is an IOError otherwise |
| StridesFinding.AsWrittenNeverDecodesTriangles | src/lib.rs:178-297 | as written, read decodes only rectangular grids, and the same ones the corrected read decodes; it panics on every triangular grid the corrected read decodes; on all other files the two agree |

## Left out

- The date value computed by `petra_datetime` (src/lib.rs:408-412) is not modelled. It is float arithmetic that calls into the `time` crate. The model keeps the raw eight date bytes. Whether the conversion panics is the parameter `dateConverts`. Note that it divides the day count by 86400 instead of multiplying, so a stored 1.0 is 1/86400 of a second after 1899-12-30, not one day.
- Float meaning of the x and y extent checks (src/lib.rs:220-230) is not modelled. Each check is the uninterpreted parameter `withinTolerance`. In the source, the relative error is divided by `xmax` or `ymax` itself, not by its absolute value, so a negative maximum always passes.
- UTF-8 lossy decoding of strings (src/lib.rs:396) is not modelled. Strings stay byte sequences.
- The payload of `IOError` is not modelled. The wrapped `io::Error` is never inspected, so `IOError` carries nothing.
- `Display` for `Error` (src/lib.rs:352-379) is not modelled. It is formatting only. Note that it destructures `SizeMismatch` as `(rows, columns, size)`, while the constructor order is `(size, rows, columns)`, so the message names the three values wrongly.
- Release-build arithmetic is not modelled. Without overflow checks Rust wraps around; the model takes the overflow-checked semantics and panics instead.
- ndarray internals are not modelled. Arrays are nested sequences. `from_shape_vec` is modelled by its in-bounds rule: every index must address an element of the vector. Its rule against overlapping strides is not part of `FromShapeVec3`, since it never rejects the two triples the reader passes (Reshape.ReaderStridesNeverOverlap).
- src/bin/read_grid.rs (the command-line tool) is not part of this model.
- ReadOutcome.ReadSucceedsExactly, ReadProperties.ReadDataLayout, ReadProperties.TriangularDataLayout: allocation failure is not modelled. The triangular path allocates 9 floats per triangle (72 bytes) before it reads (src/lib.rs:261). A huge triangle count on a short file can therefore abort the process where these lemmas state `IOError`. The rectangular buffer holds `size` floats, and the length check has already matched `size` to the file, so it is no larger than the file.
- Seek failures and other I/O failures of the source that do not come from reading past the end are not modelled.

## Findings

| source | as written | input that shows it | evidently intended | confidence | as-written member | corrected member |
|---|---|---|---|---|---|---|
| src/lib.rs:264-265 | `.strides((72, 8, 24))` passes the layout's byte strides, but ndarray counts strides in elements; index (n-1, 2, 2) addresses element 72n - 8 of a 9n-float buffer, so `from_shape_vec` fails and the `unwrap` panics | any triangular file that passes the checks, for example n_triangles = size = rows = columns = 1 with 72 bytes of bulk data | element strides (9, 1, 3): cell (t, v, c) is float 9t + v + 3c, the coordinate-major layout | not executed | Reshape.AsWrittenStridesOverrun, StridesFinding.AsWrittenNeverDecodesTriangles | Reshape.TriangleCells, ReadProperties.TriangularDataLayout |

`GridReader.Read` uses the corrected strides. `GridReader.ReadAsWritten` uses the strides as written.
