# keebifa: layout arrangement and matrix scanning, in Dafny

keebifa is firmware for a staggered "Alice"-style keyboard. This project models two parts of it and proves what they do.

The first part is the layout-arrangement transform (`src/layout.rs`). Keys are authored in visual reading order across the staggered drawing: rows of 15, 15, 14, 14 and 7 keys, 65 in all. `arrange_layer` places them into the 5-row, 13-column wiring grid that the firmware indexes by (row, column). `convert_layers` is meant to apply it to every layer of the layout; as written, its loop never gets past layer 0, and it panics when there are no layers (see Findings).

The second part is the switch-matrix scanner (`src/keymatrix.rs`). `Matrix::new` drives every column pin low. `Matrix::poll` walks the columns: it drives each one high with `set_high` and samples every row with `is_high`. It returns a `[[bool; CS]; RS]` grid in which cell `[y][x]` is set when row `y` read high while column `x` was being sampled. Any pin error is propagated at once with `?`.

Files:

- `results.dfy`: the `Option`, `Result` and `Outcome` wrappers.
- `permutations.dfy`: a rearrangement by an invertible index map is a permutation, stated as multiset equality.
- `layout.dfy`: module `Layout`.
  - The wiring table and its inverse.
  - `ArrangeLayer` and the round trips that tie it to its inverse `Unarrange`.
  - `ConvertLayers`.
  - The loop of `convert_layers` as written.
- `keymatrix.dfy`: module `KeyMatrix`, with the class `Matrix` whose methods change the column levels and the pin-operation log.

How the hardware is modelled:

- Column pins are modelled by the level each one is driven to (`cols: seq<bool>`).
- Row pins are modelled by their count (`rows`).
- A `sense` oracle gives the level of a row as a function of the set of columns driven high. It is fixed when the matrix is made, so the switches do not change while the matrix is in use.
- A `fault` oracle says whether the pin operation at a given position of the operation log fails, and with which error.
- Every method records the pin operations it issues in `log`. Its contract states that log:
  - the exact operations, in order, when it succeeds;
  - when it fails, a prefix of the planned run that ends at its first faulting operation.

What a scan reports: `new` drives every column low before any scan. Cell `[y][x]` is guaranteed to report switch `(y, x)`, whatever the other switches are, only when column `x` is the only column driven high (compare `StrobedScanCell` with `AsWrittenScanCell`). `poll` drives each column high and never low again, so `Poll` follows the code and `PollStrobed` models the one-column-at-a-time scan; see Findings.

## Model

| member | source | states |
|---|---|---|
| Layout.Source | src/layout.rs:5-28 | the authored key read into each of the 65 cells is one of the 65 authored indices |
| Layout.Target | src/layout.rs:5-28 | every authored key is placed in a cell of the 5 x 13 grid |
| Layout.TargetAfterSourceAt | src/layout.rs:5-28 | the cell that reads authored key `i` is the cell where `i` is placed, one cell at a time |
| Layout.TargetAfterSource | src/layout.rs:5-28 | for every cell, placing the key the cell reads leads back to that cell |
| Layout.SourceAfterTarget | src/layout.rs:5-28 | for every authored key, the cell where it is placed reads that key |
| Layout.WiringIsBijection | src/layout.rs:5-28 | the wiring is a bijection between the 65 cells and the 65 authored indices |
| Layout.EachKeyReadOnce | src/layout.rs:5-28 | every authored index is read by exactly one cell: none is dropped or read twice |
| Layout.ArrangeLayer | src/layout.rs:5-28 | `arrange_layer` yields a 5 x 13 layer |
| Layout.Unarrange | src/layout.rs:5-28 | reading a 5 x 13 layer back in authored order yields 65 keys |
| Layout.RoundTrip | src/layout.rs:5-28 | reading an arranged layer back gives exactly the authored keys |
| Layout.RoundTripLayer | src/layout.rs:5-28 | every 5 x 13 layer is the arrangement of its read-back, so `arrange_layer` is onto |
| Layout.ArrangeInjective | src/layout.rs:5-28 | two authored layers arrange to the same layer if and only if they are equal |
| Layout.ArrangePreservesElements | src/layout.rs:5-28 | the 65 cells hold the same multiset of actions as the authored keys, so no `NoOp` is introduced and none is lost |
| Layout.ArrangeRowZero | src/layout.rs:7-10 | wiring row 0 is authored keys 2 through 14, in order |
| Layout.IrregularPlacements | src/layout.rs:11-26 | the keys that break the row pattern land where the table puts them, e.g. key 0 at (3, 0) and key 22 at (2, 6) |
| Layout.ArrangeFaithful | src/layout.rs:5-28 | an arranged layer reads back to its authored keys and keeps their multiset |
| Layout.NoOpLayer | src/layout.rs:35 | `[[Action::NoOp; 13]; 5]` is a 5 x 13 layer |
| Layout.NoOpTable | src/layout.rs:34-35 | the initial table has one layer per input layer |
| Layout.ConvertLayers | src/layout.rs:30-40 | corrected loop: layer `i` of the result is `arrange_layer(input[i])` for every `i < L`; each layer reads back to its input and keeps its multiset |
| Layout.AsWrittenPass | src/layout.rs:33-38 | as written, one pass of the loop never changes `i` or the number of layers while it keeps looping, and a loop that has exited or panicked stays so |
| Layout.AsWrittenRun | src/layout.rs:33-38 | as written, after any number of passes the loop, if still looping, is at `i = 0` with `L` layers |
| Layout.InclusiveBoundRun | src/layout.rs:36-37 | with `i` advanced on every pass and the bound `i <= L`, a loop started at any `i <= L` can only end in a panic |
| Layout.AsWrittenNeverExits | src/layout.rs:33-38 | as written, with `L >= 1`, the loop stays at `i = 0` after any number of passes and only ever rewrites layer 0 |
| Layout.AsWrittenEmptyPanics | src/layout.rs:36-37 | as written, with `L = 0`, the guard `0 <= 0` holds and `input[0]` is out of range |
| Layout.InclusiveBoundPanics | src/layout.rs:36-37 | even with `i` advanced on every pass, the bound `i <= L` reaches `input[L]` and panics, for every `L` |
| KeyMatrix.ReleaseOps | src/keymatrix.rs:27-29 | `new` issues `CS` operations: `set_low` on columns `0 .. CS-1`, in index order |
| KeyMatrix.ColumnOps | src/keymatrix.rs:45-48 | one column issues one `set_high`, `RS` reads and, in the strobed scan, one more `set_low` |
| KeyMatrix.ScanOps | src/keymatrix.rs:45-48 | a full scan issues `CS` times the operations of one column |
| KeyMatrix.ReadsKeepLevels | src/keymatrix.rs:47-48 | sampling rows changes no column level |
| KeyMatrix.ScanLevels | src/keymatrix.rs:45-55 | as written, once columns `0 .. x-1` are scanned, exactly those columns (and any already high) are high; none is reset low |
| KeyMatrix.StrobeScanLevels | src/keymatrix.rs:45-55 | corrected scan: once columns `0 .. x-1` are scanned, all of them are low again |
| KeyMatrix.ReadsInOrder | src/keymatrix.rs:47-48 | the row loop drives no column and samples rows `0 .. RS-1` once each, in index order |
| KeyMatrix.ColumnInOrder | src/keymatrix.rs:45-54 | one column drives that column high once and samples every row once, in index order |
| KeyMatrix.ScanDrivesInOrder | src/keymatrix.rs:45-46 | a full scan drives columns `0, 1, .., CS-1` high, each once, in that order, and no other column |
| KeyMatrix.ScanSamplesInOrder | src/keymatrix.rs:45-48 | a full scan samples rows `0 .. RS-1` in order once per column: `CS * RS` reads |
| KeyMatrix.ReadAborts | src/keymatrix.rs:47-48 | an `is_high` error after clean reads aborts the row loop at that read |
| KeyMatrix.ReadClean | src/keymatrix.rs:47-48 | a clean `is_high` extends the clean run of reads by one row |
| KeyMatrix.ScanNext | src/keymatrix.rs:45-55 | a clean column extends a clean scan by exactly that column's operations |
| KeyMatrix.ScanAborts | src/keymatrix.rs:45-55 | a pin error in column `x` after clean columns `0 .. x-1` aborts the whole scan there; later columns are not driven |
| KeyMatrix.SampleAborts | src/keymatrix.rs:46-48 | an error from `set_high` or `is_high` aborts the column in the strobed scan as well |
| KeyMatrix.ReleaseAborts | src/keymatrix.rs:45-55 | corrected scan: an error from the added `set_low` aborts the column at that operation |
| KeyMatrix.BeforeClosed | src/keymatrix.rs:45-46 | the column levels before column `x` is driven, in closed form for both scans |
| KeyMatrix.SeenClosed | src/keymatrix.rs:45-48 | while column `x` is sampled: as written, columns `0 .. x` are high on top of the starting levels; in the strobed scan, the columns below `x` are low and column `x` is high |
| KeyMatrix.WiredSingleColumn | src/keymatrix.rs:45-49 | in a diode matrix with only column `x` driven, row `y` reads exactly switch `(y, x)` |
| KeyMatrix.AsWrittenScanCell | src/keymatrix.rs:45-49 | as written, starting from `new`, cell `[y][x]` reads high exactly when some switch of row `y` in columns `0 .. x` is closed |
| KeyMatrix.AsWrittenScanGhostKey | src/keymatrix.rs:45-49 | as written, with switch (0, 0) closed and (0, 1) open, cell `[0][1]` still reads pressed |
| KeyMatrix.AsWrittenRepeatScanCell | src/keymatrix.rs:45-49 | as written, a second poll starts with every column high, and every cell of row `y` then reads whether any switch of that row is closed |
| KeyMatrix.StrobedScanCell | src/keymatrix.rs:45-49 | corrected scan, starting from `new`: cell `[y][x]` reads exactly switch `(y, x)` |
| KeyMatrix.Matrix.constructor | src/keymatrix.rs:26 | `Self { cols, rows }` keeps the pins as given and has issued nothing |
| KeyMatrix.Matrix.SetLow | src/keymatrix.rs:28 | `set_low` is logged; on success its column is low and nothing else changes; on failure it returns the pin error and leaves the levels alone |
| KeyMatrix.Matrix.SetHigh | src/keymatrix.rs:46 | `set_high` is logged; on success its column is high and nothing else changes; on failure it returns the pin error |
| KeyMatrix.Matrix.IsHigh | src/keymatrix.rs:48 | `is_high` is logged and returns the row level for the columns currently high, or the pin error |
| KeyMatrix.Matrix.New | src/keymatrix.rs:21-31 | `set_low` on every column in index order; `Ok` exactly when none fails, and then every column is low; otherwise the error of the first failing column |
| KeyMatrix.Matrix.MarkCells | src/keymatrix.rs:47-49 | sampling column `x` sets exactly the cells of column `x` whose row reads high, never clears a cell, and leaves other columns alone |
| KeyMatrix.Matrix.ScannedCells | src/keymatrix.rs:41-55 | the grid starts all `false`; cell `[y][c]` is set exactly when column `c` has been sampled and row `y` read high at that time |
| KeyMatrix.Matrix.SampleRows | src/keymatrix.rs:47-54 | the row loop issues `is_high` on rows `0 .. RS-1` and sets the cells that read high; the first error aborts it |
| KeyMatrix.Matrix.SampleColumn | src/keymatrix.rs:46-54 | one column: `set_high`, then the row loop; the column is high afterwards; the first error aborts |
| KeyMatrix.Matrix.ScanColumn | src/keymatrix.rs:45-55 | one column of either scan; with strobing, the column is driven low again once its rows are sampled |
| KeyMatrix.Matrix.ScanStep | src/keymatrix.rs:45-55 | one pass of the column loop keeps the loop invariant: clean log so far, the column levels, and the grid |
| KeyMatrix.Matrix.Scan | src/keymatrix.rs:41-57 | succeeds exactly when the planned run has no pin error; otherwise it aborts at the first one; on success it returns the scanned grid |
| KeyMatrix.Matrix.Poll | src/keymatrix.rs:33-58 | `poll` as written: `Ok` iff no pin error; then all columns are high and `[y][x]` is row `y`'s level with columns `0 .. x` driven high on top of the levels the poll started from; on error, aborted at the first faulting operation |
| KeyMatrix.Matrix.PollStrobed | src/keymatrix.rs:33-58 | corrected `poll`: `Ok` iff no pin error; then all columns are low and `[y][x]` is row `y`'s level with the columns below `x` low, column `x` high and the later columns as the poll found them; on error, aborted at the first faulting operation |
| KeyMatrix.AsWrittenGhostKeyPoll | src/keymatrix.rs:21-58 | `new` then `poll` as written on two columns with only switch (0, 0) closed returns the grid `[[true, true]]` |
| KeyMatrix.StrobedPollReadsSwitches | src/keymatrix.rs:21-58 | `new` then the corrected `poll` on the same matrix returns `[[true, false]]`, the switches as they are |

## Left out

- The LED feedback in `poll` (src/keymatrix.rs:50-52) is not modelled. It writes to a `smart_leds` driver and panics if that write fails. The `ws` parameter is dropped.
- Pin drivers are not modelled beyond their effect. Their levels and failures are given by the `sense` and `fault` oracles, and the pin types `C` and `R` become one error type `E`.
- `src/main.rs` is not part of this model. It sets up the clocks and the USB device (src/main.rs:43-98) and has one USB interrupt task that echoes serial bytes back in upper case (src/main.rs:100-138). It declares `mod keymatrix;` but never builds a `Matrix` or calls `poll`.
- The `alice_layout!` macro is not part of this model. Layers are taken as already-authored sequences of 65 actions.
- keyberon's `Action` is reduced to `NoOp` and opaque actions told apart by an identifier, because the arrangement never inspects them. keyberon's `Layers` type becomes a sequence of 5 x 13 layers.
- Ownership and borrowing (`&mut self`, the arrays of pin objects) are not modelled. The matrix owns its column levels and its log directly.
- Fixed-size arrays `[T; N]` are sequences whose lengths the contracts state.
- KeyMatrix.Matrix.Poll: after a failed poll, the contract states only that the number of columns is unchanged. It does not state which columns the scan had driven high before the error. The reason is that a pin driver that returns an error leaves that pin's level unspecified. `SetHigh` and `SetLow` model a failed operation as changing no level, and that is a choice of the model, so `Poll` does not pass it on as a promise.
- KeyMatrix.Matrix.PollStrobed: after a failed poll, the contract states only that the number of columns is unchanged, not their levels, for the same reason as `Poll`.
- Layout.AsWrittenRun: the loop of `convert_layers` as written is modelled for any finite number of passes. A Rust compile-time evaluator stops such a loop at its own step limit, and that limit is not modelled.
- Switch states are fixed for the life of a matrix: `sense` is one oracle given to `New`, so no switch is pressed or released during a scan or between two polls.

## Findings

| source | as written | input that shows it | evidently intended | confidence | as-written member | corrected member |
|---|---|---|---|---|---|---|
| src/layout.rs:33-38 | `let i = 0;` and nothing in the loop changes `i`, so the loop rewrites layer 0 forever | any `L >= 1`, e.g. the one-layer `ALICE_LAYOUT` | advance `i` after each layer and stop once all `L` layers are arranged | not executed | Layout.AsWrittenNeverExits | Layout.ConvertLayers |
| src/layout.rs:36-37 | the guard `i <= L` admits `i = L`, and `input[L]` is out of range | `L = 0` (index 0 of an empty array), or any `L` once `i` is advanced | the guard `i < L` | not executed | Layout.AsWrittenEmptyPanics, Layout.InclusiveBoundPanics | Layout.ConvertLayers |
| src/keymatrix.rs:45-55 | each column is driven high and never driven low again, so every earlier column stays high while later columns are sampled | two columns, switch (0, 0) closed and (0, 1) open: cell `[0][1]` reads pressed | drive each column low again after sampling its rows, so that only one column is high at a time | not executed | KeyMatrix.AsWrittenScanGhostKey | KeyMatrix.Matrix.PollStrobed |
