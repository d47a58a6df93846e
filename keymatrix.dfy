/** The switch-matrix scanner (src/keymatrix.rs). Column pins are outputs that the scanner drives;
    row pins are inputs that it samples. Every pin operation can fail with the pin driver's error,
    and the scanner propagates the first failure with `?`.

    The hardware is given by two oracles: `sense` gives the level of a row pin as a function of the
    set of column pins currently driven high, and `fault` says whether the pin operation at a given
    position of the operation log fails, and with which error. */
module KeyMatrix {
  import opened Results

  /** A pin operation as the hardware sees it: `set_low` or `set_high` on a column pin, `is_high` on a row pin. */
  datatype PinOp = DriveLow(col: nat) | DriveHigh(col: nat) | ReadRow(row: nat)

  /** The columns driven high. */
  function HighSet(levels: seq<bool>): set<nat>
  {
    set c: nat | c < |levels| && levels[c]
  }

  /** The column levels after one pin operation that succeeded. */
  function Step(levels: seq<bool>, op: PinOp): (after: seq<bool>)
    ensures |after| == |levels|
  {
    match op
    case DriveLow(c) => if c < |levels| then levels[c := false] else levels
    case DriveHigh(c) => if c < |levels| then levels[c := true] else levels
    case ReadRow(_) => levels
  }

  /** The column levels after a run of pin operations that all succeeded. */
  function Levels(levels: seq<bool>, ops: seq<PinOp>): (after: seq<bool>)
    ensures |after| == |levels|
    decreases |ops|
  {
    if ops == [] then levels else Step(Levels(levels, ops[..|ops| - 1]), ops[|ops| - 1])
  }

  /** The operations of `ops`, issued at positions `start`, `start + 1`, ... of the log, all succeed. */
  ghost predicate Clean<E>(fault: (nat, PinOp) -> Option<E>, start: nat, ops: seq<PinOp>)
  {
    forall j :: 0 <= j < |ops| ==> fault(start + j, ops[j]).None?
  }

  /** What `new` issues: `set_low` on every column, in index order. */
  function ReleaseOps(cs: nat): (ops: seq<PinOp>)
    ensures |ops| == cs && forall k :: 0 <= k < cs ==> ops[k].DriveLow? && ops[k].col == k
  {
    seq(cs, c requires 0 <= c < cs => DriveLow(c))
  }

  /** `is_high` on every row, in index order. */
  function Reads(rs: nat): seq<PinOp>
  {
    seq(rs, y requires 0 <= y < rs => ReadRow(y))
  }

  /** What a scan issues for column `x`: `set_high` on it, then `is_high` on every row; with `strobe`,
      `set_low` on it again afterwards. */
  function ColumnOps(x: nat, rs: nat, strobe: bool): (ops: seq<PinOp>)
    ensures |ops| == 1 + rs + (if strobe then 1 else 0)
  {
    [DriveHigh(x)] + Reads(rs) + (if strobe then [DriveLow(x)] else [])
  }

  /** What a complete scan of columns `0 .. cs - 1` issues, column by column. */
  function ScanOps(cs: nat, rs: nat, strobe: bool): (ops: seq<PinOp>)
    ensures |ops| == cs * (1 + rs + (if strobe then 1 else 0))
  {
    if cs == 0 then [] else ScanOps(cs - 1, rs, strobe) + ColumnOps(cs - 1, rs, strobe)
  }

  /** The levels once the columns below `x` have been driven high, and none driven low. */
  function DrivenBelow(levels: seq<bool>, x: int): (after: seq<bool>)
    ensures |after| == |levels|
  {
    seq(|levels|, c requires 0 <= c < |levels| => levels[c] || c < x)
  }

  /** The levels once every column below `x` has been driven high and low again. */
  function ReleasedBelow(levels: seq<bool>, x: int): (after: seq<bool>)
    ensures |after| == |levels|
  {
    seq(|levels|, c requires 0 <= c < |levels| => if c < x then false else levels[c])
  }

  /** The levels once every column below `x` has been driven high and low again, and column `x` is driven high. */
  function Strobing(levels: seq<bool>, x: int): (after: seq<bool>)
    ensures |after| == |levels|
  {
    seq(|levels|, c requires 0 <= c < |levels| => if c < x then false else if c == x then true else levels[c])
  }

  /** The levels before column `x` is driven, column by column from `levels`: each column is driven
      high and, with `strobe`, low again. */
  function Before(levels: seq<bool>, x: nat, strobe: bool): (after: seq<bool>)
    ensures |after| == |levels|
    decreases x, 0
  {
    if x == 0 then levels
    else if strobe then Step(Seen(levels, x - 1, strobe), DriveLow(x - 1))
    else Seen(levels, x - 1, strobe)
  }

  /** The levels while column `x` is sampled: column `x` is driven high on top of `Before`. */
  function Seen(levels: seq<bool>, x: nat, strobe: bool): (during: seq<bool>)
    ensures |during| == |levels|
    decreases x, 1
  {
    Step(Before(levels, x, strobe), DriveHigh(x))
  }

  /** A `[[bool; cs]; rs]` grid, indexed `[row][column]`. */
  predicate IsGrid(grid: seq<seq<bool>>, rs: nat, cs: nat)
  {
    |grid| == rs && forall y :: 0 <= y < rs ==> |grid[y]| == cs
  }

  /** Row levels of a switch matrix with a diode per switch, where `closed[y][x]` is the switch on
      row `y`, column `x`: row `y` reads high exactly when a column driven high has its switch on
      row `y` closed. */
  function Wired(closed: seq<seq<bool>>): (set<nat>, nat) -> bool
  {
    (high: set<nat>, y: nat) => y < |closed| && exists c :: c in high && c < |closed[y]| && closed[y][c]
  }

  // ---------------------------------------------------------------------------------------------
  // Facts about pin-operation runs

  lemma LevelsAppend(levels: seq<bool>, a: seq<PinOp>, b: seq<PinOp>)
    ensures Levels(levels, a + b) == Levels(Levels(levels, a), b)
    decreases |b|
  {
    if b == [] {
      assert a + b == a;
    } else {
      assert (a + b)[..|a + b| - 1] == a + b[..|b| - 1];
      LevelsAppend(levels, a, b[..|b| - 1]);
    }
  }

  /** Sampling rows changes no column level. */
  lemma {:induction false} ReadsKeepLevels(levels: seq<bool>, rs: nat)
    ensures Levels(levels, Reads(rs)) == levels
  {
    if rs > 0 {
      assert Reads(rs)[..rs - 1] == Reads(rs - 1);
      ReadsKeepLevels(levels, rs - 1);
    }
  }

  /** While column `x` is sampled in the scan as written, every column below it is still high:
      the columns `0 .. x` are high together, as are any that were high before the scan. */
  lemma {:induction false} ScanLevels(levels: seq<bool>, x: nat, rs: nat)
    requires x <= |levels|
    ensures Levels(levels, ScanOps(x, rs, false)) == DrivenBelow(levels, x)
  {
    if x > 0 {
      var before := DrivenBelow(levels, x - 1);
      ScanLevels(levels, x - 1, rs);
      assert ColumnOps(x - 1, rs, false) == [DriveHigh(x - 1)] + Reads(rs);
      LevelsAppend(levels, ScanOps(x - 1, rs, false), ColumnOps(x - 1, rs, false));
      LevelsAppend(before, [DriveHigh(x - 1)], Reads(rs));
      assert Levels(before, [DriveHigh(x - 1)]) == Step(before, DriveHigh(x - 1)) by {
        assert [DriveHigh(x - 1)][..0] == [];
      }
      assert Step(before, DriveHigh(x - 1)) == DrivenBelow(levels, x);
      ReadsKeepLevels(DrivenBelow(levels, x), rs);
    }
  }

  /** In the strobed scan, every column below `x` has been driven low again once column `x` is done. */
  lemma {:induction false} StrobeScanLevels(levels: seq<bool>, x: nat, rs: nat)
    requires x <= |levels|
    ensures Levels(levels, ScanOps(x, rs, true)) == ReleasedBelow(levels, x)
  {
    if x > 0 {
      var before := ReleasedBelow(levels, x - 1);
      var high := Step(before, DriveHigh(x - 1));
      StrobeScanLevels(levels, x - 1, rs);
      assert ColumnOps(x - 1, rs, true) == [DriveHigh(x - 1)] + Reads(rs) + [DriveLow(x - 1)];
      LevelsAppend(levels, ScanOps(x - 1, rs, true), ColumnOps(x - 1, rs, true));
      LevelsAppend(before, [DriveHigh(x - 1)] + Reads(rs), [DriveLow(x - 1)]);
      LevelsAppend(before, [DriveHigh(x - 1)], Reads(rs));
      assert Levels(before, [DriveHigh(x - 1)]) == high by {
        assert [DriveHigh(x - 1)][..0] == [];
      }
      ReadsKeepLevels(high, rs);
      assert Levels(high, [DriveLow(x - 1)]) == Step(high, DriveLow(x - 1)) by {
        assert [DriveLow(x - 1)][..0] == [];
      }
      assert Step(high, DriveLow(x - 1)) == ReleasedBelow(levels, x);
    }
  }

  /** The columns that `ops` drives high, in the order it drives them. */
  function Driven(ops: seq<PinOp>): seq<nat>
    decreases |ops|
  {
    if ops == [] then []
    else Driven(ops[..|ops| - 1]) + (if ops[|ops| - 1].DriveHigh? then [ops[|ops| - 1].col] else [])
  }

  /** The rows that `ops` samples, in the order it samples them. */
  function Sampled(ops: seq<PinOp>): seq<nat>
    decreases |ops|
  {
    if ops == [] then []
    else Sampled(ops[..|ops| - 1]) + (if ops[|ops| - 1].ReadRow? then [ops[|ops| - 1].row] else [])
  }

  /** `n` copies of `s`, one after the other. */
  function Repeat(s: seq<nat>, n: nat): (r: seq<nat>)
    ensures |r| == n * |s|
  {
    if n == 0 then [] else Repeat(s, n - 1) + s
  }

  lemma {:induction false} DrivenAppend(a: seq<PinOp>, b: seq<PinOp>)
    ensures Driven(a + b) == Driven(a) + Driven(b)
    decreases |b|
  {
    if b == [] {
      assert a + b == a;
    } else {
      assert (a + b)[..|a + b| - 1] == a + b[..|b| - 1];
      DrivenAppend(a, b[..|b| - 1]);
    }
  }

  lemma {:induction false} SampledAppend(a: seq<PinOp>, b: seq<PinOp>)
    ensures Sampled(a + b) == Sampled(a) + Sampled(b)
    decreases |b|
  {
    if b == [] {
      assert a + b == a;
    } else {
      assert (a + b)[..|a + b| - 1] == a + b[..|b| - 1];
      SampledAppend(a, b[..|b| - 1]);
    }
  }

  /** The row loop drives no column and samples rows `0 .. rs - 1` in index order. */
  lemma {:induction false} ReadsInOrder(rs: nat)
    ensures Driven(Reads(rs)) == []
    ensures Sampled(Reads(rs)) == seq(rs, y requires 0 <= y < rs => y)
  {
    if rs > 0 {
      assert Reads(rs)[..rs - 1] == Reads(rs - 1);
      ReadsInOrder(rs - 1);
    }
  }

  /** One column drives that column high once and samples every row once, in index order. */
  lemma ColumnInOrder(x: nat, rs: nat, strobe: bool)
    ensures Driven(ColumnOps(x, rs, strobe)) == [x]
    ensures Sampled(ColumnOps(x, rs, strobe)) == seq(rs, y requires 0 <= y < rs => y)
  {
    var head, tail: seq<PinOp> := [DriveHigh(x)], if strobe then [DriveLow(x)] else [];
    var column := ColumnOps(x, rs, strobe);
    assert column == head + Reads(rs) + tail;
    assert Driven(head) == [x] && Sampled(head) == [] by {
      assert head[..0] == [];
    }
    assert Driven(tail) == [] && Sampled(tail) == [] by {
      if strobe {
        assert tail[..0] == [];
      }
    }
    ReadsInOrder(rs);
    assert Driven(column) == [x] by {
      DrivenAppend(head + Reads(rs), tail);
      DrivenAppend(head, Reads(rs));
    }
    assert Sampled(column) == seq(rs, y requires 0 <= y < rs => y) by {
      SampledAppend(head + Reads(rs), tail);
      SampledAppend(head, Reads(rs));
    }
  }

  /** The columns a scan drives high are `0, 1, ..., cs - 1`, in that order: every column once,
      in index order, and no other column. */
  lemma {:induction false} ScanDrivesInOrder(cs: nat, rs: nat, strobe: bool)
    ensures Driven(ScanOps(cs, rs, strobe)) == seq(cs, c requires 0 <= c < cs => c)
  {
    if cs > 0 {
      var before, column := ScanOps(cs - 1, rs, strobe), ColumnOps(cs - 1, rs, strobe);
      assert Driven(before) == seq(cs - 1, c requires 0 <= c < cs - 1 => c) by {
        ScanDrivesInOrder(cs - 1, rs, strobe);
      }
      assert Driven(column) == [cs - 1] by {
        ColumnInOrder(cs - 1, rs, strobe);
      }
      DrivenAppend(before, column);
    }
  }

  /** A scan samples rows `0 .. rs - 1` in index order once per column: `cs * rs` row reads. */
  lemma {:induction false} ScanSamplesInOrder(cs: nat, rs: nat, strobe: bool)
    ensures Sampled(ScanOps(cs, rs, strobe)) == Repeat(seq(rs, y requires 0 <= y < rs => y), cs)
  {
    if cs > 0 {
      var before, column := ScanOps(cs - 1, rs, strobe), ColumnOps(cs - 1, rs, strobe);
      assert Sampled(before) == Repeat(seq(rs, y requires 0 <= y < rs => y), cs - 1) by {
        ScanSamplesInOrder(cs - 1, rs, strobe);
      }
      assert Sampled(column) == seq(rs, y requires 0 <= y < rs => y) by {
        ColumnInOrder(cs - 1, rs, strobe);
      }
      SampledAppend(before, column);
    }
  }

  /** Reading one more row extends the run of reads by that row, within the full run. */
  lemma ReadsStep(y: nat, rs: nat)
    requires y < rs
    ensures Reads(y + 1) == Reads(y) + [ReadRow(y)] && Reads(y + 1)[..y] == Reads(y) && Reads(y + 1) <= Reads(rs)
  {
  }

  lemma {:induction false} ScanPrefix(x: nat, cs: nat, rs: nat, strobe: bool)
    requires x <= cs
    ensures ScanOps(x, rs, strobe) <= ScanOps(cs, rs, strobe)
    decreases cs
  {
    if x < cs {
      ScanPrefix(x, cs - 1, rs, strobe);
    }
  }

  /** The run `issued` stopped at a fault: it is a non-empty prefix of the planned run `plan`, every
      operation but the last succeeded, and the last failed with `error`. */
  ghost predicate Aborted<E>(fault: (nat, PinOp) -> Option<E>, start: nat, issued: seq<PinOp>, plan: seq<PinOp>, error: E)
  {
    issued <= plan && |issued| > 0 &&
    Clean(fault, start, issued[..|issued| - 1]) && fault(start + |issued| - 1, issued[|issued| - 1]) == Some(error)
  }

  /** A fault on the read of row `y` after clean reads of the rows before it aborts the row loop. */
  lemma ReadAborts<E>(fault: (nat, PinOp) -> Option<E>, start: nat, y: nat, rs: nat, error: E)
    requires y < rs && Clean(fault, start, Reads(y)) && fault(start + y, ReadRow(y)) == Some(error)
    ensures Aborted(fault, start, Reads(y) + [ReadRow(y)], Reads(rs), error)
  {
    ReadsStep(y, rs);
  }

  /** A clean read of row `y` after clean reads of the rows before it extends the clean run. */
  lemma ReadClean<E>(fault: (nat, PinOp) -> Option<E>, start: nat, y: nat, rs: nat)
    requires y < rs && Clean(fault, start, Reads(y)) && fault(start + y, ReadRow(y)).None?
    ensures Reads(y) + [ReadRow(y)] == Reads(y + 1) && Clean(fault, start, Reads(y + 1))
  {
    ReadsStep(y, rs);
    CleanAppend(fault, start, Reads(y), [ReadRow(y)]);
  }

  /** A run that stopped at a fault spoils its plan: the plan does not run clean. */
  lemma AbortedSpoils<E>(fault: (nat, PinOp) -> Option<E>, start: nat, issued: seq<PinOp>, plan: seq<PinOp>, error: E)
    requires Aborted(fault, start, issued, plan, error)
    ensures !Clean(fault, start, plan)
  {
    assert plan[|issued| - 1] == issued[|issued| - 1];
  }

  /** A run is clean exactly when both of its parts are. */
  lemma CleanAppend<E>(fault: (nat, PinOp) -> Option<E>, start: nat, a: seq<PinOp>, b: seq<PinOp>)
    ensures Clean(fault, start, a + b) <==> Clean(fault, start, a) && Clean(fault, start + |a|, b)
  {
    if Clean(fault, start, a) && Clean(fault, start + |a|, b) {
      forall j | 0 <= j < |a + b|
        ensures fault(start + j, (a + b)[j]).None?
      {
        if j >= |a| {
          assert (a + b)[j] == b[j - |a|];
        }
      }
    }
    if Clean(fault, start, a + b) {
      forall j | 0 <= j < |a|
        ensures fault(start + j, a[j]).None?
      {
        assert (a + b)[j] == a[j];
      }
      forall j | 0 <= j < |b|
        ensures fault(start + |a| + j, b[j]).None?
      {
        assert (a + b)[|a| + j] == b[j];
      }
    }
  }

  /** A step of a planned run that stops at a fault after a clean part `done` aborts the whole run. */
  lemma AbortedAfter<E>(fault: (nat, PinOp) -> Option<E>, start: nat, done: seq<PinOp>, issued: seq<PinOp>,
                        step: seq<PinOp>, plan: seq<PinOp>, error: E)
    requires Clean(fault, start, done) && done + step <= plan
    requires Aborted(fault, start + |done|, issued, step, error)
    ensures Aborted(fault, start, done + issued, plan, error)
  {
    assert (done + issued)[..|done + issued| - 1] == done + issued[..|issued| - 1];
    assert (done + issued)[|done + issued| - 1] == issued[|issued| - 1];
    assert done + issued <= done + step;
    CleanAppend(fault, start, done, issued[..|issued| - 1]);
  }

  /** A run aborted within a plan is aborted within any longer plan that begins with it. */
  lemma AbortedWithin<E>(fault: (nat, PinOp) -> Option<E>, start: nat, issued: seq<PinOp>, plan: seq<PinOp>,
                         longer: seq<PinOp>, error: E)
    requires Aborted(fault, start, issued, plan, error) && plan <= longer
    ensures Aborted(fault, start, issued, longer, error)
  {
  }

  /** In the scan as written the columns below `x` are high before column `x` is driven; in the
      strobed scan they have been released. */
  lemma {:induction false} BeforeClosed(levels: seq<bool>, x: nat, strobe: bool)
    requires x <= |levels|
    ensures Before(levels, x, strobe) == if strobe then ReleasedBelow(levels, x) else DrivenBelow(levels, x)
  {
    if x > 0 {
      BeforeClosed(levels, x - 1, strobe);
    }
  }

  /** While column `x` is sampled, the scan as written has every column up to `x` high, the strobed
      scan only column `x`. */
  lemma SeenClosed(levels: seq<bool>, x: nat, strobe: bool)
    requires x < |levels|
    ensures Seen(levels, x, strobe) == if strobe then Strobing(levels, x) else DrivenBelow(levels, x + 1)
  {
    BeforeClosed(levels, x, strobe);
  }

  /** A strobed column is the as-written column followed by `set_low` on it. */
  lemma StrobedColumn(x: nat, rs: nat)
    ensures ColumnOps(x, rs, true) == ColumnOps(x, rs, false) + [DriveLow(x)]
    ensures ColumnOps(x, rs, false) == [DriveHigh(x)] + Reads(rs)
    ensures ColumnOps(x, rs, false) <= ColumnOps(x, rs, true)
  {
  }

  /** A clean column extends a clean scan of the columns before it by one column. */
  lemma ScanNext<E>(fault: (nat, PinOp) -> Option<E>, start: nat, x: nat, rs: nat, strobe: bool, column: seq<PinOp>)
    requires Clean(fault, start, ScanOps(x, rs, strobe)) && column == ColumnOps(x, rs, strobe)
    requires Clean(fault, start + |ScanOps(x, rs, strobe)|, column)
    ensures ScanOps(x, rs, strobe) + column == ScanOps(x + 1, rs, strobe)
    ensures Clean(fault, start, ScanOps(x + 1, rs, strobe))
  {
    CleanAppend(fault, start, ScanOps(x, rs, strobe), column);
  }

  /** A column that stops at a fault after a clean scan of the columns before it aborts the whole
      scan of `cs` columns, which then does not run clean. */
  lemma ScanAborts<E>(fault: (nat, PinOp) -> Option<E>, start: nat, x: nat, cs: nat, rs: nat, strobe: bool,
                      issued: seq<PinOp>, error: E)
    requires x < cs && Clean(fault, start, ScanOps(x, rs, strobe))
    requires Aborted(fault, start + |ScanOps(x, rs, strobe)|, issued, ColumnOps(x, rs, strobe), error)
    ensures Aborted(fault, start, ScanOps(x, rs, strobe) + issued, ScanOps(cs, rs, strobe), error)
    ensures !Clean(fault, start, ScanOps(cs, rs, strobe))
  {
    AbortedAfter(fault, start, ScanOps(x, rs, strobe), issued, ColumnOps(x, rs, strobe), ScanOps(x + 1, rs, strobe), error);
    ScanPrefix(x + 1, cs, rs, strobe);
    AbortedWithin(fault, start, ScanOps(x, rs, strobe) + issued, ScanOps(x + 1, rs, strobe), ScanOps(cs, rs, strobe), error);
    AbortedSpoils(fault, start, ScanOps(x, rs, strobe) + issued, ScanOps(cs, rs, strobe), error);
  }

  /** A fault while sampling column `x` aborts its strobed column too. */
  lemma SampleAborts<E>(fault: (nat, PinOp) -> Option<E>, start: nat, x: nat, rs: nat, strobe: bool,
                        issued: seq<PinOp>, error: E)
    requires Aborted(fault, start, issued, ColumnOps(x, rs, false), error)
    ensures Aborted(fault, start, issued, ColumnOps(x, rs, strobe), error)
  {
    StrobedColumn(x, rs);
  }

  /** A fault on the `set_low` that ends a clean strobed column aborts that column. */
  lemma ReleaseAborts<E>(fault: (nat, PinOp) -> Option<E>, start: nat, x: nat, rs: nat, column: seq<PinOp>, error: E)
    requires column == ColumnOps(x, rs, false) && Clean(fault, start, column)
    requires fault(start + |column|, DriveLow(x)) == Some(error)
    ensures Aborted(fault, start, column + [DriveLow(x)], ColumnOps(x, rs, true), error)
  {
    StrobedColumn(x, rs);
    assert (column + [DriveLow(x)])[..|column|] == column;
  }

  // ---------------------------------------------------------------------------------------------
  // What the scan reads from a diode matrix

  /** With a single column driven high, a wired matrix reads exactly that column's switches. */
  lemma WiredSingleColumn(closed: seq<seq<bool>>, levels: seq<bool>, x: nat, y: nat)
    requires y < |closed| && x < |closed[y]| && x < |levels|
    requires forall c :: 0 <= c < |levels| ==> (levels[c] <==> c == x)
    ensures Wired(closed)(HighSet(levels), y) == closed[y][x]
  {
    assert x in HighSet(levels);
    assert HighSet(levels) == {x};
  }

  /** The scan as written, started with every column low (as `new` leaves them): the cell for
      column `x` of row `y` reads high when ANY switch of row `y` in columns `0 .. x` is closed. */
  lemma AsWrittenScanCell(closed: seq<seq<bool>>, cs: nat, x: nat, y: nat)
    requires y < |closed| && |closed[y]| == cs && x < cs
    ensures Wired(closed)(HighSet(DrivenBelow(seq(cs, _ => false), x + 1)), y)
      <==> exists c :: 0 <= c <= x && closed[y][c]
  {
    var high := HighSet(DrivenBelow(seq(cs, _ => false), x + 1));
    assert forall c :: c in high <==> 0 <= c <= x;
  }

  /** A ghost key: with two columns and only switch (0, 0) closed, the scan as written reports the
      open switch (0, 1) as pressed, because column 0 is still high when column 1 is sampled. */
  lemma AsWrittenScanGhostKey()
    ensures var closed := [[true, false]];
      !closed[0][1] && Wired(closed)(HighSet(DrivenBelow([false, false], 2)), 0)
  {
    assert 0 in HighSet(DrivenBelow([false, false], 2));
  }

  /** Every later poll starts with all columns high (a successful poll leaves them so), and then
      every cell of row `y` reads the same: whether any switch of row `y` is closed. */
  lemma AsWrittenRepeatScanCell(closed: seq<seq<bool>>, cs: nat, x: nat, y: nat)
    requires y < |closed| && |closed[y]| == cs && x < cs
    ensures Wired(closed)(HighSet(DrivenBelow(seq(cs, _ => true), x + 1)), y)
      <==> exists c :: 0 <= c < cs && closed[y][c]
  {
    var high := HighSet(DrivenBelow(seq(cs, _ => true), x + 1));
    assert forall c :: c in high <==> 0 <= c < cs;
  }

  /** The strobed scan started with every column low reads exactly switch (y, x) into cell [y][x]. */
  lemma StrobedScanCell(closed: seq<seq<bool>>, cs: nat, x: nat, y: nat)
    requires y < |closed| && |closed[y]| == cs && x < cs
    ensures Wired(closed)(HighSet(Strobing(seq(cs, _ => false), x)), y) == closed[y][x]
  {
    WiredSingleColumn(closed, Strobing(seq(cs, _ => false), x), x, y);
  }

  // ---------------------------------------------------------------------------------------------

  /** `Matrix`: the column and row pins of the switch matrix. */
  class Matrix<E> {
    /** `cols: [C; CS]`, as the level each column pin is driven to (`true` = high). */
    var cols: seq<bool>
    /** `rows: [R; RS]`, as the number of row pins. */
    const rows: nat
    /** The level of row pin `y` when the columns in the set are driven high. */
    const sense: (set<nat>, nat) -> bool
    /** Whether the pin operation at a position of the log fails, and with which error. */
    const fault: (nat, PinOp) -> Option<E>
    /** Every pin operation issued so far, in order. */
    var log: seq<PinOp>

    /** `Self { cols, rows }`: takes the pins as they are. */
    constructor (cols: seq<bool>, rows: nat, sense: (set<nat>, nat) -> bool, fault: (nat, PinOp) -> Option<E>)
      ensures this.cols == cols && this.rows == rows && this.sense == sense && this.fault == fault
      ensures log == []
    {
      this.cols := cols;
      this.rows := rows;
      this.sense := sense;
      this.fault := fault;
      log := [];
    }

    /** `set_low` on column pin `c`. */
    method SetLow(c: nat) returns (o: Outcome<E>)
      requires c < |cols|
      modifies this
      ensures log == old(log) + [DriveLow(c)]
      ensures o == if fault(|old(log)|, DriveLow(c)).Some? then Fail(fault(|old(log)|, DriveLow(c)).value) else Pass
      ensures cols == if o.Pass? then Step(old(cols), DriveLow(c)) else old(cols)
    {
      var e := fault(|log|, DriveLow(c));
      log := log + [DriveLow(c)];
      if e.Some? {
        return Fail(e.value);
      }
      cols := cols[c := false];
      return Pass;
    }

    /** `set_high` on column pin `c`. */
    method SetHigh(c: nat) returns (o: Outcome<E>)
      requires c < |cols|
      modifies this
      ensures log == old(log) + [DriveHigh(c)]
      ensures o == if fault(|old(log)|, DriveHigh(c)).Some? then Fail(fault(|old(log)|, DriveHigh(c)).value) else Pass
      ensures cols == if o.Pass? then Step(old(cols), DriveHigh(c)) else old(cols)
    {
      var e := fault(|log|, DriveHigh(c));
      log := log + [DriveHigh(c)];
      if e.Some? {
        return Fail(e.value);
      }
      cols := cols[c := true];
      return Pass;
    }

    /** `is_high` on row pin `y`. */
    method IsHigh(y: nat) returns (r: Result<bool, E>)
      requires y < rows
      modifies this`log
      ensures log == old(log) + [ReadRow(y)]
      ensures r == if fault(|old(log)|, ReadRow(y)).Some? then Failure(fault(|old(log)|, ReadRow(y)).value)
                   else Success(sense(HighSet(cols), y))
    {
      var e := fault(|log|, ReadRow(y));
      log := log + [ReadRow(y)];
      if e.Some? {
        return Failure(e.value);
      }
      return Success(sense(HighSet(cols), y));
    }

    /** `Matrix::new`: builds the matrix, then drives every column low in index order; the first
        pin error is returned instead of the matrix. */
    static method New(cols: seq<bool>, rows: nat, sense: (set<nat>, nat) -> bool, fault: (nat, PinOp) -> Option<E>)
      returns (r: Result<Matrix<E>, E>)
      ensures r.Success? <==> Clean(fault, 0, ReleaseOps(|cols|))
      ensures r.Success? ==>
        fresh(r.value) && r.value.log == ReleaseOps(|cols|) && r.value.cols == seq(|cols|, _ => false) &&
        r.value.rows == rows && r.value.sense == sense && r.value.fault == fault
      ensures r.Failure? ==>
        exists c :: 0 <= c < |cols| && Clean(fault, 0, ReleaseOps(c)) && fault(c, DriveLow(c)) == Some(r.error)
    {
      var m := new Matrix(cols, rows, sense, fault);
      var c := 0;
      while c < |cols|
        invariant 0 <= c <= |cols| == |m.cols|
        invariant m.log == ReleaseOps(c) && Clean(fault, 0, ReleaseOps(c))
        invariant m.cols == seq(|cols|, i requires 0 <= i < |cols| => if i < c then false else cols[i])
        invariant m.rows == rows && m.sense == sense && m.fault == fault && fresh(m)
      {
        var o := m.SetLow(c);
        if o.Fail? {
          assert ReleaseOps(|cols|)[c] == DriveLow(c);
          return Failure(o.error);
        }
        assert ReleaseOps(c + 1) == ReleaseOps(c) + [DriveLow(c)];
        c := c + 1;
      }
      return Success(m);
    }

    /** `grid` once rows `0 .. upto - 1` have been sampled for column `x` with the columns at
        `levels`: a row that reads high sets its cell in column `x`. */
    function Mark(grid: seq<seq<bool>>, x: nat, levels: seq<bool>, upto: nat): (marked: seq<seq<bool>>)
      requires IsGrid(grid, rows, |levels|) && x < |levels| && upto <= rows
      ensures IsGrid(marked, rows, |levels|)
    {
      if upto == 0 then grid
      else
        var before := Mark(grid, x, levels, upto - 1);
        if sense(HighSet(levels), upto - 1) then before[upto - 1 := before[upto - 1][x := true]] else before
    }

    /** Sampling rows `0 .. upto - 1` of column `x` sets exactly the cells of those rows in column
        `x` that read high, and leaves every other cell as it was. */
    lemma {:induction false} MarkCells(grid: seq<seq<bool>>, x: nat, levels: seq<bool>, upto: nat)
      requires IsGrid(grid, rows, |levels|) && x < |levels| && upto <= rows
      ensures forall y, c :: 0 <= y < rows && 0 <= c < |levels| ==>
        Mark(grid, x, levels, upto)[y][c] == if c == x && y < upto then grid[y][x] || sense(HighSet(levels), y) else grid[y][c]
    {
      if upto > 0 {
        MarkCells(grid, x, levels, upto - 1);
      }
    }

    /** The grid once a scan started at column levels `levels` has sampled columns `0 .. x - 1`. */
    function Scanned(levels: seq<bool>, x: nat, strobe: bool): (grid: seq<seq<bool>>)
      requires x <= |levels|
      ensures IsGrid(grid, rows, |levels|)
    {
      if x == 0 then seq(rows, _ => seq(|levels|, _ => false))
      else Mark(Scanned(levels, x - 1, strobe), x - 1, Seen(levels, x - 1, strobe), rows)
    }

    /** Cell `[y][c]` of the grid is set once column `c` has been sampled and row `y` read high
        while it was: with the levels `Seen` gives for it. */
    lemma {:induction false} ScannedCells(levels: seq<bool>, x: nat, strobe: bool)
      requires x <= |levels|
      ensures forall y, c {:trigger Scanned(levels, x, strobe)[y][c]} :: 0 <= y < rows && 0 <= c < |levels| ==>
        Scanned(levels, x, strobe)[y][c] == (c < x && sense(HighSet(Seen(levels, c, strobe)), y))
    {
      if x > 0 {
        var before := Scanned(levels, x - 1, strobe);
        ScannedCells(levels, x - 1, strobe);
        MarkCells(before, x - 1, Seen(levels, x - 1, strobe), rows);
        forall y, c | 0 <= y < rows && 0 <= c < |levels|
          ensures Scanned(levels, x, strobe)[y][c] == (c < x && sense(HighSet(Seen(levels, c, strobe)), y))
        {
          assert Scanned(levels, x, strobe) == Mark(before, x - 1, Seen(levels, x - 1, strobe), rows);
          assert before[y][c] == (c < x - 1 && sense(HighSet(Seen(levels, c, strobe)), y));
        }
      } else {
        forall y, c | 0 <= y < rows && 0 <= c < |levels|
          ensures !Scanned(levels, x, strobe)[y][c]
        {
          assert Scanned(levels, x, strobe)[y] == seq(|levels|, _ => false);
        }
      }
    }

    /** The row loop of `poll` for column `x`: `is_high` on every row in index order, setting cell
        `[y][x]` of `grid` when row `y` reads high. The first pin error aborts. `trace` is the run of
        pin operations issued. */
    method SampleRows(x: nat, grid: seq<seq<bool>>) returns (r: Result<seq<seq<bool>>, E>, ghost trace: seq<PinOp>)
      requires x < |cols| && IsGrid(grid, rows, |cols|)
      modifies this`log
      ensures log == old(log) + trace
      ensures r.Success? ==> trace == Reads(rows) && Clean(fault, |old(log)|, trace)
      ensures r.Failure? ==> Aborted(fault, |old(log)|, trace, Reads(rows), r.error)
      ensures r.Success? ==> r.value == Mark(grid, x, cols, rows)
    {
      trace := [];
      var result := grid;
      var y := 0;
      while y < rows
        invariant 0 <= y <= rows && cols == old(cols)
        invariant log == old(log) + trace && trace == Reads(y) && Clean(fault, |old(log)|, trace)
        invariant result == Mark(grid, x, cols, y)
      {
        var level := IsHigh(y);
        if level.Failure? {
          ReadAborts(fault, |old(log)|, y, rows, level.error);
          return Failure(level.error), trace + [ReadRow(y)];
        }
        ReadClean(fault, |old(log)|, y, rows);
        trace := trace + [ReadRow(y)];
        if level.value {
          result := result[y := result[y][x := true]];
        }
        y := y + 1;
      }
      return Success(result), trace;
    }

    /** One column of `poll`: `set_high` on column `x`, then the row loop. */
    method SampleColumn(x: nat, grid: seq<seq<bool>>) returns (r: Result<seq<seq<bool>>, E>, ghost trace: seq<PinOp>)
      requires x < |cols| && IsGrid(grid, rows, |cols|)
      modifies this
      ensures log == old(log) + trace && |cols| == |old(cols)|
      ensures r.Success? ==>
        trace == ColumnOps(x, rows, false) && Clean(fault, |old(log)|, trace) && cols == Step(old(cols), DriveHigh(x))
      ensures r.Failure? ==> Aborted(fault, |old(log)|, trace, ColumnOps(x, rows, false), r.error)
      ensures r.Success? ==> r.value == Mark(grid, x, cols, rows)
    {
      assert ColumnOps(x, rows, false) == [DriveHigh(x)] + Reads(rows);
      var o := SetHigh(x);
      trace := [DriveHigh(x)];
      if o.Fail? {
        assert trace[..0] == [];
        return Failure(o.error), trace;
      }
      ghost var rowTrace;
      r, rowTrace := SampleRows(x, grid);
      if r.Failure? {
        AbortedAfter(fault, |old(log)|, trace, rowTrace, Reads(rows), ColumnOps(x, rows, false), r.error);
      } else {
        CleanAppend(fault, |old(log)|, trace, rowTrace);
      }
      trace := trace + rowTrace;
    }

    /** One column of a scan: `set_high` on column `x`, the row loop, and, when `strobe`, `set_low`
        on column `x` again. */
    method ScanColumn(x: nat, grid: seq<seq<bool>>, strobe: bool) returns (r: Result<seq<seq<bool>>, E>, ghost trace: seq<PinOp>)
      requires x < |cols| && IsGrid(grid, rows, |cols|)
      modifies this
      ensures log == old(log) + trace && |cols| == |old(cols)|
      ensures r.Success? ==> trace == ColumnOps(x, rows, strobe) && Clean(fault, |old(log)|, trace)
      ensures r.Success? ==> strobe ==> cols == Step(Step(old(cols), DriveHigh(x)), DriveLow(x))
      ensures r.Success? ==> !strobe ==> cols == Step(old(cols), DriveHigh(x))
      ensures r.Success? ==> r.value == Mark(grid, x, Step(old(cols), DriveHigh(x)), rows)
      ensures r.Failure? ==> Aborted(fault, |old(log)|, trace, ColumnOps(x, rows, strobe), r.error)
    {
      ghost var sampled;
      r, sampled := SampleColumn(x, grid);
      trace := sampled;
      if r.Failure? {
        SampleAborts(fault, |old(log)|, x, rows, strobe, sampled, r.error);
        return;
      }
      if strobe {
        var o := SetLow(x);
        trace := sampled + [DriveLow(x)];
        if o.Fail? {
          ReleaseAborts(fault, |old(log)|, x, rows, sampled, o.error);
          return Failure(o.error), trace;
        }
        StrobedColumn(x, rows);
        CleanAppend(fault, |old(log)|, sampled, [DriveLow(x)]);
      }
    }

    /** One pass of the column loop of a scan that started with log `before` and column levels
        `levels` and has run clean over columns `0 .. x - 1`. `issued` is every pin operation of
        the scan so far; a fault aborts the whole scan. */
    method ScanStep(x: nat, grid: seq<seq<bool>>, strobe: bool, ghost before: seq<PinOp>, ghost levels: seq<bool>)
      returns (r: Result<seq<seq<bool>>, E>, ghost issued: seq<PinOp>)
      requires x < |cols| == |levels|
      requires log == before + ScanOps(x, rows, strobe) && Clean(fault, |before|, ScanOps(x, rows, strobe))
      requires cols == Before(levels, x, strobe) && grid == Scanned(levels, x, strobe)
      modifies this
      ensures log == before + issued && |cols| == |old(cols)|
      ensures r.Success? ==> issued == ScanOps(x + 1, rows, strobe) && Clean(fault, |before|, issued)
      ensures r.Success? ==> cols == Before(levels, x + 1, strobe) && r.value == Scanned(levels, x + 1, strobe)
      ensures r.Failure? ==>
        Aborted(fault, |before|, issued, ScanOps(|cols|, rows, strobe), r.error) &&
        !Clean(fault, |before|, ScanOps(|cols|, rows, strobe))
    {
      ghost var done, mid, column := ScanOps(x, rows, strobe), |log|, [];
      assert mid == |before| + |done|;
      r, column := ScanColumn(x, grid, strobe);
      issued := done + column;
      assert log == before + issued by {
        assert (before + done) + column == before + (done + column);
      }
      if r.Failure? {
        ScanAborts(fault, |before|, x, |cols|, rows, strobe, column, r.error);
        return;
      }
      ScanNext(fault, |before|, x, rows, strobe, column);
    }

    /** The column loop shared by `Poll` and `PollStrobed`. */
    method Scan(strobe: bool) returns (r: Result<seq<seq<bool>>, E>, ghost trace: seq<PinOp>)
      modifies this
      ensures log == old(log) + trace && |cols| == |old(cols)|
      ensures r.Success? <==> Clean(fault, |old(log)|, ScanOps(|cols|, rows, strobe))
      ensures r.Success? ==> trace == ScanOps(|cols|, rows, strobe) && cols == Before(old(cols), |cols|, strobe)
      ensures r.Failure? ==> Aborted(fault, |old(log)|, trace, ScanOps(|cols|, rows, strobe), r.error)
      ensures r.Success? ==> r.value == Scanned(old(cols), |cols|, strobe)
    {
      trace := [];
      var width := |cols|;
      var result := seq(rows, _ => seq(width, _ => false));
      var x := 0;
      while x < |cols|
        invariant 0 <= x <= |cols| == |old(cols)|
        invariant log == old(log) + trace && trace == ScanOps(x, rows, strobe) && Clean(fault, |old(log)|, trace)
        invariant cols == Before(old(cols), x, strobe) && result == Scanned(old(cols), x, strobe)
      {
        var column;
        column, trace := ScanStep(x, result, strobe, old(log), old(cols));
        if column.Failure? {
          return Failure(column.error), trace;
        }
        result := column.value;
        x := x + 1;
      }
      return Success(result), trace;
    }

    /** `poll` as written: for each column in index order, `set_high` it and sample every row; the
        cell `[y][x]` is set when row `y` reads high while column `x` is the newest column driven.
        No column is driven low again. The first pin error aborts the scan; a driver that fails
        leaves its pin's level unspecified, so after an error only the number of columns is stated. */
    method Poll() returns (r: Result<seq<seq<bool>>, E>, ghost trace: seq<PinOp>)
      modifies this
      ensures log == old(log) + trace && |cols| == |old(cols)|
      ensures r.Success? <==> Clean(fault, |old(log)|, ScanOps(|cols|, rows, false))
      ensures r.Success? ==> trace == ScanOps(|cols|, rows, false)
      ensures r.Failure? ==> Aborted(fault, |old(log)|, trace, ScanOps(|cols|, rows, false), r.error)
      ensures r.Success? ==> cols == Levels(old(cols), trace) && forall c :: 0 <= c < |cols| ==> cols[c]
      ensures r.Success? ==>
        IsGrid(r.value, rows, |cols|) &&
        forall y, x :: 0 <= y < rows && 0 <= x < |cols| ==>
          r.value[y][x] == sense(HighSet(DrivenBelow(old(cols), x + 1)), y)
    {
      r, trace := Scan(false);
      if r.Success? {
        ScanLevels(old(cols), |cols|, rows);
        BeforeClosed(old(cols), |cols|, false);
        ScannedCells(old(cols), |cols|, false);
        forall x | 0 <= x < |cols|
          ensures Seen(old(cols), x, false) == DrivenBelow(old(cols), x + 1)
        {
          SeenClosed(old(cols), x, false);
        }
      }
    }

    /** `poll` as evidently intended, one column driven at a time: as `Poll`, but each column is
        driven low again with `set_low`, its error propagated, once its rows are sampled. As for
        `Poll`, after an error only the number of columns is stated. */
    method PollStrobed() returns (r: Result<seq<seq<bool>>, E>, ghost trace: seq<PinOp>)
      modifies this
      ensures log == old(log) + trace && |cols| == |old(cols)|
      ensures r.Success? <==> Clean(fault, |old(log)|, ScanOps(|cols|, rows, true))
      ensures r.Success? ==> trace == ScanOps(|cols|, rows, true)
      ensures r.Failure? ==> Aborted(fault, |old(log)|, trace, ScanOps(|cols|, rows, true), r.error)
      ensures r.Success? ==> cols == Levels(old(cols), trace) && forall c :: 0 <= c < |cols| ==> !cols[c]
      ensures r.Success? ==>
        IsGrid(r.value, rows, |cols|) &&
        forall y, x :: 0 <= y < rows && 0 <= x < |cols| ==>
          r.value[y][x] == sense(HighSet(Strobing(old(cols), x)), y)
    {
      r, trace := Scan(true);
      if r.Success? {
        StrobeScanLevels(old(cols), |cols|, rows);
        BeforeClosed(old(cols), |cols|, true);
        ScannedCells(old(cols), |cols|, true);
        forall x | 0 <= x < |cols|
          ensures Seen(old(cols), x, true) == Strobing(old(cols), x)
        {
          SeenClosed(old(cols), x, true);
        }
      }
    }
  }

  // ---------------------------------------------------------------------------------------------
  // `new` followed by `poll` on a concrete matrix

  /** A 1 x 2 diode matrix with only switch (0, 0) closed, whose pins never fail, polled as
      written straight after `new`: both cells of the row read pressed, the open switch (0, 1)
      included. */
  method AsWrittenGhostKeyPoll() returns (grid: seq<seq<bool>>)
    ensures grid == [[true, true]]
  {
    var closed := [[true, false]];
    var noFaults: (nat, PinOp) -> Option<nat> := (_, _) => None;
    var made := Matrix.New([true, true], 1, Wired(closed), noFaults);
    assert made.Success?;
    var m := made.value;
    ghost var trace;
    var polled;
    polled, trace := m.Poll();
    assert polled.Success?;
    assert polled.value[0][0] == Wired(closed)(HighSet(DrivenBelow([false, false], 1)), 0);
    assert 0 in HighSet(DrivenBelow([false, false], 1));
    assert polled.value[0][1] == Wired(closed)(HighSet(DrivenBelow([false, false], 2)), 0);
    AsWrittenScanGhostKey();
    assert polled.value[0] == [true, true];
    grid := polled.value;
  }

  /** The same matrix scanned one column at a time: only the closed switch (0, 0) reads pressed. */
  method StrobedPollReadsSwitches() returns (grid: seq<seq<bool>>)
    ensures grid == [[true, false]]
  {
    var closed := [[true, false]];
    var noFaults: (nat, PinOp) -> Option<nat> := (_, _) => None;
    var made := Matrix.New([true, true], 1, Wired(closed), noFaults);
    assert made.Success?;
    var m := made.value;
    ghost var trace;
    var polled;
    polled, trace := m.PollStrobed();
    assert polled.Success?;
    StrobedScanCell(closed, 2, 0, 0);
    StrobedScanCell(closed, 2, 1, 0);
    assert polled.value[0] == [true, false];
    grid := polled.value;
  }
}
