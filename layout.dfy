/** The layout-arrangement transform of the keyboard (src/layout.rs): keys authored in visual reading
    order across the staggered drawing (rows of 15, 15, 14, 14 and 7 keys) are placed into the
    5-row, 13-column wiring grid that the firmware indexes by (row, column). */
module Layout {
  import opened Permutations

  /** keyberon's `Action`. Only the starting table of `convert_layers` creates `NoOp`; the
      arrangement itself creates none and moves every action unchanged, so every other action is
      opaque to it and is told apart only by an identifier. */
  datatype Action = NoOp | Act(id: nat)

  const Rows: nat := 5
  const Cols: nat := 13
  /** Number of keys authored per layer: 15 + 15 + 14 + 14 + 7. */
  const Keys: nat := 65

  /** `Wiring[r][c]` is the reading-order index of the authored key that `arrange_layer` places at
      row `r`, column `c`, exactly as its array literal lists them. */
  const Wiring: seq<seq<nat>> := [
    [2, 3, 4, 5, 6, 7, 8, 9, 10, 11, 12, 13, 14],
    [1, 17, 18, 19, 20, 21, 23, 24, 25, 26, 27, 28, 29],
    [16, 32, 33, 34, 35, 36, 22, 38, 39, 40, 41, 42, 43],
    [0, 31, 45, 46, 47, 48, 49, 37, 51, 53, 54, 56, 57],
    [15, 30, 44, 58, 59, 60, 61, 50, 62, 52, 63, 55, 64]
  ]

  /** The inverse of `Wiring`: `Placement[i / Cols][i % Cols]` is the (row, column) cell where the
      authored key `i` lands (65 entries, listed 13 to a line). */
  const Placement: seq<seq<(nat, nat)>> := [
    [(3, 0), (1, 0), (0, 0), (0, 1), (0, 2), (0, 3), (0, 4), (0, 5), (0, 6), (0, 7), (0, 8), (0, 9), (0, 10)],
    [(0, 11), (0, 12), (4, 0), (2, 0), (1, 1), (1, 2), (1, 3), (1, 4), (1, 5), (2, 6), (1, 6), (1, 7), (1, 8)],
    [(1, 9), (1, 10), (1, 11), (1, 12), (4, 1), (3, 1), (2, 1), (2, 2), (2, 3), (2, 4), (2, 5), (3, 7), (2, 7)],
    [(2, 8), (2, 9), (2, 10), (2, 11), (2, 12), (4, 2), (3, 2), (3, 3), (3, 4), (3, 5), (3, 6), (4, 7), (3, 8)],
    [(4, 9), (3, 9), (3, 10), (4, 11), (3, 11), (3, 12), (4, 3), (4, 4), (4, 5), (4, 6), (4, 8), (4, 10), (4, 12)]
  ]

  predicate IsCell(r: int, c: int)
  {
    0 <= r < Rows && 0 <= c < Cols
  }

  /** A layer of the wiring grid: `[[Action; 13]; 5]`. */
  predicate IsLayer(layer: seq<seq<Action>>)
  {
    |layer| == Rows && forall r :: 0 <= r < Rows ==> |layer[r]| == Cols
  }

  /** The authored key read into cell (r, c). */
  function Source(r: int, c: int): (i: nat)
    requires IsCell(r, c)
    ensures i < Keys
  {
    Wiring[r][c]
  }

  /** The cell that the authored key `i` is placed in. */
  function Target(i: int): (cell: (nat, nat))
    requires 0 <= i < Keys
    ensures IsCell(cell.0, cell.1)
  {
    Placement[i / Cols][i % Cols]
  }

  /** `Source` and `Target` are inverse: `arrange_layer` reads every authored index exactly once
      across its 65 cells, and no two cells read the same index. */
  lemma WiringIsBijection()
    ensures forall r, c :: IsCell(r, c) ==> Target(Source(r, c)) == (r, c)
    ensures forall i :: 0 <= i < Keys ==> Source(Target(i).0, Target(i).1) == i
  {
    TargetAfterSource();
    SourceAfterTarget();
  }

  lemma TargetAfterSource()
    ensures forall r, c :: IsCell(r, c) ==> Target(Source(r, c)) == (r, c)
  {
    forall r, c | IsCell(r, c)
      ensures Target(Source(r, c)) == (r, c)
    {
      TargetAfterSourceAt(r, c);
    }
  }

  /** One cell at a time, with the row fixed in each branch so that only that row's keys are looked up. */
  lemma TargetAfterSourceAt(r: int, c: int)
    requires IsCell(r, c)
    ensures Target(Source(r, c)) == (r, c)
  {
    var i := Wiring[r][c];
    if r == 0 {
      assert Target(i) == Placement[i / 13][i % 13];
    } else if r == 1 {
      assert Target(i) == Placement[i / 13][i % 13];
    } else if r == 2 {
      assert Target(i) == Placement[i / 13][i % 13];
    } else if r == 3 {
      assert Target(i) == Placement[i / 13][i % 13];
    } else {
      assert Target(i) == Placement[i / 13][i % 13];
    }
  }

  lemma SourceAfterTarget()
    ensures forall i :: 0 <= i < Keys ==> Source(Target(i).0, Target(i).1) == i
  {
    forall i | 0 <= i < Keys
      ensures Source(Target(i).0, Target(i).1) == i
    {
      var cell := Placement[i / 13][i % 13];
      assert Target(i) == cell;
    }
  }

  /** Every authored index is read by exactly one cell. */
  lemma EachKeyReadOnce(i: nat)
    requires i < Keys
    ensures exists r, c :: IsCell(r, c) && Source(r, c) == i
    ensures forall r, c, r', c' :: IsCell(r, c) && IsCell(r', c') && Source(r, c) == i && Source(r', c') == i
              ==> r == r' && c == c'
  {
    WiringIsBijection();
    var cell := Target(i);
    assert Source(cell.0, cell.1) == i;
  }

  /** `arrange_layer`: the layer whose cell (r, c) holds authored key `Source(r, c)`. */
  function ArrangeLayer(input: seq<Action>): (layer: seq<seq<Action>>)
    requires |input| == Keys
    ensures IsLayer(layer)
  {
    seq(Rows, r requires 0 <= r < Rows => seq(Cols, c requires 0 <= c < Cols => input[Source(r, c)]))
  }

  /** Reads a wiring-grid layer back into authored reading order. */
  function Unarrange(layer: seq<seq<Action>>): (input: seq<Action>)
    requires IsLayer(layer)
    ensures |input| == Keys
  {
    seq(Keys, i requires 0 <= i < Keys => layer[Target(i).0][Target(i).1])
  }

  /** The cells of a layer in row-major order. */
  function Flatten(layer: seq<seq<Action>>): (cells: seq<Action>)
    requires IsLayer(layer)
    ensures |cells| == Rows * Cols
  {
    seq(Rows * Cols, k requires 0 <= k < Rows * Cols => layer[k / Cols][k % Cols])
  }

  /** Round trip: reading an arranged layer back gives exactly the authored keys. */
  lemma RoundTrip(input: seq<Action>)
    requires |input| == Keys
    ensures Unarrange(ArrangeLayer(input)) == input
  {
    SourceAfterTarget();
  }

  /** The other round trip: every layer is the arrangement of its read-back, so `ArrangeLayer` is onto. */
  lemma RoundTripLayer(layer: seq<seq<Action>>)
    requires IsLayer(layer)
    ensures ArrangeLayer(Unarrange(layer)) == layer
  {
    var back := ArrangeLayer(Unarrange(layer));
    forall r, c | 0 <= r < Rows && 0 <= c < Cols
      ensures back[r][c] == layer[r][c]
    {
      TargetAfterSourceAt(r, c);
    }
    forall r | 0 <= r < Rows
      ensures back[r] == layer[r]
    {
    }
  }

  /** `ArrangeLayer` is one-to-one: different authored layers give different wiring layers. */
  lemma ArrangeInjective(a: seq<Action>, b: seq<Action>)
    requires |a| == Keys && |b| == Keys
    ensures ArrangeLayer(a) == ArrangeLayer(b) <==> a == b
  {
    if ArrangeLayer(a) == ArrangeLayer(b) {
      RoundTrip(a);
      RoundTrip(b);
    }
  }

  /** `Source` on row-major cell numbers. */
  function FlatSource(): (p: seq<nat>)
    ensures |p| == Keys
  {
    seq(Keys, k requires 0 <= k < Keys => Source(k / Cols, k % Cols))
  }

  /** `Target` as row-major cell numbers. */
  function FlatTarget(): (q: seq<nat>)
    ensures |q| == Keys
  {
    seq(Keys, i requires 0 <= i < Keys => Cols * Target(i).0 + Target(i).1)
  }

  lemma FlatWiringInverse()
    ensures Inverse(FlatSource(), FlatTarget())
  {
    FlatTargetAfterSource();
    FlatSourceAfterTarget();
  }

  lemma FlatTargetAfterSource()
    ensures forall k :: 0 <= k < Keys ==> FlatSource()[k] < Keys && FlatTarget()[FlatSource()[k]] == k
  {
    forall k | 0 <= k < Keys
      ensures FlatTarget()[FlatSource()[k]] == k
    {
      var r, c := k / Cols, k % Cols;
      assert FlatSource()[k] == Source(r, c);
      TargetAfterSourceAt(r, c);
    }
  }

  lemma FlatSourceAfterTarget()
    ensures forall i :: 0 <= i < Keys ==> FlatTarget()[i] < Keys && FlatSource()[FlatTarget()[i]] == i
  {
    SourceAfterTarget();
    forall i | 0 <= i < Keys
      ensures FlatTarget()[i] < Keys && FlatSource()[FlatTarget()[i]] == i
    {
      var cell := Target(i);
      var k := FlatTarget()[i];
      assert k == Cols * cell.0 + cell.1;
      assert k / Cols == cell.0 && k % Cols == cell.1;
    }
  }

  /** Element preservation: the 65 cells hold exactly the authored actions, none defaulted to
      `NoOp`, none duplicated, none dropped. */
  lemma ArrangePreservesElements(input: seq<Action>)
    requires |input| == Keys
    ensures multiset(Flatten(ArrangeLayer(input))) == multiset(input)
  {
    FlatWiringInverse();
    assert Rearranged(Flatten(ArrangeLayer(input)), input, FlatSource());
    RearrangedMultiset(Flatten(ArrangeLayer(input)), input, FlatSource(), FlatTarget());
  }

  /** Row 0 of the wiring grid is the authored keys 2 through 14, in order. */
  lemma ArrangeRowZero(input: seq<Action>)
    requires |input| == Keys
    ensures ArrangeLayer(input)[0] == input[2..15]
  {
  }

  /** The irregular placements of the staggered drawing. */
  lemma IrregularPlacements(input: seq<Action>)
    requires |input| == Keys
    ensures var out := ArrangeLayer(input);
      out[1][0] == input[1] && out[2][0] == input[16] && out[3][0] == input[0] && out[4][0] == input[15] &&
      out[2][6] == input[22] && out[3][7] == input[37] && out[4][7] == input[50] &&
      out[4][9] == input[52] && out[4][11] == input[55]
  {
  }

  /** What every arranged layer keeps: the authored keys read back in order, and the same multiset of actions. */
  lemma ArrangeFaithful(input: seq<Action>)
    requires |input| == Keys
    ensures Unarrange(ArrangeLayer(input)) == input
    ensures multiset(Flatten(ArrangeLayer(input))) == multiset(input)
  {
    RoundTrip(input);
    ArrangePreservesElements(input);
  }

  /** A layer with every cell `NoOp`: `[[Action::NoOp; 13]; 5]`. */
  function NoOpLayer(): (layer: seq<seq<Action>>)
    ensures IsLayer(layer)
  {
    seq(Rows, _ => seq(Cols, _ => NoOp))
  }

  /** `convert_layers` as evidently intended: start from a table of `L` layers that are all `NoOp`
      and overwrite layer `i` with `arrange_layer(input[i])` for `i` from 0 while `i < L`. */
  method ConvertLayers(input: seq<seq<Action>>) returns (layers: seq<seq<seq<Action>>>)
    requires forall i :: 0 <= i < |input| ==> |input[i]| == Keys
    ensures |layers| == |input|
    ensures forall i :: 0 <= i < |input| ==> layers[i] == ArrangeLayer(input[i])
    ensures forall i :: 0 <= i < |input| ==> IsLayer(layers[i]) && Unarrange(layers[i]) == input[i]
    ensures forall i :: 0 <= i < |input| ==> multiset(Flatten(layers[i])) == multiset(input[i])
  {
    var start := NoOpTable(|input|);
    var newLayers := new seq<seq<Action>>[|input|](j requires 0 <= j < |input| => start[j]);
    var i := 0;
    while i < |input|
      invariant 0 <= i <= |input|
      invariant forall j :: 0 <= j < i ==> newLayers[j] == ArrangeLayer(input[j])
      invariant forall j :: i <= j < |input| ==> newLayers[j] == start[j]
    {
      newLayers[i] := ArrangeLayer(input[i]);
      i := i + 1;
    }
    layers := newLayers[..];
    forall j | 0 <= j < |input|
      ensures Unarrange(layers[j]) == input[j] && multiset(Flatten(layers[j])) == multiset(input[j])
    {
      ArrangeFaithful(input[j]);
    }
  }

  /** Where the loop of `convert_layers`, as the source writes it, stands after some passes. */
  datatype LoopState =
    | Looping(i: nat, table: seq<seq<seq<Action>>>)
    | Exited(table: seq<seq<seq<Action>>>)
    | Panicked(index: nat)

  /** The table before the loop: `[[[Action::NoOp; 13]; 5]; L]`. */
  function NoOpTable(count: nat): (table: seq<seq<seq<Action>>>)
    ensures |table| == count
  {
    seq(count, _ => NoOpLayer())
  }

  /** One pass of the loop as written: test `i <= L`, then run `new_layers[i] = arrange_layer(input[i])`;
      `i` is bound by `let i = 0` and nothing changes it. An index out of range panics. */
  function AsWrittenPass(input: seq<seq<Action>>, s: LoopState): (next: LoopState)
    requires forall i :: 0 <= i < |input| ==> |input[i]| == Keys
    ensures next.Looping? ==> s.Looping? && next.i == s.i && |next.table| == |s.table|
    ensures !s.Looping? ==> next == s
  {
    match s
    case Looping(i, table) =>
      if !(i <= |input|) then Exited(table)
      else if i < |input| && i < |table| then Looping(i, table[i := ArrangeLayer(input[i])])
      else Panicked(i)
    case _ => s
  }

  /** The state of the loop as written after `passes` passes: while it loops, `i` is still 0. */
  function AsWrittenRun(input: seq<seq<Action>>, passes: nat): (s: LoopState)
    requires forall i :: 0 <= i < |input| ==> |input[i]| == Keys
    ensures s.Looping? ==> s.i == 0 && |s.table| == |input|
  {
    if passes == 0 then Looping(0, NoOpTable(|input|))
    else AsWrittenPass(input, AsWrittenRun(input, passes - 1))
  }

  /** With at least one layer the loop as written never exits: after every number of passes it is
      still at `i = 0`, whose guard `0 <= L` holds, rewriting layer 0 and never reaching layer 1. */
  lemma {:induction false} AsWrittenNeverExits(input: seq<seq<Action>>, passes: nat)
    requires forall i :: 0 <= i < |input| ==> |input[i]| == Keys
    requires |input| >= 1
    ensures AsWrittenRun(input, passes).Looping? && AsWrittenRun(input, passes).i == 0
    ensures AsWrittenRun(input, passes).table ==
      if passes == 0 then NoOpTable(|input|) else NoOpTable(|input|)[0 := ArrangeLayer(input[0])]
  {
    if passes > 0 {
      AsWrittenNeverExits(input, passes - 1);
    }
  }

  /** With no layers the loop as written indexes `input[0]`, which is `input[L]`: out of range. */
  lemma AsWrittenEmptyPanics()
    ensures AsWrittenRun([], 1) == Panicked(0)
  {
  }

  /** The loop with `i` advanced on every pass but the bound still `i <= L`: started inside the
      bound, it can only end in a panic. */
  function InclusiveBoundRun(input: seq<seq<Action>>, i: nat, table: seq<seq<seq<Action>>>): (s: LoopState)
    requires forall j :: 0 <= j < |input| ==> |input[j]| == Keys
    ensures i <= |input| ==> s.Panicked?
    decreases |input| + 1 - i
  {
    if !(i <= |input|) then Exited(table)
    else if i < |input| && i < |table| then InclusiveBoundRun(input, i + 1, table[i := ArrangeLayer(input[i])])
    else Panicked(i)
  }

  /** Advancing `i` alone does not repair the loop: the bound `i <= L` lets it reach `input[L]`,
      whatever `L` is, so it always panics there and never returns the table. */
  lemma {:induction false} InclusiveBoundPanics(input: seq<seq<Action>>, i: nat, table: seq<seq<seq<Action>>>)
    requires forall j :: 0 <= j < |input| ==> |input[j]| == Keys
    requires i <= |input| && |table| == |input|
    ensures InclusiveBoundRun(input, i, table) == Panicked(|input|)
    decreases |input| - i
  {
    if i < |input| {
      InclusiveBoundPanics(input, i + 1, table[i := ArrangeLayer(input[i])]);
    }
  }
}
