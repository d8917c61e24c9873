/** Instance lists: each instance is four 4-value rows (position, color, rotation,
    scale) with defaults for missing inputs, and adding instances to an entity appends
    their values to the ones already stored. */
module Instances {
  const DefaultPosition: seq<real> := [0.0, 0.0, 0.0, 0.0]
  const DefaultColor: seq<real> := [1.0, 1.0, 1.0, 1.0]
  const DefaultRotation: seq<real> := [0.0, 0.0, 0.0, 0.0]
  const DefaultScale: seq<real> := [1.0, 1.0, 1.0, 0.0]

  function Max(a: nat, b: nat): nat { if a < b then b else a }

  /** A row extended with zeros to at least four values; longer rows are kept whole. */
  function Padded(row: seq<real>): (r: seq<real>)
    ensures |r| == Max(4, |row|)
    ensures r[..|row|] == row
    ensures forall i :: |row| <= i < |r| ==> r[i] == 0.0
  {
    if |row| < 4 then row + seq(4 - |row|, _ => 0.0) else row
  }

  /** Padding an already padded row changes nothing. */
  lemma PaddedIdempotent(row: seq<real>)
    ensures Padded(Padded(row)) == Padded(row)
  {
  }

  /** Row `i` of an input list, padded, or the default when the list is shorter. */
  function RowOr(rows: seq<seq<real>>, i: nat, default: seq<real>): seq<real>
  {
    if i < |rows| then Padded(rows[i]) else default
  }

  /** No input list has any row. */
  predicate NoInputs(positions: seq<seq<real>>, colors: seq<seq<real>>,
                     rotations: seq<seq<real>>, scales: seq<seq<real>>)
  {
    |positions| == 0 && |colors| == 0 && |rotations| == 0 && |scales| == 0
  }

  /** The positions actually used: one default position when no list has a row. */
  function UsedPositions(positions: seq<seq<real>>, colors: seq<seq<real>>,
                         rotations: seq<seq<real>>, scales: seq<seq<real>>): seq<seq<real>>
  {
    if NoInputs(positions, colors, rotations, scales) then [DefaultPosition] else positions
  }

  /** The number of instances: the length of the longest list. */
  function InstanceCount(positions: seq<seq<real>>, colors: seq<seq<real>>,
                         rotations: seq<seq<real>>, scales: seq<seq<real>>): (n: nat)
    ensures n >= |positions| && n >= |colors| && n >= |rotations| && n >= |scales|
    ensures n == |positions| || n == |colors| || n == |rotations| || n == |scales|
  {
    Max(Max(|positions|, |colors|), Max(|rotations|, |scales|))
  }

  /** The rows of the first `n` instances: for each, its position, color, rotation and
      scale row in that order. */
  function Rows(positions: seq<seq<real>>, colors: seq<seq<real>>,
                rotations: seq<seq<real>>, scales: seq<seq<real>>, n: nat): (rows: seq<seq<real>>)
    ensures |rows| == 4 * n
    ensures forall i :: 0 <= i < n ==>
      rows[4 * i] == RowOr(positions, i, DefaultPosition) &&
      rows[4 * i + 1] == RowOr(colors, i, DefaultColor) &&
      rows[4 * i + 2] == RowOr(rotations, i, DefaultRotation) &&
      rows[4 * i + 3] == RowOr(scales, i, DefaultScale)
    ensures forall j :: 0 <= j < |rows| ==> |rows[j]| >= 4
  {
    if n == 0 then []
    else Rows(positions, colors, rotations, scales, n - 1)
         + [RowOr(positions, n - 1, DefaultPosition), RowOr(colors, n - 1, DefaultColor),
            RowOr(rotations, n - 1, DefaultRotation), RowOr(scales, n - 1, DefaultScale)]
  }

  /** The instance rows for the given lists. */
  function InstanceRows(positions: seq<seq<real>>, colors: seq<seq<real>>,
                        rotations: seq<seq<real>>, scales: seq<seq<real>>): seq<seq<real>>
  {
    var used := UsedPositions(positions, colors, rotations, scales);
    Rows(used, colors, rotations, scales, InstanceCount(used, colors, rotations, scales))
  }

  /** Builds the instance rows: when no list has a row, one default position stands in;
      then, for as many instances as the longest list has rows, each list's row (padded)
      or its default is appended. */
  method CreateInstances(positions: seq<seq<real>>, colors: seq<seq<real>>,
                         rotations: seq<seq<real>>, scales: seq<seq<real>>)
    returns (instances: seq<seq<real>>)
    ensures instances == InstanceRows(positions, colors, rotations, scales)
  {
    var used := positions;
    if |positions| == 0 && |colors| == 0 && |rotations| == 0 && |scales| == 0 {
      used := [DefaultPosition];
    }
    var count := Max(Max(|used|, |colors|), Max(|rotations|, |scales|));
    instances := [];
    for i := 0 to count
      invariant instances == Rows(used, colors, rotations, scales, i)
    {
      var position := if i < |used| then Padded(used[i]) else DefaultPosition;
      var color := if i < |colors| then Padded(colors[i]) else DefaultColor;
      var rotation := if i < |rotations| then Padded(rotations[i]) else DefaultRotation;
      var scale := if i < |scales| then Padded(scales[i]) else DefaultScale;
      instances := instances + [position, color, rotation, scale];
    }
  }

  /** With no inputs there is exactly one instance, made of the four defaults. */
  lemma NoInputsOneDefault()
    ensures InstanceRows([], [], [], []) == [DefaultPosition, DefaultColor, DefaultRotation, DefaultScale]
  {
    var rows := InstanceRows([], [], [], []);
    assert InstanceCount([DefaultPosition], [], [], []) == 1;
    assert |rows| == 4;
    assert rows[0] == Padded(DefaultPosition);
  }

  /** With some input, there are as many instances as the longest list has rows, every
      row has at least four values, and each given row appears padded in its slot. */
  lemma InstanceRowsShape(positions: seq<seq<real>>, colors: seq<seq<real>>,
                          rotations: seq<seq<real>>, scales: seq<seq<real>>)
    requires !NoInputs(positions, colors, rotations, scales)
    ensures var rows := InstanceRows(positions, colors, rotations, scales);
            |rows| == 4 * InstanceCount(positions, colors, rotations, scales) &&
            (forall j :: 0 <= j < |rows| ==> |rows[j]| >= 4) &&
            (forall i :: 0 <= i < |positions| ==> rows[4 * i] == Padded(positions[i])) &&
            (forall i :: 0 <= i < |colors| ==> rows[4 * i + 1] == Padded(colors[i])) &&
            (forall i :: 0 <= i < |rotations| ==> rows[4 * i + 2] == Padded(rotations[i])) &&
            (forall i :: 0 <= i < |scales| ==> rows[4 * i + 3] == Padded(scales[i]))
  {
    var rows := InstanceRows(positions, colors, rotations, scales);
    assert UsedPositions(positions, colors, rotations, scales) == positions;
    forall i | 0 <= i < |positions| ensures rows[4 * i] == Padded(positions[i]) {
      assert RowOr(positions, i, DefaultPosition) == Padded(positions[i]);
    }
    forall i | 0 <= i < |colors| ensures rows[4 * i + 1] == Padded(colors[i]) {
      assert RowOr(colors, i, DefaultColor) == Padded(colors[i]);
    }
    forall i | 0 <= i < |rotations| ensures rows[4 * i + 2] == Padded(rotations[i]) {
      assert RowOr(rotations, i, DefaultRotation) == Padded(rotations[i]);
    }
    forall i | 0 <= i < |scales| ensures rows[4 * i + 3] == Padded(scales[i]) {
      assert RowOr(scales, i, DefaultScale) == Padded(scales[i]);
    }
  }

  /** The values of the rows, row after row. */
  function Concat(rows: seq<seq<real>>): seq<real>
  {
    if |rows| == 0 then [] else Concat(rows[..|rows| - 1]) + rows[|rows| - 1]
  }

  lemma {:induction false} ConcatAppend(a: seq<seq<real>>, b: seq<seq<real>>)
    ensures Concat(a + b) == Concat(a) + Concat(b)
  {
    if |b| > 0 {
      ConcatAppend(a, b[..|b| - 1]);
      assert (a + b)[..|a + b| - 1] == a + b[..|b| - 1];
    } else {
      assert a + b == a;
    }
  }

  lemma {:induction false} ConcatLength(rows: seq<seq<real>>, width: nat)
    requires Uniform(rows, width)
    ensures |Concat(rows)| == |rows| * width
  {
    if |rows| > 0 {
      ConcatLength(rows[..|rows| - 1], width);
    }
  }

  /** Value `k` of row `i` lands at position i * width + k of the concatenation. */
  lemma {:induction false} ConcatAt(rows: seq<seq<real>>, width: nat, i: nat, k: nat)
    requires Uniform(rows, width) && i < |rows| && k < width
    ensures i * width + k < |Concat(rows)| && Concat(rows)[i * width + k] == rows[i][k]
  {
    var n := |rows|;
    ConcatLength(rows, width);
    ConcatLength(rows[..n - 1], width);
    assert (n - 1) * width + width == n * width;
    if i < n - 1 {
      ConcatAt(rows[..n - 1], width, i, k);
      assert i * width + k < (n - 1) * width;
    } else {
      assert i * width == (n - 1) * width;
    }
  }

  /** Every row has `width` values (numpy cannot flatten a ragged list). */
  predicate Uniform(rows: seq<seq<real>>, width: nat)
  {
    forall i :: 0 <= i < |rows| ==> |rows[i]| == width
  }

  /** What an entity holds when instances are added to it. */
  datatype InstanceState = NoRenderRep | NoInstanceSource | Stored(values: seq<real>)

  datatype Outcome = Combined(values: seq<real>) | NotRenderable

  /** Adding instances: the stored values followed by the new rows' values; an entity
      without a render representation or without an instance source fails. */
  function AddInstances(state: InstanceState, rows: seq<seq<real>>, width: nat): (r: Outcome)
    requires Uniform(rows, width)
    ensures r.NotRenderable? <==> !state.Stored?
    ensures r.Combined? ==> |r.values| == |state.values| + |rows| * width
    ensures r.Combined? ==> r.values[..|state.values|] == state.values
  {
    ConcatLength(rows, width);
    match state
    case Stored(values) => Combined(values + Concat(rows))
    case _ => NotRenderable
  }

  /** Adding two batches one after the other stores the same values as adding them
      together. */
  lemma AddInstancesTwice(stored: seq<real>, a: seq<seq<real>>, b: seq<seq<real>>, width: nat)
    requires Uniform(a, width) && Uniform(b, width)
    ensures Uniform(a + b, width)
    ensures AddInstances(Stored(AddInstances(Stored(stored), a, width).values), b, width)
            == AddInstances(Stored(stored), a + b, width)
  {
    ConcatAppend(a, b);
  }

  /** The combined values hold the stored values and then the new rows' values, value
      `k` of row `i` at position |stored| + i * width + k. */
  lemma AddInstancesPlacesRows(stored: seq<real>, rows: seq<seq<real>>, width: nat, i: nat, k: nat)
    requires Uniform(rows, width) && i < |rows| && k < width
    ensures var r := AddInstances(Stored(stored), rows, width);
            r.Combined? && |stored| + i * width + k < |r.values| &&
            r.values[|stored| + i * width + k] == rows[i][k]
  {
    ConcatAt(rows, width, i, k);
  }

  /** Four rows concatenate to their values back to back. */
  lemma ConcatFour(a: seq<real>, b: seq<real>, c: seq<real>, d: seq<real>)
    ensures Concat([a, b, c, d]) == a + b + c + d
  {
    var rows := [a, b, c, d];
    assert rows[..3][..2][..1][..0] == [];
    assert Concat(rows[..3][..2][..1]) == a;
    assert Concat(rows[..3][..2]) == a + b;
    assert Concat(rows[..3]) == a + b + c;
    assert rows[..3] == [a, b, c];
  }

  /** Adding the default instance to an entity storing one instance stores two: 32
      values, the old ones first. */
  lemma AddDefaultInstance(stored: seq<real>)
    requires |stored| == 16
    ensures var rows := InstanceRows([], [], [], []);
            Uniform(rows, 4) &&
            AddInstances(Stored(stored), rows, 4)
            == Combined(stored + DefaultPosition + DefaultColor + DefaultRotation + DefaultScale) &&
            |AddInstances(Stored(stored), rows, 4).values| == 32
  {
    NoInputsOneDefault();
    ConcatFour(DefaultPosition, DefaultColor, DefaultRotation, DefaultScale);
  }
}
