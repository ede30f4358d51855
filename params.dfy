/**
 * The weights record of the evaluation function (GeneticParams) and the
 * numeric conversions the evaluator applies to it.
 *
 * The integer fields are i32 in the source; the weight fields are f64 and are
 * modelled as exact reals. `x as i32` on an f64 truncates toward zero and
 * saturates at the bounds of i32; `Truncate` and `AsI32` write that out.
 */
module Params {

  const I32_MIN: int := -0x8000_0000
  const I32_MAX: int := 0x7fff_ffff

  datatype GeneticParams = GeneticParams(
    winScore: int,
    lossScore: int,
    centerColumnValue: int,
    adjacentCenterValue: int,
    outerColumnValue: int,
    edgeColumnValue: int,
    rowHeightWeight: real,
    centerControlWeight: real,
    pieceCountWeight: real,
    threatWeight: real,
    mobilityWeight: real,
    verticalControlWeight: real,
    horizontalControlWeight: real,
    defensiveWeight: real)

  /** GeneticParams::default. */
  function Default(): GeneticParams {
    GeneticParams(10000, -10000, 100, 50, 10, 1, 1.0, 1.0, 0.5, 2.0, 0.8, 1.2, 1.0, 1.0)
  }

  /** Rounding toward zero: the integer part of `x`. */
  function Truncate(x: real): (t: int)
    ensures x >= 0.0 ==> t as real <= x < t as real + 1.0
    ensures x < 0.0 ==> t as real - 1.0 < x <= t as real
  {
    if x >= 0.0 then x.Floor else -((-x).Floor)
  }

  /** `x as i32` for a finite f64: truncation toward zero, saturating at the i32 bounds. */
  function AsI32(x: real): (r: int)
    ensures I32_MIN <= r <= I32_MAX
    ensures I32_MIN <= Truncate(x) <= I32_MAX ==> r == Truncate(x)
    ensures Truncate(x) < I32_MIN ==> r == I32_MIN
    ensures Truncate(x) > I32_MAX ==> r == I32_MAX
  {
    var t := Truncate(x);
    if t < I32_MIN then I32_MIN else if t > I32_MAX then I32_MAX else t
  }

  /** The per-column value of the positional term: centre, next to centre, outer, edge. */
  function ColumnValue(params: GeneticParams, col: int): int {
    if col == 3 then params.centerColumnValue
    else if col == 2 || col == 4 then params.adjacentCenterValue
    else if col == 1 || col == 5 then params.outerColumnValue
    else params.edgeColumnValue
  }

  /**
   * With the default weights the truncated feature weights are 1, 2, 0, 0, 1,
   * 1 and 1: piece count (0.5) and mobility (0.8) contribute nothing, and the
   * vertical weight 1.2 counts as 1.
   */
  lemma DefaultWeights()
    ensures AsI32(Default().centerControlWeight) == 1
    ensures AsI32(Default().threatWeight) == 2
    ensures AsI32(Default().pieceCountWeight) == 0
    ensures AsI32(Default().mobilityWeight) == 0
    ensures AsI32(Default().verticalControlWeight) == 1
    ensures AsI32(Default().horizontalControlWeight) == 1
    ensures AsI32(Default().defensiveWeight) == 1
  {
    assert Truncate(0.5) == 0;
    assert Truncate(0.8) == 0;
    assert Truncate(1.2) == 1;
    assert Truncate(2.0) == 2;
    assert Truncate(1.0) == 1;
  }
}
