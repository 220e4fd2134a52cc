/** Pixel geometry shared by the snake, the food and the panel: points, headings,
    the one-unit move, and the panel and grid bounds. */
module Geometry {

  /** A pixel position, as `java.awt.Point`; two points are equal when both coordinates are. */
  datatype Point = Point(x: int, y: int)

  /** The snake's heading; the source encodes it as the characters 'U', 'D', 'L' and 'R'. */
  datatype Direction = Up | Down | Left | Right

  /** The heading that points the other way (the reversal the snake refuses). */
  function Opposite(d: Direction): Direction {
    match d
    case Up => Down
    case Down => Up
    case Left => Right
    case Right => Left
  }

  lemma OppositeIsInvolution(d: Direction)
    ensures Opposite(d) != d
    ensures Opposite(Opposite(d)) == d
  {
  }

  /** `p` moved by `unit` pixels towards `d`; screen coordinates, so Up lowers y. */
  function Shift(p: Point, d: Direction, unit: int): (r: Point)
    ensures r != p <==> unit != 0
  {
    match d
    case Up => p.(y := p.y - unit)
    case Down => p.(y := p.y + unit)
    case Left => p.(x := p.x - unit)
    case Right => p.(x := p.x + unit)
  }

  function Abs(n: int): nat {
    if n < 0 then -n else n
  }

  /** A move changes exactly one coordinate, the one of the heading's axis, by exactly one unit. */
  lemma ShiftMovesOneUnit(p: Point, d: Direction, unit: int)
    ensures d == Left || d == Right ==> Shift(p, d, unit).y == p.y && Abs(Shift(p, d, unit).x - p.x) == Abs(unit)
    ensures d == Up || d == Down ==> Shift(p, d, unit).x == p.x && Abs(Shift(p, d, unit).y - p.y) == Abs(unit)
  {
  }

  /** Moving back the other way undoes a move. */
  lemma ShiftOppositeUndoes(p: Point, d: Direction, unit: int)
    ensures Shift(Shift(p, d, unit), Opposite(d), unit) == p
  {
  }

  /** `p` lies inside a panel of the given pixel size, its origin at the top-left corner. */
  predicate InPanel(p: Point, width: int, height: int) {
    0 <= p.x < width && 0 <= p.y < height
  }

  /** `v` is the pixel edge `k * unit` of one of the `extent / unit` whole cells along an axis. */
  predicate OnGridAxis(v: int, unit: int, extent: int)
    requires unit > 0
  {
    0 <= v && v % unit == 0 && v / unit < extent / unit
  }

  /** `p` is the top-left corner of one of the whole cells of the panel. */
  predicate OnGrid(p: Point, unit: int, width: int, height: int)
    requires unit > 0
  {
    OnGridAxis(p.x, unit, width) && OnGridAxis(p.y, unit, height)
  }

  /** The pixel edge of cell `k` is a grid line. */
  lemma CellEdgeOnGrid(k: int, unit: int, extent: int)
    requires unit > 0 && 0 <= k < extent / unit
    ensures OnGridAxis(k * unit, unit, extent)
  {
    MulDivMod(k, unit);
  }

  lemma MulDivMod(k: nat, unit: int)
    requires unit > 0
    ensures (k * unit) % unit == 0 && (k * unit) / unit == k
  {
    var q, r := (k * unit) / unit, (k * unit) % unit;
    assert k * unit == q * unit + r && 0 <= r < unit;
    assert (k - q) * unit == r;
    if k - q >= 1 {
      MulMonotone(1, k - q, unit);
    } else if k - q <= -1 {
      MulMonotone(k - q, -1, unit);
    }
  }

  /** A grid point lies inside the panel. */
  lemma OnGridInPanel(p: Point, unit: int, width: int, height: int)
    requires unit > 0 && OnGrid(p, unit, width, height)
    ensures InPanel(p, width, height)
  {
    OnGridAxisBelowExtent(p.x, unit, width);
    OnGridAxisBelowExtent(p.y, unit, height);
  }

  lemma OnGridAxisBelowExtent(v: int, unit: int, extent: int)
    requires unit > 0 && OnGridAxis(v, unit, extent)
    ensures v < extent
  {
    var k, n := v / unit, extent / unit;
    assert v == k * unit;
    assert extent == n * unit + extent % unit;
    assert k + 1 <= n;
    MulMonotone(k + 1, n, unit);
  }

  lemma MulMonotone(a: int, b: int, unit: int)
    requires unit > 0 && a <= b
    ensures a * unit <= b * unit
  {
  }
}
