/**
 * The layout configuration as the validator and the assembler see it: the
 * unit table (name, category, fixed flag, optional x and y) and the table of
 * free candidate points (optional x and y). A cell left empty in either table
 * is `None`.
 */
module Config {

  datatype Option<T> = None | Some(value: T)

  /** A coordinate pair. */
  datatype Point = Point(x: real, y: real)

  /** The designated origin that at least one position must occupy. */
  const Origin: Point := Point(0.0, 0.0)

  /** One row of the unit table: "Birim", "Tip", "Sabit", "x", "y". */
  datatype Unit = Unit(name: string, category: string, fixed: bool, x: Option<real>, y: Option<real>)

  /** One row of the free-point table: "x", "y". */
  datatype FreeRow = FreeRow(x: Option<real>, y: Option<real>)

  predicate HasCoordinates(u: Unit) {
    u.x.Some? && u.y.Some?
  }

  function CoordOf(u: Unit): Point
    requires HasCoordinates(u)
  {
    Point(u.x.value, u.y.value)
  }

  function PointOf(r: FreeRow): Point
    requires r.x.Some? && r.y.Some?
  {
    Point(r.x.value, r.y.value)
  }

  /** Every unit flagged fixed carries both coordinates. */
  predicate FixedHaveCoordinates(units: seq<Unit>) {
    forall i :: 0 <= i < |units| && units[i].fixed ==> HasCoordinates(units[i])
  }

  /** Every free row carries both coordinates. */
  predicate FreeHaveCoordinates(free: seq<FreeRow>) {
    forall t :: 0 <= t < |free| ==> free[t].x.Some? && free[t].y.Some?
  }

  /** The number of fixed units: the sum of the "Sabit" column. */
  function FixedCount(units: seq<Unit>): (c: nat)
    ensures c <= |units|
  {
    if |units| == 0 then 0
    else FixedCount(units[..|units| - 1]) + (if units[|units| - 1].fixed then 1 else 0)
  }

  /** No two entries of `s` are equal. */
  predicate Distinct<T(==)>(s: seq<T>) {
    forall a, b :: 0 <= a < b < |s| ==> s[a] != s[b]
  }
}
