/**
 * Position assembly: the ordered position list is the coordinates of the
 * fixed units, in unit-index order, followed by the free points in declared
 * order; slot j < #fixed is owned by the j-th fixed unit.
 */
module Assembly {
  import opened Config

  /** The indices of the fixed units, ascending: the index of the filtered unit table. */
  function FixedIndices(units: seq<Unit>): (r: seq<nat>)
    ensures |r| == FixedCount(units)
    ensures forall t :: 0 <= t < |r| ==> r[t] < |units| && units[r[t]].fixed
    ensures forall s, t :: 0 <= s < t < |r| ==> r[s] < r[t]
  {
    if |units| == 0 then []
    else FixedIndices(units[..|units| - 1]) + (if units[|units| - 1].fixed then [|units| - 1] else [])
  }

  /** Every fixed unit is listed. */
  lemma {:induction false} FixedIndicesComplete(units: seq<Unit>, i: nat)
    requires i < |units| && units[i].fixed
    ensures i in FixedIndices(units)
  {
    if i < |units| - 1 {
      FixedIndicesComplete(units[..|units| - 1], i);
    }
  }

  /** The coordinates of the fixed units, in unit-index order. */
  function FixedCoords(units: seq<Unit>): (r: seq<Point>)
    requires FixedHaveCoordinates(units)
    ensures |r| == FixedCount(units)
  {
    if |units| == 0 then []
    else
      var last := units[|units| - 1];
      FixedCoords(units[..|units| - 1]) + (if last.fixed then [CoordOf(last)] else [])
  }

  /** The t-th fixed coordinate belongs to the t-th fixed unit. */
  lemma {:induction false} FixedCoordsAt(units: seq<Unit>, t: nat)
    requires FixedHaveCoordinates(units) && t < FixedCount(units)
    ensures FixedCoords(units)[t] == CoordOf(units[FixedIndices(units)[t]])
  {
    var prefix := units[..|units| - 1];
    if t < FixedCount(prefix) {
      FixedCoordsAt(prefix, t);
    }
  }

  /** The first t+1 fixed coordinates extend the first t by the t-th fixed unit's coordinate. */
  lemma FixedCoordsStep(units: seq<Unit>, t: nat)
    requires FixedHaveCoordinates(units) && t < FixedCount(units)
    ensures FixedCoords(units)[..t + 1] == FixedCoords(units)[..t] + [CoordOf(units[FixedIndices(units)[t]])]
  {
    FixedCoordsAt(units, t);
  }

  /** The free points, in declared order. */
  function FreeCoords(free: seq<FreeRow>): (r: seq<Point>)
    requires FreeHaveCoordinates(free)
  {
    seq(|free|, t requires 0 <= t < |free| => PointOf(free[t]))
  }

  /** `pos_coords`: fixed-unit coordinates first, then the free points. */
  function Positions(units: seq<Unit>, free: seq<FreeRow>): seq<Point>
    requires FixedHaveCoordinates(units) && FreeHaveCoordinates(free)
  {
    FixedCoords(units) + FreeCoords(free)
  }

  /** `pos_owner_fixed_unit`: slot j is owned by the j-th fixed unit. */
  function OwnerMap(units: seq<Unit>): map<nat, nat> {
    var fi := FixedIndices(units);
    map j: nat | j < |fi| :: fi[j]
  }

  /** The slot indices 0 .. k-1. */
  function Slots(k: nat): (s: set<nat>)
    ensures forall j: nat :: j in s <==> j < k
    ensures |s| == k
  {
    if k == 0 then {} else Slots(k - 1) + {k - 1}
  }

  /** Whether `owner` has exactly the keys 0 .. |owner|-1 (the shape the assembler produces). */
  predicate SlotKeyed(owner: map<nat, nat>) {
    owner.Keys == Slots(|owner|)
  }

  /** The position list holds one slot per fixed unit and one per free point. */
  lemma PositionCount(units: seq<Unit>, free: seq<FreeRow>)
    requires FixedHaveCoordinates(units) && FreeHaveCoordinates(free)
    ensures |Positions(units, free)| == FixedCount(units) + |free|
  {
  }

  /** Slot t < #fixed holds the coordinate of the t-th fixed unit in index order. */
  lemma FixedSlot(units: seq<Unit>, free: seq<FreeRow>, t: nat)
    requires FixedHaveCoordinates(units) && FreeHaveCoordinates(free)
    requires t < FixedCount(units)
    ensures Positions(units, free)[t] == CoordOf(units[FixedIndices(units)[t]])
  {
    FixedCoordsAt(units, t);
  }

  /** Slot j at or past #fixed holds free point j - #fixed. */
  lemma FreeSlot(units: seq<Unit>, free: seq<FreeRow>, j: nat)
    requires FixedHaveCoordinates(units) && FreeHaveCoordinates(free)
    requires FixedCount(units) <= j < FixedCount(units) + |free|
    ensures Positions(units, free)[j] == PointOf(free[j - FixedCount(units)])
  {
  }

  /** The owner map has exactly the keys 0 .. #fixed-1. */
  lemma OwnerKeys(units: seq<Unit>)
    ensures |OwnerMap(units)| == FixedCount(units) && SlotKeyed(OwnerMap(units))
  {
    assert OwnerMap(units).Keys == Slots(FixedCount(units));
  }

  /** Each owner is a fixed unit whose own coordinate is the slot's coordinate. */
  lemma OwnerSlot(units: seq<Unit>, free: seq<FreeRow>, j: nat)
    requires FixedHaveCoordinates(units) && FreeHaveCoordinates(free)
    requires j in OwnerMap(units)
    ensures OwnerMap(units)[j] < |units| && units[OwnerMap(units)[j]].fixed
    ensures j < |Positions(units, free)| && Positions(units, free)[j] == CoordOf(units[OwnerMap(units)[j]])
  {
    FixedSlot(units, free, j);
  }

  /** No unit owns two slots. */
  lemma OwnerInjective(units: seq<Unit>, j1: nat, j2: nat)
    requires j1 in OwnerMap(units) && j2 in OwnerMap(units) && j1 != j2
    ensures OwnerMap(units)[j1] != OwnerMap(units)[j2]
  {
    var fi := FixedIndices(units);
    if j1 < j2 { assert fi[j1] < fi[j2]; } else { assert fi[j2] < fi[j1]; }
  }

  /** Every fixed unit owns a slot. */
  lemma OwnerCovers(units: seq<Unit>, i: nat)
    requires i < |units| && units[i].fixed
    ensures exists j :: j in OwnerMap(units) && OwnerMap(units)[j] == i
  {
    var fi := FixedIndices(units);
    FixedIndicesComplete(units, i);
    var j :| 0 <= j < |fi| && fi[j] == i;
    assert j in OwnerMap(units);
  }

  /** The owner dict after its first t insertions. */
  function OwnerPrefix(fi: seq<nat>, t: nat): map<nat, nat>
    requires t <= |fi|
  {
    if t == 0 then map[] else OwnerPrefix(fi, t - 1)[t - 1 := fi[t - 1]]
  }

  lemma {:induction false} OwnerPrefixAt(fi: seq<nat>, t: nat)
    requires t <= |fi|
    ensures forall s: nat :: s in OwnerPrefix(fi, t) <==> s < t
    ensures forall s: nat :: s < t ==> OwnerPrefix(fi, t)[s] == fi[s]
  {
    if t > 0 { OwnerPrefixAt(fi, t - 1); }
  }

  lemma OwnerPrefixAll(units: seq<Unit>)
    ensures OwnerPrefix(FixedIndices(units), |FixedIndices(units)|) == OwnerMap(units)
  {
    OwnerPrefixAt(FixedIndices(units), |FixedIndices(units)|);
  }

  /** Python/app.py:157-168: two loops appending to `pos_coords` and filling the owner dict. */
  method Assemble(units: seq<Unit>, free: seq<FreeRow>) returns (pos: seq<Point>, owner: map<nat, nat>)
    requires FixedHaveCoordinates(units) && FreeHaveCoordinates(free)
    ensures pos == Positions(units, free)
    ensures owner == OwnerMap(units)
  {
    var fixedIdx := FixedIndices(units);
    pos, owner := [], map[];
    for t := 0 to |fixedIdx|
      invariant pos == FixedCoords(units)[..t]
      invariant owner == OwnerPrefix(fixedIdx, t)
    {
      var i := fixedIdx[t];
      FixedCoordsStep(units, t);
      pos := pos + [CoordOf(units[i])];
      owner := owner[|pos| - 1 := i];
    }
    assert pos == FixedCoords(units);
    OwnerPrefixAll(units);
    for t := 0 to |free|
      invariant pos == FixedCoords(units) + FreeCoords(free)[..t]
    {
      assert FreeCoords(free)[..t + 1] == FreeCoords(free)[..t] + [PointOf(free[t])];
      pos := pos + [PointOf(free[t])];
    }
    assert FreeCoords(free)[..|free|] == FreeCoords(free);
  }
}
