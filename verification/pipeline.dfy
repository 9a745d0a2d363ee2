/**
 * The run after a successful validation, end to end: assemble the positions,
 * build the distance table, encode the QAP, take any 0/1 matrix meeting its
 * constraints, and extract the assignment table.
 */
module Pipeline {
  import opened Config
  import opened Sums
  import opened Assembly
  import opened Validator
  import opened Distances
  import opened Encoding
  import opened Report

  /**
   * Python/app.py:153-207 after an accepted validation: positions and owner
   * map from the assembler, the distance table over the positions, and the
   * encoded instance with one position per slot.
   */
  function Instance(units: seq<Unit>, free: seq<FreeRow>, flow: Matrix): (q: Qap)
    requires Validation(units, free, |units|) == Accepted
    ensures q.n == |units| && q.nPos == |Positions(units, free)| == |units|
    ensures q.dist == DistanceMatrix(Positions(units, free)) && q.flow == flow
  {
    AcceptedConfiguration(units, free, |units|);
    OwnerKeys(units);
    var pos := Positions(units, free);
    Encode(|units|, |pos|, flow, DistanceMatrix(pos), OwnerMap(units))
  }

  /** The owner map the assembler produces fits an accepted configuration of N units and N positions. */
  lemma OwnerFits(units: seq<Unit>, free: seq<FreeRow>)
    requires Validation(units, free, |units|) == Accepted
    ensures SlotKeyed(OwnerMap(units))
    ensures OwnerWithin(OwnerMap(units), |units|, |units|)
  {
    AcceptedConfiguration(units, free, |units|);
    OwnerKeys(units);
    forall s | s in OwnerMap(units) ensures s < |units| && OwnerMap(units)[s] < |units| {
      OwnerSlot(units, free, s);
    }
  }

  /** An assignment that keeps every owner on its slot puts each fixed unit at its own entered coordinate. */
  lemma FixedUnitsStay(units: seq<Unit>, free: seq<FreeRow>, p: seq<nat>, i: nat)
    requires Validation(units, free, |units|) == Accepted
    requires |p| == |units| && KeepsOwners(p, OwnerMap(units))
    requires i < |units| && units[i].fixed
    ensures p[i] < |Positions(units, free)| && Positions(units, free)[p[i]] == CoordOf(units[i])
  {
    OwnerCovers(units, i);
    var j :| j in OwnerMap(units) && OwnerMap(units)[j] == i;
    OwnerSlot(units, free, j);
  }

  /** A non-fixed unit is never on an owned slot: that slot's owner, a fixed unit, is there. */
  lemma OwnedSlotTaken(units: seq<Unit>, free: seq<FreeRow>, p: seq<nat>, i: nat)
    requires Validation(units, free, |units|) == Accepted
    requires IsPermutation(p, |units|) && KeepsOwners(p, OwnerMap(units))
    requires i < |units| && !units[i].fixed
    ensures p[i] !in OwnerMap(units)
  {
    if p[i] in OwnerMap(units) {
      AcceptedConfiguration(units, free, |units|);
      OwnerSlot(units, free, p[i]);
    }
  }

  /**
   * An owner-keeping permutation never puts a non-fixed unit on a fixed unit's
   * slot: it lands on a free point, slot #fixed + t holding the t-th free point.
   */
  lemma FreeUnitsLandOnFreePoints(units: seq<Unit>, free: seq<FreeRow>, p: seq<nat>, i: nat)
    requires Validation(units, free, |units|) == Accepted
    requires IsPermutation(p, |units|) && KeepsOwners(p, OwnerMap(units))
    requires i < |units| && !units[i].fixed
    ensures FixedCount(units) <= p[i] < |Positions(units, free)|
    ensures Positions(units, free)[p[i]] == PointOf(free[p[i] - FixedCount(units)])
  {
    AcceptedConfiguration(units, free, |units|);
    PositionCount(units, free);
    OwnerKeys(units);
    OwnedSlotTaken(units, free, p, i);
    FreeSlot(units, free, p[i]);
  }

  /**
   * For an accepted configuration of N units, every 0/1 matrix meeting the
   * encoded constraints places the units by a permutation of the N positions
   * that keeps every fixed unit on its own slot.
   */
  lemma SolvedPermutation(units: seq<Unit>, free: seq<FreeRow>, flow: Matrix, x: Decision)
    requires Validation(units, free, |units|) == Accepted
    requires Feasible(Instance(units, free, flow), x)
    ensures IsPermutation(Decode(x), |units|) && Encodes(x, Decode(x))
    ensures KeepsOwners(Decode(x), OwnerMap(units))
  {
    var n := |units|;
    OwnerFits(units, free);
    var dist := DistanceMatrix(Positions(units, free));
    assert Instance(units, free, flow) == Encode(n, n, flow, dist, OwnerMap(units));
    FeasibleIsLockedPermutation(n, flow, dist, OwnerMap(units), x);
  }

  /** The objective of such a matrix is the flow-times-distance cost of that permutation. */
  lemma SolvedAssignment(units: seq<Unit>, free: seq<FreeRow>, flow: Matrix, x: Decision)
    requires Validation(units, free, |units|) == Accepted
    requires Feasible(Instance(units, free, flow), x)
    ensures Objective(Instance(units, free, flow), x) ==
      AssignmentCost(flow, DistanceMatrix(Positions(units, free)), Decode(x), |units|)
  {
    SolvedPermutation(units, free, flow, x);
    ObjectiveAtAssignment(Instance(units, free, flow), x, Decode(x));
  }

  /**
   * Conversely, the 0/1 matrix of any permutation that keeps every fixed unit
   * on its own slot meets every encoded constraint.
   */
  lemma LockedPermutationSolves(units: seq<Unit>, free: seq<FreeRow>, flow: Matrix, p: seq<nat>)
    requires Validation(units, free, |units|) == Accepted
    requires IsPermutation(p, |units|) && KeepsOwners(p, OwnerMap(units))
    ensures Feasible(Instance(units, free, flow), PermutationMatrix(p, |units|))
  {
    var n := |units|;
    OwnerFits(units, free);
    var dist := DistanceMatrix(Positions(units, free));
    assert Instance(units, free, flow) == Encode(n, n, flow, dist, OwnerMap(units));
    LockedPermutationIsFeasible(n, flow, dist, OwnerMap(units), p);
  }

  /**
   * The assignment table of such a matrix lists each unit once, in unit
   * order, at the coordinates of its position; every fixed unit sits at the
   * coordinates entered for it, and no two units share a position.
   */
  lemma SolvedReport(units: seq<Unit>, free: seq<FreeRow>, flow: Matrix, x: Decision)
    requires Validation(units, free, |units|) == Accepted
    requires Feasible(Instance(units, free, flow), x)
    ensures |FullReport(units, x, Positions(units, free))| == |units|
    ensures forall i :: 0 <= i < |units| ==>
      var r := FullReport(units, x, Positions(units, free))[i];
      r.unit == units[i].name && r.position == Decode(x)[i] && r.position < |units| &&
      Point(r.x, r.y) == Positions(units, free)[r.position] &&
      (units[i].fixed ==> Point(r.x, r.y) == CoordOf(units[i]))
    ensures forall i, k :: 0 <= i < k < |units| ==>
      FullReport(units, x, Positions(units, free))[i].position != FullReport(units, x, Positions(units, free))[k].position
  {
    var pos := Positions(units, free);
    SolvedPermutation(units, free, flow, x);
    var p := Decode(x);
    ReportOfAssignment(units, x, pos, p);
    forall i | 0 <= i < |units| && units[i].fixed ensures pos[p[i]] == CoordOf(units[i]) {
      FixedUnitsStay(units, free, p, i);
    }
  }

  /** The three-unit configuration: U0 fixed at (0,0), U1 fixed at (1,0), U2 free, one free point (2,0). */
  function ScenarioUnits(): seq<Unit> {
    [Unit("U0", "Makine", true, Some(0.0), Some(0.0)),
     Unit("U1", "Makine", true, Some(1.0), Some(0.0)),
     Unit("U2", "Tezgah", false, None, None)]
  }

  function ScenarioFree(): seq<FreeRow> {
    [FreeRow(Some(2.0), Some(0.0))]
  }

  /** Unit flow between every two distinct units. */
  function ScenarioFlow(): Matrix {
    [[0.0, 1.0, 1.0], [1.0, 0.0, 1.0], [1.0, 1.0, 0.0]]
  }

  /** The configuration is accepted, and its positions are the two fixed coordinates and then the free point. */
  lemma ScenarioAccepted()
    ensures Validation(ScenarioUnits(), ScenarioFree(), 3) == Accepted
    ensures Positions(ScenarioUnits(), ScenarioFree()) == [Point(0.0, 0.0), Point(1.0, 0.0), Point(2.0, 0.0)]
  {
    var units := ScenarioUnits();
    assert units[..2][..1][..0] == [];
    assert FixedCoords(units) == [Point(0.0, 0.0), Point(1.0, 0.0)];
    var pos := Positions(units, ScenarioFree());
    assert pos == [Point(0.0, 0.0), Point(1.0, 0.0), Point(2.0, 0.0)];
    assert Distinct(pos);
  }

  /** Its fixed units are U0 and U1, owning slots 0 and 1. */
  lemma ScenarioOwners()
    ensures FixedIndices(ScenarioUnits()) == [0, 1]
    ensures 0 in OwnerMap(ScenarioUnits()) && OwnerMap(ScenarioUnits())[0] == 0
    ensures 1 in OwnerMap(ScenarioUnits()) && OwnerMap(ScenarioUnits())[1] == 1
  {
    var units := ScenarioUnits();
    assert units[..2][..1][..0] == [];
    assert FixedIndices(units[..1]) == [0];
    assert FixedIndices(units[..2]) == [0, 1];
  }

  /** The encoded instance of the three-unit configuration with unit flow. */
  function ScenarioInstance(): (q: Qap)
    ensures q.n == q.nPos == 3
  {
    ScenarioAccepted();
    Instance(ScenarioUnits(), ScenarioFree(), ScenarioFlow())
  }

  /** The only permutation of the scenario's three slots that keeps U0 and U1 on their own is the identity. */
  lemma ScenarioOnlyPlacement(p: seq<nat>)
    requires IsPermutation(p, 3) && KeepsOwners(p, OwnerMap(ScenarioUnits()))
    ensures p == [0, 1, 2]
  {
    ScenarioAccepted();
    ScenarioOwners();
    assert p[0] == 0 && p[1] == 1;
    FreeUnitsLandOnFreePoints(ScenarioUnits(), ScenarioFree(), p, 2);
  }

  /**
   * Every 0/1 matrix meeting the scenario's constraints puts U0 on slot 0,
   * U1 on slot 1 and U2, necessarily, on the free point (2,0).
   */
  lemma ScenarioPlacement(x: Decision)
    requires Feasible(ScenarioInstance(), x)
    ensures Decode(x) == [0, 1, 2]
    ensures Positions(ScenarioUnits(), ScenarioFree())[Decode(x)[2]] == Point(2.0, 0.0)
  {
    ScenarioAccepted();
    SolvedPermutation(ScenarioUnits(), ScenarioFree(), ScenarioFlow(), x);
    ScenarioOnlyPlacement(Decode(x));
  }

  /** The identity placement keeps U0 and U1 on their own slots. */
  lemma ScenarioIdentityKeepsOwners()
    ensures KeepsOwners([0, 1, 2], OwnerMap(ScenarioUnits()))
  {
    ScenarioOwners();
    OwnerKeys(ScenarioUnits());
    assert OwnerMap(ScenarioUnits()).Keys == Slots(2);
  }

  /** The scenario does have such a matrix: the one placing U2 on the free point. */
  lemma ScenarioFeasible()
    ensures Feasible(ScenarioInstance(), PermutationMatrix([0, 1, 2], 3))
  {
    var p: seq<nat> := [0, 1, 2];
    ScenarioAccepted();
    ScenarioIdentityKeepsOwners();
    assert IsPermutation(p, 3) by {
      assert forall j :: 0 <= j < 3 ==> p[j] == j;
    }
    LockedPermutationSolves(ScenarioUnits(), ScenarioFree(), ScenarioFlow(), p);
  }

  /** Every such matrix has objective 12: each unordered pair counted once per direction. */
  lemma ScenarioSolved(x: Decision)
    requires Feasible(ScenarioInstance(), x)
    ensures Objective(ScenarioInstance(), x) == 12.0
  {
    ScenarioAccepted();
    SolvedAssignment(ScenarioUnits(), ScenarioFree(), ScenarioFlow(), x);
    ScenarioPlacement(x);
    ScenarioCost();
  }

  /** The scenario's distance table between distinct positions. */
  lemma ScenarioDistances(dist: Matrix)
    requires dist == DistanceMatrix([Point(0.0, 0.0), Point(1.0, 0.0), Point(2.0, 0.0)])
    ensures Get(dist, 0, 1) == 1.0 && Get(dist, 1, 0) == 1.0
    ensures Get(dist, 0, 2) == 4.0 && Get(dist, 2, 0) == 4.0
    ensures Get(dist, 1, 2) == 1.0 && Get(dist, 2, 1) == 1.0
  {
  }

  /** For a table with the scenario's squared-distance entries, each unit's unit-flow squared distance to the two others. */
  lemma ScenarioUnitCosts(dist: Matrix)
    requires Get(dist, 0, 1) == 1.0 && Get(dist, 1, 0) == 1.0
    requires Get(dist, 0, 2) == 4.0 && Get(dist, 2, 0) == 4.0
    requires Get(dist, 1, 2) == 1.0 && Get(dist, 2, 1) == 1.0
    ensures UnitCost(ScenarioFlow(), dist, [0, 1, 2], 3, 0) == 5.0
    ensures UnitCost(ScenarioFlow(), dist, [0, 1, 2], 3, 1) == 2.0
    ensures UnitCost(ScenarioFlow(), dist, [0, 1, 2], 3, 2) == 5.0
  {
  }

  /**
   * With U2 on the free point the objective counts each of the three
   * unordered pairs twice, once per direction (squared distances 1, 4 and 1).
   */
  lemma ScenarioCost()
    ensures AssignmentCost(ScenarioFlow(), DistanceMatrix(Positions(ScenarioUnits(), ScenarioFree())), [0, 1, 2], 3)
      == 2.0 * (1.0 + 4.0 + 1.0)
  {
    ScenarioAccepted();
    var dist := DistanceMatrix(Positions(ScenarioUnits(), ScenarioFree()));
    ScenarioDistances(dist);
    ScenarioUnitCosts(dist);
  }
}
