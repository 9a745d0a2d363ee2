/**
 * The QAP encoding: binary variables x[i, j] (unit i at position j), one
 * "each unit gets exactly one position" equality per unit, one "each position
 * gets exactly one unit" equality per position, nPos locking equalities per
 * fixed unit, and the quadratic objective
 * sum over i, k, j, l of F[i, k] * D[j, l] * x[i, j] * x[k, l].
 *
 * The solver is not modelled: a solved 0/1 matrix is an input, and what the
 * constraints force on any such matrix is proved here.
 */
module Encoding {
  import opened Sums
  import opened Assembly

  /** The decision variable x[unit, pos]. */
  datatype Var = Var(unit: nat, pos: nat)

  /** A linear equality over binary variables: the sum of `vars` equals `rhs`. */
  datatype Constraint = SumEquals(vars: seq<Var>, rhs: int)

  /** Values of the decision variables, x[i][j]. */
  type Decision = seq<seq<bool>>

  /** An n-by-nPos 0/1 matrix. */
  predicate IsDecision(x: Decision, n: nat, nPos: nat) {
    |x| == n && forall i :: 0 <= i < n ==> |x[i]| == nPos
  }

  /** x[i][j], false outside the matrix (where the encoding never looks). */
  function Bit(x: Decision, i: int, j: int): bool {
    0 <= i < |x| && 0 <= j < |x[i]| && x[i][j]
  }

  function Value(x: Decision, v: Var): bool {
    Bit(x, v.unit, v.pos)
  }

  /** The left-hand side of an equality: how many of its variables are 1. */
  function Lhs(vars: seq<Var>, x: Decision): int {
    if |vars| == 0 then 0
    else Lhs(vars[..|vars| - 1], x) + (if Value(x, vars[|vars| - 1]) then 1 else 0)
  }

  predicate Holds(c: Constraint, x: Decision) {
    Lhs(c.vars, x) == c.rhs
  }

  predicate HoldsAll(cs: seq<Constraint>, x: Decision) {
    forall t :: 0 <= t < |cs| ==> Holds(cs[t], x)
  }

  /** A sum of binary variables is never negative, and is 0 exactly when none of them is set. */
  lemma {:induction false} LhsZero(vars: seq<Var>, x: Decision)
    ensures Lhs(vars, x) >= 0
    ensures Lhs(vars, x) == 0 <==> forall t :: 0 <= t < |vars| ==> !Value(x, vars[t])
  {
    if |vars| > 0 {
      var front := vars[..|vars| - 1];
      LhsZero(front, x);
      assert forall t :: 0 <= t < |front| ==> front[t] == vars[t];
    }
  }

  /** When variable q is set, the sum is 1 exactly when no other variable is set. */
  lemma {:induction false} LhsOne(vars: seq<Var>, x: Decision, q: nat)
    requires q < |vars| && Value(x, vars[q])
    ensures Lhs(vars, x) == 1 <==> forall t :: 0 <= t < |vars| && Value(x, vars[t]) ==> t == q
  {
    var m := |vars| - 1;
    var front := vars[..m];
    assert forall t :: 0 <= t < m ==> front[t] == vars[t];
    LhsZero(front, x);
    if q < m {
      LhsOne(front, x, q);
    }
  }

  // ---------------------------------------------------------------------------
  // The three constraint families (Python/app.py:188, 190, 194-199)

  /** The variables of unit i's row, x[i, 0 .. nPos-1]. */
  function UnitVars(i: nat, nPos: nat): seq<Var> {
    seq(nPos, j requires 0 <= j < nPos => Var(i, j))
  }

  /** The variables of position j's column, x[0 .. n-1, j]. */
  function PositionVars(j: nat, n: nat): seq<Var> {
    seq(n, i requires 0 <= i < n => Var(i, j))
  }

  /** One equality per unit: its row sums to 1. */
  function UnitConstraints(n: nat, nPos: nat): seq<Constraint> {
    seq(n, i requires 0 <= i < n => SumEquals(UnitVars(i, nPos), 1))
  }

  /** One equality per position: its column sums to 1. */
  function PositionConstraints(n: nat, nPos: nat): seq<Constraint> {
    seq(nPos, j requires 0 <= j < nPos => SumEquals(PositionVars(j, n), 1))
  }

  /** The nPos locking equalities for fixed unit i owning slot j: x[i, j] == 1, every other x[i, jj] == 0. */
  function LockRow(i: nat, j: nat, nPos: nat): seq<Constraint> {
    seq(nPos, jj requires 0 <= jj < nPos => SumEquals([Var(i, jj)], if jj == j then 1 else 0))
  }

  /** The locking equalities for the owner entries of slots 0 .. k-1, in dict order. */
  function Locks(owner: map<nat, nat>, nPos: nat, k: nat): (cs: seq<Constraint>)
    requires forall s: nat :: s < k ==> s in owner
    ensures |cs| == k * nPos
  {
    if k == 0 then [] else Locks(owner, nPos, k - 1) + LockRow(owner[k - 1], k - 1, nPos)
  }

  /** Python/app.py:194-199: the nested loop adding the locking equalities. */
  method LockingConstraints(owner: map<nat, nat>, nPos: nat) returns (cs: seq<Constraint>)
    requires SlotKeyed(owner)
    ensures cs == Locks(owner, nPos, |owner|)
  {
    cs := [];
    for j := 0 to |owner|
      invariant cs == Locks(owner, nPos, j)
    {
      var iFixed := owner[j];
      for jj := 0 to nPos
        invariant cs == Locks(owner, nPos, j) + LockRow(iFixed, j, nPos)[..jj]
      {
        assert LockRow(iFixed, j, nPos)[..jj + 1] == LockRow(iFixed, j, nPos)[..jj] + [LockRow(iFixed, j, nPos)[jj]];
        if jj == j {
          cs := cs + [SumEquals([Var(iFixed, jj)], 1)];
        } else {
          cs := cs + [SumEquals([Var(iFixed, jj)], 0)];
        }
      }
      assert LockRow(iFixed, j, nPos)[..nPos] == LockRow(iFixed, j, nPos);
    }
  }

  /** The encoded instance handed to the solver. */
  datatype Qap = Qap(
    n: nat, nPos: nat, flow: Matrix, dist: Matrix,
    assignUnit: seq<Constraint>, fillPosition: seq<Constraint>, locks: seq<Constraint>)

  /** Python/app.py:185-207: variables, the three constraint families and the objective's data. */
  function Encode(n: nat, nPos: nat, flow: Matrix, dist: Matrix, owner: map<nat, nat>): Qap
    requires SlotKeyed(owner)
  {
    Qap(n, nPos, flow, dist, UnitConstraints(n, nPos), PositionConstraints(n, nPos), Locks(owner, nPos, |owner|))
  }

  /** x is a 0/1 assignment meeting every constraint of the instance. */
  predicate Feasible(q: Qap, x: Decision) {
    IsDecision(x, q.n, q.nPos) && HoldsAll(q.assignUnit, x) && HoldsAll(q.fillPosition, x) && HoldsAll(q.locks, x)
  }

  /**
   * The instance has exactly N unit equalities, nPos position equalities and
   * nPos locking equalities per fixed unit; of the locking equalities of the
   * unit owning slot s, exactly the one on x[owner[s], s] has right-hand side 1.
   */
  lemma EncodingSize(n: nat, nPos: nat, flow: Matrix, dist: Matrix, owner: map<nat, nat>, s: nat, jj: nat)
    requires SlotKeyed(owner) && s < |owner| && jj < nPos
    ensures |Encode(n, nPos, flow, dist, owner).assignUnit| == n
    ensures |Encode(n, nPos, flow, dist, owner).fillPosition| == nPos
    ensures |Encode(n, nPos, flow, dist, owner).locks| == |owner| * nPos
    ensures LockRow(owner[s], s, nPos)[jj].vars == [Var(owner[s], jj)]
    ensures LockRow(owner[s], s, nPos)[jj].rhs == 1 <==> jj == s
  {
  }

  // ---------------------------------------------------------------------------
  // What the constraints mean for a 0/1 matrix

  /** Unit i's equality fails when row i is all 0. */
  lemma UnitConstraintNeedsOne(x: Decision, n: nat, nPos: nat, i: nat)
    requires IsDecision(x, n, nPos) && i < n
    requires Holds(UnitConstraints(n, nPos)[i], x)
    ensures exists q :: 0 <= q < nPos && x[i][q]
  {
    var vars := UnitVars(i, nPos);
    LhsZero(vars, x);
    var q :| 0 <= q < nPos && Value(x, vars[q]);
    assert x[i][q];
  }

  /** When x[i][q] is 1, unit i's equality holds exactly when the rest of row i is 0. */
  lemma UnitConstraintMeaning(x: Decision, n: nat, nPos: nat, i: nat, q: nat)
    requires IsDecision(x, n, nPos) && i < n && q < nPos && x[i][q]
    ensures Holds(UnitConstraints(n, nPos)[i], x) <==> forall t :: 0 <= t < nPos && x[i][t] ==> t == q
  {
    var vars := UnitVars(i, nPos);
    LhsOne(vars, x, q);
    assert forall t :: 0 <= t < nPos ==> (Value(x, vars[t]) <==> x[i][t]);
  }

  /** Position j's equality fails when column j is all 0. */
  lemma PositionConstraintNeedsOne(x: Decision, n: nat, nPos: nat, j: nat)
    requires IsDecision(x, n, nPos) && j < nPos
    requires Holds(PositionConstraints(n, nPos)[j], x)
    ensures exists q :: 0 <= q < n && x[q][j]
  {
    var vars := PositionVars(j, n);
    LhsZero(vars, x);
    var q :| 0 <= q < n && Value(x, vars[q]);
    assert x[q][j];
  }

  /** When x[q][j] is 1, position j's equality holds exactly when the rest of column j is 0. */
  lemma PositionConstraintMeaning(x: Decision, n: nat, nPos: nat, j: nat, q: nat)
    requires IsDecision(x, n, nPos) && j < nPos && q < n && x[q][j]
    ensures Holds(PositionConstraints(n, nPos)[j], x) <==> forall t :: 0 <= t < n && x[t][j] ==> t == q
  {
    var vars := PositionVars(j, n);
    LhsOne(vars, x, q);
    assert forall t :: 0 <= t < n ==> (Value(x, vars[t]) <==> x[t][j]);
  }

  /** Constraints split over concatenation. */
  lemma HoldsAllAppend(a: seq<Constraint>, b: seq<Constraint>, x: Decision)
    ensures HoldsAll(a + b, x) <==> HoldsAll(a, x) && HoldsAll(b, x)
  {
    if HoldsAll(a, x) && HoldsAll(b, x) {
      forall t | 0 <= t < |a + b| ensures Holds((a + b)[t], x) {
        if t >= |a| { assert (a + b)[t] == b[t - |a|]; }
      }
    }
    if HoldsAll(a + b, x) {
      forall t | 0 <= t < |a| ensures Holds(a[t], x) {
        assert (a + b)[t] == a[t];
      }
      forall t | 0 <= t < |b| ensures Holds(b[t], x) {
        assert (a + b)[|a| + t] == b[t];
      }
    }
  }

  /** The locking equalities of one fixed unit hold exactly when its row is 1 at its slot and 0 elsewhere. */
  lemma LockRowMeaning(x: Decision, i: nat, j: nat, nPos: nat)
    ensures HoldsAll(LockRow(i, j, nPos), x) <==> forall jj :: 0 <= jj < nPos ==> (Bit(x, i, jj) <==> jj == j)
  {
    var row := LockRow(i, j, nPos);
    forall jj | 0 <= jj < nPos ensures Holds(row[jj], x) <==> (Bit(x, i, jj) <==> jj == j) {
      var vs := row[jj].vars;
      assert vs[..0] == [];
      assert Lhs(vs, x) == (if Bit(x, i, jj) then 1 else 0);
    }
  }

  /** All locking equalities hold exactly when every owner's row is 1 at its own slot and 0 elsewhere. */
  lemma {:induction false} LocksMeaning(x: Decision, owner: map<nat, nat>, nPos: nat, k: nat)
    requires forall s: nat :: s < k ==> s in owner
    ensures HoldsAll(Locks(owner, nPos, k), x) <==>
      forall s, jj :: 0 <= s < k && 0 <= jj < nPos ==> (Bit(x, owner[s], jj) <==> jj == s)
  {
    if k > 0 {
      LocksMeaning(x, owner, nPos, k - 1);
      HoldsAllAppend(Locks(owner, nPos, k - 1), LockRow(owner[k - 1], k - 1, nPos), x);
      LockRowMeaning(x, owner[k - 1], k - 1, nPos);
    }
  }

  // ---------------------------------------------------------------------------
  // Permutations

  /** p is a bijection of 0 .. n-1. */
  predicate IsPermutation(p: seq<nat>, n: nat) {
    |p| == n &&
    (forall i :: 0 <= i < n ==> p[i] < n) &&
    (forall i, k :: 0 <= i < k < n ==> p[i] != p[k]) &&
    (forall j :: 0 <= j < n ==> j in p)
  }

  /** x is the 0/1 matrix of the assignment p: x[i][j] is 1 exactly when p[i] == j. */
  predicate Encodes(x: Decision, p: seq<nat>) {
    |p| == |x| && forall i, j :: 0 <= i < |x| && 0 <= j < |x[i]| ==> (x[i][j] <==> p[i] == j)
  }

  /** The index of the first 1 in a row, or the row's length if there is none. */
  function FirstSet(row: seq<bool>): (r: nat)
    ensures r <= |row|
    ensures r < |row| ==> row[r]
    ensures forall t :: 0 <= t < r ==> !row[t]
  {
    if |row| == 0 then 0 else if row[0] then 0 else 1 + FirstSet(row[1..])
  }

  /** Each unit's position in a 0/1 matrix: the column of the 1 in its row. */
  function Decode(x: Decision): seq<nat> {
    seq(|x|, i requires 0 <= i < |x| => FirstSet(x[i]))
  }

  /** The 0/1 matrix of an assignment. */
  function PermutationMatrix(p: seq<nat>, nPos: nat): Decision {
    seq(|p|, i requires 0 <= i < |p| => seq(nPos, j requires 0 <= j < nPos => p[i] == j))
  }

  /** Every owned slot is a position and every owner a unit (as the assembler guarantees). */
  predicate OwnerWithin(owner: map<nat, nat>, n: nat, nPos: nat) {
    forall s :: s in owner ==> s < nPos && owner[s] < n
  }

  /** p keeps every fixed unit on the slot it owns. */
  predicate KeepsOwners(p: seq<nat>, owner: map<nat, nat>) {
    forall s :: s in owner ==> owner[s] < |p| && p[owner[s]] == s
  }

  /** Row constraints alone: row i has a single 1, and Decode finds it. */
  lemma RowDecodes(x: Decision, n: nat, nPos: nat, i: nat)
    requires IsDecision(x, n, nPos) && HoldsAll(UnitConstraints(n, nPos), x) && i < n
    ensures Decode(x)[i] < nPos
    ensures forall j :: 0 <= j < nPos ==> (x[i][j] <==> Decode(x)[i] == j)
  {
    assert Holds(UnitConstraints(n, nPos)[i], x);
    UnitConstraintNeedsOne(x, n, nPos, i);
    var q :| 0 <= q < nPos && x[i][q];
    UnitConstraintMeaning(x, n, nPos, i, q);
    assert Decode(x)[i] == FirstSet(x[i]);
  }

  lemma RowsDecode(x: Decision, n: nat, nPos: nat)
    requires IsDecision(x, n, nPos) && HoldsAll(UnitConstraints(n, nPos), x)
    ensures Encodes(x, Decode(x))
    ensures forall i :: 0 <= i < n ==> Decode(x)[i] < nPos
  {
    forall i | 0 <= i < n ensures Decode(x)[i] < nPos && forall j :: 0 <= j < nPos ==> (x[i][j] <==> Decode(x)[i] == j) {
      RowDecodes(x, n, nPos, i);
    }
  }

  /** Column constraints: no two units share a position, and every position is taken. */
  lemma ColumnsBijective(x: Decision, n: nat, p: seq<nat>)
    requires IsDecision(x, n, n) && HoldsAll(PositionConstraints(n, n), x)
    requires Encodes(x, p) && forall i :: 0 <= i < n ==> p[i] < n
    ensures IsPermutation(p, n)
  {
    forall i, k | 0 <= i < k < n ensures p[i] != p[k] {
      var j := p[i];
      assert x[i][j];
      assert Holds(PositionConstraints(n, n)[j], x);
      PositionConstraintMeaning(x, n, n, j, i);
      assert x[k][j] <==> p[k] == j;
    }
    forall j | 0 <= j < n ensures j in p {
      assert Holds(PositionConstraints(n, n)[j], x);
      PositionConstraintNeedsOne(x, n, n, j);
      var q :| 0 <= q < n && x[q][j];
      assert p[q] == j;
    }
  }

  /**
   * With as many positions as units, any 0/1 matrix meeting all the
   * constraints is the matrix of a permutation that keeps every fixed unit on
   * the slot it owns.
   */
  lemma FeasibleIsLockedPermutation(n: nat, flow: Matrix, dist: Matrix, owner: map<nat, nat>, x: Decision)
    requires SlotKeyed(owner) && OwnerWithin(owner, n, n)
    requires Feasible(Encode(n, n, flow, dist, owner), x)
    ensures IsPermutation(Decode(x), n)
    ensures Encodes(x, Decode(x))
    ensures KeepsOwners(Decode(x), owner)
  {
    var p := Decode(x);
    RowsDecode(x, n, n);
    ColumnsBijective(x, n, p);
    LocksMeaning(x, owner, n, |owner|);
    forall s | s in owner ensures owner[s] < |p| && p[owner[s]] == s {
      assert s in Slots(|owner|);
      assert Bit(x, owner[s], s);
    }
  }

  /**
   * Conversely, the matrix of any permutation that keeps every fixed unit on
   * its own slot meets all the constraints.
   */
  lemma LockedPermutationIsFeasible(n: nat, flow: Matrix, dist: Matrix, owner: map<nat, nat>, p: seq<nat>)
    requires SlotKeyed(owner)
    requires IsPermutation(p, n) && KeepsOwners(p, owner)
    ensures Feasible(Encode(n, n, flow, dist, owner), PermutationMatrix(p, n))
  {
    var x := PermutationMatrix(p, n);
    PermutationMatrixEncodes(p, n);
    UnitsFilled(x, p, n);
    PositionsFilled(x, p, n);
    forall s, jj | 0 <= s < |owner| && 0 <= jj < n ensures Bit(x, owner[s], jj) <==> jj == s {
      assert s in owner;
    }
    LocksMeaning(x, owner, n, |owner|);
  }

  /** The matrix of an assignment into 0 .. nPos-1 is a 0/1 matrix of the right shape, and encodes it. */
  lemma PermutationMatrixEncodes(p: seq<nat>, nPos: nat)
    requires forall i :: 0 <= i < |p| ==> p[i] < nPos
    ensures IsDecision(PermutationMatrix(p, nPos), |p|, nPos)
    ensures Encodes(PermutationMatrix(p, nPos), p)
  {
  }

  lemma UnitsFilled(x: Decision, p: seq<nat>, n: nat)
    requires IsPermutation(p, n) && IsDecision(x, n, n) && Encodes(x, p)
    ensures HoldsAll(UnitConstraints(n, n), x)
  {
    forall i | 0 <= i < n ensures Holds(UnitConstraints(n, n)[i], x) {
      UnitConstraintMeaning(x, n, n, i, p[i]);
    }
  }

  lemma PositionsFilled(x: Decision, p: seq<nat>, n: nat)
    requires IsPermutation(p, n) && IsDecision(x, n, n) && Encodes(x, p)
    ensures HoldsAll(PositionConstraints(n, n), x)
  {
    forall j | 0 <= j < n ensures Holds(PositionConstraints(n, n)[j], x) {
      assert j in p;
      var q :| 0 <= q < n && p[q] == j;
      PositionConstraintMeaning(x, n, n, j, q);
    }
  }

  // ---------------------------------------------------------------------------
  // The objective (Python/app.py:202-207)

  /** p[i], read as 0 outside p. */
  function Slot(p: seq<nat>, i: int): nat {
    if 0 <= i < |p| then p[i] else 0
  }

  /** One summand F[i, k] * D[j, l] * x[i, j] * x[k, l]. */
  function Term(q: Qap, x: Decision, i: int, k: int, j: int, l: int): real {
    Get(q.flow, i, k) * Get(q.dist, j, l) * Ind(Bit(x, i, j)) * Ind(Bit(x, k, l))
  }

  function ObjectiveL(q: Qap, x: Decision, i: int, k: int, j: int): real {
    Sum(q.nPos, l => Term(q, x, i, k, j, l))
  }

  function ObjectiveJ(q: Qap, x: Decision, i: int, k: int): real {
    Sum(q.nPos, j => ObjectiveL(q, x, i, k, j))
  }

  function ObjectiveK(q: Qap, x: Decision, i: int): real {
    Sum(q.n, k => ObjectiveJ(q, x, i, k))
  }

  /** The objective's value at x: the quadruple sum over i, k, j, l, in the source's nesting order. */
  function Objective(q: Qap, x: Decision): real {
    Sum(q.n, i => ObjectiveK(q, x, i))
  }

  /** Flow times distance for the ordered unit pair (i, k) under assignment p. */
  function PairCost(flow: Matrix, dist: Matrix, p: seq<nat>, i: int, k: int): real {
    Get(flow, i, k) * Get(dist, Slot(p, i), Slot(p, k))
  }

  function UnitCost(flow: Matrix, dist: Matrix, p: seq<nat>, n: nat, i: int): real {
    Sum(n, k => PairCost(flow, dist, p, i, k))
  }

  /** The cost of an assignment: the sum over ordered unit pairs (i, k) of F[i][k] * D[p(i)][p(k)]. */
  function AssignmentCost(flow: Matrix, dist: Matrix, p: seq<nat>, n: nat): real {
    Sum(n, i => UnitCost(flow, dist, p, n, i))
  }

  lemma ObjectiveLAt(q: Qap, x: Decision, p: seq<nat>, i: nat, k: nat, j: nat)
    requires IsDecision(x, q.n, q.nPos) && Encodes(x, p)
    requires forall u :: 0 <= u < q.n ==> p[u] < q.nPos
    requires i < q.n && k < q.n && j < q.nPos
    ensures ObjectiveL(q, x, i, k, j) == Get(q.flow, i, k) * Get(q.dist, j, p[k]) * Ind(Bit(x, i, j))
  {
    var f := l => Term(q, x, i, k, j, l);
    forall l | 0 <= l < q.nPos && l != p[k] ensures f(l) == 0.0 {
      assert !Bit(x, k, l);
    }
    assert Bit(x, k, p[k]);
    SumSingleTerm(q.nPos, f, p[k]);
  }

  lemma ObjectiveJAt(q: Qap, x: Decision, p: seq<nat>, i: nat, k: nat)
    requires IsDecision(x, q.n, q.nPos) && Encodes(x, p)
    requires forall u :: 0 <= u < q.n ==> p[u] < q.nPos
    requires i < q.n && k < q.n
    ensures ObjectiveJ(q, x, i, k) == PairCost(q.flow, q.dist, p, i, k)
  {
    var f := j => ObjectiveL(q, x, i, k, j);
    var g := j => Get(q.flow, i, k) * Get(q.dist, j, p[k]) * Ind(Bit(x, i, j));
    forall j | 0 <= j < q.nPos ensures f(j) == g(j) {
      ObjectiveLAt(q, x, p, i, k, j);
    }
    SumCongruent(q.nPos, f, g);
    forall j | 0 <= j < q.nPos && j != p[i] ensures g(j) == 0.0 {
      assert !Bit(x, i, j);
    }
    assert Bit(x, i, p[i]);
    SumSingleTerm(q.nPos, g, p[i]);
  }

  /**
   * At the 0/1 matrix of an assignment p, the objective equals the sum over
   * ordered unit pairs (i, k) of F[i][k] * D[p(i)][p(k)]: each ordered pair is
   * counted, so a symmetric flow counts every unordered pair twice.
   */
  lemma ObjectiveAtAssignment(q: Qap, x: Decision, p: seq<nat>)
    requires IsDecision(x, q.n, q.nPos) && Encodes(x, p)
    requires forall u :: 0 <= u < q.n ==> p[u] < q.nPos
    ensures Objective(q, x) == AssignmentCost(q.flow, q.dist, p, q.n)
  {
    forall i | 0 <= i < q.n ensures ObjectiveK(q, x, i) == UnitCost(q.flow, q.dist, p, q.n, i) {
      forall k | 0 <= k < q.n ensures ObjectiveJ(q, x, i, k) == PairCost(q.flow, q.dist, p, i, k) {
        ObjectiveJAt(q, x, p, i, k);
      }
      SumCongruent(q.n, k => ObjectiveJ(q, x, i, k), k => PairCost(q.flow, q.dist, p, i, k));
    }
    SumCongruent(q.n, i => ObjectiveK(q, x, i), i => UnitCost(q.flow, q.dist, p, q.n, i));
  }
}
