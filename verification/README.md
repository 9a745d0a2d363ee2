# Facility-layout QAP pipeline, modelled in Dafny

The workshop-layout optimiser (`Python/app.py`) places N units, machines and
workbenches, onto N positions. Some units are *fixed*: they keep the
coordinate entered for them. The others go onto free candidate points. The
placement minimises total flow times distance, a quadratic assignment problem
(QAP). This project models the deterministic pipeline between data entry and
the solver, and between the solver and the report. It proves what each stage
guarantees the next.

- **Validator `dogrula`** (`validator.dfy`, module `Validator`). Five checks
  run in a fixed order, and the first failure decides the verdict and its
  Turkish message.
  - `Validation` is the declarative specification.
  - `Validate` is the source's procedure: two vectorised checks, then two
    loops building `pos_list` (with an early return), then the origin check
    and the duplicate check. It is proved to agree with `Validation`.
- **Position assembly** (`positions.dfy`, module `Assembly`). `pos_coords`
  is the fixed units' coordinates in unit-index order, followed by the free
  points. `pos_owner_fixed_unit` maps slot j to the j-th fixed unit.
  - `Assemble` is the source's pair of loops.
  - `Positions` and `OwnerMap` are its specification.
- **Distances** (`distances.dfy`). `BuildDistances` fills a fresh
  `array2<real>` in place with two nested loops, as `D` is filled. The
  entries are squared Euclidean distances (see Left out).
- **QAP encoding** (`encoding.dfy`).
  - Binary variables x[i, j] (unit i at position j).
  - One "row sums to 1" equality per unit.
  - One "column sums to 1" equality per position.
  - nPos locking equalities per fixed unit, added by the nested loop
    `LockingConstraints`.
  - The quadruple-sum objective.

  The solver is not modelled. A 0/1 matrix is an input, and the lemmas state
  what the constraints force on any matrix that meets them.
- **Solution extraction** (`report.dfy`). `Extract` is the nested loop that
  appends one record (Birim, Tip, Sabit, Pozisyon, X, Y) for every set
  variable.
- **End to end** (`pipeline.dfy`). Take an accepted configuration and any
  0/1 matrix that meets the encoded constraints. The matrix is a permutation
  that keeps every fixed unit on its own coordinate. The report lists each
  unit once, at distinct positions. The objective is the ordered-pair cost of
  the permutation.
  - The module also works through a concrete three-unit configuration.
  - `sums.dfy` holds the finite sums the objective is built from.
  - `config.dfy` holds the unit and free-point records.

Coordinates are exact reals. A missing table cell is `None`.

The objective sums over all ordered pairs (i, k) of units, so a symmetric
flow counts every unordered pair twice. On the three-unit configuration (U0
fixed at (0,0), U1 fixed at (1,0), U2 placed on the free point (2,0), unit
flow between every two units) the code's value is 2·(1 + 2 + 1) = 8 with
`euclid`'s distances, and 2·(1 + 4 + 1) = 12 with the squared distances this
model uses. `Encoding.ObjectiveAtAssignment` states the ordered-pair sum in
general. `Pipeline.ScenarioPlacement` and `Pipeline.ScenarioSolved` show that
every matrix meeting that configuration's constraints puts U2 on (2,0) and
has objective 12.

## Model

| member | source | states |
|---|---|---|
| Validator.Validation | Python/app.py:112-138 | The verdict of the five checks in source order: missing fixed coordinate, count #fixed + #free rows != N, missing free coordinate, no (0, 0) among the positions, a repeated position; the first that fails decides, and Accepted when none does. |
| Validator.Validate | Python/app.py:112-138 | Returns true exactly when every check passes. The message is the one of the first failing check, in source order, and empty on success. The early return on a free row without coordinates is included. |
| Validator.Message | Python/app.py:112-138 | The message is empty exactly when the configuration is accepted. |
| Validator.CheckOrder | Python/app.py:113-136 | A missing fixed coordinate is reported before a count mismatch, which is reported before a missing free coordinate, which is reported before a missing origin. |
| Validator.CountCheck | Python/app.py:118-121 | Once fixed coordinates are present, the count check fails exactly when #fixed + #free rows != N. Free rows count even with empty cells. The message carries sabit, boş and toplam = sabit + boş. |
| Validator.NatToStringRoundTrip | Python/app.py:121 | The numbers rendered into the count message read back as the counts themselves. |
| Validator.DistinctIffSetSize | Python/app.py:135-136 | `len(pos_list) == len(set(pos_list))` holds exactly when no coordinate pair repeats. |
| Validator.AcceptedConfiguration | Python/app.py:123-138 | Acceptance implies the following: every fixed and free coordinate is present; there are exactly N positions; (0, 0) is among them; no two coincide; the message is empty. |
| Validator.LooseCoordinatesInvisible | Python/app.py:114-126 | Two unit tables that differ only in the coordinates of non-fixed units have the same fixed count and the same fixed coordinate list. |
| Validator.LooseCoordinatesIgnored | Python/app.py:114-136 | Coordinates typed on non-fixed units never change the verdict. |
| Config.FixedCount | Python/app.py:119 | The number of units whose Sabit flag is set, at most the number of units. |
| Assembly.Positions | Python/app.py:157-168 | `pos_coords`: the fixed units' coordinates in unit-index order, followed by the free points in row order. |
| Assembly.OwnerMap | Python/app.py:157-164 | `pos_owner_fixed_unit`: slot t maps to the t-th fixed unit's index, for t = 0 .. #fixed-1. |
| Assembly.FixedIndices | Python/app.py:154 | `sabit_idx` has one entry per fixed unit. Its entries are fixed unit indices, strictly ascending. |
| Assembly.FixedIndicesComplete | Python/app.py:154 | Every fixed unit appears in `sabit_idx`. |
| Assembly.Assemble | Python/app.py:157-168 | The loops produce exactly `Positions` (fixed coordinates in index order, then free points) and exactly `OwnerMap` (slot j to the j-th fixed unit). |
| Assembly.PositionCount | Python/app.py:157-168 | `pos_coords` has #fixed + #free entries. |
| Assembly.FixedCoordsStep | Python/app.py:160-163 | Appending the next fixed unit's coordinate extends the fixed coordinate list by that coordinate. |
| Assembly.FixedCoordsAt | Python/app.py:160-163 | The t-th fixed coordinate is the coordinate of the t-th fixed unit. |
| Assembly.FixedSlot | Python/app.py:160-164 | Slot t < #fixed holds the coordinate of the t-th fixed unit in index order. |
| Assembly.FreeSlot | Python/app.py:167-168 | Every slot j from #fixed on holds free point j - #fixed. |
| Assembly.OwnerKeys | Python/app.py:158-164 | The owner dict has #fixed entries, with keys exactly 0 .. #fixed-1. |
| Assembly.OwnerSlot | Python/app.py:160-164 | Each owner is a fixed unit, and its own coordinate is the coordinate at its slot. |
| Assembly.OwnerInjective | Python/app.py:154-164 | No unit owns two slots. |
| Assembly.OwnerCovers | Python/app.py:154-164 | Every fixed unit owns a slot. |
| Assembly.OwnerPrefixAll | Python/app.py:158-164 | Inserting slot t ↦ `sabit_idx[t]` for t = 0 .. #fixed-1 builds exactly `OwnerMap`. |
| Distances.SquaredDistance | Python/app.py:108-109 | `euclid` before its square root: (a.x - b.x)² + (a.y - b.y)². |
| Distances.DistanceMatrix | Python/app.py:171-175 | D: the nPos × nPos table whose entry [j, l] is the distance between positions j and l. |
| Distances.DistanceProperties | Python/app.py:108-109 | The (squared) distance is symmetric and non-negative, and zero from a point to itself. |
| Distances.DistanceMatrixShape | Python/app.py:171-175 | D is nPos × nPos, symmetric, zero on the diagonal and never negative. |
| Distances.BuildDistances | Python/app.py:171-175 | The fresh nPos × nPos array filled by the nested loops holds D[j, l] = distance(pos[j], pos[l]) at every entry. |
| Encoding.UnitConstraints | Python/app.py:188 | One equality per unit i: the sum of x[i, j] over the nPos positions equals 1. |
| Encoding.PositionConstraints | Python/app.py:190 | One equality per position j: the sum of x[i, j] over the N units equals 1. |
| Encoding.LockRow | Python/app.py:195-199 | For the unit owning slot j, one equality per position jj: x[owner, jj] == 1 when jj == j, else == 0. |
| Encoding.Encode | Python/app.py:185-199 | The instance: N, nPos, F, D, the unit equalities, the position equalities and the locking equalities of the owner dict. |
| Encoding.Objective | Python/app.py:202-207 | The quadruple sum over i, k, j, l of F[i, k]·D[j, l]·x[i, j]·x[k, l], in the source's nesting order. |
| Encoding.Locks | Python/app.py:194-199 | The locking equalities number nPos per owned slot. |
| Encoding.LockingConstraints | Python/app.py:194-199 | The nested loop over the owner dict in key order emits exactly `Locks`: per owned slot j, x[owner, jj] == 1 if jj == j, else == 0. |
| Encoding.EncodingSize | Python/app.py:185-199 | The instance has N unit equalities and nPos position equalities. It has nPos locking equalities per fixed unit, each on one variable, and the one with right-hand side 1 is exactly the one at the owned slot. |
| Encoding.LhsZero | Python/app.py:188-190 | A `quicksum` of binary variables is never negative, and it is 0 exactly when none is set. |
| Encoding.LhsOne | Python/app.py:188-190 | When one variable is set, the sum is 1 exactly when no other one is. |
| Encoding.UnitConstraintNeedsOne | Python/app.py:188 | A unit's row equality forces a 1 in its row. |
| Encoding.UnitConstraintMeaning | Python/app.py:188 | With x[i][q] set, unit i's equality holds exactly when the rest of row i is 0. |
| Encoding.PositionConstraintNeedsOne | Python/app.py:190 | A position's column equality forces a 1 in its column. |
| Encoding.PositionConstraintMeaning | Python/app.py:190 | With x[q][j] set, position j's equality holds exactly when the rest of column j is 0. |
| Encoding.HoldsAllAppend | Python/app.py:194-199 | A list of equalities grown by appending holds exactly when both parts hold. |
| Encoding.LockRowMeaning | Python/app.py:195-199 | One fixed unit's locking equalities hold exactly when its row is 1 at its slot and 0 elsewhere. |
| Encoding.LocksMeaning | Python/app.py:194-199 | All locking equalities hold exactly when every owner's row is 1 at the owned slot and 0 elsewhere. |
| Encoding.RowDecodes | Python/app.py:188 | Under the row equalities, each row has exactly one 1, and decoding finds its column. |
| Encoding.RowsDecode | Python/app.py:188 | Under the row equalities, x is the 0/1 matrix of the decoded assignment. |
| Encoding.ColumnsBijective | Python/app.py:190 | With the column equalities and N == nPos, the assignment is a permutation of 0 .. N-1. |
| Encoding.FeasibleIsLockedPermutation | Python/app.py:185-199 | With N == nPos, every 0/1 matrix meeting all the constraints encodes a permutation p with p(i) == j for every owned pair (j, i). |
| Encoding.LockedPermutationIsFeasible | Python/app.py:185-199 | Conversely, the matrix of any permutation that keeps every owner on its slot meets all the constraints. |
| Encoding.PermutationMatrixEncodes | Python/app.py:185 | The 0/1 matrix of an assignment into 0 .. nPos-1 has shape N × nPos and encodes it. |
| Encoding.UnitsFilled | Python/app.py:188 | The matrix of a permutation meets every row equality. |
| Encoding.PositionsFilled | Python/app.py:190 | The matrix of a permutation meets every column equality. |
| Encoding.ObjectiveLAt | Python/app.py:202-207 | At an assignment matrix, the innermost sum over l keeps only l = p(k). |
| Encoding.ObjectiveJAt | Python/app.py:202-207 | The sum over j and l for units (i, k) is F[i, k]·D[p(i), p(k)]. |
| Encoding.ObjectiveAtAssignment | Python/app.py:201-207 | At the 0/1 matrix of an assignment p, the quadruple sum equals Σ over ordered pairs (i, k) of F[i, k]·D[p(i), p(k)]. |
| Report.Record | Python/app.py:217-224 | The record of unit u at position j: its Birim, Tip and Sabit, the position index j, and pos_coords[j] as X and Y. |
| Report.FullReport | Python/app.py:213-224 | The assignment table: unit by unit, and within a unit position by position, the record of every set variable x[i, j]. |
| Report.Extract | Python/app.py:213-224 | The nested loop yields exactly `FullReport`: for each unit in order, a record for each set variable in its row, in position order. |
| Report.RowWithSingleOne | Python/app.py:215-224 | A row with a single 1 contributes exactly one record, for that position. |
| Report.ReportPrefixOfAssignment | Python/app.py:214-224 | For an assignment matrix, the first i records are units 0 .. i-1 at their assigned positions. |
| Report.ReportOfAssignment | Python/app.py:213-224 | For the matrix of an assignment p, the table has N records in unit order. Record i copies Birim, Tip and Sabit from unit i, with Pozisyon = p(i) and (X, Y) = pos_coords[p(i)]. |
| Report.ReportPrefixSound | Python/app.py:214-224 | Every record among the first i units' rows is unit u's record at j, for a set x[u][j] with u < i. |
| Report.RowRecordsSound | Python/app.py:215-224 | Every record of a row stands for a set entry of that row. |
| Report.ReportPrefixComplete | Python/app.py:214-224 | Every set x[u][j] with u < i has its record among the first i units' rows. |
| Report.RowRecordsComplete | Python/app.py:215-224 | Every set entry of a row has its record. |
| Report.ReportMembership | Python/app.py:213-224 | A record is in the table exactly when it is unit u's record at position j for a set x[u][j]. |
| Pipeline.Instance | Python/app.py:153-207 | The encoded instance after acceptance has N units, N positions, and the distance table of the assembled positions. |
| Pipeline.OwnerFits | Python/app.py:158-164 | After acceptance, the owner dict's keys are 0 .. #fixed-1. Every key is a position index and every value a unit index below N. |
| Pipeline.FixedUnitsStay | Python/app.py:160-164 | An assignment that keeps every owner on its slot puts each fixed unit at the coordinate entered for it. |
| Pipeline.OwnedSlotTaken | Python/app.py:158-164 | Under an owner-keeping permutation, a non-fixed unit is never placed on an owned slot. |
| Pipeline.FreeUnitsLandOnFreePoints | Python/app.py:157-168 | Under an owner-keeping permutation, a non-fixed unit's slot is at least #fixed, and the point there is free point slot - #fixed. |
| Pipeline.SolvedPermutation | Python/app.py:185-199 | After acceptance, any matrix meeting the constraints encodes a permutation of the N positions that keeps every fixed unit on its own slot. |
| Pipeline.LockedPermutationSolves | Python/app.py:185-199 | Conversely, after acceptance the matrix of every such permutation meets the constraints. |
| Pipeline.SolvedAssignment | Python/app.py:201-207 | The objective of such a matrix is the ordered-pair cost of its permutation. |
| Pipeline.SolvedReport | Python/app.py:213-224 | The report of such a matrix has N records in unit order. Each record sits at its position's coordinates, and a fixed unit at its own entered coordinates. No two records share a position. |
| Pipeline.ScenarioAccepted | Python/app.py:112-138 | The configuration U0 fixed at (0,0), U1 fixed at (1,0), U2 free, free point (2,0) is accepted, with positions (0,0), (1,0), (2,0). |
| Pipeline.ScenarioOwners | Python/app.py:154-164 | In that configuration the fixed units are U0 and U1, owning slots 0 and 1. |
| Pipeline.ScenarioInstance | Python/app.py:185-207 | Its encoded instance has three units and three positions. |
| Pipeline.ScenarioIdentityKeepsOwners | Python/app.py:158-164 | Placing U0, U1 and U2 on slots 0, 1 and 2 keeps U0 and U1 on their own slots. |
| Pipeline.ScenarioFeasible | Python/app.py:185-199 | The matrix of that placement meets every constraint of the instance. |
| Pipeline.ScenarioOnlyPlacement | Python/app.py:185-199 | It is the only owner-keeping permutation of the three slots. |
| Pipeline.ScenarioPlacement | Python/app.py:185-199 | Every matrix meeting the instance's constraints decodes to slots 0, 1, 2, so U2 sits on the free point (2,0). |
| Pipeline.ScenarioSolved | Python/app.py:201-207 | Every matrix meeting the instance's constraints has objective 12. |
| Pipeline.ScenarioDistances | Python/app.py:171-175 | Between the three positions the squared distances are 1 (slots 0 and 1), 4 (slots 0 and 2) and 1 (slots 1 and 2), both ways. |
| Pipeline.ScenarioUnitCosts | Python/app.py:203-205 | For a table with the scenario's squared-distance entries and unit flow, the per-unit sums of squared distance to the two others are 5, 2 and 5 (`euclid` would give 3, 2 and 3). |
| Pipeline.ScenarioCost | Python/app.py:201-207 | With unit flow in that configuration, the ordered-pair cost of the identity placement is 2·(1 + 4 + 1): every unordered pair is counted twice. |

## Left out

- The Streamlit UI and its sample data (Python/app.py:1-105, 140-150, 226-228), including the `bos_ihtiyac` autofill of the free-point table. This is presentation only. The unit table has exactly N rows (its editor has a fixed row count), so the end-to-end lemmas take N to be the number of units.
- The Gurobi model and solve (`Model`, `optimize`, `objVal`; Python/app.py:181-182, 209-210). The solver is a foreign library. Its result enters the model as a 0/1 matrix, and the lemmas hold for every matrix meeting the constraints, optimal or not. Optimality itself is not modelled.
- The objective direction: `GRB.MINIMIZE` is the solver's concern. The model defines the objective's value, not its minimisation.
- `hareketli_idx` (Python/app.py:155) is computed and never used.
- `F = F_df.values.astype(float)` (Python/app.py:178): the flow table is taken as a table of reals. Entries outside N × N read as 0 and are never used.
- Distances.DistanceProperties: `euclid` takes a floating-point square root, which is not modelled. The model uses the squared distance. Symmetry, non-negativity and the zero diagonal carry over through the root. The numeric objective values do not, so `Pipeline.ScenarioCost` is stated in squared distances.
- Pipeline.ScenarioSolved: the value 12 is in squared distances; with `euclid`'s square root the same placement costs 8.
- Distances.BuildDistances: entries are squared distances, for the same reason.
- Report.Extract: the solver's `x[i,j].X > 0.5` threshold on floating-point values is not modelled. The solved values are booleans.
- Validator.Validate: `float()` conversions and float hashing in the duplicate check are not modelled; coordinates are exact reals. -0.0 and 0.0, equal in Python, are the same real here. pandas `isna` is reduced to a cell being present or absent.
- Encoding.FeasibleIsLockedPermutation: stated for N == nPos only, which is what an accepted configuration guarantees.
- Plotting (Python/app.py:230-251) and the catch-all `except` that displays errors (Python/app.py:253-254).
