/**
 * Solution extraction: one record per set variable x[i, j], unit-major and
 * position-minor, carrying the unit's name, type and fixed flag, the position
 * index and that position's coordinates.
 */
module Report {
  import opened Config
  import opened Encoding

  /** One row of the assignment table: Birim, Tip, Sabit, Pozisyon, X, Y. */
  datatype Assignment = Assignment(unit: string, category: string, fixed: bool, position: nat, x: real, y: real)

  /** The record for unit u placed at position j. */
  function Record(u: Unit, j: nat, pos: seq<Point>): Assignment
    requires j < |pos|
  {
    Assignment(u.name, u.category, u.fixed, j, pos[j].x, pos[j].y)
  }

  /** The records of one unit's row, for positions 0 .. j-1. */
  function RowRecords(u: Unit, row: seq<bool>, pos: seq<Point>, j: nat): seq<Assignment>
    requires j <= |row| == |pos|
  {
    if j == 0 then []
    else RowRecords(u, row, pos, j - 1) + (if row[j - 1] then [Record(u, j - 1, pos)] else [])
  }

  /** The records of units 0 .. i-1. */
  function ReportPrefix(units: seq<Unit>, x: Decision, pos: seq<Point>, i: nat): seq<Assignment>
    requires IsDecision(x, |units|, |pos|) && i <= |units|
  {
    if i == 0 then []
    else ReportPrefix(units, x, pos, i - 1) + RowRecords(units[i - 1], x[i - 1], pos, |pos|)
  }

  /** The whole assignment table. */
  function FullReport(units: seq<Unit>, x: Decision, pos: seq<Point>): seq<Assignment>
    requires IsDecision(x, |units|, |pos|)
  {
    ReportPrefix(units, x, pos, |units|)
  }

  /** Python/app.py:213-224: the nested loop appending a record for every set variable. */
  method Extract(units: seq<Unit>, pos: seq<Point>, x: Decision) returns (recs: seq<Assignment>)
    requires IsDecision(x, |units|, |pos|)
    ensures recs == FullReport(units, x, pos)
  {
    recs := [];
    for i := 0 to |units|
      invariant recs == ReportPrefix(units, x, pos, i)
    {
      for j := 0 to |pos|
        invariant recs == ReportPrefix(units, x, pos, i) + RowRecords(units[i], x[i], pos, j)
      {
        if x[i][j] {
          recs := recs + [Record(units[i], j, pos)];
        }
      }
    }
  }

  /** A row whose only 1 among the first j entries is at q yields the single record for q, if q < j. */
  lemma {:induction false} RowWithSingleOne(u: Unit, row: seq<bool>, pos: seq<Point>, j: nat, q: nat)
    requires j <= |row| == |pos| && q < |pos|
    requires forall t :: 0 <= t < j ==> (row[t] <==> t == q)
    ensures RowRecords(u, row, pos, j) == if q < j then [Record(u, q, pos)] else []
  {
    if j > 0 {
      RowWithSingleOne(u, row, pos, j - 1, q);
    }
  }

  /** With the matrix of an assignment p, the first i records are unit t's record at position p[t], for t < i. */
  lemma {:induction false} ReportPrefixOfAssignment(units: seq<Unit>, x: Decision, pos: seq<Point>, p: seq<nat>, i: nat)
    requires IsDecision(x, |units|, |pos|) && Encodes(x, p) && i <= |units|
    requires forall t :: 0 <= t < |units| ==> p[t] < |pos|
    ensures |ReportPrefix(units, x, pos, i)| == i
    ensures forall t :: 0 <= t < i ==> ReportPrefix(units, x, pos, i)[t] == Record(units[t], p[t], pos)
  {
    if i > 0 {
      var u := i - 1;
      ReportPrefixOfAssignment(units, x, pos, p, u);
      assert forall t :: 0 <= t < |pos| ==> (x[u][t] <==> t == p[u]);
      RowWithSingleOne(units[u], x[u], pos, |pos|, p[u]);
      var front := ReportPrefix(units, x, pos, u);
      assert ReportPrefix(units, x, pos, i) == front + [Record(units[u], p[u], pos)];
    }
  }

  /**
   * When x is the 0/1 matrix of an assignment p, the table has one record per
   * unit, in unit-index order, each copying the unit's name, type and fixed
   * flag and giving the coordinates of the position p assigns it.
   */
  lemma ReportOfAssignment(units: seq<Unit>, x: Decision, pos: seq<Point>, p: seq<nat>)
    requires IsDecision(x, |units|, |pos|) && Encodes(x, p)
    requires forall t :: 0 <= t < |units| ==> p[t] < |pos|
    ensures |FullReport(units, x, pos)| == |units|
    ensures forall i :: 0 <= i < |units| ==>
      var r := FullReport(units, x, pos)[i];
      r.unit == units[i].name && r.category == units[i].category && r.fixed == units[i].fixed &&
      r.position == p[i] && r.x == pos[p[i]].x && r.y == pos[p[i]].y
  {
    ReportPrefixOfAssignment(units, x, pos, p, |units|);
  }

  /** Every record of the first i units' rows stands for a set variable x[u, j] with u < i. */
  lemma {:induction false} ReportPrefixSound(units: seq<Unit>, x: Decision, pos: seq<Point>, i: nat, r: Assignment)
    returns (u: nat, j: nat)
    requires IsDecision(x, |units|, |pos|) && i <= |units|
    requires r in ReportPrefix(units, x, pos, i)
    ensures u < i && j < |pos| && x[u][j] && r == Record(units[u], j, pos)
  {
    var front, last := ReportPrefix(units, x, pos, i - 1), RowRecords(units[i - 1], x[i - 1], pos, |pos|);
    assert ReportPrefix(units, x, pos, i) == front + last;
    if r in front {
      u, j := ReportPrefixSound(units, x, pos, i - 1, r);
    } else {
      u := i - 1;
      j := RowRecordsSound(units[u], x[u], pos, |pos|, r);
    }
  }

  /** Every record of a row's first j entries stands for a set entry before j. */
  lemma {:induction false} RowRecordsSound(u: Unit, row: seq<bool>, pos: seq<Point>, j: nat, r: Assignment)
    returns (jj: nat)
    requires j <= |row| == |pos|
    requires r in RowRecords(u, row, pos, j)
    ensures jj < j && row[jj] && r == Record(u, jj, pos)
  {
    if r in RowRecords(u, row, pos, j - 1) {
      jj := RowRecordsSound(u, row, pos, j - 1, r);
    } else {
      jj := j - 1;
    }
  }

  /** Every set variable x[u, j] with u < i has its record among the first i units' rows, at index k. */
  lemma {:induction false} ReportPrefixComplete(units: seq<Unit>, x: Decision, pos: seq<Point>, i: nat, u: nat, j: nat)
    returns (k: nat)
    requires IsDecision(x, |units|, |pos|) && i <= |units|
    requires u < i && j < |pos| && x[u][j]
    ensures k < |ReportPrefix(units, x, pos, i)| && ReportPrefix(units, x, pos, i)[k] == Record(units[u], j, pos)
  {
    var front, rest := ReportPrefix(units, x, pos, i - 1), RowRecords(units[i - 1], x[i - 1], pos, |pos|);
    assert ReportPrefix(units, x, pos, i) == front + rest;
    if u == i - 1 {
      var k0 := RowRecordsComplete(units[u], x[u], pos, |pos|, j);
      k := |front| + k0;
    } else {
      k := ReportPrefixComplete(units, x, pos, i - 1, u, j);
    }
  }

  /** Every set entry before j has its record among a row's first j records, at index k. */
  lemma {:induction false} RowRecordsComplete(u: Unit, row: seq<bool>, pos: seq<Point>, j: nat, jj: nat)
    returns (k: nat)
    requires j <= |row| == |pos|
    requires jj < j && row[jj]
    ensures k < |RowRecords(u, row, pos, j)| && RowRecords(u, row, pos, j)[k] == Record(u, jj, pos)
  {
    var front := RowRecords(u, row, pos, j - 1);
    if jj < j - 1 {
      k := RowRecordsComplete(u, row, pos, j - 1, jj);
    } else {
      k := |front|;
    }
  }

  /** A record is in the table exactly when it is unit u's record at position j for a set variable x[u, j]. */
  lemma ReportMembership(units: seq<Unit>, x: Decision, pos: seq<Point>, r: Assignment)
    requires IsDecision(x, |units|, |pos|)
    ensures r in FullReport(units, x, pos) <==>
      exists u, j :: 0 <= u < |units| && 0 <= j < |pos| && x[u][j] && r == Record(units[u], j, pos)
  {
    if r in FullReport(units, x, pos) {
      var u, j := ReportPrefixSound(units, x, pos, |units|, r);
    }
    if exists u, j :: 0 <= u < |units| && 0 <= j < |pos| && x[u][j] && r == Record(units[u], j, pos) {
      var u, j :| 0 <= u < |units| && 0 <= j < |pos| && x[u][j] && r == Record(units[u], j, pos);
      var k := ReportPrefixComplete(units, x, pos, |units|, u, j);
      assert FullReport(units, x, pos)[k] == r;
    }
  }
}
