/**
 * The configuration validator `dogrula`: five checks run in a fixed order and
 * the first failure wins. It returns a flag and a user-facing message (empty
 * on success).
 */
module Validator {
  import opened Config
  import opened Assembly

  /** The outcome of validation: acceptance, or the first check that failed. */
  datatype Verdict =
    | Accepted
    | FixedWithoutCoordinates
    | WrongPositionCount(fixed: nat, free: nat)
    | FreeWithoutCoordinates
    | OriginMissing
    | DuplicateCoordinates

  /**
   * The checks in source order: fixed units carry coordinates; #fixed plus
   * #free rows equals N; free rows carry coordinates; the origin is among the
   * positions; no position repeats.
   */
  function Validation(units: seq<Unit>, free: seq<FreeRow>, n: int): Verdict {
    if !FixedHaveCoordinates(units) then FixedWithoutCoordinates
    else if FixedCount(units) + |free| != n then WrongPositionCount(FixedCount(units), |free|)
    else if !FreeHaveCoordinates(free) then FreeWithoutCoordinates
    else if Origin !in Positions(units, free) then OriginMissing
    else if !Distinct(Positions(units, free)) then DuplicateCoordinates
    else Accepted
  }

  /** Decimal rendering of a natural number, as an f-string prints an int. */
  function NatToString(k: nat): (r: string)
    ensures |r| >= 1
    ensures IsDigits(r)
  {
    if k < 10 then [DigitChar(k)] else NatToString(k / 10) + [DigitChar(k % 10)]
  }

  function DigitChar(d: nat): (c: char)
    requires d < 10
    ensures '0' <= c <= '9'
  {
    ['0', '1', '2', '3', '4', '5', '6', '7', '8', '9'][d]
  }

  predicate IsDigits(s: string) {
    forall k :: 0 <= k < |s| ==> '0' <= s[k] <= '9'
  }

  /** The value of a string of decimal digits. */
  function DecimalValue(s: string): nat
    requires IsDigits(s)
  {
    if |s| == 0 then 0 else 10 * DecimalValue(s[..|s| - 1]) + ((s[|s| - 1] as int) - ('0' as int))
  }

  /** The counts in the count-mismatch message read back as the numbers they render. */
  lemma {:induction false} NatToStringRoundTrip(k: nat)
    ensures DecimalValue(NatToString(k)) == k
  {
    var r := NatToString(k);
    if k >= 10 {
      NatToStringRoundTrip(k / 10);
      assert r[..|r| - 1] == NatToString(k / 10);
    }
  }

  /** The message `dogrula` returns with each verdict. */
  function Message(v: Verdict): (m: string)
    ensures m == "" <==> v == Accepted
  {
    match v
    case Accepted => ""
    case FixedWithoutCoordinates => "Sabit birimlerin tümünde (x,y) olmalı."
    case WrongPositionCount(s, b) =>
      "Toplam pozisyon sayısı N olmalı. Şu an: sabit=" + NatToString(s) + ", boş=" + NatToString(b)
      + ", toplam=" + NatToString(s + b) + "."
    case FreeWithoutCoordinates => "Boş noktaların tümünde (x,y) olmalı."
    case OriginMissing => "En az bir pozisyon (0,0) olmalı."
    case DuplicateCoordinates => "Pozisyon koordinatları birbirinden farklı olmalı (tekrarlı koordinat var)."
  }

  /** A list has as many distinct elements as entries exactly when no entry repeats. */
  lemma {:induction false} DistinctIffSetSize<T>(s: seq<T>)
    ensures |set p | p in s| <= |s|
    ensures |set p | p in s| == |s| <==> Distinct(s)
  {
    if |s| > 0 {
      var front, last := s[..|s| - 1], s[|s| - 1];
      DistinctIffSetSize(front);
      assert s == front + [last];
      assert (set p | p in s) == (set p | p in front) + {last};
      if last in front {
        var k :| 0 <= k < |front| && front[k] == last;
        assert s[k] == s[|s| - 1];
      } else {
        assert (set p | p in s) - {last} == set p | p in front;
        if Distinct(front) {
          forall a, b | 0 <= a < b < |s| ensures s[a] != s[b] {
            if b == |s| - 1 { assert s[a] == front[a]; }
          }
        } else {
          var a, b :| 0 <= a < b < |front| && front[a] == front[b];
          assert s[a] == s[b];
        }
      }
    }
  }

  /**
   * Python/app.py:112-138: the two vectorised checks, then the two loops that
   * build `pos_list` (the second returning early on a free row with a missing
   * coordinate), then the origin and duplicate checks on `pos_list`.
   */
  method Validate(units: seq<Unit>, free: seq<FreeRow>, n: int) returns (ok: bool, msg: string)
    ensures ok <==> Validation(units, free, n) == Accepted
    ensures msg == Message(Validation(units, free, n))
  {
    if exists i | 0 <= i < |units| :: units[i].fixed && !HasCoordinates(units[i]) {
      return false, Message(FixedWithoutCoordinates);
    }
    var fixedCount := FixedCount(units);
    if |free| + fixedCount != n {
      return false, Message(WrongPositionCount(fixedCount, |free|));
    }
    var posList: seq<Point> := [];
    for i := 0 to |units|
      invariant posList == FixedCoords(units[..i])
    {
      assert units[..i + 1][..i] == units[..i];
      if units[i].fixed {
        posList := posList + [CoordOf(units[i])];
      }
    }
    assert units[..|units|] == units;
    for t := 0 to |free|
      invariant FreeHaveCoordinates(free[..t])
      invariant posList == FixedCoords(units) + FreeCoords(free[..t])
    {
      if free[t].x.None? || free[t].y.None? {
        assert !FreeHaveCoordinates(free);
        return false, Message(FreeWithoutCoordinates);
      }
      assert FreeCoords(free[..t + 1]) == FreeCoords(free[..t]) + [PointOf(free[t])];
      posList := posList + [PointOf(free[t])];
    }
    assert free[..|free|] == free;
    if Origin !in posList {
      return false, Message(OriginMissing);
    }
    DistinctIffSetSize(posList);
    if |posList| != |set p | p in posList| {
      return false, Message(DuplicateCoordinates);
    }
    return true, "";
  }

  /**
   * The first failing check is reported: a missing fixed coordinate before a
   * count mismatch, a count mismatch before a missing free coordinate, that
   * before a missing origin, and that before a duplicate.
   */
  lemma CheckOrder(units: seq<Unit>, free: seq<FreeRow>, n: int)
    ensures !FixedHaveCoordinates(units) ==> Validation(units, free, n) == FixedWithoutCoordinates
    ensures FixedHaveCoordinates(units) && FixedCount(units) + |free| != n ==>
      Validation(units, free, n).WrongPositionCount?
    ensures FixedHaveCoordinates(units) && FixedCount(units) + |free| == n && !FreeHaveCoordinates(free) ==>
      Validation(units, free, n) == FreeWithoutCoordinates
    ensures FixedHaveCoordinates(units) && FixedCount(units) + |free| == n && FreeHaveCoordinates(free) ==>
      (Validation(units, free, n) == OriginMissing <==> Origin !in Positions(units, free))
  {
  }

  /**
   * Once the fixed coordinates are present, the count check fails exactly when
   * #fixed + #free rows differs from N; free rows count whether or not their
   * coordinates are filled in, and the message reports both counts and their sum.
   */
  lemma CountCheck(units: seq<Unit>, free: seq<FreeRow>, n: int)
    requires FixedHaveCoordinates(units)
    ensures Validation(units, free, n).WrongPositionCount? <==> FixedCount(units) + |free| != n
    ensures Validation(units, free, n).WrongPositionCount? ==>
      Validation(units, free, n) == WrongPositionCount(FixedCount(units), |free|) &&
      Message(Validation(units, free, n)) ==
        "Toplam pozisyon sayısı N olmalı. Şu an: sabit=" + NatToString(FixedCount(units))
        + ", boş=" + NatToString(|free|) + ", toplam=" + NatToString(FixedCount(units) + |free|) + "."
  {
  }

  /**
   * What acceptance guarantees the assembler and encoder: every coordinate is
   * present, there are exactly N positions, the origin is one of them, no two
   * coincide, and the message is empty.
   */
  lemma AcceptedConfiguration(units: seq<Unit>, free: seq<FreeRow>, n: int)
    requires Validation(units, free, n) == Accepted
    ensures FixedHaveCoordinates(units) && FreeHaveCoordinates(free)
    ensures |Positions(units, free)| == n
    ensures Origin in Positions(units, free)
    ensures Distinct(Positions(units, free))
    ensures Message(Validation(units, free, n)) == ""
  {
    PositionCount(units, free);
  }

  /** Two unit tables that differ only in what is typed into the coordinates of non-fixed units. */
  predicate SameButLooseCoordinates(units: seq<Unit>, units': seq<Unit>) {
    |units| == |units'| &&
    forall i :: 0 <= i < |units| ==>
      units[i].fixed == units'[i].fixed &&
      (units[i].fixed ==> units[i].x == units'[i].x && units[i].y == units'[i].y)
  }

  lemma {:induction false} LooseCoordinatesInvisible(units: seq<Unit>, units': seq<Unit>)
    requires SameButLooseCoordinates(units, units')
    ensures FixedCount(units) == FixedCount(units')
    ensures FixedHaveCoordinates(units) ==> FixedHaveCoordinates(units') && FixedCoords(units) == FixedCoords(units')
  {
    if |units| > 0 {
      var n := |units|;
      assert SameButLooseCoordinates(units[..n - 1], units'[..n - 1]);
      LooseCoordinatesInvisible(units[..n - 1], units'[..n - 1]);
    }
  }

  /** Coordinates typed on non-fixed units are never looked at. */
  lemma LooseCoordinatesIgnored(units: seq<Unit>, units': seq<Unit>, free: seq<FreeRow>, n: int)
    requires SameButLooseCoordinates(units, units')
    ensures Validation(units, free, n) == Validation(units', free, n)
  {
    LooseCoordinatesInvisible(units, units');
    LooseCoordinatesInvisible(units', units);
  }
}
