/** `calculate_availability` of the monthly analysis: every block of a frame is
    classified by its availability flag, its missing-data mode and its
    exclusion flag into available, unavailable or not counted; the minutes of
    the first two classes are summed and the available share is a percentage. */
module MonthlyAnalysis {

  /** One row of the frame: `est_disponible` (1 up, 0 down, -1 no data),
      `missing_exclusion_mode` (1 counts missing data as available, 2 as
      unavailable), `is_excluded` and `duration_minutes`. */
  datatype Record = Record(estDisponible: int, missingMode: int, isExcluded: int, durationMinutes: int)

  /** The frame; without a `missing_exclusion_mode` column every row has mode 0. */
  datatype Frame = Frame(rows: seq<Record>, hasModeColumn: bool)

  /** The returned dict. */
  datatype Availability = Availability(totalMinutes: int, availableMinutes: int, pctAvailable: real)

  function ModeOf(hasModeColumn: bool, r: Record): int
  {
    if hasModeColumn then r.missingMode else 0
  }

  predicate MissingAsAvailable(r: Record, mode: int)
  {
    r.estDisponible == -1 && mode == 1
  }

  predicate MissingAsUnavailable(r: Record, mode: int)
  {
    r.estDisponible == -1 && mode == 2
  }

  predicate BaseAvailable(r: Record, mode: int)
  {
    r.estDisponible == 1 || MissingAsAvailable(r, mode)
  }

  /** `available_mask`: with exclusions, an excluded down row counts as up. */
  predicate AvailableMask(r: Record, mode: int, includeExclusions: bool)
  {
    if includeExclusions then BaseAvailable(r, mode) || (r.estDisponible == 0 && r.isExcluded == 1)
    else BaseAvailable(r, mode)
  }

  /** `unavailable_mask`: with exclusions, only a non-excluded down row is down. */
  predicate UnavailableMask(r: Record, mode: int, includeExclusions: bool)
  {
    if includeExclusions then (r.estDisponible == 0 && r.isExcluded == 0) || MissingAsUnavailable(r, mode)
    else r.estDisponible == 0 || MissingAsUnavailable(r, mode)
  }

  /** `df.loc[available_mask, "duration_minutes"].sum()`. */
  function AvailableSum(rows: seq<Record>, hasModeColumn: bool, includeExclusions: bool): int
  {
    if rows == [] then 0
    else
      var r := rows[|rows| - 1];
      AvailableSum(rows[..|rows| - 1], hasModeColumn, includeExclusions)
        + (if AvailableMask(r, ModeOf(hasModeColumn, r), includeExclusions) then r.durationMinutes else 0)
  }

  /** `df.loc[unavailable_mask, "duration_minutes"].sum()`. */
  function UnavailableSum(rows: seq<Record>, hasModeColumn: bool, includeExclusions: bool): int
  {
    if rows == [] then 0
    else
      var r := rows[|rows| - 1];
      UnavailableSum(rows[..|rows| - 1], hasModeColumn, includeExclusions)
        + (if UnavailableMask(r, ModeOf(hasModeColumn, r), includeExclusions) then r.durationMinutes else 0)
  }

  /** The percentage of `available` in `total`, 0 for an empty total. */
  function Percentage(available: int, total: int): real
  {
    if total > 0 then available as real / total as real * 100.0 else 0.0
  }

  /** `calculate_availability`, read through the decision table: the available
      minutes are those of the available rows, the total adds those of the
      unavailable rows, and the percentage is the available share of the
      total; an empty frame gives zeros. */
  function CalculateAvailability(f: Frame, includeExclusions: bool): (a: Availability)
    ensures f.rows == [] ==> a == Availability(0, 0, 0.0)
    ensures a.availableMinutes == MinutesOf(f.rows, f.hasModeColumn, includeExclusions, Available)
    ensures a.totalMinutes == MinutesOf(f.rows, f.hasModeColumn, includeExclusions, Available)
                            + MinutesOf(f.rows, f.hasModeColumn, includeExclusions, Unavailable)
    ensures a.pctAvailable == Percentage(a.availableMinutes, a.totalMinutes)
  {
    SumsMatchTable(f.rows, f.hasModeColumn, includeExclusions);
    if f.rows == [] then Availability(0, 0, 0.0)
    else
      var available := AvailableSum(f.rows, f.hasModeColumn, includeExclusions);
      var unavailable := UnavailableSum(f.rows, f.hasModeColumn, includeExclusions);
      var total := available + unavailable;
      Availability(total, available, Percentage(available, total))
  }

  // ---------------------------------------------------------------------------
  // The classification as a decision table

  datatype Class = Available | Unavailable | Uncounted

  /** How a row is classified, state by state: an up row is available; a down
      row is unavailable, or available when exclusions are applied and it is
      excluded, or not counted when exclusions are applied and its exclusion
      flag is neither 0 nor 1; a row without data follows its mode (1
      available, 2 unavailable, anything else not counted); any other state
      is not counted. */
  function Classify(est: int, mode: int, excluded: int, includeExclusions: bool): Class
  {
    if est == 1 then Available
    else if est == 0 then
      if !includeExclusions then Unavailable
      else if excluded == 1 then Available
      else if excluded == 0 then Unavailable
      else Uncounted
    else if est == -1 then
      if mode == 1 then Available else if mode == 2 then Unavailable else Uncounted
    else Uncounted
  }

  function ClassOf(r: Record, hasModeColumn: bool, includeExclusions: bool): Class
  {
    Classify(r.estDisponible, ModeOf(hasModeColumn, r), r.isExcluded, includeExclusions)
  }

  /** The minutes of the rows of class `c`. */
  function MinutesOf(rows: seq<Record>, hasModeColumn: bool, includeExclusions: bool, c: Class): int
  {
    if rows == [] then 0
    else
      var r := rows[|rows| - 1];
      MinutesOf(rows[..|rows| - 1], hasModeColumn, includeExclusions, c)
        + (if ClassOf(r, hasModeColumn, includeExclusions) == c then r.durationMinutes else 0)
  }

  /** The minutes of the down rows flagged as excluded. */
  function ExcludedDowntime(rows: seq<Record>): int
  {
    if rows == [] then 0
    else
      var r := rows[|rows| - 1];
      ExcludedDowntime(rows[..|rows| - 1]) + (if r.estDisponible == 0 && r.isExcluded == 1 then r.durationMinutes else 0)
  }

  predicate NonNegativeDurations(rows: seq<Record>)
  {
    forall i :: 0 <= i < |rows| ==> rows[i].durationMinutes >= 0
  }

  predicate ExclusionFlags(rows: seq<Record>)
  {
    forall i :: 0 <= i < |rows| ==> rows[i].isExcluded == 0 || rows[i].isExcluded == 1
  }

  // ---------------------------------------------------------------------------
  // Properties

  /** The two masks are the table's available and unavailable classes; in
      particular no row is in both, so no minute is counted twice. */
  lemma MasksMatchTable(r: Record, hasModeColumn: bool, includeExclusions: bool)
    ensures AvailableMask(r, ModeOf(hasModeColumn, r), includeExclusions)
        <==> ClassOf(r, hasModeColumn, includeExclusions) == Available
    ensures UnavailableMask(r, ModeOf(hasModeColumn, r), includeExclusions)
        <==> ClassOf(r, hasModeColumn, includeExclusions) == Unavailable
    ensures !(AvailableMask(r, ModeOf(hasModeColumn, r), includeExclusions)
              && UnavailableMask(r, ModeOf(hasModeColumn, r), includeExclusions))
  {
  }

  lemma {:induction false} SumsMatchTable(rows: seq<Record>, hasModeColumn: bool, includeExclusions: bool)
    ensures AvailableSum(rows, hasModeColumn, includeExclusions) == MinutesOf(rows, hasModeColumn, includeExclusions, Available)
    ensures UnavailableSum(rows, hasModeColumn, includeExclusions) == MinutesOf(rows, hasModeColumn, includeExclusions, Unavailable)
    decreases |rows|
  {
    if rows != [] {
      SumsMatchTable(rows[..|rows| - 1], hasModeColumn, includeExclusions);
      MasksMatchTable(rows[|rows| - 1], hasModeColumn, includeExclusions);
    }
  }

  lemma {:induction false} MinutesNonNegative(rows: seq<Record>, hasModeColumn: bool, includeExclusions: bool, c: Class)
    requires NonNegativeDurations(rows)
    ensures MinutesOf(rows, hasModeColumn, includeExclusions, c) >= 0
    decreases |rows|
  {
    if rows != [] {
      MinutesNonNegative(rows[..|rows| - 1], hasModeColumn, includeExclusions, c);
    }
  }

  /** With non-negative durations the available minutes lie between 0 and the
      total, and the percentage between 0 and 100. */
  lemma AvailabilityBounds(f: Frame, includeExclusions: bool)
    requires NonNegativeDurations(f.rows)
    ensures var res := CalculateAvailability(f, includeExclusions);
      0 <= res.availableMinutes <= res.totalMinutes && 0.0 <= res.pctAvailable <= 100.0
  {
    MinutesNonNegative(f.rows, f.hasModeColumn, includeExclusions, Available);
    MinutesNonNegative(f.rows, f.hasModeColumn, includeExclusions, Unavailable);
    var res := CalculateAvailability(f, includeExclusions);
    PercentageBounds(res.availableMinutes, res.totalMinutes);
  }

  lemma PercentageBounds(available: int, total: int)
    requires 0 <= available <= total
    ensures 0.0 <= Percentage(available, total) <= 100.0
  {
    if total > 0 {
      var q := available as real / total as real;
      assert q * total as real == available as real;
      assert q <= 1.0;
    }
  }

  lemma {:induction false} ExclusionsMoveDowntime(rows: seq<Record>, hasModeColumn: bool)
    requires ExclusionFlags(rows)
    ensures AvailableSum(rows, hasModeColumn, true) == AvailableSum(rows, hasModeColumn, false) + ExcludedDowntime(rows)
    ensures UnavailableSum(rows, hasModeColumn, true) == UnavailableSum(rows, hasModeColumn, false) - ExcludedDowntime(rows)
    decreases |rows|
  {
    if rows != [] {
      var init := rows[..|rows| - 1];
      assert ExclusionFlags(init) by {
        forall i | 0 <= i < |init| ensures init[i].isExcluded == 0 || init[i].isExcluded == 1 {
          assert init[i] == rows[i];
        }
      }
      ExclusionsMoveDowntime(init, hasModeColumn);
    }
  }

  lemma {:induction false} ExcludedDowntimeNonNegative(rows: seq<Record>)
    requires NonNegativeDurations(rows)
    ensures ExcludedDowntime(rows) >= 0
    decreases |rows|
  {
    if rows != [] {
      ExcludedDowntimeNonNegative(rows[..|rows| - 1]);
    }
  }

  /** Applying exclusions, when every exclusion flag is 0 or 1, keeps the
      total and turns exactly the excluded downtime into available minutes, so
      with non-negative durations it never lowers the available minutes nor
      the percentage. */
  lemma ExclusionsEffect(f: Frame)
    requires ExclusionFlags(f.rows)
    ensures var with, without := CalculateAvailability(f, true), CalculateAvailability(f, false);
      && with.totalMinutes == without.totalMinutes
      && with.availableMinutes == without.availableMinutes + ExcludedDowntime(f.rows)
      && (NonNegativeDurations(f.rows) ==>
            with.availableMinutes >= without.availableMinutes && with.pctAvailable >= without.pctAvailable)
  {
    ExclusionsMoveDowntime(f.rows, f.hasModeColumn);
    if NonNegativeDurations(f.rows) {
      ExcludedDowntimeNonNegative(f.rows);
      var with, without := CalculateAvailability(f, true), CalculateAvailability(f, false);
      PercentageMonotone(without.availableMinutes, with.availableMinutes, with.totalMinutes);
    }
  }

  lemma PercentageMonotone(a: int, b: int, total: int)
    requires a <= b
    ensures Percentage(a, total) <= Percentage(b, total)
  {
    if total > 0 {
      assert a as real / total as real <= b as real / total as real;
    }
  }

  /** The rows without data, and without a mode column, count for nothing:
      dropping them leaves the result unchanged. */
  lemma {:induction false} MissingWithoutModeIgnored(rows: seq<Record>, includeExclusions: bool)
    ensures CalculateAvailability(Frame(rows, false), includeExclusions)
         == CalculateAvailability(Frame(WithData(rows), false), includeExclusions)
  {
    WithDataSums(rows, includeExclusions);
    if rows != [] && WithData(rows) == [] {
      assert AvailableSum(WithData(rows), false, includeExclusions) == 0;
    }
  }

  /** The rows whose availability flag is not -1. */
  function WithData(rows: seq<Record>): seq<Record>
  {
    if rows == [] then []
    else WithData(rows[..|rows| - 1]) + (if rows[|rows| - 1].estDisponible != -1 then [rows[|rows| - 1]] else [])
  }

  lemma {:induction false} WithDataSums(rows: seq<Record>, includeExclusions: bool)
    ensures AvailableSum(WithData(rows), false, includeExclusions) == AvailableSum(rows, false, includeExclusions)
    ensures UnavailableSum(WithData(rows), false, includeExclusions) == UnavailableSum(rows, false, includeExclusions)
    decreases |rows|
  {
    if rows != [] {
      var init, r := rows[..|rows| - 1], rows[|rows| - 1];
      WithDataSums(init, includeExclusions);
      if r.estDisponible != -1 {
        var kept := WithData(init) + [r];
        assert kept[..|kept| - 1] == WithData(init);
      } else {
        assert WithData(rows) == WithData(init) + [];
        assert WithData(init) + [] == WithData(init);
      }
    }
  }
}
