/** The contractual availability engine of `Dispo/contract_calculator.py`:
    `ContractCalculator.calculate_monthly`.  The period is walked in fixed
    10-minute steps; each step is probed at 10 checkpoints against the AC
    timeline, the two battery timelines and the charge-point timelines, and its
    outcome is tallied into per-month counters T2 (steps), T3 (excluded steps)
    and T_sum (sum of step ratios). */
module Contract {
  import opened Wrappers
  import opened Strings
  import opened Timelines

  const StepSeconds: int := 600
  const CheckpointCount: int := 10
  /** The contractual floor of the charge-point denominator. */
  const MinChargePoints: nat := 6
  /** This many charge points down at once blocks the step. */
  const BlockingDown: int := 3

  const InvalidRangeWarning: string := "Plage temporelle invalide"
  // Written as two literals only so that the verifier can read its characters;
  // the value is the warning text of contract_calculator.py:128.
  const NoChargePointWarning: string := "Aucun point de charge " + "disponible pour le calcul contractuel."
  const MissingDataPrefix: string := "Données manquantes pour : "

  /** What the three loaders hand to the engine for one site and window: the
      equipment timelines by role name (a dict, in insertion order), the
      charge-point timelines and the exclusion windows. */
  datatype Site = Site(equipment: seq<(string, Timeline)>, chargePoints: seq<Timeline>, exclusions: seq<Range>)

  /** `equipment_timelines.get(name, AvailabilityTimeline([]))`. */
  function Role(equipment: seq<(string, Timeline)>, name: string): (t: Timeline)
    ensures (forall i :: 0 <= i < |equipment| ==> equipment[i].0 != name) ==> t == EmptyTimeline
    ensures forall i ::
      (0 <= i < |equipment| && equipment[i].0 == name && forall j :: 0 <= j < i ==> equipment[j].0 != name)
      ==> t == equipment[i].1
  {
    if equipment == [] then EmptyTimeline
    else if equipment[0].0 == name then equipment[0].1
    else
      var t := Role(equipment[1..], name);
      assert forall i :: 1 <= i < |equipment| ==> equipment[i] == equipment[1..][i - 1];
      t
  }

  /** Checkpoint `i` of a step: `step_start + i minutes + 30 seconds`. */
  function Checkpoint(stepStart: int, i: int): (ts: int)
    requires 0 <= i < CheckpointCount
    ensures stepStart < ts < stepStart + StepSeconds
  {
    stepStart + 60 * i + 30
  }

  /** A lookup that reports data and availability. */
  predicate Up(st: Status)
  {
    st.hasData && st.available
  }

  // ---------------------------------------------------------------------------
  // The three gates, as specifications

  predicate AcOk(ac: Timeline, s: int)
  {
    forall i :: 0 <= i < CheckpointCount ==> Up(StatusAt(ac, Checkpoint(s, i)))
  }

  /** `unavailable_count`: how many of the two batteries are down or silent. */
  function DownCount(dc1: Status, dc2: Status): nat
  {
    (if !dc1.available || !dc1.hasData then 1 else 0) + (if !dc2.available || !dc2.hasData then 1 else 0)
  }

  predicate BatteriesOk(dc1: Timeline, dc2: Timeline, s: int)
  {
    forall i :: 0 <= i < CheckpointCount ==>
      DownCount(StatusAt(dc1, Checkpoint(s, i)), StatusAt(dc2, Checkpoint(s, i))) < 2
  }

  /** `available_pdc`: the charge points up at `ts`. */
  function AvailableCount(cps: seq<Timeline>, ts: int): (n: nat)
    ensures n <= |cps|
  {
    if cps == [] then 0
    else AvailableCount(cps[..|cps| - 1], ts) + (if Up(StatusAt(cps[|cps| - 1], ts)) then 1 else 0)
  }

  /** `max(len(pdc_timelines), 6)`. */
  function Denominator(n: nat): (d: nat)
    ensures d >= MinChargePoints && d >= n
    ensures d == n || d == MinChargePoints
  {
    if n >= MinChargePoints then n else MinChargePoints
  }

  predicate Blocked(cps: seq<Timeline>, ts: int)
  {
    Denominator(|cps|) - AvailableCount(cps, ts) >= BlockingDown
  }

  predicate StationBlocked(cps: seq<Timeline>, s: int)
  {
    exists i :: 0 <= i < CheckpointCount && Blocked(cps, Checkpoint(s, i))
  }

  function Ratio(cps: seq<Timeline>, ts: int): (r: real)
    ensures 0.0 <= r <= 1.0
  {
    var up, total := AvailableCount(cps, ts), Denominator(|cps|);
    FractionBounds(up, total);
    up as real / total as real
  }

  /** A share of a positive whole lies between 0 and 1. */
  lemma FractionBounds(part: nat, whole: nat)
    requires 0 < whole && part <= whole
    ensures 0.0 <= part as real / whole as real <= 1.0
  {
    var p, w := part as real, whole as real;
    var q := p / w;
    assert q * w == p;
    assert (q - 1.0) * w == p - w;
  }

  /** `minute_ratios` after the first `k` checkpoints. */
  function Ratios(cps: seq<Timeline>, s: int, k: nat): (rs: seq<real>)
    requires k <= CheckpointCount
    ensures |rs| == k
    ensures forall i :: 0 <= i < k ==> rs[i] == Ratio(cps, Checkpoint(s, i))
  {
    if k == 0 then [] else Ratios(cps, s, k - 1) + [Ratio(cps, Checkpoint(s, k - 1))]
  }

  function Sum(xs: seq<real>): real
  {
    if xs == [] then 0.0 else Sum(xs[..|xs| - 1]) + xs[|xs| - 1]
  }

  /** `sum(minute_ratios) / len(minute_ratios)`. */
  function Mean(xs: seq<real>): real
    requires |xs| > 0
  {
    Sum(xs) / |xs| as real
  }

  function StepValue(cps: seq<Timeline>, s: int): real
  {
    Mean(Ratios(cps, s, CheckpointCount))
  }

  /** What one step does to its month. */
  datatype Outcome = Excluded | Skipped | Counted(value: real)

  /** The decision for the step starting at `s`, gate by gate. */
  function StepOutcome(site: Site, s: int): (o: Outcome)
    ensures o.Counted? ==> 0.0 <= o.value <= 1.0
    ensures |site.chargePoints| < 4 ==> !o.Counted?
  {
    StepValueBounds(site.chargePoints, s);
    assert |site.chargePoints| < 4 ==> Blocked(site.chargePoints, Checkpoint(s, 0));
    if Covered(site.exclusions, s, s + StepSeconds) then Excluded
    else if !AcOk(Role(site.equipment, "AC"), s) then Skipped
    else if !BatteriesOk(Role(site.equipment, "DC1"), Role(site.equipment, "DC2"), s) then Skipped
    else if StationBlocked(site.chargePoints, s) then Skipped
    else Counted(StepValue(site.chargePoints, s))
  }

  // ---------------------------------------------------------------------------
  // Aggregation

  /** The counters of one month: T2, T3 and T_sum. */
  datatype Aggregate = Aggregate(t2: nat, t3: nat, tsum: real)

  /** The `defaultdict` factory. */
  const FreshAggregate := Aggregate(0, 0, 0.0)

  /** A walked step: the month of its start and what it contributes. */
  datatype Step = Step(month: int, outcome: Outcome)

  function StepStart(start: int, k: nat): int
  {
    start + StepSeconds * k
  }

  /** The step `k` steps after `start`: its month and its outcome. */
  function StepAt(site: Site, monthOf: int -> int, start: int, k: nat): Step
  {
    var s := StepStart(start, k);
    Step(monthOf(s), StepOutcome(site, s))
  }

  /** The first `n` steps from `start`, in walking order. */
  function Steps(site: Site, monthOf: int -> int, start: int, n: nat): (steps: seq<Step>)
    ensures |steps| == n
  {
    seq(n, k requires 0 <= k < n => StepAt(site, monthOf, start, k))
  }

  /** One step tallied into its month: T2 always, then T3 or T_sum. */
  function Tally(agg: map<int, Aggregate>, st: Step): map<int, Aggregate>
  {
    var a := if st.month in agg then agg[st.month] else FreshAggregate;
    var a := a.(t2 := a.t2 + 1);
    agg[st.month := match st.outcome
      case Excluded => a.(t3 := a.t3 + 1)
      case Skipped => a
      case Counted(v) => a.(tsum := a.tsum + v)]
  }

  /** The aggregates after tallying `steps` in order. */
  function Fold(steps: seq<Step>): map<int, Aggregate>
  {
    if steps == [] then map[] else Tally(Fold(steps[..|steps| - 1]), steps[|steps| - 1])
  }

  /** The number of whole steps between `start` and `end`. */
  function StepCount(start: int, end: int): nat
  {
    if end <= start then 0 else (end - start) / StepSeconds
  }

  /** One output row: month key, T2, T3, T(11..16) and the percentage. */
  datatype Row = Row(month: int, t2: nat, t3: nat, tsum: real, pct: real)

  function RowOf(month: int, a: Aggregate): Row
    requires a.t2 > 0
  {
    Row(month, a.t2, a.t3, a.tsum, (a.tsum + a.t3 as real) / a.t2 as real * 100.0)
  }

  predicate MonthsAscending(rows: seq<Row>)
  {
    forall i, j :: 0 <= i < j < |rows| ==> rows[i].month < rows[j].month
  }

  /** The months of `rows`, in order. */
  function Months(rows: seq<Row>): seq<int>
  {
    if rows == [] then [] else Months(rows[..|rows| - 1]) + [rows[|rows| - 1].month]
  }

  /** `r` is the row of a month of `agg` that has steps. */
  predicate RowFrom(r: Row, agg: map<int, Aggregate>)
  {
    r.month in agg && agg[r.month].t2 > 0 && r == RowOf(r.month, agg[r.month])
  }

  /** `rows` is the finalised table of `agg`: one row per month with T2 > 0,
      ascending by month, each row read off its month's counters. */
  predicate RowsOf(rows: seq<Row>, agg: map<int, Aggregate>)
  {
    && MonthsAscending(rows)
    && (forall i :: 0 <= i < |rows| ==> RowFrom(rows[i], agg))
    && (forall m :: m in agg && agg[m].t2 > 0 ==> m in Months(rows))
  }

  function SumRowsT2(rows: seq<Row>): nat
  {
    if rows == [] then 0 else SumRowsT2(rows[..|rows| - 1]) + rows[|rows| - 1].t2
  }

  /** The total of T2 over all months of `agg`. */
  ghost function SumT2(agg: map<int, Aggregate>): nat
    decreases |agg|
  {
    if agg == map[] then 0
    else
      NonEmptyMap(agg);
      var m :| m in agg;
      assert (agg - {m}).Keys == agg.Keys - {m};
      agg[m].t2 + SumT2(agg - {m})
  }

  // ---------------------------------------------------------------------------
  // Warnings

  /** The roles whose timeline holds no interval, in dict order. */
  function MissingRoles(equipment: seq<(string, Timeline)>): (names: seq<string>)
    ensures forall n :: n in names <==>
      exists i :: 0 <= i < |equipment| && equipment[i].0 == n && !HasData(equipment[i].1)
  {
    if equipment == [] then []
    else
      var rest := MissingRoles(equipment[1..]);
      assert forall i :: 1 <= i < |equipment| ==> equipment[i] == equipment[1..][i - 1];
      (if !HasData(equipment[0].1) then [equipment[0].0] else []) + rest
  }

  /** The warnings of a valid range: at most two, and none exactly when there
      are charge points and every role has data. */
  function Warnings(site: Site): (w: seq<string>)
    ensures |w| <= 2
    ensures w == [] <==> |site.chargePoints| > 0 && MissingRoles(site.equipment) == []
  {
    var missing := MissingRoles(site.equipment);
    (if |site.chargePoints| == 0 then [NoChargePointWarning] else [])
    + (if missing == [] then [] else [MissingDataPrefix + Join(missing, ", ")])
  }

  // ---------------------------------------------------------------------------
  // The engine

  /** The AC loop: every checkpoint must find AC reporting and available. */
  method CheckAc(ac: Timeline, s: int) returns (ok: bool)
    ensures ok == AcOk(ac, s)
  {
    ok := true;
    var i := 0;
    while i < CheckpointCount
      invariant 0 <= i <= CheckpointCount
      invariant forall j :: 0 <= j < i ==> Up(StatusAt(ac, Checkpoint(s, j)))
    {
      var st := LookupStatus(ac, Checkpoint(s, i));
      if !st.hasData || !st.available {
        ok := false;
        break;
      }
      i := i + 1;
    }
  }

  /** The battery loop: no checkpoint may find both batteries down. */
  method CheckBatteries(dc1: Timeline, dc2: Timeline, s: int) returns (ok: bool)
    ensures ok == BatteriesOk(dc1, dc2, s)
  {
    ok := true;
    var i := 0;
    while i < CheckpointCount
      invariant 0 <= i <= CheckpointCount
      invariant forall j :: 0 <= j < i ==>
        DownCount(StatusAt(dc1, Checkpoint(s, j)), StatusAt(dc2, Checkpoint(s, j))) < 2
    {
      var st1 := LookupStatus(dc1, Checkpoint(s, i));
      var st2 := LookupStatus(dc2, Checkpoint(s, i));
      var unavailableCount := DownCount(st1, st2);
      if unavailableCount >= 2 {
        ok := false;
        break;
      }
      i := i + 1;
    }
  }

  /** The inner loop over the charge points at one instant. */
  method CountAvailable(cps: seq<Timeline>, ts: int) returns (n: nat)
    ensures n == AvailableCount(cps, ts)
  {
    n := 0;
    var i := 0;
    while i < |cps|
      invariant 0 <= i <= |cps|
      invariant n == AvailableCount(cps[..i], ts)
    {
      assert cps[..i + 1][..i] == cps[..i];
      var st := LookupStatus(cps[i], ts);
      if st.available && st.hasData {
        n := n + 1;
      }
      i := i + 1;
    }
    assert cps[..i] == cps;
  }

  /** The charge-point loop: stops at the first checkpoint with three or more
      points down; otherwise returns the mean of the ten ratios. */
  method CheckChargePoints(cps: seq<Timeline>, s: int) returns (blocked: bool, value: real)
    ensures blocked == StationBlocked(cps, s)
    ensures !blocked ==> value == StepValue(cps, s)
  {
    var total := Denominator(|cps|);
    var minuteRatios: seq<real> := [];
    blocked := false;
    value := 0.0;
    var i := 0;
    while i < CheckpointCount
      invariant 0 <= i <= CheckpointCount
      invariant !blocked
      invariant minuteRatios == Ratios(cps, s, i)
      invariant forall j :: 0 <= j < i ==> !Blocked(cps, Checkpoint(s, j))
    {
      var availablePdc := CountAvailable(cps, Checkpoint(s, i));
      var unavailableSimultaneous := total - availablePdc;
      if unavailableSimultaneous >= BlockingDown {
        blocked := true;
        break;
      }
      minuteRatios := minuteRatios + [availablePdc as real / total as real];
      i := i + 1;
    }
    if !blocked {
      value := Mean(minuteRatios);
    }
  }

  /** The body of the stepping loop after T2 is counted: the exclusion check,
      then the three gates, each of which ends the step when it fails. */
  method EvaluateStep(site: Site, stepStart: int) returns (o: Outcome)
    ensures o == StepOutcome(site, stepStart)
  {
    var covered := Covers(site.exclusions, stepStart, stepStart + StepSeconds);
    if covered {
      return Excluded;
    }
    var acOk := CheckAc(Role(site.equipment, "AC"), stepStart);
    if !acOk {
      return Skipped;
    }
    var batteriesOk := CheckBatteries(Role(site.equipment, "DC1"), Role(site.equipment, "DC2"), stepStart);
    if !batteriesOk {
      return Skipped;
    }
    var stationBlocked, stepValue := CheckChargePoints(site.chargePoints, stepStart);
    if stationBlocked {
      return Skipped;
    }
    return Counted(stepValue);
  }

  /** `calculate_monthly` on already-normalised timestamps (None stands for NaT)
      and on the loaders' results. */
  method CalculateMonthly(site: Site, monthOf: int -> int, start: Option<int>, end: Option<int>)
    returns (rows: seq<Row>, warnings: seq<string>)
    ensures start.None? || end.None? || end.value <= start.value ==>
      rows == [] && warnings == [InvalidRangeWarning]
    ensures start.Some? && end.Some? && start.value < end.value ==>
      && warnings == Warnings(site)
      && RowsOf(rows, Fold(Steps(site, monthOf, start.value, StepCount(start.value, end.value))))
      && SumRowsT2(rows) == StepCount(start.value, end.value)
      && forall i :: 0 <= i < |rows| ==>
           0.0 <= rows[i].pct <= 100.0 && rows[i].t3 as real + rows[i].tsum <= rows[i].t2 as real
  {
    if start.None? || end.None? || end.value <= start.value {
      return [], [InvalidRangeWarning];
    }
    var s, e := start.value, end.value;

    warnings := [];
    if |site.chargePoints| == 0 {
      warnings := warnings + [NoChargePointWarning];
    }
    var missing := MissingRoles(site.equipment);
    if missing != [] {
      warnings := warnings + [MissingDataPrefix + Join(missing, ", ")];
    }

    var agg: map<int, Aggregate> := map[];
    var cursor := s;
    ghost var k: nat := 0;
    while cursor + StepSeconds <= e
      invariant cursor == StepStart(s, k) && cursor <= e
      invariant agg == Fold(Steps(site, monthOf, s, k))
      decreases e - cursor
    {
      var stepStart := cursor;
      var stepEnd := cursor + StepSeconds;
      var month := monthOf(stepStart);
      var outcome := EvaluateStep(site, stepStart);
      ghost var st := Step(month, outcome);
      agg := TallyStep(agg, month, outcome);
      StepsSnoc(site, monthOf, s, k);
      FoldSnoc(Steps(site, monthOf, s, k), st);
      cursor, k := stepEnd, k + 1;
    }
    assert k == StepCount(s, e);

    ghost var steps := Steps(site, monthOf, s, k);
    rows := FinalizeRows(agg);
    StepsTotal(steps);
    StepsInUnit(site, monthOf, s, k);
    FoldBounded(steps);
    forall i | 0 <= i < |rows|
      ensures 0.0 <= rows[i].pct <= 100.0 && rows[i].t3 as real + rows[i].tsum <= rows[i].t2 as real
    {
      assert RowFrom(rows[i], agg);
      RowPctBounds(rows[i].month, agg[rows[i].month]);
    }
  }

  /** The counters of one step's month: T2 first, then T3 for an excluded step
      or the step value into T_sum for a counted one. */
  method TallyStep(agg: map<int, Aggregate>, month: int, outcome: Outcome) returns (r: map<int, Aggregate>)
    ensures r == Tally(agg, Step(month, outcome))
  {
    var a := if month in agg then agg[month] else FreshAggregate;
    a := a.(t2 := a.t2 + 1);
    r := agg[month := a];
    match outcome
    case Excluded =>
      r := r[month := a.(t3 := a.t3 + 1)];
    case Skipped =>
    case Counted(v) =>
      r := r[month := a.(tsum := a.tsum + v)];
  }

  /** `sorted(aggregates.items())`: the months in ascending order, skipping
      months without steps. */
  method FinalizeRows(agg: map<int, Aggregate>) returns (rows: seq<Row>)
    ensures RowsOf(rows, agg)
    ensures SumRowsT2(rows) == SumT2(agg)
  {
    rows := [];
    var rest := agg;
    FinalizeStart(agg);
    while rest.Keys != {}
      invariant Finalizing(agg, rest, rows)
      decreases |rest.Keys|
    {
      MinExists(rest.Keys);
      var month :| month in rest.Keys && forall m :: m in rest.Keys ==> month <= m;
      var values := rest[month];
      if values.t2 == 0 {
        FinalizeSkip(agg, rest, rows, month);
        rest := rest - {month};
        continue;
      }
      var row := RowOf(month, values);
      FinalizeTake(agg, rest, rows, month);
      rest := rest - {month};
      rows := rows + [row];
    }
    FinalizeEnd(agg, rest, rows);
  }

  /** The loop invariant of `FinalizeRows`: `rest` is what is left of `agg`,
      every taken month with steps has its row, rows come in ascending order
      and below every month left, and T2 is neither lost nor doubled. */
  ghost predicate Finalizing(agg: map<int, Aggregate>, rest: map<int, Aggregate>, rows: seq<Row>)
  {
    && (forall m :: m in rest ==> m in agg && rest[m] == agg[m])
    && (forall m :: m in agg && m !in rest && agg[m].t2 > 0 ==> m in Months(rows))
    && (forall i :: 0 <= i < |rows| ==> RowFrom(rows[i], agg) && rows[i].month !in rest)
    && MonthsAscending(rows)
    && (forall i, m :: 0 <= i < |rows| && m in rest ==> rows[i].month < m)
    && SumRowsT2(rows) + SumT2(rest) == SumT2(agg)
  }

  lemma FinalizeStart(agg: map<int, Aggregate>)
    ensures Finalizing(agg, agg, [])
  {
  }

  lemma FinalizeSkip(agg: map<int, Aggregate>, rest: map<int, Aggregate>, rows: seq<Row>, month: int)
    requires Finalizing(agg, rest, rows)
    requires month in rest && rest[month].t2 == 0
    ensures Finalizing(agg, rest - {month}, rows)
  {
    SumT2Remove(rest, month);
  }

  lemma FinalizeTake(agg: map<int, Aggregate>, rest: map<int, Aggregate>, rows: seq<Row>, month: int)
    requires Finalizing(agg, rest, rows)
    requires month in rest && rest[month].t2 > 0
    requires forall m :: m in rest ==> month <= m
    ensures Finalizing(agg, rest - {month}, rows + [RowOf(month, rest[month])])
  {
    var row := RowOf(month, rest[month]);
    SumT2Remove(rest, month);
    AppendRow(rows, row);
    TakeRows(agg, rest, rows, month);
    TakeMonths(agg, rest, rows, month);
  }

  /** Taking the least month left keeps every row read off its counters, out
      of what is left, and in ascending order below it. */
  lemma TakeRows(agg: map<int, Aggregate>, rest: map<int, Aggregate>, rows: seq<Row>, month: int)
    requires forall m :: m in rest ==> m in agg && rest[m] == agg[m]
    requires forall i :: 0 <= i < |rows| ==> RowFrom(rows[i], agg) && rows[i].month !in rest
    requires MonthsAscending(rows)
    requires forall i, m :: 0 <= i < |rows| && m in rest ==> rows[i].month < m
    requires month in rest && rest[month].t2 > 0
    requires forall m :: m in rest ==> month <= m
    ensures var rows', rest' := rows + [RowOf(month, rest[month])], rest - {month};
      && (forall i :: 0 <= i < |rows'| ==> RowFrom(rows'[i], agg) && rows'[i].month !in rest')
      && MonthsAscending(rows')
      && (forall i, m :: 0 <= i < |rows'| && m in rest' ==> rows'[i].month < m)
  {
    var row := RowOf(month, rest[month]);
    var rows', rest' := rows + [row], rest - {month};
    assert RowFrom(row, agg);
    forall i | 0 <= i < |rows'| ensures RowFrom(rows'[i], agg) && rows'[i].month !in rest' {
      if i < |rows| {
        assert rows'[i] == rows[i];
      }
    }
    forall i, j | 0 <= i < j < |rows'| ensures rows'[i].month < rows'[j].month {
      assert rows'[i] == rows[i];
      if j < |rows| {
        assert rows'[j] == rows[j];
      }
    }
    forall i, m | 0 <= i < |rows'| && m in rest' ensures rows'[i].month < m {
      if i < |rows| {
        assert rows'[i] == rows[i];
      }
    }
  }

  /** Taking a month keeps every finished month with steps among the rows. */
  lemma TakeMonths(agg: map<int, Aggregate>, rest: map<int, Aggregate>, rows: seq<Row>, month: int)
    requires forall m :: m in agg && m !in rest && agg[m].t2 > 0 ==> m in Months(rows)
    requires month in rest && rest[month].t2 > 0
    ensures var rows' := rows + [RowOf(month, rest[month])];
      forall m :: m in agg && m !in rest - {month} && agg[m].t2 > 0 ==> m in Months(rows')
  {
    var row := RowOf(month, rest[month]);
    AppendRow(rows, row);
    forall m | m in agg && m !in rest - {month} && agg[m].t2 > 0 ensures m in Months(rows + [row]) {
      if m != month {
        assert m !in rest;
      }
    }
  }

  lemma FinalizeEnd(agg: map<int, Aggregate>, rest: map<int, Aggregate>, rows: seq<Row>)
    requires Finalizing(agg, rest, rows)
    requires rest.Keys == {}
    ensures RowsOf(rows, agg)
    ensures SumRowsT2(rows) == SumT2(agg)
  {
    assert rest == map[];
  }

  // ---------------------------------------------------------------------------
  // Lemmas

  lemma NonEmptyMap(m: map<int, Aggregate>)
    requires m != map[]
    ensures exists k :: k in m
  {
    assert (forall k :: k !in m) ==> m == map[];
  }

  lemma NonEmptySet(s: set<int>)
    requires s != {}
    ensures exists k :: k in s
  {
    assert (forall k :: k !in s) ==> s == {};
  }

  lemma MinExists(keys: set<int>)
    requires keys != {}
    ensures exists k :: k in keys && forall j :: j in keys ==> k <= j
    decreases |keys|
  {
    NonEmptySet(keys);
    var k :| k in keys;
    var rest := keys - {k};
    if rest != {} {
      MinExists(rest);
      var j :| j in rest && forall i :: i in rest ==> j <= i;
      var least := if k < j then k else j;
      forall i | i in keys ensures least <= i {
        if i != k {
          assert i in rest;
        }
      }
      assert least in keys;
    } else {
      forall i | i in keys ensures k <= i {
        assert i !in rest;
      }
    }
  }

  lemma StepsSnoc(site: Site, monthOf: int -> int, start: int, k: nat)
    ensures Steps(site, monthOf, start, k + 1) == Steps(site, monthOf, start, k) + [StepAt(site, monthOf, start, k)]
  {
    var longer, short := Steps(site, monthOf, start, k + 1), Steps(site, monthOf, start, k);
    forall i | 0 <= i < k ensures longer[i] == short[i] {
    }
  }

  lemma AppendRow(rows: seq<Row>, row: Row)
    ensures SumRowsT2(rows + [row]) == SumRowsT2(rows) + row.t2
    ensures Months(rows + [row]) == Months(rows) + [row.month]
  {
    assert (rows + [row])[..|rows|] == rows;
  }

  lemma FoldSnoc(steps: seq<Step>, st: Step)
    ensures Fold(steps + [st]) == Tally(Fold(steps), st)
  {
    assert (steps + [st])[..|steps|] == steps;
  }

  /** The total of T2 does not depend on which month is taken first. */
  lemma {:induction false} SumT2Remove(agg: map<int, Aggregate>, k: int)
    requires k in agg
    ensures SumT2(agg) == agg[k].t2 + SumT2(agg - {k})
    decreases |agg|
  {
    var m :| m in agg.Keys && SumT2(agg) == agg[m].t2 + SumT2(agg - {m});
    if m != k {
      assert (agg - {m}).Keys == agg.Keys - {m};
      assert (agg - {k}).Keys == agg.Keys - {k};
      SumT2Remove(agg - {m}, k);
      SumT2Remove(agg - {k}, m);
      assert agg - {m} - {k} == agg - {k} - {m};
    }
  }

  /** Each step adds exactly one to the total of T2. */
  lemma SumT2Tally(agg: map<int, Aggregate>, st: Step)
    ensures SumT2(Tally(agg, st)) == SumT2(agg) + 1
  {
    var t := Tally(agg, st);
    SumT2Remove(t, st.month);
    if st.month in agg {
      SumT2Remove(agg, st.month);
      assert t - {st.month} == agg - {st.month};
    } else {
      assert t - {st.month} == agg;
    }
  }

  /** The sum of T2 over all months is the number of steps tallied. */
  lemma {:induction false} StepsTotal(steps: seq<Step>)
    ensures SumT2(Fold(steps)) == |steps|
  {
    if steps != [] {
      StepsTotal(steps[..|steps| - 1]);
      SumT2Tally(Fold(steps[..|steps| - 1]), steps[|steps| - 1]);
    }
  }

  lemma {:induction false} SumUnitBounds(xs: seq<real>)
    requires forall i :: 0 <= i < |xs| ==> 0.0 <= xs[i] <= 1.0
    ensures 0.0 <= Sum(xs) <= |xs| as real
  {
    if xs != [] {
      SumUnitBounds(xs[..|xs| - 1]);
    }
  }

  /** A counted step contributes a value between 0 and 1. */
  lemma StepValueBounds(cps: seq<Timeline>, s: int)
    ensures 0.0 <= StepValue(cps, s) <= 1.0
  {
    SumUnitBounds(Ratios(cps, s, CheckpointCount));
  }

  predicate InUnit(o: Outcome)
  {
    o.Counted? ==> 0.0 <= o.value <= 1.0
  }

  /** Every walked step is excluded, skipped or counted with a value in [0, 1]. */
  lemma StepsInUnit(site: Site, monthOf: int -> int, start: int, n: nat)
    ensures forall k :: 0 <= k < n ==> InUnit(Steps(site, monthOf, start, n)[k].outcome)
  {
    forall k | 0 <= k < n ensures InUnit(Steps(site, monthOf, start, n)[k].outcome) {
      StepValueBounds(site.chargePoints, StepStart(start, k));
    }
  }

  predicate Consistent(a: Aggregate)
  {
    0.0 <= a.tsum && a.t3 as real + a.tsum <= a.t2 as real
  }

  /** Every month keeps 0 <= T_sum and T3 + T_sum <= T2. */
  lemma {:induction false} FoldBounded(steps: seq<Step>)
    requires forall k :: 0 <= k < |steps| ==> InUnit(steps[k].outcome)
    ensures forall m :: m in Fold(steps) ==> Consistent(Fold(steps)[m])
  {
    if steps != [] {
      FoldBounded(steps[..|steps| - 1]);
    }
  }

  /** The displayed percentage `(T_sum + T3) / T2 * 100` lies in [0, 100]. */
  lemma RowPctBounds(month: int, a: Aggregate)
    requires a.t2 > 0 && Consistent(a)
    ensures 0.0 <= RowOf(month, a).pct <= 100.0
  {
    var num := a.tsum + a.t3 as real;
    var den := a.t2 as real;
    assert 0.0 <= num / den <= 1.0;
  }

  /** How many steps fall in month `m`. */
  function StepsInMonth(steps: seq<Step>, m: int): nat
  {
    if steps == [] then 0
    else StepsInMonth(steps[..|steps| - 1], m) + (if steps[|steps| - 1].month == m then 1 else 0)
  }

  /** How many of them are waived by an exclusion window. */
  function ExcludedInMonth(steps: seq<Step>, m: int): nat
  {
    if steps == [] then 0
    else
      var st := steps[|steps| - 1];
      ExcludedInMonth(steps[..|steps| - 1], m) + (if st.month == m && st.outcome.Excluded? then 1 else 0)
  }

  /** The sum of the values of its counted steps. */
  function ValueInMonth(steps: seq<Step>, m: int): real
  {
    if steps == [] then 0.0
    else
      var st := steps[|steps| - 1];
      ValueInMonth(steps[..|steps| - 1], m) + (if st.month == m && st.outcome.Counted? then st.outcome.value else 0.0)
  }

  /** The aggregates hold a month exactly when some step starts in it, and its
      counters count that month's steps, its excluded steps and the sum of its
      step values. */
  lemma {:induction false} FoldPerMonth(steps: seq<Step>, m: int)
    ensures m in Fold(steps) <==> StepsInMonth(steps, m) > 0
    ensures m in Fold(steps) ==>
      Fold(steps)[m] == Aggregate(StepsInMonth(steps, m), ExcludedInMonth(steps, m), ValueInMonth(steps, m))
  {
    if steps != [] {
      var init := steps[..|steps| - 1];
      FoldPerMonth(init, m);
      if m !in Fold(init) {
        NoStepsNoCounters(init, m);
      }
    }
  }

  lemma {:induction false} NoStepsNoCounters(steps: seq<Step>, m: int)
    requires StepsInMonth(steps, m) == 0
    ensures ExcludedInMonth(steps, m) == 0 && ValueInMonth(steps, m) == 0.0
  {
    if steps != [] {
      NoStepsNoCounters(steps[..|steps| - 1], m);
    }
  }

  /** Month keys never decrease with time. */
  ghost predicate Monotone(monthOf: int -> int)
  {
    forall a, b :: a <= b ==> monthOf(a) <= monthOf(b)
  }

  /** Tallying further steps of other months leaves a month's counters as they were. */
  lemma {:induction false} FoldOtherMonths(steps: seq<Step>, more: seq<Step>, m: int)
    requires forall k :: 0 <= k < |more| ==> more[k].month != m
    ensures m in Fold(steps + more) <==> m in Fold(steps)
    ensures m in Fold(steps) ==> Fold(steps + more)[m] == Fold(steps)[m]
    decreases |more|
  {
    if more == [] {
      assert steps + more == steps;
    } else {
      var init := more[..|more| - 1];
      assert steps + more == (steps + init) + [more[|more| - 1]];
      FoldOtherMonths(steps, init, m);
      FoldSnoc(steps + init, more[|more| - 1]);
    }
  }

  /** A longer walk starts with the shorter one. */
  lemma StepsPrefix(site: Site, monthOf: int -> int, start: int, n: nat, extra: nat)
    ensures Steps(site, monthOf, start, n + extra)[..n] == Steps(site, monthOf, start, n)
  {
    var longer, short := Steps(site, monthOf, start, n + extra), Steps(site, monthOf, start, n);
    forall k | 0 <= k < n ensures longer[..n][k] == short[k] {
      assert longer[..n][k] == longer[k];
    }
  }

  /** Steps are counted from `start`, so a longer window walks the same first
      steps: walking further leaves every month that ended before the extra
      steps exactly as it was. */
  lemma WindowExtension(site: Site, monthOf: int -> int, start: int, n: nat, extra: nat, m: int)
    requires Monotone(monthOf)
    requires m < monthOf(StepStart(start, n))
    ensures m in Fold(Steps(site, monthOf, start, n + extra)) <==> m in Fold(Steps(site, monthOf, start, n))
    ensures m in Fold(Steps(site, monthOf, start, n)) ==>
      Fold(Steps(site, monthOf, start, n + extra))[m] == Fold(Steps(site, monthOf, start, n))[m]
  {
    var longer := Steps(site, monthOf, start, n + extra);
    StepsPrefix(site, monthOf, start, n, extra);
    LaterSteps(site, monthOf, start, n, extra, m, longer[n..]);
    FoldPrefix(longer, n, m);
  }

  /** Splitting a walk after `n` steps, when no later step is in month `m`. */
  lemma FoldPrefix(steps: seq<Step>, n: nat, m: int)
    requires n <= |steps|
    requires forall k :: 0 <= k < |steps[n..]| ==> steps[n..][k].month != m
    ensures m in Fold(steps) <==> m in Fold(steps[..n])
    ensures m in Fold(steps[..n]) ==> Fold(steps)[m] == Fold(steps[..n])[m]
  {
    assert steps == steps[..n] + steps[n..];
    FoldOtherMonths(steps[..n], steps[n..], m);
  }

  /** The steps walked after the first `n` belong to months after `m`. */
  lemma LaterSteps(site: Site, monthOf: int -> int, start: int, n: nat, extra: nat, m: int, more: seq<Step>)
    requires Monotone(monthOf)
    requires m < monthOf(StepStart(start, n))
    requires more == Steps(site, monthOf, start, n + extra)[n..]
    ensures forall k :: 0 <= k < |more| ==> more[k].month != m
  {
    var longer := Steps(site, monthOf, start, n + extra);
    forall k | 0 <= k < |more| ensures more[k].month != m {
      var a, b := StepStart(start, n), StepStart(start, n + k);
      assert more[k] == longer[n + k];
      assert more[k].month == monthOf(b);
      assert monthOf(a) <= monthOf(b);
    }
  }

  // Gate properties

  /** Without an "AC" timeline (or with an empty one) no step counts unless excluded. */
  lemma MissingAcSkips(site: Site, s: int)
    requires !HasData(Role(site.equipment, "AC"))
    requires !Covered(site.exclusions, s, s + StepSeconds)
    ensures StepOutcome(site, s) == Skipped
  {
    HasDataMeaning(Role(site.equipment, "AC"));
    assert !Up(StatusAt(Role(site.equipment, "AC"), Checkpoint(s, 0)));
  }

  /** The battery pair tolerates one side down at a time and fails as soon as
      both are down at the same checkpoint. */
  lemma BatteryRedundancy(dc1: Timeline, dc2: Timeline, s: int)
    ensures BatteriesOk(dc1, dc2, s) <==>
      forall i :: 0 <= i < CheckpointCount ==>
        Up(StatusAt(dc1, Checkpoint(s, i))) || Up(StatusAt(dc2, Checkpoint(s, i)))
  {
  }

  /** With fewer than four charge-point timelines at least three of the six
      places are always down, so every step that reaches this gate is blocked. */
  lemma FewChargePointsBlock(cps: seq<Timeline>, s: int)
    requires |cps| < 4
    ensures StationBlocked(cps, s)
  {
    assert Blocked(cps, Checkpoint(s, 0));
  }

  lemma {:induction false} SumConstant(xs: seq<real>, c: real)
    requires forall i :: 0 <= i < |xs| ==> xs[i] == c
    ensures Sum(xs) == |xs| as real * c
  {
    if xs != [] {
      SumConstant(xs[..|xs| - 1], c);
    }
  }

  /** The mean of a sequence whose items are all `c` is `c`. */
  lemma MeanConstant(xs: seq<real>, c: real)
    requires |xs| > 0
    requires forall i :: 0 <= i < |xs| ==> xs[i] == c
    ensures Mean(xs) == c
  {
    SumConstant(xs, c);
    var n := |xs| as real;
    assert Sum(xs) == n * c;
    assert n * c / n == c;
  }

  /** When the same number of charge points is up at every checkpoint, the step
      value is that number over the denominator. */
  lemma UniformStepValue(cps: seq<Timeline>, s: int, up: nat)
    requires forall i :: 0 <= i < CheckpointCount ==> AvailableCount(cps, Checkpoint(s, i)) == up
    ensures StepValue(cps, s) == up as real / Denominator(|cps|) as real
  {
    var rs := Ratios(cps, s, CheckpointCount);
    var c := Ratio(cps, Checkpoint(s, 0));
    forall i | 0 <= i < |rs| ensures rs[i] == c {
      assert rs[i] == Ratio(cps, Checkpoint(s, i));
    }
    MeanConstant(rs, c);
  }

  lemma SixUniformValue(cps: seq<Timeline>, s: int, up: nat)
    requires |cps| == 6
    requires forall i :: 0 <= i < CheckpointCount ==> AvailableCount(cps, Checkpoint(s, i)) == up
    ensures StepValue(cps, s) == up as real / 6.0
  {
    assert Denominator(|cps|) == 6;
    UniformStepValue(cps, s, up);
  }

  /** A step that passes every gate counts its mean ratio. */
  lemma PassingStep(site: Site, s: int)
    requires !Covered(site.exclusions, s, s + StepSeconds)
    requires AcOk(Role(site.equipment, "AC"), s)
    requires BatteriesOk(Role(site.equipment, "DC1"), Role(site.equipment, "DC2"), s)
    requires !StationBlocked(site.chargePoints, s)
    ensures StepOutcome(site, s) == Counted(StepValue(site.chargePoints, s))
  {
  }

  /** The loop's step count: the whole steps that fit between `start` and
      `end`; the last one ends by `end` and one more would pass it, so a
      trailing partial step is dropped. */
  lemma StepCountMeaning(start: int, end: int)
    ensures var n := StepCount(start, end);
      (n > 0 ==> StepStart(start, n - 1) + StepSeconds <= end)
      && (start <= end ==> StepStart(start, n) + StepSeconds > end)
  {
    if start < end {
      var n := StepCount(start, end);
      assert n * StepSeconds <= end - start < (n + 1) * StepSeconds;
    }
  }

  /** Six charge points with the same number up throughout a step that passes
      the AC and battery gates: four or more up and the step counts up/6; three
      or fewer and it is skipped. */
  lemma SixChargePointsScenario(site: Site, s: int, up: nat)
    requires |site.chargePoints| == 6
    requires !Covered(site.exclusions, s, s + StepSeconds)
    requires AcOk(Role(site.equipment, "AC"), s)
    requires BatteriesOk(Role(site.equipment, "DC1"), Role(site.equipment, "DC2"), s)
    requires forall i :: 0 <= i < CheckpointCount ==> AvailableCount(site.chargePoints, Checkpoint(s, i)) == up
    ensures up >= 4 ==> StepOutcome(site, s) == Counted(up as real / 6.0)
    ensures up <= 3 ==> StepOutcome(site, s) == Skipped
  {
    var cps := site.chargePoints;
    assert Denominator(|cps|) == 6;
    if up >= 4 {
      forall i | 0 <= i < CheckpointCount ensures !Blocked(cps, Checkpoint(s, i)) {
        assert AvailableCount(cps, Checkpoint(s, i)) == up;
      }
      assert !StationBlocked(cps, s);
      SixUniformValue(cps, s, up);
      PassingStep(site, s);
    } else {
      assert AvailableCount(cps, Checkpoint(s, 0)) == up;
      assert Blocked(cps, Checkpoint(s, 0));
    }
  }

  /** The warnings: a charge-point warning first exactly when there are no
      charge points, then one line naming every role without data, if any. */
  lemma WarningsMeaning(site: Site)
    ensures (|Warnings(site)| > 0 && Warnings(site)[0] == NoChargePointWarning) <==> |site.chargePoints| == 0
    ensures |Warnings(site)| == (if |site.chargePoints| == 0 then 1 else 0) + (if MissingRoles(site.equipment) == [] then 0 else 1)
    ensures MissingRoles(site.equipment) != [] ==>
      Warnings(site)[|Warnings(site)| - 1] == MissingDataPrefix + Join(MissingRoles(site.equipment), ", ")
  {
    var missing := MissingRoles(site.equipment);
    if |site.chargePoints| > 0 && missing != [] {
      var w := MissingDataPrefix + Join(missing, ", ");
      assert w[0] == MissingDataPrefix[0] == 'D';
      assert NoChargePointWarning[0] == 'A';
    }
  }
}
