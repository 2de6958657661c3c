/** Availability timelines, exclusion collections and the timeline builder of
    `Dispo/contract_calculator.py`.  Timestamps are integer seconds in one fixed
    time zone; an interval `[start, end)` is half-open. */
module Timelines {
  import opened Wrappers

  /** One stored record: `(start, end, est_disponible, is_excluded)`. */
  datatype Interval = Interval(start: int, end: int, status: int, excluded: int)

  /** The answer of a point lookup: `(is_available, is_excluded, has_data)`. */
  datatype Status = Status(available: bool, excluded: bool, hasData: bool)

  const NoData := Status(false, false, false)

  /** The status an interval reports for an instant it contains. */
  function StatusOf(iv: Interval): Status
  {
    Status(iv.status == 1, iv.excluded == 1, true)
  }

  function StartsOf(ivs: seq<Interval>): seq<int>
  {
    seq(|ivs|, i requires 0 <= i < |ivs| => ivs[i].start)
  }

  predicate Sorted(s: seq<int>)
  {
    forall i, j :: 0 <= i < j < |s| ==> s[i] <= s[j]
  }

  predicate SortedByStart(ivs: seq<Interval>)
  {
    forall i, j :: 0 <= i < j < |ivs| ==> ivs[i].start <= ivs[j].start
  }

  /** The intervals together with the cached list of their starts, which
      `__post_init__` computes once for the binary search. */
  datatype TimelineData = TimelineData(intervals: seq<Interval>, starts: seq<int>)

  /** A timeline whose cache is consistent and whose starts are sorted, as
      `bisect_right` demands and as `BuildTimeline` guarantees. */
  type Timeline = t: TimelineData | t.starts == StartsOf(t.intervals) && Sorted(t.starts)
    witness TimelineData([], [])

  const EmptyTimeline: Timeline := TimelineData([], [])

  /** `AvailabilityTimeline(intervals)`: wraps sorted intervals and caches their starts. */
  function MakeTimeline(ivs: seq<Interval>): (t: Timeline)
    requires SortedByStart(ivs)
    ensures t.intervals == ivs
  {
    TimelineData(ivs, StartsOf(ivs))
  }

  /** `has_data`: the timeline holds at least one interval; without one, no
      instant has data. */
  predicate HasData(t: Timeline)
    ensures !HasData(t) ==> forall ts :: StatusAt(t, ts) == NoData
  {
    |t.intervals| > 0
  }

  /** `bisect_right(s, x)` as a specification: the number of leading elements
      that are at most `x`, which on a sorted list splits it into the part
      `<= x` and the part `> x`. */
  function CountAtMost(s: seq<int>, x: int): (n: nat)
    requires Sorted(s)
    ensures n <= |s|
    ensures forall i :: 0 <= i < n ==> s[i] <= x
    ensures forall i :: n <= i < |s| ==> s[i] > x
  {
    if s == [] then 0
    else if s[|s| - 1] <= x then |s|
    else CountAtMost(s[..|s| - 1], x)
  }

  /** `bisect_right` itself: a binary search over a sorted list. */
  method BisectRight(s: seq<int>, x: int) returns (lo: nat)
    requires Sorted(s)
    ensures lo == CountAtMost(s, x)
  {
    lo := 0;
    var hi := |s|;
    while lo < hi
      invariant 0 <= lo <= hi <= |s|
      invariant forall i :: 0 <= i < lo ==> s[i] <= x
      invariant forall i :: hi <= i < |s| ==> s[i] > x
      decreases hi - lo
    {
      var mid := (lo + hi) / 2;
      if x < s[mid] {
        hi := mid;
      } else {
        lo := mid + 1;
      }
    }
    assert lo < |s| ==> s[lo] > x;
    assert lo > 0 ==> s[lo - 1] <= x;
  }

  /** `status_at(ts)`: the interval with the rightmost start at or before `ts`
      answers, provided `ts` lies before its end; otherwise there is no data. */
  function StatusAt(t: Timeline, ts: int): (r: Status)
    ensures r == NoData || r.hasData
    ensures r.hasData ==> |t.intervals| > 0 && t.intervals[0].start <= ts
  {
    if |t.intervals| == 0 then NoData
    else
      var idx := CountAtMost(t.starts, ts) - 1;
      if idx < 0 then NoData
      else
        assert t.starts[0] == t.intervals[0].start <= ts;
        var iv := t.intervals[idx];
        if iv.start <= ts < iv.end then StatusOf(iv) else NoData
  }

  /** The lookup as the engine performs it, through the binary search. */
  method LookupStatus(t: Timeline, ts: int) returns (r: Status)
    ensures r == StatusAt(t, ts)
  {
    if |t.intervals| == 0 {
      return NoData;
    }
    var pos := BisectRight(t.starts, ts);
    var idx := pos as int - 1;
    if idx < 0 {
      return NoData;
    }
    var iv := t.intervals[idx];
    if iv.start <= ts < iv.end {
      r := StatusOf(iv);
    } else {
      r := NoData;
    }
  }

  /** `k` is the rightmost interval whose start is at or before `ts`. */
  predicate IsRightmostAtMost(t: Timeline, k: int, ts: int)
  {
    && 0 <= k < |t.intervals|
    && t.intervals[k].start <= ts
    && forall j :: k < j < |t.intervals| ==> t.intervals[j].start > ts
  }

  /** No data when the timeline is empty or `ts` precedes every start. */
  lemma StatusAtBeforeFirst(t: Timeline, ts: int)
    requires |t.intervals| == 0 || ts < t.intervals[0].start
    ensures StatusAt(t, ts) == NoData
  {
    if |t.intervals| > 0 {
      var n := CountAtMost(t.starts, ts);
      assert t.starts[0] == t.intervals[0].start;
      assert n == 0;
    }
  }

  /** Otherwise the rightmost interval starting at or before `ts` decides alone:
      its status when `ts` is before its end, no data when `ts` is at or past it,
      whatever earlier (possibly overlapping) intervals say. */
  lemma StatusAtRightmost(t: Timeline, k: int, ts: int)
    requires IsRightmostAtMost(t, k, ts)
    ensures StatusAt(t, ts) == if ts < t.intervals[k].end then StatusOf(t.intervals[k]) else NoData
  {
    forall j | k < j < |t.intervals| ensures t.starts[j] > ts {
      assert t.starts[j] == t.intervals[j].start;
    }
    assert t.starts[k] <= ts;
    assert k + 1 < |t.starts| ==> t.starts[k + 1] > ts;
    assert CountAtMost(t.starts, ts) == k + 1;
  }

  /** A lookup never reports "available" or "excluded" without data, and it
      reports data exactly when some rightmost interval contains `ts`. */
  lemma StatusAtHasData(t: Timeline, ts: int)
    ensures !StatusAt(t, ts).hasData ==> StatusAt(t, ts) == NoData
    ensures StatusAt(t, ts).hasData <==>
      exists k :: IsRightmostAtMost(t, k, ts) && ts < t.intervals[k].end
  {
    var r := StatusAt(t, ts);
    if |t.intervals| > 0 {
      var n := CountAtMost(t.starts, ts);
      if n > 0 {
        assert t.starts[n - 1] == t.intervals[n - 1].start;
        forall j | n - 1 < j < |t.intervals| ensures t.intervals[j].start > ts {
          assert t.starts[j] == t.intervals[j].start;
        }
        assert IsRightmostAtMost(t, n - 1, ts);
        if r.hasData {
          assert ts < t.intervals[n - 1].end;
        } else {
          forall k | IsRightmostAtMost(t, k, ts) ensures ts >= t.intervals[k].end {
            StatusAtRightmost(t, k, ts);
          }
        }
      } else {
        forall k | 0 <= k < |t.intervals| ensures t.intervals[k].start > ts {
          assert t.starts[k] == t.intervals[k].start;
        }
      }
    }
  }

  /** An empty timeline has no data anywhere; a non-empty one whose intervals are
      non-empty has data at the start of its last interval. */
  lemma HasDataMeaning(t: Timeline)
    ensures !HasData(t) ==> forall ts :: StatusAt(t, ts) == NoData
    ensures HasData(t) && (forall i :: 0 <= i < |t.intervals| ==> t.intervals[i].start < t.intervals[i].end) ==>
      StatusAt(t, t.intervals[|t.intervals| - 1].start).hasData
  {
    if HasData(t) {
      var k := |t.intervals| - 1;
      assert IsRightmostAtMost(t, k, t.intervals[k].start);
      StatusAtRightmost(t, k, t.intervals[k].start);
    }
  }

  // ---------------------------------------------------------------------------
  // IntervalCollection

  /** One exclusion window `(start, end)`. */
  datatype Range = Range(start: int, end: int)

  /** Some single stored range contains `[s, e]` entirely. */
  predicate Covered(ranges: seq<Range>, s: int, e: int)
  {
    exists k :: 0 <= k < |ranges| && ranges[k].start <= s && ranges[k].end >= e
  }

  /** `IntervalCollection.covers`: a linear scan that stops at the first range
      containing the queried one. */
  method Covers(ranges: seq<Range>, s: int, e: int) returns (b: bool)
    ensures b <==> Covered(ranges, s, e)
  {
    var i := 0;
    while i < |ranges|
      invariant 0 <= i <= |ranges|
      invariant forall k :: 0 <= k < i ==> !(ranges[k].start <= s && ranges[k].end >= e)
    {
      if ranges[i].start <= s && ranges[i].end >= e {
        return true;
      }
      i := i + 1;
    }
    return false;
  }

  // ---------------------------------------------------------------------------
  // build_timeline

  /** One row of the source frame: `date_debut`, `date_fin` (None when they do
      not parse), `est_disponible` and `is_excluded` (None when the column is absent). */
  datatype RawRecord = RawRecord(start: Option<int>, end: Option<int>, status: Option<int>, excluded: Option<int>)

  /** A record clipped to `[ws, we]`, or None when it is dropped. */
  function Clip(r: RawRecord, ws: int, we: int): (c: Option<Interval>)
    ensures c.Some? <==> r.start.Some? && r.end.Some? && Max(r.start.value, ws) < Min(r.end.value, we)
    ensures c.Some? ==> ws <= c.value.start < c.value.end <= we
  {
    if r.start.None? || r.end.None? then None
    else
      var s := Max(r.start.value, ws);
      var e := Min(r.end.value, we);
      if s >= e then None
      else Some(Interval(s, e, r.status.GetOr(0), r.excluded.GetOr(0)))
  }

  function Max(a: int, b: int): int { if a >= b then a else b }
  function Min(a: int, b: int): int { if a <= b then a else b }

  /** The kept records, clipped, in input order. */
  function ClipAll(rs: seq<RawRecord>, ws: int, we: int): (ivs: seq<Interval>)
    ensures |ivs| <= |rs|
    ensures forall iv :: iv in ivs ==> ws <= iv.start < iv.end <= we
    ensures forall iv :: iv in ivs <==> exists r :: r in rs && Clip(r, ws, we) == Some(iv)
  {
    if rs == [] then []
    else
      var prefix := ClipAll(rs[..|rs| - 1], ws, we);
      var last := rs[|rs| - 1];
      assert rs == rs[..|rs| - 1] + [last];
      match Clip(last, ws, we)
      case None => prefix
      case Some(iv) => prefix + [iv]
  }

  /** Places `x` after every element whose start is at most its own. */
  function InsertByStart(x: Interval, s: seq<Interval>): (r: seq<Interval>)
    requires SortedByStart(s)
    ensures SortedByStart(r)
    ensures multiset(r) == multiset(s) + multiset{x}
  {
    if s == [] || s[|s| - 1].start <= x.start then
      SortedSnoc(s, x);
      s + [x]
    else
      var init, last := s[..|s| - 1], s[|s| - 1];
      assert s == init + [last];
      var r' := InsertByStart(x, init);
      InsertedBelow(x, init, r', last.start);
      SortedSnoc(r', last);
      r' + [last]
  }

  /** Appending an interval that starts no earlier than any other keeps the order. */
  lemma SortedSnoc(s: seq<Interval>, y: Interval)
    requires SortedByStart(s)
    requires forall i :: 0 <= i < |s| ==> s[i].start <= y.start
    ensures SortedByStart(s + [y])
  {
    var t := s + [y];
    forall i, j | 0 <= i < j < |t| ensures t[i].start <= t[j].start {
      assert t[i] == s[i];
      if j < |s| {
        assert t[j] == s[j];
      }
    }
  }

  /** A permutation of `init` plus `x` stays below a bound that both respect. */
  lemma InsertedBelow(x: Interval, init: seq<Interval>, r: seq<Interval>, bound: int)
    requires multiset(r) == multiset(init) + multiset{x}
    requires x.start <= bound
    requires forall i :: 0 <= i < |init| ==> init[i].start <= bound
    ensures forall i :: 0 <= i < |r| ==> r[i].start <= bound
  {
    forall i | 0 <= i < |r| ensures r[i].start <= bound {
      assert r[i] in multiset(r);
      if r[i] != x {
        assert r[i] in multiset(init);
        assert r[i] in init;
      }
    }
  }

  /** `records.sort(key=start)`: a stable sort by start (insertion sort). */
  function SortByStart(s: seq<Interval>): (r: seq<Interval>)
    ensures SortedByStart(r)
    ensures multiset(r) == multiset(s)
  {
    if s == [] then []
    else
      assert s == s[..|s| - 1] + [s[|s| - 1]];
      InsertByStart(s[|s| - 1], SortByStart(s[..|s| - 1]))
  }

  /** The elements of `s` with start `key`, in order. */
  function WithStart(s: seq<Interval>, key: int): seq<Interval>
  {
    if s == [] then []
    else WithStart(s[..|s| - 1], key) + (if s[|s| - 1].start == key then [s[|s| - 1]] else [])
  }

  lemma {:induction false} WithStartAppend(a: seq<Interval>, b: seq<Interval>, key: int)
    ensures WithStart(a + b, key) == WithStart(a, key) + WithStart(b, key)
    decreases |b|
  {
    if b == [] {
      assert a + b == a;
    } else {
      var init := b[..|b| - 1];
      assert a + b == (a + init) + [b[|b| - 1]];
      assert (a + b)[..|a + b| - 1] == a + init;
      WithStartAppend(a, init, key);
    }
  }

  lemma {:induction false} WithStartAllAbove(s: seq<Interval>, key: int)
    requires forall i :: 0 <= i < |s| ==> s[i].start > key
    ensures WithStart(s, key) == []
    decreases |s|
  {
    if s != [] {
      WithStartAllAbove(s[..|s| - 1], key);
    }
  }

  lemma WithStartSingle(y: Interval, key: int)
    ensures WithStart([y], key) == if y.start == key then [y] else []
  {
    assert [y][..0] == [];
  }

  lemma SwapAroundEmpty(a: seq<Interval>, b: seq<Interval>, c: seq<Interval>)
    requires b == [] || c == []
    ensures (a + b) + c == (a + c) + b
  {
    if b == [] {
      assert a + b == a;
      assert (a + c) + b == a + c;
    } else {
      assert (a + b) + c == a + b;
      assert a + c == a;
    }
  }

  lemma {:induction false} InsertByStartStable(x: Interval, s: seq<Interval>, key: int)
    requires SortedByStart(s)
    ensures WithStart(InsertByStart(x, s), key) == WithStart(s, key) + WithStart([x], key)
    decreases |s|
  {
    if s == [] || s[|s| - 1].start <= x.start {
      WithStartAppend(s, [x], key);
    } else {
      var init := s[..|s| - 1];
      var last := s[|s| - 1];
      assert s == init + [last];
      var a := InsertByStart(x, init);
      assert InsertByStart(x, s) == a + [last];
      var wi, wx, wl := WithStart(init, key), WithStart([x], key), WithStart([last], key);
      WithStartSingle(x, key);
      WithStartSingle(last, key);
      // x.start < last.start: at most one of the two singletons has start `key`.
      assert wx == [] || wl == [];
      WithStartAppend(a, [last], key);
      InsertByStartStable(x, init, key);
      assert WithStart(a + [last], key) == (wi + wx) + wl;
      SwapAroundEmpty(wi, wx, wl);
      WithStartAppend(init, [last], key);
      assert WithStart(s, key) == wi + wl;
    }
  }

  /** Stability: among intervals sharing a start, the sort keeps input order,
      so a lookup that falls on equal starts picks the last such input record. */
  lemma {:induction false} SortByStartStable(s: seq<Interval>, key: int)
    ensures WithStart(SortByStart(s), key) == WithStart(s, key)
    decreases |s|
  {
    if s != [] {
      var init := s[..|s| - 1];
      var last := s[|s| - 1];
      assert s == init + [last];
      SortByStartStable(init, key);
      InsertByStartStable(last, SortByStart(init), key);
      WithStartAppend(init, [last], key);
    }
  }

  /** `build_timeline`: appends the clipped records one at a time, then sorts
      them by start.  A missing or empty frame gives the empty timeline. */
  method BuildTimeline(df: Option<seq<RawRecord>>, ws: int, we: int) returns (t: Timeline)
    ensures df.None? || df.value == [] ==> t.intervals == []
    ensures df.Some? ==> t.intervals == SortByStart(ClipAll(df.value, ws, we))
    ensures df.Some? ==> multiset(t.intervals) == multiset(ClipAll(df.value, ws, we))
    ensures forall iv :: iv in t.intervals ==> ws <= iv.start < iv.end <= we
    ensures SortedByStart(t.intervals)
  {
    if df.None? || df.value == [] {
      return EmptyTimeline;
    }
    var rows := df.value;
    var records: seq<Interval> := [];
    var i := 0;
    while i < |rows|
      invariant 0 <= i <= |rows|
      invariant records == ClipAll(rows[..i], ws, we)
    {
      assert rows[..i + 1][..i] == rows[..i];
      var c := Clip(rows[i], ws, we);
      if c.Some? {
        records := records + [c.value];
      }
      i := i + 1;
    }
    assert rows[..i] == rows;
    var sorted := SortByStart(records);
    forall iv | iv in sorted ensures ws <= iv.start < iv.end <= we {
      assert iv in multiset(sorted);
      assert iv in multiset(records);
    }
    t := MakeTimeline(sorted);
  }
}
