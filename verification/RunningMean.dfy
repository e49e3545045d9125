/** What a row is compared with: the mean of the open run, as a sum of its rows. */
module RunningMean {
  import opened RowSegments

  /** The sum of rows a, ..., b-1. */
  function SumOf(rows: seq<real>, a: int, b: int): real
    requires 0 <= a <= |rows| && b <= |rows|
    decreases b - a
  {
    if b <= a then 0.0 else SumOf(rows, a, b - 1) + rows[b - 1]
  }

  /** The run that began with row first is open before row i, and all its rows are in the
      band but for the first, which may be below it. */
  predicate SteadyRun(rows: seq<real>, m: Limits, first: int, i: int) {
    && 0 <= first < i <= |rows| && ScanTo(rows, i, m).start == first
    && (InBand(rows[first], m) || (rows[first] < m.lo && first + 1 < |rows| && InBand(rows[first + 1], m)))
    && forall k :: first < k < i ==> InBand(rows[k], m)
  }

  /** The sum of the run's rows; a first row below the band is counted as its successor. */
  function RunSum(rows: seq<real>, m: Limits, first: int, i: int): real
    requires SteadyRun(rows, m, first, i)
  {
    if InBand(rows[first], m) then SumOf(rows, first, i) else rows[first + 1] + SumOf(rows, first + 1, i)
  }

  lemma FirstRowOfRun(rows: seq<real>, m: Limits, first: nat)
    requires first < |rows| && ScanTo(rows, first + 1, m).start == first
    requires InBand(rows[first], m) || (rows[first] < m.lo && first + 1 < |rows| && InBand(rows[first + 1], m))
    ensures var s, v := ScanTo(rows, first + 1, m), if InBand(rows[first], m) then rows[first] else rows[first + 1];
            s.count == 1 && s.tempAvg == s.totalAvg == v
  {
    ScanKeepsStart(rows, first, m);
  }

  lemma LaterRowOfRun(rows: seq<real>, m: Limits, first: nat, i: nat)
    requires first + 1 < i && SteadyRun(rows, m, first, i)
    ensures ScanTo(rows, i - 1, m).start == first
    ensures var s, t := ScanTo(rows, i - 1, m), ScanTo(rows, i, m);
            t.count == s.count + 1 && t.tempAvg == s.tempAvg + rows[i - 1] && t.totalAvg == Mean(t.tempAvg, t.count)
  {
    ScanKeepsStart(rows, i - 1, m);
  }

  lemma {:induction false} RunKeepsSum(rows: seq<real>, m: Limits, first: nat, i: nat)
    requires SteadyRun(rows, m, first, i)
    ensures var s := ScanTo(rows, i, m);
            s.count == i - first && s.tempAvg == RunSum(rows, m, first, i) && s.totalAvg == Mean(s.tempAvg, s.count)
  {
    if i == first + 1 {
      FirstRowOfRun(rows, m, first);
      assert SumOf(rows, first, first + 1) == SumOf(rows, first, first) + rows[first];
    } else {
      LaterRowOfRun(rows, m, first, i);
      RunKeepsSum(rows, m, first, i - 1);
    }
  }

  /** A row is compared with the mean of all rows of the open run. */
  lemma MeanIsMeanOfRows(rows: seq<real>, m: Limits, first: nat, i: nat)
    requires SteadyRun(rows, m, first, i)
    ensures ScanTo(rows, i, m).totalAvg == RunSum(rows, m, first, i) / ((i - first) as real)
  {
    RunKeepsSum(rows, m, first, i);
  }

  predicate Deviates(v: real, mean: real, delta: real) { v < mean - delta || v > mean + delta }

  /** For all limits, the next row in the band ends the run if and only if it deviates by
      more than delta from the mean of the run's rows.  The run is then a segment, if it is
      long enough, and the row belongs to no run; otherwise the run goes on. */
  lemma NextRowEndsRunIffItDeviates(rows: seq<real>, m: Limits, first: nat, i: nat)
    requires SteadyRun(rows, m, first, i) && i < |rows| && InBand(rows[i], m)
    ensures var mean := RunSum(rows, m, first, i) / ((i - first) as real);
            var s, t := ScanTo(rows, i, m), ScanTo(rows, i + 1, m);
            && t.start == (if Deviates(rows[i], mean, m.delta) then -1 else first)
            && t.segments == s.segments + if Deviates(rows[i], mean, m.delta) && i - first >= m.minLength
                                          then [Segment(first, i)] else []
  {
    MeanIsMeanOfRows(rows, m, first, i);
  }

  // ---------- which runs rows outside the band open and end ----------

  /** Long enough runs end with a row outside the band: with the row before it if the row
      is above the band and that leaves the run long enough. */
  lemma RowOutsideEndsLongRun(rows: seq<real>, m: Limits, i: nat)
    requires i < |rows| && !InBand(rows[i], m) && m.lo <= m.hi
    requires var first := ScanTo(rows, i, m).start; first != -1 && i - first >= m.minLength
    ensures var s, t := ScanTo(rows, i, m), ScanTo(rows, i + 1, m);
            if rows[i] < m.lo then t.start == -1 && t.segments == s.segments + [Segment(s.start, i)]
            else if i - 1 - s.start >= m.minLength then
              t.start == -1 && t.segments == s.segments + [Segment(s.start, i - 1)]
            else t.start == s.start && t.segments == s.segments
  {
  }

  /** Otherwise a row below the band begins a run, unless it is the last row, and a row
      above the band leaves none open; shorter runs are forgotten. */
  lemma RowOutsideForgetsShortRun(rows: seq<real>, m: Limits, i: nat)
    requires i < |rows| && !InBand(rows[i], m) && m.lo <= m.hi
    requires var first := ScanTo(rows, i, m).start; first == -1 || i - first < m.minLength
    ensures var s, t := ScanTo(rows, i, m), ScanTo(rows, i + 1, m);
            t.segments == s.segments && t.start == if rows[i] < m.lo && i < |rows| - 1 then i else -1
  {
  }

  /** A row in the band begins a run if none is open. */
  lemma RowInsideOpensRun(rows: seq<real>, m: Limits, i: nat)
    requires i < |rows| && InBand(rows[i], m) && ScanTo(rows, i, m).start == -1
    ensures ScanTo(rows, i + 1, m).start == i && ScanTo(rows, i + 1, m).segments == ScanTo(rows, i, m).segments
  {
  }

  /** The run open at the end is a segment, too, if it is long enough. */
  lemma LastRunIsFlushed(rows: seq<real>, m: Limits)
    ensures var s, n := ScanTo(rows, |rows|, m), |rows|;
            Segments(rows, m) == s.segments + if s.start != -1 && n - s.start >= m.minLength
                                              then [Segment(s.start, n - 1)] else []
  {
  }
}
