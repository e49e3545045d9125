/** The scan that finds runs of text rows in a column of row densities. */
module RowSegments {

  datatype Segment = Segment(first: int, last: int)

  function AbsReal(x: real): real { if x < 0.0 then -x else x }

  /** The conversion to an integer, which drops the fraction. */
  function Truncated(x: real): int { if x < 0.0 then 0 - (-x).Floor else x.Floor }

  /** The limits as the scan uses them. */
  function ClampMax(maxRatio: real): real { if maxRatio > 0.85 then 0.85 else maxRatio }

  function ClampMin(minRatio: real): real { if minRatio < 0.15 then 0.15 else minRatio }

  /** The band of acceptable densities, the tolerated deviation from the running mean,
      and the least number of rows of a segment. */
  datatype Limits = Limits(lo: real, hi: real, delta: real, minLength: int)

  predicate InBand(v: real, m: Limits) { m.lo <= v <= m.hi }

  // ---------- the scan, row by row ----------

  /** The scanner's variables; start is -1 while no run is open. */
  datatype Scan = Scan(start: int, tempAvg: real, totalAvg: real, count: nat, segments: seq<Segment>)

  const IDLE := Scan(-1, 0.0, 0.0, 0, [])

  function Mean(sum: real, count: nat): real
    requires count > 0
  {
    sum / (count as real)
  }

  /** A run opened at a row below the band takes its mean from the next row. */
  function OpenBelow(rows: seq<real>, i: nat, m: Limits, s: Scan): Scan
    requires i + 1 < |rows|
  {
    var next := rows[i + 1];
    if InBand(next, m) then s.(start := i, tempAvg := next, totalAvg := next, count := 1) else s.(start := i)
  }

  function Emit(s: Scan, last: int): Scan {
    s.(segments := s.segments + [Segment(s.start, last)], start := -1)
  }

  /** A row inside the band. */
  function ScanInside(rows: seq<real>, i: nat, m: Limits, s: Scan): Scan
    requires i < |rows|
  {
    var v := rows[i];
    if s.start == -1 then s.(start := i, tempAvg := v, totalAvg := v, count := 1)
    else if AbsReal(v - s.totalAvg) > m.delta then
      (if i - s.start >= m.minLength then Emit(s, i) else s).(start := -1, count := 0)
    else
      var sum, n := s.tempAvg + v, s.count + 1;
      s.(tempAvg := sum, count := n, totalAvg := Mean(sum, n))
  }

  /** A row outside the band. */
  function ScanOutside(rows: seq<real>, i: nat, m: Limits, s: Scan): Scan
    requires i < |rows|
  {
    var v := rows[i];
    if s.start != -1 && i - s.start >= m.minLength then
      if v < m.hi then Emit(s, i)
      else if i - 1 - s.start >= m.minLength then Emit(s, i - 1)
      else s
    else if v < m.lo && i < |rows| - 1 then OpenBelow(rows, i, m, s)
    else s.(start := -1)
  }

  function ScanRow(rows: seq<real>, i: nat, m: Limits, s: Scan): Scan
    requires i < |rows|
  {
    var v := rows[i];
    if v < m.lo && s.start == -1 && i < |rows| - 1 then OpenBelow(rows, i, m, s)
    else if InBand(v, m) then ScanInside(rows, i, m, s)
    else ScanOutside(rows, i, m, s)
  }

  /** The scanner's variables after the first i rows. */
  function ScanTo(rows: seq<real>, i: nat, m: Limits): Scan
    requires i <= |rows|
  {
    if i == 0 then IDLE else ScanRow(rows, i - 1, m, ScanTo(rows, i - 1, m))
  }

  /** The segments, including the one still open at the end. */
  function Segments(rows: seq<real>, m: Limits): seq<Segment> {
    var s := ScanTo(rows, |rows|, m);
    if s.start != -1 && |rows| - s.start >= m.minLength then s.segments + [Segment(s.start, |rows| - 1)]
    else s.segments
  }

  // ---------- every segment is a run of rows in the band ----------

  /** The rows after the first of a run lie in the band, except possibly the one at
      offset exactly minLength. */
  predicate RunOk(rows: seq<real>, m: Limits, first: int, end: int) {
    0 <= first && end <= |rows|
    && forall k :: first < k < end && k != first + m.minLength ==> InBand(rows[k], m)
  }

  /** A segment is used as the rows first, ..., last - 1. */
  predicate SegmentOk(rows: seq<real>, m: Limits, s: Segment) {
    s.first <= s.last <= |rows| - 1 && RunOk(rows, m, s.first, s.last)
  }

  /** Each segment ends strictly before the next starts. */
  predicate Apart(segments: seq<Segment>) {
    forall a, b :: 0 <= a < b < |segments| ==> segments[a].last < segments[b].first
  }

  predicate Long(s: Segment, m: Limits) { s.last - s.first >= m.minLength }

  predicate ScanOk(rows: seq<real>, i: nat, m: Limits, s: Scan) {
    && -1 <= s.start < i
    && (s.start != -1 ==> RunOk(rows, m, s.start, i))
    && Apart(s.segments)
    && (forall a :: 0 <= a < |s.segments| ==>
          && SegmentOk(rows, m, s.segments[a]) && Long(s.segments[a], m)
          && s.segments[a].last < (if s.start == -1 then i else s.start))
  }

  lemma NothingScanned(rows: seq<real>, m: Limits)
    ensures ScanOk(rows, 0, m, IDLE)
  {
  }

  lemma {:induction false} ScanKeepsOk(rows: seq<real>, i: nat, m: Limits)
    requires i <= |rows|
    ensures ScanOk(rows, i, m, ScanTo(rows, i, m))
  {
    if i == 0 {
      NothingScanned(rows, m);
    } else {
      ScanKeepsOk(rows, i - 1, m);
      RowKeepsOk(rows, i - 1, m, ScanTo(rows, i - 1, m));
    }
  }

  lemma EmitKeepsOk(rows: seq<real>, i: nat, m: Limits, s: Scan, last: int)
    requires i < |rows| && ScanOk(rows, i, m, s) && s.start != -1
    requires last == i || last == i - 1
    requires last - s.start >= m.minLength
    ensures ScanOk(rows, i + 1, m, Emit(s, last))
  {
  }

  lemma InsideKeepsOk(rows: seq<real>, i: nat, m: Limits, s: Scan)
    requires i < |rows| && InBand(rows[i], m) && ScanOk(rows, i, m, s)
    ensures ScanOk(rows, i + 1, m, ScanInside(rows, i, m, s))
  {
    if s.start != -1 && i - s.start >= m.minLength {
      EmitKeepsOk(rows, i, m, s, i);
    }
  }

  lemma OutsideKeepsOk(rows: seq<real>, i: nat, m: Limits, s: Scan)
    requires i < |rows| && !InBand(rows[i], m) && ScanOk(rows, i, m, s)
    ensures ScanOk(rows, i + 1, m, ScanOutside(rows, i, m, s))
  {
    if s.start != -1 {
      if i - s.start >= m.minLength {
        EmitKeepsOk(rows, i, m, s, i);
      }
      if i - 1 - s.start >= m.minLength {
        EmitKeepsOk(rows, i, m, s, i - 1);
      }
    }
  }

  lemma RowKeepsOk(rows: seq<real>, i: nat, m: Limits, s: Scan)
    requires i < |rows| && ScanOk(rows, i, m, s)
    ensures ScanOk(rows, i + 1, m, ScanRow(rows, i, m, s))
  {
    if InBand(rows[i], m) {
      InsideKeepsOk(rows, i, m, s);
    } else {
      OutsideKeepsOk(rows, i, m, s);
    }
  }

  /** Segments ascend without touching, lie inside the rows, consist of rows in the
      band with the exceptions named in RunOk, and have at least minLength rows, the
      one flushed at the end at least minLength - 1. */
  lemma SegmentsAreRuns(rows: seq<real>, m: Limits)
    ensures var r := Segments(rows, m);
            && Apart(r)
            && (forall a :: 0 <= a < |r| ==> SegmentOk(rows, m, r[a]))
            && (forall a :: 0 <= a < |r| && !Long(r[a], m) ==>
                  a == |r| - 1 && r[a].last == |rows| - 1 && r[a].last - r[a].first == m.minLength - 1)
  {
    ScanKeepsOk(rows, |rows|, m);
  }

  // ---------- the method ----------

  method FindConsistentSegments(rows: seq<real>, minRatio: real, maxRatio: real, delta: real, minLengthRatio: real)
    returns (segments: seq<Segment>)
    ensures segments == Segments(rows, Limits(ClampMin(minRatio), ClampMax(maxRatio), delta,
                                              Truncated(|rows| as real * minLengthRatio)))
  {
    var hi := if maxRatio > 0.85 then 0.85 else maxRatio;
    var lo := if minRatio < 0.15 then 0.15 else minRatio;
    var minLength := Truncated(|rows| as real * minLengthRatio);
    segments := FindWithin(rows, lo, hi, delta, minLength);
  }

  method FindWithin(rows: seq<real>, lo: real, hi: real, delta: real, minLength: int) returns (segments: seq<Segment>)
    ensures segments == Segments(rows, Limits(lo, hi, delta, minLength))
  {
    var totalLength := |rows|;
    ghost var m := Limits(lo, hi, delta, minLength);
    segments := [];
    var start := -1;
    var tempAvg, totalAvg := 0.0, 0.0;
    var count: nat := 0;
    for i := 0 to totalLength
      invariant Scan(start, tempAvg, totalAvg, count, segments) == ScanTo(rows, i, m)
    {
      ghost var s := ScanTo(rows, i, m);
      ScanKeepsStart(rows, i, m);
      var val := rows[i];
      if val < lo && start == -1 && i < totalLength - 1 {
        start := i;
        if lo <= rows[i + 1] <= hi {
          totalAvg, tempAvg := rows[i + 1], rows[i + 1];
          count := 1;
        }
        assert Scan(start, tempAvg, totalAvg, count, segments) == OpenBelow(rows, i, m, s);
      } else if lo <= val <= hi {
        if start != -1 {
          if AbsReal(val - totalAvg) > delta {
            if i - start >= minLength {
              segments := segments + [Segment(start, i)];
            }
            start := -1;
            count := 0;
          } else {
            tempAvg := tempAvg + val;
            count := count + 1;
            totalAvg := Mean(tempAvg, count);
          }
        } else if i != start {
          totalAvg, tempAvg := val, val;
          start := i;
          count := 1;
        }
        assert Scan(start, tempAvg, totalAvg, count, segments) == ScanInside(rows, i, m, s);
      } else {
        if start != -1 && i - start >= minLength {
          if val < hi {
            segments := segments + [Segment(start, i)];
            start := -1;
          } else if i - 1 - start >= minLength {
            segments := segments + [Segment(start, i - 1)];
            start := -1;
          }
        } else {
          if val < lo && i < totalLength - 1 {
            start := i;
            if lo <= rows[i + 1] <= hi {
              totalAvg, tempAvg := rows[i + 1], rows[i + 1];
              count := 1;
            }
          } else {
            start := -1;
          }
        }
        assert Scan(start, tempAvg, totalAvg, count, segments) == ScanOutside(rows, i, m, s);
      }
    }
    if start != -1 && totalLength - start >= minLength {
      segments := segments + [Segment(start, totalLength - 1)];
    }
  }

  lemma {:induction false} ScanKeepsStart(rows: seq<real>, i: nat, m: Limits)
    requires i <= |rows|
    ensures -1 <= ScanTo(rows, i, m).start < i
  {
    if i > 0 {
      ScanKeepsStart(rows, i - 1, m);
    }
  }
}
