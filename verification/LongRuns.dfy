/** Which rows of a long run of rows in the band the segments contain. */
module LongRuns {
  import opened RowSegments

  /** Rows a, ..., b-1 all lie in the band. */
  predicate Stretch(rows: seq<real>, m: Limits, a: int, b: int) {
    0 <= a < b <= |rows| && forall k :: a <= k < b ==> InBand(rows[k], m)
  }

  /** Rows a, ..., b-1 are all among the rows first, ..., last - 1 for which the
      segment is used. */
  predicate Covers(s: Segment, a: int, b: int) { s.first <= a && b <= s.last }

  ghost predicate Covered(segments: seq<Segment>, a: int, b: int) {
    exists n :: 0 <= n < |segments| && Covers(segments[n], a, b)
  }

  // ---------- an open run ends up as a segment ----------

  lemma RowKeepsSegments(rows: seq<real>, i: nat, m: Limits, s: Scan)
    requires i < |rows|
    ensures s.segments <= ScanRow(rows, i, m, s).segments
  {
  }

  lemma {:induction false} SegmentsArePrefix(rows: seq<real>, m: Limits, i: nat)
    requires i <= |rows|
    ensures ScanTo(rows, i, m).segments <= Segments(rows, m)
    decreases |rows| - i
  {
    if i < |rows| {
      SegmentsArePrefix(rows, m, i + 1);
      RowKeepsSegments(rows, i, m, ScanTo(rows, i, m));
    }
  }

  /** Row i ends the open run and emits its segment. */
  predicate Emits(rows: seq<real>, m: Limits, i: nat, last: int)
    requires i < |rows|
  {
    var s := ScanTo(rows, i, m);
    ScanTo(rows, i + 1, m).segments == s.segments + [Segment(s.start, last)]
  }

  lemma EmittedIsFound(rows: seq<real>, m: Limits, i: nat, last: int)
    requires i < |rows| && Emits(rows, m, i, last)
    ensures Segment(ScanTo(rows, i, m).start, last) in Segments(rows, m)
  {
    SegmentsArePrefix(rows, m, i + 1);
    var before := ScanTo(rows, i, m).segments;
    assert ScanTo(rows, i + 1, m).segments[|before|] == Segments(rows, m)[|before|];
  }

  /** An open run of at least minLength rows ends up as a segment that lacks at most the
      last of its rows so far. */
  lemma {:induction false} LongRunEmerges(rows: seq<real>, m: Limits, i: nat) returns (last: int)
    requires i <= |rows|
    requires var start := ScanTo(rows, i, m).start; start != -1 && i - start >= m.minLength
    ensures last >= i - 1 && Segment(ScanTo(rows, i, m).start, last) in Segments(rows, m)
    decreases |rows| - i
  {
    var s := ScanTo(rows, i, m);
    if i == |rows| {
      last := i - 1;
      assert Segments(rows, m)[|s.segments|] == Segment(s.start, last);
    } else if ScanTo(rows, i + 1, m).start == s.start {
      last := LongRunEmerges(rows, m, i + 1);
    } else {
      last := if InBand(rows[i], m) || rows[i] < m.hi then i else i - 1;
      EmittedIsFound(rows, m, i, last);
    }
  }

  lemma FoundCovers(rows: seq<real>, m: Limits, s: Segment, a: int, b: int)
    requires s in Segments(rows, m) && Covers(s, a, b)
    ensures Covered(Segments(rows, m), a, b)
  {
    var n :| 0 <= n < |Segments(rows, m)| && Segments(rows, m)[n] == s;
    assert Covers(Segments(rows, m)[n], a, b);
  }

  /** A row in the band goes on with a run that is long enough, or ends it right there. */
  lemma RunReaches(rows: seq<real>, m: Limits, a: int, i: nat)
    requires i < |rows| && InBand(rows[i], m)
    requires var start := ScanTo(rows, i, m).start; 0 <= start <= a && i - start >= m.minLength
    ensures Covered(Segments(rows, m), a, i)
  {
    var s, last := ScanTo(rows, i, m), i;
    if ScanTo(rows, i + 1, m).start == s.start {
      last := LongRunEmerges(rows, m, i + 1);
    } else {
      EmittedIsFound(rows, m, i, i);
    }
    FoundCovers(rows, m, Segment(s.start, last), a, i);
  }

  /** A segment that ends too early keeps the rows after it out of every other segment
      that could cover a row before its end. */
  lemma EndsTooEarly(rows: seq<real>, m: Limits, s: Segment, a: int, b: int)
    requires s in Segments(rows, m) && s.first <= a <= s.last < b
    ensures !Covered(Segments(rows, m), a, b)
  {
    SegmentsAreRuns(rows, m);
    var r := Segments(rows, m);
    var k :| 0 <= k < |r| && r[k] == s;
    forall n | 0 <= n < |r| ensures !Covers(r[n], a, b) {
      assert n < k ==> r[n].last < r[k].first;
      assert k < n ==> r[k].last < r[n].first;
    }
  }

  // ---------- when a stretch keeps one run open ----------

  /** No row in the band among the first i rows ends a run: the tolerated deviation
      spans the band and, with a minLength of one row, from the third row on, also the
      distance from zero, the mean of a run that has not seen a row in the band yet. */
  predicate Spans(m: Limits, i: int) {
    i <= 1
    || (m.hi - m.lo <= m.delta && (m.minLength == 1 && i > 2 ==> -m.delta <= m.lo && m.hi <= m.delta))
  }

  /** The running mean is one of rows in the band. */
  predicate MeanInBand(m: Limits, s: Scan) {
    s.count > 0 && m.lo * (s.count as real) <= s.tempAvg <= m.hi * (s.count as real) && InBand(s.totalAvg, m)
  }

  /** No row in the band has been seen yet. */
  predicate Fresh(s: Scan) { s.count == 0 && s.tempAvg == s.totalAvg == 0.0 }

  /** An open run has a mean in the band, or has just been opened below the band with
      an unusable row to follow; with a minLength of one row it may outlive that row. */
  predicate MeanOk(rows: seq<real>, i: nat, m: Limits, s: Scan) {
    && (MeanInBand(m, s) || Fresh(s))
    && (s.start == -1 || MeanInBand(m, s) || (m.minLength == 1 && i >= 2)
        || (s.start == i - 1 && i < |rows| && !InBand(rows[i], m)))
  }

  lemma MeanOfMore(m: Limits, sum: real, count: nat, v: real)
    requires InBand(v, m) && m.lo * (count as real) <= sum <= m.hi * (count as real)
    ensures var n := count + 1;
            && m.lo * (n as real) <= sum + v <= m.hi * (n as real)
            && InBand(Mean(sum + v, n), m)
  {
    var n := (count + 1) as real;
    assert m.lo * n == m.lo * (count as real) + m.lo;
    assert m.hi * n == m.hi * (count as real) + m.hi;
    var q := (sum + v) / n;
    assert q * n == sum + v;
    assert q < m.lo ==> (m.lo - q) * n > 0.0;
    assert q > m.hi ==> (q - m.hi) * n > 0.0;
  }

  lemma MeanOfOne(m: Limits, s: Scan)
    requires s.count == 1 && s.tempAvg == s.totalAvg && InBand(s.totalAvg, m)
    ensures MeanInBand(m, s)
  {
  }

  lemma InsideKeepsMean(rows: seq<real>, i: nat, m: Limits, s: Scan)
    requires i < |rows| && Spans(m, i + 1) && InBand(rows[i], m)
    requires -1 <= s.start < i && MeanOk(rows, i, m, s)
    ensures var t := ScanInside(rows, i, m, s);
            MeanInBand(m, t) && t.start == if s.start == -1 then i else s.start
  {
    var t := ScanInside(rows, i, m, s);
    if s.start == -1 {
      MeanOfOne(m, t);
    } else if MeanInBand(m, s) {
      MeanOfMore(m, s.tempAvg, s.count, rows[i]);
    } else {
      assert Mean(0.0 + rows[i], 1) == rows[i];
      MeanOfOne(m, t);
    }
  }

  lemma OpeningKeepsMean(rows: seq<real>, i: nat, m: Limits, s: Scan)
    requires i + 1 < |rows| && (MeanInBand(m, s) || Fresh(s))
    ensures MeanOk(rows, i + 1, m, OpenBelow(rows, i, m, s))
  {
    if InBand(rows[i + 1], m) {
      MeanOfOne(m, OpenBelow(rows, i, m, s));
    }
  }

  lemma OutsideKeepsMean(rows: seq<real>, i: nat, m: Limits, s: Scan)
    requires i < |rows| && !InBand(rows[i], m)
    requires -1 <= s.start < i && MeanOk(rows, i, m, s)
    ensures MeanOk(rows, i + 1, m, ScanOutside(rows, i, m, s))
  {
    if i + 1 < |rows| {
      OpeningKeepsMean(rows, i, m, s);
    }
  }

  lemma RowKeepsMean(rows: seq<real>, i: nat, m: Limits, s: Scan)
    requires i < |rows| && Spans(m, i + 1)
    requires -1 <= s.start < i && MeanOk(rows, i, m, s)
    ensures MeanOk(rows, i + 1, m, ScanRow(rows, i, m, s))
    ensures InBand(rows[i], m) ==> ScanRow(rows, i, m, s).start == if s.start == -1 then i else s.start
  {
    if InBand(rows[i], m) {
      InsideKeepsMean(rows, i, m, s);
    } else {
      OutsideKeepsMean(rows, i, m, s);
      if i + 1 < |rows| {
        OpeningKeepsMean(rows, i, m, s);
      }
    }
  }

  lemma {:induction false} ScanKeepsMean(rows: seq<real>, i: nat, m: Limits)
    requires i <= |rows| && Spans(m, i)
    ensures -1 <= ScanTo(rows, i, m).start < i && MeanOk(rows, i, m, ScanTo(rows, i, m))
  {
    if i > 0 {
      ScanKeepsMean(rows, i - 1, m);
      RowKeepsMean(rows, i - 1, m, ScanTo(rows, i - 1, m));
    }
  }

  /** The first row of the run that is open at the end of a stretch: the run that was
      open before the stretch goes on, otherwise one starts with it. */
  function OpenFrom(rows: seq<real>, m: Limits, a: nat): int
    requires a <= |rows|
  {
    var start := ScanTo(rows, a, m).start;
    if start == -1 then a else start
  }

  lemma {:induction false} StretchIsOpen(rows: seq<real>, m: Limits, a: nat, b: nat)
    requires Spans(m, b) && Stretch(rows, m, a, b)
    ensures 0 <= ScanTo(rows, b, m).start == OpenFrom(rows, m, a) <= a
  {
    ScanKeepsMean(rows, b - 1, m);
    RowKeepsMean(rows, b - 1, m, ScanTo(rows, b - 1, m));
    if a < b - 1 {
      StretchIsOpen(rows, m, a, b - 1);
    }
  }

  // ---------- what a tolerant scan finds ----------

  /** The condition under which the scan of n rows loses no long stretch: there can be
      none, or there are too few rows for one to be cut, or the tolerated deviation spans
      the band and, with a minLength of one row, the distance of the band from zero. */
  predicate Tolerant(m: Limits, n: nat) {
    || m.lo > m.hi || m.minLength > n || (m.minLength <= 1 && n <= 2)
    || (m.hi - m.lo <= m.delta && (m.minLength == 1 && n >= 4 ==> -m.delta <= m.lo && m.hi <= m.delta))
  }

  lemma TolerantSpans(rows: seq<real>, m: Limits, a: int, b: int)
    requires Tolerant(m, |rows|) && Stretch(rows, m, a, b) && b - a >= m.minLength
    ensures Spans(m, b - 1) && (m.minLength > 1 || b < |rows| ==> Spans(m, b))
  {
    assert InBand(rows[a], m);
  }

  /** With a minLength of at most one row every run is long enough. */
  lemma ShortMinimumFinds(rows: seq<real>, m: Limits, a: nat, b: nat)
    requires m.minLength <= 1 && Spans(m, b - 1) && Stretch(rows, m, a, b)
    ensures Covered(Segments(rows, m), a, b - 1)
  {
    ScanKeepsStart(rows, a, m);
    assert InBand(rows[a], m);
    if a < b - 1 {
      StretchIsOpen(rows, m, a, b - 1);
      RunReaches(rows, m, a, b - 1);
    } else if ScanTo(rows, a, m).start != -1 {
      RunReaches(rows, m, a, a);
    } else {
      var last := LongRunEmerges(rows, m, a + 1);
      FoundCovers(rows, m, Segment(a, last), a, a);
    }
  }

  /** Every stretch of at least minLength rows in the band lies within one of the
      segments, except perhaps for its last row. */
  lemma LongStretchesAreFound(rows: seq<real>, m: Limits, a: int, b: int)
    requires Tolerant(m, |rows|) && Stretch(rows, m, a, b) && b - a >= m.minLength
    ensures Covered(Segments(rows, m), a, b - 1)
  {
    TolerantSpans(rows, m, a, b);
    if m.minLength <= 1 {
      ShortMinimumFinds(rows, m, a, b);
    } else {
      StretchIsOpen(rows, m, a, b);
      var last := LongRunEmerges(rows, m, b);
      FoundCovers(rows, m, Segment(OpenFrom(rows, m, a), last), a, b - 1);
    }
  }

  /** A row follows the stretch, and it lies in the band or below it, or it lies above and
      comes exactly minLength rows after the start of the open run, so that it is too
      early to close the run one row before. */
  predicate LastRowIsKept(rows: seq<real>, m: Limits, a: nat, b: nat)
    requires a <= |rows|
  {
    b < |rows| && (rows[b] <= m.hi || b - OpenFrom(rows, m, a) == m.minLength)
  }

  lemma LastRowKept(rows: seq<real>, m: Limits, a: nat, b: nat)
    requires Tolerant(m, |rows|) && Stretch(rows, m, a, b) && b - a >= m.minLength && LastRowIsKept(rows, m, a, b)
    ensures Covered(Segments(rows, m), a, b)
  {
    TolerantSpans(rows, m, a, b);
    StretchIsOpen(rows, m, a, b);
    var s, last := ScanTo(rows, b, m), b;
    assert InBand(rows[a], m);
    if InBand(rows[b], m) {
      RunReaches(rows, m, a, b);
    } else {
      if rows[b] < m.hi {
        EmittedIsFound(rows, m, b, b);
      } else {
        last := LongRunEmerges(rows, m, b + 1);
      }
      FoundCovers(rows, m, Segment(s.start, last), a, b);
    }
  }

  lemma LastRowLost(rows: seq<real>, m: Limits, a: nat, b: nat)
    requires Tolerant(m, |rows|) && Stretch(rows, m, a, b) && b - a >= m.minLength && !LastRowIsKept(rows, m, a, b)
    ensures !Covered(Segments(rows, m), a, b)
  {
    if b == |rows| {
      SegmentsAreRuns(rows, m);
    } else {
      TolerantSpans(rows, m, a, b);
      StretchIsOpen(rows, m, a, b);
      EmittedIsFound(rows, m, b, b - 1);
      EndsTooEarly(rows, m, Segment(OpenFrom(rows, m, a), b - 1), a, b);
    }
  }

  /** Exactly when a long stretch is found with its last row. */
  lemma WholeIffLastRowIsKept(rows: seq<real>, m: Limits, a: nat, b: nat)
    requires Tolerant(m, |rows|) && Stretch(rows, m, a, b) && b - a >= m.minLength
    ensures Covered(Segments(rows, m), a, b) <==> LastRowIsKept(rows, m, a, b)
  {
    if LastRowIsKept(rows, m, a, b) {
      LastRowKept(rows, m, a, b);
    } else {
      LastRowLost(rows, m, a, b);
    }
  }

  // ---------- what a less tolerant scan loses ----------

  /** A density above the band. */
  function Above(m: Limits): real { if m.hi < 1.0 then 1.0 else m.hi + 1.0 }

  function Below(m: Limits): real { if m.lo > 0.0 then 0.0 else m.lo - 1.0 }

  /** Rows above the band open no run. */
  lemma {:induction false} AboveIsIdle(rows: seq<real>, m: Limits, i: nat)
    requires m.lo <= m.hi && i <= |rows| && forall k :: 0 <= k < i ==> rows[k] == Above(m)
    ensures ScanTo(rows, i, m) == IDLE
  {
    if i > 0 {
      AboveIsIdle(rows, m, i - 1);
      assert ScanTo(rows, i, m) == ScanOutside(rows, i - 1, m, IDLE) == IDLE;
    }
  }

  /** n rows: some above the band, then some at its bottom, and a last one at its top. */
  function Jump(m: Limits, n: nat): (rows: seq<real>)
    requires 2 <= m.minLength <= n
    ensures |rows| == n
  {
    seq(n, k => if k < n - m.minLength then Above(m) else if k < n - 1 then m.lo else m.hi)
  }

  lemma MeanOfSame(v: real, n: nat)
    requires n > 0
    ensures v * ((n - 1) as real) + v == v * (n as real)
    ensures Mean(v * (n as real), n) == v
  {
  }

  /** A run of k rows at the bottom of the band, opened at row first. */
  function LowRun(m: Limits, first: int, k: nat): Scan { Scan(first, m.lo * (k as real), m.lo, k, []) }

  lemma OneMoreLow(rows: seq<real>, m: Limits, first: nat, k: nat)
    requires m.lo <= m.hi && 0.0 <= m.delta && 0 < k && first + k < |rows| && rows[first + k] == m.lo
    ensures ScanRow(rows, first + k, m, LowRun(m, first, k)) == LowRun(m, first, k + 1)
  {
    MeanOfSame(m.lo, k + 1);
  }

  /** Up to the jump one run is open whose mean is the bottom of the band. */
  lemma {:induction false} BeforeJump(m: Limits, n: nat, i: nat)
    requires 2 <= m.minLength <= n && m.lo <= m.hi && 0.0 <= m.delta && n - m.minLength < i < n
    ensures ScanTo(Jump(m, n), i, m) == LowRun(m, n - m.minLength, i - (n - m.minLength))
  {
    var rows, first := Jump(m, n), n - m.minLength;
    assert rows[i - 1] == m.lo;
    if i - 1 == first {
      AboveIsIdle(rows, m, first);
      assert ScanTo(rows, i, m) == ScanInside(rows, first, m, IDLE);
    } else {
      BeforeJump(m, n, i - 1);
      OneMoreLow(rows, m, first, i - 1 - first);
    }
  }

  /** A negative tolerance closes a run at its second row. */
  lemma {:induction false} BeforeJumpIntolerant(m: Limits, n: nat, i: nat)
    requires 2 <= m.minLength <= n && m.lo <= m.hi && m.delta < 0.0 && n - m.minLength <= i < n
    ensures var s := ScanTo(Jump(m, n), i, m);
            s.segments == [] && (s.start == -1 || s.start == i - 1)
  {
    if i == n - m.minLength {
      AboveIsIdle(Jump(m, n), m, i);
    } else {
      BeforeJumpIntolerant(m, n, i - 1);
      assert ScanTo(Jump(m, n), i, m) == ScanInside(Jump(m, n), i - 1, m, ScanTo(Jump(m, n), i - 1, m));
    }
  }

  lemma JumpClosesRun(rows: seq<real>, m: Limits, s: Scan)
    requires 2 <= m.minLength <= |rows| && m.lo <= m.hi && m.delta < m.hi - m.lo && rows[|rows| - 1] == m.hi
    requires if m.delta < 0.0 then s.start == -1 || s.start == |rows| - 2
             else s.start == |rows| - m.minLength && s.totalAvg == m.lo
    ensures var t := ScanRow(rows, |rows| - 1, m, s);
            t.segments == s.segments && (t.start == -1 || t.start == |rows| - 1)
  {
  }

  /** With a smaller tolerance a stretch can be lost altogether, among any number of
      rows: a row that deviates too much closes a run that is still too short and opens
      none. */
  lemma TightToleranceLosesRuns(m: Limits, n: nat)
    requires 2 <= m.minLength <= n && m.lo <= m.hi && m.delta < m.hi - m.lo
    ensures Stretch(Jump(m, n), m, n - m.minLength, n) && Segments(Jump(m, n), m) == []
  {
    var rows, s := Jump(m, n), ScanTo(Jump(m, n), n - 1, m);
    if m.delta < 0.0 {
      BeforeJumpIntolerant(m, n, n - 1);
    } else {
      BeforeJump(m, n, n - 1);
    }
    JumpClosesRun(rows, m, s);
    assert ScanTo(rows, n, m) == ScanRow(rows, n - 1, m, s);
  }

  /** n rows: some above the band, then one at its bottom and two at its top. */
  function Split(m: Limits, n: nat): (rows: seq<real>)
    requires n >= 3
    ensures |rows| == n
  {
    seq(n, k => if k < n - 3 then Above(m) else if k == n - 3 then m.lo else m.hi)
  }

  /** With a minLength of at most one row, a row that deviates too much ends the segment
      in the middle of the stretch. */
  lemma TightToleranceCutsRuns(m: Limits, n: nat)
    requires m.minLength <= 1 && n >= 3 && m.lo <= m.hi && m.delta < m.hi - m.lo
    ensures Stretch(Split(m, n), m, n - 3, n) && !Covered(Segments(Split(m, n), m), n - 3, n - 1)
  {
    var rows, first := Split(m, n), n - 3;
    AboveIsIdle(rows, m, first);
    var s := Scan(first, m.lo, m.lo, 1, []);
    assert ScanTo(rows, first + 1, m) == ScanInside(rows, first, m, IDLE) == s;
    assert ScanTo(rows, first + 2, m) == ScanInside(rows, first + 1, m, s);
    EmittedIsFound(rows, m, first + 1, first + 1);
    EndsTooEarly(rows, m, Segment(first, first + 1), first, n - 1);
  }

  /** n rows: some above the band, then one below and one above, and two of density v. */
  function Stale(m: Limits, n: nat, v: real): (rows: seq<real>)
    requires n >= 4
    ensures |rows| == n
  {
    seq(n, k => if k < n - 4 || k == n - 3 then Above(m) else if k == n - 4 then Below(m) else v)
  }

  /** With a minLength of one row, a run opened below the band survives the row above the
      band without a mean; the first row in the band is compared with zero. */
  lemma MissingMeanCutsRuns(m: Limits, n: nat, v: real)
    requires m.minLength == 1 && n >= 4 && InBand(v, m) && !(-m.delta <= v <= m.delta)
    ensures Stretch(Stale(m, n, v), m, n - 2, n) && !Covered(Segments(Stale(m, n, v), m), n - 2, n - 1)
  {
    var rows, first := Stale(m, n, v), n - 4;
    AboveIsIdle(rows, m, first);
    var s := IDLE.(start := first);
    assert rows[first] == Below(m) < m.lo && rows[first + 1] == Above(m) > m.hi;
    assert ScanTo(rows, first + 1, m) == ScanRow(rows, first, m, IDLE) == s;
    assert ScanTo(rows, first + 2, m) == ScanRow(rows, first + 1, m, s) == s;
    assert ScanTo(rows, first + 3, m) == ScanInside(rows, first + 2, m, s);
    EmittedIsFound(rows, m, first + 2, first + 2);
    EndsTooEarly(rows, m, Segment(first, first + 2), n - 2, n - 1);
  }

  /** The scan of n rows may lose more than the last row of a long stretch. */
  lemma IntolerantLoses(m: Limits, n: nat) returns (rows: seq<real>, a: int, b: int)
    requires !Tolerant(m, n)
    ensures |rows| == n && Stretch(rows, m, a, b) && b - a >= m.minLength && !Covered(Segments(rows, m), a, b - 1)
  {
    if m.minLength >= 2 {
      TightToleranceLosesRuns(m, n);
      rows, a, b := Jump(m, n), n - m.minLength, n;
    } else if m.delta < m.hi - m.lo {
      TightToleranceCutsRuns(m, n);
      rows, a, b := Split(m, n), n - 3, n;
    } else {
      var v := if m.hi > m.delta then m.hi else m.lo;
      MissingMeanCutsRuns(m, n, v);
      rows, a, b := Stale(m, n, v), n - 2, n;
    }
  }

  /** For all limits and every number of rows: no long stretch ever loses more than its
      last row if and only if the limits are tolerant. */
  lemma CompleteIffTolerant(m: Limits, n: nat)
    ensures Tolerant(m, n) <==>
            forall rows, a, b :: |rows| == n && Stretch(rows, m, a, b) && b - a >= m.minLength ==>
              Covered(Segments(rows, m), a, b - 1)
  {
    if Tolerant(m, n) {
      forall rows, a, b | |rows| == n && Stretch(rows, m, a, b) && b - a >= m.minLength
        ensures Covered(Segments(rows, m), a, b - 1)
      {
        LongStretchesAreFound(rows, m, a, b);
      }
    } else {
      var rows, a, b := IntolerantLoses(m, n);
    }
  }

  // ---------- the limits of the only call ----------

  function Sum(rows: seq<real>): real {
    if rows == [] then 0.0 else Sum(rows[..|rows| - 1]) + rows[|rows| - 1]
  }

  /** The limits that the segmentation derives from the mean density of the rows. */
  function CallLimits(rows: seq<real>): Limits
    requires rows != []
  {
    var mean := Mean(Sum(rows), |rows|);
    Limits(ClampMin(mean * 0.2), ClampMax(mean * 2.0), mean, Truncated(|rows| as real * 0.15))
  }

  /** Fourteen densities with a stretch of two rows in the band, as many as a segment
      needs, that differ by more than the mean. */
  const LOSING: seq<real> := seq(14, k => if k < 7 then 0.0 else if k < 12 then 0.94 else if k == 12 then 0.2 else 0.7)

  lemma {:induction false} LosingSum(i: nat)
    requires i <= 12
    ensures Sum(LOSING[..i]) == if i <= 7 then 0.0 else 0.94 * ((i - 7) as real)
  {
    if i > 0 {
      LosingSum(i - 1);
      assert LOSING[..i][..i - 1] == LOSING[..i - 1];
    }
  }

  lemma LosingLimits()
    ensures CallLimits(LOSING) == Limits(0.15, 0.8, 0.4, 2)
  {
    LosingSum(12);
    assert LOSING[..13][..12] == LOSING[..12] && LOSING[..14][..13] == LOSING[..13] && LOSING[..14] == LOSING;
    assert Sum(LOSING) == 5.6;
    assert Mean(5.6, 14) == 0.4;
    assert 14 as real * 0.15 == 2.1;
    assert 2.1.Floor == 2;
  }

  lemma {:induction false} LosingScan(i: nat)
    requires i <= 12
    ensures var s := ScanTo(LOSING, i, Limits(0.15, 0.8, 0.4, 2));
            s.segments == [] && (s.start == -1 || s.start == i - 1) && (i > 7 ==> s.start == -1)
  {
    if i > 0 {
      LosingScan(i - 1);
    }
  }

  /** The limits of the call do not prevent it: here it loses both rows of the stretch. */
  lemma CallLosesRun()
    ensures var m := CallLimits(LOSING);
            Stretch(LOSING, m, 12, 14) && m.minLength == 2 && Segments(LOSING, m) == []
  {
    LosingLimits();
    LosingScan(12);
    var m := Limits(0.15, 0.8, 0.4, 2);
    var s := ScanTo(LOSING, 12, m);
    assert ScanTo(LOSING, 13, m) == ScanInside(LOSING, 12, m, s) == Scan(12, 0.2, 0.2, 1, []);
    assert ScanTo(LOSING, 14, m) == ScanInside(LOSING, 13, m, ScanTo(LOSING, 13, m));
  }

  /** Eight densities, so that segments need one row, with a stretch of six. */
  const CUT: seq<real> := seq(8, k => if k == 0 then 0.0 else if k == 1 then 1.0 else 0.8)

  lemma {:induction false} CutSum(i: nat)
    requires 2 <= i <= 8
    ensures Sum(CUT[..i]) == 1.0 + 0.8 * ((i - 2) as real)
  {
    assert CUT[..i][..i - 1] == CUT[..i - 1];
    if i > 2 {
      CutSum(i - 1);
    } else {
      assert Sum(CUT[..0]) == 0.0 && CUT[..1][..0] == CUT[..0];
      assert Sum(CUT[..1]) == 0.0;
    }
  }

  lemma CutLimits()
    ensures CallLimits(CUT) == Limits(0.15, 0.85, 0.725, 1)
  {
    CutSum(8);
    assert CUT[..8] == CUT;
    assert Mean(5.8, 8) == 0.725;
    assert 8 as real * 0.15 == 1.2;
    assert 1.2.Floor == 1;
  }

  /** A call with few rows cuts a stretch although the tolerated deviation spans the band. */
  lemma ShortCallCutsRun()
    ensures var m := CallLimits(CUT);
            m.minLength == 1 && m.hi - m.lo <= m.delta
            && Stretch(CUT, m, 2, 8) && !Covered(Segments(CUT, m), 2, 7)
  {
    CutLimits();
    var m := Limits(0.15, 0.85, 0.725, 1);
    var s := IDLE.(start := 0);
    assert ScanTo(CUT, 1, m) == ScanRow(CUT, 0, m, ScanTo(CUT, 0, m)) == s;
    assert ScanTo(CUT, 2, m) == ScanRow(CUT, 1, m, s) == s;
    assert ScanTo(CUT, 3, m) == ScanInside(CUT, 2, m, s);
    EmittedIsFound(CUT, m, 2, 2);
    EndsTooEarly(CUT, m, Segment(0, 2), 2, 7);
  }
}
