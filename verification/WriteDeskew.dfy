/** Write per-bit deskew, and the search for the data-mask (DM) window. */
module WriteDeskew {
  import opened Integers
  import opened DelayWindows
  import opened EdgeMarks
  import opened WindowEnds

  // ---------- runs of passing positions ----------

  ghost predicate PassesAll(pass: int -> bool, a: int, b: int) {
    forall p :: a <= p <= b ==> pass(p)
  }

  /** [bgn, end] is the leftmost of the longest runs of passing positions within
      [lo, hi], and win its length; win is 0 if no position passes. */
  ghost predicate LongestRun(pass: int -> bool, lo: int, hi: int, bgn: int, end: int, win: int) {
    && win >= 0
    && (win > 0 ==> lo <= bgn && end <= hi && win == end - bgn + 1 && PassesAll(pass, bgn, end))
    && forall a, b :: lo <= a <= b <= hi && PassesAll(pass, a, b) ==>
         b - a + 1 <= win && (b - a + 1 == win ==> bgn <= a)
  }

  /** cur is the start of the run of passing positions that ends at hi, or NO_EDGE
      if hi does not pass. */
  ghost predicate CurrentRun(pass: int -> bool, lo: int, hi: int, cur: int) {
    if cur == NO_EDGE then hi < lo || !pass(hi)
    else lo <= cur <= hi && PassesAll(pass, cur, hi) && (cur == lo || !pass(cur - 1))
  }

  lemma ExtendByFailure(pass: int -> bool, lo: int, hi: int, bgn: int, end: int, win: int)
    requires LongestRun(pass, lo, hi - 1, bgn, end, win) && !pass(hi)
    ensures LongestRun(pass, lo, hi, bgn, end, win)
  {
    forall a, b | lo <= a <= b <= hi && PassesAll(pass, a, b)
      ensures b - a + 1 <= win && (b - a + 1 == win ==> bgn <= a)
    {
      assert b != hi;
    }
  }

  /** The start of the run that ends at the passing position hi. */
  function RunStart(cur: int, hi: int): int { if cur == NO_EDGE then hi else cur }

  lemma ExtendByPass(pass: int -> bool, lo: int, hi: int, bgn: int, end: int, win: int, cur: int)
    requires lo <= hi < NO_EDGE && pass(hi)
    requires LongestRun(pass, lo, hi - 1, bgn, end, win) && CurrentRun(pass, lo, hi - 1, cur)
    ensures var c := RunStart(cur, hi);
            && CurrentRun(pass, lo, hi, c)
            && (if hi - c + 1 > win then LongestRun(pass, lo, hi, c, hi, hi - c + 1)
                else LongestRun(pass, lo, hi, bgn, end, win))
  {
    var c := RunStart(cur, hi);
    assert c == lo || !pass(c - 1);
    forall a | lo <= a <= hi && PassesAll(pass, a, hi) ensures c <= a {
    }
  }

  /** What the search knows after position hi: the best run, and the one that ends at hi. */
  ghost predicate Searched(pass: int -> bool, hi: int, cur: int, bgn: int, end: int, win: int) {
    && LongestRun(pass, -DELAY_MAX, hi, bgn, end, win) && CurrentRun(pass, -DELAY_MAX, hi, cur)
    && (win == 0 ==> bgn == end == NO_EDGE)
  }

  lemma SearchedOnePass(pass: int -> bool, hi: int, cur: int, bgn: int, end: int, win: int)
    requires -DELAY_MAX <= hi < NO_EDGE && pass(hi) && Searched(pass, hi - 1, cur, bgn, end, win)
    ensures var c := RunStart(cur, hi);
            if hi - c + 1 > win then Searched(pass, hi, c, c, hi, hi - c + 1) else Searched(pass, hi, c, bgn, end, win)
  {
    ExtendByPass(pass, -DELAY_MAX, hi, bgn, end, win, cur);
  }

  lemma SearchedOneFailure(pass: int -> bool, hi: int, cur: int, bgn: int, end: int, win: int)
    requires !pass(hi) && Searched(pass, hi - 1, cur, bgn, end, win)
    ensures Searched(pass, hi, NO_EDGE, bgn, end, win)
  {
    ExtendByFailure(pass, -DELAY_MAX, hi, bgn, end, win);
  }

  /** Trying the last position once more changes nothing. */
  lemma SearchedOnceMore(pass: int -> bool, hi: int, cur: int, bgn: int, end: int, win: int)
    requires -DELAY_MAX <= hi && Searched(pass, hi, cur, bgn, end, win)
    ensures if pass(hi) then cur != NO_EDGE && hi - cur + 1 <= win else cur == NO_EDGE
  {
    if pass(hi) {
      assert PassesAll(pass, cur, hi);
    }
  }

  /** When the axis has fewer positions left than the best run is long, the best
      run of the part searched is the best run of the whole axis. */
  lemma EarlyExitIsSound(pass: int -> bool, lo: int, hi: int, reach: int, bgn: int, end: int, win: int)
    requires lo <= hi <= reach && !pass(hi)
    requires LongestRun(pass, lo, hi, bgn, end, win) && win - 1 > reach - hi
    ensures LongestRun(pass, lo, reach, bgn, end, win)
  {
    forall a, b | lo <= a <= b <= reach && PassesAll(pass, a, b)
      ensures b - a + 1 <= win && (b - a + 1 == win ==> bgn <= a)
    {
      if a <= hi {
        assert b < hi;
      }
    }
  }

  // ---------- what the mask's programmed delay means ----------

  /** The DM delay for the run [bgn, end]: its middle, but never below zero. */
  function MaskDelay(bgn: int, end: int): int {
    Max(0, TruncHalf(-bgn - end))
  }

  /** dm_margin >= 0 exactly when a window was found that starts at or left of
      position 0; the applied delay is then in range and tests a position inside
      the window, the middle one to within a tap unless that lies right of zero. */
  lemma MaskMarginIsSound(pass: int -> bool, reach: int, bgn: int, end: int, win: int)
    requires 0 <= reach <= DELAY_MAX
    requires LongestRun(pass, -DELAY_MAX, reach, bgn, end, win)
    ensures win > 0 ==> (-bgn - MaskDelay(bgn, end) >= 0 <==> bgn <= 0)
    ensures MaskDelay(bgn, end) == if bgn + end >= 0 then 0 else (0 - bgn - end) / 2
    ensures win > 0 && bgn <= 0 ==>
              && 0 <= MaskDelay(bgn, end) <= DELAY_MAX
              && bgn <= -MaskDelay(bgn, end) <= end
              && pass(0 - MaskDelay(bgn, end))
              && (bgn + end <= 0 ==> -1 <= (-MaskDelay(bgn, end) - bgn) - (end + MaskDelay(bgn, end)) <= 1)
              && (bgn + end > 0 ==> MaskDelay(bgn, end) == 0)
  {
    var t := TruncHalf(-bgn - end);
    if bgn + end <= 0 {
      assert 2 * t <= -bgn - end <= 2 * t + 1;
    }
  }

  // ---------- the write group ----------

  /** The write delays: bits whose wanted delay is negative stay at delay zero,
      because DQS does not move in this configuration. */
  function WriteDelay(es: seq<Edges>, i: nat): int
    requires |es| == DQ_PER_DQS && i < DQ_PER_DQS
  {
    Max(0, 0 - Target(es[i], MinSkew(es, DQ_PER_DQS)))
  }

  /** No wanted delay exceeds the chain, and a bit ends up inside its window exactly
      when that window does not lie wholly right of position 0. */
  lemma WriteDelayFits(ws: seq<Window>, reach: int, i: nat)
    requires |ws| == DQ_PER_DQS && 0 <= reach <= DELAY_MAX && i < DQ_PER_DQS
    requires EveryBitFound(ws, reach)
    ensures var es := FoundEdges(ws, reach);
            && AreClippedEnds(ws[i], reach, es[i])
            && 0 <= WriteDelay(es, i) <= DELAY_MAX
            && (ws[i].lo <= 0 <==> Inside(es[i], 0 - WriteDelay(es, i)))
            && (Target(es[i], MinSkew(es, DQ_PER_DQS)) <= 0 ==> Centred(es[i], 0 - WriteDelay(es, i)))
  {
    var es := FoundEdges(ws, reach);
    SweepsFindTheClippedEnds(ws[i], reach);
    assert ws[i].Passes(Max(ws[i].lo, -DELAY_MAX));
    MinSkewIsMinimum(es, DQ_PER_DQS);
    TargetIsCentre(es[i], MinSkew(es, DQ_PER_DQS));
  }

  /** The DQ delays that would bring every bit to its target. */
  function WantedDelays(es: seq<Edges>): (need: seq<int>)
    requires |es| == DQ_PER_DQS
    ensures |need| == DQ_PER_DQS
  {
    seq(DQ_PER_DQS, i requires 0 <= i < DQ_PER_DQS => 0 - Target(es[i], MinSkew(es, DQ_PER_DQS)))
  }

  lemma WantedDelaysFit(ws: seq<Window>, start: int, minIndex: nat)
    requires |ws| == DQ_PER_DQS && 0 <= start <= DELAY_MAX && EveryBitFound(ws, DELAY_MAX - start)
    requires var es := FoundEdges(ws, DELAY_MAX - start);
             minIndex < DQ_PER_DQS && MinSkew(es, DQ_PER_DQS) == Skew(es[minIndex])
    ensures var es := FoundEdges(ws, DELAY_MAX - start);
            var need := WantedDelays(es);
            forall i :: 0 <= i < DQ_PER_DQS ==>
              && DELAY_MAX >= need[i] == TruncHalf(Skew(es[i]) - Skew(es[minIndex])) + DqsMove(Skew(es[minIndex]))
              && Max(0, need[i]) == WriteDelay(es, i) && 0 <= Max(0, need[i]) <= DELAY_MAX
              && (ws[i].lo <= 0 <==> Inside(es[i], 0 - Max(0, need[i])))
              && (ws[i].lo <= 0 ==> ws[i].Passes(0 - Max(0, need[i])))
  {
    forall i | 0 <= i < DQ_PER_DQS
      ensures var es := FoundEdges(ws, DELAY_MAX - start);
              && 0 - Target(es[i], MinSkew(es, DQ_PER_DQS)) <= DELAY_MAX
              && (ws[i].lo <= 0 <==> Inside(es[i], 0 - WriteDelay(es, i)))
              && (ws[i].lo <= 0 ==> ws[i].Passes(0 - WriteDelay(es, i)))
    {
      WriteDelayFits(ws, DELAY_MAX - start, i);
    }
  }

  /** The delay registers of one write group. */
  class WriteGroup {
    const dqOut: array<int>  // output delay of every DQ pin of the group
    var dqsOut: int          // output delay of DQS
    var dmOut: int           // output delay of the data mask

    constructor (dqs: int)
      requires 0 <= dqs <= DELAY_MAX
      ensures InRange() && dqsOut == dqs && dqOut.Length == DQ_PER_DQS && fresh(dqOut)
    {
      dqOut := new int[DQ_PER_DQS](_ => 0);
      dqsOut := dqs;
      dmOut := 0;
    }

    predicate InRange()
      reads this, dqOut
    {
      && 0 <= dqsOut <= DELAY_MAX && 0 <= dmOut <= DELAY_MAX
      && forall p :: 0 <= p < dqOut.Length ==> 0 <= dqOut[p] <= DELAY_MAX
    }

    /** The bits that are written correctly with the registers as they are. */
    function WriteTest(ws: seq<Window>, start: int): (bits: set<nat>)
      requires |ws| == DQ_PER_DQS == dqOut.Length
      reads this, dqOut
      ensures bits <= ALL_BITS
      ensures forall i :: 0 <= i < DQ_PER_DQS ==> (i in bits <==> ws[i].Passes(dqsOut - start - dqOut[i]))
    {
      set i | i in ALL_BITS && ws[i].Passes(dqsOut - start - dqOut[i])
    }

    /** The test of the data mask with the registers as they are. */
    function MaskTest(pass: int -> bool, start: int): bool
      reads this
    {
      pass(dqsOut - start - dmOut)
    }

    predicate GroupAt(delay: int)
      reads dqOut
    {
      forall p :: 0 <= p < dqOut.Length ==> dqOut[p] == delay
    }

    method ApplyGroupDqOutDelay(delay: int)
      modifies dqOut
      ensures GroupAt(delay)
    {
      for i := 0 to dqOut.Length
        invariant forall k :: 0 <= k < i ==> dqOut[k] == delay
      {
        dqOut[i] := delay;
      }
    }

    /** Tries DQ delay d. */
    method TryDq(ws: seq<Window>, d: nat) returns (bitChk: set<nat>)
      requires |ws| == DQ_PER_DQS == dqOut.Length
      modifies dqOut
      ensures bitChk <= ALL_BITS
      ensures forall i :: 0 <= i < DQ_PER_DQS ==> (i in bitChk <==> ws[i].Passes(0 - d))
    {
      ApplyGroupDqOutDelay(d);
      bitChk := WriteTest(ws, dqsOut);
    }

    /** Tries DQS delay d above start. */
    method TryDqs(ws: seq<Window>, start: int, d: nat) returns (bitChk: set<nat>)
      requires |ws| == DQ_PER_DQS == dqOut.Length && GroupAt(0)
      modifies `dqsOut
      ensures dqsOut == d + start
      ensures bitChk <= ALL_BITS
      ensures forall i :: 0 <= i < DQ_PER_DQS ==> (i in bitChk <==> ws[i].Passes(d))
    {
      dqsOut := d + start;
      bitChk := WriteTest(ws, start);
    }

    /** The DQ-delay sweep. */
    method SweepDq(ws: seq<Window>, left: array<int>, right: array<int>)
      requires |ws| == DQ_PER_DQS == dqOut.Length
      requires left.Length == right.Length == DQ_PER_DQS && left != right && left != dqOut && right != dqOut
      requires forall i :: 0 <= i < DQ_PER_DQS ==> Edges(left[i], right[i]) == NO_EDGES
      modifies left, right, dqOut
      ensures forall i :: 0 <= i < DQ_PER_DQS ==> Edges(left[i], right[i]) == AfterLeft(ws[i], DELAY_MAX + 1)
    {
      var sticky := {};
      var d := 0;
      while d <= DELAY_MAX
        invariant 0 <= d <= DELAY_MAX + 1
        invariant forall i :: 0 <= i < DQ_PER_DQS ==> Edges(left[i], right[i]) == AfterLeft(ws[i], d)
        invariant sticky <= ALL_BITS
        invariant forall i :: 0 <= i < DQ_PER_DQS ==> (i in sticky <==> SeenLeft(ws[i], d))
      {
        var bitChk := TryDq(ws, d);
        var stop := bitChk == {};
        sticky := sticky + bitChk;
        stop := stop && sticky == ALL_BITS;
        if stop {
          LeftStopIsSound(ws, sticky, d);
          break;
        }
        StepLeft(ws, d, bitChk, left, right);
        d := d + 1;
      }
    }

    /** The DQS-delay sweep.  Unlike in the read deskew, a bit counts as seen as soon
        as its left edge is known. */
    method SweepDqs(ws: seq<Window>, start: int, seen: set<nat>, left: array<int>, right: array<int>)
      requires |ws| == DQ_PER_DQS == dqOut.Length && 0 <= start <= DELAY_MAX
      requires left.Length == right.Length == DQ_PER_DQS && left != right && left != dqOut && right != dqOut
      requires GroupAt(0) && 0 <= dqsOut <= DELAY_MAX
      requires forall i :: 0 <= i < DQ_PER_DQS ==> Edges(left[i], right[i]) == BetweenSweeps(ws[i])
      requires seen <= ALL_BITS
      requires forall i :: 0 <= i < DQ_PER_DQS ==> (i in seen <==> BetweenSweeps(ws[i]).left != NO_EDGE)
      modifies left, right, `dqsOut
      ensures forall i :: 0 <= i < DQ_PER_DQS ==>
                Edges(left[i], right[i]) == AfterRight(ws[i], DELAY_MAX - start + 1)
      ensures 0 <= dqsOut <= DELAY_MAX
    {
      var sticky := seen;
      var d := 0;
      while d <= DELAY_MAX - start
        invariant 0 <= d <= DELAY_MAX - start + 1 && 0 <= dqsOut <= DELAY_MAX
        invariant forall i :: 0 <= i < DQ_PER_DQS ==> Edges(left[i], right[i]) == AfterRight(ws[i], d)
        invariant sticky <= ALL_BITS
        invariant forall i :: 0 <= i < DQ_PER_DQS ==>
                    (i in sticky <==> i in seen || SeenRight(ws[i], d))
      {
        var bitChk := TryDqs(ws, start, d);
        var stop := bitChk == {};
        sticky := sticky + bitChk;
        stop := stop && sticky == ALL_BITS;
        if stop {
          RightStopIsSound(ws, seen, sticky, d, DELAY_MAX - start + 1);
          if d == 0 {
            MarkMarginalAtStop(ws, left, right);
          }
          break;
        }
        StepRight(ws, d, bitChk, left, right);
        d := d + 1;
      }
    }

    /** Both sweeps: leaves the edges in left and right and the DQ delays at zero. */
    method FindEdges(ws: seq<Window>, left: array<int>, right: array<int>)
      requires |ws| == DQ_PER_DQS == dqOut.Length && 0 <= dqsOut <= DELAY_MAX
      requires left.Length == right.Length == DQ_PER_DQS && left != right && left != dqOut && right != dqOut
      modifies left, right, dqOut, `dqsOut
      ensures var es := FoundEdges(ws, DELAY_MAX - old(dqsOut));
              forall i :: 0 <= i < DQ_PER_DQS ==> Edges(left[i], right[i]) == es[i]
      ensures GroupAt(0) && 0 <= dqsOut <= DELAY_MAX
    {
      var start := dqsOut;
      for i := 0 to DQ_PER_DQS
        invariant dqsOut == start
        invariant forall k :: 0 <= k < i ==> Edges(left[k], right[k]) == NO_EDGES
      {
        left[i], right[i] := NO_EDGE, NO_EDGE;
      }
      SweepDq(ws, left, right);
      ApplyGroupDqOutDelay(0);
      var seen := ResetEdges(left, right);
      SweepDqs(ws, start, seen, left, right);
    }

    /** Programs the DQ delays; reports whether both margins stayed non-negative. */
    method ShiftDq(ghost es: seq<Edges>, ghost need: seq<int>, left: array<int>, right: array<int>,
                   minIndex: nat, extra: int)
      returns (ok: bool)
      requires |es| == |need| == DQ_PER_DQS == dqOut.Length && minIndex < DQ_PER_DQS
      requires left.Length == right.Length == DQ_PER_DQS && left != dqOut && right != dqOut
      requires forall i :: 0 <= i < DQ_PER_DQS ==> Edges(left[i], right[i]) == es[i]
      requires forall i :: 0 <= i < DQ_PER_DQS ==>
                 DELAY_MAX >= need[i] == TruncHalf(Skew(es[i]) - Skew(es[minIndex])) + extra
      requires GroupAt(0)
      modifies dqOut
      ensures forall i :: 0 <= i < DQ_PER_DQS ==> dqOut[i] == Max(0, need[i])
      ensures ok <==> forall i :: 0 <= i < DQ_PER_DQS ==> Inside(es[i], 0 - Max(0, need[i]))
    {
      var dqsMargin, dqMargin := NO_EDGE, NO_EDGE;
      for i := 0 to DQ_PER_DQS
        invariant forall k :: 0 <= k < i ==> dqOut[k] == Max(0, need[k])
        invariant forall k :: i <= k < DQ_PER_DQS ==> dqOut[k] == 0
        invariant dqMargin >= 0 && dqsMargin >= 0 <==>
                    forall k :: 0 <= k < i ==> Inside(es[k], 0 - Max(0, need[k]))
      {
        var shift := TruncHalf(left[i] - right[i] - (left[minIndex] - right[minIndex])) + extra;
        assert Edges(left[i], right[i]) == es[i] && Edges(left[minIndex], right[minIndex]) == es[minIndex];
        assert shift == need[i];
        shift := ClampShift(shift, dqOut[i]);
        dqOut[i] := dqOut[i] + shift;
        dqMargin := Min(dqMargin, left[i] - shift);
        dqsMargin := Min(dqsMargin, right[i] + shift);
      }
      ok := dqMargin >= 0 && dqsMargin >= 0;
    }

    /** Searches the data-mask window: DM delays downward, then DQS delays upward from
        newDqs, the two halves joined at position 0, with early exit.  It finds the
        leftmost longest run of passing positions on the whole axis. */
    method FindMaskWindow(pass: int -> bool) returns (bgnBest: int, endBest: int, winBest: int)
      requires 0 <= dqsOut <= DELAY_MAX
      modifies this
      ensures dqsOut == old(dqsOut) && dmOut == 0
      ensures LongestRun(pass, -DELAY_MAX, DELAY_MAX - dqsOut, bgnBest, endBest, winBest)
      ensures winBest == 0 ==> bgnBest == endBest == NO_EDGE
    {
      var newDqs := dqsOut;
      var bgnCurr, endCurr := NO_EDGE, NO_EDGE;
      bgnBest, endBest, winBest := NO_EDGE, NO_EDGE, 0;
      var d := DELAY_MAX;
      while d >= 0
        invariant -1 <= d <= DELAY_MAX && dqsOut == newDqs
        invariant Searched(pass, 0 - d - 1, bgnCurr, bgnBest, endBest, winBest)
        invariant endCurr == if bgnCurr == NO_EDGE then NO_EDGE else 0 - d - 1
        decreases d
      {
        dmOut := d;
        if MaskTest(pass, newDqs) {
          SearchedOnePass(pass, 0 - d, bgnCurr, bgnBest, endBest, winBest);
          endCurr := -d;
          if bgnCurr == NO_EDGE {
            bgnCurr := -d;
          }
          if endCurr - bgnCurr + 1 > winBest {
            winBest, bgnBest, endBest := endCurr - bgnCurr + 1, bgnCurr, endCurr;
          }
        } else {
          SearchedOneFailure(pass, 0 - d, bgnCurr, bgnBest, endBest, winBest);
          bgnCurr, endCurr := NO_EDGE, NO_EDGE;
        }
        d := d - 1;
      }
      dmOut := 0;
      if endCurr != 0 {
        bgnCurr, endCurr := NO_EDGE, NO_EDGE;
      }
      bgnBest, endBest, winBest := ExtendMaskWindow(pass, newDqs, bgnCurr, bgnBest, endBest, winBest);
      dqsOut := newDqs;
    }

    /** The second half of the search; position 0 is tried once more. */
    method ExtendMaskWindow(pass: int -> bool, newDqs: int, bgn0: int, bgnBest0: int, endBest0: int, winBest0: int)
      returns (bgnBest: int, endBest: int, winBest: int)
      requires 0 <= newDqs <= DELAY_MAX && dmOut == 0 && Searched(pass, 0, bgn0, bgnBest0, endBest0, winBest0)
      modifies `dqsOut
      ensures LongestRun(pass, -DELAY_MAX, DELAY_MAX - newDqs, bgnBest, endBest, winBest)
      ensures winBest == 0 ==> bgnBest == endBest == NO_EDGE
    {
      var bgnCurr, endCurr := bgn0, if bgn0 == NO_EDGE then NO_EDGE else 0;
      bgnBest, endBest, winBest := bgnBest0, endBest0, winBest0;
      var d := 0;
      while d <= DELAY_MAX - newDqs
        invariant 0 <= d <= DELAY_MAX - newDqs + 1
        invariant Searched(pass, Max(0, d - 1), bgnCurr, bgnBest, endBest, winBest)
      {
        dqsOut := d + newDqs;
        if d == 0 {
          SearchedOnceMore(pass, 0, bgnCurr, bgnBest, endBest, winBest);
        }
        if MaskTest(pass, newDqs) {
          if d > 0 {
            SearchedOnePass(pass, d, bgnCurr, bgnBest, endBest, winBest);
          }
          endCurr := d;
          if bgnCurr == NO_EDGE {
            bgnCurr := d;
          }
          if endCurr - bgnCurr + 1 > winBest {
            winBest, bgnBest, endBest := endCurr - bgnCurr + 1, bgnCurr, endCurr;
          }
        } else {
          if d > 0 {
            SearchedOneFailure(pass, d, bgnCurr, bgnBest, endBest, winBest);
          }
          bgnCurr, endCurr := NO_EDGE, NO_EDGE;
          if winBest - 1 > DELAY_MAX - newDqs - d {
            EarlyExitIsSound(pass, -DELAY_MAX, d, DELAY_MAX - newDqs, bgnBest, endBest, winBest);
            break;
          }
        }
        d := d + 1;
      }
    }

    /** Centres the data mask and returns its margin, with the window it used. */
    method CentreMask(pass: int -> bool) returns (dmMargin: int, bgn: int, end: int, win: int)
      requires 0 <= dqsOut <= DELAY_MAX
      modifies this
      ensures dqsOut == old(dqsOut) && 0 <= dmOut <= DELAY_MAX
      ensures LongestRun(pass, -DELAY_MAX, DELAY_MAX - dqsOut, bgn, end, win)
      ensures dmMargin >= 0 <==> win > 0 && bgn <= 0
      ensures dmOut == if win == 0 || bgn + end >= 0 then 0 else (0 - bgn - end) / 2
    {
      bgn, end, win := FindMaskWindow(pass);
      var left, right := -1 * bgn, end;
      var mid := TruncHalf(left - right);
      if mid < 0 {
        mid := 0;
      }
      if win == 0 {
        dmMargin := -1;
      } else {
        dmMargin := left - mid;
        MaskMarginIsSound(pass, DELAY_MAX - dqsOut, bgn, end, win);
      }
      dmOut := mid;
    }

    /** The centring of the DQ bits; DQS does not move. */
    method CentreDq(ws: seq<Window>, start: int, left: array<int>, right: array<int>) returns (ok: bool)
      requires |ws| == DQ_PER_DQS == dqOut.Length && 0 <= start <= DELAY_MAX
      requires left.Length == right.Length == DQ_PER_DQS && left != dqOut && right != dqOut
      requires EveryBitFound(ws, DELAY_MAX - start) && GroupAt(0)
      requires var es := FoundEdges(ws, DELAY_MAX - start);
               forall i :: 0 <= i < DQ_PER_DQS ==> Edges(left[i], right[i]) == es[i]
      modifies dqOut
      ensures var es := FoundEdges(ws, DELAY_MAX - start);
              forall i :: 0 <= i < DQ_PER_DQS ==> dqOut[i] == WriteDelay(es, i)
      ensures forall i :: 0 <= i < DQ_PER_DQS ==> 0 <= dqOut[i] <= DELAY_MAX
      ensures ok <==> forall i :: 0 <= i < DQ_PER_DQS ==> ws[i].lo <= 0
      ensures ok ==> forall i :: 0 <= i < DQ_PER_DQS ==> ws[i].Passes(0 - dqOut[i])
    {
      ghost var es := FoundEdges(ws, DELAY_MAX - start);
      var midMin, minIndex := FindMinSkew(es, left, right);
      if midMin > 0 {
        midMin := midMin + 1;
      }
      midMin := TruncHalf(midMin);
      ghost var need := WantedDelays(es);
      WantedDelaysFit(ws, start, minIndex);
      ok := ShiftDq(es, need, left, right, minIndex, midMin);
    }

    /** The edge search and the centring of the DQ bits. */
    method DeskewDq(ws: seq<Window>) returns (found: bool, ok: bool)
      requires |ws| == DQ_PER_DQS == dqOut.Length && InRange()
      modifies `dqsOut, dqOut
      ensures InRange()
      ensures var reach := DELAY_MAX - old(dqsOut);
              && found == EveryBitFound(ws, reach)
              && (found ==> dqsOut == old(dqsOut) &&
                            forall i :: 0 <= i < DQ_PER_DQS ==> dqOut[i] == WriteDelay(FoundEdges(ws, reach), i))
              && (!found ==> !ok && GroupAt(0))
      ensures ok <==> found && forall i :: 0 <= i < DQ_PER_DQS ==> ws[i].lo <= 0
      ensures ok ==> forall i :: 0 <= i < DQ_PER_DQS ==> ws[i].Passes(0 - dqOut[i])
    {
      var start := dqsOut;
      var left := new int[DQ_PER_DQS];
      var right := new int[DQ_PER_DQS];
      FindEdges(ws, left, right);
      FoundIffNoIllegalEdge(ws, DELAY_MAX - start);
      found := NoIllegalEdge(FoundEdges(ws, DELAY_MAX - start), left, right);
      if !found {
        return false, false;
      }
      ok := CentreDq(ws, start, left, right);
      dqsOut := start;
    }

    /** Every bit has exactly the delay that the middle furthest right makes necessary, or
        none if that is negative, because DQS does not move. */
    ghost predicate PlacedFrom(ws: seq<Window>, start: int, t: int)
      requires |ws| == DQ_PER_DQS == dqOut.Length
      reads dqOut
    {
      forall i :: 0 <= i < DQ_PER_DQS ==>
        dqOut[i] == Max(0, (t - TwiceMiddle(ws[i], start)) / 2 - t / 2)
    }

    lemma DelaysPlaced(ws: seq<Window>, start: int)
      requires |ws| == DQ_PER_DQS == dqOut.Length && 0 <= start <= DELAY_MAX && EveryBitFound(ws, DELAY_MAX - start)
      requires forall i :: 0 <= i < DQ_PER_DQS ==> dqOut[i] == WriteDelay(FoundEdges(ws, DELAY_MAX - start), i)
      ensures exists t :: FurthestRight(ws, start, t) && PlacedFrom(ws, start, t)
    {
      ghost var t := -MinSkew(FoundEdges(ws, DELAY_MAX - start), DQ_PER_DQS);
      MinSkewIsFurthestRight(ws, start);
      forall i | 0 <= i < DQ_PER_DQS
        ensures dqOut[i] == Max(0, (t - TwiceMiddle(ws[i], start)) / 2 - t / 2)
      {
        TargetInNumbers(ws, start, i);
      }
      assert PlacedFrom(ws, start, t);
    }

    lemma EveryBitWritten(ws: seq<Window>)
      requires |ws| == DQ_PER_DQS == dqOut.Length
      requires forall i :: 0 <= i < DQ_PER_DQS ==> ws[i].Passes(0 - dqOut[i])
      ensures WriteTest(ws, dqsOut) == ALL_BITS
    {
      forall i | i in ALL_BITS ensures i in WriteTest(ws, dqsOut) {
        assert ws[i].Passes(0 - dqOut[i]);
      }
    }

    /** Write deskew of one group, followed by the data mask.  The verdict is positive
        exactly when every bit passes somewhere on the axis and no later than at
        position 0, and the mask's longest window starts no later than at 0; then
        every bit and the mask pass with the delays now programmed. */
    method WritesCenter(ws: seq<Window>, maskPass: int -> bool)
      returns (ok: bool, bgn: int, end: int, win: int)
      requires |ws| == DQ_PER_DQS == dqOut.Length && InRange()
      modifies this, dqOut
      ensures InRange()
      ensures var reach := DELAY_MAX - old(dqsOut);
              if EveryBitFound(ws, reach) then
                && dqsOut == old(dqsOut)
                && (forall i :: 0 <= i < DQ_PER_DQS ==> dqOut[i] == WriteDelay(FoundEdges(ws, reach), i))
                && LongestRun(maskPass, -DELAY_MAX, reach, bgn, end, win)
                && dmOut == (if win == 0 || bgn + end >= 0 then 0 else (0 - bgn - end) / 2)
              else !ok && GroupAt(0)
      ensures PassesSomewhere(ws, old(dqsOut)) ==>
                exists t :: FurthestRight(ws, old(dqsOut), t) && PlacedFrom(ws, old(dqsOut), t)
      ensures ok <==> PassesSomewhere(ws, old(dqsOut))
                      && (forall i :: 0 <= i < DQ_PER_DQS ==> ws[i].lo <= 0) && win > 0 && bgn <= 0
      ensures ok ==> WriteTest(ws, dqsOut) == ALL_BITS && MaskTest(maskPass, dqsOut)
    {
      ghost var start := dqsOut;
      FoundMeansPassesSomewhere(ws, start);
      bgn, end, win := NO_EDGE, NO_EDGE, 0;
      var found, marginsOk := DeskewDq(ws);
      if !found {
        return false, bgn, end, win;
      }
      DelaysPlaced(ws, start);
      var dmMargin;
      dmMargin, bgn, end, win := CentreMask(maskPass);
      ok := marginsOk && dmMargin >= 0;
      if ok {
        EveryBitWritten(ws);
        MaskMarginIsSound(maskPass, DELAY_MAX - dqsOut, bgn, end, win);
      }
    }
  }

  /** A DQ shift limited so that the pin's delay `now` stays in range. */
  function ClampShift(shift: int, now: int): int {
    if shift + now > DELAY_MAX then DELAY_MAX - now
    else if shift + now < 0 then -now
    else shift
  }

  /** A bit that passed at delay 0 in the first sweep and fails there now. */
  function MarkMarginal(e: Edges): Edges {
    if e.right == NO_EDGE && e.left != NO_EDGE then e.(right := -1) else e
  }

  lemma MarginalBitsAgree(left: int)
    requires left != NO_EDGE
    ensures MarkMarginal(Edges(left, NO_EDGE)) == MarkRight(0, false, Edges(left, NO_EDGE))
  {
    MarginalBitEndsLeftOfZero(left);
  }

  /** Since the memory test is deterministic, a bit that fails at position 0 has its
      right edge from the first sweep, and the marking changes nothing. */
  method MarkMarginalAtStop(ws: seq<Window>, left: array<int>, right: array<int>)
    requires |ws| == left.Length == right.Length == DQ_PER_DQS && left != right
    requires forall i :: 0 <= i < DQ_PER_DQS ==> !ws[i].Passes(0) && Edges(left[i], right[i]) == AfterRight(ws[i], 0)
    modifies right
    ensures forall i :: 0 <= i < DQ_PER_DQS ==> Edges(left[i], right[i]) == AfterRight(ws[i], 0)
  {
    forall i | 0 <= i < DQ_PER_DQS ensures MarkMarginal(AfterRight(ws[i], 0)) == AfterRight(ws[i], 0) {
      AfterRightClosed(ws[i], 0);
    }
    MarkMarginalBits(left, right);
  }

  method MarkMarginalBits(left: array<int>, right: array<int>)
    requires left.Length == right.Length == DQ_PER_DQS && left != right
    modifies right
    ensures forall i :: 0 <= i < DQ_PER_DQS ==>
              Edges(left[i], right[i]) == MarkMarginal(old(Edges(left[i], right[i])))
  {
    for i := 0 to DQ_PER_DQS
      invariant forall k :: 0 <= k < i ==> Edges(left[k], right[k]) == MarkMarginal(old(Edges(left[k], right[k])))
      invariant forall k :: i <= k < DQ_PER_DQS ==> right[k] == old(right[k])
    {
      if right[i] == NO_EDGE && left[i] != NO_EDGE {
        right[i] := -1;
      }
    }
  }

  /** Drops right edges without a left edge; returns the bits whose left edge the DQ
      sweep saw. */
  method ResetEdges(left: array<int>, right: array<int>) returns (seen: set<nat>)
    requires left.Length == right.Length == DQ_PER_DQS && left != right
    modifies right
    ensures forall i :: 0 <= i < DQ_PER_DQS ==>
              Edges(left[i], right[i]) == DropOrphanRight(old(Edges(left[i], right[i])))
    ensures seen <= ALL_BITS
    ensures forall i :: 0 <= i < DQ_PER_DQS ==> (i in seen <==> left[i] != NO_EDGE)
  {
    seen := {};
    for i := DQ_PER_DQS downto 0
      invariant forall k :: i <= k < DQ_PER_DQS ==>
                  Edges(left[k], right[k]) == DropOrphanRight(old(Edges(left[k], right[k])))
      invariant forall k :: 0 <= k < i ==> right[k] == old(right[k])
      invariant seen <= ALL_BITS
      invariant forall k :: 0 <= k < i ==> k !in seen
      invariant forall k :: i <= k < DQ_PER_DQS ==> (k in seen <==> left[k] != NO_EDGE)
    {
      if left[i] == NO_EDGE && right[i] != NO_EDGE {
        right[i] := NO_EDGE;
      }
      if left[i] != NO_EDGE {
        seen := seen + {i};
      }
    }
  }
}
