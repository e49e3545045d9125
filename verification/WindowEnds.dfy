/** What the deskew uses of the windows, in terms of their ends on the axis: no edges, no
    skews, no divisions that truncate. */
module WindowEnds {
  import opened Integers
  import opened DelayWindows
  import opened EdgeMarks

  /** The first and the last passing position on the axis. */
  function LeftEnd(w: Window): int { Max(w.lo, -31) }

  function RightEnd(w: Window, start: int): int { Min(w.hi, 31 - start) }

  predicate PassesSomewhere(ws: seq<Window>, start: int) {
    forall i :: 0 <= i < |ws| ==> LeftEnd(ws[i]) <= RightEnd(ws[i], start)
  }

  /** Twice the middle of the window. */
  function TwiceMiddle(w: Window, start: int): int { LeftEnd(w) + RightEnd(w, start) }

  lemma EdgesAreEnds(ws: seq<Window>, start: int, i: nat)
    requires |ws| == DQ_PER_DQS && 0 <= start <= DELAY_MAX && i < DQ_PER_DQS
    requires EveryBitFound(ws, DELAY_MAX - start)
    ensures FoundEdges(ws, DELAY_MAX - start)[i] == Edges(-LeftEnd(ws[i]), RightEnd(ws[i], start))
  {
    var e := FoundEdges(ws, DELAY_MAX - start)[i];
    SweepsFindTheClippedEnds(ws[i], DELAY_MAX - start);
    assert ws[i].Passes(LeftEnd(ws[i])) && ws[i].Passes(RightEnd(ws[i], start));
  }

  lemma FoundMeansPassesSomewhere(ws: seq<Window>, start: int)
    requires 0 <= start <= DELAY_MAX
    ensures EveryBitFound(ws, DELAY_MAX - start) <==> PassesSomewhere(ws, start)
  {
    forall i | 0 <= i < |ws| ensures FoundOn(ws[i], DELAY_MAX - start) <==> LeftEnd(ws[i]) <= RightEnd(ws[i], start) {
    }
    if EveryBitFound(ws, DELAY_MAX - start) {
      assert forall i :: 0 <= i < |ws| ==> ws[i] in ws;
    }
    if PassesSomewhere(ws, start) {
      forall w | w in ws ensures FoundOn(w, DELAY_MAX - start) {
        var i :| 0 <= i < |ws| && ws[i] == w;
        assert LeftEnd(ws[i]) <= RightEnd(ws[i], start);
      }
    }
  }

  /** t is twice the middle of the window whose middle lies furthest right. */
  ghost predicate FurthestRight(ws: seq<Window>, start: int, t: int) {
    && (forall j :: 0 <= j < |ws| ==> TwiceMiddle(ws[j], start) <= t)
    && exists j :: 0 <= j < |ws| && TwiceMiddle(ws[j], start) == t
  }

  lemma MinSkewIsFurthestRight(ws: seq<Window>, start: int)
    requires |ws| == DQ_PER_DQS && 0 <= start <= DELAY_MAX && EveryBitFound(ws, DELAY_MAX - start)
    ensures FurthestRight(ws, start, -MinSkew(FoundEdges(ws, DELAY_MAX - start), DQ_PER_DQS))
  {
    var es := FoundEdges(ws, DELAY_MAX - start);
    MinSkewIsMinimum(es, DQ_PER_DQS);
    forall j | 0 <= j < DQ_PER_DQS ensures Skew(es[j]) == -TwiceMiddle(ws[j], start) {
      EdgesAreEnds(ws, start, j);
    }
    var k :| 0 <= k < DQ_PER_DQS && MinSkew(es, DQ_PER_DQS) == Skew(es[k]);
    assert TwiceMiddle(ws[k], start) == -MinSkew(es, DQ_PER_DQS);
  }

  /** The DQS move and the targets, with divisions that round down. */
  lemma TargetInNumbers(ws: seq<Window>, start: int, i: nat)
    requires |ws| == DQ_PER_DQS && 0 <= start <= DELAY_MAX && EveryBitFound(ws, DELAY_MAX - start) && i < DQ_PER_DQS
    ensures var es := FoundEdges(ws, DELAY_MAX - start);
            var t := -MinSkew(es, DQ_PER_DQS);
            && DqsMove(MinSkew(es, DQ_PER_DQS)) == 0 - t / 2
            && Target(es[i], MinSkew(es, DQ_PER_DQS)) == t / 2 - (t - TwiceMiddle(ws[i], start)) / 2
  {
    MinSkewIsFurthestRight(ws, start);
    EdgesAreEnds(ws, start, i);
  }
}
