/** The parts of the edge search that the read and the write deskew have in common:
    marking the edges of all bits after one memory test, and picking the bit whose
    window lies furthest right. */
module EdgeMarks {
  import opened Integers
  import opened DelayWindows

  /** The edges both sweeps leave for every bit when DQS has reach taps left. */
  function FoundEdges(ws: seq<Window>, reach: nat): (es: seq<Edges>)
    requires |ws| == DQ_PER_DQS
  {
    seq(DQ_PER_DQS, i requires 0 <= i < DQ_PER_DQS => AfterRight(ws[i], reach + 1))
  }

  predicate EveryBitFound(ws: seq<Window>, reach: int) {
    forall w :: w in ws ==> FoundOn(w, reach)
  }

  lemma FoundIffNoIllegalEdge(ws: seq<Window>, reach: nat)
    requires |ws| == DQ_PER_DQS && reach <= DELAY_MAX
    ensures EveryBitFound(ws, reach) <==>
            forall i :: 0 <= i < DQ_PER_DQS ==> !HasNoEdge(FoundEdges(ws, reach)[i])
    ensures EveryBitFound(ws, reach) <==>
            forall w :: w in ws ==> exists p :: -DELAY_MAX <= p <= reach && w.Passes(p)
  {
    forall i | 0 <= i < DQ_PER_DQS
      ensures FoundOn(ws[i], reach) <==> !HasNoEdge(FoundEdges(ws, reach)[i])
    {
      SweepsFindTheClippedEnds(ws[i], reach);
    }
    forall w | w in ws
      ensures FoundOn(w, reach) <==> exists p :: -DELAY_MAX <= p <= reach && w.Passes(p)
    {
      FoundIffSomePositionPasses(w, reach);
    }
    if !EveryBitFound(ws, reach) {
      var w :| w in ws && !FoundOn(w, reach);
      var i :| 0 <= i < DQ_PER_DQS && ws[i] == w;
      assert HasNoEdge(FoundEdges(ws, reach)[i]);
    }
  }

  /** When no bit passes at DQ delay d and every bit has passed before, the rest of the
      sweep would change no edge. */
  lemma LeftStopIsSound(ws: seq<Window>, sticky: set<nat>, d: nat)
    requires |ws| == DQ_PER_DQS && d <= DELAY_MAX && sticky == ALL_BITS
    requires forall i :: 0 <= i < DQ_PER_DQS ==> !ws[i].Passes(0 - d) && (i in sticky ==> SeenLeft(ws[i], d))
    ensures forall i :: 0 <= i < DQ_PER_DQS ==> AfterLeft(ws[i], DELAY_MAX + 1) == AfterLeft(ws[i], d)
  {
    forall i | 0 <= i < DQ_PER_DQS ensures AfterLeft(ws[i], DELAY_MAX + 1) == AfterLeft(ws[i], d) {
      assert i in ALL_BITS;
      LeftSettled(ws[i], d, DELAY_MAX + 1);
    }
  }

  /** The same for the DQS sweep up to delay e; bits in seen had a left edge before. */
  lemma RightStopIsSound(ws: seq<Window>, seen: set<nat>, sticky: set<nat>, d: nat, e: nat)
    requires |ws| == DQ_PER_DQS && d <= e <= DELAY_MAX + 1 && sticky == ALL_BITS
    requires forall i :: 0 <= i < DQ_PER_DQS ==>
               !ws[i].Passes(d) && (i in seen ==> BetweenSweeps(ws[i]).left != NO_EDGE)
               && (i in sticky ==> i in seen || SeenRight(ws[i], d))
    ensures forall i :: 0 <= i < DQ_PER_DQS ==> AfterRight(ws[i], e) == AfterRight(ws[i], d)
  {
    forall i | 0 <= i < DQ_PER_DQS ensures AfterRight(ws[i], e) == AfterRight(ws[i], d) {
      assert i in ALL_BITS;
      AfterLeftClosed(ws[i], DELAY_MAX + 1);
      RightSettled(ws[i], d, e);
    }
  }

  /** One step of the DQ sweep for all bits of the mask bitChk. */
  method MarkLeftBits(d: nat, bitChk: set<nat>, left: array<int>, right: array<int>)
    requires left.Length == right.Length == DQ_PER_DQS && left != right
    modifies left, right
    ensures forall i :: 0 <= i < DQ_PER_DQS ==>
              Edges(left[i], right[i]) == MarkLeft(d, i in bitChk, old(Edges(left[i], right[i])))
  {
    for i := 0 to DQ_PER_DQS
      invariant forall k :: 0 <= k < i ==>
                  Edges(left[k], right[k]) == MarkLeft(d, k in bitChk, old(Edges(left[k], right[k])))
      invariant forall k :: i <= k < DQ_PER_DQS ==> left[k] == old(left[k]) && right[k] == old(right[k])
    {
      if i in bitChk {
        left[i] := d;
      } else if left[i] == NO_EDGE {
        right[i] := -(d + 1);
      }
    }
  }

  /** One step of the DQS sweep for all bits of the mask bitChk. */
  method MarkRightBits(d: nat, bitChk: set<nat>, left: array<int>, right: array<int>)
    requires left.Length == right.Length == DQ_PER_DQS && left != right
    modifies left, right
    ensures forall i :: 0 <= i < DQ_PER_DQS ==>
              Edges(left[i], right[i]) == MarkRight(d, i in bitChk, old(Edges(left[i], right[i])))
  {
    for i := 0 to DQ_PER_DQS
      invariant forall k :: 0 <= k < i ==>
                  Edges(left[k], right[k]) == MarkRight(d, k in bitChk, old(Edges(left[k], right[k])))
      invariant forall k :: i <= k < DQ_PER_DQS ==> left[k] == old(left[k]) && right[k] == old(right[k])
    {
      if i in bitChk {
        right[i] := d;
      } else if d != 0 {
        if right[i] == NO_EDGE {
          left[i] := -(d + 1);
        }
      } else if right[i] == NO_EDGE && left[i] != NO_EDGE {
        right[i] := -1;
      } else if right[i] == NO_EDGE {
        left[i] := -(d + 1);
      }
    }
  }

  /** One step takes all edges from delays below d to delays up to d. */
  method StepLeft(ghost ws: seq<Window>, d: nat, bitChk: set<nat>, left: array<int>, right: array<int>)
    requires |ws| == left.Length == right.Length == DQ_PER_DQS && left != right
    requires forall i :: 0 <= i < DQ_PER_DQS ==> Edges(left[i], right[i]) == AfterLeft(ws[i], d)
    requires forall i :: 0 <= i < DQ_PER_DQS ==> (i in bitChk <==> ws[i].Passes(0 - d))
    modifies left, right
    ensures forall i :: 0 <= i < DQ_PER_DQS ==> Edges(left[i], right[i]) == AfterLeft(ws[i], d + 1)
  {
    MarkLeftBits(d, bitChk, left, right);
  }

  method StepRight(ghost ws: seq<Window>, d: nat, bitChk: set<nat>, left: array<int>, right: array<int>)
    requires |ws| == left.Length == right.Length == DQ_PER_DQS && left != right
    requires forall i :: 0 <= i < DQ_PER_DQS ==> Edges(left[i], right[i]) == AfterRight(ws[i], d)
    requires forall i :: 0 <= i < DQ_PER_DQS ==> (i in bitChk <==> ws[i].Passes(d))
    modifies left, right
    ensures forall i :: 0 <= i < DQ_PER_DQS ==> Edges(left[i], right[i]) == AfterRight(ws[i], d + 1)
  {
    MarkRightBits(d, bitChk, left, right);
  }

  method NoIllegalEdge(ghost es: seq<Edges>, left: array<int>, right: array<int>) returns (found: bool)
    requires |es| == left.Length == right.Length == DQ_PER_DQS
    requires forall i :: 0 <= i < DQ_PER_DQS ==> Edges(left[i], right[i]) == es[i]
    ensures found <==> forall i :: 0 <= i < DQ_PER_DQS ==> !HasNoEdge(es[i])
  {
    for i := 0 to DQ_PER_DQS
      invariant forall k :: 0 <= k < i ==> !HasNoEdge(es[k])
    {
      if left[i] == NO_EDGE || right[i] == NO_EDGE {
        assert Edges(left[i], right[i]) == es[i];
        return false;
      }
    }
    return true;
  }

  method FindMinSkew(ghost es: seq<Edges>, left: array<int>, right: array<int>) returns (skew: int, minIndex: nat)
    requires |es| == left.Length == right.Length == DQ_PER_DQS
    requires forall i :: 0 <= i < DQ_PER_DQS ==> Edges(left[i], right[i]) == es[i]
    ensures minIndex < DQ_PER_DQS && skew == MinSkew(es, DQ_PER_DQS) == Skew(es[minIndex])
  {
    skew, minIndex := left[0] - right[0], 0;
    assert Edges(left[0], right[0]) == es[0];
    for i := 1 to DQ_PER_DQS
      invariant 0 <= minIndex < i
      invariant skew == MinSkew(es, i) == Skew(es[minIndex])
    {
      var mid := left[i] - right[i];
      assert Edges(left[i], right[i]) == es[i];
      if mid < skew {
        skew := mid;
        minIndex := i;
      }
    }
  }
}
