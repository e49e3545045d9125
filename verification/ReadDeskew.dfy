/** Read per-bit deskew: find the two edges of every DQ bit's window, then centre
    DQS and all DQ bits. */
module ReadDeskew {
  import opened Integers
  import opened DelayWindows
  import opened EdgeMarks
  import opened WindowEnds
  import opened ReadTargets

  /** The delay registers of one read group. */
  class ReadGroup {
    const dqIn: array<int>  // input delay of every DQ pin
    var dqsIn: int          // input delay of DQS

    constructor (pins: nat, dqs: int)
      requires pins >= DQ_PER_DQS && 0 <= dqs <= DELAY_MAX
      ensures InRange() && dqsIn == dqs && dqIn.Length == pins && fresh(dqIn)
    {
      dqIn := new int[pins](_ => 0);
      dqsIn := dqs;
    }

    /** Every programmed delay fits its delay chain. */
    predicate InRange()
      reads this, dqIn
    {
      && 0 <= dqsIn <= DELAY_MAX
      && forall p :: 0 <= p < dqIn.Length ==> 0 <= dqIn[p] <= DELAY_MAX
    }

    /** The position at which pin p is read, relative to the DQS delay start. */
    function Position(start: int, p: nat): int
      requires p < dqIn.Length
      reads this, dqIn
    {
      dqsIn - start - dqIn[p]
    }

    /** The bits that read back correctly with the registers as they are. */
    function ReadTest(ws: seq<Window>, bgn: nat, start: int): (bits: set<nat>)
      requires |ws| == DQ_PER_DQS && bgn + DQ_PER_DQS <= dqIn.Length
      reads this, dqIn
      ensures bits <= ALL_BITS
      ensures forall i :: 0 <= i < DQ_PER_DQS ==> (i in bits <==> ws[i].Passes(Position(start, bgn + i)))
    {
      set i | i in ALL_BITS && ws[i].Passes(Position(start, bgn + i))
    }

    predicate GroupAt(bgn: nat, delay: int)
      requires bgn + DQ_PER_DQS <= dqIn.Length
      reads dqIn
    {
      forall p :: bgn <= p < bgn + DQ_PER_DQS ==> dqIn[p] == delay
    }

    twostate predicate OthersUnchanged(bgn: nat)
      requires bgn + DQ_PER_DQS <= dqIn.Length
      reads dqIn
    {
      forall p :: 0 <= p < dqIn.Length && !(bgn <= p < bgn + DQ_PER_DQS) ==> dqIn[p] == old(dqIn[p])
    }

    method ApplyGroupDqInDelay(bgn: nat, delay: int)
      requires bgn + DQ_PER_DQS <= dqIn.Length
      modifies dqIn
      ensures GroupAt(bgn, delay) && OthersUnchanged(bgn)
    {
      for i := 0 to DQ_PER_DQS
        invariant forall k :: bgn <= k < bgn + i ==> dqIn[k] == delay
        invariant OthersUnchanged(bgn)
      {
        dqIn[bgn + i] := delay;
      }
    }

    /** Tries DQ delay d. */
    method TryDq(ws: seq<Window>, bgn: nat, d: nat) returns (bitChk: set<nat>)
      requires |ws| == DQ_PER_DQS && bgn + DQ_PER_DQS <= dqIn.Length
      modifies dqIn
      ensures bitChk <= ALL_BITS
      ensures forall i :: 0 <= i < DQ_PER_DQS ==> (i in bitChk <==> ws[i].Passes(0 - d))
      ensures OthersUnchanged(bgn)
    {
      ApplyGroupDqInDelay(bgn, d);
      bitChk := ReadTest(ws, bgn, dqsIn);
    }

    /** Tries DQS delay d above start. */
    method TryDqs(ws: seq<Window>, bgn: nat, start: int, d: nat) returns (bitChk: set<nat>)
      requires |ws| == DQ_PER_DQS && bgn + DQ_PER_DQS <= dqIn.Length && GroupAt(bgn, 0)
      modifies `dqsIn
      ensures dqsIn == d + start
      ensures bitChk <= ALL_BITS
      ensures forall i :: 0 <= i < DQ_PER_DQS ==> (i in bitChk <==> ws[i].Passes(d))
    {
      dqsIn := d + start;
      bitChk := ReadTest(ws, bgn, start);
    }

    /** The DQ-delay sweep, which stops early at a delay where no bit passes once
        every bit has passed before. */
    method SweepDq(ws: seq<Window>, bgn: nat, left: array<int>, right: array<int>)
      requires |ws| == DQ_PER_DQS && bgn + DQ_PER_DQS <= dqIn.Length
      requires left.Length == right.Length == DQ_PER_DQS && left != right && left != dqIn && right != dqIn
      requires forall i :: 0 <= i < DQ_PER_DQS ==> Edges(left[i], right[i]) == NO_EDGES
      modifies left, right, dqIn
      ensures forall i :: 0 <= i < DQ_PER_DQS ==> Edges(left[i], right[i]) == AfterLeft(ws[i], DELAY_MAX + 1)
      ensures OthersUnchanged(bgn)
    {
      var sticky := {};
      var d := 0;
      while d <= DELAY_MAX
        invariant 0 <= d <= DELAY_MAX + 1
        invariant forall i :: 0 <= i < DQ_PER_DQS ==> Edges(left[i], right[i]) == AfterLeft(ws[i], d)
        invariant sticky <= ALL_BITS
        invariant forall i :: 0 <= i < DQ_PER_DQS ==> (i in sticky <==> SeenLeft(ws[i], d))
        invariant OthersUnchanged(bgn)
      {
        var bitChk := TryDq(ws, bgn, d);
        var stop := bitChk == {};
        sticky := sticky + bitChk;
        stop := stop && sticky == ALL_BITS;
        if stop {
          LeftStopIsSound(ws, sticky, d);
          break;
        }
        StepLeft(ws, d, bitChk, left, right);
        d := d + 1;
      }
    }

    /** The DQS-delay sweep over the taps DQS has left above start. */
    method SweepDqs(ws: seq<Window>, bgn: nat, start: int, done: set<nat>, left: array<int>, right: array<int>)
      requires |ws| == DQ_PER_DQS && bgn + DQ_PER_DQS <= dqIn.Length && 0 <= start <= DELAY_MAX
      requires left.Length == right.Length == DQ_PER_DQS && left != right && left != dqIn && right != dqIn
      requires GroupAt(bgn, 0)
      requires forall i :: 0 <= i < DQ_PER_DQS ==> Edges(left[i], right[i]) == BetweenSweeps(ws[i])
      requires done <= ALL_BITS
      requires forall i :: 0 <= i < DQ_PER_DQS ==> (i in done <==> !HasNoEdge(BetweenSweeps(ws[i])))
      modifies left, right, `dqsIn
      ensures forall i :: 0 <= i < DQ_PER_DQS ==>
                Edges(left[i], right[i]) == AfterRight(ws[i], DELAY_MAX - start + 1)
    {
      var sticky := done;
      var d := 0;
      while d <= DELAY_MAX - start
        invariant 0 <= d <= DELAY_MAX - start + 1
        invariant forall i :: 0 <= i < DQ_PER_DQS ==> Edges(left[i], right[i]) == AfterRight(ws[i], d)
        invariant sticky <= ALL_BITS
        invariant forall i :: 0 <= i < DQ_PER_DQS ==>
                    (i in sticky <==> i in done || SeenRight(ws[i], d))
      {
        var bitChk := TryDqs(ws, bgn, start, d);
        var stop := bitChk == {};
        sticky := sticky + bitChk;
        stop := stop && sticky == ALL_BITS;
        if stop {
          RightStopIsSound(ws, done, sticky, d, DELAY_MAX - start + 1);
          break;
        }
        StepRight(ws, d, bitChk, left, right);
        d := d + 1;
      }
    }

    /** Both sweeps: leaves the edges in left and right, all DQ delays of the group
        at zero, and DQS wherever the second sweep stopped. */
    method FindEdges(ws: seq<Window>, bgn: nat, left: array<int>, right: array<int>)
      requires |ws| == DQ_PER_DQS && bgn + DQ_PER_DQS <= dqIn.Length && 0 <= dqsIn <= DELAY_MAX
      requires left.Length == right.Length == DQ_PER_DQS && left != right && left != dqIn && right != dqIn
      modifies left, right, dqIn, `dqsIn
      ensures var es := FoundEdges(ws, DELAY_MAX - old(dqsIn));
              forall i :: 0 <= i < DQ_PER_DQS ==> Edges(left[i], right[i]) == es[i]
      ensures GroupAt(bgn, 0) && OthersUnchanged(bgn)
    {
      var start := dqsIn;
      for i := 0 to DQ_PER_DQS
        invariant forall k :: 0 <= k < i ==> Edges(left[k], right[k]) == NO_EDGES
        invariant OthersUnchanged(bgn)
      {
        left[i], right[i] := NO_EDGE, NO_EDGE;
      }
      SweepDq(ws, bgn, left, right);
      ApplyGroupDqInDelay(bgn, 0);
      var done := ResetEdges(left, right);
      SweepDqs(ws, bgn, start, done, left, right);
    }

    /** The first i bits of the group have their delays; all other pins still have
        those in `pins`. */
    ghost predicate SetUpTo(need: seq<int>, pins: seq<int>, bgn: nat, i: nat)
      requires |need| == DQ_PER_DQS && |pins| == dqIn.Length && bgn + DQ_PER_DQS <= dqIn.Length
      reads dqIn
    {
      && i <= DQ_PER_DQS
      && (forall p :: 0 <= p < dqIn.Length ==> 0 <= dqIn[p] <= DELAY_MAX)
      && (forall p :: 0 <= p < dqIn.Length && !(bgn <= p < bgn + i) ==> dqIn[p] == pins[p])
      && (forall k :: 0 <= k < i ==> dqIn[bgn + k] == Programmed(need, pins, bgn, k))
    }

    /** What the clamp reads for bit i. */
    lemma OtherPin(need: seq<int>, pins: seq<int>, bgn: nat, i: nat)
      requires |need| == DQ_PER_DQS && |pins| == dqIn.Length && bgn + DQ_PER_DQS <= dqIn.Length && i < DQ_PER_DQS
      requires pins[bgn + i] == 0 && SetUpTo(need, pins, bgn, i)
      ensures dqIn[bgn + i] == 0
      ensures Programmed(need, pins, bgn, i) == if need[i] <= DELAY_MAX then need[i] else DELAY_MAX - dqIn[i]
    {
      if 0 < bgn <= i {
        var k := i - bgn;
        assert dqIn[i] == dqIn[bgn + k] == Programmed(need, pins, bgn, k);
      }
    }

    /** Shifts pin bgn + i, whose delay is zero, and returns the shift made. */
    method ShiftPin(bgn: nat, i: nat, wanted: int, ghost need: seq<int>, ghost pins: seq<int>) returns (shift: int)
      requires |need| == DQ_PER_DQS && |pins| == dqIn.Length && bgn + DQ_PER_DQS <= dqIn.Length && i < DQ_PER_DQS
      requires wanted == need[i] >= 0 && pins[bgn + i] == 0 && SetUpTo(need, pins, bgn, i)
      modifies dqIn
      ensures SetUpTo(need, pins, bgn, i + 1) && shift == dqIn[bgn + i] == Programmed(need, pins, bgn, i)
      ensures forall p :: 0 <= p < dqIn.Length && p != bgn + i ==> dqIn[p] == old(dqIn[p])
    {
      OtherPin(need, pins, bgn, i);
      shift := ClampShift(wanted, dqIn[bgn + i], dqIn[i]);
      dqIn[bgn + i] := dqIn[bgn + i] + shift;
    }

    /** Programs the DQ delays; reports whether both margins stayed non-negative. */
    method ShiftDq(ghost es: seq<Edges>, ghost need: seq<int>, bgn: nat, left: array<int>, right: array<int>,
                   minIndex: nat, extra: int, midMin: int)
      returns (ok: bool)
      requires |es| == |need| == DQ_PER_DQS && bgn + DQ_PER_DQS <= dqIn.Length && minIndex < DQ_PER_DQS
      requires left.Length == right.Length == DQ_PER_DQS && left != dqIn && right != dqIn
      requires forall i :: 0 <= i < DQ_PER_DQS ==> Edges(left[i], right[i]) == es[i]
      requires forall i :: 0 <= i < DQ_PER_DQS ==>
                 0 <= need[i] == TruncHalf(Skew(es[i]) - Skew(es[minIndex])) + extra
      requires GroupAt(bgn, 0)
      requires forall p :: 0 <= p < dqIn.Length ==> 0 <= dqIn[p] <= DELAY_MAX
      modifies dqIn
      ensures SetUpTo(need, old(dqIn[..]), bgn, DQ_PER_DQS)
      ensures ok <==> forall i :: 0 <= i < DQ_PER_DQS ==> Inside(es[i], -midMin - dqIn[bgn + i])
    {
      var dqsMargin, dqMargin := NO_EDGE, NO_EDGE;
      ghost var pins := dqIn[..];
      for i := 0 to DQ_PER_DQS
        invariant SetUpTo(need, pins, bgn, i)
        invariant dqMargin >= 0 && dqsMargin >= 0 <==>
                    forall k :: 0 <= k < i ==> Inside(es[k], -midMin - dqIn[bgn + k])
      {
        var wanted := TruncHalf(left[i] - right[i] - (left[minIndex] - right[minIndex])) + extra;
        assert Edges(left[i], right[i]) == es[i] && Edges(left[minIndex], right[minIndex]) == es[minIndex];
        assert pins[bgn + i] == 0;
        var shift := ShiftPin(bgn, i, wanted, need, pins);
        dqMargin := Min(dqMargin, left[i] - shift + (-midMin));
        dqsMargin := Min(dqsMargin, right[i] + shift - (-midMin));
      }
      ok := dqMargin >= 0 && dqsMargin >= 0;
    }

    /** What centring leaves behind, when the pins had the delays `pins` before: DQS at
        its target, every bit whose DQ chain is long enough at its target, every other
        bit at the delay that the clamp leaves it, and a verdict that says whether all
        bits ended up inside their windows. */
    ghost predicate CentringDone(es: seq<Edges>, bgn: nat, start: int, pins: seq<int>, ok: bool)
      requires |es| == DQ_PER_DQS && bgn + DQ_PER_DQS <= dqIn.Length == |pins|
      reads this, dqIn
    {
      && dqsIn == CentredDqs(es, start)
      && (forall i :: 0 <= i < DQ_PER_DQS ==> dqIn[bgn + i] == Programmed(Needed(es, start), pins, bgn, i))
      && (forall i :: 0 <= i < DQ_PER_DQS && NeededShift(es, i, start) <= DELAY_MAX ==>
            Position(start, bgn + i) == Target(es[i], MinSkew(es, DQ_PER_DQS)))
      && (ok <==> forall i :: 0 <= i < DQ_PER_DQS ==> Inside(es[i], Position(start, bgn + i)))
    }

    lemma CentringFollows(es: seq<Edges>, bgn: nat, start: int, pins: seq<int>, ok: bool)
      requires |es| == DQ_PER_DQS && bgn + DQ_PER_DQS <= dqIn.Length == |pins|
      requires dqsIn == CentredDqs(es, start) && SetUpTo(Needed(es, start), pins, bgn, DQ_PER_DQS)
      requires ok <==> forall i :: 0 <= i < DQ_PER_DQS ==> Inside(es[i], dqsIn - start - dqIn[bgn + i])
      ensures CentringDone(es, bgn, start, pins, ok)
    {
      forall i | 0 <= i < DQ_PER_DQS
        ensures Position(start, bgn + i) == dqsIn - start - dqIn[bgn + i]
        ensures NeededShift(es, i, start) <= DELAY_MAX ==>
                  Position(start, bgn + i) == Target(es[i], MinSkew(es, DQ_PER_DQS))
      {
        assert Needed(es, start)[i] == NeededShift(es, i, start);
        assert dqIn[bgn + i] == Programmed(Needed(es, start), pins, bgn, i);
      }
    }

    /** The verdict is positive exactly when no bit is left past its right edge. */
    lemma VerdictIsWithinChain(ws: seq<Window>, bgn: nat, start: int, pins: seq<int>, ok: bool)
      requires |ws| == DQ_PER_DQS && bgn + DQ_PER_DQS <= dqIn.Length == |pins| && 0 <= start <= DELAY_MAX
      requires forall p :: 0 <= p < |pins| ==> 0 <= pins[p] <= DELAY_MAX
      requires EveryBitFound(ws, DELAY_MAX - start)
      requires CentringDone(FoundEdges(ws, DELAY_MAX - start), bgn, start, pins, ok)
      ensures ok <==> WithinChain(FoundEdges(ws, DELAY_MAX - start), start, pins, bgn)
    {
      var es := FoundEdges(ws, DELAY_MAX - start);
      forall i | 0 <= i < DQ_PER_DQS
        ensures Inside(es[i], Position(start, bgn + i)) <==> Position(start, bgn + i) <= es[i].right
      {
        InsideIffWithinChain(ws, start, pins, bgn, i);
      }
    }

    method Centre(ghost es: seq<Edges>, bgn: nat, start: int, left: array<int>, right: array<int>)
      returns (ok: bool)
      requires |es| == DQ_PER_DQS && bgn + DQ_PER_DQS <= dqIn.Length
      requires left.Length == right.Length == DQ_PER_DQS && left != dqIn && right != dqIn
      requires forall i :: 0 <= i < DQ_PER_DQS ==> Edges(left[i], right[i]) == es[i]
      requires forall i :: 0 <= i < DQ_PER_DQS ==> NeededShift(es, i, start) >= 0
      requires GroupAt(bgn, 0)
      requires forall p :: 0 <= p < dqIn.Length ==> 0 <= dqIn[p] <= DELAY_MAX
      modifies this, dqIn
      ensures InRange() && OthersUnchanged(bgn) && CentringDone(es, bgn, start, old(dqIn[..]), ok)
    {
      var midMin, minIndex := FindMinSkew(es, left, right);
      if midMin > 0 {
        midMin := midMin + 1;
      }
      midMin := TruncHalf(midMin);
      var origMidMin := midMin;
      var newDqs := ClampDelay(start - midMin);
      midMin := start - newDqs;
      ok := ShiftDq(es, Needed(es, start), bgn, left, right, minIndex, origMidMin - midMin, midMin);
      dqsIn := newDqs;
      CentringFollows(es, bgn, start, old(dqIn[..]), ok);
    }

    /** Read deskew of one group.  The sweeps fail exactly when some bit passes
        nowhere on the axis, and then DQS is restored; otherwise the group is
        centred.  Success has an exact condition on the windows and on the delays the
        pins had before, and means that every bit reads back correctly with the
        delays now programmed. */
    method VfifoCenter(ws: seq<Window>, bgn: nat) returns (ok: bool)
      requires |ws| == DQ_PER_DQS && bgn + DQ_PER_DQS <= dqIn.Length && InRange()
      modifies this, dqIn
      ensures InRange() && OthersUnchanged(bgn)
      ensures var reach := DELAY_MAX - old(dqsIn);
              if EveryBitFound(ws, reach) then
                CentringDone(FoundEdges(ws, reach), bgn, old(dqsIn), old(dqIn[..]), ok)
              else !ok && dqsIn == old(dqsIn) && GroupAt(bgn, 0)
      ensures var reach := DELAY_MAX - old(dqsIn);
              ok <==> EveryBitFound(ws, reach) && WithinChain(FoundEdges(ws, reach), old(dqsIn), old(dqIn[..]), bgn)
      ensures ok <==> ReadTest(ws, bgn, old(dqsIn)) == ALL_BITS
      ensures bgn == 0 ==> (ok <==> PassesSomewhere(ws, old(dqsIn)) && CloseTogether(ws, old(dqsIn)))
      ensures PassesSomewhere(ws, old(dqsIn)) ==> Settled(ws, bgn, old(dqsIn))
    {
      var start := dqsIn;
      ghost var pins := dqIn[..];
      ghost var reach := DELAY_MAX - start;
      ghost var es := FoundEdges(ws, reach);
      var left := new int[DQ_PER_DQS];
      var right := new int[DQ_PER_DQS];
      FindEdges(ws, bgn, left, right);
      FoundIffNoIllegalEdge(ws, reach);
      var found := NoIllegalEdge(es, left, right);
      FoundMeansPassesSomewhere(ws, start);
      if !found {
        dqsIn := start;
        SomeBitFails(ws, bgn, start);
        return false;
      }
      forall i | 0 <= i < DQ_PER_DQS ensures NeededShift(es, i, start) >= 0 {
        NeededShiftNonNegative(ws, start, i);
      }
      ghost var zeroed := dqIn[..];
      ok := Centre(es, bgn, start, left, right);
      SameDelays(es, bgn, start, zeroed, pins, ok);
      CentringMeans(ws, bgn, start, pins, ok);
    }

    /** Where the registers end up, in terms of the windows alone. */
    ghost predicate Settled(ws: seq<Window>, bgn: nat, start: int)
      requires |ws| == DQ_PER_DQS && bgn + DQ_PER_DQS <= dqIn.Length
      reads this, dqIn
    {
      && DqsSettled(ws, start, dqsIn)
      && (dqsIn == 0 || exists p :: bgn <= p < bgn + DQ_PER_DQS && dqIn[p] == 0)
      && (forall i :: 0 <= i < DQ_PER_DQS ==>
            CentredOrLimited(ws[i], start, dqsIn, dqIn[bgn + i], if bgn == 0 then 0 else dqIn[i]))
      && exists t :: FurthestRight(ws, start, t) && PlacedFrom(ws, bgn, start, t)
    }

    /** Every bit has exactly the delay that the middle furthest right makes necessary. */
    ghost predicate PlacedFrom(ws: seq<Window>, bgn: nat, start: int, t: int)
      requires |ws| == DQ_PER_DQS && bgn + DQ_PER_DQS <= dqIn.Length
      reads this, dqIn
    {
      forall i :: 0 <= i < DQ_PER_DQS ==>
        DelayIs(ws[i], start, dqsIn, t, dqIn[bgn + i], if bgn == 0 then 0 else dqIn[i])
    }

    /** That the sweeps have set the group's delays to zero makes no difference. */
    lemma SameDelays(es: seq<Edges>, bgn: nat, start: int, zeroed: seq<int>, pins: seq<int>, ok: bool)
      requires |es| == DQ_PER_DQS && bgn + DQ_PER_DQS <= dqIn.Length == |zeroed| == |pins|
      requires forall p :: 0 <= p < bgn ==> zeroed[p] == pins[p]
      requires CentringDone(es, bgn, start, zeroed, ok)
      ensures CentringDone(es, bgn, start, pins, ok)
    {
      forall i | 0 <= i < DQ_PER_DQS
        ensures Programmed(Needed(es, start), zeroed, bgn, i) == Programmed(Needed(es, start), pins, bgn, i)
      {
        ProgrammedReadsOthers(Needed(es, start), zeroed, pins, bgn, i);
      }
    }

    /** The delay of one bit, in terms of the delays of the pins as they now are. */
    lemma DelayOfBit(ws: seq<Window>, bgn: nat, start: int, pins: seq<int>, ok: bool, i: nat)
      requires |ws| == DQ_PER_DQS && bgn + DQ_PER_DQS <= dqIn.Length == |pins| && i < DQ_PER_DQS && 0 <= start <= DELAY_MAX
      requires forall p :: 0 <= p < bgn ==> dqIn[p] == pins[p]
      requires CentringDone(FoundEdges(ws, DELAY_MAX - start), bgn, start, pins, ok)
      ensures var need := NeededShift(FoundEdges(ws, DELAY_MAX - start), i, start);
              dqIn[bgn + i] == if need <= DELAY_MAX then need
                               else if bgn == 0 then DELAY_MAX else DELAY_MAX - dqIn[i]
    {
      var need := Needed(FoundEdges(ws, DELAY_MAX - start), start);
      assert dqIn[bgn + i] == Programmed(need, pins, bgn, i);
      if 0 < bgn <= i {
        var k := i - bgn;
        assert dqIn[i] == dqIn[bgn + k] == Programmed(need, pins, bgn, k);
      }
    }

    lemma BitsArePlaced(ws: seq<Window>, bgn: nat, start: int, pins: seq<int>, ok: bool)
      requires |ws| == DQ_PER_DQS && bgn + DQ_PER_DQS <= dqIn.Length == |pins| && 0 <= start <= DELAY_MAX
      requires EveryBitFound(ws, DELAY_MAX - start) && InRange()
      requires forall p :: 0 <= p < bgn ==> dqIn[p] == pins[p]
      requires CentringDone(FoundEdges(ws, DELAY_MAX - start), bgn, start, pins, ok)
      ensures PlacedFrom(ws, bgn, start, -MinSkew(FoundEdges(ws, DELAY_MAX - start), DQ_PER_DQS))
      ensures forall i :: 0 <= i < DQ_PER_DQS ==>
                CentredOrLimited(ws[i], start, dqsIn, dqIn[bgn + i], if bgn == 0 then 0 else dqIn[i])
    {
      forall i | 0 <= i < DQ_PER_DQS
        ensures CentredOrLimited(ws[i], start, dqsIn, dqIn[bgn + i], if bgn == 0 then 0 else dqIn[i])
        ensures DelayIs(ws[i], start, dqsIn, -MinSkew(FoundEdges(ws, DELAY_MAX - start), DQ_PER_DQS),
                        dqIn[bgn + i], if bgn == 0 then 0 else dqIn[i])
      {
        DelayOfBit(ws, bgn, start, pins, ok, i);
        BitIsPlaced(ws, start, dqIn[bgn + i], if bgn == 0 then 0 else dqIn[i], i);
      }
    }

    lemma CentringSettles(ws: seq<Window>, bgn: nat, start: int, pins: seq<int>, ok: bool)
      requires |ws| == DQ_PER_DQS && bgn + DQ_PER_DQS <= dqIn.Length == |pins| && 0 <= start <= DELAY_MAX
      requires EveryBitFound(ws, DELAY_MAX - start) && InRange()
      requires forall p :: 0 <= p < bgn ==> dqIn[p] == pins[p]
      requires CentringDone(FoundEdges(ws, DELAY_MAX - start), bgn, start, pins, ok)
      ensures Settled(ws, bgn, start)
    {
      DqsIsSettled(ws, start);
      SomeBitAtZero(ws, bgn, start, pins, ok);
      MinSkewIsFurthestRight(ws, start);
      BitsArePlaced(ws, bgn, start, pins, ok);
    }

    lemma SomeBitAtZero(ws: seq<Window>, bgn: nat, start: int, pins: seq<int>, ok: bool)
      requires |ws| == DQ_PER_DQS && bgn + DQ_PER_DQS <= dqIn.Length == |pins| && 0 <= start <= DELAY_MAX
      requires EveryBitFound(ws, DELAY_MAX - start)
      requires CentringDone(FoundEdges(ws, DELAY_MAX - start), bgn, start, pins, ok)
      ensures dqsIn == 0 || exists p :: bgn <= p < bgn + DQ_PER_DQS && dqIn[p] == 0
    {
      var need := Needed(FoundEdges(ws, DELAY_MAX - start), start);
      SomeDelayIsZero(ws, start, pins, bgn);
      if dqsIn != 0 {
        var i :| 0 <= i < DQ_PER_DQS && Programmed(need, pins, bgn, i) == 0;
        assert dqIn[bgn + i] == 0;
      }
    }

    lemma BitReadsIffInside(ws: seq<Window>, bgn: nat, start: int, pins: seq<int>, ok: bool, i: nat)
      requires |ws| == DQ_PER_DQS && bgn + DQ_PER_DQS <= dqIn.Length == |pins| && i < DQ_PER_DQS && 0 <= start <= DELAY_MAX
      requires EveryBitFound(ws, DELAY_MAX - start) && InRange()
      requires forall p :: 0 <= p < bgn ==> dqIn[p] == pins[p]
      requires CentringDone(FoundEdges(ws, DELAY_MAX - start), bgn, start, pins, ok)
      ensures ws[i].Passes(Position(start, bgn + i)) <==>
              Inside(FoundEdges(ws, DELAY_MAX - start)[i], Position(start, bgn + i))
    {
      DelayOfBit(ws, bgn, start, pins, ok, i);
      PassesIffInside(ws, start, i, Position(start, bgn + i));
    }

    lemma VerdictIsBits(ws: seq<Window>, bgn: nat, start: int, pins: seq<int>, ok: bool)
      requires |ws| == DQ_PER_DQS && bgn + DQ_PER_DQS <= dqIn.Length == |pins| && 0 <= start <= DELAY_MAX
      requires EveryBitFound(ws, DELAY_MAX - start) && InRange()
      requires forall p :: 0 <= p < bgn ==> dqIn[p] == pins[p]
      requires CentringDone(FoundEdges(ws, DELAY_MAX - start), bgn, start, pins, ok)
      ensures ok <==> forall i :: 0 <= i < DQ_PER_DQS ==> ws[i].Passes(Position(start, bgn + i))
    {
      forall i | 0 <= i < DQ_PER_DQS
        ensures ws[i].Passes(Position(start, bgn + i)) <==>
                Inside(FoundEdges(ws, DELAY_MAX - start)[i], Position(start, bgn + i))
      {
        BitReadsIffInside(ws, bgn, start, pins, ok, i);
      }
    }

    lemma ReadTestIsBits(ws: seq<Window>, bgn: nat, start: int)
      requires |ws| == DQ_PER_DQS && bgn + DQ_PER_DQS <= dqIn.Length
      ensures ReadTest(ws, bgn, start) == ALL_BITS <==>
              forall i :: 0 <= i < DQ_PER_DQS ==> ws[i].Passes(Position(start, bgn + i))
    {
      AllBitsRead(ReadTest(ws, bgn, start));
    }

    /** All that centring means, in terms of the windows alone: where the registers are,
        and that the verdict says whether every bit reads back correctly. */
    lemma CentringMeans(ws: seq<Window>, bgn: nat, start: int, pins: seq<int>, ok: bool)
      requires |ws| == DQ_PER_DQS && bgn + DQ_PER_DQS <= dqIn.Length == |pins| && 0 <= start <= DELAY_MAX
      requires EveryBitFound(ws, DELAY_MAX - start) && InRange()
      requires forall p :: 0 <= p < |pins| ==> 0 <= pins[p] <= DELAY_MAX
      requires forall p :: 0 <= p < bgn ==> dqIn[p] == pins[p]
      requires CentringDone(FoundEdges(ws, DELAY_MAX - start), bgn, start, pins, ok)
      ensures ok <==> WithinChain(FoundEdges(ws, DELAY_MAX - start), start, pins, bgn)
      ensures ok <==> ReadTest(ws, bgn, start) == ALL_BITS
      ensures bgn == 0 ==> (ok <==> CloseTogether(ws, start))
      ensures Settled(ws, bgn, start)
    {
      VerdictIsWithinChain(ws, bgn, start, pins, ok);
      WithinChainIffCloseTogether(ws, start, pins);
      CentringSettles(ws, bgn, start, pins, ok);
      VerdictIsBits(ws, bgn, start, pins, ok);
      ReadTestIsBits(ws, bgn, start);
    }

    lemma AllBitsRead(bits: set<nat>)
      requires bits <= ALL_BITS
      ensures bits == ALL_BITS <==> forall i :: 0 <= i < DQ_PER_DQS ==> i in bits
    {
      assert forall i :: 0 <= i < DQ_PER_DQS ==> i in ALL_BITS;
    }

    /** A bit that passes nowhere on the axis fails with all delays as they were. */
    lemma SomeBitFails(ws: seq<Window>, bgn: nat, start: int)
      requires |ws| == DQ_PER_DQS && bgn + DQ_PER_DQS <= dqIn.Length && 0 <= start <= DELAY_MAX
      requires !EveryBitFound(ws, DELAY_MAX - start) && dqsIn == start && GroupAt(bgn, 0)
      ensures ReadTest(ws, bgn, start) != ALL_BITS
    {
      var w :| w in ws && !FoundOn(w, DELAY_MAX - start);
      var i :| 0 <= i < DQ_PER_DQS && ws[i] == w;
      assert Position(start, bgn + i) == 0;
      assert i in ALL_BITS && i !in ReadTest(ws, bgn, start);
    }
  }

  /** Drops right edges without a left edge; returns the bits both of whose edges
      the DQ sweep saw. */
  method ResetEdges(left: array<int>, right: array<int>) returns (done: set<nat>)
    requires left.Length == right.Length == DQ_PER_DQS && left != right
    modifies right
    ensures forall i :: 0 <= i < DQ_PER_DQS ==>
              Edges(left[i], right[i]) == DropOrphanRight(old(Edges(left[i], right[i])))
    ensures done <= ALL_BITS
    ensures forall i :: 0 <= i < DQ_PER_DQS ==> (i in done <==> !HasNoEdge(Edges(left[i], right[i])))
  {
    done := {};
    for i := DQ_PER_DQS downto 0
      invariant forall k :: i <= k < DQ_PER_DQS ==>
                  Edges(left[k], right[k]) == DropOrphanRight(old(Edges(left[k], right[k])))
      invariant forall k :: 0 <= k < i ==> right[k] == old(right[k])
      invariant done <= ALL_BITS
      invariant forall k :: 0 <= k < i ==> k !in done
      invariant forall k :: i <= k < DQ_PER_DQS ==> (k in done <==> !HasNoEdge(Edges(left[k], right[k])))
    {
      if left[i] == NO_EDGE && right[i] != NO_EDGE {
        right[i] := NO_EDGE;
      }
      if left[i] != NO_EDGE && right[i] != NO_EDGE {
        done := done + {i};
      }
    }
  }
}
