/** Where the read per-bit deskew wants DQS and the DQ bits to go, and what the delay
    chains allow. */
module ReadTargets {
  import opened Integers
  import opened DelayWindows
  import opened EdgeMarks
  import opened WindowEnds

  function ClampDelay(x: int): int {
    if x > DELAY_MAX then DELAY_MAX else if x < 0 then 0 else x
  }

  /** A DQ shift limited so that the pin's delay `now` stays in range; the upper
      limit is computed from the delay `other`, which the sequencer reads from
      the pin number without the group offset. */
  function ClampShift(shift: int, now: int, other: int): int {
    if shift + now > DELAY_MAX then DELAY_MAX - other
    else if shift + now < 0 then -now
    else shift
  }

  /** The DQS delay that brings the window lying furthest right to the middle. */
  function CentredDqs(es: seq<Edges>, start: int): int
    requires |es| == DQ_PER_DQS
  {
    ClampDelay(start - DqsMove(MinSkew(es, DQ_PER_DQS)))
  }

  /** The DQ delay that brings bit i to its target once DQS is centred. */
  function NeededShift(es: seq<Edges>, i: nat, start: int): int
    requires |es| == DQ_PER_DQS && i < DQ_PER_DQS
  {
    CentredDqs(es, start) - start - Target(es[i], MinSkew(es, DQ_PER_DQS))
  }

  function Needed(es: seq<Edges>, start: int): (need: seq<int>)
    requires |es| == DQ_PER_DQS
  {
    seq(DQ_PER_DQS, i requires 0 <= i < DQ_PER_DQS => NeededShift(es, i, start))
  }

  /** With the edges the sweeps find, no needed shift is negative: DQS never has to
      go past its largest delay, and where it would have to go below zero the DQ
      delays take over the rest. */
  lemma NeededShiftNonNegative(ws: seq<Window>, start: int, i: nat)
    requires |ws| == DQ_PER_DQS && 0 <= start <= DELAY_MAX && i < DQ_PER_DQS
    requires EveryBitFound(ws, DELAY_MAX - start)
    ensures NeededShift(FoundEdges(ws, DELAY_MAX - start), i, start) >= 0
  {
    var reach := DELAY_MAX - start;
    var es := FoundEdges(ws, reach);
    forall k | 0 <= k < DQ_PER_DQS ensures AreClippedEnds(ws[k], reach, es[k]) {
      SweepsFindTheClippedEnds(ws[k], reach);
    }
    MinSkewIsMinimum(es, DQ_PER_DQS);
    assert MinSkew(es, DQ_PER_DQS) >= -2 * reach;
  }

  /** Every target is the middle, to within one tap, of the bit's window clipped to
      the axis. */
  lemma TargetsAreCentres(ws: seq<Window>, start: int, i: nat)
    requires |ws| == DQ_PER_DQS && 0 <= start <= DELAY_MAX && i < DQ_PER_DQS
    requires EveryBitFound(ws, DELAY_MAX - start)
    ensures var es := FoundEdges(ws, DELAY_MAX - start);
            && AreClippedEnds(ws[i], DELAY_MAX - start, es[i])
            && Centred(es[i], Target(es[i], MinSkew(es, DQ_PER_DQS)))
  {
    var es := FoundEdges(ws, DELAY_MAX - start);
    SweepsFindTheClippedEnds(ws[i], DELAY_MAX - start);
    MinSkewIsMinimum(es, DQ_PER_DQS);
    TargetIsCentre(es[i], MinSkew(es, DQ_PER_DQS));
  }

  /** The DQ delay that bit i of the group starting at pin bgn ends up with.  A shift
      that does not fit is cut to the largest delay less that of pin i, which is the
      bit's own pin, still at zero, when the group starts at pin 0; otherwise it is a
      pin before the group or one of the group's pins that has been set already. */
  function Programmed(need: seq<int>, pins: seq<int>, bgn: nat, i: nat): int
    requires |need| == DQ_PER_DQS <= |pins| && i < DQ_PER_DQS
    decreases i
  {
    if need[i] <= DELAY_MAX then need[i]
    else if bgn == 0 then DELAY_MAX
    else if i < bgn then DELAY_MAX - pins[i]
    else DELAY_MAX - Programmed(need, pins, bgn, i - bgn)
  }

  lemma {:induction false} ProgrammedInRange(need: seq<int>, pins: seq<int>, bgn: nat, i: nat)
    requires |need| == DQ_PER_DQS <= |pins| && i < DQ_PER_DQS
    requires forall k :: 0 <= k < DQ_PER_DQS ==> need[k] >= 0 && 0 <= pins[k] <= DELAY_MAX
    ensures 0 <= Programmed(need, pins, bgn, i) <= DELAY_MAX
    decreases i
  {
    if need[i] > DELAY_MAX && 0 < bgn <= i {
      ProgrammedInRange(need, pins, bgn, i - bgn);
    }
  }

  /** Only the delays of pins before the group matter. */
  lemma {:induction false} ProgrammedReadsOthers(need: seq<int>, pins: seq<int>, pins': seq<int>, bgn: nat, i: nat)
    requires |need| == DQ_PER_DQS <= |pins| && DQ_PER_DQS <= |pins'| && i < DQ_PER_DQS
    requires forall k :: 0 <= k < bgn && k < DQ_PER_DQS ==> pins[k] == pins'[k]
    ensures Programmed(need, pins, bgn, i) == Programmed(need, pins', bgn, i)
    decreases i
  {
    if need[i] > DELAY_MAX && 0 < bgn <= i {
      ProgrammedReadsOthers(need, pins, pins', bgn, i - bgn);
    }
  }

  /** With the delays that the bits end up with, none is left past its right edge. */
  predicate WithinChain(es: seq<Edges>, start: int, pins: seq<int>, bgn: nat)
    requires |es| == DQ_PER_DQS <= |pins|
  {
    forall i :: 0 <= i < DQ_PER_DQS ==>
      CentredDqs(es, start) - start - Programmed(Needed(es, start), pins, bgn, i) <= es[i].right
  }

  /** At the position it ends up at, a bit is inside its window unless it is left past
      the right edge: no delay ever moves a bit left of its target. */
  lemma InsideIffWithinChain(ws: seq<Window>, start: int, pins: seq<int>, bgn: nat, i: nat)
    requires |ws| == DQ_PER_DQS <= |pins| && 0 <= start <= DELAY_MAX && i < DQ_PER_DQS
    requires EveryBitFound(ws, DELAY_MAX - start)
    requires forall k :: 0 <= k < DQ_PER_DQS ==> 0 <= pins[k] <= DELAY_MAX
    ensures var es := FoundEdges(ws, DELAY_MAX - start);
            var p := CentredDqs(es, start) - start - Programmed(Needed(es, start), pins, bgn, i);
            Inside(es[i], p) <==> p <= es[i].right
  {
    var es := FoundEdges(ws, DELAY_MAX - start);
    TargetsAreCentres(ws, start, i);
    forall k | 0 <= k < DQ_PER_DQS ensures Needed(es, start)[k] >= 0 {
      NeededShiftNonNegative(ws, start, k);
    }
    ProgrammedInRange(Needed(es, start), pins, bgn, i);
  }

  /** For a group that starts at pin 0 the condition is that the largest delay is enough
      for every bit, whatever the delays of the pins were. */
  lemma WithinChainAtPinZero(ws: seq<Window>, start: int, pins: seq<int>)
    requires |ws| == DQ_PER_DQS <= |pins| && 0 <= start <= DELAY_MAX
    requires EveryBitFound(ws, DELAY_MAX - start)
    ensures var es := FoundEdges(ws, DELAY_MAX - start);
            WithinChain(es, start, pins, 0) <==>
            forall i :: 0 <= i < DQ_PER_DQS ==> CentredDqs(es, start) - start - DELAY_MAX <= es[i].right
  {
    var es := FoundEdges(ws, DELAY_MAX - start);
    forall i | 0 <= i < DQ_PER_DQS
      ensures CentredDqs(es, start) - start - Programmed(Needed(es, start), pins, 0, i) <= es[i].right
              <==> CentredDqs(es, start) - start - DELAY_MAX <= es[i].right
    {
      TargetsAreCentres(ws, start, i);
    }
  }

  // ---------- what the pin that the clamp reads can spoil ----------

  /** One window far left of the others. */
  const SPREAD: seq<Window> := seq(DQ_PER_DQS, i => if i == 0 then Window(-DELAY_MAX, 0) else Window(DELAY_MAX, DELAY_MAX))

  lemma SpreadEdges()
    ensures var es := FoundEdges(SPREAD, DELAY_MAX);
            EveryBitFound(SPREAD, DELAY_MAX)
            && es[0] == Edges(DELAY_MAX, 0)
            && forall i :: 0 < i < DQ_PER_DQS ==> es[i] == Edges(-DELAY_MAX, DELAY_MAX)
  {
    var es := FoundEdges(SPREAD, DELAY_MAX);
    forall i | 0 <= i < DQ_PER_DQS
      ensures es[i] == if i == 0 then Edges(DELAY_MAX, 0) else Edges(-DELAY_MAX, DELAY_MAX)
    {
      AfterRightClosed(SPREAD[i], DELAY_MAX + 1);
    }
    forall w | w in SPREAD ensures FoundOn(w, DELAY_MAX) {
    }
  }

  lemma SpreadNeeds()
    ensures var es := FoundEdges(SPREAD, DELAY_MAX);
            CentredDqs(es, 0) == DELAY_MAX && Needed(es, 0)[0] > DELAY_MAX
            && forall i :: 0 < i < DQ_PER_DQS ==> Needed(es, 0)[i] == 0
  {
    var es := FoundEdges(SPREAD, DELAY_MAX);
    SpreadEdges();
    MinSkewIsMinimum(es, DQ_PER_DQS);
    assert MinSkew(es, DQ_PER_DQS) <= Skew(es[1]) == -2 * DELAY_MAX;
    assert MinSkew(es, DQ_PER_DQS) == -2 * DELAY_MAX;
    assert DqsMove(-2 * DELAY_MAX) == -DELAY_MAX;
    forall i | 0 <= i < DQ_PER_DQS
      ensures if i == 0 then Needed(es, 0)[i] > DELAY_MAX else Needed(es, 0)[i] == 0
    {
      assert Needed(es, 0)[i] == NeededShift(es, i, 0);
    }
  }

  /** These windows can be deskewed at pin 0, and also behind a group all of whose
      delays are zero, but not behind a group whose first pin has any other delay. */
  lemma OtherPinDefeatsDeskew(pins: seq<int>)
    requires |pins| >= 2 * DQ_PER_DQS && 0 <= pins[0] <= DELAY_MAX
    ensures EveryBitFound(SPREAD, DELAY_MAX)
    ensures WithinChain(FoundEdges(SPREAD, DELAY_MAX), 0, pins, 0)
    ensures WithinChain(FoundEdges(SPREAD, DELAY_MAX), 0, pins, DQ_PER_DQS) <==> pins[0] == 0
  {
    var es := FoundEdges(SPREAD, DELAY_MAX);
    SpreadEdges();
    SpreadNeeds();
    var need := Needed(es, 0);
    assert Programmed(need, pins, 0, 0) == DELAY_MAX;
    assert Programmed(need, pins, DQ_PER_DQS, 0) == DELAY_MAX - pins[0];
    forall i, bgn: nat | 0 < i < DQ_PER_DQS ensures Programmed(need, pins, bgn, i) == 0 {
    }
  }

  // ---------- the same in terms of the windows alone ----------

  /** DQS ends in the middle, rounded down, of the window whose middle lies furthest
      right, or at delay 0 if that would be a negative delay. */
  ghost predicate DqsSettled(ws: seq<Window>, start: int, dqs: int) {
    && 0 <= dqs <= 31
    && (forall j :: 0 <= j < |ws| ==> start + TwiceMiddle(ws[j], start) / 2 <= dqs)
    && (dqs == 0 || exists j :: 0 <= j < |ws| && dqs == start + TwiceMiddle(ws[j], start) / 2)
  }

  lemma DqsIsSettled(ws: seq<Window>, start: int)
    requires |ws| == DQ_PER_DQS && 0 <= start <= DELAY_MAX && EveryBitFound(ws, DELAY_MAX - start)
    ensures DqsSettled(ws, start, CentredDqs(FoundEdges(ws, DELAY_MAX - start), start))
  {
    var es := FoundEdges(ws, DELAY_MAX - start);
    MinSkewIsMinimum(es, DQ_PER_DQS);
    forall j | 0 <= j < DQ_PER_DQS
      ensures Skew(es[j]) == -TwiceMiddle(ws[j], start) && LeftEnd(ws[j]) <= RightEnd(ws[j], start)
    {
      EdgesAreEnds(ws, start, j);
      FoundMeansPassesSomewhere(ws, start);
    }
    var k :| 0 <= k < DQ_PER_DQS && MinSkew(es, DQ_PER_DQS) == Skew(es[k]);
    assert DqsMove(Skew(es[k])) == -(TwiceMiddle(ws[k], start) / 2);
    assert start + TwiceMiddle(ws[k], start) / 2 <= 31;
  }

  /** At pin 0 the group can be deskewed exactly if no window's middle lies more than 31
      taps right of the right end of another. */
  predicate CloseTogether(ws: seq<Window>, start: int) {
    forall i, j :: 0 <= i < |ws| && 0 <= j < |ws| ==>
      TwiceMiddle(ws[j], start) <= 2 * RightEnd(ws[i], start) + 63
  }

  lemma WithinChainIffCloseTogether(ws: seq<Window>, start: int, pins: seq<int>)
    requires |ws| == DQ_PER_DQS <= |pins| && 0 <= start <= DELAY_MAX
    requires EveryBitFound(ws, DELAY_MAX - start)
    ensures WithinChain(FoundEdges(ws, DELAY_MAX - start), start, pins, 0) <==> CloseTogether(ws, start)
  {
    var es := FoundEdges(ws, DELAY_MAX - start);
    var dqs := CentredDqs(es, start);
    WithinChainAtPinZero(ws, start, pins);
    DqsIsSettled(ws, start);
    FoundMeansPassesSomewhere(ws, start);
    forall i | 0 <= i < DQ_PER_DQS
      ensures dqs - start - 31 <= es[i].right <==>
              forall j :: 0 <= j < DQ_PER_DQS ==> TwiceMiddle(ws[j], start) <= 2 * RightEnd(ws[i], start) + 63
    {
      EdgesAreEnds(ws, start, i);
      assert LeftEnd(ws[i]) <= RightEnd(ws[i], start);
    }
  }

  /** DQS ends at delay zero, or some bit does. */
  lemma SomeDelayIsZero(ws: seq<Window>, start: int, pins: seq<int>, bgn: nat)
    requires |ws| == DQ_PER_DQS <= |pins| && 0 <= start <= DELAY_MAX && EveryBitFound(ws, DELAY_MAX - start)
    ensures var es := FoundEdges(ws, DELAY_MAX - start);
            CentredDqs(es, start) == 0
            || exists i :: 0 <= i < DQ_PER_DQS && Programmed(Needed(es, start), pins, bgn, i) == 0
  {
    var es := FoundEdges(ws, DELAY_MAX - start);
    MinSkewIsMinimum(es, DQ_PER_DQS);
    var k :| 0 <= k < DQ_PER_DQS && MinSkew(es, DQ_PER_DQS) == Skew(es[k]);
    NeededShiftNonNegative(ws, start, k);
    if CentredDqs(es, start) != 0 {
      assert Needed(es, start)[k] == NeededShift(es, k, start) == 0;
      assert Programmed(Needed(es, start), pins, bgn, k) == 0;
    }
  }

  /** A bit at or right of its target passes exactly if it is inside its window. */
  lemma PassesIffInside(ws: seq<Window>, start: int, i: nat, p: int)
    requires |ws| == DQ_PER_DQS && 0 <= start <= DELAY_MAX && i < DQ_PER_DQS && EveryBitFound(ws, DELAY_MAX - start)
    requires var es := FoundEdges(ws, DELAY_MAX - start);
             Target(es[i], MinSkew(es, DQ_PER_DQS)) <= p <= DELAY_MAX - start
    ensures ws[i].Passes(p) <==> Inside(FoundEdges(ws, DELAY_MAX - start)[i], p)
  {
    TargetsAreCentres(ws, start, i);
  }

  /** With this delay the bit is in the middle of its window to within a tap, or it has
      the largest delay that the clamp allows and is still right of the middle. */
  predicate CentredOrLimited(w: Window, start: int, dqs: int, delay: int, other: int) {
    var p := dqs - start - delay;
    -1 <= 2 * p - TwiceMiddle(w, start) <= 1 || (delay == 31 - other && 2 * p > TwiceMiddle(w, start))
  }

  /** The delay in numbers: t is twice the middle furthest right. */
  predicate DelayIs(w: Window, start: int, dqs: int, t: int, delay: int, other: int) {
    var need := dqs - start - t / 2 + (t - TwiceMiddle(w, start)) / 2;
    delay == if need <= 31 then need else 31 - other
  }

  lemma BitIsPlaced(ws: seq<Window>, start: int, delay: int, other: int, i: nat)
    requires |ws| == DQ_PER_DQS && 0 <= start <= DELAY_MAX && i < DQ_PER_DQS && EveryBitFound(ws, DELAY_MAX - start)
    requires var need := NeededShift(FoundEdges(ws, DELAY_MAX - start), i, start);
             other >= 0 && delay == if need <= DELAY_MAX then need else DELAY_MAX - other
    ensures var es := FoundEdges(ws, DELAY_MAX - start);
            && CentredOrLimited(ws[i], start, CentredDqs(es, start), delay, other)
            && DelayIs(ws[i], start, CentredDqs(es, start), -MinSkew(es, DQ_PER_DQS), delay, other)
  {
    TargetsAreCentres(ws, start, i);
    EdgesAreEnds(ws, start, i);
    TargetInNumbers(ws, start, i);
  }
}
