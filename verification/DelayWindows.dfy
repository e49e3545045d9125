/** Delay-chain positions, per-bit passing windows, and the edge bookkeeping that
    the read and write deskew of the DDR3 calibration sequencer share.

    A position is "DQS delay offset minus DQ delay": delaying DQ by d taps tests
    position -d, delaying DQS by d taps tests position d.  The swept axis runs
    from -DELAY_MAX to the number of taps DQS has left. */
module DelayWindows {
  import opened Integers

  const DELAY_MAX: int := 31
  const NO_EDGE: int := DELAY_MAX + 1
  const DQ_PER_DQS: nat := 8

  /** The positions at which one bit of the memory test passes; empty if lo > hi. */
  datatype Window = Window(lo: int, hi: int) {
    predicate Passes(p: int) { lo <= p <= hi }
  }

  datatype Edges = Edges(left: int, right: int)

  const NO_EDGES := Edges(NO_EDGE, NO_EDGE)

  /** C's x / 2, which truncates toward zero. */
  function TruncHalf(x: int): int { if x >= 0 then x / 2 else -((-x) / 2) }

  /** The bit mask with every bit of the group set; masks are sets of bit numbers. */
  const ALL_BITS: set<nat> := {0, 1, 2, 3, 4, 5, 6, 7}

  /** Some position of the axis [-DELAY_MAX, reach] passes. */
  predicate FoundOn(w: Window, reach: int) {
    Max(w.lo, -DELAY_MAX) <= Min(w.hi, reach)
  }

  lemma FoundIffSomePositionPasses(w: Window, reach: int)
    ensures FoundOn(w, reach) <==> exists p :: -DELAY_MAX <= p <= reach && w.Passes(p)
  {
    if FoundOn(w, reach) {
      assert w.Passes(Max(w.lo, -DELAY_MAX));
    }
  }

  /** The two ends of the window clipped to the axis, in the sequencer's sign
      convention: the left edge is the negated leftmost passing position. */
  predicate AreClippedEnds(w: Window, reach: int, e: Edges) {
    && -DELAY_MAX <= -e.left <= e.right <= reach
    && w.Passes(-e.left) && w.Passes(e.right)
    && forall p :: -DELAY_MAX <= p <= reach && w.Passes(p) ==> -e.left <= p <= e.right
  }

  predicate HasNoEdge(e: Edges) { e.left == NO_EDGE || e.right == NO_EDGE }

  // ---------- one bit, one sweep step ----------

  /** A step of the DQ-delay sweep at delay d. */
  function MarkLeft(d: nat, pass: bool, e: Edges): Edges {
    if pass then e.(left := d)
    else if e.left == NO_EDGE then e.(right := -(d + 1))
    else e
  }

  /** Between the sweeps a right edge without a left edge is invalid and is reset. */
  function DropOrphanRight(e: Edges): Edges {
    if e.left == NO_EDGE && e.right != NO_EDGE then e.(right := NO_EDGE) else e
  }

  /** A step of the DQS-delay sweep at delay d.  A bit that passed at delay 0
      before and fails there now is marginal and gets right edge -1. */
  function MarkRight(d: nat, pass: bool, e: Edges): Edges {
    if pass then e.(right := d)
    else if d != 0 then
      if e.right == NO_EDGE then e.(left := -(d + 1)) else e
    else if e.right == NO_EDGE && e.left != NO_EDGE then e.(right := -1)
    else if e.right == NO_EDGE then e.(left := -(d + 1))
    else e
  }

  /** A bit whose right edge is missing at DQS delay 0, although its left edge was found,
      is taken to end one tap left of zero. */
  lemma MarginalBitEndsLeftOfZero(left: int)
    requires left != NO_EDGE
    ensures MarkRight(0, false, Edges(left, NO_EDGE)) == Edges(left, -1)
  {
  }

  /** The edges of one bit after the DQ delays 0, ..., d-1 were tried. */
  function AfterLeft(w: Window, d: nat): Edges {
    if d == 0 then NO_EDGES else MarkLeft(d - 1, w.Passes(-(d - 1)), AfterLeft(w, d - 1))
  }

  /** The edges with which the DQS sweep starts. */
  function BetweenSweeps(w: Window): Edges {
    DropOrphanRight(AfterLeft(w, DELAY_MAX + 1))
  }

  /** The edges of one bit after, in addition, the DQS delays 0, ..., d-1 were tried. */
  function AfterRight(w: Window, d: nat): Edges {
    if d == 0 then BetweenSweeps(w) else MarkRight(d - 1, w.Passes(d - 1), AfterRight(w, d - 1))
  }

  // ---------- what the steps add up to ----------

  /** The bit passed at one of the DQ delays 0, ..., d-1. */
  predicate SeenLeft(w: Window, d: nat) { Max(w.lo, 1 - d) <= Min(w.hi, 0) }

  /** The bit passed at one of the DQS delays 0, ..., d-1. */
  predicate SeenRight(w: Window, d: nat) { Max(w.lo, 0) <= Min(w.hi, d - 1) }

  lemma {:induction false} AfterLeftClosed(w: Window, d: nat)
    requires d <= DELAY_MAX + 1
    ensures AfterLeft(w, d) ==
            if SeenLeft(w, d) then Edges(Min(d - 1, -w.lo), if w.hi < 0 then w.hi else NO_EDGE)
            else Edges(NO_EDGE, if d == 0 then NO_EDGE else 0 - d)
  {
    if d > 0 { AfterLeftClosed(w, d - 1); }
  }

  lemma {:induction false} AfterRightClosed(w: Window, d: nat)
    requires d <= DELAY_MAX + 1
    ensures AfterRight(w, d) ==
            if SeenLeft(w, DELAY_MAX + 1) then
              Edges(Min(DELAY_MAX, -w.lo),
                    if w.hi < 0 then w.hi else if d == 0 then NO_EDGE else Min(d - 1, w.hi))
            else if SeenRight(w, d) then Edges(-w.lo, Min(d - 1, w.hi))
            else Edges(if d == 0 then NO_EDGE else 0 - d, NO_EDGE)
  {
    if d == 0 {
      AfterLeftClosed(w, DELAY_MAX + 1);
    } else {
      AfterRightClosed(w, d - 1);
    }
  }

  /** Once a bit has passed and then fails, no larger DQ delay changes its edges. */
  lemma {:induction false} LeftSettled(w: Window, d: nat, e: nat)
    requires d <= e <= DELAY_MAX + 1
    requires SeenLeft(w, d) && !w.Passes(0 - d)
    ensures AfterLeft(w, e) == AfterLeft(w, d)
  {
    AfterLeftClosed(w, d);
    AfterLeftClosed(w, e);
  }

  /** Once a bit has passed in either sweep and fails at DQS delay d, no larger
      DQS delay changes its edges. */
  lemma {:induction false} RightSettled(w: Window, d: nat, e: nat)
    requires d <= e <= DELAY_MAX + 1
    requires SeenLeft(w, DELAY_MAX + 1) || SeenRight(w, d)
    requires !w.Passes(d)
    ensures AfterRight(w, e) == AfterRight(w, d)
  {
    AfterRightClosed(w, d);
    AfterRightClosed(w, e);
  }

  /** The main result about one bit: the two sweeps find exactly the ends of its
      window clipped to the axis, and leave an illegal edge exactly when no
      position of the axis passes. */
  lemma {:induction false} SweepsFindTheClippedEnds(w: Window, reach: int)
    requires 0 <= reach <= DELAY_MAX
    ensures FoundOn(w, reach) ==>
              AreClippedEnds(w, reach, AfterRight(w, reach + 1)) && !HasNoEdge(AfterRight(w, reach + 1))
    ensures !FoundOn(w, reach) ==> HasNoEdge(AfterRight(w, reach + 1))
  {
    AfterRightClosed(w, reach + 1);
  }

  // ---------- centring ----------

  /** Twice the amount by which a window's centre lies left of position 0. */
  function Skew(e: Edges): int { e.left - e.right }

  /** The smallest skew of the first n bits: that of the bit whose window lies
      furthest right. */
  function MinSkew(es: seq<Edges>, n: nat): int
    requires 0 < n <= |es|
  {
    if n == 1 then Skew(es[0]) else Min(MinSkew(es, n - 1), Skew(es[n - 1]))
  }

  lemma {:induction false} MinSkewIsMinimum(es: seq<Edges>, n: nat)
    requires 0 < n <= |es|
    ensures forall i :: 0 <= i < n ==> MinSkew(es, n) <= Skew(es[i])
    ensures exists i :: 0 <= i < n && MinSkew(es, n) == Skew(es[i])
  {
    if n == 1 {
      assert MinSkew(es, n) == Skew(es[0]);
    } else {
      MinSkewIsMinimum(es, n - 1);
      if MinSkew(es, n) != Skew(es[n - 1]) {
        var i :| 0 <= i < n - 1 && MinSkew(es, n - 1) == Skew(es[i]);
        assert MinSkew(es, n) == Skew(es[i]);
      }
    }
  }

  /** The amount by which DQS has to move left: half the smallest skew, where a
      positive skew is made one larger first. */
  function DqsMove(minSkew: int): int {
    TruncHalf(if minSkew > 0 then minSkew + 1 else minSkew)
  }

  /** The position to which the calibration wants to bring a bit. */
  function Target(e: Edges, minSkew: int): int {
    -DqsMove(minSkew) - TruncHalf(Skew(e) - minSkew)
  }

  /** How far position p is from the left and from the right end of the window. */
  function LeftMargin(e: Edges, p: int): int { p + e.left }

  function RightMargin(e: Edges, p: int): int { e.right - p }

  predicate Inside(e: Edges, p: int) { LeftMargin(e, p) >= 0 && RightMargin(e, p) >= 0 }

  /** Centred to within one tap and inside the window. */
  predicate Centred(e: Edges, p: int) {
    Inside(e, p) && -1 <= LeftMargin(e, p) - RightMargin(e, p) <= 1
  }

  /** For any signs of the edges, C's truncating divisions put the target of every
      non-empty window in its middle. */
  lemma TargetIsCentre(e: Edges, minSkew: int)
    requires minSkew <= Skew(e)
    requires -e.left <= e.right
    ensures Centred(e, Target(e, minSkew))
  {
    var s := TruncHalf(Skew(e) - minSkew);
    assert 2 * s <= Skew(e) - minSkew <= 2 * s + 1;
    var m := DqsMove(minSkew);
    assert minSkew <= 2 * m <= minSkew + 1;
  }
}
