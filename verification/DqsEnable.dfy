/** The last step of the DQS-enable search: turning the midpoint of the working
    window, in picoseconds, into a phase tap and a delay tap. */
module DqsEnable {

  const PHASE_MAX: int := 7
  const DELAY_MAX: int := 31
  const PHASE_TAP: int := 312
  const DELAY_TAP: int := 25
  const CYCLE: int := (PHASE_MAX + 1) * PHASE_TAP
  const WORD: int := 0x1_0000_0000

  /** The midpoint brought into the half-open cycle (0, CYCLE]. */
  function WithinCycle(mid: int): (m: int)
    requires mid > 0
    ensures 0 < m <= 2496 && (mid - m) % 2496 == 0
  {
    (mid - 1) % CYCLE + 1
  }

  /** The setting reaches m with the fewest delay taps on the last phase below m. */
  predicate Reaches(phase: int, delay: int, m: int) {
    && phase * 312 < m <= (phase + 1) * 312
    && m <= phase * 312 + delay * 25 < m + 25
  }

  lemma OneCycleLess(mid: int)
    requires mid > CYCLE
    ensures WithinCycle(mid) == WithinCycle(mid - CYCLE)
  {
    assert (mid - 1) % CYCLE == (mid - CYCLE - 1) % CYCLE;
  }

  /** Sums up the phase taps of a cycle and takes whole cycles off the midpoint. */
  method IntoCycle(workMid: nat) returns (mid: int)
    ensures mid == if workMid == 0 then 0 else WithinCycle(workMid)
  {
    mid := workMid;
    var tmpDelay := 0;
    var p := 0;
    while p <= PHASE_MAX
      invariant 0 <= p <= PHASE_MAX + 1 && tmpDelay == p * PHASE_TAP
    {
      p, tmpDelay := p + 1, tmpDelay + PHASE_TAP;
    }
    while mid > tmpDelay
      invariant 0 <= mid <= workMid && (mid == 0 <==> workMid == 0)
      invariant workMid > 0 ==> WithinCycle(mid) == WithinCycle(workMid)
    {
      OneCycleLess(mid);
      mid := mid - tmpDelay;
    }
  }

  /** The fewest delay taps that lead from base to mid, when a phase tap is enough. */
  method AddDelayTaps(base: int, mid: int) returns (d: int)
    requires mid <= base + PHASE_TAP
    ensures 0 <= d <= 13 && mid <= base + d * DELAY_TAP
    ensures if d == 0 then mid <= base else base + (d - 1) * DELAY_TAP < mid
  {
    var tmpDelay := base;
    d := 0;
    while d <= DELAY_MAX && tmpDelay < mid
      invariant 0 <= d <= 13 && tmpDelay == base + d * DELAY_TAP
      invariant d > 0 ==> base + (d - 1) * DELAY_TAP < mid
      decreases DELAY_MAX - d
    {
      d, tmpDelay := d + 1, tmpDelay + DELAY_TAP;
    }
  }

  /** The number of phase taps that first reach mid. */
  method PhaseTaps(mid: int) returns (p: int)
    requires 0 <= mid <= CYCLE
    ensures if mid == 0 then p == 0 else 1 <= p <= PHASE_MAX + 1 && (p - 1) * PHASE_TAP < mid <= p * PHASE_TAP
  {
    var tmpDelay := 0;
    p := 0;
    while p <= PHASE_MAX && tmpDelay < mid
      invariant 0 <= p <= PHASE_MAX + 1 && tmpDelay == p * PHASE_TAP
      invariant p > 0 ==> (p - 1) * PHASE_TAP < mid
    {
      p, tmpDelay := p + 1, tmpDelay + PHASE_TAP;
    }
  }

  /** The setting for a midpoint within one cycle.  Midpoint 0 makes the unsigned
      delay sum and the phase wrap around. */
  method Setting(mid: int) returns (phase: nat, delay: nat)
    requires 0 <= mid <= CYCLE
    ensures mid > 0 ==>
              1 <= phase <= PHASE_MAX && if mid <= PHASE_TAP then phase == 1 && delay == 0 else Reaches(phase, delay, mid)
    ensures delay <= 13
    ensures mid == 0 ==> phase == WORD - 1 && delay == 0
  {
    var p := PhaseTaps(mid);
    var base := (p * PHASE_TAP - PHASE_TAP) % WORD;
    assert base == if p == 0 then WORD - PHASE_TAP else (p - 1) * PHASE_TAP;
    var d := AddDelayTaps(base, mid);
    if p == 1 {
      p, d := 2, 0;
    }
    phase, delay := (p - 1) % WORD, d;
  }

  /** phase and delay are unsigned 32-bit; midpoint 0 makes the phase wrap around.
      The setting is a legal one exactly for positive midpoints; for these the
      setting reaches the midpoint within one cycle, unless that lies on phase 0,
      which the hard PHY cannot use and which is moved to the start of phase 1. */
  method CentreOfWindow(workMid: nat) returns (phase: nat, delay: nat)
    requires workMid < WORD
    ensures 1 <= phase <= 7 <==> workMid > 0
    ensures workMid > 0 ==>
              if WithinCycle(workMid) <= 312 then phase == 1 && delay == 0
              else Reaches(phase, delay, WithinCycle(workMid))
    ensures delay <= 13
    ensures workMid == 0 ==> phase == 0xFFFF_FFFF && delay == 0
  {
    var mid := IntoCycle(workMid);
    phase, delay := Setting(mid);
  }
}
