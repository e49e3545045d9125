/** How many consecutive sightings of a fault CHECK_FPGA tolerates before it gives
    up, and when it never gives up at all. */
module ControllerRecovery {
  import opened Integers
  import opened ImageLedger
  import opened PlateHistory
  import opened ControllerModel

  /** States that CHECK_FPGA does not accept for ever. */
  predicate Fault(f: Fsm) { f != IDLE && f != WAIT_ACK && f != WAIT_TX }

  /** The sightings of f that lead from a fresh watch to ERROR. */
  function Bound(f: Fsm, maxPersist: int): int
    requires Fault(f)
  {
    if f == ERROR_OCR then 2
    else if RepeatError(f) then 3
    else if f == OFFLINE then maxPersist + 1
    else Max(maxPersist, 0) + 2
  }

  /** The watch has counted past the value it is compared with, so that
      further sightings of f never lead to ERROR. */
  predicate Stuck(w: Watch, f: Fsm, maxPersist: int) {
    if RepeatError(f) then w.prev == f && w.count >= 2
    else if f == OFFLINE then maxPersist < 0 || (w.prev == f && w.count >= maxPersist)
    else false
  }

  /** The sightings of f still needed, if no other state is seen in between. */
  function Left(w: Watch, f: Fsm, maxPersist: int): int
    requires Fault(f)
  {
    if w.prev != f then Bound(f, maxPersist)
    else if f == ERROR_OCR then 1
    else if RepeatError(f) then 2 - w.count
    else if f == OFFLINE then maxPersist - w.count
    else Max(1, maxPersist - w.count) + if w.tryReset then 0 else 1
  }

  /** The environment shows f at every observation, and asks for neither a restart
      nor a stop. */
  predicate Steady(es: seq<Env>, f: Fsm) {
    forall e :: e in es ==> e.status == f && !e.restart && !e.stop
  }

  /** The number of times the run from c looks at the FPGA's state. */
  function Sightings(c: Ctl, es: seq<Env>): nat {
    if es == [] then 0
    else
      var most := es[..|es| - 1];
      Sightings(c, most) + if Run(c, most).running && Run(c, most).state == CheckFpga then 1 else 0
  }

  predicate Over(c: Ctl) { !c.running || c.state == Error }

  lemma WatchOnlyChangesInCheck(c: Ctl, e: Env)
    requires c.state != CheckFpga
    ensures var d := Dispatch(c, e);
            && d.watch == c.watch
            && (d.maxPersist == c.maxPersist || (c.state == Init && e.init.InitDone? && d.maxPersist == e.init.maxPersist))
  {
    match c.state {
      case Init =>
      case SendImage =>
      case ResetFpga =>
      case SplitBanks =>
      case _ =>
    }
  }

  lemma NothingLeadsBack(c: Ctl, e: Env)
    requires c.state != Init
    ensures Dispatch(c, e).state != Init
  {
    match c.state {
      case CheckFpga =>
      case SendImage =>
      case ResetFpga =>
      case SplitBanks =>
      case _ =>
    }
  }

  lemma OverStays(c: Ctl, e: Env)
    requires Over(c) && !e.restart && !e.stop
    ensures Over(Step(c, e)) && Step(c, e).running == false
  {
    if c.running {
      assert Serve(c, e) == c;
    }
  }

  /** An observation of f uses up at least one sighting, and leads to ERROR exactly
      if only one was left. */
  lemma CheckUsesSighting(c: Ctl, e: Env, f: Fsm)
    requires Fault(f) && e.status == f && c.watch.count >= 0
    requires !Stuck(c.watch, f, c.maxPersist)
    ensures var d := HandleCheckFpga(c, e);
            && d.maxPersist == c.maxPersist && d.running == c.running && d.state != Init
            && d.watch.count >= 0
            && Left(c.watch, f, c.maxPersist) >= 1
            && (d.state == Error <==> Left(c.watch, f, c.maxPersist) == 1)
            && (d.state != Error ==>
                  !Stuck(d.watch, f, d.maxPersist) && Left(d.watch, f, d.maxPersist) < Left(c.watch, f, c.maxPersist))
  {
  }

  /** One iteration either leaves the watch alone or uses up a sighting. */
  lemma StepUsesSighting(c: Ctl, e: Env, f: Fsm)
    requires Fault(f) && e.status == f && !e.restart && !e.stop
    requires c.running && c.state != Init && c.watch.count >= 0
    requires !Stuck(c.watch, f, c.maxPersist)
    ensures var d := Step(c, e);
            && d.maxPersist == c.maxPersist && d.state != Init
            && (Over(d) || (d.watch.count >= 0 && !Stuck(d.watch, f, d.maxPersist)))
            && (c.state != CheckFpga ==> d.watch == c.watch)
            && (c.state == CheckFpga ==>
                  && Left(c.watch, f, c.maxPersist) >= 1
                  && (d.state == Error <==> Left(c.watch, f, c.maxPersist) == 1)
                  && (d.state == Error || Left(d.watch, f, d.maxPersist) < Left(c.watch, f, c.maxPersist)))
  {
    if c.state == CheckFpga {
      CheckUsesSighting(c, e, f);
    } else {
      WatchOnlyChangesInCheck(c, e);
      NothingLeadsBack(c, e);
    }
  }

  /** The controller is over, or it is not stuck and at most n sightings of f remain. */
  predicate Within(d: Ctl, f: Fsm, maxPersist: int, n: int)
    requires Fault(f)
  {
    n >= 0
    && (Over(d) || (d.state != Init && d.watch.count >= 0 && d.maxPersist == maxPersist
                    && !Stuck(d.watch, f, maxPersist) && 1 <= Left(d.watch, f, maxPersist) <= n))
  }

  lemma LeftIsPositive(w: Watch, f: Fsm, maxPersist: int)
    requires Fault(f) && w.count >= 0 && !Stuck(w, f, maxPersist)
    ensures Left(w, f, maxPersist) >= 1
  {
  }

  lemma StepStaysWithin(d: Ctl, e: Env, f: Fsm, maxPersist: int, n: int)
    requires Fault(f) && e.status == f && !e.restart && !e.stop && Within(d, f, maxPersist, n)
    ensures Within(Step(d, e), f, maxPersist, n - if d.running && d.state == CheckFpga then 1 else 0)
  {
    if Over(d) {
      OverStays(d, e);
    } else {
      StepUsesSighting(d, e, f);
      var d' := Step(d, e);
      if !Over(d') {
        LeftIsPositive(d'.watch, f, maxPersist);
      }
    }
  }

  lemma {:induction false} RunStaysWithin(c: Ctl, es: seq<Env>, f: Fsm, n: int)
    requires Fault(f) && Steady(es, f) && Within(c, f, c.maxPersist, n)
    ensures Within(Run(c, es), f, c.maxPersist, n - Sightings(c, es))
  {
    if es != [] {
      var most, e := es[..|es| - 1], es[|es| - 1];
      assert e in es;
      RunStaysWithin(c, most, f, n);
      StepStaysWithin(Run(c, most), e, f, c.maxPersist, n - Sightings(c, most));
    }
  }

  /** A run in which every observation shows the fault f makes at most Left further
      observations, and if it makes that many it ends in ERROR or has ended. */
  lemma SightingsAreBounded(c: Ctl, es: seq<Env>, f: Fsm)
    requires Fault(f) && Steady(es, f)
    requires c.running && c.state != Init && c.state != Error && c.watch.count >= 0
    requires !Stuck(c.watch, f, c.maxPersist)
    ensures Sightings(c, es) <= Left(c.watch, f, c.maxPersist)
    ensures Sightings(c, es) == Left(c.watch, f, c.maxPersist) ==> Over(Run(c, es))
  {
    LeftIsPositive(c.watch, f, c.maxPersist);
    RunStaysWithin(c, es, f, Left(c.watch, f, c.maxPersist));
  }

  // ---------- runs without restarts never get stuck ----------

  predicate NoRestart(es: seq<Env>) {
    forall e :: e in es ==> !e.restart && !e.stop
  }

  predicate GoodLimit(es: seq<Env>) {
    forall e :: e in es && e.init.InitDone? ==> e.init.maxPersist >= 0
  }

  /** The watch of a controller that has not been restarted. */
  predicate WatchSound(c: Ctl) {
    && c.watch.count >= 0 && c.maxPersist >= 0
    && (c.state == Init ==> c.watch == START.watch)
    && (!Over(c) && c.state != Init ==> !Stuck(c.watch, c.watch.prev, c.maxPersist))
  }

  lemma CheckKeepsWatchSound(c: Ctl, e: Env)
    requires WatchSound(c) && c.state == CheckFpga && c.running
    ensures WatchSound(HandleCheckFpga(c, e))
  {
  }

  lemma StepKeepsWatchSound(c: Ctl, e: Env)
    requires WatchSound(c) && !e.restart && !e.stop
    requires e.init.InitDone? ==> e.init.maxPersist >= 0
    ensures WatchSound(Step(c, e))
  {
    if c.running && c.state == CheckFpga {
      CheckKeepsWatchSound(c, e);
    } else if c.running {
      WatchOnlyChangesInCheck(c, e);
      if c.state != Init {
        NothingLeadsBack(c, e);
      }
      if Over(c) {
        OverStays(c, e);
      }
    }
  }

  lemma {:induction false} WatchStaysSound(es: seq<Env>)
    requires NoRestart(es) && GoodLimit(es)
    ensures WatchSound(Run(START, es))
  {
    if es != [] {
      WatchStaysSound(es[..|es| - 1]);
      assert es[|es| - 1] in es;
      StepKeepsWatchSound(Run(START, es[..|es| - 1]), es[|es| - 1]);
    }
  }

  lemma LeftWithinBound(w: Watch, f: Fsm, maxPersist: int)
    requires Fault(f) && w.count >= 0 && maxPersist >= 0
    ensures Left(w, f, maxPersist) <= Bound(f, maxPersist)
  {
  }

  /** Bounded recovery: after any run without restarts, as long as the FPGA keeps
      showing the fault f, the controller looks at it at most Bound times, and
      having done so it is in ERROR or has ended. */
  lemma RecoveryIsBounded(before: seq<Env>, after: seq<Env>, f: Fsm)
    requires NoRestart(before) && GoodLimit(before) && Fault(f) && Steady(after, f)
    ensures var c := Run(START, before);
            var bound := if f == ERROR_OCR then 2
                         else if f in {ERROR_RX, ERROR_TX, ERROR_COM, ERROR_OVERFLOW} then 3
                         else if f == OFFLINE then c.maxPersist + 1
                         else c.maxPersist + 2;
            Over(c) || c.state == Init ||
            (Sightings(c, after) <= bound && (Sightings(c, after) == bound ==> Over(Run(c, after))))
  {
    var c := Run(START, before);
    if !Over(c) && c.state != Init {
      WatchStaysSound(before);
      SightingsAreBounded(c, after, f);
      LeftWithinBound(c.watch, f, c.maxPersist);
    }
  }

  // ---------- after a restart the controller can get stuck ----------

  /** Once the watch is stuck, no sighting of f ever leads to ERROR. */
  lemma StuckStaysStuck(c: Ctl, e: Env, f: Fsm)
    requires Fault(f) && e.status == f && c.watch.count >= 0 && Stuck(c.watch, f, c.maxPersist)
    ensures var d := HandleCheckFpga(c, e);
            && d.state != Error && d.running == c.running && d.watch.count >= 0
            && Stuck(d.watch, f, d.maxPersist) && d.maxPersist == c.maxPersist
  {
  }

  /** An environment in which everything works, except that the FPGA shows f. */
  function Healthy(f: Fsm): Env {
    Env(false, false, InitDone(5), Captured, true, 0, f, true, true, true, Delivered, Read([]))
  }

  /** n iterations with that environment. */
  function Repeat(f: Fsm, n: nat): seq<Env> {
    seq(n, _ => Healthy(f))
  }

  lemma RepeatMore(c: Ctl, f: Fsm, n: nat)
    ensures Run(c, Repeat(f, n + 1)) == Step(Run(c, Repeat(f, n)), Healthy(f))
    ensures Sightings(c, Repeat(f, n + 1)) ==
            Sightings(c, Repeat(f, n)) + if Run(c, Repeat(f, n)).running && Run(c, Repeat(f, n)).state == CheckFpga then 1 else 0
  {
    var es := Repeat(f, n + 1);
    assert es[..n] == Repeat(f, n);
  }

  /** A state on the way from one check of a stuck controller to the next. */
  predicate OnTheWay(c: Ctl, f: Fsm) {
    && c.running && c.watch.count >= 0 && Stuck(c.watch, f, c.maxPersist)
    && (c.state == CheckFpga || c.images.waiting == [])
    && (c.state == CheckFpga || c.state == ResetFpga || c.state == FrameCapture || c.state == Detection
        || c.state == Segmentation)
  }

  /** The iterations left to the next check. */
  function Distance(c: Ctl): nat {
    match c.state
    case CheckFpga => 0
    case Segmentation => 1
    case Detection => 2
    case FrameCapture => 3
    case _ => 4
  }

  /** An idle controller with nothing to send, in the given state. */
  predicate At(c: Ctl, s: State, w: Watch) {
    c.running && c.state == s && c.watch == w && c.images.waiting == []
  }

  /** Where an idle controller goes from states other than CHECK_FPGA. */
  function Onward(s: State): State {
    match s
    case FrameCapture => Detection
    case Detection => Segmentation
    case Segmentation => CheckFpga
    case _ => FrameCapture
  }

  lemma QuietStep(c: Ctl, f: Fsm, w: Watch)
    requires At(c, c.state, w) && c.state in {FrameCapture, Detection, Segmentation, ResetFpga}
    ensures At(Step(c, Healthy(f)), Onward(c.state), w) && Step(c, Healthy(f)).maxPersist == c.maxPersist
  {
  }

  lemma HealthyStepStaysOnTheWay(c: Ctl, f: Fsm)
    requires Fault(f) && OnTheWay(c, f)
    ensures var d := Step(c, Healthy(f));
            OnTheWay(d, f) && (c.state != CheckFpga ==> Distance(d) < Distance(c))
  {
    if c.state == CheckFpga {
      StuckStaysStuck(c, Healthy(f), f);
    } else {
      WatchOnlyChangesInCheck(c, Healthy(f));
      QuietStep(c, f, c.watch);
    }
  }

  /** One more healthy iteration. */
  lemma HealthyMore(c: Ctl, f: Fsm, k: nat)
    requires Fault(f) && OnTheWay(Run(c, Repeat(f, k)), f)
    ensures var d, d' := Run(c, Repeat(f, k)), Run(c, Repeat(f, k + 1));
            && OnTheWay(d', f)
            && Sightings(c, Repeat(f, k + 1)) == Sightings(c, Repeat(f, k)) + (if d.state == CheckFpga then 1 else 0)
            && (d.state != CheckFpga ==> Distance(d') < Distance(d))
  {
    RepeatMore(c, f, k);
    HealthyStepStaysOnTheWay(Run(c, Repeat(f, k)), f);
  }

  /** Some number of healthy iterations makes n sightings. */
  lemma {:induction false} StuckRunsOn(c: Ctl, f: Fsm, n: nat) returns (k: nat)
    requires Fault(f) && OnTheWay(c, f)
    ensures Sightings(c, Repeat(f, k)) == n && OnTheWay(Run(c, Repeat(f, k)), f)
  {
    if n == 0 {
      return 0;
    }
    k := StuckRunsOn(c, f, n - 1);
    while Run(c, Repeat(f, k)).state != CheckFpga
      invariant Sightings(c, Repeat(f, k)) == n - 1 && OnTheWay(Run(c, Repeat(f, k)), f)
      decreases Distance(Run(c, Repeat(f, k)))
    {
      HealthyMore(c, f, k);
      k := k + 1;
    }
    HealthyMore(c, f, k);
    k := k + 1;
  }

  /** n bounds the sightings of f on every run from c that shows nothing else. */
  ghost predicate BoundedBy(c: Ctl, f: Fsm, n: nat) {
    forall es | Steady(es, f) :: Sightings(c, es) <= n
  }

  /** Exactly when recovery is bounded: in the state in which the controller is
      about to look at the FPGA, it gives up on the fault f after
      boundedly many sightings if and only if its watch is not stuck. */
  lemma RecoveryBoundedIffNotStuck(c: Ctl, f: Fsm)
    requires Fault(f) && c.running && c.state == CheckFpga && c.watch.count >= 0
    ensures (exists n: nat :: BoundedBy(c, f, n)) <==> !Stuck(c.watch, f, c.maxPersist)
  {
    if Stuck(c.watch, f, c.maxPersist) {
      forall n: nat ensures !BoundedBy(c, f, n) {
        var k := StuckRunsOn(c, f, n + 1);
        assert Steady(Repeat(f, k), f) && Sightings(c, Repeat(f, k)) > n;
      }
    } else {
      var n := Max(0, Left(c.watch, f, c.maxPersist));
      forall es | Steady(es, f) ensures Sightings(c, es) <= n {
        SightingsAreBounded(c, es, f);
      }
      assert BoundedBy(c, f, n);
    }
  }

  // ---------- a run that gets stuck ----------

  lemma {:induction false} RunConcat(c: Ctl, es: seq<Env>, fs: seq<Env>)
    ensures Run(c, es + fs) == Run(Run(c, es), fs)
  {
    if fs == [] {
      assert es + fs == es;
    } else {
      var all := es + fs;
      assert all[..|all| - 1] == es + fs[..|fs| - 1] && all[|all| - 1] == fs[|fs| - 1];
      RunConcat(c, es, fs[..|fs| - 1]);
    }
  }

  /** A restart request, in an iteration in which everything else works. */
  function Restart(f: Fsm): Env { Healthy(f).(restart := true) }

  /** From the next frame to the next check. */
  lemma ToCheck(c: Ctl, f: Fsm, w: Watch)
    requires At(c, FrameCapture, w)
    ensures At(Run(c, Repeat(f, 3)), CheckFpga, w)
  {
    assert Run(c, Repeat(f, 0)) == c;
    for k := 0 to 3
      invariant At(Run(c, Repeat(f, k)), if k == 0 then FrameCapture else if k == 1 then Detection
                                         else if k == 2 then Segmentation else CheckFpga, w)
    {
      RepeatMore(c, f, k);
      QuietStep(Run(c, Repeat(f, k)), f, w);
    }
  }

  lemma ErrorStep(c: Ctl, f: Fsm, w: Watch)
    requires At(c, CheckFpga, w) && RepeatError(f) && f != ERROR_OVERFLOW && Look(w, f).count != 2
    ensures At(Step(c, Healthy(f)), ResetFpga, Look(w, f).(prev := f))
  {
  }

  /** From one sighting of an error to the next frame. */
  lemma CheckReset(c: Ctl, f: Fsm, w: Watch)
    requires At(c, CheckFpga, w) && RepeatError(f) && f != ERROR_OVERFLOW && Look(w, f).count != 2
    ensures At(Run(c, Repeat(f, 2)), FrameCapture, Look(w, f).(prev := f))
  {
    RepeatMore(c, f, 0);
    RepeatMore(c, f, 1);
    assert Run(c, Repeat(f, 0)) == c;
    ErrorStep(c, f, w);
    QuietStep(Run(c, Repeat(f, 1)), f, Look(w, f).(prev := f));
  }

  /** From one sighting of an error to the next check. */
  lemma CheckResetCheck(c: Ctl, f: Fsm, w: Watch)
    requires At(c, CheckFpga, w) && RepeatError(f) && f != ERROR_OVERFLOW && Look(w, f).count != 2
    ensures At(Run(c, Repeat(f, 5)), CheckFpga, Look(w, f).(prev := f))
  {
    CheckReset(c, f, w);
    ToCheck(Run(c, Repeat(f, 2)), f, Look(w, f).(prev := f));
    assert Repeat(f, 5) == Repeat(f, 2) + Repeat(f, 3);
    RunConcat(c, Repeat(f, 2), Repeat(f, 3));
  }

  /** Two sightings of ERROR_RX. */
  function TwoSightings(): seq<Env> {
    Repeat(ERROR_RX, 1) + Repeat(ERROR_RX, 3) + Repeat(ERROR_RX, 5) + Repeat(ERROR_RX, 5)
  }

  /** A third sighting, which leads to ERROR; before that takes effect an operator
      restarts the program, which keeps the counter. */
  function StuckRun(): seq<Env> {
    TwoSightings() + [Healthy(ERROR_RX)] + [Restart(ERROR_RX)] + Repeat(ERROR_RX, 3)
  }

  lemma AfterTwoSightings()
    ensures At(Run(START, TwoSightings()), CheckFpga, Watch(ERROR_RX, 1, false))
  {
    var r1, r3, r5 := Repeat(ERROR_RX, 1), Repeat(ERROR_RX, 3), Repeat(ERROR_RX, 5);
    RepeatMore(START, ERROR_RX, 0);
    assert Run(START, Repeat(ERROR_RX, 0)) == START;
    RunConcat(START, r1, r3);
    ToCheck(Run(START, r1), ERROR_RX, START.watch);
    RunConcat(START, r1 + r3, r5);
    CheckResetCheck(Run(START, r1 + r3), ERROR_RX, START.watch);
    RunConcat(START, r1 + r3 + r5, r5);
    CheckResetCheck(Run(START, r1 + r3 + r5), ERROR_RX, Watch(ERROR_RX, 0, false));
  }

  lemma AfterStuckRun()
    ensures At(Run(START, StuckRun()), CheckFpga, Watch(ERROR_RX, 2, false))
  {
    var two := TwoSightings();
    AfterTwoSightings();
    RunExtends(START, two, Healthy(ERROR_RX));
    assert At(Run(START, two + [Healthy(ERROR_RX)]), Error, Watch(ERROR_RX, 2, false));
    RunExtends(START, two + [Healthy(ERROR_RX)], Restart(ERROR_RX));
    var again := two + [Healthy(ERROR_RX)] + [Restart(ERROR_RX)];
    assert At(Run(START, again), FrameCapture, Watch(ERROR_RX, 2, false));
    RunConcat(START, again, Repeat(ERROR_RX, 3));
    ToCheck(Run(START, again), ERROR_RX, Watch(ERROR_RX, 2, false));
  }

  lemma {:induction false} NoStopIsAllowed(c: Ctl, es: seq<Env>)
    requires forall e :: e in es ==> !e.stop
    ensures AllowedRun(c, es)
  {
    if es != [] {
      NoStopIsAllowed(c, es[..|es| - 1]);
      assert es[|es| - 1] in es;
    }
  }

  /** The run that gets stuck is an allowed one, with one restart request. */
  lemma StuckRunIsAllowed()
    ensures AllowedRun(START, StuckRun())
    ensures |StuckRun()| == 19
            && forall k :: 0 <= k < |StuckRun()| ==> (StuckRun()[k].restart <==> k == 15)
  {
    NoStopIsAllowed(START, StuckRun());
  }

  /** Without restarts three sightings of ERROR_RX always lead to ERROR; after this
      run, which has a single restart request, no number of sightings does. */
  lemma RestartDefeatsRecovery()
    ensures AllowedRun(START, StuckRun()) && |StuckRun()| == 19
    ensures forall k :: 0 <= k < |StuckRun()| ==> (StuckRun()[k].restart <==> k == 15)
    ensures forall n: nat :: !BoundedBy(Run(START, StuckRun()), ERROR_RX, n)
  {
    StuckRunIsAllowed();
    AfterStuckRun();
    RecoveryBoundedIffNotStuck(Run(START, StuckRun()), ERROR_RX);
  }
}
