/** What CHECK_FPGA decides, told by the observations it has made: how many times in a row
    it has seen the same state. */
module ControllerHistory {
  import opened ImageLedger
  import opened ControllerModel
  import opened ControllerRuns
  import opened ControllerRecovery
  import opened ControllerLaws

  /** The last observation, IDLE if there was none. */
  function LastSeen(t: seq<Event>): Fsm {
    if t == [] then IDLE
    else if t[|t| - 1].Observed? then t[|t| - 1].fsm
    else LastSeen(t[..|t| - 1])
  }

  /** How many of the last observations in a row were f. */
  function InARow(t: seq<Event>, f: Fsm): nat {
    if t == [] then 0
    else if !t[|t| - 1].Observed? then InARow(t[..|t| - 1], f)
    else if t[|t| - 1].fsm == f then InARow(t[..|t| - 1], f) + 1
    else 0
  }

  lemma {:induction false} NotLastIsNotInARow(t: seq<Event>, f: Fsm)
    requires LastSeen(t) != f
    ensures InARow(t, f) == 0
  {
    if t != [] && !t[|t| - 1].Observed? {
      NotLastIsNotInARow(t[..|t| - 1], f);
    }
  }

  /** u continues t without an observation. */
  predicate Unobserving(t: seq<Event>, u: seq<Event>) {
    t <= u && forall k :: |t| <= k < |u| ==> !u[k].Observed?
  }

  lemma {:induction false} UnobservingKeeps(t: seq<Event>, u: seq<Event>, f: Fsm)
    requires Unobserving(t, u)
    ensures LastSeen(u) == LastSeen(t) && InARow(u, f) == InARow(t, f)
    decreases |u|
  {
    if |t| < |u| {
      UnobservingKeeps(t, u[..|u| - 1], f);
    } else {
      assert t == u;
    }
  }

  /** The watch says what the trace says: the last observation and, if it was of a fault,
      how many times in a row before the last one it was made. */
  predicate WatchTells(w: Watch, t: seq<Event>) {
    && w.prev == LastSeen(t)
    && w.count == if Fault(w.prev) then InARow(t, w.prev) - 1 else 0
  }

  lemma UnobservingKeepsTelling(w: Watch, t: seq<Event>, u: seq<Event>)
    requires WatchTells(w, t) && Unobserving(t, u)
    ensures WatchTells(w, u)
  {
    UnobservingKeeps(t, u, w.prev);
  }

  lemma SplitObservesNothing(c: Ctl, e: Env)
    ensures Unobserving(c.trace, HandleSplitBanks(c, e).trace)
  {
    SplitOutcome(c, e);
  }

  lemma OthersObserveNothing(c: Ctl, e: Env)
    requires c.state != CheckFpga
    ensures Unobserving(c.trace, Dispatch(c, e).trace)
  {
    match c.state {
      case Init => InitObservesNothing(c, e);
      case SendImage =>
      case SendAck =>
      case ReceiveResult =>
      case ResetFpga =>
      case SplitBanks => SplitObservesNothing(c, e);
      case Halt =>
      case _ =>
    }
  }

  lemma InitObservesNothing(c: Ctl, e: Env)
    ensures Unobserving(c.trace, HandleInit(c, e).trace)
  {
  }

  lemma ServeObservesNothing(c: Ctl, e: Env)
    ensures Unobserving(c.trace, Serve(c, e).trace) && Serve(c, e).watch == c.watch
  {
  }

  /** What a check leaves in the trace and in the watch. */
  lemma CheckRemembers(c: Ctl, e: Env)
    ensures var d, w := HandleCheckFpga(c, e), c.watch;
            && Unobserving(c.trace + [Observed(e.status)], d.trace)
            && d.watch.prev == e.status
            && d.watch.count == if !Fault(e.status) then 0 else if w.prev == e.status then w.count + 1 else 0
  {
  }

  lemma OneMoreObserved(t: seq<Event>, f: Fsm)
    ensures LastSeen(t + [Observed(f)]) == f && InARow(t + [Observed(f)], f) == InARow(t, f) + 1
  {
    assert (t + [Observed(f)])[..|t|] == t;
  }

  lemma CheckTells(c: Ctl, e: Env)
    requires WatchTells(c.watch, c.trace)
    ensures WatchTells(HandleCheckFpga(c, e).watch, HandleCheckFpga(c, e).trace)
  {
    CheckRemembers(c, e);
    OneMoreObserved(c.trace, e.status);
    if c.watch.prev != e.status {
      NotLastIsNotInARow(c.trace, e.status);
    }
    UnobservingKeepsTelling(HandleCheckFpga(c, e).watch, c.trace + [Observed(e.status)], HandleCheckFpga(c, e).trace);
  }

  lemma StepTells(c: Ctl, e: Env)
    requires WatchTells(c.watch, c.trace)
    ensures WatchTells(Step(c, e).watch, Step(c, e).trace)
  {
    if c.running {
      var d := Serve(c, e);
      ServeObservesNothing(c, e);
      UnobservingKeepsTelling(c.watch, c.trace, d.trace);
      if d.state == CheckFpga {
        CheckTells(d, e);
      } else {
        OthersObserveNothing(d, e);
        WatchOnlyChangesInCheck(d, e);
        UnobservingKeepsTelling(d.watch, d.trace, Dispatch(d, e).trace);
      }
    }
  }

  /** Over every run, with restarts too, the counters say what the trace says. */
  lemma {:induction false} EveryRunTells(es: seq<Env>)
    ensures WatchTells(Run(START, es).watch, Run(START, es).trace)
  {
    if es != [] {
      EveryRunTells(es[..|es| - 1]);
      StepTells(Run(START, es[..|es| - 1]), es[|es| - 1]);
    }
  }

  // ---------- the decision ----------

  /** Where the k-th observation in a row of an error leads, and whether it clears the bank. */
  function AfterError(f: Fsm, k: int): (State, bool) {
    if f == ERROR_OCR then (if k == 1 then ResetFpga else Error, false)
    else if k == 1 then (if f == ERROR_OVERFLOW then SplitBanks else ResetFpga, false)
    else if k == 3 then (Error, false)
    else (ResetFpga, true)
  }

  predicate IsError(f: Fsm) { f in {ERROR_RX, ERROR_TX, ERROR_COM, ERROR_OCR, ERROR_OVERFLOW} }

  /** The bank after a check. */
  predicate BankKeptOrCleared(c: Ctl, d: Ctl, cleared: bool) {
    if cleared then
      d.images.waiting == [] && d.images.delivered == c.images.delivered
      && forall k :: 0 <= k < |c.images.waiting| ==> c.images.waiting[k] in d.images.lost
    else d.images == c.images
  }

  /** From c to d, the k-th observation in a row of the error f has been answered. */
  predicate Answered(c: Ctl, d: Ctl, f: Fsm, k: int) {
    var (next, clears) := AfterError(f, k);
    Went(c, d, next, [Observed(f)]) && BankKeptOrCleared(c, d, clears)
  }

  lemma ErrorDecision(c: Ctl, e: Env)
    requires c.running && c.state == CheckFpga && Quiet(e) && IsError(e.status)
    requires c.watch.prev == e.status ==> c.watch.count >= 0
    ensures var k := if c.watch.prev == e.status then c.watch.count + 2 else 1;
            Answered(c, Step(c, e), e.status, k)
  {
  }

  /** Over every run: an error observed for the k-th time in a row is answered by a reset
      for the first time (overflow by a split of the bank), by a reset with a cleared bank
      for the second, by ERROR for the third, and from then on, which only a restart in
      between makes possible, by resets again; ERROR_OCR by ERROR from the second time on. */
  lemma ErrorFollowsHistory(es: seq<Env>, e: Env)
    requires var c := Run(START, es); c.running && c.state == CheckFpga && Quiet(e) && IsError(e.status)
    ensures var c := Run(START, es);
            Answered(c, Step(c, e), e.status, InARow(c.trace, e.status) + 1)
  {
    var c := Run(START, es);
    EveryRunTells(es);
    if c.watch.prev != e.status {
      NotLastIsNotInARow(c.trace, e.status);
    } else {
      LastIsInARow(c.trace, e.status);
    }
    ErrorDecision(c, e);
  }

  lemma FirstErrorResets(c: Ctl, d: Ctl, f: Fsm)
    requires Answered(c, d, f, 1) && f != ERROR_OVERFLOW
    ensures Went(c, d, ResetFpga, [Observed(f)]) && d.images == c.images
  {
  }

  /** A new error other than overflow: the next iteration resets the FPGA and keeps the bank. */
  lemma NewErrorIsReset(es: seq<Env>, e1: Env, e2: Env, c: Ctl, d: Ctl)
    requires c == Run(START, es) && d == Step(c, e1)
    requires c.running && c.state == CheckFpga && InARow(c.trace, e1.status) == 0
    requires Quiet(e1) && Quiet(e2) && IsError(e1.status) && e1.status != ERROR_OVERFLOW && e2.resetOk && e2.initOk
    ensures Step(d, e2).images == c.images
    ensures Went(c, Step(d, e2), if c.images.waiting != [] then SendImage else FrameCapture,
                 [Observed(e1.status), Sent(RESET), Sent(INIT)])
  {
    ErrorFollowsHistory(es, e1);
    FirstErrorResets(c, d, e1.status);
    Resets(d, e2);
  }

  /** The second half of c's bank has been sent since, and the first half lost. */
  predicate UpperHalfSent(c: Ctl, d: Ctl) {
    var n := |c.images.waiting|;
    && Went(c, d, FrameCapture, [Observed(ERROR_OVERFLOW), Sent(RESET), Sent(INIT), Sent(UPLOAD)])
    && d.images.waiting == [] && d.images.delivered == c.images.delivered + c.images.waiting[n / 2..]
    && forall k :: 0 <= k < n / 2 ==> c.images.waiting[k] in d.images.lost
  }

  lemma SplitAfterOverflow(c: Ctl, d: Ctl, e: Env)
    requires Went(c, d, SplitBanks, [Observed(ERROR_OVERFLOW)]) && d.images == c.images && c.images.waiting != []
    requires Quiet(e) && e.resetOk && e.initOk && e.send == Delivered
    ensures UpperHalfSent(c, Step(d, e))
  {
    Splits(d, e);
    SplitLoses(d, e);
  }

  /** A new overflow: the next iteration resets the FPGA, gives up the first half of the
      bank and sends the second. */
  lemma NewOverflowIsSplit(es: seq<Env>, e1: Env, e2: Env, c: Ctl, d: Ctl)
    requires c == Run(START, es) && d == Step(c, e1) && c.images.waiting != []
    requires c.running && c.state == CheckFpga && InARow(c.trace, ERROR_OVERFLOW) == 0
    requires Quiet(e1) && Quiet(e2) && e1.status == ERROR_OVERFLOW && e2.resetOk && e2.initOk && e2.send == Delivered
    ensures UpperHalfSent(c, Step(d, e2))
  {
    ErrorFollowsHistory(es, e1);
    FirstOverflowSplits(c, d);
    SplitAfterOverflow(c, d, e2);
  }

  lemma FirstOverflowSplits(c: Ctl, d: Ctl)
    requires Answered(c, d, ERROR_OVERFLOW, 1)
    ensures Went(c, d, SplitBanks, [Observed(ERROR_OVERFLOW)]) && d.images == c.images
  {
  }

  lemma {:induction false} LastIsInARow(t: seq<Event>, f: Fsm)
    requires LastSeen(t) == f && f != IDLE
    ensures InARow(t, f) >= 1
  {
    if !t[|t| - 1].Observed? {
      LastIsInARow(t[..|t| - 1], f);
    }
  }

  /** An FPGA that is offline is sent INIT at every check but the one with as many before
      it in a row as the limit, which leads to ERROR. */
  lemma OfflineFollowsHistory(es: seq<Env>, e: Env)
    requires var c := Run(START, es); c.running && c.state == CheckFpga && Quiet(e) && e.status == OFFLINE
    ensures var c := Run(START, es);
            && Step(c, e).images == c.images
            && if InARow(c.trace, OFFLINE) == c.maxPersist then Went(c, Step(c, e), Error, [Observed(OFFLINE)])
               else Went(c, Step(c, e), CheckFpga, [Observed(OFFLINE)] + if e.initOk then [Sent(INIT)] else [])
  {
    var c := Run(START, es);
    EveryRunTells(es);
    if c.watch.prev != OFFLINE {
      NotLastIsNotInARow(c.trace, OFFLINE);
    } else {
      LastIsInARow(c.trace, OFFLINE);
    }
    OfflineDecision(c, e);
  }

  lemma OfflineDecision(c: Ctl, e: Env)
    requires c.running && c.state == CheckFpga && Quiet(e) && e.status == OFFLINE
    ensures var k := if c.watch.prev == OFFLINE then c.watch.count + 1 else 0;
            && Step(c, e).images == c.images
            && if k == c.maxPersist then Went(c, Step(c, e), Error, [Observed(OFFLINE)])
               else Went(c, Step(c, e), CheckFpga, [Observed(OFFLINE)] + if e.initOk then [Sent(INIT)] else [])
  {
  }

  // ---------- busy states, without restarts ----------

  predicate IsBusy(f: Fsm) { !IsError(f) && f !in {OFFLINE, IDLE, WAIT_ACK, WAIT_TX} }

  /** A reset has been tried exactly if the limit has been reached. */
  predicate TriedIfPersisting(c: Ctl) {
    IsBusy(c.watch.prev) ==> (c.watch.tryReset <==> c.watch.count >= c.maxPersist)
  }

  lemma CheckKeepsTried(c: Ctl, e: Env)
    requires TriedIfPersisting(c)
    ensures TriedIfPersisting(HandleCheckFpga(c, e))
  {
  }

  lemma StepKeepsTried(c: Ctl, e: Env)
    requires Quiet(e) && TriedIfPersisting(c) && (c.state == Init ==> c.watch.prev == IDLE)
    ensures TriedIfPersisting(Step(c, e))
  {
    if c.running && c.state == CheckFpga {
      CheckKeepsTried(c, e);
    } else if c.running {
      WatchOnlyChangesInCheck(c, e);
    }
  }

  lemma {:induction false} TriedOverRuns(es: seq<Env>)
    requires NoRestart(es) && GoodLimit(es)
    ensures TriedIfPersisting(Run(START, es))
  {
    if es != [] {
      var most := es[..|es| - 1];
      TriedOverRuns(most);
      WatchStaysSound(most);
      assert es[|es| - 1] in es;
      StepKeepsTried(Run(START, most), es[|es| - 1]);
    }
  }

  lemma BusyDecision(c: Ctl, e: Env)
    requires c.running && c.state == CheckFpga && Quiet(e) && IsBusy(e.status)
    ensures var k := if c.watch.prev == e.status then c.watch.count + 1 else 0;
            && Step(c, e).images == c.images
            && Went(c, Step(c, e),
                    if k < c.maxPersist then FrameCapture
                    else if c.watch.prev == e.status && c.watch.tryReset then Error else ResetFpga,
                    [Observed(e.status)])
  {
  }

  /** Without restarts, a busy FPGA is waited out as many times in a row as the limit says;
      the next time it is reset, and the time after that leads to ERROR. */
  lemma BusyFollowsHistory(es: seq<Env>, e: Env)
    requires NoRestart(es) && GoodLimit(es)
    requires var c := Run(START, es); c.running && c.state == CheckFpga && Quiet(e) && IsBusy(e.status)
    ensures var c := Run(START, es);
            var before := InARow(c.trace, e.status);
            && Step(c, e).images == c.images
            && Went(c, Step(c, e),
                    if before < c.maxPersist then FrameCapture
                    else if before == c.maxPersist then ResetFpga else Error,
                    [Observed(e.status)])
  {
    var c := Run(START, es);
    EveryRunTells(es);
    TriedOverRuns(es);
    WatchStaysSound(es);
    if c.watch.prev != e.status {
      NotLastIsNotInARow(c.trace, e.status);
    } else {
      LastIsInARow(c.trace, e.status);
    }
    BusyDecision(c, e);
  }
}
