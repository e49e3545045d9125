/** What the controller does, told by what it observes, reads and sends: every law here is
    about the effect of a few iterations on states, images, plates and the trace. */
module ControllerLaws {
  import opened ImageLedger
  import opened PlateHistory
  import opened ControllerModel
  import opened ControllerRuns
  import opened ControllerRecovery

  /** An iteration without a request from outside. */
  predicate Quiet(e: Env) { !e.restart && !e.stop }

  predicate AllQuiet(es: seq<Env>) { forall k :: 0 <= k < |es| ==> Quiet(es[k]) }

  /** The controller runs, is in state s and has exchanged evs since c. */
  predicate Went(c: Ctl, d: Ctl, s: State, evs: seq<Event>) {
    d.running && d.state == s && d.trace == c.trace + evs
  }

  predicate SamePlates(c: Ctl, d: Ctl) { d.plates == c.plates && d.results == c.results }

  // ---------- one iteration each ----------

  lemma Captures(c: Ctl, e: Env)
    requires c.running && c.state == FrameCapture && Quiet(e)
    ensures var d := Step(c, e);
            && d.running == c.running && d.trace == c.trace && d.images == c.images && SamePlates(c, d)
            && d.jobPending == c.jobPending
            && d.state == match e.frame case Captured => Detection case Retry => FrameCapture case CaptureFails => Error
  {
  }

  lemma Detects(c: Ctl, e: Env)
    requires c.running && c.state == Detection && Quiet(e)
    ensures var d := Step(c, e);
            && Went(c, d, if e.objects then Segmentation else if c.jobPending then CheckFpga else FrameCapture, [])
            && d.images == c.images && SamePlates(c, d) && d.jobPending == c.jobPending
  {
  }

  /** n is the number of the first of the new images. */
  lemma Segments(c: Ctl, e: Env)
    requires c.running && c.state == Segmentation && Quiet(e)
    ensures var d, n := Step(c, e), c.images.segmented;
            && Went(c, d, CheckFpga, []) && SamePlates(c, d) && d.jobPending == c.jobPending
            && d.images.waiting == c.images.waiting + seq(e.images, k requires 0 <= k => n + k)
            && d.images.delivered == c.images.delivered && d.images.lost == c.images.lost
            && d.images.segmented == n + e.images
  {
    assert NewImages(c.images.segmented, e.images) == seq(e.images, k requires 0 <= k => c.images.segmented + k);
  }

  lemma SeesSettled(c: Ctl, e: Env)
    requires c.running && c.state == CheckFpga && Quiet(e) && e.status in {IDLE, WAIT_ACK, WAIT_TX}
    ensures var d := Step(c, e);
            && Went(c, d, if e.status == IDLE then SendImage else if e.status == WAIT_ACK then SendAck else ReceiveResult,
                    [Observed(e.status)])
            && d.images == c.images && SamePlates(c, d) && d.jobPending == c.jobPending
  {
  }

  lemma Sends(c: Ctl, e: Env)
    requires c.running && c.state == SendImage && Quiet(e)
    ensures var d := Step(c, e);
            && SamePlates(c, d) && d.images.segmented == c.images.segmented && d.images.lost == c.images.lost
            && if c.images.waiting == [] then
                 Went(c, d, FrameCapture, []) && d.images == c.images && d.jobPending == c.jobPending
               else if e.send == Delivered then
                 && Went(c, d, FrameCapture, [Sent(UPLOAD)]) && d.jobPending
                 && d.images.waiting == [] && d.images.delivered == c.images.delivered + c.images.waiting
                 && d.sended == c.images.waiting
               else
                 && Went(c, d, CheckFpga, if e.send == Broken then [Sent(UPLOAD)] else [])
                 && d.images == c.images && d.jobPending == c.jobPending
  {
  }

  lemma Reads(c: Ctl, e: Env)
    requires c.running && c.state == ReceiveResult && Quiet(e)
    ensures var d := Step(c, e);
            && d.images == c.images && d.plates == c.plates && d.jobPending == c.jobPending
            && if e.read.Read? then Went(c, d, Postprocess, [ResultsRead]) && d.results == e.read.strings
               else Went(c, d, CheckFpga, []) && d.results == []
  {
  }

  lemma Posts(c: Ctl, e: Env)
    requires c.running && c.state == Postprocess && Quiet(e)
    ensures var d := Step(c, e);
            && Went(c, d, SendAck, []) && d.images == c.images && d.jobPending == c.jobPending
            && d.results == [] && d.plates == LogAll(c.plates, c.results)
  {
  }

  lemma Acknowledges(c: Ctl, e: Env)
    requires c.running && c.state == SendAck && Quiet(e)
    ensures var d := Step(c, e);
            && d.images == c.images && SamePlates(c, d)
            && if e.ackOk then Went(c, d, SendImage, [Sent(ACK_IRQ)]) && !d.jobPending
               else Went(c, d, CheckFpga, []) && d.jobPending == c.jobPending
  {
  }

  /** A reset that fails ends in ERROR, one after which INIT fails in another check. */
  lemma Resets(c: Ctl, e: Env)
    requires c.running && c.state == ResetFpga && Quiet(e)
    ensures var d := Step(c, e);
            && d.images == c.images && SamePlates(c, d)
            && if !e.resetOk then Went(c, d, Error, [])
               else if !e.initOk then Went(c, d, CheckFpga, [Sent(RESET)])
               else !d.jobPending
                    && Went(c, d, if c.images.waiting != [] then SendImage else FrameCapture, [Sent(RESET), Sent(INIT)])
  {
  }

  lemma SplitFails(c: Ctl, e: Env)
    requires c.running && c.state == SplitBanks && Quiet(e)
    requires !e.resetOk || !e.initOk || c.images.waiting == []
    ensures var d := Step(c, e);
            && SamePlates(c, d) && d.images == c.images
            && if !e.resetOk then Went(c, d, Error, [])
               else if !e.initOk then Went(c, d, CheckFpga, [Sent(RESET)])
               else Went(c, d, FrameCapture, [Sent(RESET), Sent(INIT)])
  {
  }

  /** The first half of the bank is given up, the second half sent, or given up as well. */
  lemma Splits(c: Ctl, e: Env)
    requires c.running && c.state == SplitBanks && Quiet(e) && e.resetOk && e.initOk && c.images.waiting != []
    ensures var d, n := Step(c, e), |c.images.waiting|;
            && SamePlates(c, d) && d.images.waiting == []
            && d.images.delivered == c.images.delivered + (if e.send == Delivered then c.images.waiting[n / 2..] else [])
            && (e.send == Delivered ==> d.jobPending) && d.sended == c.sended + c.images.waiting[..n / 2]
            && Went(c, d, if e.send == Delivered then FrameCapture else CheckFpga,
                    [Sent(RESET), Sent(INIT)] + if e.send == Refused then [] else [Sent(UPLOAD)])
  {
  }

  lemma SplitLoses(c: Ctl, e: Env)
    requires c.running && c.state == SplitBanks && Quiet(e) && e.resetOk && e.initOk && c.images.waiting != []
    ensures var d, n := Step(c, e), |c.images.waiting|;
            forall k :: 0 <= k < (if e.send == Delivered then n / 2 else n) ==> c.images.waiting[k] in d.images.lost
  {
  }

  lemma Starts(c: Ctl, e: Env)
    requires c.running && c.state == Init && Quiet(e)
    ensures var d := Step(c, e);
            && d.images == c.images && SamePlates(c, d) && d.jobPending == c.jobPending
            && match e.init
               case SetupFails => d.state == Error && !d.running && d.trace == c.trace
               case ResetFails => d.state == Error && !d.running && d.trace == c.trace && d.bridge
               case InitFails => d.state == Error && !d.running && d.trace == c.trace + [Sent(RESET)] && d.bridge
               case InitDone(m) =>
                 Went(c, d, FrameCapture, [Sent(RESET), Sent(INIT)]) && d.bridge && d.maxPersist == m
  {
  }

  /** A stop halts at once, with a reset; ERROR ends the run. */
  lemma Ends(c: Ctl, e: Env)
    requires c.running && !e.restart && (e.stop || c.state == Error)
    ensures var d := Step(c, e);
            && !d.running && d.images == c.images && SamePlates(c, d)
            && d.trace == c.trace + if e.stop && e.resetOk then [Sent(RESET)] else []
  {
  }

  /** A restart gives up the bank and forgets results and recent plates. */
  lemma Restarts(c: Ctl, e: Env)
    requires e.restart && !e.stop
    ensures var d := Serve(c, e);
            && d.state == Init && !d.bridge && d.running == c.running && d.watch == c.watch
            && d.images.waiting == [] && d.images.delivered == c.images.delivered
            && (forall k :: 0 <= k < |c.images.waiting| ==> c.images.waiting[k] in d.images.lost)
            && d.sended == [] && d.results == [] && d.plates.recent == [] && d.plates.logged == [] && d.plates.total == c.plates.total
            && d.trace == c.trace + if c.bridge then [Sent(RESET)] else []
  {
  }

  // ---------- from a frame to the plates ----------

  /** The run so far, one iteration after the other. */
  lemma Unrolled(c: Ctl, es: seq<Env>, k: nat)
    requires k < |es|
    ensures es[..0] == [] && es[..|es|] == es && Run(c, []) == c
    ensures Run(c, es[..k + 1]) == Step(Run(c, es[..k]), es[k])
  {
    RunPrefix(c, es, k);
  }

  lemma FrameReachesCheck(c: Ctl, es: seq<Env>)
    requires c.running && c.state == FrameCapture && |es| == 3 && AllQuiet(es)
    requires es[0].frame == Captured && es[1].objects
    ensures var d, n := Run(c, es), c.images.segmented;
            && Went(c, d, CheckFpga, []) && SamePlates(c, d)
            && d.images.waiting == c.images.waiting + seq(es[2].images, k requires 0 <= k => n + k)
            && d.images.delivered == c.images.delivered
  {
    Unrolled(c, es, 0);
    Captures(c, es[0]);
    Unrolled(c, es, 1);
    Detects(Run(c, es[..1]), es[1]);
    Unrolled(c, es, 2);
    Segments(Run(c, es[..2]), es[2]);
  }

  lemma BankIsDelivered(c: Ctl, es: seq<Env>)
    requires c.running && c.state == CheckFpga && |es| == 2 && AllQuiet(es)
    requires es[0].status == IDLE && es[1].send == Delivered && c.images.waiting != []
    ensures var d := Run(c, es);
            && Went(c, d, FrameCapture, [Observed(IDLE), Sent(UPLOAD)]) && d.jobPending && SamePlates(c, d)
            && d.images.waiting == [] && d.images.delivered == c.images.delivered + c.images.waiting
  {
    Unrolled(c, es, 0);
    SeesSettled(c, es[0]);
    Unrolled(c, es, 1);
    Sends(Run(c, es[..1]), es[1]);
  }

  /** A captured frame with objects, an idle FPGA and a working port: after five iterations
      the bank and the images of the frame are delivered, by one UPLOAD. */
  lemma FrameIsDelivered(c: Ctl, es: seq<Env>)
    requires c.running && c.state == FrameCapture && |es| == 5 && AllQuiet(es)
    requires es[0].frame == Captured && es[1].objects && es[3].status == IDLE && es[4].send == Delivered
    requires c.images.waiting != [] || es[2].images > 0
    ensures var d, n := Run(c, es), c.images.segmented;
            && Went(c, d, FrameCapture, [Observed(IDLE), Sent(UPLOAD)]) && d.jobPending && SamePlates(c, d)
            && d.images.waiting == []
            && d.images.delivered == c.images.delivered + (c.images.waiting + seq(es[2].images, k requires 0 <= k => n + k))
  {
    var first, last := es[..3], es[3..];
    assert es == first + last;
    FrameReachesCheck(c, first);
    BankIsDelivered(Run(c, first), last);
    RunConcat(c, first, last);
  }

  /** When CHECK_FPGA observes WAIT_ACK, the next iteration acknowledges. */
  lemma WaitAckIsAcknowledged(c: Ctl, es: seq<Env>)
    requires c.running && c.state == CheckFpga && |es| == 2 && AllQuiet(es)
    requires es[0].status == WAIT_ACK && es[1].ackOk
    ensures var d := Run(c, es);
            Went(c, d, SendImage, [Observed(WAIT_ACK), Sent(ACK_IRQ)]) && !d.jobPending && d.images == c.images
            && SamePlates(c, d)
  {
    Unrolled(c, es, 0);
    SeesSettled(c, es[0]);
    Unrolled(c, es, 1);
    Acknowledges(Run(c, es[..1]), es[1]);
  }

  lemma WaitTxIsRead(c: Ctl, es: seq<Env>)
    requires c.running && c.state == CheckFpga && |es| == 2 && AllQuiet(es)
    requires es[0].status == WAIT_TX && es[1].read.Read?
    ensures var d := Run(c, es);
            && Went(c, d, Postprocess, [Observed(WAIT_TX), ResultsRead]) && d.images == c.images
            && d.plates == c.plates && d.results == es[1].read.strings
  {
    Unrolled(c, es, 0);
    SeesSettled(c, es[0]);
    Unrolled(c, es, 1);
    Reads(Run(c, es[..1]), es[1]);
  }

  lemma ReadIsPosted(c: Ctl, es: seq<Env>)
    requires c.running && c.state == Postprocess && |es| == 2 && AllQuiet(es) && es[1].ackOk
    ensures var d := Run(c, es);
            && Went(c, d, SendImage, [Sent(ACK_IRQ)]) && !d.jobPending && d.images == c.images
            && d.results == [] && d.plates == LogAll(c.plates, c.results)
  {
    Unrolled(c, es, 0);
    Posts(c, es[0]);
    Unrolled(c, es, 1);
    Acknowledges(Run(c, es[..1]), es[1]);
  }

  /** When CHECK_FPGA observes WAIT_TX, the next three iterations read the strings, log the
      new plates among them and acknowledge. */
  lemma WaitTxIsServed(c: Ctl, es: seq<Env>)
    requires c.running && c.state == CheckFpga && |es| == 4 && AllQuiet(es) && Consistent(c.plates)
    requires es[0].status == WAIT_TX && es[1].read.Read? && es[3].ackOk
    ensures var d := Run(c, es);
            && Went(c, d, SendImage, [Observed(WAIT_TX), ResultsRead, Sent(ACK_IRQ)]) && !d.jobPending
            && d.images == c.images && d.results == []
            && d.plates.logged == LoggedAfter(c.plates.logged, es[1].read.strings)
  {
    var first, last := es[..2], es[2..];
    assert es == first + last;
    WaitTxIsRead(c, first);
    ReadIsPosted(Run(c, first), last);
    RunConcat(c, first, last);
    LogAllLogs(c.plates, es[1].read.strings);
  }

  /** A frame without objects leads to the check while a job is pending, and only then. */
  lemma EmptyFrameChecksIfPending(c: Ctl, es: seq<Env>)
    requires c.running && c.state == FrameCapture && |es| == 2 && AllQuiet(es)
    requires es[0].frame == Captured && !es[1].objects
    ensures var d := Run(c, es);
            Went(c, d, if c.jobPending then CheckFpga else FrameCapture, []) && d.images == c.images && SamePlates(c, d)
  {
    Unrolled(c, es, 0);
    Captures(c, es[0]);
    Unrolled(c, es, 1);
    Detects(Run(c, es[..1]), es[1]);
  }

  // ---------- which strings are logged ----------

  /** A string is logged if it is not empty, does not begin with '0' and is not among the
      last thirty logged. */
  function LogNext(logged: seq<string>, s: string): seq<string> {
    var recent := if |logged| <= 30 then logged else logged[|logged| - 30..];
    if |s| > 0 && s[0] != '0' && s !in recent then logged + [s] else logged
  }

  /** The items are worked on one after the other. */
  function Fold<A, B>(f: (A, B) -> A, start: A, items: seq<B>): A {
    if items == [] then start else f(Fold(f, start, items[..|items| - 1]), items[|items| - 1])
  }

  lemma {:induction false} FoldBoth<A, B>(f: (A, B) -> A, start: A, a: seq<B>, b: seq<B>)
    ensures Fold(f, start, a + b) == Fold(f, Fold(f, start, a), b)
    decreases |b|
  {
    if b == [] {
      assert a + b == a;
    } else {
      assert (a + b)[..|a + b| - 1] == a + b[..|b| - 1];
      FoldBoth(f, start, a, b[..|b| - 1]);
    }
  }

  /** The strings are logged one after the other. */
  function LoggedAfter(logged: seq<string>, strings: seq<string>): seq<string> {
    Fold(LogNext, logged, strings)
  }

  lemma LogOneLogs(p: Plates, s: string)
    requires Consistent(p)
    ensures LogOne(p, s).logged == LogNext(p.logged, s)
  {
  }

  lemma {:induction false} LogAllLogs(p: Plates, strings: seq<string>)
    requires Consistent(p)
    ensures LogAll(p, strings).logged == LoggedAfter(p.logged, strings)
  {
    if strings != [] {
      var most := strings[..|strings| - 1];
      LogAllLogs(p, most);
      LoggingKeepsConsistency(p, most);
      LogOneLogs(LogAll(p, most), strings[|strings| - 1]);
    }
  }

  /** What the strings become with an iteration. */
  function ReadBy(c: Ctl, e: Env, all: seq<string>): seq<string> {
    if !c.running then all
    else
      (if e.restart then [] else all)
      + if Serve(c, e).state == ReceiveResult && e.read.Read? then e.read.strings else []
  }

  /** All strings that a run has read since the last restart. */
  function AllRead(es: seq<Env>): seq<string> {
    if es == [] then []
    else
      ReadBy(Run(START, es[..|es| - 1]), es[|es| - 1], AllRead(es[..|es| - 1]))
  }

  /** All but the strings still to be postprocessed have been logged. */
  predicate LoggedFrom(c: Ctl, all: seq<string>) {
    && |c.results| <= |all| && all[|all| - |c.results|..] == c.results
    && c.plates.logged == LoggedAfter([], all[..|all| - |c.results|])
  }

  /** Only POSTPROCESS has strings to work on, unless the run is being halted. */
  predicate InTurn(c: Ctl) { c.results == [] || c.state == Postprocess || c.state == Halt }

  predicate UpToDate(c: Ctl, all: seq<string>) {
    LoggedFrom(c, all) && Consistent(c.plates) && (c.running ==> InTurn(c) && c.state != Halt)
  }

  lemma ServeKeepsLogged(c: Ctl, e: Env, all: seq<string>)
    requires c.running && UpToDate(c, all)
    ensures LoggedFrom(Serve(c, e), if e.restart then [] else all)
    ensures Consistent(Serve(c, e).plates) && InTurn(Serve(c, e))
  {
  }

  lemma OtherStatesKeepStrings(c: Ctl, e: Env)
    requires c.state != ReceiveResult && c.state != Postprocess
    ensures Dispatch(c, e).results == c.results && Dispatch(c, e).plates == c.plates
  {
    match c.state {
      case Init =>
      case CheckFpga =>
      case SendImage =>
      case ResetFpga =>
      case SplitBanks =>
      case _ =>
    }
  }

  lemma OnlyHaltHalts(c: Ctl, e: Env)
    ensures Dispatch(c, e).running ==> Dispatch(c, e).state != Halt
    ensures c.results != [] && c.state == Halt ==> !Dispatch(c, e).running
  {
    match c.state {
      case Init =>
      case CheckFpga =>
      case SendImage =>
      case ResetFpga =>
      case SplitBanks =>
      case _ =>
    }
  }

  lemma ReadingKeepsLogged(c: Ctl, e: Env, all: seq<string>)
    requires c.state == ReceiveResult && LoggedFrom(c, all) && InTurn(c)
    ensures LoggedFrom(HandleReceiveResult(c, e), all + if e.read.Read? then e.read.strings else [])
  {
    assert c.results == [] && all[..|all|] == all;
    if e.read.Read? {
      var more := all + e.read.strings;
      assert more[|all|..] == e.read.strings && more[..|all|] == all;
    } else {
      assert all + [] == all;
    }
  }

  lemma LogAllExtends(p: Plates, done: seq<string>, strings: seq<string>)
    requires Consistent(p) && p.logged == LoggedAfter([], done)
    ensures LogAll(p, strings).logged == LoggedAfter([], done + strings)
  {
    LogAllLogs(p, strings);
    FoldBoth(LogNext, [], done, strings);
  }

  lemma DoneAndPending(all: seq<string>, results: seq<string>)
    requires |results| <= |all| && all[|all| - |results|..] == results
    ensures all[..|all| - |results|] + results == all
    ensures all[..|all|] == all && all[|all|..] == []
  {
  }

  lemma PostingKeepsLogged(c: Ctl, e: Env, all: seq<string>)
    requires LoggedFrom(c, all) && Consistent(c.plates)
    ensures LoggedFrom(HandlePostprocess(c, e), all)
  {
    DoneAndPending(all, c.results);
    LogAllExtends(c.plates, all[..|all| - |c.results|], c.results);
  }

  lemma OthersKeepLogged(c: Ctl, e: Env, all: seq<string>)
    requires LoggedFrom(c, all) && c.state != ReceiveResult && c.state != Postprocess
    ensures LoggedFrom(Dispatch(c, e), all)
  {
    OtherStatesKeepStrings(c, e);
  }

  lemma DispatchKeepsLogged(c: Ctl, e: Env, all: seq<string>)
    requires LoggedFrom(c, all) && Consistent(c.plates) && InTurn(c)
    ensures LoggedFrom(Dispatch(c, e), all + if c.state == ReceiveResult && e.read.Read? then e.read.strings else [])
  {
    if c.state == ReceiveResult {
      ReadingKeepsLogged(c, e, all);
    } else {
      assert all + [] == all;
      if c.state == Postprocess {
        PostingKeepsLogged(c, e, all);
      } else {
        OthersKeepLogged(c, e, all);
      }
    }
  }

  lemma DispatchKeepsTurn(c: Ctl, e: Env)
    requires InTurn(c)
    ensures Dispatch(c, e).running ==> InTurn(Dispatch(c, e)) && Dispatch(c, e).state != Halt
  {
    if c.state != ReceiveResult && c.state != Postprocess {
      OtherStatesKeepStrings(c, e);
      OnlyHaltHalts(c, e);
    }
  }

  lemma StepKeepsLogged(c: Ctl, e: Env, all: seq<string>)
    requires UpToDate(c, all)
    ensures UpToDate(Step(c, e), ReadBy(c, e, all))
  {
    StepKeepsPlates(c, e);
    if c.running {
      ServeKeepsLogged(c, e, all);
      DispatchKeepsLogged(Serve(c, e), e, if e.restart then [] else all);
      DispatchKeepsTurn(Serve(c, e), e);
    }
  }

  lemma {:induction false} EveryRunIsUpToDate(es: seq<Env>)
    ensures UpToDate(Run(START, es), AllRead(es))
  {
    if es != [] {
      EveryRunIsUpToDate(es[..|es| - 1]);
      StepKeepsLogged(Run(START, es[..|es| - 1]), es[|es| - 1], AllRead(es[..|es| - 1]));
    }
  }

  /** Over every run, the plates logged since the last restart follow from the strings read
      since then; strings that are not logged yet are being postprocessed, unless the run
      has ended. */
  lemma PlatesAreThoseRead(es: seq<Env>)
    ensures LoggedFrom(Run(START, es), AllRead(es))
    ensures var c := Run(START, es);
            c.running && c.state != Postprocess ==> c.plates.logged == LoggedAfter([], AllRead(es))
  {
    EveryRunIsUpToDate(es);
    assert AllRead(es)[..|AllRead(es)|] == AllRead(es);
  }

  /** The recent plates are the last thirty, and the counter has 32 bits. */
  lemma RecentAreLastThirty(es: seq<Env>)
    ensures var p := Run(START, es).plates;
            && p.recent == (if |p.logged| <= 30 then p.logged else p.logged[|p.logged| - 30..])
            && p.total == p.ever % 0x1_0000_0000
  {
    EveryRunKeepsPlates(es);
  }
}
