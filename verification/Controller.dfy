/** The ALPR controller as the object it is: handlers that update fields in place.
    Every handler is proved to do to the object's state what the transition system
    of ControllerModel does, so every run of the object is a run of that system. */
module Controller {
  import opened ImageLedger
  import opened PlateHistory
  import opened ControllerModel
  import opened ControllerRuns

  class AlprStateMachine {
    var currentState: State
    var running: bool
    var hasBridge: bool
    var maxPersist: int
    var jobPending: bool
    var statusPrev: Fsm
    var sameStateCount: int
    var tryReset: bool
    var nextImage: nat           // the number of the next image; it stands for the image data
    var presendImages: seq<ImageId>
    var sendedImages: seq<ImageId>
    var results: seq<string>
    var lastLpList: seq<string>
    var totalLpCount: nat
    ghost var history: Ledger    // delivered and lost images
    ghost var logged: seq<string>
    ghost var everLogged: nat
    ghost var trace: seq<Event>

    ghost function Images(): Ledger
      reads this
    {
      history.(waiting := presendImages, segmented := nextImage)
    }

    /** The state the transition system speaks about. */
    ghost function Snapshot(): Ctl
      reads this
    {
      Ctl(currentState, running, hasBridge, maxPersist, jobPending, Watch(statusPrev, sameStateCount, tryReset),
          Images(), sendedImages, results, Plates(lastLpList, totalLpCount, logged, everLogged), trace)
    }

    constructor ()
      ensures Snapshot() == START
    {
      currentState, running, hasBridge, maxPersist, jobPending := Init, true, false, 5, false;
      statusPrev, sameStateCount, tryReset := IDLE, 0, false;
      nextImage, presendImages, sendedImages, results, lastLpList, totalLpCount := 0, [], [], [], [], 0;
      history, logged, everLogged, trace := EMPTY, [], 0, [];
    }

    // ---------- small steps ----------

    method Goto(s: State)
      modifies `currentState
      ensures Snapshot() == old(Snapshot()).(state := s)
    {
      currentState := s;
    }

    /** Records an exchange with the FPGA. */
    ghost method Record(ev: Event)
      modifies `trace
      ensures Snapshot() == Note(old(Snapshot()), ev)
    {
      trace := trace + [ev];
    }

    /** Clears the waiting bank. */
    method DropBank(why: Loss)
      modifies `presendImages, `history
      ensures Snapshot() == old(Snapshot()).(images := LoseAll(old(Images()), why))
    {
      ghost var lost := LoseAll(Images(), why);
      history := lost;
      presendImages := [];
      assert Images() == lost;
    }

    /** The waiting bank has been delivered. */
    method MarkDelivered()
      modifies `presendImages, `history
      ensures Snapshot() == old(Snapshot()).(images := Deliver(old(Images())))
    {
      ghost var delivered := Deliver(Images());
      history := delivered;
      presendImages := [];
      assert Images() == delivered;
    }

    method SetJobPending(pending: bool)
      modifies `jobPending
      ensures Snapshot() == old(Snapshot()).(jobPending := pending)
    {
      jobPending := pending;
    }

    method SetBridge(present: bool)
      modifies `hasBridge
      ensures Snapshot() == old(Snapshot()).(bridge := present)
    {
      hasBridge := present;
    }

    method SetLimit(limit: int)
      modifies `maxPersist
      ensures Snapshot() == old(Snapshot()).(maxPersist := limit)
    {
      maxPersist := limit;
    }

    // ---------- the handlers ----------

    method ResetStateMachine()
      modifies this
      ensures Snapshot() == ControllerModel.ResetStateMachine(old(Snapshot()))
    {
      Goto(Init);
      if hasBridge {
        Record(Sent(RESET));
      }
      SetBridge(false);
      DropBank(Restarted);
      ClearBuffers();
    }

    method ClearBuffers()
      modifies `sendedImages, `results, `lastLpList, `logged
      ensures Snapshot() ==
              old(Snapshot()).(sended := [], results := [], plates := Forget(old(Snapshot()).plates))
    {
      sendedImages := [];
      results := [];
      lastLpList := [];
      logged := [];
    }

    method HandleInit(e: Env) returns (ok: bool)
      modifies this
      ensures Snapshot() == (if ok then ControllerModel.HandleInit(old(Snapshot()), e)
                             else ControllerModel.HandleInit(old(Snapshot()), e).(running := old(running)))
      ensures ok <==> e.init.InitDone?
    {
      if e.init.SetupFails? {
        Goto(Error);
        return false;
      }
      SetBridge(true);
      if e.init.ResetFails? {
        Goto(Error);
        return false;
      }
      Record(Sent(RESET));
      if e.init.InitFails? {
        Goto(Error);
        return false;
      }
      Record(Sent(INIT));
      assert trace == old(trace) + [Sent(RESET), Sent(INIT)];
      SetLimit(e.init.maxPersist);
      Goto(FrameCapture);
      return true;
    }

    method HandleFrameCapture(e: Env)
      modifies this
      ensures Snapshot() == ControllerModel.HandleFrameCapture(old(Snapshot()), e)
    {
      if e.frame == CaptureFails {
        currentState := Error;
        return;
      }
      if e.frame == Retry {
        currentState := FrameCapture;
        return;
      }
      currentState := Detection;
    }

    method HandleDetection(e: Env)
      modifies this
      ensures Snapshot() == ControllerModel.HandleDetection(old(Snapshot()), e)
    {
      if !e.objects {
        if jobPending {
          currentState := CheckFpga;
        } else {
          currentState := FrameCapture;
        }
        return;
      }
      currentState := Segmentation;
    }

    method PushImage()
      modifies `presendImages, `nextImage
      ensures Snapshot() == old(Snapshot()).(images := Add(old(Images()), 1))
    {
      presendImages := presendImages + [nextImage];
      nextImage := nextImage + 1;
      assert NewImages(old(nextImage), 1) == [old(nextImage)];
    }

    /** The images that segmentation yields are pushed onto the waiting bank one by one. */
    method HandleSegmentation(e: Env)
      modifies this
      ensures Snapshot() == ControllerModel.HandleSegmentation(old(Snapshot()), e)
    {
      ghost var c := Snapshot();
      assert c.images.waiting + NewImages(c.images.segmented, 0) == c.images.waiting;
      for i := 0 to e.images
        invariant Snapshot() == c.(images := Add(c.images, i))
      {
        PushImage();
        AddOneMore(c.images, i);
      }
      Goto(CheckFpga);
    }

    /** Updates the counters for one more observation. */
    method CountStatus(status: Fsm) returns (same: bool)
      modifies `sameStateCount, `tryReset
      ensures same <==> statusPrev == status
      ensures Snapshot() == old(Snapshot()).(watch := Look(old(Snapshot()).watch, status))
    {
      same := statusPrev == status;
      if same {
        sameStateCount := sameStateCount + 1;
      } else {
        sameStateCount := 0;
        tryReset := false;
      }
    }

    /** The branches for IDLE, WAIT_ACK and WAIT_TX. */
    method CheckSettled(next: State)
      modifies `currentState, `sameStateCount
      ensures Snapshot() ==
              Act(old(Snapshot()), Decision(next, old(Snapshot()).watch.(count := 0), false, false))
    {
      sameStateCount := 0;
      currentState := next;
    }

    /** The branches for the error states that are tolerated twice. */
    method CheckRepeatError(e: Env, same: bool)
      modifies `currentState, `presendImages, `history
      ensures var first := if e.status == ERROR_OVERFLOW then SplitBanks else ResetFpga;
              Snapshot() ==
              Act(old(Snapshot()),
                  Decision(if sameStateCount == 2 then Error else if same then ResetFpga else first,
                           old(Snapshot()).watch, sameStateCount != 2 && same, false))
    {
      if sameStateCount == 2 {
        currentState := Error;
      } else if same {
        DropBank(RepeatedError);
        currentState := ResetFpga;
      } else {
        currentState := if e.status == ERROR_OVERFLOW then SplitBanks else ResetFpga;
      }
    }

    /** The branch for OFFLINE, which stays in CHECK_FPGA unless it gives up. */
    method CheckOffline(e: Env)
      requires e.status == OFFLINE && currentState == CheckFpga
      modifies `currentState, `trace
      ensures Snapshot() ==
              Act(old(Snapshot()), Decide(old(Snapshot()).watch, e.status, maxPersist, e.initOk))
    {
      if sameStateCount == maxPersist {
        Goto(Error);
      } else if !e.initOk {
        Goto(CheckFpga);
      } else {
        Record(Sent(INIT));
      }
    }

    /** The branch for the states that are waited out. */
    method CheckBusy(e: Env)
      requires Busy(e.status)
      modifies `currentState, `tryReset
      ensures Snapshot() ==
              Act(old(Snapshot()), Decide(old(Snapshot()).watch, e.status, maxPersist, e.initOk))
    {
      if sameStateCount >= maxPersist {
        if tryReset {
          currentState := Error;
        } else {
          tryReset := true;
          currentState := ResetFpga;
        }
      } else {
        currentState := FrameCapture;
      }
    }

    method Branch(e: Env, same: bool)
      requires same == (statusPrev == e.status) && currentState == CheckFpga
      modifies `currentState, `sameStateCount, `tryReset, `presendImages, `history, `trace
      ensures Snapshot() ==
              Act(old(Snapshot()), Decide(old(Snapshot()).watch, e.status, maxPersist, e.initOk))
    {
      if e.status == IDLE {
        CheckSettled(SendImage);
      } else if e.status == WAIT_ACK {
        CheckSettled(SendAck);
      } else if e.status == WAIT_TX {
        CheckSettled(ReceiveResult);
      } else if e.status == ERROR_OCR {
        Goto(if same then Error else ResetFpga);
      } else if e.status == OFFLINE {
        CheckOffline(e);
      } else if RepeatError(e.status) {
        CheckRepeatError(e, same);
      } else {
        CheckBusy(e);
      }
    }

    method RememberStatus(status: Fsm)
      modifies `statusPrev
      ensures Snapshot() == old(Snapshot()).(watch := old(Snapshot()).watch.(prev := status))
    {
      statusPrev := status;
    }

    method HandleCheckFpga(e: Env)
      requires currentState == CheckFpga
      modifies this
      ensures Snapshot() == ControllerModel.HandleCheckFpga(old(Snapshot()), e)
    {
      Record(Observed(e.status));
      var same := CountStatus(e.status);
      Branch(e, same);
      RememberStatus(e.status);
    }

    method HandleSendImage(e: Env)
      modifies this
      ensures Snapshot() == ControllerModel.HandleSendImage(old(Snapshot()), e)
    {
      if |presendImages| == 0 {
        Goto(FrameCapture);
        return;
      }
      if e.send != Refused {
        Record(Sent(UPLOAD));
      }
      if e.send != Delivered {
        Goto(CheckFpga);
        return;
      }
      SetJobPending(true);
      sendedImages := presendImages;
      MarkDelivered();
      Goto(FrameCapture);
    }

    method HandleSendAck(e: Env)
      modifies this
      ensures Snapshot() == ControllerModel.HandleSendAck(old(Snapshot()), e)
    {
      if !e.ackOk {
        Goto(CheckFpga);
        return;
      }
      Record(Sent(ACK_IRQ));
      SetJobPending(false);
      Goto(SendImage);
    }

    method HandleReceiveResult(e: Env)
      modifies this
      ensures Snapshot() == ControllerModel.HandleReceiveResult(old(Snapshot()), e)
    {
      results := [];
      if e.read.ReadFails? {
        Goto(CheckFpga);
        return;
      }
      results := e.read.strings;
      Record(ResultsRead);
      Goto(Postprocess);
    }

    /** Filters and de-duplicates the results, remembering the plates found. */
    method CollectPlates(ghost p0: Plates) returns (validLps: seq<string>)
      requires p0.recent == lastLpList
      modifies `lastLpList
      ensures forall v :: v in validLps ==> v != ""
      ensures LogAll(p0, results) == Plates(lastLpList, Counted(p0.total, |validLps|), p0.logged + validLps,
                                            p0.ever + |validLps|)
    {
      validLps := [];
      for i := 0 to |results|
        invariant forall v :: v in validLps ==> v != ""
        invariant LogAll(p0, results[..i]) == Plates(lastLpList, Counted(p0.total, |validLps|), p0.logged + validLps,
                                                     p0.ever + |validLps|)
      {
        var lp := results[i];
        assert results[..i + 1][..i] == results[..i];
        if |lp| == 0 || lp[0] == '0' {
          continue;
        }
        var isDuplicate := FindPlate(lp, lastLpList);
        if isDuplicate {
          continue;
        }
        assert p0.logged + (validLps + [lp]) == p0.logged + validLps + [lp];
        validLps := validLps + [lp];
        lastLpList := lastLpList + [lp];
        if |lastLpList| > HISTORY {
          lastLpList := lastLpList[1..];
        }
      }
      assert results[..|results|] == results;
    }

    /** The plates found are joined into one line, which is logged if it is not empty. */
    method LogPlates(validLps: seq<string>)
      requires forall v :: v in validLps ==> v != ""
      modifies `logged, `everLogged, `totalLpCount
      ensures Snapshot() ==
              var c := old(Snapshot());
              c.(plates := Plates(lastLpList, Counted(c.plates.total, |validLps|), c.plates.logged + validLps,
                                  c.plates.ever + |validLps|))
    {
      var line := Join(validLps);
      if line != "" {
        logged := logged + validLps;
        everLogged := everLogged + |validLps|;
        CountedAtOnce(totalLpCount, |validLps|);
        totalLpCount := (totalLpCount + |validLps|) % WORD;
      } else {
        assert logged + validLps == logged;
      }
    }

    method HandlePostprocess(e: Env)
      modifies this
      ensures Snapshot() == ControllerModel.HandlePostprocess(old(Snapshot()), e)
    {
      ghost var p := Plates(lastLpList, totalLpCount, logged, everLogged);
      var validLps := CollectPlates(p);
      LogPlates(validLps);
      results := [];
      Goto(SendAck);
    }

    /** RESET followed by INIT. */
    method Reinit(e: Env) returns (ok: bool)
      modifies `currentState, `trace
      ensures Snapshot() == ControllerModel.Reinit(old(Snapshot()), e)
      ensures ok <==> e.resetOk && e.initOk
    {
      if !e.resetOk {
        Goto(Error);
        return false;
      }
      Record(Sent(RESET));
      if !e.initOk {
        Goto(CheckFpga);
        return false;
      }
      Record(Sent(INIT));
      assert trace == old(trace) + [Sent(RESET), Sent(INIT)];
      return true;
    }

    method HandleResetFpga(e: Env)
      modifies this
      ensures Snapshot() == ControllerModel.HandleResetFpga(old(Snapshot()), e)
    {
      var ok := Reinit(e);
      if !ok {
        return;
      }
      jobPending := false;
      if |presendImages| != 0 {
        currentState := SendImage;
      } else {
        currentState := FrameCapture;
      }
    }

    /** The lower half of the waiting bank goes to the bank of sent images, although it
        is not sent; the upper half stays to be sent. */
    method SplitBank()
      modifies `sendedImages, `presendImages, `history
      ensures Snapshot() ==
              var c := old(Snapshot());
              var n := |c.images.waiting| / 2;
              c.(sended := c.sended + c.images.waiting[..n], images := Lose(c.images, n, SplitLowerHalf))
    {
      var half := |presendImages| / 2;
      sendedImages := sendedImages + presendImages[..half];
      ghost var split := Lose(Images(), half, SplitLowerHalf);
      history := split;
      presendImages := presendImages[half..];
      assert Images() == split;
    }

    /** Sends the upper half. */
    method SendSplit(e: Env)
      modifies this
      ensures Snapshot() ==
              var c := old(Snapshot());
              match e.send
              case Refused => c.(images := LoseAll(c.images, SplitSendFailed), state := CheckFpga)
              case Broken => Note(c, Sent(UPLOAD)).(images := LoseAll(c.images, SplitSendFailed), state := CheckFpga)
              case Delivered =>
                Note(c, Sent(UPLOAD)).(images := Deliver(c.images), jobPending := true, state := FrameCapture)
    {
      if e.send != Refused {
        Record(Sent(UPLOAD));
      }
      if e.send != Delivered {
        DropBank(SplitSendFailed);
        Goto(CheckFpga);
        return;
      }
      MarkDelivered();
      SetJobPending(true);
      Goto(FrameCapture);
    }

    method HandleSplitBanks(e: Env)
      modifies this
      ensures Snapshot() == ControllerModel.HandleSplitBanks(old(Snapshot()), e)
    {
      var ok := Reinit(e);
      if !ok {
        return;
      }
      if |presendImages| == 0 {
        Goto(FrameCapture);
        return;
      }
      SplitBank();
      SendSplit(e);
    }

    method HandleHalt(e: Env)
      modifies this
      ensures Snapshot() == ControllerModel.HandleHalt(old(Snapshot()), e)
    {
      if e.resetOk {
        trace := trace + [Sent(RESET)];
      }
      running := false;
    }

    /** A restart and a stop request that have arrived. */
    method ServeRequests(e: Env)
      modifies this
      ensures Snapshot() == Serve(old(Snapshot()), e)
    {
      if e.restart {
        ResetStateMachine();
      }
      if e.stop {
        Goto(Halt);
      }
    }

    /** One iteration of the main loop; result false is the early return of run. */
    method Iterate(e: Env) returns (ok: bool)
      requires running && Allowed(Snapshot(), e)
      requires currentState != MargeBanks && currentState != ResendImage
      modifies this
      ensures ok ==> Snapshot() == Step(old(Snapshot()), e)
      ensures !ok ==> Snapshot().(running := false) == Step(old(Snapshot()), e)
    {
      ok := true;
      ServeRequests(e);
      match currentState {
        case Init => ok := HandleInit(e);
        case FrameCapture => HandleFrameCapture(e);
        case Detection => HandleDetection(e);
        case Segmentation => HandleSegmentation(e);
        case CheckFpga => HandleCheckFpga(e);
        case SendImage => HandleSendImage(e);
        case SendAck => HandleSendAck(e);
        case Postprocess => HandlePostprocess(e);
        case ReceiveResult => HandleReceiveResult(e);
        case ResetFpga => HandleResetFpga(e);
        case SplitBanks => HandleSplitBanks(e);
        case Halt => HandleHalt(e);
        case Error => running := false;
      }
    }

    /** The main loop, for as long as the environment's choices last: a run of the
        transition system, so everything proved about those holds of the object. */
    method MainLoop(es: seq<Env>) returns (ok: bool, n: nat)
      requires Snapshot() == START && AllowedRun(START, es)
      modifies this
      ensures n <= |es|
      ensures (if ok then Snapshot() else Snapshot().(running := false)) == Run(START, es[..n])
      ensures ok ==> !running || n == |es|
      ensures Conserved(Images()) && Consistent(Snapshot().plates) && UploadsSeparated(trace) && AcksDue(trace)
    {
      ok, n := true, 0;
      while running && n < |es|
        invariant n <= |es| && Snapshot() == Run(START, es[..n])
      {
        OneMoreIteration(es, n);
        ok := Iterate(es[n]);
        n := n + 1;
        if !ok {
          break;
        }
      }
      EveryRunConservesImages(es[..n]);
      EveryRunKeepsPlates(es[..n]);
      EveryRunKeepsProtocol(es[..n]);
    }
  }

  lemma OneMoreIteration(es: seq<Env>, n: nat)
    requires n < |es| && AllowedRun(START, es)
    ensures Run(START, es[..n + 1]) == Step(Run(START, es[..n]), es[n])
    ensures Allowed(Run(START, es[..n]), es[n])
    ensures Run(START, es[..n]).state != MargeBanks && Run(START, es[..n]).state != ResendImage
  {
    NeverMergesOrResends(es[..n]);
    AllowedAt(START, es, n);
    RunPrefix(START, es, n);
  }

  lemma AddOneMore(l: Ledger, n: nat)
    ensures Add(Add(l, n), 1) == Add(l, n + 1)
  {
    assert NewImages(l.segmented, n + 1) == NewImages(l.segmented, n) + NewImages(l.segmented + n, 1);
  }

  /** The plate counter after k more plates, counted one at a time. */
  function Counted(total: nat, k: nat): nat {
    if k == 0 then total else (Counted(total, k - 1) + 1) % WORD
  }

  lemma {:induction false} CountedAtOnce(total: nat, k: nat)
    ensures Counted(total, k) == if k == 0 then total else (total + k) % WORD
  {
    if k > 0 {
      CountedAtOnce(total, k - 1);
    }
  }

  method FindPlate(lp: string, list: seq<string>) returns (found: bool)
    ensures found <==> lp in list
  {
    for i := 0 to |list|
      invariant lp !in list[..i]
    {
      if lp == list[i] {
        return true;
      }
    }
    return false;
  }

  method Join(lps: seq<string>) returns (line: string)
    requires forall v :: v in lps ==> v != ""
    ensures line == "" <==> lps == []
  {
    line := "";
    for i := 0 to |lps|
      invariant line == "" <==> i == 0
    {
      if i > 0 {
        line := line + ", ";
      }
      assert lps[i] in lps;
      line := line + lps[i];
    }
  }
}
