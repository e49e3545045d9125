/** What holds of the controller over every run. */
module ControllerRuns {
  import opened ImageLedger
  import opened PlateHistory
  import opened ControllerModel

  // ---------- images ----------

  /** The ledger after splitting the bank, if that goes through. */
  function Upper(l: Ledger): Ledger {
    Lose(l, |l.waiting| / 2, SplitLowerHalf)
  }

  predicate SplitMove(l: Ledger, k: Ledger) {
    k == l || k == LoseAll(Upper(l), SplitSendFailed) || k == Deliver(Upper(l))
  }

  lemma SplitMoveEvolves(l: Ledger, k: Ledger)
    requires SplitMove(l, k)
    ensures Evolves(l, k)
  {
    if k != l {
      var u := Upper(l);
      LosingConserves(l, |l.waiting| / 2, SplitLowerHalf);
      if k == Deliver(u) {
        DeliveringConserves(u);
      } else {
        LosingConserves(u, |u.waiting|, SplitSendFailed);
      }
      EvolvesTransitive(l, u, k);
    }
  }

  lemma EvolvesTransitive(l: Ledger, k: Ledger, m: Ledger)
    requires Evolves(l, k) && Evolves(k, m)
    ensures Evolves(l, m)
  {
    if Conserved(l) {
      FatesExtendedTransitive(l, k, m);
    }
  }

  predicate OneMove(l: Ledger, k: Ledger, n: nat) {
    k == l || k == Add(l, n) || k == LoseAll(l, RepeatedError) || k == Deliver(l)
  }

  lemma OneMoveEvolves(l: Ledger, k: Ledger, n: nat)
    requires OneMove(l, k, n)
    ensures Evolves(l, k)
  {
    if k == Add(l, n) {
      AddingConserves(l, n);
    } else if k == LoseAll(l, RepeatedError) {
      LosingConserves(l, |l.waiting|, RepeatedError);
    } else if k == Deliver(l) {
      DeliveringConserves(l);
    }
  }

  lemma SplitMovesImages(c: Ctl, e: Env)
    ensures SplitMove(c.images, HandleSplitBanks(c, e).images)
  {
    var d := Reinit(c, e);
    assert d.images == c.images;
  }

  lemma DispatchMovesImages(c: Ctl, e: Env)
    requires c.state != SplitBanks
    ensures OneMove(c.images, Dispatch(c, e).images, e.images)
  {
    match c.state {
      case Segmentation =>
      case CheckFpga =>
      case SendImage =>
      case _ =>
    }
  }

  lemma DispatchEvolvesImages(c: Ctl, e: Env)
    ensures Evolves(c.images, Dispatch(c, e).images)
  {
    if c.state == SplitBanks {
      SplitMovesImages(c, e);
      SplitMoveEvolves(c.images, Dispatch(c, e).images);
    } else {
      DispatchMovesImages(c, e);
      OneMoveEvolves(c.images, Dispatch(c, e).images, e.images);
    }
  }

  lemma {:induction false} StepEvolvesImages(c: Ctl, e: Env)
    ensures Evolves(c.images, Step(c, e).images)
  {
    if c.running {
      var d := Serve(c, e);
      LosingConserves(c.images, |c.images.waiting|, Restarted);
      DispatchEvolvesImages(d, e);
      EvolvesTransitive(c.images, d.images, Step(c, e).images);
    }
  }

  /** Conservation and at-most-once delivery, over every run. */
  lemma {:induction false} EveryRunConservesImages(es: seq<Env>)
    ensures Conserved(Run(START, es).images)
  {
    if es != [] {
      var most := es[..|es| - 1];
      EveryRunConservesImages(most);
      StepEvolvesImages(Run(START, most), es[|es| - 1]);
    }
  }

  /** From any point of a run to its end, images delivered stay delivered and images
      lost stay lost; by conservation neither can change into the other. */
  lemma {:induction false} FatesAreFinal(es: seq<Env>, n: nat)
    requires n <= |es|
    ensures FatesExtended(Run(START, es[..n]).images, Run(START, es).images)
  {
    if n == |es| {
      assert es[..n] == es;
    } else {
      var most := es[..|es| - 1];
      assert most[..n] == es[..n];
      FatesAreFinal(most, n);
      EveryRunConservesImages(most);
      StepEvolvesImages(Run(START, most), es[|es| - 1]);
      FatesExtendedTransitive(Run(START, es[..n]).images, Run(START, most).images, Run(START, es).images);
    }
  }

  // ---------- plates ----------

  lemma ServePlates(c: Ctl, e: Env)
    ensures Serve(c, e).plates == c.plates || Serve(c, e).plates == Forget(c.plates)
  {
  }

  lemma DispatchPlates(c: Ctl, e: Env)
    ensures Dispatch(c, e).plates == if c.state == Postprocess then LogAll(c.plates, c.results) else c.plates
  {
    match c.state {
      case CheckFpga =>
      case ResetFpga =>
      case SplitBanks =>
      case _ =>
    }
  }

  lemma {:induction false} StepKeepsPlates(c: Ctl, e: Env)
    requires Consistent(c.plates)
    ensures Consistent(Step(c, e).plates)
  {
    if c.running {
      ServePlates(c, e);
      DispatchPlates(Serve(c, e), e);
      LoggingKeepsConsistency(Serve(c, e).plates, Serve(c, e).results);
    }
  }

  lemma {:induction false} EveryRunKeepsPlates(es: seq<Env>)
    ensures Consistent(Run(START, es).plates)
  {
    if es != [] {
      EveryRunKeepsPlates(es[..|es| - 1]);
      StepKeepsPlates(Run(START, es[..|es| - 1]), es[|es| - 1]);
    }
  }

  // ---------- commands ----------

  predicate Frees(ev: Event) {
    ev == Observed(IDLE) || ev == Sent(ACK_IRQ) || ev == Sent(RESET)
  }

  /** Between any two uploads the FPGA was seen idle, acknowledged or reset. */
  ghost predicate UploadsSeparated(t: seq<Event>) {
    forall i, j :: 0 <= i < j < |t| && t[i] == Sent(UPLOAD) && t[j] == Sent(UPLOAD) ==>
      exists k :: i < k < j && Frees(t[k])
  }

  /** The FPGA was freed after the last upload, if there was one. */
  ghost predicate Free(t: seq<Event>) {
    forall i :: 0 <= i < |t| && t[i] == Sent(UPLOAD) ==> exists k :: i < k < |t| && Frees(t[k])
  }

  /** The last thing that happened calls for an acknowledgement: WAIT_ACK was just
      observed, or WAIT_TX was and the results were read. */
  predicate AckDue(t: seq<Event>) {
    || (|t| >= 1 && t[|t| - 1] == Observed(WAIT_ACK))
    || (|t| >= 2 && t[|t| - 1] == ResultsRead && t[|t| - 2] == Observed(WAIT_TX))
  }

  ghost predicate AcksDue(t: seq<Event>) {
    forall j :: 0 <= j < |t| && t[j] == Sent(ACK_IRQ) ==> AckDue(t[..j])
  }

  /** What each state may rely on. */
  ghost predicate StateJustified(c: Ctl) {
    match c.state
    case SendImage => Free(c.trace)
    case SendAck => AckDue(c.trace)
    case ReceiveResult => |c.trace| >= 1 && c.trace[|c.trace| - 1] == Observed(WAIT_TX)
    case Postprocess => AckDue(c.trace)
    case MargeBanks => false
    case ResendImage => false
    case _ => true
  }

  ghost predicate Protocol(c: Ctl) {
    UploadsSeparated(c.trace) && AcksDue(c.trace) && StateJustified(c)
  }

  /** Appending an event that is neither an upload nor an acknowledgement. */
  lemma HarmlessEvent(t: seq<Event>, ev: Event)
    requires UploadsSeparated(t) && AcksDue(t)
    requires ev != Sent(ACK_IRQ) && (ev == Sent(UPLOAD) ==> Free(t))
    ensures UploadsSeparated(t + [ev]) && AcksDue(t + [ev])
    ensures Frees(ev) ==> Free(t + [ev])
    ensures ev != Sent(UPLOAD) && Free(t) ==> Free(t + [ev])
  {
    var u := t + [ev];
    forall j | 0 <= j < |u| && u[j] == Sent(ACK_IRQ) ensures AckDue(u[..j]) {
      assert u[..j] == t[..j];
    }
    forall i, j | 0 <= i < j < |u| && u[i] == Sent(UPLOAD) && u[j] == Sent(UPLOAD)
      ensures exists k :: i < k < j && Frees(u[k])
    {
      if j < |t| {
        var k :| i < k < j && Frees(t[k]);
        assert Frees(u[k]);
      } else {
        var k :| i < k < |t| && Frees(t[k]);
        assert Frees(u[k]);
      }
    }
    forall i | 0 <= i < |u| && u[i] == Sent(UPLOAD) && ev != Sent(UPLOAD) && (Frees(ev) || Free(t))
      ensures exists k :: i < k < |u| && Frees(u[k])
    {
      if Frees(ev) {
        assert Frees(u[|t|]);
      } else {
        var k :| i < k < |t| && Frees(t[k]);
        assert Frees(u[k]);
      }
    }
  }

  lemma DueAck(t: seq<Event>)
    requires UploadsSeparated(t) && AcksDue(t) && AckDue(t)
    ensures UploadsSeparated(t + [Sent(ACK_IRQ)]) && AcksDue(t + [Sent(ACK_IRQ)]) && Free(t + [Sent(ACK_IRQ)])
  {
    var u := t + [Sent(ACK_IRQ)];
    assert u[..|t|] == t;
    forall j | 0 <= j < |t| && u[j] == Sent(ACK_IRQ) ensures AckDue(u[..j]) {
      assert u[..j] == t[..j];
    }
    forall i, j | 0 <= i < j < |u| && u[i] == Sent(UPLOAD) && u[j] == Sent(UPLOAD)
      ensures exists k :: i < k < j && Frees(u[k])
    {
      var k :| i < k < j && Frees(t[k]);
      assert Frees(u[k]);
    }
    assert Frees(u[|t|]);
  }

  /** RESET, and RESET followed by INIT. */
  lemma ResetAndInit(t: seq<Event>)
    requires UploadsSeparated(t) && AcksDue(t)
    ensures var r := t + [Sent(RESET)]; UploadsSeparated(r) && AcksDue(r) && Free(r)
    ensures var r := t + [Sent(RESET), Sent(INIT)]; UploadsSeparated(r) && AcksDue(r) && Free(r)
  {
    HarmlessEvent(t, Sent(RESET));
    HarmlessEvent(t + [Sent(RESET)], Sent(INIT));
    assert t + [Sent(RESET)] + [Sent(INIT)] == t + [Sent(RESET), Sent(INIT)];
  }

  lemma CheckOutcome(c: Ctl, e: Env)
    ensures var d := HandleCheckFpga(c, e);
            var seen := c.trace + [Observed(e.status)];
            && (d.trace == seen || (d.trace == seen + [Sent(INIT)] && d.state == CheckFpga))
            && d.state !in {Postprocess, MargeBanks, ResendImage}
            && (d.state == SendImage ==> e.status == IDLE)
            && (d.state == SendAck ==> e.status == WAIT_ACK)
            && (d.state == ReceiveResult ==> e.status == WAIT_TX)
  {
  }

  lemma CheckKeepsProtocol(c: Ctl, e: Env)
    requires Protocol(c)
    ensures Protocol(HandleCheckFpga(c, e))
  {
    CheckOutcome(c, e);
    HarmlessEvent(c.trace, Observed(e.status));
    HarmlessEvent(c.trace + [Observed(e.status)], Sent(INIT));
  }

  /** How far SPLIT_BANKS gets. */
  lemma SplitOutcome(c: Ctl, e: Env)
    ensures var d := HandleSplitBanks(c, e);
            var restarted := c.trace + [Sent(RESET), Sent(INIT)];
            && d.state in {Error, CheckFpga, FrameCapture}
            && (d.trace == c.trace || d.trace == c.trace + [Sent(RESET)]
                || d.trace == restarted || d.trace == restarted + [Sent(UPLOAD)])
  {
  }

  lemma SplitKeepsProtocol(c: Ctl, e: Env)
    requires Protocol(c)
    ensures Protocol(HandleSplitBanks(c, e))
  {
    var d, restarted := HandleSplitBanks(c, e), c.trace + [Sent(RESET), Sent(INIT)];
    SplitOutcome(c, e);
    ResetAndInit(c.trace);
    if d.trace == restarted + [Sent(UPLOAD)] {
      HarmlessEvent(restarted, Sent(UPLOAD));
    }
  }

  lemma ResetKeepsProtocol(c: Ctl, e: Env)
    requires Protocol(c)
    ensures Protocol(HandleResetFpga(c, e))
  {
    ResetAndInit(c.trace);
    var d := HandleResetFpga(c, e);
    if !e.resetOk {
      assert d.state == Error && d.trace == c.trace;
    } else if !e.initOk {
      assert d.state == CheckFpga && d.trace == c.trace + [Sent(RESET)];
    } else {
      assert d.trace == c.trace + [Sent(RESET), Sent(INIT)] && d.state in {SendImage, FrameCapture};
    }
  }

  lemma InitKeepsProtocol(c: Ctl, e: Env)
    requires Protocol(c)
    ensures Protocol(HandleInit(c, e))
  {
    ResetAndInit(c.trace);
    var d := HandleInit(c, e);
    assert d.state in {FrameCapture, Error};
  }

  lemma SendKeepsProtocol(c: Ctl, e: Env)
    requires Protocol(c) && c.state == SendImage
    ensures Protocol(HandleSendImage(c, e))
  {
    HarmlessEvent(c.trace, Sent(UPLOAD));
    var d := HandleSendImage(c, e);
    assert d.trace == c.trace || d.trace == c.trace + [Sent(UPLOAD)];
    assert d.state in {FrameCapture, CheckFpga};
  }

  lemma AckKeepsProtocol(c: Ctl, e: Env)
    requires Protocol(c) && c.state == SendAck
    ensures Protocol(HandleSendAck(c, e))
  {
    DueAck(c.trace);
    var d := HandleSendAck(c, e);
    assert if e.ackOk then d.state == SendImage && d.trace == c.trace + [Sent(ACK_IRQ)]
           else d.state == CheckFpga && d.trace == c.trace;
  }

  lemma ReceiveKeepsProtocol(c: Ctl, e: Env)
    requires Protocol(c) && c.state == ReceiveResult
    ensures Protocol(HandleReceiveResult(c, e))
  {
    var d := HandleReceiveResult(c, e);
    if e.read.Read? {
      HarmlessEvent(c.trace, ResultsRead);
      ReadingMakesDue(c.trace);
      assert d.state == Postprocess && d.trace == c.trace + [ResultsRead];
    } else {
      assert d.state == CheckFpga && d.trace == c.trace;
    }
  }

  lemma ReadingMakesDue(t: seq<Event>)
    requires |t| >= 1 && t[|t| - 1] == Observed(WAIT_TX)
    ensures AckDue(t + [ResultsRead])
  {
  }

  lemma HaltKeepsProtocol(c: Ctl, e: Env)
    requires Protocol(c) && c.state == Halt
    ensures Protocol(HandleHalt(c, e))
  {
    HarmlessEvent(c.trace, Sent(RESET));
  }

  /** The states in which nothing is exchanged with the FPGA. */
  lemma QuietKeepsProtocol(c: Ctl, e: Env)
    requires Protocol(c) && c.state in {FrameCapture, Detection, Segmentation, Postprocess, Error}
    ensures Protocol(Dispatch(c, e))
  {
    var d := Dispatch(c, e);
    assert d.trace == c.trace;
    assert d.state in {FrameCapture, Detection, Segmentation, CheckFpga, Error}
           || (c.state == Postprocess && d.state == SendAck);
  }

  lemma DispatchKeepsProtocol(c: Ctl, e: Env)
    requires Protocol(c)
    ensures Protocol(Dispatch(c, e))
  {
    match c.state {
      case Init => InitKeepsProtocol(c, e);
      case CheckFpga => CheckKeepsProtocol(c, e);
      case SendImage => SendKeepsProtocol(c, e);
      case SendAck => AckKeepsProtocol(c, e);
      case ReceiveResult => ReceiveKeepsProtocol(c, e);
      case ResetFpga => ResetKeepsProtocol(c, e);
      case SplitBanks => SplitKeepsProtocol(c, e);
      case Halt => HaltKeepsProtocol(c, e);
      case MargeBanks =>
      case ResendImage =>
      case _ => QuietKeepsProtocol(c, e);
    }
  }

  lemma {:induction false} StepKeepsProtocol(c: Ctl, e: Env)
    requires Protocol(c)
    ensures Protocol(Step(c, e))
  {
    if c.running {
      ResetAndInit(c.trace);
      DispatchKeepsProtocol(Serve(c, e), e);
    }
  }

  /** The command protocol over every run. */
  lemma {:induction false} EveryRunKeepsProtocol(es: seq<Env>)
    ensures Protocol(Run(START, es))
  {
    if es != [] {
      EveryRunKeepsProtocol(es[..|es| - 1]);
      StepKeepsProtocol(Run(START, es[..|es| - 1]), es[|es| - 1]);
    }
  }

  /** The states MargeBanks and ResendImage are never entered. */
  lemma NeverMergesOrResends(es: seq<Env>)
    ensures Run(START, es).state != MargeBanks && Run(START, es).state != ResendImage
  {
    EveryRunKeepsProtocol(es);
  }
}
