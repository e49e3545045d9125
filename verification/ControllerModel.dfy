/** The ALPR controller as a transition system: its state, the choices of its
    environment (FPGA status words, success of bridge calls, camera, detector,
    operator), and one iteration of its main loop as a function of both. */
module ControllerModel {
  import opened ImageLedger
  import opened PlateHistory

  datatype State =
    | Init | FrameCapture | Detection | Segmentation | CheckFpga | SendImage | SendAck | Postprocess
    | ReceiveResult | ResetFpga | SplitBanks | MargeBanks | ResendImage | Halt | Error

  /** The FPGA's reported state. */
  datatype Fsm =
    | OFFLINE | IDLE | ACK_BP | ACK_STRIP | PROCESS_IMAGE | NEXT_IMAGE | NEXT_IMAGE_VALID | WAIT_POST_RX
    | WAIT_RAM_STORED | WAIT_TX | WAIT_ACK | ERROR_RX | ERROR_TX | ERROR_COM | ERROR_OCR | ERROR_OVERFLOW

  datatype Command = INIT | UPLOAD | ACK_IRQ | RESET

  /** What the controller exchanges with the FPGA. */
  datatype Event = Sent(cmd: Command) | Observed(fsm: Fsm) | ResultsRead

  /** The memory CHECK_FPGA keeps of earlier status observations. */
  datatype Watch = Watch(prev: Fsm, count: int, tryReset: bool)

  datatype Ctl = Ctl(
    state: State,
    running: bool,
    bridge: bool,           // fpga_bridge_ exists
    maxPersist: int,        // max_fpga_persists_states_
    jobPending: bool,
    watch: Watch,           // fpga_status_prev_, same_state_count_, try_reset_
    images: Ledger,         // presend_images_, with its history
    sended: seq<ImageId>,
    results: seq<string>,
    plates: Plates,         // last_lp_list_ and total_lp_count_, with their history
    trace: seq<Event>)      // history

  datatype InitOutcome = SetupFails | ResetFails | InitFails | InitDone(maxPersist: int)
  datatype FrameOutcome = Captured | Retry | CaptureFails
  /** Refused: nothing sent; Broken: the UPLOAD command went out, the data did not. */
  datatype SendOutcome = Refused | Broken | Delivered
  datatype ReadOutcome = ReadFails | Read(strings: seq<string>)

  /** The environment's choices for one iteration of the main loop. */
  datatype Env = Env(
    restart: bool, stop: bool,
    init: InitOutcome,
    frame: FrameOutcome,
    objects: bool, images: nat,  // the detector found something; images segmented
    status: Fsm,
    resetOk: bool, initOk: bool, ackOk: bool,
    send: SendOutcome,
    read: ReadOutcome)

  const START := Ctl(Init, true, false, 5, false, Watch(IDLE, 0, false), EMPTY, [], [], NONE, [])

  /** A stop uses the bridge unconditionally, so it must not come while there is none. */
  predicate Allowed(c: Ctl, e: Env) {
    e.stop ==> c.bridge && !e.restart
  }

  function Note(c: Ctl, event: Event): Ctl {
    c.(trace := c.trace + [event])
  }

  /** The bridge is destroyed, which resets the FPGA; the watch survives. */
  function ResetStateMachine(c: Ctl): Ctl {
    c.(state := Init, bridge := false, images := LoseAll(c.images, Restarted), sended := [], results := [],
       plates := Forget(c.plates), trace := if c.bridge then c.trace + [Sent(RESET)] else c.trace)
  }

  function HandleInit(c: Ctl, e: Env): Ctl {
    match e.init
    case SetupFails => c.(state := Error, running := false)
    case ResetFails => c.(state := Error, running := false, bridge := true)
    case InitFails => c.(state := Error, running := false, bridge := true, trace := c.trace + [Sent(RESET)])
    case InitDone(m) =>
      c.(state := FrameCapture, bridge := true, maxPersist := m, trace := c.trace + [Sent(RESET), Sent(INIT)])
  }

  function HandleFrameCapture(c: Ctl, e: Env): Ctl {
    match e.frame
    case Captured => c.(state := Detection)
    case Retry => c.(state := FrameCapture)
    case CaptureFails => c.(state := Error)
  }

  function HandleDetection(c: Ctl, e: Env): Ctl {
    if e.objects then c.(state := Segmentation)
    else c.(state := if c.jobPending then CheckFpga else FrameCapture)
  }

  function HandleSegmentation(c: Ctl, e: Env): Ctl {
    c.(images := Add(c.images, e.images), state := CheckFpga)
  }

  /** The error states on whose second sighting the waiting bank is cleared. */
  predicate RepeatError(f: Fsm) {
    f == ERROR_RX || f == ERROR_TX || f == ERROR_COM || f == ERROR_OVERFLOW
  }

  /** The states CHECK_FPGA waits out. */
  predicate Busy(f: Fsm) {
    !RepeatError(f) && f != ERROR_OCR && f != OFFLINE && f != IDLE && f != WAIT_ACK && f != WAIT_TX
  }

  /** The counters after one more observation of f; prev is updated last. */
  function Look(w: Watch, f: Fsm): Watch {
    if w.prev == f then w.(count := w.count + 1) else w.(count := 0, tryReset := false)
  }

  /** The next state, the counters, whether the waiting bank is cleared and whether
      INIT is sent. */
  datatype Decision = Decision(next: State, watch: Watch, clears: bool, inits: bool)

  /** What CHECK_FPGA decides on the observation of f with up-to-date counters w. */
  function Decide(w: Watch, f: Fsm, maxPersist: int, initOk: bool): Decision {
    var same := w.prev == f;
    if f == IDLE then Decision(SendImage, w.(count := 0), false, false)
    else if f == WAIT_ACK then Decision(SendAck, w.(count := 0), false, false)
    else if f == WAIT_TX then Decision(ReceiveResult, w.(count := 0), false, false)
    else if f == ERROR_OCR then Decision(if same then Error else ResetFpga, w, false, false)
    else if f == OFFLINE then
      if w.count == maxPersist then Decision(Error, w, false, false) else Decision(CheckFpga, w, false, initOk)
    else if RepeatError(f) then
      if w.count == 2 then Decision(Error, w, false, false)
      else if same then Decision(ResetFpga, w, true, false)
      else Decision(if f == ERROR_OVERFLOW then SplitBanks else ResetFpga, w, false, false)
    else if w.count < maxPersist then Decision(FrameCapture, w, false, false)
    else if w.tryReset then Decision(Error, w, false, false)
    else Decision(ResetFpga, w.(tryReset := true), false, false)
  }

  function Act(c: Ctl, d: Decision): Ctl {
    c.(state := d.next, watch := d.watch,
       images := if d.clears then LoseAll(c.images, RepeatedError) else c.images,
       trace := if d.inits then c.trace + [Sent(INIT)] else c.trace)
  }

  function HandleCheckFpga(c: Ctl, e: Env): Ctl {
    var w := Look(c.watch, e.status);
    var d := Decide(w, e.status, c.maxPersist, e.initOk);
    Act(Note(c, Observed(e.status)), d.(watch := d.watch.(prev := e.status)))
  }

  function HandleSendImage(c: Ctl, e: Env): Ctl {
    if c.images.waiting == [] then c.(state := FrameCapture)
    else match e.send
      case Refused => c.(state := CheckFpga)
      case Broken => Note(c, Sent(UPLOAD)).(state := CheckFpga)
      case Delivered =>
        Note(c, Sent(UPLOAD)).(images := Deliver(c.images), sended := c.images.waiting, jobPending := true,
                               state := FrameCapture)
  }

  function HandleSendAck(c: Ctl, e: Env): Ctl {
    if !e.ackOk then c.(state := CheckFpga)
    else Note(c, Sent(ACK_IRQ)).(jobPending := false, state := SendImage)
  }

  function HandleReceiveResult(c: Ctl, e: Env): Ctl {
    match e.read
    case ReadFails => c.(results := [], state := CheckFpga)
    case Read(strings) => Note(c, ResultsRead).(results := strings, state := Postprocess)
  }

  function HandlePostprocess(c: Ctl, e: Env): Ctl {
    c.(plates := LogAll(c.plates, c.results), results := [], state := SendAck)
  }

  /** RESET followed by INIT, as RESET_FPGA and SPLIT_BANKS start; on failure of
      either the handler ends in the state given here. */
  function Reinit(c: Ctl, e: Env): Ctl {
    if !e.resetOk then c.(state := Error)
    else if !e.initOk then c.(trace := c.trace + [Sent(RESET)], state := CheckFpga)
    else c.(trace := c.trace + [Sent(RESET), Sent(INIT)])
  }

  function HandleResetFpga(c: Ctl, e: Env): Ctl {
    var d := Reinit(c, e);
    if !e.resetOk || !e.initOk then d
    else d.(jobPending := false, state := if d.images.waiting != [] then SendImage else FrameCapture)
  }

  function HandleSplitBanks(c: Ctl, e: Env): Ctl {
    var d := Reinit(c, e);
    var n := |d.images.waiting|;
    if !e.resetOk || !e.initOk then d
    else if n == 0 then d.(state := FrameCapture)
    else
      var upper := Lose(d.images, n / 2, SplitLowerHalf);
      var s := d.(sended := d.sended + d.images.waiting[..n / 2]);
      match e.send
      case Refused => s.(images := LoseAll(upper, SplitSendFailed), state := CheckFpga)
      case Broken => Note(s, Sent(UPLOAD)).(images := LoseAll(upper, SplitSendFailed), state := CheckFpga)
      case Delivered => Note(s, Sent(UPLOAD)).(images := Deliver(upper), jobPending := true, state := FrameCapture)
  }

  function HandleHalt(c: Ctl, e: Env): Ctl {
    c.(running := false, trace := if e.resetOk then c.trace + [Sent(RESET)] else c.trace)
  }

  function Dispatch(c: Ctl, e: Env): Ctl {
    match c.state
    case Init => HandleInit(c, e)
    case FrameCapture => HandleFrameCapture(c, e)
    case Detection => HandleDetection(c, e)
    case Segmentation => HandleSegmentation(c, e)
    case CheckFpga => HandleCheckFpga(c, e)
    case SendImage => HandleSendImage(c, e)
    case SendAck => HandleSendAck(c, e)
    case Postprocess => HandlePostprocess(c, e)
    case ReceiveResult => HandleReceiveResult(c, e)
    case ResetFpga => HandleResetFpga(c, e)
    case SplitBanks => HandleSplitBanks(c, e)
    case Halt => HandleHalt(c, e)
    case Error => c.(running := false)
    case MargeBanks => c   // never entered, see NeverMergesOrResends
    case ResendImage => c  // has no handler
  }

  /** The state an iteration starts from: requests that arrived are served first. */
  function Serve(c: Ctl, e: Env): Ctl {
    var d := if e.restart then ResetStateMachine(c) else c;
    if e.stop then d.(state := Halt) else d
  }

  /** One iteration of the main loop. */
  function Step(c: Ctl, e: Env): Ctl {
    if c.running then Dispatch(Serve(c, e), e) else c
  }

  function Run(c: Ctl, es: seq<Env>): Ctl {
    if es == [] then c else Step(Run(c, es[..|es| - 1]), es[|es| - 1])
  }

  /** Stops come only while the bridge exists. */
  predicate AllowedRun(c: Ctl, es: seq<Env>) {
    es == [] || (AllowedRun(c, es[..|es| - 1]) && Allowed(Run(c, es[..|es| - 1]), es[|es| - 1]))
  }

  lemma RunPrefix(c: Ctl, es: seq<Env>, n: nat)
    requires n < |es|
    ensures Run(c, es[..n + 1]) == Step(Run(c, es[..n]), es[n])
  {
    assert es[..n + 1][..n] == es[..n];
  }

  lemma RunExtends(c: Ctl, es: seq<Env>, e: Env)
    ensures Run(c, es + [e]) == Step(Run(c, es), e)
  {
    assert (es + [e])[..|es|] == es;
  }

  lemma {:induction false} AllowedAt(c: Ctl, es: seq<Env>, n: nat)
    requires AllowedRun(c, es) && n < |es|
    ensures Allowed(Run(c, es[..n]), es[n])
  {
    if n < |es| - 1 {
      AllowedAt(c, es[..|es| - 1], n);
      assert es[..|es| - 1][..n] == es[..n];
    }
  }
}
