/** What it means for the receiver that the controller counts an image as delivered: the
    transition system of ControllerModel together with the sender of StripSender. */
module ControllerDelivery {
  import opened ImageLedger
  import opened ControllerModel
  import opened ControllerRuns
  import StripFormat
  import StripSender

  /** The pixels of every image. */
  type Gallery = ImageId -> StripFormat.Image

  /** Segmentation keeps images of sixteen rows and more than twenty columns. */
  ghost predicate IsGallery(g: Gallery) {
    forall id: ImageId :: StripFormat.WellFormed(g(id)) && StripFormat.Width(g(id)) > 20
  }

  ghost function Batch(g: Gallery, bank: seq<ImageId>): (imgs: seq<StripFormat.Image>)
    requires IsGallery(g)
    ensures |imgs| == |bank| && StripFormat.AllWellFormed(imgs) && StripFormat.StartsWide(imgs)
  {
    seq(|bank|, k requires 0 <= k < |bank| => g(bank[k]))
  }

  // ---------- the sender's outcomes ----------

  predicate FitsCommand(imgs: seq<StripFormat.Image>)
    requires StripFormat.AllWellFormed(imgs)
  {
    StripFormat.WireWidth(imgs) <= StripFormat.MAX_WIDTH
  }

  /** What becomes of a batch, depending on whether the port takes the two bursts. */
  function OutcomeOf(imgs: seq<StripFormat.Image>, pointsReady: bool, columnsReady: bool): SendOutcome
    requires StripFormat.AllWellFormed(imgs)
  {
    if !FitsCommand(imgs) then Refused else if pointsReady && columnsReady then Delivered else Broken
  }

  /** The controller's call of the sender. */
  method SendBank(bridge: StripSender.Bridge, imgs: seq<StripFormat.Image>, pointsReady: bool, columnsReady: bool)
    returns (ok: bool)
    requires bridge.initialized && StripFormat.AllWellFormed(imgs)
    modifies bridge
    ensures ok <==> OutcomeOf(imgs, pointsReady, columnsReady) == Delivered
    ensures bridge.commands ==
            old(bridge.commands) + if FitsCommand(imgs) then [StripFormat.CommandFor(imgs)] else []
    ensures ok ==> bridge.words == old(bridge.words) + StripFormat.Encode(imgs)
  {
    ok := bridge.SendImageStrip(imgs, pointsReady, columnsReady);
  }

  /** The images that an iteration offers to the sender. */
  function Offered(c: Ctl): seq<ImageId> {
    if c.state == SendImage then c.images.waiting
    else if c.state == SplitBanks then c.images.waiting[|c.images.waiting| / 2..]
    else []
  }

  /** The environment's outcome is one that the sender can have for the offered images. */
  ghost predicate Agrees(g: Gallery, c: Ctl, e: Env)
    requires IsGallery(g)
  {
    var bank := Offered(Serve(c, e));
    bank != [] ==> exists pointsReady, columnsReady :: e.send == OutcomeOf(Batch(g, bank), pointsReady, columnsReady)
  }

  ghost predicate AgreeingRun(g: Gallery, c: Ctl, es: seq<Env>)
    requires IsGallery(g)
  {
    es == [] || (AgreeingRun(g, c, es[..|es| - 1]) && Agrees(g, Run(c, es[..|es| - 1]), es[|es| - 1]))
  }

  // ---------- the batches of a run ----------

  /** The images that an iteration delivers. */
  function NewlyDelivered(c: Ctl, e: Env): seq<ImageId> {
    var before, after := c.images.delivered, Step(c, e).images.delivered;
    if |before| <= |after| then after[|before|..] else []
  }

  /** The non-empty batches delivered by a run, in order. */
  function Batches(c: Ctl, es: seq<Env>): seq<seq<ImageId>> {
    if es == [] then []
    else
      var batch := NewlyDelivered(Run(c, es[..|es| - 1]), es[|es| - 1]);
      Batches(c, es[..|es| - 1]) + if batch == [] then [] else [batch]
  }

  function Flat(batches: seq<seq<ImageId>>): seq<ImageId> {
    if batches == [] then [] else Flat(batches[..|batches| - 1]) + batches[|batches| - 1]
  }

  /** An iteration delivers all that it offers, and that only if the sender reports so. */
  lemma DispatchDelivers(c: Ctl, e: Env)
    ensures Dispatch(c, e).images.delivered == c.images.delivered
            || (e.send == Delivered && Dispatch(c, e).images.delivered == c.images.delivered + Offered(c))
  {
    match c.state {
      case SendImage =>
      case CheckFpga =>
      case SplitBanks =>
      case _ =>
    }
  }

  lemma StepDelivers(c: Ctl, e: Env)
    ensures Step(c, e).images.delivered == c.images.delivered + NewlyDelivered(c, e)
    ensures NewlyDelivered(c, e) == [] || (e.send == Delivered && NewlyDelivered(c, e) == Offered(Serve(c, e)))
  {
    if c.running {
      var d := Serve(c, e);
      assert d.images.delivered == c.images.delivered;
      DispatchDelivers(d, e);
    }
  }

  lemma FlatGrows(batches: seq<seq<ImageId>>, batch: seq<ImageId>)
    ensures Flat(batches + if batch == [] then [] else [batch]) == Flat(batches) + batch
  {
    if batch == [] {
      assert batches + [] == batches;
    } else {
      assert (batches + [batch])[..|batches|] == batches;
    }
  }

  /** The batches of a run are all that it delivers. */
  lemma {:induction false} BatchesAreDelivered(es: seq<Env>)
    ensures Flat(Batches(START, es)) == Run(START, es).images.delivered
  {
    if es != [] {
      var most, e := es[..|es| - 1], es[|es| - 1];
      BatchesAreDelivered(most);
      StepDelivers(Run(START, most), e);
      FlatGrows(Batches(START, most), NewlyDelivered(Run(START, most), e));
    }
  }

  /** The receiver recovers a batch exactly if it has at most 255 images and no more than
      65535 columns; otherwise it makes nothing of it. */
  ghost predicate ReceivedIfSmall(g: Gallery, batch: seq<ImageId>)
    requires IsGallery(g)
  {
    var imgs := Batch(g, batch);
    && FitsCommand(imgs)
    && StripFormat.Decode(StripFormat.CommandFor(imgs), StripFormat.Encode(imgs)) ==
       if |batch| <= 255 && |StripFormat.Strip(imgs)| <= StripFormat.MAX_WIDTH then StripFormat.Some(imgs)
       else StripFormat.None
  }

  lemma AgreedBatchIsReceived(g: Gallery, c: Ctl, e: Env)
    requires IsGallery(g) && Agrees(g, c, e) && NewlyDelivered(c, e) != []
    ensures ReceivedIfSmall(g, NewlyDelivered(c, e))
  {
    StepDelivers(c, e);
    StripFormat.StripRoundTrip(Batch(g, NewlyDelivered(c, e)));
  }

  /** What the controller counts as delivered, over every run in which the outcomes are
      the sender's: every batch was sent, and the receiver has it exactly if it is small
      enough. */
  lemma {:induction false} DeliveredMeansReceivedIfSmall(g: Gallery, es: seq<Env>)
    requires IsGallery(g) && AgreeingRun(g, START, es)
    ensures forall k :: 0 <= k < |Batches(START, es)| ==> ReceivedIfSmall(g, Batches(START, es)[k])
  {
    if es != [] {
      var most, e := es[..|es| - 1], es[|es| - 1];
      DeliveredMeansReceivedIfSmall(g, most);
      if NewlyDelivered(Run(START, most), e) != [] {
        AgreedBatchIsReceived(g, Run(START, most), e);
      }
    }
  }

  // ---------- a bank that is too wide ----------

  /** The FPGA is idle at every observation, and nobody interferes. */
  predicate Idle(es: seq<Env>) {
    forall e :: e in es ==> e.status == IDLE && !e.restart && !e.stop
  }

  predicate Offering(c: Ctl, bank: seq<ImageId>) {
    c.running && c.state in {CheckFpga, SendImage} && c.images.waiting == bank
  }

  lemma IdleCheckLeadsToSend(c: Ctl, e: Env)
    requires c.running && c.state == CheckFpga && e.status == IDLE && !e.restart && !e.stop
    ensures var d := Step(c, e); d.running && d.state == SendImage && d.images == c.images
  {
  }

  lemma SendFollowsOutcome(c: Ctl, e: Env)
    requires c.running && c.state == SendImage && c.images.waiting != [] && !e.restart && !e.stop
    ensures var d := Step(c, e);
            && d.running
            && (e.send == Delivered ==> d.state == FrameCapture && d.images == Deliver(c.images))
            && (e.send != Delivered ==> d.state == CheckFpga && d.images == c.images)
  {
  }

  /** With an idle FPGA, a controller whose waiting bank is too wide for the command
      alternates between CHECK_FPGA and SEND_IMAGE and keeps the bank for ever. */
  lemma {:induction false} WideBankNeverLeaves(g: Gallery, c: Ctl, es: seq<Env>)
    requires IsGallery(g) && AgreeingRun(g, c, es) && Idle(es)
    requires c.images.waiting != [] && Offering(c, c.images.waiting) && !FitsCommand(Batch(g, c.images.waiting))
    ensures Offering(Run(c, es), c.images.waiting) && Run(c, es).images == c.images
  {
    if es != [] {
      var most, e := es[..|es| - 1], es[|es| - 1];
      assert e in es;
      WideBankNeverLeaves(g, c, most);
      var d := Run(c, most);
      if d.state == CheckFpga {
        IdleCheckLeadsToSend(d, e);
      } else {
        SendFollowsOutcome(d, e);
      }
    }
  }

  /** The port takes every burst. */
  ghost predicate PortReady(g: Gallery, c: Ctl, e: Env)
    requires IsGallery(g)
  {
    var bank := Offered(Serve(c, e));
    bank != [] ==> e.send == OutcomeOf(Batch(g, bank), true, true)
  }

  /** A bank that fits goes out within two iterations. */
  lemma FittingBankLeaves(g: Gallery, c: Ctl, e1: Env, e2: Env)
    requires IsGallery(g) && Idle([e1, e2])
    requires c.images.waiting != [] && c.running && c.state == CheckFpga && FitsCommand(Batch(g, c.images.waiting))
    requires PortReady(g, Step(c, e1), e2)
    ensures Step(Step(c, e1), e2).images == Deliver(c.images)
  {
    assert e1 in [e1, e2] && e2 in [e1, e2];
    IdleCheckLeadsToSend(c, e1);
    SendFollowsOutcome(Step(c, e1), e2);
  }

  /** When a check finds the FPGA idle and stays alone with it, and the port takes every
      burst, the bank is delivered, at the second iteration, if and only if it fits. */
  lemma IdleBankIsDeliveredIffItFits(g: Gallery, c: Ctl, es: seq<Env>)
    requires IsGallery(g) && AgreeingRun(g, c, es) && Idle(es) && |es| >= 2
    requires c.images.waiting != [] && c.running && c.state == CheckFpga
    requires PortReady(g, Run(c, es[..1]), es[1])
    ensures c.images.delivered + c.images.waiting <= Run(c, es).images.delivered
            <==> FitsCommand(Batch(g, c.images.waiting))
  {
    if FitsCommand(Batch(g, c.images.waiting)) {
      var e1, e2 := es[0], es[1];
      assert e1 in es && e2 in es;
      assert es[..0] == [];
      RunPrefix(c, es, 0);
      RunPrefix(c, es, 1);
      FittingBankLeaves(g, c, e1, e2);
      DeliveredStays(c, es, 2);
    } else {
      WideBankNeverLeaves(g, c, es);
    }
  }

  lemma {:induction false} DeliveredStays(c: Ctl, es: seq<Env>, n: nat)
    requires n <= |es|
    ensures Run(c, es[..n]).images.delivered <= Run(c, es).images.delivered
  {
    if n == |es| {
      assert es[..n] == es;
    } else {
      var most := es[..|es| - 1];
      assert most[..n] == es[..n];
      DeliveredStays(c, most, n);
      StepDelivers(Run(c, most), es[|es| - 1]);
    }
  }
}
