# Verified model of the ALPR controller and its calibration, display and wire code

The system recognises licence plates on a board with an ARM processor and an FPGA.
A camera frame is searched for plates, plates are cut into digit images, the images
go to the FPGA for recognition, and the strings that come back are filtered and logged.
This project models the parts of that system with the most state and arithmetic, in
Dafny, and proves what they keep and what they compute:

- **Memory calibration** (`DelayWindows`, `EdgeMarks`, `WindowEnds`, `ReadTargets`,
  `ReadDeskew`, `WriteDeskew`, `DqsEnable`): the per-bit deskew searches of the DDR3 sequencer, for DDR3 on a
  Cyclone V hard PHY with one rank, delay chains of 32 taps and eight DQ bits to a DQS.
  A position is the DQS offset minus the DQ delay; bit i passes at the positions of its
  window, and the data mask at an arbitrary set of positions.
- **The controller** (`ImageLedger`, `PlateHistory`, `ControllerModel`, `ControllerRuns`,
  `ControllerRecovery`, `ControllerLaws`, `ControllerHistory`, `ControllerDelivery`,
  `Controller`): the main loop as a class that updates its fields,
  proved to be a transition system whose environment chooses every status word and the
  outcome of every bridge call. Ghost state records what became of every image, every
  command and observation, and every plate logged.
- **The LCD** (`LcdRaster`): pixels, lines and circles on the bit-packed frame buffer.
- **Detection** (`DescendingSort`, `Rectangles`, `Suppression`): the in-place quicksort with its two
  parallel sections, and greedy non-maximum suppression.
- **Segmentation** (`RowSegments`, `RunningMean`, `LongRuns`): the scan for runs of text rows.
- **The wire format** (`StripFormat`, `StripSender`, `StringFormat`, `StringPort`): image
  strips, breakpoints, commands and result strings in 128-bit words, with a reference
  decoder.

Where the source updates state in place, the model has a class or a method with loops,
proved against a function; the properties are then proved of that function.

What the proofs bring to light about the code:

- `fpga_status_prev_` and `same_state_count_` survive a restart, and the repeat-error
  test compares the count for equality. After a restart at the wrong moment the
  controller tolerates ERROR_RX for ever (`RestartDefeatsRecovery`);
  `RecoveryBoundedIffNotStuck` says exactly from which counters recovery is bounded.
- The upper clamp of a DQ shift reads the delay of pin `i` instead of pin `p`. In this
  configuration every write group has one read group, whose pins are banked and start at
  pin 0 (`sequencer.c:9239-9245`), so the two are the same and nothing goes wrong.
  `VfifoCenter` has the exact condition for success for every start;
  `OtherPinDefeatsDeskew` gives windows that a second read group would lose to it.
- Write deskew never moves DQS in this configuration, so one bit whose window lies wholly
  right of zero makes it fail, however wide that window is.
- The count of a batch is cut to eight bits before it is compared with 255, so a batch
  of more than 255 images is sent and lost (`LargeBatchIsLost`); and a first image without
  columns has breakpoint 65535. `StripRoundTrip` gives the exact condition. The controller
  counts such a batch as delivered (`DeliveredMeansReceivedIfSmall`), and never gets rid of
  a bank that is too wide while the FPGA is idle (`WideBankNeverLeaves`).
- The row scan can lose a whole stretch of good rows that is long enough, because a row
  that deviates too much closes the run and opens none; `CallLosesRun` shows it with the
  limits of the actual call. With a minLength of one row, as calls with seven to thirteen
  rows have, it can also cut a stretch in two, because a run opened below the band is
  compared with a mean of zero (`ShortCallCutsRun`). `CompleteIffTolerant` says, for all
  limits and every number of rows, when all rows, or all rows but the last, are found.
- A segment is used without its last row. So the last row of a stretch is lost whenever
  the stretch ends with the last row of all, and mostly when a row above the band follows;
  `WholeIffLastRowIsKept` says exactly when.
- Step 6 of the DQS-enable search, taken alone, makes the unsigned phase wrap around for a
  midpoint of 0, and gives a legal setting for every other (`CentreOfWindow`). In this
  configuration the steps before it never deliver 0: phase 0 is skipped, so a window
  begins at least one phase tap in (`sequencer.c:4154-4165` and `4210-4218`).

## Model

| member | source | states |
|---|---|---|
| DelayWindows.SweepsFindTheClippedEnds | fpga_soc_top/hps_isw_handoff/soc_system_hps_0/sequencer.c:5130-5298 | For every window, also one wholly left or right of zero, the two sweeps leave exactly the two ends of the window clipped to the swept axis, and an illegal edge exactly when no position of the axis passes |
| DelayWindows.LeftSettled | fpga_soc_top/hps_isw_handoff/soc_system_hps_0/sequencer.c:5139-5174 | The early stop of the DQ sweep loses nothing: once a bit has passed and fails again, no larger delay changes its edges |
| DelayWindows.RightSettled | fpga_soc_top/hps_isw_handoff/soc_system_hps_0/sequencer.c:5203-5259 | The same for the DQS sweep, with the bits already seen by the first sweep |
| DelayWindows.TargetIsCentre | fpga_soc_top/hps_isw_handoff/soc_system_hps_0/sequencer.c:5300-5355 | For any signs of the edges, truncating division puts the target of every non-empty window within one tap of its middle with both margins non-negative |
| DelayWindows.MinSkewIsMinimum | fpga_soc_top/hps_isw_handoff/soc_system_hps_0/sequencer.c:5300-5310 | The skew used for DQS is attained by a bit and is the least of all bits |
| DelayWindows.MarginalBitEndsLeftOfZero | fpga_soc_top/hps_isw_handoff/soc_system_hps_0/sequencer.c:5242-5245 | A bit that passed at delay 0 in the first sweep and fails there in the second, as a noisy one may, gets right edge -1 |
| EdgeMarks.FoundIffNoIllegalEdge | fpga_soc_top/hps_isw_handoff/soc_system_hps_0/sequencer.c:5274-5298 | The edge check passes exactly when every bit passes at some position of the axis |
| EdgeMarks.MarkLeftBits | fpga_soc_top/hps_isw_handoff/soc_system_hps_0/sequencer.c:5159-5173 | In place, every bit's edges change as one step of the DQ sweep prescribes |
| EdgeMarks.MarkRightBits | fpga_soc_top/hps_isw_handoff/soc_system_hps_0/sequencer.c:5232-5258 | In place, every bit's edges change as one step of the DQS sweep prescribes, with the marginal case at delay 0 |
| EdgeMarks.NoIllegalEdge | fpga_soc_top/hps_isw_handoff/soc_system_hps_0/sequencer.c:5274-5298 | True exactly when no bit was left with an illegal edge |
| EdgeMarks.FindMinSkew | fpga_soc_top/hps_isw_handoff/soc_system_hps_0/sequencer.c:5300-5310 | Returns the minimum skew and a bit that has it |
| WindowEnds.EdgesAreEnds | fpga_soc_top/hps_isw_handoff/soc_system_hps_0/sequencer.c:5130-5262 | The edges found, in numbers: the first and the last passing position between -31 and 31 less the start |
| WindowEnds.FoundMeansPassesSomewhere | fpga_soc_top/hps_isw_handoff/soc_system_hps_0/sequencer.c:5274-5298 | The edge check, in numbers: every window has a passing position on that axis |
| WindowEnds.TargetInNumbers | fpga_soc_top/hps_isw_handoff/soc_system_hps_0/sequencer.c:5300-5355 | The DQS move and every target, in numbers, with divisions that round down |
| ReadDeskew.ReadGroup.SweepDq | fpga_soc_top/hps_isw_handoff/soc_system_hps_0/sequencer.c:5138-5174 | The DQ sweep with sticky mask and early stop leaves what the full sweep would leave, and touches no pin of another group |
| ReadDeskew.ReadGroup.SweepDqs | fpga_soc_top/hps_isw_handoff/soc_system_hps_0/sequencer.c:5202-5262 | The DQS sweep likewise, over the taps DQS has left |
| ReadDeskew.ReadGroup.FindEdges | fpga_soc_top/hps_isw_handoff/soc_system_hps_0/sequencer.c:5130-5262 | Both sweeps leave the clipped ends of every bit's window |
| ReadTargets.NeededShiftNonNegative | fpga_soc_top/hps_isw_handoff/soc_system_hps_0/sequencer.c:5320-5362 | Clamping DQS is compensated by DQ shifts that are never negative |
| ReadTargets.TargetsAreCentres | fpga_soc_top/hps_isw_handoff/soc_system_hps_0/sequencer.c:5300-5379 | With the edges found, every bit's target is the middle of its window to within one tap |
| ReadDeskew.ReadGroup.ShiftDq | fpga_soc_top/hps_isw_handoff/soc_system_hps_0/sequencer.c:5352-5379 | All programmed delays stay in range and are exactly those that the clamp leaves, for every start of the group; no other pin changes; the margins are both non-negative exactly when every bit ends up inside its window |
| ReadDeskew.ReadGroup.Centre | fpga_soc_top/hps_isw_handoff/soc_system_hps_0/sequencer.c:5300-5443 | DQS is at its clamped target, every bit whose chain is long enough is at its target, every other bit has exactly the delay that the clamp leaves it, and the verdict says whether all bits are inside their windows |
| ReadDeskew.ReadGroup.VfifoCenter | fpga_soc_top/hps_isw_handoff/soc_system_hps_0/sequencer.c:5094-5444 | The verdict is positive if and only if every bit reads back correctly with the delays programmed; for the group at pin 0 that is so if and only if every window has a passing position and no window's middle lies more than 31 taps right of another's right end; DQS ends in the middle furthest right or at 0, every bit is centred to within one tap or has the largest delay the clamp allows, and all delays are given in numbers; on a missing window DQS is restored |
| ReadDeskew.ReadGroup.VerdictIsWithinChain | fpga_soc_top/hps_isw_handoff/soc_system_hps_0/sequencer.c:5359-5379 | After centring, for every start of the group, the verdict is positive if and only if no bit is left past its right edge |
| ReadTargets.WithinChainAtPinZero | fpga_soc_top/hps_isw_handoff/soc_system_hps_0/sequencer.c:5353-5379 | For a group that starts at pin 0, as all do in this configuration, the condition is that the largest delay is enough for every bit |
| ReadTargets.DqsIsSettled | fpga_soc_top/hps_isw_handoff/soc_system_hps_0/sequencer.c:5311-5331 | DQS ends in the middle, rounded down, of the window whose middle lies furthest right, or at delay 0 if that would be negative |
| ReadTargets.SomeDelayIsZero | fpga_soc_top/hps_isw_handoff/soc_system_hps_0/sequencer.c:5320-5365 | DQS or some bit of the group ends at delay 0 |
| ReadTargets.WithinChainIffCloseTogether | fpga_soc_top/hps_isw_handoff/soc_system_hps_0/sequencer.c:5353-5443 | At pin 0, success in terms of the window ends and the start alone |
| ReadDeskew.ReadGroup.CentringMeans | fpga_soc_top/hps_isw_handoff/soc_system_hps_0/sequencer.c:5300-5443 | All that centring leaves behind, in terms of the windows alone |
| ReadTargets.OtherPinDefeatsDeskew | fpga_soc_top/hps_isw_handoff/soc_system_hps_0/sequencer.c:5359-5360 | Windows that can be deskewed at pin 0 but, because the clamp reads pin i instead of pin p, at pin 8 if and only if pin 0 happens to have delay zero |
| EdgeMarks.LeftStopIsSound | fpga_soc_top/hps_isw_handoff/soc_system_hps_0/sequencer.c:5144-5158 | When the early stop of the DQ sweep fires, the rest of the sweep would change no edge of any bit |
| EdgeMarks.RightStopIsSound | fpga_soc_top/hps_isw_handoff/soc_system_hps_0/sequencer.c:5216-5231 | The same for the DQS sweep |
| WriteDeskew.WriteGroup.FindEdges | fpga_soc_top/hps_isw_handoff/soc_system_hps_0/sequencer.c:7264-7400 | The write-side sweeps leave the clipped ends of every bit's window |
| WriteDeskew.WriteGroup.SweepDq | fpga_soc_top/hps_isw_handoff/soc_system_hps_0/sequencer.c:7272-7303 | The output DQ sweep with early stop leaves what the full sweep would leave |
| WriteDeskew.WriteGroup.SweepDqs | fpga_soc_top/hps_isw_handoff/soc_system_hps_0/sequencer.c:7331-7390 | The output DQS sweep, with the marginal bits marked at delay 0 before an early stop, leaves what the full sweep would leave |
| WriteDeskew.MarginalBitsAgree | fpga_soc_top/hps_isw_handoff/soc_system_hps_0/sequencer.c:7352-7360 | Marking the marginal bits before an early stop does what the sweep step does |
| WriteDeskew.WriteDelayFits | fpga_soc_top/hps_isw_handoff/soc_system_hps_0/sequencer.c:7413-7491 | No wanted write delay exceeds the chain, a bit ends up inside its window if and only if the window does not lie wholly right of zero, and it is centred when its target is not right of zero |
| WriteDeskew.WriteGroup.DelaysPlaced | fpga_soc_top/hps_isw_handoff/soc_system_hps_0/sequencer.c:7413-7491 | Every write delay, in numbers: what brings the bit to the middle furthest right, or zero if that is negative |
| WriteDeskew.WriteGroup.DeskewDq | fpga_soc_top/hps_isw_handoff/soc_system_hps_0/sequencer.c:7262-7508 | DQ deskew as a whole: found and success have exact conditions, DQS keeps its delay, and success means that every bit passes |
| WriteDeskew.ExtendByPass | fpga_soc_top/hps_isw_handoff/soc_system_hps_0/sequencer.c:7660-7675 | A passing position extends the current run, and the longest run, leftmost among equals, is kept up to date |
| WriteDeskew.ExtendByFailure | fpga_soc_top/hps_isw_handoff/soc_system_hps_0/sequencer.c:7676-7683 | A failing position leaves the longest run what it was |
| WriteDeskew.EarlyExitIsSound | fpga_soc_top/hps_isw_handoff/soc_system_hps_0/sequencer.c:7723-7729 | When the early exit fires, no longer run can follow, so the best run is the best of the whole axis |
| WriteDeskew.WriteGroup.FindMaskWindow | fpga_soc_top/hps_isw_handoff/soc_system_hps_0/sequencer.c:7645-7741 | The data-mask search returns the leftmost longest run of passing positions of the whole axis and its length, for an arbitrary pass/fail pattern |
| WriteDeskew.MaskMarginIsSound | fpga_soc_top/hps_isw_handoff/soc_system_hps_0/sequencer.c:7732-7763 | The data-mask margin is non-negative if and only if a window was found that starts at or left of zero; then the applied delay is in range and tests a position inside the window |
| WriteDeskew.WriteGroup.CentreMask | fpga_soc_top/hps_isw_handoff/soc_system_hps_0/sequencer.c:7645-7768 | The whole data-mask step: search, sign of the margin, and the delay, half the way from zero to the middle of the run or zero |
| WriteDeskew.WriteGroup.WritesCenter | fpga_soc_top/hps_isw_handoff/soc_system_hps_0/sequencer.c:7228-7944 | Success if and only if every bit passes somewhere on the axis and not only right of zero and the longest mask window starts at or left of zero; then every bit and the mask pass with the delays programmed; all delays are given in numbers |
| DqsEnable.CentreOfWindow | fpga_soc_top/hps_isw_handoff/soc_system_hps_0/sequencer.c:4549-4580 | The phase is legal, 1 to 7, exactly for positive midpoints; the delay is at most 13 taps; unless the phase-0 override fires, phase times 312 plus delay times 25 reaches the midpoint modulo 2496 with less than 25 to spare; midpoint 0 wraps around |
| DqsEnable.Setting | fpga_soc_top/hps_isw_handoff/soc_system_hps_0/sequencer.c:4563-4579 | For a midpoint within one cycle, the phase and delay loops find the fewest delay taps on the last phase before it, or the override applies |
| DqsEnable.OneCycleLess | fpga_soc_top/hps_isw_handoff/soc_system_hps_0/sequencer.c:4558-4562 | Taking off a whole cycle does not change the setting sought |
| ImageLedger.LosingConserves | ALPR_SYSTEM/src/alpr_statemachine.cpp:1100-1136 | Giving up waiting images loses track of none, and no fate changes |
| ImageLedger.AddingConserves | ALPR_SYSTEM/src/alpr_statemachine.cpp:733-760 | New images are waiting, and nothing else changes |
| ImageLedger.DeliveringConserves | ALPR_SYSTEM/src/alpr_statemachine.cpp:940-962 | Delivered images are exactly those that waited, in order |
| ControllerRuns.StepEvolvesImages | ALPR_SYSTEM/src/alpr_statemachine.cpp:193-276 | One iteration of the main loop, whatever the environment does, conserves images and keeps every fate |
| ControllerRuns.EveryRunConservesImages | ALPR_SYSTEM/src/alpr_statemachine.cpp:193-276 | Over every run each segmented image is in exactly one of waiting, delivered, lost by a named path; deliveries are in order and none happens twice |
| ControllerRuns.FatesAreFinal | ALPR_SYSTEM/src/alpr_statemachine.cpp:193-276 | From any point of any run on, what was delivered or lost stays so, for the same reason |
| PlateHistory.RememberKeepsLast | ALPR_SYSTEM/src/alpr_statemachine.cpp:1022-1029 | The list of recent plates remains the last 30 |
| PlateHistory.NewPlatesAreSpaced | ALPR_SYSTEM/src/alpr_statemachine.cpp:1011-1029 | A plate not among the last 30 keeps equal plates more than 30 positions apart |
| PlateHistory.LoggingKeepsConsistency | ALPR_SYSTEM/src/alpr_statemachine.cpp:999-1050 | Postprocessing any results keeps list, spacing, filter and counter consistent |
| ControllerRuns.EveryRunKeepsPlates | ALPR_SYSTEM/src/alpr_statemachine.cpp:999-1050 | Over every run the recent plates are the last min(30, n) logged since the last restart, equal plates are at least 31 apart, none is empty or starts with 0, and the counter counts all logged plates modulo 2^32 |
| ControllerRuns.StepKeepsProtocol | ALPR_SYSTEM/src/alpr_statemachine.cpp:770-1146 | One iteration, in any state, keeps the command protocol |
| ControllerRuns.EveryRunKeepsProtocol | ALPR_SYSTEM/src/alpr_statemachine.cpp:193-276 | Over every run an IDLE observation, an ACK or a RESET lies between any two UPLOADs, and every ACK directly follows a WAIT_ACK observation or a WAIT_TX observation with its results read |
| ControllerRuns.NeverMergesOrResends | ALPR_SYSTEM/src/alpr_statemachine.cpp:1149-1206 | MARGE_BANKS and RESEND_IMAGE are never reached |
| ControllerLaws.FrameIsDelivered | ALPR_SYSTEM/src/alpr_statemachine.cpp:590-964 | A frame with objects, an idle FPGA and a working port: after five iterations the bank and the frame's images are delivered, by one UPLOAD |
| ControllerLaws.WaitTxIsServed | ALPR_SYSTEM/src/alpr_statemachine.cpp:804-1050 | When CHECK_FPGA observes WAIT_TX and the read and the ACK succeed, the next three iterations read the strings, log those that are new plates and acknowledge |
| ControllerLaws.WaitAckIsAcknowledged | ALPR_SYSTEM/src/alpr_statemachine.cpp:800-980 | When CHECK_FPGA observes WAIT_ACK, the next iteration acknowledges |
| ControllerLaws.EmptyFrameChecksIfPending | ALPR_SYSTEM/src/alpr_statemachine.cpp:677-704 | A frame without objects leads to the check exactly while a job is pending |
| ControllerLaws.Starts | ALPR_SYSTEM/src/alpr_statemachine.cpp:284-587 | What each outcome of initialisation sends and where it leads |
| ControllerLaws.Restarts | ALPR_SYSTEM/src/alpr_statemachine.cpp:167-190 | A restart gives up the bank, forgets results and recent plates, keeps the counter and the status counters, and resets the FPGA if there is a bridge |
| ControllerLaws.Ends | ALPR_SYSTEM/src/alpr_statemachine.cpp:1209-1228 | A stop halts at once with a reset, and ERROR ends the run, with the bank and the plates as they were |
| ControllerLaws.SplitFails | ALPR_SYSTEM/src/alpr_statemachine.cpp:1082-1108 | A split whose reset or INIT fails, or that has no bank, keeps the bank |
| ControllerLaws.PlatesAreThoseRead | ALPR_SYSTEM/src/alpr_statemachine.cpp:983-1050 | Over every run, the plates logged since the last restart follow from the strings read since then: a string is logged if it is not empty, does not begin with 0 and is not among the last thirty logged |
| ControllerLaws.RecentAreLastThirty | ALPR_SYSTEM/src/alpr_statemachine.cpp:1022-1046 | Over every run, the recent plates are the last thirty logged, and the counter counts modulo 2^32 |
| ControllerHistory.EveryRunTells | ALPR_SYSTEM/src/alpr_statemachine.cpp:783-807 | Over every run, restarts included, the counters say how many times in a row the last state was observed |
| ControllerHistory.ErrorFollowsHistory | ALPR_SYSTEM/src/alpr_statemachine.cpp:808-884 | Over every run, an error is answered by a reset when first observed, an overflow by a split, by a reset and a cleared bank the second time in a row, by ERROR the third, and by resets again from then on; ERROR_OCR by ERROR from the second time on |
| ControllerHistory.NewErrorIsReset | ALPR_SYSTEM/src/alpr_statemachine.cpp:825-1079 | Over every run, a new error is followed by RESET and INIT in the next iteration, and the bank is kept |
| ControllerHistory.NewOverflowIsSplit | ALPR_SYSTEM/src/alpr_statemachine.cpp:808-1146 | Over every run, a new overflow is followed by RESET, INIT and an UPLOAD of the second half of the bank, and the first half is lost |
| ControllerHistory.OfflineFollowsHistory | ALPR_SYSTEM/src/alpr_statemachine.cpp:885-900 | Over every run, an offline FPGA is sent INIT at every check but the one with as many before it in a row as the limit, which leads to ERROR |
| ControllerHistory.BusyFollowsHistory | ALPR_SYSTEM/src/alpr_statemachine.cpp:902-918 | Without restarts, a busy FPGA is waited out as often in a row as the limit says, then reset, then leads to ERROR |
| ControllerDelivery.SendBank | ALPR_SYSTEM/src/alpr_statemachine.cpp:938-956 | The controller's call of the sender has the outcome that the transition system's environment reports |
| ControllerDelivery.BatchesAreDelivered | ALPR_SYSTEM/src/alpr_statemachine.cpp:925-964 | Over every run, the batches sent add up to the images counted as delivered, in order |
| ControllerDelivery.DeliveredMeansReceivedIfSmall | ALPR_SYSTEM/src/alpr_statemachine.cpp:925-964 | Over every run in which the outcomes are the sender's, the receiver has a delivered batch exactly if it has at most 255 images and 65535 columns |
| ControllerDelivery.WideBankNeverLeaves | ALPR_SYSTEM/src/alpr_statemachine.cpp:770-964 | With an idle FPGA, a bank too wide for the command keeps the controller between CHECK_FPGA and SEND_IMAGE for ever |
| ControllerDelivery.IdleBankIsDeliveredIffItFits | ALPR_SYSTEM/src/alpr_statemachine.cpp:770-964 | With an idle FPGA and a ready port the bank is delivered, by the second iteration, if and only if it fits the command |
| ControllerRecovery.CheckUsesSighting | ALPR_SYSTEM/src/alpr_statemachine.cpp:770-922 | Every observation of a fault uses up at least one of the sightings left, and leads to ERROR exactly with the last one |
| ControllerRecovery.SightingsAreBounded | ALPR_SYSTEM/src/alpr_statemachine.cpp:770-922 | From any state of the counters that is not stuck, a run that observes only one fault makes at most the sightings left and is over when it makes that many |
| ControllerRecovery.WatchStaysSound | ALPR_SYSTEM/src/alpr_statemachine.cpp:783-920 | Without restart requests the counters never get stuck |
| ControllerRecovery.RecoveryIsBounded | ALPR_SYSTEM/src/alpr_statemachine.cpp:770-922 | Without restart requests a persisting fault leads to ERROR within 2 sightings for ERROR_OCR, 3 for the other error states, max+1 for OFFLINE and max+2 for a busy state |
| ControllerRecovery.StuckStaysStuck | ALPR_SYSTEM/src/alpr_statemachine.cpp:783-920 | Once the counter has passed the value it is compared with, no further sighting of the fault leads to ERROR |
| ControllerRecovery.RecoveryBoundedIffNotStuck | ALPR_SYSTEM/src/alpr_statemachine.cpp:783-920 | Recovery from a fault is bounded if and only if the counter is not past the value it is compared with |
| ControllerRecovery.RestartDefeatsRecovery | ALPR_SYSTEM/src/alpr_statemachine.cpp:167-190 | Because the counters survive a restart, an allowed run with a single restart request reaches a state from which ERROR_RX is tolerated for ever |
| Controller.AlprStateMachine.HandleCheckFpga | ALPR_SYSTEM/src/alpr_statemachine.cpp:770-922 | The handler's updates in place are those of the transition system, for every status and history |
| Controller.AlprStateMachine.HandleSendImage | ALPR_SYSTEM/src/alpr_statemachine.cpp:925-964 | The same for sending the waiting bank, with its three outcomes |
| Controller.AlprStateMachine.HandleSendAck | ALPR_SYSTEM/src/alpr_statemachine.cpp:967-980 | The same for acknowledging |
| Controller.AlprStateMachine.HandleReceiveResult | ALPR_SYSTEM/src/alpr_statemachine.cpp:983-996 | The same for reading results |
| Controller.AlprStateMachine.HandlePostprocess | ALPR_SYSTEM/src/alpr_statemachine.cpp:999-1050 | The loops that filter, de-duplicate and log plates update list and counter as logging one plate after the other does |
| Controller.AlprStateMachine.HandleResetFpga | ALPR_SYSTEM/src/alpr_statemachine.cpp:1053-1079 | The same for RESET_FPGA, with its failure paths |
| Controller.AlprStateMachine.HandleSplitBanks | ALPR_SYSTEM/src/alpr_statemachine.cpp:1082-1146 | The same for SPLIT_BANKS: the lower half is given up, the upper half sent or lost |
| Controller.AlprStateMachine.HandleSegmentation | ALPR_SYSTEM/src/alpr_statemachine.cpp:707-767 | Segmented images join the waiting bank in order |
| Controller.AlprStateMachine.HandleInit | ALPR_SYSTEM/src/alpr_statemachine.cpp:284-587 | The outcomes of initialisation, seen from the controller's state |
| Controller.AlprStateMachine.ResetStateMachine | ALPR_SYSTEM/src/alpr_statemachine.cpp:167-190 | Restart clears bank, results and recent plates, and keeps the status counters |
| Controller.AlprStateMachine.Iterate | ALPR_SYSTEM/src/alpr_statemachine.cpp:193-276 | One iteration of the loop is one step of the transition system |
| Controller.AlprStateMachine.MainLoop | ALPR_SYSTEM/src/alpr_statemachine.cpp:193-276 | Every run of the object is a run of the transition system, and leaves the object's images conserved, its plates consistent, its uploads separated and its acknowledgements due |
| Controller.CountedAtOnce | ALPR_SYSTEM/src/alpr_statemachine.cpp:1040-1046 | Counting plates one at a time in 32 bits adds up to their number modulo 2^32 |
| LcdRaster.WritePaints | ALPR_SYSTEM/src/HPS_LCD/lcd_graphic.c:46-57 | Changing one bit of the packed buffer changes one pixel of the picture and preserves all others |
| LcdRaster.DecodeInjective | ALPR_SYSTEM/src/HPS_LCD/lcd_graphic.c:46-57 | Frames that show the same picture are equal, so statements about pictures are statements about every bit |
| LcdRaster.Canvas.DrawPixel | ALPR_SYSTEM/src/HPS_LCD/lcd_graphic.c:46-57 | Sets or clears exactly the one pixel, which is bit y mod 8, the topmost the lowest, of byte width * (y div 8) + x |
| LcdRaster.WithinHalfAPixel | ALPR_SYSTEM/src/HPS_LCD/lcd_graphic.c:98-153 | Every painted pixel of a sloped line is within half a pixel of the ideal line |
| LcdRaster.SlopeIsConnected | ALPR_SYSTEM/src/HPS_LCD/lcd_graphic.c:98-153 | A sloped line starts at its end point, moves across by at most one pixel a step, and would reach the other end point with its first unpainted step |
| LcdRaster.LineInBoundingBox | ALPR_SYSTEM/src/HPS_LCD/lcd_graphic.c:72-158 | All painted pixels lie in the bounding box of the end points |
| LcdRaster.LineHasNoDirection | ALPR_SYSTEM/src/HPS_LCD/lcd_graphic.c:72-158 | The painted set does not depend on the order of the end points |
| LcdRaster.LineEnds | ALPR_SYSTEM/src/HPS_LCD/lcd_graphic.c:72-158 | Of the two end points, the one that comes first along the longer side is painted and the other is not |
| LcdRaster.LineFits | ALPR_SYSTEM/src/HPS_LCD/lcd_graphic.c:72-158 | A line whose end points are on the canvas never leaves it |
| LcdRaster.Canvas.DrawLine | ALPR_SYSTEM/src/HPS_LCD/lcd_graphic.c:72-158 | All branches paint exactly the pixels (major/2 + k*minor) div major prescribes and preserve every other bit |
| LcdRaster.OctantIsNearest | ALPR_SYSTEM/src/HPS_LCD/lcd_graphic.c:167-191 | The x plotted on row y is the integer nearest to the square root of R*R - y*y |
| LcdRaster.OctantUnique | ALPR_SYSTEM/src/HPS_LCD/lcd_graphic.c:167-191 | There is at most one point on a row of the octant |
| LcdRaster.CircleStep | ALPR_SYSTEM/src/HPS_LCD/lcd_graphic.c:182-189 | The accumulator keeps its closed form and the loop steps to the point of the next row |
| LcdRaster.CircleComplete | ALPR_SYSTEM/src/HPS_LCD/lcd_graphic.c:171-190 | The loop stops at the first row without a point, and no later row has one |
| LcdRaster.CircleFits | ALPR_SYSTEM/src/HPS_LCD/lcd_graphic.c:167-191 | The circle stays on the canvas if and only if its centre is at least the radius from every edge |
| LcdRaster.Canvas.DrawCircle | ALPR_SYSTEM/src/HPS_LCD/lcd_graphic.c:167-191 | Terminates and paints exactly the eight reflections of the octant, also for radius zero and negative radii, and preserves every other bit |
| DescendingSort.PartitionSeparates | ALPR_SYSTEM/src/preprocess_api/nanodet_ncnn.cpp:51-67 | Partitioning permutes the part and separates it at the pivot |
| DescendingSort.SectionsAreSmaller | ALPR_SYSTEM/src/preprocess_api/nanodet_ncnn.cpp:51-78 | Both recursive sections are strictly smaller, so the sort terminates |
| DescendingSort.SortSorts | ALPR_SYSTEM/src/preprocess_api/nanodet_ncnn.cpp:45-80 | The sort leaves a permutation of its part in non-increasing order |
| DescendingSort.SortReadsPart | ALPR_SYSTEM/src/preprocess_api/nanodet_ncnn.cpp:45-80 | What a section does depends on nothing outside it |
| DescendingSort.SectionsCommute | ALPR_SYSTEM/src/preprocess_api/nanodet_ncnn.cpp:69-79 | The two parallel sections give the same result in either order |
| DescendingSort.ExchangeInPlace | ALPR_SYSTEM/src/preprocess_api/nanodet_ncnn.cpp:53-66 | The two scans and the swap, in place, are one step of the partition |
| DescendingSort.PartitionInPlace | ALPR_SYSTEM/src/preprocess_api/nanodet_ncnn.cpp:47-67 | The nested scanning loops stay inside the part and compute the partition |
| DescendingSort.SortInPlace | ALPR_SYSTEM/src/preprocess_api/nanodet_ncnn.cpp:45-80 | Sorts its part in place, in whichever order the sections go |
| DescendingSort.SortAll | ALPR_SYSTEM/src/preprocess_api/nanodet_ncnn.cpp:82-88 | The whole vector, empty or not, is permuted into non-increasing order |
| Rectangles.PositiveIffShared | ALPR_SYSTEM/src/preprocess_api/nanodet_ncnn.cpp:38-42 | The area of the intersection is positive if and only if the rectangles share a point inside both |
| Rectangles.AreaOfIntersection | ALPR_SYSTEM/src/preprocess_api/nanodet_ncnn.cpp:38-42 | The area is that of the rectangle whose points are exactly the shared ones, and zero if there are none |
| Suppression.PickIsKernel | ALPR_SYSTEM/src/preprocess_api/nanodet_ncnn.cpp:102-124 | Picked indices ascend, no two picks conflict, and everything dropped conflicts with an earlier pick |
| Suppression.KernelIsUnique | ALPR_SYSTEM/src/preprocess_api/nanodet_ncnn.cpp:102-124 | There is exactly one such set of picks |
| Suppression.PicksArePrefix | ALPR_SYSTEM/src/preprocess_api/nanodet_ncnn.cpp:102-124 | Picking among the first m is a prefix of picking among the first n |
| Suppression.SuppressingAPrefix | ALPR_SYSTEM/src/preprocess_api/nanodet_ncnn.cpp:90-125 | Suppression of a prefix of the detections is a prefix of the suppression |
| Suppression.NoPicksConflict | ALPR_SYSTEM/src/preprocess_api/nanodet_ncnn.cpp:102-124 | No two picks conflict, whichever comes first |
| Suppression.ConflictIsQuotient | ALPR_SYSTEM/src/preprocess_api/nanodet_ncnn.cpp:114-119 | For boxes with non-negative sides the test is that the detections compete, the union is not empty and the quotient of intersection and union exceeds the threshold |
| Suppression.NmsSortedBoxes | ALPR_SYSTEM/src/preprocess_api/nanodet_ncnn.cpp:90-125 | The nested loops compute the unique kernel |
| Suppression.Detect | ALPR_SYSTEM/src/preprocess_api/nanodet_ncnn.cpp:303-308 | After the sort, no two picks have equal labels and an intersection above the threshold's share of the union, and every dropped proposal has such an overlap with a surviving earlier one of equal label whose score is at least as high |
| RowSegments.SegmentsAreRuns | ALPR_SYSTEM/src/preprocess_api/ImageSegmenter.cpp:162-259 | Segments are inside the rows, ascend without touching, have minLength rows except a final flush one row short, and their rows are in the band except possibly the first and the one at offset minLength |
| LongRuns.LongRunEmerges | ALPR_SYSTEM/src/preprocess_api/ImageSegmenter.cpp:200-249 | For all limits, an open run of at least minLength rows becomes a segment that lacks at most the last of its rows so far |
| LongRuns.LongStretchesAreFound | ALPR_SYSTEM/src/preprocess_api/ImageSegmenter.cpp:190-249 | When the limits are tolerant, every stretch of at least minLength rows in the band is within the rows first to last - 1 of one segment, except perhaps for its last row |
| LongRuns.WholeIffLastRowIsKept | ALPR_SYSTEM/src/preprocess_api/ImageSegmenter.cpp:221-249 | The last row is in the segment too if and only if another row follows that is not above the band, or that is above it and comes exactly minLength rows after the start of the run |
| LongRuns.ShortCallCutsRun | ALPR_SYSTEM/src/preprocess_api/ImageSegmenter.cpp:394-397 | With the limits that the only call derives, eight rows, for which a segment needs one row, have a stretch of six cut although the tolerance spans the band |
| LongRuns.TightToleranceLosesRuns | ALPR_SYSTEM/src/preprocess_api/ImageSegmenter.cpp:202-208 | With a minLength of two or more and any smaller tolerance, for every number of rows from minLength up, there are rows whose long stretch is lost altogether |
| LongRuns.TightToleranceCutsRuns | ALPR_SYSTEM/src/preprocess_api/ImageSegmenter.cpp:202-208 | With a minLength of at most one row and any smaller tolerance, three or more rows can have a stretch cut in the middle |
| LongRuns.MissingMeanCutsRuns | ALPR_SYSTEM/src/preprocess_api/ImageSegmenter.cpp:193-208 | With a minLength of one row, a run opened below the band can be compared with a mean of zero, which cuts a stretch |
| LongRuns.CompleteIffTolerant | ALPR_SYSTEM/src/preprocess_api/ImageSegmenter.cpp:190-249 | For all limits and every number of rows, no long stretch ever loses more than its last row if and only if the limits are tolerant: the tolerance spans the band and, with a minLength of one row and at least four rows, the band's distance from zero, or there are too few rows for a stretch to be cut |
| LongRuns.CallLosesRun | ALPR_SYSTEM/src/preprocess_api/ImageSegmenter.cpp:394-397 | With the limits that the only call derives from the mean density, fourteen rows lose both rows of a stretch |
| RowSegments.FindConsistentSegments | ALPR_SYSTEM/src/preprocess_api/ImageSegmenter.cpp:162-259 | Clamping and scanning compute the segments those statements are about |
| RowSegments.FindWithin | ALPR_SYSTEM/src/preprocess_api/ImageSegmenter.cpp:184-249 | The five variables of the scanning loop follow the specification row by row |
| RunningMean.MeanIsMeanOfRows | ALPR_SYSTEM/src/preprocess_api/ImageSegmenter.cpp:193-220 | While the rows of the open run are in the band, a row is compared with their sum over their number; a first row below the band is counted as its successor |
| RunningMean.NextRowEndsRunIffItDeviates | ALPR_SYSTEM/src/preprocess_api/ImageSegmenter.cpp:200-214 | For all limits, the next row in the band ends the run if and only if it deviates from that mean by more than delta, and then emits a segment exactly if the run is long enough |
| RunningMean.RowOutsideEndsLongRun | ALPR_SYSTEM/src/preprocess_api/ImageSegmenter.cpp:221-231 | A row outside the band ends a run that is long enough, with the row before it if the row is above the band and that leaves it long enough |
| RunningMean.RowOutsideForgetsShortRun | ALPR_SYSTEM/src/preprocess_api/ImageSegmenter.cpp:193-243 | A row below the band begins a run unless a long one is open or it is the last row; a row above leaves none open |
| RunningMean.RowInsideOpensRun | ALPR_SYSTEM/src/preprocess_api/ImageSegmenter.cpp:215-219 | A row in the band begins a run if none is open |
| RunningMean.LastRunIsFlushed | ALPR_SYSTEM/src/preprocess_api/ImageSegmenter.cpp:247-249 | The run open at the end is a segment if it is long enough |
| StripFormat.BreakpointsPartition | ALPR_SYSTEM/src/fpga_access_api/fpga_ocr_bridge.cpp:146-154 | For images that all have columns, breakpoints strictly ascend, cut the columns into the images and end at total - 1 |
| StripFormat.PackRoundTrip | ALPR_SYSTEM/src/fpga_access_api/fpga_ocr_bridge.cpp:246-270 | Packing 16-bit values eight to a word loses nothing |
| StripFormat.ColumnsRoundTrip | ALPR_SYSTEM/src/fpga_access_api/fpga_ocr_bridge.cpp:285-296 | Signed bytes sent bottom first give back the pixel columns |
| StripFormat.UploadRoundTrip | ALPR_SYSTEM/src/fpga_access_api/fpga_ocr_bridge.cpp:91-101 | Count and width can be read back from the command word, whose type is 2 and whose reserved bits are zero |
| StripFormat.CutFindsImages | ALPR_SYSTEM/src/fpga_access_api/fpga_ocr_bridge.cpp:141-169 | Cutting the columns at the breakpoints gives back the images they came from |
| StripFormat.StripRoundTrip | ALPR_SYSTEM/src/fpga_access_api/fpga_ocr_bridge.cpp:135-190 | For every batch whose command is sent, a reference decoder, which accepts no other command type, recovers exactly the images if there are at most 255, the first has a column and the total width is at most 65535, and otherwise makes nothing of the words |
| StripFormat.PointOnWire | ALPR_SYSTEM/src/fpga_access_api/fpga_ocr_bridge.cpp:254-267 | Breakpoint 8q + r is in bytes 2r and 2r + 1 of word q, the low byte first |
| StripFormat.PixelOnWire | ALPR_SYSTEM/src/fpga_access_api/fpga_ocr_bridge.cpp:285-296 | Pixel y of column c, less 128 and as a byte, is byte 15 - y of the word c behind the breakpoints |
| StripFormat.PixelInStrip | ALPR_SYSTEM/src/fpga_access_api/fpga_ocr_bridge.cpp:157-169 | Column x of image k comes behind the columns of the images before it |
| StripFormat.LargeBatchIsLost | ALPR_SYSTEM/src/fpga_access_api/fpga_ocr_bridge.cpp:173-177 | Every batch of more than 255 images that is not too wide is sent, with the count cut to eight bits, and lost |
| StripFormat.TooManyAreLost | ALPR_SYSTEM/src/fpga_access_api/fpga_ocr_bridge.cpp:173-177 | There are such batches of every size from 256 up |
| StripSender.Bridge.SendImageStrip | ALPR_SYSTEM/src/fpga_access_api/fpga_ocr_bridge.cpp:135-190 | Malformed batches and those whose width, as 32 bits, exceeds 65535 send nothing; otherwise the command word, given in numbers, then the words of the encoding are sent, up to the first port that is not ready |
| StripSender.Bridge.SendUint16Array | ALPR_SYSTEM/src/fpga_access_api/fpga_ocr_bridge.cpp:246-270 | Appends exactly the packed words, or nothing |
| StripSender.Bridge.SendImageColumnsFlat | ALPR_SYSTEM/src/fpga_access_api/fpga_ocr_bridge.cpp:272-303 | Appends exactly the column words of the flat strip, or nothing |
| StripSender.Bridge.CmdUpload | ALPR_SYSTEM/src/fpga_access_api/fpga_ocr_bridge.cpp:91-101 | Sends, exactly when the width fits 16 bits, the word 0x20000000 plus the width from bit 12 and the count from bit 4 on |
| StripSender.Measure | ALPR_SYSTEM/src/fpga_access_api/fpga_ocr_bridge.cpp:146-154 | Accepts exactly well-formed batches, with their total width and breakpoints |
| StripSender.FlatStrip | ALPR_SYSTEM/src/fpga_access_api/fpga_ocr_bridge.cpp:157-169 | The nested loops fill the flat strip column by column |
| StripSender.PackShorts | ALPR_SYSTEM/src/fpga_access_api/fpga_ocr_bridge.cpp:254-267 | The nested loops pack all values, also a last partial word |
| StringFormat.ChunkRoundTrip | fpga_soc_top/PIO_API/V2/fpga_pio_api.hpp:98-134 | Sixteen-byte words hold all the bytes and fewer than sixteen zeros more |
| StringFormat.PiecesOfJoined | ALPR_SYSTEM/src/fpga_access_api/fpga_ocr_bridge.cpp:345-363 | Splitting at NULs distributes over joining with a NUL |
| StringFormat.FeedIsPieces | ALPR_SYSTEM/src/fpga_access_api/fpga_ocr_bridge.cpp:345-363 | The byte-by-byte scanner splits at NULs, whatever the bytes are |
| StringFormat.StringsRoundTrip | ALPR_SYSTEM/src/fpga_access_api/fpga_ocr_bridge.cpp:345-363 | For every list, wherever word boundaries fall, both parsers return the non-empty stretches between NULs of every string in order |
| StringFormat.NonemptyComeBackIffNulFree | fpga_soc_top/PIO_API/V2/pio_interface.hpp:32-40 | The non-empty strings come back if and only if no string holds a NUL |
| StringFormat.ListComesBackIffClean | fpga_soc_top/PIO_API/V2/pio_interface.hpp:32-40 | The list itself comes back if and only if all its strings are non-empty and without NUL |
| StringFormat.ParsersDifferByTail | fpga_soc_top/PIO_API/V3/ocr_bridge.hpp:52-61 | For all words the second parser returns the first one's list plus only what follows the last NUL, if anything |
| StringFormat.ReceivedIsPrefix | ALPR_SYSTEM/src/fpga_access_api/fpga_ocr_bridge.cpp:326-366 | The receiver always returns a prefix of the strings sent, and all of them within the 255-word limit of the header |
| StringPort.OutPort.Write | fpga_soc_top/PIO_API/V2/fpga_pio_api.hpp:114-131 | The loop pushes the padded words of the buffer |
| StringPort.OutPort.SendStrings | fpga_soc_top/PIO_API/V2/pio_interface.hpp:32-40 | Pushes the words of the printed list |
| StringPort.InPort.Read | fpga_soc_top/PIO_API/V2/fpga_pio_api.hpp:146-163 | Fills the buffer with the bytes of just as many words as it needs |
| StringPort.InPort.ReceiveResultStrings | ALPR_SYSTEM/src/fpga_access_api/fpga_ocr_bridge.cpp:326-366 | Every return path: which words were taken and which strings come back |
| StringPort.InPort.ReadStringResults | fpga_soc_top/PIO_API/V3/ocr_bridge.hpp:38-64 | The same for the second reader |
| StringPort.SplitWords | ALPR_SYSTEM/src/fpga_access_api/fpga_ocr_bridge.cpp:345-363 | The nested loops over words and bytes compute the parse |

## Left out

- SweepsFindTheClippedEnds: a bit's passing positions are one window and the memory test
  is deterministic; noisy tests and windows with holes are not modelled for DQ bits.
- FindMaskWindow: the mask test is deterministic, so position 0 gives the same answer in
  both halves of the search.
- Both variants of the stop rule of the read sweep, with and without the read test, come
  to the same stop when no bit passes; the model has that one rule. Bit masks are sets.
- Figures of merit, reporting, margining, the DM search of the other protocols, DQS-enable
  delays that move with DQS (off in this configuration), and gradual DQS moves.
- All of the sequencer outside the named searches: earlier steps of the DQS-enable search,
  write levelling, mode registers, protocols compiled out.
- RecoveryIsBounded: for limits of at least zero; the configuration can set a negative
  limit, with which OFFLINE is tolerated for ever, as `Stuck` says.
- MainLoop: a stop request comes only while the bridge exists, because `handleHalt` uses
  it unconditionally; restart and stop requests are served between iterations.
- HandleInit: configuration, camera, detector and bridge setup are reduced to the outcome
  and the state they leave.
- The body of `handleMargeBanks` and of RESEND_IMAGE, which are proved unreachable.
- Image contents in the controller's state; images are numbered in order of segmentation,
  and only `ControllerDelivery` gives them pixels.
- 32-bit overflow of `same_state_count_` and of container sizes.
- Threads, mutexes, sleeps, wall-clock time, sockets, signals, logging, configuration
  files, status and frame-rate reports.
- DRAW_Rect, DRAW_Clear, fonts and the LCD controller driver; canvases whose height is
  not a multiple of eight. DrawCircle paints the eight reflections of a point in
  another order, which no picture shows.
- Floating-point rounding, NaN and infinities: scores, areas and densities are reals, and
  the overlap test is a product, which for an empty union says what a comparison with NaN
  says, that there is no overlap.
- SortAll: which of several detections with equal scores comes first is not stated.
- SortInPlace: the parallel sections run one after the other, in either order; interleaved
  execution follows from their touching disjoint ranges but is not modelled.
- Detection and segmentation by OpenCV and ncnn; their output is arbitrary.
- SendImageStrip: burst writes either take all words or none; a port that becomes unready
  within a burst is not modelled. Device mapping, timeouts and barriers are one flag.
- ReceiveResultStrings: a read takes the next word of an unbounded supply; what an empty
  FIFO returns is not modelled further.
- The other commands' payloads, the status register's layout, and the duplicate copies of
  these files elsewhere in the repository.
