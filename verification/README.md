# Verified models of the driver-assistance state machines, codecs and map feeds

This Dafny project models the parts of the repository whose behaviour only shows over whole runs, and proves
what they keep. Each class has the fields of the source's object and is proved against a specification on
values; the lemmas are about that specification and about every run of it.

- **Driver monitoring** (`Filters`, `DriverMonitoring`, `Escalation`, `DriverRuns`). The source keeps one live awareness and
  two parked ones and exchanges them when the policy flips. The specification has one account per policy and no
  exchanging at all, and the object is proved to implement it, so conservation is the refinement itself. On top
  of that: the worst case of exactly 225 steps to red, which alert is shown at which step of typical drives, how
  terminal alerts are counted, the lockout latch, and where escalation stops.
- **Engagement** (`EventTable`, `Engagement`, `Selfdrived`, `Lockout`, `LateMessages`). The five-state machine, the
  table of event types, the frame of selfdrived around it, and its composition with driver monitoring as two
  processes that read each other's messages late, with the greatest number of terminal alerts that allows.
- **Panda** (`CanWire`, `PandaCan`, `SpiBulk`). The bit-packed CAN frame format, the streaming decoder with its
  carried tail, and chunked SPI transfers. Data length codes follow clause 10.4.2 of ISO 11898-1:2015.
- **OSM tiles** (`OsmServer`, `OsmSync`, `OsmCoherence`). Signed manifests, the device's cache, and both of them
  interleaved with tile updates, lost replies and damaged downloads.
- **NDW signs** (`NdwMatch`, `NdwRefinement`, `NdwReach`, `NdwGantries`, `NdwRegion`). The grid index and the region
  snapshot against a scan of all signs, the poses at which they hold every sign that could match, and exactly when
  the order of the signs does not matter.
- **Numeric loops** (`FftSize`, `RunningStats`, `RayCasting`, `RingBuffers`, `CruiseSpeed`, `CruisePresses`).
- **Bookkeeping** (`Replication`, `ReplicationText`, `ParamsWriter`). The replication-state printer and parser, and the
  non-blocking parameter writer with its crash points.

`Wrappers`, `Reals` and `Sequences` hold what several modules share. Arithmetic is over exact `int` and `real`.
Trigonometric values, hashes, signatures and the tile decoder are parameters.

## Where the code differs from what it says

- `OsmTileClient.sync` promises that True means "up to date afterwards". The ETag is recorded even when a tile
  fetch failed, so the next sync gets a 304 and returns True over a cache that still lacks the tile
  (`OsmCoherence.LostTileStaysLost`), and so on until a tile of that group changes on the gateway
  (`OsmCoherence.OnlyUpdatesRepair`). On every run a True, with a body or by a 304, means that the cached hashes
  are those of the current manifest if and only if no fetch of the group's last verified sync failed
  (`OsmCoherence.SuccessMeansCurrentOnRuns`); `OsmSync.SyncOfGroup` is the single sync with a body.
  Only the signature of a manifest is verified: one of another group is accepted and empties the group asked for
  (`OsmSync.ForeignManifestEmpties`). `OsmSync.SyncExactly` says what any verified manifest does.
- `_Snapshot.covers` promises every sign that could match. The acceptance box is turned with the heading, and
  its corner can be up to 16 cm farther along an axis than the radius. At any pose the bounds hold every sign that
  would be accepted if and only if the turned box fits into them (`NdwRegion.BoundsHoldExactly`), and the grid
  visits the cells of all of them if and only if it visits those at the ends of the turned box
  (`NdwReach.GridHoldsExactly`). So `covers` is enough for a heading whose turned box does not reach beyond the
  radius (`NdwReach.HeadingDecides`, `NdwRegion.CoveredMeansComplete`). For the others every tile of the gateway has
  a covered pose that misses a sign (`NdwRegion.TilesLeaveSignsOut`).
- `parse_state` and `format_state` round-trip exactly for timestamps without line breaks and outer whitespace
  (`Replication.RoundTripExactly`), not for all.
- `_set_policy` below orange under the vision policy sets the step to zero, so a driver who hides the face at
  orange is shown orange for as long as the face stays hidden and never reaches red (`Escalation.OutOfSight`).
  A driver gets there by looking away for 105 steps from start-up (`Escalation.HidingAtOrange`).
- A soft disable is not looked at in preEnabled (`Engagement.PreEnabledIgnoresSoftDisable`); the countdown starts
  only once PRE_ENABLE is gone (`Engagement.PreEnabledCountdown`).
- Parameters pushed while the worker is exiting stay queued until the next push
  (`ParamsWriter.QueueNeedNotDrain`). The destructor's assertion that the queue is empty holds if and only if the
  last push did not find the worker on its way out with a write queued (`ParamsWriter.QueueDrainsExactly`).
- A set speed of 0 can come back when the cruise helper is initialized twice without an update in between; the
  order of calls in the car process rules it out (`CruiseSpeed.RangeNeedsTheFrameOrder`). An initialization leaves
  the range if and only if it resumes a speed that was outside it (`CruiseSpeed.InitializeKeepsRangeExactly`).
- In `unpack_can_buffer`, `size - sizeof(can_header)` wraps when fewer than six bytes are there. The loop is then
  entered and left at once by the length check; the model's guard has the same effect.

## Model

| member | source | states |
|---|---|---|
| Filters.SettleIsGeometric | common/filter_simple.py:11-17 | n updates against a constant input leave exactly (1 - alpha)^n of the initial error |
| Filters.FirstOrderFilter.constructor | common/filter_simple.py:2-9 | the filter starts at x0 with alpha = dt / (rc + dt) |
| Filters.FirstOrderFilter.Update | common/filter_simple.py:11-17 | mixes the sample in, or takes it over when not yet initialized, and is initialized from then on |
| DriverMonitoring.DriverMonitoring.constructor | selfdrive/monitoring/policy.py:124-159 | a new object shows two full accounts, the vision policy and no alert, and the stored lockout |
| DriverMonitoring.DriverMonitoring.ResetAwareness | selfdrive/monitoring/policy.py:161-164 | both accounts become full, policy, thresholds, gaze and counts stay |
| DriverMonitoring.DriverMonitoring.SetPolicy | selfdrive/monitoring/policy.py:166-194 | exchanging live and parked values implements the account machine in which a flip moves no awareness: neither account changes |
| DriverMonitoring.DriverMonitoring.ObserveFrame | selfdrive/monitoring/policy.py:253-291 | face, certainty, distraction, the filter and the uncertainty fallback follow the frame |
| DriverMonitoring.DriverMonitoring.UpdateStates | selfdrive/monitoring/policy.py:232-296 | implements the account machine's observation: an incomplete frame changes nothing, otherwise gaze, then policy, then the uncertainty count |
| DriverMonitoring.DriverMonitoring.RecoverAwareness | selfdrive/monitoring/policy.py:325-329 | the live account recovers, and a full vision account repays one step to the parked wheel account |
| DriverMonitoring.DriverMonitoring.DrainAwareness | selfdrive/monitoring/policy.py:340-341 | takes one step from the live account only, down to -0.1 |
| DriverMonitoring.DriverMonitoring.RaiseAlert | selfdrive/monitoring/policy.py:343-352 | the alert level is the one of the live account, and red is counted once per crossing and per step |
| DriverMonitoring.DriverMonitoring.Escalate | selfdrive/monitoring/policy.py:314-352 | implements recovery, exemptions, draining and alerting of the account machine |
| DriverMonitoring.DriverMonitoring.UpdateEvents | selfdrive/monitoring/policy.py:298-352 | implements the account machine's events step, with the lockout latched before anything else |
| DriverMonitoring.DriverMonitoring.RunStep | selfdrive/monitoring/policy.py:393-435 | a call of run_step implements the account machine under the setting in force |
| DriverMonitoring.DriverMonitoring.ReloadAndRunStep | selfdrive/monitoring/dmonitoringd.py:26-38 | loading the always-on setting and running a step is one step of the account machine |
| Escalation.InitialIsValid | selfdrive/monitoring/policy.py:124-159 | the invariant holds at start-up: accounts in [-0.1, 1], parked vision above 6/11, parked wheel above 0, filter in [0, 1] |
| Escalation.FlipIsHarmless | selfdrive/monitoring/policy.py:166-194 | no flip raises a terminal alert or takes one back, and the invariant is kept |
| Escalation.FlipUndoesItself | selfdrive/monitoring/policy.py:166-194 | short of orange (vision) or red (wheel), flipping there and back is the identity |
| Escalation.StepFacts | selfdrive/monitoring/policy.py:298-352 | awareness reaches 0 only on an engaged step, stays there until a disengaged one, red is shown exactly then, and each crossing and each red step is counted |
| Escalation.RunKeepsValid | selfdrive/monitoring/policy.py:232-352 | the invariant holds after every run |
| Escalation.RedMeansExhausted | selfdrive/monitoring/policy.py:343-352 | after any run, red is shown exactly when the live account is used up |
| Escalation.RedHoldsUntilDisengaged | selfdrive/monitoring/policy.py:302-348 | red persists through every engaged step and one disengaged step clears it to full awareness |
| Escalation.OneAlertPerEngagement | selfdrive/monitoring/policy.py:343-348 | over any run the terminal alert count grows by at most the number of engagements |
| Escalation.TerminalTimeCountsRed | selfdrive/monitoring/policy.py:343-346 | the terminal time is exactly the number of steps that showed red |
| Escalation.LockoutIsLatched | selfdrive/monitoring/policy.py:302-304 | the lockout is set exactly when it was before or the run reached 3 terminal alerts or 600 red steps, one step late, and is never cleared |
| Escalation.UnrelievedStepDrains | selfdrive/monitoring/policy.py:320-341 | without relief a step draws on the live account alone, by at most one decrement |
| Escalation.AccountsOnlyShrink | selfdrive/monitoring/policy.py:166-352 | without relief neither account grows under any pattern of flips, and together they lose at most 1/220 a step |
| Escalation.GlaringFilter | common/filter_simple.py:11-17 | n distracted frames leave (5/6)^n of the filter's distance to 1 |
| Escalation.GlaringCountdown | selfdrive/monitoring/policy.py:334-341 | once the filter is primed, a vision account of at most n steps is used up after n steps |
| Escalation.RedWithin225Steps | selfdrive/monitoring/policy.py:270-352 | from every state of the invariant, 225 steps of a visibly distracted engaged driver show red |
| Escalation.RedAtStep225 | selfdrive/monitoring/policy.py:270-352 | from start-up red is shown exactly from step 225 on |
| Escalation.BlankStep | selfdrive/monitoring/policy.py:166-194 | with no face in sight the wheel account drains, except from orange under vision, where nothing moves |
| Escalation.OrangeFreezes | selfdrive/monitoring/policy.py:167-172 | from orange under vision, orange is shown and the account unchanged for as long as the face stays hidden |
| Escalation.OutOfSight | selfdrive/monitoring/policy.py:166-352 | after 600 steps out of sight red is shown if and only if the run did not begin at vision orange |
| Escalation.OrangeIsReached | selfdrive/monitoring/policy.py:270-352 | 105 distracted steps from start-up leave the vision account at exactly 6/11, which is orange |
| Escalation.HidingAtOrange | selfdrive/monitoring/policy.py:166-352 | hiding the face from then on shows orange on every step, however long the run |
| Escalation.FirstAttendingStep | selfdrive/monitoring/policy.py:291-341 | the only attentive step that ends red comes from the uncertainty limit, short of orange, with one step left in the wheel account, a high filter, hands off and moving |
| Escalation.CertainAttentionRestores | selfdrive/monitoring/policy.py:320-332 | short of red and below the uncertainty limit, 182 attentive steps bring the vision account back to full |
| Escalation.AttentionRestores | selfdrive/monitoring/policy.py:291-332 | short of red, at the uncertainty limit too, 183 attentive steps bring the vision account back to full, unless the first came too late; then red is shown |
| Escalation.StandstillSpares | selfdrive/monitoring/policy.py:315-341 | short of red, no run at standstill takes an account below its first threshold or where it was; from green no alert is shown |
| DriverRuns.GlaringAlerts | selfdrive/monitoring/policy.py:270-352 | looking away from start-up on shows nothing for 64 steps, level one from 65, two from 105, three from 225 |
| DriverRuns.BlankAlerts | selfdrive/monitoring/policy.py:176-352 | out of sight from start-up on, hands off: nothing for 299 steps, level one from 300, two from 480, three from 600 |
| DriverRuns.MurkyAlerts | selfdrive/monitoring/policy.py:291-352 | a face that stays uncertain from start-up on: believed for 200 steps, then level one at 500, two at 680, three at 800 |
| DriverRuns.WatchedSettles | selfdrive/monitoring/policy.py:306-352 | disengaged under always-on monitoring, a driver who looks away is taken down to within one step of red, left there, and shown level two but never three |
| DriverRuns.WatchedRun | selfdrive/monitoring/policy.py:316-352 | on the way there the account loses exactly a step a step, and the level follows it |
| DriverRuns.GlaringExactStep | selfdrive/monitoring/policy.py:320-341 | one distracted step at any filter: recovery below 0.37, nothing up to 0.63, a step off the vision account above |
| DriverRuns.AttendingExactly | selfdrive/monitoring/policy.py:320-352 | one attentive step at any filter: nothing while it is high, then recovery, the wheel account too once vision is full, and no level one while recovering |
| DriverRuns.RecoveryIsGeometric | selfdrive/monitoring/policy.py:325-327 | looking at the road closes the gap to 4/3 by the factor 173/176 a step, until the account is full |
| DriverRuns.WheelIsRepaid | selfdrive/monitoring/policy.py:328-329 | with vision full the wheel account gets a vision step back every step, up to full |
| DriverRuns.GivesAllBack | selfdrive/monitoring/policy.py:307-324 | a touch while attentive, a touch while the wheel budget runs, and disengaging without always-on monitoring or from red give everything back |
| DriverRuns.WaitingIsHeld | selfdrive/monitoring/policy.py:315-341 | at standstill a distracted driver ends just above the first threshold, from either side, and is shown nothing |
| EventTable.SoftDisableBlocksEntry | selfdrive/selfdrived/events.py:393-1030 | every event that carries a soft disable also blocks entry |
| EventTable.EventsThatEngage | selfdrive/selfdrived/events.py:393-1030 | read by type: which events carry ENABLE, PRE_ENABLE and the overrides |
| EventTable.EventsThatDisengage | selfdrive/selfdrived/events.py:393-1030 | which carry a user, immediate or soft disable |
| EventTable.EventsThatBlockEntry | selfdrive/selfdrived/events.py:393-1030 | which carry NO_ENTRY |
| EventTable.EventsThatShow | selfdrive/selfdrived/events.py:393-1030 | which carry WARNING and PERMANENT |
| Engagement.Events.constructor | selfdrive/selfdrived/events.py:54-57 | an event list starts empty |
| Engagement.Events.Add | selfdrive/selfdrived/events.py:66-69 | adds one event, to the static ones too when asked |
| Engagement.Events.Clear | selfdrive/selfdrived/events.py:71-73 | only the static events outlive a frame |
| Engagement.Events.Contains | selfdrive/selfdrived/events.py:75-76 | true exactly when some listed event carries the type |
| Engagement.StateMachine.constructor | selfdrive/selfdrived/state.py:12-15 | starts disabled with an idle timer |
| Engagement.StateMachine.Update | selfdrive/selfdrived/state.py:17-97 | implements the five-state machine on event types; each alert type is shown exactly on the transition it belongs to |
| Engagement.StateMachine.UpdateEngaged | selfdrive/selfdrived/state.py:25-75 | the branch outside disabled: the machine's next state, and which alert types it shows and which it does not |
| Engagement.StateMachine.UpdateDisabled | selfdrive/selfdrived/state.py:78-90 | the branch from disabled: engages exactly when asked to and not blocked, and shows which |
| Engagement.EngagementHistory | selfdrive/selfdrived/state.py:17-97 | not disabled implies an admitted ENABLE with no disable since; without soft disables the converse holds too |
| Engagement.SoftDisableEnds | selfdrive/selfdrived/state.py:36-57 | a soft disable with NO_ENTRY that stays for 301 updates from outside preEnabled ends in disabled |
| Engagement.SoftDisableEventsEnd | selfdrive/selfdrived/state.py:36-57 | the same for event lists, NO_ENTRY coming from the table |
| Engagement.SoftDisableGrace | selfdrive/selfdrived/state.py:36-57 | for the first 300 of those updates the state is softDisabling: the countdown is exact |
| Engagement.PreEnabledIgnoresSoftDisable | selfdrive/selfdrived/state.py:59-64 | preEnabled is kept however long a soft disable stays |
| Engagement.PreEnabledCountdown | selfdrive/selfdrived/state.py:36-64 | from preEnabled, with a soft disable throughout and no other reason to leave, the run ends disabled if and only if at least 302 updates remain from one without PRE_ENABLE on |
| Engagement.StatesReached | selfdrive/selfdrived/state.py:17-97 | for each state exactly the updates that lead to it, and what becomes of the timer |
| Engagement.OverridingFollowsTheDriver | selfdrive/selfdrived/state.py:37-75 | without a disable of any kind the state is overriding exactly after the updates that carry an override |
| Engagement.SoftDisableRecovers | selfdrive/selfdrived/state.py:36-57 | a soft disable that ends within 300 updates gives control back |
| Selfdrived.SelfdriveD.constructor | selfdrive/selfdrived/selfdrived.py:111-145 | starts disabled; an unrecognized or passive car leaves a static event |
| Selfdrived.SelfdriveD.DataSample | selfdrive/selfdrived/selfdrived.py:432-477 | initialization latches, and the mismatch count restarts while disabled and counts refused enabled frames |
| Selfdrived.SelfdriveD.UpdateEvents | selfdrive/selfdrived/selfdrived.py:147-312 | the frame's event list: static events, early ones, the initialization and passive cut-offs, the driver-monitoring lockout, the rest, and panda's |
| Selfdrived.SelfdriveD.Step | selfdrive/selfdrived/selfdrived.py:522-526 | one frame of the object is one step of the value machine |
| Selfdrived.StepKeepsValid | selfdrive/selfdrived/selfdrived.py:432-526 | enabled agrees with the state machine, and an enabled step leaves the mismatch count below 200 |
| Selfdrived.RefusalEndsEngagement | selfdrive/selfdrived/selfdrived.py:465-475 | in one engagement panda can refuse on at most 200 frames, and the 200th disables |
| Selfdrived.LockoutBlocksEntry | selfdrive/selfdrived/selfdrived.py:189-197 | a disabled frame that sees the lockout stays disabled, whatever else happens |
| Selfdrived.MismatchesCount | selfdrive/selfdrived/selfdrived.py:465-475 | an enabled frame counts one mismatch exactly when some panda that is not silent does not allow controls; a disabled one restarts the count |
| Selfdrived.WillingPandasCountNothing | selfdrive/selfdrived/selfdrived.py:465-475 | an engagement whose pandas all allow controls or are silent leaves the count as it was |
| Selfdrived.MismatchesAreRefusals | selfdrive/selfdrived/selfdrived.py:465-475 | what an engagement has counted is exactly its frames with a refusal |
| Selfdrived.PandaEventsSay | selfdrive/selfdrived/selfdrived.py:298-312 | controlsMismatch and relayMalfunction are raised exactly for the reports, and the count, that call for them |
| Selfdrived.EngagesExactly | selfdrive/selfdrived/selfdrived.py:168-312 | a disengaged frame engages if and only if it is initialized and not passive, asked to, and blocked neither by an event nor by either driver-monitoring lockout nor by a panda |
| Selfdrived.DisengagesExactly | selfdrive/selfdrived/selfdrived.py:298-312 | an engaged frame disengages if and only if an event, a panda, the two-hundredth refusal or the end of a soft disable says so |
| Selfdrived.OnlooksUntilReady | selfdrive/selfdrived/selfdrived.py:522-526 | before initialization and on a passive car nothing changes but the initialization |
| Selfdrived.ActiveExactly | selfdrive/selfdrived/state.py:92-94 | active is enabled but for preEnabled |
| Selfdrived.CollectedCutOff | selfdrive/selfdrived/selfdrived.py:147-182 | which events are looked at before initialization and on a passive car |
| Selfdrived.StartsIdle | selfdrive/selfdrived/selfdrived.py:111-145 | a new selfdrived is idle, with the static event its car calls for |
| Lockout.PublishedSays | selfdrive/monitoring/policy.py:354-363 | the packet carries the latched lockout, and with always-on set whether the account in use is at or below 6/11 (vision) or 1/5 (wheel) |
| Lockout.ActKeepsWellFormed | selfdrive/selfdrived/selfdrived.py:189-197 | every interleaved action keeps the composed invariant, the published lockout and the shut state |
| Lockout.LockedOutForever | selfdrive/selfdrived/selfdrived.py:189-197 | once selfdrived is disabled and holds no stale sample, a published lockout keeps it disabled on every run |
| Lockout.TerminalAlertsAreBounded | selfdrive/monitoring/policy.py:302-348 | in every interleaving of samples and steps there is at most one terminal alert beyond the limit of three |
| Lockout.AtMostFourTerminalAlerts | selfdrive/monitoring/policy.py:302-348 | from start-up, in every interleaving, at most four terminal alerts |
| LateMessages.FourIsReached | selfdrive/selfdrived/selfdrived.py:189-197 | four are reached: selfdrived samples before the lockout is published and engages on that sample |
| Lockout.AtMostThreeWhenPrompt | selfdrive/monitoring/policy.py:302-348 | in every interleaving in which each process samples right before it steps, at most three |
| CanWire.DlcRoundTrip | selfdrive/pandad/panda.cc:157-166 | the length code rounds up to the next legal length and is exact for exactly the legal ones |
| CanWire.HeaderRoundTrip | selfdrive/pandad/panda.h:28-37 | every field of a legal packed header is read back |
| CanWire.HeaderLayout | selfdrive/pandad/panda.h:28-37 | the bits of the header: reserved, bus and length code in the first byte, flags and address lowest bits first in the next four |
| CanWire.XorAppend | selfdrive/pandad/panda.cc:284-290 | the checksum of a concatenation is the XOR of the checksums |
| CanWire.RestIsShort | selfdrive/pandad/panda.cc:242-282 | fewer than 70 bytes are left after an unpack, and they hold no complete frame |
| CanWire.ParseSplit | selfdrive/pandad/panda.cc:242-282 | decoding may stop anywhere and resume on what was left: frames, rest and failure are those of the whole |
| CanWire.StreamingEqualsBatch | selfdrive/pandad/panda.cc:216-282 | successive receives of any cutting of the bytes equal one receive of them all |
| CanWire.EncodeParses | selfdrive/pandad/panda.cc:168-282 | encoded legal frames decode to themselves with nothing left |
| CanWire.StreamRoundTrip | selfdrive/pandad/panda.cc:168-282 | any legal frames, cut anywhere, come out whole and in order |
| CanWire.EncodedFramesAreThere | selfdrive/pandad/panda.cc:168-282 | the bytes of legal frames hold those frames, whole headers included |
| CanWire.DeliveredSays | selfdrive/pandad/panda.cc:262-272 | what is delivered, read off the bytes: bus with 0xC0 for rejected and 0x80 for returned, 29 bits of address, the data |
| CanWire.DamageIsNoticed | selfdrive/pandad/panda.cc:255-260 | changing any one byte of a frame, length code aside, fails the checksum and delivers nothing |
| PandaCan.WiresAreLegal | selfdrive/pandad/panda.cc:173-196 | what is packed from sendable messages is legal and delivers those messages, addresses cut to 29 bits, other pandas' messages skipped |
| PandaCan.SendThenReceive | selfdrive/pandad/panda.cc:168-282 | packing, cutting the writes anywhere and receiving the pieces gives the messages back in order |
| PandaCan.WrittenBytesCarry | selfdrive/pandad/panda.cc:168-208 | read back from the bytes written are the messages for this panda in order, each with its bus, length, 29 bits of address, neither rejected nor returned, and extended exactly from 0x800 on |
| PandaCan.AddressSurvives | selfdrive/pandad/panda.h:35-35 | an address survives the bit field exactly when it is below 2^29 |
| PandaCan.CalculateChecksum | selfdrive/pandad/panda.cc:284-290 | the loop computes the XOR of the bytes |
| PandaCan.CopyTo | selfdrive/pandad/panda.cc:191-192 | the bytes are put at the position and nothing around them changes |
| PandaCan.WriteFrame | selfdrive/pandad/panda.cc:184-196 | writes exactly the encoded frame at the position, checksum included, and nothing before it changes |
| PandaCan.PackCanBuffer | selfdrive/pandad/panda.cc:168-208 | the writes hold the frames of the list, each whole and in one write, all of them in order; each write is under 326 bytes, and only the last is under 256 |
| PandaCan.Panda.constructor | selfdrive/pandad/panda.h:90-91 | nothing is carried at first |
| PandaCan.Panda.UnpackCanBuffer | selfdrive/pandad/panda.cc:242-282 | implements the stream parser on the buffer: frames, verdict, and the unfinished tail moved to the front |
| PandaCan.Panda.MoveToFront | selfdrive/pandad/panda.cc:277-279 | the unfinished tail comes to the front whole, although source and target overlap |
| PandaCan.Panda.CanReceive | selfdrive/pandad/panda.cc:216-236 | one receive is one parser step on carried bytes and new ones, and the capacity assertion never fires |
| PandaCan.Panda.ReceiveAll | selfdrive/pandad/panda.cc:216-236 | receives in a row are the stream decoder on what the healthy ones delivered, failed ones in between notwithstanding |
| SpiBulk.BulkRead | selfdrive/pandad/spi.cc:149-177 | the buffer holds the chunks one after another without a gap, all of 1984 bytes up to the first short one; a failure returns its code |
| SpiBulk.BulkWrite | selfdrive/pandad/spi.cc:149-177 | the chunks sent, of 1984 bytes but for the last, concatenate to the buffer and the result is the total returned for them; or to a prefix up to the failing one, whose code is the result |
| SpiBulk.AddChecksum | selfdrive/pandad/spi.cc:189-194 | the packet with its checksum cancels the start value, and no other byte changes |
| SpiBulk.CheckChecksum | selfdrive/pandad/spi.cc:196-202 | accepts exactly the packets that cancel |
| SpiBulk.OneChecksumFits | selfdrive/pandad/spi.cc:189-202 | the byte written is the only one accepted |
| FftSize.PowerOfTwoBetween | selfdrive/locationd/helpers.py:17-17 | a smooth number lies in [n, 2n), so the search cannot end on its initial guess unless that is smooth |
| FftSize.FftNextGoodSize | selfdrive/locationd/helpers.py:10-33 | terminates with the least product of powers of 2, 3, 5, 7 and 11 that is at least n; below 1 it returns n |
| FftSize.SmoothExactly | selfdrive/locationd/helpers.py:10-33 | such a product is 1, or a multiple of 2, 3, 5, 7 or 11 whose quotient is such a product, and nothing else is |
| RunningStats.RunningStat.constructor | common/stat_live.py:5-16 | starts from the given history |
| RunningStats.RunningStat.Reset | common/stat_live.py:18-23 | forgets everything |
| RunningStats.RunningStat.PushData | common/stat_live.py:25-37 | one Welford push, with the sample count capped; the cached previous values stay in step |
| RunningStats.CapDoesNotBind | common/stat_live.py:25-28 | a run that stays within the cap is the uncapped run |
| RunningStats.PooledMean | common/stat_live.py:25-37 | while the cap is not reached, the mean is the pooled mean of the prior and all samples |
| RunningStats.PooledSpread | common/stat_live.py:25-37 | while the cap is not reached, S = S0 + n0 (M0 - M)^2 + sum of (x - M)^2 |
| RunningStats.PushMovesTowards | common/stat_live.py:25-37 | capped or not, the mean moves towards the sample and S does not fall |
| RunningStats.StaysInHull | common/stat_live.py:25-37 | capped or not, the mean stays in any interval that holds prior and samples, S never falls below the prior's, n respects the cap |
| RunningStats.CappedPush | common/stat_live.py:25-37 | at the cap a sample weighs 1/n: n M' = (n - 1) M + x and n (S' - S) = (n - 1) (x - M)^2, and n stays; at a cap of zero the mean is the last sample |
| RunningStats.CappedForgets | common/stat_live.py:25-37 | at the cap, k samples of one value leave exactly (1 - 1/n)^k of the distance to it |
| RunningStats.RunningStatFilter.constructor | common/stat_live.py:55-57 | both statistics start from their priors, the raw one uncapped |
| RunningStats.RunningStatFilter.PushAndUpdate | common/stat_live.py:63-71 | the filtered statistic takes exactly the samples that do not widen the raw one |
| RunningStats.LetThroughExactly | common/stat_live.py:63-68 | the first sample is always let through, the second only at the mean of a statistic without spread, later ones exactly within one raw variance of the mean, measured between old and new mean |
| RayCasting.PointInRing | gateway/osm/geo.py:81-94 | the trailing-index loop computes the crossing parity of the closed ring |
| RayCasting.PointInPolygon | gateway/osm/geo.py:97-105 | inside the outer ring and inside no hole |
| RayCasting.CrossesExactly | gateway/osm/geo.py:88-92 | an edge is crossed exactly by the points beside it that lie strictly west of it, its lower end included and its upper end not |
| RayCasting.RectangleExactly | gateway/osm/geo.py:81-94 | a rectangle holds exactly its interior and its southern and western sides |
| RayCasting.ChordAdditive | gateway/osm/geo.py:81-94 | splitting a ring along a chord makes the test the exclusive or of both parts |
| RayCasting.RotationInvariant | gateway/osm/geo.py:81-94 | the starting point of the ring does not matter |
| RayCasting.ReversalInvariant | gateway/osm/geo.py:81-94 | the direction of the ring does not matter |
| RayCasting.ClosingPointIsHarmless | gateway/osm/geo.py:81-94 | repeating the first point at the end changes nothing |
| RayCasting.OutsideTheBox | gateway/osm/geo.py:81-94 | nothing outside a box around the ring is inside |
| RingBuffers.MovingAverage.constructor | common/utils.py:57-62 | an empty history |
| RingBuffers.MovingAverage.AddValue | common/utils.py:64-74 | buffer, sum, index and count represent the history with one more value |
| RingBuffers.MovingAverage.GetAverage | common/utils.py:76-79 | the mean of the last min(count, window) values ever added, NaN for none |
| RingBuffers.NPQueue.constructor | selfdrive/locationd/helpers.py:55-57 | an empty history |
| RingBuffers.NPQueue.Append | selfdrive/locationd/helpers.py:62-67 | the rows are always the last maxlen ever appended |
| RingBuffers.BlockAverage.constructor | selfdrive/locationd/lagd.py:137-144 | initial valid blocks count as completed blocks of the initial value |
| RingBuffers.BlockAverage.Update | selfdrive/locationd/lagd.py:146-151 | the slots represent the completed block means and the samples in progress, one sample further |
| RingBuffers.BlockAverage.Get | selfdrive/locationd/lagd.py:153-169 | the mean over the last numBlocks - 1 completed blocks, without and with the block in progress |
| RingBuffers.BlocksAverageRuns | selfdrive/locationd/lagd.py:146-151 | from a fresh start block k holds the exact mean of the k-th run of blockSize samples |
| CruiseSpeed.VCruiseHelper.constructor | selfdrive/car/cruise.py:32-38 | starts unset with idle timers |
| CruiseSpeed.VCruiseHelper.UpdateVCruise | selfdrive/car/cruise.py:44-64 | one frame: the timers as they were decide the adjustment, then they advance; unavailable cruise unsets the speed |
| CruiseSpeed.VCruiseHelper.UpdateNonPcm | selfdrive/car/cruise.py:66-112 | the speed changes exactly on an accepted request, by the short or long rule |
| CruiseSpeed.VCruiseHelper.FindRequest | selfdrive/car/cruise.py:72-88 | the first release decides, without one the first timer at a multiple of 50; ending a long press requests nothing |
| CruiseSpeed.VCruiseHelper.UpdateButtonTimers | selfdrive/car/cruise.py:114-124 | running timers advance, then every event restarts or stops its own |
| CruiseSpeed.VCruiseHelper.InitializeVCruise | selfdrive/car/cruise.py:126-138 | resumes the previous speed or starts from the clipped current one |
| CruiseSpeed.MovedFacts | selfdrive/car/cruise.py:102-106 | an adjustment goes the button's way by at most one step, by less only when a long press stops at the multiple in between, and a long press always ends on a multiple |
| CruiseSpeed.RunStaysInRange | selfdrive/car/cruise.py:44-138 | on every run of the car process's frames the set speed is 255 or in [8, 145] |
| CruiseSpeed.StepStaysInRange | selfdrive/car/card.py:182-185 | one frame, update before initialization, keeps that range |
| CruiseSpeed.InitializeKeepsRangeExactly | selfdrive/car/cruise.py:126-138 | an initialization leaves a speed in range if and only if it does not resume, or the speed it resumes is in range |
| CruiseSpeed.RangeNeedsTheFrameOrder | selfdrive/car/cruise.py:126-138 | two initializations in a row can leave the range |
| CruiseSpeed.HeldButtonAdjustments | selfdrive/car/cruise.py:66-124 | a single button held r frames adjusts max(1, (r - 1) / 50) times |
| CruisePresses.ReleaseAdjusts | selfdrive/car/cruise.py:72-112 | the first release after at most 50 frames moves the speed by 1, or 1.6, rounded and kept in [8, 145]; a later one, or one that does not count, does nothing |
| CruisePresses.HoldingMoves | selfdrive/car/cruise.py:84-112 | without a release every fiftieth frame of a press moves on to the next multiple of 5, or 8; other frames do nothing |
| CruisePresses.NotEnabled | selfdrive/car/cruise.py:66-68 | while not enabled no press moves the speed |
| CruisePresses.ShownAndLast | selfdrive/car/cruise.py:44-64 | the shown speed is the set one, the last one is kept, and without cruise both are unset |
| CruisePresses.TimersCount | selfdrive/car/cruise.py:114-124 | the last change of a button in a frame starts or stops its timer and records standstill and enabling; otherwise it counts on |
| CruisePresses.InitializationStarts | selfdrive/car/cruise.py:126-138 | resuming takes the last speed back, otherwise the present one, at least 40 or 105 and at most 145, whole |
| CruisePresses.HeldAccelRaises | selfdrive/car/cruise.py:66-124 | accel held r frames on a multiple of five: 1 more for a short press, 5 more for every 50 frames of a long one, up to 145 |
| Replication.ParseState | gateway/osm/replication.py:51-64 | the line loop computes the parse, with an error for a missing or malformed sequence number |
| Replication.UnescapeEscape | gateway/osm/replication.py:61-69 | the two overlapping replacements undo the escaping of every string |
| Replication.ParseIntUndoesToText | gateway/osm/replication.py:64-70 | every integer, negative ones too, is printed and read back |
| Replication.ParseUndoesFormat | gateway/osm/replication.py:51-70 | printing and parsing a state with a clean timestamp gives it back |
| Replication.RoundTripExactly | gateway/osm/replication.py:51-70 | the round trip holds if and only if the timestamp has no line break and no outer whitespace |
| Replication.PathRoundTrip | gateway/osm/replication.py:29-38 | at least three groups of exactly three digits, and without slashes the path is the number |
| Replication.PathIsInjective | gateway/osm/replication.py:29-38 | no two sequence numbers share a path |
| Replication.OneBatch | gateway/osm/replication.py:73-83 | a batched run is a nonempty prefix of what is missing, no longer than the batch |
| Replication.CatchUpAppliesAll | gateway/osm/replication.py:73-83 | repeated batches concatenate to the unbatched list, nothing skipped or repeated |
| ReplicationText.CodePoints | gateway/osm/replication.py:54-61 | line breaks and white space by code point |
| ReplicationText.LastLine | gateway/osm/replication.py:54-54 | text without a line break is one line, and no text none |
| ReplicationText.LineEnds | gateway/osm/replication.py:54-54 | any break character ends a line, a carriage return and a line feed together one |
| ReplicationText.StripTakesOff | gateway/osm/replication.py:55-61 | stripping takes off the white space around and nothing else |
| ReplicationText.SpacedField | gateway/osm/replication.py:55-61 | white space around key, equals sign and value does not matter |
| ReplicationText.IgnoredLine | gateway/osm/replication.py:55-59 | blank lines, comments and lines without an equals sign contribute nothing |
| ReplicationText.LastOneCounts | gateway/osm/replication.py:53-61 | of the lines that set a key the last one counts |
| ReplicationText.IgnoredAnywhere | gateway/osm/replication.py:53-61 | lines that contribute nothing may stand anywhere |
| ReplicationText.StateNeedsNumber | gateway/osm/replication.py:62-64 | the two errors, and the empty timestamp when there is none |
| ReplicationText.IntegersExactly | gateway/osm/replication.py:64-64 | exactly groups of digits joined by single underscores, with at most one sign, are integers |
| ReplicationText.ValueSays | gateway/osm/replication.py:64-64 | a further digit is a further decimal place; underscores add nothing |
| ReplicationText.UnescapeSays | gateway/osm/replication.py:61-61 | an escaped colon is a colon, an escaped backslash a backslash, and the rest stays |
| ReplicationText.PathIsShort | gateway/osm/replication.py:33-38 | a path has no more groups than its number needs, and three at least |
| ReplicationText.PendingSays | gateway/osm/replication.py:80-83 | what a positive, a negative, a zero and no batch leave of what is missing |
| ParamsWriter.PushesAreChecked | common/params.cc:227-233 | on every run the caller checks for a worker after each push, before it pushes again |
| ParamsWriter.ActKeepsOrder | common/params.cc:227-242 | every step keeps: written, then in flight, then queued is what was pushed, and only the newest worker is live |
| ParamsWriter.PutStepOnDisk | common/params.cc:130-167 | each system call of a put adds at most the complete synced new value to what a crash may leave |
| ParamsWriter.PutOutcome | common/params.cc:130-167 | the value is visible if and only if creating, writing, syncing and renaming succeed, and certain if and only if the directory is synced too; otherwise the file is what it was |
| ParamsWriter.RunIsSafe | common/params.cc:130-242 | order, visible contents and crash images are right on every run |
| ParamsWriter.SafeFromStart | common/params.cc:130-242 | from a fresh start: writes happen in push order, readers see them replayed in order, a crash leaves only complete values |
| ParamsWriter.OldOrNew | common/params.cc:130-167 | at every crash point of one put each file holds what it could before, and the file being put may hold the complete new value |
| ParamsWriter.QueueDrainsExactly | common/params.cc:99-104 | on every run, once no call is under way and the worker is done, the queue is empty if and only if the last check after a push did not meet an exiting worker with a write queued |
| ParamsWriter.QueueNeedNotDrain | common/params.cc:227-242 | a run exists that ends with a queued write and no worker |
| ParamsWriter.NextPushRestarts | common/params.cc:227-233 | the next push then starts a worker that finds the old write first |
| ParamsWriter.WorkerDrains | common/params.cc:235-242 | a worker left alone, whose calls succeed, writes the whole queue in order and then leaves |
| OsmServer.GroupIsSquare | gateway/osm/grid.py:26-29 | a group holds exactly the eight by eight tiles from its corner, negative indices included |
| OsmServer.TileHolds | gateway/osm/grid.py:21-23 | a tile holds exactly the positions of its quarter of a degree |
| OsmServer.GroupHolds | gateway/osm/grid.py:21-29 | the group of a position is the one square of two degrees, on even degrees, that holds it |
| OsmServer.TileStore.constructor | gateway/osm/delivery.py:35-39 | an empty store |
| OsmServer.TileStore.PutTile | gateway/osm/delivery.py:41-43 | stores the tile, keeping each hash that of its bytes |
| OsmServer.TileStore.GetManifest | gateway/osm/delivery.py:61-72 | the signed manifest of the group's tiles, none for an empty group |
| OsmServer.SortSorts | gateway/osm/manifest.py:49-59 | the manifest's tiles are sorted and a permutation of the entries |
| OsmServer.ManifestLists | gateway/osm/delivery.py:61-72 | a manifest lists each tile of the group once, with the hash and size of its bytes, and nothing else |
| OsmServer.ManifestSays | gateway/osm/manifest.py:49-59 | a group has a manifest exactly when it has a tile; it names the group and lists the tiles by latitude, then longitude |
| OsmServer.ManifestIsCanonical | gateway/osm/manifest.py:49-59 | stores with the same tiles issue the same manifest in whatever order they were filled, so unchanged data keeps its ETag |
| OsmSync.OsmTileClient.constructor | europilot/osm/client.py:56-66 | an empty cache |
| OsmSync.OsmTileClient.TilesToFetch | gateway/osm/manifest.py:96-107 | the listed tiles whose hash is missing or differs, in order |
| OsmSync.OsmTileClient.FetchTile | europilot/osm/client.py:112-125 | stores roads and hash together, only for bytes that match the listed hash and decode |
| OsmSync.OsmTileClient.Prune | europilot/osm/client.py:127-133 | drops exactly the group's tiles that the manifest no longer lists |
| OsmSync.OsmTileClient.Sync | europilot/osm/client.py:74-110 | syncs the one two-degree square that holds the position: sends the ETag kept for it, turns the answer into the sync on values, and marks the time exactly on success |
| OsmSync.WantedFacts | gateway/osm/manifest.py:96-107 | a tile is wanted if and only if it is listed with a hash the device does not hold |
| OsmSync.FetchStores | europilot/osm/client.py:112-125 | a tile is stored exactly from a nonempty body that has the listed hash and decodes |
| OsmSync.SyncWithoutManifest | europilot/osm/client.py:87-100 | without a verified manifest nothing changes, and only a 304 is a success |
| OsmSync.SyncUnlisted | europilot/osm/client.py:106-133 | a tile the verified manifest does not list is dropped from the group asked for and left alone in others |
| OsmSync.SyncListed | europilot/osm/client.py:102-125 | a listed tile ends at its listed hash if its bytes arrived, and at what it had if not, whatever group it is of |
| OsmSync.SyncExactly | europilot/osm/client.py:74-133 | for any verified manifest with one entry a tile, of the group asked for or not: what becomes of every listed and unlisted tile, and the group's hashes are the listed ones if and only if every fetch for the group was good |
| OsmSync.SyncOfGroup | europilot/osm/client.py:74-110 | with a manifest of the group the hashes are the manifest's if and only if every fetch was good; other groups are untouched and the ETag is recorded either way |
| OsmSync.ForeignManifestEmpties | europilot/osm/client.py:99-110 | a verified manifest of another group succeeds and leaves the group asked for empty |
| OsmSync.EveryTileIsVouchedFor | europilot/osm/client.py:74-133 | against any network: roads and hashes have the same keys, and every cached tile decodes from bytes whose hash a verified manifest listed for it |
| OsmCoherence.ActKeepsCoherent | europilot/osm/client.py:74-133 | server updates and syncs, interleaved, keep for every group: its ETag belongs to a gateway manifest, which the cached hashes match exactly if every fetch of the last verified sync was good |
| OsmCoherence.RunKeepsCoherent | europilot/osm/client.py:74-133 | the same on every run |
| OsmCoherence.SuccessKeepsCurrentEtag | europilot/osm/client.py:87-110 | a sync that returns True leaves the ETag of the current manifest, also by a 304 |
| OsmCoherence.SucceedsExactly | europilot/osm/client.py:87-110 | a sync succeeds exactly if a reply arrives and the gateway has tiles of the group; otherwise it leaves everything as it was |
| OsmCoherence.SuccessMeansCurrent | europilot/osm/client.py:87-110 | when a sync returns True, also by a 304, the cached hashes are those of the current manifest if and only if no fetch of the group's last verified sync failed, and then the cached tiles are the gateway's |
| OsmCoherence.SuccessMeansCurrentOnRuns | europilot/osm/client.py:87-110 | the same after any run from an empty device |
| OsmCoherence.LostTileStaysLost | europilot/osm/client.py:102-110 | after a failed fetch the next sync is a successful 304 that repairs nothing |
| OsmCoherence.OnlyUpdatesRepair | europilot/osm/client.py:87-110 | nor does any run of syncs, of this and other groups, and updates of other tiles: with the current ETag held, the group's hashes stay as they are until one of its tiles changes |
| NdwMatch.SpansAreTwoKilometres | europilot/ndw/match.py:42-44 | the two spans of the search are 2000 m in degrees |
| NdwMatch.CellHolds | europilot/ndw/match.py:15-39 | a position is in exactly the cell of 0.02 degrees each way that holds it |
| NdwMatch.BearingDeltaFacts | europilot/ndw/match.py:26-27 | an angle in [0, 180], symmetric and blind to whole turns |
| NdwMatch.BearingDeltaIsLeast | europilot/ndw/match.py:26-27 | it is the least of all turns from one direction to the other |
| NdwMatch.GantryIndex.constructor | europilot/ndw/match.py:33-36 | each cell lists its signs in order |
| NdwMatch.GantryIndex.GetNearby | europilot/ndw/match.py:42-52 | the signs of the window's cells, row by row |
| NdwMatch.GantryIndex.GetMatch | europilot/ndw/match.py:54-101 | the gantries accumulated from the accepted nearby signs, nearest passed and nearest ahead |
| NdwRefinement.AcceptedIsAlmostNear | europilot/ndw/match.py:64-71 | an accepted sign is within 2000.16 m on each axis and within the diagonal of the box |
| NdwRefinement.NearIsInWindow | europilot/ndw/match.py:42-52 | a sign within the radius on each axis lies in a visited cell |
| NdwRefinement.WindowHoldsCells | europilot/ndw/match.py:42-52 | the window holds each sign of its cells exactly once |
| NdwRefinement.GridIsExact | europilot/ndw/match.py:42-71 | the grid accepts what a full scan accepts, as often, if and only if every accepted sign lies in a visited cell |
| NdwRefinement.GridEqualsScan | europilot/ndw/match.py:42-71 | in particular when every accepted sign is within the radius on each axis |
| NdwReach.AcceptedIsWithinDegrees | europilot/ndw/match.py:64-71 | an accepted sign lies within the reach of the turned box, in degrees on both axes |
| NdwReach.ReachIsAttained | europilot/ndw/match.py:64-71 | on each of the four sides a sign at the very end of the reach is accepted |
| NdwReach.GridHoldsExactly | europilot/ndw/match.py:42-52 | at every pose the grid visits the cells of all signs that would be accepted if and only if it visits the cells at the ends of the reach |
| NdwReach.HeadingDecides | europilot/ndw/match.py:56-71 | every sign that can be accepted is within the radius on each axis if and only if the box, turned with the heading, does not reach beyond it |
| NdwReach.SomeHeadingOverhangs | europilot/ndw/match.py:56-71 | less than a degree off north the turned box does reach beyond the radius |
| NdwReach.SignAtIsThere | europilot/ndw/match.py:64-71 | for every distance along and across there is a sign there, accepted when within the limits |
| NdwReach.AcceptedExactly | europilot/ndw/match.py:60-71 | accepted are exactly the signs within 40 degrees, 2000 m along the heading and 25 m to a side, in the coordinates of pose and sign |
| NdwReach.RimSignIsNotVisited | europilot/ndw/match.py:42-52 | at a pose near any row and column of cells, for every heading and latitude, the grid leaves out a sign that would be accepted if and only if the box reaches beyond the radius |
| NdwRegion.PadSuffices | gateway/ndw/region.py:21-30 | every pose of a tile is covered by its padded box if the cosine there is at least 4/5 of the one at mid-height, otherwise the western edge is not |
| NdwRegion.TileBoundsSay | gateway/ndw/region.py:21-30 | the bounds are a quarter of a degree and 2500 m around it |
| NdwRegion.CoversExactly | europilot/ndw/client.py:62-75 | covered is exactly: every place within the two spans of the pose lies in the box |
| NdwRegion.MatrixSignClient.constructor | europilot/ndw/client.py:81-86 | starts without a snapshot |
| NdwRegion.MatrixSignClient.Install | europilot/ndw/client.py:117-122 | a delivered snapshot replaces the old one as a whole |
| NdwRegion.MatrixSignClient.GetMatch | europilot/ndw/client.py:142-152 | no hint without a fresh covering snapshot, otherwise the snapshot's match |
| NdwRegion.SnapshotIsExact | gateway/ndw/region.py:33-60 | the snapshot contributes the hits of all signs, in order, if and only if its box holds every accepted sign the grid visits |
| NdwRegion.SnapshotEqualsAll | europilot/ndw/client.py:63-75 | in a covered pose with accepted signs within the radius per axis, the snapshot answers exactly as all signs would |
| NdwRegion.BoundsHoldExactly | europilot/ndw/client.py:63-75 | at every pose, covered or not, the bounds hold every sign that would be accepted if and only if the turned box fits into them |
| NdwRegion.InsideMeansComplete | europilot/ndw/client.py:63-75 | where it fits the snapshot answers as all signs would, with nothing assumed of the signs |
| NdwRegion.CoveredMeansComplete | europilot/ndw/client.py:63-75 | in particular in a covered pose whose turned box does not reach beyond the radius |
| NdwRegion.RimSignIsLeftOut | europilot/ndw/client.py:63-75 | at the far end of what bounds cover a sign that would be accepted is left out if and only if the turned box reaches beyond the radius |
| NdwRegion.TilesLeaveSignsOut | gateway/ndw/region.py:21-30 | every tile of the gateway covers such a pose, for every heading whose box reaches beyond the radius, unless the cosine there is below 4/5 of the one at mid-height |
| NdwRegion.SnapshotAnswersAsScan | europilot/ndw/client.py:142-152 | with unambiguous hits the snapshot's match is that of a scan of all signs |
| NdwGantries.AccumulateGroups | europilot/ndw/match.py:77-83 | one entry per gantry, with the first sign's particulars, the distance of its nearest sign and the last display of each lane |
| NdwGantries.HitSays | europilot/ndw/match.py:72-80 | what an accepted sign with a live state contributes |
| NdwGantries.GantrySays | europilot/ndw/match.py:85-94 | what is reported of an entry, its distance to a tenth of a metre |
| NdwGantries.NearestGantries | europilot/ndw/match.py:96-101 | governing is the nearest gantry passed and upcoming the nearest ahead; none exactly when that side is empty |
| NdwGantries.OrderDoesNotMatter | europilot/ndw/match.py:60-101 | unambiguous hits give the same match in any order: on either side one gantry alone is foremost, its nearest hits are all on that side, and its hits agree |
| NdwGantries.OrderMattersExactly | europilot/ndw/match.py:60-101 | the match is the same in every order if and only if the hits are unambiguous |
| NdwGantries.HitsAreKeyed | europilot/ndw/types.py:46-48 | the hits of signs carry the key of their road, carriageway and rounded kilometre |
| NdwGantries.GridAnswersAsScan | europilot/ndw/match.py:42-101 | with such hits, all within the radius per axis, the grid's match is that of a scan of all signs |
| NdwGantries.OrderMattersOnTies | europilot/ndw/match.py:77-83 | two hits of one gantry at the same distance before and behind: the first one decides the side |

## Left out

- Floating-point rounding everywhere: the model computes over exact reals, so equality tests such as `awareness == 1.` are exact, and in binary doubles a deadline such as the 225 steps can move by one step.
- Trigonometry, pi, SHA-256, Ed25519 and the tile decoder are parameters; `CollisionFree` and `SignsSoundly` state what is needed of them.
- The pose, eye and phone thresholds, pose and wheel-side calibration, camera-uncertainty counters and the packet's percentages of driver monitoring; a frame carries the resulting flags.
- DriverMonitoring.DriverMonitoring.ObserveFrame: holds the value of the distraction filter as a plain field instead of the filter object, which `Filters` models.
- Engagement.Events.Add: appends, and does not model the sorted position of an event or the event counters, because only membership is ever asked for.
- Alert texts and alert creation, including the texts replaced on the mici device; of the event table only the types each event carries are kept.
- Selfdrived.SelfdriveD.UpdateEvents: the many other checks of update_events are arbitrary event lists of the frame.
- Selfdrived.SelfdriveD.DataSample: whether initialization completes is one flag of the frame, standing for the validity checks and the time-out; forced engagement in replay is left out.
- Lockout.TerminalAlertsAreBounded: a process may step arbitrarily long after sampling, but a sample serves one step, and sampling always sees the newest message; messages in transit and reused samples are not modelled.
- PANDAD_MAXOUT's extra read, panda's health packets and USB control requests.
- SpiBulk.BulkRead: the transfer of one chunk, with its acknowledgements and retries, is a reply that is a code or at most the bytes asked for.
- SpiBulk.CheckChecksum: lengths above 65535 are excluded, where the source's 16-bit counter would never end the loop.
- RunningStats.RunningStatFilter.PushAndUpdate: compares variances where the source compares their square roots, which order the same way.
- RingBuffers.BlockAverage.Get: the standard deviations are not computed.
- The stock-cruise (PCM) path, which copies values, and the cruise model's easing functions.
- Replication.ParseState: digits are the ASCII ones; Python's int also reads other decimal digits.
- Coercion of displays, tile and snapshot JSON, and snapshot signatures.
- Background threads, refresh flags, freshness timers and HTTP of both map clients; `add_records` and tile serialization.
- NdwRegion.SnapshotEqualsAll: the snapshot keeps a sign on its box and live state, as the gateway does; the live states may have changed since, and the match uses those of the snapshot.
- ParamsWriter.SafeFromStart: one process; the file lock, other writers, and `remove`, `get` and `clearAll` are left out.
- ParamsWriter works on values, as steps that interleave; the mutex of the queue is the atomicity of a step.
- The other geometry of geo.py, point buckets, Kalman filters, neural networks, interface and build tooling.
