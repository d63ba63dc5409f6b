# Priority flow control on a simulated link, and four pieces of the tooling around it

This project models and proves properties of a discrete-event network simulation
whose core is a priority flow control (PFC) device: eight traffic classes, each of
which the far end of a link can stop for a while with a control frame. The device
holds application queues, a bounded MAC queue, hold queues for stopped classes,
one pause timer for each class, ingress queues with watermarks, and a share of a
per-node token manager. Four further groups of modules treat parts of the surrounding tools:
the worker pool of the test runner, the enumeration of configuration paths, the
flow-size table with its sampler, and the load order of the Python bindings.

`dafny verify dfyconfig.toml` checks everything.

## How the model is built

- **Values and classes.** `PfcDevice` and `Tokens` say, as functions over values, what
  every event does to the state. The classes `QbbDevice.QbbNetDevice`,
  `TokenManager.TokenBucket`, `TokenManager.EgressTokenManager`, `PfcHeaders.PfcHeader`,
  `DependencyOrder.Sorter` and `TypePaths.StaticInformation` have the fields, loops and
  calls of the original and are proved to compute those functions. Everything about
  runs is proved about the functions.
- **Runs.** A run of a device is any interleaving of the application's sends, frames
  arriving, the transmitter finishing a frame, the passing of time and the firing of due
  events, the latter in the simulator's order (by time, then by id). The theorems hold in
  every reachable state of every run, for every configuration unless they say otherwise.
- **Time** is a real number, as are tokens and percentages: rounding is not modelled.
- **The simulator, the point-to-point device and the drop-tail queue** are modelled from
  their sources: an event is expired once it fires or is cancelled
  (`ns-3.45/src/core/model/default-simulator-impl.cc:338-369`), the queue refuses
  a packet only when it is full (`ns-3.45/src/network/utils/queue.h:506-561`), and Send starts
  the transmitter only when it is idle
  (`ns-3.45/src/point-to-point/model/point-to-point-net-device.cc:226-287`, `502-549`).
- **Parameters.** A packet carries its identity, its class and the port that the receiving
  node's routing gives it. How long a frame takes to transmit is left open, so the
  results hold for all transmission times.

## What the proofs say

*What holds.* No wake-up is lost: whatever waits in an application, hold or ingress queue
has exactly one pending event that will look at it, no later than a fixed delay or the end
of the pause (`NoLostWakeup`, `OneEventEach`). The next look at a queue comes at the same
moment after a frame has moved and exactly 10 us after one was refused (`Prompt`), so time
does not pass over work that can be done (`TimeWaits`, `DrainsAll`). A pause lasts 512 bit
times for each quanta (`PauseLasts`), and the cancelled, replaced and reused timers do
what one sentence asks for (`GatedAsSpecified`). A stopped class sends nothing
(`GatedSendsNothing`). No accepted frame is lost or duplicated (`NothingLost`), and the
MAC queue never exceeds its limit, so the Enqueue results that the device ignores are never
refusals (`QueueFits`). Congestion verdicts follow the occupancy with hysteresis
(`OccupancyDecides`), cost at most one pause for `high - low` arrivals
(`ControlFramesBounded`), and bound the occupancy of a class over a whole link
(`HeadroomBound`). Tokens are granted at no more than the rate allows (`RateBound`) and, when
it is a port's turn, as soon as the rate allows (`GrantedIff`, `ServedInTime`), strictly
in turn (`RoundRobin`, `BypassedOnce`). Every result of the worker pool comes from the step
that ran its job, and the summary counts those steps (`ResultsAreMade`, `CountsAreRuns`).
The sampler draws from the straight line between two entries, rounded (`SampleOnLine`).

*What does not hold, and exactly when.*

- **Order inside a class.** A frame overtakes an older one of its class exactly in the two
  steps that `Overtakes` names: a dequeue that succeeds while the class has frames on hold,
  and a pause that finds frames of the class in the MAC queue while older ones are on hold
  (`OrderKeptIff`). Both are guards that can be read off the state. A frame that stands in
  the transmitter while an older one of its class is on hold is seen by the far end out of
  order, unless the class is paused again before it is sent (`OvertakenOnWire`). Every device
  with room for one frame has a run with such a step (`OvertakingIsReachable`), and it
  goes on until the newer frame has left while older ones are still on hold
  (`OvertakingReachesTheWire`).
- **An idle transmitter.** A refill puts frames into the MAC queue without starting the
  transmitter; only Send does. The transmitter stalls exactly when a refill with something
  to move meets it idle (`StallsIff`), and a device becomes jammed, idle with a full MAC
  queue, exactly when such a refill fills the queue: at the end of a pause, with a zero
  quanta, in a retry, or on top of what another class left there (`JamsIff`, over runs
  `UnjammedIff`). Then Send refuses every
  further frame, control frames included, and nothing leaves the device
  until a pause arrives for a class that is in its MAC queue (`JammedForever`,
  `PauseEndsJamIff`). Every device with room for one frame can be jammed
  (`JamIsReachable`).
- **Stale demand.** DoIngressDrain withdraws its demand only with the last frame of a class
  queue, whatever port the frames of that queue go to. A port is left registered without a
  frame exactly by a granted drain of its only frame for the egress port while other frames
  stand behind it in the class queue, and it stays so exactly until another frame for that
  egress port arrives (`StaysBackedIff`, `StaysStaleIff`, over runs `StaleIff`). Meanwhile each
  other port gets at most one more token, however many there are (`StaleBlocks`). Any port
  that receives one frame for `egress` and then one for `other` in a class causes it
  (`StaleDevice`).
- **Rising flow sizes.** A repeated percentage can lower a size below its predecessor. The
  table rises exactly when no repeated percentage comes with a size below a leading one
  (`TableRisesIff`); where it falls, the sampler's unsigned difference wraps around, so
  draws stay in range exactly under the same condition (`DrawsFitIff`).
- **Dead branches.** The second gate test in TryDequeue (`pfc/qbb-net-device.cc:265-268`), the
  low-watermark test in OnDataRx (`507-510`, when low < high), the early return of
  ResumeFromPause (`575`) and the sampler's test for an empty step
  (`cys/test1.cc:236`) never fire (`TryDequeue`, `ArrivalNeverResumes`, `TimersFireOnTime`,
  `SampleSizeFromCdf`).
- **Code and comment disagree** on `Uniquefy`
  (`ns-3.45/utils/print-introspected-doxygen.cc:399-420`): the comment says that the
  container is modified in place, but it is passed by value. The copy in Gather is what the
  comment promises, and differs from the output unless that is strictly sorted already
  (`Gather`). The output repeats an entry exactly if a simple walk comes to a type that is linked
  more than once, by derivation and aggregation together, to a type that is not on the
  way (`RegistryRepeatsIff`; on graphs `RepeatsIff`), and is strictly sorted exactly if simple
  walks only go to types with larger numbers and what is recorded beyond an edge comes
  before what is recorded for the later edges of its type (`SortedIff`). A registry of two
  types repeats an entry (`TwiceRecorded`), another one's output is out of order
  (`DownRecorded`). The model follows the code.

## Model

| member | source | states |
|---|---|---|
| DeviceEvents.NoLostWakeup | pfc/qbb-net-device.cc:231-379 | In every reachable state a class with application frames has a dequeue event within 10 us, or its resume event no later than the end of its pause, or a refill retry within 5 us; frames on hold and ingress frames have their event likewise |
| DeviceEvents.OneEventEach | pfc/qbb-net-device.cc:348-378 | Two pending events with the same call are the same event, and a class never has a resume and a refill event at once |
| DeviceEvents.TimersFireOnTime | pfc/qbb-net-device.cc:542-578 | A resume event fires exactly at the end of its class's pause and finds it paused, a refill retry finds its class not paused and with frames on hold: the early returns are unreachable |
| DeviceEvents.NextKeepsEvents | pfc/qbb-net-device.cc:231-578 | Every action keeps the event discipline: each pending event is the one its handle names, each slot holds what its class is waiting for |
| DeviceTempo.DrainTimes | pfc/qbb-net-device.cc:440-494 | After a delivery the next drain is due at the same moment, after a refusal it comes exactly 10 us later and nothing has moved, and after a drain that finds nothing none is pending |
| DeviceTempo.DequeueTimes | pfc/qbb-net-device.cc:258-279 | After a hand-over the next dequeue is due at the same moment, after a refusal by the transmitter it comes exactly 10 us later and the frame has stayed, and otherwise none is pending |
| DeviceTempo.RefillTimes | pfc/qbb-net-device.cc:553-570 | A refill moves frames in order until the hold queue is empty or the MAC queue full; what is left is tried again exactly 5 us later, and otherwise a dequeue is pending |
| DeviceTempo.StepTimes | pfc/qbb-net-device.cc:231-495 | Any other action leaves a pending dequeue or drain at its moment and arms a new one for the present moment, and every send, every control frame for some class and every arrival leaves one pending; a control frame for no class changes nothing |
| DeviceTempo.Prompt | pfc/qbb-net-device.cc:231-495 | Over every run a pending dequeue or drain is due now, or stands exactly 10 us after the last one, which was refused |
| DeviceTempo.TimeWaits | pfc/qbb-net-device.cc:258-495 | Once a dequeue or a drain is due the clock moves on only after one, at that moment, has found nothing left or has been refused |
| DeviceTempo.DrainsAll | pfc/qbb-net-device.cc:440-494 | From a due drain, with every request granted, there is a run in which no time passes and everything that waits is delivered |
| DeviceGate.LastPauseMeaning | pfc/qbb-net-device.cc:341-344 | The specification's last pause is the latest received control frame that enables the class, and there is none exactly when no frame enabled it |
| DeviceGate.GatedAsSpecified | pfc/qbb-net-device.cc:341-361 | A class is gated at a moment exactly when the last control frame that enabled it had a non-zero quanta and the time since, times the bit rate, is below 512 times that quanta, under every interleaving of pauses, resumes and timers |
| DeviceGate.PauseLasts | pfc/qbb-net-device.cc:341-354 | A control frame pauses a class until q times 512 bits at the device's rate have passed, or q times 512 ns without a rate |
| DeviceGate.CountersCount | pfc/qbb-net-device.cc:345-351 | The two counters of a class are the numbers of pauses and of resumes received for it |
| DeviceGate.ApplyBelowPauses | pfc/qbb-net-device.cc:341-362 | A control frame sets the pause state of the classes it enables, as its quanta asks, and of no other class |
| DeviceGate.NextGate | pfc/qbb-net-device.cc:247-279 | Every action leaves no data frame of a gated class in the MAC queue and starts none of a class that is gated afterwards |
| DeviceGate.GateAlwaysOk | pfc/qbb-net-device.cc:354-360 | In every reachable state a gated class has no data frame in the MAC queue, and the queues hold frames of their own class only |
| DeviceGate.GatedSendsNothing | pfc/qbb-net-device.cc:247-279 | While a class stays gated, over any number of steps, not one frame of it goes on the wire |
| DeviceGate.PurgeGate | pfc/qbb-net-device.cc:513-540 | A purge removes its class from the MAC queue and leaves the frames of every other class in their order |
| DeviceOrder.NothingLost | pfc/qbb-net-device.cc:231-571 | Each frame accepted by Send is, as often as it was accepted, in exactly one of the wire, the MAC queue, the hold queue and the application queue |
| DeviceOrder.OrderKeptIff | pfc/qbb-net-device.cc:258-279 | A class that stands in its order of acceptance still does after a step if and only if the step is not one of the two that overtake |
| DeviceOrder.OrderOverRun | pfc/qbb-net-device.cc:231-279 | Over a run without overtaking steps each class goes on the wire in its order of acceptance |
| DeviceOrder.FirstOvertakingShows | pfc/qbb-net-device.cc:525-561 | The first overtaking step of a run puts its class out of order |
| DeviceOrder.PathOverRun | pfc/qbb-net-device.cc:258-571 | Until a class is paused again, every action only adds to the end of what the class has on the wire and in the MAC queue |
| DeviceOrder.OvertakenOnWire | pfc/qbb-net-device.cc:258-571 | If a frame stands in the transmitter while an older one of its class is on hold and the class is not paused again, then once the frame is sent the wire is not in the order of acceptance |
| DeviceOrder.MoveHeldLine | pfc/qbb-net-device.cc:553-561 | A refill, wherever it stops, keeps its class in line between the MAC queue and the application queue |
| DeviceOrder.PurgeThenRefill | pfc/qbb-net-device.cc:513-571 | From an empty hold queue, a purge and a refill that finds room move the class behind the rest and keep the order inside every class and of the control frames |
| DeviceStall.StallsIff | pfc/qbb-net-device.cc:542-571 | An action leaves frames in the MAC queue of an idle transmitter if and only if it is a refill that has something to move and meets an idle transmitter |
| DeviceStall.QueueFits | pfc/qbb-net-device.cc:537-539 | In every reachable state the MAC queue is within its limit, so no ignored Enqueue result is a refusal |
| DeviceStall.JamPersists | pfc/qbb-net-device.cc:542-571 | An idle transmitter with a full queue stays so, and sends nothing, under every action but a pause that purges its queue |
| DeviceStall.JammedForever | ns-3.45/src/point-to-point/model/point-to-point-net-device.cc:529-548 | From a jammed state on, whatever is accepted or received, no frame leaves until a pause for a class in the MAC queue arrives |
| DeviceStall.PauseEndsJamIff | pfc/qbb-net-device.cc:350-361 | A pause of one class ends a jam if and only if that class is in the MAC queue |
| DeviceStall.JamsIff | pfc/qbb-net-device.cc:329-578 | A device that is not jammed becomes jammed by an action, of any kind, if and only if a refill in it meets an idle transmitter and fills the MAC queue to its limit |
| DeviceStall.UnjammedIff | pfc/qbb-net-device.cc:329-578 | A run is free of jammed states if and only if it is free of such refills |
| DeviceStall.ResumeJamsIff | pfc/qbb-net-device.cc:573-578 | The end of a pause jams an idle device with an empty MAC queue if and only if the backlog fills the queue |
| DeviceWitness.JamIsReachable | pfc/qbb-net-device.cc:329-578 | For every configuration with room for one frame, every pause and every transmission time within it, there is a run from the initial state into a jam in which no class is gated |
| DeviceWitness.OvertakingIsReachable | pfc/qbb-net-device.cc:258-571 | For every such configuration, pause and transmission time there is a run in which a frame accepted after others of its class enters the MAC queue before them |
| DeviceWitness.OvertakingReachesTheWire | pfc/qbb-net-device.cc:258-571 | That run, over numbered packets, goes on until the newer frame has been sent and older ones are still on hold, if each queued frame takes at most its share of the refill retry: the wire is not in the order of acceptance |
| DeviceWatermark.OccupancyDecides | pfc/qbb-net-device.cc:497-511 | The occupancy counts the ingress queue; at the high watermark or above the class is congested, at the low watermark or below it is not |
| DeviceWatermark.ControlFramesBounded | pfc/qbb-net-device.cc:472-511 | A class is congested exactly while it has signalled one pause more than resumes, and pauses times the watermark gap never exceed its arrivals |
| DeviceWatermark.Verdicts | pfc/qbb-net-device.cc:472-511 | For all thresholds, and with flow control on or off: the count, the verdict and the signals that an arrival and a delivery lead to |
| DeviceWatermark.ArrivalNeverResumes | pfc/qbb-net-device.cc:507-510 | No arrival sends a resume frame: the low-watermark test in OnDataRx never fires when low < high |
| DeviceWatermark.DeliveredInOrder | pfc/qbb-net-device.cc:370-495 | Per class, what arrived is what was delivered followed by what waits, under every configuration |
| Headroom.LinkAlwaysOk | pfc/qbb-net-device.cc:497-511 | On a link of two devices B's signals for a class are pauses and resumes in turn, one for each that it counted, as long as none was refused |
| Headroom.GrowthBounded | pfc/qbb-net-device.cc:497-511 | While a congestion episode is open the ingress queue grows by no more than what arrives, and nothing more is signalled |
| Headroom.PauseStands | pfc/qbb-net-device.cc:329-368 | Once A has heard all that B has signalled, its pause state for the class is the pause of the episode until the episode closes |
| Headroom.NothingStarted | pfc/qbb-net-device.cc:247-279 | While that pause is in force A starts no frame of the class |
| Headroom.HeadroomBound | pfc/qbb-net-device.cc:329-540 | From the moment B crosses the high watermark, as long as the episode is open, the class occupies at most the high watermark, plus the frames on the wire when it was crossed, plus those A has started since; once A has caught up, and until the pause runs out, only those it started before it processed the pause |
| QbbDevice.QbbNetDevice.constructor | pfc/qbb-net-device.cc:179-185 | A new device is in the initial state of the state machine |
| QbbDevice.QbbNetDevice.SendToMac | ns-3.45/src/point-to-point/model/point-to-point-net-device.cc:502-549 | Refuses a frame exactly when the queue is full, and otherwise queues it and starts the head of an idle transmitter |
| QbbDevice.QbbNetDevice.TransmitComplete | ns-3.45/src/point-to-point/model/point-to-point-net-device.cc:256-287 | The next queued frame goes on the wire, and without one the transmitter is idle |
| QbbDevice.QbbNetDevice.Send | pfc/qbb-net-device.cc:231-240 | The frame joins its class queue, a dequeue event is pending afterwards, and nothing else changes |
| QbbDevice.QbbNetDevice.PickNext | pfc/qbb-net-device.cc:247-256 | The highest class that has a frame and is not gated, and -1 exactly when there is none |
| QbbDevice.QbbNetDevice.TryDequeue | pfc/qbb-net-device.cc:258-279 | The head of the picked class goes to the transmitter or, refused, stays and is retried after 10 us; the second gate test cannot succeed |
| QbbDevice.QbbNetDevice.PurgeMacQueueForPrio | pfc/qbb-net-device.cc:513-540 | The two loops move exactly the data frames of the class to its hold queue, in order, and put the rest back in order without a refusal |
| QbbDevice.QbbNetDevice.MoveHeldFrames | pfc/qbb-net-device.cc:553-561 | As many held frames as the queue has room for move to its end, in order, and the rest stay on hold |
| QbbDevice.QbbNetDevice.RefillMacQueueFromHold | pfc/qbb-net-device.cc:542-571 | A gated class is left alone; otherwise it is unpaused, refilled, and either a retry or a dequeue event is pending |
| QbbDevice.QbbNetDevice.ResumeFromPause | pfc/qbb-net-device.cc:573-578 | Unpauses and refills the class unless its pause has been prolonged |
| QbbDevice.QbbNetDevice.GetBitTime | pfc/qbb-net-device.cc:611-616 | The time of a bit: times the bit rate it is one second, and without a rate it is a nanosecond |
| QbbDevice.QbbNetDevice.HandleXon | pfc/qbb-net-device.cc:344-349 | A zero quanta unpauses the class, cancels its timer and refills |
| QbbDevice.QbbNetDevice.HandleXoff | pfc/qbb-net-device.cc:350-361 | A quanta pauses the class for that many times 512 bit times, purges it from the MAC queue and replaces its timer by the end of the pause |
| QbbDevice.QbbNetDevice.HandlePfcFrame | pfc/qbb-net-device.cc:337-367 | The classes that a control frame enables are handled in increasing order, and a frame that enables none is ignored |
| QbbDevice.QbbNetDevice.OnDataRx | pfc/qbb-net-device.cc:497-511 | The arrival is counted and the two watermark tests decide about a pause and a resume frame |
| QbbDevice.QbbNetDevice.SendPfcXoff | pfc/qbb-net-device.cc:580-592 | Counts the pause and hands a frame for that class alone, with the default quanta, to the transmitter |
| QbbDevice.QbbNetDevice.SendPfcXon | pfc/qbb-net-device.cc:594-606 | Counts the resume and hands a frame for that class alone, with a zero quanta, to the transmitter |
| QbbDevice.QbbNetDevice.EnsureTokenManager | pfc/qbb-net-device.cc:281-298 | The device ends up with its node's one token manager, in which every PFC port is registered |
| QbbDevice.PortsRegistered | pfc/qbb-net-device.cc:292-297 | Exactly the PFC ports get a bucket each, full and of their own rate unless they had one, and nothing else changes |
| QbbDevice.QbbNetDevice.HandleMacRx | pfc/qbb-net-device.cc:329-379 | A control frame changes the sending half only; a data frame is queued, counted and will be drained |
| QbbDevice.QbbNetDevice.DoIngressDrain | pfc/qbb-net-device.cc:440-495 | One frame of the highest waiting class is delivered, unless it leaves through a port whose token manager, asked as prescribed, refuses it: then it stays and is retried after 10 us; device and manager together make the drain of `StaleDemand` |
| TokenManager.TokenBucket.TryConsume | pfc/qbb-net-device.cc:36-53 | With the tokens held, plus the elapsed time times the rate, up to the capacity, takes what was asked if that is enough, and otherwise takes nothing |
| TokenManager.TokenBucket.Refund | pfc/qbb-net-device.cc:55-58 | Gives tokens back up to the capacity |
| TokenManager.EgressTokenManager.RegisterEgressPort | pfc/qbb-net-device.cc:76-83 | A port gets one bucket, the first time, with the burst of one millisecond and at least eight packets |
| TokenManager.EgressTokenManager.SelectNextIngress | pfc/qbb-net-device.cc:102-112 | The least active port above the last one served, and the least of all when there is none above |
| TokenManager.EgressTokenManager.TryConsumeTokenFair | pfc/qbb-net-device.cc:114-143 | Grants exactly when there are tokens and it is the caller's turn; a refusal out of turn leaves the tokens as they were |
| TokenLaws.RefillTwice | pfc/qbb-net-device.cc:36-43 | Refilling at two moments in turn is the same as refilling once at the second |
| TokenLaws.RefundRestores | pfc/qbb-net-device.cc:45-58 | A refund right after a consumption restores the bucket exactly, in spite of the cap |
| TokenLaws.RefusalPaysBack | pfc/qbb-net-device.cc:114-143 | Every refusal leaves the bucket as a mere refill would and the turn where it was |
| TokenLaws.GrantTakes | pfc/qbb-net-device.cc:114-143 | Every grant takes exactly what was asked for |
| TokenLaws.RefundCapped | pfc/qbb-net-device.cc:55-58 | A refund adds the tokens, and what is above the capacity is lost |
| TokenLaws.NewPort | pfc/qbb-net-device.cc:76-83 | A new port gets a full bucket whose rate times eight times the packet size is the bit rate, with the packets of a millisecond and at least eight as burst |
| TokenLaws.AffordsIff | pfc/qbb-net-device.cc:36-53 | A request is affordable exactly if it fits the capacity and the tokens plus elapsed time times rate cover it |
| TokenLaws.GrantedIff | pfc/qbb-net-device.cc:36-143 | Over a run without grants, a request is granted exactly if it is the caller's turn and what was left plus what the rate has yielded since covers it, whoever was refused in between |
| TokenLaws.ServedInTime | pfc/qbb-net-device.cc:36-143 | A port whose turn it is is granted its request once the time since the last grant times the rate covers it |
| TokenLaws.RateBound | pfc/qbb-net-device.cc:36-143 | Over any run all ingress ports together are granted on a port at most the burst plus the rate times the elapsed time |
| TurnLaws.SelectedIsFirst | pfc/qbb-net-device.cc:102-112 | The selected port is active and is met before every other active port when going up from the last one served and wrapping around |
| TurnLaws.BypassedOnce | pfc/qbb-net-device.cc:92-143 | While a port stays registered and unserved no other port is granted twice, whoever registers and withdraws |
| TurnLaws.SilentPortBlocks | pfc/qbb-net-device.cc:114-143 | As long as the selected port does not ask and the active ports stay the same nobody is granted anything |
| TurnLaws.StaleDemand | pfc/qbb-net-device.cc:453-470 | Between any two ports: after one has asked for its last frame for the egress port without withdrawing, the other asks once and is refused at every later moment |
| StaleDemand.StaysBackedIff | pfc/qbb-net-device.cc:440-470 | From a state in which a registered port has a frame for the egress port, any step of its device or of the other ports keeps that so if and only if it is not a granted drain of its only such frame with others behind it in the class queue |
| StaleDemand.StaysStaleIff | pfc/qbb-net-device.cc:370-470 | A port that is registered without such a frame stays so until exactly the arrival of one, and its own steps leave the arbiter of the egress port alone |
| StaleDemand.StaleIff | pfc/qbb-net-device.cc:370-470 | Over every run, a port is registered without a frame if and only if some drain left it so and no frame for the egress port has arrived since |
| StaleDemand.StaleBlocks | pfc/qbb-net-device.cc:92-143 | While a demand is stale no other port is granted two tokens of the egress port, whoever registers and withdraws and however many tokens there are |
| StaleDemand.StaleDevice | pfc/qbb-net-device.cc:440-495 | A device with one frame for an egress port and one for another behind it delivers both, ends with empty queues and a stale demand, and a competitor asks once and is refused ever after |
| TurnLaws.WindowServesEachOnce | pfc/qbb-net-device.cc:102-143 | Any n consecutive turns among n ports serve each port exactly once |
| TurnLaws.SharesDifferByOne | pfc/qbb-net-device.cc:102-143 | Over any number of turns no port is ahead of another by more than one |
| TurnLaws.RoundRobin | pfc/qbb-net-device.cc:114-143 | With a fixed set of at least two active ports the manager's grants are such turns, over every run |
| PfcHeaders.DecodeEncode | pfc/pfc-header.cc:55-78 | What was serialized is read back |
| PfcHeaders.EncodeDecode | pfc/pfc-header.cc:55-78 | Every 20-byte buffer is the serialization of what is read from it |
| PfcHeaders.Layout | pfc/pfc-header.cc:55-65 | Opcode, mask, reserved octet and quanta stand at their places, words with the high octet first |
| PfcHeaders.SignalBytes | pfc/qbb-net-device.cc:583-590 | A signal's bytes are the opcode 0x0101, the bit of its class, and the quanta in the place of that class and nowhere else |
| PfcHeaders.EmptyMask | pfc/qbb-net-device.cc:337 | A mask selects no class exactly when it is zero |
| PfcHeaders.BuildHeader | pfc/qbb-net-device.cc:583-587 | The constructor and the two setters that SendPfcXoff and SendPfcXon call make the header of one class with one quanta |
| PfcHeaders.ReadSignal | pfc/qbb-net-device.cc:334-344 | A received packet is read as the control frame of exactly the classes whose bit is set, with their quanta |
| PfcHeaders.PassSignal | pfc/qbb-net-device.cc:580-606 | What is built with the setters and serialized is read by the peer as the pause or resume frame of that class alone |
| PfcHeaders.FrameArrives | pfc/pfc-header.cc:55-78 | The header of one class and one quanta, encoded and decoded, enables that class alone with that quanta |
| PfcHeaders.SignalArrives | pfc/qbb-net-device.cc:334-361 | Such a frame, handled by the peer, changes the pause state of its class as asked and of no other class |
| PfcHeaders.PfcHeader.SetPauseQuanta | pfc/pfc-header.h:36-39 | Sets one quanta, and nothing for a class number of eight or more |
| PfcHeaders.PfcHeader.Serialize | pfc/pfc-header.cc:55-65 | Writes the 20 bytes of the encoding and touches nothing behind them |
| PfcHeaders.PfcHeader.Deserialize | pfc/pfc-header.cc:67-78 | Sets the fields to what the first 20 bytes encode and reports that size |
| WorkerPool.PoolAlwaysOk | ns-3.45/test.py:1086-1160 | In every interleaving each dispatched job is in exactly one place, pills and finished workers add up, no job stands behind a pill, and results are genuine |
| WorkerPool.NoDeadlock | ns-3.45/test.py:1957-1961 | As long as the main thread has not ended some thread can go on: no get and no join blocks for ever |
| WorkerPool.RunsEnd | ns-3.45/test.py:1936-1961 | No run of J jobs and N workers has more than 5 J + 3 N + 1 steps |
| WorkerPool.AllCollected | ns-3.45/test.py:1957-1961 | When no thread can go on, the main thread has ended, each job has been collected exactly once, each worker has taken its one pill, and nothing is left in the queues |
| WorkerPool.ResultsAreMade | ns-3.45/test.py:1086-1160 | Over every run each result comes from a worker step that took up its job, and is a break exactly while the interrupt is on, otherwise a skip for a job to be skipped and the return code of that step for any other |
| WorkerPool.CountsAreRuns | ns-3.45/test.py:1086-1990 | At the end of every run there are as many passes, failures, valgrind errors, crashes, skips and breaks as worker steps with that outcome |
| WorkerPool.Summarize | ns-3.45/test.py:1959-1990 | Each counter is the number of results of its status, and the counters and the interrupted jobs add up to the number of jobs |
| WorkerPool.TotalsAreJobs | ns-3.45/test.py:1957-1990 | At the end of every run the statuses of the collected results and the interrupted jobs add up to the number of dispatched jobs |
| WorkerPool.NoBreakWithoutInterrupt | ns-3.45/test.py:1086-1103 | In no state of a run without an interrupt has a job come back as a break |
| TypePaths.StaticInformation.GetCurrentPath | ns-3.45/utils/print-introspected-doxygen.cc:351-361 | The elements of the current path, each behind a slash |
| TypePaths.StaticInformation.HasAlreadyBeenProcessed | ns-3.45/utils/print-introspected-doxygen.cc:370-382 | Whether the type is being processed |
| TypePaths.PathStringFrom | ns-3.45/utils/print-introspected-doxygen.cc:351-361 | Each element of a path stands behind a slash: an attribute's name, a container's name with an index, a type's name behind a dollar sign |
| TypePaths.AttributeEdgesFrom | ns-3.45/utils/print-introspected-doxygen.cc:447-487 | In order, each pointer attribute is followed unless it leads to the root type, each container attribute always and with an index, and no other |
| TypePaths.DerivedEdgesFrom | ns-3.45/utils/print-introspected-doxygen.cc:488-500 | In the order of registration, each derived type is followed |
| TypePaths.AggregateEdgesFrom | ns-3.45/utils/print-introspected-doxygen.cc:501-520 | In order, each aggregation of the type is followed to its other side |
| TypePaths.StaticInformation.DoGather | ns-3.45/utils/print-introspected-doxygen.cc:438-522 | Terminates, appends exactly the entries of the simple walks from its argument, each extending the current path, and restores the path and the marks |
| TypePaths.StaticInformation.Gather | ns-3.45/utils/print-introspected-doxygen.cc:430-436 | Adds what DoGather adds: Uniquefy sorts and thins out a copy, which equals the output exactly if that is strictly sorted already |
| UniqueItems.Uniquefy | ns-3.45/utils/print-introspected-doxygen.cc:414-420 | The local container ends up with the items of the argument, each once and strictly sorted |
| UniqueItems.StringLessIff | ns-3.45/utils/print-introspected-doxygen.cc:418 | Strings are ordered by their first difference, and a beginning comes before the whole |
| UniqueItems.UniquefiedIff | ns-3.45/utils/print-introspected-doxygen.cc:402-412 | A list already is what Uniquefy makes of it if and only if it is strictly sorted |
| TypePaths.StaticInformation.Get | ns-3.45/utils/print-introspected-doxygen.cc:384-397 | The recorded paths of a type, in order |
| TypePaths.PathsToFrom | ns-3.45/utils/print-introspected-doxygen.cc:384-397 | The paths of a type are picked one by one in the order of the output |
| TypePaths.WalksAreSimple | ns-3.45/utils/print-introspected-doxygen.cc:438-522 | A walk is found if and only if it visits no type twice and none that is being processed |
| TypePaths.WalksDistinct | ns-3.45/utils/print-introspected-doxygen.cc:438-522 | Each walk is found once |
| TypePaths.EntryAt | ns-3.45/utils/print-introspected-doxygen.cc:363-368 | The k-th entry is the end and the path string of the k-th walk |
| TypePaths.PathsAreSimpleWalks | ns-3.45/utils/print-introspected-doxygen.cc:384-397 | From a fresh start the paths reported for a type are exactly those of the simple walks that end there |
| TypePaths.EqualEdgesRepeat | ns-3.45/utils/print-introspected-doxygen.cc:438-522 | Walks that differ only in the choice between two equal edges at their start are recorded alike, and one is simple if and only if the other is |
| TypeRepeats.SamePathIff | ns-3.45/utils/print-introspected-doxygen.cc:438-522 | Where the part of a path tells which type it leads to, two simple walks lead to the same type by the same path if and only if some simple walk comes to a type with two equal edges that both continue it |
| TypeRepeats.PathStringInjective | ns-3.45/utils/print-introspected-doxygen.cc:351-361 | Different paths of names without slashes are different strings |
| TypeRepeats.RepeatsIff | ns-3.45/utils/print-introspected-doxygen.cc:430-522 | The output holds an entry twice if and only if some simple walk comes to a type with two equal edges that both continue it |
| TypeRepeats.RegistryRepeatsIff | ns-3.45/utils/print-introspected-doxygen.cc:430-522 | In a registry whose types and attributes have names of their own (which `ns-3.45/src/core/model/type-id.cc:391` and `700-704` enforce), the output holds an entry twice if and only if a simple walk comes to a type that is linked twice to one that is not on the way |
| TypeRepeats.DerivedAndAggregatedRepeats | ns-3.45/utils/print-introspected-doxygen.cc:488-520 | Whatever the names, the output holds an entry twice if a simple walk comes to a type with a derived type, not on the way, that is also aggregated to it |
| TypeRepeats.TwiceRecorded | ns-3.45/utils/print-introspected-doxygen.cc:488-520 | The output for a registry of two types, one derived from the other and aggregated to it, holds the same entry twice |
| TypeOrder.WalksInOrder | ns-3.45/utils/print-introspected-doxygen.cc:438-522 | The walks are found depth first and in the order of the edges |
| TypeOrder.SortedIff | ns-3.45/src/core/model/type-id.cc:1337-1341 | The output is strictly sorted, by type number and then by path, if and only if simple walks only go to types with larger numbers and all that is recorded beyond an edge comes before what is recorded for each later edge of the same type |
| TypeOrder.DownRecorded | ns-3.45/utils/print-introspected-doxygen.cc:447-476 | The output for a type with a pointer to a type registered earlier is out of order |
| SizeCdf.LoadSizeCdf | cys/test1.cc:151-215 | Reads, sorts and cleans the lines into the table, and fails exactly when no line could be read |
| SizeCdf.ReadRounds | cys/test1.cc:160-166 | A line's size is rounded to the nearest integer and its percentage cut to 0 to 100 |
| SizeCdf.CleanEntries | cys/test1.cc:176-210 | The cleaning loop, with its last percentage and size, computes the cleaned list |
| SizeCdf.SortPermutes | cys/test1.cc:171-175 | Sorting only changes the order of the entries |
| SizeCdf.CleanPcts | cys/test1.cc:179-209 | The cleaned list has each percentage of the sorted one, and no other, once and in increasing order |
| SizeCdf.CleanSizes | cys/test1.cc:179-209 | Where nothing lowers, the size at a percentage is the largest of the smallest sizes of all percentages up to it |
| SizeCdf.CleanSizeExact | cys/test1.cc:179-209 | The size at every percentage: its first line's, raised to that of the percentage before, unless its second line is smaller than that |
| SizeCdf.FinishedTableOk | cys/test1.cc:210-215 | Every table runs with strictly increasing percentages from exactly 0 to exactly 100, keeps every cleaned entry, and adds at most (0, 0) in front and the last size at the end |
| SizeCdf.TableRisesIff | cys/test1.cc:191-208 | The sizes of the table never fall if and only if no repeated percentage has a size below the leading size of a smaller percentage |
| SizeCdf.DistinctRises | cys/test1.cc:179-209 | With distinct percentages the sizes never fall |
| SizeCdf.TableCanFall | cys/test1.cc:193-200 | Three entries whose table falls from 100 to 7 |
| SizeCdf.SampleSizeFromCdf | cys/test1.cc:220-241 | The scan and the interpolation with the 32-bit difference compute the sample; the test for an empty step never holds |
| SizeCdf.SampleMonotone | cys/test1.cc:220-241 | On a rising table a larger percentage never draws a smaller size |
| SizeCdf.SampleOnLine | cys/test1.cc:228-240 | Between two entries the point on the straight line between them is drawn, rounded to the nearest integer and at least 1; where the table falls the line rises to the size plus 2 to the 32 |
| SizeCdf.SampleOutside | cys/test1.cc:223-227 | Outside the table the first or last size is drawn, at least 1 |
| SizeCdf.SampleAtEntry | cys/test1.cc:228-240 | At a table percentage the table's size is drawn, at least 1, unless the table falls there: then the draw is off by 2 to the 32 |
| SizeCdf.SampleFitsIff | cys/test1.cc:220-241 | All draws lie between 1 and the last size if and only if the table rises |
| SizeCdf.DrawsFitIff | cys/test1.cc:151-241 | From the lines to the draws: all draws are in range if and only if no repeated percentage lowers a size |
| DependencyOrder.Sorter.ModulesThatCanBeLoaded | ns-3.45/bindings/python/ns__init__.py:443-454 | The pending modules, in order, all of whose dependencies are loaded |
| DependencyOrder.Sorter.Continue | ns-3.45/bindings/python/ns__init__.py:456-471 | Returns exactly when the recursion ends, with the steps appended and everything moved from pending to loaded |
| DependencyOrder.SortToDependencies | ns-3.45/bindings/python/ns__init__.py:473-478 | The steps in one list, when the recursion ends |
| DependencyOrder.StuckStays | ns-3.45/bindings/python/ns__init__.py:459-471 | A call that can load nothing calls itself with the lists it had |
| DependencyOrder.EndsIff | ns-3.45/bindings/python/ns__init__.py:456-471 | The recursion ends if and only if every dependency is a key and there is no dependency cycle |
| DependencyOrder.OrderIsSorted | ns-3.45/bindings/python/ns__init__.py:473-478 | The list has exactly the pending modules, each once and after all its dependencies |
| DependencyOrder.StepsKeepOrder | ns-3.45/bindings/python/ns__init__.py:443-471 | Inside a step the modules stand in the order of the pending list |
| DependencyOrder.StepIsLongestChain | ns-3.45/bindings/python/ns__init__.py:456-471 | The step of a module is the length of its longest chain of dependencies |

## Left out

- Link state: a device is attached before it sends, so Send never fails for want of a channel.
- Packets without an IPv4 header: a packet has a fixed class, which Send and the purge read alike.
- Widths of counters and queues: `uint32_t` counters are unbounded here; only the sampler's 32-bit difference wraps.
- Floating-point rounding of times, rates, tokens and percentages.
- The cast of a burst above 2 to the 32 packets, and of sizes above 32 bits in the size file.
- Transmission times: a frame being sent may end at any moment; every order of events that the original has is among those covered, and the two runs that show a fault hold for any transmission time within the pause.
- Re-entry into the device from Ipv4L3Protocol::Receive while a frame is being delivered.
- Attributes that change during a run: the configuration of a device is fixed.
- Routing: which port a received packet leaves through is part of the packet, and IsLocalDelivery and GetEgressPortOrInvalid are not modelled.
- SendFrom, BroadcastPfcXoff and BroadcastPfcXon, which only forward, and HookL3Divert, L3Swallow and the counters' printing.
- DeviceWatermark.OccupancyDecides: states the thresholds for flow control switched on and low < high only, because otherwise one arrival can pass both tests.
- Headroom.HeadroomBound: once A has caught up it holds until the pause runs out, because a pause is sent once for an episode and never renewed; it assumes that B's transmitter refused no control frame and a default quanta above zero, which would be read as a resume.
- WorkerPool.RunsEnd: counts one step for each get, put, join and completed job; a job that never returns is not modelled.
- WorkerPool.Summarize: the printing, the XML report and the lists of names beside the counters.
- TypePaths.StaticInformation.DoGather: IsChildOf is a relation between types, and path elements are turned into strings when a path is recorded.
- TypePaths: RecordAggregationInfo, GetNoTypeIds, where Uniquefy has no effect either, and the printing of the documentation.
- SizeCdf.LoadSizeCdf: opening the file and splitting its lines; a line that does not parse is not among the lines.
- SizeCdf.SampleSizeFromCdf: the percentage is a parameter in place of the random variable, and the result is the value before it is stored in 32 bits.
- DependencyOrder.Sorter.Continue: the endless recursion of the original is reported as an error where it starts to repeat itself, and a limit on the recursion depth is not modelled.
- Library discovery in the bindings, subprocesses and argument handling in the test runner, and topology, flows and statistics in `cys/test1.cc`.
