# AutoCAR data-plane model

A Dafny model of the state machines and wire formats that AutoCAR's data plane rests on, with proofs of the
guarantees they are built for. Verify with `dafny verify dfyconfig.toml`.

The pattern repeats from part to part. A *specification* module gives the state as a datatype and every critical
section as a function; a step system lets those sections interleave freely, with crashes, cancellations, clock
readings and results chosen by the environment. A *proofs* module shows an inductive invariant and draws the
guarantees from it for every reachable state; beside it stands what the system must achieve, as against what it must
never do: whom it admits, what it learns, what it returns. An *object* module holds the classes and loops in the
source's own form, each method proved to change its fields exactly as the specification function says. Where an object
is shared by goroutines (`PacketSendQueue`, `Controller`, `DialLoop`), its `Valid` says that its fields form a reachable
state of the step system; every method that is a critical section of its own keeps that, so the guarantees over runs
hold of the object. The methods such a section is made of state their effect only.

| modules | what they model |
|---|---|
| `SendQueue`, `SendQueueProofs`, `SendQueueLaws`, `SendQueueObject` | the bounded scheduler with one lane per target and a lazily started worker pool |
| `Pacer`, `PacerProofs`, `PacerLaws`, `PacerRates`, `PacerWaits`, `PacerExample`, `PacerObject`, `Estimator` | the token bucket, its capacity probe, concurrent calls of Wait, and the adaptive estimator |
| `Datagram`, `Reassembler`, `ReassemblerProofs`, `ReassemblerLaws`, `ReassemblerObject`, `Delivery` | the fragment codec, the bounded reassembler, and the way from one to the other |
| `Protocol`, `Wire` | the stream header, its readers, and writing under short writes |
| `DialRace`, `DialOutcome`, `DialRaceObject` | the two-slot dial race and who owns which connection |
| `DeniedPrefix` | denied prefixes across native and IPv4-mapped spellings; the order of attempts |
| `Campaign`, `CampaignProofs`, `CampaignProgress`, `CampaignExample`, `CampaignObject` | the append-only ledger, the manifest, and crashes at any byte |
| `Tpr` | the single-pass TPR sweep against all thresholds |
| `DnsGrammar`, `DnsFraming` | the classic-DNS framing checker against a grammar with a printer |
| `ConnTracker`, `ConnTrackerLaws`, `ConnTrackerObject` | the connection tracker, connection contexts and shutdown |
| `Basics`, `MapSums` | shared vocabulary |

Modelling decisions:

- Time is an integer number of nanoseconds. `Observe` may read its clock up to four times (`Pacer.Readings`); each
  reading is an input of its own, in order but otherwise free.
- Go floats and Python floats are exact reals. Rounding and overflow of 64-bit integers are not modelled.
- A lane pointer of the send queue is a serial number next to its address, so a worker that held on to a retired lane
  would be seen to.
- `Datagram.Check` and the request reader take address syntax as a predicate.

## Model

| member | source | states |
|---|---|---|
| SendQueueProofs.SendsNeverBlock | internal/transport/packet_send_queue.go:84-175 | in every reachable state no step can overfill the ready channel or the one-entry error channel, so no send under the mutex blocks |
| SendQueueProofs.ReadyLanesHaveIdleWorkers | internal/transport/packet_send_queue.go:116-124 | until Stop there are at least as many workers as lanes and at least as many idle workers as ready lanes, whatever the running callbacks do |
| SendQueueProofs.NoLaneIsForgotten | internal/transport/packet_send_queue.go:112-175 | until Stop every lane is in the ready channel, in a worker's hand, or in a callback |
| SendQueueProofs.WorkersNeverDangle | internal/transport/packet_send_queue.go:127-175 | a worker that took a lane can always start it, and one that sends can always settle with the very lane it was given |
| SendQueueProofs.CallbacksNeverOverlap | internal/transport/packet_send_queue.go:127-175 | no two workers ever run callbacks for the same target, across retirement and re-creation of lanes |
| SendQueueProofs.PerTargetFifo | internal/transport/packet_send_queue.go:84-175 | per target, what callbacks were started for is a prefix of what was accepted, and until cancellation the rest is exactly what waits |
| SendQueueProofs.AccountingIsExact | internal/transport/packet_send_queue.go:84-203 | global packets and bytes are the sums over lanes, each lane counts its queue plus its running callback, and all limits hold |
| SendQueueProofs.NothingLeftAfterStop | internal/transport/packet_send_queue.go:159-203 | once stopped with every callback returned, every counter is zero and no lane remains |
| SendQueueProofs.CancelIsFinal | internal/transport/packet_send_queue.go:87-89 | after cancellation nothing is accepted and no callback starts, in any continuation |
| SendQueueProofs.StepInv | internal/transport/packet_send_queue.go:84-203 | every atomic section keeps the invariant behind the results above |
| SendQueueLaws.AdmissionIsExact | internal/transport/packet_send_queue.go:84-125 | a packet is admitted exactly if the queue is not cancelled and there is room for it, by the sums over the lanes, its target's half and the number of targets; it is then the newest of its target, and otherwise nothing changes; the answer is Closed exactly after stop or cancellation |
| SendQueueLaws.EverythingIsSent | internal/transport/packet_send_queue.go:127-175 | from every reachable state of a live queue the workers, if callbacks do not break, send every packet ever accepted, per target in order, and nothing is left |
| SendQueueLaws.StopStops | internal/transport/packet_send_queue.go:192-203 | Stop leaves nothing waiting and only the lanes that are in a callback |
| SendQueueLaws.BreakageIsReported | internal/transport/packet_send_queue.go:152-158 | a callback that breaks while the context lives stops the queue, and its error is reported |
| SendQueueLaws.OtherReturnsAreQuiet | internal/transport/packet_send_queue.go:152-153 | any other return changes nothing but the worker's own place |
| SendQueueObject.PacketSendQueue.constructor | internal/transport/packet_send_queue.go:61-77 | at least one packet, at most eight targets and no more than packets, half the packets rounded up per target; the queue starts empty, in a reachable state |
| SendQueueObject.PacketSendQueue.Decide | internal/transport/packet_send_queue.go:87-106 | which admission check refuses, in source order; what it admits is the subject of `SendQueueLaws.AdmissionIsExact` |
| SendQueueObject.PacketSendQueue.Enqueue | internal/transport/packet_send_queue.go:84-125 | the packet is accepted exactly if there is room and the queue is not cancelled, and then is the newest accepted one; the whole new state is reachable again |
| SendQueueObject.PacketSendQueue.Grow | internal/transport/packet_send_queue.go:106-115 | the item joins its lane, and a new lane the ready channel |
| SendQueueObject.PacketSendQueue.StartWorker | internal/transport/packet_send_queue.go:116-123 | a worker is started exactly while there are fewer than lanes |
| SendQueueObject.PacketSendQueue.DiscardQueued | internal/transport/packet_send_queue.go:180-189 | the loop drops the waiting items and exactly their charges |
| SendQueueObject.PacketSendQueue.Stop | internal/transport/packet_send_queue.go:192-203 | the loop over lanes reaches the state in which only active lanes remain, empty |
| SendQueueObject.PacketSendQueue.TakeReady | internal/transport/packet_send_queue.go:131-136 | the receive from the ready channel hands the first lane to the worker |
| SendQueueObject.PacketSendQueue.SeeDone | internal/transport/packet_send_queue.go:132-135 | a worker that sees the cancellation stops the queue and exits |
| SendQueueObject.PacketSendQueue.Begin | internal/transport/packet_send_queue.go:137-150 | what a worker holds is there and has an item; the section marks the lane active and takes its first item, or stops |
| SendQueueObject.PacketSendQueue.Return | internal/transport/packet_send_queue.go:152-153 | an error counts as fatal exactly if it is not about this packet only and the context is live |
| SendQueueObject.PacketSendQueue.ReportFatal | internal/transport/packet_send_queue.go:152-158 | the first fatal error stops the queue and is reported once, with room in the error channel |
| SendQueueObject.PacketSendQueue.End | internal/transport/packet_send_queue.go:159-173 | the lane is there; settle, then retire it or hand it back, with room in the ready channel |
| PacerProofs.AdmissionBound | internal/accel/pacer.go:377-511 | over any window of any run, from any instant to any later one, bytes admitted less bytes refunded are at most one burst plus what the rate in force integrates to over that window, and tokens stay within the bucket |
| PacerProofs.AdaptiveCeiling | internal/accel/pacer.go:409-465 | in adaptive mode that is at most one burst plus the configured maximum rate over the length of the window, probes included |
| PacerProofs.IntegratedOverGap | internal/accel/pacer.go:621-644 | between critical sections that integral is the integral of the rate in force, idle time before the window left out |
| PacerLaws.BucketIsExact | internal/accel/pacer.go:377-511 | over any window of any run the bucket holds what it held, plus what the rate in force integrates to, less what was admitted and not refunded; it holds less only if it was full at some instant of the run, and then exactly that since this instant |
| PacerLaws.AdmissionIsExact | internal/accel/pacer.go:422-440 | a pass admits the chunk exactly if the refilled bucket covers it, and takes exactly the chunk |
| PacerLaws.RefusedPassIsFree | internal/accel/pacer.go:424-454 | a refused pass leaves at least what refilling alone would leave, if and only if it did not cut short a probe faster than the target, or the bucket fills anyway |
| PacerLaws.FailedCallCostsNothing | internal/accel/pacer.go:391-403 | a call that gives up and gives back what it took leaves the bucket worth what the rate in force made of it, and at least as full as refilling alone, unless a running probe's allowance is no more than the call asked for |
| PacerExample.FailedCallCanCost | internal/accel/pacer.go:424-428 | a reachable controller with such a probe, and a failed call that costs it half the tokens |
| PacerLaws.SleepIsCounted | internal/accel/pacer.go:446-461 | the time from a refused pass to its wake-up is counted as pacing, once, also while it lasts |
| PacerRates.FixedRateHolds | internal/accel/pacer.go:236-251 | a rate that was set is the target and the rate in force at every later instant |
| PacerRates.FixedRatePaces | internal/accel/pacer.go:595-602 | until the next change every window of every run earns exactly its length at the fixed rate |
| PacerRates.ObservationTeaches | internal/accel/pacer.go:253-347 | after a complete sample, stated in the terms of the snapshots, the samples hold the delivered rate as the estimator takes it and the target rate of the controller is the rounded aim within the configured range; the aim lies between gain times floors times estimate and gain times estimate, and is the latter on a clean path |
| PacerRates.NewEpochRestarts | internal/accel/pacer.go:275-287 | when a counter goes back the target and the rate in force are the initial rate, and samples and probe are gone |
| PacerRates.OtherObservationsTeachNothing | internal/accel/pacer.go:253-331 | every other observation leaves samples and target alone, and is the new baseline exactly if it is the first or closes an interval |
| PacerRates.EligibleSamplesStartProbe | internal/accel/capacity_probe.go:118-169 | while no probe runs, a complete sample starts one exactly if it is the third eligible one in a row, a second after the first and past the back-off, and a plan exists; otherwise it extends or ends the row |
| PacerRates.WorthwhileIsPlanned | internal/accel/capacity_probe.go:132-169 | a probe that is faster than target and estimate, within a megabyte and two seconds, is planned with that rate, budget, duration and gap |
| PacerRates.PlanIsWorthwhile | internal/accel/capacity_probe.go:132-169 | nothing else is planned |
| PacerRates.ProbeIsJudged | internal/accel/capacity_probe.go:101-117 | how each observation decides a probe: failed, with doubled back-off, by loss, a grown queue, silence or lack of pacing; ended well by two per cent more capacity; otherwise left running |
| PacerRates.ProbesExpire | internal/accel/capacity_probe.go:75-99 | a probe is over at its deadline, and fails if nothing was learned within the grace period |
| PacerWaits.BooksBalance | internal/accel/pacer.go:377-511 | in every interleaving of Wait calls refunds never exceed admissions, a finished call took exactly its size, and what is admitted and not refunded is what the calls that were not cancelled took |
| PacerWaits.KeptIsPaced | internal/accel/pacer.go:377-511 | over any window what calls take and keep is at most one burst plus what the rate in force integrates to |
| PacerWaits.StepInv | internal/accel/pacer.go:377-465 | every step of concurrent calls, token and refunds keeps the books |
| PacerProofs.PollingIsInvisible | internal/accel/pacer.go:621-644 | any sequence of extra refills in between leaves the tokens of a later refill unchanged, also across a probe deadline noticed late |
| PacerProofs.RefillTwice | internal/accel/capacity_probe.go:91-99 | one refill in between changes neither tokens nor refill time of the next |
| PacerProofs.RefillTokens | internal/accel/pacer.go:621-644 | a refill adds the integral of the rate, split at the probe deadline, up to the burst |
| PacerProofs.IntegralOfConstantRate | internal/accel/capacity_probe.go:39-44 | where the rate in force is constant, the integral is rate times time |
| PacerProofs.IntegralAdds | internal/accel/pacer.go:621-644 | the integral over adjoining windows adds up |
| PacerProofs.ProbesAreBounded | internal/accel/capacity_probe.go:8-170 | over every run each probe admits at most 1 MiB, lasts at most 2 s, stays at or below the maximum rate, and starts at least 1 s after the previous one ended |
| PacerProofs.PacingRateIsPositive | internal/accel/capacity_probe.go:39-44 | outside bypass mode the division by the pacing rate is always safe |
| PacerProofs.DelayIsExact | internal/accel/pacer.go:609-619 | the computed sleep earns the missing tokens, and one nanosecond less would not |
| PacerProofs.SleepThenGranted | internal/accel/pacer.go:430-464 | a chunk that sleeps outside a running probe and finds nothing changed is admitted at its first retry |
| PacerProofs.StepGood | internal/accel/pacer.go:236-511 | every locked section keeps bucket, probe and clock invariants, and moves the account no further than time alone would |
| PacerObject.Controller.constructor | internal/accel/pacer.go:173-202 | a configuration that passed validation gives a full bucket at the initial rate |
| PacerObject.Make | internal/accel/pacer.go:166-202 | refused exactly when the configuration with defaults filled in is out of range or out of order; otherwise a new controller with the documented defaults, a full bucket and the target of its mode |
| PacerObject.Controller.Refill | internal/accel/pacer.go:621-632 | the bucket after a refill split at the probe deadline |
| PacerObject.Controller.RefillAtRate | internal/accel/pacer.go:634-644 | the bucket after a refill at one rate; a clock that went backwards mints nothing |
| PacerObject.Controller.SetTargetRate | internal/accel/pacer.go:595-602 | a change of rate settles the elapsed time at the old rate first; that the new one takes effect is in `PacerRates` |
| PacerObject.Controller.SetFixedRate | internal/accel/pacer.go:236-251 | accepted exactly in fixed-rate mode for rates from 1 to 2^52; then the target, and the rate in force at every instant, is the given rate |
| PacerObject.Controller.Attempt | internal/accel/pacer.go:419-450 | one pass of the admission loop: granted exactly if the refilled bucket covers the chunk, else how long to sleep, always at a positive rate |
| PacerObject.Controller.Charge | internal/accel/pacer.go:427-440 | what a granted chunk takes from the bucket and from a running probe |
| PacerObject.Controller.Wake | internal/accel/pacer.go:455-461 | the time slept is added to the pacing total |
| PacerObject.Controller.Refund | internal/accel/pacer.go:499-511 | what a cancelled wait gives back, up to the burst; that no token is lost otherwise is in `PacerLaws.BucketIsExact` |
| PacerObject.Controller.Admit | internal/accel/pacer.go:409-465 | the loop of passes, wakes and cancellations admits the chunk once, or nothing; it fails only when the context has ended or the passes have, and every refused pass found too few tokens; the bucket keeps its worth |
| PacerObject.Controller.Wait | internal/accel/pacer.go:377-403 | a call that succeeds has admitted exactly its size; one that fails was cancelled or ran out of passes, has refunded exactly what it admitted, leaves the bucket worth what the rate in force made of it, and at least as full as without the call unless it asks for as much as a running probe has left |
| PacerObject.Controller.Serve | internal/accel/pacer.go:388-403 | the loop over chunks of at most one burst, with the same promises |
| PacerObject.Controller.TakeChunk | internal/accel/pacer.go:391-400 | one turn of that loop: the next chunk is admitted, or everything is given back |
| PacerObject.Controller.GiveUp | internal/accel/pacer.go:395-398 | the way out after a failed admission: everything taken is given back and nothing is lost |
| PacerObject.Controller.ObserveProbe | internal/accel/capacity_probe.go:101-170 | every transition of the probe on an observation |
| PacerObject.Controller.Consider | internal/accel/capacity_probe.go:132-169 | exactly when a probe starts, and with which rate, budget, deadline and gap |
| PacerObject.Controller.AbortProbe | internal/accel/capacity_probe.go:68-73 | a running or pending probe is resolved as failed and eligibility starts over |
| PacerObject.Controller.ResetProbe | internal/accel/capacity_probe.go:59-66 | elapsed time is settled before the probe is forgotten |
| PacerObject.Controller.ResolveProbe | internal/accel/capacity_probe.go:75-91 | success or failure of a pending probe and the backoff that follows |
| PacerObject.Controller.FinishProbe | internal/accel/capacity_probe.go:93-99 | an expired or exhausted probe becomes pending |
| PacerObject.Controller.Observe | internal/accel/pacer.go:253-347 | the state after an observation with each of its clock readings, and exactly which observations are rejected |
| PacerObject.Controller.Digest | internal/accel/pacer.go:289-347 | what a snapshot of the same counter epoch does to probe, estimator and rate |
| PacerObject.Controller.Settle | internal/accel/pacer.go:316-346 | what a complete sample does: abort after idling or without traffic, else learn |
| PacerObject.Controller.StartEpoch | internal/accel/pacer.go:275-287 | a counter that went back starts over at the initial rate, with each clock reading |
| Estimator.LimitedSampleNeverLowers | internal/accel/adaptive.go:72-90 | a pacing-limited sample never lowers the bandwidth estimate |
| Estimator.EightUnlimitedSamplesForgetThePast | internal/accel/adaptive.go:72-90 | after eight samples the estimate depends on those eight only |
| Estimator.TargetWithinFactors | internal/accel/adaptive.go:91-109 | the target lies between the gained estimate reduced by the two minimum factors and the gained estimate |
| Estimator.CleanPathTarget | internal/accel/adaptive.go:91-109 | without loss or delay beyond the thresholds the target is exactly gain times estimate |
| Estimator.RttFactorIsExact | internal/accel/adaptive.go:99-103 | the delay factor is one up to the threshold; beyond it the factor undoes the excess exactly, but not below its floor |
| Estimator.LossFactorIsExact | internal/accel/adaptive.go:104-107 | the loss factor is one up to the threshold; beyond it the factor gives up the weighted excess, but not below its floor |
| Estimator.DelayNeverRaises | internal/accel/adaptive.go:91-109 | more delay never raises the target |
| Estimator.HigherSampleIsLearned | internal/accel/adaptive.go:78-90 | a sample above the estimate becomes the estimate, under pacing too |
| Estimator.UnlimitedSampleIsTaken | internal/accel/adaptive.go:78-90 | a sample that pacing did not limit is always taken |
| Estimator.AdaptiveEstimator.BandwidthEstimate | internal/accel/adaptive.go:111-122 | the ring holds the last eight accepted samples, and its maximum, or the prior, is the estimate |
| Estimator.AdaptiveEstimator.Observe | internal/accel/adaptive.go:72-109 | the history grows by the accepted sample and the target is computed from its window |
| Estimator.AdaptiveEstimator.Reset | internal/accel/adaptive.go:66-70 | a reset forgets the history |
| Datagram.ParseOfFrame | internal/datagram/codec.go:148-223 | parsing an encoded fragment gives it back |
| Datagram.FrameOfParse | internal/datagram/codec.go:165-223 | any accepted frame is the encoding of a valid fragment, byte for byte |
| Datagram.FramesAreExact | internal/datagram/codec.go:148-223 | the parser accepts exactly the frames of valid fragments |
| Datagram.FrameFields | internal/datagram/codec.go:148-163 | at which offset of a frame each field stands |
| Datagram.CheckIsExact | internal/datagram/codec.go:225-242 | which fragments are valid |
| Datagram.RefusalIsExact | internal/datagram/codec.go:106-128 | a message is encoded exactly if its fields are within limits and at most 256 pieces that fit the frame size make up its payload, with room for at least one byte; the frame size is to blame exactly for the rest of the messages within limits |
| Wire.FirstByteWeighsMost | internal/datagram/codec.go:148-163 | numbers are in network order |
| Datagram.EncodeFragment | internal/datagram/codec.go:148-163 | the buffer filled in place holds the specified frame |
| Datagram.Encode | internal/datagram/codec.go:106-146 | refused exactly in the documented cases; otherwise the frames of consecutive parts, each within the frame size |
| Datagram.PartIsValid | internal/datagram/codec.go:106-146 | every part is a valid fragment and its frame fits |
| Datagram.GluedIsPayload | internal/datagram/codec.go:123-145 | the parts in order make up the payload |
| ReassemblerProofs.ReassemblyIsExact | internal/datagram/reassembler.go:84-180 | the fragments of any encoded message, in any order, with duplicates before completion and anything else interleaved, complete exactly once with exactly the message |
| Delivery.FramesReassemble | internal/datagram/codec.go:106-223 | from end to end over bytes: the frames Encode makes, fed to AddFrame in any order, with repeats before completion, other frames, expiry and other discards interleaved, give back exactly one message, the one that went in |
| ReassemblerProofs.EncodedFrameParses | internal/datagram/codec.go:106-223 | every frame of an encoded message parses to the fragment it stands for |
| ReassemblerProofs.CompletionsAreGenuine | internal/datagram/reassembler.go:95-180 | under any input whatsoever a completed message is made of delivered fragments that agree on session, message, flags, address and count |
| ReassemblerLaws.CompletionsAreFresh | internal/datagram/reassembler.go:80-180 | fragments from different datagrams are never combined: over every run, whatever arrives, a completed message has its key's identity and is made only of fragments that arrived under its key since the last conflict, purge, expiry, discard or completion |
| ReassemblerLaws.ConflictPurges | internal/datagram/reassembler.go:110-146 | a valid fragment that differs in flags, address, count or stored payload from its unexpired assembly is a conflict; its key is gone and every other unexpired assembly is untouched |
| ReassemblerLaws.AddIsExact | internal/datagram/reassembler.go:95-180 | an invalid fragment changes nothing; a valid one drops exactly what has expired and decides about its own message only, with the outcome and the remains given by one verdict over what has been received |
| ReassemblerProofs.BoundsAlwaysHold | internal/datagram/reassembler.go:95-237 | after any sequence of operations the byte counter is the sum of the stored parts and the bounds of store and assemblies hold |
| ReassemblerProofs.NoPartMissing | internal/datagram/reassembler.go:159-170 | the missing-part branch at completion is unreachable |
| ReassemblerObject.Reassembler.Add | internal/datagram/reassembler.go:95-180 | the new store and outcome of adding a fragment, errors included; the fate of its own message by the verdict, and no other unexpired message touched |
| ReassemblerObject.Reassembler.AddFrame | internal/datagram/reassembler.go:84-93 | an unparsable frame changes nothing; a parsed one is added |
| ReassemblerObject.Reassembler.Place | internal/datagram/reassembler.go:110-138 | conflict, single fragment, capacity, new assembly, in source order |
| ReassemblerObject.Reassembler.Extend | internal/datagram/reassembler.go:140-179 | duplicate, conflict with purge, oversize with purge, capacity, stored part, completion, in source order; what they come to is in `ReassemblerLaws.AddIsExact` |
| ReassemblerObject.Reassembler.Stats | internal/datagram/reassembler.go:208-217 | the true message and byte counts |
| ReassemblerObject.Reassembler.ExpireLocked | internal/datagram/reassembler.go:219-228 | the loop removes exactly the assemblies past their lifetime |
| ReassemblerObject.Reassembler.DiscardSession | internal/datagram/reassembler.go:194-206 | the loop removes exactly the assemblies of the session and counts them |
| ReassemblerObject.Reassembler.JoinParts | internal/datagram/reassembler.go:163-170 | the loop joins the parts in index order, or reports a gap |
| ReassemblerObject.Reassembler.RemoveLocked | internal/datagram/reassembler.go:230-237 | removal gives back exactly the bytes of the assembly |
| Protocol.ReadOfRequest | internal/protocol/protocol.go:174-258 | reading a written request gives it back and leaves the bytes behind it |
| Protocol.RequestOfRead | internal/protocol/protocol.go:210-258 | an accepted request is reproduced byte for byte by writing it |
| Protocol.RequestsAreExact | internal/protocol/protocol.go:174-258 | the writer refuses exactly the requests outside the listed limits, and the reader accepts exactly the inputs that start with the encoding of one within them |
| Protocol.ReadOfResponse | internal/protocol/protocol.go:260-324 | reading a written response gives it back and leaves the bytes behind it |
| Protocol.ResponseOfRead | internal/protocol/protocol.go:286-324 | an accepted response is reproduced byte for byte by writing it |
| Protocol.ResponsesAreExact | internal/protocol/protocol.go:260-324 | the same for responses |
| Protocol.HeadSlices | internal/protocol/protocol.go:339-365 | at which offset of a header each field stands |
| Protocol.MakeHeader | internal/protocol/protocol.go:339-365 | the header buffer filled in place holds the specified bytes |
| Protocol.HeaderOfRead | internal/protocol/protocol.go:367-393 | an accepted header is the encoding of what was read |
| Protocol.WriteAll | internal/protocol/protocol.go:422-438 | under any writer what goes out is a prefix, without an error it is everything, and a writer that always makes progress gets everything |
| Protocol.WriteRequest | internal/protocol/protocol.go:174-208 | an invalid request sends nothing; a valid one sends its bytes or a prefix and an error |
| Protocol.WriteResponse | internal/protocol/protocol.go:260-284 | an invalid response sends nothing; a valid one sends its bytes or a prefix and an error |
| DialRace.AtMostTwoAndNeverBlocked | internal/security/dialer.go:384-444 | at most two attempts are live, and a worker with a result always finds room in the channel |
| DialRace.StartedInOrder | internal/security/dialer.go:390-395 | addresses are started in order, each at most once |
| DialRace.NeverStalls | internal/security/dialer.go:435-487 | while the race runs something is in flight, and with addresses left the second slot is busy or the timer runs |
| DialRace.EveryConnectionAccountedFor | internal/security/dialer.go:375-493 | once the call returned and the drain is done, every opened connection is the one returned or was closed exactly once |
| DialRace.FailureMeansAllTried | internal/security/dialer.go:448-493 | a failure without cancellation means that every address was tried and reported an error |
| DialRace.EverythingSettles | internal/security/dialer.go:375-493 | from every reachable state, however the dials under way turn out, the call returns without another timer or cancellation, every goroutine ends, and every connection is returned or closed |
| DialOutcome.OpeningWins | internal/security/dialer.go:384-493 | from every reachable uncancelled race, without another timer, the call returns an open connection if and only if one is open already or a dial under way or still to come succeeds |
| DialOutcome.OpenedMeansWon | internal/security/dialer.go:448-474 | an uncancelled race that opened any connection returns one of them, not closed, and closes the others |
| DialOutcome.FailureMeansNothingOpened | internal/security/dialer.go:448-493 | an uncancelled race that fails has opened no connection |
| DialOutcome.TimerStartsNext | internal/security/dialer.go:475-480 | the fallback timer starts the next address beside the first |
| DialOutcome.FaultStartsNext | internal/security/dialer.go:465-474 | a failed attempt is replaced at once while addresses are left |
| DialOutcome.ConnectionIsReturned | internal/security/dialer.go:450-464 | the first connection to arrive is the one returned, and nothing has been closed before it |
| DialRace.StepInv | internal/security/dialer.go:375-493 | every step of loop, workers, drain and caller keeps the invariant behind the results above |
| DialRaceObject.DialApproved | internal/security/dialer.go:375-493 | the loop's variables are those of the step system driven by the same wishes; once drained every connection is returned or closed; without cancellation a failure has opened nothing, and a race that opened something returns an open connection |
| DialRaceObject.DialLoop.StartNext | internal/security/dialer.go:392-395 | the next address in order is started |
| DialRaceObject.DialLoop.ArmTimer | internal/security/dialer.go:435-440 | the timer is armed exactly with one attempt live, addresses left and no timer |
| DialRaceObject.DialLoop.Leave | internal/security/dialer.go:458-463 | the other attempt is cancelled, the timer stopped and the rest left to the drain |
| DialRaceObject.DialLoop.Receive | internal/security/dialer.go:450-474 | the result arm: return, close or try the next address |
| DialRaceObject.DialLoop.FireTimer | internal/security/dialer.go:475-480 | the timer arm starts the second attempt if there is room |
| DeniedPrefix.NormalizePreservesMeaning | internal/security/dialer.go:120-138 | the normalised prefix contains an unmapped address exactly when the written prefix contains it in its native or IPv4-mapped spelling |
| DeniedPrefix.RejectedOnlyWhenInexpressible | internal/security/dialer.go:129-137 | a well-formed prefix is refused if and only if no single prefix could stand for it, which is if and only if it is an IPv6 prefix shorter than /96 that covers the mapped range |
| DeniedPrefix.MappedIsLong | internal/security/dialer.go:124-128 | the subtraction of 96 is never negative |
| DeniedPrefix.ContainsIsBlock | internal/security/dialer.go:587-594 | a prefix holds exactly the block of addresses of its family from its masked address on |
| DeniedPrefix.ApprovedIsExact | internal/security/dialer.go:234-250 | exactly the resolver's answers of the family asked for that the address policy allows and no accepted written prefix denies are approved |
| DeniedPrefix.Configure | internal/security/dialer.go:163-172 | the kept list denies what the written list denies, and any refusal is a configuration error |
| DeniedPrefix.Candidates | internal/security/dialer.go:234-250 | the candidate loop keeps exactly the addresses the written policy approves, and counts the rest |
| DeniedPrefix.MatchesDenied | internal/security/dialer.go:587-594 | true exactly when some prefix contains the address |
| DeniedPrefix.Interleave | internal/security/dialer.go:495-526 | a permutation that keeps each family's order and the first address, and alternates for as long as the counts allow |
| CampaignProofs.ResumeIsExact | scripts/stealth-campaign.py:1854-2036 | after a crash at any byte a resume loads every durable completion, or refuses exactly because the last attempt is open or failed; what it loads never conflicts with the manifest |
| CampaignProofs.ResumeReachesManifest | scripts/stealth-campaign.py:2065-2126 | every resume that is not refused is at the full rendering of what it loaded, or is writing exactly what is missing |
| CampaignProofs.RepairCatchesUp | scripts/stealth-campaign.py:2079-2126 | each write of the missing suffix keeps it so, and the last one completes the manifest |
| CampaignProgress.CampaignCanFinish | scripts/stealth-campaign.py:358-421 | after every crash from which a resume is not refused the rest of the schedule can be run, and then manifest and ledger hold every sample, those from before the crash included |
| CampaignProgress.SampleCompletes | scripts/stealth-campaign.py:358-421 | one sample takes the process from waiting to waiting, with both records in the ledger and its row in the manifest |
| CampaignProofs.RecordsAreDurable | scripts/stealth-campaign.py:2525-2533 | what was recorded in full stays in the file, byte for byte, through all later crashes, recoveries and appends |
| CampaignExample.LawfulWorldExists | scripts/stealth-campaign.py:2525-2527 | a codec with the properties assumed of JSON lines exists, for every schedule of distinct samples |
| CampaignProofs.ManifestMatchesLedger | scripts/stealth-campaign.py:2065-2126 | between samples the manifest is the full rendering of what the ledger loads to |
| CampaignProofs.RecoverAfterCrash | scripts/stealth-campaign.py:2017-2036 | a record cut at any byte is removed, or completed if only its newline is missing |
| CampaignProofs.LedgerReadsBack | scripts/stealth-campaign.py:1995-2014 | the lines of a printed ledger decode to the events written |
| CampaignProofs.LoadIsExact | scripts/stealth-campaign.py:1854-1992 | a ledger is accepted exactly when it is start and completion pairs along the schedule with distinct captures |
| CampaignProofs.RenderIsAppended | scripts/stealth-campaign.py:2065-2104 | appending row by row gives what rendering the whole manifest gives |
| CampaignProofs.RefusedForGood | scripts/stealth-campaign.py:1986-1992 | once a campaign has been refused, every later resume is refused and nothing more is recorded |
| CampaignProofs.OneAttemptEach | scripts/stealth-campaign.py:358-407 | across all crashes and resumes every sample has at most one attempt |
| CampaignProofs.StepInv | scripts/stealth-campaign.py:358-421 | every write, crash and resume keeps the invariant behind the results above |
| CampaignObject.LoadEvents | scripts/stealth-campaign.py:1854-1992 | the loop accepts exactly the paired ledgers and returns their completions |
| CampaignObject.ReadEvents | scripts/stealth-campaign.py:1995-2014 | the loop over lines, ended by a line feed, a carriage return or both, decodes all of them or refuses |
| CampaignObject.File.RecoverTail | scripts/stealth-campaign.py:2017-2036 | the file after recovery |
| CampaignObject.File.LoadLedger | scripts/stealth-campaign.py:1854-1992 | recovery followed by the load, on any contents |
| CampaignObject.File.WriteAll | scripts/stealth-campaign.py:2117-2126 | under interruptions, short writes, errors and death what is added is a prefix, and everything on success |
| CampaignObject.File.AppendEvent | scripts/stealth-campaign.py:2525-2533 | however an append ends, recovery finds the ledger with or without the whole record |
| CampaignObject.RenderManifest | scripts/stealth-campaign.py:2065-2076 | the loop over the schedule renders the completed rows |
| CampaignObject.Manifest.Reconcile | scripts/stealth-campaign.py:2079-2090 | exactly the prefixes of the expected manifest are repaired, and an interrupted repair leaves a prefix |
| CampaignObject.Manifest.AppendBytes | scripts/stealth-campaign.py:2106-2114 | refused when the size is not the expected one; otherwise a prefix of the data is added |
| CampaignObject.Manifest.AppendRow | scripts/stealth-campaign.py:2100-2103 | on success the manifest is the full rendering with one more sample, and never anything but a prefix of it |
| Tpr.TprAtFpr | scripts/stealth-classify.py:656-689 | each error in its exact case; otherwise the largest true-positive rate of all thresholds, infinite ones included, within the false-positive bound |
| Tpr.Sweep | scripts/stealth-classify.py:673-689 | the pass over whole blocks of tied scores finds the best count of true positives |
| Tpr.StopIsBest | scripts/stealth-classify.py:680-689 | when the next block breaks the bound no threshold can do better |
| Tpr.CountSorted | scripts/stealth-classify.py:676-676 | sorting changes no threshold's counts |
| Tpr.EvidenceResolvesTheBound | scripts/stealth-classify.py:664-671 | the evidence gate holds exactly when one false positive is within the bound |
| DnsFraming.Framing | cmd/autocar/doctor_dns.go:188-215 | accepted if and only if the bytes spell a message of the grammar: 12 to 512 bytes, one question, the declared records, nothing after |
| DnsFraming.FramedExactly | cmd/autocar/doctor_dns.go:188-215 | for any kind of record that is found exactly, the message checker accepts exactly the spelled messages |
| DnsFraming.RecordsAreExact | cmd/autocar/doctor_dns.go:198-212 | the record checker finds a record's end exactly where a well-formed record stands |
| DnsGrammar.BodyExactly | cmd/autocar/doctor_dns.go:243-298 | a body is accepted exactly when it spells a body of its type and fills its length |
| DnsGrammar.NameParsed | cmd/autocar/doctor_dns.go:217-241 | where the name checker accepts, a well-formed name is spelled |
| DnsGrammar.NamePrinted | cmd/autocar/doctor_dns.go:217-241 | a spelled name is accepted, with its own end |
| DnsGrammar.ParamsParsed | cmd/autocar/doctor_dns.go:273-294 | accepted service parameters have strictly increasing keys and fill the body |
| DnsGrammar.ParamsPrinted | cmd/autocar/doctor_dns.go:273-294 | spelled parameters with strictly increasing keys are accepted |
| DnsGrammar.WireName | cmd/autocar/doctor_dns.go:217-241 | the loop agrees with the recursive checker |
| DnsGrammar.WireBody | cmd/autocar/doctor_dns.go:243-298 | true exactly for the spellings of bodies of this type |
| DnsGrammar.WireTexts | cmd/autocar/doctor_dns.go:263-272 | the loop over strings agrees with the recursive checker |
| DnsGrammar.WireParams | cmd/autocar/doctor_dns.go:278-294 | the loop over parameters agrees with the recursive checker |
| DnsFraming.WireRecord | cmd/autocar/doctor_dns.go:199-212 | one turn of the inner loop finds the end of a record or refuses |
| DnsFraming.WireSections | cmd/autocar/doctor_dns.go:196-213 | the two loops walk the declared records of all sections |
| ConnTracker.ZeroChannelIsExact | internal/proxy/lifecycle.go:23-57 | the zero channel is closed exactly while nothing is tracked, no channel is closed twice, and the limit holds |
| ConnTracker.ShutdownIsFinal | internal/proxy/lifecycle.go:301-326 | once a shutdown returned, with or without its context's error, nothing is tracked and nothing is ever admitted again |
| ConnTracker.WaiterIsTold | internal/proxy/lifecycle.go:65-75 | the channel a shutdown waits on is closed exactly when nothing is tracked |
| ConnTracker.CloseCancelsContext | internal/proxy/lifecycle.go:109-120 | whichever of Close and connectionContext runs first, once both returned the context is cancelled |
| ConnTracker.OpenConnectionsKeepTheirContext | internal/proxy/lifecycle.go:217-231 | a connection cancels its context only after it was marked closed |
| ConnTrackerLaws.AdmissionIsExact | internal/proxy/lifecycle.go:34-63 | a connection is let in exactly if no shutdown has stopped the tracker and fewer than the maximum are tracked; otherwise nothing changes |
| ConnTrackerLaws.ShutdownCanFinish | internal/proxy/lifecycle.go:65-87 | from every reachable state every connection can be closed and every shutdown can return, and then nothing is tracked |
| ConnTracker.StepInv | internal/proxy/lifecycle.go:23-326 | every step of accept, close, registration and shutdown keeps the invariant behind the results above |
| ConnTrackerObject.Tracker.Add | internal/proxy/lifecycle.go:34-45 | admission exactly below the limit while accepting, with a new channel for the first connection |
| ConnTrackerObject.Tracker.Remove | internal/proxy/lifecycle.go:47-57 | removal is idempotent and closes the channel with the last connection |
| ConnTrackerObject.Tracker.StopAccepting | internal/proxy/lifecycle.go:59-63 | nothing but admission changes |
| ConnTrackerObject.Tracker.NothingTracked | internal/proxy/lifecycle.go:65-75 | the channel that wait reads is closed exactly when nothing is tracked |
| ConnTrackerObject.Tracker.CloseAll | internal/proxy/lifecycle.go:77-87 | every tracked connection is closed and its context cancelled, and none is left |
| ConnTrackerObject.TrackedConn.Close | internal/proxy/lifecycle.go:217-231 | the first close marks, cancels and untracks; a later one changes nothing |
| ConnTrackerObject.TrackedConn.ConnectionContext | internal/proxy/lifecycle.go:109-120 | the context is live exactly if the connection is not closed |

## Left out

- Command line, configuration files, init bundles, certificates, secrets, TLS: file handling and library wrappers.
- HTTP, WebSocket, QUIC, H2 and H3 serving, SOCKS5 negotiation, relays, benchmarks: library and socket behaviour.
- Docker, tcpdump, git, hashing and the network emulation of the campaign script: digests and files are opaque values.
- Logistic regression, decision trees, bootstrap and `roc_auc`: floating-point numerics, and a sum over pairs that would only add an easy member.
- Real clocks, goroutine scheduling and float rounding: clocks are inputs, schedules are arbitrary, numbers are exact.
- Overflow of 64-bit integers, except for the saturation of the pacer's sleep.
- `net.SplitHostPort`, UTF-8 and IP text: a predicate on addresses.
- DialRace.NeverStalls: the length of the fallback delay is not modelled; the timer may fire at any moment after it was armed.
- DeniedPrefix.Candidates: the built-in address policy (loopback, private and special-use ranges) is a parameter, and resolver answers carry no IPv6 zone.
- DialRaceObject.DialApproved: resolving, and the check of an already cancelled context on entry, come before the model starts.
- CampaignProofs.ResumeIsExact: the file system keeps what was written in order (a crash leaves a prefix of the bytes appended), no one else edits the files, and the first manifest appears whole because it is renamed into place; the checks of an event's own fields and of its capture file are a parameter.
- CampaignProofs.OneAttemptEach: state.json, campaign.json and quarantined captures are not modelled.
- ConnTracker.CloseCancelsContext: connectionContext is called at most once per connection, as its comment requires; a parent's own cancellation is not modelled.
- ConnTrackerObject.Tracker.CloseAll: runs between whole calls of Close; the interleaved form is in the step system.
- ConnTracker.StepInv: read, write and activity deadlines of a connection, listener errors and `isListenerClosedError` are not modelled.
- DnsFraming.Framing: what the later unpacking makes of the names (following pointers, loops) is not part of this model.
- PacerObject.Controller.Wait: the object runs one call at a time; concurrent calls are in `PacerWaits`. A failed call that asks for as much as a running probe's allowance may leave fewer tokens than refilling alone (`PacerExample.FailedCallCanCost`): it ends the probe, and the bucket then fills at the target rate. For one refused pass `PacerLaws.RefusedPassIsFree` says exactly when that costs tokens; for a whole call only the sufficient half is proved.
- PacerProofs.SleepThenGranted: liveness beyond one sleep depends on the scheduler and is not stated.
