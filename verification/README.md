# WebRTC call bandwidth and stream bookkeeping, verified

This project models how a WebRTC call divides its bandwidth estimate and keeps track of
its streams, and proves what that code guarantees. The centre is the bitrate allocator:
one estimate, any number of send streams, four regimes, and state that carries over from
one allocation to the next. Around it stand its clients and owner (audio send streams, the
call), and three smaller components of the same repository.

Every component is given twice: as functions on values, about which the theorems are
stated, and, where the source updates things in place, as a class whose methods loop and
assign like the source and are proved to compute those functions.

| file | content |
|---|---|
| `Options.dfy` | optional values |
| `EvenShares.dfy` | the arithmetic of the even-share loop on a plain list of headrooms |
| `Observers.dfy` | the allocator's record per stream, required rates, totals |
| `Distribution.dfy` | `DistributeBitrateEvenly`: visiting order and map-updating loop |
| `AllocationRules.dfy` | the regimes and what every allocation guarantees |
| `RegimeTheorems.dfy` | what each regime achieves as a whole |
| `MoreBitrate.dfy` | whether more bitrate is ever worse |
| `Width32.dfy` | the rules in 32-bit arithmetic, and when it makes no difference |
| `AllocatorMachine.dfy` | the allocator over whole sequences of events |
| `AllocatorRecords.dfy` | what each operation does to each record, the limits and the bitrates, in their own fields |
| `SteadyRuns.dfy` | which observers never toggle, and those that hold a rate over sequences of events in which the bitrate does not fall |
| `BitrateAllocators.dfy` | the allocator object and its limit observer |
| `AudioSendStreams.dfy` | audio send streams together with the allocator, and the stream object |
| `CallMachine.dfy` | SSRC table, sync groups and send associations over whole sequences of events |
| `CallBitrates.dfy` | base and mask bitrate configurations |
| `Calls.dfy` | the call object |
| `RtcpDemuxers.dfy` | the RTCP demultiplexer |
| `LayerAllocations.dfy` | bitrates per spatial and temporal layer |
| `RtpExtensions.dfy` | the header-extension filter |

Reading conventions. Bitrates are unbounded integers except in `Width32`. A stream's answer
to an allocation (the part it spends on protection) is a parameter, assumed not to exceed
the allocation. `double` values are exact: the toggle factor 0.1 is a division by ten and a
media ratio is a real number. Streams and sinks are named by integers standing for their
addresses; a `std::set` of pointers is a list in ascending order, a `std::multimap` a list
of pairs in order of insertion.

## Where the code and its documentation part

The model follows the code. Each of these is stated as a theorem.

- A maximum of 0 is documented as "no max bitrate" (`call/bitrate_allocator.h:73`); it is a cap of 0, under which an observer gets anything only when there is nothing left to split: `ZeroMaximumIff`.
- The minimum contract (`call/bitrate_allocator.h:74-76`) holds for an observer, whatever its company and the bitrate, if and only if its limits are in order, or its maximum is 0 and its minimum not enforced; nothing enforces that: `MinimumContractIff`, `CappedBelowMinimum`.
- The third low-rate pass charges an enforced observer that comes out of an outage for its minimum and again for its required rate, whenever enough is left for that when the pass reaches it: `LowGrantsLedger`, `LowRateChargesTwice`.
- The normal regime does not always use up its bitrate, because it orders by maximum and not by room: `NormalUsesAllIff`, `NormalLosesRate`.
- More bitrate can cost an observer rate. It never does, whatever the company, if and only if the observer is active and has no minimum or an enforced one that equals its maximum: `NeverLosesIff`. If its requirement is within its maximum, there are three places where it can (`WhereRateFalls`): below "enough for all", by letting in another (`MoreBitrateDenies`) or by charging an enforced observer for its minimum again (`SecondChargeCosts`), and on reaching "enough for all" (`EnoughCostsRate`).
- The resume margin is there to avoid toggling (`call/bitrate_allocator.cc:312`). At a constant bitrate it does, in every company, if and only if the observer's minimum and maximum are both positive, although the documentation admits a maximum of 0: `NeverTogglesIff`, `NoMinimumToggles`, `NoMaximumToggles`; for such observers also over whole runs: `RunKeepsRate`.
- "The latest non-negative start value from either call will be used" (`call/call.h:176-178`) fails when a base repeats its start after a mask changed it: `ConfigStartUsedIff`, `LatestStartIgnored`.
- A mask may ask for a start of 0, which can unset the stored start: `StartPositiveIff`, `ZeroStartUnsets`. A stored start is not clamped again when the limits move: `StoredInRangeIff`, `RunStoredInRangeIff`, `StoredStartGoesStale`.
- A maximum of 0, which the constructor lets through if minimum and start are 0, counts both as a limit and as unset, so a later mask can send a start above it: `RunInRangeIff`, `ZeroMaximumEscapes`.
- Destroying a receive stream hides any other live stream that shares one of its SSRCs: `DestroyKeepsKeysIff`, `SharedSsrcHidesStream`.
- The extension filter drops a plain extension when any later one has its URI, encrypted or not, so of several plain ones it keeps the last: `FilteredAreSurvivors`.

## Model

| member | source | states |
|---|---|---|
| Observers.MediaRatio | call/bitrate_allocator.cc:38-45 | the ratio lies in [0, 1] and gives back the media part when multiplied with the allocation |
| Observers.Required | call/bitrate_allocator.cc:369-386 | at least the minimum, at least 10% or 20 kbps more when paused, at most twice the toggled minimum |
| Observers.RequiredExact | call/bitrate_allocator.cc:359-386 | the minimum for an observer that holds a rate or is new and has a minimum, 10% or 20 kbps more for any other, plus the share of that which protection took last, rounded down |
| EvenShares.Conservation | call/bitrate_allocator.cc:404-420 | what is taken and what is left over add up to what was there, and nothing is overdrawn |
| EvenShares.ShareNeverShrinks | call/bitrate_allocator.cc:406-416 | the offer to the next observer is never smaller than the offer just made |
| EvenShares.ExtrasBounds | call/bitrate_allocator.cc:404-420 | everyone gets at most its headroom and at least what the very first offer allows |
| EvenShares.RemainingPositive | call/bitrate_allocator.cc:405 | the loop's check that something remains holds at every iteration |
| EvenShares.ExtrasMonotone | call/bitrate_allocator.cc:404-420 | with more to hand out, nobody's extra shrinks |
| EvenShares.LosslessIff | call/bitrate_allocator.cc:404-420 | every amount that fits is handed out completely if and only if each headroom is at most the average of those from it onwards |
| EvenShares.WaterLevel | call/bitrate_allocator.cc:404-420 | with ascending headrooms everyone is filled to a common level, or to its headroom, within one unit |
| EvenShares.EvenAfterFirstUnfilled | call/bitrate_allocator.cc:404-420 | after the first observer left below its headroom, all later extras are its extra or one more |
| Distribution.OrderMembers | call/bitrate_allocator.cc:395-402 | exactly the participants are visited, zero allocations included on request |
| Distribution.OrderSorted | call/bitrate_allocator.cc:395-402 | participants are visited by maximum bitrate, each observer once |
| Distribution.OrderStable | call/bitrate_allocator.cc:395-402 | ties are visited in order of registration, which fixes the order completely |
| Distribution.SpreadMeaning | call/bitrate_allocator.cc:403-420 | the map-updating loop adds to each participant its even share and changes nobody else |
| Distribution.DistributeAt | call/bitrate_allocator.cc:388-421 | a participant ends between its first offer and its cap; others keep what they had |
| Distribution.DistributeTotal | call/bitrate_allocator.cc:388-421 | the total grows by the even shares and by no more than was to be handed out |
| Distribution.DistributeMonotone | call/bitrate_allocator.cc:388-421 | more to distribute is never worse for any observer |
| AllocationRules.EnoughIff | call/bitrate_allocator.cc:423-439 | "enough for all" is a threshold: the minima plus the number of observers times the largest gap between required rate and minimum |
| AllocationRules.TooLittleForOne | call/bitrate_allocator.cc:423-439 | less than one observer's required rate is never enough for all |
| AllocationRules.EnoughMonotone | call/bitrate_allocator.cc:423-439 | a bitrate above one that is enough for all is enough too |
| AllocationRules.LowGrantsMeaning | call/bitrate_allocator.cc:275-319 | greedy maximality: what remains is less than the requirement of every denied observer; enforced ones hold their minimum or requirement, admitted ones their requirement |
| AllocationRules.LowGrantsLedger | call/bitrate_allocator.cc:279-319 | grants, remainder and what is charged twice add up to the bitrate; something is charged twice if and only if the third pass runs and, on reaching an enforced observer with a minimum, finds it paused and enough left for its requirement |
| AllocationRules.AllocateCovers | call/bitrate_allocator.cc:237-265 | every observer gets an entry and no rate is negative |
| AllocationRules.AllocateOnlyObservers | call/bitrate_allocator.cc:237-265 | nobody but the registered observers gets an entry |
| AllocationRules.AllocateAt | call/bitrate_allocator.cc:237-357 | in all regimes an enforced observer gets its minimum and any other nothing or its required rate, each up to its maximum; at zero everyone gets nothing |
| AllocationRules.MinimumContract | call/bitrate_allocator.h:74-76 | with limits in order, or a maximum of 0 and no enforced minimum: an enforced observer gets at least its minimum, any other nothing or at least its minimum |
| AllocationRules.MinimumContractIff | call/bitrate_allocator.h:74-76 | the contract holds for an observer in every company and at every bitrate if and only if its limits meet that condition |
| AllocationRules.CappedBelowMinimum | call/bitrate_allocator.cc:408-416 | any observer whose limits are out of order gets exactly its maximum in some company and at some bitrate |
| AllocationRules.EnoughServesAll | call/bitrate_allocator.cc:256-264 | when there is enough for all, everyone gets its required rate or its maximum, and at most twice its maximum |
| AllocationRules.DeniedBelowRequired | call/bitrate_allocator.cc:256-327 | an observer without an enforced minimum gets nothing from a bitrate below its required rate |
| AllocationRules.AllocateBudget | call/bitrate_allocator.cc:237-357 | the total never exceeds the larger of the bitrate and the enforced minima |
| AllocationRules.AllocateMonotone | call/bitrate_allocator.cc:256-264 | once there is enough for all, a higher bitrate is enough too and gives an observer at least as much, across the normal and maximum regimes, if its limits are in order or it requires more than its minimum |
| AllocationRules.NeverLosesOnceEnoughIff | call/bitrate_allocator.cc:256-264 | that holds in every company if and only if that condition on the observer does |
| RegimeTheorems.MaxRateTotal | call/bitrate_allocator.cc:344-357 | above the maxima the total is exactly the bitrate or twice the maxima, whichever is less |
| RegimeTheorems.MaxRateWaterLevel | call/bitrate_allocator.cc:344-357 | above its maximum every observer gets a common level, or its maximum again, within 1 bps |
| RegimeTheorems.MaxRateFair | call/bitrate_allocator.cc:344-357 | nobody's extra exceeds by more than 1 bps that of an observer still below its cap |
| RegimeTheorems.ZeroMaximumIff | call/bitrate_allocator.cc:256-327 | an observer with a maximum of 0 gets anything if and only if, with enough for all, exactly the minima are on offer and it has one, or otherwise it has a grant and nothing is left to split |
| RegimeTheorems.NormalRateTotal | call/bitrate_allocator.cc:329-342 | the total is the minima plus the even shares of the rest, whether or not limits are in order |
| RegimeTheorems.NormalUsesAllIff | call/bitrate_allocator.cc:256-264 | all of every bitrate that the code allocates in the normal regime is used if and only if, in order of maximum, no observer's room exceeds the average room from it onwards, or the sum of maxima is not enough for all, or there is no room |
| RegimeTheorems.NormalLosesRate | call/bitrate_allocator.cc:256-264 | two active observers with rooms 100 and 0 are allocated 151 of 201 bps, with enough for all |
| RegimeTheorems.AdmitPassRule | call/bitrate_allocator.cc:291-319 | in a pass an observer is admitted if and only if what its predecessors left covers its requirement |
| RegimeTheorems.LowRateAdmission | call/bitrate_allocator.cc:275-319 | the low regime without passes: enforced minima, then active observers in order of registration, then paused ones, each admitted if and only if what is left covers it |
| RegimeTheorems.LowRateShares | call/bitrate_allocator.cc:321-323 | observers with a grant gain an even share of the remainder up to their maximum, observers without one stay at zero |
| RegimeTheorems.LowRateLedger | call/bitrate_allocator.cc:275-327 | allocated, unused and charged twice make the bitrate; unused is negative only when enforced minima exceed the bitrate |
| RegimeTheorems.LowRateChargesTwice | call/bitrate_allocator.cc:307-323 | after an outage an enforced stream with a 10 kbps minimum gets 35 of 45 kbps, and 10 kbps that nobody gets are charged |
| MoreBitrate.SameGrants | call/bitrate_allocator.cc:275-319 | if nobody's grant rises with the bitrate, all grants stay the same and the difference is left to split |
| MoreBitrate.LowRateMonotone | call/bitrate_allocator.cc:275-327 | in the low regime more bitrate costs an observer whose requirement is within its maximum no rate, unless it raises another's grant, or its own and its minimum is enforced |
| MoreBitrate.WhereRateFalls | call/bitrate_allocator.cc:237-327 | where more bitrate costs such an observer rate, there comes to be enough for all, or another's grant rises, or the third pass charges the observer, enforced and paused, again |
| MoreBitrate.NeverLosesIff | call/bitrate_allocator.cc:237-357 | more bitrate never costs an observer rate, in any company and any regime, if and only if it is active and has no minimum or an enforced one that equals its maximum |
| MoreBitrate.SecondChargeCosts | call/bitrate_allocator.cc:307-319 | after an outage an enforced stream gets all of 39999 bps and 30000 of 40000, and the other stream nothing both times |
| MoreBitrate.MoreBitrateDenies | call/bitrate_allocator.cc:291-305 | an observer gets 90 of 90 bps and nothing of 110, because these admit the one registered before it |
| MoreBitrate.EnoughCostsRate | call/bitrate_allocator.cc:254-260 | a paused observer gets 32500 of 45000 bps and 30000 of 60000, where there is enough for all |
| Width32.Spread32Agrees | call/bitrate_allocator.cc:404-420 | the even split does not wrap while what is allocated and left fits 32 bits |
| Width32.ConversionsWrap | call/bitrate_allocator.cc:281-287 | conversions to 32 bits, unsigned and signed, keep the value modulo 2^32 within the type |
| Width32.Allocate32Agrees | call/bitrate_allocator.cc:237-439 | 32-bit arithmetic computes the unbounded rules while the bitrate and the sums of minima and maxima, and twice every maximum and every toggled minimum, stay below 2^32 |
| Width32.WrapAroundStarves | call/bitrate_allocator.cc:246-264 | beyond that bound the sum of maxima wraps and an observer owed half gets nothing |
| AllocatorMachine.UpdateLimitsFits | call/bitrate_allocator.cc:167-197 | after an update the cached limits equal a fresh fold over the observers, the last notice equals them and differs from the one before |
| AllocatorMachine.StepKeepsValid | call/bitrate_allocator.cc:68-207 | every operation keeps: unique observers, -1 only while the network is down, nobody above 0 while it is down, media ratios in [0, 1], limits and notices in agreement |
| AllocatorMachine.RunKeepsValid | call/bitrate_allocator.cc:68-207 | the same in every run |
| AllocatorMachine.ResumeTakesIncrease | call/bitrate_allocator.cc:30-32 | a paused observer resumes only from a bitrate of its minimum and 10% or 20 kbps more, whichever is larger |
| AllocatorMachine.RunKeepsPaused | call/bitrate_allocator.cc:68-165 | a paused observer's whole record, so its media ratio and required rate, survives any run that offers less than that rate, whatever happens to the others |
| AllocatorMachine.StepKeepsPaused | call/bitrate_allocator.cc:68-207 | one operation that offers less than a paused observer's required rate leaves its record as it is |
| AllocatorMachine.StepKeepsServed | call/bitrate_allocator.cc:68-207 | one operation keeps minima respected and the total within the larger of last bitrate and enforced minima |
| AllocatorMachine.RunKeepsServed | call/bitrate_allocator.cc:68-207 | at every moment of every run with the network up, minima are respected and the total held exceeds the last bitrate only for enforced minima, removals included |
| AllocatorRecords.NetworkRecords | call/bitrate_allocator.cc:89-119 | after a network update every record holds the rate its observer was told and, if positive, the media ratio of the observer's answer; otherwise its old ratio; its limits stay |
| AllocatorRecords.AddedRecords | call/bitrate_allocator.cc:123-165 | after a registration exactly one record is the observer's, with the values passed, last if new; the others keep place and limits; with the network up all are told and an enforced one gets its minimum, with it down only the observer hears, zero, and nothing else changes |
| AllocatorRecords.RemovedRecords | call/bitrate_allocator.cc:199-207 | after a removal the observer has no record and the others are as they were, in order |
| AllocatorRecords.LimitsMeaning | call/bitrate_allocator.cc:167-197 | in every reachable state the minimum is the sum of enforced minima, and the padding is at least the sum asked for and at least what all waiting observers require, exactly the one without waiting observers and the other without padding asked for |
| AllocatorRecords.LimitsWith | call/bitrate_allocator.cc:172-182 | one more record raises the minimum by its enforced minimum and the padding by what it asks for, or its requirement if it is waiting and that is more |
| AllocatorRecords.RunBitrates | call/bitrate_allocator.cc:73-75 | after every run the last bitrate is that of the last network update, and the last one that is not zero that of the last update with one |
| AllocatorRecords.NoUpdateKeeps | call/bitrate_allocator.cc:73-75 | without such an update both stay as they were |
| SteadyRuns.SettledKeepsRate | call/bitrate_allocator.cc:291-327 | an observer with a rate, a minimum and a maximum keeps a rate at any bitrate that covers the enforced minima and what it and the holders before it require |
| SteadyRuns.NewObserverAdmitted | call/bitrate_allocator.cc:359-367 | a new observer needs its minimum alone, without resume margin: it gets a rate at once if the bitrate covers that on top of the enforced minima and what the holders require |
| SteadyRuns.RequiredFalls | call/bitrate_allocator.cc:369-386 | an observer that is told a rate and does not raise the share of protection that the requirement makes room for requires no more than before |
| SteadyRuns.AllocationSettles | call/bitrate_allocator.cc:68-121 | every allocation, from any state, leaves the bitrate covering the enforced minima and what the first observers with a rate now require, if they do not raise their shares of protection |
| SteadyRuns.NetworkMakesSteady | call/bitrate_allocator.cc:68-121 | a network update makes steady every observer with limits that it gives a rate, under the same condition |
| SteadyRuns.StepKeepsSteady | call/bitrate_allocator.cc:68-207 | a steady observer stays steady in a network update that does not lower the bitrate, in any addition or update that raises neither the enforced minima nor what the holders up to it require, and in any other's removal |
| SteadyRuns.RunKeepsRate | call/bitrate_allocator.cc:30-32 | no toggling: the same throughout every run, so an observer that holds a rate is not paused while the bitrate does not fall |
| SteadyRuns.NoMinimumIsPaused | call/bitrate_allocator.cc:291-305 | an observer with a rate but no minimum gets nothing whenever there is not enough for all |
| SteadyRuns.NoMinimumToggles | call/bitrate_allocator.cc:291-319 | whatever its maximum and enforced or not, an observer without a minimum gets 20 kbps in some company and nothing next time at the same bitrate |
| SteadyRuns.NoMaximumToggles | call/bitrate_allocator.cc:408-416 | whatever its minimum and enforced or not, an observer with a maximum of 0 gets its minimum in some company and nothing next time at the same bitrate |
| SteadyRuns.NeverTogglesIff | call/bitrate_allocator.cc:30-32 | nobody with given limits, in any company and at any bitrate, is given a rate and then paused at the same bitrate, with answers that do not raise protection, if and only if the minimum and the maximum are positive |
| BitrateAllocators.SendLimits.OnAllocationLimitsChanged | call/call.cc:1192-1199 | the call's copies of the limits become the ones it is told |
| BitrateAllocators.SendLimits.constructor | call/call.cc:409-410 | both mirrored limits start at 0 and nothing has been heard |
| BitrateAllocators.BitrateAllocator.constructor | call/bitrate_allocator.cc:48-61 | a new allocator is in the initial state, with 300 kbps to start from, mirrored by its limit observer |
| BitrateAllocators.BitrateAllocator.FindObserverConfig | call/bitrate_allocator.cc:226-235 | the first record of the observer, or the end |
| BitrateAllocators.BitrateAllocator.GetStartBitrate | call/bitrate_allocator.cc:209-224 | the allocation if there is one, otherwise the even share, rounded down, of the last non-zero bitrate |
| BitrateAllocators.BitrateAllocator.StartFrom | call/bitrate_allocator.cc:270-271 | the loop writes every observer's starting rate |
| BitrateAllocators.BitrateAllocator.EnoughBitrateForAllObservers | call/bitrate_allocator.cc:423-439 | the loop with early exits decides "enough for all" |
| BitrateAllocators.BitrateAllocator.OrderByMax | call/bitrate_allocator.cc:395-402 | the loop builds the visiting order |
| BitrateAllocators.BitrateAllocator.DistributeBitrateEvenly | call/bitrate_allocator.cc:388-421 | the loop computes the distribution, and its check for a positive bitrate holds at every iteration |
| BitrateAllocators.BitrateAllocator.AdmitObservers | call/bitrate_allocator.cc:291-319 | the second and third pass as one loop |
| BitrateAllocators.BitrateAllocator.LowRateAllocation | call/bitrate_allocator.cc:275-327 | computes the low regime |
| BitrateAllocators.BitrateAllocator.NormalRateAllocation | call/bitrate_allocator.cc:329-342 | computes the normal regime |
| BitrateAllocators.BitrateAllocator.MaxRateAllocation | call/bitrate_allocator.cc:344-357 | computes the maximum regime |
| BitrateAllocators.BitrateAllocator.AllocateBitrates | call/bitrate_allocator.cc:237-265 | selects the regime and computes the allocation |
| BitrateAllocators.BitrateAllocator.TellObservers | call/bitrate_allocator.cc:89-119 | every record takes its rate and, if that is positive, the media ratio of the answer; limits stay |
| BitrateAllocators.BitrateAllocator.UpdateAllocationLimits | call/bitrate_allocator.cc:167-197 | the limits are recomputed, and the limit observer told and mirroring them, exactly when they changed |
| BitrateAllocators.BitrateAllocator.OnNetworkChanged | call/bitrate_allocator.cc:68-121 | the whole new state and the rates told, every record as told and answered, keeping the invariant |
| BitrateAllocators.BitrateAllocator.AddObserver | call/bitrate_allocator.cc:123-165 | the whole new state and the rates told, one record with the values passed and the others as before or as told, keeping the invariant |
| BitrateAllocators.BitrateAllocator.RemoveObserver | call/bitrate_allocator.cc:199-207 | exactly the observer's record goes, nothing is reallocated, the limits follow |
| BitrateAllocators.OnCallNetworkChanged | call/call.cc:1144-1190 | the pacer rate that a call computes covers everything the allocator has handed out; what it records, in whole kbps, falls short of that by less than 1 kbps |
| AudioMachine.StepKeepsValid | audio/audio_send_stream.cc:558-603 | every action keeps the registered limits of audio streams equal to the streams' own, as enforced minima |
| AudioMachine.StepSafe | audio/audio_send_stream.cc:317-340 | whatever an audio stream hears in an action passes its check and its encoder is told a rate within its limits, that very rate if it is within them |
| AudioMachine.StepRegisters | audio/audio_send_stream.cc:558-603 | exactly who is registered after an action: a stream from creation or start with limits, or a change to limits, until it is stopped, destroyed or changed to none; a change to the same limits changes nothing |
| AudioMachine.RegisteredIsServed | audio/audio_send_stream.cc:578-593 | a registered stream is told at least its minimum by every network update with a bitrate |
| AudioMachine.EveryRunSafe | audio/audio_send_stream.cc:200-222 | the same for every action of every run of creations, starts, stops, reconfigurations, destructions, network updates and other observers |
| AudioMachine.EveryRunServes | audio/audio_send_stream.cc:200-222 | a registered stream gets its minimum at every such update of every run that does not stop, destroy or unset it |
| AudioSendStreams.AudioSendStream.constructor | audio/audio_send_stream.cc:54-93 | a new stream is registered if and only if it has both limits |
| AudioSendStreams.AudioSendStream.OnBitrateUpdated | audio/audio_send_stream.cc:317-340 | the encoder is told the rate if it is within the limits, the minimum for none and the maximum for more; the check holds |
| AudioSendStreams.AudioSendStream.ConfigureBitrateObserver | audio/audio_send_stream.cc:578-593 | the limits are stored before the registration reports back, and the report is safe |
| AudioSendStreams.AudioSendStream.RemoveBitrateObserver | audio/audio_send_stream.cc:595-603 | the stream leaves the allocator |
| AudioSendStreams.AudioSendStream.ReconfigureBitrateObserver | audio/audio_send_stream.cc:558-576 | unchanged limits do nothing, complete ones register, incomplete ones unregister |
| AudioSendStreams.AudioSendStream.Start | audio/audio_send_stream.cc:200-211 | a stream with limits is registered afterwards, keeping agreement |
| AudioSendStreams.AudioSendStream.Stop | audio/audio_send_stream.cc:213-222 | the stream is not registered afterwards |
| AudioSendStreams.AudioSendStream.Reconfigure | audio/audio_send_stream.cc:105-198 | the new limits are in force and agree with the registration; a change registers or unregisters, no change does neither |
| CallMachine.FirstLowest | call/call.cc:1228-1242 | the stream of a group that is met first is the one with the lowest address |
| CallMachine.ConfigureSyncRepairs | call/call.cc:1201-1247 | configuring one group restores the sync invariant when only that group was disturbed |
| CallMachine.StepKeepsSync | call/call.cc:654-707 | a group maps to a live audio stream of that group, every named group with one is mapped, and exactly the first live video stream of a group is synced to it |
| CallMachine.NoDanglingSync | call/call.cc:1238-1245 | no video stream refers to a destroyed audio stream or one of another group |
| CallMachine.StepKeepsAssociations | call/call.cc:613-676 | every audio receive stream reports through the send stream with its local SSRC, whichever was created first |
| CallMachine.RunKeepsValid | call/call.cc:589-839 | both hold in every run of creations and destructions |
| CallMachine.RunSends | call/call.cc:607-649 | the audio send stream on an SSRC after every run is that of the last creation, unless destroyed since |
| CallMachine.RunAssociates | call/call.cc:607-676 | so each live audio receive stream reports through the last send stream created on its local SSRC, if it still exists |
| CallMachine.RunLeavesNothingStale | call/call.cc:654-839 | in every run exactly the live streams have sync and association entries |
| CallMachine.StepKeepsMapping | call/call.cc:1208-1226 | sync assignment is sticky: a group changes its audio stream only when that stream is destroyed |
| CallMachine.RunKeepsMapping | call/call.cc:1208-1226 | a group keeps its audio stream throughout every run that does not destroy it |
| CallMachine.CreateKeepsKeys | call/call.cc:663-669 | creating a stream never makes the delivery table wrong |
| CallMachine.DestroyKeepsKeysIff | call/call.cc:826-829 | destroying one keeps the table exact if and only if, beforehand, no other live stream shares an SSRC with it |
| CallMachine.SharedSsrcHidesStream | call/call.cc:690-704 | with two audio streams on one SSRC, destroying one hides the other |
| CallMachine.RunKeepsTable | call/call.cc:654-899 | in every run without shared SSRCs the table holds exactly the live streams' SSRCs, each with its own stream's configuration |
| CallBitrates.MinPositive | call/call.h:45-54 | a minimum for which values that are not positive are unset |
| CallBitrates.StepKeepsValid | call/call.cc:926-1005 | every update keeps: stored limits are the combination of base and mask, and they are what was last sent |
| CallBitrates.StepInRangeIff | call/call.cc:959-1005 | an update sends a start outside its limits if and only if it is a mask with a positive start and no maximum under a base maximum of 0 |
| CallBitrates.RunCombines | call/call.cc:926-1005 | after every run the limits stored and last sent are those of the last base and the last mask, however the calls were interleaved and despite the early return; unless the initial maximum was 0, every start sent was -1 or within its limits |
| CallBitrates.RunEffective | call/call.h:176-189 | after every run, in the fields of the last base and mask: the minimum is the greater of those given unless the maximum is less, the maximum the smallest that is set |
| CallBitrates.EffectiveUnique | call/call.cc:960-973 | these statements leave no choice of limits |
| CallBitrates.StartSent | call/call.cc:986-992 | a positive start within the limits is sent as it is, below them as the minimum and above them as the maximum; one that is not positive becomes the minimum, or else the maximum, or unset |
| CallBitrates.RunInRangeIff | call/call.cc:420-426 | every start sent in a run is -1 or within its limits if and only if no mask with a positive start and no maximum arrives while the base is still the constructor's with a maximum of 0 |
| CallBitrates.ZeroMaximumEscapes | call/call.cc:986-992 | from limits of 0 a mask asking for 100 sends 100 above a maximum of 0 |
| CallBitrates.StartInRangeIff | call/call.cc:986-992 | a requested start is sent within the limits if and only if it is not a positive start under a combined maximum of 0 |
| CallBitrates.StartPositiveIff | call/call.cc:986-989 | the start sent is positive if and only if the request or a limit is |
| CallBitrates.RunStartPositive | call/call.cc:1001-1004 | with positive requests the stored start is positive, as a route change demands, and is the last start sent, in every run |
| CallBitrates.ZeroStartUnsets | call/call.cc:986-989 | a mask asking for a start of 0 unsets the stored start |
| CallBitrates.StoredInRangeIff | call/call.cc:1001-1004 | after an update the stored start is within the stored limits if and only if a new start was asked for and did not escape them, or the old one is within the new limits |
| CallBitrates.RunStoresStart | call/call.cc:959-1005 | the stored start of every run is the last one asked for, clamped to the limits of that moment |
| CallBitrates.RunStoredInRangeIff | call/call.cc:1001-1004 | after every run the stored start is within the stored limits if and only if that start lies within the limits of the last base and mask; with positive requests it is the last start sent |
| CallBitrates.StoredStartGoesStale | call/call.cc:1001-1004 | a lower maximum leaves the stored start above it |
| CallBitrates.ConfigStartUsedIff | call/call.cc:936-945 | a base configuration's start is sent, clamped to the combined limits, if and only if it differs from the previous base's |
| CallBitrates.SameConfigSendsNothing | call/call.cc:937-945 | setting the same base configuration again changes and sends nothing |
| CallBitrates.LatestStartIgnored | call/call.cc:941-945 | a start repeated after a mask changed it is not used |
| Calls.Call.constructor | call/call.cc:391-434 | a new call has no streams, and has sent the configuration it was given |
| Calls.Call.SetBitrateConfig | call/call.cc:926-948 | the whole new bitrate state, keeping the invariant |
| Calls.Call.SetBitrateConfigMask | call/call.cc:950-957 | the whole new bitrate state, keeping the invariant |
| Calls.Call.UpdateCurrentBitrateConfig | call/call.cc:959-1005 | recombines, sends what changed, keeps the stored start when no new one is given |
| Calls.Call.ConfigureSync | call/call.cc:1201-1247 | the loop syncs the first video stream of the group to the group's audio stream and unsyncs the others |
| Calls.Call.FindSyncAudio | call/call.cc:1213-1223 | the loop with its break finds the first audio stream of the group |
| Calls.Call.CreateAudioReceiveStream | call/call.cc:654-680 | the whole new state of the stream tables, keeping the sync and association invariant |
| Calls.Call.DestroyAudioReceiveStream | call/call.cc:682-707 | the whole new state; the group is configured again if it held this stream; the invariant is kept |
| Calls.Call.InsertAudioReceiveStream | call/call.cc:663-669 | the tables get the stream and its group is configured |
| Calls.Call.AssociateReceiveStream | call/call.cc:670-676 | the stream reports through the send stream on its local SSRC, if there is one |
| Calls.Call.EraseAudioReceiveStream | call/call.cc:689-704 | the tables lose the stream, and its group is configured again if it held the stream |
| Calls.Call.CreateVideoReceiveStream | call/call.cc:782-812 | the whole new state, with an entry for a retransmission SSRC, keeping the invariant |
| Calls.Call.DestroyVideoReceiveStream | call/call.cc:814-839 | the whole new state, all SSRCs of the stream gone, keeping the invariant |
| Calls.Call.CreateFlexfecReceiveStream | call/call.cc:841-873 | the whole new state, keeping the invariant |
| Calls.Call.DestroyFlexfecReceiveStream | call/call.cc:875-899 | the whole new state, keeping the invariant |
| Calls.Call.CreateAudioSendStream | call/call.cc:607-620 | the SSRC is taken, the loop associates the receive streams on it, the invariant is kept |
| Calls.Call.DestroyAudioSendStream | call/call.cc:635-649 | the SSRC is free, the loop dissociates the receive streams on it, the invariant is kept |
| Calls.Call.AssociateSendStream | call/call.cc:615-619 | the loop changes exactly the receive streams with this local SSRC |
| Calls.Call.DeliverRtp | call/call.cc:1297-1363 | a packet that parses gets past the table if and only if its SSRC is in it; while the table is exact, if and only if a live stream receives on that SSRC, identified by that stream's configuration while those are exact too |
| DemuxerMachine.StepMeaning | call/rtcp_demuxer.cc:28-98 | every operation keeps the invariant (no repeated association, broadcast sinks apart) and acts on the sets of associations as documented |
| DemuxerMachine.ResolvedMeaning | call/rtcp_demuxer.cc:83-98 | resolving an RSID moves all its sinks to the SSRC and forgets the RSID |
| DemuxerMachine.RunRefinesSets | call/rtcp_demuxer.h:34-64 | over every run the multimaps and the list represent the sets of associations that the documentation describes |
| DemuxerMachine.DeliveryExact | call/rtcp_demuxer.cc:66-81 | a packet reaches exactly the sinks of its sender SSRC and the broadcast sinks, each once |
| DemuxerMachine.StepOrder | call/rtcp_demuxer.cc:28-98 | in which order sinks listen and wait: newcomers come last, sinks of a resolved RSID join in order, removals keep the order of the others |
| DemuxerMachine.BroadcastOrder | call/rtcp_demuxer.cc:66-81 | a packet goes to the listeners first and then to the broadcast sinks in order of their addition |
| DemuxerMachine.RunDeliversExactly | call/rtcp_demuxer.cc:28-98 | the same after every run, with the sinks named by the run's associations |
| RtcpDemuxers.RtcpDemuxer.AddSink | call/rtcp_demuxer.cc:28-33 | one association more, under the method's own checks |
| RtcpDemuxers.RtcpDemuxer.AddRsidSink | call/rtcp_demuxer.cc:35-42 | one association more, under the method's own checks |
| RtcpDemuxers.RtcpDemuxer.AddBroadcastSink | call/rtcp_demuxer.cc:44-50 | one broadcast sink more, under the method's own checks |
| RtcpDemuxers.RtcpDemuxer.RemoveSink | call/rtcp_demuxer.cc:52-57 | every association of the sink is gone, no other |
| RtcpDemuxers.RtcpDemuxer.RemoveBroadcastSink | call/rtcp_demuxer.cc:59-64 | the sink is gone from the broadcast list |
| RtcpDemuxers.RtcpDemuxer.RemoveFromMultimapByValue | call/rtp_rtcp_demuxer_helper.h:36-48 | the erasing loop keeps exactly the pairs with another sink, in order |
| RtcpDemuxers.RtcpDemuxer.constructor | call/rtcp_demuxer.cc:20 | no associations and no broadcast sinks |
| RtcpDemuxers.RtcpDemuxer.EqualRange | call/rtcp_demuxer.cc:70-73 | the loop over a key's range meets exactly the key's sinks, in order of insertion |
| RtcpDemuxers.RtcpDemuxer.EraseKey | call/rtcp_demuxer.cc:97 | exactly the pairs with another key are kept, in order |
| RtcpDemuxers.RtcpDemuxer.OnRtcpPacket | call/rtcp_demuxer.cc:66-81 | the sinks notified, each once |
| RtcpDemuxers.RtcpDemuxer.OnRsidResolved | call/rtcp_demuxer.cc:83-98 | the loop moves the sinks, and every AddSink it makes passes AddSink's checks |
| LayerAllocations.TrimRowMeaning | common_types.cc:236-249 | the listed part of a row has no trailing zero and gives the row back when padded |
| LayerAllocations.ListingRoundTrip | common_types.cc:213-255 | padding the listed rows with zeros rebuilds the allocation |
| LayerAllocations.ListingEnd | common_types.cc:213-255 | something is always listed: one empty row if all is zero, otherwise no row after the last with a rate |
| LayerAllocations.BitrateAllocation.constructor | common_types.cc:178 | five by four layers, all and the sum zero |
| LayerAllocations.BitrateAllocation.SetBitrate | common_types.cc:180-195 | accepted if and only if the new sum fits 32 bits; then only that cell changes and the cached sum is the true sum |
| LayerAllocations.BitrateAllocation.GetSpatialLayerSum | common_types.cc:205-211 | the row's sum, at most the cached sum |
| LayerAllocations.BitrateAllocation.ListRow | common_types.cc:236-249 | the loop lists the row up to its last rate that is not zero, and its running-sum check holds |
| LayerAllocations.BitrateAllocation.ToLists | common_types.cc:213-255 | the listing, from which the allocation can be rebuilt; all running-sum checks hold |
| RtpExtensions.FindHeaderExtensionByUri | config.cc:134-143 | the first extension of the URI, if any |
| RtpExtensions.FilterDuplicateNonEncrypted | config.cc:145-170 | the loop computes the filtered list |
| RtpExtensions.FilteredAreSurvivors | config.cc:148-168 | the output is the subsequence of encrypted extensions and of the last ones of URIs that are never encrypted |
| RtpExtensions.FilteredMeaning | config.h:89-93 | every encrypted extension stays, no URI is both plain and encrypted or plain twice, no URI is lost or invented |
| RtpExtensions.FilteredTwice | config.cc:145-170 | filtering again changes nothing |

## Left out

- Width32.Allocate32Agrees: states that the bound suffices, not that it is necessary, because wrapped sums can cancel out.
- AudioSendStreams.AudioSendStream.OnBitrateUpdated: a callback from the allocator in the source; here the allocator returns the rates it told and the stream takes its own, so re-entrant callbacks are not captured.
- Calls.Call.DeliverRtp: whether a stream takes the packet from the demultiplexer is a parameter; keep-alive handling, statistics and bandwidth feedback are not modelled.
- RtcpDemuxers.RtcpDemuxer.OnRtcpPacket: the sender SSRC is a parameter; parsing RTCP packets is not modelled.
- LayerAllocations.BitrateAllocation.ToLists: nested lists instead of characters.
- Loss, round-trip time and probing interval, which the allocator only passes on; its log, its clock and its count of pause events.
- Rounding of `double`.
- Threads, locks, task queues and asynchronous posting: operations are serialised.
- Null pointers, and the legality of RSID names.
- Audio send streams apart from their bitrate limits: codecs, SSRC, CNAME, NACK, transport and packet-loss tracking.
- Video send streams, suspended RTP states, network routes, aggregate network state, histograms, the event log and RTCP delivery in a call.
- FlexFEC recovery, congestion control, the RTP demultiplexer and the other public interfaces of the repository.
