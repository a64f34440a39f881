# Verified model of the port-traffic twin

The twin follows trucks, containers and drivers around a container port. Most of its services move data
between HTTP, message topics and tables; a few are engines whose correctness rests on more than one
function. This project states those engines in Dafny and proves what they promise.

| files | engine |
|---|---|
| `Allocator`, `AllocatorTheorems` | Greedy allocation of stocked depots to empty-container demands. |
| `AuditChain`, `CaseLifecycle`, `CaseTheorems`, `ChallanTheorems`, `CaseStore` | Enforcement cases, their hash-chained audit log and challans. |
| `Geofence`, `GeofenceTheorems` | Enter, dwell and exit events of vehicles in zones. |
| `TokenBucket`, `RolePolicy` | The gateway's rate limiter and its role rules. |
| `FaceMatcher` | The synthetic face matcher and its verification threshold. |
| `Appointments`, `AppointmentTheorems` | The appointment book and the deferred-arrival windows. |
| `GateSeed`, `AutoLeo` | The generator of gate records and the reconciliation that checks them. |
| `IcegateAdapter`, `IcegateTheorems` | The capture table driven by boots with the customs adapter on or off. |
| `VehicleIds`, `VehicleMaster`, `FleetTheorems`, `Enrollment`, `Availability` | Vehicle ids, the vehicle master, enrolment, backfill and free options. |
| `WsHub` | Addressed frames to interleaving sockets. |
| `CarbonRollup` | The emissions rollup of a fleet. |
| `Keyed`, `StableSort`, `Text`, `Rounding`, `Wrappers` | Ordered dictionaries, sorting, strings, rounding, option and result types. |

`dafny verify dfyconfig.toml` checks everything.

Each engine is a set of specification functions; where the program updates fields or tables in place or
loops over variables, a class or method with the same loops is proved to compute those functions. The
theorems are then about the functions, over every input, run or interleaving.

## Assumptions

- SHA-256, canonical JSON, the square root, great-circle distance, point-in-polygon and the container check
  digit are parameters. The audit theorems ask that digests be 64 lower-case hex digits, that a rendered body
  begin with `{` and that rendering be injective (`AuditChain.WellBehaved`); digest collisions are never
  assumed away, a theorem that needs their absence offers the colliding pair instead. The square root is
  only asked to be one.
- Clock readings are parameters. Only theorems that mention a non-decreasing clock, or non-empty readings, need
  them.
- Floating point is `real`; explicit `round` calls are modelled as rounding to even.
- A dictionary has each key once, so stored gate records carry distinct container numbers.

## Where the code and its documentation differ

Each point names the lemmas that show it and the condition under which the documentation is right.

- Allocations are listed by demand id, not in the order the demands were processed; the two agree for all
  depots exactly when the demands, by priority, come by ascending id (`ServingOrderExactlyWhenByDemandId`,
  `ServedFirstListedLast`).
- A case may hop to `DISPUTED` by the transition table, but the status CHECK of the case table refuses it
  (`TransitionSucceedsExactly`).
- A case can be `PAID` without a challan: the hop checks the status only (`PaidWithoutAChallan`,
  `PaidWithAChallanExactlyWhenItHadOne`, `ChallanExactlyWhenIssued`).
- Challan numbers are cut to six characters past 999999, so a number can then repeat within a year
  (`MillionthNumberIsRefused`, `BlockOfTenIssuesOnce`, `IssueFailsExactlyWhenDigitsRepeat`).
- The verifier of the audit chain reads an absent stamp like an empty one, and a detail with a key of its own
  named `at` breaks the chain (`MissingStampHashesLikeEmptyStamp`, `EqualContentEqualDetail`,
  `AppendVerifiesUnlessDetailHasAt`).
- The face coordinates are said to lie in [-1, 1), but the largest word gives exactly 1 (`CoordinateRange`,
  `EndsAreReached`).
- "The newest window" that decides a booking is the last inserted one: a redelivered window keeps its place
  (`ReceiptOrderIsKeptUnlessAnOlderWindowReturns`). A window whose gate is the empty text flips slots of every
  gate and meters only the gate of that name (`WindowFlipsWhatItCovers`).
- The gate generator's safety valve can leave fewer than the promised containers, and leaves fewer than any
  promise of more than 10,000,002 (`TenMillionIsTheMost`, `FillReachesTotal`).
- A declared weight of zero, or a negative one, reconciles with any measured weight
  (`NonPositiveDeclarationAlwaysPasses`, `WithinTolerance`).
- Rollback of the ICEGATE adapter can leave a row without its plate, until the next successful sync: a failed
  purge followed by an upsert keeps the missing plate of the customs row (`RollbackIsSymmetric`,
  `SharedKeyLosesItsPlateUntilTheNextSync`, `SymmetricExactlyWhenKeysApart`).
- After `TRK-999999` the next vehicle id is `TRK-1000000`, whatever ids are added later (`NextIdAdvances`).
- In memory, asking for re-enrolment can leave two open requests on one vehicle (`ReenrolmentLeavesTwoOpen`,
  `StepKeepsOneOpenExactlyWhenGuarded`).
- A socket not yet frozen that identifies between a broadcast's snapshot and its send still receives that
  frame, although it is by then bound to another device (`LateIdentificationLeaksOneFrame`,
  `LeakExactlyWhenNotFrozen`).

## Model

| member | source | states |
|---|---|---|
| Allocator.Confidence | empty-container/optimizer.py:104-116 | The confidence lies between 0.5 and 1: 0.6 without a runner-up, 0.5 when the runner-up is non-positive or no dearer, 1 when the winner costs nothing, and otherwise 1 minus half the ratio of the two costs, to three places. |
| Allocator.CandidatesAreStockedDepots | empty-container/optimizer.py:139-155 | The candidates of a demand are exactly the depots of the book still holding its type, each with its cost terms. |
| Allocator.ServesTheCheapestStockedDepot | empty-container/optimizer.py:132-180 | A demand is served if and only if some depot is stocked, from the (cost without priority, depot id) minimum, with the smaller of the wanted and the available quantity. |
| Allocator.ChoiceIsUnique | empty-container/optimizer.py:139-155 | With distinct depot ids that minimum is one depot. |
| Allocator.PriorityNeverChangesTheDepot | empty-container/optimizer.py:84-91 | The priority term, equal across depots, changes neither the depot, nor the quantity, nor the stock left. |
| Allocator.FillDemand | empty-container/optimizer.py:138-180 | One turn of the loop on the mutable stock table is the serving step. |
| Allocator.Allocate | empty-container/optimizer.py:124-184 | The two sorts and the loop over the mutable stock compute the specified allocation list. |
| AllocatorTheorems.StockIsConserved | empty-container/optimizer.py:132-180 | For each depot and type: initial stock equals remaining stock plus what the returned allocations draw, and nothing goes negative. |
| AllocatorTheorems.ResultListsTheServed | empty-container/optimizer.py:172-184 | The sorted result holds exactly what the served demands received. |
| AllocatorTheorems.EveryAllocationWasTheBestChoice | empty-container/optimizer.py:138-180 | Each allocation was the best choice on the stock left by all demands served before it. |
| AllocatorTheorems.UrgentAreServedFirst | empty-container/optimizer.py:46-121 | The serving order is a permutation of the demands: high first, low last, everything else between, and by ascending id among equals. |
| AllocatorTheorems.AllocationReports | empty-container/optimizer.py:84-180 | An allocation carries the distance, turn-round time and cost terms of the chosen depot, and a confidence against the cheapest other stocked depot, or 0.6 without one. |
| AllocatorTheorems.NoPriorityInversion | empty-container/optimizer.py:138-148 | Once a demand is skipped, every later demand of its type is skipped and the type ends exhausted at every depot. |
| AllocatorTheorems.ServedMeansMoreUrgentServed | empty-container/optimizer.py:119-138 | No demand is served while one of its type is skipped that is more urgent (high, then anything else, then low) or as urgent with an earlier id. |
| AllocatorTheorems.OrderIndependence | empty-container/optimizer.py:119-184 | With distinct depot ids and distinct demand ids, permuting both books changes neither the allocations nor the stock left. |
| AllocatorTheorems.ServingOrderExactlyWhenByDemandId | empty-container/optimizer.py:124-184 | Whatever the depots hold, the result is in serving order, as its documentation says, if and only if the demands, sorted by priority and id, come by ascending id. |
| AllocatorTheorems.ServedFirstListedLast | empty-container/optimizer.py:124-184 | An input where they do not: a later id that is more urgent is served first and listed last. |
| AuditChain.VerifyChain | gateway/enforcement.py:312-338 | The verifying loop reports the first row that does not link, or accepts. |
| AuditChain.AppendVerifiesUnlessDetailHasAt | gateway/enforcement.py:247-296 | Writer and verifier agree: an appended row is accepted if its detail carries no "at" key; with one it is rejected, or the digest collides. |
| AuditChain.PreimageSplits | gateway/enforcement.py:299-309 | The hashed text splits in one way only into previous hash and body. |
| AuditChain.LastRowsAgree | gateway/enforcement.py:299-338 | Two accepted chains with one last hash agree on their last rows and on the hash before, or exhibit a collision. |
| AuditChain.FinalHashPinsHistory | gateway/enforcement.py:299-338 | Two accepted chains with the same last hash have the same length and contents, or exhibit a digest collision. |
| AuditChain.EqualContentEqualDetail | gateway/enforcement.py:312-330 | What equal content leaves open: details are equal exactly when the stamps agree in presence and value. |
| AuditChain.StampReads | gateway/enforcement.py:318-326 | The verifier reads the stored stamp as it is, but a missing one and any empty value as the empty text. |
| AuditChain.SameHistoryOfStampedRows | gateway/enforcement.py:247-296 | Written rows that tell one history store the same but their ids. |
| AuditChain.FinalHashPinsStampedRows | gateway/enforcement.py:247-338 | Two accepted chains of written rows with the same last hash store the same but the row ids, or exhibit a digest collision. |
| AuditChain.MissingStampHashesLikeEmptyStamp | gateway/enforcement.py:318-326 | An empty and an absent stamp hash alike, so raw rows are not pinned in general. |
| AuditChain.TamperingIsLocated | gateway/enforcement.py:312-338 | Replacing a row breaks it unless the replacement links; a linking one with a new hash breaks exactly the next row. |
| AuditChain.EditedContentBreaksItsRow | gateway/enforcement.py:312-338 | Changing what a row says while keeping its hashes breaks exactly that row, or is a collision. |
| CaseTheorems.EveryRunKeepsInv | gateway/enforcement.py:247-571 | In every run each case log is accepted, its TRANSITION rows form one legal path from DETECTED to the stored status, it was opened once, and no case has two challans nor two challans one number. |
| CaseTheorems.StepKeepsInv | gateway/enforcement.py:342-571 | Each operation keeps that. |
| CaseTheorems.OpeningIsAuditedOnce | gateway/enforcement.py:342-378 | Opening enters a new case as DETECTED with its facts and no fine, leaves a known one, and writes one row unless the log has an opening. |
| CaseTheorems.HopIsAudited | gateway/enforcement.py:534-571 | A hop that succeeds moves its case only and writes one row with where it came from, where it went and the payment reference. |
| CaseTheorems.IssueIsAudited | gateway/enforcement.py:486-531 | A first challan writes one row with its number and fine; a repeated or failed issue writes none. |
| CaseTheorems.TotalsWriteFineAndFacts | gateway/enforcement.py:457-483 | Setting the totals of a case sets its fine and fills in absent facts, and touches nothing else. |
| CaseTheorems.HopsAreTheTable | gateway/enforcement.py:45-58 | The hops allowed are exactly those of the table. |
| CaseTheorems.EveryRunIsStamped | gateway/enforcement.py:247-296 | In every run under a clock whose readings are not empty, every log row carries a non-empty stamp. |
| CaseTheorems.LastHashPinsTheLog | gateway/enforcement.py:247-338 | In every run, any accepted chain of stamped rows with the last hash of a case log stores what the run wrote, row ids apart, or exhibits a digest collision. |
| CaseTheorems.PathFollowsTheCanon | gateway/enforcement.py:45-58 | A legal path to an open canonical status passes through every canonical status before it. |
| CaseTheorems.PaidPassesThroughChallan | gateway/enforcement.py:45-53 | In every run a PAID case went through the statuses REVIEWED, CONFIRMED and CHALLAN_ISSUED, on its own log. |
| CaseTheorems.ClosedIsFinal | gateway/enforcement.py:52-58 | Whatever is asked, a CLOSED case stays closed and its log gains no transition. |
| CaseTheorems.AdvanceWalksTheCanon | gateway/enforcement.py:425-454 | Below its target advance_to stores the target and logs exactly the canonical hops in between, each legal. |
| CaseTheorems.AdvanceIsIdempotent | gateway/enforcement.py:425-454 | At or past its target advance_to changes nothing. |
| ChallanTheorems.ChallansAreImmutable | gateway/enforcement.py:486-571 | Under every operation an issued challan keeps everything but its status and payment reference. |
| ChallanTheorems.OnlySettlingMovesAChallan | gateway/enforcement.py:534-571 | A hop to PAID or CLOSED writes that status, and the payment reference if given, on the challan of its case; no other operation changes any challan on file. |
| ChallanTheorems.OtherHopsLeaveChallans | gateway/enforcement.py:534-571 | Every other hop leaves the whole table of challans as it is. |
| ChallanTheorems.ChallanShowsTheLastSettlement | gateway/enforcement.py:534-571 | In every run the challan of a case shows what the last hop to PAID or CLOSED of that case wrote. |
| ChallanTheorems.IssuedAsAsked | gateway/enforcement.py:486-531 | A challan is issued with what was asked for, ISSUED and unpaid, under the number drawn, and stands so until the first such hop. |
| ChallanTheorems.SecondIssueReturnsTheFirst | gateway/enforcement.py:486-531 | Whatever happened in between and whatever it asks for, a repeated issue changes nothing and returns the first challan, of which only status and payment reference may have moved. |
| ChallanTheorems.ChallanExactlyWhenIssued | gateway/enforcement.py:486-571 | In every run a case has a challan if and only if some operation issued it one. |
| ChallanTheorems.PaidWithAChallanExactlyWhenItHadOne | gateway/enforcement.py:534-571 | A hop to PAID leaves the case with a challan if and only if it had one. |
| ChallanTheorems.PaidWithoutAChallan | gateway/routers/violations.py:892-914 | A run of explicit hops brings a case to PAID with no challan on file. |
| ChallanTheorems.IssueFailsExactlyOnATakenNumber | gateway/enforcement.py:486-531 | In every state issuing fails if and only if the case has no challan and the padded number is on file for the year. |
| ChallanTheorems.NumbersOnFileAreTheDraws | gateway/enforcement.py:508-520 | In every run the numbers on file are those drawn from the sequence, which starts at 1001 and never repeats. |
| ChallanTheorems.IssueFailsExactlyWhenDigitsRepeat | gateway/enforcement.py:508-520 | In every run issuing to a case without a challan fails if and only if an earlier draw of that year shows the same six digits. |
| ChallanTheorems.IssueSucceedsBelowAMillion | gateway/enforcement.py:486-531 | In every run issuing succeeds while the number sequence fits six digits. |
| ChallanTheorems.BlockOfTenIssuesOnce | gateway/enforcement.py:508-520 | In every run past a million, issuing to a case without a challan fails if an earlier draw of the year lies in the same block of ten. |
| ChallanTheorems.BusyYearIsFiled | gateway/enforcement.py:486-531 | Any n distinct cases opened and issued to in one year, n below 999000, are all on file under the numbers from 1001 on. |
| ChallanTheorems.MillionthNumberIsRefused | gateway/enforcement.py:508-520 | After any 998999 distinct ones the sequence stands at a million and any further case is refused: its number reads 100000 again. |
| ChallanTheorems.TransitionSucceedsExactly | gateway/enforcement.py:45-58 | A hop succeeds if and only if the case exists, the table of hops allows it and its target is not DISPUTED; from CHALLAN_ISSUED that one is refused by the status CHECK; a failed hop changes nothing. |
| CaseStore.Store.Audit | gateway/enforcement.py:247-296 | Appends one row that carries the previous hash of its case. |
| CaseStore.Store.OpenOrGetCase | gateway/enforcement.py:342-378 | Inserts at DETECTED if new and audits the opening once. |
| CaseStore.Store.AdvanceTo | gateway/enforcement.py:425-454 | The while loop over the stored status performs the specified walk, or reports the error. |
| CaseStore.Store.IssueChallan | gateway/enforcement.py:486-531 | Returns the existing challan, or draws the next number, inserts and audits. |
| CaseStore.Store.TransitionCase | gateway/enforcement.py:534-571 | One checked hop, its audit row, and the reflection onto the challan. |
| CaseStore.Store.SetCaseTotals | gateway/enforcement.py:457-483 | Sets the fine; each of the six facts keeps a value it has and takes the offered one otherwise; status and other cases stay. |
| Geofence.GeofenceEngine.OpenStays | gateway/geofence.py:168-182 | The first loop opens a stay for each zone newly containing the vehicle, a restricted one as a violation at once. |
| Geofence.GeofenceEngine.RaiseOverruns | gateway/geofence.py:184-195 | The second loop reports each overrunning stay once. |
| Geofence.GeofenceEngine.CloseStays | gateway/geofence.py:197-205 | The third loop closes the stays in zones left. |
| Geofence.GeofenceEngine.EvaluatePosition | gateway/geofence.py:155-211 | The three loops over the open stays produce the specified events, state and log. |
| Geofence.TruncCutsTowardZero | gateway/geofence.py:184-205 | Logged seconds are cut toward zero, for stays of negative length too. |
| GeofenceTheorems.EvaluationRefinesZoneStep | gateway/geofence.py:155-211 | One evaluation over all zones does to each zone exactly what a single-zone automaton does to it alone. |
| GeofenceTheorems.EngineRefinesZoneRun | gateway/geofence.py:155-211 | In every run state and log seen from one vehicle and zone are the automaton's. |
| GeofenceTheorems.OpenZonesAreTheContainingZones | gateway/geofence.py:160-211 | After each evaluation the vehicle's open zones are exactly the ids of zones of the list whose non-empty ring holds its (lat, lon) point. |
| GeofenceTheorems.InsideIsWhatHolds | gateway/geofence.py:80-166 | The zones found are those; of several with one id the last of the list counts. |
| GeofenceTheorems.OtherVehiclesAreUntouched | gateway/geofence.py:155-211 | An evaluation changes neither the open zones nor the trace of another vehicle. |
| GeofenceTheorems.TracesAreLegal | gateway/geofence.py:160-211 | Per vehicle and zone ENTER and EXIT alternate with at most one violation per visit, and the trace alone tells the state: since when the vehicle is within and whether it was reported. |
| GeofenceTheorems.ViolationIsRaisedExactlyWhenDue | gateway/geofence.py:176-198 | Read on the log and the zone list: a parking violation is logged by exactly the evaluations at which the last zone of its id that holds the vehicle is a no-parking zone, the limit is reached since the logged ENTER and no violation was logged since then, with that dwell. |
| GeofenceTheorems.DwellNeverExceedsElapsedTime | gateway/geofence.py:200-211 | On a non-decreasing clock the summed EXIT dwells fit in the time observed. |
| TokenBucket.Limiter.Allow | gateway/auth.py:437-446 | Decides one call and charges an admitted one, for its own key only. |
| TokenBucket.LimiterIsSteady | gateway/auth.py:432-441 | The limiter holds its capacity and earns in proportion to time, one full bucket a minute. |
| TokenBucket.LevelComposes | gateway/auth.py:437-446 | Waiting in two steps refills as much as waiting at once. |
| TokenBucket.AdmissionsAreBounded | gateway/auth.py:429-446 | In any contiguous stretch of any run a key is admitted at most one bucket plus what the time earns. |
| TokenBucket.LimiterRateIsBounded | gateway/auth.py:429-446 | Under the limiter built from a per-minute rate that is at most capacity + (e - s) * capacity / 60 calls between times s and e, whatever other keys do. |
| TokenBucket.DeniedExactlyWhenItWouldExceed | gateway/auth.py:429-446 | The converse: a call is denied if and only if admitting it would give its key, from some earlier call of the key or this one, more than one bucket plus what the time earns. |
| TokenBucket.BurstIsExactlyCapacity | gateway/auth.py:429-446 | Of simultaneous first calls exactly the first capacity are admitted. |
| TokenBucket.IdleKeyIsAdmitted | gateway/auth.py:437-446 | A key idle long enough to earn a token is admitted. |
| TokenBucket.KeysAreIndependent | gateway/auth.py:429-446 | A call is told what it would be told were its key the only one. |
| TokenBucket.DeletingDeniedKeepsVerdicts | gateway/auth.py:437-446 | Deleting every denied call changes no other verdict. |
| RolePolicy.FindBest | gateway/auth.py:248-255 | The loop finds the first applicable rule of the greatest prefix length. |
| RolePolicy.AppliesExactly | gateway/auth.py:248-309 | A rule applies when the path begins with its prefix and, for an overlay rule, the verb is among its methods. |
| RolePolicy.Authorise | gateway/auth.py:299-307 | A role is returned exactly when the first longest path rule holds it, or everyone's set if none applies, and the first longest overlay rule for the method does too. |
| RolePolicy.BestIsLongest | gateway/auth.py:248-255 | The rule found applies and no applicable rule has a longer prefix; none is found only if none applies. |
| RolePolicy.BestDecides | gateway/auth.py:248-255 | It is the first of the longest applicable rules. |
| RolePolicy.RuleOrderIsIrrelevant | gateway/auth.py:248-307 | With distinct prefixes the order of a rule table does not matter. |
| RolePolicy.AllowedExactlyWhenBothRulesAllow | gateway/auth.py:248-307 | For any two rule tables a role may call exactly when the deciding path rule and the deciding overlay rule both hold it. |
| FaceMatcher.HashStream | identity/embeddings.py:37-51 | Chains digests into the specified stream. |
| FaceMatcher.FloatsFrom | identity/embeddings.py:54-63 | Slices the stream into words and scales each to a coordinate. |
| FaceMatcher.CoordinateRange | identity/embeddings.py:54-63 | Every coordinate lies in [-1, 1] and is never zero; it is -1 for the word zero only and 1 for the largest word only. |
| FaceMatcher.EndsAreReached | identity/embeddings.py:37-63 | Both ends are drawn, at every coordinate the stream fills, under some digest of 32 bytes. |
| FaceMatcher.CoordinateIsDrawn | identity/embeddings.py:37-63 | Coordinate i of a draw is the i-th big-endian word of the digests of seed, bar and block number, scaled to the range. |
| FaceMatcher.EnrolmentAndImpostor | identity/embeddings.py:68-122 | An enrolment is the unit vector of the draw from the driver's name, and an impostor's capture that of the draw from the prefixed name. |
| FaceMatcher.GenuineCaptureIs | identity/embeddings.py:104-120 | A genuine capture is the unit vector of the enrolment plus 0.0375 times the drawn noise. |
| FaceMatcher.ImpostorScore | identity/embeddings.py:82-122 | An impostor is scored by the dot product of the enrolments of two different names. |
| FaceMatcher.CauchySchwarz | identity/embeddings.py:82-101 | The squared dot product never exceeds the product of the squared norms. |
| FaceMatcher.ClampNeverBites | identity/embeddings.py:82-101 | For any two vectors of one length and non-zero norms the clamp never changes the exact cosine. |
| FaceMatcher.CosineOfUnits | identity/embeddings.py:82-101 | For unit vectors the cosine is the dot product. |
| FaceMatcher.NoMatchScoresZero | identity/embeddings.py:82-101 | Vectors of different lengths, and vectors without a length, score zero. |
| FaceMatcher.NoiseBoundsCosine | identity/embeddings.py:104-120 | Noise of squared norm w below one leaves the squared cosine at 1 - w or more. |
| FaceMatcher.GenuineCosine | identity/embeddings.py:104-120 | The cosine of an enrolment and its genuine capture is positive and its square loses at most the squared noise. |
| FaceMatcher.GenuineCaptureVerifies | identity/config.py:38 | For every digest and every driver a genuine capture scores at least the 0.9 threshold at dimension 128 or less. |
| FaceMatcher.SelfCosineIsOne | identity/embeddings.py:82-101 | A synthetic embedding has cosine exactly one with itself. |
| Keyed.PutKeepsKeysDistinct | gateway/tas_mock.py:47-60 | Assigning to a key keeps the keys of an insertion-ordered dictionary distinct. |
| Appointments.AppointmentSystem.EnsureGateSlots | gateway/tas_mock.py:47-60 | Mints a gate's twelve slots on first touch only. |
| Appointments.AppointmentSystem.RescheduleGate | gateway/tas_mock.py:71-85 | Marks the booked slots of the gate in place and lists them. |
| Appointments.AppointmentSystem.RestoreGate | gateway/tas_mock.py:88-97 | Books the rescheduled slots of the gate again and counts them. |
| Appointments.AppointmentSystem.ApplyDeferredWindow | gateway/tas_mock.py:124-160 | Flips the booked slots in the window, seats its entry, and returns both; the entry is then found under its id. |
| Appointments.AppointmentSystem.RestoreDeferredWindow | gateway/tas_mock.py:163-183 | Seats a persisted window without touching slots. |
| Appointments.AppointmentSystem.CheckBookingAllowed | gateway/tas_mock.py:191-210 | The backward search answers and charges as specified. |
| Appointments.SeatedIsFound | gateway/tas_mock.py:143-149 | A seated entry is the one its correlation id finds, also after the oldest were dropped. |
| AppointmentTheorems.SlotIdsAreInjective | gateway/tas_mock.py:47-60 | No two gates share a slot id, whatever their names. |
| AppointmentTheorems.MintAppends | gateway/tas_mock.py:47-60 | Minting a gate overwrites no slot: it appends the gate's own. |
| AppointmentTheorems.FirstTouchMintsTwelve | gateway/tas_mock.py:47-60 | A gate already in the book is left alone; a new one gets twelve booked slots a quarter of an hour apart from the minute on, under numbered ids, at the end of the book. |
| AppointmentTheorems.CloseReschedulesTheBooked | gateway/tas_mock.py:71-85 | Closing reschedules exactly the booked slots of the gate, leaves every other slot, and lists exactly the changed ones in book order. |
| AppointmentTheorems.ResetBooksTheRescheduled | gateway/tas_mock.py:88-97 | Resetting books exactly the rescheduled slots of the gate again, leaves every other slot, and counts the changed ones. |
| AppointmentTheorems.WindowReschedulesItsReach | gateway/tas_mock.py:124-160 | An applied window reschedules exactly the booked slots of its gate, or of any, that start within it; its entry has its bounds, cap and earlier bookings and lists the changed slots in book order. |
| AppointmentTheorems.SeatKeepsTheLatest | gateway/tas_mock.py:143-149 | A known id is seated where it stands; a new one last, and the oldest goes once there are 32. |
| AppointmentTheorems.RestoredAsStored | gateway/tas_mock.py:163-183 | A stored window is seated as stored, with the current reading and no bookings where none were stored, and no slot changes. |
| AppointmentTheorems.EveryRunKeepsState | gateway/tas_mock.py:47-210 | In every run slot ids are distinct, every gate named has all its slots, a booked slot is moved nowhere, and at most 32 windows stand, with distinct ids. |
| AppointmentTheorems.RestoreUndoesReschedule | gateway/tas_mock.py:71-97 | Closing and resetting a gate is the identity on the minted book, and the counts agree, exactly when the gate had no rescheduled slot. |
| AppointmentTheorems.ReapplyFlipsNothing | gateway/tas_mock.py:124-160 | A redelivered window flips no slot and keeps place and bookings; its applied slots become the empty list. |
| AppointmentTheorems.WindowFlipsWhatItCovers | gateway/tas_mock.py:134-210 | A window flips exactly the booked slots whose bookings it meters, if and only if its gate is not the empty text. |
| AppointmentTheorems.OnlyTheLastCoveringWindowDecides | gateway/tas_mock.py:191-210 | Only the last-inserted covering window decides and is charged; all others are unchanged. |
| AppointmentTheorems.UncoveredBookingsAreFree | gateway/tas_mock.py:191-210 | A booking is charged to no window if and only if none covers it, and is then allowed. |
| AppointmentTheorems.ReceiptOrderIsKeptUnlessAnOlderWindowReturns | gateway/tas_mock.py:143-159 | The list stays in order of receipt exactly when the applied id is new or stands last: a redelivered older window is not the one tried first. |
| AppointmentTheorems.BookedCountsCharges | gateway/tas_mock.py:191-210 | While a window stands its counter is its start value plus the bookings charged to it. |
| AppointmentTheorems.BookingsRespectTheCap | gateway/tas_mock.py:124-210 | Between two applications or restores of an id, the bookings charged to it are at most max(0, slot_cap - booked). |
| GateSeed.FindFirst | gate-data/seed.py:254-269 | The search returns the least qualifying index, and ends because one exists. |
| GateSeed.Fill | gate-data/seed.py:312-319 | The filling loop, with its safety valve, holds the records of the indices drawn. |
| GateSeed.GenerateDataset | gate-data/seed.py:302-323 | The filled set with the two pinned containers put over it. |
| GateSeed.AnomalyRates | gate-data/seed.py:175-190 | Tampering, misweighing and a missing order are drawn from the digests of their names and the index, in 6, 7 and 5 of a hundred values. |
| GateSeed.StreamsAgree | gate-data/seed.py:175-244 | The four streams of a record are of one container and one shipping bill and show the anomalies drawn. |
| GateSeed.ReadingIsDrawn | gate-data/seed.py:205-219 | The reading is the declared weight, off by 4.00 to 8.99 percent if drawn so and by less than one otherwise, up or down, to the kilogram. |
| GateSeed.SealAndFormAreDrawn | gate-data/seed.py:186-203 | The seal's and the form's fields are each drawn from the digest of its own name and padded to its width. |
| GateSeed.BridgeAndOrderAreDrawn | gate-data/seed.py:221-236 | The same for the weighbridge's and the customs message's. |
| GateSeed.NamesAreDrawn | gate-data/seed.py:144-167 | The same for container number and plate. |
| AutoLeo.CustomsFlags | gate-data/leo.py:200-214 | A flag is raised exactly when it is due, once, in a fixed order; a missing weight is told from one that disagrees. |
| AutoLeo.Reconcile | gate-data/leo.py:96-224 | A container is cleared if and only if its records are in order, if and only if it has no flag, if and only if all four streams are MATCH; otherwise exactly the flags due on its record are raised. |
| AutoLeo.WithinTolerance | gate-data/leo.py:89-93 | The percentage test, free of division, for every sign of the declared weight. |
| AutoLeo.NonPositiveDeclarationAlwaysPasses | gate-data/leo.py:89-93 | A declared weight of zero or less passes every tolerance, whatever was measured. |
| AutoLeo.ReadyMeansInOrder | gate-data/leo.py:96-224 | A container is cleared exactly when its four records exist, agree on it, are untampered, within tolerance and granted, and exactly when all four streams are MATCH. |
| AutoLeo.FlagsAreTheDue | gate-data/leo.py:135-214 | The flags of a captured container are exactly those due on its record, an absent stream being told from one that disagrees. |
| AutoLeo.EachStreamIsJudged | gate-data/leo.py:180-198 | Each stream is MISSING exactly when not captured and MATCH exactly when captured, on this container and passing its own test. |
| AutoLeo.DiscrepancyShown | gate-data/leo.py:150-172 | The discrepancy shown is that of the two weights to a hundredth of a percent, and absent when a weight is. |
| AutoLeo.UncapturedIsHeld | gate-data/leo.py:110-122 | A container nothing was captured for is held for its records, passes no check and has all four streams MISSING. |
| AutoLeo.WeightIsOffExactlyWhenDrawn | gate-data/seed.py:205-219 | Rounding included, the reading leaves the 2 % tolerance exactly when the mismatch was drawn. |
| AutoLeo.CheckerRaisesTheDraws | gate-data/seed.py:175-244 | For every hash and index the checker raises exactly the drawn anomalies, never an id mismatch. |
| AutoLeo.LaterIndexWins | gate-data/seed.py:312-316 | The generated set holds, under each number, the record of the last index that drew it. |
| AutoLeo.EveryEntryRaisesItsDraws | gate-data/seed.py:302-323 | That agreement carries over to every entry of the generated set. |
| AutoLeo.PinnedContainers | gate-data/seed.py:247-251 | The pinned clean container is cleared; the pinned tampered one is held for its e-seal alone. |
| AutoLeo.FillReachesTotal | gate-data/seed.py:302-323 | The returned set holds the promised number of containers exactly when the first 4 * total + 1 indices and the two pinned containers make that many. |
| AutoLeo.TenMillionIsTheMost | gate-data/seed.py:302-323 | It need not: for every hash the set holds 10,000,002 containers at most, so a larger promise is never met. |
| IcegateAdapter.CaptureTable.UpsertCapture | gate-data/persistence.py:111-152 | Inserts, or updates status, payload and mode and keeps plate and gate. |
| IcegateAdapter.CaptureTable.SyncIcegateCaptures | gate-data/customs_adapter.py:110-150 | Purge and insert are one transaction: all or nothing. |
| IcegateAdapter.CaptureTable.PersistDatasetOnce | gate-data/app.py:147-190 | One boot over the capture table, adapter on or off. |
| IcegateTheorems.SeedHoldsFourCapturesEach | gate-data/providers.py:78-99 | The synthetic table holds exactly the four captures of every record. |
| IcegateTheorems.SeedShowsTheStreams | gate-data/providers.py:78-99 | Each of them carries the truck's plate, the stream as recorded and its status; the streams without a clock stand under the time of the e-seal. |
| IcegateTheorems.FirstDeclaredIsInserted | gate-data/customs_adapter.py:50-82 | The customs table holds, for each key, the first declared container with it. |
| IcegateTheorems.CustomsSaysWhatWasDeclared | gate-data/customs_adapter.py:53-93 | A customs row stands under a key exactly when a container is declared with it, without plate or gate, GRANTED if cleared and ASSESSED if selected, as the first such declaration says. |
| IcegateTheorems.OtherSourcesAreUnaffected | gate-data/app.py:158-190 | After any boot the rows of the other sources are the seed's, whatever the adapter did. |
| IcegateTheorems.SyncLeavesNoSimIcegate | gate-data/customs_adapter.py:84-89 | From any table a successful sync leaves no synthetic ICEGATE row. |
| IcegateTheorems.EndingOnIsOneSync | gate-data/app.py:147-190 | Any history ending in a successful sync leaves the table of one such boot from empty. |
| IcegateTheorems.FailedSyncKeepsIcegate | gate-data/customs_adapter.py:110-150 | A failed sync leaves the ICEGATE rows as they were. |
| IcegateTheorems.SharedKeysFollowTheTrail | gate-data/app.py:158-190 | In every history a key shared by seed and customs shows what a four-state automaton over the boots says. |
| IcegateTheorems.StrippedExactlyWhenAPurgeFailed | gate-data/app.py:158-190 | That automaton ends stripped exactly when the first off boot after the last successful sync failed to purge. |
| IcegateTheorems.RollbackIsSymmetric | gate-data/customs_adapter.py:11-13 | History by history: ending with the adapter off and purged leaves one off boot's table if and only if no customs key meets a seed key or the first off boot after the last successful sync did purge. |
| IcegateTheorems.SharedKeyLosesItsPlateUntilTheNextSync | gate-data/customs_adapter.py:153-172 | After such a failed purge the synthetic row of a shared key stays without its plate until the next successful sync; a purge after that restores the table. |
| IcegateTheorems.SymmetricExactlyWhenKeysApart | gate-data/customs_adapter.py:11-13 | When purges may fail, rollback is symmetric over all histories if and only if no customs key meets a seed key. |
| IcegateTheorems.RestartChangesNothing | gate-data/app.py:147-153 | Booting again the same way changes no capture, from any table. |
| VehicleIds.SeqOfInvertsFormat | gateway/fleet.py:134-143 | Parsing inverts formatting on exactly the suffixes 0 to 999999; beyond them it reads 0. |
| VehicleIds.FormatInvertsSeqOf | gateway/fleet.py:134-143 | Formatting inverts parsing on every well-formed id. |
| VehicleIds.IdOrderIsNumeric | gateway/fleet.py:191-203 | Well-formed ids sort as text exactly as their suffixes do as numbers. |
| VehicleIds.SqlAndMemoryAgree | gateway/fleet.py:189-209 | The text MAX of the database and the numeric maximum in memory give the same next id. |
| VehicleIds.NextIdAdvances | gateway/fleet.py:170-209 | The next id is above every operator id if and only if the highest suffix is below 999999; it is then new and at least 900001; at 999999 it is TRK-1000000, and so it stays whatever ids are added later. |
| VehicleMaster.Master.NextVehicleId | gateway/fleet.py:206-209 | The in-memory maximum yields the next id. |
| VehicleMaster.Master.AddVehicle | gateway/fleet.py:233-266 | Adds under the normal id, or refuses a taken one. |
| VehicleMaster.Master.SyncFromFleet | gateway/fleet.py:327-340 | Imports unknown devices only and counts them. |
| VehicleMaster.Master.SyncFromAssignments | gateway/fleet.py:348-387 | Adds the missing row of each assignment and counts them. |
| VehicleMaster.Master.OrphanActiveDrivers | gateway/fleet.py:414-426 | Lists the drivers whose vehicle has no row. |
| FleetTheorems.EveryRunKeepsFleet | gateway/fleet.py:233-387 | In every run ids are distinct and normal, and rows are only ever appended. |
| FleetTheorems.AddWrites | gateway/fleet.py:233-266 | A vehicle is added at the end under its normal id, empty texts stored as nothing, and refused exactly when the id is taken. |
| FleetTheorems.UpdateWrites | gateway/fleet.py:269-297 | A patch changes the fields it names on the row of that id, and its time; an empty one, or an unknown id, changes nothing. |
| FleetTheorems.ImportWrites | gateway/fleet.py:300-340 | A device with an id not yet taken becomes an active container truck under its plate; any other is not imported. |
| FleetTheorems.ImportRows | gateway/fleet.py:300-340 | After an import exactly the earlier ids and those of the devices that have one are taken. |
| FleetTheorems.BackfillWrites | gateway/fleet.py:348-387 | An assignment without a row gets an active one, numbered by the id itself when that is a plate, else by the driver's own entry unless that is a vehicle id. |
| FleetTheorems.OrphansAreListed | gateway/fleet.py:414-426 | The audit lists exactly the drivers that hold a vehicle without a row, only active ones if asked so. |
| FleetTheorems.MintedIdsIncrease | gateway/fleet.py:170-266 | Across adds, updates, imports and backfills, minted ids strictly increase, are new, stay on file and are at least 900001, while suffixes last. |
| FleetTheorems.SimulatorNeverMovesTheSequence | gateway/fleet.py:300-340 | Importing simulator ids below the floor leaves the next id unchanged. |
| FleetTheorems.BackfillRows | gateway/fleet.py:348-387 | After the backfill exactly the earlier ids and the assigned ones exist, earlier rows unchanged. |
| FleetTheorems.BackfillClosesOrphans | gateway/fleet.py:348-426 | After it no driver is orphaned, and a second backfill inserts nothing. |
| FleetTheorems.NoApprovedDriverIsOrphaned | gateway/fleet.py:390-426 | The same for all approvals and all histories of the master. |
| Enrollment.EnrollmentStore.SubmitRequest | gateway/enrollment.py:281-379 | Writes the request, or refuses when another driver's open request holds the vehicle. |
| Enrollment.EnrollmentStore.Approve | gateway/enrollment.py:416-426 | Closes the request and writes the driver record. |
| Enrollment.EnrollmentStore.SetRequestStatus | gateway/enrollment.py:456-461 | Sets status, reason and reviewer of a request that exists. |
| Enrollment.SubmitWrites | gateway/enrollment.py:281-379 | A request is refused exactly when another driver's pending or re-enrolling request names its vehicle in whatever spelling; otherwise it stands pending and unreviewed. |
| Enrollment.ReviewWrites | gateway/enrollment.py:416-462 | A review writes its outcome on that request only and leaves it as filed; approval drops the reason and sets the photo. |
| Enrollment.PromoteWrites | gateway/enrollment.py:552-563 | Approval writes one active driver record from the request, in place of that driver's earlier one or after all others. |
| Enrollment.StepKeepsOneOpenExactlyWhenGuarded | gateway/enrollment.py:358-462 | One open request per vehicle is kept by every operation, except exactly when setting a status reopens a request whose vehicle another open one holds. |
| Enrollment.RunKeepsOneOpen | gateway/enrollment.py:281-462 | It holds over every run that avoids that. |
| Enrollment.ReenrolmentLeavesTwoOpen | gateway/enrollment.py:429-462 | A run that does not: reject one driver, take another on the same vehicle, ask the first again. |
| Enrollment.PromoteKeepsDrivers | gateway/enrollment.py:552-563 | Driver records stay distinct, each with the normal form of its vehicle. |
| Enrollment.AssignmentsAreTheHolders | gateway/enrollment.py:821-837 | The assignments are exactly the drivers of any status that hold a vehicle. |
| Availability.PickFree | gateway/fleet.py:566-581 | The loop with its set of seen identities keeps the first eligible record of each. |
| Availability.PickIsOnePerIdentity | gateway/fleet.py:566-581 | Picked records are eligible, of distinct identities, and stand for every eligible record. |
| Availability.PickKeepsTheFirst | gateway/fleet.py:566-581 | The record kept of an identity is the first eligible one. |
| Availability.TruckIs | gateway/fleet.py:532-548 | The truck of a row is the letters and digits of its registration, or its id when there are none. |
| Availability.PersonIs | gateway/enrollment.py:663-664 | The person of a record is the letters and digits of the licence, or the id when there are none. |
| Availability.OneOptionPerTruck | gateway/fleet.py:550-581 | Options are free rows of distinct trucks, and every free row's truck is offered: active, with an id, neither id nor truck busy by name, by registration or through another row, and fitting the search text. |
| Availability.OptionsComeNewestFirst | gateway/fleet.py:580-581 | The options come newest first. |
| Availability.OneOptionPerPerson | gateway/enrollment.py:649-677 | The same for drivers, by licence and by id, name or licence searched. |
| Availability.OptionsComeByName | gateway/enrollment.py:660-662 | The drivers offered come by upper-cased name, then id. |
| Text.StrLeqIsLexicographic | empty-container/optimizer.py:119-121 | The text order used for ids is lexicographic by code point: a prefix first, else the text smaller at the first difference. |
| Text.AlnumUpperOfOne | gateway/fleet.py:538-541 | Of a plate or licence the capitals and digits stand, small letters become capitals, anything else goes. |
| Text.AlnumUpperOfJoined | gateway/fleet.py:538-541 | That holds character by character, in order. |
| WsHub.Registry.Register | gateway/ws.py:52-60 | Adds the socket with its identity. |
| WsHub.Registry.Drop | gateway/ws.py:62-67 | Forgets the socket. |
| WsHub.Registry.BindIdentity | gateway/ws.py:69-89 | Late-binds device and role, never over a frozen device or a set role. |
| WsHub.Registry.Broadcast | gateway/ws.py:112-138 | Uninterrupted, it sends to exactly the live sockets that want the frame and forgets the dead ones. |
| WsHub.ClientsAreIdentified | gateway/ws.py:44-138 | In every interleaving the client set is the set of sockets with an identity. |
| WsHub.TargetsAre | gateway/ws.py:91-110 | A frame to all goes to every socket, one to a device to the sockets bound to it and to unbound ones that are not a driver's. |
| WsHub.ConnectAndIdentify | gateway/ws.py:52-89 | A socket connects with device and role of its token; identifying fills in a missing role, and a device unless role and device were both set. |
| WsHub.UninterruptedBroadcast | gateway/ws.py:112-138 | A broadcast nothing comes between can be cleaned up, sent every live target the frame once, forgets the dead ones, and changes nothing else. |
| WsHub.FrozenStays | gateway/ws.py:69-89 | Within a connection, role and device once both set never change. |
| WsHub.AddressedFramesReachTheirDevice | gateway/ws.py:91-138 | In every interleaving an addressed frame goes only to sockets that wanted it at its snapshot; one frozen since then is still bound to that device. |
| WsHub.ForeignFramesPredateTheBinding | gateway/ws.py:112-138 | In every history a socket bound to another device is sent the frame only if it was not frozen at the snapshot, or reconnected. |
| WsHub.LeakExactlyWhenNotFrozen | gateway/ws.py:69-138 | From every state, a socket that wants an addressed frame at its snapshot can, on the same connection and with clients that identify by device only, be sent it while bound to another device if and only if it is not frozen at the snapshot. |
| WsHub.LateIdentificationLeaksOneFrame | gateway/routers/ws.py:75-93 | A concrete run of that kind: connect without a token, identify as TRK-000002, receive the frame for TRK-000001. |
| CarbonRollup.AoiRollup | carbon/calculator.py:71-123 | The loop over the two tables and totals computes the rollup. |
| CarbonRollup.RollupConserves | carbon/calculator.py:88-123 | Total equals moving plus idle and the sum over classes; class counts add up to the vehicle count; both tables list the same classes. |
| CarbonRollup.RollupSums | carbon/calculator.py:97-111 | Each figure is the sum of its share of every trip. |
| CarbonRollup.TripEmits | carbon/calculator.py:29-56 | To the nearest gram a trip emits its class's rate for its tonne-kilometres and its idle minutes, negative amounts counting as none. |
| CarbonRollup.RollupIgnoresOrder | carbon/calculator.py:71-123 | The rollup does not depend on the order of the trips. |
| CarbonRollup.RoundingIsOneGramPerTrip | carbon/calculator.py:29-56 | Rounding each leg moves the total by at most one gram per trip. |

## Left out

- HTTP, SQL, Kafka, MQTT, mail, metrics, logging and configuration: input and output around the engines.
- Backend selection and the swallowing of storage errors: the in-memory branch is modelled, or a table with
  atomic steps; single upserts are taken to succeed.
- Interleaving inside `evaluate_position` and inside a case operation: each is one step. The hub is the only
  engine modelled between its awaits.
- `mean_est_trt`, `stats`, `list_*` readers, `emission_record`, `seed_aoi_fleet`: they would add only easy members.
- `reconcile_all`: it is `Reconcile` on each key in sorted order; only the order is not modelled.
- `customs_alerts` and the persisted reconciliation rows.
- The ONNX embedder and impostor scores: a foreign library and a statistical claim. The synthetic provider's
  different fallback names for an empty driver id are not modelled; the theorem is about one driver id.
- The rule tables of the gateway: the theorems hold for any table, those with distinct prefixes as stated.
- `list_slots`: its minting is the first-touch step; its ordering by start is not modelled.
- Face images, documents and contact fields of an enrolment: carried, never decided on.
- One active driver per vehicle: an index of the database that the in-memory branch does not have.
- Unicode: upper-casing, digit and space tests cover ASCII letters and digits and the Latin-1 spaces; string
  order is by code point.
- Availability.OneOptionPerTruck: the page limit and the driver enrichment of the list are not modelled.
- IcegateTheorems.RollbackIsSymmetric: sources in live mode are not modelled, all four are simulated.
- ChallanTheorems.IssueSucceedsBelowAMillion: the year and the padded number are kept as a pair, not rendered as text.
- Vehicle ids in the database branch: only the allocation query; its inserts follow the in-memory form.
