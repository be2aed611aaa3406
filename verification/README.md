# Fleet management: a Dafny model of its protocols

The fleet-management service keeps vehicles, rentals, telemetry, consents and personal data in
PostgreSQL, Redis and RabbitMQ. This project models the parts of it where several steps, several
stores or several clients have to agree, and proves what holds over every run of them. Nothing in
it is executed: everything below is a statement that the Dafny verifier has proved.

`dafny verify dfyconfig.toml` checks the whole project.

| module | what it models |
|---|---|
| `Telemetry`, `TelemetryProgress`, `TelemetryWorker` | the at-least-once queue, the idempotent insert, the newest-wins Redis hash, that nothing gets stuck, and the worker that writes the one after the other |
| `VehicleState` | the read of one vehicle and the batched read of the fleet |
| `Consent` | the consent row of one (user, purpose), its append-only log, and the gate |
| `ConsentRace`, `ConsentProgress`, `ErasureRace` | concurrent grants and revokes at the granularity of select-for-update, unique insert and commit; that all of them can be answered; and erasures racing with them |
| `DispatchRace` | marketing dispatches racing with consent requests and with each other |
| `Privacy`, `PrivacyLaws`, `ApiLaws`, `ErasureLaws`, `PrivacyStore` | accounts, gated marketing and analytics, dispatch and erasure: the API as a state machine, the laws of its runs, what each call does and who may call it, what an erasure leaves and who can undo it, and the service code |
| `Allocator` | vehicles, rentals and station capacities |
| `ListCache` | the read-through list cache with a TTL, under interleaving and failing Redis calls |
| `FleetApi` | the handlers above the allocator and the two cached lists, and which of them delete which key |
| `Retry` | the retry loop and its time bound |
| `Discount` | the table-driven discount and the branching versions it replaced |
| `Report` | load-test percentiles and time windows |
| `Wrappers`, `Sets` | options, results, finite sums |

A state machine is a datatype of steps and a function `Apply` (or `Perform`); `After` runs a whole
sequence of them. A step that is not enabled changes nothing, so "for every sequence of steps"
covers every schedule. Code that changes rows in place is a class whose methods are proved equal
to that machine.

Some results are exact conditions rather than plain guarantees, because the plain guarantee fails.
Each comes with a run in which it does:

* Two schedules of the same telemetry need not converge when two different payloads carry the same
  (vehicle, recorded_at): the first one stored stays in the table. They always converge if and only
  if no two acceptable payloads compete for a key (`ConvergesIffOnePayloadPerKey`).
* A station can go past its capacity, and only because creating a vehicle does not look at it
  (`OnlyCreationOverfills`, `CreationOverfills`).
* An erased subject comes back exactly when an administrator grants a consent in its name, or gives
  it a renter profile while it has none: the API checks access, not erasure (`StaysErasedIff`,
  `ErasedThroughoutIff`, `AdministratorReinstates`).
* An erasure and a grant or revoke of the same user can wait for each other. The two holders of the
  locks are stuck exactly when the erasure has read a granted consent and the other session holds
  that row with a change to write (`DeadlockedIff`, `DeadlockHappens`); only an abort of one of them
  ends it, and there is no other deadlock (`DeadlockStays`, `AbortResolves`, `OnlyDeadlock`).
* An erasure withdraws what it finds: a consent is GRANTED afterwards exactly when a grant commits
  afterwards, and one that was already under way can (`StaysWithdrawnIff`, `GrantedAfterErasure`).
* A message can be SENT while its user's log ends in a REVOKE: exactly when its verdict saw a current
  grant and the last entry since is a REVOKE (`CommitOutcome`, `SentAfterRevoke`). And a settled
  message changes exactly when an overlapping dispatch that judged it too commits something else
  (`ResettledIff`, `SentThenSkipped`).
* A current cached list turns stale when a delete fails, exactly if the request changed the rows
  (`FailedDeleteIsStale`, `FailedDeleteHappens`), and when requests overlap, exactly at the steps
  that `CurrentThroughoutIff` names (`OverlapServesStale`); the TTL then bounds for how long.

Where the code and its documentation differ, the model follows the code: the repository's README
(line 63) describes a row lock on rentals that `start_rental` and `end_rental` do not take.

Primitives taken as given: PostgreSQL at READ COMMITTED with row locks, unique constraints, foreign
keys that lock the row they refer to (FOR KEY SHARE, which waits for FOR UPDATE) and atomic commits; single Redis commands are atomic; RabbitMQ redelivers what is not settled. Clock
readings, random values, password checks, failures and the order in which a query returns rows are
parameters. A renter row is unique per user (models/renter.py line 13), so one replacement licence
number stands for the renters of an erased user.

## Model

| member | source | states |
|---|---|---|
| Telemetry.StepKeepsInv | src/fleet_management/telemetry/processor.py:16-48 | every step of broker, worker and failures keeps: one row per (vehicle, recorded_at), each hash taken from a stored key, and every stored reading either cached (by itself or a newer one) or still carried by an unsettled message |
| Telemetry.StepMovesQueue | src/fleet_management/telemetry/worker.py:30-49 | a message enters the queue only when published and leaves it only if it is not acceptable or its key is both stored and cached |
| Telemetry.SurroundingSteps | src/fleet_management/telemetry/worker.py:71-73 | what a published message, a new vehicle, a delivery and a crash do to the queue: a crash hands the message back |
| Telemetry.CacheTrailsTable | src/fleet_management/telemetry/processor.py:31-48 | after any schedule of deliveries, failures, crashes and redeliveries the cached timestamp is at most the newest stored one, and if it is older or absent a message with the newest key is unsettled |
| Telemetry.LatestIsNewest | src/fleet_management/services/vehicle_state_service.py:48-55 | the latest reading is a stored row of the vehicle with the largest recorded_at, and is missing iff the vehicle has no row |
| Telemetry.RunTracesSent | src/fleet_management/telemetry/worker.py:25-49 | with a fixed fleet everything queued, stored or cached was published, and no accepted message is lost: it is unsettled or its key is stored |
| Telemetry.DrainedMeetsSpec | src/fleet_management/telemetry/processor.py:21-48 | once the queue drains, the table is exactly the accepted messages, once each, and the cache is exactly the newest row per vehicle |
| Telemetry.SchedulesAgree | src/fleet_management/telemetry/worker.py:37-49 | two drained schedules that published the same accepted messages end with the same rows (as a multiset) and the same cache |
| Telemetry.ConvergesIffOnePayloadPerKey | src/fleet_management/models/telemetry.py:9-21 | for a fixed fleet all drained schedules of a set of bodies agree if and only if no two accepted bodies with one key differ |
| Telemetry.FirstPayloadWins | src/fleet_management/telemetry/processor.py:21-28 | for any accepted body there is a drained schedule of all bodies that ends with this payload in the table |
| TelemetryProgress.AlwaysDrains | src/fleet_management/telemetry/worker.py:25-49 | from every reachable state some fault-free steps, at most seven per message, settle every message and publish nothing |
| TelemetryProgress.AlwaysRecovers | src/fleet_management/telemetry/worker.py:37-49 | and they end with the table and cache of the specification, whatever failed, crashed or was duplicated before |
| Telemetry.HandlingOutcome | src/fleet_management/telemetry/worker.py:25-49 | the step-by-step handling of one delivery under any faults has one closed-form outcome for table, cache and queue |
| TelemetryWorker.Worker.SaveReading | src/fleet_management/telemetry/processor.py:16-28 | new table, result and each error, including a commit whose reply is lost |
| TelemetryWorker.Worker.UpdateVehicleState | src/fleet_management/telemetry/processor.py:31-48 | the hash is overwritten only by a newer reading; success means the hash is at least as new as the message |
| TelemetryWorker.Worker.Process | src/fleet_management/telemetry/worker.py:37-40 | table first, then hash: what each fault leaves of the two writes, and which error reaches the handler |
| TelemetryWorker.Worker.HandleMessage | src/fleet_management/telemetry/worker.py:25-49 | the code moves the world by exactly the machine's steps; an ack implies stored and cached; a nack keeps the message; rejection iff a field is out of its bounds (telemetry/schemas.py), the body is no telemetry, or the vehicle is unknown |
| TelemetryWorker.Worker.Consume | src/fleet_management/telemetry/worker.py:71-73 | the consume loop over any deliveries and faults is the corresponding run of the machine and keeps its invariant |
| VehicleState.GetFleetPositions | src/fleet_management/services/vehicle_state_service.py:112-178 | with the hashes of the round trip and the rows of the later query, the batch answers, per vehicle and in order, what a single resilient read would; each position is the vehicle's hash when Redis answers and has one, else its newest row, with the source saying which; when it raises, and when it is degraded |
| VehicleState.CacheFirst | src/fleet_management/services/vehicle_state_service.py:76-109 | a read is the hash when Redis answers and has one; it is the newest row, marked as from the database, iff Redis is unreachable or has no hash; degraded iff unreachable |
| VehicleState.FleetPartition | src/fleet_management/services/vehicle_state_service.py:167-178 | positions and without_telemetry are both ascending and together are the vehicle ids, each once |
| VehicleState.LocatedInOrder | src/fleet_management/services/vehicle_state_service.py:149-178 | the located vehicles are in id order and are exactly those a single read finds |
| VehicleState.MissingInOrder | src/fleet_management/services/vehicle_state_service.py:174-175 | the vehicles without telemetry are in id order and are exactly those a single read does not find |
| VehicleState.LocatedAgrees | src/fleet_management/services/vehicle_state_service.py:133-146 | every reported position has the reading and the source of the single read |
| VehicleState.ReadableIffStored | src/fleet_management/services/vehicle_state_service.py:58-109 | in every reachable state, Redis up or down and the worker running between the two reads, a vehicle is readable iff it has a stored reading by the time of the query |
| VehicleState.LocatedIffStored | src/fleet_management/services/vehicle_state_service.py:149-178 | in the batch, with the worker running between round trip and query, a vehicle has a position iff it has a stored reading by the time of the query, and is listed without telemetry iff not |
| VehicleState.ReadEndings | src/fleet_management/services/vehicle_state_service.py:58-109 | each error, the degraded mark and the source have an exact condition on Redis, the hash and the rows stored by the time of the query; what the database answers is the newest of them |
| VehicleState.ReadIsAStoredReading | src/fleet_management/services/vehicle_state_service.py:58-109 | with one payload per key, whatever a read returns while messages are in flight is a stored row of that vehicle |
| VehicleState.SettledReadsAreNewest | src/fleet_management/services/vehicle_state_service.py:58-109 | once the queue has drained a read is the newest stored reading from either source |
| VehicleState.SettledFleet | src/fleet_management/services/vehicle_state_service.py:149-178 | once the queue has drained every position of the fleet carries the newest stored reading |
| Consent.ServeKeepsConsistent | src/fleet_management/services/consent_service.py:77-127 | a grant or a revoke keeps the log well-formed and the row equal to the view of the log |
| Consent.ServeKeepsView | src/fleet_management/services/consent_service.py:77-127 | whatever the log, a request on a row that is its view keeps it so, and appends only what may follow |
| Consent.RowIsViewOfLog | src/fleet_management/services/consent_service.py:77-127 | after any requests the row is the view of its log: status and source of the last entry, version of the last GRANT, times of the last of each kind; the log starts with GRANT, has no adjacent REVOKEs, and adjacent GRANTs differ in version |
| Consent.ReplayRebuildsLog | src/fleet_management/services/consent_service.py:77-127 | conversely every such log is reachable: replaying its entries as requests rebuilds it |
| Consent.GateReadsTheLog | src/fleet_management/services/consent_service.py:160-185 | the gate allows iff the last log entry is a GRANT of the required version, and each refusal reason is characterised by the log |
| ConsentRace.Serializable | src/fleet_management/services/consent_service.py:77-127 | in every interleaving there is at most one row; row, log and every answer are those of a serial order that names each answered request once; no grant ends in an integrity error, so one retry is enough |
| ConsentRace.OrderedWithinOwnSteps | src/fleet_management/services/consent_service.py:101-127 | a request takes its place in the serial order by a step of its own, so the order respects real time |
| ConsentRace.Clocks | src/fleet_management/services/consent_service.py:80-81 | a grant is dated when it begins, or when it retries, before it waits for the lock; a revoke when it has the row |
| ConsentRace.NoDeadlock | src/fleet_management/services/consent_service.py:46-56 | while a request is unanswered some session can take a step that changes the state |
| ConsentRace.RunKeepsInv | src/fleet_management/services/consent_service.py:77-127 | the lock, phase and order invariant holds after every sequence of steps |
| ConsentProgress.AlwaysAnswers | src/fleet_management/services/consent_service.py:101-127 | from every reachable state, three steps per open request at most, none of them an abort, answer every request |
| ErasureRace.SerializableWithErasures | src/fleet_management/services/erasure_service.py:71-90 | in every interleaving of grants, revokes and erasures, aborts included, there is at most one row; row, log, every answer and every withdrawal count are those of a serial order in which an erasure is a revoke; so the log is well-formed and the row is its view |
| ErasureRace.OrderedWithinOwnSteps | src/fleet_management/services/erasure_service.py:56-64 | everybody takes a place in that order only by a step of its own |
| ErasureRace.LockedRequestRests | src/fleet_management/models/privacy.py:41-70 | while an erasure holds the users row, the foreign keys let no grant or revoke change row or log |
| ErasureRace.DeadlockedIff | src/fleet_management/services/erasure_service.py:71-73 | the holder of the users row and the holder of the consent row both wait iff the erasure has read a granted consent and the other has a change to write |
| ErasureRace.OnlyDeadlock | src/fleet_management/services/consent_service.py:46-56 | while anybody is unfinished and that is not the case, somebody can step forward |
| ErasureRace.DeadlockStays | src/fleet_management/services/erasure_service.py:71-90 | no step but an abort of one of the two ends the deadlock |
| ErasureRace.AbortResolves | src/fleet_management/services/erasure_service.py:86-88 | either abort ends it and lets the other one write |
| ErasureRace.DeadlockHappens | src/fleet_management/services/consent_service.py:116-126 | a revoke that takes the row lock between the read and the write of an erasure is deadlocked with it |
| ErasureRace.OverMeansNotGranted | src/fleet_management/services/consent_service.py:130-147 | when an erasure commits, the consent is not granted at that moment |
| ErasureRace.StaysWithdrawnIff | src/fleet_management/services/consent_service.py:94-98 | from then on it is not granted throughout iff no grant commits |
| ErasureRace.GrantedAfterErasure | src/fleet_management/services/consent_service.py:132-135 | a first grant that found no row before the erasure and inserts its own after it leaves the consent GRANTED |
| Privacy.ConsentedCell | src/fleet_management/services/consent_service.py:94-98 | a request on one (user, purpose) serves that cell and leaves the row and log of every other as they were |
| Privacy.WithdrawAllCells | src/fleet_management/services/consent_service.py:130-147 | withdrawing all is one revoke per purpose of that user and touches nothing else |
| PrivacyLaws.RunKeepsInv | src/fleet_management/services/consent_service.py:77-147 | after any run of API calls, erasures included, every consent row is the view of its part of the shared history |
| PrivacyLaws.DispatchFollowsLog | src/fleet_management/services/marketing_service.py:81-116 | dispatch turns a queued message SENT iff the last history entry of its user for MARKETING_EMAIL is a GRANT of the current version, otherwise SKIPPED, at the one given instant, and leaves settled messages alone |
| PrivacyLaws.EmailGatedByLog | src/fleet_management/services/marketing_service.py:22-46 | queueing an e-mail adds exactly that message iff the last entry of the subject's log is a current GRANT; a refusal appends one audit event with the reason and nothing else |
| PrivacyLaws.EventGatedByLog | src/fleet_management/services/marketing_service.py:49-57 | recording an analytics event adds exactly that row iff the last entry of the subject's log is a current GRANT; a refusal appends one audit event and nothing else |
| PrivacyLaws.SettledIsFinal | src/fleet_management/services/marketing_service.py:76-78 | no call changes a SENT or SKIPPED message; only the erasure of its user removes it |
| PrivacyLaws.OnlyDispatchSends | src/fleet_management/services/marketing_service.py:106-116 | a message becomes SENT only by an active administrator's dispatch that finds it queued and its user's last entry a current GRANT |
| PrivacyLaws.SentOnlyUnderCurrentGrant | src/fleet_management/services/marketing_service.py:76-116 | over all runs, every SENT message can be traced to the administrator's dispatch that sent it, at which the last history entry of its user was a GRANT of the current version |
| ApiLaws.DispatchOutcome | src/fleet_management/api/privacy.py:198-201 | an active administrator's dispatch settles every queued message at that instant, SENT iff its user's log ends in a current GRANT, and touches nothing else; anybody else's, or one that fails, changes nothing |
| ApiLaws.ConsentOutcome | src/fleet_management/api/privacy.py:149-171 | a grant or revoke is served iff the caller's account is active and is the subject or an administrator, and the subject exists; a stranger's call leaves nothing, an account's one audit event that says denied or not found |
| ApiLaws.OwnGrantGrants | src/fleet_management/api/privacy.py:58-65 | an active account's own grant makes its consent GRANTED in the version it names |
| ApiLaws.OwnRevokeWithdraws | src/fleet_management/api/privacy.py:58-65 | and its own revoke withdraws it |
| ApiLaws.EmailOutcome | src/fleet_management/api/privacy.py:174-183 | the whole outcome of queueing an e-mail: turned away, refused by the log with its reason, or one new queued message |
| ApiLaws.EventOutcome | src/fleet_management/api/privacy.py:186-195 | the same for an analytics event |
| ApiLaws.ProfileOutcome | src/fleet_management/api/privacy.py:115-135 | a renter profile is stored iff the caller may act for the subject, the subject has none, and the licence number is nobody's |
| ApiLaws.AddUserOutcome | src/fleet_management/services/user_service.py:21-43 | an account is added, active and not anonymized, iff it is a registration or an administrator adds it, and nobody has the e-mail |
| ApiLaws.LoginOutcome | src/fleet_management/services/user_service.py:46-53 | a login leaves one activity row of the active account with that e-mail iff the password matches, and nothing otherwise |
| ApiLaws.EraseOutcome | src/fleet_management/api/privacy.py:99-112 | the whole outcome of an erasure call: turned away, already anonymized, rolled back iff something fails or a replacement value is another row's, or erased |
| ApiLaws.RunKeepsUnique | src/fleet_management/models/renter.py:12-13 | in every reachable state e-mails and licence numbers are unique and a user has one renter row at most |
| DispatchRace.CommitOutcome | src/fleet_management/services/marketing_service.py:81-116 | in every interleaving with consent requests and other dispatches, a commit settles its whole batch with one timestamp by the log each verdict saw, and no other message; a message goes SENT under a log ending in a REVOKE iff its verdict saw a current grant and the last entry since is a REVOKE |
| DispatchRace.QuietCommitFollowsLog | src/fleet_management/services/marketing_service.py:81-116 | with no entry since the verdict, SENT means that the log ends in a current grant at the commit |
| DispatchRace.FailedDispatchChangesNothing | src/fleet_management/services/marketing_service.py:106-116 | a dispatch that fails before its commit leaves every message and consent as it was, for good |
| DispatchRace.SentAfterRevoke | src/fleet_management/services/consent_service.py:170-175 | against the gate's promise, a reachable run in which a message goes SENT after a REVOKE was committed |
| DispatchRace.ResettledIff | src/fleet_management/services/marketing_service.py:76-78 | a settled message changes exactly when a dispatch that had judged it too commits another status or timestamp |
| DispatchRace.SentThenSkipped | src/fleet_management/services/marketing_service.py:106-116 | a reachable run of two overlapping dispatches in which a message is SENT and then SKIPPED |
| DispatchRace.SettledIsFinalWithoutOverlap | src/fleet_management/services/marketing_service.py:106-116 | when no dispatch fetches while another is deciding, SENT and SKIPPED are final, however consents race |
| PrivacyLaws.ErasureConsents | src/fleet_management/services/erasure_service.py:56-64 | erasure appends exactly one REVOKE to each granted purpose of the subject, leaves it granted nothing, and moves no other consent |
| PrivacyLaws.ErasureHistory | src/fleet_management/services/consent_service.py:130-147 | the old history is a prefix of the new one, which is longer by the number of granted purposes |
| PrivacyLaws.WithdrawAllCounts | src/fleet_management/services/consent_service.py:136-147 | in whatever order the rows come back, the history grows by the number of distinct granted purposes |
| PrivacyLaws.ErasureTouchesOnlySubject | src/fleet_management/services/erasure_service.py:32-64 | all other users' rows and all rentals are unchanged; exactly the subject's activity, messages and events are gone |
| PrivacyLaws.CountsAreRowsAffected | src/fleet_management/services/erasure_service.py:43-64 | each returned count is the difference in size of its table (or the number of overwritten renters, or of new history entries) |
| ErasureLaws.RepeatOnlyAudits | src/fleet_management/services/erasure_service.py:77-81 | after a successful erasure and any run of calls, erasing the same user again changes nothing but the audit log, which gains one event if the caller has access |
| ErasureLaws.ErasureErases | src/fleet_management/services/erasure_service.py:32-64 | an erasure leaves an inactive account and the subject's renter rows with the replacement e-mail, password, name and licence number throughout, no phone, no consent granted and no behavioural row |
| ErasureLaws.StaysErasedIff | src/fleet_management/api/privacy.py:51-68 | a single call leaves an erased subject with exactly its remains if and only if it is not an administrator's grant for it or an accepted new profile of it |
| ErasureLaws.ErasedThroughoutIff | src/fleet_management/api/privacy.py:99-171 | a subject is erased throughout a run iff no call of the run reinstates it in the state it meets |
| ErasureLaws.ErasureLastsIff | src/fleet_management/services/erasure_service.py:67-90 | a successful erasure erases, and from it on the subject is erased throughout iff no call reinstates it |
| ErasureLaws.AdministratorReinstates | src/fleet_management/api/privacy.py:115-159 | in a reachable state with an erased member, the administrator's grant makes its consent GRANTED and a renter profile under any name is stored for it |
| ErasureLaws.ProfileErased | src/fleet_management/services/erasure_service.py:43-48 | a reachable erasure of a member with a renter profile, whose row stays under the replacement name and licence number |
| ErasureLaws.AnonymizedForGood | src/fleet_management/services/erasure_service.py:32-40 | no call removes the mark of an erasure |
| ErasureLaws.ReinstatesBringsBack | src/fleet_management/auth.py:21-32 | the checks of every call, from token to gate, let exactly those calls through to a change that brings data back |
| ErasureLaws.ErasureLasts | src/fleet_management/services/user_service.py:46-53 | after a successful erasure, every run without calls by others on the subject (logins and old tokens included) keeps exactly those remains |
| PrivacyStore.Session.GrantConsent | src/fleet_management/services/consent_service.py:77-98 | row and history after a grant, and whether it changed anything |
| PrivacyStore.Session.RevokeConsent | src/fleet_management/services/consent_service.py:113-127 | row and history after a revoke; nothing is granted afterwards; it writes iff the consent was granted |
| PrivacyStore.Session.WithdrawAllConsents | src/fleet_management/services/consent_service.py:130-147 | every granted consent of the user is withdrawn and counted |
| PrivacyStore.Session.DecideQueue | src/fleet_management/services/marketing_service.py:81-98 | one verdict per queued message by the gate's answer, all at one instant, or an error with no row touched |
| PrivacyStore.Session.DispatchPending | src/fleet_management/services/marketing_service.py:101-116 | it raises with every row as it was, or settles the whole queue; sent and skipped are the sizes of the batch in each status and add up to the queue |
| PrivacyStore.Session.AnonymizeRenters | src/fleet_management/services/erasure_service.py:43-48 | exactly the user's renter rows are overwritten and counted |
| PrivacyStore.Session.EraseRows | src/fleet_management/services/erasure_service.py:56-64 | when no statement raises, the tables and counts are those of the erasure |
| PrivacyStore.Session.AnonymizeUser | src/fleet_management/services/erasure_service.py:67-90 | all or nothing: it succeeds iff the user exists and is not anonymized, nothing raises, no other user has the replacement e-mail, and, if the subject has a renter row, no other renter the replacement licence number; otherwise every table is as it was, but for the audit event of a repeat |
| PrivacyStore.TallyIsBatch | src/fleet_management/services/marketing_service.py:101-103 | the tally of the verdicts is the number of rows of the batch in that status afterwards |
| PrivacyStore.SettlingIsDispatch | src/fleet_management/services/marketing_service.py:112-114 | applying the verdicts one by one, in any order, is the settlement of the whole queue |
| Allocator.RunKeepsInv | src/fleet_management/services/rental_service.py:26-67 | in every run a vehicle is RENTED iff exactly one ACTIVE rental names it, and otherwise none does |
| Allocator.Conservation | src/fleet_management/services/station_service.py:15-21 | parked vehicles summed over the stations plus ACTIVE rentals equal the number of vehicles |
| Allocator.RunConserves | src/fleet_management/services/rental_service.py:26-67 | both laws in every state reachable by starts, ends and creations |
| Allocator.ReturnRespectsCapacity | src/fleet_management/services/rental_service.py:47-67 | a return adds its vehicle to the station it ends at, within capacity, ends one rental, and changes no other station |
| Allocator.OnlyCreationOverfills | src/fleet_management/api/vehicles.py:20-37 | a station within capacity goes past it iff a vehicle is created at a full station |
| Allocator.CreationOverfills | src/fleet_management/api/vehicles.py:26-33 | a reachable fleet in which two vehicles were created at a station for one |
| Allocator.SomeStationAccepts | src/fleet_management/services/station_service.py:24-27 | if total capacity covers the fleet, then in every reachable state each ACTIVE rental can end at some station |
| Allocator.StartThenEnd | src/fleet_management/services/rental_service.py:26-67 | a rental that starts and ends leaves every vehicle as it was, except where its own one is parked, and adds one completed rental |
| Allocator.StartStationTakesItBack | src/fleet_management/services/station_service.py:24-27 | the station a rental started at accepts its immediate return iff it was not over capacity before the start |
| Allocator.CreationErrors | src/fleet_management/api/vehicles.py:26-34 | a vehicle is created iff its station exists and no vehicle has its licence plate; which error otherwise |
| Allocator.RunKeepsPlates | src/fleet_management/models/vehicle.py:22 | no two vehicles of a run ever have one licence plate |
| Allocator.FirstRental | src/fleet_management/services/rental_service.py:26-67 | from nothing, a renter rents a vehicle and brings it back, with every row that this leaves |
| Allocator.RentalService.StartRental | src/fleet_management/services/rental_service.py:26-44 | it succeeds iff the vehicle exists and is available and the renter exists, with the new rows and id; each error iff its own condition on the rows; an error leaves every row as it was |
| Allocator.RentalService.EndRental | src/fleet_management/services/rental_service.py:47-67 | it succeeds iff the rental is active and the station exists with fewer parked vehicles than its capacity, with the new rows; each error iff its own condition on the rows; an error leaves every row as it was |
| ListCache.BoundedStaleness | src/fleet_management/cache.py:59-91 | under every interleaving and failure a list served at T was the table at an instant no earlier than T - TTL - the load-to-set gap of its filling reader, and not later than T |
| ListCache.RunKeepsInv | src/fleet_management/cache.py:59-91 | the cached, loaded, delayed and served lists were each the table at their load instant, and served ones were live |
| ListCache.GetAnswersIff | src/fleet_management/cache.py:70-76 | a get is answered from the key iff the call succeeds and less than the TTL has passed since the set |
| ListCache.SetIsServed | src/fleet_management/cache.py:70-82 | what a read sets is served from the key at every instant before the TTL is over, until something deletes, evicts or replaces it |
| ListCache.EnvironmentSteps | src/fleet_management/cache.py:79-82 | what passing time, an eviction and a late SET do |
| ListCache.ReadKeepsCoherent | src/fleet_management/cache.py:59-83 | from a current cache an undisturbed read serves the current list, whatever Redis call of it fails, and leaves the cache current |
| ListCache.CurrentUnlessTurnsStale | src/fleet_management/cache.py:73-91 | with overlap a current key turns stale exactly at a commit under a present key or at a fill with superseded contents |
| ListCache.CurrentThroughoutIff | src/fleet_management/cache.py:59-91 | the key is current at every prefix of a run iff no step turns it stale in the state it meets |
| ListCache.UninterruptedIsCurrent | src/fleet_management/cache.py:73-91 | if no commit falls between a load and its set, then whenever every commit so far has been followed by a delete that reached Redis, the key is current, readers and writers overlapping or not |
| ListCache.OverlapServesStale | src/fleet_management/cache.py:73-83 | a reader that loaded before a write and sets after its delete makes the next reader see the old list |
| ListCache.ReadIsRun | src/fleet_management/cache.py:59-83 | an undisturbed read is the run of its steps in the interleaved machine |
| ListCache.ListEndpoint.ReadThroughJson | src/fleet_management/cache.py:59-83 | the served body, the new cache and the steps taken, for every failure and with caching off |
| ListCache.ListEndpoint.WriteAndInvalidate | src/fleet_management/cache.py:86-91 | commit, then delete: the table is the new one and an applied delete leaves no key |
| FleetApi.ListingShowsRows | src/fleet_management/api/vehicles.py:40-47 | a list shows exactly the rows of its table, by ascending id |
| FleetApi.VehiclesChangeIff | src/fleet_management/api/rentals.py:28-50 | a request changes a vehicle row iff it is a creation, start or end that succeeds, which are the requests that delete the key of the vehicle list |
| FleetApi.StationsChangeIff | src/fleet_management/api/stations.py:17-28 | a request changes a station row iff it is the one that deletes the key of the station list |
| FleetApi.RequestKeepsCoherent | src/fleet_management/api/vehicles.py:20-47 | a request whose delete does not fail keeps both cached lists, when present, equal to their tables |
| FleetApi.SequentialIsCoherent | src/fleet_management/api/rentals.py:28-50 | after every sequence of requests that do not overlap and whose deletes reach Redis, a cached list is the listing of its table, because every request that changes a row deletes the key |
| FleetApi.SequentialServesCurrent | src/fleet_management/api/vehicles.py:40-47 | and every list that is then served, from the cache or not, is the current one |
| FleetApi.FailedDeleteIsStale | src/fleet_management/cache.py:86-91 | when a delete fails, a cached vehicle list stays current iff the request changed no vehicle |
| FleetApi.FailedDeleteHappens | src/fleet_management/cache.py:86-91 | a reachable run in which a failed delete leaves a live list that misses a vehicle |
| FleetApi.StartIsCoherent | src/fleet_management/api/vehicles.py:40-47 | a fleet before its first rental with nothing cached is a coherent world to start from |
| FleetApi.VersionBegan | src/fleet_management/api/vehicles.py:33-36 | every version of the vehicle list is the listing of an earlier world of the run, at the instant that world was reached |
| FleetApi.StaleAtMost | src/fleet_management/cache.py:59-91 | with failing deletes a vehicle list served at T was the table's at an instant t no earlier than T - TTL - its load-to-set gap, and is the listing of the fleet that an earlier world of the run had by t |
| FleetApi.WaitPassesTime | src/fleet_management/cache.py:79-80 | waiting moves the clocks of both lists and nothing else |
| FleetApi.Api.StartRental | src/fleet_management/api/rentals.py:28-37 | the service's change, the commit and the delete, in this order, iff vehicle and renter allow it; an error changes nothing and deletes nothing |
| FleetApi.Api.EndRental | src/fleet_management/api/rentals.py:40-50 | the same for a return |
| FleetApi.Api.CreateVehicle | src/fleet_management/api/vehicles.py:20-37 | the new row under the next id, each error iff its own condition, and the delete after the commit |
| FleetApi.Api.CreateStation | src/fleet_management/api/stations.py:17-28 | the new row, and the delete of the station list after the commit |
| Retry.CallWithRetry | src/fleet_management/resilience.py:53-78 | the loop's ending, number of calls, sleep and total time are those of the recursive description |
| Retry.RetryBounds | src/fleet_management/resilience.py:33-40 | at most max_attempts calls and worst_case_seconds in all; giving up has slept between half of and the whole capped-doubling sum |
| Retry.StopsAtFirstDecision | src/fleet_management/resilience.py:62-78 | it stops at the first success or error that is not retried, with that ending, and gives up iff every attempt is retried |
| Retry.WorstCaseIsReached | src/fleet_management/resilience.py:33-40 | the bound is tight: timeouts throughout with full jitter spend exactly worst_case_seconds |
| Retry.JitterKeepsHalf | src/fleet_management/resilience.py:23-31 | a pause is between half of and the whole capped exponential, which never exceeds max_delay |
| Retry.JitterIsProportional | src/fleet_management/resilience.py:31 | no jitter halves the pause, full jitter keeps it, and in between it is proportional |
| Retry.ExponentialDoubles | src/fleet_management/resilience.py:30 | the exponential part starts at the base delay and doubles, up to the cap |
| Retry.RetriedIff | src/fleet_management/resilience.py:67-69 | an attempt is retried iff it fails in a listed way or outlasts the timeout, at which it is cut |
| Retry.CreatedIffValid | src/fleet_management/resilience.py:17-21 | the constructor accepts exactly the policies with at least one attempt and a positive timeout |
| Discount.BisectLeft | src/fleet_management/services/rental_service.py:95-96 | binary search finds the first bound that is not below the count |
| Discount.ZonesAreCounted | src/fleet_management/services/rental_service.py:99-100 | the weekend amount is the number of centre stations minus the number of suburban ones, in whatever order |
| Discount.TablesEqualBranches | src/fleet_management/services/rental_service.py:70-203 | for every context the tables, tier search and rule fold give what the branching version gives |
| Discount.SevenArgumentsEqualOriginal | README.md:222-257 | the seven-argument call equals the original nested version |
| Report.PercentileHasRank | loadtest/report.py:21-26 | a percentile is a member of the sample with at least the required rank of values at or below it and fewer strictly below; it exists iff the rank is within the sample |
| Report.PercentileMeans | loadtest/report.py:21-26 | zero for an empty sample; the minimum for p <= 0; for 0 < p <= 100 a member such that at least p percent of the values are at most it and less than p percent are below it |
| Report.PercentileExists | loadtest/report.py:21-26 | every percentile up to 100 of a non-empty sample exists |
| Report.RankIsUnique | loadtest/report.py:24-26 | only one value has a given rank, so the rank determines the answer |
| Report.Group | loadtest/report.py:66-68 | the grouping dictionary holds exactly the non-empty windows, each with its rows in order |
| Report.BucketsWith | loadtest/report.py:65-79 | one bucket per window up to the last one with a row, each computed from the rows of its window |
| Report.Buckets | loadtest/report.py:65-79 | the buckets are the summaries of the windows, empty ones included |
| Report.BucketsDescribe | loadtest/report.py:52-62 | each bucket has the request count of its window and an average that times the count is its total time |
| Report.BucketsCountRows | loadtest/report.py:65-79 | window request counts add up to the rows at or after the start, and to all rows iff none is before it |
| Report.BucketsAverageRows | loadtest/report.py:52-79 | window averages weighted by their requests add up to the total time of the rows at or after the start, and over their number give the overall average |
| Report.BucketsKeepFailures | loadtest/report.py:74-77 | window failure rates add up to the failures of all rows at or after the start |
| Report.BucketErrors | loadtest/report.py:61 | the error percentage of a bucket times its requests is a hundred times the failures of its window |
| Report.BucketExtremes | loadtest/report.py:52-62 | minimum and maximum are times of rows that bound the window; at least 95 percent of the times are at most p95 and less than 95 percent below it |
| Report.BucketRates | loadtest/report.py:72-77 | requests and failures per second times five are the window's, and t is the second at which it begins |
| Report.EmptyBucket | loadtest/report.py:54-61 | a window without rows is all zeros |
| Report.TotalsAreSums | loadtest/report.py:57-61 | the totals behind averages and failure counts are the sums of the rows' times and flags |
| Report.WindowsEndAtLastRow | loadtest/report.py:70 | the windows reach past every row, and the last one has a row |
| Report.BucketVus | loadtest/report.py:71-76 | the virtual users of a window are the most that any of its seconds recorded, or zero |
| Report.RowInOneWindow | loadtest/report.py:66-71 | all occurrences of a row are in the window of five seconds that contains its timestamp, and for a row at or after the start that window is reported |

## Left out

- Interleaved rental transactions: no row lock is taken (src/fleet_management/services/rental_service.py:27), so the allocator's laws are for atomic requests.
- Several telemetry workers at once: the cache check and the cache write are two Redis calls; one sequential worker is modelled.
- Deleting vehicles and flushing Redis: both would break the agreement of table and cache; with them only the table's own laws remain.
- Consent history in time order: a grant reads its clock before it waits for the lock, so everything is stated by log position.
- Concurrent erasures of one subject, and races between purposes: API calls on the privacy tables are atomic steps, and the consent races are of one (user, purpose).
- PrivacyLaws.RunKeepsInv: with each call as one atomic step; the races inside are in `ConsentRace`, `ErasureRace` and `DispatchRace`.
- FleetApi.SequentialIsCoherent: for requests that do not overlap; overlapping ones are in `ListCache`.
- Rentals in the privacy tables: erasure is proved to leave them alone; the calls that change them are in the allocator only.
- Retry.RetryBounds: for non-negative delays only, because the constructor does not reject negative ones and the bound is not meant for them.
- Retry.CallWithRetry: an attempt that ends exactly at the timeout counts as ended in time.
- Report.Buckets: summarize is modelled with the window length as its seconds, the only value buckets passes.
- DispatchRace.CommitOutcome: with no erasure deleting a message between its verdict and the commit, and with messages queued whatever the gate said.
- Station addresses: a station row is its id and capacity.
- Floating-point rounding: delays, coordinates, percentages and averages are exact reals.
- isoformat and JSON round trips: taken as given; a cached list is one text, a hash one reading.
- Eligibility rules and rental cost: each is a single table scan or formula without a law across operations.
- E-mail normalisation, JWT and Argon2: whether a password matches is an input of a login, and a token names its account.
- The log sanitizer: library regular expressions.
- The simulator: trigonometry, randomness and broker input and output.
- Personal-data export, settings, migrations, HTTP glue, web UI and deployment files: plumbing or data.
