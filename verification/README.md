# Upskill: protocols and snapshot seeder

This project models the parts of the Upskill repository in which several operations must agree
over time, and proves what they keep. It falls into two groups.

**Server protocols.** Each is a machine over the rows one transaction reads and writes. A
transaction that holds the row locks it needs is one step; where the server calls LiveKit between
two transactions, each side of the call is a step of its own, and any other step may fall between
them. A `class` beside each machine holds the same rows as fields; its methods follow the server's
branches in the server's order, and each is tied to the machine by `View() == Next(old(View()), ...)`.

- `RoomCapacity`: attendee and presenter credentials against the places of one room.
- `ParticipantRemoval`: removing a revoked attendee until the revoked credential has expired.
- `RoomClosure`: closing an ended room although unexpired credentials can recreate it.
- `ConnectionIntervals`, `ParticipantReceipts`: signed join and leave receipts, late, repeated and
  out of order.
- `ConnectedTime`, `AttendanceReconciliation`: automatic attendance, where provider snapshots race
  with receipts and staff corrections win.
- `AccessGrants`: bulk orders, extensions, capacity edits, redemptions, revocation and refunds.
- `Registrations`: the registrations of one event occurrence, its capacity counter and its log,
  with cancellations that list the registrations before they write them.

**The snapshot seeder**, `scripts/seed-current-snapshot.ts`.

- `SnapshotRemap`: simultaneous replacement of user ids in JSON rows.
- `LookupIds`: base-31 lookup ids, base-36 public references, the bounded retry.
- `InsertStatement`: the generated multi-row insert and what its placeholders select.
- `AssetKeys`: two containment checks of object keys, on strings, through a stack of segments.
- `EmailDesignPositions`, `LifecycleSamples`: positions beside rows that already exist.
- `SeedRun`: sequences of runs that fail anywhere, resumable uploads, one transaction, cyclic
  columns nulled and restored.

`Prelude`, `Lobby` and `QueuedWork` hold what several modules share: stock facts, identities and
admission states, and the claim of queued work under a lease.

## Where the code does less than its tests and documentation suggest

Some properties hold only under a condition. For each there is a lemma that states, as an
if-and-only-if, the exact condition, and a lemma, or the proof of the first, that gives a failing
run or input.

- A removal or a closing pass may write its operation only under the status and the attempt number
  of its claim, but queueing again resets the attempts to zero, so a stalled pass can match a later
  claim (`ParticipantRemoval.OverlappingPassesSettleEarly`). Removal is enforced in every run whose
  settling passes were claimed after the latest revocation, with any number of workers
  (`ParticipantRemoval.CurrentSettlesEnforce`); only one pass at a time makes that certain
  (`ParticipantRemoval.EnforcedIffPassesDoNotOverlap`).
- A batch of attendance reconciliations dates every pass by the clock it read at its start. The
  time of the last success never moves back exactly when batches do not overlap, even if the passes
  of a room do not (`AttendanceReconciliation.SuccessMovesForwardIffBatchesAreSerial`).
- A pass that prepares a room and reaches the provider after its lease can recreate a room whose
  closure has succeeded (`RoomClosure.LatePassRecreatesRoom`). After a run has closed a room, it
  exists exactly when such a pass has created it and nothing has removed it since
  (`RoomClosure.ClosedRoomExistsIffLate`). The closure itself may be queued again without one
  (`RoomClosure.SucceededClosureMayBeQueuedAgain`), and a late pass that crashes leaves its room
  behind a succeeded closure (`RoomClosure.CrashLeavesLateRoom`).
- A preparation records the SID of the room it got, whatever the newest join named
  (`ParticipantReceipts.PreparationRenames`), and a join decides whether to repair on a SID read
  without a lock (`ParticipantReceipts.StaleReadStrays`). After a run the recorded SID is the newest
  join's exactly when no step has strayed in one of these ways without a later one putting it right
  (`ParticipantReceipts.NewestJoinNamesTheRoomIff`).
- A cancellation reads the registrations without locking their rows, and a coordinator's review
  does not lock the occurrence. The log is chained in a run exactly when no cancellation writes a
  row that was reviewed to another status since it was listed, and its dates are in order exactly
  when none writes a row reviewed later than the cancellation's own date
  (`Registrations.LogChainsIffNotOvertaken`). A chained log is certain only with locked listings
  (`Registrations.LogAlwaysChainsIffLocking`, `Registrations.ReviewOvertakesCancellation`). Locks
  alone do not keep the log's dates in order, since the cancellation read its clock before
  (`Registrations.LockedCancellationIsAntedated`).
- With several departures for one participant SID the first to arrive wins. Delivery order is
  irrelevant exactly when the joins of a SID, and the departures that may close it, agree on their
  times (`ParticipantReceipts.OrderIsIrrelevantIffSettled`); one join and one departure is such a
  case.
- An attended registration is refused to staff decisions, but a learner may withdraw before the
  end and a cancellation may reach it (`Registrations.AttendedPlaceIsLostIff`,
  `Registrations.AttendedLearnerWithdraws`). Coordinator review does not look at the occurrence's
  status (`Registrations.ClosedStepIsReview`, `Registrations.CompletedOccurrenceIsReviewed`).
- A refund reported again under another payment keeps its old order, whose total is not recomputed
  (`AccessGrants.RefundKeepsAccountsIffNotMoved`, `AccessGrants.MovedRefundIsUnaccounted`).
- When every matched user already has the stored id, the early return of `remapExistingUsers`
  drops nobody (`SnapshotRemap.UsersAreNewIff`, `SnapshotRemap.StoredUserStays`).
- A stored user that holds a fixture user's id under another email takes over the references to
  that user (`SnapshotRemap.ReferenceKeepsEmailIff`, `SnapshotRemap.TakenIdMisleads`).
- The key `./` and its like pass the metadata check and fail the upload check; keys that leave the
  root and return do the opposite (`AssetKeys.ChecksAgreeIff`, `AssetKeys.UploadedKeyIsSafeIff`).
- An anchor id that is also the id of a renamed user makes a committed fixture look partial
  (`SeedRun.RenamedAnchorLooksPartial`); `SeedRun.NextCheckReadsCommitted` says exactly what the
  next presence check reads.

## Model

| member | source | states |
|---|---|---|
| RoomCapacity.NoRunOverfillsTheRoom | src/server/events/event-virtual-lobby.server.ts:2352-2440 | in every interleaving of listing, commit, join, drop, admission change and expiry, connected identities and unexpired credentials together stay within the room, and the attendees among them within the attendee capacity |
| RoomCapacity.ExpiryNeverMovesEarlier | src/server/events/event-virtual-lobby.server.ts:2422-2440 | no run moves a stored credential expiry earlier |
| RoomCapacity.RefreshTakesNoPlace | src/server/events/event-virtual-lobby.server.ts:2357-2388 | a credential for an identity that holds a place takes none, any other takes exactly one |
| RoomCapacity.PlacesLastUntilExpiry | src/server/events/event-virtual-lobby.server.ts:2422-2588 | in no run does declining, revoking, dropping or issuing again free a place before its credential expires |
| RoomCapacity.CapacityRefusalIsExact | src/server/events/event-virtual-lobby.server.ts:2358-2388 | on a listing just taken, an admitted requester is refused for capacity exactly when one more place would overfill the room or the attendee capacity |
| RoomCapacity.OutcomesAreExact | src/server/events/event-virtual-lobby.server.ts:2302-2421 | each outcome of the revalidation by its own condition on the entry's state, the two clocks and the listing |
| RoomCapacity.CredentialIsStoredIff | src/server/events/event-virtual-lobby.server.ts:2302-2440 | an expiry is stored, the later of two, exactly for an entry that is admitted, token-issued, connected or left, an unexpired token and no capacity refusal; a refusal changes nothing |
| RoomCapacity.InactiveGetsNothing | src/server/events/event-virtual-lobby.server.ts:2310-2330 | in every run an attendee who stays waiting, declined or revoked gets no new expiry and keeps the entry's state through every issuance, one begun earlier included |
| RoomCapacity.PlacesAreHeldIff | src/server/events/event-virtual-room-capacity.server.ts:12-65 | a place is held exactly by a connected identity or one with an unexpired stored credential |
| RoomCapacity.ListingIsExact | src/server/events/event-virtual-lobby.server.ts:2353-2388 | a listing records the connected participants and whether they and the others' unexpired credentials fill the room or the attendee places |
| RoomCapacity.SurroundingStepsAreExact | src/server/events/event-virtual-lobby.server.ts:2084-2252 | one issuance at a time is begun, dated by its start; entries begin by waiting |
| RoomCapacity.CountsArePlaces | src/server/events/event-virtual-room-capacity.server.ts:12-65 | participants plus counted reservations are exactly the identities listed or reserved by others, none counted twice |
| RoomCapacity.NewcomerFits | src/server/events/event-virtual-room.server.ts:2024-2049 | a requester whom the count does not refuse fits beside everyone who can be connected |
| RoomCapacity.VirtualRoom.BeginIssuance | src/server/events/event-virtual-lobby.server.ts:2084-2252 | taking the room row starts an issuance and changes nothing else |
| RoomCapacity.VirtualRoom.ListParticipants | src/server/events/event-virtual-lobby.server.ts:2353-2376 | the listing and the reservation count are recorded together, as the machine's listing step does |
| RoomCapacity.VirtualRoom.CommitCredential | src/server/events/event-virtual-lobby.server.ts:2302-2440 | the first failing condition decides the refusal; otherwise the later of the two expiries is stored and a connected state kept |
| ParticipantRemoval.CurrentSettlesEnforce | src/server/events/event-virtual-room.server.ts:4103-4297 | with any number of overlapping, stalled and crashing passes, in every run whose settling passes were claimed after the latest revocation the removal stays unsettled while a revoked token is unexpired, and once settled the attendee is not connected through one |
| ParticipantRemoval.SerialRunsSettleCurrently | src/server/events/event-virtual-room.server.ts:1241-1317 | with one pass at a time every settling pass was claimed after the latest revocation |
| ParticipantRemoval.SerialPassesEnforce | src/server/events/event-virtual-room.server.ts:4103-4297 | so with one pass at a time removal is enforced in every run |
| ParticipantRemoval.EnforcedIffPassesDoNotOverlap | src/server/events/event-virtual-room.server.ts:4273-4297 | that holds in every run exactly when at most one pass is in flight |
| ParticipantRemoval.OverlappingPassesSettleEarly | src/server/events/event-virtual-room.server.ts:1301-1317 | a stale pass that had read a readmission settles the operation of a later revocation, and is not of its round |
| ParticipantRemoval.SettledTokenStaysOut | src/server/events/event-virtual-room.server.ts:4238-4261 | once a removal has settled, by a pass claimed after the latest revocation and among any number of workers, no continuation without a staff readmission reconnects the revoked token |
| ParticipantRemoval.OnlyStaffLiftRevocations | src/server/events/event-virtual-lobby.server.ts:757-800 | in every run without a staff readmission, whatever restoration, return to waiting or automatic admission happens, a queued removal is neither dropped nor shortened, and no pass reads the entry as readmitted |
| ParticipantRemoval.EnforcingPassDisconnects | src/server/events/event-virtual-room.server.ts:4103-4271 | an undisturbed pass disconnects the attendee and stays queued exactly while the enforcement lasts, with attempts reset and the recheck due in five seconds at most |
| ParticipantRemoval.RevocationIsExact | src/server/events/event-virtual-lobby-reconciliation.server.ts:43-99 | which entries a revocation marks, exactly when it queues a removal, and how long that is enforced |
| ParticipantRemoval.AdmissionIsExact | src/server/events/event-virtual-lobby.server.ts:2473-2588 | each admission step takes effect in one state only, and only staff's is recorded as theirs |
| ParticipantRemoval.TokensAreExact | src/server/events/event-virtual-lobby.server.ts:2422-2440 | a token is issued in an active state only and stored with the later expiry, and connects only unexpired |
| ParticipantRemoval.PresenceIsExact | src/server/events/event-virtual-connection-presence.server.ts:64-70 | connections end by themselves and are observed in presence states only |
| ParticipantRemoval.ClaimIsExact | src/server/events/event-virtual-room.server.ts:1241-1299 | a removal is claimed exactly when due, pending or abandoned |
| ParticipantRemoval.PassPartsAreExact | src/server/events/event-virtual-room.server.ts:4103-4242 | a pass enforces exactly if staff have not admitted the attendee again, and then disconnects |
| ParticipantRemoval.SettlementIsExact | src/server/events/event-virtual-room.server.ts:4243-4297 | the operation is written only under the claimed status and attempt, and queued again exactly while enforcement lasts |
| ParticipantRemoval.LobbySeat.ChangeAdmission | src/server/events/event-virtual-lobby.server.ts:2473-2588 | which staff actions are accepted in which state and for an eligible attendee only, and their whole effect on entry and operation |
| ParticipantRemoval.LobbySeat.RevokeEntry | src/server/events/event-virtual-lobby-reconciliation.server.ts:43-99 | revocation queues a removal just when a token was issued or is unexpired |
| ParticipantRemoval.LobbySeat.EnqueueRemoval | src/server/events/event-virtual-provider-operation.server.ts:9-59 | queueing again restarts the retry cycle and never shortens the enforcement |
| ParticipantRemoval.LobbySeat.ClaimOperation | src/server/events/event-virtual-room.server.ts:1241-1299 | a claim is refused while the operation is leased or not yet due, and otherwise takes the lease |
| ParticipantRemoval.LobbySeat.SettlePass | src/server/events/event-virtual-room.server.ts:4243-4297 | completion or renewed queueing, either only under the claim's status and attempts |
| RoomClosure.ClosureWaitsForEveryToken | src/server/events/event-virtual-room.server.ts:4008-4083 | in every run, whatever passes overlap or crash, a closure that has succeeded leaves no unexpired credential |
| RoomClosure.ClosedRoomExistsIffLate | src/server/events/event-virtual-room.server.ts:3947-4101 | once a run has brought a closure to success, then and after any continuation, whatever becomes of the closure, the room exists exactly when a pass created it after its lease and nothing removed it since |
| RoomClosure.TimelyClosureIsFinal | src/server/events/event-virtual-room.server.ts:3947-4101 | so in a run whose passes keep to their leases a succeeded closure is final |
| RoomClosure.LatePassRecreatesRoom | src/server/events/event-virtual-room.server.ts:1499-1530 | a run in which a pass cleared before the end creates the room after its closure |
| RoomClosure.GoneStaysGone | src/server/events/event-virtual-room.server.ts:1490-1574 | when an ended room has no unexpired credential and no pass under lease cleared to create it, only a late pass brings it back in any run, and only until something removes it |
| RoomClosure.SucceededClosureMayBeQueuedAgain | src/server/events/event-virtual-room.server.ts:1490-1574 | a pass that created nothing and fails after a closure has succeeded queues that closure again |
| RoomClosure.CrashLeavesLateRoom | src/server/events/event-virtual-room.server.ts:1490-1574 | a preparation that outlives its lease, creates the room and crashes leaves it behind a succeeded closure with no pass to compensate |
| RoomClosure.ClosingPassDeletes | src/server/events/event-virtual-room.server.ts:3947-4101 | an undisturbed pass deletes the provider room and settles exactly when every stored credential has expired, else is due again within five seconds with attempts at zero |
| RoomClosure.LifecycleIsExact | src/server/events/event-virtual-room.server.ts:2121-2181 | ending queues one closure; tokens are stored only before the end, and only unexpired ones bring the room back |
| RoomClosure.ClaimsAreExact | src/server/events/event-virtual-room.server.ts:1241-1299 | preparation and closure are claimed exactly when due, pending or abandoned |
| RoomClosure.ClosingPartsAreExact | src/server/events/event-virtual-room.server.ts:3954-4008 | a closing pass is put off exactly while the room is being prepared or its attendance is not reconciled |
| RoomClosure.ClosingEndIsExact | src/server/events/event-virtual-room.server.ts:4008-4083 | under its claim a pass settles exactly when every stored credential had expired as it began, else the closure is due at the last expiry or the interval |
| RoomClosure.PreparingPartsAreExact | src/server/events/event-virtual-room.server.ts:1499-1574 | what a preparation does at each of its parts on an operational and on an ended room |
| RoomClosure.RoomOperations.EndRoom | src/server/events/event-virtual-room.server.ts:2121-2181 | ending queues one closure |
| RoomClosure.RoomOperations.ClaimCloseOperation | src/server/events/event-virtual-room.server.ts:1241-1299 | a closure is claimed only when due and not leased |
| RoomClosure.RoomOperations.CheckBeforeClose | src/server/events/event-virtual-room.server.ts:3954-3994 | the pass is put off while the room is being prepared or its attendance is not reconciled |
| RoomClosure.RoomOperations.FinishClose | src/server/events/event-virtual-room.server.ts:4010-4083 | the latest unexpired credential decides between settling and queueing again |
| RoomClosure.RoomOperations.LatestExpiry | src/server/events/event-virtual-room.server.ts:4019-4051 | the greatest stored expiry, of attendees and presenters alike |
| ConnectionIntervals.JoinsOfSome | src/server/events/event-virtual-connection-presence.server.ts:34-63 | an identity with intervals has a first join, and a last departure when none is open, so the projection is defined |
| ConnectionIntervals.SignedReceiptsRefine | src/server/livekit/livekit-participant-webhook.server.ts:335-380 | a signed receipt keeps intervals ordered, moves a guessed start or end only back, and never changes what was signed |
| ConnectionIntervals.SignedJoinIsExact | src/server/livekit/livekit-participant-webhook.server.ts:297-356 | a signed join opens a row with its known departure or replaces a guessed start not earlier, and moves nothing else |
| ConnectionIntervals.SignedDepartureIsExact | src/server/livekit/livekit-participant-webhook.server.ts:357-380 | a signed departure closes an open row or replaces a guessed end not earlier, never against a signed one or before the start |
| ConnectionIntervals.TimesAreExact | src/server/events/event-virtual-connection-presence.server.ts:34-63 | first join, last join or departure, and, exactly when all intervals are closed, the last departure |
| ParticipantReceipts.OnlyTheEventsMatter | src/server/livekit/livekit-participant-webhook.server.ts:66-387 | receipts, intervals and connection times depend only on which events were delivered, for any order and repetition and any admission changes, preparations and room webhooks between |
| ParticipantReceipts.OrderIsIrrelevantIffSettled | src/server/livekit/livekit-participant-webhook.server.ts:297-380 | every delivery order gives the same intervals exactly when joins of a SID, and departures that may close it, agree on their times |
| ParticipantReceipts.FirstDeliveriesDecide | src/server/livekit/livekit-participant-webhook.server.ts:297-380 | the first join to arrive fixes an interval's start, and the first departure after it its end |
| ParticipantReceipts.NewestJoinNamesTheRoomIff | src/server/livekit/livekit-participant-webhook.server.ts:27-58 | after a run with preparations, room webhooks and reads before commits, the recorded SID is that of the newest processed join exactly when no preparation of another room, and no newest join committed on a SID read too early, has gone without a later repair or naming |
| ParticipantReceipts.OnlyWritesOvertakeReads | src/server/livekit/livekit-participant-webhook.server.ts:178-219 | a SID that was read stays the recorded one until a preparation or a repair writes another |
| ParticipantReceipts.PreparationRenames | src/server/events/event-virtual-room.server.ts:1551-1562 | a run in which a preparation leaves another SID than the newest join named, and the late end of that join's room is unmatched |
| ParticipantReceipts.LaterDeliveryRepairs | src/server/livekit/livekit-participant-webhook.server.ts:203-219 | the same deliveries with the preparation between them end with the join's SID |
| ParticipantReceipts.StaleReadStrays | src/server/livekit/livekit-participant-webhook.server.ts:178-204 | a run in which the newest join commits without a repair on a SID that an older join has replaced |
| ParticipantReceipts.NewestJoinNamesTheRoom | src/server/livekit/livekit-participant-webhook.server.ts:27-58 | in runs without preparations, with each delivery reading the SID as it commits, the recorded SID is always the newest join's |
| ParticipantReceipts.ReceiptKeepsAdmission | src/server/events/event-virtual-connection-presence.server.ts:64-70 | no receipt overwrites an admission decision; a presence state becomes the one the intervals show |
| ParticipantReceipts.RepeatedEventsChangeNothing | src/server/livekit/livekit-participant-webhook.server.ts:152-177 | delivering an event again changes nothing |
| ParticipantReceipts.DeliveryIsExact | src/server/livekit/livekit-participant-webhook.server.ts:178-380 | how a delivery is filed, when it is refused, and which interval and entry it moves |
| ParticipantReceipts.TerminalIsExact | src/server/livekit/livekit-participant-webhook.server.ts:297-312 | a late join pairs with the earliest processed departure of its SID and identity not before it, if there is one |
| ParticipantReceipts.EntryIsExact | src/server/events/event-virtual-connection-presence.server.ts:29-94 | the entry of a processed delivery shows the times of its identity's intervals, and connected exactly if one is open |
| ParticipantReceipts.RoomStepsAreExact | src/server/events/event-virtual-room.server.ts:1005-1060 | what reads, preparations and room webhooks do to the recorded SID and the end of the room |
| ParticipantReceipts.AdmissionIsExact | src/server/events/event-virtual-lobby.server.ts:2473-2588 | an admission change moves the state of its entry and no times |
| ParticipantReceipts.ReceiptLog.Ingest | src/server/livekit/livekit-participant-webhook.server.ts:91-386 | filing, duplicate and identity-reuse outcomes, and the whole new state, repaired on the SID read before |
| ParticipantReceipts.ReceiptLog.ReadRoom | src/server/livekit/livekit-participant-webhook.server.ts:178-184 | a delivery reads the recorded SID before it has the room to itself |
| ParticipantReceipts.ReceiptLog.RecordPreparation | src/server/events/event-virtual-room.server.ts:1527-1566 | a preparation whose claim holds writes its SID unless the room has ended |
| ParticipantReceipts.ReceiptLog.ApplyRoomEvent | src/server/events/event-virtual-room.server.ts:1005-1060 | room webhooks of another incarnation are unmatched, of an ended room ignored; others record a missing SID, and finished ends the room |
| ParticipantReceipts.ReceiptLog.FindTerminal | src/server/livekit/livekit-participant-webhook.server.ts:297-312 | a late join pairs with the earliest departure not before it |
| ParticipantReceipts.ReceiptLog.LatestJoinSid | src/server/livekit/livekit-participant-webhook.server.ts:37-45 | newest by provider time, ties to the later event id |
| ParticipantReceipts.ReceiptLog.ProjectPresence | src/server/events/event-virtual-connection-presence.server.ts:29-94 | first join, last observation, last departure and state are those of the intervals |
| ConnectedTime.QualifyingTime | src/server/events/event-virtual-attendance.server.ts:40-78 | the result is the number of instants of the window at which some connection was in force |
| ConnectedTime.MergeSpans | src/server/events/event-virtual-attendance.server.ts:58-77 | the merge loop adds up the size of the union of the sorted spans |
| ConnectedTime.BoundedCovers | src/server/events/event-virtual-attendance.server.ts:46-56 | clipping and dropping empty spans keeps exactly the connected instants |
| ConnectedTime.MoreConnections | src/server/events/event-virtual-attendance.server.ts:40-78 | another connection never shortens the time and lengthens it at most by its own share |
| AttendanceReconciliation.StaleListingIsDiscarded | src/server/events/event-virtual-attendance.server.ts:441-467 | a pass during which a signed webhook commits discards its listing, whatever else happens in between |
| AttendanceReconciliation.CompleteMeansClosed | src/server/events/event-virtual-attendance.server.ts:778-797 | in every run no interval ends before it starts, the reconciled revision trails the evidence, and a completed room has every interval closed and nothing unread |
| AttendanceReconciliation.AtMostOneDecision | src/server/events/event-virtual-attendance.server.ts:286-346 | in every run an attendee has at most one decision for each mark |
| AttendanceReconciliation.DecisionsAreExact | src/server/events/event-virtual-attendance.server.ts:625-690 | a pass decides a mark exactly for eligible attendees whose connected time earns it; no overlap, no decision |
| AttendanceReconciliation.RerunChangesNothing | src/server/events/event-virtual-attendance.server.ts:560-706 | applying the same listing again changes no interval, decision or attendance |
| AttendanceReconciliation.ListingIsAppliedTo | src/server/events/event-virtual-attendance.server.ts:560-620 | an interval stays open exactly when the room is not over and its SID is listed for an eligible attendee, else it ends at the listing but not before it started; closed ones stay; a new SID gets one exactly when so listed |
| AttendanceReconciliation.PassEndsExactly | src/server/events/event-virtual-attendance.server.ts:416-467 | what a pass leaves of the work when superseded, overtaken by evidence, applied to an open room and to one that is over |
| AttendanceReconciliation.RecordsAreExact | src/server/events/event-virtual-attendance.server.ts:269-414 | which attendance a pass leaves each participant, by eligibility, connected time, earlier decisions and what is recorded already |
| AttendanceReconciliation.OverlapIsExact | src/server/events/event-virtual-attendance.server.ts:40-56 | the counted instants are those of the window, before the room's end, in some interval of the participant |
| AttendanceReconciliation.NewDecisionsAreExact | src/server/events/event-virtual-attendance.server.ts:319-347 | every added decision is of an eligible participant, on the connected time, dated by the pass, earned and not made before |
| AttendanceReconciliation.WakingIsExact | src/server/events/event-virtual-attendance.server.ts:146-172 | which step moves the revision, and when work becomes due |
| AttendanceReconciliation.ClaimIsExact | src/server/events/event-virtual-attendance.server.ts:180-227 | work is claimed exactly when due or abandoned, by the clock of its batch |
| AttendanceReconciliation.FailureIsExact | src/server/events/event-virtual-attendance.server.ts:718-753 | work whose pass failed is put off, and only under its claim |
| AttendanceReconciliation.ListIsExact | src/server/events/event-virtual-attendance.server.ts:718-736 | a listing remembers what the provider shows, once |
| AttendanceReconciliation.BatchEndIsExact | src/server/events/event-virtual-attendance.server.ts:755-776 | a batch ends without passes, or with its own by a crash |
| AttendanceReconciliation.ManualRecordsAreExact | src/server/admin/admin-event-registration-operations.server.ts:206-292 | staff's record of an eligible participant replaces any, one's own only a missing one |
| AttendanceReconciliation.StaffRecordStands | src/server/events/event-virtual-attendance.server.ts:307-320 | once staff have recorded attendance, only another staff record changes it, in every run |
| AttendanceReconciliation.DecisionsOnlyGrow | src/server/events/event-virtual-attendance.server.ts:319-347 | no step rewrites a past decision, and only an applied pass adds any |
| AttendanceReconciliation.LateDepartureReplacesRoomEnd | src/server/livekit/livekit-participant-webhook.server.ts:357-380 | a late signed departure replaces the room-end time without touching decisions, and nothing moves it afterwards |
| AttendanceReconciliation.SuccessMovesForwardIffBatchesAreSerial | src/server/events/event-virtual-attendance.server.ts:755-776 | the recorded time of the last success never moves back exactly when one batch runs at a time; two batches suffice, with passes that do not overlap |
| AttendanceReconciliation.AttendanceWork.BeginBatch | src/server/events/event-virtual-attendance.server.ts:755-764 | a batch reads its clock once, and every pass it claims is dated by it |
| AttendanceReconciliation.AttendanceWork.Wake | src/server/events/event-virtual-attendance.server.ts:146-172 | evidence moves the revision; work not under way becomes due |
| AttendanceReconciliation.AttendanceWork.ClaimWork | src/server/events/event-virtual-attendance.server.ts:180-227 | due or abandoned work is leased and the evidence revision remembered |
| AttendanceReconciliation.AttendanceWork.ReconcileListing | src/server/events/event-virtual-attendance.server.ts:416-716 | superseded claims and overtaken evidence apply nothing; otherwise intervals, decisions and work are those of the machine |
| AttendanceReconciliation.AttendanceWork.OpenDiscovered | src/server/events/event-virtual-attendance.server.ts:569-599 | listed attendees not seen before get an interval, closed at once if the room is over |
| AttendanceReconciliation.AttendanceWork.CloseUnlisted | src/server/events/event-virtual-attendance.server.ts:600-620 | existing open intervals close when unlisted or when the room is over, never before their join |
| AttendanceReconciliation.AttendanceWork.ConnectedTimeOf | src/server/events/event-virtual-attendance.server.ts:625-647 | an attendee's intervals, in any order, give the number of connected instants of the window |
| AttendanceReconciliation.AttendanceWork.ApplyDecision | src/server/events/event-virtual-attendance.server.ts:269-414 | one decision for an attendee and mark, recorded as attendance unless staff or stronger evidence settled it |
| AccessGrants.NoGrantIsOverRedeemed | src/server/access/redeem-access-code.server.ts:123-213 | in every run redeemed counts the redemptions and stays within the quantity, a batch has exactly the ordinals 1 to its quantity, and no single-use code is redeemed twice |
| AccessGrants.PaidOrdersAddTheirQuantityOnce | src/server/checkout/checkout-fulfillment.server.ts:89-229 | in every run a grant's quantity is the sum of its audited changes, and an order is the cause of exactly one, for its own quantity and on the grant it bought or extends, once it is paid and of none before |
| AccessGrants.HonouredOnce | src/server/checkout/checkout-fulfillment.server.ts:263-269 | an honoured order stays so in every run, no later payment for it changes anything, and its own session is answered as already fulfilled |
| AccessGrants.RefundsAndRevocationsTakeNothing | src/server/checkout/refund-fulfillment.server.ts:18-130 | a run of refunds, revocations, failed checkouts and new orders leaves every quantity, code, redemption and enrolment |
| AccessGrants.EnrolmentsLast | src/server/access/redeem-access-code.server.ts:248-392 | no operation on orders, grants, codes and refunds ends an enrolment or undoes a redemption, in any run |
| AccessGrants.QuantityFallsOnlyByStaff | src/server/admin/admin-access-grant.server.ts:610-646 | a quantity falls only by a staff edit of a shared code, never below what is redeemed |
| AccessGrants.RefundsAreAccounted | src/server/checkout/refund-fulfillment.server.ts:36-94 | in every run an order's refunded amount is the sum of its distinct succeeded refunds, at most its total, and determines its status |
| AccessGrants.RefundKeepsAccountsIffNotMoved | src/server/checkout/refund-fulfillment.server.ts:45-94 | a recorded refund keeps every order accounted for exactly when it changes no refund filed under another order |
| AccessGrants.MovedRefundIsUnaccounted | src/server/checkout/refund-fulfillment.server.ts:45-94 | two paid orders and one refund reported under both payments with different amounts leave the first order's total wrong |
| AccessGrants.UpsertAdds | src/server/checkout/refund-fulfillment.server.ts:45-79 | what a report adds to each order's refunds, known or new |
| AccessGrants.OwnsMore | src/server/access/access-grant-code-issuance.server.ts:51-89 | issued codes extend a grant's rows and the lookup index together |
| AccessGrants.RedemptionIsExact | src/server/access/redeem-access-code.server.ts:123-213 | a code changes anything exactly if issued, unused when for one use, of an unrevoked, unexpired grant with a place left, for a user not enrolled; and then what |
| AccessGrants.RedeemOutcomesAreExact | src/server/access/redeem-access-code.server.ts:145-180 | when a redemption enrols, and when it finds the user enrolled already |
| AccessGrants.UnknownCodeIsNothing | src/server/access/redeem-access-code.server.ts:123-145 | a code never issued changes nothing |
| AccessGrants.DeadGrantGivesNothing | src/server/access/redeem-access-code.server.ts:152-156 | in every run a revoked or expired grant stays so, adds no redemption and no count, and its codes change nothing |
| AccessGrants.FulfilOutcomesAreExact | src/server/checkout/checkout-fulfillment.server.ts:241-292 | each answer to a paid session by its own condition |
| AccessGrants.FulfilmentIsExact | src/server/checkout/checkout-fulfillment.server.ts:363-422 | what a fulfilment leaves of order, payments and audit, and that it moves one grant only |
| AccessGrants.PurchaseIsExact | src/server/checkout/checkout-fulfillment.server.ts:153-194 | the new grant of a purchase, with a shared code or codes numbered from one |
| AccessGrants.ExtensionIsExact | src/server/checkout/checkout-fulfillment.server.ts:112-151 | an extension adds its quantity, and codes numbered on from the last |
| AccessGrants.CapacityEditIsExact | src/server/admin/admin-access-grant.server.ts:588-651 | each outcome of a capacity edit by its own condition, and its effect |
| AccessGrants.UnknownGrantIsNotEdited | src/server/admin/admin-access-grant.server.ts:588-600 | a grant that does not exist is not edited or revoked |
| AccessGrants.StaffGrantsAreExact | src/server/admin/admin-access-grant.server.ts:588-651 | a staff grant starts unredeemed and not bought, and revoking marks it and no more |
| AccessGrants.OrdersAreExact | src/server/checkout/bulk-checkout.server.ts:200-240 | an order is placed once and pending, and only a pending one fails |
| AccessGrants.RefundIsExact | src/server/checkout/refund-fulfillment.server.ts:18-94 | each outcome of a reported refund, and the amount and status it leaves the order |
| AccessGrants.UpsertIsExact | src/server/checkout/refund-fulfillment.server.ts:45-79 | a known refund is changed in its place under its order, a new one added |
| AccessGrants.TotalIsOfSucceeded | src/server/checkout/refund-fulfillment.server.ts:80-94 | an order's refunded total counts its succeeded refunds and no others |
| AccessGrants.AccessDesk.FulfilCheckout | src/server/checkout/checkout-fulfillment.server.ts:231-422 | refusals, replays and ignored sessions in order, and the grant, order, payment and audit a fulfilment leaves |
| AccessGrants.AccessDesk.UpdateCapacity | src/server/admin/admin-access-grant.server.ts:588-651 | the outcome of a capacity edit in the server's order, with new codes numbered on |
| AccessGrants.AccessDesk.RedeemCode | src/server/access/redeem-access-code.server.ts:50-199 | used, revoked and expired codes before enrolment before capacity, and the whole effect of a redemption |
| AccessGrants.AccessDesk.RecordStripeRefund | src/server/checkout/refund-fulfillment.server.ts:18-91 | repeated, unmatched and excessive refunds change nothing, others set total and status |
| Registrations.ConfirmedIsSelected | src/server/admin/admin-event-registration-operations.server.ts:436-614 | in every run, reviews during cancellations included, the confirmed count is at most the capacity and outside a cancellation the number of selected registrations |
| Registrations.LogReplaysToRows | src/server/admin/admin-event-registration-operations.server.ts:574-587 | in every run, however reviews and cancellations interleave, replaying the log as written gives each registration's current status and region |
| Registrations.LogChainsIffNotOvertaken | src/server/admin/admin-event-registration-operations.server.ts:1217-1247 | in a run each entry starts where the registration's last one ended exactly when no cancellation writes a row reviewed to another status since its listing; and entries are dated in order exactly when no row is reviewed later than the date of the cancellation under way that comes to write it |
| Registrations.OnlyReviewAntedates | src/server/admin/admin-event-registration-operations.server.ts:294-376 | only a review later than the cancellation's date makes a row's last entry later than it, and only the cancellation's own write ends that |
| Registrations.OnlyReviewOvertakes | src/server/admin/admin-event-registration-operations.server.ts:294-376 | a listed registration stays as it was listed through every step but a review of it |
| Registrations.LogAlwaysChainsIffLocking | src/server/admin/admin-event-registration-operations.server.ts:1217-1222 | every run keeps the log chained exactly when a cancellation locks the rows it lists |
| Registrations.ReviewOvertakesCancellation | src/server/admin/admin-event-registration-operations.server.ts:311-372 | a run in which a review commits between listing and write, and the log is neither chained nor in order |
| Registrations.LockedCancellationIsAntedated | src/server/admin/admin-event-registration-operations.server.ts:1194-1247 | with row locks the log of a run can still be out of order |
| Registrations.RegionChangesAreLogged | src/server/admin/admin-event-registration-operations.server.ts:729-743 | a registration changes region only with an entry from the old region to the new |
| Registrations.AttendedPlaceIsLostIff | src/server/admin/admin-event-registration-operations.server.ts:471-482 | exactly which steps take the place of an attended registration: its learner's withdrawal before the end and the write of a cancellation |
| Registrations.AttendedLearnerWithdraws | src/server/learner/learner-event.server.ts:287-360 | a run in which an attended place, refused to staff, is lost to the learner's withdrawal |
| Registrations.ClosedStepIsReview | src/server/admin/admin-event-registration-operations.server.ts:294-376 | after completion, cancellation or archiving a step enters the log exactly when it is a coordinator review still open |
| Registrations.CompletedOccurrenceIsReviewed | src/server/admin/admin-event-registration-operations.server.ts:294-376 | a run in which a review is recorded after completion |
| Registrations.PlacesOutlastCompletion | src/server/admin/admin-event-registration-operations.server.ts:1177-1286 | no run after completion changes a held place or the count |
| Registrations.FinishedCancellationLeavesNobody | src/server/admin/admin-event-occurrence.server.ts:1195-1240 | in every run, whatever was reviewed meanwhile, a cancellation that can finish has left no registration in its scope open, and finishing leaves the count of the places that remain |
| Registrations.ReleasedAreCounted | src/server/admin/admin-event-occurrence.server.ts:1207-1209 | retiring a region releases exactly the selected registrations it listed |
| Registrations.CancellationIsExact | src/server/admin/admin-event-registration-operations.server.ts:1217-1247 | without interruption a cancellation cancels exactly the open registrations in scope and changes no other |
| Registrations.SubmissionIsExact | src/server/learner/learner-event.server.ts:27-268 | exactly when a submission is accepted, and the row, entry, place and review round it makes |
| Registrations.OtherRegistrationsAreExact | src/server/admin/admin-event-registration-operations.server.ts:1010-1176 | the same for registrations issued as confirmed and added by staff |
| Registrations.ReviewIsExact | src/server/admin/admin-event-registration-operations.server.ts:294-376 | exactly when a review is accepted, and what it leaves |
| Registrations.ReviewOutcomesAreExact | src/server/admin/admin-event-registration-operations.server.ts:311-341 | each answer to a review by its own condition |
| Registrations.DecisionOutcomesAreExact | src/server/admin/admin-event-registration-operations.server.ts:436-536 | each outcome of a final decision by its own condition; a place needs an approval after a closed review, or no review |
| Registrations.DecisionIsExact | src/server/admin/admin-event-registration-operations.server.ts:536-614 | what an accepted decision changes, and that every other outcome changes nothing |
| Registrations.ReassignmentIsExact | src/server/admin/admin-event-registration-operations.server.ts:616-762 | each outcome of a reassignment by its own condition, and the row, review and round it leaves |
| Registrations.WithdrawalIsExact | src/server/learner/learner-event.server.ts:287-360 | exactly when a learner may withdraw, and that a place is given back |
| Registrations.StrangerWithdrawsNothing | src/server/learner/learner-event.server.ts:301-308 | whoever has no registration withdraws nothing |
| Registrations.EachUserRegistersOnce | src/server/learner/learner-event.server.ts:27-268 | in every run a user has one registration at most |
| Registrations.OccurrenceStepsAreExact | src/server/admin/admin-event-registration-operations.server.ts:1177-1216 | when an occurrence is completed, archived, resized or loses a region |
| Registrations.AttendanceIsExact | src/server/admin/admin-event-registration-operations.server.ts:206-292 | attendance is recorded exactly of participants who are selected |
| Registrations.RegionLockIsExact | src/server/admin/admin-event-registration-operations.server.ts:378-434 | a region of the occurrence has its review locked, and started for that where it has a deadline |
| Registrations.CancellationIsDone | src/server/admin/admin-event-registration-operations.server.ts:1186-1258 | what opening, each write and the end of a cancellation change |
| Registrations.OccurrenceRegister.SubmitRegistration | src/server/learner/learner-event.server.ts:27-268 | a learner registers exactly when every condition holds, selected at once under automatic approval |
| Registrations.OccurrenceRegister.DecideFinal | src/server/admin/admin-event-registration-operations.server.ts:436-614 | the outcome of a final decision in the server's order, and its effect on row, count, participation and log |
| Registrations.OccurrenceRegister.ReassignRegion | src/server/admin/admin-event-registration-operations.server.ts:616-762 | confirmations, waived reviews and the review round that stays when confirmation is asked for |
| Registrations.OccurrenceRegister.WithdrawRegistration | src/server/learner/learner-event.server.ts:287-360 | when a learner may withdraw, and that a selected place is given back |
| Registrations.OccurrenceRegister.ReviewRegistration | src/server/admin/admin-event-registration-operations.server.ts:294-376 | the outcome of a review in the server's order, whatever the occurrence's status, and its row and entry |
| Registrations.OccurrenceRegister.BeginCancellation | src/server/admin/admin-event-registration-operations.server.ts:1186-1203 | a cancellation takes the occurrence row of a published occurrence and reads its clock |
| Registrations.OccurrenceRegister.ListRegistrations | src/server/admin/admin-event-registration-operations.server.ts:1217-1222 | the loop lists the open registrations in scope as they are, without holding their rows |
| Registrations.OccurrenceRegister.CancelOne | src/server/admin/admin-event-registration-operations.server.ts:1223-1247 | a listed registration is cancelled and its entry starts from the listed status |
| Registrations.OccurrenceRegister.CancelListed | src/server/admin/admin-event-registration-operations.server.ts:1223-1247 | the loop makes the remaining writes in order |
| Registrations.OccurrenceRegister.EndCancellation | src/server/admin/admin-event-occurrence.server.ts:1207-1209 | calling off empties the count; retiring a region takes the listed selected registrations from it |
| SnapshotRemap.MentionsAreImages | scripts/seed-current-snapshot.ts:381-396 | what a value mentions after the replacement is exactly the image of what it mentioned, at every depth and all at once |
| SnapshotRemap.ReplacedSurvivesIff | scripts/seed-current-snapshot.ts:381-396 | a replaced string survives exactly where a mentioned string is replaced by it |
| SnapshotRemap.OnlyStringsAreReplaced | scripts/seed-current-snapshot.ts:381-396 | at every path of a value kind, keys, order, length and every number, boolean and null stay, and a string becomes its replacement |
| SnapshotRemap.TablesAreCopied | scripts/seed-current-snapshot.ts:451-463 | no table is lost; every table keeps its rows position by position but for those of stored users in the two filtered ones, which lose exactly these |
| SnapshotRemap.ReplacedIff | scripts/seed-current-snapshot.ts:445-449 | a fixture id is replaced exactly when a stored user of its email has another id, and by the last such |
| SnapshotRemap.LastUserOfEmail | scripts/seed-current-snapshot.ts:439-444 | an email stands for the last fixture user that has it |
| SnapshotRemap.NoReplacedIdIsLeft | scripts/seed-current-snapshot.ts:430-464 | unless a matched stored id is itself replaced, no replaced id is left anywhere in the fixture |
| SnapshotRemap.UsersAreNewIff | scripts/seed-current-snapshot.ts:445-460 | the users left are disjoint from the stored ones exactly when something was replaced or nothing was stored |
| SnapshotRemap.StoredUserStays | scripts/seed-current-snapshot.ts:450-450 | a fixture user stored under its own id stays in the fixture |
| SnapshotRemap.EveryReferenceResolves | scripts/seed-current-snapshot.ts:451-460 | whatever referred to a fixture user refers to a stored user or one left in the fixture |
| SnapshotRemap.ReferenceKeepsEmailIff | scripts/seed-current-snapshot.ts:430-464 | with ids as keys, what referred to a fixture user refers to a user of the same normalised email exactly when nothing was replaced, that user was, or no stored user holds its id under another email |
| SnapshotRemap.TakenIdMisleads | scripts/seed-current-snapshot.ts:457-460 | a stored user holding one fixture user's id under another's email makes references lead to the wrong user |
| SnapshotRemap.AdminsBelongToNewUsers | scripts/seed-current-snapshot.ts:461-463 | an administrator row left belongs to a user left |
| SnapshotRemap.ReplacementKeepsEmail | scripts/seed-current-snapshot.ts:439-449 | a replaced id belongs to a fixture user whose email is stored under the new id |
| SnapshotRemap.SnapshotFixture.RemapExistingUsers | scripts/seed-current-snapshot.ts:430-464 | the loops over users, matches and tables leave the remapped fixture |
| LookupIds.AccessCodeLookupId | scripts/seed-current-snapshot.ts:724-735 | the loop terminates with the padded base-31 numeral of index plus one |
| LookupIds.LookupIdDenotesItsIndex | scripts/seed-current-snapshot.ts:724-735 | reading a lookup id back gives index plus one |
| LookupIds.LookupIdsDiffer | scripts/seed-current-snapshot.ts:724-735 | different indexes have different ids, without any bound |
| LookupIds.LookupIdLength | scripts/seed-current-snapshot.ts:734-734 | an id has ten characters exactly when index plus one is below the tenth power of 31 |
| LookupIds.LookupIdsAscend | scripts/seed-current-snapshot.ts:724-735 | within that bound ids sort as their indexes do |
| LookupIds.PublicReferencesDiffer | scripts/seed-current-snapshot.ts:719-722 | references of different indexes differ, whatever the random characters |
| LookupIds.AssignedAreDistinct | scripts/seed-current-snapshot.ts:849-871 | issued ids are new, pairwise distinct, one for each row, from its own draws |
| LookupIds.AssignmentFailsIff | scripts/seed-current-snapshot.ts:868-870 | issuing fails exactly when some row has only missing or used draws |
| LookupIds.AllLookupIdsAreDistinct | scripts/seed-current-snapshot.ts:822-872 | grant and enterprise lookup ids are pairwise distinct for any behaviour of the issuer |
| LookupIds.IssueEnterpriseCodes | scripts/seed-current-snapshot.ts:846-872 | the retry loop assigns the first unused draw of each row, or nothing |
| InsertStatement.InsertRows | scripts/seed-current-snapshot.ts:350-379 | when the statement is built it represents the rows; inconsistent columns and unsafe names are refused |
| InsertStatement.InsertsTheRows | scripts/seed-current-snapshot.ts:365-378 | interpreting the statement gives the input rows in order, whatever the key order of later rows |
| InsertStatement.EveryValueIsUsedOnce | scripts/seed-current-snapshot.ts:365-372 | each value is selected by exactly one placeholder |
| AssetKeys.NormalFormGoesUpIff | scripts/seed-current-snapshot.ts:677-685 | a normal form begins with two dots exactly when some prefix of the segments goes below depth zero |
| AssetKeys.SafeIff | scripts/seed-current-snapshot.ts:677-686 | the metadata check refuses going up, and an empty path unless a trailing separator hides it |
| AssetKeys.UploadAcceptsIff | scripts/seed-current-snapshot.ts:595-597 | the prefix check accepts exactly the paths strictly below the root |
| AssetKeys.ChecksAgreeIff | scripts/seed-current-snapshot.ts:595-597 | of keys the metadata check accepts, the upload check accepts exactly those whose normal form is not "./" |
| AssetKeys.TrailingSeparatorHidesTheRoot | scripts/seed-current-snapshot.ts:677-686 | a key only the metadata check accepts |
| AssetKeys.UploadedKeyIsSafeIff | scripts/seed-current-snapshot.ts:595-597 | of keys the upload check accepts, the metadata check accepts exactly the relative ones of which no prefix goes below depth zero |
| AssetKeys.ReturningKeyDisagrees | scripts/seed-current-snapshot.ts:595-597 | keys only the upload check accepts, up from the root and down again |
| AssetKeys.AbsoluteKeyDisagrees | scripts/seed-current-snapshot.ts:595-597 | absolute keys inside the root, which only the upload check accepts |
| EmailDesignPositions.PositionsStayUnique | scripts/seed-current-snapshot.ts:485-544 | context and position stay unique over stored and remaining designs |
| EmailDesignPositions.BlockIsContiguous | scripts/seed-current-snapshot.ts:512-543 | in an occupied context the fixture rows fill exactly the block behind the stored maximum |
| EmailDesignPositions.RelativeOrderIsKept | scripts/seed-current-snapshot.ts:526-531 | in an occupied context rows keep their relative order |
| EmailDesignPositions.UnoccupiedContextsAreUntouched | scripts/seed-current-snapshot.ts:535-536 | a context without stored designs keeps its positions |
| EmailDesignPositions.DesignFixture.PreserveStored | scripts/seed-current-snapshot.ts:505-543 | filtering and the counter loop leave the placed designs |
| EmailDesignPositions.DesignFixture.HandOut | scripts/seed-current-snapshot.ts:532-539 | one counter per occupied context hands out the positions |
| LifecycleSamples.CommunicationsAreAppended | scripts/seed-current-snapshot.ts:238-272 | new communications take consecutive positions above every communication and item of the version; existing rows stay |
| LifecycleSamples.GreatestIsTaken | scripts/seed-current-snapshot.ts:240-246 | the first new position is zero or right above one that is taken |
| LifecycleSamples.FirstCommunicationIsTight | scripts/seed-current-snapshot.ts:240-246 | the first new communication is at zero or right above a communication or item of the version |
| LifecycleSamples.FirstRevisionIsTight | scripts/seed-current-snapshot.ts:277-280 | a block of revisions starts at zero or right above a row of its occurrence |
| LifecycleSamples.EveryOccurrenceGetsItsSamples | scripts/seed-current-snapshot.ts:274-307 | every occurrence of the version gets its seven samples consecutively above all its rows |
| LifecycleSamples.SamplesAreLinked | scripts/seed-current-snapshot.ts:281-306 | each sample revision has its occurrence, trigger and ids, and as source the template's communication of that trigger |
| LifecycleSamples.OnlyItsOccurrencesGetSamples | scripts/seed-current-snapshot.ts:274-280 | seven rows are added for each occurrence of the version, and none for others |
| LifecycleSamples.StrippedUpTo | scripts/seed-current-snapshot.ts:285-286 | the prefix is taken out of an id wherever it occurs, and nothing else |
| LifecycleSamples.ExistingRevisionsStay | scripts/seed-current-snapshot.ts:272-308 | existing revisions stay in place and unchanged |
| LifecycleSamples.RevisionPositionsStayUnique | scripts/seed-current-snapshot.ts:277-280 | no occurrence gets two revisions at one position |
| LifecycleSamples.TriggersAreNotSuffixes | scripts/seed-current-snapshot.ts:159-237 | no trigger with its underscore is a suffix of another |
| LifecycleSamples.AddedIdsAreDistinct | scripts/seed-current-snapshot.ts:285-286 | generated ids are pairwise distinct whenever the stripped occurrence ids are |
| LifecycleSamples.SampleFixture.AddSamples | scripts/seed-current-snapshot.ts:238-308 | the loops leave the appended communications and revisions |
| SeedRun.AnchorsAllOrNone | scripts/seed-current-snapshot.ts:466-483 | over any sequence of failing runs the database holds all anchors or none, and the partial-fixture error never occurs |
| SeedRun.WholeIsRecognised | scripts/seed-current-snapshot.ts:466-483 | the presence check reads all or none as what it is |
| SeedRun.PresenceIsExact | scripts/seed-current-snapshot.ts:466-483 | the verdict of the presence check on distinct anchors, all, some or none stored |
| SeedRun.AfterCommitNothingChanges | scripts/seed-current-snapshot.ts:979-989 | after a commit every later run changes neither database nor store |
| SeedRun.UploadsAreResumed | scripts/seed-current-snapshot.ts:605-618 | no object is written twice or changed, what is written is an asset's content under its key, and a committed run finds every asset stored |
| SeedRun.NewDesignsAreNew | scripts/seed-current-snapshot.ts:505-507 | a design is about to be inserted exactly when it is in the fixture and its id is not stored |
| SeedRun.CapturedValuesAreRestored | scripts/seed-current-snapshot.ts:993-1045 | null, insert and restore leave each inserted row with exactly its captured value and other rows as they were |
| SeedRun.CommitLeavesCapturedValues | scripts/seed-current-snapshot.ts:1021-1045 | over any sequence of runs, whenever one commits, every fixture design not stored before is in the database with its captured active version, every course and template version with its captured date, every design version too, and each row stored before is as it was |
| SeedRun.RestoreIsNeverRefused | scripts/seed-current-snapshot.ts:1027-1032 | with every active version in fixture or database at the outset, no restoring update is refused in any run, after whatever failures and commits |
| SeedRun.TablesAreRefusedIff | scripts/seed-current-snapshot.ts:1021-1026 | a table is refused exactly when one of its ids is stored or repeated |
| SeedRun.FailuresAreExact | scripts/seed-current-snapshot.ts:1046-1070 | a refused table or update, or a failure anywhere, ends the run as failed and leaves database and store |
| SeedRun.StartAndUploadAreExact | scripts/seed-current-snapshot.ts:605-618 | a run starts only when none is under way, and an upload writes what is not stored, once |
| SeedRun.RetryCompletes | scripts/seed-current-snapshot.ts:952-1045 | after any failures, one run without a failure commits and completes the uploads |
| SeedRun.NextCheckReadsCommitted | scripts/seed-current-snapshot.ts:466-483 | after a commit the next check reads the fixture as present exactly when the renamed course ids include every anchor, and as partial exactly when they include some but not all |
| SeedRun.RenamedAnchorLooksPartial | scripts/seed-current-snapshot.ts:451-456 | renaming an anchor makes a committed fixture look partial |
| SeedRun.Seeder.Seed | scripts/seed-current-snapshot.ts:952-1070 | a run is seeded exactly when the check finds nothing, the database accepts every table and update and the operations suffice; then it has gained exactly the fixture's rows with their captured values and the renamed courses, and otherwise no row changes |
| SeedRun.Seeder.Transact | scripts/seed-current-snapshot.ts:1021-1026 | the transaction commits all five tables and the updates, exactly when all are accepted before it fails, or nothing |
| SeedRun.Seeder.RestoreAndCommit | scripts/seed-current-snapshot.ts:1027-1045 | the restoring updates follow the machine, and only their end commits |

## Left out

- PostgreSQL, LiveKit, Stripe and object storage themselves: locks appear as the atomicity of a step, providers as steps that may happen at any time, stores as maps.
- Two seeders at the same moment. Where the server reads before it locks, the provider SID of a delivery and the listing of a cancellation, the read is a step of its own.
- Encryption, digests and random characters: identities are injective by construction, and distinctness never rests on randomness.
- Audit events and notifications, except the audited quantity changes of a grant and the registration log.
- Door states, recording notices, sign-in and rate limits, which refuse a credential before the modelled conditions are reached.
- Recording and presenter removal operations, which share the claim protocol of `RoomClosure` and `ParticipantRemoval`.
- Room replacement and generations: each room is modelled by itself, ended once.
- The questionnaire's own region change and late invitations, which lock the occurrence and write the registration log like the modelled steps.
- Decisions on a profile region that differs from the registered one, which change no status, region or log entry.
- Rescheduling, except the change of capacity and the retirement of a region.
- The purchaser, currency and target checks of a checkout session, which refuse it like the modelled ones.
- Individual purchases, paid event orders, enterprise contract claims, email-domain restrictions and event targets of grants; the modelled grants are for published courses.
- Intervals of earlier rooms of a session: attendance is modelled for the intervals of one room.
- Which template version, sections and email version the lifecycle samples use, and the text of the samples.
- `overlaySmsTestPhone`, `normalizeSnapshotBaseVersions` and the survey positions of `prepareRuntimeRows`: single passes over rows.
- ParticipantReceipts.RepeatedEventsChangeNothing: an event reusing an identifier with other content is refused by an error there, here by an outcome that changes nothing.
- LookupIds.AllLookupIdsAreDistinct: takes for granted that issuing keeps a lookup id it is given, which needs ten characters and a valid prefix.
- AttendanceReconciliation.AttendanceWork.ReconcileListing: a room in manual mode or not started completes at once in the code, and the lobby rows are projected again; the model is of a started room with automatic attendance, and projection is that of `ParticipantReceipts`.
- AttendanceReconciliation.AttendanceWork.ConnectedTimeOf: the code adds the intervals of earlier rooms of the session to those of the room.
- RoomCapacity.VirtualRoom.CommitCredential: door states, recording notices and sign-in, which refuse before the modelled conditions, are left out.
- ParticipantRemoval.LobbySeat.ChangeAdmission: an entry that does not exist is refused in the code; the model has one entry.
- AccessGrants.EnrolmentsLast: staff removals, cancellations and the expiry of an enrolment are not modelled; no step of the model ends one, so the lemma says only that redemptions, refunds and revocations do not.
- AccessGrants.RefundsAndRevocationsTakeNothing: says as much of refunds and revocations only; what ends an enrolment elsewhere is not modelled.
- AccessGrants.AccessDesk.FulfilCheckout: the purchaser, currency and target checks are left out.
- AccessGrants.AccessDesk.RedeemCode: email-domain restrictions and grants for events are left out.
- AccessGrants.AccessDesk.RecordStripeRefund: currency and reason of a refund are left out.
- SnapshotRemap.ReferenceKeepsEmailIff: supposes that no fixture email is itself an id that is replaced.
- Registrations.OccurrenceRegister.BeginCancellation: retiring regions is one part of rescheduling; the model retires one region in a transaction of its own.
- RoomClosure.RoomOperations.CheckBeforeClose: the branch for a room row that is gone is not modelled, since no operation deletes one.
- SeedRun.AnchorsAllOrNone: supposes that no anchor is the id of a renamed user; other writers of the course table are not modelled.
