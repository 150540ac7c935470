# Proofs about an HR system's core rules

This project models the parts of the HR backend where state is changed by several functions or several requests at once,
and proves what they keep. Each module opens with the source files it follows.

| module | what it models |
|---|---|
| `Prelude` | optional values, sums, filtering and the stable sort JavaScript guarantees |
| `Attendance` | the status and source of an attendance row |
| `CompOffConsumption`, `CompOffOptimality`, `CompOffRoundTrip` | comp-off credits spent soonest-expiry-first and given back latest-expiry-first |
| `CompOffTransactions`, `CompOffStatuses`, `CompOffRequests`, `CompOffLeaves` | concurrent leave approvals and cancellations writing that ledger with guarded updates, and one leave approved and cancelled |
| `AuthTokens`, `AuthStore`, `AuthReplay` | sign-in sessions, refresh-token rotation and reuse detection, one database operation per step |
| `LeaveStamps` | approved leaves stamping attendance days and cancelled ones reverting them |
| `AttendanceImport` | the batched import loop against row-by-row processing |
| `Regularization`, `RegularizationRaces` | regularization requests, their history and the Admin's caps; then with each decision's two writes apart |
| `Throttler` | the Redis rate-limit script |
| `WorkerPool` | the two pools of workers over a shared counter, under every schedule |
| `ManagerReassignment` | moving a manager's team to a replacement |
| `ZonedTime`, `ShiftDays` | wall-clock times, and the windows that give a punch its shift-day |
| `ShiftHours` | which shift settings are accepted, and what a worked day is worth |
| `ExportSchedule` | monthly exports and the daily job |
| `WfhDays` | the days a Work From Home request covers, and occurrence-limited weekly offs |

Where the source updates rows in place, a class with those rows as fields has the methods; each method is proved equal to
a function of the old state, and the lemmas speak about that function. Protocols are transition systems whose runs are
sequences of enabled steps, so a statement about a run covers every interleaving. Each main operation also has a theorem
that tells its outcome from the columns of the tables alone, or from the calls before it, without the functions the other
theorems share.

## What the code does not do

These promises turned out not to hold of the code in full; each comes with the exact condition or a concrete case.

- The comp-off ledger's guard is on the count alone: a credit withdrawn between the read and the write of an approval is
  consumed all the same (`WithdrawnCreditIsStillConsumed`). A write hits a row of another status than it asked for exactly
  when the last thing that happened to the row since the read was a change to such a status (`WrittenRowIsSpoiledIff`).
- A cancellation does not always undo an approval row by row: it misses exactly when a row already in use stands, in the
  order credits are given back, in front of a row the approval takes from (`ReleaseUndoesConsumeIff`, with the mirror
  image in `ConsumeUndoesReleaseIff`; `CancellationUndoesApprovalIff` with the rows each half of the service reads). Credits that expire on the same day are one such case (`TiedExpiriesAreNotUndone`).
- Reuse detection can leave its session signed in. A token can still be about to be created when the walk begins, or a
  refresh can win its swap between the walk's read and its revocation of the same row
  (`SwapBeforeRevokeEscapes`, `CrossedReplayLeavesALiveToken`). `ReplayEndsTheSessionIff` says exactly when the session
  ends, over every interleaving: there was nothing to end, the walk revoked a row no swap had linked yet, or somebody else
  took the last token away. With no swap of the session under way or crossing, it always ends
  (`UncrossedReplayEndsTheSession`).
- A leave stamp can be taken back without a trace exactly from days with nothing remembered, a SYSTEM half day excepted for
  half-day leaves (`OneLeaveRestoresIff`).
- A pool of `runInBatches` fills every slot exactly when it has a lane or nothing to do (`BatchFillsEverySlotIff`).
- A day regularized after a leave stamped it keeps the fields remembered under the leave; a second leave approved and
  cancelled then brings back the status from before the first (`StaleMemoryComesBack`). A day starts afresh at its last
  other write when that leaves nothing remembered and no leave stamps it (`EditStartsAfresh`).
- A decision on a regularization request is two writes. The second closes the requests pending at the first and no other
  exactly when no new request of that day is accepted, and no other decision on it written, in between
  (`SecondWriteOnAnyDayIff`). The monthly cap holds over every run all the same (`MonthlyCapInEveryRun`); the resubmit cap
  holds exactly when no request is accepted for a date whose pending and rejected requests together already exceed the
  limit (`ResubmitCapInEveryRunIff`, and `UncountedRejectionsPassTheCap` for a run that passes it). What one request in
  the gap of a rejection or of a withdrawal gets is exact too (`RejectionGapPassesTheCapIff`, `WithdrawalGapRefusesIff`).
- Before any rejection the form can show no resubmission left although the first request is accepted
  (`NoResubmitsLeftBeforeFirstRequest`).
- Refusing only direct reports does not keep the reporting graph free of loops; the exact condition is
  `ReassignKeepsAcyclicIff`.
- The rule written beside the shift windows, that every punch lies in the window of its day, fails in a zone whose clock
  change falls between a UTC midnight and the local one; `EveryPunchIsInItsDayIff` says exactly when.
- A day shift marked as crossing midnight is accepted, and its end then belongs to the next shift-day
  (`AcceptedShiftFitsItsDayIff`); a break that is not a whole number of minutes can put Present out of reach
  (`WholeSpanIsPresentIff`).
- The start of a day is corrected once, and is local midnight exactly when the clocks do not change between the date's UTC
  midnight and the instant found (`StartOfDayIsMidnightIff`).
- The comment beside `zonedWallTimeToUtc` treats the spring gap like the fall overlap; in the gap no instant is right, and
  the clock at the one returned is off by exactly the jump (`WallTimeIsMetIff`).

## Model

| member | source | states |
|---|---|---|
| Prelude.StableSortStable | src/comp-offs/comp-off-consumption.ts:34-50 | the sort keeps rows of equal expiry in the order the query gave them |
| CompOffConsumption.ConsumeCompOff | src/comp-offs/comp-off-consumption.ts:53-76 | the loop's updates are those of spending along the soonest-first order, and the shortfall is exactly what the open balance cannot cover, never negative |
| CompOffConsumption.ReleaseCompOff | src/comp-offs/comp-off-consumption.ts:81-107 | the loop's updates are those of giving back along the latest-first order |
| CompOffConsumption.SpendWritesAfterSpend | src/comp-offs/comp-off.service.ts:812-827 | writing the consumption's updates by id changes each row as the ordered list says and no other row |
| CompOffConsumption.GiveBackWritesAfterGiveBack | src/comp-offs/comp-off.service.ts:849-864 | the same for the updates of a release |
| CompOffOptimality.SoonestFirstIsOptimal | src/comp-offs/comp-off-consumption.ts:34-76 | for any ledger and any other way of taking the same days, the balance still valid on every date is at most what soonest-first leaves, which is the smaller of the date's balance before and the total left |
| CompOffOptimality.AfterSpendProfile | src/comp-offs/comp-off-consumption.ts:53-76 | days that last to a date are touched only once everything expiring sooner is gone |
| CompOffOptimality.ConsumedOnProfile | src/comp-offs/comp-off.service.ts:775-828 | after a leave is granted, what every later day can draw is the smaller of what it could before and what is left over all |
| CompOffOptimality.LegalLeaveProfile | src/comp-offs/comp-off.service.ts:775-828 | no legal way of granting a leave leaves more for a later day, and total draw is conserved |
| CompOffOptimality.SoonestFirstServesEveryRun | src/comp-offs/comp-off.service.ts:775-828 | over any run of leaves and new credits that some strategy can serve in full, soonest-first refuses none and ends with at least as much for every later date |
| CompOffOptimality.SoonestFirstServesIff | src/comp-offs/comp-off.service.ts:775-828 | over any run of leaves and new credits soonest-first refuses none if and only if some way of granting them all from usable credits exists |
| CompOffRoundTrip.ConsumeAddsDaysMinusShortfall | src/comp-offs/comp-off-consumption.ts:53-76 | the days used grow by exactly the days asked for minus the shortfall |
| CompOffRoundTrip.ReleaseReturnsAtMostUsed | src/comp-offs/comp-off-consumption.ts:81-107 | the days used shrink by exactly the smaller of the days and what was used |
| CompOffRoundTrip.ConsumeKeepsShape | src/comp-offs/comp-off-consumption.ts:34-76 | counts stay within what was earned, statuses agree with counts, and the ledger stays used soonest-first, tied expiries included |
| CompOffRoundTrip.ReleaseKeepsShape | src/comp-offs/comp-off-consumption.ts:43-107 | the same after a release |
| CompOffRoundTrip.ShapeDeterminesLedger | src/comp-offs/comp-off-consumption.ts:34-107 | two such ledgers of the same credits with distinct expiries and the same total used are equal row by row |
| CompOffRoundTrip.SpendTakesIff | src/comp-offs/comp-off-consumption.ts:53-76 | a consumption takes from a row exactly when it is open and the rows before it do not cover the days |
| CompOffRoundTrip.GiveBackReachesIff | src/comp-offs/comp-off-consumption.ts:81-107 | a release gives back to a row exactly when it is used and the rows before it do not cover the days |
| CompOffRoundTrip.ReleaseUndoesConsumeIff | src/comp-offs/comp-off-consumption.ts:53-107 | on any settled ledger that can cover the days, a release restores every row, count and status, if and only if no row already in use stands, latest first, in front of another the consumption takes from |
| CompOffRoundTrip.ConsumeUndoesReleaseIff | src/comp-offs/comp-off-consumption.ts:53-107 | and consuming again after a release restores every row if and only if no row with room stands, soonest first, in front of another the release gives back to |
| CompOffRoundTrip.ReleaseUndoesConsume | src/comp-offs/comp-off-consumption.ts:53-107 | so cancelling restores every row on a ledger used soonest-first with distinct expiries |
| CompOffRoundTrip.ConsumeUndoesRelease | src/comp-offs/comp-off-consumption.ts:53-107 | and consuming again does |
| CompOffRoundTrip.TiedExpiriesAreNotUndone | src/comp-offs/comp-off-consumption.ts:34-50 | a family where the release misses: two credits of one expiry, the first used up and the second consumed; the exact condition is ReleaseUndoesConsumeIff |
| CompOffTransactions.PlanFacts | src/comp-offs/comp-off.service.ts:790-827 | a plan made from a snapshot has one write per row, keeps each row within what it earned and moves exactly the requested days |
| CompOffTransactions.NoUpdateIsLost | src/comp-offs/comp-off.service.ts:775-865 | in every state of every interleaving of transactions, rows stay within what they earned and days used equal the start plus committed consumption minus committed release |
| CompOffTransactions.CommitActsOnCurrentRows | src/comp-offs/comp-off.service.ts:812-864 | a transaction that commits wrote every row from the count the row still had, and moved exactly its amount |
| CompOffTransactions.OneWriterPerRow | src/comp-offs/comp-off.service.ts:812-864 | two open transactions never both hold a written row |
| CompOffTransactions.WithdrawnCreditIsStillConsumed | src/comp-offs/comp-off.service.ts:812-827 | a run in which a credit rejected after the read is consumed; the exact condition is WrittenRowIsSpoiledIff |
| CompOffTransactions.CompOffTable.UpdateGuarded | src/comp-offs/comp-off.service.ts:814-820 | the guarded update changes its row exactly when the count is still the one read, and says so |
| CompOffTransactions.CompOffTable.WriteGuarded | src/comp-offs/comp-off.service.ts:775-865 | all updates are written when the balance suffices and every row still has its count; otherwise nothing changes |
| CompOffStatuses.PlansAreSound | src/comp-offs/comp-off.service.ts:798-827 | in every state of every interleaving a planned write's row had what the request is after, and gets a status that can be consumed again unless it is used up |
| CompOffStatuses.WrittenRowIsSpoiledIff | src/comp-offs/comp-off.service.ts:775-865 | over every interleaving, a write that succeeds hits a row whose status the transaction did not ask for if and only if the last thing that happened to the row since the read was a change to such a status |
| CompOffStatuses.UnchangedStatusIsEligible | src/comp-offs/comp-off.service.ts:775-865 | while no status of a planned row is changed between read and write, only consumable (or releasable) rows are written |
| CompOffLeaves.CancellationUndoesApprovalIff | src/comp-offs/comp-off.service.ts:775-865 | on any ledger whose releasable rows are settled, cancelling an approved leave restores every row, with the rows each half reads, if and only if no releasable row already in use, expired ones included, stands latest first in front of another the approval takes from |
| CompOffRequests.LeaveIsRefusedIff | src/comp-offs/comp-off.service.ts:781-801 | in every state of every interleaving a leave approval is refused if and only if the unused days of APPROVED and PARTIALLY_AVAILED credits that do not expire before today are fewer than it takes |
| CompOffRequests.LeavePlansByColumns | src/comp-offs/comp-off.service.ts:781-827 | it plans to draw from such credits alone, at most what they have, from none while a sooner-expiring one has days left, each AVAILED exactly when used up, and as many days as the leave takes |
| CompOffRequests.CancellationIsNeverRefused | src/comp-offs/comp-off.service.ts:838-848 | a cancellation is never refused and gives back the smaller of the leave's days and the days used of APPROVED, PARTIALLY_AVAILED and AVAILED credits, expired or not |
| CompOffRequests.CancellationPlansByColumns | src/comp-offs/comp-off.service.ts:838-864 | it plans to give back to such credits alone, at most what they have used, to none while a later-expiring one has used days, each APPROVED exactly when none are left used |
| AuthTokens.Reachable | src/auth/auth.service.ts:523-697 | the invariant on tokens, links, sessions and tokens about to be created holds in every state of every interleaving |
| AuthTokens.AtMostOneHolder | src/auth/auth.service.ts:523-617 | a session never has two of: a live token, a token won but not yet created |
| AuthTokens.TokensOnlyAge | src/auth/auth.service.ts:594-607 | over any run a revoked token stays revoked, a link stays where it leads, no token disappears |
| AuthTokens.AtMostOneRefreshWins | src/auth/auth.service.ts:594-608 | of any number of refreshes of one token at most one wins the swap |
| AuthTokens.OnlyWinnersIssue | src/auth/auth.service.ts:594-617 | only a winning swap or a sign-in leads to a new token |
| AuthTokens.CheckDecides | src/auth/auth.service.ts:534-591 | a refresh goes on to the swap exactly when the session has not ended, the token read was unrevoked and the sign-in is allowed, and to the walk exactly when it was revoked more than five seconds ago and the session has not ended |
| AuthTokens.WinnersPassedTheCheck | src/auth/auth.service.ts:523-607 | over every run, every winning swap follows a read of its token unrevoked and then a check that was allowed with the session not ended |
| AuthTokens.SignInEndsEarlierOnes | src/auth/auth.service.ts:677-697 | over every run, when a sign-in opens its session, the sessions of the person on that kind of device that it found open have ended and the person's tokens of them are revoked |
| AuthTokens.LogoutSignsOut | src/auth/auth.service.ts:661-675 | over every run, a logout that found its token unrevoked ends with the token revoked and its session ended, whatever comes between its steps |
| AuthTokens.RevokesExactlyTheirs | src/auth/auth.service.ts:1019-1022 | revoking a person's tokens revokes exactly the person's unrevoked ones |
| AuthTokens.SessionIsOneChain | src/auth/auth.service.ts:593-616 | from any token of a session the links lead to every newer token of it |
| AuthTokens.ChainsAreAcyclic | src/auth/auth.service.ts:593-616 | links lead only to newer tokens of the same session, and only from revoked ones |
| AuthStore.AuthTables.RevokeIfLive | src/auth/auth.service.ts:642-646 | one row is revoked if it was not, and the count says which |
| AuthStore.AuthTables.RevokeTokenFamily | src/auth/auth.service.ts:623-659 | the loop revokes exactly the live tokens its walk visits and counts them; it ends on cyclic tables too |
| AuthStore.AuthTables.Refresh | src/auth/auth.service.ts:523-617 | refuse, revoke the family, or rotate: the whole new token table in each case |
| AuthStore.AuthTables.SignIn | src/auth/auth.service.ts:678-697 | the sign-in ends the person's live sessions on that kind of device, revokes their tokens and opens a new one |
| AuthStore.WalkStepsRevokeTheWalk | src/auth/auth.service.ts:634-652 | the walk's single steps, uninterrupted, revoke exactly the tokens visited |
| AuthStore.RefreshMethodIsItsSteps | src/auth/auth.service.ts:523-617 | the method does what its database steps do when nothing comes between |
| AuthStore.RefreshRotatesIff | src/auth/auth.service.ts:523-617 | run alone, a refresh rotates if and only if the token exists, is unrevoked, its session has not ended and the sign-in is allowed; it then writes that token and its successor only; other tokens change only for a token revoked more than five seconds ago whose session has not ended |
| AuthStore.SignInReplacesTheSession | src/auth/auth.service.ts:677-697 | run alone, a sign-in ends exactly the person's open sessions on that kind of device, revokes exactly the person's unrevoked tokens of those, and opens one session with one token |
| AuthStore.LogoutEndsItsSession | src/auth/auth.service.ts:661-675 | run alone, a logout revokes its unrevoked token and ends that token's open session, and changes no other row; for any other token it changes nothing |
| AuthStore.WalkStaysInSession | src/auth/auth.service.ts:634-652 | every token the walk visits belongs to the replayed token's session |
| AuthStore.ReplayRevokesTheFamily | src/auth/auth.service.ts:545-557 | a walk nothing interrupts leaves no live token in its session and touches no token of another, for chains of up to 10,000 |
| AuthStore.FamilyIsDeadIffNothingInFlight | src/auth/auth.service.ts:545-616 | after such a walk the session has neither a live nor a coming token if and only if no refresh of it was between swap and create |
| AuthReplay.EndsIff | src/auth/auth.service.ts:523-697 | a session that still has a live or coming token loses it in exactly the steps that revoke that token or drop that request |
| AuthReplay.DeadForGood | src/auth/auth.service.ts:523-697 | over any run a session left without a live or coming token never gets one again |
| AuthReplay.WalkTouchesOnlyItsSession | src/auth/auth.service.ts:623-659 | whatever comes between its steps, the walk changes no token of another session |
| AuthReplay.ReplayEndsTheSessionIff | src/auth/auth.service.ts:545-557 | over every interleaving, the session is left without a live or coming token at the end of the walk if and only if it had none, or the walk revoked a row no swap had linked yet, or another request took it away |
| AuthReplay.UncrossedReplayEndsTheSession | src/auth/auth.service.ts:545-659 | with no refresh of the session between swap and create at the start, none winning a swap before the end, and a chain of at most 10,000, the walk ends the session whatever else interleaves |
| AuthReplay.SwapBeforeRevokeEscapes | src/auth/auth.service.ts:637-646 | from any reachable state, a swap between the walk's read and revocation of its row ends the walk with the new token live |
| AuthReplay.CrossedReplayLeavesALiveToken | src/auth/auth.service.ts:637-646 | such a run from empty tables |
| LeaveStamps.EnumerateDates | src/attendance/attendance-shift-config.ts:229-241 | the loop lists each date from start to end once, in order |
| LeaveStamps.AttendanceTable.WriteAttendanceForApprovedLeave | src/attendance/attendance.service.ts:3634-3695 | every stamped day becomes its stamp, created when it had no row; other days stay |
| LeaveStamps.AttendanceTable.RevertAttendanceForLeave | src/attendance/attendance.service.ts:3704-3767 | every day of the range is reverted according to the other approved leaves covering it |
| LeaveStamps.OverlapCheckMakesCompatible | src/leaves/leave-rules.ts:312-329 | leaves that pass the overlap check pairwise share a date only as two half days, never three |
| LeaveStamps.OverlapIffSharedHalf | src/leaves/leave-rules.ts:312-329 | two leaves overlap if and only if there is a half of a date that both take, a half day without a session taking either |
| LeaveStamps.ApprovalStampsItsDates | src/attendance/attendance.service.ts:3634-3695 | an approval stamps the listed days, or the whole range when none are listed, column by column, and leaves every other day as it was |
| LeaveStamps.CancellationPutsDaysBack | src/attendance/attendance.service.ts:3704-3767 | a cancellation touches only SYSTEM leave stamps of the range: a day another leave covers keeps a stamp, a half exactly when all of those are halves; otherwise what was remembered comes back, or the row goes |
| LeaveStamps.ApproveDay | src/attendance/attendance.service.ts:3634-3695 | stamping the row the current leaves call for gives the row the leaves with the new one call for |
| LeaveStamps.CancelDay | src/attendance/attendance.service.ts:3704-3767 | reverting gives the row the remaining leaves call for |
| LeaveStamps.DaysFollowTheirLeaves | src/attendance/attendance.service.ts:3634-3767 | over any run of approvals, cancellations and other writes, a day nothing else has written is a function of its original row and its approved leaves |
| LeaveStamps.EditStartsAfresh | src/attendance/attendance.service.ts:3696-3767 | a day regularized, imported or punched, left clean and stamped by no leave, is from then on a function of the row written and its approved leaves, so cancelling later leaves brings that row back |
| LeaveStamps.StaleMemoryComesBack | src/attendance/attendance.service.ts:3675-3680 | a run in which a regularization is lost: the fields remembered under the first leave survive it, and a second leave approved and cancelled restores them |
| LeaveStamps.CancellingAllRestoresEverything | src/attendance/attendance.service.ts:3704-3767 | when no leave is left every day nothing else has written equals the original one, and with no other write the whole table does, whatever the order |
| LeaveStamps.EditedDayIsLeftAlone | src/attendance/attendance.service.ts:3737-3767 | a day regularized, imported or punched over a stamp is left alone by every cancellation until another leave is approved over it |
| LeaveStamps.OneLeaveRestoresIff | src/attendance/attendance.service.ts:3660-3767 | exactly which rows a leave can be approved over and cancelled from without a trace |
| LeaveStamps.ThirdHalfDemotes | src/attendance/attendance.service.ts:3660-3680 | a third half day would turn a whole day off back into a half day |
| AttendanceImport.AttendanceLedger.ApplyImportBatchRows | src/attendance/attendance.service.ts:5000-5241 | the loop over prefetched rows, leaves and holidays ends with the table and report of processing row by row, repeated keys included |
| AttendanceImport.AttendanceLedger.JudgePrefetched | src/attendance/attendance.service.ts:5090-5235 | one row is judged from the prefetched leaves and holidays as from all of them |
| AttendanceImport.PrefetchedLeavesAgree | src/attendance/attendance.service.ts:5067-5088 | the leave found among those fetched for the file is the leave found among all |
| AttendanceImport.PrefetchedHolidaysAgree | src/attendance/attendance.service.ts:5026-5065 | the holiday found for a department among those fetched for the file is the one found among all |
| AttendanceImport.EveryRowIsCounted | src/attendance/attendance.service.ts:5090-5241 | imported, skipped and errors add up to the number of rows, and the lists match their counts |
| AttendanceImport.ProtectedDaysAreUnchanged | src/attendance/import-protection.ts:17-47 | a protected day, and a day the file does not mention, end as they were |
| AttendanceImport.ClosedDaysAreReported | src/attendance/import-protection.ts:21-47 | by columns: a day on full-day leave, regularized, with an approved or pending request, or punched (also under a half-day stamp) is unchanged by the whole file, and each row naming it is reported skipped with the first of these reasons |
| AttendanceImport.OpenDaysTakeTheRow | src/attendance/attendance.service.ts:5113-5239 | conversely, a row naming any other day is written with the outcome's status, minutes and flags (under the leave on a half day of leave), or is an error for the first that applies of a locked period, an unreadable time, no time, failing rules |
| AttendanceImport.UnknownRowsAreErrors | src/attendance/attendance.service.ts:5090-5099 | a row with an unknown employee or no date is an error and changes nothing |
| AttendanceImport.HalfLeaveKeepsItsStatus | src/attendance/import-protection.ts:17-18 | a half-day leave stamp keeps status and source through the whole file |
| AttendanceImport.LastImportedRowWins | src/attendance/attendance.service.ts:5090-5235 | the last row written for a day is what the day shows in the end |
| Regularization.RegularizationDesk.RequestRegularization | src/attendance/attendance.service.ts:3866-4027 | the answer and the whole new state of a request, an Admin's being approved at once |
| Regularization.RegularizationDesk.CancelRegularization | src/attendance/attendance.service.ts:4169-4206 | a pending request is withdrawn in the day and the history, anything else is refused |
| Regularization.RegularizationDesk.ReviewRegularization | src/attendance/attendance.service.ts:4406-4496 | a pending request takes the decision in the day and the history, anything else is refused |
| Regularization.CloseCounts | src/attendance/attendance.service.ts:4141-4163 | what closing a day's pending rows does to the pending, rejected and not withdrawn counts of every day |
| Regularization.CapsHoldInEveryRun | src/attendance/attendance.service.ts:3886-3909 | in every reachable state, each operation taken as one step, a day is pending exactly when it has one pending history row, and a non-admin stays within the monthly limit and within resubmit limit plus one per date |
| Regularization.FormShowsWhatIsEnforced | src/attendance/attendance.service.ts:4085-4137 | the next request is refused exactly when the form shows nothing left for the month, or for the date after a rejection |
| Regularization.RefusedByTheRowsIff | src/attendance/attendance.service.ts:3866-3909 | the next request is refused for the month if and only if the employee's history rows dated in that month and not withdrawn have reached the limit, and for the date, first, if and only if its rejected rows exceed the resubmit limit |
| Regularization.OtherMonthsDoNotMatter | src/attendance/attendance.service.ts:4085-4112 | no step of another employee, or for another month, changes the answer or the numbers shown |
| Regularization.AcceptedTakesAPlace | src/attendance/attendance.service.ts:4085-4112 | an accepted request takes one place in its month, shown on every date of it, and counts as no rejection |
| Regularization.NoResubmitsLeftBeforeFirstRequest | src/attendance/attendance.service.ts:4128-4135 | with a resubmit limit of 0 the form shows none left while the first request is accepted |
| Regularization.WithdrawUndoesSubmit | src/attendance/attendance.service.ts:4165-4206 | submit then withdraw leaves the usage as before and the day open to a new request |
| RegularizationRaces.TwoWritesAreOneStep | src/attendance/attendance.service.ts:4184-4206 | with nothing in between, the two writes are the one step |
| RegularizationRaces.SecondWriteClosesItsOwnIff | src/attendance/attendance.service.ts:4141-4163 | over any run, on a day with one pending request and no other decision half written, the second write changes that request and no other if and only if no new request of that day by its employee is accepted between the two |
| RegularizationRaces.SecondWriteClosesExactly | src/attendance/attendance.service.ts:4141-4163 | on any day, which requests a second write closes: each pending at the first write or accepted since, unless another decision's second write came after it |
| RegularizationRaces.SecondWriteOnAnyDayIff | src/attendance/attendance.service.ts:4141-4163 | on any day, however often crossed before, it closes the requests pending at the first write and no other if and only if no new request is accepted and no other decision on the day written in between |
| RegularizationRaces.CapsHoldUnlessCrossed | src/attendance/attendance.service.ts:4466-4496 | with the two writes apart, every day matches its history as if they were one, and both caps hold, in every run in which no request is accepted for a day whose decision is half written |
| RegularizationRaces.MonthlyCapInEveryRun | src/attendance/attendance.service.ts:3901-3908 | with the two writes apart, a non-admin stays within the monthly limit in every state of every run, crossed or not |
| RegularizationRaces.ResubmitCapInEveryRunIff | src/attendance/attendance.service.ts:3893-3900 | over every run, a non-admin's date stays within the resubmit limit plus one in every state if and only if no request for it is accepted while its pending and rejected requests together exceed the limit |
| RegularizationRaces.UncountedRejectionsPassTheCap | src/attendance/attendance.service.ts:4475-4496 | a run with two rejections half written that leaves three requests against a cap of two, none counted as rejected when the last is accepted |
| RegularizationRaces.RejectionGapPassesTheCapIff | src/attendance/attendance.service.ts:4475-4496 | whatever the history, a request between the two writes of a rejection is accepted although refused after both exactly when the rejections counted are within the limit, those about to be counted take them over it, and the month has room; the date then exceeds the cap |
| RegularizationRaces.WithdrawalGapRefusesIff | src/attendance/attendance.service.ts:4184-4206 | whatever the history, a request between the two writes of a withdrawal is refused although accepted after both exactly when the withdrawn requests hold the month's last place |
| Regularization.WithdrawInTwoWritesLosesARequest | src/attendance/attendance.service.ts:4184-4206 | an instance: with a request between the withdrawal's two writes, the day is pending but no history row is |
| Throttler.RedisKeys.Increment | src/common/redis-throttler-storage.ts:24-54 | the two keys after the script and its reply: the hits, the time the window still has, and the time the block still has, a new block's whole duration |
| Throttler.RedisKeys.IncrementKey | src/common/redis-throttler-storage.ts:70-100 | a new block lasts the block duration, or one window when there is none; the seconds reported for the block and for the window are enough to wait them out and less than one too many |
| Throttler.AnyIntervalIsBounded | src/common/redis-throttler-storage.ts:24-54 | over every run an interval no longer than a window allows fewer than twice the limit |
| Throttler.BoundIsAttained | src/common/redis-throttler-storage.ts:24-54 | a run from an empty store that reaches twice the limit minus one |
| Throttler.WindowAllowsAtMostLimit | src/common/redis-throttler-storage.ts:38-51 | a counting window allows at most the limit |
| Throttler.BlockRefusesAndCountsNothing | src/common/redis-throttler-storage.ts:31-36 | while a block is live no call is allowed and the keys do not change |
| Throttler.ExcessBlocks | src/common/redis-throttler-storage.ts:45-51 | a call over the limit starts a block that refuses everything for its whole duration |
| Throttler.BlockEndsOnTime | src/common/redis-throttler-storage.ts:31-51 | after a call over the limit a call changes nothing if and only if it comes less than the block duration later, whatever was tried meanwhile, and the first one past the block and the window is allowed |
| Throttler.EveryCallMeetsItsFate | src/common/redis-throttler-storage.ts:24-54 | over every run from an empty store each call's outcome is the one told by the calls before it alone: under a block when a call over the limit came less than the block duration before, refused when its window has counted the limit, allowed otherwise |
| WorkerPool.EverySchedule | src/common/concurrency.ts:16-28 | in every state of every schedule each claimed index was called once and in order, no two workers hold one index, settled slots hold their own outcome, and the steps are bounded |
| WorkerPool.AtMostLimitInFlight | src/common/concurrency.ts:27-28 | never more than max(1, limit) items are being worked on |
| WorkerPool.StepMakesProgress | src/common/concurrency.ts:19-25 | every step leaves strictly less work, so every schedule ends |
| WorkerPool.FinishedPool | src/common/concurrency.ts:16-29 | what a finished pool with at least one worker holds: every outcome in its slot, or a worker that threw |
| WorkerPool.Pool.Move | src/common/concurrency.ts:19-25 | what one worker does between two awaits |
| WorkerPool.MapWithConcurrency | src/common/concurrency.ts:11-30 | the sequential map in order when nothing fails, a rejection exactly when something does |
| WorkerPool.RunInBatches | src/attendance/manual-punch-batch.ts:27-49 | one result per item in order, a failed one included, exactly when there is a lane or nothing to do |
| WorkerPool.BatchFillsEverySlotIff | src/attendance/manual-punch-batch.ts:35-48 | the same over every finished schedule |
| ManagerReassignment.UserTable.ReassignReports | src/common/manager-reassignment.ts:38-86 | the answer and the whole new user table, whichever order the reports are rewritten in |
| ManagerReassignment.UserTable.ReassignBeforeDeactivation | src/common/manager-reassignment.ts:88-111 | success means nobody active reports to the person any more; a refusal changes nothing |
| ManagerReassignment.NobodyLeftBehind | src/common/manager-reassignment.ts:24-68 | no active report of the old manager is left, all of them report to the replacement, nobody else is touched |
| ManagerReassignment.ReassignsIff | src/common/manager-reassignment.ts:46-68 | a reassignment goes through if and only if the replacement is another, active, not an EMPLOYEE and does not report to the old manager; it then rewrites exactly the active people who have the old manager as primary or additional, and otherwise nobody |
| ManagerReassignment.MoveSwapsTheManager | src/common/manager-reassignment.ts:61-68 | the people a moved person reports to are the same set with the replacement for the old manager |
| ManagerReassignment.MovedListIsTidy | src/common/manager-reassignment.ts:62-67 | no repeats, and the primary is not among the additional managers |
| ManagerReassignment.MoveKeepsTheOrder | src/common/managers.ts:12-14 | the manager list shown afterwards is the old list with the replacement written over the old manager and repeats dropped |
| ManagerReassignment.ReassignKeepsAcyclicIff | src/common/manager-reassignment.ts:56-68 | a loop-free organisation stays loop-free if and only if the replacement is not under any of the people moved, through a chain of any length |
| ManagerReassignment.ChecksOfDirectReportsAreNotEnough | src/common/manager-reassignment.ts:56-60 | an accepted reassignment after which two people report to each other |
| ZonedTime.InstantsOf | src/common/zoned-time.ts:8-31 | which instants show a wall-clock time: none in the gap, two in the overlap, one elsewhere |
| ZonedTime.WallTimeIsMetIff | src/common/zoned-time.ts:33-47 | with at most one clock change nearby, the instant found shows exactly the time asked for unless it lies in the spring gap, where no instant does and the clock is off by the jump |
| ZonedTime.OverlapGivesOneOfTwo | src/common/zoned-time.ts:33-47 | two instants show a wall-clock time exactly in the fall-back overlap, and the one found is among them |
| ZonedTime.ReadingBackGivesTheInstant | src/common/zoned-time.ts:33-47 | away from a change, converting a clock reading gives back the instant |
| ZonedTime.StartOfDayIsMidnightIff | src/common/org-date.ts:118-122 | with one clock change, the start of a day shows midnight if and only if the offsets are equal or the date's UTC midnight and the instant found lie on the same side of the change |
| ZonedTime.OneCorrectionCanMissMidnight | src/common/org-date.ts:118-122 | an instance: a zone where one correction misses midnight and two find it |
| ZonedTime.DayRangeEndsAtNextDay | src/common/org-date.ts:130-141 | in any zone whose offset varies by less than 12 hours a day's range ends where the next day starts |
| ShiftDays.WindowsDoNotOverlap | src/attendance/attendance.service.ts:262-280 | windows of consecutive days meet, and no punch is in two |
| ShiftDays.WindowsTileTheTimeline | src/attendance/attendance.service.ts:218-299 | in a fixed-offset zone a punch is in exactly the window of the day it resolves to |
| ShiftDays.DayShiftGoesByTheDate | src/attendance/attendance.service.ts:226-299 | a shift that does not cross midnight has the calendar day as its window, and its punches go by their date |
| ShiftDays.OvernightShiftStaysInOneDayIff | src/attendance/attendance.service.ts:226-259 | a day's window holds the overnight shift's start and its end next morning if and only if it ends earlier in the day than it starts |
| ShiftDays.OvernightPunchesResolveToTheStartDay | src/attendance/attendance.service.ts:286-299 | every punch of such a shift belongs to the day it began |
| ShiftDays.OffShiftPunchGoesToTheNearerShift | src/attendance/attendance.service.ts:226-259 | a punch between two shifts goes to the nearer one, half-minute midpoints included |
| ShiftDays.EveryPunchIsInItsDayIff | src/attendance/attendance.service.ts:217-224 | with one clock change, every punch lies in the window of its day if and only if the change never falls between a date's UTC midnight and its local midnight |
| ShiftDays.AClockChangeCanBreakThePromise | src/attendance/attendance.service.ts:217-224 | a zone and shift for which some punch does not |
| ShiftHours.StatusNeverWorsens | src/attendance/attendance-shift-config.ts:251-263 | working longer never lowers the status, whatever the settings |
| ShiftHours.ClockTimesAreReadIff | src/attendance/shift-hours.ts:7-10 | a text is read as a minute of the day if and only if it is that minute written as HH:mm |
| ShiftHours.SettingsAreAcceptedIff | src/attendance/shift-hours.ts:41-67 | exactly which settings are accepted, in terms of the two clock times, the break and the two minimums, and which are refused for equal times or an end before the start |
| ShiftHours.WorkedDayIs | src/attendance/attendance-shift-config.ts:251-263 | Present exactly when the minutes after the break reach the whole minutes nearest to the hours for Present, else a half day exactly when the minutes on the clock reach those for one, else Absent |
| ShiftHours.WholeSpanIsPresentIff | src/attendance/shift-hours.ts:41-67 | working the whole span is Present for every accepted minimum if and only if the net minutes are less than half a minute above a whole number |
| ShiftHours.AcceptedShiftCanBeMet | src/attendance/shift-hours.ts:41-67 | accepted settings with whole break minutes can be met, the half-day threshold is not above the present one, and a half day can be earned within the shift |
| ShiftHours.FractionalBreakCanRuleOutPresent | src/attendance/shift-hours.ts:49-57 | accepted settings that nobody can meet |
| ShiftHours.AcceptedShiftFitsItsDayIff | src/attendance/shift-hours.ts:45-48 | an accepted shift's start and end lie in its own day's window if and only if it is not a day shift marked as overnight |
| ExportSchedule.ScheduleTable.Daily | src/account-management/account-export-schedule.service.ts:195-208 | the job changes exactly the schedules that are due and can run |
| ExportSchedule.MonthReachesTheNext | src/account-management/account-logic.ts:202-206 | a month is exactly as long as the Gregorian day numbers of its first and the next month's first are apart, in every year |
| ExportSchedule.RecordedRunHoldsForItsMonth | src/account-management/account-export-schedule.service.ts:157-192 | after a recorded run, by hand or not, the job passes the schedule on every date of that month and, in any other month, before its day; on or after its day it runs |
| ExportSchedule.JobRunsAtFirstChanceIff | src/account-management/account-logic.ts:208-212 | over any history with missed ticks, manual runs and changed days, the job runs exactly at the month's first event that can serve it |
| ExportSchedule.AtMostOneJobRunAMonth | src/account-management/account-logic.ts:208-212 | at most one job run a month, and none after a manual run in it |
| ExportSchedule.FullMonthRunsOnceOnTheDay | src/account-management/account-logic.ts:202-212 | with a tick on each day the schedule runs exactly once, on the chosen day or the month's last |
| WfhDays.OccurrenceCountsTheWeekday | src/attendance/attendance-shift-config.ts:200-202 | a date of the month divided by seven, rounded up, counts its weekday's occurrences so far |
| WfhDays.OccurrencesMarkTheListedWeekdays | src/attendance/attendance-shift-config.ts:211-224 | an occurrence-limited entry marks exactly the listed occurrences of its weekday in every month |
| WfhDays.WeekdaysGoRound | src/attendance/attendance-shift-config.ts:215-216 | weekdays follow one another from 1970-01-01, a Thursday, Sunday being 0 |
| WfhDays.WfhRequestDays | src/attendance/wfh-request-days.ts:34-60 | the loop splits the range into days and skipped dates by the reason of each date |
| WfhDays.LeaveDates | src/attendance/attendance.service.ts:2616-2621 | the dates of the range that some leave covers |
| WfhDays.WfhDaysFor | src/attendance/attendance.service.ts:2622-2644 | filtering out requested days and sorting them in gives what looking them up with the rest would have |
| WfhDays.EveryDateIsCoveredOnce | src/attendance/wfh-request-days.ts:44-60 | each date of the range is in exactly one of the two lists, with its own reason, in date order |
| WfhDays.AskedForIff | src/attendance/attendance.service.ts:2616-2644 | a date is asked for if and only if it lies in the employed part of the range and is no weekly off, no holiday, on no leave and not requested yet, and is left out for a reason exactly when that is the first of these it is |

## Left out

- Notifications, email, templates, timeline and audit entries: they never change the modelled state.
- Controllers, guards, validators, logging and wiring.
- Postgres, Prisma and Redis themselves: tables are maps or sequences, a guarded `updateMany` is one atomic step, the script is one atomic step.
- Token hashing and JWT signing: hashes are fresh numbers. Expiry of a token and the checks on its user and organisation are one boolean input of a refresh.
- Refresh tokens without a session, which older sign-ins left behind: every modelled token has a session.
- Simultaneous sign-ins of one person: the code does not guard them, so nothing is claimed about how many sessions stay open.
- AuthStore.ReplayRevokesTheFamily: the walk run alone, for chains of at most 10,000 tokens, its own limit; AuthReplay has every interleaving.
- AuthStore.FamilyIsDeadIffNothingInFlight: the walk run alone; AuthReplay.ReplayEndsTheSessionIff has every interleaving.
- AuthStore.AuthTables.Refresh: the expiry of the token and the checks on its user and organisation are one input, and every token has a session.
- Earning comp-off days, their expiry sweep and financial years: credits enter the ledger as given.
- CompOffTransactions.NoUpdateIsLost: protects counts, not statuses, because the guard is on the count alone; CompOffStatuses has the statuses.
- LeaveStamps.DaysFollowTheirLeaves: starts from a day with nothing remembered and no SYSTEM leave stamp, and from leaves the overlap check admits; after another write EditStartsAfresh takes over, unless that write left remembered fields or a stamp.
- Regularization.CapsHoldInEveryRun: limits and roles stay fixed over the run and each operation is one step; RegularizationRaces.CapsHoldUnlessCrossed takes the two writes of a decision apart.
- Regularization.RegularizationDesk.RequestRegularization: the lookback window, the joining date, payroll locks and the checks on the requested times come before and are not modelled.
- Regularization.RegularizationDesk.ReviewRegularization: the reviewer's scope, payroll locks and the times an approval writes are not modelled.
- The two writes of a submission are one step, and a process that dies between two writes is not modelled.
- The rules that derive a day's outcome in an import, payroll locks and the reading of a sheet's cells are inputs of the import.
- Two imports at the same time: the code does not guard them.
- What a pool's function does besides its result: it is taken to depend on the item alone.
- Throttler.AnyIntervalIsBounded: Redis may still hold a key at the very millisecond it expires; the bound holds either way.
- Zones with two clock changes within one offset's reach of each other, and changes of a whole day at the date line.
- Floating point: hours and days are reals.
- Schedules beyond the thousand the daily job reads, and a run that ends on a later date than it started.
- The calendar behind a date's day of the month is an input of WfhDays; month lengths are modelled in ExportSchedule.
