# Circulation, queues and ledgers of a university library

A model of the library backend's stateful core, and proofs about all its runs. Each layer has its own
modules; the classes update their fields the way the services and repositories update their tables, and
each method is proved against a function whose properties are then proved over whole runs.

- **The desk** (`desk*.dfy`, `domain.dfy`). Copies, loans, reservations and the audit log; one service call is one
  step. `DeskTables.Desk` does the work in place and is proved to take exactly `DeskModel.Step`; `desk_outcomes.dfy`
  says of every call, from rows and arguments alone, what it answers and what it leaves.
- **Interleaved lending** (`lending_*.dfy`). Borrow, return and copy edits as READ COMMITTED transactions with
  program counters, buffered writes and row locks, under every schedule. Each guard can be switched off, which
  turns "this lock matters" into an if-and-only-if.
- **Role changes** (`role_protocol.dfy`, `role_change.dfy`). The last administrator, under every schedule.
- **The outbox** (`outbox_*.dfy`). Any number of workers claiming, sending, marking and crashing.
- **Beside them**: refresh-token rotation (`sessions.dfy`), the rate limiter (`rate_limit.dfy`), the member import
  (`member_import.dfy`), bibliographic patches (`book_metadata.dfy`, `book_patch.dfy`, `book_catalogue.dfy`), ISBN digits
  (`isbn.dfy`) and the migration runner (`migrate.dfy`).

Conventions. No statement modelled here deletes a copy, loan, reservation, message or token, so tables are
sequences and a row's id is its position; the order of positions is the order of creation, which is also the
queue's key. Clocks, the answers of providers and the outcome of each migration's transaction are inputs.

## Where the code and its comments differ

The model follows the code.

- Last-copy retention is described as safe under concurrency (`internal/repository/postgres/circulation_repo.go:47-48`,
  `:115-117`). Overlapping borrows of different copies of a title all pass: `LendingRetention.OverlapsEmptyTheShelf`;
  what does hold, and no more, is `LendingBound.RetentionIff`.
- `UpdateCopy` checks a status it read in no transaction (`internal/service/catalogue_service.go:177`, `:204`). As one
  step the desk stays coupled; interleaved, only the unique index is left (`LendingOverlap.OneOpenLoanIffIndexed`,
  `LendingSafety.ShelfClearIffNeverStale`), unless no loan commits between an edit's read and its write
  (`LendingEdits.LoansSurviveEdits`).
- Reporting a borrowed copy lost and changing its policy in one call applies the first half and answers with an
  error (`internal/service/catalogue_service.go:188-198`): `DeskLending.RefusalChangesNothing`.
- A message that could not be settled is said to stay pending (`internal/queue/worker.go:100-102`, `:116-118`,
  `:128-133`); it is claimed, and nothing takes it back. When that happens is `OutboxWorker.DeliveryStrandsIff` for
  all three places and `OutboxLimits.CrashStrands` for a crash; that it lasts is `OutboxLimits.StrandedForever`.
- "Five attempts" (`internal/repository/postgres/outbox_repo.go:288-289`) are three hand-offs, since claiming and
  failing each count one: `OutboxSafety.ThreeHandoffsAtMost`.
- Expiring a ready reservation promotes nobody (`internal/repository/postgres/reservation_repo.go:213-225`), so a
  shelf copy may stand unheld while readers wait: `DeskGaps.ExpiryNeglects`, and `DeskGaps.NeglectedIff` tells
  from the state before any call whether it will.
- A ready hold can still be refused by retention: `DeskGaps.ReadyHoldRefused`; `DeskLending.LendingOutcome` says when.
- The in-memory limiter's real bound is one below twice the limit, and is reached (`RateLimit.BoundIsReached`).
- A preview looks at identifiers without case and at nothing else; the import compares them exactly, refuses used
  emails and asks who the actor is (`internal/repository/postgres/user_repo.go:152-172`). `MemberImport.PreviewEqualsImport`
  says exactly when the two agree.
- A password change is said to leave no gap to race (`internal/repository/postgres/user_repo.go:313-324`). A refresh
  between its two statements still saves a token: `Sessions.SessionSurvivesPasswordChange`; nothing else does:
  `Sessions.SignedOutIffNothingInFlight`.
- "Two edits in a row" is not the combined edit when one is refused: `BookCatalogue.EditsCompose` has the exact
  condition, `BookCatalogue.RefusedEditIsLost` an input.

## Model

| member | source | states |
|---|---|---|
| DeskTables.Desk.AddCopy | internal/repository/postgres/catalogue_repo.go:417-453 | the call takes exactly the desk step: blank or taken accession number refused, otherwise one shelved copy and one log line; every desk invariant is kept |
| DeskTables.Desk.UpdateCopy | internal/service/catalogue_service.go:174-205 | the two-transaction edit takes the desk step, half-applied error included, and keeps every invariant |
| DeskTables.Desk.SetCopyStatusClosingLoan | internal/repository/postgres/catalogue_repo.go:563-595 | closes every open loan on the copy together with its status change and logs it |
| DeskTables.Desk.WriteCopy | internal/repository/postgres/catalogue_repo.go:599-635 | writes the given fields only, and logs what was asked |
| DeskTables.Desk.Borrow | internal/service/circulation_service.go:63-107 | desk loan: takes exactly the desk step, keeps every invariant, lends only to entitled members and answers them as LendingAnswer says, an if-and-only-if for the loan and for each refusal |
| DeskTables.Desk.SelfCheckout | internal/service/circulation_service.go:112-151 | the same for a member serving themselves, with its own refusals |
| DeskTables.Desk.Lend | internal/repository/postgres/circulation_repo.go:66-223 | head check, claim, retention, limit, insert, fulfil, log; a refusal after the claim restores the copy |
| DeskTables.Desk.Return | internal/repository/postgres/circulation_repo.go:251-293 | closes the loan, reshelves the copy if it was on loan, logs, and promotes the next reader unless that failed |
| DeskTables.Desk.Promote | internal/repository/postgres/reservation_repo.go:189-209 | the oldest pending reservation of the title becomes ready until three days after `now`; no other row changes |
| DeskTables.Desk.Reserve | internal/repository/postgres/reservation_repo.go:30-102 | refusals in order, otherwise one pending reservation at the back and its queue position |
| DeskTables.Desk.Cancel | internal/service/reservation_service.go:65-95 | only the owner cancels a waiting reservation; only giving up a ready one promotes the next |
| DeskTables.Desk.ExpireStale | internal/repository/postgres/reservation_repo.go:213-225 | every ready reservation past its deadline, and no other, expires; nobody is promoted |
| DeskTables.StepKeepsSound | internal/service/circulation_service.go:63-176 | any service call keeps coupling, queue order, one hold each, limits and the audit replay together |
| DeskOutcomes.BorrowOutcome | internal/service/circulation_service.go:63-107 | a loan at the desk is made if and only if the member is on the roll, active and has a category, nobody else is first in line, the copy circulates, is available and leaves one to spare, and fewer than 2, 4 or 6 loans are open by category; each refusal has its own if-and-only-if |
| DeskOutcomes.SelfCheckoutOutcome | internal/service/circulation_service.go:112-151 | the same for self-checkout, which only members may use, with suspension told apart from inactivity |
| DeskOutcomes.LoanWrites | internal/repository/postgres/circulation_repo.go:94-217 | a loan writes one open loan, the copy's status, the longest-waiting reservation of the title and one line naming who did it; every other row stands; a refused loan writes nothing |
| DeskOutcomes.ReturnOutcome | internal/repository/postgres/circulation_repo.go:251-293 | when a return is refused; otherwise exactly that loan closes, its copy is available, and, unless the promotion failed, exactly the oldest pending reservation is ready, for three days |
| DeskOutcomes.CancelOutcome | internal/service/reservation_service.go:65-95 | a cancellation succeeds if and only if the owner has that reservation waiting; only a ready one passes to the next reader |
| DeskOutcomes.ReserveOutcome | internal/repository/postgres/reservation_repo.go:30-102 | each refusal and the success told from the copies, the queue and the roll; the position is the number of pending readers, the new one included |
| DeskOutcomes.ExpiryOutcome | internal/repository/postgres/reservation_repo.go:213-225 | exactly the ready rows whose deadline is before now expire, and as many are reported |
| DeskOutcomes.DeadlinesOfCall | internal/repository/postgres/reservation_repo.go:189-209 | any call: a row that becomes ready does so by a return or a cancellation and gets the deadline three days after that call; every other row keeps its own |
| DeskOutcomes.HoldLastsThreeDays | internal/repository/postgres/reservation_repo.go:189-225 | over a whole run, a later sweep expires a hold made ready at some time if and only if it is still ready and the sweep is more than three days after that time |
| DeskOutcomes.AccessionOutcome | internal/repository/postgres/catalogue_repo.go:417-453 | each refusal and the success of an accession told from the trimmed number, the copies and the titles; what it writes |
| DeskOutcomes.EditOutcome | internal/service/catalogue_service.go:174-205 | each refusal and the success of an edit told from the copy's row and the transitions allowed; what it writes to the copy, the loans and the log, half-applied edits included |
| DeskCoupling.CoupledInEveryRun | internal/domain/domain.go:321-365 | in every reachable state a copy is on loan exactly when it has exactly one open loan, and is then circulating |
| DeskCoupling.UpdateCopyKeepsCoupling | internal/service/catalogue_service.go:174-205 | no status or policy edit, loan-closing ones included, can uncouple a copy from its loan |
| DeskCoupling.HistoryIsPermanent | internal/domain/domain.go:321-365 | between any two moments of a run: withdrawn stays withdrawn, no loan is reopened or lost, finished reservations never change, the log only grows |
| DeskAudit.LogReproducesDesk | internal/repository/postgres/audit.go:33-57 | in every reachable state, replaying the log from nothing gives every copy with its book, number, policy and status, and the exact set of open loans |
| DeskAudit.StepAccounted | internal/repository/postgres/circulation_repo.go:202-217 | a call either logs nothing and changes no copy or open loan, or logs one line that says exactly what it changed |
| DeskQueue.QueueSoundInEveryRun | internal/repository/postgres/reservation_repo.go:145-209 | ready reservations of a title always precede its pending ones, and a member waits for a title at most once |
| DeskQueue.HoldsNeverOutnumberShelf | internal/service/reservation_service.go:65-132 | in every run the ready holds of a title are at most its shelf copies plus the edits that took one off the shelf |
| DeskQueue.EditMovesShelf | internal/service/catalogue_service.go:174-205 | an edit moves a title's shelf by the one copy that its fields and the permitted transitions say, half-applied and refused edits included |
| DeskQueue.OnlyTheHeadIsFulfilled | internal/repository/postgres/circulation_repo.go:73-93 | a reservation is fulfilled only by a loan of its title to its owner, and only from the head of its queue |
| DeskQueue.FulfilledInOrder | internal/repository/postgres/circulation_repo.go:193-200 | over a whole run, reservations of one title are fulfilled in the order they were made |
| DeskLending.RenderingsAgree | internal/repository/postgres/catalogue_repo.go:105-110 | on every collection of copies the search expression equals BorrowableCount, Reserve reports copies available exactly when it is positive, and so does retention pass for any claimable copy |
| DeskLending.CountsPartitionTotal | internal/repository/postgres/catalogue_repo.go:52-68 | available, on loan, not for loan and missing copies add up to the total, none counted twice |
| DeskLending.LendingOutcome | internal/repository/postgres/circulation_repo.go:66-191 | lent exactly when four caller-visible conditions hold; otherwise the refusal names the first that fails |
| DeskLending.LoanEffect | internal/repository/postgres/circulation_repo.go:94-200 | what a loan leaves: one new open loan, its copy off the shelf, its own reservation finished, one more on its member |
| DeskRetention.OnlyEditsExhaust | internal/repository/postgres/circulation_repo.go:113-134 | one call leaves a title with nothing on the shelf and two or more of its stock out if and only if it is an edit that takes its only shelf copy while two more are out: no loan, return, reservation or accession ever does |
| DeskRetention.RetainedOnlyAfterEdit | internal/domain/domain.go:367-388 | so over a whole run a title stands empty that way only if some edit has taken a copy of it off the shelf |
| DeskGaps.NeglectedIff | internal/repository/postgres/reservation_repo.go:189-225 | a call leaves readers waiting beside a shelf copy held for nobody if and only if the state before it and its arguments say so: every shelf copy is held, somebody is pending, and the call shelves a circulating copy, or returns or gives up one with its promotion failing; or more uncollected holds lapse than copies are short; or a title is reserved beside its unheld retained copy; never a loan |
| DeskGaps.ExpiryNeglects | internal/repository/postgres/reservation_repo.go:213-225 | a reachable desk where expiry does so |
| DeskGaps.ReadyHoldRefused | internal/repository/postgres/circulation_repo.go:118-134 | a reachable desk where the reader with the ready hold at the head of the queue is refused the copy on the shelf |
| DeskLending.LimitsHoldInEveryRun | internal/repository/postgres/circulation_repo.go:136-160 | no run leaves anyone with more open loans than their category allows |
| DeskLending.RefusalChangesNothing | internal/service/catalogue_service.go:188-198 | a refused call changes nothing if and only if it is not the half-applied edit; that one leaves exactly the loan-closing transaction |
| DeskLending.MarkClosesTheLoan | internal/repository/postgres/catalogue_repo.go:563-595 | reporting a borrowed copy lost or damaged closes its loan and no other copy's |
| LendingProtocol.OthersStay | internal/repository/postgres/circulation_repo.go:66-71 | one event moves one transaction; buffered writes are invisible until commit |
| LendingProtocol.OnlyCommitsWrite | internal/repository/postgres/circulation_repo.go:219-222 | the committed tables change only at a commit, and then by that transaction's own writes |
| LendingProtocol.StepKeepsCopiesExclusive | internal/repository/postgres/circulation_repo.go:94-111 | no two transactions ever hold the same copy row |
| LendingProtocol.StepKeepsUsersExclusive | internal/repository/postgres/circulation_repo.go:136-150 | with the FOR UPDATE, no two borrows hold the same member row |
| LendingSafety.LimitHoldsInEverySchedule | internal/repository/postgres/circulation_repo.go:136-160 | any number of interleaved borrows, returns, edits and crashes never leaves a member over the limit |
| LendingSafety.StepKeepsLimits | internal/repository/postgres/user_repo.go:373-382 | the inductive step: a passed count stays true while its member row is locked |
| LendingSafety.IndexAllowsOneOpenLoan | internal/migrate/sql/0001_init.sql:152-153 | with the partial unique index, no schedule gives a copy two open loans |
| LendingSafety.ClaimAllowsOneOpenLoan | internal/repository/postgres/circulation_repo.go:94-112 | with no index at all, the claim alone still does, as long as no edit puts a copy back on the shelf under an open loan |
| LendingSafety.ShelfClearIffNeverStale | internal/service/catalogue_service.go:177-204 | along any schedule no copy stands on the shelf with its loan open if and only if no edit ever puts one there |
| LendingEdits.LoansSurviveEdits | internal/service/catalogue_service.go:177-204 | if no loan of a copy commits between an edit's read and its write of that copy, then in every schedule and configuration the copy of each open loan is on loan, no copy has two, and shelf copies have none |
| LendingOverlap.LimitHoldsIffLocked | internal/repository/postgres/circulation_repo.go:136-145 | over all schedules the limit holds if and only if the member row is locked before the count |
| LendingOverlap.LimitBrokenWithoutLock | internal/repository/postgres/circulation_repo.go:136-145 | for every positive limit, a schedule without the lock that exceeds it |
| LendingOverlap.ReachShelvedWithOpenLoan | internal/service/catalogue_service.go:177-204 | UpdateCopy's stale read can put a copy back on the shelf with its loan open |
| LendingOverlap.OneOpenLoanIffIndexed | internal/migrate/sql/0001_init.sql:152-153 | edits included, one open loan per copy holds over all schedules if and only if the index is there |
| LendingRetention.OverlapsEmptyTheShelf | internal/repository/postgres/circulation_repo.go:115-134 | for every n from two up, n overlapping borrows take all n copies of a title, in every configuration: the comment on retention claims more than the code does |
| LendingRetention.FewDisturbancesRetainLastCopy | internal/repository/postgres/circulation_repo.go:113-134 | a loan that counted some copies left and saw fewer commits on its title than that (none, if it counted none) before its own keeps the last copy back |
| LendingBound.RetentionIff | internal/repository/postgres/circulation_repo.go:113-134 | for every count and every number of commits on the title before the loan's own, all schedules keep the last copy if and only if that number is below the count (or is nought where the count is): reaching the bound can empty the shelf |
| LendingRetention.StepLowersLeft | internal/repository/postgres/circulation_repo.go:118-134 | one event takes at most one copy from under a counted borrow, and only by committing on its title |
| LendingAlone.BorrowAloneIsTheDesk | internal/repository/postgres/circulation_repo.go:94-191 | an interleaved borrow that runs by itself does to copies and loans exactly what the desk step does, unless somebody else heads the queue |
| LendingAlone.ReturnAloneIsTheDesk | internal/repository/postgres/circulation_repo.go:251-279 | so does a return |
| LendingAlone.EditAloneIsTheDesk | internal/service/catalogue_service.go:174-205 | so does an edit, loan-closing transaction and plain write alike |
| RoleProtocol.RolesSafeInEverySchedule | internal/repository/postgres/user_repo.go:251-311 | whatever role changes overlap, an administrator remains and every member keeps a category |
| RoleProtocol.CommitKeepsAdmin | internal/repository/postgres/user_repo.go:276-281 | the locked count is a lower bound: committing a demotion leaves an administrator |
| RoleProtocol.AdminSurvivesIffLockedAndRechecked | internal/repository/postgres/user_repo.go:258-281 | the last administrator survives every schedule if and only if rows are both locked and looked at again once locked |
| RoleProtocol.NobodyLeft | internal/repository/postgres/user_repo.go:258-281 | without either guard, two demotions leave no administrator |
| RoleChange.Roll.CountAdmins | internal/repository/postgres/user_repo.go:258-272 | counts the administrators in whatever order their rows come |
| RoleChange.Roll.UpdateRole | internal/repository/postgres/user_repo.go:251-311 | done, the target has the role and category asked for, or its own category if none was, and nobody else changes; each refusal has its if-and-only-if and changes nothing; one audit line if anything changed; an administrator remains |
| RoleChange.OutcomeAnswers | internal/repository/postgres/user_repo.go:268-311 | the same of the transaction as a function: the request is carried out or refused, and why |
| RoleChange.OutcomeKeepsAdmin | internal/repository/postgres/user_repo.go:276-298 | no role change removes the last administrator or leaves a member without a category |
| RoleChange.AloneIsUpdateRole | internal/repository/postgres/user_repo.go:251-311 | the protocol's transaction, run alone, does to the users exactly what UpdateRole does |
| OutboxWorker.Outbox.Pending | internal/repository/postgres/outbox_repo.go:91-129 | what is claimed is due, pending, under five attempts and locked by nobody, in order of schedule and within the limit; a row that could be claimed is, unless the limit is used up on rows before it; exactly those become claimed |
| OutboxWorker.ScanClaimsFirst | internal/repository/postgres/outbox_repo.go:91-111 | the scan behind it passes over no row that may be claimed |
| OutboxWorker.Outbox.MarkSent | internal/repository/postgres/outbox_repo.go:268-282 | the row becomes sent |
| OutboxWorker.Outbox.MarkSuperseded | internal/repository/postgres/outbox_repo.go:182-190 | the row becomes superseded |
| OutboxWorker.Outbox.MarkFailed | internal/repository/postgres/outbox_repo.go:290-301 | one more attempt, and pending again or failed from the fifth |
| OutboxWorker.Outbox.SendToAll | internal/queue/worker.go:205-232 | counts acceptances and retryable errors over every device |
| OutboxWorker.Outbox.Deliver | internal/queue/worker.go:110-253 | settles the message as the answers say, or leaves it claimed |
| OutboxWorker.Outbox.DrainOnce | internal/queue/worker.go:92-107 | handles the batch in order up to a shutdown and reports how many |
| OutboxWorker.DeliveryOutcome | internal/queue/worker.go:110-253 | the row after a delivery: sent if anybody was reached, tried again up to five attempts if nobody was and an error was worth it, otherwise superseded; untouched if it could not begin or the mark was lost |
| OutboxWorker.BatchOutcome | internal/queue/worker.go:92-107 | a pass settles each of its messages by that message's own answers, and no other row |
| OutboxWorker.SendsReachVerdict | internal/queue/worker.go:188-235 | the worker's loop counters and the protocol's stage reach the same verdict for any answers |
| OutboxWorker.DeliverIsProtocol | internal/queue/worker.go:110-181 | one delivery is a run of the protocol on the same answers: same rows, same worker, same acceptances |
| OutboxWorker.DrainIsProtocol | internal/queue/worker.go:92-107 | so is a whole batch, up to wherever it is stopped |
| OutboxWorker.DeliveryStrandsIff | internal/queue/worker.go:100-181 | a delivery strands its message if and only if it returns without marking it (check failed, no sender, no token list) or the mark was not stored |
| OutboxSafety.HandoffsBounded | internal/repository/postgres/outbox_repo.go:91-111 | in every run attempts count claims and failures together, and no row is in two workers' batches |
| OutboxSafety.ThreeHandoffsAtMost | internal/repository/postgres/outbox_repo.go:288-301 | pending rows have attempts 0, 2 or 4, claimed 1, 3 or 5, and no message is handed out more than three times, whatever "five attempts" says |
| OutboxSafety.TruthfulInEveryRun | internal/queue/worker.go:110-235 | in every run sent means the worker was told of an acceptance, and pending, failed or superseded means it never was; no recipient is reported accepted twice |
| OutboxSafety.AcceptedOncePlusLosses | internal/queue/worker.go:110-235 | in every run a recipient accepts at most once more than its acceptances were lost on the way back, and a failed or superseded message exactly as often as they were lost |
| OutboxSafety.AcceptedAtMostOnce | internal/queue/worker.go:110-235 | any number of workers, crashes and lost marks: at most once, if no acceptance is reported to the worker as a failure |
| OutboxLimits.AtMostThreeCopies | internal/repository/postgres/outbox_repo.go:91-111 | if acceptances can be lost on the way back, at most three copies reach a recipient |
| OutboxLimits.LostAcceptancesRepeat | internal/queue/worker.go:239-253 | and three is reached, by a message then reported failed |
| OutboxLimits.StrandedForever | internal/queue/worker.go:128-133 | a claimed row no worker holds is never picked up again, though the worker's comments say it stays pending |
| OutboxLimits.CrashStrands | internal/queue/worker.go:100-102 | a crash strands everything the worker had claimed |
| Sessions.TokenStore.SaveLogin | internal/repository/postgres/token_repo.go:22-27 | a new live token for the user |
| Sessions.TokenStore.ConsumeRefreshToken | internal/repository/postgres/token_repo.go:48-62 | returns a refresh if and only if the token exists, is not revoked, has not reached its expiry and is not older than its account's stamp; then that token is revoked, otherwise nothing changes |
| Sessions.TokenStore.SaveRefreshed | internal/service/auth_service.go:181-229 | the second half of a refresh: one token for the one consumed |
| Sessions.TokenStore.RevokeRefreshToken | internal/repository/postgres/token_repo.go:64-70 | logging out revokes that token only |
| Sessions.TokenStore.ChangePassword | internal/service/auth_service.go:242-271 | stamps the account and leaves the user no live token |
| Sessions.SessionsConserved | internal/service/auth_service.go:210-229 | along any interleaving, live tokens plus refreshes under way never grow except by logging in |
| Sessions.LiveTokensWithinLogins | internal/service/auth_service.go:181-229 | a user's live tokens never outnumber their logins |
| Sessions.SessionsAfterPasswordChange | internal/repository/postgres/user_repo.go:313-341 | after a password change, live tokens come from later logins or refreshes that were between their two statements |
| Sessions.SignedOutIffNothingInFlight | internal/repository/postgres/user_repo.go:313-341 | from any state, revoking a user's tokens signs them out for good if and only if no refresh of theirs is between its two statements |
| Sessions.SessionSurvivesPasswordChange | internal/service/auth_service.go:210-229 | a run in which a refresh straddles the change and its new token is live and consumable: the comment "no gap to race" claims more than the code does |
| Sessions.ConsumedAtMostOnce | internal/repository/postgres/token_repo.go:48-62 | no token is consumed twice |
| Sessions.StaleNeverConsumed | internal/repository/postgres/token_repo.go:38-58 | with a monotone clock, no token older than its account's stamp is ever consumed |
| Sessions.ConsumedIff | internal/repository/postgres/token_repo.go:48-62 | the same of the statement in any state |
| Sessions.ExpiredNeverConsumed | internal/repository/postgres/token_repo.go:52-56 | in any run, consuming a token at or past its expiry changes nothing |
| Sessions.FreshTokenConsumable | internal/service/auth_service.go:181-229 | in any run, a token saved by a login can be consumed at a given time if and only if it is unrevoked, within its lifetime from the login, and its account was not stamped after it was made |
| MemberRecords.ReadIgnoresSpelling | internal/service/member_service.go:319-352 | lines that differ only in padding and in the letter case of email and category are read alike, fit or not |
| MemberRecords.FitIff | internal/service/member_service.go:194-213 | a line is fit if and only if it has an identifier, an email with an at sign, a full, first or last name, and one of three categories or none |
| MemberRecords.SameKeyIff | internal/service/member_service.go:357-365 | two lines name the same member exactly if their identifiers differ at most in letter case |
| MemberImport.MemberDesk.Create | internal/repository/postgres/user_repo.go:107-144 | inserts unless identifier or email is taken, and says which |
| MemberImport.MemberDesk.TakeLine | internal/service/member_service.go:354-393 | malformed, repeated, forbidden, taken or created, in that order |
| MemberImport.MemberDesk.ImportCSV | internal/service/member_service.go:269-421 | a preview changes nothing and reports the preview statuses; a real run leaves the specified roll and statuses; the counts are those of the rows and add up |
| MemberImport.MemberDesk.SettlePending | internal/service/member_service.go:399-418 | settles the new rows of a preview whatever order the map is iterated in |
| MemberImport.EveryRowCountsOnce | internal/service/member_service.go:226-242 | total equals valid plus duplicate plus invalid once every row is settled |
| MemberImport.ImportOutcome | internal/service/member_service.go:354-393 | a line is created if and only if it is the first fit one of its member, the actor is staff, and its identifier and email are neither on the roll nor taken by an earlier created line; when it is invalid or a duplicate instead |
| MemberImport.CreatedAreOnRoll | internal/repository/postgres/user_repo.go:107-144 | after any number of lines the roll holds what it held and the lines reported as created, and nothing else |
| MemberImport.PreviewOutcome | internal/service/member_service.go:399-418 | a previewed line is valid if and only if it is the first fit one of its member and no identifier on the roll differs from its own at most in letter case |
| MemberImport.TallyCounts | internal/service/member_service.go:226-242 | each count is the number of rows with that status |
| MemberImport.TakenIffOnRoll | internal/service/member_service.go:373-393 | with fresh emails, a new line is refused by the real import exactly when its identifier is on the roll |
| MemberImport.PreviewEqualsImport | internal/service/member_service.go:373-418 | for every file, roll and actor, preview and import agree on every line if and only if each line seen for the first time is foretold: permitted actor and unused email if its identifier is new, otherwise something that stops the import |
| MemberImport.OnlyCaseDisagrees | internal/service/member_service.go:394-418 | with a permitted actor and fresh emails that comes down to no new identifier being on the roll in another spelling of case |
| RateLimit.Memory.Allow | internal/ratelimit/ratelimit.go:108-120 | counts in the key's window, starting a new one strictly after its reset; allows up to the limit |
| RateLimit.Memory.Sweep | internal/ratelimit/ratelimit.go:124-135 | removes exactly the expired windows, in any order |
| RateLimit.LimiterBound | internal/ratelimit/ratelimit.go:108-120 | any keys, any sweeps: a key is allowed at most twice its limit less one in any interval of one window |
| RateLimit.BoundIsReached | internal/ratelimit/ratelimit.go:108-120 | that bound is met for every limit and window |
| RateLimit.SweepingChangesNoAnswer | internal/ratelimit/ratelimit.go:122-135 | sweeping, whenever it runs, never changes an answer |
| RateLimit.FallbackAllowsWhatRedisAllows | internal/ratelimit/ratelimit.go:67-81 | on one stream of events the in-process limiter allows whatever the shared counter allows |
| RateLimit.RedisRefusesBursts | internal/ratelimit/ratelimit.go:67-81 | Redis refuses a call if and only if it ends a burst longer than the limit, each call of which came within a window of the one before |
| BookMetadata.ValidateNames | internal/service/book_metadata.go:91-108 | accepts exactly lists of at most a hundred printable names, non-blank and distinct after trimming, and returns them trimmed |
| BookMetadata.ValidateBookMetadata | internal/service/book_metadata.go:38-115 | the loops accept and rewrite exactly what the specification does, and refuse an empty patch |
| BookMetadata.PatchTakenIff | internal/service/book_metadata.go:38-115 | when a patch is taken, including the years allowed, and what of it is stored |
| BookMetadata.FieldTakenIff | internal/service/book_metadata.go:46-80 | field by field, with the lengths as numbers: when a value is taken and what is stored |
| BookMetadata.NamesTakenIff | internal/service/book_metadata.go:91-108 | when a list of names is taken, and that it is stored trimmed in its order |
| BookMetadata.CompactSplits | internal/service/catalogue_service.go:132-134 | wherever it stands in a number, a space or hyphen is dropped, a small letter raised and any other character kept |
| BookMetadata.AtMostIff | internal/service/book_metadata.go:109-111 | the order of the subjects is the dictionary's |
| BookMetadata.SortSorts | internal/service/book_metadata.go:109-111 | subjects are stored sorted, the same ones with the same multiplicity |
| BookMetadata.ValidationSettles | internal/service/book_metadata.go:38-115 | validation is idempotent, now or in a later year |
| BookPatch.Catalogue.UpdateBook | internal/repository/postgres/book_edit_repo.go:25-130 | refusals leave the book alone; a patch that changes nothing writes nothing; otherwise the record is the patched one and one line names the changed fields |
| BookPatch.EditOutcome | internal/repository/postgres/book_edit_repo.go:25-130 | each refusal and the silent no-op told from the patch and the books; otherwise every column holds what was supplied for it, or what it held |
| BookPatch.Catalogue.Link | internal/repository/postgres/catalogue_repo.go:345-387 | linking stores the trimmed names, blanks skipped and repeats ignored, in order |
| BookPatch.LinkedMeans | internal/repository/postgres/catalogue_repo.go:345-387 | a name is linked if and only if it is not blank and some supplied name is it once trimmed, and linked once |
| BookPatch.LinkedInOrder | internal/repository/postgres/catalogue_repo.go:345-387 | names stand in the order in which they are first supplied |
| BookPatch.ChangedIsWhatDiffers | internal/repository/postgres/book_edit_repo.go:39-76 | changed_fields is exactly the set of fields that read back differently, and names no omitted one |
| BookPatch.ReapplyingIsQuiet | internal/repository/postgres/book_edit_repo.go:22-24 | sending a validated patch again changes nothing and writes no audit line |
| BookPatch.UncleanAuthorsNeverSettle | internal/repository/postgres/book_edit_repo.go:65-67 | an author list is reported as changed again exactly when it is not in stored form: why validation has to come first |
| BookPatch.PatchesCompose | internal/repository/postgres/book_edit_repo.go:87-120 | on one record, two patches in a row write what the combined patch writes, the later winning |
| BookCatalogue.EditsCompose | internal/repository/postgres/book_edit_repo.go:25-130 | two edits in a row leave the catalogue as the combined edit does if and only if both go through or what a refusal loses was not worth keeping, told from the ISBNs held and the fields supplied |
| BookCatalogue.RefusedEditIsLost | internal/repository/postgres/book_edit_repo.go:99-104 | an edit refused for its ISBN loses its title, which the combined edit would have stored |
| BookCatalogue.DisjointEditsCommute | internal/repository/postgres/book_edit_repo.go:25-130 | edits of different fields leave the same catalogue in either order, stored, silent or refused |
| BookCatalogue.UnchangedIsApplied | internal/repository/postgres/book_edit_repo.go:77-79 | an edit that reports no change would have written none |
| BookPatch.ValidatedIsStored | internal/service/book_metadata.go:60-111 | whatever validation lets through satisfies the premises of the patch laws |
| BookCatalogue.EditKeepsSound | internal/repository/postgres/book_edit_repo.go:78-104 | every edit, stored or refused, keeps ISBN-13s unique and each class letter that of its call number |
| Isbn.ValidIsbn | internal/service/book_metadata.go:131-162 | the loops accept exactly well-shaped numbers with a vanishing weighted sum |
| Isbn.Accepted10Iff | internal/service/book_metadata.go:136-147 | accepted with ten characters: the weighted sum written out |
| Isbn.Accepted13Iff | internal/service/book_metadata.go:148-161 | accepted with thirteen: prefix and weighted sum written out |
| Isbn.OneCheckDigit10 | internal/service/book_metadata.go:136-147 | nine digits are completed by exactly one character, X for ten |
| Isbn.OneCheckDigit13 | internal/service/book_metadata.go:148-161 | twelve digits with the prefix are completed by exactly one digit |
| Isbn.SubstitutionRejected | internal/service/book_metadata.go:129-162 | every single wrong character in an accepted number is caught, in both lengths |
| Isbn.SwapRejected10 | internal/service/book_metadata.go:136-147 | every exchange of two different characters of an ISBN-10 is caught |
| Isbn.AdjacentSwap13 | internal/service/book_metadata.go:149-161 | an exchange of neighbours in an ISBN-13 goes unnoticed if and only if it is past the prefix and the digits differ by five |
| Migrate.Database.Apply | internal/migrate/migrate.go:80-148 | the database is left as specified for every way the files' transactions end; what it reports is what it ran, in order |
| Migrate.Database.ListPending | internal/migrate/migrate.go:153-183 | lists exactly the eligible files not in the ledger, in order |
| Migrate.PendingPicks | internal/migrate/migrate.go:153-183 | Pending lists the files never applied and wanted, all of them and no others, in file order |
| Migrate.StopIsFirst | internal/migrate/migrate.go:80-148 | a run gets to the first file that was edited after being applied or whose transaction failed, and succeeds if and only if there is none |
| Migrate.LedgerOfRun | internal/migrate/migrate.go:80-148 | the ledger afterwards: what it held, and every wanted file up to the stop whose transaction took effect, with its checksum, and nothing else |
| Migrate.EffectsOfRun | internal/migrate/migrate.go:80-148 | what takes effect: the wanted files before the stop in order, and the one stopped at if only the answer was lost |
| Migrate.ApplyRunsWhatIsPending | internal/migrate/migrate.go:80-183 | with no failing transaction, Apply succeeds exactly if no applied file was edited, and then runs precisely what Pending listed |
| Migrate.RunExtends | internal/migrate/migrate.go:80-148 | a run, however it ends, only lengthens the applied prefix of the eligible files |
| Migrate.ResumesExactly | internal/migrate/migrate.go:80-148 | any series of interrupted runs followed by a success applies every eligible file exactly once, in order |

## Left out

- HTTP routing, handlers, middleware, envelopes and OpenAPI: plumbing.
- Argon2, JWT, HMAC, SHA-256 and random tokens: a token is its id, never guessed and never repeated.
- Resend, FCM, Open Library, Redis and Postgres as services: only their outcomes appear.
- Deadlock detection, foreign-key share locks and SKIP LOCKED passing over a locked head: queue order is proved with one service call as one step.
- The queue-head check and the fulfilment inside interleaved borrows: a refusal by the head is one of the ways a transaction may end early.
- Entitlement checks inside the interleaved model: the service makes them before the transaction begins, so an interleaved borrow starts entitled, with its member's limit fixed.
- Device registration and the retiring of dead device tokens: neither decides how a message is settled.
- OutboxSafety.AcceptedAtMostOnce: assumes a provider's acceptance is not reported back as an error; OutboxSafety.AcceptedOncePlusLosses has no such premise.
- LendingSafety.ClaimAllowsOneOpenLoan: excludes schedules where an edit shelves a copy under its open loan, because there the property is false (LendingOverlap.TwoOpenLoansWithoutIndex); LendingSafety.ShelfClearIffNeverStale shows those are the only ones.
- LendingEdits.LoansSurviveEdits: goes one way, since a loan under an edit that leaves the status alone does no harm; LendingSafety.ShelfClearIffNeverStale is exact for the shelf.
- MemberImport.OnlyCaseDisagrees: assumes fresh emails and a permitted actor; MemberImport.PreviewEqualsImport assumes neither.
- LendingAlone.BorrowAloneIsTheDesk: leaves out the queue check, the fulfilment and the audit line, which the interleaved model does not have.
- RateLimit.FallbackAllowsWhatRedisAllows: a Redis key is taken to expire strictly after its deadline, like a memory window, and a Redis call never to fail.
- Sessions.StaleNeverConsumed: assumes statement times never run backwards.
- Due dates, renewal, overdue notices and the loan period of TermsFor: only the concurrent-loan limit matters to the properties here.
- NotifyDueSoon and the payloads, rendering and delivery records of notifications.
- The fallback between Redis and memory in AuthService.allow, and its jitter.
- columnIndex and the CSV reader: a record's fields are already picked by column, or the line is malformed.
- Import lines that fail for another store error: every insert either succeeds or meets a taken identifier or email.
- Upper and lower case beyond ASCII, text encoding, and collation: subjects read back as the set of headings, which is what the edit compares.
- The call-number pattern and class letter: parameters of validation and of the edit.
- The order of names in changed_fields: the set is modelled.
- Loading, ordering and hashing of migration files, and two runners at once: the file list comes in name order and one run follows another.
- The audit lines of steps other than copies and loans, and the timestamps of every line.
- Search, ranking, bookmarks, statistics, configuration, the simulator and its sampling.
- The stamp a role change puts on the account's tokens: a stamp may come at any point of a session run, whoever gives it.
- Liveness, such as every notice being sent in the end: the code does not guarantee it.
