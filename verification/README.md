# Verified model of the school backend's protocols

This project models the stateful protocols and algorithms of a multi-school
FastAPI backend and proves what they guarantee, in every run and for every
input. SQL tables are finite maps, a request is an atomic step (or several
steps where the code runs several transactions or round trips), and time is a
number that never runs backwards where a result says so.

`dafny verify dfyconfig.toml` checks everything.

| file | what it models |
|---|---|
| `Outbox.dfy` | the transactional outbox: enqueue, de-duplicating in-app channel, handler fan-out, one dispatcher pass |
| `Announcements.dfy`, `Attendance.dfy` | the two producers of outbox events |
| `Delivery.dfy`, `Passes.dfy`, `Dispatch.dfy` | producers, any number of workers and crashes as one state machine: exactly-once effect |
| `Auth.dfy`, `Accounts.dfy`, `Sessions.dfy`, `Lockout.dfy` | accounts, rotating refresh tokens with reuse detection (the scheme of section 10.4 of RFC 6749), reset grants, login lockout |
| `RateLimit.dfy`, `RedisRateLimit.dfy`, `Windows.dfy` | both sliding-window limiters, and the counting argument the lockout shares |
| `RowOrders.dfy`, `Pagination.dfy`, `PreorderedPaging.dfy` | keyset and offset paging, and keyset paging of statements that were ordered before |
| `Slots.dfy`, `Timetables.dfy` | slot overlap checks, conflict detection, one published timetable per year |
| `BulkImport.dfy` | CSV import with a savepoint per row |
| `Grants.dfy` | the permission-scope fold and the active school |
| `Assignments.dfy` | the check-then-insert race on teacher assignments |
| `Ulid.dfy` | the identifier codec |
| `Prelude.dfy` | Option, Result, and how a service answers its specification |

Each service is a class whose methods update its tables as the code does; their
contracts equate the new state with a specification function, and the theorems
are about runs of that function. When a request succeeds and what it leaves is
also stated field by field, without the helpers that the specification functions
share with the methods, and so is what one request makes of a later one. Errors
are results: an error that the code raises inside a request transaction leaves
the state as it was, except for the bookkeeping that the code commits separately.

## Where the code and its stated intent differ

Each of these is proved, with the exact condition where there is one.

- **Dead letters come back.** An event at its attempt limit is stored with no
  next attempt, which the fetch takes for "due now"
  (`app/workers/outbox_dispatcher.py:74`, `:126`). A failed event waits out its
  backoff if and only if it was short of its last attempt (`Outbox.HeldBackIff`), and
  attempts grow without bound (`Outbox.AttemptsAreUnbounded`).
- **A missing handler is not given up**, and the event keeps its lock mark: a
  failed processing cleans up after itself if and only if the event has a handler
  (`Outbox.FailureCleansUpIff`).
- **Until its backoff overflows.** The delay is a float times a power of two, which
  raises from the 1025th attempt on, outside the handler's `try`
  (`app/workers/outbox_dispatcher.py:49`, `:96`). An event without a handler gets
  there (`Outbox.UnheardRaisesIff`); then it never changes again and no transaction
  that holds it commits (`Passes.UnheardIsStuck`), so every pass that fetches it
  is rolled back with all its other events (`Outbox.UnheardEndsPass`).
- **A slot update without a teacher skips the teacher check.** It is safe whatever
  else is booked if and only if the slot gains no date
  (`Slots.UncheckedUpdateIsSafeIff`); `Slots.ExtensionDoubleBooks` is a run from
  empty tables in which it is not.
- **Conflict detection ignores dates**: a clean report is sound
  (`Timetables.CleanReportIsSound`), but a report that is not clean is false if and
  only if no two slots that clash are effective on a common date
  (`Timetables.ReportIsFalseIff`; `Timetables.ReportIgnoresDates` is an example).
- **The publish gate sees no slots.** No request sets a slot's timetable, so the
  conflict query of a publish returns nothing (`Timetables.PublishGateSeesNothing`).
- **Pre-ordered paging.** `list_timetables` and `list_for_year` order their
  statement before handing it to `paginate_cursor`. On a fixed table each row then
  comes back exactly once if and only if every page that has a successor ends where
  the cursor filter splits that order (`PreorderedPaging.PreorderedPagingIff`): for
  timetables, on a row that shares its timestamp with no other
  (`PreorderedPaging.TimetablePagingIff`); for periods, between newer and older ones
  (`PreorderedPaging.PeriodPagingIff`). Both come with a table that fails.
- **Limits below one.** The in-memory limiter then reads the head of an empty
  queue; one call at a time, the two limiters agree if and only if the limit is at
  least one (`RedisRateLimit.SerialDecisionsAgreeIff`).
- **Null subjects.** The unique index does not constrain an assignment without a
  subject. Of two concurrent creates, whoever the teachers are, both end up in the
  table if and only if they do not go for one index entry, otherwise exactly one
  does (`Assignments.RaceIsLostIff`): so they fill one position twice if and only if
  it is a subject position without a subject (`Assignments.RaceFillsSeatTwiceIff`).
  An update is safe if and only if it revives no such row
  (`Assignments.UpdateIsSafeIff`).
- **No row lock on a refresh.** A refresh that makes its checks, lets other requests
  through and then writes leaves a live token in every case. The family then has two
  if and only if those requests exchanged the same token and did not end the family
  (`Sessions.OverlappingRefreshForksIff`). Against the stated invariants, the new
  token outlives a password change or reset (`Sessions.RefreshOutlivesNewPasswordIff`),
  and its family outlives a detected reuse (`Sessions.RefreshOutlivesReuseIff`), if
  and only if the refresh is written after it.
- **No lock on a publish.** Two publishes for one school and year that overlap leave
  two published timetables if and only if none was published before
  (`Timetables.OverlappingPublishesIff`).
- **Short CSV rows.** A row cut off before a column that is stripped raises
  outside the savepoint and ends the import
  (`BulkImport.ImportRecordedIff`).
- **SUBMITTED without an event.** The status field of a session update makes a
  session SUBMITTED without notifying anybody (`Attendance.SubmittedWithoutEvent`):
  a session that left DRAFT has its event if and only if a submit took it out
  (`Attendance.EventIffSubmitted`).
- **A session with records cannot be deleted.** The lookup loads the records and the
  relationship does not cascade (`app/modules/attendance/models.py:66-68`), so the
  delete blanks their non-null session and fails
  (`Attendance.AttendanceService.RemoveSession`).
- **Checks and writes of one request are apart** in attendance and slots too. A bulk
  update written after a submit changes the records of the SUBMITTED session unless
  it says nothing new (`Attendance.LateBulkUpdateKeepsIff`); two slot creates that
  overlap book somebody twice exactly when they book the same one on a common date
  and are not for one cohort, hour and start (`Slots.OverlappingCreatesAreSafeIff`).
- **Logging out with an old token** leaves the session's live token alone
  (`Sessions.LogoutEndsFamilyIff`).

## Model

| member | source | states |
|---|---|---|
| Delivery.ExactlyOnce | app/workers/outbox_dispatcher.py:68-165 | in every interleaving of producers, workers, crashes, failures and retries the dispatcher writes each notification at most once; an event is SENT exactly if the messages of its last pass are recorded, and each of them has its notification |
| Passes.RecipientsAreNotified | app/workers/handlers.py:74-188 | when a handler returns, in a transaction that later commits, on an announcement event with an organization and a school, or an attendance event that names its session too, the event stays SENT and every recipient of that pass has the notification of that type for that entity, whatever happens in between and afterwards |
| Dispatch.PublishEnqueues | app/modules/announcements/service.py:99-161 | publishing a live draft of the version sent enqueues one PENDING event with the organization, the school and the announcement |
| Dispatch.SubmitEnqueues | app/modules/attendance/service.py:178-224 | submitting a draft of the version sent enqueues one PENDING event with the organization, the school and the session |
| Dispatch.BatchIsDetermined | app/workers/outbox_dispatcher.py:68-80 | without ties in creation time the query has one answer: the oldest events that can be fetched, oldest first |
| Dispatch.BatchExists | app/workers/outbox_dispatcher.py:68-80 | it always has one, ties or not |
| Dispatch.BatchIsComplete | app/workers/outbox_dispatcher.py:68-80 | no more rows than asked for, only rows that can be fetched, and all of those if fewer |
| Dispatch.HeldBackUntil | app/workers/outbox_dispatcher.py:68-80 | an event held back can be fetched exactly once its next attempt has come |
| Dispatch.CrashReleases | app/workers/outbox_dispatcher.py:154-164 | a crash leaves tables and other workers as they were and its rows to be fetched again |
| Dispatch.NewAnnouncementCanBePublished | app/modules/announcements/service.py:32-161 | a new announcement is a draft that can be published in its first version |
| Dispatch.OthersNoticeIsNotRepeated | app/workers/channels.py:60-87 | a notification written from elsewhere is not written again by a handler |
| Dispatch.OnlyOneIsFetched | app/workers/outbox_dispatcher.py:68-80 | an unlocked PENDING or FAILED event whose next attempt is not to come is fetched when it is the only one |
| Dispatch.FetchedIsDelivered | app/workers/outbox_dispatcher.py:144-165 | a worker alone that fetches it and whose handler returns leaves it SENT, its recipients told, and nobody else |
| Dispatch.PublishedIsDelivered | app/workers/handlers.py:74-114 | from publish to notification: with nothing else to fetch the next pass tells exactly the recipients of an announcement published in an organization |
| Dispatch.SubmittedIsDelivered | app/workers/handlers.py:117-188 | the same from the submit of a session |
| Delivery.WorkersAreSafe | app/workers/outbox_dispatcher.py:68-90 | no event is held by two open transactions, held rows are PENDING or FAILED, and no committed row is PROCESSING |
| Delivery.SentIsTerminal | app/workers/outbox_dispatcher.py:68-119 | a SENT row is never changed or fetched again in any continuation |
| Delivery.RunKeepsInv | app/workers/outbox_dispatcher.py:68-165 | the invariant over tables, row locks, open writes and notifications holds in every run |
| Delivery.EnqueueKeepsInv | app/modules/platform_/outbox/service.py:23-51 | a new event for an entity that had none disturbs no open transaction |
| Delivery.OnAnnouncementKeepsInv | app/modules/announcements/service.py:66-219 | no announcement request can create a second event for its announcement |
| Delivery.OnAttendanceKeepsInv | app/modules/attendance/service.py:178-224 | no attendance request can create a second event for its session |
| Delivery.FetchKeepsInv | app/workers/outbox_dispatcher.py:68-80 | skipping locked rows keeps the batches of open workers apart |
| Delivery.HandleKeepsInv | app/workers/outbox_dispatcher.py:83-141 | processing one event under a partial fan-out, a failure or a success keeps the invariant |
| Delivery.WorkersWriteApart | app/workers/channels.py:60-87 | two open workers never write notifications with one key, although neither sees the other's |
| Delivery.CommitKeepsInv | app/workers/outbox_dispatcher.py:154-164 | a commit keeps the committed tables right and every other open transaction valid |
| Passes.SoloPassIsRunOnce | app/workers/outbox_dispatcher.py:144-165 | fetch, handle each row and commit, undisturbed, leave exactly what run_once leaves, which is everything as it was if one row raises |
| Passes.UnheardAttemptsAreBounded | app/workers/outbox_dispatcher.py:48-98 | in no run does an event without a handler get beyond 1024 attempts |
| Passes.UnheardIsStuck | app/workers/outbox_dispatcher.py:48-98 | once an event without a handler has 1024 attempts its row never changes again in any continuation, and no transaction that holds it commits |
| Passes.StuckStopsDispatch | app/workers/outbox_dispatcher.py:68-80 | if it is due and older than every other due event, every fetch takes it |
| Outbox.OutboxTable.Publish | app/modules/platform_/outbox/service.py:23-51 | enqueuing adds one PENDING event, due at once, and nothing else |
| Outbox.WorkerSession.Send | app/workers/channels.py:60-87 | a notification is written exactly if none with its key is visible |
| Outbox.WorkerSession.FanOut | app/workers/handlers.py:74-188 | the loop delivers to every recipient, or to those before the exception |
| Outbox.WorkerSession.ProcessEvent | app/workers/outbox_dispatcher.py:83-141 | the event's new status, attempts, next attempt and lock, in all four branches, and exactly when the backoff raises |
| Outbox.WorkerSession.RunOnce | app/workers/outbox_dispatcher.py:144-165 | the tables are those of processing the batch in order and the counts those of the handlers that returned; if one row raises, everything is rolled back |
| Outbox.TallyAddsUp | app/workers/outbox_dispatcher.py:147-164 | processed = fetched = sent + failed |
| Outbox.DeliverIsExact | app/workers/channels.py:60-87 | after a delivery every key is present, no key was written twice, and only requested keys were added |
| Outbox.HandlerTells | app/workers/handlers.py:74-188 | a handler that returns has told every recipient of an event with an audience, one that raises after n sends the first n |
| Outbox.OnlyRecipientsAreTold | app/workers/handlers.py:74-188 | nobody else is told, none behind the first n if it raises after n sends, nobody twice, and nobody at all without an organization, a school or, for attendance, a session |
| Outbox.ProcessLeaves | app/workers/outbox_dispatcher.py:83-141 | exactly a returned handler leaves SENT, processed now and unlocked; otherwise FAILED with one attempt more and the next one after its backoff, or none at the limit; nothing else of the row changes |
| Outbox.DueIsExact | app/workers/outbox_dispatcher.py:68-80 | a new event can be fetched at once, one that is SENT or PROCESSING never, others unless their next attempt is to come |
| Outbox.OneRowRaisesIff | app/workers/outbox_dispatcher.py:48-134 | a pass over one row raises exactly if it has had 1024 attempts and has no handler, or one that fails short of the limit |
| Outbox.PassCommits | app/workers/outbox_dispatcher.py:144-165 | a pass over rows that have had fewer than 1024 attempts commits whatever the handlers do |
| Outbox.DeliverTwice | app/workers/channels.py:60-87 | repeating a delivery adds nothing |
| Outbox.BackoffShape | app/workers/outbox_dispatcher.py:48-50 | where it can be computed, up to 1024 attempts, the delay is monotone, starts at 30 s, doubles up to the cap of 3600 s and stays there |
| Outbox.HeldBackIff | app/workers/outbox_dispatcher.py:68-134 | unless its backoff raises, a failed event waits out its backoff if and only if it was short of its last attempt |
| Outbox.AttemptsAreUnbounded | app/workers/outbox_dispatcher.py:68-131 | past the limit a failing event stays due and its attempts grow without bound |
| Outbox.UnhandledGetsLaterAttemptIff | app/workers/outbox_dispatcher.py:48-98 | without a handler an event gets a later attempt and keeps its lock mark if it has had fewer than 1024, and raises otherwise |
| Outbox.UnheardRaisesIff | app/workers/outbox_dispatcher.py:48-98 | such an event, processed hourly, is due again each time and raises exactly at its 1025th attempt |
| Outbox.UnheardEndsPass | app/workers/outbox_dispatcher.py:90-98 | from then on a pass over a batch with it raises, wherever it stands and whatever the other events do |
| Outbox.FailureCleansUpIff | app/workers/outbox_dispatcher.py:90-140 | of the processings that fail without raising, the lock mark is released, and at the limit the next attempt cleared, if and only if the event has a handler |
| Announcements.AnnouncementRow.UpdateRow | app/modules/announcements/service.py:66-96 | only a live row of the version sent changes |
| Announcements.AnnouncementRow.PublishRow | app/modules/announcements/service.py:99-161 | a publish needs DRAFT and the version, and enqueues one event in the same transaction |
| Announcements.AnnouncementRow.ArchiveRow | app/modules/announcements/service.py:164-190 | an archive needs a row not yet archived, then the version |
| Announcements.AnnouncementRow.DeleteRow | app/modules/announcements/service.py:193-219 | only drafts are deleted |
| Announcements.RequestsSucceedIff | app/modules/announcements/service.py:66-219 | when each request succeeds: on a live row in the version sent, a publish and a delete for drafts, an archive once |
| Announcements.FirstErrorWins | app/modules/announcements/service.py:99-219 | which of two errors is reported |
| Announcements.RequestsLeave | app/modules/announcements/service.py:66-219 | what each leaves in every field, and that only a publish enqueues an event |
| Announcements.PublishedOnce | app/modules/announcements/service.py:66-219 | whatever requests arrive, at most one event is enqueued, only on leaving DRAFT, and the status never moves back |
| Announcements.SecondPublishFails | app/modules/announcements/service.py:99-161 | after one publish, no later one succeeds |
| Attendance.AttendanceService.CreateSession | app/modules/attendance/service.py:59-114 | one session per cohort and date, with a PRESENT record for each student enrolled that day |
| Attendance.AttendanceService.EditSession | app/modules/attendance/service.py:117-147 | version check and status rules of a session update |
| Attendance.AttendanceService.RemoveSession | app/modules/attendance/service.py:150-175 | only a draft of the version sent and without records is deleted; with records the delete fails on their session |
| Attendance.AttendanceService.SubmitSession | app/modules/attendance/service.py:178-224 | DRAFT to SUBMITTED with one event |
| Attendance.AttendanceService.AmendSession | app/modules/attendance/service.py:227-258 | a submitted session is opened for amendment |
| Attendance.AttendanceService.EditRecord | app/modules/attendance/service.py:261-298 | a record changes only while its session is not SUBMITTED |
| Attendance.AttendanceService.BulkUpdateRecords | app/modules/attendance/service.py:301-338 | all items are applied in order, or none |
| Attendance.CreateSucceedsIff | app/modules/attendance/service.py:59-75 | a session is created unless the cohort has one that day; the error tells whether it is one of the school |
| Attendance.CreateLeaves | app/modules/attendance/service.py:77-104 | it is a DRAFT, with one PRESENT record for each student actively enrolled in the cohort that day and nobody else |
| Attendance.SessionRequestsSucceedIff | app/modules/attendance/service.py:117-258 | which status each request needs, in the school's session and its version, and that a delete needs it to have no records |
| Attendance.SessionRequestsLeave | app/modules/attendance/service.py:117-258 | each changes that session alone and as it is named, counts its version up, and only a submit enqueues an event |
| Attendance.EditRecordLeaves | app/modules/attendance/service.py:261-298 | a record is edited exactly if its session is the school's and not SUBMITTED; mark, time, notes and updater are those sent |
| Attendance.BulkSucceedsIff | app/modules/attendance/service.py:301-351 | a bulk update is accepted exactly if the session is the school's and not SUBMITTED and every enrollment is the school's |
| Attendance.RecordsNameTheirStudents | app/modules/attendance/service.py:85-351 | over every run each record names the student whose enrollment it is for |
| Attendance.AmendReopens | app/modules/attendance/service.py:178-298 | a submit freezes the records, an amendment makes them editable again |
| Attendance.BulkIsLastWriteWins | app/modules/attendance/repository.py:133-167 | a bulk update keeps one record per enrollment and equals last-write-wins on the old records |
| Attendance.BulkFailsIff | app/modules/attendance/service.py:319-351 | it fails, and changes nothing, exactly if some item's enrollment is not one of the school |
| Attendance.BulkUpdatesCompose | app/modules/attendance/service.py:301-338 | two bulk updates by one caller are one with their items in order |
| Attendance.BulkUpdatesAreLastWriteWins | app/modules/attendance/service.py:301-338 | after any sequence of bulk updates, by any users and refused ones among them, each record holds the last accepted write for its enrollment, on what the run began with |
| Attendance.SubmittedFreezesRecords | app/modules/attendance/service.py:261-338 | no request served on its own changes a record of a SUBMITTED session |
| Attendance.NeverDraftAgain | app/modules/attendance/service.py:117-258 | a session that has left DRAFT never returns to it |
| Attendance.OneEventPerSession | app/modules/attendance/service.py:178-224 | over every run each session has at most one submission event |
| Attendance.EventIffSubmitted | app/modules/attendance/service.py:117-224 | over every run, a session that left DRAFT has its event if and only if a submit took it out |
| Attendance.LeftByRequest | app/modules/attendance/service.py:117-258 | and some request of the run did take it out |
| Attendance.SubmittedWithoutEvent | app/modules/attendance/service.py:117-147 | a run in which a session becomes SUBMITTED by an update and has no event in any continuation |
| Attendance.LateBulkUpdateKeepsIff | app/modules/attendance/service.py:301-338 | a bulk update checked before a submit and written after it leaves the records of the SUBMITTED session alone if and only if each already holds the last item for its enrollment |
| Auth.AuthService.Login | app/modules/auth/service.py:50-97 | the branches of a login in order, and which of them write in which transaction |
| Auth.AuthService.RegisterFailure | app/modules/auth/service.py:312-337 | the counter goes up, or the account locks and the counter restarts, committed independently |
| Auth.AuthService.IssueToken | app/modules/auth/service.py:263-299 | one new live token, in the request's own transaction |
| Auth.AuthService.Refresh | app/modules/auth/service.py:100-144 | rotation on success; durable revocation of the family or the token on reuse, expiry or a missing user |
| Auth.AuthService.RevokeFamilyDurable | app/modules/auth/service.py:377-397 | every token of the family and no other is revoked, committed independently |
| Auth.AuthService.Logout | app/modules/auth/service.py:147-155 | exactly the token presented is revoked |
| Auth.AuthService.RequestReset | app/modules/auth/service.py:158-181 | a grant only for a known, active account |
| Auth.AuthService.ConfirmReset | app/modules/auth/service.py:184-233 | what a valid grant changes: password, status, lock, all grants, all sessions |
| Auth.AuthService.ConsumeOthers | app/modules/auth/service.py:211-223 | every other unconsumed grant of the user is consumed |
| Auth.AuthService.RevokeAllUserSessions | app/modules/auth/service.py:400-410 | every unrevoked token of the user, and no other, is revoked |
| Auth.AuthService.ChangePassword | app/modules/auth/service.py:236-256 | a wrong current password changes nothing; a right one ends all sessions |
| Auth.AuthService.ServeRequest | app/db/session.py:44-47 | a request commits its own writes exactly if it succeeds; bookkeeping stays either way |
| Accounts.LoginSucceedsIff | app/modules/auth/service.py:50-77 | a login succeeds exactly for a live ACTIVE account that is not locked, with its password |
| Accounts.LoginLeaves | app/modules/auth/service.py:79-97 | it starts a new family with one live token of the configured lifetime and clears the failures, and touches nobody else |
| Accounts.WrongPasswordLeaves | app/modules/auth/service.py:79-85 | a wrong password is counted, or locks at the limit and restarts the count |
| Accounts.RefusedLoginLeaves | app/modules/auth/service.py:59-77 | every other refused login changes nothing |
| Accounts.LocksExactlyAtLimit | app/modules/auth/service.py:66-85 | after fewer failures than the limit the right password gets in; after that many it does exactly once the lockout is over |
| Accounts.RefreshSucceedsIff | app/modules/auth/service.py:108-131 | a refresh succeeds exactly for an unrotated, unrevoked and unexpired token of a live ACTIVE user |
| Accounts.RefreshLeaves | app/modules/auth/service.py:132-144 | it marks that token and adds one live token of the same user, family and lifetime |
| Accounts.ExpiredRefreshRevokes | app/modules/auth/service.py:120-123 | an expired token presented is revoked for good, and no other token |
| Accounts.RefreshWithoutUserLeaves | app/modules/auth/service.py:125-130 | a missing or deleted user costs the family its tokens, one that is not ACTIVE nothing |
| Accounts.TokensLapse | app/modules/auth/service.py:120-123 | only logins and refreshes that succeed issue tokens, and none works a lifetime after its issue or later, in any continuation |
| Accounts.IssuedTokenWorks | app/modules/auth/service.py:108-144 | served next, a token just issued works exactly until its lifetime is over |
| Accounts.LogoutLeaves | app/modules/auth/service.py:147-155 | a logout always succeeds and revokes the token presented, and nothing else |
| Accounts.ChangePasswordSucceedsIff | app/modules/auth/service.py:243-245 | a password change succeeds exactly with the current password |
| Accounts.ConfirmResetSucceedsIff | app/modules/auth/service.py:191-200 | a reset succeeds exactly with an unconsumed, unexpired grant of a live account |
| Accounts.RefusedPasswordLeaves | app/modules/auth/service.py:184-245 | refused, both change nothing |
| Accounts.NewPasswordLeaves | app/modules/auth/service.py:202-254 | either sets the password, clears the lock and revokes the user's tokens; a reset also activates and consumes the user's grants; nobody else's rows change |
| Accounts.NewPasswordLogsIn | app/modules/auth/service.py:184-256 | afterwards exactly the new password logs in, if the account is live and ACTIVE |
| Accounts.RequestResetLeaves | app/modules/auth/service.py:158-181 | a reset request always succeeds; exactly for a live ACTIVE account it adds one grant of half an hour |
| Accounts.GrantLapses | app/modules/auth/service.py:158-200 | that grant works until then if served next, and after that never in any continuation |
| Accounts.ClosedAccountIsRefused | app/modules/auth/service.py:72-131 | suspended, disabled or deleted, an account gets neither login nor refresh |
| Accounts.AddUserLeaves | app/modules/iam/users/service.py:26-81 | a new account touches no other and is ACTIVE with a password, INVITED without |
| Accounts.AddedUserLogsIn | app/modules/auth/service.py:59-77 | exactly the password it was given, if any, logs in |
| Accounts.ReopenedAccountLogsIn | app/modules/auth/service.py:66-77 | set ACTIVE again, its password gets in as far as its lock does |
| Sessions.FamiliesAreChains | app/modules/auth/service.py:100-144 | in every serial run each family is one linear rotation chain: the newest token alone is unrotated, each other was exchanged for the next, and at most one is live |
| Sessions.ReuseEndsFamily | app/modules/auth/service.py:114-118 | presenting a rotated or revoked token fails, yet leaves its family without a live token in every continuation; nothing else changes, no refresh in it succeeds and no token joins it |
| Sessions.RunKeepsEnded | app/modules/auth/service.py:100-144 | a family without a live token never gets one back |
| Sessions.LogoutEndsFamilyIff | app/modules/auth/service.py:147-155 | a logout ends the session if and only if its token is the newest or that one was revoked already |
| Sessions.OverlappingRefreshForksIff | app/modules/auth/service.py:100-144 | a refresh checked first and written after any other requests mints a live token in every case, and its family has two if and only if they exchanged the same token and did not end the family |
| Sessions.TwoRefreshesFork | app/modules/auth/service.py:100-144 | so two refreshes of one token whose checks both come first always fork the family |
| Sessions.RefreshOutlivesNewPasswordIff | app/modules/auth/service.py:100-256 | over every schedule, the token of a refresh checked before a reset or password change is live when both are done if and only if it was written after the change |
| Sessions.RefreshOutlivesReuseIff | app/modules/auth/service.py:100-144 | likewise the family outlives a reuse detected meanwhile if and only if the refresh was written after it |
| Sessions.NewPasswordEndsSessions | app/modules/auth/service.py:184-256 | after a reset or password change no earlier token of the user ever succeeds |
| Sessions.ResetUsesUpGrants | app/modules/auth/service.py:184-226 | after a successful reset no grant the user had works again |
| Sessions.GrantSucceedsOnce | app/modules/auth/service.py:184-206 | in a run each reset grant succeeds at most once |
| Sessions.RunExtends | app/modules/auth/service.py:100-256 | rotations, revocations and consumption are never undone, and owners and families never change |
| Lockout.LockoutBound | app/modules/auth/service.py:66-85 | from any reachable state, with no success in between, any half-open window of the lockout length has at most the configured number of failed checks |
| Lockout.CounterStaysBelowLimit | app/modules/auth/service.py:312-337 | the stored counter is always below the limit |
| Lockout.FailureIsSpaced | app/modules/auth/service.py:308-337 | a failure is at least a lockout later than the one a full count before it |
| RateLimit.MemorySlidingWindow.AllowCall | app/core/ratelimit.py:134-143 | the decision and the queue of one call, other keys untouched |
| RateLimit.TrimDropsPrefix | app/core/ratelimit.py:137-138 | trimming drops exactly the leading expired times |
| RateLimit.QueueIsRecentHits | app/core/ratelimit.py:134-143 | after a call the queue is the sorted admitted times still in the window |
| RateLimit.AllowedIff | app/core/ratelimit.py:134-143 | a call is let through exactly when fewer than limit of the hits let through before it are still in the window |
| RateLimit.NeverOverLimit | app/core/ratelimit.py:128-143 | every window of the given length admits at most limit hits per key |
| RateLimit.RefusalAsksForASecond | app/core/ratelimit.py:139-141 | a refusal asks to wait at least a second |
| RateLimit.RetryAfterIsTight | app/core/ratelimit.py:139-141 | a repeat is admitted exactly after the true wait, which retry_after covers and overshoots by at most a second |
| Windows.WindowBound | app/core/ratelimit.py:134-143 | events of which any n+1 span the window length are at most n per window |
| RedisRateLimit.DistributedSlidingWindowLimiter.AllowAsync | app/core/ratelimit.py:163-192 | one undisturbed call whose two round trips may lie apart: trim, count, refuse or add, renew the expiry |
| RedisRateLimit.CallIsBeginFinish | app/core/ratelimit.py:163-192 | the machine's count and add, any time apart, are that call |
| RedisRateLimit.SerialRunAgrees | app/core/ratelimit.py:134-192 | with one call at a time, however long each takes between count and add, all decisions are those of the in-memory window on the times the calls began, and set and queue trim alike at every later time |
| RedisRateLimit.SerialDecisionsAgreeIff | app/core/ratelimit.py:134-192 | in every run with one call at a time the two limiters decide alike if and only if the limit is at least one |
| RedisRateLimit.ConcurrentBound | app/core/ratelimit.py:163-192 | with n calls between count and add the set never exceeds limit + n - 1, and key expiry loses no hit still in the window |
| RedisRateLimit.KeyLivesOneSecondMore | app/core/ratelimit.py:163-192 | a stored key outlives the window by a second and is then gone |
| RedisRateLimit.BoundIsReached | app/core/ratelimit.py:163-192 | for every limit and n some interleaving reaches limit + n - 1 |
| Pagination.PageShows | app/db/repository.py:29-52 | a page holds, newest first, as many rows behind the cursor as asked for or as there are, and a next cursor exactly if there are more; refused only for a bad limit or cursor |
| Pagination.OffsetPageSays | app/db/repository.py:55-75 | an offset page is refused exactly for bad numbers or beyond 10000 rows, and knows its number and, if asked, the total |
| Pagination.ScanUnderChange | app/db/repository.py:29-52 | whatever changes between pages, no row returns twice, a row that matches throughout returns exactly once, and none is invented |
| Pagination.ScanDescends | app/db/repository.py:29-52 | the pages together strictly descend by (created_at, id) |
| Pagination.ScanCovers | app/db/repository.py:29-52 | a row matching at every page read is returned |
| Pagination.FixedScanIsTheSort | app/db/repository.py:29-52 | on a fixed table the scan terminates and is the sorted table |
| Pagination.KeysetAgreesWithOffset | app/db/repository.py:29-75 | each keyset page is the offset page of the same number, up to the offset cap |
| Pagination.PageIsComplete | app/db/repository.py:36-52 | a page misses no row between its cursor and the next one |
| RowOrders.SortIsUnique | app/db/repository.py:44 | under any of the orders in which pages are listed, given rows have one sorted list |
| PreorderedPaging.PreorderedPagingIff | app/db/repository.py:29-52 | whatever order a caller put first, following the cursors of a fixed table returns each row exactly once if and only if every page with a successor ends where the cursor filter splits that order |
| PreorderedPaging.PlainPagingIsClean | app/db/repository.py:29-52 | without a prior order that always holds |
| PreorderedPaging.TimetablePagingIff | app/modules/timetables/repository.py:38-54 | each timetable comes back exactly once if and only if no page with a successor ends on a row that shares its timestamp |
| PreorderedPaging.TimetablePagingLosesRow | app/modules/timetables/repository.py:38-54 | of two timetables created together, one per page, the second never comes back |
| PreorderedPaging.PeriodPagingIff | app/modules/timetables/repository.py:174-187 | each period comes back exactly once if and only if, at the end of every page with a successor, those listed before are newer and those after older |
| PreorderedPaging.PeriodPagingRepeatsAndLoses | app/modules/timetables/repository.py:174-187 | of three periods created in listing order, two per page, the first comes back twice and the third never |
| Slots.SlotService.CreateSlot | app/modules/timetables/service.py:339-425 | the checks of a new slot in order, and the slot |
| Slots.SlotService.EditSlot | app/modules/timetables/service.py:428-484 | the checks an update makes and the fields it changes |
| Slots.SlotService.CancelSlot | app/modules/timetables/service.py:487-506 | a cancelled slot ends today |
| Slots.CreateSucceedsIff | app/modules/timetables/service.py:339-410 | a slot is created exactly if no ACTIVE slot of its teacher or cohort has its hour on its dates, none of the cohort starts that hour that day, and period, teacher and subject are the school's |
| Slots.CreateLeaves | app/modules/timetables/service.py:402-410 | it adds one ACTIVE slot with the data sent |
| Slots.UpdateSucceedsIff | app/modules/timetables/service.py:428-470 | an update needs the version and, on the dates it asks for, the hour free of other slots of the cohort, and of the teacher if it names one |
| Slots.UpdateLeaves | app/modules/timetables/service.py:470-484 | exactly the fields sent change, of that slot alone |
| Slots.CancelFrees | app/modules/timetables/service.py:487-506 | a cancelled slot is CANCELLED, ends today and holds no date; no other slot changes |
| Slots.CancelledIsNotFound | app/modules/timetables/repository.py:268-329 | neither check finds a cancelled slot any more |
| Slots.CancelledHourIsFree | app/modules/timetables/service.py:339-506 | so a create for its hour succeeds if nothing else is in the way and it does not start on the same day for the same cohort |
| Slots.CreatedHourIsTaken | app/modules/timetables/service.py:339-410 | until then a create for the hour on a common date fails |
| Slots.OverlapIsSharedDate | app/modules/timetables/repository.py:268-329 | the overlap test finds exactly the slots that share a date, when neither is empty |
| Slots.CohortsAreNeverDoubleBooked | app/modules/timetables/service.py:339-506 | in every serial run no cohort has two ACTIVE slots on one date, day and period |
| Slots.TeachersAreNotDoubleBookedIfGuarded | app/modules/timetables/service.py:339-506 | the same for teachers when each update carries the teacher or gains no date |
| Slots.UncheckedUpdateIsSafeIff | app/modules/timetables/service.py:447-457 | an update without a teacher is safe on every table if and only if it gains no date |
| Slots.ExtensionDoubleBooks | app/modules/timetables/service.py:447-457 | a run from empty tables in which such an update books a teacher twice |
| Slots.OverlappingCreatesAreSafeIff | app/modules/timetables/service.py:339-425 | two creates whose checks both come first leave nobody booked twice if and only if they do not book the same one on a common date, or are for one cohort, hour and start |
| Slots.SlotsHaveNoTimetable | app/modules/timetables/service.py:339-506 | no request puts a slot into a timetable |
| Timetables.GroupSlots | app/modules/timetables/repository.py:81-85 | the grouping loop yields each key once, in first-seen order, with its slots in order |
| Timetables.FindConflicts | app/modules/timetables/repository.py:57-131 | teacher conflicts, then cohort conflicts, in key order |
| Timetables.NoConflictsIff | app/modules/timetables/repository.py:79-131 | the list is empty exactly if no two slots share a (teacher, day, period) or a (cohort, day, period) |
| Timetables.ConflictReportedIff | app/modules/timetables/repository.py:79-131 | a key is reported, with all its sections, exactly if two slots share it |
| Timetables.ConflictListsCohorts | app/modules/timetables/repository.py:86-131 | a conflict lists the cohorts of exactly the slots that share its key, at least two, in their order |
| Timetables.OneConflictPerKey | app/modules/timetables/repository.py:79-131 | no key is reported twice |
| Timetables.CleanReportIsSound | app/modules/timetables/repository.py:57-131 | no conflicts means nobody is booked twice on any date |
| Timetables.ReportIsFalseIff | app/modules/timetables/repository.py:57-131 | nobody is booked twice on any date if and only if no pair that clashes is effective on a common date, whatever is reported |
| Timetables.ReportIgnoresDates | app/modules/timetables/repository.py:57-131 | slots of one teacher that never meet are reported all the same |
| Timetables.TimetableService.CreateTimetable | app/modules/timetables/service.py:56-80 | a new timetable is a DRAFT |
| Timetables.TimetableService.UpdateTimetable | app/modules/timetables/service.py:83-118 | only drafts of the version sent are renamed |
| Timetables.TimetableService.PublishedForYear | app/modules/timetables/repository.py:134-145 | some other published timetable of the school and year, if there is one |
| Timetables.TimetableService.PublishTimetable | app/modules/timetables/service.py:121-182 | conflicts block; otherwise the other published one is archived first |
| Timetables.TimetableService.ArchiveTimetable | app/modules/timetables/service.py:185-219 | anything not yet archived can be archived |
| Timetables.RequestsSucceedIff | app/modules/timetables/service.py:56-219 | when each request succeeds: drafts are renamed and published, whatever is not archived is archived, in the version sent |
| Timetables.CreateLeaves | app/modules/timetables/service.py:56-80 | one DRAFT row with the year and name sent |
| Timetables.RenameAndArchiveLeave | app/modules/timetables/service.py:83-219 | a rename changes the name, an archive the status and its date, of one row |
| Timetables.PublishLeaves | app/modules/timetables/service.py:121-182 | conflicts change nothing; otherwise the row is PUBLISHED, the one before it ARCHIVED, and no other changes, least of all one of another school or year |
| Timetables.AtMostOnePublished | app/modules/timetables/service.py:121-219 | in every serial run a school has at most one PUBLISHED timetable per year |
| Timetables.PublishedIsUnique | app/modules/timetables/service.py:121-219 | stated on the rows alone: two PUBLISHED ones of one school and year are the same |
| Timetables.StatusMovesForward | app/modules/timetables/service.py:56-219 | status only moves from DRAFT through PUBLISHED to ARCHIVED |
| Timetables.OverlappingPublishesIff | app/modules/timetables/service.py:121-182 | two overlapping publishes for one school and year leave two PUBLISHED if and only if none was before; otherwise the second fails on a version |
| Timetables.AlonePublishIsApply | app/modules/timetables/service.py:121-182 | a publish whose checks and writes nothing separates is the service's method |
| Timetables.PublishGateSeesNothing | app/modules/timetables/service.py:140-144 | after any run of slot requests the query behind the gate returns no slot |
| BulkImport.ValidateStudentRow | app/modules/bulk_import/csv_helpers.py:47-77 | the errors of a student row, or the exception on a null status cell |
| BulkImport.ValidateTeacherRow | app/modules/bulk_import/csv_helpers.py:80-106 | the errors of a teacher row, or the exception on a null cell |
| BulkImport.ValidIffNoErrors | app/modules/bulk_import/csv_helpers.py:47-106 | a row has no errors exactly if its required cells are filled and its dates and status are valid |
| BulkImport.ImportService.FindPerson | app/modules/bulk_import/service.py:136-155 | a live person of the organization with the row's email, else with its phone, else nobody |
| BulkImport.ImportService.InsertRow | app/modules/bulk_import/service.py:127-203 | a row is imported whole, or its savepoint restores the tables |
| BulkImport.ImportService.StartImport | app/modules/bulk_import/service.py:32-221 | the job and the tables after an import, in every branch |
| BulkImport.CellIsReportedIff | app/modules/bulk_import/csv_helpers.py:47-106 | exactly the missing, undated or unknown cells of a row are reported, under their columns and the row's number |
| BulkImport.ValidIffNothingWrong | app/modules/bulk_import/csv_helpers.py:47-106 | a row is imported only if there is none |
| BulkImport.CrashesIff | app/modules/bulk_import/csv_helpers.py:47-106 | a validator raises exactly on a null in a column that it strips |
| BulkImport.FindsIff | app/modules/bulk_import/service.py:136-155 | the person found is live, of the organization and has the row's email; only without one, its phone; and nobody exactly if there is neither |
| BulkImport.SuccessfulRowLeaves | app/modules/bulk_import/service.py:127-199 | a row that succeeds adds exactly one record, as the row says and ACTIVE if it says nothing, for the person found or for the one person added, who has its name, email and phone |
| BulkImport.RowSucceedsIff | app/modules/bulk_import/service.py:118-203 | without an outside fault a row succeeds exactly if nothing is wrong with it and no record of the school has its person or number |
| BulkImport.RecordsHavePersons | app/modules/bulk_import/service.py:112-203 | if every record's person exists before an import, every record's person exists after it |
| BulkImport.RowsAreConserved | app/modules/bulk_import/service.py:112-203 | every row is counted once, as many records appear as rows succeed, every new person belongs to a new record, nothing old changes |
| BulkImport.FailedRowsLeaveNoTrace | app/modules/bulk_import/service.py:127-203 | the tables end as if the file had held only the rows that succeeded |
| BulkImport.ErrorsNameTheFailedRows | app/modules/bulk_import/service.py:84-203 | the rows named in the error list are exactly the rows that failed |
| BulkImport.ImportKeepsNoTwins | app/modules/bulk_import/service.py:136-163 | live persons stay unique by email and by phone in each organization |
| BulkImport.StatusSaysHowMany | app/modules/bulk_import/service.py:205-221 | COMPLETED, PARTIAL and FAILED mean all, some and no rows succeeded |
| BulkImport.ImportRecordedIff | app/modules/bulk_import/service.py:84-221 | success + failed = processed = total is recorded if and only if no row is cut short before a stripped column; otherwise nothing is imported |
| Grants.CollectGrants | app/modules/iam/principal.py:180-208 | the nested loops compute the fold and the set of role codes |
| Grants.FoldIsMaximum | app/modules/iam/principal.py:180-208 | a permission is held exactly if granted, at the strongest scope over all unexpired links to unarchived roles, overrides included |
| Grants.OrderDoesNotMatter | app/modules/iam/principal.py:180-208 | reordering memberships, links or permissions changes nothing |
| Grants.MoreGrantsNeverLower | app/modules/iam/principal.py:180-208 | more grants take no permission away and lower no scope |
| Grants.ResolvePrincipal | app/modules/iam/principal.py:58-102 | refused exactly for a school out of reach; otherwise every permission is held at the strongest scope granted by a membership in force of the active school or the organization |
| Grants.HeldIff | app/modules/iam/principal.py:58-208 | a principal holds a permission exactly if an active membership within its dates, of the active school or the organization, gives it by an unexpired link to an unarchived role; at the strongest scope, where a permission's own scope goes before the link's and that before the role's |
| Grants.RoleHeldIff | app/modules/iam/principal.py:180-196 | the same for role codes |
| Grants.AccessibleIff | app/modules/iam/principal.py:139-159 | within reach are the schools of the memberships in force and, with one of the organization, its open schools that are not deleted |
| Grants.OutOfForceChangesNothing | app/modules/iam/principal.py:114-136 | a membership not yet begun, already over or not active changes nothing of what is resolved |
| Grants.CountsOnItsDays | app/modules/iam/principal.py:133-136 | a membership counts on every day from its first to its last, both included |
| Grants.FirstDefaultIsActive | app/modules/iam/principal.py:162-177 | without a request the first default in force decides |
| Grants.WithoutDefaultTheOnlySchool | app/modules/iam/principal.py:162-177 | and without a default the only school within reach, if it is the only one |
| Grants.ActiveSchoolIsAccessible | app/modules/iam/principal.py:162-177 | the request is refused exactly for an inaccessible school; otherwise the active school is accessible and the one asked for |
| Grants.NoGrantFromAnotherSchool | app/modules/iam/principal.py:85-88 | every permission held comes from a membership of the active school or of the whole organization |
| Grants.AddedMembershipNeverLowers | app/modules/iam/principal.py:85-88 | with the active school fixed a further membership lowers no scope |
| Grants.AddedMembershipKeepsSchoolIff | app/modules/iam/principal.py:139-177 | when no school is asked for, exactly when a further membership leaves the active school as it is |
| Grants.AddedMembershipKeepsRequest | app/modules/iam/principal.py:162-177 | when a school is asked for that is within reach, a further membership leaves it the active school |
| Grants.SecondSchoolDropsTheActiveOne | app/modules/iam/principal.py:162-177 | a second school without a default leaves no active school, and none of the schools' grants |
| Assignments.AssignmentService.CheckConflict | app/modules/teachers/repository.py:122-157 | whether an ACTIVE assignment already fills the position, by role |
| Assignments.AssignmentService.CreateAssignment | app/modules/teachers/service.py:180-255 | the lookups, the check and the flush, whose index error becomes a conflict |
| Assignments.AssignmentService.Flush | alembic/versions/0026_assignment_conflict_indexes.py:17-31 | a stale row or an index entry already taken rejects the write |
| Assignments.AssignmentService.UpdateAssignment | app/modules/teachers/service.py:258-283 | an update checks the version and nothing else |
| Assignments.AssignmentService.EndAssignment | app/modules/teachers/service.py:286-311 | an ended assignment ends today |
| Assignments.CreateServed | app/modules/teachers/service.py:180-255 | a create succeeds exactly for a teacher, cohort and year of the school and a position nobody fills, and adds one ACTIVE row with the data sent |
| Assignments.LateFlushIsAnswered | app/modules/teachers/service.py:211-255 | a late change is stale, a create beaten to its index entry an assignment conflict |
| Assignments.UpdateServed | app/modules/teachers/service.py:258-283 | an update of the version sent changes end and status as sent, and is refused only for an index entry another row has |
| Assignments.EndServed | app/modules/teachers/service.py:286-311 | an end of the version sent leaves the row ENDED today |
| Assignments.EndFreesPosition | app/modules/teachers/service.py:180-311 | and its position free for a create |
| Assignments.AtMostOneTeacher | app/modules/teachers/service.py:180-311 | in every interleaving at most one ACTIVE class teacher per school, cohort and year, and one subject teacher per non-null subject |
| Assignments.CommitsBuildOnWhatTheyRead | app/modules/teachers/service.py:180-311 | in every interleaving a commit over a row is by a request that read just that version of it, which goes up by one: no update is lost |
| Assignments.AbortLeavesNothing | app/db/session.py:44-47 | an abort leaves the rows and the other requests as they were |
| Assignments.OnlyRivalsHoldUp | alembic/versions/0026_assignment_conflict_indexes.py:17-31 | a flush does not wait for requests that write other rows and neither take nor give up its index entry |
| Assignments.FlushWaitsForTheEnd | alembic/versions/0026_assignment_conflict_indexes.py:17-31 | a flush held up by a request that gives the position up goes through once that commits |
| Assignments.RunKeepsInv | alembic/versions/0026_assignment_conflict_indexes.py:17-31 | committed rows repeat no index key and written rows can be committed in any order |
| Assignments.AloneIsApply | app/modules/teachers/service.py:180-311 | left alone, the phases of a request amount to the service's method |
| Assignments.RaceIsLostIff | app/modules/teachers/service.py:211-244 | for any two concurrent creates, from any table on which both checks pass and under every schedule of flushes and commits, both rows are there in the end if and only if they do not go for one index entry; otherwise exactly one is |
| Assignments.RaceFillsSeatTwiceIff | app/modules/teachers/service.py:211-244 | two creates for one position both fill it if and only if it is a subject position without a subject |
| Assignments.UpdateIsSafeIff | app/modules/teachers/service.py:258-283 | an update keeps every position single on every table if and only if it revives no subject assignment without a subject |
| Assignments.SerialRunsKeepSeats | app/modules/teachers/service.py:180-311 | one request at a time and without such revivals, null subjects are single too |
| Ulid.GenUlid | app/db/types.py:18-27 | the digit loop yields the 26-character text of timestamp and random bits |
| Ulid.DecodeEncode | app/db/types.py:15-27 | decoding undoes encoding |
| Ulid.EncodeDecode | app/db/types.py:15-27 | encoding undoes decoding |
| Ulid.OrderPreserved | app/db/types.py:15-27 | string order is numeric order |
| Ulid.IdRoundTrip | app/db/types.py:18-27 | an id has 26 alphabet characters and carries its timestamp and random bits |
| Ulid.LaterIdsSortLater | app/db/types.py:18-27 | ids of two milliseconds sort by time whatever their random bits if and only if their 48-bit timestamps do |
| Ulid.SymbolsAreCrockford | app/db/types.py:15 | the characters are the digits and the capitals except I, L, O and U |
| Ulid.BindStoresCapitals | app/db/types.py:36-42 | an ASCII text of 26 characters is stored with its small letters as capitals |
| Ulid.BindKeepsUlids | app/db/types.py:36-42 | whatever upper-casing does outside ASCII, binding an ASCII text rejects exactly the wrong lengths and is idempotent, and a ULID is left as it is |

## Left out

- Recipient queries of the two handlers: a pass is given its recipients, and results hold for any list.
- Other channels than in-app, the leader lock and the poll loop: best effort by design, row locks carry the argument.
- Event fields last_error, locked_at and payload, notification title and body, audit rows, login attempts: written, never read back by these protocols.
- Outbox.BackoffShape: about the attempts whose delay can be computed; the delay in seconds is an integer here, a float in the code.
- Floating-point time in the limiters and the lockout: modelled as real numbers, rounding is not the point.
- Sessions.FamiliesAreChains: about requests served one at a time; a refresh takes no row lock, and Sessions.OverlappingRefreshForksIff says what one that overlaps other requests does.
- Sessions.ReuseEndsFamily: about requests served one at a time, as Sessions.NewPasswordEndsSessions is; what a refresh in flight does to both is Sessions.RefreshOutlivesReuseIff and Sessions.RefreshOutlivesNewPasswordIff.
- Attendance.SubmittedFreezesRecords: about requests served one at a time; Attendance.LateBulkUpdateKeepsIff is the other case.
- Slots.CohortsAreNeverDoubleBooked: about requests served one at a time, as for teachers; Slots.OverlappingCreatesAreSafeIff is about two creates that overlap.
- RedisRateLimit.ConcurrentBound: assumes one shared clock and a window that is not negative; the fallback to the in-memory window on a Redis error is not modelled.
- RedisRateLimit.DistributedSlidingWindowLimiter.AllowAsync: each key is its own sorted set, one key is modelled; the oldest hit behind a refusal is read with the count.
- PreorderedPaging.PreorderedPagingIff: about a table that does not change while it is paged.
- Cursor text, CSV text and JSON: a cursor is the pair it encodes, a file is its list of rows.
- Argon2, JWT, SHA-256 and token generation: a password stands for its hash, a row id for the digest that finds it, fresh ids are distinct.
- Slots.OverlapIsSharedDate: an open end is no end date, as the code's comment says; how SQLAlchemy renders a comparison with None is not part of this model.
- Slots.SlotService.CreateSlot: foreign keys to cohorts are assumed to hold.
- Timetables.AtMostOnePublished: about publishes served one at a time; Timetables.OverlappingPublishesIff says what two that overlap do.
- The interim PROCESSING record of an import job, messages of its errors, exports: no invariant depends on them.
- BulkImport.ImportService.InsertRow: length limits of the schemas and database failures are an arbitrary fault before the person or before the record.
- Grants.FoldIsMaximum: DataScope.strength is modelled by its order, which is all the code uses; platform administrators have their own path, not modelled.
- Waiting transactions in Assignments: a blocked flush is a step that changes nothing, deadlock and fairness are not modelled.
- Plain create, update and delete modules, routers, schemas, middleware, search, documents, reports: a version check and a field copy, only easy members.
