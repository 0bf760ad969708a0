# Ganek hiring backend: a verified model

This project models the parts of the Ganek backend whose correctness depends on what other requests do, or on two
pieces of code agreeing with each other, and proves the properties its comments and documentation promise. Where a
promise does not hold of the code as written the model follows the code: the section "Findings" names, for each such
promise, the lemma with a run or an input that breaks it and the lemma that says exactly when it holds.

| modules | part of the backend |
|---|---|
| `Slots`, `Booking`, `BookingSteps`, `LostWrites`, `Zones`, `Sequencing`, `Cancellation`, `SampleRuns`, `BookingService` | interview slots; the book, reschedule and cancel requests over one table, with the per-interviewer lock |
| `Pipeline`, `Stages`, `StaleMoves` | the stage machine, its retention clock, reasons and trail, for moves one after the other and for moves that overlap |
| `Outbox`, `MailSteps`, `Withdrawals`, `Delivery`, `OutboxService` | the email outbox, its delivery jobs and sweeps, held rejections and the withdrawal that races them |
| `Text`, `Calendar`, `CalendarMessage`, `Attendees` | iCalendar escaping, folding and rendering, with the reader that undoes them |
| `LikePattern` | LIKE escaping of the applicant search and the privacy scrub |
| `Placeholders`, `Templates`, `Paragraphs`, `ParagraphCuts`, `Payload` | the placeholder engine, template validation and rendering, the paragraphs of both outputs, the stored mail arguments |
| `Erasure`, `ErasureService` | erasing a person from the database and the object storage, the purge and the orphan sweep |
| `Board` | the open roles board and the filter it links to |
| `RateLimit`, `AccessTrail` | the fixed-window counters and the collapsed access trail |

Two shapes recur. A module with a protocol (`Booking`, `Stages`, `StaleMoves`, `Outbox`, `Erasure`) has a `State`, an `Event` for
each stretch of code between two points where another transaction can come in, `Enabled` for what locks and lookups
require, and `Next` for what the stretch does; its theorems range over every run. The matching class, where there is one, has the tables as
fields and changes them in place, each method being proved to be one event, so any interleaving of calls is a run. What
each event does to the tables is also stated apart from its definition, field by field and with the source's numbers written
out (`BookingSteps`, `MailSteps`, `Withdrawals`, and the lemmas on the steps of the other modules). Code
that only computes is a function, with a method beside it where the original loops.

## Findings

| what does not hold in general | a run or input that breaks it | exactly when it holds |
|---|---|---|
| A reschedule moves the interview. | `LostWrites.RescheduleStays`: it asks for the time its page still shows, while the interview was moved since | `BookingSteps.WriteMoves`: unless the flush leaves unchanged columns out and the copy, but not the row, shows that time |
| A booking starts the invites at SEQUENCE 0. | `LostWrites.BookingKeepsTheNumber`: the interview was booked, moved and cancelled since the invitation was loaded | `BookingSteps.WriteMoves`: the row's number is 0, or the flush writes every column |
| A cancelled interview stays cancelled. | `Cancellation.CancelledCanComeBack`: a booking request that loaded it first | `Cancellation.CancelledStaysExactly`: no booking request has it in hand that got past its offer or can still be offered its start |
| A cancel notice outranks every invite. | `Sequencing.CancelNoticeCanTie`: a reschedule commits after the cancel loaded the row | `Sequencing.CancelNoticeIsNewest`: no reschedule did |
| A slot on offer is free when it is computed. | `Zones.ZoneChangeOffersTaken`: the interviewer moved one hour west, and a booking now runs past midnight | `Booking.OfferedExactly`, `Booking.RecheckRefusesExactly`: no booking from before the first midnight runs into it; never the case within one zone (`Zones.OneZoneOffersAreFree`) |
| Moves of one application leave an unbroken trail and a clean row. | `StaleMoves.CrossingMoves`: one page rejects while another advances | `StaleMoves.TrailUnderInterleaving`, `StaleMoves.SoundUnderInterleaving`: no write is against a stale copy, or leaves behind what the copy did not show |
| A stage request leaves the application in the stage it asks for. | `StaleMoves.MoveIsSkipped`: it asks for the stage its page still shows | `StaleMoves.WriteMovesExactly`: the copy it loaded was in another stage, or the row is there already |
| A withdrawal overwrites no decision the candidate has been told. | `Withdrawals.LateWithdrawalOverwrites`: rejected and mailed between the withdrawal's load and its commit | `Withdrawals.DecisionsTheCandidateKnowsStay`: the decision was there when the withdrawal loaded the application |
| A mail the worker released first defeats a withdrawal. | `Delivery.ReleasedFirstCanStillLose`: its dispatch fails, and the cancel takes the waiting retry | `Outbox.WithdrawalWinsOrLeavesNoTrace`: the withdrawal goes through if and only if a mail it found is still held |
| An erasure leaves no object behind. | `Erasure.LateApplicationIsStranded`, `Erasure.SecondUploadIsStranded`: the person applies, or sends the upload form again, in between | `Erasure.StrandedExactly`; never while neither happens (`Erasure.CommittedErasureLeavesNothing`); swept the day after (`Erasure.StrandedIsSwept`) |
| The orphan sweep takes no object in use. | `Erasure.LateUseIsSwept`: a day-old upload is used between the sweep's looks | `Erasure.SweepSparesWhatItRead`: only from applications that came in after it read the rows |
| A key passes at most its limit. | `RateLimit.TwoLooksOverrun`: two requests look before either is counted, as with the emails key | `RateLimit.OverrunExactly`: the first guard too many comes only once the limit is counted, as when each guard that passes is counted before the next (`RateLimit.SerialKeepsTheLimit`) |
| A client that waits as told meets another window. | `RateLimit.WaitingAsToldIsTooShort`: half a second into a minute | `RateLimit.RetryAfterReachesNextWindow` |
| The people on a calendar message can be read back. | `Attendees.CommaNameIsLost`: a comma in the name, which is escaped where it would have to be quoted | `Attendees.PeopleComeBackExactly` |
| The HTML of a mail has the paragraphs of its text. | `Paragraphs.DiffersAlone`: an empty or padded job title, standing alone | `Paragraphs.ParagraphsAgreeExactly` |
| The privacy scrub takes the person's tasks. | `LikePattern.ScrubNeedsTheSameAddress`: an address that changed after the request, for every name and job title without an at sign | `LikePattern.RequestIsScrubbedExactly`: the address is the same, or stands in parentheses in the name or the job title |

Three more conditions concern inputs no caller passes today. Calendar fields that are written unescaped must hold no CRLF
(`CalendarMessage.MessageParsesBack`, `CalendarMessage.BrokenUidIsLost`). No sender of a mail may take an object whose one
key is the datetime tag (`Payload.RoundTripExactly`, `Payload.TaggedArgumentIsLost`). A validated template of a quiz mail
renders if and only if the sender passes an expiry (`Templates.ValidatedTemplatesRender`, `Templates.QuizNeedsExpiry`).

## Model

| member | source | states |
|---|---|---|
| `Booking.NeverDoubleBooked` | backend/app/services/interviews.py:364-492 | In every interleaving of create, book, reschedule and cancel requests, two distinct booked interviews of one interviewer never overlap. |
| `Booking.LookbackFindsOverlap` | backend/app/services/interviews.py:364-377 | Every booking that overlaps the chosen window is among those the 60-minute look-back reads, given durations of at most 60 minutes. |
| `Booking.LookbackIsExact` | backend/app/services/interviews.py:33-33 | The look-back sees every overlap with every window if and only if no booked interview lasts longer than 60 minutes. |
| `Booking.UnbookedIsFree` | backend/app/services/interviews.py:364-377 | A chosen window that passes the locked re-check overlaps no other booking of the interviewer. |
| `Booking.RememberedRowsAreSeen` | backend/app/services/interviews.py:167-192 | The same for a session that remembers other interviews, as long as none of those moved. |
| `Booking.RememberedMoveIsMissed` | backend/app/services/interviews.py:167-192 | A concrete table and memory: a remembered interview moved onto the chosen time since is missed by the re-check. |
| `Booking.OfferedExactly` | backend/app/services/interviews.py:214-256 | An offered slot is a slot of the empty calendar whose only overlapping bookings, if any, began before the first midnight; and conversely. |
| `Booking.RecheckRefusesExactly` | backend/app/services/interviews.py:364-390 | With nobody else moving, the re-check refuses an offered slot if and only if a booking from before the first midnight runs into it. |
| `Booking.RunKeepsInv` | backend/app/services/interviews.py:409-511 | Every run keeps durations in bounds, locks with their holders, cleared windows free and bookings apart. |
| `Booking.OneActiveInterview` | backend/app/models/interview.py:33-40 | In every run an application has at most one interview that is not cancelled, whatever is cancelled, created anew and brought back. |
| `BookingSteps.WriteMoves` | backend/app/services/interviews.py:409-492 | In every run a write the index lets through leaves the interview at the start asked for, a booking booked, with the SEQUENCE one higher or 0; the start of a reschedule stays if and only if its copy showed it already while the row had moved, the number of a booking if and only if the flush skips a column that was 0 when loaded; every other interview, request and lock stays. |
| `BookingSteps.WriteWrites` | backend/app/services/interviews.py:409-492 | The same of every state the protocol's invariant admits, and so of the methods that write. |
| `LostWrites.RescheduleStays` | backend/app/services/interviews.py:488-492 | A concrete run in which a reschedule to the time its page shows is committed, numbered and logged, and the interview stays where somebody else moved it. |
| `LostWrites.BookingKeepsTheNumber` | backend/app/services/interviews.py:435-442 | A concrete run in which a booking from an old page leaves SEQUENCE 1 of a cancelled calendar in place of 0. |
| `BookingSteps.CancelCancels` | backend/app/services/interviews.py:314-332 | A cancel leaves the interview cancelled with its start and number, and no other interview changed; one that loaded it cancelled changes nothing. |
| `BookingSteps.RefreshReads` | backend/app/services/interviews.py:409-487 | Under the lock a booking goes on unless the interview is booked, a reschedule only if it is; the copy takes over the status and, for a reschedule, the number. |
| `BookingSteps.OfferChecks` | backend/app/services/interviews.py:380-390 | The first check lets exactly the slots of the empty calendar through that overlap no booking which starts in the fourteen days from the next midnight. |
| `BookingSteps.RecheckChecks` | backend/app/services/interviews.py:364-377 | The check under the lock lets a start through if and only if it overlaps no booking of the interviewer at all. |
| `BookingSteps.OtherSteps` | backend/app/services/interviews.py:274-361 | A new interview is pending, without a start, numbered 0; a request holds a copy of the row if its status is the one its route asks for; the lock goes to who takes it; giving up leaves the tables alone. |
| `Zones.OneZoneOffersAreFree` | backend/app/services/interviews.py:214-256 | In every run in which an interviewer's slots were all computed in one zone, a slot on offer passes the re-check against the bookings of that moment. |
| `Zones.SlotEndsBeforeMidnight` | backend/app/services/interviews.py:221-239 | No slot runs past the local midnight of its day. |
| `Zones.ZoneChangeOffersTaken` | backend/app/services/interviews.py:214-256 | A concrete run and a move of one hour west after which a start in the middle of a booking is on offer, and only the re-check refuses it. |
| `Slots.GenerateSlots` | backend/app/services/interviews.py:214-240 | The result is strictly increasing and holds exactly the grid starts of the horizon inside that weekday's hours that fit, respect the lead and overlap no busy window. |
| `Slots.SlotMeans` | backend/app/services/interviews.py:214-240 | What a slot is in figures: one to fourteen local days ahead, at least an hour, on the half-hour grid from opening time, over by closing time, clear of every booking. |
| `Slots.SlotsOfDay` | backend/app/services/interviews.py:221-239 | One day's cursor walk extends the exact slots before a midnight to the exact slots before the next. |
| `Slots.SummarizeAvailability` | backend/app/services/interviews.py:62-79 | The runs read back as every day's own window, and no two neighbouring runs could be one. |
| `Sequencing.ReschedulesAreConsecutive` | backend/app/services/interviews.py:473-492 | Between two commits of one interview with no booking after the first, SEQUENCE rises by exactly the number of commits, in any interleaving. |
| `Sequencing.CancelNoticeIsNewest` | backend/app/services/interviews.py:117-131 | The notice's SEQUENCE is above every invite of the current booking if and only if no reschedule was committed since the cancel loaded the row. |
| `Sequencing.CancelNoticeCanTie` | backend/app/api/public.py:1130-1146 | A concrete run in which a reschedule commits after the cancel's load and takes the number the notice carries. |
| `Sequencing.NumbersCountCommits` | backend/app/services/interviews.py:409-492 | From any point of the log with no booking behind it, the last SEQUENCE of an interview has risen by the number of its commits since. |
| `Sequencing.NoticeOutranksLog` | backend/app/services/interviews.py:117-131 | A notice built from the last committed number is above all numbers of the current booking. |
| `Cancellation.CancelledStaysCancelled` | backend/app/services/interviews.py:495-511 | A cancelled interview that no booking request has in hand stays cancelled in every run. |
| `Cancellation.CancelledStaysExactly` | backend/app/services/interviews.py:409-442 | From every state and moment a cancelled interview stays cancelled in all continuations, with any schedules and zones saved on the way, if and only if no booking request has it in hand that got past its offer or can still be offered its start. |
| `Cancellation.OnlyABookingRevives` | backend/app/services/interviews.py:429-439 | The one step that changes a cancelled interview is the write of a booking of it while the application has no other interview under way. |
| `Cancellation.CancelledCanComeBack` | backend/app/services/interviews.py:409-442 | A concrete run in which a stale booking request brings a cancelled interview back to booked. |
| `BookingService.BookingDatabase.Leave` | backend/app/services/interviews.py:349-361 | The end of a request's transaction drops its session and its lock and nothing else. |
| `BookingService.BookingDatabase.CreateInterview` | backend/app/services/interviews.py:274-311 | A pending interview joins the table if and only if the application has none under way; otherwise the request is refused. |
| `BookingService.BookingDatabase.LoadInterview` | backend/app/api/public.py:1087-1120 | Which request is refused for which status, and the copy the others go on with. |
| `BookingService.BookingDatabase.RequireAvailable` | backend/app/services/interviews.py:380-390 | The request goes on if and only if its start is one of the live slots. |
| `BookingService.BookingDatabase.LockInterviewer` | backend/app/services/interviews.py:349-361 | The interviewer's lock goes to the request when nobody holds it. |
| `BookingService.BookingDatabase.RefreshUnderLock` | backend/app/services/interviews.py:409-492 | Under the lock the status, and for a reschedule the SEQUENCE, are read again and the status re-checked. |
| `BookingService.BookingDatabase.RequireUnbooked` | backend/app/services/interviews.py:364-377 | The request goes on if and only if no window found by the look-back overlaps its own. |
| `BookingService.BookingDatabase.WriteBooking` | backend/app/services/interviews.py:409-442 | The row becomes booked at the start and is logged, with SEQUENCE 0 unless the flush skips a column that was 0 when loaded, and unless the application has another interview under way; the lock is released; no other row changes. |
| `BookingService.BookingDatabase.WriteReschedule` | backend/app/services/interviews.py:473-492 | The row is at the start asked for, unless the copy showed that start while the row had moved and unchanged columns are left out; SEQUENCE is the refreshed one plus one and is logged, the status stays, the lock is released and no other row changes. |
| `BookingService.BookingDatabase.CancelInterview` | backend/app/services/interviews.py:314-332 | The row becomes cancelled without a lock or a re-check, and keeps its start and number; nothing changes if the request loaded it cancelled. |
| `Stages.TrailTellsTheStage` | backend/app/services/applications.py:30-66 | Over every serial run the replayed trail is an unbroken chain from "new" to the current stage, the retention clock runs exactly in terminal stages from the move there, and reasons occur only in rejected or withdrawn. |
| `Stages.BulkMovesEachOnce` | backend/app/services/applications.py:610-670 | A bulk request moves each listed application once, skips those already there, withdrawn or unknown, and writes one entry for each that moved. |
| `Stages.SingleMoveMoves` | backend/app/services/applications.py:514-537 | A single move ends in the stage asked for, with clock, stamp, reason and note as the stage demands, one entry from the old stage, and everything else as before; or, already there, changes nothing. |
| `Stages.BulkRequestsMove` | backend/app/services/applications.py:610-735 | A bulk move, and a bulk rejection, do so for exactly the listed, known, not withdrawn applications that were elsewhere. |
| `Stages.SubmitAndWithdraw` | backend/app/api/public.py:782-825 | A submission starts at new with nothing decided; a withdrawal changes nothing for a hired application, or a rejected one whose mail is out, and moves any other. |
| `Stages.LatestRejection` | backend/app/services/scheduled_emails.py:137-155 | The latest trail entry into rejected is the last entry of a rejected application. |
| `Stages.HeldRejectionIsNotShown` | backend/app/api/public.py:747-752 | While the rejection is held the candidate sees the stage before it, which is never "rejected". |
| `Stages.OtherwiseTheStageIsShown` | backend/app/api/public.py:747-752 | With no mail held, or in any other stage, the candidate sees the stage as it is. |
| `Stages.WithoutAnEntryItIsScreening` | backend/app/services/scheduled_emails.py:153-155 | Screening is shown where the trail has no move of the application to rejected. |
| `Stages.RunKeepsInv` | backend/app/services/applications.py:44-66 | Every serial run of submit, move, bulk move, bulk reject and withdraw keeps each application in step with its trail. |
| `StaleMoves.TrailUnderInterleaving` | backend/app/services/applications.py:514-537 | Over every interleaving of single moves the trail ends in the stage, and is unbroken if and only if no write moved the application out of a stage it was no longer in. |
| `StaleMoves.SoundUnderInterleaving` | backend/app/services/applications.py:44-66 | Over every interleaving clock, reason and note are right all along if and only if each write clears only what its copy showed. |
| `StaleMoves.SoundExactly` | backend/app/services/applications.py:57-66 | When the flush of one move leaves a sound row, for any row and any copy. |
| `StaleMoves.WriteMovesExactly` | backend/app/services/applications.py:44-66 | A request ends in the stage it asks for if and only if its copy was in another one or the row is there already; then it stamps the row and adds one entry from the copy's stage, and otherwise, and to every other application, it does nothing. |
| `StaleMoves.MoveIsSkipped` | backend/app/api/applications.py:386-455 | A concrete run in which a request for "new" from an old page leaves the application in screening. |
| `StaleMoves.CrossingMoves` | backend/app/api/applications.py:386-455 | A concrete run of two overlapping moves that ends in "interviewing" with a rejection reason, a running clock and a broken trail. |
| `Stages.ApplicationTable.MoveStage` | backend/app/services/applications.py:44-66 | The moved application and the previous stage; a no-op move changes nothing. |
| `Stages.ApplicationTable.SetStageOf` | backend/app/services/applications.py:514-537 | The application is in the stage asked for, with one trail entry of the reason and note kept, or was there already; no other application or entry changes. |
| `Stages.ApplicationTable.BulkSetStageOf` | backend/app/services/applications.py:628-665 | Exactly the listed, not withdrawn applications that were elsewhere are moved, with one entry each, and are counted. |
| `Stages.ApplicationTable.WithdrawApplication` | backend/app/api/public.py:782-825 | The answer and the new state for every stage, held rejection or not; it is 200 if and only if the stage is withdrawn afterwards, which is one move with the reason "withdrew", or none if it was. |
| `Outbox.DeliveredAtMostOnce` | backend/app/worker.py:334-394 | In every run a row is dispatched successfully at most once and as its last dispatch, never before its send time, at most three times, with the attempt count equal to the dispatches; a cancelled, failed or suppressed row was never delivered. |
| `Outbox.OverIsOver` | backend/app/worker.py:343-349 | A row that is sent, failed, suppressed, cancelled or bounced is never dispatched again. |
| `Outbox.UnrejectedIsNeverMailed` | backend/app/worker.py:350-362 | After an un-reject, no delivery whose stage check comes later dispatches the held rejection. |
| `Outbox.WithdrawalWinsOrLeavesNoTrace` | backend/app/api/public.py:782-825 | A withdrawal from a held rejection goes through if and only if a mail it found is still held once it has the locks; then none of those mails was or will be delivered; otherwise nothing changed. |
| `Outbox.SettleExactly` | backend/app/services/scheduled_emails.py:69-102 | The locked last step of the withdrawal: every mail still held is out of play, or stages, mails and log stay. |
| `Outbox.DeliveredFirstMeansNoWithdrawal` | backend/app/api/public.py:815-822 | If the only mail found was delivered first, the withdrawal leaves the database as it was. |
| `Outbox.RunKeepsInv` | backend/app/worker.py:334-394 | Every step keeps each row in agreement with its dispatches and each working job on a deliverable row of its own. |
| `MailSteps.FinishConcludes` | backend/app/worker.py:363-394 | The end of a delivery, outcome by outcome: failed with "Email not configured", suppressed with its reason, sent, or queued again after the first and second error and failed after the third; attempts rise and the log grows exactly when the transport was called. |
| `MailSteps.CheckStageGuards` | backend/app/worker.py:350-362 | A held rejection whose application is not rejected is cancelled and its job ends; any other mail goes on unchanged. |
| `MailSteps.GrabAndQueue` | backend/app/worker.py:334-349 | A job takes up a queued row, or a scheduled one that is due, and no other; a new row is scheduled exactly with a send time, with no attempt behind it. |
| `MailSteps.StaffCancelCancels` | backend/app/api/applications.py:1282-1310 | A staff cancel leaves a scheduled mail cancelled and undelivered in every continuation, and touches no other mail, nor this one in any other status. |
| `MailSteps.UnrejectCancels` | backend/app/services/scheduled_emails.py:69-102 | The cancel behind an un-reject takes the held rejections it locked out of play in every continuation, and no other mail. |
| `MailSteps.ProviderMarks` | backend/app/services/suppression.py:28-35 | What the provider reports marks the row bounced or complained, and nothing else. |
| `Withdrawals.OpenLoads` | backend/app/api/public.py:782-784 | A withdrawal starts from the stage the application is in. |
| `Withdrawals.LookDecides` | backend/app/api/public.py:784-796 | The first look ends it for a hired or withdrawn application and for a rejected one with no scheduled mail, sends a rejected one with a scheduled mail on to cancel it, and any other on to move. |
| `Withdrawals.CollectFindsHeld` | backend/app/services/scheduled_emails.py:69-84 | The collection finds exactly the application's rejections that are scheduled, or released and waiting for a retry. |
| `Withdrawals.SettleWrites` | backend/app/api/public.py:797-825 | With nothing to cancel, the stage and nothing else; otherwise the stage and exactly the found mails still to go, or, if none is, nothing. |
| `Withdrawals.DecisionsTheCandidateKnowsStay` | backend/app/api/public.py:782-825 | In every run a withdrawal that loaded a hired or withdrawn application never changes its stage, and one that loaded a rejected one does so if and only if a mail it found is still to go, and cancels it. |
| `Withdrawals.LateWithdrawalOverwrites` | backend/app/api/public.py:782-825 | A concrete run in which a withdrawal that loaded an application in screening overwrites the rejection the candidate was mailed meanwhile. |
| `Delivery.DeliveryFalls` | backend/app/worker.py:343-394 | Each delivery that is not a no-op lowers the pair of status rank and remaining attempts. |
| `Delivery.ThreeDeliveriesEndIt` | backend/app/worker.py:343-394 | A mail takes at most three effective deliveries in any run, and after three it is over. |
| `Delivery.SelectionIsComplete` | backend/app/services/outbox.py:193-231 | An ordered selection of at most 200 rows holds every matching row when there are no more than 200. |
| `Delivery.SweepFindsExactlyTheLate` | backend/app/worker.py:397-413 | With at most 200 rows of each kind, a sweep re-enqueues exactly the queued and scheduled rows more than 300 seconds past their send time, or their creation without one, all of them deliverable. |
| `Delivery.SweepSkipsOnlyForOlder` | backend/app/services/outbox.py:193-231 | A late row is passed over only for 200 rows of its kind created, or to be sent, no later. |
| `Delivery.ReleasedFirstCanStillLose` | backend/app/services/scheduled_emails.py:69-102 | A concrete run: released first, failed dispatch, and the withdrawal still cancels the waiting retry. |
| `OutboxService.OutboxDatabase.QueueEmail` | backend/app/services/outbox.py:117-126 | A new row, scheduled if it has a send time and queued if not. |
| `OutboxService.OutboxDatabase.SelectForUpdate` | backend/app/worker.py:334-352 | The job goes on, holding the row, if and only if the row is queued or scheduled and due. |
| `OutboxService.OutboxDatabase.GuardStage` | backend/app/worker.py:350-362 | A held rejection of an application not rejected any more is cancelled; otherwise the job goes on. |
| `OutboxService.OutboxDatabase.Send` | backend/app/worker.py:363-394 | The row after each outcome of the provider, the suppression list and the transport; the delay is 60 seconds after the first error, 300 after the second, and none otherwise. |
| `OutboxService.OutboxDatabase.DeliverEmail` | backend/app/worker.py:322-394 | A whole job changes only its row, to cancelled or as its outcome says, and logs one dispatch of it, with its result, exactly when the transport was called. |
| `OutboxService.OutboxDatabase.CancelScheduledEmail` | backend/app/api/applications.py:1282-1310 | The answer is yes, and the row cancelled, if and only if it was scheduled; nothing else changes. |
| `OutboxService.OutboxDatabase.CancelRows` | backend/app/services/scheduled_emails.py:69-102 | The loop cancels the locked rows and counts them. |
| `OutboxService.OutboxDatabase.CancelForApplication` | backend/app/services/scheduled_emails.py:69-102 | Exactly the held rejections of the application are cancelled and counted, and every other row stays. |
| `OutboxService.OutboxDatabase.LookForHeldRejection` | backend/app/api/public.py:782-796 | 409 if and only if the loaded stage is hired, or is rejected with no scheduled rejection mail of the application; mails and stages stay. |
| `OutboxService.OutboxDatabase.SettleWithdrawal` | backend/app/api/public.py:797-825 | Stage and mails move together: withdrawn, with no other stage changed, unless nothing was left to cancel, which is the 409 that changes nothing. |
| `Calendar.EscapeIsOnePass` | backend/app/services/ics.py:40-48 | The chain of five replacements equals one left-to-right pass. |
| `Calendar.UnescapeUndoesEscape` | backend/app/services/ics.py:40-48 | Unescaping gives every value back with CRLF as LF (section 3.3.11 of RFC 5545). |
| `Calendar.EscapedHasNoNewline` | backend/app/services/ics.py:40-48 | Escaped text holds no LF. |
| `Calendar.Fold` | backend/app/services/ics.py:51-68 | The loop computes the folded line of the recursive cut that the next two rows are about. |
| `Calendar.OctetsAreUtf8` | backend/app/services/ics.py:54-64 | The octets that are counted are those of the UTF-8 encoding (section 3 of RFC 3629), from which each character is read back. |
| `Calendar.FoldFits` | backend/app/services/ics.py:51-68 | The pieces are whole characters, add up to the line, are not empty and fit 75 octets, leading space included (section 3.1 of RFC 5545). |
| `Calendar.UnfoldUndoesFold` | backend/app/services/ics.py:51-68 | Unfolding gives back every line without a line break. |
| `Calendar.RenderedParsesBack` | backend/app/services/ics.py:77-105 | Unfolding and splitting recovers the content lines in order if and only if none of them holds a CRLF. |
| `Calendar.RenderedFits` | backend/app/services/ics.py:51-105 | Every physical line of a rendered calendar fits 75 octets. |
| `CalendarMessage.Render` | backend/app/services/ics.py:77-105 | The text is the folded, ended content lines of the event in order. |
| `CalendarMessage.FoldAll` | backend/app/services/ics.py:103-105 | The final join folds and ends every line. |
| `CalendarMessage.MessageParsesBack` | backend/app/services/ics.py:77-105 | A message parses back to its content lines if and only if no unescaped field holds a CRLF, and then all physical lines fit. |
| `CalendarMessage.TextFieldsComeBack` | backend/app/services/ics.py:77-105 | From such a message a reader gets uid, SEQUENCE, summary, description and location, with CRLF as LF. |
| `CalendarMessage.FixedFieldsComeBack` | backend/app/services/ics.py:77-105 | And the method, the three times, the link and the status, at their places, with one line for each attendee and none besides. |
| `CalendarMessage.PeopleLinesComeBack` | backend/app/services/ics.py:97-102 | And the lines of the organizer and of each attendee in order, as participants who have not answered and need not. |
| `CalendarMessage.SequenceComesBack` | backend/app/services/ics.py:85-85 | The number of the message is digits that read back as SEQUENCE. |
| `CalendarMessage.BrokenUidIsLost` | backend/app/services/ics.py:77-90 | A line break in the uid breaks the message. |
| `Attendees.PeopleComeBackExactly` | backend/app/services/ics.py:97-102 | From a clean message a reader (sections 3.1 and 3.2 of RFC 5545) gets each name if and only if it holds no quote, semicolon, colon, comma, backslash or line feed, and each address if and only if the name closes its quotes and has no colon outside them. |
| `Attendees.AttendeeReadsExactly` | backend/app/services/ics.py:98-102 | The same for one attendee line, of any name and address. |
| `Attendees.OrganizerReadsExactly` | backend/app/services/ics.py:97-97 | The same for the organizer line. |
| `Attendees.CommaNameIsLost` | backend/app/services/ics.py:98-102 | A name with a comma does not come back. |
| `LikePattern.EscapeLikeIsOnePass` | backend/app/services/applications.py:231-232 | The three chained replacements are one character-wise map. |
| `LikePattern.EscapedPatternIsSubstring` | backend/app/services/erasure.py:118-120 | The pattern % + escaped text + % matches a subject if and only if the text occurs in it. |
| `LikePattern.SearchIsSubstring` | backend/app/services/applications.py:255-262 | The search keeps exactly the applicants whose name or email holds the trimmed query. |
| `LikePattern.ScrubTakesNotesOfTheAddress` | backend/app/services/erasure.py:142-142 | A note is taken if and only if it holds the present address in parentheses, so always when that is the address it was written with. |
| `LikePattern.ScrubTakesExactly` | backend/app/api/public.py:854-857 | For every name and job title the note of a request is taken if and only if the address is the same or stands in parentheses inside one of them. |
| `LikePattern.RequestIsScrubbedExactly` | backend/app/services/erasure.py:135-145 | With company, creator and title: a request's task is deleted if and only if it was made to that company and its note is taken. |
| `LikePattern.ScrubNeedsTheSameAddress` | backend/app/api/public.py:834-858 | For every name and job title without an at sign, the note of a request is taken if and only if the person still has the address of the request. |
| `Placeholders.TokenAtIsThePattern` | backend/app/services/email_render.py:49-49 | The scanner finds a token of a name and length exactly where the text has the pattern's shape. |
| `Placeholders.TokensDoNotOverlap` | backend/app/services/email_render.py:49-49 | No token starts inside another. |
| `Placeholders.ScanFindsEveryToken` | backend/app/services/email_render.py:150-159 | The left-to-right scan finds a name if and only if a token of that name stands anywhere in the text. |
| `Placeholders.JoinKeepsTokens` | backend/app/services/email_render.py:150-159 | Joining subject and body with a newline loses no token of either. |
| `Placeholders.Substitute` | backend/app/services/email_render.py:205-230 | The loop over the matches computes the substituted text or the missing name. |
| `Placeholders.FailsExactlyOnMissing` | backend/app/services/email_render.py:205-230 | Substitution fails if and only if a token has no value. |
| `Placeholders.ValuesAreNotExpanded` | backend/app/services/email_render.py:205-230 | In every template and both outputs, a token wherever it stands is replaced by its value as it is, and the text on both sides is substituted by itself. |
| `Placeholders.TextWithoutTokensStays` | backend/app/services/email_render.py:205-230 | A text in which no token stands is copied into the plain text and escaped into the HTML. |
| `Placeholders.ValueIsWritten` | backend/app/services/email_render.py:202-226 | A value goes into the plain text as it is and into the HTML escaped, the job title in bold; escaped text opens and closes no tag and reads back. |
| `Placeholders.ScanSplits` | backend/app/services/email_render.py:216-227 | The matches of a text around a token are those before it, the token, and those behind it. |
| `Placeholders.HtmlRefinesText` | backend/app/services/email_render.py:52-230 | For every template and all values, HTML output without tags and entities is the plain output, and both fail on the same placeholder. |
| `Templates.ValuesCoverAllowed` | backend/app/services/email_render.py:166-199 | The values cover exactly the allowed names of the kind, except an absent expiry. |
| `Templates.NamesSay` | backend/app/services/email_render.py:166-173 | The name, the first name, the job title and the company are the sender's, in every kind of mail. |
| `Templates.FirstWordIsFirst` | backend/app/services/email_render.py:167-170 | The first name is the first run of characters that are not white space, and empty if and only if there is none. |
| `Templates.QuizSays` | backend/app/services/email_render.py:174-180 | A quiz mail's expiry is the sender's and its duration the phrase of the next row. |
| `Templates.DurationSays` | backend/app/services/email_render.py:65-82 | The phrase names the least whole number of minutes, at least one, that all questions fit in, "minute" for one; it is vague if and only if the number of questions or their time is not known. |
| `Templates.InviteSays` | backend/app/services/email_render.py:181-184 | The number of questions and the seconds for each, or nothing where they are not known. |
| `Templates.ReminderSays` | backend/app/services/email_render.py:185-194 | The days left, and the phrases for the last day, tomorrow and later. |
| `Templates.RejectionSays` | backend/app/services/email_render.py:195-198 | A rejection thanks for the assessment if and only if the candidate completed one. |
| `Templates.RenderedSays` | backend/app/services/email_render.py:337-344 | Subject, text and HTML are the given ones: as typed when literal, and otherwise substituted, each by itself. |
| `Templates.RenderFailsExactly` | backend/app/services/email_render.py:326-371 | Rendering succeeds if and only if every token has a value and a quiz mail has its expiry. |
| `Templates.ValidatedTemplatesRender` | backend/app/services/email_render.py:150-159 | An accepted template renders, subject and body apart, if and only if it is not a quiz mail without an expiry. |
| `Templates.RenderedBodiesAgree` | backend/app/services/email_render.py:326-371 | The HTML of the body reads as the text of the body. |
| `Templates.QuizNeedsExpiry` | backend/app/services/email_render.py:246-289 | Without an expiry no quiz mail renders, whatever its template, and an accepted template, or a text kept as typed, misses the expiry and nothing else. |
| `Paragraphs.ParagraphsAgreeExactly` | backend/app/services/email_render.py:233-344 | For every body and all values the HTML has as many paragraphs as the text, each reading as the text's, if and only if the job title is neither empty nor padded. |
| `Paragraphs.ParagraphsAgree` | backend/app/services/email_render.py:338-344 | They agree for a body that does not use the job title, whatever the title. |
| `Paragraphs.LiteralParagraphsAgree` | backend/app/services/email_render.py:212-213 | They agree for a text kept as typed. |
| `Paragraphs.DiffersAlone` | backend/app/services/email_render.py:233-234 | An empty or padded title differs where it stands alone. |
| `ParagraphCuts.GapIsLongest` | backend/app/services/email_render.py:233-234 | The cut is at the longest run of white space that begins and ends with a line feed, wherever there is one. |
| `ParagraphCuts.BodyIsItsParts` | backend/app/services/email_render.py:233-234 | A body is its parts with the separators back between them, and no part holds another separator. |
| `ParagraphCuts.ParagraphsAre` | backend/app/services/email_render.py:233-234 | The paragraphs are the parts that are not blank, in order, without the white space around them. |
| `Text.StripTrims` | backend/app/services/email_render.py:233-234 | Trimming takes white space off both ends and nothing else. |
| `Payload.RoundTripExactly` | backend/app/services/outbox.py:66-76 | The stored arguments come back if and only if none is an object whose only key is "$dt". |
| `Payload.TaggedArgumentIsLost` | backend/app/services/outbox.py:66-76 | An object argument with the tag as its only key does not come back. |
| `Erasure.StrandedExactly` | backend/app/services/erasure.py:149-258 | In every run with storage errors and crashes anywhere, an object loses its last row and stays if and only if the step is a commit, and only rows it deletes point to the object, one of which its list missed or had its object written again after the deletion. |
| `Erasure.QuietErasureStrandsNothing` | backend/app/services/erasure.py:218-258 | If the person does not apply, and nobody writes to the keys of the person's rows, while it runs, an erasure strands nothing, whatever else happens. |
| `Erasure.CommittedErasureLeavesNothing` | backend/app/services/erasure.py:218-258 | Behind any run, failed tries included, and with everybody else busy, the commit of such an erasure leaves no row of the person and no object their rows pointed to. |
| `Erasure.LateApplicationIsStranded` | backend/app/services/erasure.py:235-249 | A concrete run in which a CV uploaded and submitted after the list was read is stranded by the cascade. |
| `Erasure.SecondUploadIsStranded` | backend/app/services/storage.py:97-114 | A concrete run in which the upload form is sent again between the deletion of the object and the commit. |
| `Erasure.StrandedIsSwept` | backend/app/services/retention.py:235-252 | A stranded object nobody writes or applies with again is gone after the first sweep that reads the rows behind the commit, lists the objects a day after it was written and manages to delete it, with anything else in between. |
| `Erasure.SweepSparesWhatItRead` | backend/app/services/retention.py:235-252 | In every run a sweep takes an object from under a row only if the application came in after the sweep read the rows. |
| `Erasure.LateUseIsSwept` | backend/app/services/retention.py:235-252 | A concrete run in which a day-old upload is used between the sweep's looks and is deleted. |
| `Erasure.ErasureErases` | backend/app/services/erasure.py:218-258 | From any state where the person is known, an erasure without an error removes person, rows and objects and changes nothing else. |
| `Erasure.SecondTryFinishes` | backend/app/services/erasure.py:4-12 | After a crash or a storage error any number of applications in, every row is in place, and erasing again ends where a first try without the trouble would have. |
| `Erasure.RunKeepsInv` | backend/app/services/erasure.py:149-215 | In every run a staged row has lost its object unless the key was written again, and what a task loaded is what the row says. |
| `Erasure.StartLoads` | backend/app/services/erasure.py:225-241 | A task loads every application the person then has, or the ones the purge was given, each with its object. |
| `Erasure.EraseNextDeletes` | backend/app/services/erasure.py:149-215 | One application's object goes unless the deletion raised beforehand, and nothing else; it is staged if and only if nothing was raised; a raise ends a person's erasure and lets a purge go on. |
| `Erasure.CommitTakes` | backend/app/services/erasure.py:248-258 | The staged rows go and, for a person, all they have by then; the person goes, or after a purge whoever has no row left; no object does. |
| `ErasureService.Stores.ListApplications` | backend/app/services/erasure.py:235-239 | Each application of the person once, and no other. |
| `ErasureService.Stores.StartErasing` | backend/app/services/erasure.py:225-241 | A task that has loaded exactly the person's applications. |
| `ErasureService.Stores.StartPurging` | backend/app/services/retention.py:92-105 | A task that has loaded the expired applications. |
| `ErasureService.Stores.EraseApplication` | backend/app/services/erasure.py:149-215 | The object first, then the staged row; a raise ends a person's erasure and skips one application of a purge. |
| `ErasureService.Stores.CommitErasure` | backend/app/services/erasure.py:249-258 | The commit deletes the staged rows, the person with every row of theirs, or the persons left without one. |
| `ErasureService.Stores.ReadReferences` | backend/app/services/retention.py:235-243 | The sweep keeps the keys the rows point to at that moment. |
| `ErasureService.Stores.ListObjects` | backend/app/services/retention.py:244-248 | The objects older than a day that are not among them. |
| `ErasureService.Stores.DeleteOrphans` | backend/app/services/retention.py:249-254 | Those objects go, except the ones the storage fails to delete. |
| `ErasureService.Stores.SweepOrphans` | backend/app/services/retention.py:235-252 | With nobody else about, exactly the unreferenced objects older than a day go, except those the storage fails to delete, and are counted. |
| `ErasureService.Stores.EraseCandidate` | backend/app/services/erasure.py:218-265 | A whole erasure with any storage faults: unknown person, a stop that keeps every row, or the person gone from both stores with the right counts. |
| `ErasureService.Stores.PurgeCompany` | backend/app/services/retention.py:106-150 | A row goes only after its object, all rows without an error go, persons without a row go, and the count is right. |
| `Board.BuildBoard` | backend/app/services/pipeline_signals.py:314-399 | Lines and totals agree with the filter: waiting and overdue counts are the sizes of the filtered sets, for each job and over all, and the two waiting sets add up to the live rows. |
| `Board.GroupsAddUp` | backend/app/services/pipeline_signals.py:319-323 | Counts of the groups over distinct jobs that cover the rows add up to the count over all rows. |
| `Board.EveryoneWaitsOnOneSide` | backend/app/services/pipeline_signals.py:189-211 | The two waiting sets are disjoint and together are all live applications. |
| `Board.WaitsOnCandidateExactly` | backend/app/services/pipeline_signals.py:79-112 | A row waits on the candidate if and only if its interview is unbooked or not over, or no interview decides and there is an offer out, or it is new with an assessment in progress or pending and not expired. |
| `Board.WaitsSince` | backend/app/services/pipeline_signals.py:79-112 | Since when: the interview's creation or end, the attempt's creation, completion or expiry, or the stage's own stamp. |
| `Board.OverdueExactly` | backend/app/services/pipeline_signals.py:114-124 | Overdue is a wait on the team of more UTC calendar days than the limit; the limit itself is not. |
| `Board.TeamWaitsStay` | backend/app/services/pipeline_signals.py:79-119 | Time alone never takes a row off the team, moves the start of its wait, or makes it less overdue. |
| `Board.WaitsBeganInThePast` | backend/app/services/pipeline_signals.py:79-124 | No wait starts in the future or is a negative number of days long. |
| `Board.SummarizeJob` | backend/app/services/pipeline_signals.py:342-358 | A line's stage counts, waits, longest wait and overdue count are those of its rows. |
| `Board.GroupByJob` | backend/app/services/pipeline_signals.py:319-323 | The groups are the rows of each job in order, and the jobs are those of the rows, each once. |
| `Board.AddPublished` | backend/app/services/pipeline_signals.py:324-334 | Published jobs join without repeats. |
| `Board.AddUp` | backend/app/services/pipeline_signals.py:392-398 | The totals are the sums over the lines. |
| `Board.Longest` | backend/app/services/pipeline_signals.py:382-382 | The largest wait, or none. |
| `RateLimit.CounterOutlivesItsWindow` | backend/app/core/ratelimit.py:38-53 | The refreshed expiry never drops a counter inside its window: the store holds the number of the window's counts so far. |
| `RateLimit.SeenIsCounted` | backend/app/core/ratelimit.py:72-88 | The counter a guard sees is the number of counts before it in its window. |
| `RateLimit.WindowBound` | backend/app/core/ratelimit.py:106-122 | A key whose guards count themselves passes at most its limit in each fixed window. |
| `RateLimit.WindowIsFilled` | backend/app/core/ratelimit.py:106-122 | Under one limit exactly the first requests pass, as many as the limit. |
| `RateLimit.IntervalBound` | backend/app/services/quotas.py:47-60 | A key in time with its counts, up to n, passes at most twice the sum of its limit and n in any interval no longer than the window. |
| `RateLimit.SelfCountedInterval` | backend/app/core/ratelimit.py:106-122 | A key whose guards count themselves passes at most twice its limit in any interval no longer than the window. |
| `RateLimit.OverrunExactly` | backend/app/services/quotas.py:89-104 | Under the limit in force a window passes at most n more than the limit if and only if no guard comes while fewer are counted than the limit and limit plus n guards were there already. |
| `RateLimit.SerialKeepsTheLimit` | backend/app/services/quotas.py:89-104 | If each guard that passes is counted before the next, the limit holds, however many are refused. |
| `RateLimit.InTimeUnderEveryLimit` | backend/app/services/quotas.py:89-104 | An order of guards and counts is in time under every limit if and only if no guard comes while more than n ahead of it are without a count. |
| `RateLimit.TwoLooksOverrun` | backend/app/api/public.py:349-350 | A concrete run of two requests under the emails key that both pass where there is room for one. |
| `RateLimit.RetryAfterReachesNextWindow` | backend/app/services/quotas.py:68-71 | Waiting as told reaches a later window if and only if the rest of the window is whole seconds or less than one. |
| `RateLimit.WaitingAsToldIsTooShort` | backend/app/core/ratelimit.py:117-117 | Half a second into a minute the answer is 59 seconds, which end in the same minute. |
| `RateLimit.Limiter.HitWindow` | backend/app/core/ratelimit.py:38-76 | One hit, with its count and refreshed expiry. |
| `RateLimit.Limiter.CheckRateLimit` | backend/app/core/ratelimit.py:106-122 | Off for a limit of zero or less; otherwise one hit, refused with the wait if and only if it does not pass. |
| `RateLimit.Limiter.Guard` | backend/app/services/quotas.py:89-104 | Refused if and only if the counter is at the limit, counting itself only when told to. |
| `AccessTrail.EveryReadIsCovered` | backend/app/services/access_log.py:48-82 | Every read has a row of its user, or of its API key if it has no user, for the same applicant, company and action, at most 600 seconds older. |
| `AccessTrail.ActorsHaveRowsOfTheirOwn` | backend/app/services/access_log.py:67-70 | Two reads by different users, or by different keys alone, have different rows, however close they are. |
| `AccessTrail.AnonymousReadsCollapseIntoAny` | backend/app/services/access_log.py:67-70 | A read with neither adds a row if and only if nobody at all did the same to the applicant within the window. |
| `AccessTrail.RowsAreApart` | backend/app/services/access_log.py:48-82 | Rows of one actor, applicant and action are more than ten minutes apart. |
| `AccessTrail.SpanHoldsFewRows` | backend/app/services/access_log.py:25-25 | A span of length L holds at most floor(L / 10 min) + 1 of them. |
| `AccessTrail.AccessLog.Record` | backend/app/services/access_log.py:48-82 | One row of the read is appended if and only if there is none of the same subject, and of the same user or else key, at most 600 seconds old; otherwise nothing changes. |

## Left out

How the model reads its surroundings:

- Time zones are fixed offsets; daylight-saving changes and the zone database are not modelled.
- Outbox runs have no crash between a dispatch and the commit that records it; the code promises nothing there.
- A request that gives up, times out on a lock or meets a database error is one event that drops its transaction.
- Row locks and the advisory lock exclude each other as the database promises; deadlocks are not modelled.
- What the object-relational session remembers of the request's own interview, and whether it writes only changed columns, are switches of the booking events, so the theorems hold either way. Other interviews are taken as forgotten between a request's two looks, because nothing refers to them there; what a session that kept them would do is in `Booking.RememberedRowsAreSeen` and `Booking.RememberedMoveIsMissed`.
- ORDER BY with LIMIT is a contract: some ordered selection of the matching rows.
- Case-insensitive matching is an arbitrary relation between characters; Unicode case folding is not modelled, nor are lone surrogates.
- Timestamps in calendar files are texts of 16 characters and the formatted expiry of a mail is a text; date formatting is not modelled.
- ISO texts of datetimes are a parameter that is known to read back.
- The limiter has one clock and one shared counter; the fallback to process memory during an outage of Redis, and the clearing of that memory, are not modelled.
- An access row is dated with the clock its read compared against, and reads run one after the other.
- Submitting an application and inserting its row are one step; the check that the uploaded object exists is not part of it.

What the repository does beyond the model:

- ErasureService.Stores.EraseCandidate: does not collect the cancel notices for interviewers, delete webhook payloads or write tombstones and receipts; these do not touch rows or objects.
- Slots.SummarizeAvailability: does not model the labels and the text they are joined into.
- Stages.TrailTellsTheStage: reads the clock once in a move where the code reads it twice, so there the clock may start microseconds before the stage's own stamp.
- Stages.ApplicationTable.WithdrawApplication: takes whether a mail is held, and still cancellable, as parameters; module Outbox is about the race that decides them.
- StaleMoves.TrailUnderInterleaving: has one application in a request; that a bulk move loads and commits several at once is not modelled, and every move reads a later clock than the commits before it.
- Cancellation.CancelledStaysExactly: takes whole and half hours, and three quarters of an hour, for the offsets zones have.
- Erasure.ErasureErases: has nobody else about, and so can say that nothing else changes; `Erasure.CommittedErasureLeavesNothing` is about everybody else.
- Erasure.SecondTryFinishes: has nobody else about, too; that a second try leaves nothing whatever others do is in `Erasure.CommittedErasureLeavesNothing`.
- ErasureService.Stores.StartPurging: takes the expired applications as given; the retention period is not modelled.
- ErasureService.Stores.EraseApplication: does not collect notices, delete webhook payloads or write tombstones.
- ErasureService.Stores.PurgeCompany: does not model the expiry test, the notices and the receipt.
- RateLimit.Limiter.Guard: does not write the breach record, once a day and scope.
- Board.BuildBoard: does not model titles, chips, movement and new-application counts, days open or the order of the lines; totals do not depend on them.
- Stages.ApplicationTable.BulkSetStageOf: does not model the job-level summary entry of a bulk rejection, which no trail reads.
- Calendar.UnfoldUndoesFold: is stated for lines without a CRLF, because a line that holds one followed by a space loses it.
- Templates.RenderedBodiesAgree: covers the template's own text; the card around it, the action block, the line breaks inside a paragraph and the colours are not modelled.
- Changing a candidate's email, interview reminders, quiz nudges and webhooks, which validate their own state in one place.
- HTTP routing, tokens, hashing, mail transports and the job queue's internals.
- Quizzes, scorecards, suppression, privacy exports, statistics and the plain create, read, update and delete endpoints.
