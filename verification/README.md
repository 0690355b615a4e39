# Verification of the attendance, messaging and backfill services

A Dafny model of the parts of the school management backend where state, order and failure
meet, with proofs of what each of them keeps. `dafny verify dfyconfig.toml` checks all of it.

Each module models one source file, or one part of it:

| module | models |
|---|---|
| `DisplayPhotoBackfill` | the display-photo backfill over two stores without a common transaction |
| `DurableQueue` | the at-least-once Redis queue with crashes, expiring heartbeats and reclaimers |
| `AsyncDispatch` | the bounded background dispatcher in front of it |
| `EmployeePunches` | an employee's day row under device punches and the absence scheduler |
| `AttendancePunch` | a student's day row under device punches and the scanner endpoint |
| `LeaveAttendance` | leave approval, revocation and date edits over day rows |
| `AutoAttendance` | the student absence producers and the scheduler's coverage of days |
| `InstituteCalendar`, `InstituteReports`, `InstituteSubmission` | computed lessons, the two reports over them, and recording attendance |
| `DeviceRegistry` | the registry of connected devices and its tasks |
| `Hikvision` | paging, classification and accounting of device events |
| `FeeReminder` | slotted reminders with batched lookups and a unique log |
| `HomeworkPublish` | at-most-once homework notifications |
| `ArabicNumbers`, `ArabicAmounts` | numbers in Arabic words, and Iraqi Dinar amounts |
| `DayRows`, `DeviceTags`, `Text`, `Wrappers` | the shared row, the note tags, string operations, `Option` |

## How the model is built

- Tables are maps keyed by their unique constraints; a transaction is one atomic update that
  may fail. Objects that update their fields are classes whose methods are proved against
  functions of the old state.
- Concurrency is a state machine of atomic steps (one database or Redis call, or the code
  between two awaits). A class with `Do` and `Others` runs the source's control flow over
  these steps, with arbitrary steps of other threads in between; the theorems are about all
  step sequences.
- Everything the outside decides is a parameter: what the network, the stores and the other
  writers answer or do. Where other writers are restricted, the predicate that says so is
  named (`Edited` and `Polite` in the backfill, `Fair` and `Quiet` for homework).
- Properties that the code has only under a condition are stated as equivalences, with the
  condition a caller can check, and the case that fails is a lemma of its own.

## What came out differently from the comments

- `app/services/auto_attendance.py:289-291` treats 00:00 as "not configured" because it is
  falsy. Since Python 3.5 `time(0, 0)` is true (the image uses 3.11), so the student checks
  take it as a cutoff; the model follows the code. The employee clock tests for midnight
  explicitly and does treat it as unset.
- A holiday after the cutoff returns before the catch-up (`app/services/auto_attendance.py:327-330`),
  which costs a day when the cutoff lies in the first hour and ticks are more than a day apart.
- Employee days are confluent in being attended, not in their check-out time.
- A time text that `strptime` reads without zero padding can be swallowed by a longer one.
- `app/services/async_dispatch.py:90` promises exactly-once. An executor that queues a task and
  then raises (as when it cannot start another thread) breaks it: the task runs twice, or the
  caller's release at line 140 finds every permit free and raises out of `submit`, and that can
  hit another task, which is then never executed. At most as many callers raise as the executor
  misled.
- A failing push back in `app/services/durable_queue.py:146-156` is the one queue operation
  that loses a job.
- A socket that registers two serial numbers leaves the first one registered for good, and one
  that registers without a serial (or with an empty one) stays registered when it closes, because
  the teardown at `app/services/ai_face_ws.py:1480` asks for a serial that is true.
- An upload that is given up and takes effect after cleanup has listed the bucket is recorded as
  not created. A commit that raises and takes effect late, or early enough for a form to be read
  before cleanup deletes the object, can leave a row that names it.
- A leave marker only carries sources made of word characters.

## Model

| member | source | states |
|---|---|---|
| DisplayPhotoBackfill.EveryObjectIsAccountedFor | app/services/display_photo_backfill.py:442-469 | whatever other writers do, every object the run left in storage is reported as a possible orphan or was named by a row at a state of the run's history, and still is if writers are quiet; no row names an object the run tried to delete; older objects are untouched |
| DisplayPhotoBackfill.CountsReferences | app/services/display_photo_backfill.py:420-435 | the reference count is positive exactly when some row of either table names the object in one of its spellings |
| DisplayPhotoBackfill.MatchesExactlyMinted | app/services/display_photo_backfill.py:293-295 | the keys cleanup may delete are exactly those the run can draw |
| DisplayPhotoBackfill.UrlNamesOneHex | app/services/display_photo_backfill.py:420-431 | a URL of this run names no key with another unique part, in any spelling |
| DisplayPhotoBackfill.UrlNamesOneKey | app/services/display_photo_backfill.py:420-431 | a URL of this run names no other key of the run |
| DisplayPhotoBackfill.EverySpellingNames | app/services/display_photo_backfill.py:420-435 | every spelling in which a row can name an object of the run is found by the reference count |
| DisplayPhotoBackfill.EmptyNamesNothing | app/services/display_photo_backfill.py:122-123 | a blank column names no object, so overwriting it loses no reference |
| DisplayPhotoBackfill.WriteReferences | app/services/display_photo_backfill.py:605-609 | writing the URL into an empty column adds references to its own object only and loses none |
| DisplayPhotoBackfill.EditKeepsSafe | app/services/display_photo_backfill.py:561-565 | edits of the rows by other writers between two steps, even with names read long ago, keep the safety invariant |
| DisplayPhotoBackfill.StaleWritesExactly | app/services/display_photo_backfill.py:442-453 | writers that only write names they have read keep the invariant exactly when they put back no name of a deleted object |
| DisplayPhotoBackfill.StaleWritesAreHarmless | app/services/display_photo_backfill.py:442-453 | while no commit raises after taking effect, no deleted object was ever named, so writers with old names keep the invariant |
| DisplayPhotoBackfill.StaleWriteBreaks | app/services/display_photo_backfill.py:603-620 | the run in which a commit raised after taking effect, the column was cleared, cleanup deleted, and a form read in between names the deleted object |
| DisplayPhotoBackfill.UploadKeepsSafe | app/services/display_photo_backfill.py:587-590 | whatever an upload stores, the invariant holds and nothing refers to the new key |
| DisplayPhotoBackfill.LandKeepsSafe | app/services/display_photo_backfill.py:449-452 | an upload that was given up may take effect at any time until cleanup lists the bucket |
| DisplayPhotoBackfill.LateUploadExactly | app/services/display_photo_backfill.py:587-596 | one that takes effect after its record was filed is accounted for exactly when the record is an orphan candidate or in use |
| DisplayPhotoBackfill.LateUploadEscapes | app/services/display_photo_backfill.py:587-596 | an upload that times out, is recorded as not created and then takes effect leaves an object nobody reports |
| DisplayPhotoBackfill.LateCommitExactly | app/services/display_photo_backfill.py:603-620 | a commit that takes effect after its record was filed keeps the invariant exactly when cleanup issued no delete |
| DisplayPhotoBackfill.LateCommitBreaks | app/services/display_photo_backfill.py:603-620 | after a delete such a commit leaves a row that names a deleted object |
| DisplayPhotoBackfill.CommitKeepsSafe | app/services/display_photo_backfill.py:603-610 | committing the URL keeps the invariant and makes the row name the object |
| DisplayPhotoBackfill.DeleteKeepsSafe | app/services/display_photo_backfill.py:446-453 | a delete of an unreferenced key keeps the invariant whether or not it works |
| DisplayPhotoBackfill.FileKeepsSafe | app/services/display_photo_backfill.py:689-690 | filing a truthful record keeps the invariant |
| DisplayPhotoBackfill.FileExplains | app/services/display_photo_backfill.py:603-620 | every committed update stays justified by a record: empty display, unchanged photo, only the URL written |
| DisplayPhotoBackfill.Runner.Cleanup | app/services/display_photo_backfill.py:442-460 | deleted or not created means gone, kept means that a row names the object at that moment, a named object is never deleted, and minted keys are never refused |
| DisplayPhotoBackfill.Runner.FinishWithCleanup | app/services/display_photo_backfill.py:462-469 | the outcome is orphan_candidate exactly when cleanup could not finish, with the original outcome as its code |
| DisplayPhotoBackfill.Runner.Commit | app/services/display_photo_backfill.py:609-610 | at most one update, of the locked row, even if commit raises after taking effect |
| DisplayPhotoBackfill.Runner.Write | app/services/display_photo_backfill.py:603-616 | the row is written exactly when it is unchanged under the lock and the commit takes effect |
| DisplayPhotoBackfill.Runner.Save | app/services/display_photo_backfill.py:603-620 | ok exactly when the row was written and commit returned; a lost race is a conflict or an orphan |
| DisplayPhotoBackfill.Runner.Prepare | app/services/display_photo_backfill.py:554-585 | nothing is stored before the upload; without other writers the record goes on exactly when the candidate is unchanged, its original may be read (right kind, bucket, host and listing, small enough) and shrinks; otherwise the outcome names what stood in the way |
| DisplayPhotoBackfill.Runner.Upload | app/services/display_photo_backfill.py:587-601 | the upload is confirmed exactly when the URL is the object's own and the stored size is the display's; each failure names its step |
| DisplayPhotoBackfill.Runner.Deliver | app/services/display_photo_backfill.py:587-620 | upload, check and save settle the object or leave it to the caller's cleanup |
| DisplayPhotoBackfill.Runner.ApplySteps | app/services/display_photo_backfill.py:554-620 | the steps end filed and safe, or raise with the object unsettled and nothing committed |
| DisplayPhotoBackfill.Runner.ApplyOne | app/services/display_photo_backfill.py:537-552 | whatever is raised, the record is finished, its object settled, at most its own row and object touched; a record that says its object is in use is right at that moment; ok exactly when everything worked, and a refused original leaves the world alone (without other writers) |
| DisplayPhotoBackfill.Runner.DryOne | app/services/display_photo_backfill.py:513-517 | a record would be processed exactly if its original may be read, and otherwise is filed under the reason for which it may not |
| DisplayPhotoBackfill.SkipIsExplained | app/services/display_photo_backfill.py:485-511 | each refusal is given exactly for its condition: unsupported value, wrong bucket, foreign host, unreadable listing, missing or too large, local originals not included; none exactly if the original may be read |
| DisplayPhotoBackfill.Runner.Candidates | app/services/display_photo_backfill.py:376-387 | the next candidates in id order, none skipped |
| DisplayPhotoBackfill.WaitingExactly | app/services/display_photo_backfill.py:365-387 | the candidates are exactly the rows in scope above the resume id with a photo and no display photo |
| DisplayPhotoBackfill.Runner.Account | app/services/display_photo_backfill.py:705-709 | processed and errors count the filed records and the error outcomes |
| DisplayPhotoBackfill.Runner.ProcessCandidate | app/services/display_photo_backfill.py:675-690 | a candidate's record is ok exactly when everything works (without other writers), or in a dry run would be processed exactly when its original may be read |
| DisplayPhotoBackfill.Runner.ProcessBatch | app/services/display_photo_backfill.py:675-701 | records follow the batch; the loop stops exactly at the error cap or the limit |
| DisplayPhotoBackfill.Runner.ProcessEntity | app/services/display_photo_backfill.py:658-703 | keyset paging ends, goes through ids once in order, and without other writers misses no waiting row |
| DisplayPhotoBackfill.OneMoreTable | app/services/display_photo_backfill.py:641-650 | finishing one more table keeps what is said about the tables done: every waiting row has a record, and the other tables are as they were |
| DisplayPhotoBackfill.Runner.Run | app/services/display_photo_backfill.py:624-656 | everything left in storage is accounted for whatever other writers did; without them a run that is not stopped records every waiting row of every chosen table; bad settings touch nothing, a dry run changes nothing, and the exit status tells harmless outcomes, errors and the cap |
| DurableQueue.NothingIsLost | app/services/durable_queue.py:184-226 | over every run with crashes and expiries an accepted job keeps a copy until it succeeded, was tried max_attempts times, or its push back failed; every copy has a try left |
| DurableQueue.NextKeepsCopies | app/services/durable_queue.py:203-219 | no single step makes a job's last live copy disappear without disposing of the job |
| DurableQueue.NextKeepsInv | app/services/durable_queue.py:142-226 | every step keeps the queue's invariant |
| DurableQueue.ReliablePushesAbandonNothing | app/services/durable_queue.py:142-151 | if every push back reaches Redis, no job is abandoned |
| DurableQueue.FailedPushLosesTheJob | app/services/durable_queue.py:146-156 | a push back that fails loses the job after one try |
| DurableQueue.CalmRunsAreBounded | app/services/durable_queue.py:184-226 | without mishaps a job exists once and runs at most max_attempts times |
| DurableQueue.MovesTakeFromTheEnd | app/services/durable_queue.py:171-175 | moving entries back one by one keeps their order |
| DurableQueue.OrphansComeBack | app/services/durable_queue.py:159-178 | a dead consumer's whole list returns to the front of the main list |
| DurableQueue.UndisturbedRun | app/services/durable_queue.py:122-156 | an undisturbed consumer ends the oldest job, abandons it after its last try, or puts it back with one more attempt behind all others |
| DurableQueue.Service.TryEnqueue | app/services/durable_queue.py:90-119 | true exactly when the job is accepted, and what the main list becomes |
| DurableQueue.Service.Reclaim | app/services/durable_queue.py:171-175 | undisturbed, the victim's entries come back to the front of the main list in their order, up to the bound, and nothing else moves |
| DurableQueue.Service.ReclaimOrphans | app/services/durable_queue.py:159-181 | undisturbed, the lists of dead consumers come back up to the bound and the others stay; under interference no disposal is taken back |
| DurableQueue.Service.Execute | app/services/durable_queue.py:122-156 | the job is run, and is disposed of, or was pushed back behind all others with one more attempt and is not lost whatever others do then; undisturbed, the exact state afterwards |
| DurableQueue.Service.Iteration | app/services/durable_queue.py:189-226 | one pass of the consumer loop takes the last job of the main list, if the answer arrives, runs and settles it; an empty list or a lost answer runs nothing; undisturbed, reclaiming and running leave exactly what their specifications say |
| DurableQueue.BehaviourRuns | app/services/durable_queue.py:184-226 | the states a consumer passes through are those of a run of the steps |
| AsyncDispatch.SettledTasksRanOnce | app/services/async_dispatch.py:83-141 | over all interleavings a settled task was executed once, once more for each call that did what it denied, once less for each exception that dropped it (a caller's release with every permit free, or a pool thread without a context); so exactly once if and only if these are as many |
| AsyncDispatch.HonestRunsExecuteOnce | app/services/async_dispatch.py:83-141 | where nothing lies and every pool thread finds its context, every settled task was executed exactly once and its caller was told where |
| AsyncDispatch.PermitsAreConserved | app/services/async_dispatch.py:109-141 | where nothing lies, free and held permits add up to the bound and no release overflows |
| AsyncDispatch.PermitsAreCounted | app/services/async_dispatch.py:48-141 | in every run free and held permits and failed releases are the bound and one for each time the executor queued and raised; at most that many releases fail, and at most those callers raise |
| AsyncDispatch.LyingExecutorRunsTwice | app/services/async_dispatch.py:134-141 | an executor that queues and raises runs the task twice when the caller is first, and the pool's release fails |
| AsyncDispatch.LyingExecutorRaises | app/services/async_dispatch.py:134-141 | when the pool is first the task runs once and the caller's release raises out of submit |
| AsyncDispatch.AnotherTaskIsLost | app/services/async_dispatch.py:134-141 | beside such a task another one, honestly refused, is never executed: its caller's release raises |
| AsyncDispatch.Dispatcher.Pooled | app/services/async_dispatch.py:109-141 | the executor took the task, or the caller has its permit back and must run it, or, only after an executor misled a caller, the release failed |
| AsyncDispatch.Dispatcher.Submit | app/services/async_dispatch.py:83-141 | the answer tells queued from inline from the error of a failed release, under any interleaving |
| EmployeePunches.ConfluentExactly | app/services/ai_face_ws.py:657-675 | every order and repetition of deliveries and ticks ends attended exactly when an arrival was delivered, if and only if no late punch's tag contains an arrival's |
| EmployeePunches.ConfluentExactlyWithoutPrefixes | app/services/ai_face_ws.py:358-365 | the same condition on the device's time texts: none is a prefix |
| EmployeePunches.PaddedTimesAreConfluent | app/services/ai_face_ws.py:358-365 | zero-padded times satisfy it |
| EmployeePunches.UnpaddedTimesAreNot | app/services/ai_face_ws.py:358-365 | unpadded times do not |
| EmployeePunches.RunShape | app/services/ai_face_ws.py:725-843 | every reachable row is a final auto absence or genuine attendance with its times from delivered punches |
| EmployeePunches.AttendedStays | app/services/ai_face_ws.py:830-843 | an attended day keeps status and check-in; it is closed once, by an unseen departing punch |
| EmployeePunches.AttendedForGood | app/services/ai_face_ws.py:764-843 | an attended day never goes back to absent |
| EmployeePunches.EffectivePunchIsRemembered | app/services/ai_face_ws.py:775-835 | a punch that changes the row leaves its tag in the notes |
| EmployeePunches.RepeatChangesNothing | app/services/ai_face_ws.py:672-675 | delivering a punch twice is delivering it once |
| EmployeePunches.CheckOutDependsOnOrder | app/services/ai_face_ws.py:764-839 | the check-out does depend on whether the delayed arrival comes first |
| EmployeePunches.LostRaceNeedsRedelivery | app/services/ai_face_ws.py:845-854 | losing the unique-key race to the scheduler loses the arrival until it is delivered again |
| EmployeePunches.PunchIsJudged | app/services/ai_face_ws.py:664-843 | a new punch is an arrival, a departure or a miss exactly under its conditions on settings, row and time, with the fields it sets; every other punch, a seen one included, leaves the row |
| EmployeePunches.AdministrativeAbsenceStays | app/services/ai_face_ws.py:793-800 | no log of deliveries and ticks touches an absence that is not an automatic one |
| EmployeePunches.LeaveBecomesAttended | app/services/ai_face_ws.py:802-828 | a row without check-in that is no absence becomes attended by the first unseen delivery, with its time, whatever follows |
| EmployeePunches.AutoNoteHoldsNoTag | app/services/auto_attendance.py:230-239 | the scheduler's note contains no device tag |
| EmployeePunches.Sheet.ProcessPunch | app/services/ai_face_ws.py:574-860 | one row changes as its punch is judged; ineligible punches change nothing, attended stays attended, an administrative absence stays, a row awaiting arrival becomes attended |
| EmployeePunches.Sheet.RunAutoAbsent | app/services/auto_attendance.py:127-248 | exactly the employees who owe attendance and have no row get an absence, and the count is theirs |
| DeviceTags.TagInTag | app/services/ai_face_ws.py:365 | a tag occurs in another exactly when its time text is a prefix |
| DeviceTags.TagInTwoTags | app/services/attendance_service.py:90-93 | in notes with two tags of one width a tag occurs exactly when it is one of them |
| AttendancePunch.RedeliveryChangesNothing | app/services/attendance_service.py:58-94 | delivering processed punches again, in any order and number, changes neither the row nor the transitions |
| AttendancePunch.PunchAccounts | app/services/attendance_service.py:58-115 | each report holds exactly under its condition on the row and the time, and says which fields changed: status by the late threshold, times, source, and nothing else |
| AttendancePunch.UntaggedReplay | app/services/attendance_service.py:63-65 | without a tag this holds exactly when the punch cannot be a departure |
| AttendancePunch.AtMostOneOfEach | app/services/attendance_service.py:67-115 | at most one check-in and one check-out transition per student and day |
| AttendancePunch.CheckInComesFirst | app/services/attendance_service.py:58-115 | a time-ordered log from no row checks in with its first punch, not after the check-out |
| AttendancePunch.FirstDepartureChecksOut | app/services/attendance_service.py:82-94 | the check-out is the first unrecorded late-enough punch after the opening one |
| AttendancePunch.NotesAreTransitions | app/services/attendance_service.py:90-107 | the notes are the tags of the transitions |
| AttendancePunch.SubstringTestIsMembership | app/services/attendance_service.py:63-65 | for tags of one width the substring test finds exactly the recorded tags |
| AttendancePunch.ScanAgreesWithPunch | app/services/attendance_service.py:177-285 | a scan leaves the punch's row and reports the same unless the student had left already |
| AttendancePunch.SerialInSerial | app/services/attendance_service.py:181-185 | one serial tag contains another exactly when the decimal digits are a prefix |
| AttendancePunch.ShorterSerialIsSwallowed | app/services/attendance_service.py:181-196 | event n after event 10n+d is taken for a duplicate |
| AttendancePunch.StudentSheet.ProcessAttendancePunch | app/services/attendance_service.py:10-124 | row and notification change together or not at all; a lost race, or a new row's hook that raises a key clash, answers already_checked_in, the latter without a row |
| AttendancePunch.StudentSheet.ProcessStudentScan | app/services/attendance_service.py:127-285 | the endpoint's refusals with their codes, and its reports and row by the same conditions; an insert that loses the unique key raises and leaves the winner's row |
| LeaveAttendance.DecodeReversesEncode | app/services/leave_attendance.py:53-72 | the marker returns the source and the trimmed notes, whatever the notes look like |
| LeaveAttendance.MarkerCarriesExactlyWordSources | app/services/leave_attendance.py:53-72 | it does so exactly for sources made of word characters |
| LeaveAttendance.DayIsUndone | app/services/leave_attendance.py:120-143 | revoking an applied day restores it exactly when it is undoable |
| LeaveAttendance.RevokeUndoesApply | app/services/leave_attendance.py:89-192 | revoke after apply restores the sheet exactly when every day in range is undoable |
| LeaveAttendance.ResyncIsReapply | app/services/leave_attendance.py:441-504 | editing the dates equals applying the new range exactly when the removed days are undoable |
| LeaveAttendance.OverlappingLeavesInterfere | app/services/leave_attendance.py:166-177 | revoking one of two leaves leaves the other's sheet exactly when no shared day was touched |
| LeaveAttendance.ApplyIsIdempotent | app/services/leave_attendance.py:120-143 | applying twice is applying once |
| LeaveAttendance.ApprovedDayIsOnLeave | app/services/leave_attendance.py:120-143 | an approval makes a leave of an empty day and of an absence without check-in that is no employee's automatic one, keeping its times, and touches no other row |
| LeaveAttendance.RevokedDayIsNoLeave | app/services/leave_attendance.py:179-192 | a revocation removes a leave-made row or turns it back into the absence its marker tells, and touches no other row |
| LeaveAttendance.AttendanceWins | app/services/leave_attendance.py:134-143 | rows with a check-in pass through untouched |
| LeaveAttendance.DateRange | app/services/leave_attendance.py:77-82 | all dates of the range, ascending |
| LeaveAttendance.Service.ApplyDates | app/services/leave_attendance.py:120-145 | the loop computes the applied sheet and counts created and converted rows |
| LeaveAttendance.Service.RevokeDates | app/services/leave_attendance.py:179-192 | the loop computes the revoked sheet and counts its rows |
| LeaveAttendance.Service.Sync | app/services/leave_attendance.py:300-363 | approved leaves are applied, others revoked, and a failed commit leaves no trace |
| LeaveAttendance.Service.ResyncDates | app/services/leave_attendance.py:441-504 | a date edit revokes the removed and applies the added days, or leaves no trace |
| AutoAttendance.ProducersFollowEffectiveShift | app/services/auto_attendance.py:696-751 | the bulk section lookups agree with resolving each student's own shift |
| AutoAttendance.ProducersPartitionTheSchool | app/services/auto_attendance.py:512-573 | the shifts' students and the shiftless are disjoint and cover every active student |
| AutoAttendance.TickCoversTheSchool | app/services/auto_attendance.py:363-479 | a conflict-free tick past both cutoffs leaves each active student with a row of the right shift, and the next changes nothing |
| AutoAttendance.RunsExactly | app/services/auto_attendance.py:287-345 | a tick runs its own school day from the cutoff on and the school day before in its first hour, never a holiday and never any other day |
| AutoAttendance.Scheduler.RunForShift | app/services/auto_attendance.py:482-693 | exactly the active students of the shift without a row gain an absence, all or none, and are counted |
| AutoAttendance.Scheduler.RunShiftless | app/services/auto_attendance.py:754-842 | when due, exactly the active students without an effective shift and without a row gain an absence; other rows stay |
| AutoAttendance.Scheduler.CheckSchoolShifts | app/services/auto_attendance.py:363-479 | after a tick every student keeps their row or has that of the producer due for them |
| AutoAttendance.ShortGapsAreSafe | app/services/auto_attendance.py:287-345 | short enough gaps miss no day, by the same-day run or the first-hour catch-up |
| AutoAttendance.LongGapsMissADay | app/services/auto_attendance.py:993-1111 | longer gaps miss one |
| AutoAttendance.NoDayIsMissedExactly | app/services/auto_attendance.py:993-1111 | the exact bound per mode and cutoff; an hour is always enough for students |
| InstituteCalendar.OccurrencesForRange | app/services/institute_attendance.py:342-421 | every planned or stored lesson of the range once, with its own session, by date, start and group name |
| InstituteCalendar.AddDay | app/services/institute_attendance.py:389-404 | exactly the planned lessons of a day |
| InstituteCalendar.PlannedExactly | app/services/institute_attendance.py:389-398 | a lesson is planned exactly on its rule's weekday, counted from Sunday, within the group's dates |
| InstituteCalendar.AddOrphans | app/services/institute_attendance.py:406-417 | exactly the sessions whose rule is gone |
| InstituteCalendar.SortSorts | app/services/institute_attendance.py:419-420 | sorting orders the lessons and keeps their keys distinct |
| InstituteCalendar.FindOccurrence | app/services/institute_attendance.py:479-490 | a client's tuple is a lesson exactly when the calendar has it |
| InstituteCalendar.CalendarIsWeekly | app/services/institute_attendance.py:391-398 | where a group's only rule plans a lesson, the calendar has one on another covered day exactly when whole weeks lie between |
| InstituteReports.ReportsAgree | app/services/institute_attendance.py:951-1168 | over the student's groups both reports list the same lessons and statuses before today, and differ exactly in today's lessons to come |
| InstituteReports.OverlapsExactly | app/services/institute_attendance.py:914-931 | a membership overlaps a lesson exactly if it lasts at some moment of it |
| InstituteReports.RecordedExactly | app/services/institute_attendance.py:951-1168 | a listed lesson counts as recorded exactly if the stored session at its key is |
| InstituteReports.StudentLessonAttendance | app/services/institute_attendance.py:951-1046 | exactly the attendable lessons of the student's current groups and those with a record, with the student's status |
| InstituteReports.LessonRows | app/services/institute_attendance.py:1123-1131 | one row per member or record holder of a lesson |
| InstituteReports.AttendanceReport | app/services/institute_attendance.py:1049-1168 | exactly the reported rows, none twice, with totals that count them |
| InstituteSubmission.OpenersConverge | app/services/institute_attendance.py:512-552 | racing openers never fail and all hold the one stored session |
| InstituteSubmission.ThreeTurnsOpen | app/services/institute_attendance.py:523-552 | three round trips are enough for an opener |
| InstituteSubmission.Sessions.GetOrCreate | app/services/institute_attendance.py:512-552 | the stored session is returned, existing ones are never replaced |
| InstituteSubmission.NamesAreRead | app/services/institute_attendance.py:685-697 | exactly the four status names are read, each as its own status |
| InstituteSubmission.EntryIsReadExactly | app/services/institute_attendance.py:685-697 | a text is blank exactly if it has nothing but space, and an entry is bad exactly without a number for the student or with another text than the four names |
| InstituteSubmission.CleanKeepsLastStatuses | app/services/institute_attendance.py:685-697 | a submission is refused exactly for a bad entry; otherwise each student's last status counts |
| InstituteSubmission.ObjectionIsDiagnosis | app/services/institute_attendance.py:677-727 | the refusals are those conditions on the entries: the first bad entry decides, blank ones name nobody |
| InstituteSubmission.RecordingOverrides | app/services/institute_attendance.py:729-751 | recording is overriding the status map; unchanged records stay identical |
| InstituteSubmission.ResubmissionChangesNothing | app/services/institute_attendance.py:733-751 | the same statuses again change no record and notify nobody |
| InstituteSubmission.Lesson.Check | app/services/institute_attendance.py:677-727 | each refusal says what is wrong with the entries; none is made exactly when every entry can be read, everybody named is or was in the group, and somebody named is not suspended |
| InstituteSubmission.Lesson.Apply | app/services/institute_attendance.py:729-751 | the loop's records and its created, updated and unchanged students |
| InstituteSubmission.Lesson.Store | app/services/institute_attendance.py:753-806 | records and staged notifications are committed together or not at all |
| InstituteSubmission.Lesson.SubmitAttendance | app/services/institute_attendance.py:662-806 | refused submissions write nothing; saved ones override the map and the counts add up |
| DeviceRegistry.RegisteredExactly | app/services/ai_face_ws.py:1416-1419 | an entry is registered exactly when it is the latest of its serial and not torn down under a serial that is true to Python |
| DeviceRegistry.RegisteredIsLive | app/services/ai_face_ws.py:1477-1482 | with one serial per socket a registered entry belongs to a live handler, if its serial is true to Python |
| DeviceRegistry.RegisteredIsServedExactly | app/services/ai_face_ws.py:1477-1482 | a serial is registered only while served, in every run with one serial per socket, if and only if it is true to Python |
| DeviceRegistry.FalseSerialStays | app/services/ai_face_ws.py:1416-1482 | a registration without a serial stays after its socket has closed |
| DeviceRegistry.FalseSerialIsPolled | app/services/ai_face_ws.py:961-1000 | a late poll task then passes the identity checks and puts a future into the dead entry |
| DeviceRegistry.TwoSerialsLeaveAStaleEntry | app/services/ai_face_ws.py:1416-1419 | with two it may not |
| DeviceRegistry.TeardownSparesOthers | app/services/ai_face_ws.py:1480-1482 | a registration ends exactly when its serial is registered again or its own handler closes; an older handler's teardown never removes a newer entry |
| DeviceRegistry.OnePollPerSerial | app/services/ai_face_ws.py:961-969 | at most one poll task per serial passes the identity check |
| DeviceRegistry.StalePollsStop | app/services/ai_face_ws.py:961-969 | over every run, a poll task whose entry is no longer registered asks at most once more, only if past its check, is stopped after at most two turns, and touches no entry in the others |
| DeviceRegistry.TornDownIsQuiet | app/services/ai_face_ws.py:1484-1496 | a torn-down entry holds no unresolved future and never gets one, except the latest of a serial that is false to Python, which gets every command sent to it |
| DeviceRegistry.PendingEndsExactly | app/services/ai_face_ws.py:217-240 | a pending future ends exactly when its own handler answers the command or closes, or the sender gives up |
| DeviceRegistry.PendingStartsExactly | app/services/ai_face_ws.py:217-240 | a wait starts exactly when the command is sent to the serial's registered entry, by a sender or a poll task |
| DeviceRegistry.SentStaysPending | app/services/ai_face_ws.py:222-240 | over every run, a command sent to a registered entry stays pending there until that handler answers it or closes, or the sender gives up |
| DeviceRegistry.NextKeepsInv | app/services/ai_face_ws.py:217-240 | every step of handlers, tasks and senders keeps the registry's invariant |
| DeviceRegistry.Bridge.Handle | app/services/ai_face_ws.py:1390-1443 | a reply ends the wait for its command in the handler's own entry and touches nothing else; a registration with a serial opens a new entry for the handler; any other message changes no entry |
| DeviceRegistry.Bridge.Serve | app/services/ai_face_ws.py:1360-1496 | a connection is served to its end or to the first registration whose acknowledgement fails; its entry is that of the last registration served, is torn down, and stays registered exactly when it is the latest of a serial that is false to Python; undisturbed, it is exactly its messages' steps |
| Hikvision.FetchEvents | app/services/hikvision.py:99-138 | paging ends with any device, pages of any length included, and returns an honest device's list from the start, whole or up to the cap |
| Hikvision.ValidExactly | app/services/hikvision.py:35-50 | an event counts exactly if somebody's face or fingerprint was accepted |
| Hikvision.Classify | app/services/hikvision.py:246-293 | each survivor has its employee's highest serial, the earliest on ties, and the three counts add up |
| Hikvision.ClassifyOne | app/services/hikvision.py:250-291 | one event keeps the classes, the dictionary and the counters in step |
| Hikvision.SurvivorsInOrder | app/services/hikvision.py:293-299 | the dictionary's items are exactly the survivors |
| Hikvision.SurvivorsRepresent | app/services/hikvision.py:246-299 | survivors have access, are of different employees, and for every event with access there is one of its employee's that is not older |
| Hikvision.ResultsAddUp | app/services/hikvision.py:297-463 | the result counters add up to the valid events |
| Hikvision.Device.SettleEvent | app/services/hikvision.py:306-463 | each result is given exactly under its conditions on the log, the mapping, the student and the scan, and leaves the log row that goes with it |
| Hikvision.Device.Sync | app/services/hikvision.py:187-475 | both accounts balance; ignored are exactly the events without access; every employee with access is represented by one latest event; the results follow the log in turn, and processed events are never processed again |
| FeeReminder.SlotsNeverOverlap | app/services/fee_reminder.py:65-105 | at most one slot fires at a time, within the day |
| FeeReminder.SlotsByTheClock | app/services/fee_reminder.py:65-72 | the slots of each setting by the clock, out-of-range settings included |
| FeeReminder.ActiveSlot | app/services/fee_reminder.py:95-105 | the first firing slot, or none |
| FeeReminder.Chunks | app/services/fee_reminder.py:82-86 | the distinct ids in order, in non-empty lists of bounded size |
| FeeReminder.ParentsByStudent | app/services/fee_reminder.py:319-336 | the batched join gives each student's active parents of the school in order |
| FeeReminder.RecipientsOf | app/services/fee_reminder.py:286-336 | the batched lookups answer what looking up each installment alone would |
| FeeReminder.PairsExactly | app/services/fee_reminder.py:286-336 | the reminders to consider are exactly the installments with something open and the active parents linked to their student in this school |
| FeeReminder.RemindersAreUnique | app/services/fee_reminder.py:404-448 | whatever schedulers commit, a reminder key is notified at most once |
| FeeReminder.RemindersKeepSlots | app/services/fee_reminder.py:89-105 | reminders in firing slots, by this scheduler and others, keep every logged slot one that fires |
| FeeReminder.EveryPairIsReminded | app/services/fee_reminder.py:397-448 | every due pair is reminded unless its commit fails |
| FeeReminder.RemindedExactly | app/services/fee_reminder.py:397-448 | a reminding tick logs everybody concerned, if no commit fails, and nobody else, if no other scheduler runs |
| FeeReminder.AtMostPerDay | app/services/fee_reminder.py:89-92 | under fixed settings, after any ticks of any schedulers, a parent was sent at most per_day reminders of an installment on a day |
| FeeReminder.Scheduler.Send | app/services/fee_reminder.py:397-455 | the optimistic pre-check sends exactly what the unique key allows |
| FeeReminder.Scheduler.CheckSchool | app/services/fee_reminder.py:205-457 | a tick sends what the per-row form would, in an active slot only, to everybody concerned and nobody else, and keeps the daily bound |
| HomeworkPublish.FanOutsAreUnique | app/services/homework_publish.py:160-253 | over all interleavings a homework is fanned out at most once and only with its marker |
| HomeworkPublish.LockHolds | app/services/homework_publish.py:184-187 | the row lock keeps the row as it is |
| HomeworkPublish.Publisher.FanOut | app/services/homework_publish.py:160-253 | each outcome's conditions by the school's clock, marker and delivery; NotPending exactly when the claim finds no row, a marker, or another's lock |
| HomeworkPublish.ReportIsTrueExactly | app/services/homework_publish.py:223-253 | the outcome is what happened to the row, unless a commit that takes effect raises and is reported as an error |
| HomeworkPublish.VerdictIsTold | app/services/homework_publish.py:193-253 | each outcome is given exactly under its conditions, in seconds of the school's own clock, and says whether the row was marked and delivered |
| HomeworkPublish.HorizonIsWideEnoughExactly | app/services/homework_publish.py:293-298 | the UTC-date+1 horizon is enough exactly for clocks at most a day ahead |
| HomeworkPublish.PrefilterExcludesNothing | app/services/homework_publish.py:293-314 | the prefilter excludes no due homework |
| HomeworkPublish.DueExactly | app/services/homework_publish.py:300-314 | homework is due exactly if it is unmarked, active, of a known school and not too early for its own fan-out |
| HomeworkPublish.FirstIds | app/services/homework_publish.py:312-314 | the first ids in order, none skipped |
| HomeworkPublish.Publisher.SweepDue | app/services/homework_publish.py:279-323 | the soonest due homework up to the limit, each tried once, none found too early unless edited, and all handled when alone and without faults |
| HomeworkPublish.Publisher.FlushPending | app/services/homework_publish.py:343-361 | the flush ends, tries each row once, and leaves pending only rows that failed or that another worker held when they were claimed; alone and without faults it leaves none |
| HomeworkPublish.LockedRowStaysPendingExactly | app/services/homework_publish.py:343-361 | a row passed over because another worker holds it stays pending exactly if that one rolls back |
| ArabicNumbers.IntToWords | app/utils/arabic_numbers.py:91-119 | the loop-free printer computes the joined parts |
| ArabicAmounts.AmountToWords | app/utils/arabic_numbers.py:122-151 | empty, out-of-range and printed amounts; what a printed text means word by word is the amount, and the plural dinar stands exactly for three to ten |
| ArabicAmounts.IqdIsUnambiguous | app/utils/arabic_numbers.py:47-56 | the word tables have no clashes |
| ArabicNumbers.CountedScaleIsReadable | app/utils/arabic_numbers.py:85-88 | a counted scale word reads as its count of that scale and nothing else |
| ArabicNumbers.GroupReads | app/utils/arabic_numbers.py:73-88 | every printed group reads back, duals and plurals included |
| ArabicNumbers.SplitJoin | app/utils/arabic_numbers.py:119 | splitting at the conjunction undoes joining |
| ArabicNumbers.NumeralIsReadable | app/utils/arabic_numbers.py:91-119 | a reader recovers every number below 10^12 from its words |
| ArabicAmounts.DinarIsClear | app/utils/arabic_numbers.py:137-151 | the dinar's special phrases and units cannot be taken for one another |
| ArabicNumbers.PhraseIsReadable | app/utils/arabic_numbers.py:122-151 | and every amount from its phrase, in any unambiguous numerals and clear currency |
| ArabicNumbers.PhrasesAreDistinct | app/utils/arabic_numbers.py:122-151 | distinct amounts have distinct phrases |
| ArabicAmounts.WordsMean | app/utils/arabic_numbers.py:47-56 | every number word of the tables means its number in a lexicon of the language, and no other text is one |
| ArabicAmounts.PhrasesMean | app/utils/arabic_numbers.py:122-151 | what the reader recovers with the printer's tables is what the phrase means word by word |
| ArabicAmounts.WordsShareStems | app/utils/arabic_numbers.py:47-54 | the teens are the units with the word for ten, the tens and hundreds begin with the stem of their unit |
| ArabicNumbers.NounFollowsCount | app/utils/arabic_numbers.py:73-88 | the scale noun is plural exactly after three to ten, singular after more, and the dual has the form of its place |
| ArabicAmounts.DocumentedAmounts | app/utils/arabic_numbers.py:127-132 | the four amounts of the source's documentation print as it says |

## Left out

- EveryObjectIsAccountedFor: excludes an upload that takes effect after its record was filed (`LateUploadExactly`), a commit that takes effect after cleanup has counted (`LateCommitExactly`) and, only where commits may raise after taking effect, a writer that puts a name back after cleanup counted or deleted (`StaleWritesExactly`, `StaleWriteBreaks`); for writers that are not quiet, "named" is at some state of the run, at the latest when the record was finished.
- MatchesExactlyMinted: the source's pattern ends in `$`, which also accepts one trailing newline; the run never passes such a key.
- Runner.Prepare: parsing a photo value into its kind, bucket, key and host (`classify_original`) is a parameter.
- Runner.ProcessEntity: needs a bound on row ids to end, as a table has at any time; a failing metadata query for a whole batch, which ends the run, is not modelled.
- Runner.Candidates: trims spaces only, as the SQL filter does, while the later check trims all white space, as Python does.
- Runner.Run: the summary's per-school statistics, the manifest file and the read-only session are not modelled.
- NothingIsLost: Redis operations that fail without effect, other than those with a lost answer or a failed push back or removal, only delay the consumer; undecodable entries cannot be produced by the modelled producer.
- SettledTasksRanOnce: tasks lost when the process ends are not modelled.
- Sheet.ProcessPunch: the lookups of mapping, employee and school are one parameter; updates of an existing row by two threads at once are not interleaved.
- Sheet.RunAutoAbsent: rows inserted by others during the pass are not modelled; they only make it insert less.
- Service.Sync: row columns for year, device and shift, and the `\w` and `\d` classes beyond ASCII are not modelled; `sync` for students and for employees share one model.
- NoDayIsMissedExactly: assumes configured cutoffs, an active year and (in shift mode) an active shift on both days, and a local clock without daylight-saving jumps; the two clock readings of a check are one.
- Scheduler.RunForShift: parent notifications of absences are not modelled; a conflict rolls one producer back as a whole.
- StudentLessonAttendance: the display order of lessons is not modelled, and membership times are given as local times.
- AttendanceReport: the name filter and the percentage are left out; they read the rows that are modelled.
- SubmitAttendance: sending the notifications after the commit is an entry in `told`; a second submission that commits first is `commitFails`.
- RegisteredExactly: a serial that cannot be a dictionary key is not modelled: it ends the connection before it is registered, and the teardown raises before it unregisters anything, so an earlier entry of the same socket stays registered with its poll task and futures; the pending command queue of offline devices, in which only the failing command of an interrupted run is queued again, is not modelled; nor are the status dictionary and the message formats.
- Device.Sync: exceptions inside the scan end the sync in the source and are not modelled; the details list for display is left out.
- Scheduler.CheckSchool: amounts are reals instead of floats and decimals, and the sent and skipped counters are not modelled; the push after the commit cannot undo it.
- Publisher.FanOut: failures before the schedule check are reported as errors in the source and not modelled; recipients and texts of a fan-out are left out.
- Publisher.FlushPending: assumes that no homework is created or edited meanwhile, without which the source's loop need not end.
- AmountToWords: amounts are reals, so infinities and NaN are left out; `num_to_arabic_words` is an older printer and only adds an easier case.
- The daily queue, instructor attendance, and roster views of the institute module only group what is modelled.
- HTTP, websockets, Firebase, image decoding, SQL and logging are parameters or absent.
