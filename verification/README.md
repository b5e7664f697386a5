# Attendance backend: a verified model

This project models, in Dafny, the stateful middle of a face-recognition attendance system and one loop of its kiosk,
and proves what each part keeps over every run.

| file | what it models |
|---|---|
| `Gallery.dfy`, `Matcher.dfy`, `Rankings.dfy` | the face gallery: N workers with in-memory copies, one database with a version counter, and the exact matcher |
| `Resolver.dfy`, `Attendance.dfy` | the attendance resolver: stamping events, classifying a date, stale calls and deletions |
| `DayOutcome.dfy` | what one call of the resolver leaves, column by column, from the scans, settings and clock alone |
| `ManyDates.dfy` | the resolver over many dates that share their events |
| `DecisionTable.dfy` | the documented decision table, and exactly when the resolver follows it |
| `Scheduling.dfy`, `SchedulePlans.dfy` | the choice of a schedule assignment, the row it plans and the expansion of schedules into expected rows |
| `MergeForest.dfy`, `PersonMerge.dfy`, `Rebuild.dfy` | merging duplicate people: the alias forest, the row moves, totals and the rebuild under aliases |
| `Limiters.dfy`, `LimiterHistory.dfy` | the rate limit and the unknown-face lockout, in memory and as Redis scripts with expiring keys, and whom they admit |
| `Notifications.dfy`, `GuardianAlerts.dfy` | guardian notifications: queueing, retraction, delivery with retries |
| `AbsenceAlerts.dfy` | the resolver and the notifications together: which recorded arrivals take the absence alert back |
| `FrameBursts.dfy`, `EventKeys.dfy`, `ScanReplay.dfy` | combining the frames of a burst, the keys of event rows, and the rows and replies under them |
| `ScanSessions.dfy` | scan sessions: opening, expiring, closing, attributing |
| `ScanLoop.dfy`, `ScanProgress.dfy` | the kiosk's stability queue, throttle and lockout, and when it scans |
| `SettingsCache.dfy` | versioned settings and the cache in front of them |
| `AuditChain.dfy` | the hash-chained audit log |
| `Nms.dfy`, `CropGeometry.dfy` | non-maximum suppression and the two liveness crops |
| `Basics.dfy` | options, results and identifiers |

Objects that the source updates in place are classes here, loops are loops, and each method is proved equal to a
function of the old state; the lemmas are about those functions and about runs of them. Tables are maps from a key to
a row, or sequences where the order of the rows is read. Times are integers (microseconds, seconds or day numbers) or
reals (milliseconds and seconds of the limiters and the kiosk); scores and coordinates are reals.

Where the code falls short of what one would expect of it, the model keeps the code; a lemma says exactly when it does,
and another gives an input:

- Redis refuses a lockout of less than a second, which the settings allow; the in-memory checker does not. The two agree
  on a run exactly when no such lockout falls due (`Limiters.CheckersAgree`, `Limiters.ZeroLockoutDivides`). The bound
  on unknown faces per minute holds exactly when the lockout lasts at least the minute (`Limiters.UnknownBoundExactly`).
- A rewrite of the face rows that drops a face still being enrolled can leave a worker that claims to be current and
  holds the dropped face. After a reload a worker holds exactly the database's faces if and only if every stray face, one
  it has announced since it last loaded and that was no row by then, is a row again (`Gallery.ReloadSynchronises`,
  `Gallery.ScansAgreeExactly`). No stray arises as long as rewrites spare faces still being enrolled
  (`Gallery.SparingRunsLeaveNoStrays`); otherwise it does (`Gallery.DroppedPendingRowComesBack`,
  `Gallery.DroppedRowIsReachable`).
- The resolver and `decision_table.py` disagree on rows that are auto-closed after an arrival inside either limit, and
  on late arrivals past the absence limit (`DecisionTable.TableIsFollowedExactly` and the three inputs after it).
- An arrival of a person who is inactive or has lost all guardians leaves the waiting absence alerts in the queue
  (`Notifications.ArrivalClearsAlerts`, `Notifications.AlertCanLinger`), and so does an arrival that is recorded only
  after the row's auto-close time (`AbsenceAlerts.RecordedArrivalClearsAlertsExactly`,
  `AbsenceAlerts.LateUploadLeavesTheAlert`).
- The lookup for a recorded rejection is a LIKE pattern made of the key. A burst's key stays single exactly if the
  pattern finds the key's own rejections, which a backslash can prevent (`ScanReplay.OneRowExactly`,
  `ScanReplay.BackslashHidesTheRejection`); it is answered with another key's rejection exactly if the key holds a
  wildcard or a backslash (`ScanReplay.WildcardsTakeForeignRecords`, `ScanReplay.UnderscoreTakesForeignRecord`).
- A check-in does not look for a recorded rejection, so a check-in that reuses the key of a rejected burst gives the key
  two rows (`ScanReplay.CheckInKeepsOneRowExactly`, `ScanReplay.ReusedKeyGetsTwoRows`).
- Every schedule lookup uses the dummy location, so assignments to real locations change nothing
  (`Scheduling.RealLocationsNeverDecide`, `Scheduling.LocationPlansNothing`).
- A merge keeps the embeddings' unique keys exactly when the two people share no asset
  (`PersonMerge.EmbeddingKeysSurviveExactly`).

## Model

| member | source | states |
|---|---|---|
| Gallery.GalleryVersionState.BumpRequiredVersion | backend/app/face/gallery.py:100-103 | a bump raises the required version by one and leaves the loaded version alone |
| Gallery.GalleryVersionState.ObserveRequiredVersion | backend/app/face/gallery.py:105-110 | an observed version never lowers the required one; a version below one is an error that changes nothing |
| Gallery.GalleryVersionState.MarkLoaded | backend/app/face/gallery.py:112-116 | the loaded version never falls; without an argument it catches up with the required version |
| Gallery.GalleryIndex.Load | backend/app/face/gallery.py:150-166 | a load replaces the whole contents and sets the index version to the state's loaded version |
| Gallery.GalleryIndex.Add | backend/app/face/gallery.py:168-176 | an add appends one entry and moves required, loaded and index version together to the next version |
| Gallery.GalleryIndex.ReloadIfStale | backend/app/face/gallery.py:239-249 | reloads exactly when the index is behind the larger of the required and the stored version, and then holds the rows read |
| Gallery.StepKeepsInvariant | backend/app/face/gallery.py:342-364 | every step keeps: index version <= required <= database version, and a worker whose required version is the database's holds every row but those still being enrolled, and besides rows exactly its strays, the faces it announced since its last load that were no rows by then |
| Gallery.EveryRunKeepsInvariant | backend/app/face/gallery.py:342-364 | the invariant holds in every state of every run of any number of workers, an enrolment's commit, each of its bump-and-adds and all rewrites interleaved with everything else |
| Gallery.FinishingAdds | backend/app/api/enrollment.py:636-643 | a worker that was current when it began the rest of an enrolment ends current, holding what it held and every entry enrolled |
| Gallery.ReloadSynchronises | backend/app/face/gallery.py:239-249 | after any run, with no enrolment under way, the worker that reloads has index, required and database version equal and holds exactly the database's entries and its strays; it holds exactly the database's entries if and only if its strays are rows |
| Gallery.LoadingForgetsStrays | backend/app/face/gallery.py:239-249 | a reload that really loads leaves the worker without strays |
| Gallery.SparingRunsLeaveNoStrays | backend/app/api/enrollment.py:636-643 | in a run where no rewrite drops a row still being enrolled no worker ever has a stray |
| Gallery.ScanAnswersAsTheDatabase | backend/app/face/gallery.py:220-249 | after such a reload, if the worker's strays are rows, a match gives the decision and scores a match on the database's own listing gives, whatever the order of its rows and the ties |
| Gallery.ScansAgreeExactly | backend/app/face/gallery.py:220-249 | where no two faces share a vector, all scans on the worker answer as on the database's listing if and only if the worker's strays are rows |
| Gallery.DroppedPendingRowComesBack | backend/app/face/gallery.py:342-356 | if a rewrite drops a row still being enrolled, a reload and the rest of the enrolment leave a worker claiming the database's version while it holds the dropped face |
| Gallery.DroppedRowIsReachable | backend/app/api/enrollment.py:636-643 | a four-step run from the start that ends with a current worker holding a stray |
| Matcher.MatchIsBruteForce | backend/app/face/gallery.py:220-290 | top 1 and nearest other person are what a scan of all entries finds, for every ranking of ties and every k >= 1 |
| Matcher.AcceptMeans | backend/app/face/gallery.py:317-330 | ACCEPT holds exactly when top 1 reaches the threshold and every entry of any other person scores at least the margin lower |
| Matcher.RefusalsMean | backend/app/face/gallery.py:317-330 | ambiguous exactly if top 1 reaches the threshold and somebody else's entry comes nearer than the margin; of low confidence exactly if no entry reaches the threshold and one the lower one; unknown exactly if none reaches either |
| Matcher.CandidatesAreTheBest | backend/app/face/gallery.py:200-218 | the candidates are the min(k, n) best entries in non-increasing score order |
| Matcher.CandidatesAreEntries | backend/app/face/gallery.py:292-298 | each candidate carries an entry's person, embedding and own score, no entry twice |
| Matcher.TiedRivals | backend/app/face/gallery.py:310-330 | two people tied for the best score are each other's nearest rival at that very score |
| Matcher.MatchDependsOnTheSet | backend/app/face/gallery.py:220-290 | the decision and both scores depend on the set of entries only, not on order, ties or k; with a positive margin so does the person accepted |
| Matcher.AnswersAlikeExactly | backend/app/face/gallery.py:220-290 | a listing that holds all of another's faces, told apart by their vectors, answers every query alike if and only if it holds no more |
| Resolver.AttendanceResolver.StampEvents | backend/app/attendance/resolver.py:215-239 | the two loops give each fetched event the business date, and the shift of the last expected row whose window covers it |
| Resolver.AttendanceResolver.PairEvents | backend/app/attendance/resolver.py:342-353 | arrival is the first event in time, departure the last one if there are two and they are at least the minimal dwell apart |
| Resolver.AttendanceResolver.Decide | backend/app/attendance/resolver.py:368-413 | the nested rules yield the status, the late minutes and the auto-close mark of the record specification |
| Resolver.AttendanceResolver.Classify | backend/app/attendance/resolver.py:335-447 | every column of the record written for an expected row |
| Resolver.AttendanceResolver.ResolveUnscheduled | backend/app/attendance/resolver.py:255-313 | the unscheduled branch writes the dummy grain's record, or returns early without any change when that record is newer |
| Resolver.AttendanceResolver.ResolveScheduled | backend/app/attendance/resolver.py:314-451 | exactly the rows whose record is not newer are written, and one notice is given for each, in order |
| Resolver.AttendanceResolver.DeleteObsolete | backend/app/attendance/resolver.py:453-456 | deletes the records found at the start that were neither resolved now nor newer, and no other |
| Resolver.AttendanceResolver.Resolve | backend/app/attendance/resolver.py:125-458 | one call takes records and events to the specified day and gives the specified notices, in all three branches |
| Resolver.StampingTwice | backend/app/attendance/resolver.py:229-239 | stamping events that are already stamped changes nothing |
| Resolver.StampsAreInvisible | backend/app/attendance/resolver.py:219-451 | neither the records nor the notices of a call depend on the date and shift stamped on events |
| Resolver.TwoCallsAreOne | backend/app/attendance/resolver.py:241-320 | two calls in either order leave records and events as one call at the later time does, early return and deletions included |
| Resolver.CallOrderDoesNotMatter | backend/app/attendance/resolver.py:241-456 | calls at any list of times in any order, from any records, leave the day as one call at the latest time does |
| Resolver.LatestCallDecides | backend/app/attendance/resolver.py:241-456 | if no record is newer than the latest call, the records end as exactly that call's target: one for each grain due, none else |
| ManyDates.DatesDoNotInterfere | backend/app/attendance/resolver.py:684-720 | calls for any dates in any order, all stamping the same events, leave each date's records as one call at that date's own latest time does |
| ManyDates.LastFetchStamps | backend/app/attendance/resolver.py:219-239 | an event ends with the business date of the last call whose query fetched it, so unlike the records the stamps depend on the order of the dates |
| Resolver.RepeatedCallIsSilent | backend/app/attendance/resolver.py:313-451 | repeating a call changes nothing and gives only notices the notification service does not heed |
| Resolver.FirstMeans | backend/app/attendance/resolver.py:336-347 | the first event is an earliest accepted event between two times, a row's window or the day; there is none only if none is accepted |
| Resolver.LastMeans | backend/app/attendance/resolver.py:348-353 | there is a last event exactly if there are at least two accepted events between the two times and some two of them are the minimal dwell apart, and then it is a latest one |
| Resolver.StatusMeans | backend/app/attendance/resolver.py:381-413 | pending, absent, incomplete, late and on time, each if and only if a condition on the accepted events of the window, the settings and the clock |
| Resolver.LateMinutesMean | backend/app/attendance/resolver.py:395-404 | late minutes are the whole minutes by which even the earliest arrival misses the grace period, and there are none otherwise |
| Resolver.StatusMovesForward | backend/app/attendance/resolver.py:381-413 | as time passes a row's status only moves from pending to absent or from on time or late to incomplete; no other column changes but the time and the auto-close flag; no row becomes complete but by an override |
| DayOutcome.ScheduledIdsMean | backend/app/attendance/resolver.py:439-446 | a row's record names an earliest arrival, or none exactly if nobody arrived; a latest one exactly if two arrivals are the minimal dwell apart, else none; its own row, the override of its grain and the time of the call |
| DayOutcome.ScheduledFlagsMean | backend/app/attendance/resolver.py:416-429 | late, left early, elsewhere, backdated and auto-closed, each if and only if a condition on the arrivals, the settings and the clock |
| DayOutcome.PrecedenceMeans | backend/app/attendance/resolver.py:373-380 | override, excuse, holiday and day off in this order, each exactly if it is the first that applies |
| DayOutcome.UnscheduledMeans | backend/app/attendance/resolver.py:258-306 | the record of an unscheduled day names an earliest accepted event of the day, a latest one exactly if two are the minimal dwell apart, and is backdated exactly if one of them is |
| DayOutcome.UnscheduledColumnsMean | backend/app/attendance/resolver.py:282-308 | it is present-unscheduled but for an override, whose id and status it takes, and has no late minutes, no expected row and no other flag |
| DayOutcome.RecordsLeft | backend/app/attendance/resolver.py:241-456 | a call keeps every newer record; unless it stops at a newer unscheduled one, it leaves besides exactly one record for each expected grain, or one for an unscheduled day with an accepted event |
| DayOutcome.RecordsLeftAreOwn | backend/app/attendance/resolver.py:255-446 | each of these records is the one of its own row, or of the unscheduled day |
| DayOutcome.NoticesTellWhatWasWritten | backend/app/attendance/resolver.py:313-451 | a notice is given if and only if its grain was written by the call, with the status written and the status before |
| DayOutcome.NoticesAreDistinct | backend/app/attendance/resolver.py:313-451 | no grain is told of twice in one call |
| DayOutcome.StampMeans | backend/app/attendance/resolver.py:186-239 | an event in reach of the rows, or on the bare day, gets the date, and the shift of the last row whose window holds it; every other event and every other column stays |
| DecisionTable.TableIsFollowedExactly | backend/app/attendance/decision_table.py:38-91 | the resolver's status is one the first matching row of the table allows if and only if the row is not classified by events, nobody arrived, or: an auto-closed row's first arrival is past both the grace and the absence limit, and a late one's is inside the absence limit |
| DecisionTable.ClosingHidesPunctuality | backend/app/attendance/decision_table.py:70-84 | an arrival on time by the table that the resolver records as incomplete |
| DecisionTable.ClosingHidesLateness | backend/app/attendance/decision_table.py:74-84 | an arrival late by the table that the resolver records as incomplete |
| DecisionTable.VeryLateIsStillLate | backend/app/attendance/decision_table.py:74-89 | an arrival past the absence limit, which the table calls on time or complete and the resolver late |
| AbsenceAlerts.RecordedArrivalClearsAlertsExactly | backend/app/notifications/service.py:211-229 | when the resolver records an arrival, no absence alert of the grain waits afterwards if and only if none waited before, or the row is not auto-closed by then and the change to on time or late, read off the events, is heeded |
| AbsenceAlerts.LateUploadLeavesTheAlert | backend/app/attendance/resolver.py:406-413 | a run in which an absent record turns incomplete, names the arrival, and the alert stays queued |
| Attendance.SortsStably | backend/app/attendance/resolver.py:346-346 | sorting by time keeps the multiset, puts it in order, and keeps the order of events of one instant |
| Scheduling.ChosenIsFirstHighest | backend/app/models/scheduling.py:206-240 | the chosen assignment is the first of those that apply and that none outranks by scope, priority and start; there is none only if none applies |
| Scheduling.RealLocationsNeverDecide | backend/app/attendance/resolver.py:528-545 | dropping every assignment to a location other than the dummy changes nothing that any run does to rows or flags |
| Scheduling.LocationPlansNothing | backend/app/attendance/resolver.py:528-560 | a schedule assigned only to a real location plans no row for anybody, where the same assignment to the organisation plans one |
| Scheduling.PlannedRowIsValid | backend/app/attendance/resolver.py:590-615 | a planned row ends after it starts and within two days, for every shift, crossing midnight or not, so the table's check holds |
| SchedulePlans.AppliesMeans | backend/app/models/scheduling.py:222-232 | an assignment applies from its first to its last day to its person, to the members of its group on that day, at the dummy location, or to everybody |
| SchedulePlans.OutranksMeans | backend/app/models/scheduling.py:235-240 | person before group before location before organisation, within a scope by priority and then by the later start |
| SchedulePlans.RowIsPlannedExactly | backend/app/attendance/resolver.py:545-571 | a row is planned exactly if an assignment is chosen, its schedule is known and has a rule for the weekday; nothing is decided exactly if the chosen assignment's schedule is unknown |
| SchedulePlans.PlannedKeyMeans | backend/app/attendance/resolver.py:571-640 | key, schedule, location and working day of the planned row come from the chosen assignment and the first of its schedule's rules for the weekday |
| SchedulePlans.PlannedTimesMean | backend/app/attendance/resolver.py:592-615 | on the schedule's clock the row starts at the shift's start on the date and ends at its end, on the next date exactly if the shift crosses midnight or ends no later than it starts; without a known shift it runs from eight to five with absence due after sixty minutes |
| SchedulePlans.RowAfterRun | backend/app/attendance/resolver.py:551-676 | no run deletes a row; it adds exactly the planned ones, and a row that loses its plan is voided with everything else kept |
| Scheduling.ScheduleExpander.VoidLive | backend/app/attendance/resolver.py:634-647 | voids exactly the live rows of the date other than the kept one and tells whether there were any |
| Scheduling.ScheduleExpander.ExpandDate | backend/app/attendance/resolver.py:545-678 | one date is changed as its plan says, and flagged exactly when something changed |
| Scheduling.ScheduleExpander.ExpandSchedules | backend/app/attendance/resolver.py:512-682 | the loops over people and dates apply the plans of the work list, in order |
| Scheduling.WorkIsTheRange | backend/app/attendance/resolver.py:512-522 | the dates processed are those of the range that are not past, or all of them if past ones are allowed |
| Scheduling.ExpansionMeetsThePlan | backend/app/attendance/resolver.py:512-682 | after a run a processed date with an assignment and a rule has exactly one live row, the planned one; one with no assignment or no rule has none; all other dates keep rows and flags |
| Scheduling.SecondRunIsIdle | backend/app/attendance/resolver.py:656-678 | a second run over the same tables, at the same or a later time, changes no row and sets no flag |
| Scheduling.FlagsMarkTheChanges | backend/app/attendance/resolver.py:642-678 | a run flags a date for the resolver if and only if it changes the date's rows |
| MergeForest.CanonicalPersonId | backend/app/people/merge.py:135-146 | the walk ends at the root if there is one, and reports a cycle exactly if there is none |
| MergeForest.CyclesNeverEnd | backend/app/people/merge.py:139-146 | once the walk meets a person again it never leaves the people already seen, so raising then is right |
| MergeForest.MergeRedirects | backend/app/people/merge.py:122-146 | a merge keeps the map acyclic and redirects to the survivor exactly those who resolved to the duplicate |
| MergeForest.RunsStayAcyclic | backend/app/people/merge.py:122-146 | after any run of merge requests everybody resolves, to somebody not merged away |
| MergeForest.AttendanceTotals | backend/app/people/merge.py:163-179 | the totals count, for each root, the distinct event ids whose first owner resolves to it; the call fails only if some owner does not resolve |
| MergeForest.OwnersMean | backend/app/people/merge.py:163-175 | an event id counts for the person of its first row that has one, and only if it has such a row |
| MergeForest.MergeConservesTotals | backend/app/people/merge.py:163-179 | a merge adds the duplicate's total to the survivor's, removes the duplicate and changes nobody else's |
| MergeForest.TotalsAddUp | backend/app/people/merge.py:163-179 | the totals add up to the number of distinct event ids with a person |
| PersonMerge.Database.DeactivateConflictingEmbeddings | backend/app/people/merge.py:187-208 | afterwards no model is active for both people, every model active for one still is for one, the survivor's embeddings are untouched and the duplicate's lose at most their active mark; the count is the number of rows altered |
| PersonMerge.Database.DedupeGuardianLinks | backend/app/people/merge.py:211-225 | afterwards no guardian is linked to both people, every guardian of either still is to one, and only links of the duplicate are gone; the count is the number gone |
| PersonMerge.Database.MoveConsents | backend/app/people/merge.py:228-250 | no consent is lost or edited but for its owner, only those whose key the survivor has stay behind, and the survivor has every key either had; the count is the number of rows altered |
| PersonMerge.Database.MoveGroupMemberships | backend/app/people/merge.py:253-275 | no membership is lost or edited but for its owner, only those whose key the survivor has stay behind, and the survivor has every key either had; the count is the number of rows altered |
| PersonMerge.Database.MergeDuplicatePerson | backend/app/people/merge.py:43-119 | a refused merge changes nothing; any other leaves every table in the specified state, bumps the gallery version once and reports the right counts |
| PersonMerge.PeopleAfterMerge | backend/app/people/merge.py:122-132 | a merge is accepted exactly for two different known people, neither merged away; it keeps all other people and leaves the duplicate inactive, with the survivor, the time of the merge and a time of deactivation |
| PersonMerge.RefusalsMean | backend/app/people/merge.py:51-63 | which complaint a refused request gets |
| PersonMerge.SummaryCountsTheChanges | backend/app/people/merge.py:65-119 | each count of the summary is the number of rows that differ afterwards in the way it names, and the gallery version rises by one |
| PersonMerge.EveryRunRetiresTheMerged | backend/app/people/merge.py:122-132 | if nobody merged away is active at the start of a run of merge requests, nobody is at its end, and people the run does not merge away stay as they were |
| PersonMerge.ConsentsAreConserved | backend/app/people/merge.py:228-250 | no consent is lost or edited; only colliding ones stay with the duplicate; the survivor has every key either had |
| PersonMerge.MembershipsAreConserved | backend/app/people/merge.py:253-275 | the same for group memberships |
| PersonMerge.GuardiansAreConserved | backend/app/people/merge.py:211-225 | exactly the shared links go; the duplicate keeps none; the survivor is linked to every guardian either had, once |
| PersonMerge.EmbeddingsAreConserved | backend/app/people/merge.py:65-104 | no embedding is lost; the duplicate keeps none; per model the survivor's active ones are its own if it had any, else the duplicate's |
| PersonMerge.AssetsAreConserved | backend/app/people/merge.py:278-287 | every asset of the duplicate becomes the survivor's, all else unchanged |
| PersonMerge.EmbeddingKeysSurviveExactly | backend/app/people/merge.py:187-208 | the embedding keys stay unique if and only if the two people share no asset |
| PersonMerge.PointersFollowTheForest | backend/app/people/merge.py:122-132 | the request is refused exactly when the forest forbids it, and the stored pointers become the merged forest |
| PersonMerge.MergesKeepEveryKey | backend/app/people/merge.py:43-119 | one merge keeps the unique keys of every table and the ownership of assets |
| PersonMerge.EveryRunKeepsKeys | backend/app/people/merge.py:43-119 | so does every run of merges, and the pointers stay acyclic |
| Rebuild.CanonicalGrain | backend/app/models/attendance.py:331-351 | a grain's person is replaced by its root; a cycle is an error |
| Rebuild.RebuildAttendanceRecords | backend/app/models/attendance.py:354-404 | the dictionary and list loops build the specified records; the call fails exactly if some person it has to resolve is on a cycle |
| Rebuild.OneRecordPerGrain | backend/app/models/attendance.py:354-404 | there is exactly one record for each canonical grain of the expected rows, stemming from one of them and naming its earliest and latest matching events |
| Rebuild.FirstsAreFirst | backend/app/models/attendance.py:367-370 | each canonical grain stands for the first expected row that has it |
| Rebuild.FirstsKeepOrder | backend/app/models/attendance.py:367-370 | and the grains keep the order of those rows |
| Rebuild.ColumnsMean | backend/app/models/attendance.py:374-402 | a record names that first row and the last override of its grain, whose status it takes; without one it is on time exactly if the grain has an event, else pending |
| Rebuild.AliasesAreRewriting | backend/app/models/attendance.py:354-419 | rebuilding under aliases equals rewriting every row, event and override to its root first and rebuilding without aliases |
| Limiters.InMemoryCooldownChecker.CheckRateLimit | backend/app/scan/cooldown.py:121-137 | trims the device's log to one second, then refuses at the limit or admits and records |
| Limiters.InMemoryCooldownChecker.CheckUnknownRate | backend/app/scan/cooldown.py:139-169 | the whole new state of the minute's log and the lockouts, and the verdict |
| Limiters.RedisCooldownChecker.CheckRateLimit | backend/app/scan/limits.py:23-39 | the keyspace and verdict after the rate script, expiry included |
| Limiters.RedisCooldownChecker.CheckUnknownRate | backend/app/scan/limits.py:42-70 | the keyspace and verdict after the lockout script, with the failure of an expiry below one second |
| Limiters.RateStepAgrees | backend/app/scan/limits.py:23-39 | from agreeing states one rate check gives the same verdict in both checkers and keeps them agreeing, key expiry included |
| Limiters.UnknownVerdictsAgree | backend/app/scan/limits.py:42-70 | one unknown-face check differs between the checkers if and only if it triggers a lockout of less than a second |
| Limiters.CheckersAgree | backend/app/scan/cooldown.py:121-169 | on every sequence of calls of any devices with any limits and lockouts, both checkers give the same verdicts if and only if no call is due to lock its device out for less than a second |
| Limiters.LongLockoutsAgree | backend/app/scan/cooldown.py:121-169 | with lockouts of at least a second both checkers give the same verdicts on every sequence of calls |
| Limiters.ZeroLockoutDivides | backend/app/scan/limits.py:56-63 | one face more than the limit, with a lockout of zero seconds, gives different verdicts |
| Limiters.RateIsBounded | backend/app/scan/cooldown.py:121-137 | on every run no device gets more than its limit admitted in any one-second window |
| Limiters.UnknownBoundExactly | backend/app/scan/cooldown.py:139-169 | every run keeps to the limit of unknown faces in every sixty-second window if and only if the lockout lasts at least sixty seconds |
| LimiterHistory.RateAdmitsExactly | backend/app/scan/cooldown.py:121-137 | in every run a scan is admitted exactly if fewer than the limit were admitted for the device in the second before it |
| LimiterHistory.UnknownAdmitsExactly | backend/app/scan/cooldown.py:139-169 | in every run an unknown face is admitted exactly if no lockout is running and fewer than the limit were admitted in the minute before it and since the last refusal |
| LimiterHistory.EveryKeyExpires | backend/app/scan/limits.py:22-70 | every key the scripts leave expires two seconds, sixty-two seconds or its lockout after one of the calls |
| Notifications.NotificationService.ProcessRecordNotifications | backend/app/notifications/service.py:76-419 | the outbox after a record change, branch by branch |
| Notifications.NotificationService.DispatchPendingNotifications | backend/app/notifications/service.py:466-543 | the outbox after a batch: sent, rescheduled with doubled delay, or failed at the fifth try |
| Notifications.AbsenceAlertsEveryGuardian | backend/app/notifications/service.py:130-209 | a heeded absence adds one notification for each reachable guardian who receives alerts and has none for the grain yet, over the guardian's channel and at the rule's time; no other row changes |
| GuardianAlerts.OldRowsMean | backend/app/notifications/service.py:217-229 | no change touches a row the outbox has, but a heeded arrival retracts the absence alerts of its grain that still wait |
| GuardianAlerts.NewRowsMean | backend/app/notifications/service.py:130-420 | a row is added if and only if it is an absence or lateness alert for an alerted guardian whose key is free, or the retraction of an absence alert that was sent to a guardian who can be reached |
| GuardianAlerts.AddedRowsMean | backend/app/notifications/service.py:149-417 | an added row is queued, untried, over the guardian's own channel; a retraction is due at once, an alert as the first of the most specific rules or the default says |
| GuardianAlerts.AlertedExactly | backend/app/notifications/service.py:132-147 | a link is found exactly if some link of the guardian wants alerts and can be reached |
| GuardianAlerts.ReachableMeans | backend/app/notifications/service.py:136-147 | a guardian is reached over text messages with a number, or over another channel but none with an address |
| GuardianAlerts.SpecificityMeans | backend/app/notifications/service.py:443-461 | a rule for a group is more specific than one for a kind of person, any restriction more specific than none |
| GuardianAlerts.BatchIsTried | backend/app/notifications/service.py:495-538 | a dispatch tries each notification of its batch once, sent exactly if the gateway takes it over text message or e-mail, else due again after 2, 4, 8 and 16 minutes and failed at the fifth; all others stay |
| Notifications.BestRuleIsFirst | backend/app/notifications/service.py:422-463 | the matching rule is the first of the most specific rules that apply; there is none only if none applies |
| Notifications.KeyTextIsInjective | backend/app/notifications/service.py:158-158 | two dedupe keys over 128-bit ids and the dates of years 1 to 9999 have one text if and only if they are equal, whatever the period labels contain |
| Notifications.UuidTextIsInjective | backend/app/notifications/service.py:158-158 | the canonical text of a UUID, 36 characters long, determines it |
| Notifications.DatesCanBePrinted | backend/app/notifications/service.py:158-158 | some printer of ten characters tells all dates apart, so the key text's assumption on dates can be met |
| Notifications.DeliveriesAreBounded | backend/app/notifications/service.py:495-538 | in every run a notification is tried at most five times and delivered at most once, by its last try, and is SENT exactly then |
| Notifications.GivingUpTakesHalfAnHour | backend/app/notifications/service.py:526-535 | a FAILED notification had five failed tries, the last at least thirty minutes after the first |
| Notifications.FinalIsFinal | backend/app/notifications/service.py:85-99 | a notification that is SENT, FAILED or RETRACTED never changes again and is never tried again |
| Notifications.RetractionsAreOwed | backend/app/notifications/service.py:231-328 | a retraction exists only for a guardian who was sent the absence alert of that grain |
| Notifications.ArrivalClearsAlerts | backend/app/notifications/service.py:89-229 | after an arrival no absence alert of the grain is waiting, if and only if the change was heeded or none was waiting before |
| Notifications.AlertCanLinger | backend/app/notifications/service.py:89-99 | a run that queues an absence alert and leaves it waiting after the arrival, the person having become inactive |
| FrameBursts.RunFrames | backend/app/api/ws_scan.py:726-763 | the frame loop splits the pipeline's answers into outputs and errors, in order |
| FrameBursts.AcceptedExactly | backend/app/api/ws_scan.py:765-865 | a burst is accepted for P if and only if no frame failed liveness, some frame matched and every match is P |
| FrameBursts.AcceptedMatchIsTheBest | backend/app/api/ws_scan.py:836-840 | what is recorded is a match of the burst with the highest score of them all |
| FrameBursts.AcceptedMatchIsTheFirstBest | backend/app/api/ws_scan.py:836-840 | of equally good matches the first frame's is recorded |
| FrameBursts.RejectionIsReadOff | backend/app/api/ws_scan.py:848-929 | the code a rejection is recorded under, if any, as a function of the set of frames |
| FrameBursts.RejectionMeans | backend/app/api/ws_scan.py:765-865 | the code a rejected burst is answered with: failed liveness before all, the recorded code, or that of the first rejected frame |
| FrameBursts.FrameOrderDoesNotMatter | backend/app/api/ws_scan.py:765-865 | reordering or repeating frames changes neither the person accepted, nor the score, nor the rejection recorded |
| ScanReplay.KioskSocket.OnFrameBurst | backend/app/api/ws_scan.py:597-976 | rows and reply after a burst: both lookups, attribution, combination, persistence and the faults |
| ScanReplay.KioskSocket.OnCheckIn | backend/app/api/ws_scan.py:432-595 | rows and reply after a check-in |
| EventKeys.LookupIsPrefix | backend/app/api/ws_scan.py:638-640 | for a key without wildcards the LIKE lookup finds exactly the keys that start with it and a dash |
| EventKeys.RecordedCodeIsReadBack | backend/app/api/ws_scan.py:648-656 | the code recorded behind a key is the one read back if and only if the key names none of the codes tried before it |
| EventKeys.NoBackslashFindsItself | backend/app/api/ws_scan.py:638-640 | a key without a backslash, wildcards or not, finds its own rejections |
| EventKeys.PlainKeysFindOnlyThemselves | backend/app/api/ws_scan.py:638-640 | the lookup of a key finds no rejection of another key of its length if and only if the key has no wildcard and no backslash |
| ScanReplay.OneRowPerBurst | backend/app/api/ws_scan.py:600-666 | over every run of messages with keys of one length, none a check-in under this key, a burst's key that finds its own rejections never has both a success row and a failure row, or two failure rows |
| ScanReplay.OneRowExactly | backend/app/api/ws_scan.py:600-666 | every such run leaves the key at most one row if and only if the key's lookup finds the rejections that can be stored under it |
| ScanReplay.BackslashHidesTheRejection | backend/app/api/ws_scan.py:638-640 | a key with a backslash that can get two rows |
| ScanReplay.ReplayAnswersTheRecord | backend/app/api/ws_scan.py:600-666 | a burst whose plain key is on record adds no row and is answered what the record says |
| ScanReplay.SettledRepliesNeverChange | backend/app/api/ws_scan.py:600-976 | once a burst of a plain key is committed, or rejected with a recorded code that is read back, every later burst under its key, after any other messages with keys of that length, gets the same reply and changes nothing |
| ScanReplay.WildcardsTakeForeignRecords | backend/app/api/ws_scan.py:637-666 | some other key of the same length has a rejection that answers every burst under this key if and only if this key has a wildcard or a backslash |
| ScanReplay.UnderscoreTakesForeignRecord | backend/app/api/ws_scan.py:637-666 | with a rejection under "abc" on record, every burst under "a_c" is answered with it |
| ScanReplay.FreshBurstIsRecorded | backend/app/api/ws_scan.py:867-976 | an unrecorded burst leaves exactly one row if its matches agree and no frame fails liveness, a best match as it was, or if it has a code to record, with the outcome of that code; none otherwise |
| ScanReplay.EveryRowIsEarned | backend/app/api/ws_scan.py:432-976 | in every run each row comes from a granted message: of a check-in with a person, of a best match of a burst, or of the code a burst records |
| ScanReplay.RefusalsMean | backend/app/api/ws_scan.py:432-612 | bursts of no or more than five frames and check-ins with an unknown PIN leave no row; a check-in that commits leaves exactly its own |
| ScanReplay.CommittedIsDurable | backend/app/api/ws_scan.py:875-918 | every committed reply names a row stored under the message's own key |
| ScanReplay.CheckInKeepsOneRowExactly | backend/app/api/ws_scan.py:435-574 | a check-in gives its key a second row if and only if it commits under the key of a recorded rejection |
| ScanReplay.ReusedKeyGetsTwoRows | backend/app/api/ws_scan.py:432-595 | a rejected burst followed by a check-in under the same key does so |
| ScanSessions.CloseScanSession | backend/app/scan/sessions.py:71-80 | an open session gets its end and reason; a closed one stays as it is |
| ScanSessions.CloseIfExpired | backend/app/scan/sessions.py:83-107 | closes exactly the open sessions past the maximum duration or the idle timeout |
| ScanSessions.RequireScanAttribution | backend/app/scan/sessions.py:110-147 | every refusal, and the count and activity of a granted attribution |
| ScanSessions.RunsStaySound | backend/app/scan/sessions.py:71-147 | over every run, scans committed or rolled back: one open session per device, counts equal to the attributions granted and kept, and on roaming devices those less than the idle timeout apart and inside the maximum duration |
| ScanSessions.OpenStaysSound | backend/app/api/sessions.py:74-160 | opening through the service keeps that: an expired session in the way is closed, by the default limits, only if the new one is opened |
| ScanSessions.ClosedIsFinal | backend/app/scan/sessions.py:71-80 | no later step changes a closed session |
| ScanSessions.ScanOfAnOpenSession | backend/app/scan/sessions.py:110-147 | a scan upon an open session is granted its location exactly if the device is fixed there, or roaming and inside both limits; else a roaming device's session is closed for the limit it ran into |
| ScanSessions.ScanWithoutASession | backend/app/api/ws_scan.py:678-712 | without an open session a roaming device is refused, and a fixed one with a location gets a session there and the grant |
| ScanSessions.OpeningSucceedsExactly | backend/app/api/sessions.py:74-160 | an opening succeeds exactly if the device is known, may open there and has no open session inside the default limits |
| ScanSessions.OpeningLeaves | backend/app/scan/sessions.py:35-107 | it closes the session in the way for the limit it ran into, keeps all others and adds the new one as asked |
| ScanLoop.KioskLoop.Tick | frontend/apps/kiosk/src/scan/useScanLoop.ts:435-578 | the new queue, lockout, matched box and burst time after one frame, and whether a burst starts |
| ScanLoop.KioskLoop.FinishBurst | frontend/apps/kiosk/src/scan/useScanLoop.ts:245-385 | the state after a capture ends, submitted or not |
| ScanLoop.ComputeIoUIsSymmetric | frontend/apps/kiosk/src/scan/gate.ts:29-45 | the kiosk's overlap does not depend on the order of the boxes, all that the loop needs of it |
| ScanLoop.IsStable | frontend/apps/kiosk/src/scan/useScanLoop.ts:530-553 | the loop passes exactly the queues that are long enough, span enough time and hold still pair by pair |
| ScanLoop.TrimmingChangesNoBurst | frontend/apps/kiosk/src/scan/useScanLoop.ts:501-553 | on every run the trimmed queue starts a burst exactly when the whole run of stable frames would |
| ScanLoop.StandingDecidesAlike | frontend/apps/kiosk/src/scan/useScanLoop.ts:530-553 | a queue that stands for a run is long enough exactly when the run is, and its final overlap scan never fails |
| ScanLoop.QueueIsTight | frontend/apps/kiosk/src/scan/useScanLoop.ts:519-528 | after trimming, more frames than needed remain only while the second one is still young |
| ScanLoop.NoSecondBurst | frontend/apps/kiosk/src/scan/useScanLoop.ts:440-470 | while the face that was captured stays and does not move away, no further burst starts |
| ScanLoop.BurstsAreSpaced | frontend/apps/kiosk/src/scan/useScanLoop.ts:555-566 | on every run a burst starts at least 400 ms after the last submission |
| ScanLoop.CapturingBlocks | frontend/apps/kiosk/src/scan/useScanLoop.ts:245-260 | while a capture is under way nothing starts another |
| ScanProgress.LockReleasesExactly | frontend/apps/kiosk/src/scan/useScanLoop.ts:438-463 | from a locked state a step unlocks exactly if the face leaves, a single face overlaps the captured one by less than half, or the lock is reset; otherwise lock and face stay |
| ScanProgress.LockIsTakenExactly | frontend/apps/kiosk/src/scan/useScanLoop.ts:360-385 | the lock is taken exactly by the end of a capture with a usable frame, for the face that started it |
| ScanProgress.EveryLockHasAFace | frontend/apps/kiosk/src/scan/useScanLoop.ts:135-150 | in every run a lock has a face, a capture has a trigger, and while either lasts the queue is empty |
| ScanProgress.StartRemembersTheFace | frontend/apps/kiosk/src/scan/useScanLoop.ts:555-578 | a started burst remembers the face it was started for and empties the queue |
| ScanProgress.BurstNeedsAStillFace | frontend/apps/kiosk/src/scan/useScanLoop.ts:465-566 | in every run a burst starts only on a frame that passed the gates, at which the frames seen without interruption end in enough of them, over long enough, each overlapping the next |
| ScanProgress.SteadyFaceIsScanned | frontend/apps/kiosk/src/scan/useScanLoop.ts:465-566 | whenever the kiosk is neither locked nor capturing, frames that pass the gates and hold still, numerous and long enough and reaching past the throttle, start a burst |
| ScanProgress.IoUMeans | frontend/apps/kiosk/src/scan/gate.ts:29-45 | the overlap is the area of the common points over the area of all points of the two boxes, and zero if they have none in common |
| SettingsCache.InMemorySettingsStore.UpsertValue | backend/app/settings/resolver.py:99-117 | an invalid upsert changes nothing; a valid one stores the coerced value and raises the version |
| SettingsCache.UpsertMeans | backend/app/settings/resolver.py:99-117 | an upsert is accepted exactly if key, scope, scope id and value fit; it then replaces that row alone |
| SettingsCache.LastWriteWins | backend/app/settings/resolver.py:99-117 | after every run a row is present exactly if an upsert of it was accepted, holds the last accepted value as coerced, and the version counts the accepted upserts |
| SettingsCache.CachedSettingsResolver.Resolve | backend/app/settings/resolver.py:142-156 | a read through a coherent cache is a read of the store |
| SettingsCache.RunsStayCoherent | backend/app/settings/resolver.py:128-160 | under any interleaving of upserts, reads and lost, repeated or late invalidations every cache stays coherent with the store |
| SettingsCache.InvalidationReloads | backend/app/settings/resolver.py:142-160 | a cache told of a version above its own holds the store's rows after the next read, whatever it held |
| SettingsCache.FirstHitIsMostSpecific | backend/app/settings/resolver.py:177-214 | the row found is the one of the most specific scope that applies |
| SettingsCache.ReadsAreCurrent | backend/app/settings/resolver.py:128-214 | after every run a read takes the device's, else the location's, else the organisation's value, else the default, and reports the store's version |
| SettingsCache.RegistryIsStable | backend/app/settings/registry.py:164-224 | for every type, range and format of the registry, validating a validated value gives it back, as the runs assume |
| SettingsCache.CoercionMeans | backend/app/settings/registry.py:176-207 | a value of the type itself is kept, a number of the other kind converted exactly or refused, a text parsed |
| SettingsCache.AcceptedValuesFit | backend/app/settings/registry.py:164-224 | a value is accepted exactly if it can be coerced and what comes out has the type, lies within the bounds and is well formed |
| AuditChain.VerifyAuditChain | backend/app/audit/chain.py:70-81 | accepts exactly the well-linked chains with authentic digests, returns their head, and otherwise blames the first row that breaks the chain |
| AuditChain.AuditLog.AppendAuditEntry | backend/app/audit/service.py:12-22 | an append adds one row linked to the head and keeps the chain acceptable |
| AuditChain.AuditLog.AuditChainHead | backend/app/audit/service.py:35-48 | count, last id and head digest of the log |
| AuditChain.BuiltLogsAreAccepted | backend/app/audit/service.py:12-22 | every log built by appends is accepted and holds the entries appended, in order |
| AuditChain.SliceIsAccepted | backend/app/audit/chain.py:70-81 | every contiguous slice of an accepted chain is accepted |
| AuditChain.EqualHeadsEqualHistory | backend/app/audit/chain.py:33-81 | with an injective hash, two accepted chains from the start with equal heads hold the same entries |
| AuditChain.EditedRowIsRejected | backend/app/audit/chain.py:70-81 | with an injective hash, changing the content of any one row of an accepted chain makes it rejected |
| AuditChain.GapIsRejected | backend/app/audit/chain.py:70-81 | removing rows from the middle makes the chain rejected |
| AuditChain.TruncationOnlyShowsInTheHead | backend/app/audit/service.py:35-48 | cutting rows off the end is accepted but always changes the head |
| Nms.Nms | backend/app/face/detect.py:26-50 | for every ranking of ties: distinct indexes by score, kept boxes overlap at most by the threshold, every dropped box overlaps a kept one of at least its score by more |
| Nms.OverlapIsSymmetric | backend/app/face/detect.py:36-46 | the overlap of two boxes does not depend on their order, inverted boxes included |
| Nms.IntersectionMeans | backend/app/face/detect.py:36-44 | the intersection of two boxes is the area of the box of their common points, and zero exactly if they have none |
| Nms.OverlapMeans | backend/app/face/detect.py:44-46 | the overlap is the intersection over the area of both boxes less the intersection, plus a small constant |
| Nms.SuppressionIsIdempotent | backend/app/face/detect.py:26-50 | suppressing the kept boxes again keeps them all |
| Nms.SuppressionIsUnique | backend/app/face/detect.py:26-50 | without ties the specification leaves only one possible set of kept boxes |
| CropGeometry.GetNewBoxClamped | backend/app/face/liveness.py:46-74 | 0 <= left <= right <= width - 1 and the same vertically, the box keeps its truncated scaled size and is shifted no further than the image demands |
| CropGeometry.FittedScaleIsLargest | backend/app/face/liveness.py:53-53 | the scale is the largest up to the one asked for at which neither side is longer than the image allows |
| CropGeometry.IntervalMeans | backend/app/face/liveness.py:54-60 | before any shift each side is centred on the box and truncated by less than a pixel at each end |
| CropGeometry.ClampIsNearest | backend/app/face/liveness.py:62-73 | the shift finds the position inside the image nearest to the one asked for |
| CropGeometry.TruncateMeans | backend/app/face/liveness.py:57-60 | truncation goes to the next integer towards zero |
| CropGeometry.CropWithPadding | backend/app/face/liveness.py:13-43 | the crop has exactly the scaled size and each pixel is the source pixel around the rounded centre, or black outside the image |
| CropGeometry.RoundMeans | backend/app/face/liveness.py:19-22 | rounding finds a nearest integer, and of two the even one |
| CropGeometry.WindowMeans | backend/app/face/liveness.py:19-22 | size and centre of the window are off by at most half a pixel |

## Left out

- Routers, schemas, migrations, SQL sessions and WebSocket framing: plumbing around the modelled steps.
- The ONNX models, detection, alignment, embedding and liveness scores: scores, similarities and verdicts are inputs.
- Encryption of face rows, keys, passwords, tokens and pairing: calls into libraries.
- Time zones with daylight saving: a schedule has a fixed offset and the day window of unscheduled dates is an input.
- Floating point: scores, coordinates and limiter times are reals; late minutes use exact division.
- Templates, unsubscribe tokens and the gateways: an attempt to deliver succeeds or fails.
- The cooldown and impossible-travel checks: the two cooldown implementations do not agree, since the Redis expiry runs from the write and the other from a possibly backdated time.
- Gallery.ScansAgreeExactly: asks that vectors tell faces apart, because a stray with the person and vector of a row answers every query as that row does.
- The gallery's unused `remove_embedding`, and three paths that change faces without the modelled steps: the duplicate check's reload inside its own transaction, re-embedding and the retention purge.
- An `add` between the poll and the load of one reload, a crash between the two commits of an enrolment, and two connections racing on one key: the steps modelled are atomic.
- Redirecting `resolve` to the person merged into, dirty flags of the resolver and its re-queueing: the walk itself is in `MergeForest`.
- The event lists the resolver keeps per expected row: they are selected again from the events when a row is classified, which the same objects make equal.
- Surrogate ids of records and expected rows, and the commit of the resolver's early return: the state is what the session sees.
- The foreign key of the dummy shift id, and void timestamps that differ within one expansion.
- The calendar behind a date's text: any printer of ten characters that tells dates apart; Python's parsers of numbers and UUIDs are parameters of the settings registry.
- When a connection commits what a scan did to its session: whether it is kept or rolled back is an input.
- The order in which totals are listed: they are returned as a map.
- `canonicalize_gallery_entries`: a map of the walk over a list.
- Exceptions inside a kiosk capture: `ScanLoop.CapturingBlocks` says what follows if a capture never ends.
- Report generators, the admin interface, the offline queue and the command-line scripts.
