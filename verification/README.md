# Verified model of the backup server's decision procedures

This project models, in Dafny, the parts of the Hyper-V/NetApp backup server that
decide something by themselves: when backups run and which schedules collide, which
snapshots and catalogue rows may be deleted, what a protection class demands, where a
VM's files move, what the metrics condense to, and what a configuration import keeps.
Each is written in the form of the source. Loops over lists, dictionaries and rows are
methods with loops, jobs that change tables are classes, and each of these is proved
equal to a specification function or predicate. What the source and its documentation
promise is then proved about those specifications, over all inputs and over whole runs.

Calls to ONTAP, Hyper-V and the operating system appear only as their answers: whether a
volume could be listed and which snapshots it listed, whether a delete succeeded, whether
the process died and where. The theorems hold for every pattern of such answers. Instants
are integers on one clock (microseconds for schedules, ticks and capacity samples, seconds
for performance samples), floating-point numbers are reals.

## Files

| files | what they model |
|---|---|
| `ClockTimes`, `Schedules`, `Occurrences` | clock texts, the schedule entities, the planned instants of a window |
| `UnionFind`, `ScheduleCollisions`, `CollisionKeys`, `CollisionMeaning` | the union-find over schedule slots, the reported clusters and their keys, and what they are in the calendar |
| `BackupTicks` | the scheduler tick with its checkpoint, crashes at every point, and whole runs of ticks |
| `SnapshotCatalogue`, `MirrorTargets`, `Reconciliation`, `Retention`, `CatalogueJobs` | destination checks, where relationships lead, the reconciliation and retention jobs |
| `RetentionMeaning`, `CatalogueSafety` | what retention keeps; when a catalogue row may disappear |
| `Alerts`, `AlertLaws`, `SiteMismatches` | the alert lifecycle and the grace period for site mismatches |
| `MissedBackups` | the search for missed runs, pauses, and what becomes of dropped instants |
| `ScheduleGaps`, `ProtectionClasses`, `ComplianceLaws` | gaps between runs, the compliance check, its monotonicity, the build-up notes |
| `StoragePaths`, `StorageMove`, `StorageMoveLaws`, `MoveMeaning` | path splitting, planning and verifying a storage move, and where each path goes |
| `Grouping`, `VmPerformance`, `VmPerformanceLaws`, `VmPerformanceRuns`, `PerformanceMeaning` | aggregation, down-sampling and collection runs, value by value |
| `Regression`, `CapacityForecast`, `ForecastMeaning` | least squares, the forecast, its alarm and its curve, and what they say of the samples |
| `ConfigTransfer`, `UserMerge`, `ConfigImport`, `ConfigLaws`, `UserLaws` | export, import, and the merge of users, roles and assignments |
| `MemberKeys` | the keys of protection group members and their migration |
| `Texts`, `Wrappers` | text order, white space, permutations and concatenations, the optional value |

## What turned out not to hold

Each of these is a lemma with the exact condition under which the promise holds, or with
the state in which it fails.

- A schedule two of whose times are read as the same minute starts a backup twice for one
  instant (`BackupTicks.DoubledIffTimeRepeated`). The validation of hourly schedules permits
  that, by a repeated text and by two spellings of one minute
  (`ClockTimes.ValidatedTextsShareAMinute`).
- An instant between the moment a tick samples the clock and the moment it commits its
  checkpoint is never started, although the scheduler never stood still
  (`BackupTicks.CoverageFailsBetweenReadings`; every instant's fate is in
  `BackupTicks.EveryInstantHasOneFate`).
- A destination check keeps one row per destination exactly if no two SnapMirror
  relationships of the source lead to one destination that has no row yet
  (`SnapshotCatalogue.RowsStayDistinctIff`).
- If every listing fails, a selected catalogue row without a known present destination is
  dropped as soon as its primary delete succeeds, whatever the destinations hold
  (`CatalogueSafety.UnseenCopyIsForgotten`).
- The 744 hours documented as the longest distance between monthly runs are a bound exactly
  for days up to the 28th (`ScheduleGaps.MonthlyGapIffShortDay`).
- A disk that looks like a differencing disk only once its path is trimmed is moved, but
  keeps a repeated plan from finding everything in place
  (`StorageMoveLaws.ReplanFindsNothing`, with an input in `StorageMoveLaws.ReplanCanFail`).
- Parsing a made member key gives back its parts exactly for cluster identifiers without a
  separator inside and without a colon at the end (`MemberKeys.ParseUndoesMake`).
- An alert for a missed run that a later success resolved is raised again by the next check
  inside the look-back (`AlertLaws.MissedReturns`, exactly when in
  `AlertLaws.MissedRowAddedIff`), and a detector pass that reports a key twice leaves two
  active alerts for it (`AlertLaws.OnePerKeyIffDistinctTriggers`).
- An instant skipped because of a pause counts as missed once the same group, policy or
  schedule has been paused again (`MissedBackups.PauseExcusesIffLatest`).
- A pause window excuses instants outside every pause exactly if the row was resumed again,
  at a later time, after its latest pause had already ended
  (`MissedBackups.ExcusesPausedOnlyIff`, with an input in `MissedBackups.ResumedTwice`):
  resuming moves the end of the window even when nothing is paused.
- After a standstill longer than 48 hours less the grace period, some instants are examined
  by no check (`MissedBackups.AllExaminedIffCloseTogether`).
- An imported group starts unpaused if a hand-written file gives its flag as a text that the
  database reads as zero (`ConfigLaws.NothingStartsAfterImport`).

## Model

| member | source | states |
|---|---|---|
| ClockTimes.ValidatedIsTimeOfDay | backend/app/core/scheduler.py:712-716 | every text the schedule validation accepts, whatever script its digits are in and whether a line feed follows, is read by the scheduler as the time of day its digits name |
| ClockTimes.SameMinuteIffSameDigits | backend/app/schemas/schedule.py:6-25 | two validated texts name the same minute exactly when their four digits have the same values |
| ClockTimes.ValidatedTextsShareAMinute | backend/app/schemas/schedule.py:6-25 | the validation accepts different texts for one minute: with a line feed behind, or with a digit of another script |
| ClockTimes.ReadAsTime | backend/app/core/scheduler.py:712-716 | any text is read as a time exactly if it has one colon with an integer literal on either side: the hour before it, the minute behind |
| ClockTimes.ReadIsLiteral | backend/app/core/scheduler.py:712-716 | what is read as an integer is white space, a sign or none, digits with single underscores, and white space, and the value has that sign |
| ClockTimes.LiteralIsRead | backend/app/core/scheduler.py:712-716 | and every such text is read |
| Texts.BlanksAre | backend/app/core/scheduler.py:712-716 | white space around a number are these 25 characters |
| Occurrences.OccurrencesWithin | backend/app/api/routes/jobs.py:90-130 | the day-by-day loop returns exactly the planned instants of the half-open window, passing over the times it cannot read; none for a reversed window |
| Occurrences.PlannedMultiplicity | backend/app/api/routes/jobs.py:90-130 | a window holds each of its instants as often as the schedule names it on a firing day, and nothing outside the window |
| Occurrences.WindowsCompose | backend/app/models/scheduler_status.py:26-31 | adjacent half-open windows share no planned instant and lose none |
| Occurrences.PlannedTwiceIffRepeated | backend/app/api/routes/jobs.py:103-130 | some instant is planned twice in some window exactly when the schedule fires at all and two of its times are read as the same time of day, however they are spelled |
| Occurrences.PlannedIffCalledFor | backend/app/api/routes/jobs.py:103-130 | a window plans exactly those of its instants that begin the minute of a readable time on a day of the schedule: any day, its weekday counted from a Thursday as day 0, or its day of the month |
| Occurrences.WeekdaysFollow | backend/app/api/routes/jobs.py:106-109 | day 0 is a Thursday and the seven weekdays follow each other |
| UnionFind.HalvingKeepsRoots | backend/app/core/scheduler.py:731-735 | pointing a node at its grandparent keeps every root and strictly raises the height along the path, so lookups end and the parents stay free of cycles |
| UnionFind.LinkingMovesOneTree | backend/app/core/scheduler.py:737-740 | hanging one root below another moves exactly the members of the first tree and creates no cycle |
| UnionFind.Forest.Find | backend/app/core/scheduler.py:731-735 | the lookup with path halving ends, returns the root of the start node and changes no node's root |
| UnionFind.Forest.Union | backend/app/core/scheduler.py:737-740 | after joining, the members of the first tree have the second's root and all other roots are as before |
| ScheduleCollisions.CircularDistanceIsLeast | backend/app/core/scheduler.py:665-667 | the circular distance is the least distance between the two times when both repeat every day, and that least distance is attained |
| ScheduleCollisions.CollectSlots | backend/app/core/scheduler.py:704-727 | the slots are those of the enabled, unpaused links in order, unparsable times skipped |
| ScheduleCollisions.UniteCollisions | backend/app/core/scheduler.py:742-747 | after the double loop two slots have one root exactly when a chain of collisions connects them |
| ScheduleCollisions.FindCollisions | backend/app/core/scheduler.py:670-761 | the reported clusters are exactly those the declarative definition by connected components lists |
| CollisionKeys.EverySlotHasOneLeader | backend/app/core/scheduler.py:749-751 | every slot lies in the component of exactly one first slot, so in at most one reported cluster |
| CollisionKeys.ReportedExactlyTheComponents | backend/app/core/scheduler.py:749-761 | a cluster is reported exactly when it is the connected component of a slot that collides with another one |
| CollisionKeys.KeysAreCanonical | backend/app/core/scheduler.py:753-761 | for any permutation of the links, whatever their times, the reported clusters are the same, members and all, and so is the set of their keys |
| CollisionKeys.KeysAreDistinct | backend/app/core/scheduler.py:753-761 | different components of at least two slots never share a key, for identifiers without the separators of a key |
| CollisionKeys.ReportedKeysDiffer | backend/app/core/scheduler.py:749-761 | no two reported clusters carry the same key |
| CollisionMeaning.CompatibleIffCommonDay | backend/app/core/scheduler.py:647-662 | two schedules that fire at all are taken for compatible exactly if in some calendar both fire on one day and they are not one weekly and the other monthly; for such a pair that day exists too, and is passed over |
| CollisionMeaning.CompatibleByColumns | backend/app/core/scheduler.py:647-662 | compatible means: one of them fires every day, or both are weekly with one weekday, or both monthly with one day of the month |
| CollisionMeaning.SlotsAreReadableTimes | backend/app/core/scheduler.py:705-727 | the slots are the readable times, in minutes of the day, of the links with schedule, policy and group whose policy is enabled and whose schedule is not paused |
| CollisionMeaning.SlotsCollideIff | backend/app/core/scheduler.py:742-747 | two slots collide exactly if the columns of their schedules allow a common day and, repeated daily, their times come within the threshold of each other |
| CollisionMeaning.ReportedClusterIsWritten | backend/app/core/scheduler.py:753-761 | a reported cluster has two or more members, readable times of links that take part, by time, group and policy, and its key spells group, policy and time of each in this order between bars |
| Texts.TextLeByFirstDifference | backend/app/core/scheduler.py:757 | texts are ordered by the first character in which they differ, a beginning before the whole |
| BackupTicks.BackupJob.Run | backend/app/core/scheduler.py:1755-1870 | one tick, with a crash at any of its points, changes checkpoint and started backups as the step relation says: window from the last check or the catch-up limit, due list, commit, and entry by entry a start unless its group, policy or schedule is paused at its turn |
| BackupTicks.RunTicks | backend/app/core/scheduler.py:1755-1870 | ticks carried out one after another leave what the run over the ticks leaves, so the theorems about runs hold of the job |
| BackupTicks.StartedIffUnpausedTurn | backend/app/core/scheduler.py:1821-1862 | over every run an entry was started exactly if some tick that committed lived long enough to process it in its due list, at a turn when its group was not paused, its policy enabled and its schedule not paused, and the start was accepted |
| BackupTicks.StartedIsCalledFor | backend/app/core/scheduler.py:1763-1862 | whatever was started was called for by a link with schedule, policy and group, on a day and at a minute of its schedule, in the window of a committed tick |
| BackupTicks.CalledForIsStarted | backend/app/core/scheduler.py:1763-1862 | what a link calls for in the window of a tick that survives and meets nothing paused, disabled or refused is started |
| BackupTicks.StartsAreAccountedFor | backend/app/core/scheduler.py:1788-1870 | over every run, each start belongs to one tick whose window holds its instant and whose links demand it, no more often than they do |
| BackupTicks.WindowsAreDisjoint | backend/app/core/scheduler.py:1763-1779 | with a monotone clock no instant lies in the windows of two ticks |
| BackupTicks.CheckNeverMovesBack | backend/app/core/scheduler.py:1818-1819 | the committed checkpoint never decreases over a run |
| BackupTicks.AtMostOnce | backend/app/core/scheduler.py:1799-1870 | over all sequences of ticks, crashes, pauses, failures and configuration changes no (link, instant) is started twice, as long as no two times of a schedule are read alike |
| BackupTicks.DoubledIffTimeRepeated | backend/app/core/scheduler.py:1788-1870 | a schedule can be started twice for an instant exactly when it fires at all and two of its times are read alike, whatever their spelling |
| BackupTicks.EveryInstantHasOneFate | backend/app/core/scheduler.py:1755-1819 | between the first window and the last checkpoint every instant is due in exactly one tick, or cut off by the catch-up limit, or lies between a sampled and a committed reading, and only one of these |
| BackupTicks.DueFateIsDue | backend/app/core/scheduler.py:1788-1797 | the tick an instant is due in has it in its list as often as its links demand |
| BackupTicks.DroppedNeverStarts | backend/app/core/scheduler.py:1763-1819 | a cut-off or in-between instant is never started, however long the scheduler runs on |
| BackupTicks.CoverageFailsBetweenReadings | backend/app/core/scheduler.py:1755-1819 | two ticks a minute apart without crash or failure that start nothing for an instant between the readings of the first |
| SnapshotCatalogue.KnownDestinationsAfter | backend/app/core/scheduler.py:357-405 | a known destination ends present exactly if the last listing read for it holds the snapshot, or none was read and it was present before, whatever listings fail |
| SnapshotCatalogue.AnyPresentAfterCheck | backend/app/core/scheduler.py:345-406 | exactly when some destination counts as present after a check, in terms of the listings read, earlier presence, and listings that show the snapshot on a new destination |
| SnapshotCatalogue.VerdictStands | backend/app/core/scheduler.py:359-405 | with distinct destination paths a known destination whose listing was read ends present exactly if the listing holds the snapshot's name |
| SnapshotCatalogue.ListedCopyIsPresent | backend/app/core/scheduler.py:359-405 | if a listing that was read holds the snapshot's name, some destination counts as present |
| SnapshotCatalogue.EveryRelationshipIsRecorded | backend/app/core/scheduler.py:359-405 | with distinct destination paths every relationship with a usable path leaves a row for its SVM and volume that records the relationship, the system and volume as far as found, and presence and time exactly if a listing was read; a new row starts absent |
| MirrorTargets.MirrorsLeaveTheVolume | backend/app/core/scheduler.py:345-352 | a row is checked against exactly the relationships whose source is its SVM and volume, each as often as discovered, and against none without these or without a snapshot name |
| MirrorTargets.SystemIsLookedUp | backend/app/core/scheduler.py:327-336 | the destination's system is the last registered one that ONTAP or the application calls by the name, in any case, or else the one that reported the relationship |
| MirrorTargets.TargetIsNamedByPath | backend/app/core/scheduler.py:360-362 | SVM and volume are what stands before and behind the first colon of the destination path |
| MirrorTargets.ListableIffDiscovered | backend/app/core/scheduler.py:327-396 | a listing is taken from a volume exactly if the path names its SVM and name, the destination's system is registered, and the first volume discovered there under these carries that identifier |
| SnapshotCatalogue.RowsStayDistinctIff | backend/app/core/scheduler.py:357-368 | after a check every destination has one row exactly if that was so before and no two relationships of the source lead to the same destination not known before |
| SnapshotCatalogue.SharedTargetDoublesRow | backend/app/core/scheduler.py:357-368 | on a snapshot without destination rows, two relationships with one destination path write two rows for it in one check |
| CatalogueJobs.Catalogue.CheckDestinations | backend/app/core/scheduler.py:345-406 | the relationship loop over one row's destinations computes the specified destinations and leaves every other row alone |
| CatalogueJobs.Catalogue.RetainGroup | backend/app/core/scheduler.py:466-534 | one (cluster, volume) group: nothing while the system is unknown, otherwise the overdue rows are deleted, kept or dropped as their delete and destinations say |
| CatalogueJobs.Catalogue.RetainPolicy | backend/app/core/scheduler.py:448-534 | grouping and deleting group by group equals applying the policy's selection to the catalogue it started from |
| CatalogueJobs.Catalogue.RunRetention | backend/app/core/scheduler.py:423-534 | the whole job equals applying all policies' selections at once; an earlier policy does not disturb a later one |
| CatalogueJobs.Catalogue.CheckPrimary | backend/app/core/scheduler.py:247-269 | volume by volume, success ends for exactly the watched rows whose readable volume does not list their snapshot |
| CatalogueJobs.Catalogue.RunReconciliation | backend/app/core/scheduler.py:228-297 | the whole job equals the specified primary and destination checks on the catalogue it started from |
| RetentionMeaning.RankIsPlace | backend/app/core/scheduler.py:470-473 | in the sorted group of a row, as many rows are ahead of it as its place says, counted on the catalogue without sorting |
| RetentionMeaning.OverdueIffNotKept | backend/app/core/scheduler.py:470-476 | the selection drops exactly the rows the policy does not promise to keep: not among the newest N, or older than the cutoff; N of 0 keeps everything |
| RetentionMeaning.SelectedIff | backend/app/core/scheduler.py:449-500 | a row is selected exactly if it is a successful snapshot of the policy on a known volume, its system is registered and reachable, and the policy does not keep it |
| RetentionMeaning.DroppedExactly | backend/app/core/scheduler.py:449-534 | retention drops a row exactly if some policy does not keep it, its system is registered and reachable, its primary delete succeeds, no known destination ends present, and no listing shows it on a new one |
| RetentionMeaning.SurvivesIffKept | backend/app/core/scheduler.py:462-534 | where the storage system answers and the deletes succeed, a row is still a successful one of its policy exactly if the policy keeps it |
| RetentionMeaning.SecondRunSelectsNothing | backend/app/core/scheduler.py:462-534 | a run whose deletes succeed leaves nothing for a second run at the same instant |
| CatalogueSafety.PerformAll | backend/app/core/scheduler.py:228-534 | backups, reconciliation and retention jobs carried out one after another on the catalogue leave what the run over the events leaves, so the theorems about runs hold of the jobs |
| CatalogueSafety.GoneOnlyIfDropped | backend/app/core/scheduler.py:487-534 | over any sequence of jobs and failures, a row that is gone was dropped by one of the runs in between, its primary delete having succeeded and no destination being marked present at that check |
| CatalogueSafety.SnapshotNeverRewritten | backend/app/core/scheduler.py:487-534 | a dropped row never comes back and a row that stays keeps its snapshot |
| CatalogueSafety.StepKeepsSnapshot | backend/app/core/scheduler.py:265-297 | no job changes what a row says about its snapshot, except that success may end |
| CatalogueSafety.SuccessEndsIffUnlisted | backend/app/core/scheduler.py:254-269 | reconciliation ends a row's success exactly when its volume is known, its system registered, the listing of that volume was read and lacks the snapshot's name |
| CatalogueSafety.ListedCopyKeepsRow | backend/app/core/scheduler.py:508-534 | with distinct destination paths a row whose snapshot's name some listing that was read holds survives retention |
| CatalogueSafety.UndeniedCopyKeepsRow | backend/app/core/scheduler.py:345-406 | a destination known as present keeps its row as long as no listing read for it lacks the snapshot, whatever fails |
| CatalogueSafety.DroppedIffNoCopySeen | backend/app/core/scheduler.py:487-534 | a selected row whose delete succeeds is dropped exactly when no known destination ends present and no listing shows the copy on a new one |
| CatalogueSafety.UnseenCopyIsForgotten | backend/app/core/scheduler.py:508-534 | if every listing fails, a selected row without a known present destination is dropped |
| CatalogueSafety.NothingLingersUnwatched | backend/app/core/scheduler.py:228-297 | reconciliation checks the destinations of a row again exactly if it succeeds on a known volume or was last seen on a destination, and the last of its checks stands; any other row stays as it is |
| Alerts.Board.Run | backend/app/core/scheduler.py:997-1005 | a check's loop over its detections and the final resolving turn the alert rows into the specified ones |
| Alerts.Board.ResolveUnseen | backend/app/core/scheduler.py:1397-1454 | exactly the alerts active before the check are ended that are unseen or, for missed backups, made up for by a later run or aged |
| AlertLaws.ActiveAfter | backend/app/core/scheduler.py:1397-1432 | a key is active after a check exactly if an old alert of it was not resolved or one was triggered |
| AlertLaws.OnePerKeyIffDistinctTriggers | backend/app/core/scheduler.py:1003-1005 | one active alert per key is kept exactly if the detectors do not trigger a key twice |
| AlertLaws.ActiveIffSeen | backend/app/core/scheduler.py:1228-1240 | for self-resolving types: active after a check exactly if seen, except allowed collisions that were not active before |
| AlertLaws.SecondCheckChangesNothing | backend/app/core/scheduler.py:1397-1432 | an identical second check appends no alert of a self-resolving type and leaves every such alert as it is |
| AlertLaws.OldRowAfter | backend/app/core/scheduler.py:1397-1452 | every row that was there stays as it is, unless it is active and what it reports is over: unseen, or for a missed backup made up for by a later run that succeeded or old; then it ends at this check |
| AlertLaws.NewRowsAre | backend/app/core/scheduler.py:994-1005 | the rows a check adds are, column by column, those of the detections that find no active alert and are neither an allowed collision nor a covered run |
| AlertLaws.MissedStaysUntilRecovered | backend/app/core/scheduler.py:1397-1452 | an active missed-backup alert is ended exactly when its group and policy are set and a run of that policy, for that group or for none, with status succeeded or succeeded with errors started after the alert, or when the alert is older than the configured age |
| AlertLaws.MissedRowAddedIff | backend/app/core/scheduler.py:1186-1215 | a check adds a row for a missed run exactly if it reports the run uncovered and no alert for it is active before |
| AlertLaws.MissedReturns | backend/app/core/scheduler.py:1186-1432 | an alert for a missed run that a check ends comes back with the next check that still finds the run uncovered: then there is an ended row and a new active one |
| AlertLaws.MissedReturnsFromNothing | backend/app/core/scheduler.py:1186-1432 | three checks report one uncovered run, and a run of the link that started after the first check succeeded before the second: exactly an ended and an active row are left |
| AlertLaws.AlwaysOnePerKey | backend/app/core/scheduler.py:994-1005 | over every run whose passes report distinct keys no key has two active alerts |
| AlertLaws.CollisionKeysAreDistinct | backend/app/core/scheduler.py:1228-1240 | the collision detector meets that condition: its keys are distinct |
| MissedBackups.PausableRow.Pause | backend/app/api/routes/schedules.py:75-77 | pausing sets the flag and opens a new window, forgetting the one before |
| MissedBackups.PausableRow.Resume | backend/app/api/routes/schedules.py:94-96 | resuming clears the flag and closes the window, if there is one, at this moment |
| MissedBackups.PauseExcusesIffLatest | backend/app/core/scheduler.py:764-777 | over any sequence of pauses and resumes, an instant at which something was paused is excused exactly if it lies in the latest pause |
| MissedBackups.WindowIsExactly | backend/app/core/scheduler.py:764-777 | for every instant: the window left by a sequence of pauses and resumes holds it exactly if it is not before the latest pause and, when the latest event is a resume, not after that |
| MissedBackups.WithinIffPausedOrEnding | backend/app/api/routes/schedules.py:75-96 | between a pause and the next event, both included, lie exactly the instants at which something is paused and those at which a pause is followed by an event |
| MissedBackups.ExcusesPausedOnlyIff | backend/app/api/routes/schedules.py:75-96 | the window excuses only instants within some pause exactly if no resume follows an earlier resume after the latest pause |
| MissedBackups.ResumedTwice | backend/app/api/routes/schedules.py:94-96 | pausing at 10 and resuming at 20 and 50 excuses the instant 30, at which nothing is paused |
| MissedBackups.Search | backend/app/core/scheduler.py:1132-1215 | the loop over links, with the planned instants kept per schedule and window, reports exactly the specified instants in order |
| MissedBackups.ReportsExactlyTheExpected | backend/app/core/scheduler.py:1146-1215 | reported are exactly the instants a link calls for in the last 48 hours after its schedule was created, past the grace period and in no pause, each covered exactly if a run of the link or of its whole policy started from the instant to the end of the grace period |
| MissedBackups.NothingIsLostSilently | backend/app/core/scheduler.py:1146-1432 | after a check, for every instant a link calls for inside the look-back: a pause window excuses it, a run covers it, its alert is active, or this check ended its alert because a run of this link or of its whole policy that started after the alert succeeded, or because the alert is old |
| MissedBackups.AllExaminedIffCloseTogether | backend/app/core/scheduler.py:1136-1164 | a run of checks examines every instant whose grace period is over exactly if no two checks are further apart than 48 hours less the grace period |
| MissedBackups.AlwaysNamed | backend/app/core/scheduler.py:1186-1215 | over every run of checks from an empty board, each missed-backup alert carries the group and policy that its key names |
| MissedBackups.DroppedIsAnswered | backend/app/core/scheduler.py:1132-1432 | an instant the backup job drops, by the catch-up limit or between two clock readings, is never started, and in some check of the run it is excused by a pause window, covered by a run, alerted, or its alert ended because its link's run was made up for or the alert is old |
| SiteMismatches.Observer.Run | backend/app/core/scheduler.py:866-937 | one check updates the observations and reports as specified; a switchover check changes nothing |
| SiteMismatches.FirstSeenBeginsStreak | backend/app/core/scheduler.py:884-937 | over every run the kept time is that of the check that began the VM's current unbroken streak of mismatches |
| SiteMismatches.StreakIsObserved | backend/app/core/scheduler.py:884-937 | the beginning of a streak is unique and every streak is observed |
| SiteMismatches.ReportedIffStreakLongEnough | backend/app/core/scheduler.py:915-937 | a check reports a VM exactly if its streak began at least the grace period ago |
| ScheduleGaps.ListedMinutesAreRead | backend/app/core/protection_class.py:119-130 | for validated times the minutes cut out of the texts are those the scheduler plans by, in every script |
| ScheduleGaps.OnlyTheSetMatters | backend/app/core/protection_class.py:119-130 | order and repetition of the configured times do not change the distinct ascending list |
| ScheduleGaps.GapsFillTheDay | backend/app/core/protection_class.py:119-130 | the cyclic gaps sum to 1440 minutes |
| ScheduleGaps.NextRunWithinLargestGap | backend/app/core/protection_class.py:119-130 | from every minute of the day the next run is at most the largest gap away |
| ScheduleGaps.LargestGapAttained | backend/app/core/protection_class.py:119-130 | after some run nothing happens for the largest gap |
| ScheduleGaps.GapOfTimesIsExact | backend/app/core/protection_class.py:119-130 | the returned maximum is the largest gap, the mean times the runs a day is the day, and the mean never exceeds the maximum |
| ScheduleGaps.NextStartWithinGap | backend/app/core/protection_class.py:119-130 | for hourly and daily schedules, from every instant the next start the scheduler plans is at most the reported largest gap away |
| ScheduleGaps.GapIsReached | backend/app/core/protection_class.py:119-130 | and after some planned start the scheduler plans nothing for that gap |
| ScheduleGaps.NextWeeklyStartWithinGap | backend/app/core/protection_class.py:119-130 | from every instant the next start of a weekly schedule is at most the reported gap away |
| ScheduleGaps.WeeklyGapReachedIffOneTime | backend/app/core/protection_class.py:119-130 | a weekly schedule is quiet for the reported gap after some start exactly if all its times are read alike, which the validation demands |
| ScheduleGaps.AssumedMeans | backend/app/core/protection_class.py:119-130 | the mean is a twelfth of 365 days for monthly schedules, a week for weekly ones, and a day without times |
| ScheduleGaps.MonthlyGapIffShortDay | backend/app/core/protection_class.py:119-130 | the gap reported for monthly schedules bounds every distance of runs exactly for days that every month has |
| ScheduleGaps.MonthlyGapIsReached | backend/app/core/protection_class.py:119-130 | for such days nothing runs for that gap after the run of a month of 31 days |
| ProtectionClasses.TierRequirements | backend/app/core/protection_class.py:71-81 | the list holds exactly the tiers that ask something, finest first, in days |
| ProtectionClasses.DaysAsked | backend/app/core/protection_class.py:63-81 | an entry asks days for the hourly and daily tier, weeks of seven days for the weekly one, months of thirty for the monthly one; no entry asks nothing |
| ProtectionClasses.EffectiveLinks | backend/app/core/protection_class.py:147-175 | the effective links are those of enabled policies with unpaused schedules in unpaused groups, with gap, tier and retention |
| ProtectionClasses.EffectIsJudged | backend/app/core/protection_class.py:154-168 | a link is judged by the largest gap and the mean of its schedule and by its policy's columns; it keeps backups for its days, or for its number of backups at the mean distance |
| ProtectionClasses.CountLasts | backend/app/core/protection_class.py:119-168 | n backups at k runs a day last for n / k days |
| ProtectionClasses.RareCountLasts | backend/app/core/protection_class.py:119-168 | n weekly backups last for n weeks, n monthly ones for n twelfths of a year |
| ProtectionClasses.TierFollowsSchedule | backend/app/core/protection_class.py:63-168 | weekly and monthly schedules have their own tier, one run a day the daily and several the hourly one, and the tiers are ordered so |
| ProtectionClasses.CheckSecondary | backend/app/core/protection_class.py:199-232 | no violation exactly if every volume has a mirrored, labelled rule whose best retention reaches the days |
| ProtectionClasses.KeptIffBest | backend/app/core/protection_class.py:207-230 | the best-of loop decides exactly whether some rule is kept long enough |
| ProtectionClasses.CheckTier | backend/app/core/protection_class.py:246-266 | a side of a tier is reported exactly if it is asked for and not kept by a link of that tier or a finer one |
| ProtectionClasses.CheckConfig | backend/app/core/protection_class.py:235-274 | no violation exactly if the quantified specification of the class holds; for every tier a side the class asks for is reported exactly where it is violated, deduplication loses none, and a missing relationship counts for every tier that asks |
| ProtectionClasses.TiersDecide | backend/app/core/protection_class.py:246-266 | reported tiers decide whether every required tier is kept |
| ProtectionClasses.FulfilledIff | backend/app/core/protection_class.py:199-274 | a class is fulfilled exactly if some link backs up often enough, every entry's days, weeks or months are reached by a link of the tier or a finer one, and on every volume by a mirrored label's count at the link's mean distance, and, where asked, an application-consistent link backs up often enough |
| ComplianceLaws.AddedLinksStayFulfilled | backend/app/core/protection_class.py:147-274 | a group that fulfils a class still does after further links are added to it |
| ComplianceLaws.FulfilledIsMonotone | backend/app/core/protection_class.py:235-274 | a fulfilled class stays fulfilled when links are added or bettered, mirrors keep more, volumes are removed, the age limit is raised or a requirement is lowered |
| ComplianceLaws.Reachable | backend/app/core/protection_class.py:326-331 | the source's test whether a side is configured well enough agrees with the check of that side |
| ComplianceLaws.ReachNotes | backend/app/core/protection_class.py:303-336 | a tier is noted as building up on a side exactly while its configuration suffices and its oldest backup is too young, so never where the check reports that side |
| ComplianceLaws.BuildingIffTooYoung | backend/app/core/protection_class.py:303-336 | a tier is building up exactly if its entry asks something, the configuration gives it, and all backups of its links, of which there are some, are younger than asked by more than a day, a week or 31 days |
| StoragePaths.BelowRoot | backend/app/core/storage_move.py:23-47 | everything below a storage root splits into that root and the rest |
| StoragePaths.LiesOnRoot | backend/app/core/storage_move.py:38-47 | a path below a root lies on that root whatever trimming does to its end |
| StoragePaths.RestSurvivesMove | backend/app/core/storage_move.py:38-47 | a trimmed path moved below another root keeps its rest to the letter |
| MoveMeaning.SplitsAtRoot | backend/app/core/storage_move.py:19-47 | a path splits into root and rest exactly if the root is a folder below ClusterStorage on a drive, in any case, or a share of a server, and nothing or a backslash and more follows |
| MoveMeaning.TrimTakesOff | backend/app/core/storage_move.py:28-47 | trimming takes off all white space around, and of what is left all backslashes at the end |
| MoveMeaning.SpacesAre | backend/app/core/storage_move.py:28-47 | white space around a path are the 29 characters Python counts as such |
| Texts.LettersFold | backend/app/core/storage_move.py:54-55 | folding turns the 26 capital letters into the small ones and leaves every other character |
| StorageMove.PlanDisks | backend/app/core/storage_move.py:114-133 | the disk loop reports an error exactly if a disk is differencing, off storage or shares a folded destination, and otherwise lists exactly the disks that move |
| StorageMove.PlanStorageMove | backend/app/core/storage_move.py:85-143 | the plan is error-free exactly if nothing hinders the move and something moves, and consists of "already there" exactly if nothing hinders it and nothing moves |
| MoveMeaning.UnhinderedIff | backend/app/core/storage_move.py:85-143 | nothing hinders a move exactly if there is no checkpoint, every disk and folder that is set lies on storage, no disk ends in .avhdx in any case, and no two disks go to one place |
| MoveMeaning.SomethingMovesIff | backend/app/core/storage_move.py:85-143 | something moves exactly if some disk or folder lies on another root than the destination |
| MoveMeaning.PlannedDisksAre | backend/app/core/storage_move.py:100-133 | an error-free plan moves exactly the disks that lie on another root, each to the same place below the destination |
| MoveMeaning.PlannedFoldersAre | backend/app/core/storage_move.py:100-141 | and exactly such folders of configuration, snapshots and paging |
| MoveMeaning.CandidatesAre | backend/app/core/storage_move.py:129-139 | what must not exist beforehand are the destinations of the disks and, if the configuration moves, its file under Virtual Machines there |
| StorageMove.VerifyStorageMove | backend/app/core/storage_move.py:146-161 | no problem exactly if every planned path is where it was planned |
| StorageMoveLaws.PlannedMoveVerifies | backend/app/core/storage_move.py:85-161 | applying an error-free plan leaves a layout in which verification finds no problem |
| StorageMoveLaws.ReplanFindsNothing | backend/app/core/storage_move.py:85-143 | planning again to the same root finds nothing left to move, and nothing in the way exactly if no disk that moved looks like a differencing disk once what surrounds its path is trimmed |
| StorageMoveLaws.ReplanCanFail | backend/app/core/storage_move.py:85-143 | a disk with a blank behind an .avhdx name is planned and moved without error, and stops the next plan |
| StorageMoveLaws.NothingCollides | backend/app/core/storage_move.py:114-143 | if no collision candidate exists beforehand, all final disk paths are pairwise distinct without regard to case and no existing file is overwritten |
| StorageMoveLaws.ThereAndBack | backend/app/core/storage_move.py:85-143 | a VM that lay on one root and was moved to another can be moved back: nothing hinders it, something moves if it did on the way there, and every path is restored |
| Grouping.Group | backend/app/core/vm_performance.py:58-64 | the dictionary of lists filled in a loop has one list per key that occurs, in order, with exactly its members |
| Grouping.GroupingIsAPartition | backend/app/core/vm_performance.py:106-109 | the groups together are a permutation of the items that have a key |
| Grouping.GroupingConserves | backend/app/core/vm_performance.py:58-78 | any quantity that adds up over the items adds up over the groups |
| VmPerformance.Aggregate | backend/app/core/vm_performance.py:55-78 | the two loops compute the specified rows |
| VmPerformance.Collector.Downsample | backend/app/core/vm_performance.py:97-124 | one condensing run leaves the specified table |
| VmPerformance.Collector.RunCollection | backend/app/core/vm_performance.py:127-145 | a run over all clusters adds the rows of those that answered, records every status, notes changes of state, and condenses |
| VmPerformanceRuns.RunAll | backend/app/core/vm_performance.py:127-145 | runs carried out one after another leave the table that the theorems about runs speak of |
| VmPerformanceLaws.OneRowPerOwner | backend/app/core/vm_performance.py:58-77 | every machine and volume with a flow has exactly one row, made of all its flows and no others |
| VmPerformanceLaws.AggregateConserves | backend/app/core/vm_performance.py:65-77 | IOPS, bandwidth, disk count and, without negative rates, IOPS-weighted latency over the rows equal those over the flows that have an owner |
| VmPerformanceLaws.LatencyStaysInRange | backend/app/core/vm_performance.py:67-70 | a row's latency lies between any bounds on the latencies of its disks, without negative rates |
| VmPerformanceLaws.CsvOfPath | backend/app/core/vm_performance.py:40-52 | a path below ClusterStorage, in any case and with either slash, belongs to the volume registered for its folder or to one named like it |
| PerformanceMeaning.OwnerIs | backend/app/core/vm_performance.py:58-64 | a flow belongs to the machine of its identifier in small letters and the volume of its path, and to nobody without one of them |
| PerformanceMeaning.ValuesOf | backend/app/core/vm_performance.py:65-76 | a missing rate, latency or bandwidth counts as zero |
| PerformanceMeaning.RowSays | backend/app/core/vm_performance.py:65-78 | a row carries the name of its first flow or else the identifier, the first flow's host without domain, the sums, the number of flows, and the weighted latency or the highest one without IOPS |
| VmPerformanceLaws.StatusSaysHowItWent | backend/app/core/vm_performance.py:130-144 | in a run every cluster gets one status, and its earlier one is what it had before the run |
| PerformanceMeaning.StatusSays | backend/app/core/vm_performance.py:130-144 | after a run the status of a cluster has the run's time and either no error and its number of rows, or the first 500 characters of the message and no row |
| PerformanceMeaning.LogOfNext | backend/app/core/vm_performance.py:130-144 | a cluster's turn appends one line exactly if it answers after an error with a message, giving its number of rows, or fails otherwise than before, giving the first 500 characters |
| VmPerformanceRuns.CondenseMeaning | backend/app/core/vm_performance.py:106-118 | condensing yields for every bucket that occurs its mean, once, and nothing else |
| VmPerformanceRuns.TableIsFunctionOfReadings | backend/app/core/vm_performance.py:97-124 | after any runs with a monotone clock the table holds exactly the raw samples not before the cutoff and, for every condensed hour not yet purged, one sample per cluster, machine and volume: the mean over everything ever collected in that hour |
| PerformanceMeaning.CollectedIs | backend/app/core/vm_performance.py:81-95 | collected is exactly what the clusters that answered in some run reported, raw and with the run's time |
| PerformanceMeaning.TableHolds | backend/app/core/vm_performance.py:97-124 | after any runs with a monotone clock: of the raw samples those since the whole hour seven days ago, and for every earlier whole hour of 90 days the one sample with the means of all collected in it, name and host of the last, the highest disk count |
| VmPerformanceRuns.EverySampleIsCondensedOnce | backend/app/core/vm_performance.py:97-121 | all raw samples ever collected are, counted, those condensed so far plus those still in the table |
| VmPerformanceRuns.MeanKeepsTotals | backend/app/core/vm_performance.py:110-118 | an hourly mean times its number of samples is their sum, the latency weighted by IOPS or plain without any |
| VmPerformanceRuns.DisksAreHighest | backend/app/core/vm_performance.py:110-118 | the hourly disk count is the highest of the hour and occurs in it |
| VmPerformanceRuns.SilentIffUnchanged | backend/app/core/vm_performance.py:127-145 | over two runs, the log of the second has no further line about a cluster exactly when both reached it, or both failed with the same first 500 characters, or the first failed without a message and the second reached it |
| Regression.NormalEquations | backend/app/core/capacity_forecast.py:64-70 | the residuals of the regression line cancel, and cancel against the abscissae |
| Regression.ErrorOfAnyLine | backend/app/core/capacity_forecast.py:64-70 | any line's squared error is that of the regression line plus their squared distance |
| Regression.LeastSquares | backend/app/core/capacity_forecast.py:64-70 | with two different abscissae the regression line has the least squared error of all lines and is the only one that has it |
| CapacityForecast.DailyPoints | backend/app/core/capacity_forecast.py:56-60 | the dictionary loop and the sorting yield the specified points of the window |
| CapacityForecast.PointsAreDaily | backend/app/core/capacity_forecast.py:56-60 | the points are, in order of time, the last usable reading of every day of the window and no others |
| CapacityForecast.OnePointSequence | backend/app/core/capacity_forecast.py:60 | at most one ascending sequence has given points |
| CapacityForecast.MakeForecast | backend/app/core/capacity_forecast.py:50-85 | the function as a whole yields the specified forecast, or none with too few days or too short a span |
| CapacityForecast.GrowthIsLeastSquares | backend/app/core/capacity_forecast.py:61-70 | whenever there is a forecast the denominator is positive and its growth is the slope of the one line that misses the daily points least |
| CapacityForecast.AlarmIffFullInFourWeeks | backend/app/core/capacity_forecast.py:36-43 | the alarm is raised exactly when usage grows and the line through the last reading reaches the capacity within 28 days |
| CapacityForecast.FullWhenLineMeetsCapacity | backend/app/core/capacity_forecast.py:72-77 | the named day is where the line meets the capacity; none is named exactly without growth and room left |
| CapacityForecast.CurveAgreesWithAlarm | backend/app/core/capacity_forecast.py:78-80 | the drawn curve starts at the last reading, moves one way, shows the object full from the named day on and never more than half a byte early |
| CapacityForecast.AlarmOfSamples | backend/app/core/capacity_forecast.py:36-85 | from any samples with a forecast: the growth is the least-squares slope of the daily points, the curve continues from the last of them, and the alarm is raised exactly when it reaches the capacity within 28 days |
| CapacityForecast.OrderOfSamplesIsIrrelevant | backend/app/core/capacity_forecast.py:50-52 | the forecast does not depend on the order of the samples, unless two different ones share an instant |
| ForecastMeaning.PointIsLastOfDay | backend/app/core/capacity_forecast.py:51-60 | the points are the last measured readings of the days in the 30 days up to the last one |
| ForecastMeaning.AxesAre | backend/app/core/capacity_forecast.py:64-66 | the regression sees days since the first point, and bytes |
| ForecastMeaning.ForecastSays | backend/app/core/capacity_forecast.py:50-85 | there is a forecast exactly with five daily points a week apart; it continues from the last measured sample, names day 0 for what is full, and draws 29 days of the line, each the nearest integer, never below zero |
| ForecastMeaning.LineGrows | backend/app/core/capacity_forecast.py:78-80 | the line drawn starts at the last usage and grows by the slope every day |
| ForecastMeaning.NothingMeasuredNothingForecast | backend/app/core/capacity_forecast.py:51-54 | without a sample that has usage and a capacity other than zero there is no forecast |
| ConfigTransfer.Clean | backend/app/core/config_transfer.py:152-161 | the loops drop the secret columns and reset the status columns of every row, and nothing else |
| ConfigTransfer.BuildExport | backend/app/core/config_transfer.py:187-205 | the file holds exactly the specified tables with the specified rows |
| ConfigLaws.ExportedTablesAre | backend/app/core/config_transfer.py:187-205 | the file has every table of configuration and users, and those of the catalogue exactly on request |
| ConfigImport.Installation.PlanImport | backend/app/core/config_transfer.py:172-181 | the blockers are the counted tables that are not empty |
| ConfigLaws.BlockersAreTheFilled | backend/app/core/config_transfer.py:135-181 | named as blockers are exactly those of clusters, systems, policies, groups, schedules and runs that exist and have rows, each with their number |
| ConfigImport.Installation.ApplyImport | backend/app/core/config_transfer.py:352-393 | with a blocker nothing changes; without one every exported table is replaced, users and roles are merged, and the reported counts and names are those of the merge |
| ConfigLaws.PausedAreTheUnpaused | backend/app/core/config_transfer.py:376-379 | the result names as paused exactly the groups of the file whose flag is missing or false |
| ConfigLaws.CleanedTwice | backend/app/core/config_transfer.py:152-161 | cleaning on export and again on import is cleaning once |
| ConfigLaws.ExportThenImport | backend/app/core/config_transfer.py:187-205 | every configuration row arrives in its place with every column as it was, except secrets, reset status columns, paused groups and the start of report schedules |
| ConfigLaws.NoRowsAppear | backend/app/core/config_transfer.py:365-386 | a table that was empty in the source is empty afterwards, whatever the target held |
| ConfigLaws.SecretsStay | backend/app/core/config_transfer.py:56-161 | no exported row has a password, a password hash or the path of a certificate |
| ConfigLaws.NothingStartsAfterImport | backend/app/core/config_transfer.py:376-386 | whatever the file says, no secret is written, and an imported group is unpaused exactly if the file holds for it a text that the boolean column turns into false |
| ConfigLaws.BlockedIffNotEmpty | backend/app/core/config_transfer.py:172-181 | there is a blocker exactly when one of the counted tables has a row |
| ConfigLaws.NothingIsOverwritten | backend/app/core/config_transfer.py:317-325 | an unblocked import deletes no cluster, system, policy, group, schedule or run, because there is none |
| ConfigLaws.SecondImportIsRefused | backend/app/core/config_transfer.py:317-325 | after an import that brought a cluster, system, policy, group or schedule the installation refuses another |
| ConfigLaws.CatalogIsClosed | backend/app/core/config_transfer.py:195-205 | the exported catalogue holds exactly the finished runs and what leads to one, so no unfinished run and no dangling reference |
| ConfigLaws.CatalogArrives | backend/app/core/config_transfer.py:365-386 | the catalogue arrives as exported, row by row |
| UserMerge.ImportRoles | backend/app/core/config_transfer.py:397-418 | the role loop computes the specified rows and identifier map |
| UserMerge.ImportUsers | backend/app/core/config_transfer.py:420-433 | the user loop computes the specified rows, identifier map and skipped names |
| UserMerge.ImportAssignments | backend/app/core/config_transfer.py:435-451 | the assignment loop computes the specified rows and count |
| UserLaws.ExistingRolesAreKept | backend/app/core/config_transfer.py:400-417 | existing roles keep identifier, name, place and all columns but description and permissions, and those too if the namesakes are system roles |
| UserLaws.RolesResolve | backend/app/core/config_transfer.py:400-417 | exactly the exported roles are mapped, each to a role that is there afterwards |
| UserLaws.RolesResolveByName | backend/app/core/config_transfer.py:400-417 | an exported role leads to a role of its name: the one that was here, or itself |
| UserLaws.NamesakeIsUpdated | backend/app/core/config_transfer.py:401-415 | a role that was here takes over description and permissions of the last exported role of its name that is no system role |
| UserLaws.UsersAreCounted | backend/app/core/config_transfer.py:420-433 | existing users stay as they are, and added plus skipped users are the exported ones |
| UserLaws.UsersResolve | backend/app/core/config_transfer.py:420-433 | exactly the exported users are mapped, each to a user that is there afterwards |
| UserLaws.UsersResolveByName | backend/app/core/config_transfer.py:420-433 | an exported user leads to a user of its name in any case: the one that was here, or itself |
| UserLaws.UsersAreAddedByName | backend/app/core/config_transfer.py:420-433 | added are exactly the exported users whose name is free, without password hash and last login, and skipped are the names of the others |
| UserLaws.AssignmentsAreMerged | backend/app/core/config_transfer.py:435-451 | existing assignments stay, each added one is new among all, and afterwards a (user, role, scope) exists exactly if it did before or an exported assignment with known sides stands for it |
| UserLaws.AddedAssignmentsResolve | backend/app/core/config_transfer.py:440-450 | every added assignment names a user and a role that are there |
| MemberKeys.ParseUndoesMake | backend/app/models/resource_group.py:42-58 | parsing a made key gives back cluster and name exactly for clean cluster identifiers |
| MemberKeys.MakeUndoesParse | backend/app/models/resource_group.py:42-58 | making a key from a parsed qualified one gives it back |
| MemberKeys.ResolvesTo | backend/app/models/resource_group.py:50-73 | a member with a separator stands for the known object whose cluster and name stand around its first one; one without for the only known object of its name, if there is just one |
| MemberKeys.MigratedIs | backend/app/db/init_db.py:260-268 | migration puts the cluster before a name that exactly one known object has, and leaves every other member |
| MemberKeys.MigrateMembers | backend/app/db/init_db.py:232-273 | every group's members are migrated with the names of its scope, and the result says whether any group changed |
| MemberKeys.MigrationKeepsMeaning | backend/app/db/init_db.py:232-273 | migration keeps what a member resolves to, except exactly when its one candidate has an unclean cluster identifier |
| MemberKeys.MigratedMembersStayResolved | backend/app/models/resource_group.py:61-73 | a migrated member still resolves to the same object when others of its name appear |
| MemberKeys.MigrationIsRepeatable | backend/app/db/init_db.py:242-245 | a migrated member is left alone by every later migration |

## Left out

- Time zones and daylight saving: one clock; the half-open windows and the day arithmetic are the source's.
- IEEE rounding: averages, slopes and latencies are reals, so the 0.01 tolerance of the retention comparison is exact; only the rounding of the forecast curve is modelled.
- Message texts and formatting: violations, plan errors and log lines are tagged values.
- `_execute_job_run` and `_start_job_run`: a start is accepted or not, or the process died before it; what a started run does is not part of this model.
- The conditions of the individual alert detectors and the site lookup: a check is given what they report.
- The calendar preview, stuck-checkpoint cleanup, and manual runs except as rows that may cover a planned instant.
- SQL failures: the single transaction of an import is all or nothing, and constraint violations roll it back; the model has no failing insert.
- ZIP and JSON encoding, format versions, unknown tables, the manual-steps list and structured values in hand-written files: an import starts from tables of raw rows.
- Case folding is that of ASCII letters, for volume folders, paths, system, machine and user names.
- WinRM, SMB, LDAP and e-mail clients, Kerberos and TLS files, role permissions, the web interface: their results enter only as answers, and they would add only easy members.
- ClockTimes.ValidatedIsTimeOfDay: digits and white space are those of Unicode 14; the length limit of the source's `int` for numbers of more than 4300 digits is not modelled.
- Occurrences.OccurrencesWithin: requires that the readable times are times of a day, which the validation guarantees; on readable numbers out of range the source raises, which is not modelled.
- StorageMove.PlanStorageMove: paths are texts without line breaks, and joining a folder and a file name adds one backslash; drive-relative corner cases of the path library are not modelled.
- VmPerformanceLaws.AggregateConserves: weighted latency and its range are stated for rates that are not negative, which is what storage QoS reports; with a negative rate the source's weighted mean need not lie in the range.
- MissedBackups.Search: the table of runs stands still during one check and is given at each; dismissing an alert by hand is not part of this model.
- MissedBackups.NothingIsLostSilently: identifiers of groups and policies hold no colon, as the generated ones do; with one, two links could share a key.
- MissedBackups.ExcusesPausedOnlyIff: the clock does not run backwards between pauses and resumes.
- UserMerge.ImportUsers: user names are texts, as their column requires; the source's conversion of other values to text is not modelled.
- SnapshotCatalogue.EveryRelationshipIsRecorded: stated for relationships with distinct destination paths; what shared paths lead to is in `SnapshotCatalogue.RowsStayDistinctIff`.
- ForecastMeaning.PointIsLastOfDay: stated, like `ForecastMeaning.ForecastSays`, for samples no two different ones of which share an instant; of such the one handed over last counts.
- UserLaws.RolesResolveByName: of exported rows with one identifier the last is meant, as for `UserLaws.UsersResolveByName`.
- ConfigLaws.ExportThenImport: stated for a target with the columns of the source; other columns are dropped or get NULL, as `ConfigTransfer.Stored` says.
