# Monitoring hub: what it keeps, and why it can be trusted

A monitoring hub keeps long-lived figures about machines whose agents restart, lose
connections and send readings the hub cannot verify. This project models the parts
of the hub (and the agent and panel halves of two protocols) that turn such input
into stored state, in the form the source gives them -- classes whose methods update
fields, loops where the source loops, functions where it computes -- and proves what
each promises over every input, every run or every interleaving.

`dafny verify dfyconfig.toml` checks everything. One module per component:

| module | component |
|---|---|
| `Calendar` | dates and billing periods |
| `Traffic` | the traffic ledger: lazy rollover against an eager ledger, byte conservation |
| `Reports` | one agent's reports: the minute in progress, the history row, the chart against the totals |
| `PingHistory` | the one-pass latency fold against group-by |
| `Alerts`, `AlertRuns` | the notification sweep, and what it promises over whole runs and restarts |
| `Sessions` | the map of connected agents under interleaving |
| `ProbeTables`, `Reconcile` | probe assignment in the database under id reuse, and the agent's half of it |
| `Template` | alert templates and the JSON they stand for |
| `Upload` | the chunked upload protocol, both sides |
| `Snapshot` | the cached node list under interleaving |
| `Versions` | theme version order and the newest release |
| `Renewal` | expiry dates rolled forward |
| `Basics` | options, results, 64-bit saturation, truncating division |

A method is proved against a function of its inputs or of the old state; the theorems
are about that function, over sequences of events. Two things stand beside most
components: an independent reference (an eager ledger, a count over the rows, a day
number, a JSON string scanner, a ghost trace) and a lemma over all inputs that ties the code's
own way of doing it to the reference.

## Where the code falls short of its own description

The model follows the code. The members named here show each point, most of them on
a concrete input, beside the theorem that says when the promise does hold.

- **A figure that was over can come back.** The reader hides a month figure stamped
  with another period. If the reset day is edited and edited back before the next
  readable report, the hidden figure is current again
  (`Traffic.StalePeriodCanReturnWhenResetDayIsEdited`). Every read of a run agrees
  with the ledger that zeroes on time if and only if this happens at none of its
  events (`Traffic.LazyRolloverRefinesEagerLedger`), which a fixed reset day rules out.
- **The median can wrap.** An even bucket adds its middle two answers in 64 bits. The
  point is the true median exactly when that sum fits
  (`PingHistory.LatencyIsTheMedianUnlessItWraps`, `PingHistory.MedianCanWrap`).
- **A return that does not count loses the alert spacing**: the grace period was
  raised beyond the absence an alert had announced
  (`AlertRuns.RaisedGraceLosesTheSpacing`). Alerts stay spaced, however the sweeps go
  on, if and only if every return from an announced outage counts
  (`AlertRuns.AlertsAreSpacedExactlyWhileReturnsCount`), as all do under a grace
  period that is never raised.
- **A failed send leaves a node reading online.** `serve` leaves through `?` without
  `release`; a node reads online unserved exactly when that happened to the session
  holding its entry (`Sessions.StaleExactlyWhenAbandoned`).
- **A save can succeed and store nothing**: an id that names no probe, with no nodes
  (`ProbeTables.SaveStoresItsProbeUnlessUnknown`).
- **One sample note cannot vouch for a template.** `"\{{event}}"` passes, because the
  sample event `test` turns the pending backslash into `\t`; the event `login` then
  breaks the body (`Template.OneSampleCannotVouchForATemplate`). A body reads as its
  template filled in for every note if and only if every placeholder sits inside a
  string literal with no escape pending (`Template.BodyIsTheTemplateWithItsValues`).
- **An odd brace hides a placeholder**: braces are consumed in pairs from the left, so
  `{{{event}}}` substitutes nothing and `{{{{event}}` does
  (`Template.BracesBeforeAPlaceholder`).
- **Invalidation is a zero stamp**, which is out of date to every clock except one in
  the first 1900 ms of 1970 (`Snapshot.FutureAndInvalidatedStampsAreRebuilt`).
- **A piece whose answer was lost cannot always be repeated**, although a retry is
  described as always aligning: it can exactly at offset zero, where the file starts
  over and a one-piece file completes twice, or if it was empty
  (`Upload.AcceptedPieceIsRepeatableOnlyAtTheStart`).
- **Only the first missing version segment reads as zero**, although all of them are
  said to: `1.2` ties `1.2.0.1`. The order is the documented one exactly unless one
  version goes on after the other with a plain zero and then with something else
  (`Versions.MissingSegmentsReadAsZeroExactly`). So ties do not carry over
  (`Versions.TiesDoNotCarryOver`; exactly when is `Versions.TiesCarryOverExactly`),
  and the order of the list decides between tied releases; that none listed is newer
  than the one picked holds whatever the order (`Versions.Newest`).
- **A date rolled forward may be today's**, where the comment says "in the future":
  exactly when today is a date of its cycle
  (`Renewal.RolledDateIsTodayExactlyOnTheCycle`). A day lost to a short month stays
  lost (`Renewal.ShortMonthTakesTheDayForGood`).

## Model

| member | source | states |
|---|---|---|
| Calendar.DateOrderIsDayOrder | hub/src/db.rs:1731-1738 | comparing dates field by field is comparing days on the calendar, and a day number names one date |
| Calendar.CalendarConstants | hub/src/db.rs:1720-1739 | day numbers are the Gregorian calendar's: where months begin, leap years, four centuries, and 1970 to 2000 |
| Calendar.LastDayIsEveOfNextMonth | hub/src/db.rs:1723-1729 | the last day of a month is one day before the first of the next, so the model's month lengths are the ones the source computes by stepping back |
| Calendar.PeriodStartIsGreatestReset | hub/src/db.rs:1720-1739 | a period starts on the greatest reset date not after today, where a reset date has the day asked for or is the last of a month too short for it |
| Calendar.PeriodsStartOnTheDayAskedFor | hub/src/db.rs:1721-1729 | a period starts on the day asked for, or on the last of a shorter month, and every such day starts a period |
| Calendar.ResetIsClamped | hub/src/db.rs:1722-1730 | each month has one reset date, the one the source clamps to |
| Calendar.ResetDaysOutOfRangeActAsTheNearest | hub/src/db.rs:1721 | a reset day of 0 acts as 1, one above 31 as 31 |
| Calendar.PeriodStartIsIdempotent | hub/src/db.rs:1720-1739 | the start of a period starts its own period |
| Calendar.PeriodStartIsMonotone | hub/src/db.rs:1720-1739 | a later day never belongs to an earlier period |
| Calendar.PeriodsPartitionTheCalendar | hub/src/db.rs:1720-1739 | periods tile the calendar: a date belongs to a period exactly when it lies between its start and the next, and starts are 28 to 31 days apart |
| Traffic.Db.AllTraffic | hub/src/db.rs:843-881 | a reader is told about every node with a traffic row: its total always, its month and day only under the stamp of the period and day now in force, zero otherwise |
| Traffic.Db.Accumulate | hub/src/db.rs:892-999 | a report moves only its own node's row; what it returns is what a reader would be told next, also when it carries no counters and writes nothing; an unknown node is an error that changes nothing |
| Traffic.Db.SetTraffic | hub/src/db.rs:1010-1027 | a correction changes only its node's row and reports whether the node exists |
| Traffic.CorrectionChangesExactlyThePatchedFields | hub/src/db.rs:1010-1027 | the next reader sees each patched figure as patched and every other as before the correction, and the counters to measure from stay |
| Traffic.AgreementSurvivesAStep | hub/src/db.rs:946-998 | at one event a reader is told what the eager ledger would tell exactly unless a figure that was over returns, and then the two stay in agreement past the event |
| Traffic.LazyRolloverRefinesEagerLedger | hub/src/db.rs:946-998 | over any run of reports, corrections and reads with dates in order and any reset days, every read is exactly what a ledger that zeroes on time would tell, if and only if no event brings back a period that was over for a month figure still stored |
| Traffic.FixedResetDayMovesForward | hub/src/db.rs:975-980 | with one reset day and dates in order the period in force never steps back |
| Traffic.PeriodsInOrderNeedNoCondition | hub/src/db.rs:843-881 | where the period in force never steps back, whoever reads next, then or later, is told exactly what the ledger would tell |
| Traffic.StalePeriodCanReturnWhenResetDayIsEdited | hub/src/db.rs:861-870 | a reset day edited there and back makes a figure already reported as over current again |
| Traffic.BytesAreConserved | hub/src/db.rs:946-970 | between corrections a total gains exactly the differences between consecutive readings under one boot where the later is higher, and nothing where it is not, capped once at the 64-bit maximum |
| Traffic.TotalsNeverFall | hub/src/db.rs:959-970 | between corrections no total ever decreases |
| Traffic.OneReportGains | hub/src/db.rs:946-985 | one report adds to total, month and day the rise of the counter under its own boot, or nothing, starting a figure whose period is over from zero |
| Traffic.FallingCountersBookNothing | hub/src/db.rs:931-937 | readings that never rise leave the total as it was |
| Traffic.UnreadableReportsChangeNothing | hub/src/db.rs:943-947 | any run of reports without readable counters leaves the row as it was |
| Traffic.AlternatingBootsClimbNothing | hub/src/db.rs:948-956 | machines taking turns under one token book nothing |
| Traffic.SteadyCountersClimbTheirDifference | hub/src/db.rs:957 | one boot whose counters never shrink books its last reading minus its first |
| Reports.Counters | hub/src/agent_ws.rs:393-400 | a reading is present exactly when both counters are non-negative 64-bit integers, and is those two |
| Reports.BootId | hub/src/agent_ws.rs:388-392 | a non-empty boot id is handed to the ledger as it is; anything else becomes a placeholder, never the empty one that means no baseline |
| Reports.RefusedForMalformedFields | hub/src/agent_ws.rs:373-383 | a report is refused exactly for a field that is present and not a non-negative number, null included, or a load that is not three such |
| Reports.LivePayloadShowsTheLedger | hub/src/agent_ws.rs:405-410 | the live payload shows the ledger's totals and month under their own names and every other field as reported |
| Reports.Elapsed | hub/src/agent_ws.rs:437 | a rate is divided by the whole seconds that passed, and by one if less than one did or the clock stepped back |
| Reports.Agent.constructor | hub/src/agent_ws.rs:71-86 | a new session starts in the minute in progress, with no mark and nothing pending |
| Reports.Hub.Connect | hub/src/agent_ws.rs:171-175 | a connecting node gets a fresh entry in place of whatever it had, and no other node's entry changes |
| Reports.Hub.Disconnect | hub/src/agent_ws.rs:237-244 | a session that ends takes its node's entry and no other |
| Reports.Agent.AddToMinute | hub/src/agent_ws.rs:106-112 | the running sums always are the sums of the reports pending |
| Reports.Agent.WriteMeansInto | hub/src/agent_ws.rs:114-130 | every averaged field the row has becomes the mean over all pending reports; no other field changes |
| Reports.Agent.Take | hub/src/agent_ws.rs:412-450 | a report either joins the pending ones, or closes the minute into the row described below and starts the next from here |
| Reports.RowsCarryMeansAndRates | hub/src/agent_ws.rs:117-130 | in a stored row each averaged field is the mean of the minute's reports, exact for `cpu` and rounded for the others, and every field but the rates is otherwise as last reported |
| Reports.RowsShowTheirRates | hub/src/agent_ws.rs:436-440 | the row shows the bytes received a second under `net_rx` and those sent under `net_tx` |
| Reports.RowsSpanTheTimeSinceTheMark | hub/src/agent_ws.rs:436-442 | a row covers the whole seconds since the mark, at least one, and what the totals gained since, and moves the mark to them |
| Reports.ReportsMoveTheLiveView | hub/src/agent_ws.rs:424-449 | any report replaces the live payload and time; one not stored keeps the minute and the mark |
| Reports.RowsAreStampedWithTheirMinute | hub/src/agent_ws.rs:412-423 | a row is stamped with the start of the minute its last report came in, and is stored exactly when that minute is not the last accounted for |
| Reports.Hub.Report | hub/src/agent_ws.rs:368-461 | a refused report changes nothing anywhere; an accepted one books its bytes even without a session, and otherwise takes its node one step of the runs below and writes exactly the row and the last-seen stamp that step calls for |
| Reports.MarksGainWhatRowsCarry | hub/src/agent_ws.rs:433-449 | over any run the total at the last mark is the total at the first plus the bytes the rows carry |
| Reports.ChartIntegratesToTotals | hub/src/agent_ws.rs:428-449 | the received and sent rates of the stored rows times the seconds they cover fall short of what each total gained by less than a byte a second |
| Reports.FirstReportStartsTheChart | hub/src/agent_ws.rs:446-449 | from connecting, the first report sets the mark all later rows are measured from |
| Reports.EveryReportIsAveragedOnce | hub/src/agent_ws.rs:426-445 | every report is averaged into exactly one row or still pends, in order |
| Reports.StampsRise | hub/src/agent_ws.rs:423-445 | while the clock does not step back each row's stamp is past the one before, across reconnects |
| Reports.HistoryRowsAreNeverOverwritten | hub/src/agent_ws.rs:78-82 | no two rows of a node share a minute, so a reconnect never overwrites a stored one |
| PingHistory.Summarise | hub/src/db.rs:1654-1673 | the row built for one probe is the point its answers and losses describe |
| PingHistory.CloseBucket | hub/src/db.rs:1649-1675 | closing appends one point per open probe in probe order and leaves the bucket empty |
| PingHistory.Take | hub/src/db.rs:1347-1361 | the open bucket keeps standing for exactly the rows that fell into it |
| PingHistory.PingRecords | hub/src/db.rs:1321-1374 | for rows in time order: one point per bucket and probe that has a row, in strict order, each describing its group of the whole window, and each probe's losses over the window, omitted when there are none |
| PingHistory.EachRowFallsToOnePoint | hub/src/db.rs:529-532 | each row has exactly one point of its probe whose stretch of `step` seconds it came in |
| PingHistory.PointsTellTheirRows | hub/src/db.rs:1339-1374 | counted over the rows themselves: a point has a row, no latency exactly when all were lost, else the middle of those answered unless it wraps, and the share lost |
| PingHistory.ClosingExtendsTheChart | hub/src/db.rs:1341-1344 | a chart of all closed buckets plus the points of the open one is a chart that includes it |
| PingHistory.Percent | hub/src/db.rs:1669-1672 | a share lost rounds up to the least whole percent that covers it |
| PingHistory.LatencyIsTheMedianUnlessItWraps | hub/src/db.rs:1654-1659 | the latency is absent exactly when nothing answered, and the true median exactly when the middle two answers add without wrapping |
| PingHistory.MedianCanWrap | hub/src/db.rs:1658 | two answers an agent may report whose median comes out negative |
| PingHistory.BandAndLossTellWhatTheBucketHeld | hub/src/db.rs:1661-1672 | a band, the extremes, exactly when two answers differ; a loss, rounded up, exactly when something was lost |
| PingHistory.PointsTellWhatTheirBucketsHeld | hub/src/db.rs:1339-1374 | every point of the chart tells the median, band and loss of exactly the rows that share its bucket and probe |
| PingHistory.ChartIgnoresOrder | hub/src/db.rs:529-532 | two windows holding the same rows have the same chart, whatever order rows of one bucket came in |
| PingHistory.WindowLossIsTheSumOfItsBuckets | hub/src/db.rs:1334-1373 | a probe's window loss is the losses of its points' buckets over the samples of its points' buckets |
| PingHistory.SampleStep | hub/src/api.rs:319-326 | the step is the least whole number of minutes with which the budget spans the window |
| PingHistory.Budget | hub/src/api.rs:320-321 | the budget is what the caller can draw, from 60 to a day of minutes, and a day of minutes unasked |
| PingHistory.EachProbeStaysWithinItsBudget | hub/src/api.rs:319-326 | at that step a window ending now holds at most one point more than the budget for each probe |
| Alerts.Setting | hub/src/notify.rs:91-95 | a numeric setting is what is stored if that is in range, and the default otherwise |
| Alerts.Grace | hub/src/notify.rs:71-85 | the grace period is the minutes stored, from one to thirty, or three |
| Alerts.Watch.Forget | hub/src/notify.rs:531-534 | nothing is remembered under the id of a deleted node, everything else is kept |
| Alerts.Watch.Visit | hub/src/notify.rs:538-561 | a node's turn announces it exactly when it is due, in plain conditions on its row and the process's memory, moves that memory and its stored outage accordingly and touches no other node |
| Alerts.Watch.Presences | hub/src/notify.rs:537-561 | every node moves by its own step, independent of order; down and up list exactly those to announce |
| Alerts.Watch.Steps | hub/src/notify.rs:567-608 | every examined node records its period and step, every other keeps what it had; exactly those fire whose step is new |
| Alerts.Watch.Sweep | hub/src/notify.rs:523-612 | for every node, from the state before: it is announced offline, online or for its traffic exactly when due; the outage stored becomes its last report, none or stays; first absence, last return and step are remembered; nothing is under any other id |
| Alerts.ListsNameThoseDue | hub/src/notify.rs:545-608 | each list names a node exactly when it is due: offline only with its alerts on, a channel, no outage on record and the wait over; online when back from an outage; traffic when its mode's bytes reach a step not recorded for the period |
| AlertRuns.OfflineAlertsAreSpaced | hub/src/notify.rs:538-561 | two offline alerts for one node in a process are at least 1800 s apart, whatever the node, its switches, its channels and the settings do, while every return from an announced outage counts |
| AlertRuns.AlertsAreSpacedExactlyWhileReturnsCount | hub/src/notify.rs:540-542 | every return from an announced outage counts if and only if, whenever the node is back, its next alert is spaced from the one before however the sweeps go on |
| AlertRuns.UnraisedGraceKeepsAlertsSpaced | hub/src/notify.rs:535-561 | under a grace period that is fixed or only lowered the alerts of any run are spaced |
| AlertRuns.ListedExactlyWhenAnnounced | hub/src/notify.rs:545-559 | a sweep's lists of nodes to announce name a node exactly when its own step announces that |
| AlertRuns.SweepsFollowTheRun | hub/src/notify.rs:538-561 | consecutive sweeps over a node leave it exactly as the run over what each found would |
| AlertRuns.SweepsKeepOfflineAlertsApart | hub/src/notify.rs:538-561 | the same of two sweeps that announce one node offline |
| AlertRuns.OfflineAlertsAreRare | hub/src/notify.rs:59-64 | while returns count, alerts within a window of W seconds number at most 1 + W/1800 |
| AlertRuns.RaisedGraceLosesTheSpacing | hub/src/notify.rs:540-542 | raising the grace period during an outage allows two alerts two minutes apart |
| AlertRuns.OfflineAlertMeansGoneThroughout | hub/src/notify.rs:549-560 | an offline alert means the node was gone at every sweep for at least the grace period |
| AlertRuns.LongAbsenceIsAnnounced | hub/src/notify.rs:554-560 | a node with alerts on and a channel, gone at every sweep for 1800 s, has been announced |
| AlertRuns.AlertsAlternateAcrossRestarts | hub/src/notify.rs:538-561 | offline and online alternate across any number of restarts, online first exactly when an outage is on record |
| AlertRuns.ListedExactlyWhenFiring | hub/src/notify.rs:587-608 | a sweep's list of traffic alerts names a node exactly when the sweep is primed, examines it and reaches a step not yet recorded |
| AlertRuns.ToldByTheLast | hub/src/notify.rs:589 | what a sweep finds recorded is what the last one that examined the node left |
| AlertRuns.FiresExactlyOnNews | hub/src/notify.rs:580-593 | a later sweep fires exactly when it reaches a step and the last to examine the node recorded another period or a lower step |
| AlertRuns.RepeatNeedsALowerStepBetween | hub/src/notify.rs:587-593 | a step is announced again within a period only after a sweep in between recorded a lower one, or another period |
| AlertRuns.PeriodAlertsRise | hub/src/notify.rs:578-593 | over the sweeps of a process, while usage only grows and periods do not step back, two alerts of one period are the threshold and then the full allowance |
| AlertRuns.AtMostTwoAlertsAPeriod | hub/src/notify.rs:578-593 | under the same conditions no period has three alerts |
| Sessions.Hub.Tag | hub/src/agent_ws.rs:171 | a connection is tagged with the next number, never handed out before |
| Sessions.Hub.Insert | hub/src/agent_ws.rs:175 | an insertion is its own step, logged apart from the tagging |
| Sessions.Hub.Release | hub/src/agent_ws.rs:237-244 | a teardown releases exactly when the entry is still its own |
| Sessions.Hub.Retire | hub/src/api.rs:787 | deleting a node or rotating its token removes its entry, whoever holds it |
| Sessions.EntryIsTheLastInserted | hub/src/agent_ws.rs:229-244 | in every interleaving a session holds a node exactly when it was inserted last and neither its own teardown nor a retirement came since; no late teardown takes its successor away |
| Sessions.EntriesAreOwn | hub/src/agent_ws.rs:169-175 | an entry's session belongs to that node and has not been torn down |
| Sessions.TagsAreInsertedOnce | hub/src/agent_ws.rs:29-33 | no session is inserted twice |
| Sessions.StaleExactlyWhenAbandoned | hub/src/agent_ws.rs:188-201 | a node reads online unserved exactly when the session holding its entry left through a failed send |
| Sessions.FailedSendLeavesTheNodeOnline | hub/src/agent_ws.rs:188 | one failed send is enough |
| ProbeTables.FindNextId | hub/src/db.rs:752-757 | a new row's id is one above the greatest in use, or 1, so the newest row's id is reused |
| ProbeTables.Db.CreateNode | hub/src/db.rs:634-667 | a node is added under a fresh id and nothing else changes |
| ProbeTables.Db.DeleteNode | hub/src/db.rs:750-758 | the node goes with its results and assignments, all others stay as they were, and whether it existed is told |
| ProbeTables.Db.LinkRows | hub/src/db.rs:1160-1166 | the rows go in exactly when the task and every node exist and no node is named twice |
| ProbeTables.Db.SavePingTask | hub/src/db.rs:1144-1187 | a save is refused exactly when it names an unknown probe or node, names a node twice or leaves a node with more than 64 probes; a refused one leaves every table as it was, and no save touches nodes or results |
| ProbeTables.RefusedExactlyWhen | hub/src/db.rs:1161-1184 | a node is crowded exactly when it would run more than 64 probes, the saved one counted once |
| ProbeTables.Db.AssignNodeToAllPingTasks | hub/src/db.rs:1196-1210 | with at most 64 probes the node joins them all and no other assignment changes; with more, or for an unknown node, nothing changes |
| ProbeTables.Db.DeletePingTask | hub/src/db.rs:1223-1228 | the probe goes with its results and assignments and all others stay as they were |
| ProbeTables.Db.InsertPing | hub/src/db.rs:1290-1298 | a result is stored under its key if its probe is assigned to its node, and otherwise nothing changes |
| ProbeTables.Db.PingTasksFor | hub/src/db.rs:1238-1251 | the list has exactly the assigned probes, as stored, in id order |
| ProbeTables.ReachableTablesAreClean | hub/src/db.rs:1144-1298 | in every reachable state each result belongs to the present incarnation of its node and its probe, each assignment names live rows and no node has more than 64 |
| ProbeTables.StepsStayClean | hub/src/db.rs:1144-1298 | each statement group keeps that invariant |
| ProbeTables.ReusedIdInheritsNothing | hub/src/db.rs:752-755 | a node given a deleted node's id starts with no results and no probes |
| ProbeTables.DeletesSpareTheOthers | hub/src/db.rs:750-758 | deleting one node or one probe leaves the results and assignments of all others as they were |
| ProbeTables.SaveStoresItsProbeUnlessUnknown | hub/src/db.rs:1147-1166 | an accepted save stores its probe with exactly its nodes and touches no other assignment, unless it names an unknown id and no nodes, which stores nothing |
| ProbeTables.PushedListsFitTheAgent | hub/src/db.rs:1230-1251 | a pushed list names each assigned probe once and never more than the agent runs |
| Reconcile.Agent.Retain | agent/src/main.rs:348-355 | loops still wanted stay as they are and every other is aborted |
| Reconcile.Truncated | agent/src/main.rs:343-347 | a list longer than 64 is cut to its first 64 |
| Reconcile.Agent.Start | agent/src/main.rs:356-392 | a loop is started for each task whose id does not run, in list order, under a new handle |
| Reconcile.Agent.Respawn | agent/src/main.rs:338-393 | a push keeps handles and ids unique, and every handle ever spawned is running or aborted, never both |
| Reconcile.ReconciliationIsExact | agent/src/main.rs:338-393 | after a push exactly the ids of the truncated list run, each as listed and at most 64; unchanged tasks keep their handle and every other loop is new |
| Reconcile.ReconciliationIsIdempotent | agent/src/main.rs:336-337 | pushing the same list again changes nothing |
| Reconcile.AssignedProbesAllRun | agent/src/main.rs:343-347 | whatever the panel did, a list pushed by the hub leaves exactly the assigned probes running; the agent's limit drops none |
| Template.Render | hub/src/notify.rs:204-237 | the output is the leftmost tokenisation with values inserted verbatim or escaped, never read again |
| Template.ValuesGoWhereTheirPlaceholdersStand | hub/src/notify.rs:216-228 | text without braces is copied, the placeholder after it becomes its own value, as it is or escaped, and the rest is read on from there |
| Template.TextWithoutBracesIsCopied | hub/src/notify.rs:235 | text without braces is its own rendering |
| Template.BracesBeforeAPlaceholder | hub/src/notify.rs:216-234 | a placeholder preceded by further braces is substituted exactly when their number is even |
| Template.EscapedReadsBack | hub/src/notify.rs:222-225 | an escaped value reads back as itself and leaves its string open |
| Template.ValuesAreSafeExactlyInsideStrings | hub/src/notify.rs:164-167 | inside a string with no escape pending is the only place where every value leaves a JSON reader as it found it |
| Template.BodyIsTheTemplateWithItsValues | hub/src/notify.rs:201-203 | a body reads as the template's own JSON with each value decoded where its placeholder was, for every note, if and only if every placeholder sits inside a string literal with no escape pending |
| Template.OneSampleCannotVouchForATemplate | hub/src/notify.rs:164-181 | a template that the sample note accepts and another note breaks |
| Upload.Hub.Append | hub/src/api.rs:1042-1063 | frames are written in order until one fails or the declared size is passed; what was there stays in front |
| Upload.PayloadIsItsFramesInOrder | hub/src/api.rs:1050-1061 | a body is the bytes of its frames in order, if every one arrives and is written |
| Upload.PayloadOfOneFrame | hub/src/api.rs:1055-1060 | a frame that fails to arrive or to be written leaves the body without bytes to accept |
| Upload.Hub.Receive | hub/src/api.rs:997-1036 | a piece is accepted exactly when it fits, begins where the file ends and arrives whole, and then lies at its end |
| Upload.Hub.Post | hub/src/api.rs:1147-1174 | a piece is refused exactly for its declared size, its place, its body or its length; a refusal past offset zero keeps the file; completion is answered exactly when the declared size is reached, with the old bytes and then the new |
| Upload.Send | hub/web-admin/src/lib/api.ts:168-201 | the panel's loop ends with the hub holding the original and saying so exactly when the file fits and every piece arrived; a first failure ends it |
| Upload.FileIsWhatWasAccepted | hub/src/api.rs:975-982 | after any requests the file is the pieces accepted since the last start, in order |
| Upload.RefusalsLeaveTheFile | hub/src/api.rs:1028-1036 | a refused piece past offset zero leaves the file as it was |
| Upload.UploadsRoundTrip | hub/src/api.rs:988-992 | for any file within the ceiling, pieces of any size, each tried until it gets through: the last answer, and no other, is completion with the original |
| Upload.AcceptedPieceIsRepeatableOnlyAtTheStart | hub/src/api.rs:1023-1036 | a piece that was taken is accepted again exactly at offset zero, or if it was empty and did not complete the file, and then answered the same; otherwise it is refused and changes nothing |
| Snapshot.Cache.LiveSnapshot | hub/src/api.rs:354-371 | a slot stamped within the last 1900 ms is served unchanged; any other is rebuilt from the state now, its neighbour untouched; either is what the interleaved steps serve, current with the last invalidation |
| Snapshot.Cache.Invalidate | hub/src/api.rs:375-379 | both slots are stamped out of date and keep their frames |
| Snapshot.Cache.Write | hub/src/api.rs:787-788 | a write changes the state and leaves the slots to the invalidation that follows |
| Snapshot.CacheStaysCoherent | hub/src/api.rs:354-379 | in every interleaving of writes, invalidations and builds a slot shows everything invalidated for, or is marked for rebuilding, and never another audience's frame |
| Snapshot.ServedFramesAreCurrent | hub/src/api.rs:354-371 | whoever asks is sent a frame for their audience that is current with the last invalidation and under 1900 ms old |
| Snapshot.NoFramePredatesAnInvalidatedWrite | hub/src/api.rs:373-379 | no frame sent after a write was invalidated for was built from state before it |
| Snapshot.SettledOnlyGrows | hub/src/api.rs:375-379 | what has been invalidated for stays so |
| Snapshot.FutureAndInvalidatedStampsAreRebuilt | hub/src/api.rs:358-364 | a stamp in the future is never served; an invalidated one is never served exactly past the first 1900 ms of the epoch |
| Snapshot.StaleFrameIsServedAtTheEpoch | hub/src/api.rs:375-379 | under a clock at the epoch an invalidated frame is served |
| Versions.Newer | hub/src/api.rs:1343-1364 | the loop decides the order on segment lists |
| Versions.SegmentsReadAsNumbers | hub/src/api.rs:1346-1350 | a segment reads as its decimal number, zero if 64 bits do not hold it, and what follows |
| Versions.VersionsCompareAsNumbers | hub/src/api.rs:1336-1342 | numbers compare as numbers from the left, so 1.10 is newer than 1.9; a release is newer than its candidates, and candidates order by their text |
| Versions.TextOrdersByTheFirstDifference | hub/src/api.rs:1340-1342 | text orders by its first difference, a part before the whole |
| Versions.NewerIsAStrictOrder | hub/src/api.rs:1336-1364 | on all version strings it is irreflexive, asymmetric and transitive |
| Versions.VersionsTieExactly | hub/src/api.rs:1352-1363 | two versions tie exactly when their segments are the same or one goes on after the other with a plain zero |
| Versions.TiesCarryOverExactly | hub/src/api.rs:1352-1363 | two versions that tie a third tie each other exactly unless both go on after it and differ past the zero they go on with |
| Versions.MissingSegmentsReadAsZeroExactly | hub/src/api.rs:1337-1340 | the order is the documented one, all missing segments read as zero, exactly unless one version goes on after the other with a plain zero and then with something else |
| Versions.TiesDoNotCarryOver | hub/src/api.rs:1338-1340 | `1.2` ties both `1.2.0` and `1.2.0.1`, of which the second is newer than the first and is one the documented order would put above `1.2` |
| Versions.Newest | hub/src/api.rs:1407-1437 | the fold picks a listed release of this theme that none listed is newer than, nothing exactly when none is listed, and fails exactly on an unusable tag |
| Versions.VersionsFollowThePrefix | hub/src/api.rs:1423-1432 | a release of the theme is its prefix and version, with or without a `v`, and has an archive |
| Versions.UsableTagsStayInTheirSegment | hub/src/api.rs:1313-1320 | a usable tag neither opens a path segment nor leaves its own |
| Renewal.Renewed | hub/src/main.rs:589-610 | the loop ends with the first date of the cycle not before today, and with none exactly when the cycle does not repeat, the date is not past, or the calendar ends first |
| Renewal.CycleMonths | hub/src/main.rs:589-599 | which cycles repeat, and after how many months |
| Renewal.MonthsOnTheSameDay | hub/src/main.rs:607 | a cycle on is the same day that many months on, or the last of a shorter month, and nothing past the last year there is |
| Renewal.RolledIsTheFirstNotPast | hub/src/main.rs:601-610 | rolling one cycle at a time reaches that same date |
| Renewal.RolledDateIsTodayExactlyOnTheCycle | hub/src/main.rs:601-610 | the date reached is today exactly when today is a date of the cycle |
| Renewal.RolledDateMayBeToday | hub/src/main.rs:601-602 | a rolled date that does not lie in the future |
| Renewal.RolledDateIsWholeCyclesOn | hub/src/main.rs:605-608 | it lies whole cycles on, its day of month capped by every month passed through |
| Renewal.StagesRollToTheSameDate | hub/src/main.rs:629-630 | rolling on successive days gives the date that rolling once would |
| Renewal.ShortMonthTakesTheDayForGood | hub/src/main.rs:607 | the 31st rolled through February is the 28th from then on |

## Left out

- Sockets, HTTP, WebSocket framing, JSON-RPC decoding and timers: each message or tick is one step.
- The database engine, migrations, backup and restore: tables are sets and maps, each statement group one step; failing writes are not modelled.
- Row ids at the 64-bit maximum, where SQLite picks ids at random, and the wrap of the session counter after 2^64 connections.
- Hashing, passwords, tokens, cookies, address parsing, location lookup, themes' archives and the agent's own measurements: library calls and I/O.
- The texts, batching and delivery of alerts, and the expiry and sign-in alerts.
- The bucketed metrics chart and the pruning of old rows.
- Calendar dates outside what the date library can hold, in billing periods; `Renewal` does model the end of the calendar.
- Traffic.Db.Accumulate: takes one date per call where the source reads the clock twice, so a midnight between the two readings is not modelled.
- Reports.Hub.Report: reports of one node follow one another, writing the history row and the last-seen stamp does not fail, and the runs it steps through have no corrections in between.
- Reports.Agent.WriteMeansInto: means are exact rational sums where the source adds floating-point numbers; integers are rounded as the source rounds, halves away from zero.
- Reports.ChartIntegratesToTotals: subtraction of totals saturates where the source's wraps; on the non-negative totals it is about they are the same.
- PingHistory.PingRecords: the window's loss is a count of lost and sent where the source also divides them into a floating-point percentage.
- PingHistory.LatencyIsTheMedianUnlessItWraps: is about 64-bit addition that wraps, as release builds do; a debug build would stop instead.
- Alerts.Watch.Sweep: a node deleted and another created under its id between two sweeps inherits what was remembered, as the source notes of itself.
- AlertRuns.AlertsAreSpacedExactlyWhileReturnsCount: clocks that step back are not modelled; grace periods are those the settings allow.
- Sessions.Hub.Retire: the restore that clears the whole map is that many single retirements.
- Template.BodyIsTheTemplateWithItsValues: reads the strings of a body and leaves its other structure to the template; pairs of `\u` escapes that together name one character stay two units.
- Snapshot.Cache.LiveSnapshot: is one step of its class; writes that come while a frame is built are in the interleaved steps only.
- Upload.Send: what reaches the hub of each piece is a parameter, in any framing; aborting and progress reports are not modelled.
- Upload.Hub.Receive: truncating back after a failure is taken to succeed, one upload is in flight at a time, and the limit a proxy puts on one request is not modelled.
- Versions.Newest: works on the releases of all pages as one list; fetching at most three pages is not modelled.
- Reconcile.Agent.Respawn: a probe loop that ends on its own when its channel closes is not modelled.
