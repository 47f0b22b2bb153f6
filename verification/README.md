# Verified model of the station and host health monitor

The monitor watches meteor-camera stations: it scans their logs, walks the process table, keeps small
state files across restarts, judges what it finds, and publishes one retained record per station and
host to an MQTT broker. This project models the stateful algorithms underneath in Dafny and proves
properties of them over every log, every snapshot and every run.

Code that changes state step by step is a method or a class here, proved against a specification that
is written differently from the code (by position in the log, by reachability, by history), and the
lemmas are about those specifications. What each specification answers is stated a second time on the
raw input, with the program's constants as literals: on the fields of log lines, processes, polls,
pings and discovered stations. `dafny verify dfyconfig.toml` checks everything.

| file | what it models |
|---|---|
| `Sequences.dfy`, `Spacing.dfy` | positions in a sequence; events kept apart in time |
| `StateFiles.dfy` | state kept at the first usable of several candidate paths |
| `CaptureEvents.dfy`, `CaptureReport.dfy` | the one-pass scan of the whole capture log |
| `Disconnects.dfy`, `DisconnectHistory.dfy` | scheduled camera reboots against real drops, and their history |
| `LogScan.dfy`, `Tail.dfy` | the time-windowed tail scan, and the backward block reader that feeds it |
| `ProcessTree.dfy`, `CpuShare.dfy` | root selection and the walk of the capture process tree; its CPU share between samples |
| `RepoStatus.dfy` | the "behind since" clock of the checkout |
| `BootMarker.dfy` | the boot marker across power cuts, reboots and restarts |
| `Attribution.dfy`, `Escalation.dfy` | drop causes by elimination, and the probe backoff |
| `Standby.dfy`, `StandbyReport.dfy` | the camera-unreachable clock, the cheap-ping fast path, and what its records report |
| `Publishing.dfy`, `RunLoop.dfy` | the lossy link, tombstones and the consent loop |
| `Health.dfy` | the verdict engine |
| `RouteLookup.dfy` | longest-prefix lookup over little-endian routing words |

A log line is a record of what each pattern finds in it, with an optional timestamp in whole seconds.
Clock readings are `real`. Files, pings, probes, `git`, the link and the clock are inputs, including
their failures; a run quantifies over all of them.

## Where the code and its documentation part ways

The model follows the code; each point is a lemma.

- `classify_disconnects` promises that drops within 600 s of a scheduled one share its verdict.
  `Disconnects.PromiseFails` is a session where one does not: spreading is transitive forwards, one
  hop backwards. `Disconnects.SharesVerdictIff` says exactly when the promise holds.
- `go_silent` promises to leave nothing on the broker. `Publishing.SilenceIff`: it does exactly when
  the link holds through every tombstone, or there was nothing and the link stays down throughout.
  `RunLoop.SilenceLeaks` is a run from the start that leaves a record there for good.
- The repository's README.md:172-174 has a probe run at most once per minimum interval. The backoff
  is forgotten by a recovery and by a restart of the monitor, and never noted by a probe that raises.
  `Escalation.SpacedIff`: probes keep the spacing exactly when no unexplained drops come within it
  after a probe whose timer is gone in one of those ways. `SpacingFailsAcrossRecovery` and
  `SpacingFailsAcrossRestart` are such runs. When a reload raises the minimum, the next probe need
  not honour it (`RaisedMinimumLags`); `OwnMinimumIff` says exactly when every probe does.
- `_tail` returns the last n lines for n >= 1; for n = 0 it returns lines unless the file is empty,
  because the slice `[-0:]` is the whole list. `Tail.TailLines` states both.
- The agent's `cleared` set is meant to name stations whose record is gone. `RunLoop.RunKeepsInv`
  says when it does, over every run on a broker holding anything: exactly when no cycle gets a
  record accepted for an id whose mark it keeps. `RaisedCycleKeepsInvIff` and
  `CompletedCycleKeepsInvIff` put that per cycle; `RaisingRunBreaks` (an exception between publishing
  and re-arming) and `SharedIdRunBreaks` (two stations with one id) are runs from the start that end
  with a marked id still on the broker. `OptOutIgnored`: if the station then opts out again, its
  record stays for as long as it is opted out, with the link up all along.
- A write that lands at a later candidate path than an old readable record is never read back
  (`StateFiles.ReadBack`).

## Model

| member | source | states |
|---|---|---|
| StateFiles.ReadBack | cc_mqtt_monitor/bootmarker.py:72-101 | a reader finds a written record iff the first writable path is no later than the first path holding a record; otherwise it finds what it found before |
| StateFiles.StateFile.Read | cc_mqtt_monitor/bootmarker.py:72-82 | the record of the first path that holds a valid one |
| StateFiles.StateFile.Write | cc_mqtt_monitor/bootmarker.py:85-101 | only the first writable path changes; success iff there is one |
| CaptureEvents.ScanLog | cc_mqtt_monitor/collect.py:1276-1342 | for every log, the single pass returns the positional answers: session counters over the suffix after the last transition, last backend, star reading, processing run |
| CaptureEvents.PatternOrder | cc_mqtt_monitor/collect.py:1284-1339 | for every line, which pattern decides it when several match, and what is taken from it |
| CaptureEvents.BackendOnLines | cc_mqtt_monitor/collect.py:1309-1316 | the backend is that of the last line naming one, GStreamer first, unless a boundary pattern claims the line |
| CaptureEvents.DropsOnLines | cc_mqtt_monitor/collect.py:1284-1322 | the disconnects are the lines after the last transition that match and that no earlier pattern claims |
| CaptureEvents.TimesOnLines | cc_mqtt_monitor/collect.py:1317-1322 | their dates, one for each dated one, in log order |
| CaptureEvents.RestartsOnLines | cc_mqtt_monitor/collect.py:1323-1326 | the greatest number on a restart line of the session, 0 without one |
| CaptureEvents.MeteorsOnLines | cc_mqtt_monitor/collect.py:1327-1330 | the sum over the meteor lines of the session |
| CaptureEvents.StarsOnLines | cc_mqtt_monitor/collect.py:1331-1341 | the last star line's count; ">cap" when it is 0 and the last overflow line, unused since, gave a cap |
| CaptureEvents.ProcessingOnLines | cc_mqtt_monitor/collect.py:1288-1305 | a run is under way iff the last start line follows the last end line; a reprocess start names and dates it |
| CaptureEvents.DawnOnLines | cc_mqtt_monitor/collect.py:1299-1308 | a dawn run is dated by the first dawn line since the last end or reprocess line, and placed in the last directory named before it |
| CaptureEvents.ProcessingSnoc | cc_mqtt_monitor/collect.py:1288-1308 | the run defined by marker positions (active iff a start follows the last end; a dawn run dated by its first marker since the last end-or-reprocess) evolves as the branches say |
| CaptureEvents.RunUnderWay | cc_mqtt_monitor/collect.py:1258-1261 | processing is active iff a start marker follows the last end marker |
| CaptureEvents.DawnRunUnderWay | cc_mqtt_monitor/collect.py:1299-1304 | the run is a dawn run iff a dawn marker follows the last end-or-reprocess marker |
| CaptureEvents.CarriedSnoc | cc_mqtt_monitor/collect.py:1284-1341 | every carried variable, as a position-defined function of the log, changes per line exactly as its branch does |
| CaptureEvents.CountersForgetEarlierSessions | cc_mqtt_monitor/collect.py:1284-1287 | nothing before the last day/night transition affects the session's counters |
| CaptureReport.CollectCaptureEvents | cc_mqtt_monitor/collect.py:1272-1360 | log pass, history and classifier together: scheduled + unplanned = disconnects of the session, undated drops unplanned, all null when the log is unreadable |
| Disconnects.PassesTestIff | cc_mqtt_monitor/collect.py:1186-1192 | the gap guard plus two-sided remainder test holds iff the drop is within 1200 s of k whole days later, k >= 1 |
| Disconnects.SameTimeInSeconds | cc_mqtt_monitor/collect.py:1186-1192 | in seconds: within 1200 of k times 86400, k at least 1 |
| Disconnects.VouchersAreOld | cc_mqtt_monitor/collect.py:1187-1188 | nothing less than 23 h 40 min earlier vouches for a drop |
| Disconnects.DirectHits | cc_mqtt_monitor/collect.py:1183-1192 | the first loop finds exactly the drops some history entry vouches for |
| Disconnects.Spread | cc_mqtt_monitor/collect.py:1193-1195 | the in-place loop, in any order of times, yields: direct hit, near a direct hit, or near an earlier member |
| Disconnects.ClassifyDisconnects | cc_mqtt_monitor/collect.py:1174-1196 | the counts of that set and of its complement |
| Disconnects.VerdictInSeconds | cc_mqtt_monitor/collect.py:1183-1195 | in any order of times: vouched for, or within 600 s of a drop that is, or of an earlier scheduled one |
| Disconnects.MemberChain | cc_mqtt_monitor/collect.py:1193-1195 | every scheduled drop is chained to a direct hit by hops of at most 600 s |
| Disconnects.GrowsWithHistory | cc_mqtt_monitor/collect.py:1183-1195 | more history never unschedules a drop |
| Disconnects.BurstVerdict | cc_mqtt_monitor/collect.py:1183-1195 | chronologically: scheduled iff the burst holds a direct hit the drop precedes by at most 600 s |
| Disconnects.VerdictInTimes | cc_mqtt_monitor/collect.py:1183-1195 | chronologically, in times alone: a vouched drop at most 600 s later, or earlier with no gap above 600 s in between |
| Disconnects.SharesVerdictIff | cc_mqtt_monitor/collect.py:1178-1182 | drops within 600 s share a verdict iff every burst with a direct hit has one within 600 s of its first drop |
| Disconnects.PromiseFails | cc_mqtt_monitor/collect.py:1179-1180 | a session where they do not |
| DisconnectHistory.Merged | cc_mqtt_monitor/collect.py:1215-1215 | the saved list is strictly sorted and holds exactly the times at most four days old |
| DisconnectHistory.RecordSession | cc_mqtt_monitor/collect.py:1199-1226 | earlier drops are those more than 60 s from every drop of the session; the merged list is stored |
| DisconnectHistory.JudgeSession | cc_mqtt_monitor/collect.py:1344-1350 | scheduled + unplanned is the number of disconnects; without a station id no history is kept |
| DisconnectHistory.ScanExtendsRun | cc_mqtt_monitor/collect.py:1205-1225 | while writes land, the file holds the history of the run |
| DisconnectHistory.HistoryIsWhatWasSeen | cc_mqtt_monitor/collect.py:1199-1226 | after any run of scans the list holds exactly the drops seen that are at most four days old, once each, in order |
| DisconnectHistory.DirectOverRun | cc_mqtt_monitor/collect.py:1174-1226 | over a run: a drop is vouched for iff an earlier scan saw one at the same time of day on an earlier day, still on record and not of this session |
| DisconnectHistory.RescanForgetsExactly | cc_mqtt_monitor/collect.py:1214-1215 | rescanning a session keeps exactly the earlier drops that have not aged out |
| DisconnectHistory.RescanKeepsVerdicts | cc_mqtt_monitor/collect.py:1199-1226 | so any number of rescans gives the same split while nothing ages out |
| Tail.TailLines | cc_mqtt_monitor/collect.py:862-877 | for every content, block size >= 1 and n: the result is the last n lines of the whole file iff n >= 1 or the file is empty |
| Tail.SplitLinesIff | cc_mqtt_monitor/collect.py:875-875 | what splitting computes, up to uniqueness: lines without breaks whose text, each with one terminator ("\r\n" or one break, none only after a non-empty last line, no lone "\r" before "\n"), is the whole |
| Tail.BreaksAre | cc_mqtt_monitor/collect.py:875-875 | the ten line breaks of str.splitlines |
| Tail.SuffixHasLastLines | cc_mqtt_monitor/collect.py:870-875 | any suffix with more than n newlines has the last n lines of the whole, wherever it was cut |
| Tail.SplitAtNewline | cc_mqtt_monitor/collect.py:875-875 | splitting (all line breaks of str.splitlines, "\r\n" as one) is clean at a newline |
| LogScan.ScanTail | cc_mqtt_monitor/collect.py:943-1031 | every count is the number of matching lines whose latest timestamp at or before them is in the window (or absent); the last-event fields name the last such line; the recent and lead-up peaks are the specified ones |
| LogScan.HitOnLines | cc_mqtt_monitor/collect.py:939-1012 | over the clock and window of the scan: a line counts iff it matches and is undated, the window is none or 0, or its date is at most the window old |
| LogScan.ScanClearsOnTime | cc_mqtt_monitor/collect.py:902-950 | the scan's count is 0 exactly once the clock passes the last match's date by the window; never without a window |
| LogScan.WiderScanCountsMore | cc_mqtt_monitor/collect.py:940-950 | a longer window, none, or an earlier clock never lowers a count |
| LogScan.LeadupOnLines | cc_mqtt_monitor/collect.py:1006-1029 | the lead-up peak, on the lines: the greatest fill ahead of the last rise of the session counter, within 900 s, or 90 readings where dates fail |
| LogScan.NoDropOnLines | cc_mqtt_monitor/collect.py:1016-1020 | none where the counter never rises |
| LogScan.RecentOnLines | cc_mqtt_monitor/collect.py:991-1004 | the recent peak, on the lines: within 900 s of the last dated reading, or among the last 90 |
| LogScan.LatestOnLines | cc_mqtt_monitor/collect.py:972-989 | the current reading and mode are those of the last lines that carry one |
| LogScan.RecentPeak | cc_mqtt_monitor/collect.py:991-1004 | the greatest fill within 15 minutes of the last dated reading, or of the last 90 when none is dated; none only without readings |
| LogScan.RecentCoversLeadup | cc_mqtt_monitor/collect.py:991-1029 | when the newest reading is the drop and dated, the recent peak is at least the lead-up peak and the fill at the drop itself |
| LogScan.ExtractTraceback | cc_mqtt_monitor/collect.py:880-895 | the reported line is the end of the block: no blank or stamped line after the header up to it, and one (or the end) right after |
| LogScan.TracebackEndUnique | cc_mqtt_monitor/collect.py:880-895 | a traceback block has one end, so the reported line is determined |
| LogScan.KindsDisjoint | cc_mqtt_monitor/collect.py:952-966 | no line counts both as fatal and as warning, nor as rebuild and decoder fault |
| LogScan.WiderWindowCountsMore | cc_mqtt_monitor/collect.py:940-950 | enlarging the window never lowers a count |
| LogScan.CountsZeroIff | cc_mqtt_monitor/collect.py:947-950 | a count is zero iff every matching line is dated before the cutoff; undated ones fail open |
| LogScan.ClearsOnTime | cc_mqtt_monitor/collect.py:902-906 | an alert clears exactly when the clock passes the last match plus the window, whatever else is logged |
| LogScan.LeadupPeak | cc_mqtt_monitor/collect.py:1016-1029 | the maximum fill in the lead-up of the last session-counter increase; none without a drop or a lead-up |
| LogScan.LeadupPeakUnique | cc_mqtt_monitor/collect.py:1006-1029 | that specification allows one answer |
| LogScan.PeakIgnoresDropLine | cc_mqtt_monitor/collect.py:1006-1015 | changing any fill at or after the drop line does not change the peak |
| Attribution.EliminationIsExact | cc_mqtt_monitor/health.py:172-292 | the verdict is the topmost cause that has evidence of its own; there is one iff frames drop; confidence is high iff the cause is measured, else medium iff something was ruled out |
| Attribution.VerdictOnSignals | cc_mqtt_monitor/health.py:189-292 | for each cause, which signals must be above their limits and which must not; and each level of confidence |
| Attribution.ProbeSharpens | cc_mqtt_monitor/health.py:186-292 | merging a probe's results never lowers confidence, and changes the cause only to link loss, iff the host did not explain the drops and the measured loss is hot |
| Attribution.HostExplainedIff | cc_mqtt_monitor/health.py:199-245 | a cheap cause is named iff some cheap cause has evidence |
| Attribution.BackPressureIsGenuine | cc_mqtt_monitor/health.py:211-228 | from log to verdict: back-pressure implies no reconnect in the window and a line above the threshold strictly ahead of a drop, at most 15 minutes when both are dated, else at most 90 readings |
| Escalation.Escalator.RunCycle | cc_mqtt_monitor/monitor.py:149-153 | one station's decide-probe-merge-note step under the policy in force: nothing when switched off, nothing noted when the probe raises, an empty table after a restart; other stations keep their entries |
| Escalation.Escalator.ShouldEscalate | cc_mqtt_monitor/diagnose.py:175-197 | probes iff bad, unexplained and past the timer; recovery drops the entry |
| Escalation.Escalator.NoteEscalation | cc_mqtt_monitor/diagnose.py:200-206 | the new entry: first interval the minimum, then doubled and capped |
| Escalation.EntryOfEpisode | cc_mqtt_monitor/diagnose.py:175-206 | in an unbroken bad episode under fixed intervals the k-th interval is min(min * 2^k, max), counted from the probe's end |
| Escalation.ProbesKeepApart | cc_mqtt_monitor/diagnose.py:194-206 | the next probe of the episode starts no sooner than that |
| Escalation.ProbeRate | cc_mqtt_monitor/diagnose.py:175-206 | probes i to j span at least (j - i) times the i-th interval |
| Escalation.EscalationCause | cc_mqtt_monitor/diagnose.py:189-191 | a probe's cause is camera/link or uncertain; there is no cause only with no drops, which needs a warning threshold of 0 or less |
| Escalation.SuspicionOnSignals | cc_mqtt_monitor/diagnose.py:184-191 | a cycle is worth a probe iff frames drop and no signal of a host cause is hot, whatever the camera shows |
| Escalation.RecoveryForgets | cc_mqtt_monitor/diagnose.py:184-187 | after a recovery the next unexplained bad cycle probes at once |
| Escalation.FreshStart | cc_mqtt_monitor/diagnose.py:162-187 | an episode after a recovery, or in a new process, is like one from the beginning |
| Escalation.NextProbeIff | cc_mqtt_monitor/diagnose.py:175-206 | over every run, with recoveries, restarts, reloads and failing probes: a probe follows another up to some cycle iff unexplained drops find its timer gone, or the interval it noted over, by then |
| Escalation.SpacedIff | cc_mqtt_monitor/diagnose.py:166-206 | over every such run whose intervals are at least `gap`: all probes are `gap` apart iff no unexplained drops come within it after a probe whose timer a recovery, a restart or its own failure has taken away |
| Escalation.OwnMinimumIff | cc_mqtt_monitor/diagnose.py:194-206 | under any reloads: every probe keeps the minimum interval in force when it ran iff no unexplained drops come within it with the timer gone or the noted interval over |
| Escalation.ShortIntervalBreaks | cc_mqtt_monitor/diagnose.py:200-206 | while its timer is not taken away, a probe breaks its own minimum only if the interval it noted is below it, and names the earlier minimum or maximum that held it down |
| Escalation.EntryIsStreak | cc_mqtt_monitor/diagnose.py:200-206 | under any reloads the entry's interval is determined by the policies of the probes since the backoff was last forgotten |
| Escalation.IntervalReachesIff | cc_mqtt_monitor/diagnose.py:203-206 | that interval in closed form: at least g iff the first minimum and every later maximum are, each doubled once per probe since |
| Escalation.SpacingFailsAcrossRecovery | cc_mqtt_monitor/diagnose.py:184-187 | two probes two seconds apart with a 600 s minimum, a recovery between them |
| Escalation.SpacingFailsAcrossRestart | cc_mqtt_monitor/diagnose.py:162-166 | the same with bad cycles only and a restart of the monitor between them |
| Escalation.RaisedMinimumLags | cc_mqtt_monitor/diagnose.py:203-206 | probes 1200 s apart with a 3600 s minimum in force, after a reload that raised it |
| ProcessTree.FindRoots | cc_mqtt_monitor/collect.py:165-188 | the roots: matching processes whose parent carries no marker, in snapshot order |
| ProcessTree.RootsOnProcs | cc_mqtt_monitor/collect.py:165-188 | in entries: one root per entry whose pid carries marker and configuration and whose parent is no marker process, in snapshot order |
| ProcessTree.OneCaptureOneInstance | cc_mqtt_monitor/collect.py:171-188 | when every marker process but one has a marker parent there is at most one instance, that one, however many workers it forked |
| ProcessTree.LostConfigsAddNoRoot | cc_mqtt_monitor/collect.py:177-188 | losing any set of configuration paths adds no root and no instance |
| ProcessTree.WalkTree | cc_mqtt_monitor/collect.py:201-210 | terminates on any parent relation and returns exactly what is reachable from the roots |
| ProcessTree.EveryMatchInTree | cc_mqtt_monitor/collect.py:174-210 | with acyclic parentage and matching marker parents, every matching process is in the tree |
| ProcessTree.TotalRss | cc_mqtt_monitor/collect.py:201-212 | the sum of the RSS table over the tree, in any order of the set |
| ProcessTree.EachCountedOnce | cc_mqtt_monitor/collect.py:201-212 | with distinct pids the RSS total counts each process of the tree once |
| ProcessTree.MainPid | cc_mqtt_monitor/collect.py:189-194 | the main process is the first of the oldest roots, unknown ages last |
| ProcessTree.TotalPss | cc_mqtt_monitor/collect.py:217-219 | the sum of the readable proportional shares of the tree; none iff none is readable |
| ProcessTree.CollectProcess | cc_mqtt_monitor/collect.py:153-253 | alive iff there is a root; instances, process count, RSS, PSS and CPU share of that tree; the main process is the first of the oldest roots, and its age the one published; other stations' samples are kept |
| CpuShare.Meter.Measure | cc_mqtt_monitor/collect.py:222-234 | the share since the last sample, none without an earlier sample, an advanced clock and a count that has not fallen; the sample is replaced, or dropped with the tree |
| CpuShare.SharesAddUp | cc_mqtt_monitor/collect.py:222-234 | over a stretch of life the published shares stand for the ticks from first to last sample, each once, plus those lost with ended processes |
| RepoStatus.Poller.Poll | cc_mqtt_monitor/collect.py:1574-1618 | per checkout, the recorded clock equals the clock of every poll so far; the file follows a changed table iff the save lands, and is else untouched; cache and other checkouts included |
| RepoStatus.SurvivesIff | cc_mqtt_monitor/collect.py:1514-1535 | a restart keeps a checkout's commit and clock iff the entry on file is the one in memory |
| RepoStatus.RestartKeepsIff | cc_mqtt_monitor/collect.py:1514-1612 | as a law over the polls, whichever saves failed: a restart keeps it iff the polls the file does not know saw no other commit and no "up to date" (clock running), or end on the same commit with no "behind" since the last reset (clock stopped) |
| RepoStatus.Poller.Restart | cc_mqtt_monitor/collect.py:1514-1535 | a restart keeps the clock of the polls the file knows: all of them while saves succeed |
| RepoStatus.ClockStep | cc_mqtt_monitor/collect.py:1598-1612 | the first "behind" poll since the later of the last other-commit poll and the last "up to date" moves as the code's transitions do |
| RepoStatus.ClockOnPolls | cc_mqtt_monitor/collect.py:1598-1612 | on the polls: the clock is the first "behind" after the last poll that found another commit or was up to date |
| RepoStatus.LagOnClock | cc_mqtt_monitor/collect.py:1614-1617 | the lag is the time since the stamp in days, 0 without one or with the clock stepped back |
| RepoStatus.SilenceKeepsClock | cc_mqtt_monitor/collect.py:1609-1609 | undeterminable polls on one commit never move the clock |
| RepoStatus.LagNeverFalls | cc_mqtt_monitor/collect.py:1614-1617 | while the commit stays behind the stamp stays and the lag does not fall |
| BootMarker.Process.Start | cc_mqtt_monitor/bootmarker.py:115-139 | one start against the file, boot id readable or not, write landing or not |
| BootMarker.Process.Heartbeat | cc_mqtt_monitor/bootmarker.py:142-154 | one heartbeat: rate-limited, only for this boot, remembered only when written |
| BootMarker.Process.Stop | cc_mqtt_monitor/bootmarker.py:157-164 | one stop, alone or with the system |
| BootMarker.Metrics | cc_mqtt_monitor/bootmarker.py:167-182 | the published verdict and age, only of this boot's record; nothing is written |
| BootMarker.MarkerAfter | cc_mqtt_monitor/bootmarker.py:115-164 | after any run the marker names the current boot and its state, and is less than 120 s old |
| BootMarker.StepOnRecord | cc_mqtt_monitor/bootmarker.py:115-164 | what a start, heartbeat and stop leave, by the boot and state found on record |
| BootMarker.VerdictAfter | cc_mqtt_monitor/bootmarker.py:15-31 | none on the first boot, else how the last operation of the boot before left the marker |
| BootMarker.PublishedVerdict | cc_mqtt_monitor/bootmarker.py:15-31 | with distinct boot ids: unclean iff the previous monitored boot ended in a start or heartbeat, clean iff in a system stop, unknown iff in a lone stop; dated to within 120 s |
| BootMarker.VerdictDate | cc_mqtt_monitor/bootmarker.py:130-139 | with a clock that does not step back, the verdict is dated within the last 120 s of the boot it is about, never after it |
| BootMarker.VerdictIsStable | cc_mqtt_monitor/bootmarker.py:28-31 | restarts within a boot change neither verdict nor date |
| BootMarker.MarkerLags | cc_mqtt_monitor/bootmarker.py:49-51 | called every c seconds, the marker lags by less than 120 + c |
| BootMarker.HeartbeatsAreSpaced | cc_mqtt_monitor/bootmarker.py:142-154 | live writes of a process are at least 120 s apart |
| BootMarker.WriteRate | cc_mqtt_monitor/bootmarker.py:49-51 | n writes need at least (n - 1) * 120 seconds |
| Standby.Tracker.TrackUnreachable | cc_mqtt_monitor/monitor.py:32-43 | the clock starts once, runs while stalled and unanswered, and is dropped otherwise |
| Standby.Tracker.Gather | cc_mqtt_monitor/monitor.py:121-168 | one station's cycle, fast path included; other stations keep their state |
| Standby.CycleInPings | cc_mqtt_monitor/monitor.py:121-168 | what one cycle publishes and leaves, by its two pings, the stall, the grace and a restart |
| Standby.StandbyHasClock | cc_mqtt_monitor/monitor.py:127-142 | a station in standby always has a running clock |
| Standby.StandbyMeans | cc_mqtt_monitor/monitor.py:121-168 | over every run, reloads of the grace and restarts included: in standby iff since some cycle, in one process, every deciding ping went unanswered, stalled or already in standby, and some cycle since came at least its own grace later |
| Standby.SpanCoversGrace | cc_mqtt_monitor/monitor.py:32-43 | while the grace in force is the least so far, the published span covers it |
| Standby.AnswerRestartsGrace | cc_mqtt_monitor/monitor.py:140-142 | any answered or undeterminable ping, and any restart, ends standby; re-entry takes a full fresh grace |
| StandbyReport.CollapseReportsOneCause | cc_mqtt_monitor/health.py:316-331 | over a run: a sustained silence is reported as `camera_unreachable` alone, and nothing else ever reports that key |
| StandbyReport.StallShowsUntilCollapse | cc_mqtt_monitor/monitor.py:159-168 | a stalled station with readable data and a known output age reports `capture_stalled` exactly until the collapse |
| Publishing.Publisher.Publish | cc_mqtt_monitor/publisher.py:258-272 | accepted or dropped by the link of the moment, each publish accounted for |
| Publishing.Publisher.ClearStation | cc_mqtt_monitor/publisher.py:307-316 | true only if the tombstone went out, and then no record is retained |
| Publishing.Publisher.GoSilent | cc_mqtt_monitor/publisher.py:318-328 | tombstones for status, host and stations in order, then a clean disconnect |
| Publishing.RecordAfterAll | cc_mqtt_monitor/publisher.py:258-292 | after a batch over a flapping link a record is as its last accepted publish left it |
| Publishing.LookTells | cc_mqtt_monitor/publisher.py:86-118 | a link that came back announces the host, one that broke leaves the last will |
| Publishing.RecordsKeepStatus | cc_mqtt_monitor/publisher.py:86-118 | over a batch and any flapping the status says online while linked and never after the link was seen down |
| Publishing.SilenceIff | cc_mqtt_monitor/publisher.py:318-328 | nothing is left iff the link holds through every tombstone, or nothing was there, the host was not linked and the link stays down throughout |
| RunLoop.Loop.RunCycle | cc_mqtt_monitor/monitor.py:450-478 | one pass of the loop body with its three discoveries, raising cycles included |
| RunLoop.AfterTombstones | cc_mqtt_monitor/monitor.py:463-466 | marked iff already marked or sent; sent means no record; a held link marks everyone |
| RunLoop.UpCycleIsExact | cc_mqtt_monitor/monitor.py:454-467 | in discoveries: after a completed cycle under a link that holds, exactly which ids have a record and which are marked |
| RunLoop.RaisedCycleIsExact | cc_mqtt_monitor/monitor.py:461-469 | the same after an exception while publishing: the records before it, and no mark changed |
| RunLoop.WipingRaiseIsExact | cc_mqtt_monitor/monitor.py:463-469 | the same after an exception while wiping: the first n opted-out stations wiped and marked, no mark dropped |
| RunLoop.SilentCycleIff | cc_mqtt_monitor/monitor.py:471-478 | when no discovered station consents: nothing of the host or any discovered station is left iff the link holds through every tombstone, or was down with nothing there; a silent host stays as it is |
| RunLoop.OptOutLeavesNothing | cc_mqtt_monitor/monitor.py:471-476 | over runs: whatever went before, opting out with the link up leaves nothing |
| RunLoop.IdsInOrder | cc_mqtt_monitor/monitor.py:450-452 | consenting and opted-out ids, in the order of discovery |
| RunLoop.CycleTellsLink | cc_mqtt_monitor/publisher.py:86-118 | while a station consents, the host's status tells how the link was last seen |
| RunLoop.MarkedAndRetainedIff | cc_mqtt_monitor/monitor.py:461-469 | per id: a cycle ends with it marked and retained iff it was marked, kept its mark and had a record accepted |
| RunLoop.CycleKeepsInv | cc_mqtt_monitor/monitor.py:450-476 | any cycle keeps (not connected implies nothing marked, marked implies no retained record) iff no id whose mark it keeps has a record accepted |
| RunLoop.CompletedCycleKeepsInvIff | cc_mqtt_monitor/monitor.py:450-469 | for a completed cycle: iff no accepted record is of a marked id that is also opted out |
| RunLoop.RunKeepsInv | cc_mqtt_monitor/monitor.py:426-480 | over every run on a broker holding anything, raising cycles, shared ids and any link included: the invariant holds throughout iff every cycle meets its condition |
| RunLoop.CleanRunIsHarmless | cc_mqtt_monitor/monitor.py:450-480 | every cycle does when ids are distinct and nothing raises |
| RunLoop.RaisedCycleKeepsInvIff | cc_mqtt_monitor/monitor.py:461-469 | a raising cycle keeps it iff no marked id had a record accepted before the exception |
| RunLoop.AmbiguousIdBreaks | cc_mqtt_monitor/monitor.py:451-467 | an id both consenting and opted out ends a completed cycle marked and retained iff it was marked and its record accepted |
| RunLoop.RaisingRunBreaks | cc_mqtt_monitor/monitor.py:461-469 | a two-cycle run, the second raising, that ends with a marked station retained |
| RunLoop.SharedIdRunBreaks | cc_mqtt_monitor/monitor.py:451-467 | a two-cycle run of completed cycles with a shared id that does the same |
| RunLoop.OrphanStays | cc_mqtt_monitor/monitor.py:463-467 | a marked record is never cleared by any run of cycles in which its station stays opted out and another consents |
| RunLoop.OptOutIgnored | cc_mqtt_monitor/monitor.py:461-469 | so after such a raising run a station that opts out again keeps its record on the broker, the link up all the while |
| RunLoop.UpCycleWipes | cc_mqtt_monitor/monitor.py:463-467 | a completed cycle that meets its condition with the link up leaves no record of any opted-out station |
| RunLoop.UpCycleMatchesConsent | cc_mqtt_monitor/monitor.py:454-467 | with distinct ids: after a completed cycle with the link up, the broker holds every record the cycle handed over and none of an opted-out station |
| RunLoop.RunBegins | cc_mqtt_monitor/monitor.py:425-426 | a process begins on the broker as it was left, with nothing marked |
| RunLoop.UpCycleAfterAnyRun | cc_mqtt_monitor/monitor.py:463-467 | dropped tombstones are retried and records of earlier processes wiped: whatever the broker held at the start, after any run whose cycles meet their conditions the next completed link-up cycle clears every opted-out station |
| RunLoop.RestartWipes | cc_mqtt_monitor/monitor.py:463-467 | whatever earlier processes left, the first completed link-up cycle of a new one leaves no record of an opted-out station, shared ids included |
| RunLoop.NeverConsentedNeverPublished | cc_mqtt_monitor/monitor.py:71-83 | over every run, raising cycles included, the broker ends with no record of a station that never consented unless it held one before |
| RunLoop.NothingSentTwice | cc_mqtt_monitor/monitor.py:463-466 | once all opted-out stations are marked, a pass sends nothing |
| RunLoop.SilentChangesNothing | cc_mqtt_monitor/monitor.py:471-478 | after going silent nothing is touched until a station consents |
| RunLoop.SilenceLeaks | cc_mqtt_monitor/monitor.py:471-478 | a run from an empty broker whose tombstones are all dropped, leaving the station's record there however long the host is silent |
| Health.Evaluate | cc_mqtt_monitor/health.py:312-543 | the disabled-set verdict is the full list with those keys struck out, and its worst severity |
| Health.EvaluateHost | cc_mqtt_monitor/health.py:546-699 | the same for the host checks |
| Health.Worst | cc_mqtt_monitor/health.py:295-309 | the status is the greatest severity present, ok iff no problem remains |
| Health.Flagger.Flag | cc_mqtt_monitor/health.py:299-309 | a disabled key changes nothing, any other adds its problem and raises the status |
| Health.StallTest | cc_mqtt_monitor/health.py:387-397 | the inline stall test fires iff the ping gate is open and an output age is known |
| Health.ExpectedOnFields | cc_mqtt_monitor/health.py:115-131 | the schedule, else the frame tag, else the session's age say what output is expected |
| Health.GateOnFields | cc_mqtt_monitor/health.py:134-170 | the ping gate: stale output, or none ever after long enough, once settled |
| Health.DetectionTest | cc_mqtt_monitor/health.py:429-439 | fires iff a night capture long under way has produced no detector output |
| Health.OverdueTest | cc_mqtt_monitor/health.py:453-477 | fires, with the age exceeded, iff frames are fresh and either no timelapse exists and the frames data is too old, or the last session's is missing and the newest too old |
| Health.OomTest | cc_mqtt_monitor/health.py:586-606 | fires iff there were kills and neither capture nor the host restarted since; an error iff fresh and of capture |
| Health.PressureTest | cc_mqtt_monitor/health.py:616-625 | fires iff either stall ratio is above its limit; an error iff the sustained one is |
| Health.AnyLinkSlow | cc_mqtt_monitor/health.py:661-690 | fires iff some interface of known speed is below its floor or half duplex, with the rule on |
| Health.ReportIsExact | cc_mqtt_monitor/health.py:312-699 | each firing check is reported once, in report order, with its severity, unless disabled; nothing else is |
| Health.DisablingNeverWorsens | cc_mqtt_monitor/health.py:303-307 | disabling more checks strikes out exactly their problems and never worsens the status |
| Health.StopsReport | cc_mqtt_monitor/health.py:325-368 | an unreachable camera, a dead capture and unreadable data each end the report |
| Health.PowerCutAdvisory | cc_mqtt_monitor/health.py:575-584 | over a multi-boot run the advisory is raised iff the previous boot's last event was a start or heartbeat, while recent |
| RouteLookup.IfaceForIp | cc_mqtt_monitor/oslevel.py:445-466 | no interface iff no route matches; else the first match with the greatest mask word |
| RouteLookup.RoutesInOctets | cc_mqtt_monitor/oslevel.py:462-464 | matching is octet and mask equals destination, on all four octets |
| RouteLookup.GreaterInOctets | cc_mqtt_monitor/oslevel.py:462-464 | the greater mask is the one greater as a little-endian integer |
| RouteLookup.MaskGrows | cc_mqtt_monitor/oslevel.py:442-444 | the byte-swapped value of a contiguous netmask strictly increases with prefix length |
| RouteLookup.NetmaskIsPrefix | cc_mqtt_monitor/oslevel.py:442-444 | the netmask of length n has a one in exactly the first n bits |
| RouteLookup.LongestPrefix | cc_mqtt_monitor/oslevel.py:442-466 | on contiguous masks the choice is the first matching route of longest prefix (section 5.2.4.3 of RFC 1812) |
| RouteLookup.AndOnWords | cc_mqtt_monitor/oslevel.py:462-464 | the integer mask-and of two little-endian words is the word of the octet-wise and |
| RouteLookup.MatchOnWords | cc_mqtt_monitor/oslevel.py:442-464 | matching octet by octet is the integer test address-and-mask equals destination, on the words whose order the search compares |
| RouteLookup.MatchBitwise | cc_mqtt_monitor/oslevel.py:445-464 | whatever the mask: a route matches iff its destination has the address's bit wherever the mask is one, and none elsewhere |
| RouteLookup.MatchIsPrefix | cc_mqtt_monitor/oslevel.py:442-464 | a route of prefix length n matches iff the address agrees with its destination in each of the first n bits and the destination has no later bit |

## Left out

- Regular expressions, warning ignore lists and redaction: a line arrives as what the patterns find; the order in which they are tried is kept.
- Texts: reported lines are named by position, problems by key and level; wording, truncation and units are not modelled.
- Rounding of published numbers to one decimal or to whole seconds; thresholds meet exact values.
- Numbers that are not numbers: a signal is present or absent.
- CaptureEvents.ScanLog: directory names arrive already reduced to their last component.
- Tail.TailLines: works on characters; UTF-8 decoding, and a file that grows while it is read, are not modelled.
- DisconnectHistory.RecordSession: times on file are whole seconds, as the program writes them; a write torn in the middle is not modelled.
- ProcessTree.CollectProcess: the configuration path, age, memory share and ticks of a process are inputs.
- RepoStatus.Poller.Poll: the `git` queries are inputs, and an unreadable state file is an empty one.
- BootMarker.PublishedVerdict: assumes readable boot ids and writes that land; the methods also state what happens otherwise.
- Escalation.ProbeRate: holds within an unbroken bad episode under fixed intervals; `NextProbeIff` and `SpacedIff` cover whole runs and reloads. The manual `--diagnose` probe, which ignores the backoff by design, is not part of a run.
- Publishing.Publisher.Publish: an accepted publish takes effect at once; the client library's own queue and acknowledgements are not modelled.
- Publishing.Publisher.Connect: endpoint fallback, retries and the tombstones for a renamed host are not modelled.
- RunLoop.RunKeepsInv: a run is one process, starting on a broker that holds anything; no other writer touches the station topics meanwhile.
- Configuration reload, beyond the standby grace and the probing policy: that it can change the host's topic id is not modelled, nor are the maintenance sleep and the publish watchdog.
- Health.EvaluateHost: the link-speed setting arrives already parsed.
- Simple collectors, discovery, the viewer, the command line, solar and mode prediction: straight-line code that would only add easy members.
- Nothing was executed.
