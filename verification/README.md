# Verification of the WAN monitor

Two programs watch an Internet router with several uplinks. The **local monitor** polls the router for the next hop of its
default route, decides which WAN is up, raises alerts without repeating itself, polls faster after trouble, listens to the
router's syslog and sends heartbeats. The **remote sentinel** raises an alert when the heartbeats stop and another one when
they come back, and it watches a DNS record. This project models the logic of both in Dafny, in the form the code has
(classes with mutable fields where the code has objects, loops where it has loops), and proves what whole runs of them do.

| file | what it holds |
|---|---|
| `Common.dfy` | the shared data model |
| `Duration.dfy` | duration texts and a parser that inverts them |
| `Regex.dfy`, `Syslog.dfy`, `SyslogLines.dfy` | a backtracking matcher with Python's preferences (greedy, lazy, leftmost), the patterns, parsing, categories, and which lines are parsed |
| `WanMessages.dfy`, `WanCategories.dfy`, `SyslogRoundTrip.dfy` | extraction of WAN events, the category of every message, printing and parsing a BSD syslog line |
| `DnsMonitor.dfy` | the DNS change tracker and its runs |
| `HeartbeatReceiver.dfy`, `Sentinel.dfy`, `SentinelDecisions.dfy`, `SentinelTiming.dfy`, `LossTolerance.dfy`, `SenderLoop.dfy` | the sentinel as an interleaved, timed protocol |
| `SnmpPoller.dfy`, `AlertEngine.dfy`, `AlertRuns.dfy` | poller and alert engine, each with the theorems about its own runs |
| `LocalMonitor.dfy` | the poll loop cut at its awaits, with syslog events and heartbeats in between |
| `MonitorRuns.dfy`, `MonitorAlerts.dfy`, `MonitorCuts.dfy`, `MonitorFailover.dfy`, `MonitorSchedule.dfy` | theorems about whole runs of poller, engine and loops together |
| `StaleSnapshots.dfy` | runs that reach the bounds of `MonitorCuts.dfy` and `MonitorFailover.dfy`, which makes them exact |

**How it is built.** Every operation has a specification on values (`Next`, `Observe`, `NextStates`, `Parse`, ...), and the
class method or loop that does the work is proved equal to it (`PollOnce`, `ProcessWanState`, `PollLoop`, `MonitorLoop`, ...).
A run is a sequence of events, one for each stretch of code between two awaits; an event may come whenever the code is at
that place, so every interleaving of poll loop, heartbeats, syslog events, sends that return and sends that raise is a run.
The theorems hold for every run, not for some bounded ones. The next hop of a poll, the result of a DNS resolution, the
clock readings, and whether a send returns or raises are arbitrary inputs. `IsRun` says only that each event is one the code
can take next (and, for the sentinel, that the clock does not go back).

## What the proofs show about the code

- **Syslog round trip.** That a non-empty tag without a colon is enough is not true: a tag that starts with white space
  loses it to the blank before it (`LeadingSpaceIsLost`; the tag `" a"` comes back as `"a"`, `BlankTagLosesBlank`).
  `RoundTripExact` gives the exact condition, for all lines.
- **Passes cut short.** A send that raises ends the pass, and the WANs not yet processed keep the state of an older poll.
  Let w be the number of WANs that can be active (the different non-empty gateway addresses). With at most r passes cut
  short since the last completed one, a heartbeat never shows more than min(w, r + 2) WANs up, and some run reaches that
  (`ShownUpExact`); so "at most two" holds in every run exactly when r = 0 or w <= 2 (`TwoShownUpExact`).
- **Alerts of one poll.** "At most two alerts" fails after a cut pass in the same way, and the bound is the same:
  min(w, r + 2), reached (`PassAlertsExact`, `TwoAlertsExact`). `PassEffect` says which alerts any completed pass raises,
  and `PassAlertCount` how many, in terms of the WANs not known down before it.
- **A WAN with an empty name.** The failover line then says that no WAN is active, and its gateway counts as unknown
  (`FailoverNamesActive`, `UnknownGateway`).
- **Fast polling.** With two gateways or more the loop never returns to the normal interval after its first pass
  (`TwoGatewaysStayFast`), since a backup that is idle counts as DOWN. The documented `recovery_threshold` (line 167 of the
  repository's README.md) is never read: the number of stable polls is the literal 5 of local/alert_engine.py:218,
  and it only governs the interval; a RECOVERED goes out on the first UP.
- **The LOST report** is filled in after the probe, so it may name a heartbeat that came in meanwhile
  (`ReportedHeartbeat`); two LOST alerts in a row are possible as soon as passes are further apart than the deadline
  (`AlternationExact`).

## Model

| member | source | states |
|---|---|---|
| `Duration.FormatDuration` | shared/telegram.py:15-31 | the text consists of the components of the truncated seconds: larger units first, hours below 24, minutes and seconds below 60, none zero except "0s" alone |
| `Duration.AppendParts` | shared/telegram.py:22-31 | appending the non-zero parts one by one, with "0s" only when there are none, gives the rendered components |
| `Duration.PartsAreCanonical` | shared/telegram.py:17-30 | for every integer the components fall strictly in unit, hours are below 24, minutes and seconds below 60, none is zero except "0s" alone, and they add up to the seconds (negative ones through the floored days) |
| `Duration.CanonicalIsUnique` | shared/telegram.py:17-30 | any component list of that shape is the one the formatter produces for its value: the shape characterises the output |
| `Duration.FormatMeaning` | shared/telegram.py:15-31 | a text is the formatter's text for a number if and only if it consists of the canonical components with that sum |
| `Duration.FormatHourMinuteSecond` | shared/telegram.py:18-31 | 3661 seconds are "1h 1m 1s" |
| `Duration.FormatWholeUnits` | shared/telegram.py:22-31 | 0 seconds are "0s", 90000 are "1d 1h" |
| `Duration.FormatMinusOne` | shared/telegram.py:18-20 | -1 second is "-1d 23h 59m 59s" |
| `Duration.NoLeadingZero` | shared/telegram.py:24-30 | a printed number starts with a zero only if it is "0" |
| `Common.Truncate` | shared/telegram.py:17 | the whole number next to a duration in the direction of zero |
| `Duration.FormatRoundTrip` | shared/telegram.py:15-31 | a parser that splits at blanks and reads each number and unit gives back every integer |
| `Duration.FormatInjective` | shared/telegram.py:15-31 | different numbers of seconds have different texts |
| `Duration.FormatIsADuration` | shared/telegram.py:15-31 | a duration text is never empty and never the word "unknown" |
| `Regex.FirstFits` | local/syslog_receiver.py:14-27 | soundness of the matcher: the pieces it returns are a match of the pattern |
| `Regex.FirstFinds` | local/syslog_receiver.py:14-27 | completeness: if the text can be cut to fit the pattern at all, the matcher finds a match |
| `Regex.FirstIsMostPreferred` | local/syslog_receiver.py:14-27 | no other match comes before the one returned in the order of greedy, lazy and alternative choices |
| `Regex.ClassesAre` | local/syslog_receiver.py:14-27 | which character codes each class takes |
| `Regex.SearchMeaning` | local/syslog_receiver.py:77 | a search finds the leftmost position with a match, and the preferred match there |
| `Syslog.CategorizeMessage` | local/syslog_receiver.py:73-95 | the loop returns the event and group of the first pattern in the list that occurs in the message, else a generic category |
| `Syslog.ParseSyslogMessage` | local/syslog_receiver.py:36-70 | the event built from the groups of the match, or none if the stripped line does not match |
| `Syslog.SeverityIsNamed` | local/syslog_receiver.py:54-57 | the severity of any parsed line is one of the eight names; "unknown" is unreachable |
| `SyslogLines.ParsedLines` | local/syslog_receiver.py:14-41 | a line is parsed if and only if, stripped, it starts with parts in the layout, given by character codes alone |
| `SyslogLines.ParsedFrom` | local/syslog_receiver.py:43-70 | the event of every parsed line: time stamp text, host, tag, message, category and severity come from such parts |
| `SyslogLines.StripMeaning` | local/syslog_receiver.py:38 | stripping takes away the white space at both ends and all of it |
| `WanMessages.MatchesOnlyTemplate` | local/syslog_receiver.py:19-27 | in a message built on a template no pattern matches anywhere but at the template, and there it captures the interface name, despite lazy groups and two patterns with the same head |
| `WanMessages.TemplateIsRecognized` | local/syslog_receiver.py:73-82 | such a message is categorised as exactly the event of its template and names exactly that interface, whatever the prefix and the suffix |
| `WanCategories.CategoryMeaning` | local/syslog_receiver.py:19-27 | the event of every message, by which of the literal templates occur in it and in which priority; none of them occurs exactly if it is no WAN event |
| `WanCategories.NameMeaning` | local/syslog_receiver.py:76-82 | the interface of every WAN event: of the deciding pattern the leftmost occurrence, and there the shortest name |
| `WanCategories.MessageToAlerts` | local/alert_engine.py:152-211 | the alerts of every message, by the templates that occur in it |
| `SyslogRoundTrip.RoundTripExact` | local/syslog_receiver.py:14-16 | a line printed in the layout of sections 4.1.1 to 4.1.3 of RFC 3164 comes back with host, tag, message and the severity of PRI mod 8 if and only if it is recoverable: one-word host, one-line tag without a colon after its first character that starts outside white space (or is one blank before a message without colons), one-line message without outer white space |
| `SyslogRoundTrip.RecoverableIsRecovered` | local/syslog_receiver.py:36-70 | the direction from the condition to the round trip |
| `SyslogRoundTrip.RecoveredIsRecoverable` | local/syslog_receiver.py:36-70 | the converse: whatever comes back satisfied the condition |
| `SyslogRoundTrip.LeadingSpaceIsLost` | local/syslog_receiver.py:14-16 | a line whose tag has white space in front parses to the event of the line without it: only the tag changes |
| `SyslogRoundTrip.BlankTagLosesBlank` | local/syslog_receiver.py:36-70 | the tag `" a"` comes back as `"a"`, with the same host and message |
| `SyslogRoundTrip.RealLine` | local/syslog_receiver.py:36-70 | a line with one of the twelve month names and two-digit times, written out part by part, is parsed into its parts |
| `SyslogRoundTrip.PrintedSeverity` | local/syslog_receiver.py:54-57 | the eight severity names, literally, by PRI mod 8 |
| `SyslogRoundTrip.OuterSpaceIgnored` | local/syslog_receiver.py:38 | white space around any line changes nothing but the raw text |
| `DnsMonitor.DnsMonitor.constructor` | remote/dns_monitor.py:26-30 | nothing seen and no failures at first |
| `DnsMonitor.DnsMonitor.Check` | remote/dns_monitor.py:32-84 | the new fields and the alerts of one check, for a failed and for a successful resolution |
| `DnsMonitor.TrackerMeaning` | remote/dns_monitor.py:37-53 | after any run the fields are the newest success and the length of the current row of failures |
| `DnsMonitor.SuccessAdds` | remote/dns_monitor.py:53-84 | after any run a success adds the change against the newest success if it differs, then the mismatch if any, and nothing else |
| `DnsMonitor.FailureAdds` | remote/dns_monitor.py:37-51 | after any run a failure adds its numbered warning unless it is the first of its row, and nothing else |
| `DnsMonitor.WarningsAreLateFailures` | remote/dns_monitor.py:37-51 | the warnings of any run are exactly its failures beyond the first of each row |
| `DnsMonitor.ChangesAreUnequalNeighbours` | remote/dns_monitor.py:57-67 | the change alerts of a run are exactly the unequal adjacent pairs of its successes, failures removed |
| `DnsMonitor.ChangesReachLastSeen` | remote/dns_monitor.py:57-83 | followed from the first success the change alerts chain without a gap to last_seen_ip |
| `DnsMonitor.FailureRunWarnings` | remote/dns_monitor.py:37-51 | a row of L failures gives exactly L - 1 warnings, numbered 2 to L, each with the newest address known before |
| `DnsMonitor.MismatchesAreUnexpected` | remote/dns_monitor.py:70-81 | the mismatch alerts are exactly the successes that differ from a non-empty expected address |
| `HeartbeatReceiver.HeartbeatStore.constructor` | remote/heartbeat_receiver.py:29-38 | no heartbeat, no payload, not alerted at first |
| `HeartbeatReceiver.HeartbeatStore.Record` | remote/heartbeat_receiver.py:40-45 | stores time and payload and clears the alerted flag |
| `HeartbeatReceiver.HeartbeatStore.IsMissing` | remote/heartbeat_receiver.py:47-56 | missing when nothing was ever recorded or strictly more than the deadline has passed |
| `HeartbeatReceiver.HeartbeatStore.ShouldAlertMissing` | remote/heartbeat_receiver.py:58-63 | says yes when missing and not yet alerted, and remembers it |
| `HeartbeatReceiver.HeartbeatStore.GetLastWanStates` | remote/heartbeat_receiver.py:65-69 | the states of the last payload, or none |
| `Sentinel.RemoteSentinel.constructor` | remote/main.py:35-63 | a fresh store of its own and the missing flag clear |
| `Sentinel.RemoteSentinel.BeginPass` | remote/main.py:68-88 | one pass up to its first await: which alert it decides and where it waits |
| `Sentinel.RemoteSentinel.FinishProbe` | remote/main.py:71-82 | the LOST report is taken from the store after the probe |
| `Sentinel.RemoteSentinel.FinishSend` | remote/main.py:82-89 | the missing flag changes only once the send has returned |
| `Sentinel.RemoteSentinel.AbandonPass` | remote/main.py:93-95 | an exception leaves both flags as they are |
| `Sentinel.RemoteSentinel.MonitorLoop` | remote/main.py:65-95 | run under any interleaving the class makes exactly the decisions and completions of the step relation |
| `Sentinel.CompletedArePaired` | remote/main.py:69-89 | no timing assumption, sends may raise: every completed RECOVERED directly follows a completed LOST, and the flag says whether a LOST is unanswered |
| `Sentinel.NeverMoreRecoveries` | remote/main.py:69-89 | in every prefix of every run the completed RECOVERED do not outnumber the completed LOST |
| `Sentinel.LostSeparatedByHeartbeat` | remote/heartbeat_receiver.py:44-63 | between any two LOST decisions a heartbeat is recorded |
| `Sentinel.NoFalseAlarm` | remote/heartbeat_receiver.py:47-63 | no LOST is decided while any heartbeat lies within the deadline |
| `SentinelDecisions.DecisionMeaning` | remote/main.py:69-89 | every decision of every run, by the events alone: LOST exactly in a silence longer than interval times threshold (or when nothing was ever heard) with no LOST since the newest heartbeat; otherwise RECOVERED exactly when the last alert sent was a LOST and there is no such silence at the second reading |
| `SentinelDecisions.RecoveredNeedsHeartbeat` | remote/main.py:85-88 | every RECOVERED has a recorded heartbeat within the tolerated silence before it |
| `SentinelDecisions.HeartbeatBringsRecovered` | remote/main.py:85-88 | such a heartbeat is enough once a LOST was sent, unless the pass decides another LOST |
| `SentinelDecisions.NeverHeard` | remote/heartbeat_receiver.py:49-63 | without any heartbeat exactly one LOST is decided, on the first pass, and nothing else |
| `SentinelDecisions.ReportedStates` | remote/heartbeat_receiver.py:65-69 | the WAN states available to a LOST are those of the newest heartbeat's payload, none if there was none |
| `SentinelDecisions.WhatFollows` | remote/main.py:65-95 | which events can follow a run: a LOST is sent only after its probe, a RECOVERED at once, whatever is pending may raise |
| `SentinelDecisions.SendCompletes` | remote/main.py:82-89 | a send that returns completes the alert that its pass decided |
| `Sentinel.ReportedHeartbeat` | remote/main.py:71-81 | what a LOST reports as the last heartbeat: one that came in during the probe, else the stale one, else the present |
| `SentinelTiming.StrictAlternation` | remote/main.py:65-95 | if nothing raises and each line-85 read comes within the deadline of the previous pass's line-69 read, decisions strictly alternate LOST, RECOVERED, ... wherever heartbeats land |
| `SentinelTiming.CompletedAreDecided` | remote/main.py:82-89 | when nothing raises, with no timing assumption, the completed alerts are the decided ones but for the one on its way |
| `SentinelTiming.CompletedAlternate` | remote/main.py:65-95 | so under the timing bound the alerts that are sent strictly alternate as well |
| `SentinelTiming.AlternationNeedsTheBound` | remote/main.py:65-95 | for every longer gap some run without exceptions decides LOST twice in a row |
| `SentinelTiming.AlternationExact` | remote/main.py:65-95 | reads at most `gap` apart guarantee alternation in every run if and only if `gap` is at most the deadline |
| `SentinelTiming.DetectionWindow` | remote/heartbeat_receiver.py:47-63 | silence after a heartbeat at h with passes at most G apart: exactly one LOST is decided in the span, at a reading in (h+T, h+T+G] |
| `LossTolerance.SlackPreventsFalseAlarm` | remote/heartbeat_receiver.py:40-63 | if (m+1)P + D is at most the deadline, a network that delays by up to D, reorders, and loses up to m heartbeats in a row never causes a LOST once one was received |
| `LossTolerance.WorstRun` | remote/heartbeat_receiver.py:47-63 | with less slack: the sends and the run of a conforming network that cause a LOST after a received heartbeat |
| `LossTolerance.ToleranceExact` | remote/heartbeat_receiver.py:40-63 | and exactly then: beyond that bound some conforming network causes one |
| `SenderLoop.SenderIsPeriodic` | local/main.py:132-141 | the heartbeat loop, started at any time, keeps a period made of its send time, the longer of its two sleeps and its lateness, whichever rounds raise |
| `SenderLoop.NextRound` | local/main.py:132-141 | rounds start at the given time and follow each other after the send, the interval or ten seconds after an exception, and the lateness |
| `SenderLoop.EndToEnd` | local/main.py:132-141 | sender loop started at any time, network and sentinel together: no LOST after the first heartbeat when the periods fit |
| `SnmpPoller.SnmpPoller.constructor` | local/snmp_poller.py:47-56 | the reverse map is built once from the configuration; nothing polled yet |
| `SnmpPoller.SnmpPoller.PollOnce` | local/snmp_poller.py:108-143 | the states of one poll in configuration order, the stored states, and when an unknown gateway is warned about |
| `SnmpPoller.ReverseMapKeepsLast` | local/snmp_poller.py:56 | the reverse map holds exactly the configured addresses, each with the last WAN that has it |
| `SnmpPoller.ActiveWanMeaning` | local/snmp_poller.py:113-114 | a WAN is active if and only if it is the last in configuration order whose gateway is the next hop |
| `SnmpPoller.NoActiveWan` | local/snmp_poller.py:113-114 | none is active if and only if the next hop is absent, empty or no WAN's gateway |
| `SnmpPoller.UpIsActive` | local/snmp_poller.py:125-126 | after any run of polls a WAN is UP if and only if it is the active one, otherwise DOWN: at most one is UP |
| `SnmpPoller.SinceIsBlockStart` | local/snmp_poller.py:128-133 | `since` is the time of the first poll of the current unbroken row of equal statuses |
| `SnmpPoller.LinkIsLearned` | local/snmp_poller.py:135-140 | the link state of a WAN is what the poll learned about it |
| `SnmpPoller.WarnsOncePerRow` | local/snmp_poller.py:116-121 | one warning for each row of polls with the same unknown gateway |
| `SnmpPoller.UnknownMeaning` | local/snmp_poller.py:116 | a gateway is unknown if and only if it is not empty and no WAN with a name is the last one that has it |
| `AlertEngine.AlertState.constructor` | local/alert_engine.py:20-27 | UNKNOWN, no times, no stable polls |
| `AlertEngine.AlertState.Update` | local/alert_engine.py:139-147 | status, times and stable counter after one observation |
| `AlertEngine.AlertEngine.constructor` | local/alert_engine.py:40-48 | no interface known |
| `AlertEngine.AlertEngine.StateOf` | local/alert_engine.py:63-66 | finds or makes the record of an interface, leaving the others alone |
| `AlertEngine.AlertEngine.MakeAlerts` | local/alert_engine.py:67-137 | the one alert of a change, with its duration and failover text |
| `AlertEngine.AlertEngine.TimeIn` | local/alert_engine.py:71-74 | the time in the previous state if it was the opposite one, else "unknown" |
| `AlertEngine.AlertEngine.FailoverTarget` | local/alert_engine.py:76-87 | the loop finds the first other interface that is up; an empty name reads as none |
| `AlertEngine.AlertEngine.File` | local/alert_engine.py:139-149 | record and previous state of one interface change, all others keep theirs |
| `AlertEngine.AlertEngine.ProcessWanState` | local/alert_engine.py:50-150 | the whole new state of the engine and the alerts of one observation; records stay unshared |
| `AlertEngine.AlertEngine.ProcessSyslogEvent` | local/alert_engine.py:152-211 | one alert for three of the four WAN events, none for the rest |
| `AlertEngine.AlertEngine.ShouldUseAlertInterval` | local/alert_engine.py:213-220 | true if and only if some record is DOWN or has fewer than five stable observations |
| `AlertEngine.AlertEngine.GetCurrentWanStates` | local/alert_engine.py:222-224 | the last state observed of each interface |
| `AlertRuns.TrackerMeaning` | local/alert_engine.py:29-34 | the engine's memory of an interface in terms of that interface's own observations alone; a first UP leaves it at UNKNOWN |
| `AlertRuns.CurrentMeaning` | local/alert_engine.py:29-34 | the status in a record is the last one observed, but UNKNOWN as long as the interface was never DOWN |
| `AlertRuns.AlertTimes` | local/alert_engine.py:139-141 | both times in a record are the time of the interface's newest alert |
| `AlertRuns.AlertsOnTurns` | local/alert_engine.py:29-137 | an observation raises an alert if and only if it turns its interface to DOWN, or from DOWN to UP, whatever happened elsewhere |
| `AlertRuns.ReportedAreTurns` | local/alert_engine.py:62-150 | for any statuses the alerts for an interface report exactly the turns in its own sequence of observations |
| `AlertRuns.AlertsAreNormalForm` | local/alert_engine.py:62-150 | the alerts for an interface are its own observations with leading UPs dropped and equal neighbours collapsed, for any interleaving |
| `AlertRuns.Conservation` | local/alert_engine.py:67-141 | DOWN alerts are the RECOVERED alerts, the changes from DOWN to UNKNOWN and the interfaces now DOWN, for any statuses |
| `AlertRuns.LogTellsWhoIsDown` | local/alert_engine.py:67-141 | with UP and DOWN only, replaying the alert log gives exactly the interfaces whose latest observation is DOWN, and the difference of the counts is their number |
| `AlertRuns.RecoveredText` | local/alert_engine.py:117-122 | RECOVERED gives the time since the remembered state and never says "unknown" |
| `AlertRuns.DownText` | local/alert_engine.py:69-74 | DOWN says "unknown" if and only if the interface was not last seen UP |
| `AlertRuns.DownCarriesLink` | local/alert_engine.py:90-95 | DOWN carries the link state of its observation |
| `AlertRuns.FirstOtherMeaning` | local/alert_engine.py:76-81 | the failover target is the first interface in the list that is up and not the one that went down |
| `AlertRuns.FastPollingClosedForm` | local/alert_engine.py:143-147 | the fast interval is asked for if and only if some interface was last seen DOWN or has fewer than five observations since its last alert (in all, if it never had one) |
| `AlertRuns.TemplateToAlert` | local/alert_engine.py:152-211 | a syslog message built on a template raises one alert of its kind naming its interface, and none for an online detection |
| `LocalMonitor.LocalMonitor.constructor` | local/main.py:40-86 | own poller and engine, no events, the loop about to start |
| `LocalMonitor.LocalMonitor.BeginPass` | local/main.py:98-106 | the interval is chosen before the poll |
| `LocalMonitor.LocalMonitor.FinishPoll` | local/main.py:106-109 | the poll's states become the pass to walk |
| `LocalMonitor.LocalMonitor.ProcessState` | local/main.py:109-113 | one state through the engine, its alert appended, waiting for the send if there is one |
| `LocalMonitor.LocalMonitor.FinishSend` | local/main.py:113 | the pass goes on with the next state |
| `LocalMonitor.LocalMonitor.AbandonPass` | local/main.py:120-122 | an exception skips the rest of the pass and the trimming, and sleeps 10 |
| `LocalMonitor.LocalMonitor.EndPass` | local/main.py:115-118 | trims to the last hundred and sleeps the chosen interval |
| `LocalMonitor.LocalMonitor.OnSyslogEvent` | local/main.py:88-93 | appends the alerts of a syslog event at any moment |
| `LocalMonitor.LocalMonitor.BuildPayload` | local/heartbeat.py:24-35 | the engine's states and the last ten events, as of the moment of the call |
| `LocalMonitor.LocalMonitor.PollLoop` | local/main.py:95-141 | run under any interleaving the classes reach the state, take the sleeps and build the heartbeats of the step relation |
| `MonitorRuns.TrackersFollow` | local/main.py:106-113 | poller and engine agree with one history at every point: the poller holds the newest poll, the engine its observations, a pass walks the newest poll |
| `MonitorRuns.SeenFalls` | local/main.py:109-122 | the newest polls processed never get newer in configuration order, whichever passes are cut short |
| `MonitorRuns.SnapshotShows` | local/alert_engine.py:149-224 | at every await point a heartbeat shows exactly the WANs processed so far, each in its state from the newest poll processed for it |
| `MonitorRuns.SeenIsCut` | local/main.py:109-118 | without exceptions the engine stands at a cut between the two newest polls, and between passes at the newest |
| `MonitorRuns.UpsFromDifferentPolls` | local/snmp_poller.py:125-126 | WANs shown up together come from different polls, the later in configuration order from the older |
| `MonitorRuns.AtMostTwoShownUp` | local/main.py:136-137 | without exceptions a heartbeat never shows three WANs up |
| `MonitorRuns.CompletedPassSettles` | local/main.py:109-118 | a completed pass has brought the engine to the newest poll, whatever happened before |
| `MonitorRuns.SettledSnapshot` | local/alert_engine.py:222-224 | then a heartbeat shows the newest poll exactly |
| `MonitorRuns.RecentIsSuffix` | local/main.py:88-116 | the event buffer is always a suffix of all alerts ever raised, with the last hundred at least |
| `MonitorRuns.HeartbeatCarriesLastTen` | local/heartbeat.py:33 | so every heartbeat carries exactly the last ten alerts ever raised, or all if fewer |
| `MonitorRuns.CompletedPassBoundsRecent` | local/main.py:115-116 | after a completed pass the buffer is exactly the last hundred |
| `MonitorRuns.RecentLength` | local/main.py:88-122 | how much the buffer holds at every point: all alerts since the last completed pass and the last hundred before |
| `MonitorRuns.WhatFollows` | local/main.py:95-122 | which events can follow a run: a pass polls, processes as many states as there are gateways, waits for every alert, ends; polls and sends may raise |
| `MonitorCuts.SourcesBound` | local/main.py:109-122 | the engine's memory stems from at most one poll more than passes were cut short at a send since the last completed one, and inside a pass from one more |
| `MonitorCuts.ShownUpsAreUps` | local/alert_engine.py:222-224 | the WANs a heartbeat shows up are those up in the newest polls processed for them |
| `MonitorCuts.ShownUpsBound` | local/main.py:109-122 | a heartbeat shows at most cuts + 1 WANs up, inside a pass at most one more, and never more than can be active |
| `StaleSnapshots.ManyShownUp` | local/main.py:109-122 | for every r a run with at most r cuts that shows min(w, r + 2) WANs up |
| `StaleSnapshots.ShownUpExact` | local/main.py:109-122 | every run with at most r cuts shows at most b WANs up if and only if min(w, r + 2) <= b |
| `StaleSnapshots.TwoShownUpExact` | local/main.py:109-122 | at most two up in every run with at most r cuts if and only if r = 0 or at most two WANs can be active |
| `StaleSnapshots.AllShownUp` | local/main.py:109-122 | some run shows up exactly the WANs that can be active, all at once |
| `MonitorAlerts.AtHand` | local/main.py:109-110 | what the engine is given and what it remembers of that WAN at any processing step: the next state of the newest poll, and the state from the newest poll processed before |
| `MonitorAlerts.DowntimeIsTrue` | local/alert_engine.py:117-122 | every RECOVERED tells the engine's time minus the first poll of the row of DOWN polls that ends with the newest one processed before, and that poll is unique; it never says "unknown" |
| `MonitorAlerts.UptimeIsTrue` | local/alert_engine.py:69-74 | every DOWN likewise for the row of UP polls, and it says "unknown" if and only if this is the WAN's first observation |
| `MonitorAlerts.BlockJustEnded` | local/main.py:106-113 | without exceptions that newest one is the poll before, so the row is the one that has just ended |
| `MonitorAlerts.PollsNotAfterClock` | local/snmp_poller.py:108-111 | with a clock that does not go back no poll lies in the future |
| `MonitorAlerts.DurationsNotNegative` | local/alert_engine.py:69-122 | so every reported downtime and uptime reads back as a non-negative number of seconds, but for the uptime "unknown" |
| `MonitorAlerts.FailoverNamesActive` | local/alert_engine.py:76-87 | the failover line of every DOWN names the poll's active WAN, and says none if and only if there is none or its name is empty |
| `MonitorAlerts.DownTellsLink` | local/alert_engine.py:90-95 | in every run the link state of a DOWN is what its own poll learned about the WAN |
| `MonitorAlerts.PollAlertsOnly` | local/alert_engine.py:152-211 | syslog alerts, wherever they come in, leave the DOWN and RECOVERED counts and the replayed log unchanged, and the engine is fed only UP and DOWN |
| `MonitorAlerts.ConservationInRun` | local/alert_engine.py:67-141 | at every point of every run DOWN minus RECOVERED alerts, syslog alerts among them, is the number of WANs a heartbeat would show down, and replaying all alerts gives exactly those |
| `MonitorAlerts.ConservationWhenSettled` | local/snmp_poller.py:125-140 | after a completed pass that number is the WAN count, less one if the next hop is a known gateway |
| `MonitorFailover.PassReports` | local/main.py:109-113 | in the middle of any pass the alerts so far are the switches among the WANs processed, and the others are as they were when the poll returned |
| `MonitorFailover.PassEffect` | local/alert_engine.py:69-137 | every completed pass, whatever was cut short before, has reported in configuration order exactly the WANs whose status in the newest poll differs from the poll last processed for them, and those down that were never processed |
| `MonitorFailover.PassAlertCount` | local/alert_engine.py:69-137 | the number of alerts of every completed pass: the WANs not known down before, one less if the one now active is among them, one more if it was known down |
| `MonitorFailover.AtMostTwoAlerts` | local/alert_engine.py:69-137 | exactly when that is at most two, as a bound on the WANs not known down before the pass |
| `MonitorFailover.PassAlertsBound` | local/main.py:109-122 | once every WAN has been seen a pass raises at most cuts + 2 alerts, and never more than there are WANs that can be active |
| `MonitorFailover.AllSeenAfterFirstPass` | local/main.py:109-118 | every WAN has been seen from the first completed pass on, whatever is cut short later |
| `MonitorFailover.FailoverEffect` | local/alert_engine.py:69-137 | a completed pass that started settled: DOWN for the WAN that was active and RECOVERED for the one that is, in configuration order, nothing if they are the same |
| `MonitorFailover.SettledFromSecondPoll` | local/main.py:95-118 | without exceptions every pass from the second on starts settled |
| `MonitorFailover.FirstPassEffect` | local/alert_engine.py:29-34 | a completed first pass reports DOWN for every WAN but the active one, in configuration order |
| `StaleSnapshots.LastPass` | local/main.py:109-122 | for every m up to w a completed pass after m - 1 cuts that raises min(w, m + 1) alerts (with m = 2 and w >= 3: three) |
| `StaleSnapshots.PassAlertsExact` | local/main.py:109-122 | every completed pass after at most r cuts raises at most b alerts if and only if min(w, r + 2) <= b |
| `StaleSnapshots.TwoAlertsExact` | local/main.py:109-122 | at most two alerts for every poll if and only if r = 0 or at most two WANs can be active |
| `MonitorSchedule.ObservedIsPolled` | local/main.py:106-113 | without exceptions the engine has observed of each WAN exactly the statuses of all polls up to the newest processed |
| `MonitorSchedule.Schedule` | local/main.py:97-118 | sleep number i is the interval that the first i polls alone call for: the choice lags one pass |
| `MonitorSchedule.EverySleep` | local/main.py:97-122 | every sleep of every run: ten seconds after an exception, and after a completed pass the interval that the observations before it call for |
| `MonitorSchedule.TwoGatewaysStayFast` | local/main.py:97-118 | with two gateways or more, one normal sleep and then fast ones for ever |
| `MonitorSchedule.SingleWanReturnsToNormal` | local/alert_engine.py:213-220 | with one WAN the sleep is normal again after five UP polls in a row, or six after an outage, one pass later |
| `MonitorSchedule.NoGatewaysStayNormal` | local/main.py:97-118 | without gateways the loop never polls fast |

## Left out

- SNMP, UDP, HTTP, DNS and Telegram traffic, FastAPI, asyncio itself, signals and the command line: their outcomes are arbitrary inputs of the model.
- Time: clock readings are real numbers, and in the sentinel one clock that never goes back stands for `datetime.now` throughout.
- The sleeps of the sentinel loop (10 s): a pass may begin at any time after the last one; the timing theorems state the bound they need.
- `asyncio.create_task` for syslog alerts: only that the alert is in the event buffer, not when it is sent.
- Cancellation, and exceptions anywhere but in the poll, the probe and the sends.
- Alert prose, severities and time stamps in texts: alerts are a datatype with kind, interface, duration text, failover target and link state.
- Character classes are ASCII (with the separators 28 to 31 as white space), and `int()` of a priority has no digit limit.
- The defaults of missing WAN metadata ("" and "unknown"): `categorize_message` always sets both entries.
- Regular expressions beyond sequences of literals, literal choices and repeated classes: the patterns need no more.
- `MockSNMPPoller`, the remote alert texts, the external probe loop, the DNS loop's sleeps, the status loop, the message counter and the callback list of the syslog receiver: easy members.
- Configuration files and their validation: only the values the logic reads are parameters; no range is assumed for them, except that the heartbeat interval is not negative in `SenderLoop`.
- Syslog.CategorizeMessage: the generic categories (auth, firewall, vpn, system) are one value, since none of them raises an alert.
- Syslog.ParseSyslogMessage: the time stamp stays the text of the line; `strptime`, the year and the fallback to the present are not modelled.
- AlertRuns.AlertsAreNormalForm: for observations of UP and DOWN, the only ones the poller makes (local/snmp_poller.py:126); TrackerMeaning, AlertsOnTurns and Conservation cover UNKNOWN too.
- MonitorFailover.FailoverEffect: for passes that start settled; PassEffect covers every completed pass.
- MonitorSchedule.Schedule: for runs in which nothing raises; EverySleep covers every run.
