/** The exact effect of a poll: which alerts one pass of the poll loop raises, in which order, and how many. */
module MonitorFailover {
  import opened Common
  import opened SnmpPoller
  import opened AlertEngine
  import opened LocalMonitor
  import opened MonitorRuns
  import opened MonitorAlerts
  import opened MonitorCuts
  import AlertRuns

  /** What a DOWN or RECOVERED alert reports. */
  datatype Report = Report(name: string, status: Status)

  function ReportOf(alert: Alert): Report {
    Report(alert.iface, if alert.WanDown? then Down else if alert.WanRecovered? then Up else Unknown)
  }

  function ReportsOf(alerts: seq<Alert>): seq<Report> {
    seq(|alerts|, i requires 0 <= i < |alerts| => ReportOf(alerts[i]))
  }

  lemma ReportsSnoc(a: seq<Alert>, b: seq<Alert>)
    ensures ReportsOf(a + b) == ReportsOf(a) + ReportsOf(b)
  {
  }

  /** The alerts the poll loop has raised since the newest poll returned. */
  ghost function PassLog(c: Config, run: Run): seq<Alert>
    requires IsRun(c, run)
  {
    if run == [] || Last(run).PollReturned? then []
    else if Last(run).StateProcessed? then PassLog(c, Front(run)) + AlertsOf(After(c, Front(run)), Last(run))
    else PassLog(c, Front(run))
  }

  /** What the engine had processed when the newest poll returned. */
  ghost function SeenAtPoll(c: Config, run: Run): (seen: seq<int>)
    requires IsRun(c, run)
    ensures |seen| == |c.gateways|
  {
    if run == [] || Last(run).PollReturned? then Seen(c, run) else SeenAtPoll(c, Front(run))
  }

  // ----- what a pass reports -----

  /** How poll number i saw WAN k, if there is such a poll. */
  function StatusBefore(gws: Gateways, h: History, i: int, k: nat): Option<Status>
    requires k < |gws|
  {
    if 0 <= i < |h| then Some(StatusOf(gws, h[i], k)) else None
  }

  /** The newest poll turns WAN k: it is down and was not known down, or up and was known down. */
  predicate Switched(gws: Gateways, h: History, seen: seq<int>, k: nat)
    requires h != [] && k < |gws| == |seen|
  {
    AlertRuns.Turns(StatusBefore(gws, h, seen[k], k), StatusOf(gws, Last(h), k))
  }

  /** The switches among the first n WANs, as the newest poll sees them. */
  function Switches(gws: Gateways, h: History, seen: seq<int>, n: nat): seq<Report>
    requires h != [] && n <= |gws| == |seen|
  {
    if n == 0 then []
    else Switches(gws, h, seen, n - 1) +
         (if Switched(gws, h, seen, n - 1) then [Report(gws[n - 1].name, StatusOf(gws, Last(h), n - 1))] else [])
  }

  /** One observation, whatever poll the engine remembers of the WAN. */
  lemma OneSwitch(gws: Gateways, h: History, seen: seq<int>, k: nat, obs: AlertRuns.Run, o: Observation)
    requires DistinctNames(gws) && h != [] && k < |gws| == |seen|
    requires Remembers(gws, h, seen[k], k, AlertRuns.Own(obs, o.state.iface))
    requires o.state.iface == gws[k].name && o.state.status == StatusOf(gws, Last(h), k)
    ensures ReportsOf(AsSeq(AlertFor(AlertRuns.After(obs), o))) ==
            if Switched(gws, h, seen, k) then [Report(gws[k].name, StatusOf(gws, Last(h), k))] else []
  {
    hide AlertRuns.Own, AlertRuns.After, AlertFor, StateIn, Truncate, StatusOf, DistinctNames;
    AlertRuns.AlertsOnTurns(obs, o);
    if seen[k] >= 0 {
      StatusIn(gws, h, seen[k], k);
    }
  }

  /** The pass so far has reported the switches among the WANs processed, and left the others as they were. */
  ghost predicate PassFits(gws: Gateways, h: History, was: seq<int>, seen: seq<int>, log: seq<Alert>, next: nat) {
    && h != [] && next <= |gws| == |seen| == |was|
    && (forall k | next <= k < |gws| :: seen[k] == was[k])
    && ReportsOf(log) == Switches(gws, h, was, next)
  }

  /** Inside any pass, whatever happened before: the alerts so far are the switches among the WANs processed. */
  lemma {:induction false} PassReports(c: Config, run: Run)
    requires IsRun(c, run) && DistinctNames(c.gateways) && InPass(After(c, run).place)
    ensures PassFits(c.gateways, Polls(c, run), SeenAtPoll(c, run), Seen(c, run), PassLog(c, run),
                     After(c, run).place.next)
  {
    var before, e := Front(run), Last(run);
    StepMoves(c, run);
    if e.PollReturned? {
      PassOpens(c, run);
    } else {
      StepHistory(c, run);
      PassReports(c, before);
      if e.StateProcessed? {
        PassStep(c, run);
      }
    }
  }

  lemma PassOpens(c: Config, run: Run)
    requires run != [] && IsRun(c, run) && Last(run).PollReturned?
    ensures After(c, run).place.Processing? && After(c, run).place.next == 0
    ensures PassFits(c.gateways, Polls(c, run), SeenAtPoll(c, run), Seen(c, run), PassLog(c, run), 0)
  {
    StepMoves(c, run);
    StepHistory(c, run);
    hide After, IsRun, Seen;
  }

  lemma PassFitsStep(gws: Gateways, h: History, was: seq<int>, seen: seq<int>, log: seq<Alert>, next: nat,
                     obs: AlertRuns.Run, o: Observation)
    requires DistinctNames(gws) && PassFits(gws, h, was, seen, log, next) && next < |gws|
    requires Remembers(gws, h, seen[next], next, AlertRuns.Own(obs, o.state.iface))
    requires o.state.iface == gws[next].name && o.state.status == StatusOf(gws, Last(h), next)
    ensures PassFits(gws, h, was, seen[next := |h| - 1], log + AsSeq(AlertFor(AlertRuns.After(obs), o)), next + 1)
  {
    hide ReportsOf, StatusOf, AlertFor, AlertRuns.After, AlertRuns.Own, StateIn, Switched, DistinctNames;
    OneSwitch(gws, h, was, next, obs, o);
    ReportsSnoc(log, AsSeq(AlertFor(AlertRuns.After(obs), o)));
  }

  lemma PassLogGrows(c: Config, run: Run)
    requires run != [] && IsRun(c, run) && Last(run).StateProcessed?
    ensures IsRun(c, Front(run)) && Enabled(After(c, Front(run)), Last(run))
    ensures PassLog(c, run) == PassLog(c, Front(run)) + AlertsOf(After(c, Front(run)), Last(run))
    ensures SeenAtPoll(c, run) == SeenAtPoll(c, Front(run))
  {
    hide After, Enabled, AlertsOf, Seen;
  }

  lemma PassStep(c: Config, run: Run)
    requires run != [] && IsRun(c, run) && DistinctNames(c.gateways) && Last(run).StateProcessed?
    requires InPass(After(c, Front(run)).place) && InPass(After(c, run).place)
    requires PassFits(c.gateways, Polls(c, Front(run)), SeenAtPoll(c, Front(run)), Seen(c, Front(run)),
                      PassLog(c, Front(run)), After(c, Front(run)).place.next)
    ensures PassFits(c.gateways, Polls(c, run), SeenAtPoll(c, run), Seen(c, run), PassLog(c, run),
                     After(c, run).place.next)
  {
    hide *;
    var before := Front(run);
    var o := StepObserves(c, run);
    PassLogGrows(c, run);
    PassFitsStep(c.gateways, Polls(c, before), SeenAtPoll(c, before), Seen(c, before), PassLog(c, before),
                 After(c, before).place.next, Observed(c, before), o);
  }

  /** The effect of every completed pass, whatever passes were cut short before it: it has reported, in configuration
      order, exactly the WANs whose status in the newest poll differs from the one in the poll last processed for them,
      and those down that had never been processed. */
  lemma PassEffect(c: Config, run: Run)
    requires run != [] && IsRun(c, run) && DistinctNames(c.gateways) && Last(run).PassEnds?
    ensures Polls(c, run) != []
    ensures ReportsOf(PassLog(c, run)) == Switches(c.gateways, Polls(c, run), SeenAtPoll(c, run), |c.gateways|)
  {
    var before := Front(run);
    StepMoves(c, run);
    StepHistory(c, run);
    TrackersFollow(c, before);
    assert PassLog(c, run) == PassLog(c, before) && SeenAtPoll(c, run) == SeenAtPoll(c, before);
    hide After, IsRun, Polls, Seen, SeenAtPoll, Observed, StatesAfter, ByName, PassLog, AlertRuns.After;
    hide ReportsOf, Switches;
    PassReports(c, before);
  }

  // ----- how many alerts -----

  /** The WANs not known to be down: up in the poll last processed for them, or never processed. */
  function NotDown(gws: Gateways, h: History, seen: seq<int>): set<int>
    requires |seen| == |gws|
  {
    set k | 0 <= k < |gws| && StatusBefore(gws, h, seen[k], k) != Some(Down)
  }

  /** The first n WANs that switch. */
  function SwitchedOnes(gws: Gateways, h: History, seen: seq<int>, n: nat): set<int>
    requires h != [] && n <= |gws| == |seen|
  {
    set k | 0 <= k < n && Switched(gws, h, seen, k)
  }

  lemma {:induction false} SwitchesCount(gws: Gateways, h: History, seen: seq<int>, n: nat)
    requires h != [] && n <= |gws| == |seen|
    ensures |Switches(gws, h, seen, n)| == |SwitchedOnes(gws, h, seen, n)|
  {
    hide Switched;
    var ones := SwitchedOnes(gws, h, seen, n);
    if n > 0 {
      SwitchesCount(gws, h, seen, n - 1);
      var fewer := SwitchedOnes(gws, h, seen, n - 1);
      assert ones == if Switched(gws, h, seen, n - 1) then fewer + {n - 1} else fewer;
    } else if ones != {} {
      var k := Member(ones);
      assert false;
    }
  }

  /** How many alerts a poll that finds `gained` active causes. */
  function AlertCount(notDown: set<int>, gained: int): int {
    if gained in notDown then |notDown| - 1 else if gained == -1 then |notDown| else |notDown| + 1
  }

  lemma CountSwitches(gws: Gateways, h: History, seen: seq<int>, gained: int)
    requires h != [] && |seen| == |gws| && -1 <= gained < |gws| && OnlyUp(gws, Last(h), gained)
    ensures |Switches(gws, h, seen, |gws|)| == AlertCount(NotDown(gws, h, seen), gained)
  {
    var notDown, ones := NotDown(gws, h, seen), SwitchedOnes(gws, h, seen, |gws|);
    SwitchesCount(gws, h, seen, |gws|);
    hide StatusOf, Switches;
    if gained in notDown {
      assert ones == notDown - {gained};
    } else if gained == -1 {
      assert ones == notDown;
    } else {
      assert ones == notDown + {gained};
    }
  }

  /** The number of alerts of every completed pass: one for each WAN not known down before, one less if the WAN now
      active is among them, one more if it was known down. */
  lemma PassAlertCount(c: Config, run: Run) returns (gained: int)
    requires run != [] && IsRun(c, run) && DistinctNames(c.gateways) && Last(run).PassEnds?
    ensures Polls(c, run) != [] && ActiveAt(c.gateways, Last(Polls(c, run)).nextHop, gained)
    ensures |PassLog(c, run)| == AlertCount(NotDown(c.gateways, Polls(c, run), SeenAtPoll(c, run)), gained)
  {
    PassEffect(c, run);
    assert |ReportsOf(PassLog(c, run))| == |PassLog(c, run)|;
    hide After, IsRun, Polls, Seen, SeenAtPoll, PassLog, ReportsOf, NotDown, Switches, AlertCount;
    gained := ActiveIndex(c.gateways, Last(Polls(c, run)));
    CountSwitches(c.gateways, Polls(c, run), SeenAtPoll(c, run), gained);
  }

  /** A pass raises at most two alerts exactly when at most one WAN was not known down before (two if none is active
      now, three if the active one is among them). */
  lemma AtMostTwoAlerts(c: Config, run: Run) returns (gained: int)
    requires run != [] && IsRun(c, run) && DistinctNames(c.gateways) && Last(run).PassEnds?
    ensures Polls(c, run) != [] && ActiveAt(c.gateways, Last(Polls(c, run)).nextHop, gained)
    ensures var notDown := NotDown(c.gateways, Polls(c, run), SeenAtPoll(c, run));
      |PassLog(c, run)| <= 2 <==> |notDown| <= if gained in notDown then 3 else if gained == -1 then 2 else 1
  {
    gained := PassAlertCount(c, run);
    hide After, IsRun, Polls, Seen, SeenAtPoll, PassLog, NotDown, ActiveAt;
  }

  // ----- how many alerts after passes cut short -----

  /** Every WAN had been processed at least once when the newest poll returned. */
  ghost predicate AllSeenAtPoll(c: Config, run: Run)
    requires IsRun(c, run)
  {
    forall k | 0 <= k < |c.gateways| :: SeenAtPoll(c, run)[k] >= 0
  }

  predicate PassCompleted(run: Run) {
    run != [] && (Last(run).PassEnds? || PassCompleted(Front(run)))
  }

  lemma {:induction false} SeenAfterPass(c: Config, run: Run)
    requires IsRun(c, run) && PassCompleted(run)
    ensures forall k | 0 <= k < |c.gateways| :: Seen(c, run)[k] >= 0
  {
    if Last(run).PassEnds? {
      CompletedPassSettles(c, run);
      hide After, IsRun, Polls, Seen;
    } else {
      SeenAfterPass(c, Front(run));
      SeenFalls(c, run);
      TrackersFollow(c, Front(run));
      StepHistory(c, run);
      StepMoves(c, run);
      hide After, IsRun, Polls, Seen, PassCompleted;
    }
  }

  lemma {:induction false} SeenAtPollAfterPass(c: Config, run: Run)
    requires IsRun(c, run) && InPass(After(c, run).place) && PassCompleted(run)
    ensures AllSeenAtPoll(c, run)
  {
    StepMoves(c, run);
    if Last(run).PollReturned? {
      SeenAfterPass(c, run);
      hide After, IsRun, Polls, Seen;
    } else {
      SeenAtPollAfterPass(c, Front(run));
      assert SeenAtPoll(c, run) == SeenAtPoll(c, Front(run));
      hide After, IsRun, Polls, Seen, SeenAtPoll;
    }
  }

  /** From the first completed pass on every WAN has been seen, whatever is cut short later. */
  lemma AllSeenAfterFirstPass(c: Config, run: Run)
    requires run != [] && IsRun(c, run) && Last(run).PassEnds? && PassCompleted(Front(run))
    ensures AllSeenAtPoll(c, run)
  {
    StepMoves(c, run);
    SeenAtPollAfterPass(c, Front(run));
    assert SeenAtPoll(c, run) == SeenAtPoll(c, Front(run));
    hide After, IsRun, Polls, Seen, SeenAtPoll;
  }

  /** Inside a pass the memory at the time of its poll is still bounded by the cuts. */
  lemma {:induction false} SourcesAtPoll(c: Config, run: Run)
    requires IsRun(c, run) && InPass(After(c, run).place)
    ensures |Sources(SeenAtPoll(c, run))| <= Cuts(c, run) + 1
    ensures forall k | 0 <= k < |c.gateways| :: SeenAtPoll(c, run)[k] < |Polls(c, run)|
  {
    var before := Front(run);
    StepMoves(c, run);
    StepHistory(c, run);
    if Last(run).PollReturned? {
      SourcesBound(c, run);
      SeenFalls(c, run);
      hide After, IsRun, Seen, Polls, Cuts;
    } else {
      SourcesAtPoll(c, before);
      StepCuts(c, run);
      hide After, IsRun, Seen, Polls, Cuts;
    }
  }

  lemma SourcesAtEnd(c: Config, run: Run)
    requires run != [] && IsRun(c, run) && Last(run).PassEnds?
    ensures |Sources(SeenAtPoll(c, run))| <= Cuts(c, Front(run)) + 1
    ensures forall k | 0 <= k < |c.gateways| :: SeenAtPoll(c, run)[k] < |Polls(c, run)|
  {
    StepMoves(c, run);
    StepHistory(c, run);
    SourcesAtPoll(c, Front(run));
    assert SeenAtPoll(c, run) == SeenAtPoll(c, Front(run));
    hide After, IsRun, Polls, Seen, SeenAtPoll, Cuts, Sources;
  }

  lemma NotDownAreUps(gws: Gateways, h: History, seen: seq<int>)
    requires |seen| == |gws| && forall k | 0 <= k < |gws| :: 0 <= seen[k] < |h|
    ensures NotDown(gws, h, seen) == Ups(gws, h, seen)
  {
    hide StatusOf;
  }

  /** Once every WAN has been seen, a pass raises at most two alerts more than passes were cut short since the last
      completed one, and never more than there are WANs that can be active. */
  lemma PassAlertsBound(c: Config, run: Run)
    requires run != [] && IsRun(c, run) && DistinctNames(c.gateways) && Last(run).PassEnds? && AllSeenAtPoll(c, run)
    ensures |PassLog(c, run)| <= Min(Width(c.gateways), Cuts(c, Front(run)) + 2)
  {
    hide After, Polls, Seen, SeenAtPoll, PassLog, NotDown, Cuts, Ups, Sources, DistinctNames, Enabled;
    hide Width, CanBeActive, ActiveAt;
    var gained := PassAlertCount(c, run);
    SourcesAtEnd(c, run);
    hide IsRun;
    var gws, h, seen := c.gateways, Polls(c, run), SeenAtPoll(c, run);
    NotDownAreUps(gws, h, seen);
    UpsHaveSources(gws, h, seen);
    CountAtMostWidth(gws, h, seen, gained);
  }

  lemma CountAtMostWidth(gws: Gateways, h: History, seen: seq<int>, gained: int)
    requires h != [] && DistinctNames(gws) && |seen| == |gws| && ActiveAt(gws, Last(h).nextHop, gained)
    requires forall k | k in Ups(gws, h, seen) :: CanBeActive(gws, k)
    ensures AlertCount(Ups(gws, h, seen), gained) <= Width(gws)
  {
    var ups := Ups(gws, h, seen);
    hide StatusOf, Width;
    CandidatesOnly(gws, ups);
    if gained != -1 {
      assert CanBeActive(gws, gained);
      CandidatesOnly(gws, ups + {gained});
    }
  }

  // ----- passes that start settled, and first passes -----

  /** When the newest poll returned, the engine had processed the one before it completely. */
  ghost predicate StartedSettled(c: Config, run: Run)
    requires IsRun(c, run)
  {
    |Polls(c, run)| >= 2 && forall k | 0 <= k < |c.gateways| :: SeenAtPoll(c, run)[k] == |Polls(c, run)| - 2
  }

  /** Without exceptions that is so from the second poll on. */
  lemma {:induction false} SettledFromSecondPoll(c: Config, run: Run)
    requires IsRun(c, run) && NothingRaises(run) && |Polls(c, run)| >= 2
    ensures StartedSettled(c, run)
  {
    var before := Front(run);
    NothingRaisedBefore(run);
    StepHistory(c, run);
    if Last(run).PollReturned? {
      SeenIsCut(c, before);
      StepMoves(c, run);
      hide After, IsRun, Polls, Seen;
    } else {
      SettledFromSecondPoll(c, before);
      assert SeenAtPoll(c, run) == SeenAtPoll(c, before);
      hide After, IsRun, Polls, Seen, SeenAtPoll;
    }
  }

  /** DOWN for the WAN that was active and RECOVERED for the one that is, in configuration order; nothing if they are
      the same. An index of -1 stands for no active WAN. */
  function FailoverReports(gws: Gateways, lost: int, gained: int): seq<Report>
    requires lost < |gws| && gained < |gws|
  {
    var down := if lost >= 0 then [Report(gws[lost].name, Down)] else [];
    var up := if gained >= 0 then [Report(gws[gained].name, Up)] else [];
    if lost == gained then [] else if lost < gained then down + up else up + down
  }

  lemma {:induction false} SwitchesBetween(gws: Gateways, h: History, seen: seq<int>, i: nat, n: nat,
                                           lost: int, gained: int)
    requires i < |h| && n <= |gws| == |seen| && lost < |gws| && gained < |gws|
    requires forall k | 0 <= k < |gws| :: seen[k] == i
    requires OnlyUp(gws, h[i], lost) && OnlyUp(gws, Last(h), gained)
    ensures Switches(gws, h, seen, n) == ReportsBelow(gws, lost, gained, n)
  {
    hide StatusOf, OnlyUp, Switched, StatusBefore, ReportsBelow;
    if n == 0 {
      NoReportYet(gws, lost, gained);
    } else {
      SwitchesBetween(gws, h, seen, i, n - 1, lost, gained);
      NextSwitch(gws, h, seen, i, n - 1, lost, gained);
      OneMoreReport(gws, n - 1, lost, gained);
    }
  }

  /** The reports about the first n WANs. */
  function ReportsBelow(gws: Gateways, lost: int, gained: int, n: nat): seq<Report>
    requires n <= |gws| && lost < |gws| && gained < |gws|
  {
    FailoverReports(gws, if lost < n then lost else -1, if gained < n then gained else -1)
  }

  lemma NoReportYet(gws: Gateways, lost: int, gained: int)
    requires lost < |gws| && gained < |gws|
    ensures ReportsBelow(gws, lost, gained, 0) == []
  {
  }

  lemma OneMoreReport(gws: Gateways, k: nat, lost: int, gained: int)
    requires k < |gws| && lost < |gws| && gained < |gws|
    ensures ReportsBelow(gws, lost, gained, k + 1) == ReportsBelow(gws, lost, gained, k) +
            (if (k == lost) != (k == gained) then [Report(gws[k].name, if k == gained then Up else Down)] else [])
  {
  }

  lemma NextSwitch(gws: Gateways, h: History, seen: seq<int>, i: nat, k: nat, lost: int, gained: int)
    requires i < |h| && k < |gws| == |seen| && seen[k] == i
    requires OnlyUp(gws, h[i], lost) && OnlyUp(gws, Last(h), gained)
    ensures Switched(gws, h, seen, k) <==> (k == lost) != (k == gained)
    ensures StatusOf(gws, Last(h), k) == if k == gained then Up else Down
  {
    hide StatusOf;
  }

  lemma FailoverSwitches(gws: Gateways, h: History, seen: seq<int>, i: nat) returns (lost: int, gained: int)
    requires DistinctNames(gws) && i < |h| && |seen| == |gws| && forall k | 0 <= k < |gws| :: seen[k] == i
    ensures ActiveAt(gws, h[i].nextHop, lost) && ActiveAt(gws, Last(h).nextHop, gained)
    ensures Switches(gws, h, seen, |gws|) == FailoverReports(gws, lost, gained)
    ensures |Switches(gws, h, seen, |gws|)| <= 2
  {
    lost := ActiveIndex(gws, h[i]);
    gained := ActiveIndex(gws, Last(h));
    hide StatusOf, Switches, ActiveWan, IsActive;
    SwitchesBetween(gws, h, seen, i, |gws|, lost, gained);
  }

  /** When a pass that started settled ends, its alerts were DOWN for the previously active WAN and RECOVERED for the
      newly active one if these differ, in configuration order, and nothing else: at most two. */
  lemma FailoverEffect(c: Config, run: Run) returns (lost: int, gained: int)
    requires run != [] && IsRun(c, run) && DistinctNames(c.gateways) && StartedSettled(c, run) && Last(run).PassEnds?
    ensures ActiveAt(c.gateways, Polls(c, run)[|Polls(c, run)| - 2].nextHop, lost)
    ensures ActiveAt(c.gateways, Last(Polls(c, run)).nextHop, gained)
    ensures ReportsOf(PassLog(c, run)) == FailoverReports(c.gateways, lost, gained)
    ensures |PassLog(c, run)| <= 2
  {
    PassEffect(c, run);
    assert |ReportsOf(PassLog(c, run))| == |PassLog(c, run)|;
    hide After, IsRun, Polls, Seen, PassLog, SeenAtPoll, ReportsOf, Switches, DistinctNames, ActiveAt, FailoverReports;
    lost, gained := FailoverSwitches(c.gateways, Polls(c, run), SeenAtPoll(c, run), |Polls(c, run)| - 2);
  }

  /** DOWN for every one of the first n WANs but one. */
  function AllDownBut(gws: Gateways, gained: int, n: nat): seq<Report>
    requires n <= |gws|
  {
    if n == 0 then []
    else AllDownBut(gws, gained, n - 1) + (if n - 1 == gained then [] else [Report(gws[n - 1].name, Down)])
  }

  lemma {:induction false} NeverSeen(c: Config, run: Run)
    requires IsRun(c, run) && |Polls(c, run)| <= 1
    ensures forall k | 0 <= k < |c.gateways| :: SeenAtPoll(c, run)[k] == -1
  {
    if run != [] {
      StepHistory(c, run);
      if Last(run).PollReturned? {
        SeenFalls(c, Front(run));
        hide After, IsRun, Polls, Seen;
      } else {
        NeverSeen(c, Front(run));
      }
    }
  }

  lemma {:induction false} SwitchesAtFirst(gws: Gateways, h: History, seen: seq<int>, n: nat, gained: int)
    requires h != [] && n <= |gws| == |seen| && forall k | 0 <= k < |gws| :: seen[k] == -1
    requires OnlyUp(gws, Last(h), gained)
    ensures Switches(gws, h, seen, n) == AllDownBut(gws, gained, n)
  {
    hide StatusOf;
    if n > 0 {
      SwitchesAtFirst(gws, h, seen, n - 1, gained);
    }
  }

  /** The first pass, if it completes, reports DOWN for every WAN but the active one, in configuration order. */
  lemma FirstPassEffect(c: Config, run: Run) returns (gained: int)
    requires run != [] && IsRun(c, run) && DistinctNames(c.gateways) && Last(run).PassEnds? && |Polls(c, run)| == 1
    ensures ActiveAt(c.gateways, Polls(c, run)[0].nextHop, gained)
    ensures ReportsOf(PassLog(c, run)) == AllDownBut(c.gateways, gained, |c.gateways|)
  {
    PassEffect(c, run);
    NeverSeen(c, run);
    hide After, IsRun, Polls, Seen, PassLog, SeenAtPoll, ReportsOf, Switches, DistinctNames, StatusOf;
    gained := ActiveIndex(c.gateways, Last(Polls(c, run)));
    SwitchesAtFirst(c.gateways, Polls(c, run), SeenAtPoll(c, run), |c.gateways|, gained);
  }
}
