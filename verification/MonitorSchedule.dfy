/** The sleeps of the poll loop: adaptive polling in closed form, as a function of the polls alone. */
module MonitorSchedule {
  import opened Common
  import opened SnmpPoller
  import opened AlertEngine
  import opened LocalMonitor
  import opened MonitorRuns
  import opened MonitorAlerts
  import AlertRuns

  /** How the polls saw WAN k. */
  function StatusRow(gws: Gateways, h: History, k: nat): seq<Status>
    requires k < |gws|
  {
    seq(|h|, i requires 0 <= i < |h| => StatusOf(gws, h[i], k))
  }

  // ----- the engine's observations are the polls -----

  /** The engine's observations of WAN k are the polls up to number `seen`. */
  predicate FollowsPolls(gws: Gateways, h: History, seen: int, k: nat, obs: AlertRuns.Run)
    requires k < |gws|
  {
    -1 <= seen < |h| && AlertRuns.Statuses(AlertRuns.Own(obs, gws[k].name)) == StatusRow(gws, h[..seen + 1], k)
  }

  /** Without exceptions the engine has observed of each WAN exactly the polls up to the newest processed for it. */
  lemma {:induction false} ObservedIsPolled(c: Config, run: Run, k: nat)
    requires IsRun(c, run) && DistinctNames(c.gateways) && NothingRaises(run) && k < |c.gateways|
    ensures FollowsPolls(c.gateways, Polls(c, run), Seen(c, run)[k], k, Observed(c, run))
  {
    if run != [] {
      var before := Front(run);
      NothingRaisedBefore(run);
      ObservedIsPolled(c, before, k);
      if Last(run).StateProcessed? {
        ObservedOneMore(c, run, k);
      } else {
        NothingObserved(c, run, k);
      }
    }
  }

  lemma ObservedOneMore(c: Config, run: Run, k: nat)
    requires run != [] && IsRun(c, run) && DistinctNames(c.gateways) && NothingRaises(run) && k < |c.gateways|
    requires Last(run).StateProcessed? && IsRun(c, Front(run))
    requires FollowsPolls(c.gateways, Polls(c, Front(run)), Seen(c, Front(run))[k], k, Observed(c, Front(run)))
    ensures FollowsPolls(c.gateways, Polls(c, run), Seen(c, run)[k], k, Observed(c, run))
  {
    hide *;
    var before := Front(run);
    var o := StepObserves(c, run);
    var next := After(c, before).place.next;
    if k == next {
      BlockJustEnded(c, run, next);
      OwnGrows(c.gateways, Polls(c, run), k, Observed(c, before), o, Seen(c, before)[k]);
    } else {
      OwnStays(c.gateways, Polls(c, run), k, next, Observed(c, before), o, Seen(c, before)[k]);
    }
  }

  lemma NothingObserved(c: Config, run: Run, k: nat)
    requires run != [] && IsRun(c, run) && k < |c.gateways| && !Last(run).StateProcessed?
    requires FollowsPolls(c.gateways, Polls(c, Front(run)), Seen(c, Front(run))[k], k, Observed(c, Front(run)))
    ensures FollowsPolls(c.gateways, Polls(c, run), Seen(c, run)[k], k, Observed(c, run))
  {
    var before := Front(run);
    StepHistory(c, run);
    StepStart(c, run);
    assert Observed(c, run) == Observed(c, before);
    hide After, IsRun, Polls, Seen, Observed, StatusRow, AlertRuns.Statuses, AlertRuns.Own;
    assert Polls(c, run)[..Seen(c, run)[k] + 1] == Polls(c, before)[..Seen(c, before)[k] + 1];
  }

  lemma OwnGrows(gws: Gateways, h: History, k: nat, obs: AlertRuns.Run, o: Observation, seen: int)
    requires k < |gws| && h != [] && seen == |h| - 2
    requires o.state.iface == gws[k].name && o.state.status == StatusOf(gws, Last(h), k)
    requires FollowsPolls(gws, h, seen, k, obs)
    ensures FollowsPolls(gws, h, |h| - 1, k, obs + [o])
  {
    hide AlertRuns.Statuses, StatusOf, AlertRuns.Own;
    assert Front(obs + [o]) == obs;
    AlertRuns.OwnSnoc(obs + [o], gws[k].name);
    assert h[..|h|] == h;
    assert StatusRow(gws, h, k) == StatusRow(gws, h[..|h| - 1], k) + [StatusOf(gws, Last(h), k)];
  }

  lemma OwnStays(gws: Gateways, h: History, k: nat, next: nat, obs: AlertRuns.Run, o: Observation, seen: int)
    requires DistinctNames(gws) && k < |gws| && next < |gws| && k != next && o.state.iface == gws[next].name
    requires FollowsPolls(gws, h, seen, k, obs)
    ensures FollowsPolls(gws, h, seen, k, obs + [o])
  {
    hide AlertRuns.Statuses, StatusRow;
    assert Front(obs + [o]) == obs;
    assert AlertRuns.Own(obs + [o], gws[k].name) == AlertRuns.Own(obs, gws[k].name);
  }

  /** Nothing but the configured WANs is ever observed. */
  lemma OnlyConfigured(c: Config, run: Run, name: string)
    requires IsRun(c, run) && DistinctNames(c.gateways) && AlertRuns.Own(Observed(c, run), name) != []
    ensures exists k :: 0 <= k < |c.gateways| && c.gateways[k].name == name
  {
    TrackersFollow(c, run);
    SnapshotShows(c, run);
    hide After, IsRun, Polls, Seen, Observed, StatesAfter;
    AlertRuns.TrackerMeaning(Observed(c, run), name);
  }

  // ----- the interval a pass would choose -----

  /** WAN k calls for fast polling: it was last seen DOWN or has fewer than five observations since its last alert. */
  predicate Unsettled(gws: Gateways, h: History, k: nat)
    requires k < |gws| && h != []
  {
    StatusOf(gws, Last(h), k) == Down || AlertRuns.SinceAlert(StatusRow(gws, h, k)) < 5
  }

  /** Fast polling as a function of the polls processed. */
  predicate FastAfter(gws: Gateways, h: History) {
    h != [] && exists k :: 0 <= k < |gws| && Unsettled(gws, h, k)
  }

  function IntervalAfter(c: Config, h: History): int {
    if FastAfter(c.gateways, h) then c.alertInterval else c.normalInterval
  }

  lemma FastBetweenPasses(c: Config, run: Run)
    requires IsRun(c, run) && DistinctNames(c.gateways) && NothingRaises(run) && !InPass(After(c, run).place)
    ensures FastPolling(After(c, run).engine) <==> FastAfter(c.gateways, Polls(c, run))
  {
    var gws, h, obs := c.gateways, Polls(c, run), Observed(c, run);
    SeenIsCut(c, run);
    TrackersFollow(c, run);
    PollAlertsOnly(c, run);
    AlertRuns.FastPollingClosedForm(obs);
    hide IsRun, After, Polls, Seen, Observed, FastPolling, AlertRuns.SinceAlert, AlertRuns.OnlyUpDown, NothingRaises;
    hide AlertRuns.Own, AlertRuns.Statuses, AlertRuns.After, StatesAfter, Unsettled;
    assert h[..|h|] == h;
    forall k | 0 <= k < |gws|
      ensures (AlertRuns.Own(obs, gws[k].name) != [] <==> h != []) &&
              (h != [] ==> (Calls(obs, gws[k].name) <==> Unsettled(gws, h, k)))
    {
      ObservedIsPolled(c, run, k);
      CallsFor(gws, h, k, obs);
    }
    if x :| AlertRuns.Own(obs, x) != [] && Calls(obs, x) {
      OnlyConfigured(c, run, x);
    }
  }

  /** An interface calls for fast polling, in terms of the engine's observations of it. */
  predicate Calls(obs: AlertRuns.Run, x: string) {
    AlertRuns.LastStatus(AlertRuns.Own(obs, x)) == Some(Down) ||
    AlertRuns.SinceAlert(AlertRuns.Statuses(AlertRuns.Own(obs, x))) < 5
  }

  lemma CallsFor(gws: Gateways, h: History, k: nat, obs: AlertRuns.Run)
    requires k < |gws| && AlertRuns.Statuses(AlertRuns.Own(obs, gws[k].name)) == StatusRow(gws, h, k)
    ensures AlertRuns.Own(obs, gws[k].name) != [] <==> h != []
    ensures h != [] ==> (Calls(obs, gws[k].name) <==> Unsettled(gws, h, k))
  {
    AlertRuns.StatusesLast(AlertRuns.Own(obs, gws[k].name));
    hide AlertRuns.Own, AlertRuns.Statuses, AlertRuns.SinceAlert;
    if h != [] {
      assert Last(StatusRow(gws, h, k)) == StatusOf(gws, Last(h), k);
    }
  }

  // ----- the sleeps -----

  /** How the sleeps taken and the interval chosen for the pass under way follow from the polls. */
  ghost predicate OnSchedule(c: Config, sleeps: seq<int>, h: History, place: Place) {
    && |sleeps| == (if InPass(place) then |h| - 1 else |h|)
    && (forall i | 0 <= i < |sleeps| :: sleeps[i] == IntervalAfter(c, h[..i]))
    && (!place.Asleep? ==> place.interval == IntervalAfter(c, h[..|sleeps|]))
  }

  /** The whole schedule: without exceptions sleep number i is the interval the first i polls call for. The poll it
      follows plays no part: the choice lags one pass. */
  lemma {:induction false} Schedule(c: Config, run: Run)
    requires IsRun(c, run) && DistinctNames(c.gateways) && NothingRaises(run)
    ensures OnSchedule(c, Sleeps(c, run), Polls(c, run), After(c, run).place)
  {
    if run != [] {
      var before := Front(run);
      NothingRaisedBefore(run);
      Schedule(c, before);
      if Last(run).PassBegins? {
        FastBetweenPasses(c, before);
      }
      ScheduleFacts(c, run);
      hide After, IsRun, Polls, Sleeps, NothingRaises, FastAfter, FastPolling;
      OnScheduleStep(c, Sleeps(c, before), Polls(c, before), After(c, before).place, Last(run),
                     Sleeps(c, run), Polls(c, run), After(c, run).place);
    }
  }

  lemma OnScheduleStep(c: Config, sleeps: seq<int>, h: History, p: Place, e: Event,
                       sleeps': seq<int>, h': History, q: Place)
    requires OnSchedule(c, sleeps, h, p) && Moves(p, e, q) && !e.PassRaised? && (InPass(p) ==> h != [])
    requires sleeps' == sleeps + (if e.PassEnds? then [p.interval] else [])
    requires if e.PollReturned? then |h'| == |h| + 1 && Front(h') == h else h' == h
    requires if e.PassBegins? then q.interval == IntervalAfter(c, h) else !q.Asleep? ==> q.interval == p.interval
    ensures OnSchedule(c, sleeps', h', q)
  {
    hide IntervalAfter;
    assert h[..|h|] == h;
    assert h' != [] ==> h'[..|h'| - 1] == Front(h');
    forall i | 0 <= i < |sleeps'| ensures sleeps'[i] == IntervalAfter(c, h'[..i]) {
      assert i <= |h| && h'[..i] == h[..i];
    }
  }

  lemma ScheduleFacts(c: Config, run: Run)
    requires run != [] && IsRun(c, run) && !Last(run).PassRaised?
    ensures var before, p, q, h := Front(run), After(c, Front(run)).place, After(c, run).place, Polls(c, Front(run));
      && Moves(p, Last(run), q)
      && Sleeps(c, run) == Sleeps(c, before) + (if Last(run).PassEnds? then [p.interval] else [])
      && (if Last(run).PollReturned? then |Polls(c, run)| == |h| + 1 && Front(Polls(c, run)) == h
          else Polls(c, run) == h)
      && (Last(run).PassBegins? ==> q.interval == IntervalFor(c, After(c, before)))
      && (!p.Asleep? && !q.Asleep? ==> q.interval == p.interval)
      && (InPass(p) ==> h != [])
  {
    StepMoves(c, run);
    TrackersFollow(c, Front(run));
    hide Observe, NextStates, ByName, AlertFor, SyslogAlerts, FastPolling, LastN, StatesAfter, AlertRuns.After;
  }

  // ----- the sleeps of any run -----

  /** What the engine has observed when the newest pass began. */
  ghost function ObservedAtStart(c: Config, run: Run): AlertRuns.Run
    requires IsRun(c, run)
  {
    if run == [] || Last(run).PassBegins? then Observed(c, run) else ObservedAtStart(c, Front(run))
  }

  /** The interval that a list of observations calls for: the fast one if some interface was last seen DOWN or has fewer
      than five observations since its last alert. */
  ghost function IntervalOn(c: Config, obs: AlertRuns.Run): int {
    if exists x :: AlertRuns.Own(obs, x) != [] && Calls(obs, x) then c.alertInterval else c.normalInterval
  }

  lemma IntervalAtStart(c: Config, run: Run)
    requires IsRun(c, run) && DistinctNames(c.gateways)
    ensures IntervalFor(c, After(c, run)) == IntervalOn(c, Observed(c, run))
  {
    TrackersFollow(c, run);
    PollAlertsOnly(c, run);
    hide IsRun, After, Observed, Polls, FastPolling, AlertRuns.OnlyUpDown, AlertRuns.After, IntervalOn, StatesAfter;
    FastOn(c, Observed(c, run));
  }

  lemma FastOn(c: Config, obs: AlertRuns.Run)
    requires AlertRuns.OnlyUpDown(obs)
    ensures IntervalOn(c, obs) == if FastPolling(AlertRuns.After(obs)) then c.alertInterval else c.normalInterval
  {
    if x :| AlertRuns.Own(obs, x) != [] && Calls(obs, x) {
      FastBecauseOf(obs, x);
    }
    if FastPolling(AlertRuns.After(obs)) {
      var x := ReasonForFast(obs);
    }
  }

  lemma FastBecauseOf(obs: AlertRuns.Run, x: string)
    requires AlertRuns.OnlyUpDown(obs) && AlertRuns.Own(obs, x) != [] && Calls(obs, x)
    ensures FastPolling(AlertRuns.After(obs))
  {
    AlertRuns.FastFor(obs, x);
    hide AlertRuns.After, AlertRuns.Own, AlertRuns.Statuses, AlertRuns.SinceAlert;
    assert x in AlertRuns.After(obs).trackers;
  }

  lemma ReasonForFast(obs: AlertRuns.Run) returns (x: string)
    requires AlertRuns.OnlyUpDown(obs) && FastPolling(AlertRuns.After(obs))
    ensures AlertRuns.Own(obs, x) != [] && Calls(obs, x)
  {
    hide AlertRuns.After, AlertRuns.Own, AlertRuns.Statuses, AlertRuns.SinceAlert;
    var e := AlertRuns.After(obs);
    x :| x in e.trackers && (e.trackers[x].current == Down || e.trackers[x].stable < STABLE_POLLS);
    AlertRuns.FastFor(obs, x);
  }

  lemma {:induction false} ChosenInterval(c: Config, run: Run)
    requires IsRun(c, run) && DistinctNames(c.gateways) && !After(c, run).place.Asleep?
    ensures After(c, run).place.interval == IntervalOn(c, ObservedAtStart(c, run))
  {
    StepMoves(c, run);
    StepInterval(c, run);
    if Last(run).PassBegins? {
      IntervalAtStart(c, Front(run));
      assert Observed(c, run) == Observed(c, Front(run));
    } else {
      ChosenInterval(c, Front(run));
    }
    hide After, IsRun, Observed, IntervalOn;
  }

  lemma StepInterval(c: Config, run: Run)
    requires run != [] && IsRun(c, run)
    ensures var p, q := After(c, Front(run)).place, After(c, run).place;
      && (Last(run).PassBegins? ==> q.Polling? && q.interval == IntervalFor(c, After(c, Front(run))))
      && (!Last(run).PassBegins? && !q.Asleep? ==> !p.Asleep? && q.interval == p.interval)
  {
    StepMoves(c, run);
    hide Observe, NextStates, ByName, AlertFor, SyslogAlerts, FastPolling, LastN;
  }

  /** Every sleep of every run: ten seconds after an exception, and after a completed pass the interval that the
      observations before that pass call for. */
  lemma EverySleep(c: Config, run: Run)
    requires run != [] && IsRun(c, run) && DistinctNames(c.gateways)
    ensures Sleeps(c, run) == Sleeps(c, Front(run)) +
            (if Last(run).PassRaised? then [10]
             else if Last(run).PassEnds? then [IntervalOn(c, ObservedAtStart(c, run))] else [])
  {
    if Last(run).PassEnds? {
      ChosenInterval(c, Front(run));
      assert ObservedAtStart(c, run) == ObservedAtStart(c, Front(run));
    }
    hide After, Observed, IntervalOn, ObservedAtStart;
  }

  // ----- what the schedule comes to -----

  /** With two gateways or more one of them is always down: one normal sleep, then the fast ones for ever. */
  lemma TwoGatewaysStayFast(c: Config, run: Run)
    requires IsRun(c, run) && DistinctNames(c.gateways) && NothingRaises(run) && |c.gateways| >= 2
    ensures forall i | 0 <= i < |Sleeps(c, run)| ::
              Sleeps(c, run)[i] == if i == 0 then c.normalInterval else c.alertInterval
  {
    Schedule(c, run);
    var gws, h, sleeps := c.gateways, Polls(c, run), Sleeps(c, run);
    hide IsRun, Polls, Sleeps, After, AlertRuns.SinceAlert;
    forall i | 0 <= i < |sleeps| ensures sleeps[i] == if i == 0 then c.normalInterval else c.alertInterval {
      if i > 0 {
        var active := ActiveIndex(gws, Last(h[..i]));
        assert Unsettled(gws, h[..i], if active == 0 then 1 else 0);
      }
    }
  }

  /** The length of the row of UPs at the end. */
  function TrailingUps(s: seq<Status>): nat {
    if s == [] || Last(s) != Up then 0 else TrailingUps(Front(s)) + 1
  }

  lemma {:induction false} TrailingUpsMeaning(s: seq<Status>)
    requires AlertRuns.UpOrDown(s)
    ensures AlertRuns.AllUp(s) ==> TrailingUps(s) == |s|
    ensures s != [] && Last(s) == Up ==> TrailingUps(s) == if AlertRuns.AllUp(s) then |s| else AlertRuns.Row(s)
  {
    if s != [] {
      TrailingUpsMeaning(Front(s));
    }
  }

  /** How many UP polls in a row calm a WAN: five if it was never DOWN, else six, the first of which raised
      the alert. */
  function CalmAfter(row: seq<Status>): nat {
    if AlertRuns.AllUp(row) then 5 else 6
  }

  predicate Restless(row: seq<Status>) {
    TrailingUps(row) < CalmAfter(row)
  }

  /** With a single WAN the loop sleeps normally again once it has been UP long enough, one pass later. */
  lemma SingleWanReturnsToNormal(c: Config, run: Run)
    requires IsRun(c, run) && DistinctNames(c.gateways) && NothingRaises(run) && |c.gateways| == 1
    ensures forall i | 0 <= i < |Sleeps(c, run)| :: i <= |Polls(c, run)| &&
              Sleeps(c, run)[i] == if i > 0 && Restless(StatusRow(c.gateways, Polls(c, run)[..i], 0))
                                   then c.alertInterval else c.normalInterval
  {
    Schedule(c, run);
    var gws, h, sleeps := c.gateways, Polls(c, run), Sleeps(c, run);
    hide IsRun, Polls, Sleeps, After, FastAfter, StatusRow, TrailingUps, CalmAfter;
    forall i | 0 <= i < |sleeps|
      ensures i <= |h| && (FastAfter(gws, h[..i]) <==> i > 0 && Restless(StatusRow(gws, h[..i], 0)))
    {
      SingleWan(gws, h[..i]);
    }
  }

  lemma SingleWan(gws: Gateways, h: History)
    requires |gws| == 1
    ensures FastAfter(gws, h) <==> h != [] && Restless(StatusRow(gws, h, 0))
  {
    if h != [] {
      var row := StatusRow(gws, h, 0);
      TrailingUpsMeaning(row);
      assert Last(row) == StatusOf(gws, Last(h), 0);
      assert FastAfter(gws, h) <==> Unsettled(gws, h, 0);
      if Last(row) == Up && !AlertRuns.AllUp(row) {
        AlertRuns.RowOfDowns(row);
      }
    }
  }

  /** Without gateways the loop never polls fast. */
  lemma NoGatewaysStayNormal(c: Config, run: Run)
    requires IsRun(c, run) && NothingRaises(run) && c.gateways == []
    ensures forall i | 0 <= i < |Sleeps(c, run)| :: Sleeps(c, run)[i] == c.normalInterval
  {
    Schedule(c, run);
    hide IsRun, Polls, Sleeps, After;
  }
}
