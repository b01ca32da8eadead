/** What the alerts of a monitor run say: durations, failover targets, the effect of a failover, conservation. */
module MonitorAlerts {
  import opened Common
  import opened SnmpPoller
  import opened AlertEngine
  import opened LocalMonitor
  import opened MonitorRuns
  import AlertRuns
  import Duration

  // ----- the observation at hand -----

  /** The state about to be processed is WAN number `next` of the newest poll, and the engine's memory of that WAN
      is its state in the newest poll processed for it. */
  lemma AtHand(c: Config, run: Run, now: real)
    requires IsRun(c, run) && DistinctNames(c.gateways) && Enabled(After(c, run), StateProcessed(now))
    ensures var s, h, gws := After(c, run), Polls(c, run), c.gateways;
      var k, o, seen := s.place.next, NextObservation(s, now), Seen(c, run);
      && h != [] && k < |gws| && -1 <= seen[k] < |h| - 1
      && o.all == StatesAfter(gws, h) && o.state.iface == gws[k].name && o.state.status == StatusOf(gws, Last(h), k)
      && s.engine == AlertRuns.After(Observed(c, run))
      && (seen[k] == -1 <==> AlertRuns.Own(Observed(c, run), gws[k].name) == [])
      && (seen[k] >= 0 ==> AlertRuns.Own(Observed(c, run), gws[k].name) != [] &&
                           Last(AlertRuns.Own(Observed(c, run), gws[k].name)) == StateIn(gws, h, seen[k], k))
  {
    TrackersFollow(c, run);
    SnapshotShows(c, run);
    var s, h, gws := After(c, run), Polls(c, run), c.gateways;
    hide After, IsRun, Polls, Seen, Observed, StatesAfter, ByName;
    StatesShape(gws, h, s.place.next);
    AlertRuns.TrackerMeaning(Observed(c, run), gws[s.place.next].name);
    hide AlertRuns.Own, AlertRuns.After;
  }

  /** The status of an earlier poll, as the state handed to the engine had it. */
  lemma StatusIn(gws: Gateways, h: History, i: nat, k: nat)
    requires DistinctNames(gws) && i < |h| && k < |gws|
    ensures StateIn(gws, h, i, k).status == StatusOf(gws, h[i], k)
  {
    StatesShape(gws, h[..i + 1], k);
    assert Last(h[..i + 1]) == h[i];
    hide StatesAfter;
  }

  // ----- reported durations are true -----

  /** The alert the last event of the run raised. */
  ghost predicate Raised(c: Config, run: Run, alert: Alert) {
    && run != [] && IsRun(c, run) && Last(run).StateProcessed?
    && AlertsOf(After(c, Front(run)), Last(run)) == [alert]
  }

  /** What an alert depends on: poll number i, the newest processed for WAN k before, gave the state the engine
      remembers; there is none if i is -1. */
  ghost predicate Remembers(gws: Gateways, h: History, i: int, k: nat, own: seq<WanState>) {
    && k < |gws| && -1 <= i < |h| - 1
    && (i == -1 <==> own == [])
    && (i >= 0 ==> own != [] && Last(own) == StateIn(gws, h, i, k))
  }

  /** Poll number j opened the row of equal statuses of WAN k that ends with poll number i. */
  predicate Opened(gws: Gateways, h: History, i: int, k: nat, j: nat, status: Status)
    requires k < |gws|
  {
    && 0 <= i < |h| && j <= i && StatusOf(gws, h[i], k) == status
    && IsBlockStart(gws, h[..i + 1], k, j)
  }

  /** The text gives the time from the start of poll number j to now. */
  ghost predicate TellsTimeSince(text: string, h: History, j: nat, now: real) {
    j < |h| && Duration.IsTextOf(text, Truncate(now - h[j].now)) && text != "unknown"
  }

  lemma OpenedOnce(gws: Gateways, h: History, i: int, k: nat, status: Status, a: nat, b: nat)
    requires k < |gws| && Opened(gws, h, i, k, a, status) && Opened(gws, h, i, k, b, status)
    ensures a == b
  {
    BlockStartUnique(gws, h[..i + 1], k, a, b);
  }

  lemma BlockOf(gws: Gateways, h: History, i: nat, k: nat, status: Status) returns (j: nat)
    requires DistinctNames(gws) && i < |h| && k < |gws| && StateIn(gws, h, i, k).status == status
    ensures Opened(gws, h, i, k, j, status) && StateIn(gws, h, i, k).since == h[j].now
  {
    j := SinceIsBlockStart(gws, h[..i + 1], k);
    StatusIn(gws, h, i, k);
    hide StatesAfter;
  }

  lemma DowntimeFrom(gws: Gateways, h: History, i: int, k: nat, obs: AlertRuns.Run, o: Observation, alert: Alert)
    returns (j: nat)
    requires DistinctNames(gws) && Remembers(gws, h, i, k, AlertRuns.Own(obs, o.state.iface))
    requires AlertFor(AlertRuns.After(obs), o) == Some(alert) && alert.WanRecovered?
    ensures alert.iface == o.state.iface
    ensures Opened(gws, h, i, k, j, Down) && TellsTimeSince(alert.downtime, h, j, o.now)
  {
    hide AlertRuns.Own, AlertRuns.After, AlertFor, StateIn, Truncate, Duration.Format, Duration.IsTextOf, IsBlockStart;
    RecoveredAfterDown(obs, o, alert);
    j := BlockOf(gws, h, i, k, Down);
    Duration.FormatMeaning(Truncate(o.now - h[j].now), alert.downtime);
  }

  lemma UptimeFrom(gws: Gateways, h: History, i: int, k: nat, obs: AlertRuns.Run, o: Observation, alert: Alert)
    returns (j: nat)
    requires DistinctNames(gws) && Remembers(gws, h, i, k, AlertRuns.Own(obs, o.state.iface))
    requires AlertFor(AlertRuns.After(obs), o) == Some(alert) && alert.WanDown?
    ensures alert.iface == o.state.iface && (alert.uptime == "unknown" <==> i == -1)
    ensures i >= 0 ==> Opened(gws, h, i, k, j, Up) && TellsTimeSince(alert.uptime, h, j, o.now)
  {
    hide AlertRuns.Own, AlertRuns.After, AlertFor, StateIn, Truncate, Duration.Format, Duration.IsTextOf, IsBlockStart;
    DownAfterOther(obs, o, alert);
    j := 0;
    if i >= 0 {
      StatusIn(gws, h, i, k);
      j := BlockOf(gws, h, i, k, Up);
      Duration.FormatMeaning(Truncate(o.now - h[j].now), alert.uptime);
    }
  }

  lemma RecoveredAfterDown(obs: AlertRuns.Run, o: Observation, alert: Alert)
    requires AlertFor(AlertRuns.After(obs), o) == Some(alert) && alert.WanRecovered?
    ensures alert.iface == o.state.iface && alert.downtime != "unknown"
    ensures var own := AlertRuns.Own(obs, o.state.iface);
      own != [] && Last(own).status == Down && alert.downtime == Duration.Format(Truncate(o.now - Last(own).since))
  {
    hide AlertRuns.Own, AlertRuns.After, AlertFor, Truncate, Duration.Format;
    AlertRuns.AlertsOnTurns(obs, o);
    AlertRuns.RecoveredText(obs, o);
  }

  lemma DownAfterOther(obs: AlertRuns.Run, o: Observation, alert: Alert)
    requires AlertFor(AlertRuns.After(obs), o) == Some(alert) && alert.WanDown?
    ensures alert.iface == o.state.iface
    ensures var own := AlertRuns.Own(obs, o.state.iface);
      && (own == [] ==> alert.uptime == "unknown")
      && (own != [] ==> Last(own).status != Down)
      && (own != [] && Last(own).status == Up ==>
            alert.uptime != "unknown" && alert.uptime == Duration.Format(Truncate(o.now - Last(own).since)))
  {
    hide AlertRuns.Own, AlertRuns.After, AlertFor, Truncate, Duration.Format;
    AlertRuns.AlertsOnTurns(obs, o);
    AlertRuns.DownText(obs, o);
  }

  /** What an alert raised in a run is in terms of the engine's own run and of the polls. */
  lemma RaisedBy(c: Config, run: Run, alert: Alert) returns (o: Observation)
    requires Raised(c, run, alert)
    ensures IsRun(c, Front(run)) && Enabled(After(c, Front(run)), StateProcessed(Last(run).now))
    ensures o == NextObservation(After(c, Front(run)), Last(run).now)
    ensures AlertFor(AlertRuns.After(Observed(c, Front(run))), o) == Some(alert)
  {
    TrackersFollow(c, Front(run));
    o := NextObservation(After(c, Front(run)), Last(run).now);
    hide AlertFor, AlertRuns.After, Observed, Polls, StatesAfter, NextStates, ByName;
  }

  /** The WAN a raised alert is about and the newest poll processed for it before. */
  lemma RaisedFor(c: Config, run: Run, now: real) returns (i: int, k: nat)
    requires IsRun(c, run) && DistinctNames(c.gateways) && Enabled(After(c, run), StateProcessed(now))
    ensures k < |c.gateways| && k == After(c, run).place.next && i == Seen(c, run)[k] >= -1
    ensures NextObservation(After(c, run), now).state.iface == c.gateways[k].name
    ensures Remembers(c.gateways, Polls(c, run), i, k, AlertRuns.Own(Observed(c, run), c.gateways[k].name))
  {
    AtHand(c, run, now);
    hide After, IsRun, Polls, Seen, Observed, StatesAfter, AlertRuns.Own, AlertRuns.After, StateIn;
    k := After(c, run).place.next;
    i := Seen(c, run)[k];
  }

  /** What processing one state does to the run. */
  lemma StepObserves(c: Config, run: Run) returns (o: Observation)
    requires run != [] && IsRun(c, run) && DistinctNames(c.gateways) && Last(run).StateProcessed?
    ensures var before, k := Front(run), After(c, Front(run)).place.next;
      && k < |c.gateways| && Polls(c, run) == Polls(c, before) != [] && Enabled(After(c, before), Last(run))
      && After(c, before).place.Processing? && InPass(After(c, run).place) && After(c, run).place.next == k + 1
      && Seen(c, run) == Seen(c, before)[k := |Polls(c, run)| - 1]
      && Observed(c, run) == Observed(c, before) + [o]
      && AlertsOf(After(c, before), Last(run)) == AsSeq(AlertFor(AlertRuns.After(Observed(c, before)), o))
      && o.state.iface == c.gateways[k].name && o.state.status == StatusOf(c.gateways, Last(Polls(c, run)), k)
      && Remembers(c.gateways, Polls(c, before), Seen(c, before)[k], k,
                   AlertRuns.Own(Observed(c, before), o.state.iface))
  {
    var before, now := Front(run), Last(run).now;
    StepMoves(c, run);
    StepHistory(c, run);
    o := NextObservation(After(c, before), now);
    assert Observed(c, run) == Observed(c, before) + [o];
    AtHand(c, before, now);
    hide After, IsRun, Polls, Seen, Observed, AlertFor, StatesAfter, AlertRuns.Own, AlertRuns.After, StateIn;
  }

  /** Every RECOVERED says how long its WAN had been down: the engine's clock minus the start of the first poll of the
      row of DOWN polls that ends with the newest one processed before. It never says "unknown". */
  lemma {:induction false} DowntimeIsTrue(c: Config, run: Run, alert: Alert) returns (k: nat, j: nat)
    requires DistinctNames(c.gateways) && Raised(c, run, alert) && alert.WanRecovered?
    ensures IsRun(c, Front(run)) && k < |c.gateways| && alert.iface == c.gateways[k].name
    ensures Opened(c.gateways, Polls(c, Front(run)), Seen(c, Front(run))[k], k, j, Down)
    ensures TellsTimeSince(alert.downtime, Polls(c, Front(run)), j, Last(run).now)
    ensures forall other | Opened(c.gateways, Polls(c, Front(run)), Seen(c, Front(run))[k], k, other, Down) ::
              other == j
  {
    var o := RaisedBy(c, run, alert);
    hide *;
    var i;
    i, k := RaisedFor(c, Front(run), Last(run).now);
    j := DowntimeFrom(c.gateways, Polls(c, Front(run)), i, k, Observed(c, Front(run)), o, alert);
    forall other | Opened(c.gateways, Polls(c, Front(run)), i, k, other, Down) ensures other == j {
      OpenedOnce(c.gateways, Polls(c, Front(run)), i, k, Down, other, j);
    }
  }

  /** Every DOWN says how long its WAN had been up, likewise, and "unknown" exactly on the WAN's first observation. */
  lemma {:induction false} UptimeIsTrue(c: Config, run: Run, alert: Alert) returns (k: nat, j: nat)
    requires DistinctNames(c.gateways) && Raised(c, run, alert) && alert.WanDown?
    ensures IsRun(c, Front(run)) && k < |c.gateways| && alert.iface == c.gateways[k].name
    ensures Seen(c, Front(run))[k] >= -1 && (alert.uptime == "unknown" <==> Seen(c, Front(run))[k] == -1)
    ensures Seen(c, Front(run))[k] >= 0 ==>
              Opened(c.gateways, Polls(c, Front(run)), Seen(c, Front(run))[k], k, j, Up) &&
              TellsTimeSince(alert.uptime, Polls(c, Front(run)), j, Last(run).now)
    ensures Seen(c, Front(run))[k] >= 0 ==>
              forall other | Opened(c.gateways, Polls(c, Front(run)), Seen(c, Front(run))[k], k, other, Up) ::
                other == j
  {
    var o := RaisedBy(c, run, alert);
    hide *;
    var i;
    i, k := RaisedFor(c, Front(run), Last(run).now);
    j := UptimeFrom(c.gateways, Polls(c, Front(run)), i, k, Observed(c, Front(run)), o, alert);
    forall other | i >= 0 && Opened(c.gateways, Polls(c, Front(run)), i, k, other, Up) ensures other == j {
      OpenedOnce(c.gateways, Polls(c, Front(run)), i, k, Up, other, j);
    }
  }

  /** Without exceptions the newest poll processed before is the one before the newest, so the row is the one
      just ended. */
  lemma BlockJustEnded(c: Config, run: Run, k: nat)
    requires run != [] && IsRun(c, run) && NothingRaises(run) && Last(run).StateProcessed?
    requires k < |c.gateways| && k == After(c, Front(run)).place.next
    ensures Seen(c, Front(run))[k] == |Polls(c, run)| - 2
  {
    hide Observe, NextStates, ByName, AlertFor, SyslogAlerts, FastPolling, LastN;
    NothingRaisedBefore(run);
    SeenIsCut(c, Front(run));
    StepHistory(c, run);
    StepMoves(c, run);
    hide After, IsRun, Polls, Seen, NothingRaises;
  }

  // ----- the clock -----

  function TimeOf(e: Event): Option<real> {
    match e
    case PassBegins(now) => Some(now)
    case StateProcessed(now) => Some(now)
    case SyslogReceived(_, now) => Some(now)
    case _ => None
  }

  function Clock(run: Run): Option<real> {
    if run == [] then None else if TimeOf(Last(run)).Some? then TimeOf(Last(run)) else Clock(Front(run))
  }

  predicate ClockGrows(run: Run) {
    run != [] ==>
      && ClockGrows(Front(run))
      && (TimeOf(Last(run)).Some? && Clock(Front(run)).Some? ==> Clock(Front(run)).value <= TimeOf(Last(run)).value)
  }

  predicate NotAfter(clock: Option<real>, at: real) {
    clock.Some? && at <= clock.value
  }

  /** With a clock that never goes back no poll lies in the future. */
  lemma {:induction false} PollsNotAfterClock(c: Config, run: Run)
    requires IsRun(c, run) && ClockGrows(run)
    ensures forall i | 0 <= i < |Polls(c, run)| :: NotAfter(Clock(run), Polls(c, run)[i].now)
    ensures After(c, run).place.Polling? ==> NotAfter(Clock(run), After(c, run).place.start)
  {
    if run != [] {
      PollsNotAfterClock(c, Front(run));
      StepMoves(c, run);
      StepStart(c, run);
      hide After, IsRun, Polls;
    }
  }

  /** The text is a duration of a non-negative number of seconds. */
  predicate NotNegative(text: string) {
    Duration.Parse(text).Some? && Duration.Parse(text).value >= 0
  }

  lemma TimeSinceNotNegative(text: string, h: History, j: nat, now: real)
    requires TellsTimeSince(text, h, j, now) && h[j].now <= now
    ensures NotNegative(text)
  {
    Duration.FormatRoundTrip(Truncate(now - h[j].now));
    Duration.FormatMeaning(Truncate(now - h[j].now), text);
    hide Duration.Format, Duration.Parse, Duration.IsTextOf;
  }

  lemma PollBeforeLast(c: Config, run: Run, j: nat)
    requires run != [] && IsRun(c, run) && ClockGrows(run) && TimeOf(Last(run)).Some? && j < |Polls(c, Front(run))|
    ensures Polls(c, Front(run))[j].now <= TimeOf(Last(run)).value
  {
    PollsNotAfterClock(c, Front(run));
    hide IsRun, After, Polls;
    assert NotAfter(Clock(Front(run)), Polls(c, Front(run))[j].now);
  }

  lemma RaisedShape(c: Config, run: Run, alert: Alert)
    requires Raised(c, run, alert)
    ensures run != [] && IsRun(c, run) && IsRun(c, Front(run)) && Last(run).StateProcessed?
    ensures TimeOf(Last(run)) == Some(Last(run).now)
  {
    hide After, AlertsOf;
  }

  lemma SinceIsPoll(text: string, h: History, j: nat, now: real)
    requires TellsTimeSince(text, h, j, now)
    ensures j < |h|
  {
  }

  /** So no alert ever reports a negative duration: the texts are non-negative durations, but for "unknown". */
  lemma DurationsNotNegative(c: Config, run: Run, alert: Alert)
    requires DistinctNames(c.gateways) && Raised(c, run, alert) && ClockGrows(run)
    ensures alert.WanRecovered? ==> NotNegative(alert.downtime)
    ensures alert.WanDown? ==> NotNegative(alert.uptime) || alert.uptime == "unknown"
  {
    hide *;
    RaisedShape(c, run, alert);
    if alert.WanRecovered? {
      var k, j := DowntimeIsTrue(c, run, alert);
      SinceIsPoll(alert.downtime, Polls(c, Front(run)), j, Last(run).now);
      PollBeforeLast(c, run, j);
      TimeSinceNotNegative(alert.downtime, Polls(c, Front(run)), j, Last(run).now);
    } else if alert.WanDown? && alert.uptime != "unknown" {
      var k, j := UptimeIsTrue(c, run, alert);
      SinceIsPoll(alert.uptime, Polls(c, Front(run)), j, Last(run).now);
      PollBeforeLast(c, run, j);
      TimeSinceNotNegative(alert.uptime, Polls(c, Front(run)), j, Last(run).now);
    }
  }

  lemma StepStart(c: Config, run: Run)
    requires run != [] && IsRun(c, run)
    ensures var h, p, q := Polls(c, Front(run)), After(c, Front(run)).place, After(c, run).place;
      && (Last(run).PollReturned? ==> p.Polling? && |Polls(c, run)| == |h| + 1 && Front(Polls(c, run)) == h &&
                                      Last(Polls(c, run)).now == p.start)
      && (!Last(run).PollReturned? ==> Polls(c, run) == h)
      && (Last(run).PassBegins? ==> q.Polling? && q.start == Last(run).now)
      && (Last(run).SyslogReceived? ==> q == p)
  {
    hide Observe, NextStates, ByName, AlertFor, SyslogAlerts, FastPolling, LastN;
  }

  // ----- failover targets -----

  /** The failover line names the active WAN of the poll; it says none exactly when the next hop stands for no WAN
      or for one with an empty name. */
  lemma FailoverNamesActive(c: Config, run: Run, alert: Alert)
    requires DistinctNames(c.gateways) && Raised(c, run, alert) && alert.WanDown?
    ensures Polls(c, run) != []
    ensures var active := ActiveWan(c.gateways, Last(Polls(c, run)).nextHop);
      alert.failover == if active == Some("") then None else active
  {
    var before, now := Front(run), Last(run).now;
    var observation := RaisedBy(c, run, alert);
    AtHand(c, before, now);
    StepHistory(c, run);
    hide After, IsRun, Polls, Seen, Observed, StatesAfter, AlertRuns.Own, AlertRuns.After, HeldFor;
    var o, h, k := NextObservation(After(c, before), now), Polls(c, before), After(c, before).place.next;
    assert alert.failover == Failover(o.all, o.state.iface) && o.state.status == Down;
    FirstUpIsActive(c.gateways, h, k);
  }

  lemma FirstUpIsActive(gws: Gateways, h: History, k: nat)
    requires DistinctNames(gws) && h != [] && k < |gws| && StatusOf(gws, Last(h), k) == Down
    ensures FirstOtherUp(StatesAfter(gws, h), gws[k].name) == ActiveWan(gws, Last(h).nextHop)
  {
    var states, hop := StatesAfter(gws, h), Last(h).nextHop;
    NoActiveWan(gws, hop);
    forall i | 0 <= i < |gws|
      ensures states[i].iface == gws[i].name && (states[i].status == Up <==> Some(gws[i].name) == ActiveWan(gws, hop))
    {
      StatesShape(gws, h, i);
    }
    hide StatesAfter;
    if ActiveWan(gws, hop).Some? {
      var a :| IsActive(gws, hop, a);
      ActiveWanMeaning(gws, hop, a);
      FindUp(states, gws[k].name, 0, a);
    } else {
      FindNoUp(states, gws[k].name, 0);
    }
    assert states[0..] == states;
  }

  lemma {:induction false} FindUp(states: seq<WanState>, iface: string, i: nat, a: nat)
    requires i <= a < |states| && states[a].status == Up && states[a].iface != iface
    requires forall j | 0 <= j < |states| && j != a :: states[j].status != Up
    ensures FirstOtherUp(states[i..], iface) == Some(states[a].iface)
    decreases a - i
  {
    assert states[i..][0] == states[i] && states[i..][1..] == states[i + 1..];
    if i < a {
      FindUp(states, iface, i + 1, a);
    }
  }

  lemma {:induction false} FindNoUp(states: seq<WanState>, iface: string, i: nat)
    requires i <= |states| && forall j | 0 <= j < |states| :: states[j].status != Up
    ensures FirstOtherUp(states[i..], iface).None?
    decreases |states| - i
  {
    if i < |states| {
      assert states[i..][0] == states[i] && states[i..][1..] == states[i + 1..];
      FindNoUp(states, iface, i + 1);
    }
  }

  /** The cause a DOWN names is the link state that its own poll learned for the WAN, if it learned one. */
  lemma DownTellsLink(c: Config, run: Run, alert: Alert)
    requires DistinctNames(c.gateways) && Raised(c, run, alert) && alert.WanDown?
    ensures Polls(c, run) != []
    ensures var links := Last(Polls(c, run)).links;
      alert.linkUp == if alert.iface in links then Some(links[alert.iface]) else None
  {
    var o := RaisedBy(c, run, alert);
    AtHand(c, Front(run), Last(run).now);
    StepHistory(c, run);
    var k := After(c, Front(run)).place.next;
    assert o.state == o.all[k];
    hide After, IsRun, Polls, Seen, Observed, AlertRuns.Own, AlertRuns.After, StatesAfter, AlertFor, StateIn;
    LinkIsLearned(c.gateways, Polls(c, run), k);
    LinkOf(AlertRuns.After(Observed(c, Front(run))), o, alert);
  }

  lemma LinkOf(e: Engine, o: Observation, alert: Alert)
    requires AlertFor(e, o) == Some(alert) && alert.WanDown?
    ensures alert.iface == o.state.iface && alert.linkUp == o.state.linkUp
  {
    AlertRuns.DownCarriesLink(e, o);
    hide HeldFor, Failover;
  }

  // ----- conservation -----

  /** Only polls raise DOWN and RECOVERED alerts, and they observe nothing but UP and DOWN. */
  lemma {:induction false} PollAlertsOnly(c: Config, run: Run)
    requires IsRun(c, run) && DistinctNames(c.gateways)
    ensures AlertRuns.OnlyUpDown(Observed(c, run))
    ensures AlertRuns.Downs(Emitted(c, run)) == AlertRuns.Downs(AlertRuns.Emitted(Observed(c, run)))
    ensures AlertRuns.Recoveries(Emitted(c, run)) == AlertRuns.Recoveries(AlertRuns.Emitted(Observed(c, run)))
    ensures AlertRuns.Replay(Emitted(c, run)) == AlertRuns.Replay(AlertRuns.Emitted(Observed(c, run)))
  {
    if run != [] {
      var before, e := Front(run), Last(run);
      PollAlertsOnly(c, before);
      StepRecent(c, run);
      if e.StateProcessed? {
        AtHand(c, before, e.now);
        ObservedStep(c, run);
        ObservedUpDown(Observed(c, before), Last(Observed(c, run)));
        SameLog(Emitted(c, before), AlertRuns.Emitted(Observed(c, before)), AlertsOf(After(c, before), e));
      } else {
        assert Observed(c, run) == Observed(c, before);
        SyslogOnly(After(c, before), e);
        IgnoredLog(Emitted(c, before), AlertsOf(After(c, before), e));
      }
    }
  }

  lemma ObservedStep(c: Config, run: Run)
    requires run != [] && IsRun(c, run) && Last(run).StateProcessed?
    ensures var h, o := Observed(c, Front(run)), NextObservation(After(c, Front(run)), Last(run).now);
      && Observed(c, run) == h + [o]
      && AlertRuns.Emitted(Observed(c, run)) == AlertRuns.Emitted(h) + AlertsOf(After(c, Front(run)), Last(run))
  {
    TrackersFollow(c, Front(run));
    hide AlertFor;
    assert Front(Observed(c, run)) == Observed(c, Front(run));
  }

  lemma ObservedUpDown(h: AlertRuns.Run, o: Observation)
    requires AlertRuns.OnlyUpDown(h) && o.state.status != Unknown
    ensures AlertRuns.OnlyUpDown(h + [o])
  {
  }

  lemma SyslogOnly(s: State, e: Event)
    requires Enabled(s, e) && !e.StateProcessed?
    ensures forall i | 0 <= i < |AlertsOf(s, e)| :: !AlertsOf(s, e)[i].WanDown? && !AlertsOf(s, e)[i].WanRecovered?
  {
  }

  lemma SameLog(a: seq<Alert>, b: seq<Alert>, more: seq<Alert>)
    requires |more| <= 1 && AlertRuns.Downs(a) == AlertRuns.Downs(b)
    requires AlertRuns.Recoveries(a) == AlertRuns.Recoveries(b) && AlertRuns.Replay(a) == AlertRuns.Replay(b)
    ensures AlertRuns.Downs(a + more) == AlertRuns.Downs(b + more)
    ensures AlertRuns.Recoveries(a + more) == AlertRuns.Recoveries(b + more)
    ensures AlertRuns.Replay(a + more) == AlertRuns.Replay(b + more)
  {
    if more == [] {
      assert a + more == a && b + more == b;
    } else {
      assert more == [more[0]];
      AlertRuns.LogSnoc(a, more[0]);
      AlertRuns.LogSnoc(b, more[0]);
    }
  }

  lemma {:induction false} IgnoredLog(a: seq<Alert>, more: seq<Alert>)
    requires forall i | 0 <= i < |more| :: !more[i].WanDown? && !more[i].WanRecovered?
    ensures AlertRuns.Downs(a + more) == AlertRuns.Downs(a) && AlertRuns.Recoveries(a + more) == AlertRuns.Recoveries(a)
    ensures AlertRuns.Replay(a + more) == AlertRuns.Replay(a)
  {
    if more == [] {
      assert a + more == a;
    } else {
      IgnoredLog(a, Front(more));
      AlertRuns.LogSnoc(a + Front(more), Last(more));
      assert a + more == (a + Front(more)) + [Last(more)];
    }
  }

  /** The WANs shown down by a heartbeat. */
  ghost predicate ShownDown(c: Config, run: Run, name: string) {
    var snapshot := PayloadOf(After(c, run)).wanStates;
    name in snapshot && snapshot[name].status == Down
  }

  /** At every point of every run DOWN minus RECOVERED alerts is the number of WANs a heartbeat would show down,
      and replaying all alerts ever raised gives exactly those. */
  lemma ConservationInRun(c: Config, run: Run)
    requires IsRun(c, run) && DistinctNames(c.gateways)
    ensures var down := AlertRuns.Replay(Emitted(c, run));
      && AlertRuns.Downs(Emitted(c, run)) - AlertRuns.Recoveries(Emitted(c, run)) == |down|
      && forall name :: name in down <==> ShownDown(c, run, name)
  {
    PollAlertsOnly(c, run);
    TrackersFollow(c, run);
    AlertRuns.LogTellsWhoIsDown(Observed(c, run));
    forall name ensures name in AlertRuns.DownNow(Observed(c, run)) <==> ShownDown(c, run, name) {
      AlertRuns.DownNowMeaning(Observed(c, run), name);
      AlertRuns.TrackerMeaning(Observed(c, run), name);
    }
  }

  /** Exactly WAN number `active` is up in the poll. */
  predicate OnlyUp(gws: Gateways, p: Poll, active: int) {
    forall k | 0 <= k < |gws| :: StatusOf(gws, p, k) == Up <==> k == active
  }

  /** The index says which WAN is active with a next hop: -1 if there is none. */
  predicate ActiveAt(gws: Gateways, nextHop: Option<string>, k: int) {
    -1 <= k < |gws| && (if k == -1 then ActiveWan(gws, nextHop).None? else IsActive(gws, nextHop, k))
  }

  /** The names of the first n WANs that a poll finds down. */
  function DownNames(gws: Gateways, p: Poll, n: nat): set<string>
    requires n <= |gws|
  {
    if n == 0 then {}
    else DownNames(gws, p, n - 1) + (if StatusOf(gws, p, n - 1) == Down then {gws[n - 1].name} else {})
  }

  lemma {:induction false} DownNamesMeaning(gws: Gateways, p: Poll, n: nat, name: string)
    requires n <= |gws|
    ensures name in DownNames(gws, p, n) <==>
            exists k :: 0 <= k < n && gws[k].name == name && StatusOf(gws, p, k) == Down
  {
    if n > 0 {
      DownNamesMeaning(gws, p, n - 1, name);
    }
  }

  lemma {:induction false} DownNamesCount(gws: Gateways, p: Poll, n: nat, active: int)
    requires n <= |gws| && DistinctNames(gws)
    requires OnlyUp(gws, p, active)
    ensures |DownNames(gws, p, n)| == if 0 <= active < n then n - 1 else n
  {
    hide DistinctNames, StatusOf, DownNames, OnlyUp;
    if n == 0 {
      NoDownNames(gws, p);
    } else {
      DownNamesCount(gws, p, n - 1, active);
      OneMoreDown(gws, p, n - 1);
      UpOnly(gws, p, active, n - 1);
    }
  }

  lemma NoDownNames(gws: Gateways, p: Poll)
    ensures |DownNames(gws, p, 0)| == 0
  {
  }

  lemma UpOnly(gws: Gateways, p: Poll, active: int, k: nat)
    requires k < |gws| && OnlyUp(gws, p, active)
    ensures StatusOf(gws, p, k) == Up <==> k == active
  {
    hide StatusOf;
  }

  lemma OneMoreDown(gws: Gateways, p: Poll, n: nat)
    requires n < |gws| && DistinctNames(gws)
    ensures |DownNames(gws, p, n + 1)| == |DownNames(gws, p, n)| + (if StatusOf(gws, p, n) == Up then 0 else 1)
  {
    NotYetDown(gws, p, n);
    hide StatusOf, DistinctNames;
    assert DownNames(gws, p, n + 1) ==
           DownNames(gws, p, n) + (if StatusOf(gws, p, n) == Down then {gws[n].name} else {});
    hide DownNames;
  }

  lemma NotYetDown(gws: Gateways, p: Poll, n: nat)
    requires n < |gws| && DistinctNames(gws)
    ensures gws[n].name !in DownNames(gws, p, n)
  {
    hide StatusOf, DownNames;
    DownNamesMeaning(gws, p, n, gws[n].name);
  }

  /** The one index that is up, or -1. */
  lemma ActiveIndex(gws: Gateways, p: Poll) returns (active: int)
    requires DistinctNames(gws)
    ensures ActiveAt(gws, p.nextHop, active) && OnlyUp(gws, p, active)
    ensures active >= 0 <==> ActiveWan(gws, p.nextHop).Some?
  {
    NoActiveWan(gws, p.nextHop);
    active := -1;
    if ActiveWan(gws, p.nextHop).Some? {
      active :| IsActive(gws, p.nextHop, active);
    }
    forall k | 0 <= k < |gws| ensures StatusOf(gws, p, k) == Up <==> k == active {
      ActiveWanMeaning(gws, p.nextHop, k);
    }
  }

  /** After a completed pass DOWN minus RECOVERED alerts is the number of configured WANs, less one if the next hop of
      the newest poll is the gateway of one of them. */
  lemma ConservationWhenSettled(c: Config, run: Run)
    requires IsRun(c, run) && DistinctNames(c.gateways) && Settled(c, run)
    ensures AlertRuns.Downs(Emitted(c, run)) - AlertRuns.Recoveries(Emitted(c, run)) ==
            |c.gateways| - (if ActiveWan(c.gateways, Last(Polls(c, run)).nextHop).Some? then 1 else 0)
  {
    ConservationInRun(c, run);
    SettledSnapshot(c, run);
    var gws, h, down := c.gateways, Polls(c, run), AlertRuns.Replay(Emitted(c, run));
    hide After, IsRun, Polls, Seen, Emitted, StatesAfter, ByName;
    var active := ActiveIndex(gws, Last(h));
    DownNamesCount(gws, Last(h), |gws|, active);
    forall name ensures name in down <==> name in DownNames(gws, Last(h), |gws|) {
      DownNamesMeaning(gws, Last(h), |gws|, name);
      DownInNewest(gws, h, name);
    }
    assert down == DownNames(gws, Last(h), |gws|);
  }

  lemma DownInNewest(gws: Gateways, h: History, name: string)
    requires DistinctNames(gws) && h != []
    ensures var states := ByName(StatesAfter(gws, h));
      (name in states && states[name].status == Down) <==>
      exists k :: 0 <= k < |gws| && gws[k].name == name && StatusOf(gws, Last(h), k) == Down
  {
    var states := StatesAfter(gws, h);
    hide StatesAfter, ByName;
    if name in ByName(states) {
      var k := ByNameKey(states, name);
      StatesShape(gws, h, k);
    }
    if k :| 0 <= k < |gws| && gws[k].name == name && StatusOf(gws, Last(h), k) == Down {
      StatesShape(gws, h, k);
    }
  }
}
