/** Whole runs of the alert engine: which alerts come out of an interleaved sequence of observations. */
module AlertRuns {
  import opened Common
  import opened Duration
  import opened AlertEngine
  import Syslog
  import WanMessages

  type Run = seq<Observation>

  function After(run: Run): Engine {
    if run == [] then EMPTY else Observe(After(Front(run)), Last(run))
  }

  /** Every alert of the run, in order. */
  function Emitted(run: Run): seq<Alert> {
    if run == [] then [] else Emitted(Front(run)) + AsSeq(AlertFor(After(Front(run)), Last(run)))
  }

  /** The observations of one interface. */
  function Own(run: Run, x: string): seq<WanState> {
    if run == [] then []
    else Own(Front(run), x) + (if Last(run).state.iface == x then [Last(run).state] else [])
  }

  function LastStatus(own: seq<WanState>): Option<Status> {
    if own == [] then None else Some(Last(own).status)
  }

  /** What the engine remembers about an interface, in terms of that interface's own observations alone.
      (A first UP leaves the tracker at UNKNOWN, so its status is not simply the last one observed.) */
  lemma {:induction false} TrackerMeaning(run: Run, x: string)
    ensures var e, own := After(run), Own(run, x);
      && (x in e.trackers <==> own != []) && (x in e.previous <==> own != [])
      && (own != [] ==> e.previous[x] == Last(own))
      && (TrackerOf(e, x).current == Down <==> LastStatus(own) == Some(Down))
      && (TrackerOf(e, x).current == Up ==> LastStatus(own) == Some(Up))
  {
    if run != [] {
      TrackerMeaning(Front(run), x);
    }
  }

  /** When an observation changes what is reported: into DOWN from anything else, or from DOWN to UP. */
  predicate Turns(before: Option<Status>, now: Status) {
    (now == Down && before != Some(Down)) || (now == Up && before == Some(Down))
  }

  /** An observation raises an alert exactly when it turns the interface's own previous observation,
      whatever happened to any other interface. */
  lemma {:induction false} AlertsOnTurns(run: Run, o: Observation)
    ensures var x := o.state.iface; var alert := AlertFor(After(run), o);
      && (alert.Some? <==> Turns(LastStatus(Own(run, x)), o.state.status))
      && (alert.Some? ==> alert.value.iface == x && alert.value.at == o.now &&
                          (if o.state.status == Down then alert.value.WanDown? else alert.value.WanRecovered?))
  {
    TrackerMeaning(run, o.state.iface);
  }

  // ----- normal form and non-interference -----

  /** The statuses the alerts for an interface report. */
  function Reported(alerts: seq<Alert>, x: string): seq<Status> {
    if alerts == [] then []
    else Reported(Front(alerts), x) +
         (if Last(alerts).WanDown? && Last(alerts).iface == x then [Down]
          else if Last(alerts).WanRecovered? && Last(alerts).iface == x then [Up]
          else [])
  }

  function Statuses(own: seq<WanState>): seq<Status> {
    if own == [] then [] else Statuses(Front(own)) + [Last(own).status]
  }

  function TurnsOf(s: seq<Status>): seq<Status> {
    if s == [] then []
    else TurnsOf(Front(s)) + (if Turns(if |s| == 1 then None else Some(s[|s| - 2]), Last(s)) then [Last(s)] else [])
  }

  function DropLeadingUps(s: seq<Status>): seq<Status> {
    if s != [] && s[0] == Up then DropLeadingUps(s[1..]) else s
  }

  /** Equal neighbours collapsed into one. */
  function Collapse(s: seq<Status>): seq<Status> {
    if |s| < 2 then s
    else Collapse(Front(s)) + (if s[|s| - 2] == Last(s) then [] else [Last(s)])
  }

  predicate UpOrDown(s: seq<Status>) {
    forall i | 0 <= i < |s| :: s[i] != Unknown
  }

  lemma {:induction false} StatusesLast(own: seq<WanState>)
    ensures |Statuses(own)| == |own|
    ensures own != [] ==> Last(Statuses(own)) == Last(own).status
  {
    if own != [] {
      StatusesLast(Front(own));
    }
  }

  /** The status before the end of a sequence. */
  function Newest(s: seq<Status>): Option<Status> {
    if s == [] then None else Some(Last(s))
  }

  lemma TurnsSnoc(s: seq<Status>, status: Status)
    ensures TurnsOf(s + [status]) == TurnsOf(s) + (if Turns(Newest(s), status) then [status] else [])
  {
    assert Front(s + [status]) == s;
  }

  /** One more observation in an interface's own sequence. */
  lemma OwnSnoc(run: Run, x: string)
    requires run != [] && Last(run).state.iface == x
    ensures Own(run, x) != [] && Front(Own(run, x)) == Own(Front(run), x)
    ensures Statuses(Own(run, x)) == Statuses(Own(Front(run), x)) + [Last(run).state.status]
    ensures LastStatus(Own(Front(run), x)) == Newest(Statuses(Own(Front(run), x)))
  {
    StatusesLast(Own(Front(run), x));
  }

  lemma ReportedOne(before: Run, o: Observation, x: string)
    ensures Reported(AsSeq(AlertFor(After(before), o)), x) ==
            if o.state.iface == x && Turns(LastStatus(Own(before, x)), o.state.status) then [o.state.status] else []
  {
    AlertsOnTurns(before, o);
    hide AlertFor;
    var alert := AlertFor(After(before), o);
    if alert.Some? {
      assert Front([alert.value]) == [] && Last([alert.value]) == alert.value;
    }
  }

  /** The alerts for an interface report exactly the turns in its own sequence of observations. */
  lemma {:induction false} ReportedAreTurns(run: Run, x: string)
    ensures Reported(Emitted(run), x) == TurnsOf(Statuses(Own(run, x)))
  {
    if run != [] {
      var before, o := Front(run), Last(run);
      ReportedAreTurns(before, x);
      ReportedSnoc(Emitted(before), AlertFor(After(before), o), x);
      ReportedOne(before, o, x);
      hide AlertFor, Reported, Statuses, Turns;
      if o.state.iface == x {
        OwnSnoc(run, x);
        TurnsSnoc(Statuses(Own(before, x)), o.state.status);
      } else {
        assert Own(run, x) == Own(before, x);
      }
    }
  }

  lemma ReportedSnoc(alerts: seq<Alert>, alert: Option<Alert>, x: string)
    ensures Reported(alerts + AsSeq(alert), x) == Reported(alerts, x) + Reported(AsSeq(alert), x)
  {
    if alert.Some? {
      assert Front(alerts + [alert.value]) == alerts;
      assert Front([alert.value]) == [];
    } else {
      assert alerts + AsSeq(alert) == alerts;
    }
  }

  lemma {:induction false} DropSnoc(s: seq<Status>, status: Status)
    ensures DropLeadingUps(s + [status]) ==
            if DropLeadingUps(s) == [] && status == Up then [] else DropLeadingUps(s) + [status]
  {
    if s != [] && s[0] == Up {
      DropSnoc(s[1..], status);
      assert (s + [status])[1..] == s[1..] + [status];
    } else if s == [] {
      assert [status][1..] == [];
      assert s + [status] == [status];
    }
  }

  lemma {:induction false} DropIsSuffix(s: seq<Status>)
    ensures DropLeadingUps(s) != [] ==> s != [] && Last(DropLeadingUps(s)) == Last(s)
    ensures DropLeadingUps(s) == [] && s != [] ==> Last(s) == Up
  {
    if s != [] && s[0] == Up {
      DropIsSuffix(s[1..]);
    }
  }

  lemma CollapseSnoc(s: seq<Status>, status: Status)
    ensures Collapse(s + [status]) == Collapse(s) + (if Newest(s) == Some(status) then [] else [status])
  {
    assert Front(s + [status]) == s;
  }

  /** For UP and DOWN observations the turns are the sequence without its leading UPs, equal neighbours collapsed. */
  lemma {:induction false} TurnsAreNormalForm(s: seq<Status>)
    requires UpOrDown(s)
    ensures TurnsOf(s) == Collapse(DropLeadingUps(s))
  {
    if s != [] {
      var before, status := Front(s), Last(s);
      TurnsAreNormalForm(before);
      TurnsSnoc(before, status);
      DropSnoc(before, status);
      DropIsSuffix(before);
      CollapseSnoc(DropLeadingUps(before), status);
      hide TurnsOf, Collapse, DropLeadingUps;
      assert s == before + [status];
    }
  }

  /** Normal form and non-interference: whatever the interleaving with other interfaces, the alerts for one are its own
      observations with leading UPs dropped and equal neighbours collapsed. */
  lemma AlertsAreNormalForm(run: Run, x: string)
    requires UpOrDown(Statuses(Own(run, x)))
    ensures Reported(Emitted(run), x) == Collapse(DropLeadingUps(Statuses(Own(run, x))))
  {
    ReportedAreTurns(run, x);
    TurnsAreNormalForm(Statuses(Own(run, x)));
  }

  // ----- conservation and replay -----

  predicate OnlyUpDown(run: Run) {
    forall i | 0 <= i < |run| :: run[i].state.status != Unknown
  }

  /** The interfaces whose latest observation is DOWN. */
  function DownNow(run: Run): set<string> {
    if run == [] then {}
    else if Last(run).state.status == Down then DownNow(Front(run)) + {Last(run).state.iface}
    else DownNow(Front(run)) - {Last(run).state.iface}
  }

  lemma {:induction false} DownNowMeaning(run: Run, x: string)
    ensures x in DownNow(run) <==> LastStatus(Own(run, x)) == Some(Down)
  {
    if run != [] {
      DownNowMeaning(Front(run), x);
    }
  }

  /** Reading one alert of the log: DOWN adds an interface, RECOVERED removes it. */
  function ReadAlert(down: set<string>, alert: Alert): set<string> {
    if alert.WanDown? then down + {alert.iface}
    else if alert.WanRecovered? then down - {alert.iface}
    else down
  }

  /** Reading the alert log back. */
  function Replay(alerts: seq<Alert>): set<string> {
    if alerts == [] then {} else ReadAlert(Replay(Front(alerts)), Last(alerts))
  }

  function Downs(alerts: seq<Alert>): nat {
    if alerts == [] then 0 else Downs(Front(alerts)) + (if Last(alerts).WanDown? then 1 else 0)
  }

  function Recoveries(alerts: seq<Alert>): nat {
    if alerts == [] then 0 else Recoveries(Front(alerts)) + (if Last(alerts).WanRecovered? then 1 else 0)
  }

  lemma LogSnoc(alerts: seq<Alert>, alert: Alert)
    ensures Front(alerts + [alert]) == alerts && Last(alerts + [alert]) == alert
    ensures Downs(alerts + [alert]) == Downs(alerts) + (if alert.WanDown? then 1 else 0)
    ensures Recoveries(alerts + [alert]) == Recoveries(alerts) + (if alert.WanRecovered? then 1 else 0)
    ensures Replay(alerts + [alert]) == ReadAlert(Replay(alerts), alert)
  {
    assert Front(alerts + [alert]) == alerts;
  }

  /** How often an interface went from DOWN to UNKNOWN, which no alert reports. */
  function SilentExits(run: Run): nat {
    if run == [] then 0
    else SilentExits(Front(run)) +
         (if Last(run).state.status == Unknown && Last(run).state.iface in DownNow(Front(run)) then 1 else 0)
  }

  /** Conservation, for every run: the DOWN alerts are the RECOVERED alerts, the silent exits and the interfaces
      now DOWN. */
  lemma {:induction false} Conservation(run: Run)
    ensures Downs(Emitted(run)) == Recoveries(Emitted(run)) + SilentExits(run) + |DownNow(run)|
  {
    if run != [] {
      var before, o := Front(run), Last(run);
      Conservation(before);
      AlertsOnTurns(before, o);
      DownNowMeaning(before, o.state.iface);
      var alert := AlertFor(After(before), o);
      if alert.Some? {
        LogSnoc(Emitted(before), alert.value);
      } else {
        assert Emitted(run) == Emitted(before);
      }
      CountDown(run);
    }
  }

  lemma CountDown(run: Run)
    requires run != []
    ensures var x, was := Last(run).state.iface, DownNow(Front(run));
      |DownNow(run)| == |was| + (if Last(run).state.status == Down then (if x in was then 0 else 1)
                                 else if x in was then -1 else 0)
  {
    var x, was := Last(run).state.iface, DownNow(Front(run));
    if x in was {
      assert was + {x} == was;
      assert was == (was - {x}) + {x};
    } else {
      assert was - {x} == was;
    }
  }

  /** With UP and DOWN observations only, DOWN minus RECOVERED alerts is the number of interfaces now DOWN,
      and replaying the log tells which they are. */
  lemma {:induction false} LogTellsWhoIsDown(run: Run)
    requires OnlyUpDown(run)
    ensures Replay(Emitted(run)) == DownNow(run) && SilentExits(run) == 0
    ensures Downs(Emitted(run)) - Recoveries(Emitted(run)) == |DownNow(run)|
  {
    Conservation(run);
    if run != [] {
      var before, o := Front(run), Last(run);
      assert OnlyUpDown(before) by {
        forall i | 0 <= i < |before| ensures before[i].state.status != Unknown {
          assert before[i] == run[i];
        }
      }
      LogTellsWhoIsDown(before);
      AlertsOnTurns(before, o);
      DownNowMeaning(before, o.state.iface);
      var alert := AlertFor(After(before), o);
      if alert.Some? {
        LogSnoc(Emitted(before), alert.value);
      } else {
        assert Emitted(run) == Emitted(before);
      }
    }
  }

  // ----- durations -----

  /** RECOVERED always gives the time since the state last observed, never "unknown". */
  lemma {:induction false} RecoveredText(run: Run, o: Observation)
    requires AlertFor(After(run), o).Some? && AlertFor(After(run), o).value.WanRecovered?
    ensures var own, alert := Own(run, o.state.iface), AlertFor(After(run), o).value;
      own != [] && alert.downtime == Format(Truncate(o.now - Last(own).since)) && alert.downtime != "unknown"
  {
    hide Format, Truncate, After, Own;
    TrackerMeaning(run, o.state.iface);
    AlertsOnTurns(run, o);
    FormatIsADuration(Truncate(o.now - Last(Own(run, o.state.iface)).since));
  }

  /** DOWN gives the time since the state last observed when that was UP, and says "unknown" exactly otherwise:
      on a first observation or after UNKNOWN. */
  lemma {:induction false} DownText(run: Run, o: Observation)
    requires AlertFor(After(run), o).Some? && AlertFor(After(run), o).value.WanDown?
    ensures var own, alert := Own(run, o.state.iface), AlertFor(After(run), o).value;
      && (alert.uptime == "unknown" <==> LastStatus(own) != Some(Up))
      && (LastStatus(own) == Some(Up) ==> alert.uptime == Format(Truncate(o.now - Last(own).since)))
  {
    hide Format, Truncate, After, Own;
    TrackerMeaning(run, o.state.iface);
    AlertsOnTurns(run, o);
    var own := Own(run, o.state.iface);
    if own != [] {
      FormatIsADuration(Truncate(o.now - Last(own).since));
    }
  }

  // ----- adaptive polling -----

  /** The length of the row of equal statuses at the end. */
  function Row(s: seq<Status>): nat {
    if |s| < 2 then |s| else if s[|s| - 2] == Last(s) then Row(Front(s)) + 1 else 1
  }

  predicate AllUp(s: seq<Status>) {
    forall i | 0 <= i < |s| :: s[i] == Up
  }

  /** The observations since the last alert: all of them if there was none. */
  function SinceAlert(s: seq<Status>): int {
    if AllUp(s) then |s| else Row(s) - 1
  }

  lemma SinceAlertSnoc(s: seq<Status>, status: Status)
    requires UpOrDown(s) && status != Unknown
    ensures SinceAlert(s + [status]) ==
            if Turns(Newest(s), status) then 0 else SinceAlert(s) + 1
  {
    var t := s + [status];
    assert Front(t) == s;
    assert AllUp(t) <==> AllUp(s) && status == Up by {
      assert forall i | 0 <= i < |s| :: t[i] == s[i];
      assert t[|s|] == status;
    }
    if s != [] {
      assert t[|t| - 2] == Last(s);
      if AllUp(s) {
        assert Last(s) == Up;
      }
      RowOfDowns(s);
    }
  }

  lemma RowOfDowns(s: seq<Status>)
    requires s != []
    ensures Row(s) >= 1 && (|s| >= 2 && s[|s| - 2] != Last(s) ==> Row(s) == 1)
  {
  }

  lemma {:induction false} StableMeaning(run: Run, x: string)
    requires UpOrDown(Statuses(Own(run, x)))
    ensures Own(run, x) != [] ==> TrackerOf(After(run), x).stable == SinceAlert(Statuses(Own(run, x)))
    ensures Own(run, x) == [] ==> TrackerOf(After(run), x) == FRESH
  {
    if run != [] {
      var before, o := Front(run), Last(run);
      var s := Statuses(Own(before, x));
      if o.state.iface == x {
        OwnSnoc(run, x);
        assert UpOrDown(s) by {
          forall i | 0 <= i < |s| ensures s[i] != Unknown {
            assert Statuses(Own(run, x))[i] == s[i];
          }
        }
        assert Last(Statuses(Own(run, x))) != Unknown;
        StableMeaning(before, x);
        StableStep(before, o);
      } else {
        assert Own(run, x) == Own(before, x);
        StableMeaning(before, x);
      }
    }
  }

  lemma StableStep(before: Run, o: Observation)
    requires var s := Statuses(Own(before, o.state.iface));
      && UpOrDown(s) && o.state.status != Unknown
      && (if s == [] then TrackerOf(After(before), o.state.iface) == FRESH
          else TrackerOf(After(before), o.state.iface).stable == SinceAlert(s))
    ensures NextTracker(TrackerOf(After(before), o.state.iface), o.state.status, o.now).stable ==
            SinceAlert(Statuses(Own(before, o.state.iface)) + [o.state.status])
  {
    var own := Own(before, o.state.iface);
    StatusesLast(own);
    AlertsOnTurns(before, o);
    SinceAlertSnoc(Statuses(own), o.state.status);
  }

  /** Fast polling in terms of the observations alone: some interface was last seen DOWN, or has fewer than five
      observations since its last alert (in all, if it never had one). */
  lemma FastPollingClosedForm(run: Run)
    requires OnlyUpDown(run)
    ensures FastPolling(After(run)) <==>
            exists x :: Own(run, x) != [] &&
              (LastStatus(Own(run, x)) == Some(Down) || SinceAlert(Statuses(Own(run, x))) < 5)
  {
    if FastPolling(After(run)) {
      var x :| x in After(run).trackers &&
               (After(run).trackers[x].current == Down || After(run).trackers[x].stable < STABLE_POLLS);
      FastFor(run, x);
      assert Own(run, x) != [];
    }
    if x :| Own(run, x) != [] &&
            (LastStatus(Own(run, x)) == Some(Down) || SinceAlert(Statuses(Own(run, x))) < STABLE_POLLS) {
      FastFor(run, x);
    }
  }

  lemma {:induction false} FastFor(run: Run, x: string)
    requires OnlyUpDown(run)
    ensures x in After(run).trackers <==> Own(run, x) != []
    ensures Own(run, x) != [] ==>
              (After(run).trackers[x].current == Down <==> LastStatus(Own(run, x)) == Some(Down)) &&
              After(run).trackers[x].stable == SinceAlert(Statuses(Own(run, x)))
  {
    TrackerMeaning(run, x);
    OwnUpDown(run, x);
    StableMeaning(run, x);
  }

  lemma {:induction false} OwnUpDown(run: Run, x: string)
    requires OnlyUpDown(run)
    ensures UpOrDown(Statuses(Own(run, x)))
  {
    if run != [] {
      assert OnlyUpDown(Front(run)) by {
        forall i | 0 <= i < |Front(run)| ensures Front(run)[i].state.status != Unknown {
          assert Front(run)[i] == run[i];
        }
      }
      OwnUpDown(Front(run), x);
      if Last(run).state.iface == x {
        OwnSnoc(run, x);
      } else {
        assert Own(run, x) == Own(Front(run), x);
      }
    }
  }

  // ----- the rest of the engine's memory -----

  /** The status in an interface's record: the last one observed, but UNKNOWN as long as it was never DOWN. */
  lemma {:induction false} CurrentMeaning(run: Run, x: string)
    requires UpOrDown(Statuses(Own(run, x)))
    ensures var s := Statuses(Own(run, x));
      TrackerOf(After(run), x).current == if AllUp(s) then Unknown else Last(s)
  {
    if run != [] {
      var before, o := Front(run), Last(run);
      var s := Statuses(Own(before, x));
      if o.state.iface == x {
        OwnSnoc(run, x);
        assert Statuses(Own(run, x)) == s + [o.state.status];
        PrefixUpOrDown(s, o.state.status);
        CurrentMeaning(before, x);
        TrackerStep(before, o);
        hide After, Own, Statuses, TrackerOf;
      } else {
        assert Own(run, x) == Own(before, x);
        CurrentMeaning(before, x);
      }
    }
  }

  lemma TrackerStep(before: Run, o: Observation)
    ensures TrackerOf(After(before + [o]), o.state.iface) ==
            NextTracker(TrackerOf(After(before), o.state.iface), o.state.status, o.now)
  {
    assert Front(before + [o]) == before;
  }

  lemma PrefixUpOrDown(s: seq<Status>, status: Status)
    requires UpOrDown(s + [status])
    ensures UpOrDown(s) && status != Unknown
    ensures AllUp(s + [status]) <==> AllUp(s) && status == Up
  {
    assert forall i | 0 <= i < |s| :: (s + [status])[i] == s[i];
    assert (s + [status])[|s|] == status;
  }

  /** The time of the newest DOWN or RECOVERED alert for an interface. */
  function NewestAlertTime(alerts: seq<Alert>, x: string): Option<real> {
    if alerts == [] then None
    else if (Last(alerts).WanDown? || Last(alerts).WanRecovered?) && Last(alerts).iface == x then Some(Last(alerts).at)
    else NewestAlertTime(Front(alerts), x)
  }

  /** Both times in an interface's record are the time of its newest alert. */
  lemma {:induction false} AlertTimes(run: Run, x: string)
    requires OnlyUpDown(run)
    ensures TrackerOf(After(run), x).lastAlert == NewestAlertTime(Emitted(run), x)
    ensures TrackerOf(After(run), x).lastChange == NewestAlertTime(Emitted(run), x)
  {
    if run != [] {
      var before, o := Front(run), Last(run);
      assert OnlyUpDown(before) by {
        forall i | 0 <= i < |before| ensures before[i].state.status != Unknown {
          assert before[i] == run[i];
        }
      }
      AlertTimes(before, x);
      AlertTimesStep(before, o, x);
      assert run == before + [o];
    }
  }

  lemma AlertTimesStep(before: Run, o: Observation, x: string)
    requires o.state.status != Unknown
    requires var t := TrackerOf(After(before), x);
      t.lastAlert == t.lastChange == NewestAlertTime(Emitted(before), x)
    ensures var t := TrackerOf(After(before + [o]), x);
      t.lastAlert == t.lastChange == NewestAlertTime(Emitted(before + [o]), x)
  {
    AlertsOnTurns(before, o);
    AlertIffShould(After(before), o);
    TrackerStep(before, o);
    if x != o.state.iface {
      OtherTracker(before, o, x);
    }
    EmittedStep(before, o);
    hide After, Emitted, AlertFor, Own, ShouldAlert, TrackerOf;
    var alert := AlertFor(After(before), o);
    if alert.Some? {
      assert Front(Emitted(before) + [alert.value]) == Emitted(before);
    } else {
      assert Emitted(before + [o]) == Emitted(before);
    }
  }

  lemma AlertIffShould(e: Engine, o: Observation)
    requires o.state.status != Unknown
    ensures AlertFor(e, o).Some? <==> ShouldAlert(TrackerOf(e, o.state.iface).current, o.state.status)
  {
    hide HeldFor, Failover, ShouldAlert, TrackerOf;
  }

  lemma OtherTracker(before: Run, o: Observation, x: string)
    requires x != o.state.iface
    ensures TrackerOf(After(before + [o]), x) == TrackerOf(After(before), x)
  {
    assert Front(before + [o]) == before;
    hide NextTracker;
  }

  lemma EmittedStep(before: Run, o: Observation)
    ensures Emitted(before + [o]) == Emitted(before) + AsSeq(AlertFor(After(before), o))
  {
    hide AlertFor;
    assert Front(before + [o]) == before;
  }

  /** DOWN carries the link state of the observation, whatever the engine remembers. */
  lemma DownCarriesLink(e: Engine, o: Observation)
    requires AlertFor(e, o).Some? && AlertFor(e, o).value.WanDown?
    ensures AlertFor(e, o).value.linkUp == o.state.linkUp
  {
    hide HeldFor, Failover;
  }

  /** The failover target: the first interface in the list that is up and not the one that went down. */
  lemma {:induction false} FirstOtherMeaning(all: seq<WanState>, iface: string) returns (i: nat)
    ensures var target := FirstOtherUp(all, iface);
      if target.None? then forall j | 0 <= j < |all| :: all[j].status != Up || all[j].iface == iface
      else i < |all| && target == Some(all[i].iface) && all[i].status == Up && all[i].iface != iface &&
           forall j | 0 <= j < i :: all[j].status != Up || all[j].iface == iface
  {
    i := 0;
    if all != [] && (all[0].status != Up || all[0].iface == iface) {
      var k := FirstOtherMeaning(all[1..], iface);
      i := k + 1;
      assert forall j | 0 < j < |all| :: all[j] == all[1..][j - 1];
    }
  }

  // ----- from a syslog line to an alert -----

  /** A message built on one of the WAN templates raises one alert, of the template's kind and for the interface it
      names; an online detection raises none. */
  lemma TemplateToAlert(m: WanMessages.Message, now: real)
    requires m.WellFormed()
    ensures SyslogAlerts(Syslog.Categorize(m.Text()), now) ==
            if m.k == 0 then [FailoverActivated(m.name, now)]
            else if m.k == 1 then [FailoverEnded(m.name, now)]
            else if m.k == 2 then [LinkDown(m.name, now)]
            else []
  {
    WanMessages.TemplateIsRecognized(m);
    hide Syslog.Categorize;
  }
}
