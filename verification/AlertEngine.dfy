/** The alert engine of the local monitor (local/alert_engine.py): deduplicated WAN alerts and syslog alerts. */
module AlertEngine {
  import opened Common
  import opened Duration
  import Syslog

  // ----- specification on values -----

  /** AlertState: what the engine remembers about one interface. */
  datatype Tracker = Tracker(current: Status, lastAlert: Option<real>, lastChange: Option<real>, stable: nat)

  const FRESH := Tracker(Unknown, None, None, 0)

  /** How many stable observations end the fast polling; the configured recovery_threshold is never read. */
  const STABLE_POLLS := 5

  datatype Engine = Engine(trackers: map<string, Tracker>, previous: map<string, WanState>)

  const EMPTY := Engine(map[], map[])

  /** One call of process_wan_state: the state, all states of its poll in dictionary order, and the clock. */
  datatype Observation = Observation(state: WanState, all: seq<WanState>, now: real)

  predicate ShouldAlert(current: Status, status: Status) {
    if current == Unknown then status == Down else status != current
  }

  function TrackerOf(e: Engine, iface: string): Tracker {
    if iface in e.trackers then e.trackers[iface] else FRESH
  }

  function NextTracker(t: Tracker, status: Status, now: real): Tracker {
    if ShouldAlert(t.current, status) then Tracker(status, Some(now), Some(now), 0)
    else t.(stable := t.stable + 1)
  }

  function Observe(e: Engine, o: Observation): Engine {
    var x := o.state.iface;
    Engine(e.trackers[x := NextTracker(TrackerOf(e, x), o.state.status, o.now)], e.previous[x := o.state])
  }

  /** The first other interface that is up. */
  function FirstOtherUp(all: seq<WanState>, iface: string): Option<string> {
    if all == [] then None
    else if all[0].status == Up && all[0].iface != iface then Some(all[0].iface)
    else FirstOtherUp(all[1..], iface)
  }

  /** The interface the failover line names; an empty name reads as none. */
  function Failover(all: seq<WanState>, iface: string): Option<string> {
    var target := FirstOtherUp(all, iface);
    if target == Some("") then None else target
  }

  /** How long the previous state lasted, if it was the given one. */
  function HeldFor(previous: map<string, WanState>, o: Observation, status: Status): string {
    var x := o.state.iface;
    if x in previous && previous[x].status == status
    then Format(Truncate(o.now - previous[x].since)) else "unknown"
  }

  /** The alert an observation raises. */
  function AlertFor(e: Engine, o: Observation): Option<Alert> {
    var x := o.state.iface;
    if !ShouldAlert(TrackerOf(e, x).current, o.state.status) then None
    else match o.state.status
      case Down => Some(WanDown(x, HeldFor(e.previous, o, Up), Failover(o.all, x), o.state.linkUp, o.now))
      case Up => Some(WanRecovered(x, HeldFor(e.previous, o, Down), o.now))
      case Unknown => None
  }

  function AsSeq(alert: Option<Alert>): seq<Alert> {
    if alert.Some? then [alert.value] else []
  }

  /** should_use_alert_interval */
  ghost predicate FastPolling(e: Engine) {
    exists x :: x in e.trackers && (e.trackers[x].current == Down || e.trackers[x].stable < STABLE_POLLS)
  }

  /** The alerts for a syslog event: none unless it is a WAN event other than an online detection. */
  function SyslogAlerts(category: Syslog.Category, now: real): seq<Alert> {
    match category
    case General => []
    case Wan(event, iface) =>
      if event == "failover_activated" then [FailoverActivated(iface, now)]
      else if event == "failover_deactivated" then [FailoverEnded(iface, now)]
      else if event == "link_down" then [LinkDown(iface, now)]
      else []
  }

  // ----- the classes -----

  class AlertState {
    var currentStatus: Status
    var lastAlertTime: Option<real>
    var lastStatusChange: Option<real>
    var consecutiveStable: nat

    constructor ()
      ensures View() == FRESH
    {
      currentStatus, lastAlertTime, lastStatusChange, consecutiveStable := Unknown, None, None, 0;
    }

    function View(): Tracker
      reads this
    {
      Tracker(currentStatus, lastAlertTime, lastStatusChange, consecutiveStable)
    }

    predicate ShouldAlertFor(status: Status)
      reads this
    {
      ShouldAlert(currentStatus, status)
    }

    /** What process_wan_state writes into the record (local/alert_engine.py, lines 139-147). */
    method Update(stateChanged: bool, status: Status, now: real)
      requires stateChanged <==> ShouldAlertFor(status)
      modifies this
      ensures View() == NextTracker(old(View()), status, now)
    {
      if stateChanged {
        currentStatus := status;
        lastAlertTime := Some(now);
        lastStatusChange := Some(now);
      }
      if stateChanged {
        consecutiveStable := 0;
      } else {
        consecutiveStable := consecutiveStable + 1;
      }
    }
  }

  class AlertEngine {
    var wanStates: map<string, AlertState>
    var previousWan: map<string, WanState>

    /** No two interfaces share a record. */
    ghost predicate Valid()
      reads this
    {
      forall x, y | x in wanStates && y in wanStates && x != y :: wanStates[x] != wanStates[y]
    }

    ghost function Records(): set<AlertState>
      reads this
    {
      set x | x in wanStates :: wanStates[x]
    }

    ghost function View(): Engine
      reads this, Records()
    {
      Engine(map x | x in wanStates :: wanStates[x].View(), previousWan)
    }

    constructor ()
      ensures Valid() && View() == EMPTY && Records() == {}
    {
      wanStates, previousWan := map[], map[];
    }

    method ProcessWanState(o: Observation) returns (alerts: seq<Alert>)
      requires Valid()
      modifies this, Records()
      ensures Valid() && fresh(Records() - old(Records()))
      ensures View() == Observe(old(View()), o)
      ensures alerts == AsSeq(AlertFor(old(View()), o))
    {
      hide HeldFor, Failover, ShouldAlert, NextTracker;
      var alertState := StateOf(o.state.iface);
      var stateChanged := alertState.ShouldAlertFor(o.state.status);
      alerts := MakeAlerts(stateChanged, o);
      File(alertState, stateChanged, o);
    }

    /** The record and the previous state (local/alert_engine.py, lines 139-149). */
    method File(record: AlertState, stateChanged: bool, o: Observation)
      requires Valid() && o.state.iface in wanStates && record == wanStates[o.state.iface]
      requires stateChanged <==> record.ShouldAlertFor(o.state.status)
      modifies this`previousWan, record
      ensures Valid()
      ensures View() == Observe(old(View()), o)
    {
      hide ShouldAlert, NextTracker;
      record.Update(stateChanged, o.state.status, o.now);
      assert forall y | y in wanStates && y != o.state.iface :: wanStates[y].View() == old(wanStates[y].View());
      previousWan := previousWan[o.state.iface := o.state];
      assert View().trackers == old(View()).trackers[o.state.iface := record.View()];
    }

    /** The record of an interface, made on its first observation (local/alert_engine.py, lines 62-65). */
    method StateOf(iface: string) returns (record: AlertState)
      requires Valid()
      modifies this`wanStates
      ensures Valid() && iface in wanStates && wanStates[iface] == record && fresh(Records() - old(Records()))
      ensures View().trackers == old(View()).trackers[iface := TrackerOf(old(View()), iface)]
    {
      if iface !in wanStates {
        record := new AlertState();
        wanStates := wanStates[iface := record];
      } else {
        record := wanStates[iface];
      }
    }

    /** At most one alert, and none for a change to UNKNOWN (local/alert_engine.py, lines 69-137). */
    method MakeAlerts(stateChanged: bool, o: Observation) returns (alerts: seq<Alert>)
      ensures alerts ==
        if stateChanged && o.state.status == Down then
          [WanDown(o.state.iface, HeldFor(previousWan, o, Up), Failover(o.all, o.state.iface), o.state.linkUp, o.now)]
        else if stateChanged && o.state.status == Up then
          [WanRecovered(o.state.iface, HeldFor(previousWan, o, Down), o.now)]
        else []
    {
      hide HeldFor, Failover;
      alerts := [];
      if stateChanged {
        if o.state.status == Down {
          var uptime := TimeIn(o, Up);
          var target := FailoverTarget(o.all, o.state.iface);
          alerts := [WanDown(o.state.iface, uptime, target, o.state.linkUp, o.now)];
        } else if o.state.status == Up {
          var downtime := TimeIn(o, Down);
          alerts := [WanRecovered(o.state.iface, downtime, o.now)];
        }
      }
    }

    /** The duration text of an alert (local/alert_engine.py, lines 71-74 and 119-122). */
    method TimeIn(o: Observation, status: Status) returns (text: string)
      ensures text == HeldFor(previousWan, o, status)
    {
      var iface := o.state.iface;
      if iface in previousWan && previousWan[iface].status == status {
        text := FormatDuration(o.now - previousWan[iface].since);
      } else {
        text := "unknown";
      }
    }

    /** The loop that stops at the first other interface that is up (local/alert_engine.py, lines 76-87). */
    method FailoverTarget(all: seq<WanState>, iface: string) returns (target: Option<string>)
      ensures target == Failover(all, iface)
    {
      target := None;
      for i := 0 to |all|
        invariant target == None && FirstOtherUp(all, iface) == FirstOtherUp(all[i..], iface)
      {
        assert all[i..][0] == all[i] && all[i..][1..] == all[i + 1..];
        if all[i].status == Up && all[i].iface != iface {
          target := Some(all[i].iface);
          break;
        }
      }
      if target == Some("") {
        target := None;
      }
    }

    method ProcessSyslogEvent(category: Syslog.Category, now: real) returns (alerts: seq<Alert>)
      ensures alerts == SyslogAlerts(category, now)
    {
      if category.General? {
        return [];
      }
      if category.event == "online_detection" {
        return [];
      }
      if category.event == "failover_activated" {
        return [FailoverActivated(category.iface, now)];
      }
      if category.event == "failover_deactivated" {
        return [FailoverEnded(category.iface, now)];
      }
      if category.event == "link_down" {
        return [LinkDown(category.iface, now)];
      }
      return [];
    }

    method ShouldUseAlertInterval() returns (fast: bool)
      ensures fast <==> FastPolling(View())
    {
      var left := wanStates.Keys;
      while left != {}
        invariant left <= wanStates.Keys
        invariant forall x | x in wanStates && x !in left ::
                    wanStates[x].currentStatus != Down && wanStates[x].consecutiveStable >= STABLE_POLLS
        decreases left
      {
        var x :| x in left;
        var state := wanStates[x];
        if state.currentStatus == Down || state.consecutiveStable < STABLE_POLLS {
          assert x in View().trackers && View().trackers[x] == state.View();
          return true;
        }
        left := left - {x};
      }
      return false;
    }

    method GetCurrentWanStates() returns (states: map<string, WanState>)
      ensures states == View().previous
    {
      states := previousWan;
    }
  }
}
