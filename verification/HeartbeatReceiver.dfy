/** The heartbeat store of the remote sentinel (remote/heartbeat_receiver.py). */
module HeartbeatReceiver {
  import opened Common

  datatype Config = Config(expectedInterval: int, missedThreshold: int) {
    /** The silence that is still tolerated, in seconds. */
    function Deadline(): real {
      (expectedInterval * missedThreshold) as real
    }
  }

  datatype Store = Store(lastHeartbeat: Option<real>, lastPayload: Option<Payload>, alertedMissing: bool)

  const EMPTY := Store(None, None, false)

  function Recorded(payload: Payload, now: real): Store {
    Store(Some(now), Some(payload), false)
  }

  predicate Missing(c: Config, s: Store, now: real) {
    s.lastHeartbeat.None? || now - s.lastHeartbeat.value > c.Deadline()
  }

  predicate AlertDue(c: Config, s: Store, now: real) {
    Missing(c, s, now) && !s.alertedMissing
  }

  /** The store after should_alert_missing, which remembers that it said yes. */
  function Checked(c: Config, s: Store, now: real): Store {
    if AlertDue(c, s, now) then s.(alertedMissing := true) else s
  }

  function LastWanStates(s: Store): map<string, WanState> {
    match s.lastPayload
    case Some(p) => p.wanStates
    case None => map[]
  }

  class HeartbeatStore {
    const config: Config
    var lastHeartbeat: Option<real>
    var lastPayload: Option<Payload>
    var alertedMissing: bool

    constructor (config: Config)
      ensures this.config == config && View() == EMPTY
    {
      this.config := config;
      lastHeartbeat, lastPayload, alertedMissing := None, None, false;
    }

    function View(): Store
      reads this
    {
      Store(lastHeartbeat, lastPayload, alertedMissing)
    }

    method Record(payload: Payload, now: real)
      modifies this
      ensures View() == Recorded(payload, now)
    {
      lastHeartbeat := Some(now);
      lastPayload := Some(payload);
      alertedMissing := false;
    }

    method IsMissing(now: real) returns (missing: bool)
      ensures missing <==> Missing(config, View(), now)
    {
      if lastHeartbeat.None? {
        return true;
      }
      var elapsed := now - lastHeartbeat.value;
      var threshold := (config.expectedInterval * config.missedThreshold) as real;
      return elapsed > threshold;
    }

    /** At most one yes between two recorded heartbeats. */
    method ShouldAlertMissing(now: real) returns (due: bool)
      modifies this
      ensures due <==> AlertDue(config, old(View()), now)
      ensures View() == Checked(config, old(View()), now)
    {
      var missing := IsMissing(now);
      if missing && !alertedMissing {
        alertedMissing := true;
        return true;
      }
      return false;
    }

    method GetLastWanStates() returns (states: map<string, WanState>)
      ensures states == LastWanStates(View())
    {
      if lastPayload.Some? {
        return lastPayload.value.wanStates;
      }
      return map[];
    }
  }
}
