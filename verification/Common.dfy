/** Types shared by the local monitor and the remote sentinel (shared/models.py). */
module Common {

  datatype Option<+T> = None | Some(value: T)

  /** InterfaceStatus. The poller only ever reports Up and Down. */
  datatype Status = Up | Down | Unknown

  /** WANState: one interface as seen by one poll. */
  datatype WanState = WanState(iface: string, status: Status, since: real, linkUp: Option<bool>)

  /** AlertEvent, reduced to what its title and message say.
      Durations are the text that appears in the message. */
  datatype Alert =
    | WanDown(iface: string, uptime: string, failover: Option<string>, linkUp: Option<bool>, at: real)
    | WanRecovered(iface: string, downtime: string, at: real)
    | FailoverActivated(iface: string, at: real)
    | FailoverEnded(iface: string, at: real)
    | LinkDown(iface: string, at: real)

  /** HeartbeatPayload, without its own time stamp and version. */
  datatype Payload = Payload(wanStates: map<string, WanState>, recentEvents: seq<Alert>)

  /** Python's int() on a float: truncation toward zero. */
  function Truncate(x: real): (n: int)
    ensures x >= 0.0 ==> n as real <= x < n as real + 1.0
    ensures x < 0.0 ==> n as real - 1.0 < x <= n as real
  {
    if x >= 0.0 then x.Floor else -((-x).Floor)
  }

  function Last<T>(s: seq<T>): T
    requires s != []
  {
    s[|s| - 1]
  }

  function Front<T>(s: seq<T>): seq<T>
    requires s != []
  {
    s[..|s| - 1]
  }

  /** The last n elements, or all if there are fewer. */
  function LastN<T>(s: seq<T>, n: nat): seq<T> {
    if |s| <= n then s else s[|s| - n..]
  }

  lemma FrontOfPrefix<T>(s: seq<T>, i: nat)
    requires i < |s|
    ensures Front(s[..i + 1]) == s[..i] && Last(s[..i + 1]) == s[i]
  {
  }
}
