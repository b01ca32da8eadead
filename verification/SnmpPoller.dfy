/** The gateway poller (local/snmp_poller.py). The next hop and the link states of a poll are arbitrary inputs. */
module SnmpPoller {
  import opened Common

  /** One entry of wan_gateways: a WAN name and the address of its gateway. */
  datatype Gateway = Gateway(name: string, ip: string)

  type Gateways = seq<Gateway>

  /** wan_gateways is a dictionary: a name occurs once. */
  predicate DistinctNames(gws: Gateways) {
    forall i, j | 0 <= i < j < |gws| :: gws[i].name != gws[j].name
  }

  /** What one poll learns, and when it started. */
  datatype Poll = Poll(now: real, nextHop: Option<string>, links: map<string, bool>)

  // ----- which WAN is active -----

  /** From gateway address to WAN name: of two entries with one address the later one stays. */
  function ReverseMap(gws: Gateways): map<string, string> {
    if gws == [] then map[] else ReverseMap(Front(gws))[Last(gws).ip := Last(gws).name]
  }

  /** The name the reverse map has for the next hop, if there is a next hop and it is not empty. */
  function ActiveWan(gws: Gateways, nextHop: Option<string>): Option<string> {
    if nextHop.Some? && nextHop.value != "" && nextHop.value in ReverseMap(gws)
    then Some(ReverseMap(gws)[nextHop.value]) else None
  }

  /** WAN number k is the last one in configuration order whose gateway is the next hop. */
  predicate IsActive(gws: Gateways, nextHop: Option<string>, k: int) {
    && 0 <= k < |gws|
    && nextHop.Some? && nextHop.value != "" && gws[k].ip == nextHop.value
    && forall j | k < j < |gws| :: gws[j].ip != nextHop.value
  }

  lemma {:induction false} ReverseMapKeepsLast(gws: Gateways, ip: string)
    ensures ip in ReverseMap(gws) <==> exists k :: 0 <= k < |gws| && gws[k].ip == ip
    ensures forall k | 0 <= k < |gws| && gws[k].ip == ip && (forall j | k < j < |gws| :: gws[j].ip != ip) ::
              ReverseMap(gws)[ip] == gws[k].name
  {
    if gws != [] {
      ReverseMapKeepsLast(Front(gws), ip);
      if k :| 0 <= k < |gws| && gws[k].ip == ip {
        if k < |gws| - 1 {
          assert Front(gws)[k].ip == ip;
        }
      }
      forall k | 0 <= k < |gws| && gws[k].ip == ip && (forall j | k < j < |gws| :: gws[j].ip != ip)
        ensures ReverseMap(gws)[ip] == gws[k].name
      {
        if k < |gws| - 1 {
          assert gws[|gws| - 1].ip != ip;
          assert Front(gws)[k] == gws[k];
        }
      }
    }
  }

  /** The newest position with the address, if there is one. */
  lemma {:induction false} LastPosition(gws: Gateways, ip: string) returns (k: int)
    ensures -1 <= k < |gws| && (k >= 0 ==> gws[k].ip == ip) && forall j | k < j < |gws| :: gws[j].ip != ip
  {
    k := |gws| - 1;
    while k >= 0 && gws[k].ip != ip
      invariant -1 <= k < |gws| && forall j | k < j < |gws| :: gws[j].ip != ip
    {
      k := k - 1;
    }
  }

  /** The active WAN is the last in configuration order whose gateway is the next hop; there is none exactly when
      the next hop is absent, empty or no WAN's gateway. */
  lemma ActiveWanMeaning(gws: Gateways, nextHop: Option<string>, k: int)
    requires DistinctNames(gws) && 0 <= k < |gws|
    ensures ActiveWan(gws, nextHop) == Some(gws[k].name) <==> IsActive(gws, nextHop, k)
  {
    if nextHop.Some? {
      ReverseMapKeepsLast(gws, nextHop.value);
      var last := LastPosition(gws, nextHop.value);
    }
  }

  lemma NoActiveWan(gws: Gateways, nextHop: Option<string>)
    ensures ActiveWan(gws, nextHop).None? <==>
            nextHop.None? || nextHop.value == "" || forall k | 0 <= k < |gws| :: gws[k].ip != nextHop.value
    ensures ActiveWan(gws, nextHop).Some? ==> exists k :: IsActive(gws, nextHop, k)
  {
    if nextHop.Some? {
      ReverseMapKeepsLast(gws, nextHop.value);
      var last := LastPosition(gws, nextHop.value);
      assert ActiveWan(gws, nextHop).Some? ==> IsActive(gws, nextHop, last);
    }
  }

  // ----- states -----

  function StatusOf(gws: Gateways, p: Poll, k: nat): (status: Status)
    requires k < |gws|
    ensures status != Unknown
  {
    if Some(gws[k].name) == ActiveWan(gws, p.nextHop) then Up else Down
  }

  function NextState(gws: Gateways, last: map<string, WanState>, p: Poll, k: nat): WanState
    requires k < |gws|
  {
    var name, status := gws[k].name, StatusOf(gws, p, k);
    var since := if name in last && last[name].status == status then last[name].since else p.now;
    WanState(name, status, since, if name in p.links then Some(p.links[name]) else None)
  }

  /** The states of a poll, in configuration order. */
  function NextStates(gws: Gateways, last: map<string, WanState>, p: Poll): seq<WanState> {
    seq(|gws|, k requires 0 <= k < |gws| => NextState(gws, last, p, k))
  }

  /** The dictionary form of a list of states. */
  function ByName(states: seq<WanState>): map<string, WanState> {
    if states == [] then map[] else ByName(Front(states))[Last(states).iface := Last(states)]
  }

  /** The next hop is set but stands for no WAN (a WAN with an empty name counts as none). */
  predicate UnknownGateway(gws: Gateways, nextHop: Option<string>) {
    nextHop.Some? && nextHop.value != "" && ActiveWan(gws, nextHop) in {None, Some("")}
  }

  /** The unknown gateway that a poll leaves behind. */
  function NextUnknown(gws: Gateways, nextHop: Option<string>): Option<string> {
    if UnknownGateway(gws, nextHop) then nextHop else None
  }

  predicate WarnsAbout(gws: Gateways, lastUnknown: Option<string>, nextHop: Option<string>) {
    UnknownGateway(gws, nextHop) && nextHop != lastUnknown
  }

  class SnmpPoller {
    const wanGateways: Gateways
    const gatewayToWan: map<string, string>
    var lastStates: map<string, WanState>
    var lastUnknownGateway: Option<string>

    constructor (wanGateways: Gateways)
      ensures this.wanGateways == wanGateways && gatewayToWan == ReverseMap(wanGateways)
      ensures lastStates == map[] && lastUnknownGateway == None
    {
      this.wanGateways := wanGateways;
      gatewayToWan := ReverseMap(wanGateways);
      lastStates, lastUnknownGateway := map[], None;
    }

    /** poll(), with what the two awaits returned. */
    method PollOnce(p: Poll) returns (states: seq<WanState>, warned: bool)
      requires gatewayToWan == ReverseMap(wanGateways)
      modifies this
      ensures states == NextStates(wanGateways, old(lastStates), p)
      ensures lastStates == ByName(states)
      ensures lastUnknownGateway == NextUnknown(wanGateways, p.nextHop)
      ensures warned <==> WarnsAbout(wanGateways, old(lastUnknownGateway), p.nextHop)
    {
      var nextHopSet := p.nextHop.Some? && p.nextHop.value != "";
      var active: Option<string> := None;
      if nextHopSet && p.nextHop.value in gatewayToWan {
        active := Some(gatewayToWan[p.nextHop.value]);
      }
      warned := false;
      if nextHopSet && (active.None? || active.value == "") {
        if p.nextHop != lastUnknownGateway {
          warned := true;
          lastUnknownGateway := p.nextHop;
        }
      } else {
        lastUnknownGateway := None;
      }

      states := [];
      var byName: map<string, WanState> := map[];
      for k := 0 to |wanGateways|
        invariant |states| == k && byName == ByName(states)
        invariant forall j | 0 <= j < k :: states[j] == NextState(wanGateways, lastStates, p, j)
        invariant lastStates == old(lastStates)
      {
        var name := wanGateways[k].name;
        var status := if Some(name) == active then Up else Down;
        var since: real;
        if name in lastStates && lastStates[name].status == status {
          since := lastStates[name].since;
        } else {
          since := p.now;
        }
        var state := WanState(name, status, since, if name in p.links then Some(p.links[name]) else None);
        assert Front(states + [state]) == states;
        states, byName := states + [state], byName[name := state];
      }
      lastStates := byName;
    }
  }

  // ----- runs of polls -----

  type History = seq<Poll>

  /** The states the newest poll returned. */
  function StatesAfter(gws: Gateways, h: History): (states: seq<WanState>)
    ensures h != [] ==> |states| == |gws|
  {
    if h == [] then [] else NextStates(gws, ByName(StatesAfter(gws, Front(h))), Last(h))
  }

  lemma {:induction false} ByNameAt(states: seq<WanState>, k: nat)
    requires k < |states| && forall i, j | 0 <= i < j < |states| :: states[i].iface != states[j].iface
    ensures states[k].iface in ByName(states) && ByName(states)[states[k].iface] == states[k]
  {
    if k < |states| - 1 {
      ByNameAt(Front(states), k);
      assert Front(states)[k] == states[k];
    }
  }

  /** The link state of a WAN is what the poll learned about it, and nothing if it learned nothing. */
  lemma LinkIsLearned(gws: Gateways, h: History, k: nat)
    requires DistinctNames(gws) && h != [] && k < |gws|
    ensures |StatesAfter(gws, h)| == |gws|
    ensures StatesAfter(gws, h)[k].linkUp.Some? <==> gws[k].name in Last(h).links
    ensures gws[k].name in Last(h).links ==> StatesAfter(gws, h)[k].linkUp == Some(Last(h).links[gws[k].name])
  {
  }

  lemma StatesShape(gws: Gateways, h: History, k: nat)
    requires DistinctNames(gws) && h != [] && k < |gws|
    ensures |StatesAfter(gws, h)| == |gws|
    ensures forall j | 0 <= j < |gws| :: StatesAfter(gws, h)[j].iface == gws[j].name
    ensures StatesAfter(gws, h)[k].status == StatusOf(gws, Last(h), k)
    ensures gws[k].name in ByName(StatesAfter(gws, h))
    ensures ByName(StatesAfter(gws, h))[gws[k].name] == StatesAfter(gws, h)[k]
  {
    ByNameAt(StatesAfter(gws, h), k);
  }

  /** At most one WAN is up after a poll: the active one, if there is any. */
  lemma UpIsActive(gws: Gateways, h: History, k: nat)
    requires DistinctNames(gws) && h != [] && k < |gws|
    ensures |StatesAfter(gws, h)| == |gws| && StatesAfter(gws, h)[k].status in {Up, Down}
    ensures StatesAfter(gws, h)[k].status == Up <==> IsActive(gws, Last(h).nextHop, k)
  {
    StatesShape(gws, h, k);
    ActiveWanMeaning(gws, Last(h).nextHop, k);
  }

  /** Poll number j is the first of the unbroken row of polls, up to the newest, that saw WAN k as it is now. */
  predicate IsBlockStart(gws: Gateways, h: History, k: nat, j: nat)
    requires k < |gws|
  {
    && j < |h|
    && (forall i | j <= i < |h| :: StatusOf(gws, h[i], k) == StatusOf(gws, Last(h), k))
    && (j > 0 ==> StatusOf(gws, h[j - 1], k) != StatusOf(gws, Last(h), k))
  }

  /** `since` is the time of the first poll of the current block of equal statuses. */
  lemma {:induction false} SinceIsBlockStart(gws: Gateways, h: History, k: nat) returns (j: nat)
    requires DistinctNames(gws) && h != [] && k < |gws|
    ensures |StatesAfter(gws, h)| == |gws|
    ensures IsBlockStart(gws, h, k, j) && StatesAfter(gws, h)[k].since == h[j].now
  {
    StatesShape(gws, h, k);
    var before := Front(h);
    if before == [] {
      j := 0;
    } else {
      StatesShape(gws, before, k);
      assert Last(before) == h[|h| - 2];
      if StatusOf(gws, Last(before), k) == StatusOf(gws, Last(h), k) {
        j := SinceIsBlockStart(gws, before, k);
        assert before[j] == h[j];
        forall i | j <= i < |h| ensures StatusOf(gws, h[i], k) == StatusOf(gws, Last(h), k) {
          if i < |h| - 1 {
            assert before[i] == h[i];
          }
        }
        assert j > 0 ==> before[j - 1] == h[j - 1];
      } else {
        j := |h| - 1;
      }
    }
  }

  lemma BlockStartUnique(gws: Gateways, h: History, k: nat, i: nat, j: nat)
    requires k < |gws| && IsBlockStart(gws, h, k, i) && IsBlockStart(gws, h, k, j)
    ensures i == j
  {
  }

  // ----- the warning about an unknown gateway -----

  /** A gateway is unknown when it is there and not empty, and no WAN with a name is the last one that has it. */
  lemma UnknownMeaning(gws: Gateways, nextHop: Option<string>)
    requires DistinctNames(gws)
    ensures UnknownGateway(gws, nextHop) <==>
            && nextHop.Some? && nextHop.value != ""
            && forall k | 0 <= k < |gws| && IsActive(gws, nextHop, k) :: gws[k].name == ""
  {
    NoActiveWan(gws, nextHop);
    forall k | 0 <= k < |gws| && IsActive(gws, nextHop, k) ensures ActiveWan(gws, nextHop) == Some(gws[k].name) {
      ActiveWanMeaning(gws, nextHop, k);
    }
    hide ActiveWan;
  }

  /** _last_unknown_gateway after a run of polls. */
  function UnknownAfter(gws: Gateways, h: History): Option<string> {
    if h == [] then None else NextUnknown(gws, Last(h).nextHop)
  }

  /** The newest poll warns. */
  predicate Warns(gws: Gateways, h: History)
    requires h != []
  {
    WarnsAbout(gws, UnknownAfter(gws, Front(h)), Last(h).nextHop)
  }

  /** A warning is given exactly when the next hop is unknown and not the one of the poll before:
      once for every row of polls with the same unknown gateway. */
  lemma WarnsOncePerRow(gws: Gateways, h: History)
    requires h != []
    ensures Warns(gws, h) <==>
            UnknownGateway(gws, Last(h).nextHop) && (|h| == 1 || h[|h| - 2].nextHop != Last(h).nextHop)
  {
  }
}
