/** Whole runs of the local monitor: the poller's and the engine's records agree, and what the heartbeats show. */
module MonitorRuns {
  import opened Common
  import opened SnmpPoller
  import opened AlertEngine
  import opened LocalMonitor
  import AlertRuns

  // ----- the history of a run -----

  /** The polls that returned. */
  ghost function Polls(c: Config, run: Run): History
    requires IsRun(c, run)
  {
    if run == [] then []
    else match Last(run)
      case PollReturned(nextHop, links) =>
        Polls(c, Front(run)) + [Poll(After(c, Front(run)).place.start, nextHop, links)]
      case _ => Polls(c, Front(run))
  }

  /** The states handed to the engine. */
  ghost function Observed(c: Config, run: Run): AlertRuns.Run
    requires IsRun(c, run)
  {
    if run == [] then []
    else match Last(run)
      case StateProcessed(now) => Observed(c, Front(run)) + [NextObservation(After(c, Front(run)), now)]
      case _ => Observed(c, Front(run))
  }

  /** Every alert ever raised, by polls and by syslog events. */
  ghost function Emitted(c: Config, run: Run): seq<Alert>
    requires IsRun(c, run)
  {
    if run == [] then [] else Emitted(c, Front(run)) + AlertsOf(After(c, Front(run)), Last(run))
  }

  /** For each WAN the number of the newest poll whose state the engine has processed, or -1. */
  ghost function Seen(c: Config, run: Run): (seen: seq<int>)
    requires IsRun(c, run)
    ensures |seen| == |c.gateways|
  {
    if run == [] then seq(|c.gateways|, _ => -1)
    else
      var before, place := Seen(c, Front(run)), After(c, Front(run)).place;
      if Last(run).StateProcessed? && place.next < |before| then before[place.next := |Polls(c, Front(run))| - 1]
      else before
  }

  /** The loop is inside a pass over the states of the newest poll. */
  predicate InPass(place: Place) {
    place.Processing? || place.Sending?
  }

  /** How one event moves the place of the loop. */
  predicate Moves(before: Place, e: Event, after: Place) {
    match e
    case PassBegins(_) => before.Asleep? && after.Polling?
    case PollReturned(_, _) => before.Polling? && after.Processing? && after.next == 0
    case StateProcessed(_) =>
      && before.Processing? && InPass(after) && before.next < |before.states|
      && after.next == before.next + 1 && after.states == before.states
    case SendReturned =>
      && before.Sending? && after.Processing?
      && after.next == before.next && after.states == before.states
    case PassRaised => (before.Polling? || before.Sending?) && after.Asleep?
    case PassEnds => before.Processing? && before.next == |before.states| && after.Asleep?
    case SyslogReceived(_, _) => after == before
  }

  lemma StepMoves(c: Config, run: Run)
    requires run != [] && IsRun(c, run)
    ensures IsRun(c, Front(run)) && Moves(After(c, Front(run)).place, Last(run), After(c, run).place)
  {
    hide Observe, NextStates, ByName, AlertFor, SyslogAlerts, FastPolling, LastN;
  }

  lemma StepHistory(c: Config, run: Run)
    requires run != [] && IsRun(c, run)
    ensures |Polls(c, run)| == |Polls(c, Front(run))| + (if Last(run).PollReturned? then 1 else 0)
    ensures !Last(run).PollReturned? ==> Polls(c, run) == Polls(c, Front(run))
    ensures !Last(run).StateProcessed? ==> Seen(c, run) == Seen(c, Front(run))
    ensures Last(run).StateProcessed? ==>
              var seen, place := Seen(c, Front(run)), After(c, Front(run)).place;
              Seen(c, run) == if place.next < |seen| then seen[place.next := |Polls(c, run)| - 1] else seen
  {
    hide After, Enabled, IsRun;
  }

  /** The two trackers follow the history: the poller holds the newest poll, the engine its observations,
      and a pass walks the states of the newest poll. */
  lemma {:induction false} TrackersFollow(c: Config, run: Run)
    requires IsRun(c, run)
    ensures var s, h := After(c, run), Polls(c, run);
      && s.engine == AlertRuns.After(Observed(c, run))
      && s.lastStates == ByName(StatesAfter(c.gateways, h))
      && (InPass(s.place) ==> h != [] && s.place.states == StatesAfter(c.gateways, h) && s.place.next <= |c.gateways|)
  {
    if run != [] {
      var before, e := Front(run), Last(run);
      TrackersFollow(c, before);
      hide Observe, NextStates, ByName, AlertFor, SyslogAlerts, FastPolling, LastN;
      if e.PollReturned? {
        assert Front(Polls(c, run)) == Polls(c, before);
      } else if e.StateProcessed? {
        assert Front(Observed(c, run)) == Observed(c, before);
      }
    }
  }

  // ----- heartbeats under interleaving -----

  /** Where the engine stands: during a pass it has processed the newest poll up to the next state and not beyond. */
  predicate SeenFits(seen: seq<int>, polls: nat, place: Place) {
    && (forall k | 0 <= k < |seen| :: -1 <= seen[k] < polls)
    && (forall j, k | 0 <= j < k < |seen| :: seen[j] >= seen[k])
    && (InPass(place) ==>
          && (forall k | 0 <= k < |seen| && k < place.next :: seen[k] == polls - 1)
          && (forall k | 0 <= k < |seen| && k >= place.next :: seen[k] < polls - 1))
  }

  /** The newest polls processed never increase in configuration order, whichever passes an exception cuts short. */
  lemma {:induction false} SeenFalls(c: Config, run: Run)
    requires IsRun(c, run)
    ensures SeenFits(Seen(c, run), |Polls(c, run)|, After(c, run).place)
  {
    if run != [] {
      var before := Front(run);
      SeenFalls(c, before);
      TrackersFollow(c, before);
      StepMoves(c, run);
      StepHistory(c, run);
      hide After, IsRun, Polls, Seen, StatesAfter, ByName;
      SeenFitsStep(Seen(c, before), |Polls(c, before)|, After(c, before).place, Last(run),
                   Seen(c, run), |Polls(c, run)|, After(c, run).place);
    }
  }

  lemma SeenFitsStep(seen: seq<int>, polls: nat, before: Place, e: Event, seen': seq<int>, polls': nat, after: Place)
    requires SeenFits(seen, polls, before) && Moves(before, e, after)
    requires InPass(before) ==> polls > 0 && |before.states| == |seen|
    requires polls' == polls + (if e.PollReturned? then 1 else 0)
    requires seen' == if e.StateProcessed? then seen[before.next := polls - 1] else seen
    ensures SeenFits(seen', polls', after)
  {
  }

  /** The state of WAN k in poll number i. */
  function StateIn(gws: Gateways, h: History, i: nat, k: nat): WanState
    requires i < |h| && k < |gws|
  {
    StatesAfter(gws, h[..i + 1])[k]
  }

  /** The snapshot holds exactly the WANs seen, each with its state in the newest poll processed for it. */
  predicate Shows(gws: Gateways, h: History, seen: seq<int>, snapshot: map<string, WanState>)
    requires |seen| == |gws| && forall k | 0 <= k < |seen| :: -1 <= seen[k] < |h|
  {
    && (forall k | 0 <= k < |gws| :: gws[k].name in snapshot <==> seen[k] >= 0)
    && (forall k | 0 <= k < |gws| && seen[k] >= 0 :: snapshot[gws[k].name] == StateIn(gws, h, seen[k], k))
    && (forall name | name in snapshot :: exists k :: 0 <= k < |gws| && gws[k].name == name)
  }

  /** At every point of every run a heartbeat shows each WAN in the state of the newest poll processed for it;
      by SeenFalls those polls never get newer in configuration order. */
  lemma {:induction false} SnapshotShows(c: Config, run: Run)
    requires IsRun(c, run) && DistinctNames(c.gateways)
    ensures SeenFits(Seen(c, run), |Polls(c, run)|, After(c, run).place)
    ensures Shows(c.gateways, Polls(c, run), Seen(c, run), PayloadOf(After(c, run)).wanStates)
  {
    SeenFalls(c, run);
    if run != [] {
      var before, e := Front(run), Last(run);
      SnapshotShows(c, before);
      var h := Polls(c, before);
      if e.StateProcessed? {
        TrackersFollow(c, before);
        ShowsOneMore(c, run);
      } else {
        assert After(c, run).engine == After(c, before).engine && Seen(c, run) == Seen(c, before);
        if e.PollReturned? {
          LongerHistory(c.gateways, h, Last(Polls(c, run)), Seen(c, run), After(c, run).engine.previous);
        }
      }
    }
  }

  lemma LongerHistory(gws: Gateways, h: History, p: Poll, seen: seq<int>, snapshot: map<string, WanState>)
    requires |seen| == |gws| && forall k | 0 <= k < |seen| :: -1 <= seen[k] < |h|
    requires Shows(gws, h, seen, snapshot)
    ensures Shows(gws, h + [p], seen, snapshot)
  {
    forall k | 0 <= k < |gws| && seen[k] >= 0 ensures snapshot[gws[k].name] == StateIn(gws, h + [p], seen[k], k) {
      assert (h + [p])[..seen[k] + 1] == h[..seen[k] + 1];
    }
  }

  lemma ShowsUpdate(gws: Gateways, h: History, seen: seq<int>, snapshot: map<string, WanState>, k: nat, state: WanState)
    requires h != [] && DistinctNames(gws) && k < |gws| && state == StateIn(gws, h, |h| - 1, k)
    requires |seen| == |gws| && forall j | 0 <= j < |seen| :: -1 <= seen[j] < |h|
    requires Shows(gws, h, seen, snapshot)
    ensures Shows(gws, h, seen[k := |h| - 1], snapshot[gws[k].name := state])
  {
    hide StateIn;
  }

  lemma ShowsOneMore(c: Config, run: Run)
    requires run != [] && IsRun(c, run) && DistinctNames(c.gateways) && Last(run).StateProcessed?
    requires SeenFits(Seen(c, Front(run)), |Polls(c, Front(run))|, After(c, Front(run)).place)
    requires SeenFits(Seen(c, run), |Polls(c, run)|, After(c, run).place)
    requires Shows(c.gateways, Polls(c, Front(run)), Seen(c, Front(run)), After(c, Front(run)).engine.previous)
    requires var s, h := After(c, Front(run)), Polls(c, Front(run));
      h != [] && s.place.states == StatesAfter(c.gateways, h) && s.place.next <= |c.gateways|
    ensures Shows(c.gateways, Polls(c, run), Seen(c, run), After(c, run).engine.previous)
  {
    var s, h, gws := After(c, Front(run)), Polls(c, Front(run)), c.gateways;
    var k, seen := s.place.next, Seen(c, Front(run));
    hide StatesAfter, AlertFor, Shows, NextStates, FastPolling, LastN;
    assert h[..|h|] == h;
    StatesShape(gws, h, k);
    ShowsUpdate(gws, h, seen, s.engine.previous, k, s.place.states[k]);
  }

  // ----- no exceptions: a cut between two polls -----

  predicate NothingRaises(run: Run) {
    forall i | 0 <= i < |run| :: !run[i].PassRaised?
  }

  lemma NothingRaisedBefore(run: Run)
    requires run != [] && NothingRaises(run)
    ensures NothingRaises(Front(run)) && !Last(run).PassRaised?
  {
    forall i | 0 <= i < |Front(run)| ensures !Front(run)[i].PassRaised? {
      assert Front(run)[i] == run[i];
    }
  }

  /** The engine has processed the first `cut` states of poll number `newest` and for the others the poll before. */
  predicate IsCut(seen: seq<int>, newest: int, cut: int) {
    forall k | 0 <= k < |seen| :: seen[k] == if k < cut then newest else newest - 1
  }

  /** How far the newest poll has been processed. */
  function CutOf(place: Place, width: nat): nat {
    if InPass(place) then place.next else width
  }

  /** Without exceptions the engine stands at a cut between the two newest polls, and between passes at the newest. */
  lemma {:induction false} SeenIsCut(c: Config, run: Run)
    requires IsRun(c, run) && NothingRaises(run)
    ensures IsCut(Seen(c, run), |Polls(c, run)| - 1, CutOf(After(c, run).place, |c.gateways|))
  {
    if run != [] {
      var before := Front(run);
      NothingRaisedBefore(run);
      SeenIsCut(c, before);
      TrackersFollow(c, before);
      StepMoves(c, run);
      StepHistory(c, run);
      hide After, IsRun, Polls, Seen, StatesAfter, ByName;
    }
  }

  /** WAN k is up in the snapshot of a heartbeat. */
  ghost predicate ShownUp(c: Config, run: Run, k: nat)
    requires k < |c.gateways|
  {
    var snapshot := PayloadOf(After(c, run)).wanStates;
    c.gateways[k].name in snapshot && snapshot[c.gateways[k].name].status == Up
  }

  /** Two WANs shown up come from different polls. */
  lemma UpsFromDifferentPolls(c: Config, run: Run, j: nat, k: nat)
    requires IsRun(c, run) && DistinctNames(c.gateways) && j < k < |c.gateways|
    requires ShownUp(c, run, j) && ShownUp(c, run, k)
    ensures Seen(c, run)[j] > Seen(c, run)[k] >= 0
  {
    SnapshotShows(c, run);
    hide After, Seen, Polls, IsRun, Shows, StateIn, StatesAfter;
    var h, seen, snapshot := Polls(c, run), Seen(c, run), PayloadOf(After(c, run)).wanStates;
    ShownState(c.gateways, h, seen, snapshot, j);
    ShownState(c.gateways, h, seen, snapshot, k);
    assert seen[j] >= seen[k];
    if seen[j] == seen[k] {
      OneUp(c.gateways, h, seen[j], j, k);
    }
  }

  lemma ShownState(gws: Gateways, h: History, seen: seq<int>, snapshot: map<string, WanState>, k: nat)
    requires |seen| == |gws| && forall i | 0 <= i < |seen| :: -1 <= seen[i] < |h|
    requires Shows(gws, h, seen, snapshot) && k < |gws| && gws[k].name in snapshot
    ensures seen[k] >= 0 && snapshot[gws[k].name] == StateIn(gws, h, seen[k], k)
  {
    hide StateIn;
  }

  /** No poll finds two WANs up. */
  lemma OneUp(gws: Gateways, h: History, i: nat, j: nat, k: nat)
    requires DistinctNames(gws) && j < k < |gws| && i < |h|
    ensures !(StateIn(gws, h, i, j).status == Up && StateIn(gws, h, i, k).status == Up)
  {
    hide StatesAfter;
    UpIsActive(gws, h[..i + 1], j);
    UpIsActive(gws, h[..i + 1], k);
  }

  /** Without exceptions a heartbeat never shows three WANs up, wherever in a pass it is built. */
  lemma AtMostTwoShownUp(c: Config, run: Run, i: nat, j: nat, k: nat)
    requires IsRun(c, run) && DistinctNames(c.gateways) && NothingRaises(run) && i < j < k < |c.gateways|
    ensures !(ShownUp(c, run, i) && ShownUp(c, run, j) && ShownUp(c, run, k))
  {
    hide ShownUp, After, IsRun;
    if ShownUp(c, run, i) && ShownUp(c, run, j) && ShownUp(c, run, k) {
      UpsFromDifferentPolls(c, run, i, j);
      UpsFromDifferentPolls(c, run, j, k);
      SeenIsCut(c, run);
    }
  }

  /** The engine has processed the newest poll completely. */
  ghost predicate Settled(c: Config, run: Run)
    requires IsRun(c, run)
  {
    Polls(c, run) != [] && forall k | 0 <= k < |c.gateways| :: Seen(c, run)[k] == |Polls(c, run)| - 1
  }

  /** A completed pass settles the run, whatever happened before. */
  lemma CompletedPassSettles(c: Config, run: Run)
    requires run != [] && IsRun(c, run) && Last(run).PassEnds?
    ensures Settled(c, run)
  {
    hide Observe, NextStates, ByName, AlertFor, FastPolling, LastN, StatesAfter;
    TrackersFollow(c, Front(run));
    SeenFalls(c, Front(run));
    assert After(c, Front(run)).place.next == |c.gateways|;
    assert Seen(c, run) == Seen(c, Front(run)) && Polls(c, run) == Polls(c, Front(run));
  }

  /** After a completed pass a heartbeat shows the newest poll exactly. */
  lemma {:induction false} SettledSnapshot(c: Config, run: Run)
    requires IsRun(c, run) && DistinctNames(c.gateways) && Settled(c, run)
    ensures PayloadOf(After(c, run)).wanStates == ByName(StatesAfter(c.gateways, Polls(c, run)))
  {
    SnapshotShows(c, run);
    hide After, Seen, Polls, IsRun, Shows;
    ShowsNewest(c.gateways, Polls(c, run), Seen(c, run), PayloadOf(After(c, run)).wanStates);
  }

  lemma ShowsNewest(gws: Gateways, h: History, seen: seq<int>, snapshot: map<string, WanState>)
    requires h != [] && DistinctNames(gws) && |seen| == |gws| && forall k | 0 <= k < |seen| :: seen[k] == |h| - 1
    requires Shows(gws, h, seen, snapshot)
    ensures snapshot == ByName(StatesAfter(gws, h))
  {
    var states := StatesAfter(gws, h);
    hide StatesAfter, ByName, Shows, StateIn;
    forall name ensures name in snapshot <==> name in ByName(states) {
      if name in snapshot {
        var k := ShownKey(gws, h, seen, snapshot, name);
      }
      if name in ByName(states) {
        var k := ByNameKey(states, name);
        StatesShape(gws, h, k);
        ShownValue(gws, h, seen, snapshot, k);
      }
    }
    forall name | name in snapshot ensures snapshot[name] == ByName(states)[name] {
      var k := ShownKey(gws, h, seen, snapshot, name);
    }
  }

  lemma ShownValue(gws: Gateways, h: History, seen: seq<int>, snapshot: map<string, WanState>, k: nat)
    requires h != [] && DistinctNames(gws) && |seen| == |gws| && forall i | 0 <= i < |seen| :: seen[i] == |h| - 1
    requires Shows(gws, h, seen, snapshot) && k < |gws|
    ensures var name, states := gws[k].name, ByName(StatesAfter(gws, h));
      name in snapshot && name in states && snapshot[name] == states[name]
  {
    StatesShape(gws, h, k);
    assert h[..|h|] == h;
    hide ByName, StatesAfter;
  }

  lemma ShownKey(gws: Gateways, h: History, seen: seq<int>, snapshot: map<string, WanState>, name: string)
    returns (k: nat)
    requires h != [] && DistinctNames(gws) && |seen| == |gws| && forall i | 0 <= i < |seen| :: seen[i] == |h| - 1
    requires Shows(gws, h, seen, snapshot) && name in snapshot
    ensures k < |gws| && gws[k].name == name
    ensures name in ByName(StatesAfter(gws, h)) && snapshot[name] == ByName(StatesAfter(gws, h))[name]
  {
    k :| 0 <= k < |gws| && gws[k].name == name;
    ShownValue(gws, h, seen, snapshot, k);
    hide ByName, StatesAfter;
  }

  lemma {:induction false} ByNameKey(states: seq<WanState>, name: string) returns (k: nat)
    requires name in ByName(states)
    ensures k < |states| && states[k].iface == name
  {
    if Last(states).iface == name {
      k := |states| - 1;
    } else {
      k := ByNameKey(Front(states), name);
    }
  }

  // ----- recent events -----

  predicate IsSuffix(part: seq<Alert>, whole: seq<Alert>) {
    |part| <= |whole| && part == whole[|whole| - |part|..]
  }

  lemma SuffixGrows(part: seq<Alert>, whole: seq<Alert>, more: seq<Alert>)
    requires IsSuffix(part, whole)
    ensures IsSuffix(part + more, whole + more)
  {
    var n := |whole| - |part|;
    assert (whole + more)[n..] == whole[n..] + more;
  }

  lemma StepRecent(c: Config, run: Run)
    requires run != [] && IsRun(c, run)
    ensures Enabled(After(c, Front(run)), Last(run))
    ensures var s, alerts := After(c, Front(run)), AlertsOf(After(c, Front(run)), Last(run));
      && Emitted(c, run) == Emitted(c, Front(run)) + alerts
      && (Last(run).PassEnds? ==> alerts == [] && After(c, run).recent == LastN(s.recent, KEPT_EVENTS))
      && (!Last(run).PassEnds? ==> After(c, run).recent == s.recent + alerts)
  {
    hide Observe, NextStates, ByName, AlertFor, SyslogAlerts, FastPolling, LastN;
  }

  /** Trimmed and interleaved as it may be, the buffer is always a suffix of all alerts ever raised,
      with the last hundred of them at least. */
  lemma {:induction false} RecentIsSuffix(c: Config, run: Run)
    requires IsRun(c, run)
    ensures IsSuffix(After(c, run).recent, Emitted(c, run))
    ensures |After(c, run).recent| >= 100 || |After(c, run).recent| == |Emitted(c, run)|
  {
    if run != [] {
      var s, e := After(c, Front(run)), Last(run);
      RecentIsSuffix(c, Front(run));
      StepRecent(c, run);
      hide After, IsRun, Emitted, AlertsOf;
      if e.PassEnds? {
        assert Emitted(c, run) == Emitted(c, Front(run));
      } else {
        SuffixGrows(s.recent, Emitted(c, Front(run)), AlertsOf(s, e));
      }
    }
  }

  lemma LastOfSuffix(part: seq<Alert>, whole: seq<Alert>, n: nat)
    requires IsSuffix(part, whole) && (|part| >= n || part == whole)
    ensures LastN(part, n) == LastN(whole, n)
  {
    if |part| > n {
      assert whole[|whole| - |part|..][|part| - n..] == whole[|whole| - n..];
    }
  }

  /** So every heartbeat carries exactly the last ten alerts, or all of them if there are fewer. */
  lemma {:induction false} HeartbeatCarriesLastTen(c: Config, run: Run)
    requires IsRun(c, run)
    ensures var all := Emitted(c, run);
      PayloadOf(After(c, run)).recentEvents == if |all| <= 10 then all else all[|all| - 10..]
  {
    RecentIsSuffix(c, run);
    hide Emitted, After, IsRun;
    LastOfSuffix(After(c, run).recent, Emitted(c, run), SENT_EVENTS);
  }

  /** After a completed pass the buffer holds exactly the last hundred. */
  lemma CompletedPassBoundsRecent(c: Config, run: Run)
    requires run != [] && IsRun(c, run) && Last(run).PassEnds?
    ensures var all := Emitted(c, run);
      After(c, run).recent == if |all| <= 100 then all else all[|all| - 100..]
  {
    hide Emitted, After, AlertsOf, Enabled;
    RecentIsSuffix(c, Front(run));
    StepRecent(c, run);
    assert Emitted(c, run) == Emitted(c, Front(run));
    LastOfSuffix(After(c, Front(run)).recent, Emitted(c, run), KEPT_EVENTS);
  }

  /** The alerts raised since the last completed pass. */
  ghost function SincePass(c: Config, run: Run): seq<Alert>
    requires IsRun(c, run)
  {
    if run == [] || Last(run).PassEnds? then []
    else SincePass(c, Front(run)) + AlertsOf(After(c, Front(run)), Last(run))
  }

  /** How much the buffer holds at every point: the alerts since the last completed pass, and of those before
      the last hundred. A pass cut short trims nothing. */
  lemma {:induction false} RecentLength(c: Config, run: Run)
    requires IsRun(c, run)
    ensures |SincePass(c, run)| <= |Emitted(c, run)|
    ensures var older := |Emitted(c, run)| - |SincePass(c, run)|;
      |After(c, run).recent| == |SincePass(c, run)| + (if older <= 100 then older else 100)
  {
    if run != [] {
      RecentLength(c, Front(run));
      StepRecent(c, run);
      if Last(run).PassEnds? {
        CompletedPassBoundsRecent(c, run);
      }
      hide After, IsRun, Emitted, AlertsOf;
    }
  }

  // ----- which events can follow -----

  /** The states still to process in the pass under way; None outside of a pass and while its poll is out. */
  ghost function ToProcess(c: Config, run: Run): Option<int>
    requires IsRun(c, run)
  {
    if run == [] then None
    else match Last(run)
      case PollReturned(_, _) => Some(|c.gateways|)
      case StateProcessed(_) =>
        var before := ToProcess(c, Front(run));
        if before.Some? then Some(before.value - 1) else None
      case PassBegins(_) => None
      case PassRaised => None
      case PassEnds => None
      case _ => ToProcess(c, Front(run))
  }

  /** An alert of the poll loop is being sent. */
  ghost predicate SendOut(c: Config, run: Run)
    requires IsRun(c, run)
  {
    run != [] &&
    if Last(run).SyslogReceived? then SendOut(c, Front(run))
    else Last(run).StateProcessed? && AlertsOf(After(c, Front(run)), Last(run)) != []
  }

  /** The poll is out. */
  predicate PollOut(run: Run) {
    run != [] && if Last(run).SyslogReceived? then PollOut(Front(run)) else Last(run).PassBegins?
  }

  /** The order of events: a pass polls, then processes as many states as there are gateways, waiting for every alert to
      be sent, and ends; the poll and the sends may raise; a syslog event may come in at any time. */
  lemma WhatFollows(c: Config, run: Run, e: Event)
    requires IsRun(c, run)
    ensures var left, sending, polling := ToProcess(c, run), SendOut(c, run), PollOut(run);
      Enabled(After(c, run), e) <==>
      match e
      case PassBegins(_) => left.None? && !polling
      case PollReturned(_, _) => polling
      case StateProcessed(_) => left.Some? && left.value > 0 && !sending
      case SendReturned => sending
      case PassRaised => polling || sending
      case PassEnds => left == Some(0) && !sending
      case SyslogReceived(_, _) => true
  {
    PlaceMeaning(c, run);
    TrackersFollow(c, run);
    hide After, IsRun, ToProcess, SendOut, PollOut, Polls, Observed, AlertRuns.After;
  }

  lemma {:induction false} PlaceMeaning(c: Config, run: Run)
    requires IsRun(c, run)
    ensures var p := After(c, run).place;
      && (p.Polling? <==> PollOut(run))
      && (p.Sending? <==> SendOut(c, run))
      && (InPass(p) <==> ToProcess(c, run).Some?)
      && (InPass(p) ==> p.next + ToProcess(c, run).value == |c.gateways|)
  {
    if run != [] {
      PlaceMeaning(c, Front(run));
      StepMoves(c, run);
      if Last(run).StateProcessed? {
        SendsOnAlert(After(c, Front(run)), Last(run), c);
      }
      hide After, IsRun, AlertsOf;
    }
  }

  lemma SendsOnAlert(s: State, e: Event, c: Config)
    requires Enabled(s, e) && e.StateProcessed?
    ensures Next(c, s, e).place.Sending? <==> AlertsOf(s, e) != []
  {
    hide Observe, AlertFor, FastPolling;
  }
}
