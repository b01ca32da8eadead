/** How stale the engine's memory can get: the passes cut short bound the polls it stems from,
    and with them the WANs a heartbeat shows up. */
module MonitorCuts {
  import opened Common
  import opened SnmpPoller
  import opened AlertEngine
  import opened LocalMonitor
  import opened MonitorRuns
  import opened MonitorAlerts

  /** The passes cut short at a send since the last completed pass. (A poll that raises leaves the engine as it is.) */
  ghost function Cuts(c: Config, run: Run): nat
    requires IsRun(c, run)
  {
    if run == [] || Last(run).PassEnds? then 0
    else Cuts(c, Front(run)) + (if Last(run).PassRaised? && After(c, Front(run)).place.Sending? then 1 else 0)
  }

  /** The polls the engine's memory stems from. */
  function Sources(seen: seq<int>): set<int> {
    set k | 0 <= k < |seen| && seen[k] >= 0 :: seen[k]
  }

  /** A pass that has processed a state adds its own poll. */
  function Fresh(place: Place): nat {
    if InPass(place) && place.next > 0 then 1 else 0
  }

  /** The engine's memory stems from at most one poll more than there were cuts, and inside a pass from one more. */
  lemma {:induction false} SourcesBound(c: Config, run: Run)
    requires IsRun(c, run)
    ensures |Sources(Seen(c, run))| <= Cuts(c, run) + 1 + Fresh(After(c, run).place)
  {
    if run == [] {
      assert Sources(Seen(c, run)) == {};
    } else {
      var before := Front(run);
      SourcesBound(c, before);
      SeenFalls(c, before);
      TrackersFollow(c, before);
      StepMoves(c, run);
      StepHistory(c, run);
      if Last(run).PassEnds? {
        CompletedPassSettles(c, run);
        SingleSource(Seen(c, run), |Polls(c, run)| - 1);
      } else {
        StepCuts(c, run);
        hide After, IsRun, Polls, Seen, Cuts, StatesAfter, ByName, Sources;
        SourcesStep(Seen(c, before), |Polls(c, before)|, After(c, before).place, Last(run), Seen(c, run),
                    After(c, run).place, Cuts(c, before), Cuts(c, run));
      }
    }
  }

  lemma StepCuts(c: Config, run: Run)
    requires run != [] && IsRun(c, run) && !Last(run).PassEnds?
    ensures Cuts(c, run) ==
            Cuts(c, Front(run)) + (if Last(run).PassRaised? && After(c, Front(run)).place.Sending? then 1 else 0)
  {
    hide After;
  }

  lemma SourcesStep(seen: seq<int>, polls: nat, before: Place, e: Event, seen': seq<int>, after: Place,
                    cuts: nat, cuts': nat)
    requires SeenFits(seen, polls, before) && Moves(before, e, after) && !e.PassEnds?
    requires InPass(before) ==> polls > 0 && |before.states| == |seen|
    requires seen' == if e.StateProcessed? then seen[before.next := polls - 1] else seen
    requires cuts' == cuts + (if e.PassRaised? && before.Sending? then 1 else 0)
    requires |Sources(seen)| <= cuts + 1 + Fresh(before)
    ensures |Sources(seen')| <= cuts' + 1 + Fresh(after)
  {
    if e.StateProcessed? {
      OneMoreSource(seen, before.next, polls - 1);
      if before.next > 0 {
        assert seen[0] == polls - 1;
        assert Sources(seen) + {polls - 1} == Sources(seen);
      }
    }
  }

  lemma OneMoreSource(seen: seq<int>, k: nat, i: int)
    requires k < |seen|
    ensures Sources(seen[k := i]) <= Sources(seen) + {i}
    ensures |Sources(seen[k := i])| <= |Sources(seen) + {i}| <= |Sources(seen)| + 1
  {
    var after := seen[k := i];
    forall v | v in Sources(after) ensures v in Sources(seen) + {i} {
      var j :| 0 <= j < |after| && after[j] == v && v >= 0;
      assert j != k ==> seen[j] == v;
    }
    Smaller(Sources(after), Sources(seen) + {i});
  }

  lemma {:induction false} Smaller<T>(a: set<T>, b: set<T>)
    requires a <= b
    ensures |a| <= |b|
  {
    if a != {} {
      var x := Member(a);
      Smaller(a - {x}, b - {x});
    }
  }

  lemma Member<T>(s: set<T>) returns (x: T)
    requires s != {}
    ensures x in s
  {
    x :| x in s;
  }

  lemma SingleSource(seen: seq<int>, i: int)
    requires forall k | 0 <= k < |seen| :: seen[k] == i
    ensures |Sources(seen)| <= 1
  {
    assert Sources(seen) <= {i};
    Smaller(Sources(seen), {i});
  }

  // ----- the WANs up in the engine's memory -----

  /** The WANs that are up in the newest polls processed for them. */
  function Ups(gws: Gateways, h: History, seen: seq<int>): set<int>
    requires |seen| == |gws|
  {
    set k | 0 <= k < |gws| && 0 <= seen[k] < |h| && StatusOf(gws, h[seen[k]], k) == Up
  }

  /** Some next hop makes WAN k active: its address is not empty and no later WAN has it too. */
  predicate CanBeActive(gws: Gateways, k: nat)
    requires k < |gws|
  {
    gws[k].ip != "" && forall j | k < j < |gws| :: gws[j].ip != gws[k].ip
  }

  /** The WANs among the first n that can be active, in configuration order. */
  function Candidates(gws: Gateways, n: nat): (s: seq<int>)
    requires n <= |gws|
    ensures forall k :: k in s <==> 0 <= k < n && CanBeActive(gws, k)
    ensures forall i, j | 0 <= i < j < |s| :: s[i] < s[j]
    ensures |s| <= n
  {
    if n == 0 then []
    else
      var before := Candidates(gws, n - 1);
      assert forall i | 0 <= i < |before| :: before[i] in before;
      before + (if CanBeActive(gws, n - 1) then [n - 1] else [])
  }

  /** How many WANs can be active: the number of different non-empty gateway addresses. */
  function Width(gws: Gateways): nat {
    |Candidates(gws, |gws|)|
  }

  function Elements(s: seq<int>): set<int> {
    set x | x in s
  }

  lemma {:induction false} ElementCount(s: seq<int>)
    ensures |Elements(s)| <= |s|
    ensures (forall i, j | 0 <= i < j < |s| :: s[i] < s[j]) ==> |Elements(s)| == |s|
  {
    if s != [] {
      ElementCount(Front(s));
      assert s == Front(s) + [Last(s)];
      assert Elements(s) == Elements(Front(s)) + {Last(s)};
    }
  }

  lemma CandidatesOnly(gws: Gateways, wans: set<int>)
    requires forall k | k in wans :: 0 <= k < |gws| && CanBeActive(gws, k)
    ensures |wans| <= Width(gws)
  {
    var all := Candidates(gws, |gws|);
    hide CanBeActive;
    forall k | k in wans ensures k in Elements(all) {
      assert k in all;
    }
    ElementCount(all);
    Smaller(wans, Elements(all));
  }

  lemma UpCanBeActive(gws: Gateways, p: Poll, k: nat)
    requires DistinctNames(gws) && k < |gws| && StatusOf(gws, p, k) == Up
    ensures CanBeActive(gws, k)
  {
    ActiveWanMeaning(gws, p.nextHop, k);
  }

  /** Each of them comes from a poll of its own. */
  lemma UpsHaveSources(gws: Gateways, h: History, seen: seq<int>)
    requires DistinctNames(gws) && |seen| == |gws|
    ensures |Ups(gws, h, seen)| <= |Sources(seen)| && |Ups(gws, h, seen)| <= Width(gws)
    ensures forall k | k in Ups(gws, h, seen) :: CanBeActive(gws, k)
  {
    var ups := Ups(gws, h, seen);
    forall j, k | j in ups && k in ups && seen[j] == seen[k] ensures j == k {
      var active := ActiveIndex(gws, h[seen[j]]);
    }
    forall k | k in ups ensures CanBeActive(gws, k) {
      UpCanBeActive(gws, h[seen[k]], k);
    }
    hide StatusOf, CanBeActive, DistinctNames;
    assert forall k | k in ups :: 0 <= k < |seen| && seen[k] in Sources(seen);
    Injective(ups, seen, Sources(seen));
    CandidatesOnly(gws, ups);
  }

  lemma {:induction false} Injective(ups: set<int>, seen: seq<int>, sources: set<int>)
    requires forall k | k in ups :: 0 <= k < |seen| && seen[k] in sources
    requires forall j, k | j in ups && k in ups && seen[j] == seen[k] :: j == k
    ensures |ups| <= |sources|
  {
    if ups != {} {
      var k := Member(ups);
      Injective(ups - {k}, seen, sources - {seen[k]});
    }
  }

  /** The WANs a heartbeat shows up. */
  ghost function ShownUps(c: Config, run: Run): set<int> {
    set k | 0 <= k < |c.gateways| && ShownUp(c, run, k)
  }

  lemma ShownUpsAreUps(c: Config, run: Run)
    requires IsRun(c, run) && DistinctNames(c.gateways)
    ensures ShownUps(c, run) == Ups(c.gateways, Polls(c, run), Seen(c, run))
  {
    SnapshotShows(c, run);
    hide After, IsRun, Polls, Seen, Shows;
    var gws, h, seen := c.gateways, Polls(c, run), Seen(c, run);
    forall k | 0 <= k < |gws| ensures k in ShownUps(c, run) <==> k in Ups(gws, h, seen) {
      UpInSnapshot(gws, h, seen, PayloadOf(After(c, run)).wanStates, k);
    }
  }

  lemma UpInSnapshot(gws: Gateways, h: History, seen: seq<int>, snapshot: map<string, WanState>, k: nat)
    requires DistinctNames(gws) && k < |gws| == |seen|
    requires (forall j | 0 <= j < |seen| :: -1 <= seen[j] < |h|) && Shows(gws, h, seen, snapshot)
    ensures gws[k].name in snapshot && snapshot[gws[k].name].status == Up <==>
            seen[k] >= 0 && StatusOf(gws, h[seen[k]], k) == Up
  {
    if seen[k] >= 0 {
      StatusIn(gws, h, seen[k], k);
    }
    hide StateIn, StatusOf, DistinctNames;
  }

  function Min(a: nat, b: nat): nat {
    if a <= b then a else b
  }

  /** A heartbeat shows at most one WAN more up than passes were cut short since the last completed one,
      inside a pass at most one more still, and never more than can be active at all. */
  lemma ShownUpsBound(c: Config, run: Run)
    requires IsRun(c, run) && DistinctNames(c.gateways)
    ensures |ShownUps(c, run)| <= Min(Width(c.gateways), Cuts(c, run) + 1 + Fresh(After(c, run).place))
  {
    SourcesBound(c, run);
    ShownUpsAreUps(c, run);
    hide After, IsRun, Polls, Seen, Cuts, Ups, Sources, ShownUps, Fresh, Width, CanBeActive;
    UpsHaveSources(c.gateways, Polls(c, run), Seen(c, run));
  }
}
