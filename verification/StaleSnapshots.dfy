/** The bounds on heartbeats and alerts after passes cut short are exact: runs that reach them. */
module StaleSnapshots {
  import opened Common
  import opened SnmpPoller
  import opened AlertEngine
  import opened LocalMonitor
  import opened MonitorRuns
  import opened MonitorAlerts
  import opened MonitorCuts
  import opened MonitorFailover
  import AlertRuns

  // ----- building a run event by event -----

  lemma Extend(c: Config, run: Run, e: Event)
    requires IsRun(c, run) && Enabled(After(c, run), e)
    ensures IsRun(c, run + [e]) && Front(run + [e]) == run && Last(run + [e]) == e
    ensures After(c, run + [e]) == Next(c, After(c, run), e)
    ensures SeenAtPoll(c, run + [e]) == if e.PollReturned? then Seen(c, run + [e]) else SeenAtPoll(c, run)
    ensures Cuts(c, run + [e]) ==
            if e.PassEnds? then 0
            else Cuts(c, run) + (if e.PassRaised? && After(c, run).place.Sending? then 1 else 0)
  {
    assert Front(run + [e]) == run;
    hide After, Enabled, Seen, Next;
  }

  /** A pass opens: the poll returns the given next hop. */
  lemma OpenPass(c: Config, run: Run, hop: Option<string>) returns (next: Run)
    requires IsRun(c, run) && After(c, run).place.Asleep?
    ensures IsRun(c, next) && After(c, next).place.Processing? && After(c, next).place.next == 0
    ensures |Polls(c, next)| == |Polls(c, run)| + 1 && Front(Polls(c, next)) == Polls(c, run)
    ensures Last(Polls(c, next)).nextHop == hop && Seen(c, next) == Seen(c, run)
    ensures SeenAtPoll(c, next) == Seen(c, run) && Cuts(c, next) == Cuts(c, run)
  {
    hide FastPolling, NextStates, ByName;
    var e1, e2 := PassBegins(0.0), PollReturned(hop, map[]);
    Extend(c, run, e1);
    Extend(c, run + [e1], e2);
    next := run + [e1] + [e2];
    StepHistory(c, run + [e1]);
    StepHistory(c, next);
    assert Front(Polls(c, next)) == Polls(c, run + [e1]);
    hide Seen, SeenAtPoll, Cuts, After, IsRun;
  }

  /** The loop stands before state number n of the newest poll, having processed all states from `from` on. */
  ghost predicate ReachedFrom(c: Config, run: Run, next: Run, from: nat, n: nat)
    requires IsRun(c, run)
  {
    && IsRun(c, next) && After(c, next).place.Processing? && After(c, next).place.next == n
    && Polls(c, next) == Polls(c, run) != []
    && SeenAtPoll(c, next) == SeenAtPoll(c, run) && Cuts(c, next) == Cuts(c, run)
    && forall k | 0 <= k < |c.gateways| ::
         Seen(c, next)[k] == if from <= k < n then |Polls(c, run)| - 1 else Seen(c, run)[k]
  }

  /** One more state, with its alert sent if it raises one. */
  lemma ProcessOne(c: Config, run: Run, k: nat) returns (next: Run)
    requires IsRun(c, run) && DistinctNames(c.gateways) && k < |c.gateways|
    requires After(c, run).place.Processing? && After(c, run).place.next == k
    ensures ReachedFrom(c, run, next, k, k + 1)
  {
    var e := StateProcessed(0.0);
    CanProcess(c, run, k);
    hide IsRun, Polls, Seen, SeenAtPoll, Cuts, After;
    Extend(c, run, e);
    next := run + [e];
    StepHistory(c, next);
    StepMoves(c, next);
    if After(c, next).place.Sending? {
      var sent := next;
      Extend(c, sent, SendReturned);
      next := sent + [SendReturned];
      StepHistory(c, next);
      StepMoves(c, next);
    }
  }

  lemma CanProcess(c: Config, run: Run, k: nat)
    requires IsRun(c, run) && k < |c.gateways| && After(c, run).place.Processing? && After(c, run).place.next == k
    ensures Enabled(After(c, run), StateProcessed(0.0)) && Polls(c, run) != []
  {
    TrackersFollow(c, run);
    hide After, IsRun, Polls, Observed, AlertRuns.After;
  }

  lemma {:induction false} ProcessUpTo(c: Config, run: Run, n: nat) returns (next: Run)
    requires IsRun(c, run) && DistinctNames(c.gateways) && n <= |c.gateways| && Polls(c, run) != []
    requires After(c, run).place.Processing? && After(c, run).place.next == 0
    ensures ReachedFrom(c, run, next, 0, n)
  {
    hide After, IsRun, Polls, Seen, SeenAtPoll, Cuts;
    if n == 0 {
      next := run;
    } else {
      var before := ProcessUpTo(c, run, n - 1);
      next := ProcessOne(c, before, n - 1);
    }
  }

  /** A pass over all states ends. */
  lemma ClosePass(c: Config, run: Run) returns (next: Run)
    requires IsRun(c, run) && After(c, run).place.Processing? && After(c, run).place.next == |c.gateways|
    ensures IsRun(c, next) && next != [] && Last(next) == PassEnds && Front(next) == run
    ensures After(c, next).place.Asleep? && Polls(c, next) == Polls(c, run) && Seen(c, next) == Seen(c, run)
    ensures SeenAtPoll(c, next) == SeenAtPoll(c, run) && Cuts(c, next) == 0
  {
    hide Observe, NextStates, ByName, AlertFor, SyslogAlerts, FastPolling, LastN, StatesAfter;
    TrackersFollow(c, run);
    Extend(c, run, PassEnds);
    next := run + [PassEnds];
    StepHistory(c, next);
    hide Seen, SeenAtPoll, Cuts;
  }

  /** A whole pass. */
  lemma FullPass(c: Config, run: Run, hop: Option<string>) returns (next: Run)
    requires IsRun(c, run) && DistinctNames(c.gateways) && After(c, run).place.Asleep?
    ensures IsRun(c, next) && next != [] && Last(next) == PassEnds && After(c, next).place.Asleep?
    ensures |Polls(c, next)| == |Polls(c, run)| + 1 && Front(Polls(c, next)) == Polls(c, run)
    ensures Last(Polls(c, next)).nextHop == hop
    ensures SeenAtPoll(c, next) == Seen(c, run) && Cuts(c, Front(next)) == Cuts(c, run) && Cuts(c, next) == 0
    ensures forall k | 0 <= k < |c.gateways| :: Seen(c, next)[k] == |Polls(c, run)|
  {
    hide After, IsRun, Polls, Seen, SeenAtPoll, Cuts, DistinctNames;
    var started := OpenPass(c, run, hop);
    var through := ProcessUpTo(c, started, |c.gateways|);
    next := ClosePass(c, through);
  }

  /** One more state: if the poll turns its WAN, the loop waits for the alert to be sent. */
  lemma AlertAt(c: Config, run: Run, k: nat) returns (next: Run)
    requires IsRun(c, run) && DistinctNames(c.gateways) && k < |c.gateways|
    requires After(c, run).place.Processing? && After(c, run).place.next == k
    ensures IsRun(c, next) && Polls(c, next) == Polls(c, run) != []
    ensures Seen(c, next) == Seen(c, run)[k := |Polls(c, run)| - 1] && Cuts(c, next) == Cuts(c, run)
    ensures Switched(c.gateways, Polls(c, run), Seen(c, run), k) ==> After(c, next).place.Sending?
  {
    hide *;
    var e := StateProcessed(0.0);
    CanProcess(c, run, k);
    Extend(c, run, e);
    next := run + [e];
    var o := StepObserves(c, next);
    OneSwitch(c.gateways, Polls(c, run), Seen(c, run), k, Observed(c, run), o);
    Reporting(AlertsOf(After(c, run), e));
    SendsIfAlert(c, After(c, run), e);
  }

  lemma SwitchedUp(gws: Gateways, h: History, seen: seq<int>, k: nat)
    requires h != [] && k < |gws| == |seen| && 0 <= seen[k] < |h|
    requires StatusOf(gws, h[seen[k]], k) == Down && StatusOf(gws, Last(h), k) == Up
    ensures Switched(gws, h, seen, k)
  {
    hide StatusOf;
  }

  lemma Reporting(alerts: seq<Alert>)
    ensures ReportsOf(alerts) != [] ==> alerts != []
  {
  }

  lemma SendsIfAlert(c: Config, s: State, e: Event)
    requires Enabled(s, e) && e.StateProcessed?
    ensures AlertsOf(s, e) != [] ==> Next(c, s, e).place.Sending?
  {
    hide Observe, AlertFor, FastPolling;
  }

  // ----- one cut pass after another -----

  /** WAN number i, counted from the end, of those that can be active. */
  function FromEnd(gws: Gateways, i: nat): (k: int)
    requires i < Width(gws)
    ensures 0 <= k < |gws| && CanBeActive(gws, k)
  {
    var all := Candidates(gws, |gws|);
    assert all[|all| - 1 - i] in all;
    all[|all| - 1 - i]
  }

  lemma FromEndFalls(gws: Gateways, i: nat, j: nat)
    requires i < j < Width(gws)
    ensures FromEnd(gws, j) < FromEnd(gws, i)
  {
  }

  /** Poll number i of the first m found the i-th WAN from the end active and is the newest processed for it. */
  predicate Stale(gws: Gateways, h: History, seen: seq<int>, m: nat) {
    && 0 < m <= Width(gws) && |seen| == |gws| && m <= |h|
    && (forall i | 0 <= i < m :: h[i].nextHop == Some(gws[FromEnd(gws, i)].ip))
    && (forall k | 0 <= k < |gws| :: 0 <= seen[k] < m)
    && (forall i | 0 <= i < m :: seen[FromEnd(gws, i)] == i)
  }

  lemma StatusAt(gws: Gateways, p: Poll, a: nat, k: nat)
    requires DistinctNames(gws) && a < |gws| && k < |gws| && CanBeActive(gws, a) && p.nextHop == Some(gws[a].ip)
    ensures StatusOf(gws, p, k) == if k == a then Up else Down
  {
    ActiveWanMeaning(gws, p.nextHop, k);
  }

  /** The last m WANs that can be active. */
  function LastOnes(gws: Gateways, m: nat): set<int>
    requires m <= Width(gws)
  {
    set i | 0 <= i < m :: FromEnd(gws, i)
  }

  lemma {:induction false} LastOnesCount(gws: Gateways, m: nat)
    requires m <= Width(gws)
    ensures |LastOnes(gws, m)| == m
  {
    hide FromEnd, Width;
    if m > 0 {
      LastOnesCount(gws, m - 1);
      forall i | 0 <= i < m - 1 ensures FromEnd(gws, i) != FromEnd(gws, m - 1) {
        FromEndFalls(gws, i, m - 1);
      }
      assert LastOnes(gws, m) == LastOnes(gws, m - 1) + {FromEnd(gws, m - 1)};
    }
  }

  /** Then exactly these m WANs are up in the engine's memory. */
  lemma StaleUps(gws: Gateways, h: History, seen: seq<int>, m: nat)
    requires DistinctNames(gws) && Stale(gws, h, seen, m)
    ensures Ups(gws, h, seen) == LastOnes(gws, m)
  {
    hide StatusOf, CanBeActive, DistinctNames, FromEnd, Width;
    forall k | 0 <= k < |gws| ensures k in Ups(gws, h, seen) <==> k in LastOnes(gws, m) {
      StatusAt(gws, h[seen[k]], FromEnd(gws, seen[k]), k);
    }
  }

  /** Between passes after m of them, all but the first cut short. */
  ghost predicate StaleRun(c: Config, run: Run, m: nat) {
    && IsRun(c, run) && After(c, run).place.Asleep? && |Polls(c, run)| == m
    && Stale(c.gateways, Polls(c, run), Seen(c, run), m) && Cuts(c, run) == m - 1
  }

  lemma FirstPass(c: Config) returns (run: Run)
    requires DistinctNames(c.gateways) && Width(c.gateways) > 0
    ensures StaleRun(c, run, 1)
  {
    assert IsRun(c, []) && After(c, []).place.Asleep? && Polls(c, []) == [];
    hide After, IsRun, Seen, Polls, Cuts, SeenAtPoll, DistinctNames, Width, FromEnd, Stale, CanBeActive;
    run := FullPass(c, [], Some(c.gateways[FromEnd(c.gateways, 0)].ip));
    StaleFirst(c.gateways, Polls(c, run), Seen(c, run));
  }

  lemma StaleFirst(gws: Gateways, h: History, seen: seq<int>)
    requires Width(gws) > 0 && |h| == 1 && Last(h).nextHop == Some(gws[FromEnd(gws, 0)].ip)
    requires |seen| == |gws| && forall k | 0 <= k < |gws| :: seen[k] == 0
    ensures Stale(gws, h, seen, 1)
  {
    hide FromEnd, Width, CanBeActive;
  }

  /** The next pass finds the WAN before active and waits to send its alert. */
  lemma NextAlert(c: Config, run: Run, m: nat) returns (next: Run)
    requires DistinctNames(c.gateways) && StaleRun(c, run, m) && m < Width(c.gateways)
    ensures IsRun(c, next) && After(c, next).place.Sending? && |Polls(c, next)| == m + 1
    ensures Stale(c.gateways, Polls(c, next), Seen(c, next), m + 1) && Cuts(c, next) == m - 1
  {
    hide After, IsRun, Seen, Polls, Cuts, SeenAtPoll, StatusOf, DistinctNames, FromEnd, Width, CanBeActive;
    var gws, g := c.gateways, FromEnd(c.gateways, m);
    var started := OpenPass(c, run, Some(gws[g].ip));
    var before := ProcessUpTo(c, started, g);
    var h, i := Polls(c, started), Seen(c, run)[g];
    assert h[i] == Polls(c, run)[i] && h[m] == Last(h);
    FromEndFalls(gws, i, m);
    StatusAt(gws, h[i], FromEnd(gws, i), g);
    StatusAt(gws, h[m], g, g);
    SwitchedUp(gws, h, Seen(c, before), g);
    next := AlertAt(c, before, g);
    StaleGrows(gws, Polls(c, run), h, Seen(c, run), Seen(c, next), m);
  }

  lemma StaleGrows(gws: Gateways, h: History, h': History, seen: seq<int>, seen': seq<int>, m: nat)
    requires Stale(gws, h, seen, m) && m < Width(gws) && |h| == m && |h'| == m + 1 && Front(h') == h
    requires Last(h').nextHop == Some(gws[FromEnd(gws, m)].ip) && |seen'| == |gws|
    requires forall k | 0 <= k < |gws| :: seen'[k] == if k <= FromEnd(gws, m) then m else seen[k]
    ensures Stale(gws, h', seen', m + 1)
  {
    hide CanBeActive;
    forall i | 0 <= i < m + 1
      ensures h'[i].nextHop == Some(gws[FromEnd(gws, i)].ip) && seen'[FromEnd(gws, i)] == i
    {
      if i < m {
        assert h'[i] == h[i];
        FromEndFalls(gws, i, m);
      }
    }
  }

  lemma {:induction false} ManyPasses(c: Config, m: nat) returns (run: Run)
    requires DistinctNames(c.gateways) && 0 < m <= Width(c.gateways)
    ensures StaleRun(c, run, m)
  {
    if m == 1 {
      run := FirstPass(c);
    } else {
      var before := ManyPasses(c, m - 1);
      var alerted := NextAlert(c, before, m - 1);
      Extend(c, alerted, PassRaised);
      run := alerted + [PassRaised];
      StepHistory(c, run);
      StepMoves(c, run);
      hide After, IsRun, Seen, Polls, Cuts, SeenAtPoll, Stale;
    }
  }

  // ----- how many WANs a heartbeat may show up -----

  lemma StaleShown(c: Config, run: Run, m: nat)
    requires IsRun(c, run) && DistinctNames(c.gateways) && Stale(c.gateways, Polls(c, run), Seen(c, run), m)
    ensures ShownUps(c, run) == LastOnes(c.gateways, m) && |ShownUps(c, run)| == m
  {
    LastOnesCount(c.gateways, m);
    ShownUpsAreUps(c, run);
    hide After, IsRun, Seen, Polls, Ups, ShownUps, DistinctNames, Width, LastOnes, FromEnd;
    StaleUps(c.gateways, Polls(c, run), Seen(c, run), m);
  }

  /** A run with r cuts at most that shows as many WANs up as the bound allows. */
  lemma ManyShownUp(c: Config, r: nat) returns (run: Run)
    requires DistinctNames(c.gateways) && Width(c.gateways) > 0
    ensures IsRun(c, run) && Cuts(c, run) <= r && |ShownUps(c, run)| == Min(Width(c.gateways), r + 2)
  {
    hide After, IsRun, Seen, Polls, Cuts, ShownUps, DistinctNames, Width, LastOnes, FromEnd;
    var w := Width(c.gateways);
    if r + 1 < w {
      var before := ManyPasses(c, r + 1);
      run := NextAlert(c, before, r + 1);
      StaleShown(c, run, r + 2);
    } else {
      run := ManyPasses(c, w);
      StaleShown(c, run, w);
    }
  }

  /** No heartbeat shows more than b WANs up, in any run with at most r passes cut short since the last completed
      one. */
  ghost predicate ShowsAtMost(c: Config, r: nat, b: nat) {
    forall run: Run | IsRun(c, run) && Cuts(c, run) <= r :: |ShownUps(c, run)| <= b
  }

  /** Exactly how stale heartbeats can be: after at most r cuts they show at most b WANs up, in every run,
      if and only if b is at least r + 2 or the number of WANs that can be active. */
  lemma ShownUpExact(c: Config, r: nat, b: nat)
    requires DistinctNames(c.gateways)
    ensures ShowsAtMost(c, r, b) <==> Min(Width(c.gateways), r + 2) <= b
  {
    hide Cuts, IsRun, ShownUps, Fresh, After, Width;
    if Min(Width(c.gateways), r + 2) <= b {
      forall run: Run | IsRun(c, run) && Cuts(c, run) <= r ensures |ShownUps(c, run)| <= b {
        ShownUpsBound(c, run);
        FreshIsSmall(After(c, run).place);
      }
    } else {
      var run := ManyShownUp(c, r);
    }
  }

  lemma FreshIsSmall(place: Place)
    ensures Fresh(place) <= 1
  {
  }

  /** Two WANs up at most, in every run with at most r cuts, exactly when nothing is cut or no three WANs can be
      active. */
  lemma TwoShownUpExact(c: Config, r: nat)
    requires DistinctNames(c.gateways)
    ensures ShowsAtMost(c, r, 2) <==> r == 0 || Width(c.gateways) <= 2
  {
    hide ShowsAtMost, Width;
    ShownUpExact(c, r, 2);
  }

  /** With enough cuts a heartbeat may show every WAN up at once that can be active, however many there are. */
  lemma AllShownUp(c: Config) returns (run: Run)
    requires DistinctNames(c.gateways)
    ensures IsRun(c, run) && forall k | 0 <= k < |c.gateways| :: ShownUp(c, run, k) <==> CanBeActive(c.gateways, k)
  {
    var gws, w := c.gateways, Width(c.gateways);
    hide After, Stale, DistinctNames, ShownUp, Seen, Polls, Cuts, CanBeActive;
    if w == 0 {
      run := [];
    } else {
      run := ManyPasses(c, w);
      StaleShown(c, run, w);
    }
    ShownCanBeActive(c, run);
    forall k | 0 <= k < |gws| && CanBeActive(gws, k) ensures ShownUp(c, run, k) {
      var all := Candidates(gws, |gws|);
      assert k in all;
      var i :| 0 <= i < |all| && all[i] == k;
      assert FromEnd(gws, w - 1 - i) == k;
      assert k in ShownUps(c, run);
    }
  }

  lemma ShownCanBeActive(c: Config, run: Run)
    requires IsRun(c, run) && DistinctNames(c.gateways)
    ensures forall k | 0 <= k < |c.gateways| && ShownUp(c, run, k) :: CanBeActive(c.gateways, k)
  {
    ShownUpsAreUps(c, run);
    hide After, IsRun, Polls, Seen, Ups, CanBeActive, ShownUp, DistinctNames;
    UpsHaveSources(c.gateways, Polls(c, run), Seen(c, run));
    forall k | 0 <= k < |c.gateways| && ShownUp(c, run, k) ensures CanBeActive(c.gateways, k) {
      assert k in ShownUps(c, run);
    }
  }

  // ----- how many alerts a pass may raise -----

  lemma StaleNotDown(gws: Gateways, h: History, seen: seq<int>, m: nat)
    requires DistinctNames(gws) && Stale(gws, h, seen, m)
    ensures NotDown(gws, h, seen) == LastOnes(gws, m)
  {
    StaleUps(gws, h, seen, m);
    NotDownAreUps(gws, h, seen);
    hide NotDown, Ups, LastOnes;
  }

  /** The next WAN before the last m that can be active, if there is one. */
  function HopBefore(gws: Gateways, m: nat): Option<string> {
    if m < Width(gws) then Some(gws[FromEnd(gws, m)].ip) else None
  }

  lemma CountAtHop(gws: Gateways, m: nat, gained: int)
    requires DistinctNames(gws) && 0 < m <= Width(gws) && ActiveAt(gws, HopBefore(gws, m), gained)
    ensures AlertCount(LastOnes(gws, m), gained) == Min(Width(gws), m + 1)
  {
    LastOnesCount(gws, m);
    if m < Width(gws) {
      ActiveWanMeaning(gws, HopBefore(gws, m), FromEnd(gws, m));
      assert gained == FromEnd(gws, m);
      forall i | 0 <= i < m ensures FromEnd(gws, i) != gained {
        FromEndFalls(gws, i, m);
      }
    }
  }

  /** A completed pass after m others, all but the first cut short: its poll finds the WAN before them active,
      or none if there is no such WAN. */
  lemma LastPass(c: Config, m: nat) returns (run: Run)
    requires DistinctNames(c.gateways) && 0 < m <= Width(c.gateways)
    ensures run != [] && IsRun(c, run) && Last(run).PassEnds? && AllSeenAtPoll(c, run)
    ensures Cuts(c, Front(run)) == m - 1 && |PassLog(c, run)| == Min(Width(c.gateways), m + 1)
  {
    hide After, IsRun, Seen, Polls, Cuts, SeenAtPoll, DistinctNames, PassLog, NotDown, ActiveAt;
    hide HopBefore, LastOnes, AlertCount, Width, FromEnd;
    var gws := c.gateways;
    var before := ManyPasses(c, m);
    run := FullPass(c, before, HopBefore(gws, m));
    var h, seen := Polls(c, run), Seen(c, before);
    StaleLonger(gws, Polls(c, before), h, seen, m);
    StaleNotDown(gws, h, seen, m);
    var gained := PassAlertCount(c, run);
    CountAtHop(gws, m, gained);
  }

  lemma StaleLonger(gws: Gateways, h: History, h': History, seen: seq<int>, m: nat)
    requires Stale(gws, h, seen, m) && h' != [] && Front(h') == h
    ensures Stale(gws, h', seen, m)
  {
    hide FromEnd, Width;
    forall i | 0 <= i < m ensures h'[i].nextHop == Some(gws[FromEnd(gws, i)].ip) {
      assert h'[i] == h[i];
    }
  }

  /** No completed pass raises more than b alerts once every WAN has been seen, in any run with at most r passes
      cut short since the last completed one. */
  ghost predicate RaisesAtMost(c: Config, r: nat, b: nat) {
    forall run: Run | run != [] && IsRun(c, run) && Last(run).PassEnds? && AllSeenAtPoll(c, run) &&
                      Cuts(c, Front(run)) <= r ::
      |PassLog(c, run)| <= b
  }

  /** Exactly how many alerts one poll can cause: after at most r cuts a pass raises at most b, in every run,
      if and only if b is at least r + 2 or the number of WANs that can be active. */
  lemma PassAlertsExact(c: Config, r: nat, b: nat)
    requires DistinctNames(c.gateways)
    ensures RaisesAtMost(c, r, b) <==> Min(Width(c.gateways), r + 2) <= b
  {
    var w := Width(c.gateways);
    hide Cuts, PassLog, AllSeenAtPoll, After, Enabled, Width;
    if Min(w, r + 2) <= b {
      forall run: Run | run != [] && IsRun(c, run) && Last(run).PassEnds? && AllSeenAtPoll(c, run) &&
                        Cuts(c, Front(run)) <= r
        ensures |PassLog(c, run)| <= b
      {
        PassAlertsBound(c, run);
      }
    } else {
      var run := LastPass(c, Min(w, r + 1));
    }
  }

  /** Two alerts at most for every poll exactly when no pass was cut short before it or no three WANs can be active. */
  lemma TwoAlertsExact(c: Config, r: nat)
    requires DistinctNames(c.gateways)
    ensures RaisesAtMost(c, r, 2) <==> r == 0 || Width(c.gateways) <= 2
  {
    hide RaisesAtMost, Width;
    PassAlertsExact(c, r, 2);
  }
}
