/** Every decision of the sentinel in terms of the events alone: when a pass sends LOST, RECOVERED or nothing,
    what a LOST shows, and which events can follow which. */
module SentinelDecisions {
  import opened Common
  import opened HeartbeatReceiver
  import opened Sentinel

  /** Among the first n events the heartbeat at position j is the newest. */
  ghost predicate NewestAt(run: Run, n: nat, j: nat)
    requires n <= |run|
  {
    j < n && HeartbeatAt(run, j) && forall m | j < m < n :: !HeartbeatAt(run, m)
  }

  ghost predicate NoHeartbeat(run: Run, n: nat)
    requires n <= |run|
  {
    forall j | 0 <= j < n :: !HeartbeatAt(run, j)
  }

  /** The store holds the newest heartbeat and its payload, or nothing if there was none. */
  lemma {:induction false} StoreMeaning(c: Config, run: Run, n: nat) returns (j: nat)
    requires n <= |run|
    ensures var s := After(c, run[..n]).store;
      if NoHeartbeat(run, n) then s.lastHeartbeat.None? && s.lastPayload.None?
      else NewestAt(run, n, j) && s.lastHeartbeat == Some(run[j].at) && s.lastPayload == Some(run[j].payload)
  {
    j := 0;
    if n == 0 {
      assert run[..0] == [];
    } else {
      FrontOfPrefix(run, n - 1);
      if HeartbeatAt(run, n - 1) {
        j := n - 1;
      } else {
        j := StoreMeaning(c, run, n - 1);
        assert NoHeartbeat(run, n) <==> NoHeartbeat(run, n - 1);
      }
    }
  }

  // ----- silence -----

  /** None of the first n events is a heartbeat within the tolerated silence, counted back from the given time. */
  ghost predicate SilentAt(c: Config, run: Run, n: nat, time: real)
    requires n <= |run|
  {
    forall j | 0 <= j < n && HeartbeatAt(run, j) ::
      time - run[j].at > (c.expectedInterval * c.missedThreshold) as real
  }

  lemma MissingMeansSilent(c: Config, run: Run, n: nat, time: real)
    requires IsRun(c, run) && n <= |run|
    ensures Missing(c, After(c, run[..n]).store, time) <==> SilentAt(c, run, n, time)
  {
    var newest := StoreMeaning(c, run, n);
    hide After;
    if !NoHeartbeat(run, n) {
      forall j | 0 <= j < n && HeartbeatAt(run, j) ensures run[j].at <= run[newest].at {
        OlderHeartbeat(c, run, n, j, newest);
      }
    }
  }

  lemma OlderHeartbeat(c: Config, run: Run, n: nat, j: nat, newest: nat)
    requires IsRun(c, run) && n <= |run| && j < n && HeartbeatAt(run, j) && NewestAt(run, n, newest)
    ensures run[j].at <= run[newest].at
  {
    if j < newest {
      RunPrefix(c, run, newest);
      ClockGrows(c, run[..newest], j);
      assert run[..newest][j] == run[j];
      ClockGrows(c, run, newest);
    }
  }

  // ----- decisions -----

  /** Some LOST was decided among the first n events, and no heartbeat came since. */
  ghost predicate AlreadyLost(c: Config, run: Run, n: nat)
    requires n <= |run|
  {
    exists k :: 0 <= k < n && LostAt(c, run, k) && forall j | k < j < n :: !HeartbeatAt(run, j)
  }

  lemma {:induction false} AlertedMeansAlreadyLost(c: Config, run: Run, n: nat)
    requires n <= |run|
    ensures After(c, run[..n]).store.alertedMissing <==> AlreadyLost(c, run, n)
  {
    if n == 0 {
      assert run[..0] == [];
    } else {
      FrontOfPrefix(run, n - 1);
      AlertedMeansAlreadyLost(c, run, n - 1);
      AlertedStep(c, run, n - 1);
      if LostAt(c, run, n - 1) {
        assert AlreadyLost(c, run, n);
      } else if !HeartbeatAt(run, n - 1) {
        assert AlreadyLost(c, run, n) <==> AlreadyLost(c, run, n - 1);
      } else {
        assert !AlreadyLost(c, run, n);
      }
    }
  }

  lemma AlertedStep(c: Config, run: Run, n: nat)
    requires n < |run|
    ensures After(c, run[..n + 1]).store.alertedMissing <==>
            LostAt(c, run, n) || (!HeartbeatAt(run, n) && After(c, run[..n]).store.alertedMissing)
  {
    FrontOfPrefix(run, n);
  }

  /** The newest completed alert is a LOST. */
  ghost predicate LastSentLost(c: Config, run: Run, n: nat)
    requires n <= |run|
  {
    Completed(c, run[..n]) != [] && Last(Completed(c, run[..n])) == Lost
  }

  ghost predicate RecoveredAt(c: Config, run: Run, i: nat)
    requires i < |run|
  {
    run[i].PassBegins? && Decision(c, After(c, run[..i]), run[i].read69, run[i].read85) == Some(Recovered)
  }

  /** Every decision of every run: a pass decides LOST exactly when there is silence at its first clock reading (also
      when nothing was ever heard) and no LOST was decided since the newest heartbeat; otherwise RECOVERED exactly when
      the last alert sent was a LOST and there is no silence at its second clock reading. */
  lemma DecisionMeaning(c: Config, run: Run, i: nat)
    requires IsRun(c, run) && i < |run| && run[i].PassBegins?
    ensures LostAt(c, run, i) <==> SilentAt(c, run, i, run[i].read69) && !AlreadyLost(c, run, i)
    ensures RecoveredAt(c, run, i) <==>
            !LostAt(c, run, i) && LastSentLost(c, run, i) && !SilentAt(c, run, i, run[i].read85)
  {
    RunPrefix(c, run, i);
    MissingMeansSilent(c, run, i, run[i].read69);
    MissingMeansSilent(c, run, i, run[i].read85);
    AlertedMeansAlreadyLost(c, run, i);
    CompletedArePaired(c, run[..i]);
    hide After, Completed, SilentAt, AlreadyLost, IsRun, Missing;
  }

  /** RECOVERED needs a heartbeat: one within the tolerated silence before it, and after the pass decided no LOST. */
  lemma RecoveredNeedsHeartbeat(c: Config, run: Run, i: nat) returns (j: nat)
    requires IsRun(c, run) && i < |run| && RecoveredAt(c, run, i)
    ensures j < i && HeartbeatAt(run, j)
    ensures run[i].read85 - run[j].at <= (c.expectedInterval * c.missedThreshold) as real
    ensures LastSentLost(c, run, i)
  {
    DecisionMeaning(c, run, i);
    hide LostAt, RecoveredAt, LastSentLost, IsRun;
    j :| 0 <= j < i && HeartbeatAt(run, j) &&
         run[i].read85 - run[j].at <= (c.expectedInterval * c.missedThreshold) as real;
  }

  /** And such a heartbeat is enough once a LOST has been sent, unless the pass decides another LOST. */
  lemma HeartbeatBringsRecovered(c: Config, run: Run, i: nat, j: nat)
    requires IsRun(c, run) && i < |run| && run[i].PassBegins? && LastSentLost(c, run, i) && !LostAt(c, run, i)
    requires j < i && HeartbeatAt(run, j)
    requires run[i].read85 - run[j].at <= (c.expectedInterval * c.missedThreshold) as real
    ensures RecoveredAt(c, run, i)
  {
    DecisionMeaning(c, run, i);
    hide LostAt, RecoveredAt, LastSentLost, IsRun;
  }

  /** Without a heartbeat there is one LOST, on the first pass, and nothing else ever. */
  lemma {:induction false} NeverHeard(c: Config, run: Run)
    requires IsRun(c, run) && NoHeartbeat(run, |run|)
    ensures After(c, run).store.lastHeartbeat.None?
    ensures After(c, run).store.alertedMissing <==> HasPass(run)
    ensures Decisions(c, run) == if HasPass(run) then [Lost] else []
  {
    if run != [] {
      assert NoHeartbeat(Front(run), |run| - 1) by {
        forall j | 0 <= j < |run| - 1 ensures !HeartbeatAt(Front(run), j) {
          assert !HeartbeatAt(run, j);
        }
      }
      assert !HeartbeatAt(run, |run| - 1);
      NeverHeard(c, Front(run));
    }
  }

  predicate HasPass(run: Run) {
    run != [] && (Last(run).PassBegins? || HasPass(Front(run)))
  }

  /** What a LOST alert shows as the last WAN states: those of the newest heartbeat up to the end of the probe,
      or none if there never was one. */
  lemma ReportedStates(c: Config, run: Run, n: nat) returns (j: nat)
    requires n <= |run|
    ensures LastWanStates(After(c, run[..n]).store) ==
            if NoHeartbeat(run, n) then map[] else if NewestAt(run, n, j) then run[j].payload.wanStates else map[]
    ensures NoHeartbeat(run, n) || NewestAt(run, n, j)
  {
    j := StoreMeaning(c, run, n);
    hide After;
  }

  // ----- which events can follow -----

  /** The alert of the newest pass while it is neither sent nor given up. */
  function Pending(c: Config, run: Run): Option<Kind> {
    if run == [] then None
    else match Last(run)
      case PassBegins(_, _) => if Decided(c, run) == [] then None else Some(Decided(c, run)[0])
      case SendReturned(_) => None
      case AwaitRaised(_) => None
      case _ => Pending(c, Front(run))
  }

  /** The newest pass has decided LOST and its probe is out. */
  predicate ProbeOut(c: Config, run: Run) {
    run != [] &&
    if Last(run).PassBegins? then Decided(c, run) == [Lost]
    else Last(run).HeartbeatRecorded? && ProbeOut(c, Front(run))
  }

  /** The order of events: a pass may begin when nothing is pending; a LOST is sent only after its probe has returned,
      a RECOVERED at once; whatever is pending may raise; a heartbeat may come in at any time. */
  lemma {:induction false} WhatFollows(c: Config, run: Run, e: Event)
    requires IsRun(c, run)
    ensures ProbeOut(c, run) ==> Pending(c, run) == Some(Lost)
    ensures Enabled(After(c, run), e) <==>
            match e
            case HeartbeatRecorded(_, _) => true
            case PassBegins(read69, read85) => Pending(c, run).None? && read69 <= read85
            case ProbeReturned(_) => ProbeOut(c, run)
            case SendReturned(_) => Pending(c, run).Some? && !ProbeOut(c, run)
            case AwaitRaised(_) => Pending(c, run).Some?
  {
    PlaceMeaning(c, run);
    hide After, Pending, ProbeOut, IsRun;
  }

  lemma {:induction false} PlaceMeaning(c: Config, run: Run)
    requires IsRun(c, run)
    ensures After(c, run).place.Asleep? <==> Pending(c, run).None?
    ensures After(c, run).place.Probing? <==> ProbeOut(c, run)
    ensures After(c, run).place.SendingLost? <==> Pending(c, run) == Some(Lost) && !ProbeOut(c, run)
    ensures After(c, run).place.SendingRecovered? <==> Pending(c, run) == Some(Recovered)
    ensures ProbeOut(c, run) ==> Pending(c, run) == Some(Lost)
  {
    if run != [] {
      PlaceMeaning(c, Front(run));
    }
  }

  /** A send that returns completes the pending alert. */
  lemma SendCompletes(c: Config, run: Run)
    requires run != [] && IsRun(c, run) && Last(run).SendReturned?
    ensures Pending(c, Front(run)).Some?
    ensures Completed(c, run) == Completed(c, Front(run)) + [Pending(c, Front(run)).value]
  {
    PlaceMeaning(c, Front(run));
  }
}
