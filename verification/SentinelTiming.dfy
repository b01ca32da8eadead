/** The sentinel's alerts under timing assumptions: strict alternation, and the window in which silence is detected. */
module SentinelTiming {
  import opened Common
  import opened HeartbeatReceiver
  import opened Sentinel

  // ----- strict alternation -----

  /** The clock at line 69 of the newest pass. */
  function LastPassRead(run: Run): Option<real> {
    if run == [] then None
    else if Last(run).PassBegins? then Some(Last(run).read69)
    else LastPassRead(Front(run))
  }

  /** From one pass's read at line 69 to the next pass's read at line 85 at most `gap` goes by. */
  predicate ReadsWithin(run: Run, gap: real) {
    run != [] ==>
      && ReadsWithin(Front(run), gap)
      && (Last(run).PassBegins? && LastPassRead(Front(run)).Some? ==>
            Last(run).read85 - LastPassRead(Front(run)).value <= gap)
  }

  predicate NothingRaises(run: Run) {
    forall i | 0 <= i < |run| :: !run[i].AwaitRaised?
  }

  predicate Alternates(kinds: seq<Kind>) {
    forall i | 0 <= i < |kinds| :: kinds[i] == if i % 2 == 0 then Lost else Recovered
  }

  /** Between a LOST and its RECOVERED: the LOST is on its way or sent, and any heartbeat since is younger
      than the newest pass. Otherwise nothing is on its way but perhaps the RECOVERED itself. */
  ghost predicate Phase(c: Config, run: Run) {
    var s, lost := After(c, run), |Decisions(c, run)| % 2 == 1;
    && (lost ==> LastPassRead(run).Some? &&
                 (s.place.Probing? || s.place.SendingLost? || (s.place.Asleep? && s.wasMissing)))
    && (lost && !s.store.alertedMissing ==>
          && s.store.lastHeartbeat.Some? && LastPassRead(run).Some?
          && s.store.lastHeartbeat.value >= LastPassRead(run).value)
    && (!lost ==> (s.place.SendingRecovered? || (s.place.Asleep? && !s.wasMissing)))
  }

  lemma {:induction false} LastPassBeforeClock(c: Config, run: Run)
    requires IsRun(c, run)
    ensures LastPassRead(run).Some? ==> LastPassRead(run).value <= Clock(run)
  {
    if run != [] {
      LastPassBeforeClock(c, Front(run));
      ClockGrows(c, run, |run| - 1);
      assert run[..|run| - 1] == Front(run);
    }
  }

  /** When no send raises and line 85 is read within the deadline of the previous pass's line 69, the decided
      alerts strictly alternate LOST, RECOVERED, LOST, ... wherever heartbeats land among the awaits. */
  lemma {:induction false} StrictAlternation(c: Config, run: Run)
    requires IsRun(c, run) && NothingRaises(run) && ReadsWithin(run, c.Deadline())
    ensures Alternates(Decisions(c, run)) && Phase(c, run)
  {
    if run != [] {
      var before, e := Front(run), Last(run);
      assert NothingRaises(before) by {
        forall i | 0 <= i < |before| ensures !before[i].AwaitRaised? {
          assert before[i] == run[i];
        }
      }
      StrictAlternation(c, before);
      LastPassBeforeClock(c, before);
      assert !e.AwaitRaised?;
      if e.PassBegins? {
        PassKeepsPhase(c, run);
      } else {
        assert Decisions(c, run) == Decisions(c, before);
      }
    }
  }

  lemma PassKeepsPhase(c: Config, run: Run)
    requires run != [] && IsRun(c, run) && ReadsWithin(run, c.Deadline()) && Last(run).PassBegins?
    requires Alternates(Decisions(c, Front(run))) && Phase(c, Front(run))
    ensures Alternates(Decisions(c, run)) && Phase(c, run)
  {
    var kinds := Decisions(c, Front(run));
    var d := Decision(c, After(c, Front(run)), Last(run).read69, Last(run).read85);
    if |kinds| % 2 == 1 {
      assert d != Some(Lost);
    } else {
      assert d != Some(Recovered);
    }
  }

  /** The alert that is decided but not completed. */
  function InFlight(place: Place): seq<Kind> {
    match place
    case Asleep => []
    case Probing => [Lost]
    case SendingLost(_, _) => [Lost]
    case SendingRecovered => [Recovered]
  }

  /** When nothing raises the completed alerts are the decided ones but for the one on its way. */
  lemma {:induction false} CompletedAreDecided(c: Config, run: Run)
    requires IsRun(c, run) && NothingRaises(run)
    ensures Decisions(c, run) == Completed(c, run) + InFlight(After(c, run).place)
  {
    if run != [] {
      var before := Front(run);
      assert NothingRaises(before) by {
        forall i | 0 <= i < |before| ensures !before[i].AwaitRaised? {
          assert before[i] == run[i];
        }
      }
      assert !Last(run).AwaitRaised?;
      CompletedAreDecided(c, before);
      InFlightStep(c, run);
    }
  }

  lemma InFlightStep(c: Config, run: Run)
    requires run != [] && IsRun(c, run) && !Last(run).AwaitRaised?
    ensures Completed(c, Front(run)) <= Completed(c, run)
    ensures InFlight(After(c, Front(run)).place) + Decided(c, run) ==
            Completed(c, run)[|Completed(c, Front(run))|..] + InFlight(After(c, run).place)
  {
  }

  /** So under the timing bound the alerts that reach the user strictly alternate as well. */
  lemma CompletedAlternate(c: Config, run: Run)
    requires IsRun(c, run) && NothingRaises(run) && ReadsWithin(run, c.Deadline())
    ensures Alternates(Completed(c, run))
  {
    StrictAlternation(c, run);
    CompletedAreDecided(c, run);
    var sent, decided := Completed(c, run), Decisions(c, run);
    hide After, Completed, Decisions, IsRun;
    forall i | 0 <= i < |sent| ensures sent[i] == if i % 2 == 0 then Lost else Recovered {
      assert decided[i] == sent[i];
    }
  }

  /** The bound cannot be relaxed: for any longer gap there is a run with two LOST in a row. */
  lemma AlternationNeedsTheBound(c: Config, gap: real, payload: Payload) returns (run: Run)
    requires gap > c.Deadline() && gap >= 0.0
    ensures IsRun(c, run) && NothingRaises(run) && ReadsWithin(run, gap)
    ensures Decisions(c, run) == [Lost, Lost]
  {
    var e1, e2, e3 := PassBegins(0.0, 0.0), ProbeReturned(0.0), SendReturned(0.0);
    var e4, e5 := HeartbeatRecorded(0.0, payload), PassBegins(gap, gap);
    var r0: Run := [];
    var r1 := r0 + [e1];
    var r2 := r1 + [e2];
    var r3 := r2 + [e3];
    var r4 := r3 + [e4];
    run := r4 + [e5];
    assert IsRun(c, r0) && After(c, r0) == START && Decisions(c, r0) == [];
    assert LastPassRead(r0).None? && ReadsWithin(r0, gap);
    Extended(c, r0, e1);
    Extended(c, r1, e2);
    Extended(c, r2, e3);
    Extended(c, r3, e4);
    Extended(c, r4, e5);
    assert LastPassRead(r1) == LastPassRead(r2) == LastPassRead(r3) == LastPassRead(r4) == Some(0.0);
    assert ReadsWithin(r1, gap) && ReadsWithin(r2, gap) && ReadsWithin(r3, gap) && ReadsWithin(r4, gap);
  }

  lemma {:induction false} ReadsWithinLonger(run: Run, gap: real, longer: real)
    requires ReadsWithin(run, gap) && gap <= longer
    ensures ReadsWithin(run, longer)
  {
    if run != [] {
      ReadsWithinLonger(Front(run), gap, longer);
    }
  }

  /** Reads at most `gap` apart guarantee alternating alerts in every run. */
  ghost predicate GapIsSafe(c: Config, gap: real) {
    forall run: Run | IsRun(c, run) && NothingRaises(run) && ReadsWithin(run, gap) :: Alternates(Decisions(c, run))
  }

  /** Alternation is guaranteed exactly up to the deadline. */
  lemma AlternationExact(c: Config, gap: real)
    requires gap >= 0.0
    ensures GapIsSafe(c, gap) <==> gap <= c.Deadline()
  {
    if gap <= c.Deadline() {
      forall run: Run | IsRun(c, run) && NothingRaises(run) && ReadsWithin(run, gap)
        ensures Alternates(Decisions(c, run))
      {
        ReadsWithinLonger(run, gap, c.Deadline());
        StrictAlternation(c, run);
      }
    } else {
      var run := AlternationNeedsTheBound(c, gap, Payload(map[], []));
      assert Decisions(c, run)[1] == Lost;
    }
  }

  // ----- the window in which silence is detected -----

  /** The newest line-69 read, or the start of the loop. */
  function LastPassOrStart(run: Run): real {
    if LastPassRead(run).Some? then LastPassRead(run).value else 0.0
  }

  /** Passes follow each other, and the start of the loop, at most `gap` apart. */
  predicate PassesWithin(run: Run, gap: real) {
    run != [] ==>
      && PassesWithin(Front(run), gap)
      && (Last(run).PassBegins? ==> Last(run).read69 - LastPassOrStart(Front(run)) <= gap)
  }

  predicate PassAt(run: Run, i: nat)
    requires i < |run|
  {
    run[i].PassBegins?
  }

  /** Some pass reads the clock past the bound if the newest one does; the first such pass follows one that did not. */
  lemma {:induction false} FirstPassAfter(c: Config, run: Run, gap: real, bound: real) returns (k: nat)
    requires IsRun(c, run) && PassesWithin(run, gap) && 0.0 <= bound < LastPassOrStart(run)
    ensures k < |run| && PassAt(run, k) && bound < run[k].read69 <= bound + gap
    ensures forall j | 0 <= j < k && PassAt(run, j) :: run[j].read69 <= bound
  {
    if LastPassOrStart(Front(run)) > bound {
      k := FirstPassAfter(c, Front(run), gap, bound);
      forall j | 0 <= j < k && PassAt(run, j) ensures run[j].read69 <= bound {
        assert PassAt(Front(run), j);
      }
    } else {
      k := |run| - 1;
      forall j | 0 <= j < k && PassAt(run, j) ensures run[j].read69 <= bound {
        EarlierPass(c, Front(run), j);
        assert Front(run)[j] == run[j];
      }
    }
  }

  lemma {:induction false} EarlierPass(c: Config, run: Run, j: nat)
    requires IsRun(c, run) && j < |run| && PassAt(run, j)
    ensures LastPassRead(run).Some? && run[j].read69 <= LastPassRead(run).value
  {
    if j < |run| - 1 {
      ClockGrows(c, Front(run), j);
      EarlierPass(c, Front(run), j);
    }
  }

  function Max(a: real, b: real): real {
    if a >= b then a else b
  }

  /** In the silence after a heartbeat the store keeps it, and is not alerted before a LOST is decided. */
  lemma {:induction false} SilenceSince(c: Config, run: Run, i: nat, k: nat)
    requires i < k <= |run| && HeartbeatAt(run, i)
    requires forall j | i < j < k :: !HeartbeatAt(run, j) && !LostAt(c, run, j)
    ensures var s := After(c, run[..k]).store; s.lastHeartbeat == Some(run[i].at) && !s.alertedMissing
  {
    FrontOfPrefix(run, k - 1);
    if k > i + 1 {
      SilenceSince(c, run, i, k - 1);
      assert !HeartbeatAt(run, k - 1) && !LostAt(c, run, k - 1);
    }
  }

  /** The silence after a heartbeat at h is detected exactly once: when passes are at most G apart and none is
      recorded up to h + T + G, one LOST is decided, at a clock reading in (h + T, h + T + G], and no other pass
      of that span decides one. (With a negative deadline T the span starts at h.) */
  lemma DetectionWindow(c: Config, run: Run, i: nat, gap: real) returns (k: nat)
    requires IsRun(c, run) && PassesWithin(run, gap) && i < |run| && HeartbeatAt(run, i)
    requires var end := run[i].at + Max(c.Deadline(), 0.0) + gap;
      && (forall j | i < j < |run| && HeartbeatAt(run, j) :: run[j].at > end)
      && Clock(run) > end && Clock(run) - LastPassOrStart(run) <= gap
    ensures i < k < |run| && LostAt(c, run, k)
    ensures run[i].at + c.Deadline() < run[k].read69 <= run[i].at + Max(c.Deadline(), 0.0) + gap
    ensures var end := run[i].at + Max(c.Deadline(), 0.0) + gap;
      forall j | i < j < |run| && j != k && PassAt(run, j) && run[j].read69 <= end :: !LostAt(c, run, j)
  {
    var h, bound := run[i].at, run[i].at + Max(c.Deadline(), 0.0);
    ClockGrows(c, run, i);
    var late := FirstPassAfter(c, run, gap, bound);
    PassAfterHeartbeat(c, run, i, late);
    k := FirstLate(c, run, i, late);
    if k != late {
      assert run[k].read69 <= bound;
    }
    assert gap >= 0.0;
    NoHeartbeatUpTo(c, run, i, k, bound + gap);
    forall j | i < j < k ensures !LostAt(c, run, j) {
      if LostAt(c, run, j) {
        NoFalseAlarm(c, run, i, j);
        assert false;
      }
    }
    SilenceSince(c, run, i, k);
    assert LostAt(c, run, k);
    forall j | i < j < |run| && j != k && PassAt(run, j) && run[j].read69 <= bound + gap ensures !LostAt(c, run, j) {
      if j > k {
        NoHeartbeatUpTo(c, run, i, j, bound + gap);
        AlertedUntilHeartbeat(c, run, k, j);
      }
    }
  }

  lemma PassAfterHeartbeat(c: Config, run: Run, i: nat, k: nat)
    requires IsRun(c, run) && i < |run| && k < |run| && HeartbeatAt(run, i) && PassAt(run, k)
    requires run[k].read69 > run[i].at
    ensures i < k
  {
    if k < i {
      var front := run[..i];
      RunPrefix(c, run, i);
      ClockGrows(c, front, k);
      assert front[k] == run[k];
      ClockGrows(c, run, i);
    }
  }

  lemma NoHeartbeatUpTo(c: Config, run: Run, i: nat, k: nat, end: real)
    requires IsRun(c, run) && i < k < |run| && PassAt(run, k) && run[k].read69 <= end
    requires forall j | i < j < |run| && HeartbeatAt(run, j) :: run[j].at > end
    ensures forall j | i < j < k :: !HeartbeatAt(run, j)
  {
    forall j | i < j < k ensures !HeartbeatAt(run, j) {
      RunPrefix(c, run, k);
      ClockGrows(c, run[..k], j);
      assert run[..k][j] == run[j];
      ClockGrows(c, run, k);
    }
  }

  /** The first pass after position i that reads the clock past the deadline of its heartbeat. */
  lemma {:induction false} FirstLate(c: Config, run: Run, i: nat, late: nat) returns (k: nat)
    requires i < late < |run| && HeartbeatAt(run, i) && PassAt(run, late) && run[late].read69 > run[i].at + c.Deadline()
    ensures i < k <= late && PassAt(run, k) && run[k].read69 > run[i].at + c.Deadline()
    ensures forall j | i < j < k && PassAt(run, j) :: run[j].read69 <= run[i].at + c.Deadline()
    decreases late
  {
    if j :| i < j < late && PassAt(run, j) && run[j].read69 > run[i].at + c.Deadline() {
      k := FirstLate(c, run, i, j);
    } else {
      k := late;
    }
  }
}
