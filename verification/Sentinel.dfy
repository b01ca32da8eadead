/** The monitor loop of the remote sentinel (remote/main.py) as an interleaved protocol.
    Code between two awaits is one step; heartbeats are recorded in between. Time counts from the start of the loop. */
module Sentinel {
  import opened Common
  import opened HeartbeatReceiver

  datatype Kind = Lost | Recovered

  /** Where the loop waits: asleep (or about to start), on the external probe, or on a send. */
  datatype Place = Asleep | Probing | SendingLost(lastHeartbeat: real, at: real) | SendingRecovered

  datatype Event =
    | HeartbeatRecorded(at: real, payload: Payload)
    | PassBegins(read69: real, read85: real)   // the clock at should_alert_missing and at is_missing
    | ProbeReturned(at: real)
    | SendReturned(at: real)
    | AwaitRaised(at: real)                    // the probe or the send raised: the except branch

  datatype State = State(store: Store, wasMissing: bool, place: Place)

  const START := State(EMPTY, false, Asleep)

  /** What a pass decides to send. */
  function Decision(c: Config, s: State, read69: real, read85: real): Option<Kind> {
    if AlertDue(c, s.store, read69) then Some(Lost)
    else if s.wasMissing && !Missing(c, s.store, read85) then Some(Recovered)
    else None
  }

  predicate Enabled(s: State, e: Event) {
    match e
    case HeartbeatRecorded(_, _) => true
    case PassBegins(read69, read85) => s.place.Asleep? && read69 <= read85
    case ProbeReturned(_) => s.place.Probing?
    case SendReturned(_) => s.place.SendingLost? || s.place.SendingRecovered?
    case AwaitRaised(_) => !s.place.Asleep?
  }

  function Next(c: Config, s: State, e: Event): State {
    match e
    case HeartbeatRecorded(at, payload) => s.(store := Recorded(payload, at))
    case PassBegins(read69, read85) =>
      State(Checked(c, s.store, read69), s.wasMissing,
            match Decision(c, s, read69, read85)
            case Some(Lost) => Probing
            case Some(Recovered) => SendingRecovered
            case None => Asleep)
    case ProbeReturned(at) =>
      s.(place := SendingLost(if s.store.lastHeartbeat.Some? then s.store.lastHeartbeat.value else at, at))
    case SendReturned(_) => s.(wasMissing := s.place.SendingLost?, place := Asleep)
    case AwaitRaised(_) => s.(place := Asleep)
  }

  // ----- the loop as code: one method for each stretch between awaits -----

  class RemoteSentinel {
    const store: HeartbeatStore
    var wasMissing: bool
    var place: Place

    constructor (config: Config)
      ensures fresh(store) && store.config == config && View() == START
    {
      store := new HeartbeatStore(config);
      wasMissing, place := false, Asleep;
    }

    function View(): State
      reads this, store
    {
      State(store.View(), wasMissing, place)
    }

    /** One pass up to the probe, a send or the sleep (remote/main.py, lines 68-71, 85-88 and 91). */
    method BeginPass(read69: real, read85: real) returns (decided: Option<Kind>)
      requires Enabled(View(), PassBegins(read69, read85))
      modifies this, store
      ensures View() == Next(store.config, old(View()), PassBegins(read69, read85))
      ensures decided == Decision(store.config, old(View()), read69, read85)
    {
      var due := store.ShouldAlertMissing(read69);
      if due {
        place := Probing;
        return Some(Lost);
      }
      if wasMissing {
        var missing := store.IsMissing(read85);
        if !missing {
          place := SendingRecovered;
          return Some(Recovered);
        }
      }
      place := Asleep;
      return None;
    }

    /** The report is filled in only now, after the probe (remote/main.py, lines 73-82). */
    method FinishProbe(now: real) returns (wanStates: map<string, WanState>)
      requires Enabled(View(), ProbeReturned(now))
      modifies this
      ensures View() == Next(store.config, old(View()), ProbeReturned(now))
      ensures wanStates == LastWanStates(View().store)
    {
      var lastHeartbeat := if store.lastHeartbeat.Some? then store.lastHeartbeat.value else now;
      wanStates := store.GetLastWanStates();
      place := SendingLost(lastHeartbeat, now);
    }

    /** The flag changes once the send has returned (remote/main.py, lines 83 and 89). */
    method FinishSend(now: real)
      requires Enabled(View(), SendReturned(now))
      modifies this
      ensures View() == Next(store.config, old(View()), SendReturned(now))
    {
      if place.SendingLost? {
        wasMissing := true;
      } else {
        wasMissing := false;
      }
      place := Asleep;
    }

    /** The except branch (remote/main.py, lines 93-95). */
    method AbandonPass(now: real)
      requires Enabled(View(), AwaitRaised(now))
      modifies this
      ensures View() == Next(store.config, old(View()), AwaitRaised(now))
    {
      place := Asleep;
    }

    /** The loop under a given interleaving: what it decides to send and what it completes. */
    method MonitorLoop(script: seq<Event>) returns (decided: seq<Kind>, sent: seq<Kind>)
      requires View() == START && IsRun(store.config, script)
      modifies this, store
      ensures View() == After(store.config, script)
      ensures decided == Decisions(store.config, script) && sent == Completed(store.config, script)
    {
      decided, sent := [], [];
      assert script[..0] == [];
      for i := 0 to |script|
        invariant View() == After(store.config, script[..i])
        invariant decided == Decisions(store.config, script[..i])
        invariant sent == Completed(store.config, script[..i])
      {
        FrontOfPrefix(script, i);
        RunPrefix(store.config, script, i + 1);
        match script[i]
        case HeartbeatRecorded(at, payload) => store.Record(payload, at);
        case PassBegins(read69, read85) =>
          var decision := BeginPass(read69, read85);
          decided := decided + (if decision.Some? then [decision.value] else []);
        case ProbeReturned(at) => var _ := FinishProbe(at);
        case SendReturned(at) =>
          sent := sent + [if place.SendingLost? then Lost else Recovered];
          FinishSend(at);
        case AwaitRaised(at) => AbandonPass(at);
      }
      assert script[..|script|] == script;
    }
  }

  // ----- runs -----

  type Run = seq<Event>

  function StartOf(e: Event): real {
    if e.PassBegins? then e.read69 else e.at
  }

  function EndOf(e: Event): real {
    if e.PassBegins? then e.read85 else e.at
  }

  function Clock(run: Run): real {
    if run == [] then 0.0 else EndOf(Last(run))
  }

  function After(c: Config, run: Run): State {
    if run == [] then START else Next(c, After(c, Front(run)), Last(run))
  }

  /** The clock never goes back and every event can happen where it does. */
  predicate IsRun(c: Config, run: Run) {
    run != [] ==>
      && IsRun(c, Front(run))
      && StartOf(Last(run)) >= Clock(Front(run))
      && Enabled(After(c, Front(run)), Last(run))
  }

  /** What the last event of the run decides to send. */
  function Decided(c: Config, run: Run): seq<Kind>
    requires run != []
  {
    match Last(run)
    case PassBegins(read69, read85) =>
      var d := Decision(c, After(c, Front(run)), read69, read85);
      if d.Some? then [d.value] else []
    case _ => []
  }

  /** Every alert decided, in order. */
  function Decisions(c: Config, run: Run): seq<Kind> {
    if run == [] then [] else Decisions(c, Front(run)) + Decided(c, run)
  }

  /** Every alert whose send returned, in order. */
  function Completed(c: Config, run: Run): seq<Kind> {
    if run == [] then []
    else Completed(c, Front(run)) +
         (if Last(run).SendReturned?
          then [if After(c, Front(run)).place.SendingLost? then Lost else Recovered] else [])
  }

  /** A LOST is decided at this position of the run. */
  predicate LostAt(c: Config, run: Run, i: nat)
    requires i < |run|
  {
    run[i].PassBegins? && Decision(c, After(c, run[..i]), run[i].read69, run[i].read85) == Some(Lost)
  }

  predicate HeartbeatAt(run: Run, i: nat)
    requires i < |run|
  {
    run[i].HeartbeatRecorded?
  }

  lemma {:induction false} RunPrefix(c: Config, run: Run, i: nat)
    requires IsRun(c, run) && i <= |run|
    ensures IsRun(c, run[..i])
  {
    if i < |run| {
      RunPrefix(c, Front(run), i);
      assert Front(run)[..i] == run[..i];
    } else {
      assert run[..i] == run;
    }
  }

  lemma {:induction false} ClockGrows(c: Config, run: Run, i: nat)
    requires IsRun(c, run) && i <= |run|
    ensures 0.0 <= Clock(run[..i]) <= Clock(run)
    ensures i < |run| ==> Clock(run[..i]) <= StartOf(run[i]) <= EndOf(run[i]) <= Clock(run)
  {
    if i < |run| {
      ClockGrows(c, Front(run), i);
      assert Front(run)[..i] == run[..i];
      if i < |run| - 1 {
        assert Front(run)[i] == run[i];
      }
    } else {
      assert run[..i] == run;
      if run != [] {
        ClockGrows(c, Front(run), |run| - 1);
        assert Front(run)[..|run| - 1] == Front(run);
      }
    }
  }

  /** A run with one more event. */
  lemma Extended(c: Config, run: Run, e: Event)
    requires IsRun(c, run) && StartOf(e) >= Clock(run) && Enabled(After(c, run), e)
    ensures IsRun(c, run + [e]) && Clock(run + [e]) == EndOf(e)
    ensures After(c, run + [e]) == Next(c, After(c, run), e)
    ensures Decisions(c, run + [e]) == Decisions(c, run) + Decided(c, run + [e])
    ensures Front(run + [e]) == run && Last(run + [e]) == e
  {
    assert Front(run + [e]) == run;
  }

  // ----- pairing: no timing assumption, sends may raise -----

  /** The completed alerts never start with a RECOVERED and never have two in a row. */
  predicate Paired(sent: seq<Kind>) {
    forall i | 0 <= i < |sent| && sent[i] == Recovered :: i > 0 && sent[i - 1] == Lost
  }

  /** Every completed RECOVERED directly follows a completed LOST of its own, whatever the timing and whichever
      sends fail; `wasMissing` says whether a LOST is still unanswered. */
  lemma {:induction false} CompletedArePaired(c: Config, run: Run)
    requires IsRun(c, run)
    ensures Paired(Completed(c, run))
    ensures After(c, run).wasMissing <==> Completed(c, run) != [] && Last(Completed(c, run)) == Lost
    ensures After(c, run).place.SendingRecovered? ==> After(c, run).wasMissing
  {
    if run != [] {
      CompletedArePaired(c, Front(run));
    }
  }

  function Count(sent: seq<Kind>, kind: Kind): nat {
    if sent == [] then 0 else Count(Front(sent), kind) + (if Last(sent) == kind then 1 else 0)
  }

  /** A paired list has at most as many RECOVERED as LOST, and fewer while a LOST is unanswered. */
  lemma {:induction false} PairedCounts(sent: seq<Kind>)
    requires Paired(sent)
    ensures Count(sent, Recovered) <= Count(sent, Lost)
    ensures sent != [] && Last(sent) == Lost ==> Count(sent, Recovered) < Count(sent, Lost)
  {
    if sent != [] {
      var before := Front(sent);
      assert Paired(before) by {
        forall i | 0 <= i < |before| && before[i] == Recovered ensures i > 0 && before[i - 1] == Lost {
          assert sent[i] == Recovered;
        }
      }
      PairedCounts(before);
    }
  }

  /** At every point of every run the completed RECOVERED do not outnumber the completed LOST. */
  lemma {:induction false} NeverMoreRecoveries(c: Config, run: Run, i: nat)
    requires IsRun(c, run) && i <= |run|
    ensures Count(Completed(c, run[..i]), Recovered) <= Count(Completed(c, run[..i]), Lost)
  {
    RunPrefix(c, run, i);
    CompletedArePaired(c, run[..i]);
    PairedCounts(Completed(c, run[..i]));
  }

  /** Once a LOST is decided the store stays alerted until a heartbeat is recorded. */
  lemma {:induction false} AlertedUntilHeartbeat(c: Config, run: Run, i: nat, k: nat)
    requires i < k <= |run| && LostAt(c, run, i)
    requires forall j | i < j < k :: !HeartbeatAt(run, j)
    ensures After(c, run[..k]).store.alertedMissing
  {
    FrontOfPrefix(run, k - 1);
    if k > i + 1 {
      AlertedUntilHeartbeat(c, run, i, k - 1);
      assert !HeartbeatAt(run, k - 1);
    }
  }

  /** Between any two LOST decisions at least one heartbeat is recorded. */
  lemma LostSeparatedByHeartbeat(c: Config, run: Run, i: nat, k: nat)
    requires i < k < |run| && LostAt(c, run, i) && LostAt(c, run, k)
    ensures exists j :: i < j < k && HeartbeatAt(run, j)
  {
    if forall j | i < j < k :: !HeartbeatAt(run, j) {
      AlertedUntilHeartbeat(c, run, i, k);
      assert false;
    }
  }

  // ----- no false alarm -----

  /** The store holds the newest heartbeat of the run. */
  lemma {:induction false} NewestHeartbeat(c: Config, run: Run, i: nat)
    requires IsRun(c, run) && i < |run| && HeartbeatAt(run, i)
    ensures After(c, run).store.lastHeartbeat.Some?
    ensures run[i].at <= After(c, run).store.lastHeartbeat.value <= Clock(run)
  {
    ClockGrows(c, run, |run| - 1);
    if i < |run| - 1 {
      NewestHeartbeat(c, Front(run), i);
      assert Front(run)[i] == run[i] && run[..|run| - 1] == Front(run);
      ClockGrows(c, run, i);
    }
  }

  /** A LOST is never decided while a heartbeat lies within the deadline. */
  lemma NoFalseAlarm(c: Config, run: Run, i: nat, k: nat)
    requires IsRun(c, run) && i < k < |run| && HeartbeatAt(run, i) && LostAt(c, run, k)
    ensures run[k].read69 - run[i].at > c.Deadline()
  {
    RunPrefix(c, run, k);
    NewestHeartbeat(c, run[..k], i);
  }

  /** What a LOST alert reports as the last heartbeat: one that came in during the probe if there is one (although
      the monitor is back); otherwise the stale one, past the deadline, or the present when there never was any. */
  lemma ReportedHeartbeat(c: Config, run: Run, i: nat, k: nat)
    requires IsRun(c, run) && i < k < |run| && LostAt(c, run, i) && run[k].ProbeReturned?
    requires forall j | i < j < k :: HeartbeatAt(run, j)
    ensures var place, before := After(c, run[..k + 1]).place, After(c, run[..i]).store.lastHeartbeat;
      && place.SendingLost? && place.at == run[k].at
      && (k > i + 1 ==> HeartbeatAt(run, k - 1) && place.lastHeartbeat == run[k - 1].at)
      && (k == i + 1 && before.None? ==> place.lastHeartbeat == place.at)
      && (k == i + 1 && before.Some? ==> place.lastHeartbeat == before.value && place.at - before.value > c.Deadline())
  {
    FrontOfPrefix(run, k);
    FrontOfPrefix(run, k - 1);
    if k == i + 1 {
      FrontOfPrefix(run, i);
      RunPrefix(c, run, k + 1);
      ClockGrows(c, run[..k + 1], i);
    } else {
      assert HeartbeatAt(run, k - 1);
    }
  }
}
