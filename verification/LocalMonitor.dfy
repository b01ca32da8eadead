/** The local monitor (local/main.py): the poll loop over poller and alert engine, cut at its awaits, with syslog events
    handled and heartbeats built in between. */
module LocalMonitor {
  import opened Common
  import opened SnmpPoller
  import opened AlertEngine
  import Syslog

  datatype Config = Config(gateways: Gateways, normalInterval: int, alertInterval: int)

  /** The sleep after an exception. */
  const ERROR_SLEEP := 10

  const KEPT_EVENTS := 100
  const SENT_EVENTS := 10

  /** Where the poll loop is: asleep (or about to start), waiting for the poll, about to process state number `next`
      of a poll, or waiting for an alert to be sent with `next` still to come. */
  datatype Place =
    | Asleep
    | Polling(interval: int, start: real)
    | Processing(interval: int, states: seq<WanState>, next: nat)
    | Sending(interval: int, states: seq<WanState>, next: nat)

  datatype Event =
    | PassBegins(now: real)
    | PollReturned(nextHop: Option<string>, links: map<string, bool>)
    | StateProcessed(now: real)
    | SendReturned
    | PassRaised                  // the poll or a send raised: the except branch
    | PassEnds
    | SyslogReceived(category: Syslog.Category, now: real)

  /** The poller's last states, the engine, the recent events and the place of the loop. */
  datatype State = State(lastStates: map<string, WanState>, engine: Engine, recent: seq<Alert>, place: Place)

  const START := State(map[], EMPTY, [], Asleep)

  predicate Enabled(s: State, e: Event) {
    match e
    case PassBegins(_) => s.place.Asleep?
    case PollReturned(_, _) => s.place.Polling?
    case StateProcessed(_) => s.place.Processing? && s.place.next < |s.place.states|
    case SendReturned => s.place.Sending?
    case PassRaised => s.place.Polling? || s.place.Sending?
    case PassEnds => s.place.Processing? && s.place.next == |s.place.states|
    case SyslogReceived(_, _) => true
  }

  /** The observation processed next. */
  function NextObservation(s: State, now: real): Observation
    requires Enabled(s, StateProcessed(now))
  {
    Observation(s.place.states[s.place.next], s.place.states, now)
  }

  /** The alerts an event appends to the recent events. */
  function AlertsOf(s: State, e: Event): seq<Alert>
    requires Enabled(s, e)
  {
    match e
    case StateProcessed(now) => AsSeq(AlertFor(s.engine, NextObservation(s, now)))
    case SyslogReceived(category, now) => SyslogAlerts(category, now)
    case _ => []
  }

  ghost function IntervalFor(c: Config, s: State): int {
    if FastPolling(s.engine) then c.alertInterval else c.normalInterval
  }

  ghost function Next(c: Config, s: State, e: Event): State
    requires Enabled(s, e)
  {
    match e
    case PassBegins(now) => s.(place := Polling(IntervalFor(c, s), now))
    case PollReturned(nextHop, links) =>
      var states := NextStates(c.gateways, s.lastStates, Poll(s.place.start, nextHop, links));
      s.(lastStates := ByName(states), place := Processing(s.place.interval, states, 0))
    case StateProcessed(now) =>
      var o, alerts, next := NextObservation(s, now), AlertsOf(s, e), s.place.next + 1;
      s.(engine := Observe(s.engine, o), recent := s.recent + alerts,
         place := if alerts == [] then Processing(s.place.interval, s.place.states, next)
                  else Sending(s.place.interval, s.place.states, next))
    case SendReturned => s.(place := Processing(s.place.interval, s.place.states, s.place.next))
    case PassRaised => s.(place := Asleep)
    case PassEnds => s.(recent := LastN(s.recent, KEPT_EVENTS), place := Asleep)
    case SyslogReceived(_, _) => s.(recent := s.recent + AlertsOf(s, e))
  }

  /** The heartbeat built in a state: get_current_wan_states and the last ten recent events. */
  function PayloadOf(s: State): Payload {
    Payload(s.engine.previous, LastN(s.recent, SENT_EVENTS))
  }

  // ----- the monitor as code: one method for each stretch between awaits -----

  class LocalMonitor {
    const config: Config
    const poller: SnmpPoller
    const engine: AlertEngine
    var recentEvents: seq<Alert>
    var place: Place

    ghost predicate Valid()
      reads this, poller, engine
    {
      && engine.Valid()
      && poller.wanGateways == config.gateways && poller.gatewayToWan == ReverseMap(config.gateways)
    }

    ghost function View(): State
      reads this, poller, engine, engine.Records()
    {
      State(poller.lastStates, engine.View(), recentEvents, place)
    }

    constructor (config: Config)
      ensures Valid() && View() == START && this.config == config
      ensures fresh(poller) && fresh(engine) && engine.Records() == {}
    {
      this.config := config;
      poller := new SnmpPoller(config.gateways);
      engine := new AlertEngine();
      recentEvents, place := [], Asleep;
    }

    /** The interval is chosen before the poll (local/main.py, lines 99-106). */
    method BeginPass(now: real)
      requires Valid() && Enabled(View(), PassBegins(now))
      modifies this`place
      ensures Valid() && View() == Next(config, old(View()), PassBegins(now))
    {
      var fast := engine.ShouldUseAlertInterval();
      var interval := if fast then config.alertInterval else config.normalInterval;
      place := Polling(interval, now);
      assert engine.View() == old(engine.View());
    }

    method FinishPoll(nextHop: Option<string>, links: map<string, bool>)
      requires Valid() && Enabled(View(), PollReturned(nextHop, links))
      modifies this`place, poller
      ensures Valid() && View() == Next(config, old(View()), PollReturned(nextHop, links))
    {
      var states, warned := poller.PollOnce(Poll(place.start, nextHop, links));
      place := Processing(place.interval, states, 0);
    }

    /** One state, up to the send of its alert if it has one (local/main.py, lines 109-113). */
    method ProcessState(now: real)
      requires Valid() && Enabled(View(), StateProcessed(now))
      modifies this`place, this`recentEvents, engine, engine.Records()
      ensures Valid() && fresh(engine.Records() - old(engine.Records()))
      ensures View() == Next(config, old(View()), StateProcessed(now))
    {
      var o := Observation(place.states[place.next], place.states, now);
      var alerts := engine.ProcessWanState(o);
      recentEvents := recentEvents + alerts;
      place := if alerts == [] then Processing(place.interval, place.states, place.next + 1)
               else Sending(place.interval, place.states, place.next + 1);
    }

    method FinishSend()
      requires Valid() && Enabled(View(), SendReturned)
      modifies this`place
      ensures Valid() && View() == Next(config, old(View()), SendReturned)
    {
      place := Processing(place.interval, place.states, place.next);
    }

    /** The rest of the pass, the trimming included, is skipped (local/main.py, lines 120-122). */
    method AbandonPass() returns (sleep: int)
      requires Valid() && Enabled(View(), PassRaised)
      modifies this`place
      ensures Valid() && View() == Next(config, old(View()), PassRaised) && sleep == 10
    {
      place := Asleep;
      sleep := ERROR_SLEEP;
    }

    /** The trimming and the sleep (local/main.py, lines 115-118). */
    method EndPass() returns (sleep: int)
      requires Valid() && Enabled(View(), PassEnds)
      modifies this`place, this`recentEvents
      ensures Valid() && View() == Next(config, old(View()), PassEnds) && sleep == old(place.interval)
    {
      recentEvents := LastN(recentEvents, KEPT_EVENTS);
      sleep := place.interval;
      place := Asleep;
    }

    /** _on_syslog_event */
    method OnSyslogEvent(category: Syslog.Category, now: real)
      requires Valid()
      modifies this`recentEvents
      ensures Valid() && View() == Next(config, old(View()), SyslogReceived(category, now))
    {
      var alerts := engine.ProcessSyslogEvent(category, now);
      var before := recentEvents;
      for i := 0 to |alerts|
        invariant recentEvents == before + alerts[..i]
      {
        recentEvents := recentEvents + [alerts[i]];
      }
      assert alerts[..|alerts|] == alerts;
    }

    /** What a round of the heartbeat loop sends (local/main.py, lines 136-137; local/heartbeat.py, lines 24-35). */
    method BuildPayload() returns (payload: Payload)
      requires Valid()
      ensures payload == PayloadOf(View())
    {
      var wanStates := engine.GetCurrentWanStates();
      payload := Payload(wanStates, LastN(recentEvents, SENT_EVENTS));
    }

    /** Both loops under a given interleaving: the sleeps taken and the heartbeat built after every event. */
    method PollLoop(script: seq<Event>) returns (sleeps: seq<int>, payloads: seq<Payload>)
      requires Valid() && View() == START && IsRun(config, script)
      modifies this, poller, engine, engine.Records()
      ensures Valid() && View() == After(config, script)
      ensures sleeps == Sleeps(config, script)
      ensures payloads == Heartbeats(config, script)
    {
      sleeps, payloads := [], [];
      assert script[..0] == [];
      assert IsRun(config, []) && After(config, []) == START;
      assert Sleeps(config, []) == [] && Heartbeats(config, []) == [];
      hide After, Sleeps, Heartbeats, SleepOf, IsRun, Next, Enabled, PayloadOf;
      for i := 0 to |script|
        invariant Valid() && fresh(engine.Records() - old(engine.Records()))
        invariant IsRun(config, script[..i]) && View() == After(config, script[..i])
        invariant sleeps == Sleeps(config, script[..i])
        invariant payloads == Heartbeats(config, script[..i])
      {
        RunStep(config, script, i);
        var slept := Handle(script[i]);
        sleeps := sleeps + slept;
        var payload := BuildPayload();
        payloads := payloads + [payload];
      }
      assert script[..|script|] == script;
    }

    method Handle(e: Event) returns (slept: seq<int>)
      requires Valid() && Enabled(View(), e)
      modifies this`place, this`recentEvents, poller, engine, engine.Records()
      ensures Valid() && fresh(engine.Records() - old(engine.Records()))
      ensures View() == Next(config, old(View()), e)
      ensures slept == SleepOf(old(View()), e)
    {
      slept := [];
      match e
      case PassBegins(now) => BeginPass(now);
      case PollReturned(nextHop, links) => FinishPoll(nextHop, links);
      case StateProcessed(now) => ProcessState(now);
      case SendReturned => FinishSend();
      case PassRaised =>
        var sleep := AbandonPass();
        slept := [sleep];
      case PassEnds =>
        var sleep := EndPass();
        slept := [sleep];
      case SyslogReceived(category, now) => OnSyslogEvent(category, now);
    }
  }

  // ----- runs -----

  type Run = seq<Event>

  ghost predicate IsRun(c: Config, run: Run) {
    run != [] ==> IsRun(c, Front(run)) && Enabled(After(c, Front(run)), Last(run))
  }

  /** The state after a run (for anything else, any state will do). */
  ghost function After(c: Config, run: Run): State {
    if run == [] then START
    else if Enabled(After(c, Front(run)), Last(run)) then Next(c, After(c, Front(run)), Last(run))
    else After(c, Front(run))
  }

  /** The sleep an event leads to. */
  function SleepOf(s: State, e: Event): seq<int>
    requires Enabled(s, e)
  {
    match e
    case PassEnds => [s.place.interval]
    case PassRaised => [ERROR_SLEEP]
    case _ => []
  }

  /** The sleeps of the poll loop, in order. */
  ghost function Sleeps(c: Config, run: Run): seq<int>
    requires IsRun(c, run)
  {
    if run == [] then [] else Sleeps(c, Front(run)) + SleepOf(After(c, Front(run)), Last(run))
  }

  /** The heartbeat that would be built after each event. */
  ghost function Heartbeats(c: Config, run: Run): seq<Payload> {
    if run == [] then [] else Heartbeats(c, Front(run)) + [PayloadOf(After(c, run))]
  }

  lemma {:induction false} RunPrefix(c: Config, run: Run, i: nat)
    requires IsRun(c, run) && i <= |run|
    ensures IsRun(c, run[..i])
  {
    if i < |run| {
      RunPrefix(c, Front(run), i);
      assert Front(run)[..i] == run[..i];
    } else {
      assert run[..i] == run;
    }
  }

  lemma RunStep(c: Config, run: Run, i: nat)
    requires IsRun(c, run) && i < |run|
    ensures IsRun(c, run[..i]) && IsRun(c, run[..i + 1]) && Enabled(After(c, run[..i]), run[i])
    ensures After(c, run[..i + 1]) == Next(c, After(c, run[..i]), run[i])
    ensures Sleeps(c, run[..i + 1]) == Sleeps(c, run[..i]) + SleepOf(After(c, run[..i]), run[i])
    ensures Heartbeats(c, run[..i + 1]) == Heartbeats(c, run[..i]) + [PayloadOf(After(c, run[..i + 1]))]
  {
    RunPrefix(c, run, i);
    RunPrefix(c, run, i + 1);
    FrontOfPrefix(run, i);
  }
}
