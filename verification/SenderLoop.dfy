/** The heartbeat loop of the local monitor (local/main.py), round by round, and the whole way from it to the sentinel. */
module SenderLoop {
  import opened HeartbeatReceiver
  import opened Sentinel
  import opened LossTolerance

  /** One round of _heartbeat_loop: how long the send took, whether it raised, and how late the sleep ended. */
  datatype Round = Round(sending: real, raised: bool, late: real)

  const RETRY_SLEEP := 10

  function SleepOf(interval: int, r: Round): real {
    (if r.raised then RETRY_SLEEP else interval) as real
  }

  /** When round i of a loop started at the given time starts; its heartbeat is built and handed over then.
      The local monitor may start before or after the sentinel. */
  function StartOfRound(start: real, interval: int, rounds: seq<Round>, i: nat): real
    requires i <= |rounds|
  {
    if i == 0 then start
    else
      var r := rounds[i - 1];
      StartOfRound(start, interval, rounds, i - 1) + r.sending + SleepOf(interval, r) + r.late
  }

  function Period(interval: int, sending: real, late: real): real {
    sending + (if interval > 10 then interval else 10) as real + late
  }

  /** The sends a sender loop makes. */
  ghost predicate SentBy(start: real, interval: int, rounds: seq<Round>, sends: seq<Send>) {
    |sends| == |rounds| && forall i | 0 <= i < |sends| :: sends[i].at == StartOfRound(start, interval, rounds, i)
  }

  ghost predicate RoundsWithin(rounds: seq<Round>, sending: real, late: real) {
    forall i | 0 <= i < |rounds| :: 0.0 <= rounds[i].sending <= sending && 0.0 <= rounds[i].late <= late
  }

  /** From one round to the next: the send, then the interval or, after an exception, ten seconds, and the lateness. */
  lemma NextRound(start: real, interval: int, rounds: seq<Round>, sends: seq<Send>, i: nat)
    requires SentBy(start, interval, rounds, sends) && i + 1 < |sends|
    ensures sends[0].at == start
    ensures sends[i + 1].at - sends[i].at - rounds[i].sending - rounds[i].late ==
            if rounds[i].raised then 10.0 else interval as real
  {
    assert StartOfRound(start, interval, rounds, 0) == start;
  }

  /** The rounds of the loop keep a period, whichever of them raise. */
  lemma {:induction false} SenderIsPeriodic(start: real, interval: int, rounds: seq<Round>, sends: seq<Send>,
                                            sending: real, late: real)
    requires interval >= 0 && SentBy(start, interval, rounds, sends) && RoundsWithin(rounds, sending, late)
    ensures Periodic(sends, Period(interval, sending, late))
  {
    forall i | 0 <= i < |sends| - 1
      ensures sends[i].at <= sends[i + 1].at <= sends[i].at + Period(interval, sending, late)
    {
      var r := rounds[i];
      assert 0.0 <= r.sending <= sending && 0.0 <= r.late <= late;
      assert StartOfRound(start, interval, rounds, i + 1) ==
             StartOfRound(start, interval, rounds, i) + r.sending + SleepOf(interval, r) + r.late;
    }
  }

  /** End to end: a local monitor started at any time, whose rounds take at most `sending` and oversleep by at most
      `late`, over a network that delays by at most `delay` and loses at most m heartbeats in a row, causes no LOST
      once it has been heard. */
  lemma {:induction false} EndToEnd(c: Config, start: real, interval: int, rounds: seq<Round>, sends: seq<Send>,
                                    run: Run, sending: real, late: real, delay: real, m: nat)
    requires interval >= 0 && SentBy(start, interval, rounds, sends) && RoundsWithin(rounds, sending, late)
    requires sending >= 0.0 && late >= 0.0 && delay >= 0.0
    requires IsRun(c, run) && Timely(sends, delay) && LosesAtMost(sends, m)
    requires Feeds(sends, run, Period(interval, sending, late))
    requires (m + 1) as real * Period(interval, sending, late) + delay <= c.Deadline()
    ensures Quiet(c, run)
  {
    SenderIsPeriodic(start, interval, rounds, sends, sending, late);
    SlackPreventsFalseAlarm(c, sends, run, Period(interval, sending, late), delay, m);
  }
}
