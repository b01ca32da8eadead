/** How many heartbeats may be lost before the sentinel raises a false alarm: a periodic sender and a network
    that delays, reorders and loses, against the deadline of remote/heartbeat_receiver.py. */
module LossTolerance {
  import opened Common
  import opened HeartbeatReceiver
  import opened Sentinel

  /** A heartbeat handed to the network, and when it is delivered if it is. */
  datatype Send = Send(at: real, arrival: Option<real>)

  // ----- the network -----

  /** Sends at most `period` apart. */
  ghost predicate Periodic(sends: seq<Send>, period: real) {
    forall i | 0 <= i < |sends| - 1 :: sends[i].at <= sends[i + 1].at <= sends[i].at + period
  }

  /** A delivered heartbeat takes at most `delay`; later ones may overtake it. */
  ghost predicate Timely(sends: seq<Send>, delay: real) {
    forall i | 0 <= i < |sends| && sends[i].arrival.Some? ::
      sends[i].at <= sends[i].arrival.value <= sends[i].at + delay
  }

  ghost predicate DeliveredFrom(sends: seq<Send>, low: nat, m: nat) {
    exists i :: low <= i < |sends| && i <= low + m && sends[i].arrival.Some?
  }

  /** Of any m + 1 consecutive heartbeats one is delivered. */
  ghost predicate LosesAtMost(sends: seq<Send>, m: nat) {
    forall i: nat | i + m < |sends| :: DeliveredFrom(sends, i, m)
  }

  ghost predicate IsArrival(sends: seq<Send>, k: nat, at: real) {
    k < |sends| && sends[k].arrival == Some(at)
  }

  ghost predicate RecordedBefore(run: Run, n: nat, at: real)
    requires n <= |run|
  {
    exists i :: 0 <= i < n && HeartbeatAt(run, i) && run[i].at == at
  }

  /** The run records what the network delivers: nothing else, and every delivery by the next clock reading of a pass;
      and up to each pass the sender has kept its period. */
  ghost predicate Feeds(sends: seq<Send>, run: Run, period: real) {
    && (forall i | 0 <= i < |run| && HeartbeatAt(run, i) :: exists k :: IsArrival(sends, k, run[i].at))
    && (forall n, k | 0 <= n < |run| && run[n].PassBegins? && 0 <= k < |sends| && sends[k].arrival.Some? ::
          sends[k].arrival.value < run[n].read69 ==> RecordedBefore(run, n, sends[k].arrival.value))
    && (forall n | 0 <= n < |run| && run[n].PassBegins? :: sends != [] && run[n].read69 <= Last(sends).at + period)
  }

  ghost predicate Conforms(c: Config, sends: seq<Send>, run: Run, period: real, delay: real, m: nat) {
    && IsRun(c, run)
    && Periodic(sends, period) && Timely(sends, delay) && LosesAtMost(sends, m)
    && Feeds(sends, run, period)
  }

  /** No LOST is decided once a heartbeat has been received. */
  ghost predicate Quiet(c: Config, run: Run) {
    forall i, n | 0 <= i < n < |run| && HeartbeatAt(run, i) :: !LostAt(c, run, n)
  }

  // ----- enough slack means no false alarm -----

  /** k periods */
  function Span(k: nat, period: real): real {
    if k == 0 then 0.0 else Span(k - 1, period) + period
  }

  lemma {:induction false} SpanIsProduct(k: nat, period: real)
    ensures Span(k, period) == k as real * period
  {
    if k > 0 {
      SpanIsProduct(k - 1, period);
      assert k as real * period == (k - 1) as real * period + period;
    }
  }

  lemma {:induction false} LongerSpan(a: nat, b: nat, period: real)
    requires a <= b && period >= 0.0
    ensures Span(a, period) <= Span(b, period)
  {
    if a < b {
      LongerSpan(a, b - 1, period);
    }
  }

  lemma {:induction false} SpreadBound(sends: seq<Send>, period: real, i: nat, j: nat)
    requires Periodic(sends, period) && i <= j < |sends|
    ensures sends[i].at <= sends[j].at <= sends[i].at + Span(j - i, period)
  {
    if i < j {
      SpreadBound(sends, period, i, j - 1);
    }
  }

  /** How many sends lie before the given time. */
  lemma {:induction false} SendsBefore(sends: seq<Send>, period: real, time: real) returns (n: nat)
    requires Periodic(sends, period)
    ensures n <= |sends| && (n > 0 ==> sends[n - 1].at < time) && (n < |sends| ==> sends[n].at >= time)
  {
    n := 0;
    while n < |sends| && sends[n].at < time
      invariant n <= |sends| && (n > 0 ==> sends[n - 1].at < time)
    {
      n := n + 1;
    }
  }

  /** A delivered heartbeat among the m + 1 newest that must have arrived, or the first one received. */
  lemma RecentDelivery(sends: seq<Send>, m: nat, first: nat, n: nat) returns (j: nat)
    requires LosesAtMost(sends, m) && first < n <= |sends| && sends[first].arrival.Some?
    ensures n - 1 - m <= j < n && sends[j].arrival.Some?
  {
    if first >= n - 1 - m {
      j := first;
    } else {
      var low := n - 1 - m;
      assert DeliveredFrom(sends, low, m);
      var i :| low <= i < |sends| && i <= low + m && sends[i].arrival.Some?;
      j := i;
    }
  }

  /** When a pass reads the clock, a heartbeat from the last (m + 1) periods plus the delay has been recorded. */
  lemma RecentHeartbeat(c: Config, sends: seq<Send>, run: Run, period: real, delay: real, m: nat, i: nat, n: nat)
    returns (r: nat)
    requires Conforms(c, sends, run, period, delay, m) && period >= 0.0 && delay >= 0.0
    requires i < n < |run| && HeartbeatAt(run, i) && run[n].PassBegins?
    ensures r < n && HeartbeatAt(run, r) && run[n].read69 - run[r].at <= Span(m + 1, period) + delay
  {
    var now := run[n].read69;
    var first: nat :| IsArrival(sends, first, run[i].at);
    var count := SendsBefore(sends, period, now - delay);
    LongerSpan(0, m + 1, period);
    if count <= first {
      r := i;
      if count < |sends| {
        SpreadBound(sends, period, count, first);
      }
    } else {
      var j := RecentDelivery(sends, m, first, count);
      var at := sends[j].arrival.value;
      SpreadBound(sends, period, j, count - 1);
      assert RecordedBefore(run, n, at);
      r :| 0 <= r < n && HeartbeatAt(run, r) && run[r].at == at;
      SendIsRecent(sends, period, delay, m, j, count, now);
    }
  }

  lemma SendIsRecent(sends: seq<Send>, period: real, delay: real, m: nat, j: nat, count: nat, now: real)
    requires Periodic(sends, period) && period >= 0.0 && delay >= 0.0
    requires count - 1 - m <= j < count <= |sends|
    requires if count < |sends| then sends[count].at >= now - delay else now <= Last(sends).at + period
    ensures now - sends[j].at <= Span(m + 1, period) + delay
  {
    if count < |sends| {
      SpreadBound(sends, period, j, count);
      LongerSpan(count - j, m + 1, period);
    } else {
      SpreadBound(sends, period, j, count - 1);
      LongerSpan(count - 1 - j, m, period);
    }
  }

  /** When (m + 1) periods and one delay fit into the deadline, m losses in a row never cause a LOST. */
  lemma {:induction false} SlackPreventsFalseAlarm(c: Config, sends: seq<Send>, run: Run, period: real, delay: real,
                                                   m: nat)
    requires Conforms(c, sends, run, period, delay, m) && period >= 0.0 && delay >= 0.0
    requires (m + 1) as real * period + delay <= c.Deadline()
    ensures Quiet(c, run)
  {
    SpanIsProduct(m + 1, period);
    SpanPreventsFalseAlarm(c, sends, run, period, delay, m);
  }

  lemma SpanPreventsFalseAlarm(c: Config, sends: seq<Send>, run: Run, period: real, delay: real, m: nat)
    requires Conforms(c, sends, run, period, delay, m) && period >= 0.0 && delay >= 0.0
    requires Span(m + 1, period) + delay <= c.Deadline()
    ensures Quiet(c, run)
  {
    forall i, n | 0 <= i < n < |run| && HeartbeatAt(run, i) ensures !LostAt(c, run, n) {
      if LostAt(c, run, n) {
        var r := RecentHeartbeat(c, sends, run, period, delay, m, i, n);
        NoFalseAlarm(c, run, r, n);
        assert false;
      }
    }
  }

  // ----- too little slack lets a false alarm through -----

  lemma Archimedes(step: real, goal: real) returns (n: nat)
    requires step > 0.0
    ensures Span(n, step) >= goal
  {
    var q := goal / step;
    n := if q <= 0.0 then 0 else q.Floor + 1;
    SpanIsProduct(n, step);
    if q > 0.0 {
      assert n as real >= q;
      assert n as real * step >= q * step;
    }
  }

  /** The first heartbeat arrives at once, the next m are lost, all others take the full delay. */
  function WorstSend(period: real, delay: real, m: nat, k: nat): Send {
    var at := Span(k, period);
    Send(at, if k == 0 then Some(at) else if k <= m then None else Some(at + delay))
  }

  function WorstSends(period: real, delay: real, m: nat, n: nat): seq<Send> {
    seq(n, k requires 0 <= k < n => WorstSend(period, delay, m, k))
  }

  lemma WorstIsAllowed(period: real, delay: real, m: nat, n: nat)
    requires period > 0.0 && delay >= 0.0
    ensures var s := WorstSends(period, delay, m, n); Periodic(s, period) && Timely(s, delay) && LosesAtMost(s, m)
  {
    var s := WorstSends(period, delay, m, n);
    forall i | 0 <= i < |s| - 1 ensures s[i].at <= s[i + 1].at <= s[i].at + period {
      assert s[i].at == Span(i, period) && s[i + 1].at == Span(i + 1, period);
    }
    forall i: nat | i + m < |s| ensures DeliveredFrom(s, i, m) {
      assert s[if i == 0 then 0 else i + m].arrival.Some?;
    }
  }

  const ANY_PAYLOAD := Payload(map[], [])

  /** One heartbeat at the start of the loop, then one pass. */
  function BeatThenPass(now: real): Run {
    [HeartbeatRecorded(0.0, ANY_PAYLOAD), PassBegins(now, now)]
  }

  lemma LateRun(c: Config, now: real)
    requires now >= 0.0 && now > c.Deadline()
    ensures IsRun(c, BeatThenPass(now)) && !Quiet(c, BeatThenPass(now))
  {
    var beat, pass := HeartbeatRecorded(0.0, ANY_PAYLOAD), PassBegins(now, now);
    var run := BeatThenPass(now);
    var r0: Run := [];
    assert IsRun(c, r0) && After(c, r0) == START;
    Extended(c, r0, beat);
    Extended(c, [beat], pass);
    assert run == [beat] + [pass] && [beat] == r0 + [beat] && run[..1] == [beat];
    assert HeartbeatAt(run, 0) && LostAt(c, run, 1);
  }

  /** The pass reads the clock just before the first delayed heartbeat comes in. */
  lemma WorstRun(c: Config, period: real, delay: real, m: nat) returns (sends: seq<Send>, run: Run)
    requires period > 0.0 && delay >= 0.0 && Span(m + 1, period) + delay > c.Deadline()
    ensures Conforms(c, sends, run, period, delay, m) && !Quiet(c, run)
  {
    var now := Span(m + 1, period) + delay;
    LongerSpan(0, m + 1, period);
    var more := Archimedes(period, now);
    var n := more + m + 2;
    sends := WorstSends(period, delay, m, n);
    WorstIsAllowed(period, delay, m, n);
    run := BeatThenPass(now);
    LateRun(c, now);
    WorstFeeds(period, delay, m, more);
  }

  lemma WorstFeeds(period: real, delay: real, m: nat, more: nat)
    requires period > 0.0 && delay >= 0.0 && Span(more, period) >= Span(m + 1, period) + delay
    ensures Feeds(WorstSends(period, delay, m, more + m + 2), BeatThenPass(Span(m + 1, period) + delay), period)
  {
    var n, now := more + m + 2, Span(m + 1, period) + delay;
    var sends, run := WorstSends(period, delay, m, n), BeatThenPass(now);
    assert IsArrival(sends, 0, 0.0);
    assert Last(sends).at == Span(n - 1, period);
    LongerSpan(more, n - 1, period);
    forall k | 0 <= k < |sends| && sends[k].arrival.Some? && sends[k].arrival.value < now
      ensures RecordedBefore(run, 1, sends[k].arrival.value)
    {
      if k == 0 {
        assert HeartbeatAt(run, 0) && run[0].at == 0.0;
      } else {
        LongerSpan(m + 1, k, period);
        assert false;
      }
    }
  }

  /** No false alarm is possible, whatever the network does within these bounds. */
  ghost predicate Tolerates(c: Config, period: real, delay: real, m: nat) {
    forall sends: seq<Send>, run: Run | Conforms(c, sends, run, period, delay, m) :: Quiet(c, run)
  }

  /** The sentinel tolerates m losses in a row exactly when (m + 1) periods and one delay fit into its deadline. */
  lemma ToleranceExact(c: Config, period: real, delay: real, m: nat)
    requires period > 0.0 && delay >= 0.0
    ensures Tolerates(c, period, delay, m) <==>
            (m + 1) as real * period + delay <= (c.expectedInterval * c.missedThreshold) as real
  {
    if (m + 1) as real * period + delay <= c.Deadline() {
      forall sends: seq<Send>, run: Run | Conforms(c, sends, run, period, delay, m) ensures Quiet(c, run) {
        SlackPreventsFalseAlarm(c, sends, run, period, delay, m);
      }
    } else {
      SpanIsProduct(m + 1, period);
      var sends, run := WorstRun(c, period, delay, m);
      assert Conforms(c, sends, run, period, delay, m);
    }
  }
}
