/** The DNS record monitor (remote/dns_monitor.py). A resolution is an arbitrary optional address. */
module DnsMonitor {
  import opened Common

  datatype DnsAlert =
    | ResolutionFailed(failures: nat, lastKnown: Option<string>)
    | Changed(before: string, after: string)
    | Mismatch(current: string, expected: string)

  /** The two fields that survive from one check to the next. */
  datatype Tracker = Tracker(lastSeenIp: Option<string>, consecutiveFailures: nat)

  const START := Tracker(None, 0)

  function Next(t: Tracker, resolved: Option<string>): Tracker {
    match resolved
    case None => t.(consecutiveFailures := t.consecutiveFailures + 1)
    case Some(_) => Tracker(resolved, 0)
  }

  function AlertsOf(expectedIp: string, t: Tracker, resolved: Option<string>): seq<DnsAlert> {
    match resolved
    case None =>
      if t.consecutiveFailures + 1 >= 2 then [ResolutionFailed(t.consecutiveFailures + 1, t.lastSeenIp)] else []
    case Some(ip) =>
      (if t.lastSeenIp.Some? && ip != t.lastSeenIp.value then [Changed(t.lastSeenIp.value, ip)] else []) +
      (if expectedIp != "" && ip != expectedIp then [Mismatch(ip, expectedIp)] else [])
  }

  class DnsMonitor {
    const expectedIp: string
    var lastSeenIp: Option<string>
    var consecutiveFailures: nat

    constructor (expectedIp: string)
      ensures this.expectedIp == expectedIp && View() == START
    {
      this.expectedIp := expectedIp;
      lastSeenIp, consecutiveFailures := None, 0;
    }

    function View(): Tracker
      reads this
    {
      Tracker(lastSeenIp, consecutiveFailures)
    }

    method Check(resolved: Option<string>) returns (alerts: seq<DnsAlert>)
      modifies this
      ensures View() == Next(old(View()), resolved)
      ensures alerts == AlertsOf(expectedIp, old(View()), resolved)
    {
      if resolved.None? {
        consecutiveFailures := consecutiveFailures + 1;
        if consecutiveFailures >= 2 {
          return [ResolutionFailed(consecutiveFailures, lastSeenIp)];
        }
        return [];
      }
      consecutiveFailures := 0;
      alerts := [];
      var currentIp := resolved.value;
      if lastSeenIp.Some? && currentIp != lastSeenIp.value {
        alerts := alerts + [Changed(lastSeenIp.value, currentIp)];
      }
      if expectedIp != "" && currentIp != expectedIp {
        alerts := alerts + [Mismatch(currentIp, expectedIp)];
      }
      lastSeenIp := Some(currentIp);
    }
  }

  // ----- runs -----

  type Resolutions = seq<Option<string>>

  function After(run: Resolutions): Tracker {
    if run == [] then START else Next(After(Front(run)), Last(run))
  }

  /** Every alert of a run, in order. */
  function Emitted(expectedIp: string, run: Resolutions): seq<DnsAlert> {
    if run == [] then []
    else Emitted(expectedIp, Front(run)) + AlertsOf(expectedIp, After(Front(run)), Last(run))
  }

  function Successes(run: Resolutions): seq<string> {
    if run == [] then []
    else Successes(Front(run)) + (if Last(run).Some? then [Last(run).value] else [])
  }

  /** How many resolutions at the end of the run failed in a row. */
  function TrailingFailures(run: Resolutions): nat {
    if run == [] || Last(run).Some? then 0 else TrailingFailures(Front(run)) + 1
  }

  function NewestSuccess(run: Resolutions): Option<string> {
    if Successes(run) == [] then None else Some(Last(Successes(run)))
  }

  /** What the monitor remembers: the newest success and the length of the failure run it is in. */
  lemma {:induction false} TrackerMeaning(run: Resolutions)
    ensures After(run) == Tracker(NewestSuccess(run), TrailingFailures(run))
  {
    if run != [] {
      TrackerMeaning(Front(run));
    }
  }

  // ----- changes -----

  function Changes(alerts: seq<DnsAlert>): seq<DnsAlert> {
    if alerts == [] then []
    else Changes(Front(alerts)) + (if Last(alerts).Changed? then [Last(alerts)] else [])
  }

  /** The unequal adjacent pairs of a sequence of addresses. */
  function UnequalNeighbours(ips: seq<string>): seq<DnsAlert> {
    if |ips| < 2 then []
    else UnequalNeighbours(Front(ips)) +
         (if ips[|ips| - 2] != Last(ips) then [Changed(ips[|ips| - 2], Last(ips))] else [])
  }

  lemma NeighboursSnoc(ips: seq<string>, ip: string)
    ensures UnequalNeighbours(ips + [ip]) ==
            UnequalNeighbours(ips) + (if ips != [] && Last(ips) != ip then [Changed(Last(ips), ip)] else [])
  {
    assert Front(ips + [ip]) == ips;
  }

  lemma {:induction false} FilterConcat(keep: seq<DnsAlert> -> seq<DnsAlert>, a: seq<DnsAlert>, b: seq<DnsAlert>)
    requires forall s: seq<DnsAlert>, x: DnsAlert :: keep(s + [x]) == keep(s) + keep([x])
    requires keep([]) == []
    ensures keep(a + b) == keep(a) + keep(b)
  {
    if b == [] {
      assert a + b == a;
    } else {
      FilterConcat(keep, a, Front(b));
      assert a + b == (a + Front(b)) + [Last(b)];
      assert b == Front(b) + [Last(b)];
    }
  }

  lemma {:induction false} ChangesConcat(a: seq<DnsAlert>, b: seq<DnsAlert>)
    ensures Changes(a + b) == Changes(a) + Changes(b)
  {
    forall s: seq<DnsAlert>, x: DnsAlert ensures Changes(s + [x]) == Changes(s) + Changes([x]) {
      assert Front(s + [x]) == s;
    }
    FilterConcat(Changes, a, b);
  }

  /** The change alerts of a run are exactly the unequal adjacent pairs of its successful resolutions:
      failures in between neither add nor hide a change. */
  lemma {:induction false} ChangesAreUnequalNeighbours(expectedIp: string, run: Resolutions)
    ensures Changes(Emitted(expectedIp, run)) == UnequalNeighbours(Successes(run))
  {
    if run != [] {
      var before, now := Front(run), AlertsOf(expectedIp, After(Front(run)), Last(run));
      ChangesAreUnequalNeighbours(expectedIp, before);
      TrackerMeaning(before);
      ChangesConcat(Emitted(expectedIp, before), now);
      ChangesOfOneCheck(expectedIp, After(before), Last(run));
      if Last(run).Some? {
        NeighboursSnoc(Successes(before), Last(run).value);
      } else {
        assert Successes(run) == Successes(before);
      }
    }
  }

  lemma ChangesOfOneCheck(expectedIp: string, t: Tracker, resolved: Option<string>)
    ensures Changes(AlertsOf(expectedIp, t, resolved)) ==
            if resolved.Some? && t.lastSeenIp.Some? && resolved.value != t.lastSeenIp.value
            then [Changed(t.lastSeenIp.value, resolved.value)] else []
  {
    if resolved.Some? {
      var change := if t.lastSeenIp.Some? && resolved.value != t.lastSeenIp.value
                    then [Changed(t.lastSeenIp.value, resolved.value)] else [];
      var rest := if expectedIp != "" && resolved.value != expectedIp
                  then [Mismatch(resolved.value, expectedIp)] else [];
      ChangesConcat(change, rest);
    }
  }

  /** Following change alerts from an address; None when one does not start where the last one ended. */
  function Follow(start: string, changes: seq<DnsAlert>): Option<string> {
    if changes == [] then Some(start)
    else match (Follow(start, Front(changes)), Last(changes))
      case (Some(ip), Changed(before, after)) => if ip == before then Some(after) else None
      case _ => None
  }

  lemma FollowSnoc(start: string, changes: seq<DnsAlert>, before: string, after: string)
    requires Follow(start, changes) == Some(before)
    ensures Follow(start, changes + [Changed(before, after)]) == Some(after)
  {
    assert Front(changes + [Changed(before, after)]) == changes;
  }

  lemma {:induction false} NeighboursFollow(ips: seq<string>)
    requires ips != []
    ensures Follow(ips[0], UnequalNeighbours(ips)) == Some(Last(ips))
  {
    if |ips| > 1 {
      NeighboursFollow(Front(ips));
      var before, after := ips[|ips| - 2], Last(ips);
      if before != after {
        FollowSnoc(ips[0], UnequalNeighbours(Front(ips)), before, after);
      } else {
        assert UnequalNeighbours(ips) == UnequalNeighbours(Front(ips));
      }
    }
  }

  /** The change alerts chain: followed from the first address ever seen they reach the one now stored. */
  lemma {:induction false} ChangesReachLastSeen(expectedIp: string, run: Resolutions)
    requires Successes(run) != []
    ensures Follow(Successes(run)[0], Changes(Emitted(expectedIp, run))) == After(run).lastSeenIp
  {
    ChangesAreUnequalNeighbours(expectedIp, run);
    NeighboursFollow(Successes(run));
    TrackerMeaning(run);
  }

  // ----- failures -----

  /** The warnings a failure run of the given length should give: none for the first failure, then 2, 3, ... */
  function WarningsFor(length: nat, lastKnown: Option<string>): seq<DnsAlert> {
    if length < 2 then [] else WarningsFor(length - 1, lastKnown) + [ResolutionFailed(length, lastKnown)]
  }

  lemma {:induction false} WarningCount(length: nat, lastKnown: Option<string>)
    requires length > 0
    ensures |WarningsFor(length, lastKnown)| == length - 1
  {
    if length > 1 {
      WarningCount(length - 1, lastKnown);
    }
  }

  function Failures(length: nat): Resolutions {
    seq(length, _ => None)
  }

  /** A failure run of length L after any history gives exactly L - 1 warnings, numbered 2 to L, each naming
      the newest address known before the run. */
  lemma {:induction false} FailureRunWarnings(expectedIp: string, history: Resolutions, length: nat)
    requires history == [] || Last(history).Some?
    ensures Emitted(expectedIp, history + Failures(length)) ==
            Emitted(expectedIp, history) + WarningsFor(length, NewestSuccess(history))
    ensures After(history + Failures(length)) == Tracker(NewestSuccess(history), length)
    ensures length > 0 ==> |WarningsFor(length, NewestSuccess(history))| == length - 1
  {
    hide AlertsOf, Next;
    var run := history + Failures(length);
    if length == 0 {
      assert run == history;
      TrackerMeaning(history);
    } else {
      FailureRunWarnings(expectedIp, history, length - 1);
      WarningCount(length, NewestSuccess(history));
      OneMoreFailure(expectedIp, history + Failures(length - 1), NewestSuccess(history), length);
      assert run == history + Failures(length - 1) + [None];
    }
  }

  lemma OneMoreFailure(expectedIp: string, run: Resolutions, lastKnown: Option<string>, length: nat)
    requires length > 0 && After(run) == Tracker(lastKnown, length - 1)
    ensures After(run + [None]) == Tracker(lastKnown, length)
    ensures Emitted(expectedIp, run + [None]) ==
            Emitted(expectedIp, run) + (if length < 2 then [] else [ResolutionFailed(length, lastKnown)])
  {
    assert Front(run + [None]) == run;
  }

  // ----- one more check, after any run -----

  /** A success adds the change against the newest success, if it differs, then the mismatch, if it is unexpected,
      and nothing else, however many failures came before it. */
  lemma SuccessAdds(expectedIp: string, run: Resolutions, ip: string)
    ensures Emitted(expectedIp, run + [Some(ip)]) == Emitted(expectedIp, run) +
            (if NewestSuccess(run).Some? && NewestSuccess(run).value != ip
             then [Changed(NewestSuccess(run).value, ip)] else []) +
            (if expectedIp != "" && ip != expectedIp then [Mismatch(ip, expectedIp)] else [])
  {
    TrackerMeaning(run);
    hide TrailingFailures, NewestSuccess;
    assert Front(run + [Some(ip)]) == run;
  }

  /** A failure adds a warning unless it is the first of its row, and nothing else. */
  lemma FailureAdds(expectedIp: string, run: Resolutions)
    ensures Emitted(expectedIp, run + [None]) == Emitted(expectedIp, run) +
            (if TrailingFailures(run) == 0 then []
             else [ResolutionFailed(TrailingFailures(run) + 1, NewestSuccess(run))])
  {
    TrackerMeaning(run);
    hide TrailingFailures, NewestSuccess;
    assert Front(run + [None]) == run;
  }

  function Warnings(alerts: seq<DnsAlert>): seq<DnsAlert> {
    if alerts == [] then []
    else Warnings(Front(alerts)) + (if Last(alerts).ResolutionFailed? then [Last(alerts)] else [])
  }

  /** The failures that are not the first of their row: which in the row, and the newest success before it. */
  function LateFailures(run: Resolutions): seq<DnsAlert> {
    if run == [] then []
    else LateFailures(Front(run)) +
         (if TrailingFailures(run) >= 2 then [ResolutionFailed(TrailingFailures(run), NewestSuccess(run))] else [])
  }

  lemma WarningsConcat(a: seq<DnsAlert>, b: seq<DnsAlert>)
    ensures Warnings(a + b) == Warnings(a) + Warnings(b)
  {
    forall s: seq<DnsAlert>, x: DnsAlert ensures Warnings(s + [x]) == Warnings(s) + Warnings([x]) {
      assert Front(s + [x]) == s;
    }
    FilterConcat(Warnings, a, b);
  }

  lemma NoWarnings(expectedIp: string, before: Option<string>, ip: string)
    ensures Warnings((if before.Some? && before.value != ip then [Changed(before.value, ip)] else []) +
                     (if expectedIp != "" && ip != expectedIp then [Mismatch(ip, expectedIp)] else [])) == []
  {
    var change := if before.Some? && before.value != ip then [Changed(before.value, ip)] else [];
    var rest := if expectedIp != "" && ip != expectedIp then [Mismatch(ip, expectedIp)] else [];
    WarningsConcat(change, rest);
  }

  /** The warnings of any run are exactly its failures beyond the first of each row. */
  lemma {:induction false} WarningsAreLateFailures(expectedIp: string, run: Resolutions)
    ensures Warnings(Emitted(expectedIp, run)) == LateFailures(run)
  {
    if run != [] {
      WarningsAreLateFailures(expectedIp, Front(run));
      OneMoreLate(run);
      OneMoreWarning(expectedIp, run);
    }
  }

  lemma OneMoreWarning(expectedIp: string, run: Resolutions)
    requires run != []
    ensures Warnings(Emitted(expectedIp, run)) == Warnings(Emitted(expectedIp, Front(run))) +
            (if Last(run).Some? || TrailingFailures(Front(run)) == 0 then []
             else [ResolutionFailed(TrailingFailures(Front(run)) + 1, NewestSuccess(Front(run)))])
  {
    hide Emitted, Warnings, TrailingFailures, NewestSuccess;
    if Last(run).Some? {
      assert run == Front(run) + [Some(Last(run).value)];
      WarningsOfSuccess(expectedIp, Front(run), Last(run).value);
    } else {
      assert run == Front(run) + [None];
      WarningsOfFailure(expectedIp, Front(run));
    }
  }

  lemma OneMoreLate(run: Resolutions)
    requires run != []
    ensures LateFailures(run) == LateFailures(Front(run)) +
            (if Last(run).Some? || TrailingFailures(Front(run)) == 0 then []
             else [ResolutionFailed(TrailingFailures(Front(run)) + 1, NewestSuccess(Front(run)))])
  {
    FailureKeepsNewest(run);
    hide NewestSuccess, Successes;
    assert TrailingFailures(run) == if Last(run).Some? then 0 else TrailingFailures(Front(run)) + 1;
  }

  lemma FailureKeepsNewest(run: Resolutions)
    requires run != []
    ensures Last(run).None? ==> NewestSuccess(run) == NewestSuccess(Front(run))
  {
    if Last(run).None? {
      assert Successes(run) == Successes(Front(run));
    }
  }

  lemma WarningsOfSuccess(expectedIp: string, run: Resolutions, ip: string)
    ensures Warnings(Emitted(expectedIp, run + [Some(ip)])) == Warnings(Emitted(expectedIp, run))
  {
    var change := if NewestSuccess(run).Some? && NewestSuccess(run).value != ip
                  then [Changed(NewestSuccess(run).value, ip)] else [];
    var rest := if expectedIp != "" && ip != expectedIp then [Mismatch(ip, expectedIp)] else [];
    SuccessAdds(expectedIp, run, ip);
    NoWarnings(expectedIp, NewestSuccess(run), ip);
    hide Emitted, Warnings, NewestSuccess;
    assert Emitted(expectedIp, run) + change + rest == Emitted(expectedIp, run) + (change + rest);
    WarningsConcat(Emitted(expectedIp, run), change + rest);
  }

  lemma WarningsOfFailure(expectedIp: string, run: Resolutions)
    ensures Warnings(Emitted(expectedIp, run + [None])) == Warnings(Emitted(expectedIp, run)) +
            (if TrailingFailures(run) == 0 then []
             else [ResolutionFailed(TrailingFailures(run) + 1, NewestSuccess(run))])
  {
    FailureAdds(expectedIp, run);
    var alerts := Emitted(expectedIp, run);
    hide Emitted, NewestSuccess;
    if TrailingFailures(run) == 0 {
      assert alerts + [] == alerts;
    } else {
      assert Front(alerts + [ResolutionFailed(TrailingFailures(run) + 1, NewestSuccess(run))]) == alerts;
    }
  }

  // ----- mismatches -----

  function Mismatches(alerts: seq<DnsAlert>): seq<DnsAlert> {
    if alerts == [] then []
    else Mismatches(Front(alerts)) + (if Last(alerts).Mismatch? then [Last(alerts)] else [])
  }

  /** The addresses that differ from a non-empty expected one, as alerts. */
  function Unexpected(expectedIp: string, ips: seq<string>): seq<DnsAlert> {
    if ips == [] || expectedIp == "" then []
    else Unexpected(expectedIp, Front(ips)) +
         (if Last(ips) != expectedIp then [Mismatch(Last(ips), expectedIp)] else [])
  }

  lemma UnexpectedSnoc(expectedIp: string, ips: seq<string>, ip: string)
    ensures Unexpected(expectedIp, ips + [ip]) ==
            Unexpected(expectedIp, ips) +
            (if expectedIp != "" && ip != expectedIp then [Mismatch(ip, expectedIp)] else [])
  {
    assert Front(ips + [ip]) == ips;
  }

  lemma {:induction false} MismatchesConcat(a: seq<DnsAlert>, b: seq<DnsAlert>)
    ensures Mismatches(a + b) == Mismatches(a) + Mismatches(b)
  {
    forall s: seq<DnsAlert>, x: DnsAlert ensures Mismatches(s + [x]) == Mismatches(s) + Mismatches([x]) {
      assert Front(s + [x]) == s;
    }
    FilterConcat(Mismatches, a, b);
  }

  lemma MismatchesOfOneCheck(expectedIp: string, t: Tracker, resolved: Option<string>)
    ensures Mismatches(AlertsOf(expectedIp, t, resolved)) ==
            if resolved.Some? && expectedIp != "" && resolved.value != expectedIp
            then [Mismatch(resolved.value, expectedIp)] else []
  {
    if resolved.Some? {
      var change := if t.lastSeenIp.Some? && resolved.value != t.lastSeenIp.value
                    then [Changed(t.lastSeenIp.value, resolved.value)] else [];
      var rest := if expectedIp != "" && resolved.value != expectedIp
                  then [Mismatch(resolved.value, expectedIp)] else [];
      MismatchesConcat(change, rest);
    }
  }

  /** The mismatch alerts are exactly the successes that differ from a non-empty expected address. */
  lemma {:induction false} MismatchesAreUnexpected(expectedIp: string, run: Resolutions)
    ensures Mismatches(Emitted(expectedIp, run)) == Unexpected(expectedIp, Successes(run))
  {
    if run != [] {
      var before := Front(run);
      MismatchesAreUnexpected(expectedIp, before);
      MismatchesConcat(Emitted(expectedIp, before), AlertsOf(expectedIp, After(before), Last(run)));
      MismatchesOfOneCheck(expectedIp, After(before), Last(run));
      if Last(run).Some? {
        UnexpectedSnoc(expectedIp, Successes(before), Last(run).value);
      } else {
        assert Successes(run) == Successes(before);
      }
    }
  }
}
