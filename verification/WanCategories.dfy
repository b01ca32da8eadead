/** categorize_message on every message: which event it finds, with what priority, and which name it captures. */
module WanCategories {
  import opened Common
  import opened Regex
  import opened Syslog
  import opened AlertEngine
  import WanMessages

  // ----- occurrences of a template, without any matcher -----

  /** At position i the message has the head, a name of n characters without a newline, and the tail. */
  predicate TemplateAt(message: string, head: string, tail: string, i: nat, n: nat) {
    && n > 0 && i + |head| + n + |tail| <= |message|
    && message[i..i + |head|] == head
    && '\n' !in message[i + |head|..i + |head| + n]
    && message[i + |head| + n..i + |head| + n + |tail|] == tail
  }

  ghost predicate Occurs(message: string, head: string, tail: string) {
    exists i: nat, n: nat :: TemplateAt(message, head, tail, i, n)
  }

  /** One of the tails occurs behind the head and a name of n characters at position i. */
  ghost predicate AnyAt(message: string, w: WanPattern, i: nat, n: nat) {
    exists t :: t in w.tails && TemplateAt(message, w.head, t, i, n)
  }

  ghost predicate AnyOccurs(message: string, w: WanPattern) {
    exists i: nat, n: nat :: AnyAt(message, w, i, n)
  }

  // ----- the matcher finds exactly these -----

  lemma SliceOf(message: string, i: nat, a: nat, b: nat)
    requires i <= |message| && a <= b && i + b <= |message|
    ensures message[i..][a..b] == message[i + a..i + b]
  {
  }

  lemma ShiftTemplate(message: string, head: string, tail: string, i: nat, n: nat)
    requires i <= |message|
    ensures TemplateAt(message, head, tail, i, n) <==> TemplateAt(message[i..], head, tail, 0, n)
  {
    if i + |head| + n + |tail| <= |message| {
      SliceOf(message, i, 0, |head|);
      SliceOf(message, i, |head|, |head| + n);
      SliceOf(message, i, |head| + n, |head| + n + |tail|);
    }
  }

  lemma AtStartMatches(s: string, w: WanPattern, t: string, n: nat)
    requires t in w.tails && TemplateAt(s, w.head, t, 0, n)
    ensures var other := [w.head, s[|w.head|..|w.head| + n], t];
      AcceptsAll(PatternOf(w), other) && Concat(other) <= s
  {
    var name := s[|w.head|..|w.head| + n];
    WanMessages.ConcatThree(w.head, name, t);
    assert s == s[..|w.head|] + s[|w.head|..|w.head| + n] + s[|w.head| + n..|w.head| + n + |t|] +
                s[|w.head| + n + |t|..];
    NameAccepted(w, t, name);
    hide Concat;
  }

  lemma NameAccepted(w: WanPattern, t: string, name: string)
    requires t in w.tails && name != "" && '\n' !in name
    ensures AcceptsAll(PatternOf(w), [w.head, name, t])
  {
    assert AllIn(name, Dot);
  }

  /** At the start of a text the matcher succeeds exactly on an occurrence, and captures its shortest name. */
  lemma FirstMeaning(s: string, w: WanPattern)
    ensures First(PatternOf(w), s).Some? <==> exists n: nat :: AnyAt(s, w, 0, n)
    ensures First(PatternOf(w), s).Some? ==>
              var name := First(PatternOf(w), s).value[1];
              AnyAt(s, w, 0, |name|) && name == s[|w.head|..|w.head| + |name|] &&
              forall n: nat | AnyAt(s, w, 0, n) :: |name| <= n
  {
    hide First;
    if First(PatternOf(w), s).Some? {
      FoundAt(s, w);
      forall n: nat | AnyAt(s, w, 0, n) ensures |First(PatternOf(w), s).value[1]| <= n {
        ShortestFound(s, w, n);
      }
    }
    if n: nat :| AnyAt(s, w, 0, n) {
      var t :| t in w.tails && TemplateAt(s, w.head, t, 0, n);
      AtStartMatches(s, w, t, n);
      var other := [w.head, s[|w.head|..|w.head| + n], t];
      FlatFits(PatternOf(w), s, other);
      FirstFinds(PatternOf(w), s, other);
    }
  }

  lemma FoundAt(s: string, w: WanPattern)
    requires First(PatternOf(w), s).Some?
    ensures var q := First(PatternOf(w), s).value;
      AnyAt(s, w, 0, |q[1]|) && q[0] == w.head && |w.head| + |q[1]| <= |s| && q[1] == s[|w.head|..|w.head| + |q[1]|]
  {
    FirstAccepts(PatternOf(w), s);
    WanMessages.MatchShape(w, s);
    var q := First(PatternOf(w), s).value;
    assert Accepts(PatternOf(w)[1], q[1]);
    hide First;
    var whole, h, n, t := w.head + q[1] + q[2], |w.head|, |q[1]|, |q[2]|;
    assert whole == s[..h + n + t];
    assert whole[..h] == w.head && whole[h..h + n] == q[1] && whole[h + n..] == q[2];
    assert s[0..h] == w.head && s[h..h + n] == q[1] && s[h + n..h + n + t] == q[2];
    assert '\n' !in q[1];
    assert TemplateAt(s, w.head, q[2], 0, n);
  }

  lemma ShortestFound(s: string, w: WanPattern, n: nat)
    requires First(PatternOf(w), s).Some? && AnyAt(s, w, 0, n)
    ensures |First(PatternOf(w), s).value[1]| <= n
  {
    var t :| t in w.tails && TemplateAt(s, w.head, t, 0, n);
    AtStartMatches(s, w, t, n);
    FoundAt(s, w);
    hide First;
    var q, other := First(PatternOf(w), s).value, [w.head, s[|w.head|..|w.head| + n], t];
    assert q[..1] == [w.head] && other[..1] == [w.head];
    NothingPreferred(PatternOf(w), s, other, 1);
  }

  /** Searching a message: it succeeds exactly if the template occurs, at the leftmost place, with the shortest name. */
  lemma SearchFinds(message: string, w: WanPattern)
    ensures Search(PatternOf(w), message).Some? <==> AnyOccurs(message, w)
    ensures Search(PatternOf(w), message).Some? ==>
              var (i, pieces) := Search(PatternOf(w), message).value;
              Captures(message, w, i, pieces[1])
  {
    SearchMeaning(PatternOf(w), message);
    hide First, Search, Captures, AnyAt;
    if Search(PatternOf(w), message).Some? {
      var (i, pieces) := Search(PatternOf(w), message).value;
      CapturedAt(message, w, i);
      assert AnyAt(message, w, i, |pieces[1]|) by {
        OpenCapture(message, w, i, pieces[1]);
      }
    } else if AnyOccurs(message, w) {
      var i: nat, n: nat :| AnyAt(message, w, i, n);
      NotMissed(message, w, i, n);
    }
  }

  /** The leftmost occurrence is at i, and `name` is the shortest name there. */
  ghost predicate Captures(message: string, w: WanPattern, i: nat, name: string) {
    && AnyAt(message, w, i, |name|) && i + |w.head| + |name| <= |message|
    && name == message[i + |w.head|..i + |w.head| + |name|]
    && (forall n: nat | AnyAt(message, w, i, n) :: |name| <= n)
    && (forall j: nat, n: nat | j < i :: !AnyAt(message, w, j, n))
  }

  lemma OpenCapture(message: string, w: WanPattern, i: nat, name: string)
    requires Captures(message, w, i, name)
    ensures AnyAt(message, w, i, |name|)
  {
  }

  lemma ShiftAny(message: string, w: WanPattern, i: nat, n: nat)
    requires i <= |message|
    ensures AnyAt(message, w, i, n) <==> AnyAt(message[i..], w, 0, n)
  {
    if AnyAt(message, w, i, n) {
      var t :| t in w.tails && TemplateAt(message, w.head, t, i, n);
      ShiftTemplate(message, w.head, t, i, n);
    }
    if AnyAt(message[i..], w, 0, n) {
      var t :| t in w.tails && TemplateAt(message[i..], w.head, t, 0, n);
      ShiftTemplate(message, w.head, t, i, n);
    }
  }

  lemma NotMissed(message: string, w: WanPattern, i: nat, n: nat)
    requires AnyAt(message, w, i, n)
    ensures i <= |message| && First(PatternOf(w), message[i..]).Some?
  {
    ShiftAny(message, w, i, n);
    FirstMeaning(message[i..], w);
  }

  lemma CapturedAt(message: string, w: WanPattern, i: nat)
    requires i <= |message| && First(PatternOf(w), message[i..]).Some?
    requires forall j | 0 <= j < i :: First(PatternOf(w), message[j..]).None?
    ensures Captures(message, w, i, First(PatternOf(w), message[i..]).value[1])
  {
    FirstMeaning(message[i..], w);
    var name := First(PatternOf(w), message[i..]).value[1];
    hide First;
    ShiftAny(message, w, i, |name|);
    SliceWithin(message, w, i, |name|);
    forall n: nat | AnyAt(message, w, i, n) ensures |name| <= n {
      ShiftAny(message, w, i, n);
    }
    forall j: nat, n: nat | j < i ensures !AnyAt(message, w, j, n) {
      if AnyAt(message, w, j, n) {
        NotMissed(message, w, j, n);
        assert false;
      }
    }
  }

  lemma SliceWithin(message: string, w: WanPattern, i: nat, n: nat)
    requires i <= |message| && AnyAt(message, w, i, n)
    ensures i + |w.head| + n <= |message|
    ensures message[i..][|w.head|..|w.head| + n] == message[i + |w.head|..i + |w.head| + n]
  {
    SliceOf(message, i, |w.head|, |w.head| + n);
  }

  // ----- the category of a message -----

  ghost predicate TakesOver(message: string) { Occurs(message, "Backup [", "] took effect") }

  ghost predicate GivesBack(message: string) { Occurs(message, "Backup [", "] was down") }

  ghost predicate LosesLink(message: string) {
    Occurs(message, "physical connection status of [", "] was down")
  }

  ghost predicate Detects(message: string) {
    || Occurs(message, "online detection result of [", "] was online")
    || Occurs(message, "online detection result of [", "] was offline")
  }

  lemma OneTail(message: string, w: WanPattern, t: string)
    requires w.tails == [t]
    ensures AnyOccurs(message, w) <==> Occurs(message, w.head, t)
  {
    if AnyOccurs(message, w) {
      var i: nat, n: nat :| AnyAt(message, w, i, n);
      assert TemplateAt(message, w.head, t, i, n);
    }
    if Occurs(message, w.head, t) {
      var i: nat, n: nat :| TemplateAt(message, w.head, t, i, n);
      assert t in w.tails;
      assert AnyAt(message, w, i, n);
    }
  }

  lemma TwoTails(message: string, w: WanPattern, t: string, u: string)
    requires w.tails == [t, u]
    ensures AnyOccurs(message, w) <==> Occurs(message, w.head, t) || Occurs(message, w.head, u)
  {
    if AnyOccurs(message, w) {
      var i: nat, n: nat :| AnyAt(message, w, i, n);
      assert TemplateAt(message, w.head, t, i, n) || TemplateAt(message, w.head, u, i, n);
    }
    if Occurs(message, w.head, t) {
      var i: nat, n: nat :| TemplateAt(message, w.head, t, i, n);
      assert t in w.tails;
      assert AnyAt(message, w, i, n);
    }
    if Occurs(message, w.head, u) {
      var i: nat, n: nat :| TemplateAt(message, w.head, u, i, n);
      assert u in w.tails;
      assert AnyAt(message, w, i, n);
    }
  }

  lemma PatternsOccur(message: string)
    ensures AnyOccurs(message, WAN_PATTERNS[0]) <==> TakesOver(message)
    ensures AnyOccurs(message, WAN_PATTERNS[1]) <==> GivesBack(message)
    ensures AnyOccurs(message, WAN_PATTERNS[2]) <==> LosesLink(message)
    ensures AnyOccurs(message, WAN_PATTERNS[3]) <==> Detects(message)
  {
    hide AnyOccurs, Occurs;
    OneTail(message, WAN_PATTERNS[0], "] took effect");
    OneTail(message, WAN_PATTERNS[1], "] was down");
    OneTail(message, WAN_PATTERNS[2], "] was down");
    TwoTails(message, WAN_PATTERNS[3], "] was online", "] was offline");
  }

  lemma {:induction false} CategoryFrom(message: string, j: nat)
    requires j <= |WAN_PATTERNS|
    ensures CategorizeBy(WAN_PATTERNS[j..], message) == General ==>
              forall k | j <= k < |WAN_PATTERNS| :: !AnyOccurs(message, WAN_PATTERNS[k])
    ensures CategorizeBy(WAN_PATTERNS[j..], message).Wan? ==>
              exists k, i :: j <= k < |WAN_PATTERNS| &&
                             FoundFirst(message, j, k, i, CategorizeBy(WAN_PATTERNS[j..], message))
    decreases |WAN_PATTERNS| - j
  {
    hide Search, AnyOccurs, Captures, PatternOf;
    if j < |WAN_PATTERNS| {
      assert WAN_PATTERNS[j..][0] == WAN_PATTERNS[j] && WAN_PATTERNS[j..][1..] == WAN_PATTERNS[j + 1..];
      SearchFinds(message, WAN_PATTERNS[j]);
      CategoryFrom(message, j + 1);
      var found, category := Search(PatternOf(WAN_PATTERNS[j]), message), CategorizeBy(WAN_PATTERNS[j..], message);
      if found.Some? {
        assert FoundFirst(message, j, j, found.value.0, category);
      } else if category.Wan? {
        var k, i :| j + 1 <= k < |WAN_PATTERNS| && FoundFirst(message, j + 1, k, i, category);
        assert FoundFirst(message, j, k, i, category);
      }
    }
  }

  /** Pattern number k is the first from number j on that occurs; the category is its event and the captured name. */
  ghost predicate FoundFirst(message: string, j: nat, k: nat, i: nat, category: Category) {
    && j <= k < |WAN_PATTERNS| && category.Wan?
    && (forall m | j <= m < k :: !AnyOccurs(message, WAN_PATTERNS[m]))
    && AnyOccurs(message, WAN_PATTERNS[k])
    && category.event == WAN_PATTERNS[k].event && Captures(message, WAN_PATTERNS[k], i, category.iface)
  }

  ghost function EventIn(message: string): string {
    if TakesOver(message) then "failover_activated"
    else if GivesBack(message) then "failover_deactivated"
    else if LosesLink(message) then "link_down"
    else "online_detection"
  }

  /** The event of every message, by what occurs in it: a takeover comes before a hand-back, that before a lost link,
      and that before a detection; the message is no WAN event exactly if none of them occurs. */
  lemma CategoryMeaning(message: string)
    ensures Categorize(message) == General <==>
            !TakesOver(message) && !GivesBack(message) && !LosesLink(message) && !Detects(message)
    ensures Categorize(message).Wan? ==> Categorize(message).event == EventIn(message)
  {
    PatternsOccur(message);
    CategoryFrom(message, 0);
    assert WAN_PATTERNS[0..] == WAN_PATTERNS;
    hide AnyOccurs, Captures, CategorizeBy, Occurs;
    if Categorize(message).Wan? {
      var k, i :| 0 <= k < |WAN_PATTERNS| && FoundFirst(message, 0, k, i, Categorize(message));
    }
  }

  /** The interface of every WAN event: of the pattern that decides, the leftmost occurrence, and there the shortest
      name that a tail follows. */
  lemma NameMeaning(message: string) returns (k: nat, i: nat)
    requires Categorize(message).Wan?
    ensures k < |WAN_PATTERNS| && Categorize(message).event == WAN_PATTERNS[k].event
    ensures Captures(message, WAN_PATTERNS[k], i, Categorize(message).iface)
  {
    CategoryFrom(message, 0);
    assert WAN_PATTERNS[0..] == WAN_PATTERNS;
    hide AnyOccurs, Captures, CategorizeBy;
    k, i :| 0 <= k < |WAN_PATTERNS| && FoundFirst(message, 0, k, i, Categorize(message));
  }

  /** From any message to its alerts. */
  lemma MessageToAlerts(message: string, now: real)
    ensures TakesOver(message) || GivesBack(message) || LosesLink(message) ==> Categorize(message).Wan?
    ensures SyslogAlerts(Categorize(message), now) ==
            if TakesOver(message) then [FailoverActivated(Categorize(message).iface, now)]
            else if GivesBack(message) then [FailoverEnded(Categorize(message).iface, now)]
            else if LosesLink(message) then [LinkDown(Categorize(message).iface, now)]
            else []
  {
    CategoryMeaning(message);
    hide Categorize, Occurs;
  }
}
