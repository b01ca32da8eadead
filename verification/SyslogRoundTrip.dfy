/** Printing a line in the BSD layout (RFC 3164, sections 4.1.1 to 4.1.3) and parsing it: exactly when
    the host, the tag and the message come back. */
module SyslogRoundTrip {
  import opened Common
  import opened Regex
  import opened Syslog
  import Duration
  import WanMessages

  datatype Stamp = Stamp(month: string, gap: string, day: string, hour: string, minute: string, second: string) {

    predicate WellFormed() {
      && month != "" && (forall i | 0 <= i < |month| :: IsWordCharacter(month[i]))
      && gap != "" && (forall i | 0 <= i < |gap| :: gap[i] == ' ')
      && IsNumber(day) && IsNumber(hour) && IsNumber(minute) && IsNumber(second)
    }

    function Pieces(): seq<string> {
      [month, gap, day, " ", hour, ":", minute, ":", second]
    }
  }

  predicate IsNumber(s: string) {
    s != "" && forall i | 0 <= i < |s| :: '0' <= s[i] <= '9'
  }

  predicate IsWordCharacter(c: char) {
    'a' <= c <= 'z' || 'A' <= c <= 'Z' || '0' <= c <= '9' || c == '_'
  }

  const MONTHS := ["Jan", "Feb", "Mar", "Apr", "May", "Jun", "Jul", "Aug", "Sep", "Oct", "Nov", "Dec"]

  /** A time stamp as section 4.1.2 of RFC 3164 has it: the month by name, the day in two places with a blank for a
      leading zero, and two digits each for hour, minute and second. */
  predicate IsRfcStamp(t: Stamp) {
    && t.month in MONTHS
    && IsNumber(t.day) && |t.gap| + |t.day| == 3 && (t.gap == " " || t.gap == "  ")
    && IsNumber(t.hour) && IsNumber(t.minute) && IsNumber(t.second)
    && |t.hour| == |t.minute| == |t.second| == 2
  }

  lemma RfcStampIsWellFormed(t: Stamp)
    requires IsRfcStamp(t)
    ensures t.WellFormed()
  {
    MonthIsWord(t.month);
    hide IsNumber;
  }

  lemma MonthIsWord(month: string)
    requires month in MONTHS
    ensures |month| == 3 && forall i | 0 <= i < 3 :: IsWordCharacter(month[i])
  {
  }

  datatype Line = Line(priority: nat, stamp: Stamp, host: string, tag: string, message: string)

  function HeaderPieces(l: Line): seq<string> {
    ["<", Duration.NatText(l.priority), ">"] + l.stamp.Pieces() + [" ", l.host]
  }

  function Header(l: Line): string {
    Concat(HeaderPieces(l))
  }

  /** <PRI>TIMESTAMP HOST TAG: MESSAGE */
  function Print(l: Line): string {
    Header(l) + " " + l.tag + ": " + l.message
  }

  function Expected(l: Line): SyslogEvent {
    SyslogEvent(Concat(l.stamp.Pieces()), l.tag, SEVERITIES[l.priority % 8], l.host, l.message,
                Categorize(l.message), Print(l))
  }

  /** When the parts of a line can be read back: the host is one word; the tag is not empty, stays on one line,
      has no colon after its first character, and starts outside white space (or is a single blank in front of
      a message without a colon); the message is one line without outer white space. */
  predicate Recoverable(l: Line) {
    && l.host != "" && AllIn(l.host, NonSpace)
    && l.tag != "" && '\n' !in l.tag && ':' !in l.tag[1..]
    && (!IsSpace(l.tag[0]) || (|l.tag| == 1 && ':' !in l.message))
    && '\n' !in l.message
    && (l.message != "" ==> !IsSpace(l.message[0]) && !IsSpace(Last(l.message)))
  }

  // ----- a recoverable line is recovered -----

  function BlankBefore(message: string): string {
    if message == "" then "" else " "
  }

  function Rest(message: string): string {
    ":" + (BlankBefore(message) + message)
  }

  function TailPieces(l: Line): seq<string> {
    [" ", l.tag, ":", BlankBefore(l.message), l.message]
  }

  const MESSAGE_PATTERN: Pattern := [Many(Space, 0, false), Many(Dot, 0, false)]
  const REST_PATTERN: Pattern := [Lit(":")] + MESSAGE_PATTERN
  const NAME_PATTERN: Pattern := [Many(Dot, 1, true)] + REST_PATTERN

  lemma RestMatches(message: string)
    requires '\n' !in message && (message != "" ==> !IsSpace(message[0]))
    ensures First(REST_PATTERN, Rest(message)) == Some([":", BlankBefore(message), message])
  {
    var blank := BlankBefore(message);
    GreedyStep(Dot, 0, [], message, "", []);
    assert message + "" == message && [message] + [] == [message];
    assert [Many(Dot, 0, false)] + [] == [Many(Dot, 0, false)];
    GreedyStep(Space, 0, [Many(Dot, 0, false)], blank, message, [message]);
    assert [Many(Space, 0, false)] + [Many(Dot, 0, false)] == MESSAGE_PATTERN;
    assert [blank] + [message] == [blank, message];
    LitStep(":", MESSAGE_PATTERN, blank + message, [blank, message]);
    assert [":"] + [blank, message] == [":", blank, message];
  }

  lemma NameMatches(tag: string, message: string)
    requires tag != "" && '\n' !in tag && ':' !in tag[1..]
    requires First(REST_PATTERN, Rest(message)) == Some([":", BlankBefore(message), message])
    ensures First(NAME_PATTERN, tag + Rest(message)) == Some([tag, ":", BlankBefore(message), message])
  {
    hide First, Rest, BlankBefore;
    var found := [":", BlankBefore(message), message];
    forall n | 1 <= n < |tag| ensures First(REST_PATTERN, tag[n..] + Rest(message)).None? {
      assert tag[n] == tag[1..][n - 1];
      RestNeedsColon(tag[n..] + Rest(message));
    }
    LazyStep(Dot, 1, REST_PATTERN, tag, Rest(message), found);
    assert [tag] + found == [tag, ":", BlankBefore(message), message];
  }

  lemma RestNeedsColon(s: string)
    requires s != "" && s[0] != ':'
    ensures First(REST_PATTERN, s).None?
  {
    assert REST_PATTERN[0] == Lit(":");
  }

  /** Without a second colon the tag cannot be matched after the first one. */
  lemma NoNameAtColon(message: string)
    requires ':' !in message
    ensures First(NAME_PATTERN, Rest(message)).None?
  {
    if First(NAME_PATTERN, Rest(message)).Some? {
      FirstFits(NAME_PATTERN, Rest(message));
      assert false;
    }
  }

  lemma TailMatches(l: Line)
    requires Recoverable(l)
    ensures First(TAG_PATTERN, " " + (l.tag + Rest(l.message))) == Some(TailPieces(l))
  {
    hide First;
    var found := [l.tag, ":", BlankBefore(l.message), l.message];
    RestMatches(l.message);
    NameMatches(l.tag, l.message);
    assert TAG_PATTERN == [Many(Space, 1, false)] + NAME_PATTERN;
    assert TailPieces(l) == [" "] + found;
    if IsSpace(l.tag[0]) {
      NoNameAtColon(l.message);
      assert l.tag == [l.tag[0]];
      assert " " + (l.tag + Rest(l.message)) == " " + [l.tag[0]] + Rest(l.message);
      GreedyBackStep(Space, 1, NAME_PATTERN, " ", l.tag[0], Rest(l.message), found);
    } else {
      GreedyStep(Space, 1, NAME_PATTERN, " ", l.tag + Rest(l.message), found);
    }
  }

  lemma StampPieces(t: Stamp)
    requires t.WellFormed()
    ensures AllIn(t.month, Word) && AllIn(t.day, Digit) && AllIn(t.hour, Digit) && AllIn(t.minute, Digit)
    ensures AllIn(t.second, Digit) && AllIn(t.gap, Space)
  {
  }

  lemma DigitsAreDigits(s: string)
    requires Duration.AllDigits(s)
    ensures AllIn(s, Digit)
  {
    assert forall i | 0 <= i < |s| :: Duration.IsDigit(s[i]);
  }

  lemma HeaderIsForced(l: Line, rest: string, i: nat)
    requires l.stamp.WellFormed() && l.host != "" && AllIn(l.host, NonSpace) && rest != "" && rest[0] == ' '
    requires i < |HEADER_PATTERN|
    ensures |HeaderPieces(l)| == |HEADER_PATTERN| && ForcedAt(HEADER_PATTERN, HeaderPieces(l), rest, i)
  {
    var pri := Duration.NatText(l.priority);
    Duration.NatTextRoundTrip(l.priority);
    DigitsAreDigits(pri);
    StampPieces(l.stamp);
    hide Duration.NatText;
    var s := l.stamp;
    assert In(s.month[0], Word) && In(s.day[0], Digit) && In(s.hour[0], Digit) && In(s.minute[0], Digit);
    assert In(s.second[0], Digit) && In(l.host[0], NonSpace);
    assert HeaderPieces(l) ==
           ["<", pri, ">", s.month, s.gap, s.day, " ", s.hour, ":", s.minute, ":", s.second, " ", l.host];
    if i < 7 {
      ForcedFirstHalf(l, rest, i, pri);
    } else {
      ForcedSecondHalf(l, rest, i, pri);
    }
  }

  lemma ForcedFirstHalf(l: Line, rest: string, i: nat, pri: string)
    requires l.stamp.WellFormed() && pri != "" && AllIn(pri, Digit) && i < 7
    requires HeaderPieces(l) == ["<", pri, ">", l.stamp.month, l.stamp.gap, l.stamp.day, " ", l.stamp.hour, ":",
                                 l.stamp.minute, ":", l.stamp.second, " ", l.host]
    ensures ForcedAt(HEADER_PATTERN, HeaderPieces(l), rest, i)
  {
  }

  lemma ForcedSecondHalf(l: Line, rest: string, i: nat, pri: string)
    requires l.stamp.WellFormed() && 7 <= i < 14
    requires l.host != "" && AllIn(l.host, NonSpace) && rest != "" && rest[0] == ' '
    requires HeaderPieces(l) == ["<", pri, ">", l.stamp.month, l.stamp.gap, l.stamp.day, " ", l.stamp.hour, ":",
                                 l.stamp.minute, ":", l.stamp.second, " ", l.host]
    ensures ForcedAt(HEADER_PATTERN, HeaderPieces(l), rest, i)
  {
  }

  lemma LineMatches(l: Line)
    requires l.stamp.WellFormed() && Recoverable(l)
    ensures First(SYSLOG_PATTERN, Header(l) + (" " + (l.tag + Rest(l.message)))) ==
            Some(HeaderPieces(l) + TailPieces(l))
  {
    var rest := " " + (l.tag + Rest(l.message));
    TailMatches(l);
    HeaderIsForced(l, rest, 0);
    forall i | 0 <= i < |HEADER_PATTERN| ensures ForcedAt(HEADER_PATTERN, HeaderPieces(l), rest, i) {
      HeaderIsForced(l, rest, i);
    }
    ForcedChain(HEADER_PATTERN, HeaderPieces(l), TAG_PATTERN, rest, TailPieces(l));
  }

  /** Stripping removes at most the blank after the colon of an empty message. */
  lemma StripPrinted(l: Line)
    requires Recoverable(l)
    ensures Strip(Print(l)) == Header(l) + (" " + (l.tag + Rest(l.message)))
  {
    var start := Header(l) + " " + l.tag;
    PrintStartsWithAngle(l);
    assert Print(l) == start + ": " + l.message;
    assert Header(l) + (" " + (l.tag + Rest(l.message))) == start + Rest(l.message);
    RStripPrinted(start, l.message);
  }

  lemma RStripPrinted(start: string, message: string)
    requires message != "" ==> !IsSpace(Last(message))
    ensures RStrip(start + ": " + message) == start + Rest(message)
  {
    var text := start + Rest(message);
    if message == "" {
      assert text == start + ":" && Last(text) == ':';
      assert start + ": " + message == text + " " && Front(text + " ") == text;
    } else {
      assert start + ": " + message == text && Last(text) == Last(message);
    }
  }

  lemma PrintStartsWithAngle(l: Line)
    ensures Print(l)[0] == '<' && LStrip(Print(l)) == Print(l)
  {
    assert HeaderPieces(l)[0] == "<";
  }

  lemma RecoverableIsRecovered(l: Line)
    requires l.stamp.WellFormed() && Recoverable(l)
    ensures Parse(Print(l)) == Some(Expected(l))
  {
    LineMatches(l);
    StripPrinted(l);
    hide First;
    var pieces := HeaderPieces(l) + TailPieces(l);
    Duration.NatTextRoundTrip(l.priority);
    assert pieces[3..12] == l.stamp.Pieces();
    assert pieces[1] == Duration.NatText(l.priority) && pieces[13] == l.host;
    assert pieces[15] == l.tag && pieces[18] == l.message;
  }

  // ----- a tag that starts with white space -----

  lemma ShiftedTailMatches(l: Line, blank: string)
    requires Recoverable(l) && !IsSpace(l.tag[0]) && AllIn(blank, Space)
    ensures First(TAG_PATTERN, (" " + blank) + (l.tag + Rest(l.message))) == Some(TailPieces(l)[0 := " " + blank])
  {
    var found := [l.tag, ":", BlankBefore(l.message), l.message];
    RestMatches(l.message);
    NameMatches(l.tag, l.message);
    hide First, Rest;
    assert TAG_PATTERN == [Many(Space, 1, false)] + NAME_PATTERN;
    assert TailPieces(l)[0 := " " + blank] == [" " + blank] + found;
    GreedyStep(Space, 1, NAME_PATTERN, " " + blank, l.tag + Rest(l.message), found);
  }

  lemma ShiftedLineMatches(l: Line, blank: string)
    requires l.stamp.WellFormed() && Recoverable(l) && !IsSpace(l.tag[0]) && AllIn(blank, Space)
    ensures First(SYSLOG_PATTERN, Header(l) + ((" " + blank) + (l.tag + Rest(l.message)))) ==
            Some(HeaderPieces(l) + TailPieces(l)[0 := " " + blank])
  {
    var rest := (" " + blank) + (l.tag + Rest(l.message));
    ShiftedTailMatches(l, blank);
    HeaderIsForced(l, rest, 0);
    forall i | 0 <= i < |HEADER_PATTERN| ensures ForcedAt(HEADER_PATTERN, HeaderPieces(l), rest, i) {
      HeaderIsForced(l, rest, i);
    }
    hide First;
    ForcedChain(HEADER_PATTERN, HeaderPieces(l), TAG_PATTERN, rest, TailPieces(l)[0 := " " + blank]);
  }

  lemma StripShifted(l: Line, blank: string)
    requires Recoverable(l)
    ensures Strip(Print(l.(tag := blank + l.tag))) == Header(l) + ((" " + blank) + (l.tag + Rest(l.message)))
  {
    var shifted := l.(tag := blank + l.tag);
    var start := Header(l) + " " + shifted.tag;
    PrintStartsWithAngle(shifted);
    assert Header(shifted) == Header(l);
    assert Print(shifted) == start + ": " + l.message;
    assert Header(l) + ((" " + blank) + (l.tag + Rest(l.message))) == start + Rest(l.message);
    RStripPrinted(start, l.message);
  }

  /** White space in front of a tag is lost, however much there is: it joins the blank before the tag, and everything
      else comes back as if it had not been there. */
  lemma LeadingSpaceIsLost(l: Line, blank: string)
    requires l.stamp.WellFormed() && Recoverable(l) && !IsSpace(l.tag[0]) && AllIn(blank, Space)
    ensures var printed := Print(l.(tag := blank + l.tag)); Parse(printed) == Some(Expected(l).(raw := printed))
  {
    ShiftedLineMatches(l, blank);
    StripShifted(l, blank);
    hide First, Strip, Print, Header;
    var pieces := HeaderPieces(l) + TailPieces(l)[0 := " " + blank];
    Duration.NatTextRoundTrip(l.priority);
    assert pieces[3..12] == l.stamp.Pieces();
    assert pieces[1] == Duration.NatText(l.priority) && pieces[13] == l.host;
    assert pieces[15] == l.tag && pieces[18] == l.message;
  }

  /** In particular the tag " a", which is not empty and has no colon, comes back as "a". */
  lemma BlankTagLosesBlank(l: Line)
    requires l.stamp.WellFormed() && Recoverable(l.(tag := "a")) && l.tag == " a"
    ensures Parse(Print(l)).Some? && Parse(Print(l)).value.facility == "a"
    ensures Parse(Print(l)).value.hostname == l.host && Parse(Print(l)).value.message == l.message
  {
    LeadingSpaceIsLost(l.(tag := "a"), " ");
    assert " " + "a" == l.tag && l.(tag := "a").(tag := l.tag) == l;
    hide Parse, Print;
  }

  // ----- only a recoverable line is recovered -----

  /** The pieces behind a line that came back. */
  ghost predicate CameBack(l: Line, s: string, q: seq<string>) {
    && First(SYSLOG_PATTERN, s) == Some(q) && |q| == |SYSLOG_PATTERN| && s == Strip(Print(l))
    && q[13] == l.host && q[15] == l.tag && q[18] == l.message
  }

  lemma PiecesAccepted(l: Line, s: string, q: seq<string>)
    requires CameBack(l, s, q)
    ensures AcceptsAll(SYSLOG_PATTERN, q) && Concat(q) <= s
    ensures Accepts(Many(Space, 1, false), q[14]) && q[16] == ":" && Accepts(Many(Space, 0, false), q[17])
    ensures l.host != "" && AllIn(l.host, NonSpace)
    ensures l.tag != "" && '\n' !in l.tag && '\n' !in l.message
  {
    FirstAccepts(SYSLOG_PATTERN, s);
    assert Accepts(SYSLOG_PATTERN[13], q[13]) && Accepts(SYSLOG_PATTERN[14], q[14]);
    assert Accepts(SYSLOG_PATTERN[15], q[15]) && Accepts(SYSLOG_PATTERN[16], q[16]);
    assert Accepts(SYSLOG_PATTERN[17], q[17]) && Accepts(SYSLOG_PATTERN[18], q[18]);
  }

  /** The same match with other pieces from the blank before the tag on. */
  lemma OtherTail(l: Line, s: string, q: seq<string>, tail: seq<string>, k: nat)
    requires CameBack(l, s, q)
    requires AcceptsAll(TAG_PATTERN, tail) && Concat(tail) <= Concat(q[14..])
    requires k < |TAG_PATTERN| && tail[..k] == q[14..][..k]
    ensures !Prefers(TAG_PATTERN[k], |tail[k]|, |q[14 + k]|)
  {
    hide First;
    PiecesAccepted(l, s, q);
    var other := q[..14] + tail;
    ConcatSplits(q[..14], tail);
    ConcatSplits(q[..14], q[14..]);
    assert q[..14] + q[14..] == q;
    assert Concat(other) <= Concat(q) by {
      PrefixAfter(Concat(q[..14]), Concat(tail), Concat(q[14..]));
    }
    assert AcceptsAll(SYSLOG_PATTERN, other) by {
      forall i | 0 <= i < |SYSLOG_PATTERN| ensures Accepts(SYSLOG_PATTERN[i], other[i]) {
        if i < 14 {
          assert other[i] == q[i];
        } else {
          assert other[i] == tail[i - 14] && SYSLOG_PATTERN[i] == TAG_PATTERN[i - 14];
        }
      }
    }
    assert other[..14 + k] == q[..14 + k] by {
      assert q[..14 + k] == q[..14] + q[14..][..k];
      assert other[..14 + k] == q[..14] + tail[..k];
    }
    NothingPreferred(SYSLOG_PATTERN, s, other, 14 + k);
  }

  lemma PrefixAfter(a: string, b: string, c: string)
    requires b <= c
    ensures a + b <= a + c
  {
  }

  lemma ConcatFive(a: string, b: string, c: string, d: string, e: string)
    ensures Concat([a, b, c, d, e]) == a + (b + (c + (d + e)))
  {
    assert [a, b, c, d, e][1..] == [b, c, d, e] && [b, c, d, e][1..] == [c, d, e];
    assert [c, d, e][1..] == [d, e] && [d, e][1..] == [e] && [e][1..] == [];
    assert Concat([e]) == e;
    assert Concat([d, e]) == d + e;
    assert Concat([c, d, e]) == c + (d + e);
  }

  lemma TailText(l: Line, s: string, q: seq<string>)
    requires CameBack(l, s, q)
    ensures q[14..] == [q[14], l.tag, ":", q[17], l.message]
    ensures Concat(q[14..]) == q[14] + (l.tag + (":" + (q[17] + l.message)))
  {
    PiecesAccepted(l, s, q);
    assert q[14..] == [q[14], l.tag, ":", q[17], l.message];
    ConcatFive(q[14], l.tag, ":", q[17], l.message);
  }

  lemma TagHasNoLaterColon(l: Line, s: string, q: seq<string>)
    requires CameBack(l, s, q)
    ensures l.tag != "" && ':' !in l.tag[1..]
  {
    PiecesAccepted(l, s, q);
    TailText(l, s, q);
    hide First, Print, Strip, Header, Concat;
    if ':' in l.tag[1..] {
      var j :| 0 <= j < |l.tag[1..]| && l.tag[1..][j] == ':';
      var tail := ShorterName(q[14], l.tag, q[17], l.message, j + 1);
      assert tail[..1] == q[14..][..1];
      OtherTail(l, s, q, tail, 1);
    }
  }

  /** Another reading of the tail: the name ends at an earlier colon. */
  lemma ShorterName(space: string, tag: string, blank: string, message: string, j: nat) returns (tail: seq<string>)
    requires space != "" && AllIn(space, Space) && '\n' !in tag && 0 < j < |tag| && tag[j] == ':'
    ensures AcceptsAll(TAG_PATTERN, tail) && tail[0] == space && |tail[1]| < |tag|
    ensures Concat(tail) <= space + (tag + (":" + (blank + message)))
  {
    tail := [space, tag[..j], ":", "", ""];
    ConcatFive(space, tag[..j], ":", "", "");
    assert tag == tag[..j] + (":" + tag[j + 1..]);
    assert space + (tag + (":" + (blank + message))) ==
           (space + (tag[..j] + (":" + ("" + "")))) + (tag[j + 1..] + (":" + (blank + message)));
    hide Concat;
  }

  lemma TagStartsOutsideSpace(l: Line, s: string, q: seq<string>)
    requires CameBack(l, s, q)
    ensures l.tag != "" && (IsSpace(l.tag[0]) ==> |l.tag| == 1)
  {
    PiecesAccepted(l, s, q);
    TailText(l, s, q);
    hide First;
    if IsSpace(l.tag[0]) && |l.tag| > 1 {
      var tail := [q[14] + [l.tag[0]], l.tag[1..], ":", q[17], l.message];
      ConcatFive(q[14] + [l.tag[0]], l.tag[1..], ":", q[17], l.message);
      assert l.tag == [l.tag[0]] + l.tag[1..];
      assert Concat(tail) == Concat(q[14..]);
      assert AcceptsAll(TAG_PATTERN, tail);
      assert tail[..0] == q[14..][..0];
      OtherTail(l, s, q, tail, 0);
    }
  }

  lemma MessageStartsOutsideSpace(l: Line, s: string, q: seq<string>)
    requires CameBack(l, s, q)
    ensures l.message != "" ==> !IsSpace(l.message[0])
  {
    PiecesAccepted(l, s, q);
    TailText(l, s, q);
    hide First;
    if l.message != "" && IsSpace(l.message[0]) {
      var tail := [q[14], l.tag, ":", q[17] + [l.message[0]], l.message[1..]];
      ConcatFive(q[14], l.tag, ":", q[17] + [l.message[0]], l.message[1..]);
      assert l.message == [l.message[0]] + l.message[1..];
      assert Concat(tail) == Concat(q[14..]);
      assert AcceptsAll(TAG_PATTERN, tail);
      assert tail[..3] == q[14..][..3];
      OtherTail(l, s, q, tail, 3);
    }
  }

  // ----- the line has no newline, so the last piece runs to its end -----

  lemma {:induction false} StripKeeps(s: string)
    ensures forall c :: c in Strip(s) ==> c in s
    ensures Strip(s) != "" ==> !IsSpace(Last(Strip(s)))
  {
    LStripKeeps(s);
    RStripKeeps(LStrip(s));
  }

  lemma {:induction false} LStripKeeps(s: string)
    ensures forall c :: c in LStrip(s) ==> c in s
  {
    if s != "" && IsSpace(s[0]) {
      LStripKeeps(s[1..]);
    }
  }

  lemma {:induction false} RStripKeeps(s: string)
    ensures forall c :: c in RStrip(s) ==> c in s
    ensures RStrip(s) != "" ==> !IsSpace(Last(RStrip(s)))
  {
    if s != "" && IsSpace(Last(s)) {
      RStripKeeps(Front(s));
    }
  }

  lemma {:induction false} ConcatKeeps(pieces: seq<string>, c: char)
    requires forall i | 0 <= i < |pieces| :: c !in pieces[i]
    ensures c !in Concat(pieces)
  {
    if pieces != [] {
      ConcatKeeps(pieces[1..], c);
    }
  }

  lemma HeaderIsOneLine(l: Line)
    requires l.stamp.WellFormed() && AllIn(l.host, NonSpace)
    ensures '\n' !in Header(l)
  {
    Duration.NatTextRoundTrip(l.priority);
    var pieces := HeaderPieces(l);
    assert pieces == ["<", Duration.NatText(l.priority), ">", l.stamp.month, l.stamp.gap, l.stamp.day, " ",
                      l.stamp.hour, ":", l.stamp.minute, ":", l.stamp.second, " ", l.host];
    ConcatKeeps(pieces, '\n');
  }

  /** The message may take one more character of its line. */
  lemma LongerIsAccepted(q: seq<string>, message: string, c: char)
    requires AcceptsAll(SYSLOG_PATTERN, q) && q[18] == message && c != '\n'
    ensures AcceptsAll(SYSLOG_PATTERN, q[..18] + [message + [c]])
  {
    var other := q[..18] + [message + [c]];
    assert SYSLOG_PATTERN[18] == Many(Dot, 0, false);
    assert Accepts(SYSLOG_PATTERN[18], q[18]);
    forall i | 0 <= i < |SYSLOG_PATTERN| ensures Accepts(SYSLOG_PATTERN[i], other[i]) {
      if i < 18 {
        assert other[i] == q[i];
      }
    }
  }

  /** A match in a text without a newline reaches its end. */
  lemma ReachesEnd(s: string, q: seq<string>)
    requires First(SYSLOG_PATTERN, s) == Some(q) && '\n' !in s
    ensures |q| == 19 && Concat(q) == s
  {
    FirstAccepts(SYSLOG_PATTERN, s);
    hide First;
    if Concat(q) != s {
      var c, before, message := s[|Concat(q)|], q[..18], q[18];
      var other := before + [message + [c]];
      assert q == before + [message];
      ConcatSplits(before, [message + [c]]);
      ConcatSplits(before, [message]);
      assert Concat([message + [c]]) == message + [c] && Concat([message]) == message;
      assert Concat(other) == Concat(q) + [c] <= s;
      assert c in s;
      LongerIsAccepted(q, message, c);
      assert other[..18] == q[..18];
      NothingPreferred(SYSLOG_PATTERN, s, other, 18);
    }
  }

  /** The line is one line, so the last piece reaches its end. */
  lemma MatchReachesEnd(l: Line, s: string, q: seq<string>)
    requires l.stamp.WellFormed() && CameBack(l, s, q)
    ensures '\n' !in s && Concat(q) == s
  {
    hide First, Strip, Header, Concat;
    PiecesAccepted(l, s, q);
    HeaderIsOneLine(l);
    StripKeeps(Print(l));
    assert '\n' !in s;
    ReachesEnd(s, q);
  }

  lemma MessageEndsOutsideSpace(l: Line, s: string, q: seq<string>)
    requires l.stamp.WellFormed() && CameBack(l, s, q)
    ensures l.message != "" ==> !IsSpace(Last(l.message))
  {
    MatchReachesEnd(l, s, q);
    StripKeeps(Print(l));
    hide First, Strip, Print;
    if l.message != "" {
      assert q == q[..18] + [l.message];
      ConcatSplits(q[..18], [l.message]);
      assert Concat([l.message]) == l.message;
      assert Last(s) == Last(l.message);
    }
  }

  lemma BlankTagNeedsPlainMessage(l: Line, s: string, q: seq<string>)
    requires l.stamp.WellFormed() && CameBack(l, s, q)
    ensures l.tag != "" && (IsSpace(l.tag[0]) ==> ':' !in l.message)
  {
    PiecesAccepted(l, s, q);
    TailText(l, s, q);
    TagStartsOutsideSpace(l, s, q);
    MatchReachesEnd(l, s, q);
    PieceIsInside(q, 17, '\n');
    PieceIsInside(q, 18, '\n');
    hide First, Print, Strip, Header, Concat;
    if IsSpace(l.tag[0]) && ':' in l.message {
      var j :| 0 <= j < |l.message| && l.message[j] == ':';
      var tail := BlankTail(q[14], l.tag, q[17], l.message, j);
      OtherTail(l, s, q, tail, 0);
    }
  }

  /** Another reading of the tail: the blank tag belongs to the space before it and the name starts at the colon. */
  lemma BlankTail(space: string, tag: string, blank: string, message: string, j: nat) returns (tail: seq<string>)
    requires space != "" && AllIn(space, Space) && |tag| == 1 && IsSpace(tag[0]) && '\n' !in blank
    requires j < |message| && message[j] == ':' && '\n' !in message
    ensures AcceptsAll(TAG_PATTERN, tail) && |tail[0]| == |space| + 1
    ensures Concat(tail) <= space + (tag + (":" + (blank + message)))
  {
    var name := ":" + (blank + message[..j]);
    tail := [space + tag, name, ":", "", ""];
    ConcatFive(space + tag, name, ":", "", "");
    SplitAtColon(space, tag, blank, message, j);
    hide Concat;
  }

  lemma SplitAtColon(a: string, tag: string, blank: string, m: string, j: nat)
    requires j < |m| && m[j] == ':'
    ensures (a + tag) + ((":" + (blank + m[..j])) + (":" + ("" + ""))) <= a + (tag + (":" + (blank + m)))
  {
    var x, rest := ":" + (blank + m[..j]), m[j + 1..];
    assert ":" + (blank + m) == x + (":" + rest);
    assert ":" + ("" + "") == ":";
    assert a + (tag + (x + (":" + rest))) == (a + tag) + (x + ":") + rest;
  }

  lemma {:induction false} PieceIsInside(q: seq<string>, i: nat, c: char)
    requires i < |q| && c !in Concat(q)
    ensures c !in q[i]
  {
    assert forall x :: x in Concat(q) <==> x in q[0] || x in Concat(q[1..]);
    if i > 0 {
      PieceIsInside(q[1..], i - 1, c);
    }
  }

  lemma RecoveredIsRecoverable(l: Line)
    requires l.stamp.WellFormed() && Parse(Print(l)) == Some(Expected(l))
    ensures Recoverable(l)
  {
    var s := Strip(Print(l));
    var q := First(SYSLOG_PATTERN, s).value;
    assert CameBack(l, s, q);
    hide Parse, First, Strip, Print;
    PiecesAccepted(l, s, q);
    TagHasNoLaterColon(l, s, q);
    TagStartsOutsideSpace(l, s, q);
    BlankTagNeedsPlainMessage(l, s, q);
    MessageStartsOutsideSpace(l, s, q);
    MessageEndsOutsideSpace(l, s, q);
  }

  /** A line printed in the BSD layout comes back whole, with its severity name, exactly when it is recoverable. */
  lemma RoundTripExact(l: Line)
    requires l.stamp.WellFormed()
    ensures Parse(Print(l)) == Some(Expected(l)) <==> Recoverable(l)
  {
    hide Parse, Print, Expected, Recoverable;
    if Recoverable(l) {
      RecoverableIsRecovered(l);
    }
    if Parse(Print(l)) == Some(Expected(l)) {
      RecoveredIsRecoverable(l);
    }
  }

  // ----- severities, outer white space, and a whole line -----

  /** The severity of a printed line is the name that section 4.1.1 of RFC 3164 gives to PRI mod 8. */
  lemma PrintedSeverity(l: Line)
    requires l.stamp.WellFormed() && Recoverable(l)
    ensures Parse(Print(l)).Some?
    ensures var severity, n := Parse(Print(l)).value.severity, l.priority % 8;
      && (n == 0 ==> severity == "emerg") && (n == 1 ==> severity == "alert") && (n == 2 ==> severity == "crit")
      && (n == 3 ==> severity == "err") && (n == 4 ==> severity == "warning") && (n == 5 ==> severity == "notice")
      && (n == 6 ==> severity == "info") && (n == 7 ==> severity == "debug")
  {
    RecoverableIsRecovered(l);
    hide Parse, Print, Categorize, Concat;
  }

  lemma {:induction false} LStripOf(before: string, s: string)
    requires AllIn(before, Space)
    ensures LStrip(before + s) == LStrip(s)
  {
    if before == "" {
      assert before + s == s;
    } else {
      assert (before + s)[1..] == before[1..] + s;
      LStripOf(before[1..], s);
    }
  }

  lemma {:induction false} LStripThen(s: string, after: string)
    requires AllIn(after, Space)
    ensures LStrip(s + after) == if LStrip(s) == "" then "" else LStrip(s) + after
  {
    if s == "" {
      assert s + after == after && after + "" == after;
      LStripOf(after, "");
    } else if IsSpace(s[0]) {
      assert (s + after)[1..] == s[1..] + after;
      LStripThen(s[1..], after);
    }
  }

  lemma {:induction false} RStripOf(s: string, after: string)
    requires AllIn(after, Space)
    ensures RStrip(s + after) == RStrip(s)
  {
    if after == "" {
      assert s + after == s;
    } else {
      assert Front(s + after) == s + Front(after);
      RStripOf(s, Front(after));
    }
  }

  /** White space around a line, such as a final newline, makes no difference: only the raw text keeps it. */
  lemma OuterSpaceIgnored(before: string, raw: string, after: string)
    requires AllIn(before, Space) && AllIn(after, Space)
    ensures var padded := before + raw + after;
      && (Parse(padded).None? <==> Parse(raw).None?)
      && (Parse(raw).Some? ==> Parse(padded) == Some(Parse(raw).value.(raw := padded)))
  {
    var padded := before + raw + after;
    assert padded == before + (raw + after);
    LStripOf(before, raw + after);
    LStripThen(raw, after);
    if LStrip(raw) != "" {
      RStripOf(LStrip(raw), after);
    }
    assert Strip(padded) == Strip(raw);
    hide Strip, First, EventOf;
  }

  /** The text of a time stamp. */
  lemma StampText(t: Stamp)
    ensures Concat(t.Pieces()) ==
            t.month + t.gap + t.day + " " + t.hour + ":" + t.minute + ":" + t.second
  {
    var a, b := [t.month, t.gap, t.day, " ", t.hour], [":", t.minute, ":", t.second, ""];
    ConcatFive(t.month, t.gap, t.day, " ", t.hour);
    ConcatFive(":", t.minute, ":", t.second, "");
    ConcatSplits(a, b);
    ConcatSplits(t.Pieces(), [""]);
    assert a + b == t.Pieces() + [""];
    assert Concat([""]) == "";
    hide Concat;
    assert Concat(t.Pieces()) == Concat(a) + Concat(b);
    assert ":" + (t.minute + (":" + (t.second + ""))) == ":" + t.minute + ":" + t.second;
    assert t.month + (t.gap + (t.day + (" " + t.hour))) == t.month + t.gap + t.day + " " + t.hour;
  }

  /** The text of a printed line. */
  lemma PrintText(l: Line)
    ensures Print(l) == "<" + Duration.NatText(l.priority) + ">" + Concat(l.stamp.Pieces()) + " " + l.host +
                        " " + l.tag + ": " + l.message
  {
    var a, b := ["<", Duration.NatText(l.priority), ">"], [" ", l.host];
    ConcatSplits(a + l.stamp.Pieces(), b);
    ConcatSplits(a, l.stamp.Pieces());
    WanMessages.ConcatThree("<", Duration.NatText(l.priority), ">");
    WanMessages.ConcatThree(" ", l.host, "");
    ConcatSplits(b, [""]);
    assert b + [""] == [" ", l.host, ""] && Concat([""]) == "";
    hide Concat, Duration.NatText;
  }

  function TimeText(t: Stamp): string {
    t.month + t.gap + t.day + " " + t.hour + ":" + t.minute + ":" + t.second
  }

  /** A line as a router sends it, with any of the twelve months, is parsed into its parts. */
  lemma RealLine(l: Line, raw: string)
    requires IsRfcStamp(l.stamp) && Recoverable(l)
    requires raw == "<" + Duration.NatText(l.priority) + ">" + TimeText(l.stamp) + " " + l.host + " " + l.tag + ": " +
                    l.message
    ensures Parse(raw) == Some(SyslogEvent(TimeText(l.stamp), l.tag, SEVERITIES[l.priority % 8], l.host, l.message,
                                           Categorize(l.message), raw))
  {
    RfcStampIsWellFormed(l.stamp);
    StampText(l.stamp);
    PrintText(l);
    RecoverableIsRecovered(l);
    hide Parse, Print, Categorize, Concat, Recoverable, Duration.NatText, IsRfcStamp;
  }
}
