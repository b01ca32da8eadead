/** Parsing and categorizing router syslog lines (local/syslog_receiver.py). */
module Syslog {
  import opened Common
  import opened Regex
  import Duration

  // ----- WAN events -----

  /** head, a lazy interface name, one of the tails: the tails keep the closing bracket of the name. */
  datatype WanPattern = WanPattern(head: string, tails: seq<string>, event: string)

  const WAN_PATTERNS: seq<WanPattern> := [
    WanPattern("Backup [", ["] took effect"], "failover_activated"),
    WanPattern("Backup [", ["] was down"], "failover_deactivated"),
    WanPattern("physical connection status of [", ["] was down"], "link_down"),
    WanPattern("online detection result of [", ["] was online", "] was offline"], "online_detection")
  ]

  function PatternOf(w: WanPattern): Pattern {
    [Lit(w.head), Many(Dot, 1, true), OneOf(w.tails)]
  }

  /** The WAN category with its metadata, or any of the generic categories. */
  datatype Category = Wan(event: string, iface: string) | General

  /** The event of the first pattern in the list that occurs in the message. */
  function CategorizeBy(patterns: seq<WanPattern>, message: string): Category {
    if patterns == [] then General
    else match Search(PatternOf(patterns[0]), message)
      case Some((_, pieces)) => Wan(patterns[0].event, pieces[1])
      case None => CategorizeBy(patterns[1..], message)
  }

  function Categorize(message: string): Category {
    CategorizeBy(WAN_PATTERNS, message)
  }

  method CategorizeMessage(message: string) returns (category: Category)
    ensures category == Categorize(message)
  {
    for i := 0 to |WAN_PATTERNS|
      invariant Categorize(message) == CategorizeBy(WAN_PATTERNS[i..], message)
    {
      assert WAN_PATTERNS[i..][0] == WAN_PATTERNS[i] && WAN_PATTERNS[i..][1..] == WAN_PATTERNS[i + 1..];
      var found := Search(PatternOf(WAN_PATTERNS[i]), message);
      if found.Some? {
        return Wan(WAN_PATTERNS[i].event, found.value.1[1]);
      }
    }
    return General;
  }

  // ----- lines -----

  function LStrip(s: string): string {
    if s == "" || !IsSpace(s[0]) then s else LStrip(s[1..])
  }

  function RStrip(s: string): string {
    if s == "" || !IsSpace(Last(s)) then s else RStrip(Front(s))
  }

  /** Without the white space at both ends. */
  function Strip(s: string): string {
    RStrip(LStrip(s))
  }

  /** The priority in angle brackets, the time stamp, the host. */
  const HEADER_PATTERN: Pattern := [
    Lit("<"), Many(Digit, 1, false), Lit(">"),
    Many(Word, 1, false), Many(Space, 1, false), Many(Digit, 1, false), Many(Space, 1, false),
    Many(Digit, 1, false), Lit(":"), Many(Digit, 1, false), Lit(":"), Many(Digit, 1, false),
    Many(Space, 1, false), Many(NonSpace, 1, false)
  ]

  /** The blank in front of the tag, the tag up to a colon (lazily), the message to the end of the line. */
  const TAG_PATTERN: Pattern := [
    Many(Space, 1, false), Many(Dot, 1, true), Lit(":"), Many(Space, 0, false), Many(Dot, 0, false)
  ]

  /** The pattern of a whole line; its five groups are pieces 1, 3 to 11, 13, 15 and 18. */
  const SYSLOG_PATTERN: Pattern := HEADER_PATTERN + TAG_PATTERN

  const SEVERITIES := ["emerg", "alert", "crit", "err", "warning", "notice", "info", "debug"]

  function Severity(priority: nat): string {
    var number := priority % 8;
    if number < |SEVERITIES| then SEVERITIES[number] else "unknown"
  }

  /** SyslogEvent, with the time stamp as the text of the line. */
  datatype SyslogEvent = SyslogEvent(
    stamp: string, facility: string, severity: string, hostname: string, message: string,
    category: Category, raw: string)

  /** The event made from the pieces of a match. */
  function EventOf(pieces: seq<string>, raw: string): SyslogEvent
    requires |pieces| == |SYSLOG_PATTERN| && Duration.AllDigits(pieces[1])
  {
    SyslogEvent(
      Concat(pieces[3..12]), pieces[15], Severity(Duration.NatValue(pieces[1])), pieces[13], pieces[18],
      Categorize(pieces[18]), raw)
  }

  /** What parse_syslog_message returns. */
  function Parse(raw: string): Option<SyslogEvent> {
    match First(SYSLOG_PATTERN, Strip(raw))
    case None => None
    case Some(pieces) =>
      PriorityIsDigits(Strip(raw));
      Some(EventOf(pieces, raw))
  }

  lemma PriorityIsDigits(s: string)
    requires First(SYSLOG_PATTERN, s).Some?
    ensures Duration.AllDigits(First(SYSLOG_PATTERN, s).value[1])
  {
    FirstAccepts(SYSLOG_PATTERN, s);
    assert Accepts(SYSLOG_PATTERN[1], First(SYSLOG_PATTERN, s).value[1]);
    assert SYSLOG_PATTERN[1] == Many(Digit, 1, false);
  }

  method ParseSyslogMessage(raw: string) returns (event: Option<SyslogEvent>)
    ensures event == Parse(raw)
  {
    var found := First(SYSLOG_PATTERN, Strip(raw));
    if found.None? {
      return None;
    }
    var pieces := found.value;
    PriorityIsDigits(Strip(raw));
    var severity := Severity(Duration.NatValue(pieces[1]));
    var category := CategorizeMessage(pieces[18]);
    return Some(SyslogEvent(Concat(pieces[3..12]), pieces[15], severity, pieces[13], pieces[18], category, raw));
  }

  /** The severity is one of the eight names: "unknown" is never used. */
  lemma SeverityIsNamed(raw: string)
    requires Parse(raw).Some?
    ensures Parse(raw).value.severity in SEVERITIES && Parse(raw).value.severity != "unknown"
  {
    PriorityIsDigits(Strip(raw));
    var pri := Duration.NatValue(First(SYSLOG_PATTERN, Strip(raw)).value[1]);
    assert Parse(raw).value.severity == SEVERITIES[pri % 8];
    assert forall i | 0 <= i < 8 :: SEVERITIES[i][0] != 'u';
  }
}
