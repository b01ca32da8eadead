/** parse_syslog_message on every line: which lines are parsed at all, and what the event is made of. */
module SyslogLines {
  import opened Common
  import opened Regex
  import opened Syslog
  import SyslogRoundTrip
  import Duration

  /** The parts of a line, from the digits of the priority to the message; the gaps are the white space in between. */
  datatype Fields = Fields(
    priority: string, month: string, gap1: string, day: string, gap2: string,
    hour: string, minute: string, second: string, gap3: string, host: string,
    gap4: string, tag: string, gap5: string, message: string)

  predicate IsBlank(c: char) {
    c as int in {32, 9, 10, 11, 12, 13, 28, 29, 30, 31}
  }

  predicate IsGap(s: string) {
    s != "" && forall i | 0 <= i < |s| :: IsBlank(s[i])
  }

  predicate IsNumber(s: string) {
    s != "" && forall i | 0 <= i < |s| :: 48 <= s[i] as int <= 57
  }

  predicate IsWordPart(c: char) {
    48 <= c as int <= 57 || 65 <= c as int <= 90 || 97 <= c as int <= 122 || c as int == 95
  }

  /** What each part has to look like: numbers, a word for the month, white space between the parts, a host without
      white space, a tag on one line, a colon, perhaps white space, and a message on one line. */
  predicate IsLine(f: Fields) {
    && IsNumber(f.priority) && IsNumber(f.day) && IsNumber(f.hour) && IsNumber(f.minute) && IsNumber(f.second)
    && f.month != "" && (forall i | 0 <= i < |f.month| :: IsWordPart(f.month[i]))
    && IsGap(f.gap1) && IsGap(f.gap2) && IsGap(f.gap3) && IsGap(f.gap4) && (f.gap5 == "" || IsGap(f.gap5))
    && f.host != "" && (forall i | 0 <= i < |f.host| :: !IsBlank(f.host[i]))
    && f.tag != "" && '\n' !in f.tag && '\n' !in f.message
  }

  function TimeText(f: Fields): string {
    f.month + f.gap1 + f.day + f.gap2 + f.hour + ":" + f.minute + ":" + f.second
  }

  function LineText(f: Fields): string {
    "<" + f.priority + ">" + TimeText(f) + f.gap3 + f.host + f.gap4 + f.tag + ":" + f.gap5 + f.message
  }

  // ----- parts and pieces -----

  function PiecesOf(f: Fields): seq<string> {
    ["<", f.priority, ">", f.month, f.gap1] +
    [f.day, f.gap2, f.hour, ":", f.minute] +
    [":", f.second, f.gap3, f.host, f.gap4] +
    [f.tag, ":", f.gap5, f.message]
  }

  function FieldsOf(q: seq<string>): Fields
    requires |q| == 19
  {
    Fields(q[1], q[3], q[4], q[5], q[6], q[7], q[9], q[11], q[12], q[13], q[14], q[15], q[17], q[18])
  }

  lemma GapIsSpace(s: string)
    ensures IsGap(s) <==> Accepts(Many(Space, 1, false), s)
    ensures s == "" || IsGap(s) <==> Accepts(Many(Space, 0, false), s)
  {
    forall i | 0 <= i < |s| ensures IsBlank(s[i]) <==> In(s[i], Space) {
      ClassesAre(s[i]);
    }
    hide In, IsBlank;
    if Accepts(Many(Space, 0, false), s) && s != "" {
      forall i | 0 <= i < |s| ensures IsBlank(s[i]) {
        assert In(s[i], Space);
      }
    }
  }

  lemma NumberIsDigits(s: string)
    ensures IsNumber(s) <==> Accepts(Many(Digit, 1, false), s)
  {
    forall i | 0 <= i < |s| ensures 48 <= s[i] as int <= 57 <==> In(s[i], Digit) {
      ClassesAre(s[i]);
    }
    hide In;
  }

  lemma MonthIsWord(s: string)
    ensures (s != "" && forall i | 0 <= i < |s| :: IsWordPart(s[i])) <==> Accepts(Many(Word, 1, false), s)
  {
    forall i | 0 <= i < |s| ensures IsWordPart(s[i]) <==> In(s[i], Word) {
      ClassesAre(s[i]);
    }
    hide In, IsWordPart;
  }

  lemma HostIsNonSpace(s: string)
    ensures (s != "" && forall i | 0 <= i < |s| :: !IsBlank(s[i])) <==> Accepts(Many(NonSpace, 1, false), s)
  {
    forall i | 0 <= i < |s| ensures !IsBlank(s[i]) <==> In(s[i], NonSpace) {
      ClassesAre(s[i]);
    }
    hide In, IsBlank;
  }

  lemma OneLine(s: string)
    ensures s != "" && '\n' !in s <==> Accepts(Many(Dot, 1, true), s)
    ensures '\n' !in s <==> Accepts(Many(Dot, 0, false), s)
  {
  }

  /** The pieces fit the pattern exactly if the parts are those of a line. */
  lemma PiecesFit(f: Fields)
    ensures IsLine(f) <==> AcceptsAll(SYSLOG_PATTERN, PiecesOf(f))
  {
    NumberIsDigits(f.priority);
    NumberIsDigits(f.day);
    NumberIsDigits(f.hour);
    NumberIsDigits(f.minute);
    NumberIsDigits(f.second);
    MonthIsWord(f.month);
    GapIsSpace(f.gap1);
    GapIsSpace(f.gap2);
    GapIsSpace(f.gap3);
    GapIsSpace(f.gap4);
    GapIsSpace(f.gap5);
    HostIsNonSpace(f.host);
    OneLine(f.tag);
    OneLine(f.message);
    AllPieces(f);
    hide Accepts, AcceptsAll, IsNumber, IsGap, IsWordPart, IsBlank;
  }

  lemma AllPieces(f: Fields)
    ensures AcceptsAll(SYSLOG_PATTERN, PiecesOf(f)) <==>
      && Accepts(Many(Digit, 1, false), f.priority) && Accepts(Many(Word, 1, false), f.month)
      && Accepts(Many(Space, 1, false), f.gap1) && Accepts(Many(Digit, 1, false), f.day)
      && Accepts(Many(Space, 1, false), f.gap2) && Accepts(Many(Digit, 1, false), f.hour)
      && Accepts(Many(Digit, 1, false), f.minute) && Accepts(Many(Digit, 1, false), f.second)
      && Accepts(Many(Space, 1, false), f.gap3) && Accepts(Many(NonSpace, 1, false), f.host)
      && Accepts(Many(Space, 1, false), f.gap4) && Accepts(Many(Dot, 1, true), f.tag)
      && Accepts(Many(Space, 0, false), f.gap5) && Accepts(Many(Dot, 0, false), f.message)
  {
    var p, q := SYSLOG_PATTERN, PiecesOf(f);
    assert |p| == 19 && |q| == 19;
    assert Accepts(p[0], q[0]) && Accepts(p[2], q[2]) && Accepts(p[8], q[8]) && Accepts(p[10], q[10]);
    assert Accepts(p[16], q[16]);
    hide AllIn;
    if AcceptsAll(p, q) {
      assert Accepts(p[1], q[1]) && Accepts(p[3], q[3]) && Accepts(p[4], q[4]) && Accepts(p[5], q[5]);
      assert Accepts(p[6], q[6]) && Accepts(p[7], q[7]) && Accepts(p[9], q[9]) && Accepts(p[11], q[11]);
      assert Accepts(p[12], q[12]) && Accepts(p[13], q[13]) && Accepts(p[14], q[14]) && Accepts(p[15], q[15]);
      assert Accepts(p[17], q[17]) && Accepts(p[18], q[18]);
    }
  }

  lemma TextOfPieces(f: Fields)
    ensures Concat(PiecesOf(f)) == LineText(f)
  {
    var a, b := ["<", f.priority, ">", f.month, f.gap1], [f.day, f.gap2, f.hour, ":", f.minute];
    var c, d := [":", f.second, f.gap3, f.host, f.gap4], [f.tag, ":", f.gap5, f.message];
    ConcatSplits(a + b + c, d);
    ConcatSplits(a + b, c);
    ConcatSplits(a, b);
    ConcatSplits(d, [""]);
    SyslogRoundTrip.ConcatFive("<", f.priority, ">", f.month, f.gap1);
    SyslogRoundTrip.ConcatFive(f.day, f.gap2, f.hour, ":", f.minute);
    SyslogRoundTrip.ConcatFive(":", f.second, f.gap3, f.host, f.gap4);
    SyslogRoundTrip.ConcatFive(f.tag, ":", f.gap5, f.message, "");
    assert d + [""] == [f.tag, ":", f.gap5, f.message, ""] && Concat([""]) == "";
    hide Concat;
    Flatten(f);
  }

  lemma Flatten(f: Fields)
    ensures ("<" + (f.priority + (">" + (f.month + f.gap1)))) + (f.day + (f.gap2 + (f.hour + (":" + f.minute)))) +
            (":" + (f.second + (f.gap3 + (f.host + f.gap4)))) + (f.tag + (":" + (f.gap5 + (f.message + "")))) ==
            LineText(f)
  {
  }

  lemma PiecesAgain(q: seq<string>)
    requires |q| == 19 && q[0] == "<" && q[2] == ">" && q[8] == ":" && q[10] == ":" && q[16] == ":"
    ensures PiecesOf(FieldsOf(q)) == q
  {
  }

  // ----- the lines that are parsed -----

  /** A line, stripped, starts with the text of these parts. */
  predicate StartsWith(raw: string, f: Fields) {
    IsLine(f) && LineText(f) <= Strip(raw)
  }

  /** Which lines are parsed: exactly those that, stripped, start with parts in the layout. */
  lemma ParsedLines(raw: string)
    ensures Parse(raw).Some? <==> exists f :: StartsWith(raw, f)
  {
    hide Parse;
    if Parse(raw).Some? {
      var f := ParsedFrom(raw);
    }
    if f :| StartsWith(raw, f) {
      PiecesFit(f);
      TextOfPieces(f);
      FlatFits(SYSLOG_PATTERN, Strip(raw), PiecesOf(f));
      FirstFinds(SYSLOG_PATTERN, Strip(raw), PiecesOf(f));
      hide First, Strip, EventOf;
      ParseIfFirst(raw);
    }
  }

  lemma ParseIfFirst(raw: string)
    requires First(SYSLOG_PATTERN, Strip(raw)).Some?
    ensures Parse(raw).Some?
  {
    hide First, Strip, EventOf;
  }

  /** What the event of a parsed line is made of: such parts of the line, the severity from the priority mod 8. */
  lemma ParsedFrom(raw: string) returns (f: Fields)
    requires Parse(raw).Some?
    ensures StartsWith(raw, f) && Duration.AllDigits(f.priority)
    ensures Parse(raw).value == SyslogEvent(TimeText(f), f.tag, SEVERITIES[Duration.NatValue(f.priority) % 8], f.host,
                                            f.message, Categorize(f.message), raw)
  {
    var q := First(SYSLOG_PATTERN, Strip(raw)).value;
    FirstAccepts(SYSLOG_PATTERN, Strip(raw));
    PriorityIsDigits(Strip(raw));
    assert Parse(raw) == Some(EventOf(q, raw));
    hide First, Strip, Parse;
    LiteralPieces(q);
    f := FieldsOf(q);
    PiecesAgain(q);
    PiecesFit(f);
    TextOfPieces(f);
    TimePieces(q);
    hide Concat, AcceptsAll, IsLine, LineText, TimeText, Categorize;
  }

  lemma LiteralPieces(q: seq<string>)
    requires AcceptsAll(SYSLOG_PATTERN, q)
    ensures |q| == 19 && q[0] == "<" && q[2] == ">" && q[8] == ":" && q[10] == ":" && q[16] == ":"
  {
    var p := SYSLOG_PATTERN;
    assert Accepts(p[0], q[0]) && Accepts(p[2], q[2]) && Accepts(p[8], q[8]) && Accepts(p[10], q[10]);
    assert Accepts(p[16], q[16]);
  }

  lemma TimePieces(q: seq<string>)
    requires |q| == 19 && q[8] == ":" && q[10] == ":"
    ensures Concat(q[3..12]) == TimeText(FieldsOf(q))
  {
    var a, b := [q[3], q[4], q[5], q[6], q[7]], [":", q[9], ":", q[11], ""];
    assert q[3..12] + [""] == a + b;
    ConcatSplits(q[3..12], [""]);
    ConcatSplits(a, b);
    SyslogRoundTrip.ConcatFive(q[3], q[4], q[5], q[6], q[7]);
    SyslogRoundTrip.ConcatFive(":", q[9], ":", q[11], "");
    assert Concat([""]) == "";
    hide Concat;
    assert (q[3] + (q[4] + (q[5] + (q[6] + q[7])))) + (":" + (q[9] + (":" + (q[11] + "")))) ==
           q[3] + q[4] + q[5] + q[6] + q[7] + ":" + q[9] + ":" + q[11];
  }

  // ----- stripping -----

  predicate AllBlank(s: string) {
    forall i | 0 <= i < |s| :: IsBlank(s[i])
  }

  /** Stripping takes away white space at both ends and all of it. */
  lemma StripMeaning(raw: string) returns (before: string, after: string)
    ensures AllBlank(before) && AllBlank(after) && raw == before + Strip(raw) + after
    ensures Strip(raw) != "" ==> !IsBlank(Strip(raw)[0]) && !IsBlank(Last(Strip(raw)))
  {
    before := LeftOf(raw);
    after := RightOf(LStrip(raw));
    assert raw == before + (Strip(raw) + after);
    if Strip(raw) != "" {
      assert Strip(raw)[0] == LStrip(raw)[0];
    }
  }

  lemma BlankIsSpace(c: char)
    ensures IsBlank(c) <==> IsSpace(c)
  {
    ClassesAre(c);
  }

  lemma {:induction false} LeftOf(s: string) returns (before: string)
    ensures AllBlank(before) && s == before + LStrip(s)
    ensures LStrip(s) != "" ==> !IsBlank(LStrip(s)[0])
  {
    before := "";
    if s != "" {
      BlankIsSpace(s[0]);
      if IsSpace(s[0]) {
        var rest := LeftOf(s[1..]);
        before := [s[0]] + rest;
        assert s == [s[0]] + s[1..];
      }
    }
  }

  lemma {:induction false} RightOf(s: string) returns (after: string)
    ensures AllBlank(after) && s == RStrip(s) + after
    ensures RStrip(s) != "" ==> !IsBlank(Last(RStrip(s)))
  {
    after := "";
    if s != "" {
      BlankIsSpace(Last(s));
      if IsSpace(Last(s)) {
        var rest := RightOf(Front(s));
        after := rest + [Last(s)];
        assert s == Front(s) + [Last(s)];
      }
    }
  }
}
