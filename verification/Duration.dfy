/** format_duration (shared/telegram.py), and a parser that inverts it. */
module Duration {
  import opened Common

  // ----- decimal numerals -----

  predicate IsDigit(c: char) { '0' <= c <= '9' }

  function Digit(d: nat): char
    requires d < 10
  {
    ['0', '1', '2', '3', '4', '5', '6', '7', '8', '9'][d]
  }

  function DigitValue(c: char): nat
    requires IsDigit(c)
  {
    c as int - '0' as int
  }

  /** The decimal text of a natural number. */
  function NatText(n: nat): string {
    if n < 10 then [Digit(n)] else NatText(n / 10) + [Digit(n % 10)]
  }

  /** The decimal text of an integer. */
  function IntText(n: int): string {
    if n < 0 then "-" + NatText(-n) else NatText(n)
  }

  predicate AllDigits(s: string) {
    forall i | 0 <= i < |s| :: IsDigit(s[i])
  }

  /** The number a string of digits stands for. */
  function NatValue(s: string): nat
    requires AllDigits(s)
  {
    if s == "" then 0 else 10 * NatValue(Front(s)) + DigitValue(Last(s))
  }

  lemma {:induction false} NatTextRoundTrip(n: nat)
    ensures NatText(n) != "" && AllDigits(NatText(n)) && NatValue(NatText(n)) == n
  {
    if n < 10 {
      assert Front(NatText(n)) == "";
    } else {
      NatTextRoundTrip(n / 10);
      assert Front(NatText(n)) == NatText(n / 10);
    }
  }

  /** A numeral has no leading zero: "0" is the only one that starts with it. */
  lemma {:induction false} NoLeadingZero(n: nat)
    ensures NatText(n) != "" && (NatText(n)[0] == '0' <==> NatText(n) == "0") && (NatText(n) == "0" <==> n == 0)
  {
    if n >= 10 {
      NoLeadingZero(n / 10);
      assert NatText(n)[0] == NatText(n / 10)[0];
    }
  }

  // ----- formatting -----

  const DAY := 86400
  const HOUR := 3600
  const MINUTE := 60

  datatype Unit = Days | Hours | Minutes | Seconds

  /** One "3h"-like component. */
  datatype Part = Part(count: int, unit: Unit)

  function Size(unit: Unit): int {
    match unit
    case Days => DAY
    case Hours => HOUR
    case Minutes => MINUTE
    case Seconds => 1
  }

  /** The seconds a component stands for. */
  function Worth(p: Part): int {
    match p.unit
    case Days => DAY * p.count
    case Hours => HOUR * p.count
    case Minutes => MINUTE * p.count
    case Seconds => p.count
  }

  function Letter(unit: Unit): char {
    match unit
    case Days => 'd'
    case Hours => 'h'
    case Minutes => 'm'
    case Seconds => 's'
  }

  function Render(p: Part): string {
    IntText(p.count) + [Letter(p.unit)]
  }

  /** The texts with a blank between any two. */
  function Join(texts: seq<string>): string {
    if texts == [] then ""
    else if |texts| == 1 then texts[0]
    else texts[0] + " " + Join(texts[1..])
  }

  function RenderAll(parts: seq<Part>): seq<string> {
    if parts == [] then [] else [Render(parts[0])] + RenderAll(parts[1..])
  }

  function Prepend(count: int, unit: Unit, rest: seq<Part>): seq<Part> {
    if count != 0 then [Part(count, unit)] + rest else rest
  }

  /** The non-zero components, or "0s" when there are none. */
  function Components(d: int, h: int, m: int, s: int): seq<Part> {
    var parts := Prepend(d, Days, Prepend(h, Hours, Prepend(m, Minutes, Prepend(s, Seconds, []))));
    if parts == [] then [Part(0, Seconds)] else parts
  }

  /** The components of a whole number of seconds. Python's divmod floors, so only the days can be negative. */
  function Parts(seconds: int): seq<Part> {
    var rest := seconds % DAY;
    Components(seconds / DAY, rest / HOUR, rest % HOUR / MINUTE, rest % HOUR % MINUTE)
  }

  /** The text format_duration returns for a whole number of seconds. */
  function Format(seconds: int): string {
    Join(RenderAll(Parts(seconds)))
  }

  /** format_duration: the parts list is built step by step. */
  method FormatDuration(seconds: real) returns (text: string)
    ensures text == Format(Truncate(seconds)) && IsTextOf(text, Truncate(seconds))
  {
    FormatMeaning(Truncate(seconds), Format(Truncate(seconds)));
    var whole := Truncate(seconds);
    var days, remainder := whole / DAY, whole % DAY;
    var hours: int;
    hours, remainder := remainder / HOUR, remainder % HOUR;
    var minutes, secs := remainder / MINUTE, remainder % MINUTE;
    var parts := AppendParts(days, hours, minutes, secs);
    text := Join(parts);
  }

  method AppendParts(days: int, hours: int, minutes: int, secs: int) returns (parts: seq<string>)
    ensures parts == RenderAll(Components(days, hours, minutes, secs))
  {
    parts := [];
    if days != 0 {
      parts := parts + [IntText(days) + "d"];
    }
    if hours != 0 {
      parts := parts + [IntText(hours) + "h"];
    }
    if minutes != 0 {
      parts := parts + [IntText(minutes) + "m"];
    }
    assert parts == Texts(days, Days) + Texts(hours, Hours) + Texts(minutes, Minutes);
    if secs != 0 || parts == [] {
      parts := parts + [IntText(secs) + "s"];
    }
    RenderComponents(days, hours, minutes, secs);
  }

  /** The text of a component, if it is not zero. */
  function Texts(count: int, unit: Unit): seq<string> {
    if count != 0 then [IntText(count) + [Letter(unit)]] else []
  }

  lemma RenderPrepend(count: int, unit: Unit, rest: seq<Part>)
    ensures RenderAll(Prepend(count, unit, rest)) == Texts(count, unit) + RenderAll(rest)
  {
    assert count != 0 ==> ([Part(count, unit)] + rest)[1..] == rest;
  }

  lemma RenderComponents(d: int, h: int, m: int, s: int)
    ensures var big := Texts(d, Days) + Texts(h, Hours) + Texts(m, Minutes);
      RenderAll(Components(d, h, m, s)) == if big == [] && s == 0 then [IntText(0) + "s"] else big + Texts(s, Seconds)
  {
    var p1 := Prepend(s, Seconds, []);
    var p2 := Prepend(m, Minutes, p1);
    var p3 := Prepend(h, Hours, p2);
    var p4 := Prepend(d, Days, p3);
    RenderPrepend(s, Seconds, []);
    RenderPrepend(m, Minutes, p1);
    RenderPrepend(h, Hours, p2);
    RenderPrepend(d, Days, p3);
    Regroup(Texts(d, Days), Texts(h, Hours), Texts(m, Minutes), Texts(s, Seconds));
    assert RenderAll(p4) == [] <==> p4 == [];
    assert RenderAll([Part(0, Seconds)]) == [Render(Part(0, Seconds))];
  }

  lemma Regroup<T>(a: seq<T>, b: seq<T>, c: seq<T>, d: seq<T>)
    ensures a + (b + (c + (d + []))) == a + b + c + d
  {
  }

  // ----- what a well-formed duration is -----

  /** Non-zero; below the days also positive and within the next unit. */
  predicate Fits(p: Part) {
    match p.unit
    case Days => p.count != 0
    case Hours => 0 < p.count < 24
    case _ => 0 < p.count < 60
  }

  /** Strictly falling units, the first smaller than the bound, every component fitting. */
  predicate Falling(parts: seq<Part>, bound: int) {
    parts == [] ||
    (Size(parts[0].unit) < bound && Fits(parts[0]) && Falling(parts[1..], Size(parts[0].unit)))
  }

  /** No zero component except "0s" alone, never empty. */
  predicate Canonical(parts: seq<Part>) {
    parts == [Part(0, Seconds)] || (parts != [] && Falling(parts, DAY + 1))
  }

  function Value(parts: seq<Part>): int {
    if parts == [] then 0 else Worth(parts[0]) + Value(parts[1..])
  }

  lemma PrependFalls(count: int, unit: Unit, rest: seq<Part>)
    requires Falling(rest, Size(unit)) && (count == 0 || Fits(Part(count, unit)))
    ensures Falling(Prepend(count, unit, rest), Size(unit) + 1)
    ensures Value(Prepend(count, unit, rest)) == Worth(Part(count, unit)) + Value(rest)
  {
    if count != 0 {
      assert Prepend(count, unit, rest)[1..] == rest;
    }
  }

  lemma ComponentsAreCanonical(d: int, h: int, m: int, s: int)
    requires 0 <= h < 24 && 0 <= m < 60 && 0 <= s < 60
    ensures Canonical(Components(d, h, m, s))
    ensures Value(Components(d, h, m, s)) == d * DAY + h * HOUR + m * MINUTE + s
  {
    PrependFalls(s, Seconds, []);
    var fromMinutes := Prepend(s, Seconds, []);
    PrependFalls(m, Minutes, fromMinutes);
    var fromHours := Prepend(m, Minutes, fromMinutes);
    PrependFalls(h, Hours, fromHours);
    PrependFalls(d, Days, Prepend(h, Hours, fromHours));
  }

  /** The components are well formed (hours below 24, minutes and seconds below 60, no zero
      except "0s" alone) and add up to the number of seconds. */
  lemma PartsAreCanonical(seconds: int)
    ensures Canonical(Parts(seconds)) && Value(Parts(seconds)) == seconds
  {
    var rest := seconds % DAY;
    ComponentsAreCanonical(seconds / DAY, rest / HOUR, rest % HOUR / MINUTE, rest % HOUR % MINUTE);
  }

  /** Components below the days add up to less than the bound. */
  lemma {:induction false} ValueBelow(parts: seq<Part>, bound: int)
    requires Falling(parts, bound) && bound in {1, MINUTE, HOUR, DAY}
    ensures 0 <= Value(parts) < bound
  {
    if parts != [] {
      ValueBelow(parts[1..], Size(parts[0].unit));
    }
  }

  /** What a duration text should be: the components of the number, the larger unit first, none of them zero except a
      single "0s", hours below 24, minutes and seconds below 60. */
  ghost predicate IsTextOf(text: string, seconds: int) {
    exists parts :: Canonical(parts) && Value(parts) == seconds && text == Join(RenderAll(parts))
  }

  /** The formatter's text is that text, and the only one. */
  lemma FormatMeaning(seconds: int, text: string)
    ensures IsTextOf(text, seconds) <==> text == Format(seconds)
  {
    PartsAreCanonical(seconds);
    hide Join, RenderAll, Canonical, Parts;
    if IsTextOf(text, seconds) {
      var parts :| Canonical(parts) && Value(parts) == seconds && text == Join(RenderAll(parts));
      CanonicalIsUnique(parts);
    }
  }

  lemma {:induction false} JoinParts(parts: seq<Part>)
    requires parts != []
    ensures Join(RenderAll(parts)) ==
            Render(parts[0]) + (if |parts| == 1 then "" else " " + Join(RenderAll(parts[1..])))
  {
    assert RenderAll(parts)[1..] == RenderAll(parts[1..]);
    hide Render;
  }

  lemma TwoDigits(tens: nat, ones: nat)
    requires 0 < tens < 10 && ones < 10
    ensures NatText(10 * tens + ones) == [Digit(tens), Digit(ones)]
  {
  }

  /** An hour, a minute and a second. */
  lemma FormatHourMinuteSecond()
    ensures Format(3661) == "1h 1m 1s"
  {
    var parts := [Part(1, Hours), Part(1, Minutes), Part(1, Seconds)];
    assert Parts(3661) == parts;
    assert parts[1..] == [Part(1, Minutes), Part(1, Seconds)] && parts[1..][1..] == [Part(1, Seconds)];
    JoinParts(parts);
    JoinParts(parts[1..]);
    JoinParts(parts[1..][1..]);
  }

  /** Nothing at all, and whole units: zero components are left out. */
  lemma FormatWholeUnits()
    ensures Format(0) == "0s" && Format(90000) == "1d 1h"
  {
    assert Parts(0) == [Part(0, Seconds)];
    JoinParts(Parts(0));
    var parts := [Part(1, Days), Part(1, Hours)];
    assert Parts(90000) == parts && parts[1..] == [Part(1, Hours)];
    JoinParts(parts);
    JoinParts(parts[1..]);
  }

  const MINUS_ONE := [Part(-1, Days), Part(23, Hours), Part(59, Minutes), Part(59, Seconds)]

  lemma MinusOneParts()
    ensures Parts(-1) == MINUS_ONE
  {
  }

  lemma MinusOneTexts()
    ensures Render(Part(-1, Days)) == "-1d" && Render(Part(23, Hours)) == "23h"
    ensures Render(Part(59, Minutes)) == "59m" && Render(Part(59, Seconds)) == "59s"
  {
    TwoDigits(2, 3);
    TwoDigits(5, 9);
  }

  /** One second before: only the days are negative. */
  lemma FormatMinusOne()
    ensures Format(-1) == "-1d 23h 59m 59s"
  {
    MinusOneParts();
    MinusOneTexts();
    hide Join, RenderAll, Parts, Render;
    var three, two, one := MINUS_ONE[1..], MINUS_ONE[2..], MINUS_ONE[3..];
    assert three[1..] == two && two[1..] == one;
    JoinParts(MINUS_ONE);
    JoinParts(three);
    JoinParts(two);
    JoinParts(one);
  }

  /** The head of a falling list can be read off its value. */
  lemma HeadFromValue(parts: seq<Part>)
    requires parts != [] && Falling(parts, DAY + 1)
    ensures var size := Size(parts[0].unit);
      Value(parts) / size == parts[0].count && Value(parts) % size == Value(parts[1..])
  {
    var rest := Value(parts[1..]);
    ValueBelow(parts[1..], Size(parts[0].unit));
    match parts[0].unit {
      case Days => assert (parts[0].count * DAY + rest) / DAY == parts[0].count;
      case Hours => assert (parts[0].count * HOUR + rest) / HOUR == parts[0].count;
      case Minutes => assert (parts[0].count * MINUTE + rest) / MINUTE == parts[0].count;
      case Seconds =>
    }
  }

  /** A list with larger units has a value its smaller rival cannot reach. */
  lemma DifferentHeads(a: seq<Part>, b: seq<Part>)
    requires Falling(a, DAY + 1) && a != []
    requires b == [] || Size(b[0].unit) < Size(a[0].unit)
    requires Falling(b, DAY + 1)
    ensures Value(a) != Value(b)
  {
    HeadFromValue(a);
    ValueBelow(b, Size(a[0].unit));
  }

  lemma {:induction false} FallingUnique(a: seq<Part>, b: seq<Part>, bound: int)
    requires Falling(a, bound) && Falling(b, bound) && bound <= DAY + 1
    requires Value(a) == Value(b)
    ensures a == b
  {
    if a == [] && b == [] {
    } else if a == [] || (b != [] && Size(a[0].unit) < Size(b[0].unit)) {
      DifferentHeads(b, a);
    } else if b == [] || Size(b[0].unit) < Size(a[0].unit) {
      DifferentHeads(a, b);
    } else {
      HeadFromValue(a);
      HeadFromValue(b);
      FallingUnique(a[1..], b[1..], Size(a[0].unit));
      assert a == [a[0]] + a[1..] && b == [b[0]] + b[1..];
    }
  }

  /** Every well-formed list of components is the one chosen for the time it stands for:
      format_duration maps the integers one to one onto the well-formed durations. */
  lemma CanonicalIsUnique(parts: seq<Part>)
    requires Canonical(parts)
    ensures Parts(Value(parts)) == parts
  {
    PartsAreCanonical(Value(parts));
    var again := Parts(Value(parts));
    if parts == [Part(0, Seconds)] {
      assert Value(parts) == 0;
    } else if again == [Part(0, Seconds)] {
      HeadFromValue(parts);
    } else {
      FallingUnique(parts, again, DAY + 1);
    }
  }

  // ----- parsing -----

  /** The position of the first blank, or the length of the text. */
  function Blank(text: string): (k: nat)
    ensures k <= |text| && ' ' !in text[..k] && (k < |text| ==> text[k] == ' ')
  {
    if text == "" || text[0] == ' ' then 0 else 1 + Blank(text[1..])
  }

  function ParseInt(text: string): Option<int> {
    if text != "" && AllDigits(text) then Some(NatValue(text))
    else if |text| >= 2 && text[0] == '-' && AllDigits(text[1..]) then
      var n: int := NatValue(text[1..]);
      Some(-n)
    else None
  }

  function ParseUnit(c: char): Option<Unit> {
    if c == 'd' then Some(Days)
    else if c == 'h' then Some(Hours)
    else if c == 'm' then Some(Minutes)
    else if c == 's' then Some(Seconds)
    else None
  }

  function ParsePart(text: string): Option<int> {
    if text == "" then None
    else match (ParseInt(Front(text)), ParseUnit(Last(text)))
      case (Some(count), Some(unit)) => Some(Worth(Part(count, unit)))
      case _ => None
  }

  /** The words between the blanks. */
  function Split(text: string): seq<string>
    decreases |text|
  {
    var k := Blank(text);
    if k == |text| then [text] else [text[..k]] + Split(text[k + 1..])
  }

  function Sum(words: seq<string>): Option<int> {
    if words == [] then Some(0)
    else match (ParsePart(words[0]), Sum(words[1..]))
      case (Some(a), Some(b)) => Some(a + b)
      case _ => None
  }

  /** Reads a duration such as "3d 4h 12m" back as a number of seconds. */
  function Parse(text: string): Option<int> {
    Sum(Split(text))
  }

  lemma IntTextRoundTrip(n: int)
    ensures ParseInt(IntText(n)) == Some(n)
  {
    hide ParseInt, NatText;
    if n < 0 {
      assert IntText(n) == "-" + NatText(-n);
      NegativeRoundTrip(-n);
    } else {
      PositiveRoundTrip(n);
    }
  }

  lemma PositiveRoundTrip(n: nat)
    ensures ParseInt(NatText(n)) == Some(n)
  {
    NatTextRoundTrip(n);
    PositiveText(NatText(n));
  }

  lemma NegativeRoundTrip(n: nat)
    ensures ParseInt("-" + NatText(n)) == Some(0 - n)
  {
    NatTextRoundTrip(n);
    NegativeText(NatText(n));
  }

  lemma PositiveText(digits: string)
    requires digits != "" && AllDigits(digits)
    ensures ParseInt(digits) == Some(NatValue(digits))
  {
  }

  lemma NegativeText(digits: string)
    requires digits != "" && AllDigits(digits)
    ensures var n: int := NatValue(digits); ParseInt("-" + digits) == Some(-n)
  {
    var text := "-" + digits;
    assert text[1..] == digits && !IsDigit(text[0]);
  }

  lemma IntTextHasNoBlank(n: int)
    ensures ' ' !in IntText(n)
  {
    NatTextRoundTrip(if n < 0 then -n else n);
  }

  lemma RenderedPart(p: Part)
    ensures ' ' !in Render(p) && ParsePart(Render(p)) == Some(Worth(p))
  {
    IntTextRoundTrip(p.count);
    IntTextHasNoBlank(p.count);
    assert Front(Render(p)) == IntText(p.count);
  }

  lemma {:induction false} BlankAfter(word: string, rest: string)
    requires ' ' !in word
    ensures Blank(word) == |word| && Blank(word + " " + rest) == |word|
  {
    if word != "" {
      BlankAfter(word[1..], rest);
      assert (word + " " + rest)[1..] == word[1..] + " " + rest;
    } else {
      assert (word + " " + rest)[0] == ' ';
    }
  }

  lemma {:induction false} SplitJoin(words: seq<string>)
    requires words != [] && forall i | 0 <= i < |words| :: ' ' !in words[i]
    ensures Split(Join(words)) == words
  {
    var word, rest := words[0], Join(words[1..]);
    BlankAfter(word, rest);
    if |words| > 1 {
      SplitJoin(words[1..]);
      var text := word + " " + rest;
      assert text[..|word|] == word && text[|word| + 1..] == rest;
    }
  }

  lemma {:induction false} SumRendered(parts: seq<Part>)
    ensures Sum(RenderAll(parts)) == Some(Value(parts))
  {
    hide ParsePart;
    if parts != [] {
      SumRendered(parts[1..]);
      SumCons(parts[0], RenderAll(parts[1..]), Value(parts[1..]));
    }
  }

  lemma SumCons(p: Part, words: seq<string>, value: int)
    requires Sum(words) == Some(value)
    ensures Sum([Render(p)] + words) == Some(Worth(p) + value)
  {
    RenderedPart(p);
    assert ([Render(p)] + words)[1..] == words;
  }

  lemma {:induction false} RenderedHaveNoBlanks(parts: seq<Part>)
    ensures |RenderAll(parts)| == |parts| && forall i | 0 <= i < |parts| :: ' ' !in RenderAll(parts)[i]
  {
    if parts != [] {
      RenderedHaveNoBlanks(parts[1..]);
      RenderedPart(parts[0]);
    }
  }

  /** Formatting loses nothing: the parser inverts it on every integer, the negative ones included. */
  lemma FormatRoundTrip(seconds: int)
    ensures Parse(Format(seconds)) == Some(seconds)
  {
    PartsAreCanonical(seconds);
    SumRendered(Parts(seconds));
    RenderedHaveNoBlanks(Parts(seconds));
    SplitJoin(RenderAll(Parts(seconds)));
  }

  lemma FormatInjective(a: int, b: int)
    requires Format(a) == Format(b)
    ensures a == b
  {
    FormatRoundTrip(a);
    FormatRoundTrip(b);
  }

  /** Never empty, and never the word the alerts use for a missing duration. */
  lemma FormatIsADuration(seconds: int)
    ensures Format(seconds) != "" && Format(seconds) != "unknown"
  {
    FormatRoundTrip(seconds);
    NotADuration("");
    assert Last("unknown") == 'n';
    NotADuration("unknown");
  }

  lemma NotADuration(word: string)
    requires ' ' !in word && (word == "" || Last(word) !in "dhms")
    ensures Parse(word).None?
  {
    BlankAfter(word, "");
    assert ParsePart(word).None?;
    assert [word][1..] == [];
  }
}
