/** Regular expressions of the shape local/syslog_receiver.py uses: a sequence of literals, alternatives
    and repeated character classes, matched by backtracking in Python's order of preference. */
module Regex {
  import opened Common

  datatype CharClass = Digit | Word | Space | NonSpace | Dot

  /** The ASCII part of \d, \w, \s, \S and the dot. */
  predicate In(c: char, cls: CharClass) {
    match cls
    case Digit => '0' <= c <= '9'
    case Word => '0' <= c <= '9' || 'a' <= c <= 'z' || 'A' <= c <= 'Z' || c == '_'
    case Space => IsSpace(c)
    case NonSpace => !IsSpace(c)
    case Dot => c != '\n'
  }

  predicate IsSpace(c: char) {
    c == ' ' || 9 <= c as int <= 13 || 28 <= c as int <= 31
  }

  /** What the classes take, by character codes: \d the digits; \w these, the letters and the underscore; \s the blank,
      tab, newline, vertical tab, form feed, carriage return and the separators 28 to 31; the dot all but a newline. */
  lemma ClassesAre(c: char)
    ensures var n := c as int;
      && (In(c, Digit) <==> 48 <= n <= 57)
      && (In(c, Word) <==> 48 <= n <= 57 || 65 <= n <= 90 || 97 <= n <= 122 || n == 95)
      && (In(c, Space) <==> n in {32, 9, 10, 11, 12, 13, 28, 29, 30, 31})
      && (In(c, NonSpace) <==> n !in {32, 9, 10, 11, 12, 13, 28, 29, 30, 31})
      && (In(c, Dot) <==> n != 10)
  {
    assert '0' as int == 48 && '9' as int == 57 && 'A' as int == 65 && 'Z' as int == 90;
    assert 'a' as int == 97 && 'z' as int == 122 && '_' as int == 95 && ' ' as int == 32 && '\n' as int == 10;
  }

  /** A literal, a choice between literals (tried in order), or a class repeated at least `min` times. */
  datatype Atom =
    | Lit(text: string)
    | OneOf(texts: seq<string>)
    | Many(cls: CharClass, min: nat, lazy: bool)

  type Pattern = seq<Atom>

  /** How many characters at the start of s are in the class. */
  function Stretch(cls: CharClass, s: string): (n: nat)
    ensures n <= |s|
  {
    if s == "" || !In(s[0], cls) then 0 else 1 + Stretch(cls, s[1..])
  }

  function Ascending(low: nat, high: nat): seq<nat> {
    if low > high then [] else if low == high then [low] else Ascending(low, high - 1) + [high]
  }

  function Descending(low: nat, high: nat): seq<nat> {
    if low > high then [] else if low == high then [low] else [high] + Descending(low, high - 1)
  }

  function ChoiceLengths(texts: seq<string>, s: string): seq<nat> {
    if texts == [] then []
    else (if texts[0] <= s then [|texts[0]|] else []) + ChoiceLengths(texts[1..], s)
  }

  /** The lengths an atom can consume at the start of s, the preferred one first. */
  function Lengths(atom: Atom, s: string): seq<nat> {
    match atom
    case Lit(text) => if text <= s then [|text|] else []
    case OneOf(texts) => ChoiceLengths(texts, s)
    case Many(cls, min, lazy) => if lazy then Ascending(min, Stretch(cls, s)) else Descending(min, Stretch(cls, s))
  }

  /** The first match in order of preference, as the text consumed by each atom. */
  function First(p: Pattern, s: string): (r: Option<seq<string>>)
    ensures r.Some? ==> |r.value| == |p|
    decreases |p|, 1, 0
  {
    if p == [] then Some([]) else Try(p, s, Lengths(p[0], s))
  }

  function Try(p: Pattern, s: string, lengths: seq<nat>): (r: Option<seq<string>>)
    requires p != []
    ensures r.Some? ==> |r.value| == |p|
    decreases |p|, 0, |lengths|
  {
    if lengths == [] || lengths[0] > |s| then None
    else match First(p[1..], s[lengths[0]..])
      case Some(rest) => Some([s[..lengths[0]]] + rest)
      case None => Try(p, s, lengths[1..])
  }

  /** re.search: the leftmost position with a match, and that match. */
  function Search(p: Pattern, s: string): (r: Option<(nat, seq<string>)>)
    ensures r.Some? ==> |r.value.1| == |p|
  {
    match First(p, s)
    case Some(pieces) => Some((0, pieces))
    case None =>
      if s == "" then None
      else match Search(p, s[1..])
        case Some((i, pieces)) => Some((i + 1, pieces))
        case None => None
  }

  // ----- what a match is, without any order -----

  predicate AllIn(s: string, cls: CharClass) {
    forall i | 0 <= i < |s| :: In(s[i], cls)
  }

  predicate Accepts(atom: Atom, piece: string) {
    match atom
    case Lit(text) => piece == text
    case OneOf(texts) => piece in texts
    case Many(cls, min, _) => |piece| >= min && AllIn(piece, cls)
  }

  /** The pieces are consumed one after the other from the start of s, each accepted by its atom. */
  predicate Fits(p: Pattern, s: string, pieces: seq<string>) {
    if p == [] then pieces == []
    else pieces != [] && pieces[0] <= s && Accepts(p[0], pieces[0]) && Fits(p[1..], s[|pieces[0]|..], pieces[1..])
  }

  // ----- lengths -----

  lemma {:induction false} RunIsMaximal(cls: CharClass, s: string, n: nat)
    requires n <= |s|
    ensures n <= Stretch(cls, s) <==> AllIn(s[..n], cls)
  {
    if n > 0 {
      if In(s[0], cls) {
        RunIsMaximal(cls, s[1..], n - 1);
        assert s[1..][..n - 1] == s[..n][1..];
        assert AllIn(s[..n], cls) <==> AllIn(s[..n][1..], cls) by {
          forall i | 0 < i < n ensures s[..n][i] == s[..n][1..][i - 1] {
          }
        }
      } else {
        assert s[..n][0] == s[0];
      }
    }
  }

  lemma {:induction false} AscendingAt(low: nat, high: nat)
    ensures |Ascending(low, high)| == if low > high then 0 else high - low + 1
    ensures forall i | 0 <= i < |Ascending(low, high)| :: Ascending(low, high)[i] == low + i
  {
    if low < high {
      AscendingAt(low, high - 1);
    }
  }

  lemma {:induction false} DescendingAt(low: nat, high: nat)
    ensures |Descending(low, high)| == if low > high then 0 else high - low + 1
    ensures forall i | 0 <= i < |Descending(low, high)| :: Descending(low, high)[i] == high - i
  {
    if low < high {
      DescendingAt(low, high - 1);
    }
  }

  predicate Within(lengths: seq<nat>, n: nat) {
    forall i | 0 <= i < |lengths| :: lengths[i] <= n
  }

  lemma {:induction false} ChoiceLengthsMeaning(texts: seq<string>, s: string)
    ensures Within(ChoiceLengths(texts, s), |s|)
    ensures forall n | 0 <= n <= |s| :: n in ChoiceLengths(texts, s) <==> s[..n] in texts
  {
    if texts != [] {
      ChoiceLengthsMeaning(texts[1..], s);
      var rest := ChoiceLengths(texts[1..], s);
      forall n | 0 <= n <= |s| ensures n in ChoiceLengths(texts, s) <==> s[..n] in texts {
        assert s[..n] in texts <==> s[..n] == texts[0] || s[..n] in texts[1..];
        assert s[..n] == texts[0] <==> texts[0] <= s && n == |texts[0]|;
      }
    }
  }

  /** An atom can consume exactly the lengths listed for it. */
  lemma LengthsMeaning(atom: Atom, s: string, n: nat)
    requires n <= |s|
    ensures n in Lengths(atom, s) <==> Accepts(atom, s[..n])
  {
    match atom
    case Lit(text) =>
    case OneOf(texts) => ChoiceLengthsMeaning(texts, s);
    case Many(cls, min, lazy) =>
      RunIsMaximal(cls, s, n);
      AscendingAt(min, Stretch(cls, s));
      DescendingAt(min, Stretch(cls, s));
      var k := if lazy then n - min else Stretch(cls, s) - n;
      if min <= n <= Stretch(cls, s) {
        assert Lengths(atom, s)[k] == n;
      }
  }

  lemma LengthsWithin(atom: Atom, s: string)
    ensures Within(Lengths(atom, s), |s|)
  {
    match atom
    case Lit(text) =>
    case OneOf(texts) => ChoiceLengthsMeaning(texts, s);
    case Many(cls, min, lazy) =>
      AscendingAt(min, Stretch(cls, s));
      DescendingAt(min, Stretch(cls, s));
  }

  // ----- the matcher is sound, complete, and keeps the preferences -----

  /** Some piece comes earlier in its atom's order of preference, after equal pieces. */
  ghost predicate Better(p: Pattern, s: string, a: seq<string>, b: seq<string>)
    requires Fits(p, s, a) && Fits(p, s, b)
  {
    p != [] &&
    if a[0] == b[0] then Better(p[1..], s[|a[0]|..], a[1..], b[1..])
    else Earlier(Lengths(p[0], s), |a[0]|, |b[0]|)
  }

  ghost predicate Earlier(lengths: seq<nat>, m: nat, n: nat) {
    exists i, j :: 0 <= i < j < |lengths| && lengths[i] == m && lengths[j] == n
  }

  /** Try settles on the i-th length: the rest of the pattern matches after it and after none before it. */
  ghost predicate ChosenAt(p: Pattern, s: string, lengths: seq<nat>, i: nat)
    requires p != [] && i < |lengths| && Within(lengths, |s|)
  {
    var rest := First(p[1..], s[lengths[i]..]);
    && rest.Some?
    && Try(p, s, lengths) == Some([s[..lengths[i]]] + rest.value)
    && forall j | 0 <= j < i :: First(p[1..], s[lengths[j]..]).None?
  }

  lemma {:induction false} TrySome(p: Pattern, s: string, lengths: seq<nat>) returns (i: nat)
    requires p != [] && Within(lengths, |s|) && Try(p, s, lengths).Some?
    ensures i < |lengths| && ChosenAt(p, s, lengths, i)
  {
    if First(p[1..], s[lengths[0]..]).Some? {
      i := 0;
    } else {
      i := TrySome(p, s, lengths[1..]);
      forall j | 0 <= j < i + 1 ensures First(p[1..], s[lengths[j]..]).None? {
        assert j > 0 ==> lengths[j] == lengths[1..][j - 1];
      }
      i := i + 1;
    }
  }

  lemma {:induction false} TryNone(p: Pattern, s: string, lengths: seq<nat>, i: nat)
    requires p != [] && Within(lengths, |s|) && i < |lengths|
    requires First(p[1..], s[lengths[i]..]).Some?
    ensures Try(p, s, lengths).Some?
  {
    if i > 0 {
      TryNone(p, s, lengths[1..], i - 1);
    }
  }

  lemma FirstChoice(p: Pattern, s: string) returns (i: nat, n: nat, rest: seq<string>)
    requires p != [] && First(p, s).Some?
    ensures i < |Lengths(p[0], s)| && Lengths(p[0], s)[i] == n <= |s| && Accepts(p[0], s[..n])
    ensures First(p[1..], s[n..]) == Some(rest)
    ensures First(p, s) == Some([s[..n]] + rest)
    ensures Within(Lengths(p[0], s), |s|)
    ensures forall j | 0 <= j < i :: First(p[1..], s[Lengths(p[0], s)[j]..]).None?
  {
    var lengths := Lengths(p[0], s);
    LengthsWithin(p[0], s);
    i := TrySome(p, s, lengths);
    n := lengths[i];
    LengthsMeaning(p[0], s, n);
    rest := First(p[1..], s[n..]).value;
  }

  /** Soundness: what the matcher returns is a match. */
  lemma {:induction false} FirstFits(p: Pattern, s: string)
    requires First(p, s).Some?
    ensures Fits(p, s, First(p, s).value)
  {
    if p != [] {
      var i, n, rest := FirstChoice(p, s);
      FirstFits(p[1..], s[n..]);
      assert First(p, s).value[1..] == rest;
    }
  }

  /** Completeness: when the pattern can match at all the matcher finds a match. */
  lemma {:induction false} FirstFinds(p: Pattern, s: string, other: seq<string>)
    requires Fits(p, s, other)
    ensures First(p, s).Some?
  {
    if p != [] {
      var n, lengths := |other[0]|, Lengths(p[0], s);
      FirstFinds(p[1..], s[n..], other[1..]);
      assert s[..n] == other[0];
      LengthsMeaning(p[0], s, n);
      LengthsWithin(p[0], s);
      var j :| 0 <= j < |lengths| && lengths[j] == n;
      TryNone(p, s, lengths, j);
    }
  }

  /** Preference: no match is preferred to the one the matcher returns. */
  lemma {:induction false} FirstIsMostPreferred(p: Pattern, s: string, other: seq<string>)
    requires Fits(p, s, other)
    ensures First(p, s).Some? && Fits(p, s, First(p, s).value)
    ensures First(p, s).value == other || Better(p, s, First(p, s).value, other)
  {
    FirstFinds(p, s, other);
    FirstFits(p, s);
    if p != [] {
      var i, n, rest := FirstChoice(p, s);
      var found := First(p, s).value;
      assert found[0] == s[..n] && found[1..] == rest;
      assert other[0] == s[..|other[0]|];
      if n == |other[0]| {
        FirstIsMostPreferred(p[1..], s[n..], other[1..]);
        assert other == [other[0]] + other[1..];
      } else {
        FirstFinds(p[1..], s[|other[0]|..], other[1..]);
        LengthsMeaning(p[0], s, |other[0]|);
        ChosenIsEarlier(Lengths(p[0], s), i, n, |other[0]|, p, s);
      }
    }
  }

  lemma ChosenIsEarlier(lengths: seq<nat>, i: nat, n: nat, m: nat, p: Pattern, s: string)
    requires i < |lengths| && lengths[i] == n && m in lengths && m != n && Within(lengths, |s|) && p != []
    requires forall j | 0 <= j < i :: First(p[1..], s[lengths[j]..]).None?
    requires m <= |s| && First(p[1..], s[m..]).Some?
    ensures Earlier(lengths, n, m)
  {
    var j :| 0 <= j < |lengths| && lengths[j] == m;
    assert i < j;
  }

  // ----- matches as flat lists of pieces -----

  function Concat(pieces: seq<string>): string {
    if pieces == [] then "" else pieces[0] + Concat(pieces[1..])
  }

  predicate AcceptsAll(p: Pattern, pieces: seq<string>) {
    |p| == |pieces| && forall i | 0 <= i < |p| :: Accepts(p[i], pieces[i])
  }

  lemma {:induction false} ConcatSplits(a: seq<string>, b: seq<string>)
    ensures Concat(a + b) == Concat(a) + Concat(b)
  {
    if a == [] {
      assert a + b == b;
    } else {
      ConcatSplits(a[1..], b);
      assert (a + b)[1..] == a[1..] + b;
    }
  }

  lemma {:induction false} FlatFits(p: Pattern, s: string, pieces: seq<string>)
    ensures Fits(p, s, pieces) <==> AcceptsAll(p, pieces) && Concat(pieces) <= s
  {
    if p != [] && pieces != [] {
      FlatFits(p[1..], s[if pieces[0] <= s then |pieces[0]| else 0..], pieces[1..]);
      FlatAccepts(p, pieces);
      PrefixOfConcat(pieces[0], Concat(pieces[1..]), s);
    }
  }

  lemma FlatAccepts(p: Pattern, pieces: seq<string>)
    requires p != [] && pieces != []
    ensures AcceptsAll(p, pieces) <==> Accepts(p[0], pieces[0]) && AcceptsAll(p[1..], pieces[1..])
  {
    if AcceptsAll(p[1..], pieces[1..]) && Accepts(p[0], pieces[0]) {
      forall i | 0 <= i < |p| ensures Accepts(p[i], pieces[i]) {
        assert i > 0 ==> p[i] == p[1..][i - 1] && pieces[i] == pieces[1..][i - 1];
      }
    }
  }

  lemma PrefixOfConcat(a: string, b: string, s: string)
    ensures a + b <= s <==> a <= s && b <= s[if a <= s then |a| else 0..]
  {
    if a <= s {
      assert s == a + s[|a|..];
      if a + b <= s {
        assert s[|a|..][..|b|] == b;
      }
    }
  }

  /** The text one piece of a match was preferred over another: longer if greedy, shorter if lazy. */
  predicate Prefers(atom: Atom, m: nat, n: nat) {
    atom.Many? && if atom.lazy then m < n else m > n
  }

  lemma PrefersIsEarlier(atom: Atom, s: string, m: nat, n: nat)
    requires Prefers(atom, m, n)
    ensures !Earlier(Lengths(atom, s), n, m)
  {
    AscendingAt(atom.min, Stretch(atom.cls, s));
    DescendingAt(atom.min, Stretch(atom.cls, s));
  }

  lemma {:induction false} NotBetter(p: Pattern, s: string, a: seq<string>, b: seq<string>, k: nat)
    requires Fits(p, s, a) && Fits(p, s, b)
    requires k < |p| && |a| == |b| == |p| && a[..k] == b[..k] && Prefers(p[k], |b[k]|, |a[k]|)
    ensures !Better(p, s, a, b)
  {
    if k == 0 {
      PrefersIsEarlier(p[0], s, |b[0]|, |a[0]|);
    } else {
      assert a[0] == a[..k][0] && b[0] == b[..k][0];
      assert a[1..][..k - 1] == a[..k][1..] && b[1..][..k - 1] == b[..k][1..];
      NotBetter(p[1..], s[|a[0]|..], a[1..], b[1..], k - 1);
    }
  }

  /** The matcher never returns pieces that agree with another match up to an atom and do worse there. */
  lemma NothingPreferred(p: Pattern, s: string, other: seq<string>, k: nat)
    requires First(p, s).Some? && AcceptsAll(p, other) && Concat(other) <= s
    requires k < |p| && First(p, s).value[..k] == other[..k]
    ensures !Prefers(p[k], |other[k]|, |First(p, s).value[k]|)
  {
    FlatFits(p, s, other);
    FirstIsMostPreferred(p, s, other);
    if Prefers(p[k], |other[k]|, |First(p, s).value[k]|) {
      NotBetter(p, s, First(p, s).value, other, k);
    }
  }

  /** What is true of the pieces of any match found. */
  lemma FirstAccepts(p: Pattern, s: string)
    requires First(p, s).Some?
    ensures AcceptsAll(p, First(p, s).value) && Concat(First(p, s).value) <= s
  {
    FirstFits(p, s);
    FlatFits(p, s, First(p, s).value);
  }

  // ----- steps of a match -----

  lemma LitStep(text: string, p: Pattern, rest: string, found: seq<string>)
    requires First(p, rest) == Some(found)
    ensures First([Lit(text)] + p, text + rest) == Some([text] + found)
  {
    var s, full := text + rest, [Lit(text)] + p;
    assert s[..|text|] == text && s[|text|..] == rest && full[1..] == p;
    assert Try(full, s, [|text|]) == Some([text] + found);
  }

  lemma {:induction false} RunOf(cls: CharClass, piece: string, rest: string)
    requires AllIn(piece, cls) && (rest == "" || !In(rest[0], cls))
    ensures Stretch(cls, piece + rest) == |piece|
  {
    if piece == "" {
      assert piece + rest == rest;
    } else {
      RunOf(cls, piece[1..], rest);
      assert (piece + rest)[1..] == piece[1..] + rest;
    }
  }

  /** A greedy repetition takes the whole run when the rest of the pattern matches after it. */
  lemma GreedyStep(cls: CharClass, min: nat, p: Pattern, piece: string, rest: string, found: seq<string>)
    requires AllIn(piece, cls) && |piece| >= min && (rest == "" || !In(rest[0], cls))
    requires First(p, rest) == Some(found)
    ensures First([Many(cls, min, false)] + p, piece + rest) == Some([piece] + found)
  {
    var s, full := piece + rest, [Many(cls, min, false)] + p;
    RunOf(cls, piece, rest);
    assert s[..|piece|] == piece && s[|piece|..] == rest && full[1..] == p;
    assert Descending(min, |piece|)[0] == |piece|;
  }

  /** A literal, or a greedy repetition that stops because the next piece starts outside its class. */
  predicate Forced(atom: Atom, piece: string, next: string) {
    match atom
    case Lit(text) => piece == text
    case OneOf(_) => false
    case Many(cls, min, lazy) => !lazy && |piece| >= min && AllIn(piece, cls) && next != "" && !In(next[0], cls)
  }

  predicate ForcedAt(pre: Pattern, pieces: seq<string>, rest: string, i: nat)
    requires |pre| == |pieces| && i < |pre|
  {
    pieces[i] != "" && Forced(pre[i], pieces[i], if i + 1 < |pre| then pieces[i + 1] else rest)
  }

  /** A row of forced pieces in front of a text that the rest of the pattern matches. */
  lemma {:induction false} ForcedChain(pre: Pattern, pieces: seq<string>, p: Pattern, rest: string, found: seq<string>)
    requires |pre| == |pieces| && rest != "" && forall i | 0 <= i < |pre| :: ForcedAt(pre, pieces, rest, i)
    requires First(p, rest) == Some(found)
    ensures First(pre + p, Concat(pieces) + rest) == Some(pieces + found)
  {
    hide First, AllIn, In;
    if pre == [] {
      assert pre + p == p && Concat(pieces) + rest == rest && pieces + found == found;
    } else {
      var after := Concat(pieces[1..]) + rest;
      assert ForcedAt(pre, pieces, rest, 0) && (|pre| > 1 ==> ForcedAt(pre, pieces, rest, 1));
      forall i | 0 <= i < |pre[1..]| ensures ForcedAt(pre[1..], pieces[1..], rest, i) {
        assert ForcedAt(pre, pieces, rest, i + 1);
      }
      ForcedChain(pre[1..], pieces[1..], p, rest, found);
      FirstOfAfter(pieces, rest);
      assert pre + p == [pre[0]] + (pre[1..] + p);
      assert Concat(pieces) + rest == pieces[0] + after;
      assert pieces + found == [pieces[0]] + (pieces[1..] + found);
      ForcedStep(pre[0], pre[1..] + p, pieces[0], after, pieces[1..] + found);
    }
  }

  lemma FirstOfAfter(pieces: seq<string>, rest: string)
    requires pieces != [] && rest != "" && (|pieces| > 1 ==> pieces[1] != "")
    ensures var after := Concat(pieces[1..]) + rest;
      after != "" && after[0] == (if |pieces| > 1 then pieces[1] else rest)[0]
  {
  }

  lemma ForcedStep(atom: Atom, p: Pattern, piece: string, rest: string, found: seq<string>)
    requires Forced(atom, piece, rest) && First(p, rest) == Some(found)
    ensures First([atom] + p, piece + rest) == Some([piece] + found)
  {
    match atom
    case Lit(text) => LitStep(text, p, rest, found);
    case Many(cls, min, lazy) => GreedyStep(cls, min, p, piece, rest, found);
  }

  /** A greedy repetition gives back one character when the rest of the pattern cannot match after the whole run. */
  lemma GreedyBackStep(cls: CharClass, min: nat, p: Pattern, piece: string, c: char, rest: string, found: seq<string>)
    requires AllIn(piece, cls) && In(c, cls) && |piece| >= min && (rest == "" || !In(rest[0], cls))
    requires First(p, rest).None?
    requires First(p, [c] + rest) == Some(found)
    ensures First([Many(cls, min, false)] + p, piece + [c] + rest) == Some([piece] + found)
  {
    var s, full, n := piece + [c] + rest, [Many(cls, min, false)] + p, |piece|;
    RunOf(cls, piece + [c], rest);
    assert full[1..] == p;
    var lengths := Descending(min, n + 1);
    assert lengths[0] == n + 1 && lengths[1..] == Descending(min, n);
    assert s[n + 1..] == rest && s[..n] == piece && s[n..] == [c] + rest;
    TrySkip(full, s, lengths);
    assert lengths[1..][0] == n;
    TryTake(full, s, lengths[1..]);
  }

  lemma TrySkip(p: Pattern, s: string, lengths: seq<nat>)
    requires p != [] && lengths != [] && lengths[0] <= |s| && First(p[1..], s[lengths[0]..]).None?
    ensures Try(p, s, lengths) == Try(p, s, lengths[1..])
  {
  }

  lemma TryTake(p: Pattern, s: string, lengths: seq<nat>)
    requires p != [] && lengths != [] && lengths[0] <= |s| && First(p[1..], s[lengths[0]..]).Some?
    ensures Try(p, s, lengths) == Some([s[..lengths[0]]] + First(p[1..], s[lengths[0]..]).value)
  {
  }

  /** A lazy repetition stops at the first length after which the rest of the pattern matches. */
  lemma LazyStep(cls: CharClass, min: nat, p: Pattern, piece: string, rest: string, found: seq<string>)
    requires AllIn(piece, cls) && |piece| >= min
    requires First(p, rest) == Some(found)
    requires forall n | min <= n < |piece| :: First(p, piece[n..] + rest).None?
    ensures First([Many(cls, min, true)] + p, piece + rest) == Some([piece] + found)
  {
    var s, full := piece + rest, [Many(cls, min, true)] + p;
    var high := Stretch(cls, s);
    assert full[1..] == p;
    assert s[..|piece|] == piece && s[|piece|..] == rest;
    RunIsMaximal(cls, s, |piece|);
    AscendingAt(min, high);
    LazyTry(full, s, min, high, min, piece, rest);
    assert Ascending(min, high)[0..] == Ascending(min, high);
  }

  lemma {:induction false} LazyTry(full: Pattern, s: string, min: nat, high: nat, from: nat,
                                   piece: string, rest: string)
    requires full != [] && min <= from <= |piece| <= high <= |s| && s == piece + rest
    requires First(full[1..], rest).Some?
    requires forall n | min <= n < |piece| :: First(full[1..], piece[n..] + rest).None?
    requires |Ascending(min, high)| == high - min + 1
    requires forall i | 0 <= i < |Ascending(min, high)| :: Ascending(min, high)[i] == min + i
    ensures Try(full, s, Ascending(min, high)[from - min..]) == Some([piece] + First(full[1..], rest).value)
    decreases |piece| - from
  {
    var lengths := Ascending(min, high)[from - min..];
    assert lengths[0] == from;
    if from < |piece| {
      assert s[from..] == piece[from..] + rest;
      assert lengths[1..] == Ascending(min, high)[from + 1 - min..];
      LazyTry(full, s, min, high, from + 1, piece, rest);
      TrySkip(full, s, lengths);
    } else {
      assert s[..from] == piece && s[from..] == rest;
      TryTake(full, s, lengths);
    }
  }

  /** re.search skips every position where the pattern does not match. */
  lemma {:induction false} SearchSkips(p: Pattern, s: string, n: nat)
    requires n <= |s|
    requires forall i | 0 <= i < n :: First(p, s[i..]).None?
    requires First(p, s[n..]).Some?
    ensures Search(p, s) == Some((n, First(p, s[n..]).value))
  {
    if n > 0 {
      assert s[0..] == s;
      assert s[1..][n - 1..] == s[n..];
      forall i | 0 <= i < n - 1 ensures First(p, s[1..][i..]).None? {
        assert s[1..][i..] == s[i + 1..];
      }
      SearchSkips(p, s[1..], n - 1);
    } else {
      assert s[0..] == s;
    }
  }

  /** The position found is the leftmost with a match, and the match is the preferred one there. */
  lemma {:induction false} SearchMeaning(p: Pattern, s: string)
    ensures Search(p, s).Some? ==>
              var (i, pieces) := Search(p, s).value;
              i <= |s| && First(p, s[i..]) == Some(pieces) && forall j | 0 <= j < i :: First(p, s[j..]).None?
    ensures Search(p, s).None? ==> forall i | 0 <= i <= |s| :: First(p, s[i..]).None?
  {
    assert s[0..] == s;
    if First(p, s).None? && s != "" {
      SearchMeaning(p, s[1..]);
      forall j | 0 < j <= |s| ensures s[j..] == s[1..][j - 1..] {
      }
    }
  }

  lemma {:induction false} SearchFails(p: Pattern, s: string)
    requires forall i | 0 <= i <= |s| :: First(p, s[i..]).None?
    ensures Search(p, s).None?
  {
    assert s[0..] == s;
    if s != "" {
      forall i | 0 <= i <= |s[1..]| ensures First(p, s[1..][i..]).None? {
        assert s[1..][i..] == s[i + 1..];
      }
      SearchFails(p, s[1..]);
    }
  }
}
