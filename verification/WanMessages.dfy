/** categorize_message finds the event and the interface of every message built on one of its templates. */
module WanMessages {
  import opened Common
  import opened Regex
  import opened Syslog

  /** prefix, template number k with the given name and tail, suffix */
  datatype Message = Message(prefix: string, k: nat, name: string, tail: string, suffix: string) {

    ghost predicate WellFormed() {
      && k < |WAN_PATTERNS| && tail in WAN_PATTERNS[k].tails
      && name != "" && '[' !in name && ']' !in name && '\n' !in name
      && ']' !in suffix
      && (forall j, i | 0 <= j < |WAN_PATTERNS| && 0 <= i <= |prefix| :: !(WAN_PATTERNS[j].head <= prefix[i..]))
    }

    function Head(): string
      requires k < |WAN_PATTERNS|
    {
      WAN_PATTERNS[k].head
    }

    function Text(): string
      requires k < |WAN_PATTERNS|
    {
      prefix + Head() + name + tail + suffix
    }

    /** The position of the template's opening bracket. */
    function Open(): int
      requires k < |WAN_PATTERNS|
    {
      |prefix| + |Head()| - 1
    }
  }

  /** Every head ends in its only bracket, and two different heads differ in one of the six characters before it. */
  lemma HeadShape(j: nat)
    requires j < |WAN_PATTERNS|
    ensures BracketOnlyAtEnd(WAN_PATTERNS[j].head)
  {
    BackupHead();
    LinkHead();
    DetectionHead();
  }

  predicate BracketOnlyAtEnd(h: string) {
    |h| >= 8 && h[|h| - 1] == '[' && '[' !in h[..|h| - 1] && ']' !in h
  }

  lemma BackupHead()
    ensures BracketOnlyAtEnd("Backup [")
  {
    Bracketed("Backup ");
  }

  lemma LinkHead()
    ensures BracketOnlyAtEnd("physical connection status of [")
  {
    Bracketed("physical connection status of ");
  }

  lemma DetectionHead()
    ensures BracketOnlyAtEnd("online detection result of [")
  {
    Bracketed("online detection result of ");
  }

  lemma Bracketed(stem: string)
    requires |stem| >= 7 && '[' !in stem && ']' !in stem
    ensures BracketOnlyAtEnd(stem + "[")
  {
    assert (stem + "[")[..|stem|] == stem;
  }

  lemma HeadsDiffer(j: nat, k: nat)
    requires j < |WAN_PATTERNS| && k < |WAN_PATTERNS|
    ensures var g, h := WAN_PATTERNS[j].head, WAN_PATTERNS[k].head;
      g == h || g[|g| - 3] != h[|h| - 3] || g[|g| - 6] != h[|h| - 6]
  {
  }

  /** A closing bracket starts every tail and occurs nowhere else in it; the first two patterns, which share
      a head, have tails of which neither starts the other. */
  lemma TailShape(j: nat, t: string)
    requires j < |WAN_PATTERNS| && t in WAN_PATTERNS[j].tails
    ensures |t| > 5 && t[0] == ']' && ']' !in t[1..] && '[' !in t
    ensures j <= 1 ==> t[2] == "tw"[j]
  {
  }

  /** Where the brackets of a message are. */
  lemma Brackets(m: Message)
    requires m.WellFormed()
    ensures var s, z := m.Text(), m.Open();
      && s[z] == '[' && (forall x | |m.prefix| <= x < z :: s[x] != '[')
      && (forall x | z < x < z + 1 + |m.name| + |m.tail| :: s[x] != '[')
      && (forall x | z < x < |s| && s[x] == ']' :: x == z + 1 + |m.name|)
  {
    var s, z, h := m.Text(), m.Open(), m.Head();
    HeadShape(m.k);
    TailShape(m.k, m.tail);
    BracketsIn(m.prefix, h[..|h| - 1], m.name, m.tail, m.suffix);
    assert h == h[..|h| - 1] + "[";
    assert s == m.prefix + h[..|h| - 1] + "[" + m.name + m.tail + m.suffix;
  }

  lemma BracketsIn(prefix: string, stem: string, name: string, tail: string, suffix: string)
    requires '[' !in stem && '[' !in name && ']' !in name && tail != "" && '[' !in tail && ']' !in tail[1..]
    requires ']' !in suffix
    ensures var s, z := prefix + stem + "[" + name + tail + suffix, |prefix + stem|;
      && s[z] == '[' && (forall x | |prefix| <= x < z :: s[x] != '[')
      && (forall x | z < x < z + 1 + |name| + |tail| :: s[x] != '[')
      && (forall x | z < x < |s| && s[x] == ']' :: x == z + 1 + |name|)
  {
    var s, z := prefix + stem + "[" + name + tail + suffix, |prefix + stem|;
    var y := z + 1 + |name|;
    forall x | |prefix| <= x < z ensures s[x] != '[' {
      assert s[x] == stem[x - |prefix|];
    }
    forall x | z < x < y ensures s[x] != '[' && s[x] != ']' {
      assert s[x] == name[x - z - 1];
    }
    forall x | y <= x < y + |tail| ensures s[x] != '[' && (x > y ==> s[x] != ']') {
      assert s[x] == tail[x - y];
      assert x > y ==> s[x] == tail[1..][x - y - 1];
    }
    forall x | y + |tail| <= x < |s| ensures s[x] != ']' {
      assert s[x] == suffix[x - y - |tail|];
    }
  }

  lemma NotInPrefix(m: Message, j: nat, i: nat)
    requires m.WellFormed() && j < |WAN_PATTERNS| && i <= |m.Text()| && WAN_PATTERNS[j].head <= m.Text()[i..]
    ensures i + |WAN_PATTERNS[j].head| > |m.prefix|
  {
    assert m.Text()[..|m.prefix|] == m.prefix;
    OccurrenceInPrefix(m.Text(), |m.prefix|, WAN_PATTERNS[j].head, i);
  }

  lemma OccurrenceInPrefix(s: string, n: nat, g: string, i: nat)
    requires n <= |s| && i <= |s| && g <= s[i..]
    ensures i + |g| <= n ==> g <= s[..n][i..]
  {
    if i + |g| <= n {
      assert s[i..][..|g|] == s[..n][i..][..|g|];
    }
  }

  /** A head occurs in a message at the template, or entirely after its opening bracket. */
  lemma HeadOccurrence(m: Message, j: nat, i: nat)
    requires m.WellFormed() && j < |WAN_PATTERNS| && i <= |m.Text()| && WAN_PATTERNS[j].head <= m.Text()[i..]
    ensures i > m.Open() || (i == |m.prefix| && WAN_PATTERNS[j].head == m.Head())
  {
    var s, z, g, h := m.Text(), m.Open(), WAN_PATTERNS[j].head, m.Head();
    HeadShape(j);
    HeadShape(m.k);
    Brackets(m);
    var end := i + |g| - 1;
    forall x | 0 <= x < |g| ensures s[i + x] == g[x] {
      assert s[i..][x] == g[x];
    }
    if i <= z {
      NotInPrefix(m, j, i);
      if z < end {
        assert false;
      }
      assert s[end] == '[';
      assert end == z;
      assert s[z - 2] == g[|g| - 3] == h[|h| - 3] && s[z - 5] == g[|g| - 6] == h[|h| - 6];
      HeadsDiffer(j, m.k);
    }
  }

  lemma MatchShape(w: WanPattern, s: string)
    requires First(PatternOf(w), s).Some?
    ensures var q := First(PatternOf(w), s).value;
      |q| == 3 && q[0] == w.head && q[1] != "" && q[2] in w.tails && w.head + q[1] + q[2] <= s
  {
    FirstAccepts(PatternOf(w), s);
    var q := First(PatternOf(w), s).value;
    assert Accepts(PatternOf(w)[0], q[0]) && Accepts(PatternOf(w)[1], q[1]) && Accepts(PatternOf(w)[2], q[2]);
    assert q == [q[0], q[1], q[2]];
    ConcatThree(q[0], q[1], q[2]);
  }

  lemma ConcatThree(a: string, b: string, c: string)
    ensures Concat([a, b, c]) == a + b + c
  {
    assert [a, b, c][1..] == [b, c] && [b, c][1..] == [c] && [c][1..] == [];
    assert Concat([c]) == c;
    assert Concat([b, c]) == b + c;
  }

  /** No pattern matches anywhere but at the template, and there it captures the name. */
  lemma MatchesOnlyTemplate(m: Message, j: nat, i: nat)
    requires m.WellFormed() && j < |WAN_PATTERNS| && i <= |m.Text()|
    requires First(PatternOf(WAN_PATTERNS[j]), m.Text()[i..]).Some?
    ensures i == |m.prefix| && WAN_PATTERNS[j].head == m.Head()
    ensures First(PatternOf(WAN_PATTERNS[j]), m.Text()[i..]).value[1] == m.name
    ensures j <= 1 ==> j == m.k
  {
    var s, w := m.Text(), WAN_PATTERNS[j];
    var q := First(PatternOf(w), s[i..]).value;
    MatchShape(w, s[i..]);
    TailShape(j, q[2]);
    PiecesInPlace(s, i, w.head, q[1], q[2]);
    HeadOccurrence(m, j, i);
    PieceIsName(m, j, i, q[1], q[2]);
    if j <= 1 {
      SharedHead(m, j, q[2], i + |w.head| + |q[1]|);
    }
  }

  lemma PiecesInPlace(s: string, i: nat, a: string, b: string, c: string)
    requires i <= |s| && a + b + c <= s[i..]
    ensures a <= s[i..] && i + |a| + |b| + |c| <= |s|
    ensures forall x | 0 <= x < |b| :: s[i + |a| + x] == b[x]
    ensures forall x | 0 <= x < |c| :: s[i + |a| + |b| + x] == c[x]
  {
    var whole := a + b + c;
    assert whole[..|a|] == a;
    forall x | 0 <= x < |whole| ensures s[i + x] == whole[x] {
      assert s[i..][x] == whole[x];
    }
    forall x | 0 <= x < |b| ensures s[i + |a| + x] == b[x] {
      assert whole[|a| + x] == b[x];
    }
    forall x | 0 <= x < |c| ensures s[i + |a| + |b| + x] == c[x] {
      assert whole[|a| + |b| + x] == c[x];
    }
  }

  /** The tail of a match can only be the one closing bracket behind the template's opening one. */
  lemma PieceIsName(m: Message, j: nat, i: nat, name: string, tail: string)
    requires m.WellFormed() && j < |WAN_PATTERNS| && i <= |m.Text()|
    requires var s, h := m.Text(), WAN_PATTERNS[j].head;
      && h <= s[i..] && i + |h| + |name| + |tail| <= |s|
      && (forall x | 0 <= x < |name| :: s[i + |h| + x] == name[x])
      && tail != "" && s[i + |h| + |name|] == ']'
    requires i > m.Open() || (i == |m.prefix| && WAN_PATTERNS[j].head == m.Head())
    ensures i == |m.prefix| && name == m.name
    ensures i + |WAN_PATTERNS[j].head| + |name| == m.Open() + 1 + |m.name|
  {
    var s, z, h := m.Text(), m.Open(), WAN_PATTERNS[j].head;
    HeadShape(j);
    Brackets(m);
    assert s[i..][|h| - 1] == '[';
    assert s[i + |h| - 1] == '[';
    assert i + |h| + |name| == z + 1 + |m.name|;
    assert i <= z;
    assert |name| == |m.name|;
    forall x | 0 <= x < |name| ensures name[x] == m.name[x] {
      assert s[z + 1 + x] == m.name[x];
    }
  }

  /** The two patterns with the same head are told apart by their tails. */
  lemma SharedHead(m: Message, j: nat, t: string, b: int)
    requires m.WellFormed() && j <= 1 && t in WAN_PATTERNS[j].tails
    requires WAN_PATTERNS[j].head == m.Head() && b == m.Open() + 1 + |m.name|
    requires b + 2 < |m.Text()| && |t| > 2 && m.Text()[b + 2] == t[2]
    ensures j == m.k
  {
    TailShape(j, t);
    TailShape(m.k, m.tail);
    HeadsDiffer(j, m.k);
    assert m.Text()[b + 2] == m.tail[2];
    assert WAN_PATTERNS[2].head[0] == 'p' && WAN_PATTERNS[3].head[0] == 'o' && WAN_PATTERNS[j].head[0] == 'B';
  }

  lemma TemplateMatches(m: Message)
    requires m.WellFormed()
    ensures First(PatternOf(WAN_PATTERNS[m.k]), m.Text()[|m.prefix|..]).Some?
  {
    var p, s := PatternOf(WAN_PATTERNS[m.k]), m.Text()[|m.prefix|..];
    var q := [m.Head(), m.name, m.tail];
    ConcatThree(m.Head(), m.name, m.tail);
    assert s == Concat(q) + m.suffix;
    assert AllIn(m.name, Dot);
    assert AcceptsAll(p, q);
    FlatFits(p, s, q);
    FirstFinds(p, s, q);
  }

  /** The search for the template's own pattern. */
  lemma OwnPattern(m: Message)
    requires m.WellFormed()
    ensures var r := Search(PatternOf(WAN_PATTERNS[m.k]), m.Text());
      r.Some? && r.value.0 == |m.prefix| && r.value.1[1] == m.name
  {
    var p, s := PatternOf(WAN_PATTERNS[m.k]), m.Text();
    TemplateMatches(m);
    forall i | 0 <= i < |m.prefix| ensures First(p, s[i..]).None? {
      if First(p, s[i..]).Some? {
        MatchesOnlyTemplate(m, m.k, i);
        assert false;
      }
    }
    MatchesOnlyTemplate(m, m.k, |m.prefix|);
    SearchSkips(p, s, |m.prefix|);
  }

  /** The patterns tried before it find nothing. */
  lemma EarlierPattern(m: Message, j: nat)
    requires m.WellFormed() && j < m.k
    ensures Search(PatternOf(WAN_PATTERNS[j]), m.Text()).None?
  {
    var p, s := PatternOf(WAN_PATTERNS[j]), m.Text();
    forall i | 0 <= i <= |s| ensures First(p, s[i..]).None? {
      if First(p, s[i..]).Some? {
        MatchesOnlyTemplate(m, j, i);
        assert false;
      }
    }
    SearchFails(p, s);
  }

  lemma {:induction false} SkipEarlier(m: Message, j: nat)
    requires m.WellFormed() && j <= m.k
    ensures Categorize(m.Text()) == CategorizeBy(WAN_PATTERNS[j..], m.Text())
  {
    if j == 0 {
      assert WAN_PATTERNS[0..] == WAN_PATTERNS;
    } else {
      SkipEarlier(m, j - 1);
      EarlierPattern(m, j - 1);
      assert WAN_PATTERNS[j - 1..][0] == WAN_PATTERNS[j - 1] && WAN_PATTERNS[j - 1..][1..] == WAN_PATTERNS[j..];
    }
  }

  /** A message built on template k is categorized as exactly event k and names exactly that interface,
      whatever surrounds the template. */
  lemma TemplateIsRecognized(m: Message)
    requires m.WellFormed()
    ensures Categorize(m.Text()) == Wan(WAN_PATTERNS[m.k].event, m.name)
  {
    SkipEarlier(m, m.k);
    OwnPattern(m);
    assert WAN_PATTERNS[m.k..][0] == WAN_PATTERNS[m.k];
  }
}
