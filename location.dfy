/**
 * City and region before a `/` (app/cv/info_extractor.py, `extract_location`).
 *
 * A line yields a location when, stripped, it holds a `/` that is not its
 * first character and the stripped text before that `/` matches
 * `([A-ZÇĞİÖŞÜ]{2,})[,\s]+([A-ZÇĞİÖŞÜ]{2,})`.  The lines around the first
 * line with an `@` or a digit are tried first, then every line.  The second,
 * multi-word pattern of the source only matches where the first one does, so
 * the model proves it never changes the outcome instead of running it.
 */
module Location {
  import opened Wrappers
  import opened Text
  import opened Patterns

  /** `([A-ZÇĞİÖŞÜ]{2,})[,\s]+([A-ZÇĞİÖŞÜ]{2,})` */
  const CityRegionRe: Re := Cat(CapitalRun, RegionTail)
  const CapitalRun: Re := Run(Capital, 2, None)
  const RegionTail: Re := Cat(Run(CommaOrSpace, 1, None), CapitalRun)

  /** Where the greedy match at `i` ends: each of the three runs taken as long as it goes. */
  function CityRegionEnd(s: string, i: nat): Option<nat>
    requires i <= |s|
  {
    var e1 := i + RunLen(s, i, Capital, None);
    if e1 - i < 2 then None
    else
      var e2 := e1 + RunLen(s, e1, CommaOrSpace, None);
      if e2 == e1 then None
      else
        var e3 := e2 + RunLen(s, e2, Capital, None);
        if e3 - e2 < 2 then None else Some(e3)
  }

  lemma CapitalIsUpper(c: char)
    ensures InClass(Capital, c) == IsUpperLetter(c)
  {
  }

  lemma CapitalIsNotSeparator(c: char)
    ensures IsUpperLetter(c) ==> !InClass(CommaOrSpace, c) && !IsSpace(c)
  {
  }

  /** The pattern matches at `i` exactly when the three runs there are long enough, and ends where they end. */
  lemma CityRegionEnds(s: string, i: nat)
    requires i <= |s|
    ensures Ends(CityRegionRe, s, i) != [] <==> CityRegionEnd(s, i).Some?
    ensures CityRegionEnd(s, i).Some? ==> Ends(CityRegionRe, s, i)[0] == CityRegionEnd(s, i).value
  {
    if CityRegionEnd(s, i).Some? {
      MatchFromRuns(s, i);
    } else if Ends(CityRegionRe, s, i) != [] {
      RunsFromMatch(s, i);
    }
  }

  lemma MatchFromRuns(s: string, i: nat)
    requires i <= |s| && CityRegionEnd(s, i).Some?
    ensures Ends(CityRegionRe, s, i) != [] && Ends(CityRegionRe, s, i)[0] == CityRegionEnd(s, i).value
  {
    var e1 := i + RunLen(s, i, Capital, None);
    var e2 := e1 + RunLen(s, e1, CommaOrSpace, None);
    RunFirst(Capital, 2, s, i);
    RunFirst(CommaOrSpace, 1, s, e1);
    RunFirst(Capital, 2, s, e2);
    CatThreeFirst(CapitalRun, Run(CommaOrSpace, 1, None), CapitalRun, s, i, e1, e2);
  }

  lemma RunsFromMatch(s: string, i: nat)
    requires i <= |s| && Ends(CityRegionRe, s, i) != []
    ensures CityRegionEnd(s, i).Some?
  {
    var e := Ends(CityRegionRe, s, i)[0];
    EndsExact(CityRegionRe, s, i, e);
    var m1 := CatSplit(CapitalRun, RegionTail, s, i, e);
    var m2 := CatSplit(Run(CommaOrSpace, 1, None), CapitalRun, s, m1, e);
    RunFacts(Capital, 2, None, s, i, m1);
    RunFacts(CommaOrSpace, 1, None, s, m1, m2);
    RunFacts(Capital, 2, None, s, m2, e);
    assert InClass(Capital, s[m2]) && InClass(Capital, s[m2 + 1]);
    SimpleFromRuns(s, i, m1, m2);
  }

  /** `re.search` in terms of the runs: where the first match starts and ends, or that there is none. */
  lemma SearchByRuns(s: string)
    ensures Search(CityRegionRe, s).Some? ==>
      var m := Search(CityRegionRe, s).value;
      m.start <= m.end <= |s| && CityRegionEnd(s, m.start) == Some(m.end) && NoMatchBefore(s, m.start)
    ensures Search(CityRegionRe, s).None? ==> forall p :: 0 <= p <= |s| ==> CityRegionEnd(s, p).None?
  {
    if Search(CityRegionRe, s).Some? {
      var m := Search(CityRegionRe, s).value;
      CityRegionEnds(s, m.start);
      forall p | 0 <= p < m.start ensures CityRegionEnd(s, p).None? {
        CityRegionEnds(s, p);
      }
    } else {
      forall p | 0 <= p <= |s| ensures CityRegionEnd(s, p).None? {
        CityRegionEnds(s, p);
      }
    }
  }

  /** Group 1 is the greedy run the match starts with, group 2 the run that ends it. */
  function Groups(s: string, m: Span): (string, string)
    requires m.start <= m.end <= |s|
  {
    var cityEnd := m.start + RunLen(s, m.start, Capital, None);
    var regionStart := m.end - TrailingRun(Capital, s, m.start, m.end);
    (s[m.start..cityEnd], s[regionStart..m.end])
  }

  /** What one line yields: the stripped groups of the pattern in the stripped text before its first `/`. */
  function LineCityRegion(raw: string): Option<(string, string)> {
    var line := Strip(raw);
    if '/' in line && IndexOf(line, '/') > 0 then
      var before := Strip(line[..IndexOf(line, '/')]);
      var m := Search(CityRegionRe, before);
      if m.None? then None
      else
        var g := Groups(before, m.value);
        Some((Strip(g.0), Strip(g.1)))
    else None
  }

  /**
   * `city` starts at `a` and `region` at `c` in `before`: each is a maximal
   * run of at least two of `A-ZÇĞİÖŞÜ`, only commas and whitespace lie
   * between them, and no earlier position starts a match.
   */
  predicate CityRegionAt(before: string, a: nat, c: nat, city: string, region: string) {
    var b := a + |city|;
    var d := c + |region|;
    a + 2 <= b < c && c + 2 <= d <= |before|
    && AllIn(Capital, before, a, b) && AllIn(CommaOrSpace, before, b, c) && AllIn(Capital, before, c, d)
    && (a == 0 || !IsUpperLetter(before[a - 1])) && (d == |before| || !IsUpperLetter(before[d]))
    && city == before[a..b] && region == before[c..d]
    && NoMatchBefore(before, a)
  }

  /** No position before `a` starts a match. */
  predicate NoMatchBefore(s: string, a: nat)
    requires a <= |s|
  {
    forall p :: 0 <= p < a ==> CityRegionEnd(s, p).None?
  }

  /** The shape of what a line yields, with the positions of its two groups. */
  predicate LineShape(raw: string, a: nat, c: nat, city: string, region: string) {
    var line := Strip(raw);
    '/' in line && 0 < IndexOf(line, '/') < |line| && CityRegionAt(Strip(line[..IndexOf(line, '/')]), a, c, city, region)
  }

  /** A run of capitals is its own strip. */
  lemma CapitalsStrip(s: string, a: nat, b: nat)
    requires a <= b <= |s| && AllIn(Capital, s, a, b)
    ensures Strip(s[a..b]) == s[a..b]
  {
    var w := s[a..b];
    if w != [] {
      CapitalIsNotSeparator(w[0]);
      CapitalIsNotSeparator(w[|w| - 1]);
      assert LStrip(w) == w;
    }
  }

  /** A run that a capital precedes is not where the leftmost match starts. */
  lemma ExtendsLeft(s: string, a: nat)
    requires 0 < a <= |s| && IsUpperLetter(s[a - 1]) && CityRegionEnd(s, a).Some?
    ensures CityRegionEnd(s, a - 1).Some?
  {
    assert RunLen(s, a - 1, Capital, None) == 1 + RunLen(s, a, Capital, None);
  }

  lemma MatchShape(before: string) returns (a: nat, c: nat)
    requires Search(CityRegionRe, before).Some?
    ensures var g := Groups(before, Search(CityRegionRe, before).value);
      CityRegionAt(before, a, c, Strip(g.0), Strip(g.1))
  {
    var m := Search(CityRegionRe, before).value;
    SearchByRuns(before);
    a := m.start;
    c := GroupsShape(before, m.start, m.end);
  }

  lemma GroupsShape(before: string, a: nat, d: nat) returns (c: nat)
    requires a <= d <= |before| && CityRegionEnd(before, a) == Some(d) && NoMatchBefore(before, a)
    ensures var g := Groups(before, Span(a, d));
      CityRegionAt(before, a, c, Strip(g.0), Strip(g.1))
  {
    var b := a + RunLen(before, a, Capital, None);
    c := b + RunLen(before, b, CommaOrSpace, None);
    RunsOfMatch(before, a, b, c, d);
    NoCapitalBefore(before, a);
    GroupsOfRuns(before, a, b, c, d);
    CityRegionAtOf(before, a, b, c, d);
    CapitalsStrip(before, a, b);
    CapitalsStrip(before, c, d);
  }

  lemma CityRegionAtOf(before: string, a: nat, b: nat, c: nat, d: nat)
    requires a + 2 <= b < c && c + 2 <= d <= |before|
    requires AllIn(Capital, before, a, b) && AllIn(CommaOrSpace, before, b, c) && AllIn(Capital, before, c, d)
    requires (a == 0 || !IsUpperLetter(before[a - 1])) && (d == |before| || !IsUpperLetter(before[d]))
    requires NoMatchBefore(before, a)
    ensures CityRegionAt(before, a, c, before[a..b], before[c..d])
  {
  }

  /** The three runs of the greedy match at `a`. */
  lemma RunsOfMatch(before: string, a: nat, b: nat, c: nat, d: nat)
    requires a <= d <= |before| && CityRegionEnd(before, a) == Some(d)
    requires b == a + RunLen(before, a, Capital, None) && c == b + RunLen(before, b, CommaOrSpace, None)
    ensures a + 2 <= b < c && c + 2 <= d
    ensures AllIn(Capital, before, a, b) && AllIn(CommaOrSpace, before, b, c) && AllIn(Capital, before, c, d)
    ensures d == |before| || !IsUpperLetter(before[d])
  {
    assert d == c + RunLen(before, c, Capital, None);
    RunEndNotCapital(before, c, d);
  }

  /** A run of capitals ends at the end of the string or before a character that is not upper-case. */
  lemma RunEndNotCapital(s: string, c: nat, d: nat)
    requires c <= |s| && d == c + RunLen(s, c, Capital, None)
    ensures d == |s| || !IsUpperLetter(s[d])
  {
    if d < |s| {
      CapitalIsUpper(s[d]);
    }
  }

  /** A match with no match before it is not preceded by a capital. */
  lemma NoCapitalBefore(s: string, a: nat)
    requires a <= |s| && CityRegionEnd(s, a).Some? && NoMatchBefore(s, a)
    ensures a == 0 || !IsUpperLetter(s[a - 1])
  {
    if a > 0 && IsUpperLetter(s[a - 1]) {
      ExtendsLeft(s, a);
      assert false;
    }
  }

  lemma GroupsOfRuns(before: string, a: nat, b: nat, c: nat, d: nat)
    requires a + 2 <= b < c && c + 2 <= d <= |before|
    requires b == a + RunLen(before, a, Capital, None)
    requires AllIn(CommaOrSpace, before, b, c) && AllIn(Capital, before, c, d)
    ensures Groups(before, Span(a, d)) == (before[a..b], before[c..d])
  {
    assert InClass(CommaOrSpace, before[c - 1]);
    CapitalIsNotSeparator(before[c - 1]);
    TrailingRunAfter(Capital, before, a, c - 1, d);
  }


  /** A line yields only the stripped groups of a match before a `/` that is not its first character. */
  lemma LineCityRegionShape(raw: string) returns (a: nat, c: nat)
    ensures LineCityRegion(raw).Some? ==> LineShape(raw, a, c, LineCityRegion(raw).value.0, LineCityRegion(raw).value.1)
    ensures LineCityRegion(raw).Some? ==> |LineCityRegion(raw).value.0| >= 2 && |LineCityRegion(raw).value.1| >= 2
  {
    a, c := 0, 0;
    var line := Strip(raw);
    if '/' in line && IndexOf(line, '/') > 0 {
      var before := Strip(line[..IndexOf(line, '/')]);
      if Search(CityRegionRe, before).Some? {
        a, c := MatchShape(before);
      }
    }
  }

  // ---------------------------------------------------------------------------
  // The multi-word pattern
  // ---------------------------------------------------------------------------

  /** `[A-ZÇĞİÖŞÜ]{2,}(?:\s+[A-ZÇĞİÖŞÜ]{2,})*` spans `s[i:j]`. */
  predicate CapitalWordsAt(s: string, i: nat, j: nat)
    requires i <= j <= |s|
    decreases j - i
  {
    (i + 2 <= j && AllIn(Capital, s, i, j))
    || exists m, p ::
      i + 2 <= m < p < j && AllIn(Capital, s, i, m) && AllSpace(s, m, p) && CapitalWordsAt(s, p, j)
  }

  predicate AllSpace(s: string, i: nat, j: nat)
    requires i <= j <= |s|
  {
    forall q :: i <= q < j ==> IsSpace(s[q])
  }

  /** `s[i:j]` matches the multi-word pattern of lines 297 and 318. */
  predicate MultiWordAt(s: string, i: nat, j: nat)
    requires i <= j <= |s|
  {
    exists a, b :: i < a < b <= j && CapitalWordsAt(s, i, a) && AllIn(CommaOrSpace, s, a, b) && CapitalWordsAt(s, b, j)
  }

  lemma CapitalWordsStart(s: string, i: nat, j: nat)
    requires i <= j <= |s| && CapitalWordsAt(s, i, j)
    ensures i + 2 <= j && IsUpperLetter(s[i]) && IsUpperLetter(s[i + 1])
  {
    if !(i + 2 <= j && AllIn(Capital, s, i, j)) {
      var m, p :| i + 2 <= m < p < j && AllIn(Capital, s, i, m) && AllSpace(s, m, p) && CapitalWordsAt(s, p, j);
      assert InClass(Capital, s[i]) && InClass(Capital, s[i + 1]);
    }
  }

  /** The simple pattern's runs at `i`: a capital run ending at `m`, separators to `p`, two capitals at `p`. */
  lemma SimpleFromRuns(s: string, i: nat, m: nat, p: nat)
    requires i + 2 <= m < p && p + 2 <= |s|
    requires AllIn(Capital, s, i, m) && AllIn(CommaOrSpace, s, m, p)
    requires IsUpperLetter(s[p]) && IsUpperLetter(s[p + 1])
    ensures CityRegionEnd(s, i).Some?
  {
    assert InClass(CommaOrSpace, s[m]);
    CapitalIsNotSeparator(s[m]);
    CapitalIsNotSeparator(s[p]);
    RunLenExact(s, i, Capital, m);
    RunLenExact(s, m, CommaOrSpace, p);
    RunLenMaximal(s, p, Capital, None, p + 2);
  }


  /** Wherever the multi-word pattern matches, the simple pattern matches at the same start. */
  lemma MultiWordNeedsSimple(s: string, i: nat, j: nat)
    requires i <= j <= |s| && MultiWordAt(s, i, j)
    ensures CityRegionEnd(s, i).Some?
  {
    var a, b :| i < a < b <= j && CapitalWordsAt(s, i, a) && AllIn(CommaOrSpace, s, a, b) && CapitalWordsAt(s, b, j);
    CapitalWordsStart(s, b, j);
    if i + 2 <= a && AllIn(Capital, s, i, a) {
      SimpleFromRuns(s, i, a, b);
    } else {
      var m, p :| i + 2 <= m < p < a && AllIn(Capital, s, i, m) && AllSpace(s, m, p) && CapitalWordsAt(s, p, a);
      CapitalWordsStart(s, p, a);
      SimpleFromRuns(s, i, m, p);
    }
  }

  /** When the simple search fails, the multi-word search fails too: the fallback of lines 296-298 and 317-319 is dead. */
  lemma MultiWordFallbackIsDead(s: string)
    requires Search(CityRegionRe, s).None?
    ensures forall i, j :: 0 <= i <= j <= |s| ==> !MultiWordAt(s, i, j)
  {
    SearchByRuns(s);
    forall i, j | 0 <= i <= j <= |s| && MultiWordAt(s, i, j) ensures false {
      MultiWordNeedsSimple(s, i, j);
    }
  }

  // ---------------------------------------------------------------------------
  // extract_location
  // ---------------------------------------------------------------------------

  predicate HasDigit(line: string) {
    exists k :: 0 <= k < |line| && IsDigit(line[k])
  }

  /** The contact line test of line 269: an `@`, or a match of `\+?\d` (some digit). */
  predicate IsContactLine(line: string) {
    '@' in line || HasDigit(line)
  }

  /** The index of the first contact line from `i` on. */
  function ContactFrom(lines: seq<string>, i: nat): (c: Option<nat>)
    requires i <= |lines|
    ensures c.Some? ==>
      i <= c.value < |lines| && IsContactLine(lines[c.value]) && forall k :: i <= k < c.value ==> !IsContactLine(lines[k])
    ensures c.None? ==> forall k :: i <= k < |lines| ==> !IsContactLine(lines[k])
    decreases |lines| - i
  {
    if i == |lines| then None
    else if IsContactLine(lines[i]) then Some(i)
    else ContactFrom(lines, i + 1)
  }

  /** The lines `max(0, c - 1)` to `min(len(lines), c + 3)`, exclusive. */
  function Window(lines: seq<string>, c: nat): seq<string>
    requires c < |lines|
  {
    var lo := if c == 0 then 0 else c - 1;
    var hi := if c + 3 < |lines| then c + 3 else |lines|;
    lines[lo..hi]
  }

  /** The lines of the window are tried first, then all lines. */
  function Pick<R>(lines: seq<string>, f: string -> Option<R>): Option<R> {
    var contact := ContactFrom(lines, 0);
    var near := if contact.Some? then FirstSome(Window(lines, contact.value), f) else None;
    if near.Some? then near else FirstSome(lines, f)
  }

  /** What `extract_location` returns. */
  function LocationOf(text: string): Option<string> {
    var pick := Pick(SplitOn(text, '\n'), LineCityRegion);
    if pick.Some? then Some(pick.value.0 + ", " + pick.value.1) else None
  }

  /** Line `k` lies in the window around the first contact line. */
  predicate InWindow(lines: seq<string>, k: nat) {
    var contact := ContactFrom(lines, 0);
    contact.Some? && (if contact.value == 0 then 0 else contact.value - 1) <= k < contact.value + 3 && k < |lines|
  }

  lemma WindowAt(lines: seq<string>, c: nat, t: nat)
    requires c < |lines| && t < |Window(lines, c)|
    ensures Window(lines, c)[t] == lines[(if c == 0 then 0 else c - 1) + t]
  {
  }

  /**
   * `Pick` gives what some line gives, a line of the window when any line of
   * the window gives something, and nothing exactly when no line does.
   */
  lemma PickFirst<R>(lines: seq<string>, f: string -> Option<R>) returns (k: nat)
    ensures Pick(lines, f).Some? ==>
      k < |lines| && Pick(lines, f) == f(lines[k])
      && ((exists j :: 0 <= j < |lines| && InWindow(lines, j) && f(lines[j]).Some?) ==> InWindow(lines, k))
    ensures Pick(lines, f).None? <==> forall j :: 0 <= j < |lines| ==> f(lines[j]).None?
  {
    k := 0;
    var contact := ContactFrom(lines, 0);
    FirstSomeFirst(lines, f);
    if contact.Some? && FirstSome(Window(lines, contact.value), f).Some? {
      k := NearPick(lines, f, contact.value);
    } else {
      if contact.Some? {
        NearNone(lines, f, contact.value);
      }
      if FirstSome(lines, f).Some? {
        k :| 0 <= k < |lines| && FirstSome(lines, f) == f(lines[k]) && forall p :: 0 <= p < k ==> f(lines[p]).None?;
      }
    }
  }

  /** A window that gives something gives it from one of its lines. */
  lemma NearPick<R>(lines: seq<string>, f: string -> Option<R>, c: nat) returns (k: nat)
    requires c < |lines| && FirstSome(Window(lines, c), f).Some?
    ensures (if c == 0 then 0 else c - 1) <= k < c + 3 && k < |lines| && FirstSome(Window(lines, c), f) == f(lines[k])
  {
    var w := Window(lines, c);
    FirstSomeFirst(w, f);
    var t :| 0 <= t < |w| && FirstSome(w, f) == f(w[t]) && forall p :: 0 <= p < t ==> f(w[p]).None?;
    WindowAt(lines, c, t);
    k := (if c == 0 then 0 else c - 1) + t;
  }

  /** A window that gives nothing has no line that gives something. */
  lemma NearNone<R>(lines: seq<string>, f: string -> Option<R>, c: nat)
    requires c < |lines| && FirstSome(Window(lines, c), f).None?
    ensures forall j :: (if c == 0 then 0 else c - 1) <= j < c + 3 && j < |lines| ==> f(lines[j]).None?
  {
    var w := Window(lines, c);
    FirstSomeFirst(w, f);
    var lo := if c == 0 then 0 else c - 1;
    forall j | lo <= j < c + 3 && j < |lines| ensures f(lines[j]).None? {
      WindowAt(lines, c, j - lo);
    }
  }

  /**
   * A location is `city, region` for the groups some line yields, a line of
   * the window when any line of the window yields one; there is none exactly
   * when no line yields one.
   */
  lemma LocationShape(text: string) returns (k: nat, a: nat, c: nat, city: string, region: string)
    ensures var lines := SplitOn(text, '\n');
      LocationOf(text).Some? ==>
        k < |lines| && LineShape(lines[k], a, c, city, region) && LocationOf(text) == Some(city + ", " + region)
        && ((exists j :: 0 <= j < |lines| && InWindow(lines, j) && LineCityRegion(lines[j]).Some?) ==> InWindow(lines, k))
    ensures var lines := SplitOn(text, '\n');
      LocationOf(text).None? <==> forall j :: 0 <= j < |lines| ==> LineCityRegion(lines[j]).None?
  {
    var lines := SplitOn(text, '\n');
    k := PickFirst(lines, LineCityRegion);
    a, c, city, region := 0, 0, "", "";
    if LocationOf(text).Some? {
      a, c := LineCityRegionShape(lines[k]);
      city, region := LineCityRegion(lines[k]).value.0, LineCityRegion(lines[k]).value.1;
    }
  }

  /**
   * Two capital words separated by one space, followed by anything that does
   * not start with a capital, give those two words: `SAN FRANCISCO, CA`
   * gives the city `SAN` and the region `FRANCISCO`, never `CA`.
   */
  lemma FirstTwoWords(w1: string, w2: string, rest: string)
    requires |w1| >= 2 && AllIn(Capital, w1, 0, |w1|) && |w2| >= 2 && AllIn(Capital, w2, 0, |w2|)
    requires rest == [] || !IsUpperLetter(rest[0])
    ensures var s := w1 + " " + w2 + rest;
      Search(CityRegionRe, s) == Some(Span(0, |w1| + 1 + |w2|)) && Groups(s, Span(0, |w1| + 1 + |w2|)) == (w1, w2)
  {
    var s := w1 + " " + w2 + rest;
    var b, d := |w1|, |w1| + 1 + |w2|;
    TwoWordsLayout(w1, w2, rest, s, b, d);
    TwoWordsMatch(s, b, d);
  }

  /** The positional form of the lemma above. */
  lemma TwoWordsMatch(s: string, b: nat, d: nat)
    requires 2 <= b && b + 3 <= d <= |s| && AllIn(Capital, s, 0, b) && s[b] == ' ' && AllIn(Capital, s, b + 1, d)
    requires d == |s| || !IsUpperLetter(s[d])
    ensures Search(CityRegionRe, s) == Some(Span(0, d)) && Groups(s, Span(0, d)) == (s[0..b], s[b + 1..d])
  {
    RunsOfTwoWords(s, b, d);
    SearchAtStart(s, d);
    assert InClass(Capital, s[b + 1]);
    CapitalIsNotSeparator(s[b + 1]);
    RunLenExact(s, 0, Capital, b);
    assert AllIn(CommaOrSpace, s, b, b + 1);
    GroupsOfRuns(s, 0, b, b + 1, d);
  }

  lemma TwoWordsLayout(w1: string, w2: string, rest: string, s: string, b: nat, d: nat)
    requires |w1| >= 2 && AllIn(Capital, w1, 0, |w1|) && |w2| >= 2 && AllIn(Capital, w2, 0, |w2|)
    requires rest == [] || !IsUpperLetter(rest[0])
    requires s == w1 + " " + w2 + rest && b == |w1| && d == |w1| + 1 + |w2|
    ensures d <= |s| && AllIn(Capital, s, 0, b) && s[b] == ' ' && AllIn(Capital, s, b + 1, d) && (d == |s| || !IsUpperLetter(s[d]))
    ensures s[0..b] == w1 && s[b + 1..d] == w2
  {
    var c := b + 1;
    assert forall k :: 0 <= k < b ==> s[k] == w1[k];
    assert forall k :: c <= k < d ==> s[k] == w2[k - c];
    if d < |s| {
      assert s[d] == rest[0];
    }
    assert s[0..b] == w1;
    assert s[c..d] == w2;
  }

  lemma RunsOfTwoWords(s: string, b: nat, d: nat)
    requires 2 <= b && b + 3 <= d <= |s| && AllIn(Capital, s, 0, b) && s[b] == ' ' && AllIn(Capital, s, b + 1, d)
    requires d == |s| || !IsUpperLetter(s[d])
    ensures CityRegionEnd(s, 0) == Some(d)
  {
    assert InClass(Capital, s[b + 1]);
    CapitalIsNotSeparator(s[b + 1]);
    RunLenExact(s, 0, Capital, b);
    RunLenExact(s, b, CommaOrSpace, b + 1);
    RunLenExact(s, b + 1, Capital, d);
  }

  /** A match at the very start is the first match. */
  lemma SearchAtStart(s: string, e: nat)
    requires CityRegionEnd(s, 0) == Some(e)
    ensures Search(CityRegionRe, s) == Some(Span(0, e))
  {
    CityRegionEnds(s, 0);
  }

  /** `extract_location` */
  method ExtractLocation(text: string) returns (loc: Option<string>)
    ensures loc == LocationOf(text)
  {
    var lines := SplitOn(text, '\n');
    var city: Option<string> := None;
    var region: Option<string> := None;
    var contact := FindContactLine(lines);
    if contact.Some? {
      var c := contact.value;
      var lo := if c == 0 then 0 else c - 1;
      var hi := if c + 3 < |lines| then c + 3 else |lines|;
      city, region := ScanLines(lines, lo, hi);
    }
    if !Truthy(city) || !Truthy(region) {
      city, region := ScanLines(lines, 0, |lines|);
      assert lines[0..|lines|] == lines;
    }
    if Truthy(city) && Truthy(region) {
      return Some(city.value + ", " + region.value);
    }
    return None;
  }

  /** The loop of lines 268-272: the first line with an `@` or a digit. */
  method FindContactLine(lines: seq<string>) returns (contact: Option<nat>)
    ensures contact == ContactFrom(lines, 0)
  {
    contact := None;
    var i := 0;
    while i < |lines|
      invariant 0 <= i <= |lines|
      invariant ContactFrom(lines, 0) == ContactFrom(lines, i)
    {
      if '@' in lines[i] || HasDigit(lines[i]) {
        return Some(i);
      }
      i := i + 1;
    }
  }

  /** The loops of lines 275-298 and 302-319, over `lines[lo:hi]`: the groups of the first line that yields one. */
  method ScanLines(lines: seq<string>, lo: nat, hi: nat) returns (city: Option<string>, region: Option<string>)
    requires lo <= hi <= |lines|
    ensures FirstSome(lines[lo..hi], LineCityRegion).None? ==> city.None? && region.None?
    ensures FirstSome(lines[lo..hi], LineCityRegion).Some? ==>
      city == Some(FirstSome(lines[lo..hi], LineCityRegion).value.0)
      && region == Some(FirstSome(lines[lo..hi], LineCityRegion).value.1)
      && Truthy(city) && Truthy(region)
  {
    city, region := None, None;
    var j := lo;
    while j < hi
      invariant lo <= j <= hi
      invariant FirstSome(lines[lo..hi], LineCityRegion) == FirstSome(lines[j..hi], LineCityRegion)
    {
      FirstSomeStepAt(lines, lo, j, hi);
      var found := LineCityRegion(lines[j]);
      if found.Some? {
        var _, _ := LineCityRegionShape(lines[j]);
        return Some(found.value.0), Some(found.value.1);
      }
      j := j + 1;
    }
  }

  lemma FirstSomeStepAt(lines: seq<string>, lo: nat, j: nat, hi: nat)
    requires lo <= j < hi <= |lines|
    ensures FirstSome(lines[j..hi], LineCityRegion) ==
      if LineCityRegion(lines[j]).Some? then LineCityRegion(lines[j]) else FirstSome(lines[j + 1..hi], LineCityRegion)
  {
    assert lines[j..hi][0] == lines[j] && lines[j..hi][1..] == lines[j + 1..hi];
  }
}
