/**
 * Finding the candidate's name (app/cv/info_extractor.py, `extract_name` and
 * `extract_name_from_email`).
 *
 * `ExtractName` walks the first 15 lines like the original loop.  Its
 * specification is `NameIn`, which asks `LineName` about each line in turn:
 * `LineName` says what one line yields, and the lemmas say what a name found
 * that way looks like.
 */
module Names {
  import opened Wrappers
  import opened Text
  import Cleaner

  /** `re.search(r'\d{3}', s)` finds something: three digits in a row. */
  predicate HasDigitTriple(s: string) {
    exists i :: 0 <= i && i + 3 <= |s| && IsDigit(s[i]) && IsDigit(s[i + 1]) && IsDigit(s[i + 2])
  }

  /** A line skipped as contact data: an `@`, three digits in a row, or `http` in any case. */
  predicate LooksLikeContact(line: string) {
    '@' in line || HasDigitTriple(line) || HasSubstring(Lower(line), "http")
  }

  /** A heading line: all upper-case and shorter than 20 characters. */
  predicate IsHeading(line: string) {
    IsUpperStr(line) && |line| < 20
  }

  /** `word and word[0].isupper()` */
  predicate Capitalised(w: string) {
    w != [] && IsUpperLetter(w[0])
  }

  predicate AllCapitalised(ws: seq<string>) {
    forall k :: 0 <= k < |ws| ==> Capitalised(ws[k])
  }

  /** Lines `extract_name` passes over: empty, contact-like or a heading. */
  predicate Skipped(line: string) {
    line == [] || LooksLikeContact(line) || IsHeading(line)
  }

  /** The whole line is the name: two to four capitalised words, shorter than 60 characters. */
  predicate WholeLineIsName(line: string, words: seq<string>) {
    2 <= |words| <= 4 && AllCapitalised(words) && |line| < 60
  }

  /** The first two words are the name: both capitalised, 5-30 characters once joined. */
  predicate FirstTwoAreName(words: seq<string>) {
    |words| >= 2 && AllCapitalised(words[..2]) && 5 <= |Join(words[..2], " ")| <= 30
  }

  /** What one line of the text yields. */
  function LineName(raw: string): Option<string> {
    var line := Strip(raw);
    if Skipped(line) then None
    else
      var words := Split(line);
      if WholeLineIsName(line, words) then Some(line)
      else if FirstTwoAreName(words) then Some(Join(words[..2], " "))
      else None
  }

  /** The name the first lines give: what the first line yielding one yields. */
  function NameIn(lines: seq<string>): Option<string> {
    FirstSome(lines, LineName)
  }

  /** `extract_name`: the first of the first 15 lines that yields a name decides. */
  method ExtractName(text: string) returns (name: Option<string>)
    ensures name == NameIn(Take(SplitOn(text, '\n'), 15))
  {
    var lines := Take(SplitOn(text, '\n'), 15);
    var i := 0;
    while i < |lines|
      invariant 0 <= i <= |lines|
      invariant NameIn(lines) == NameIn(lines[i..])
    {
      var line := Strip(lines[i]);
      if line == [] || LooksLikeContact(line) || IsHeading(line) {
        LineNameIsSkipped(lines[i], line);
        NameInSkip(lines, i);
        i := i + 1;
        continue;
      }
      var words := Split(line);
      if 2 <= |words| <= 4 && AllCapitalised(words) && |line| < 60 {
        LineNameIsWhole(lines[i], line, words);
        NameInHit(lines, i);
        return Some(line);
      }
      if |words| >= 2 {
        var firstTwo := Join(words[..2], " ");
        if AllCapitalised(words[..2]) && 5 <= |firstTwo| <= 30 {
          LineNameIsFirstTwo(lines[i], line, words);
          NameInHit(lines, i);
          return Some(firstTwo);
        }
      }
      LineNameIsNone(lines[i], line, words);
      NameInSkip(lines, i);
      i := i + 1;
    }
    return None;
  }

  lemma NameInSkip(lines: seq<string>, i: nat)
    requires i < |lines| && LineName(lines[i]).None?
    ensures NameIn(lines[i..]) == NameIn(lines[i + 1..])
  {
    FirstSomeStep(lines, LineName, i);
  }

  lemma NameInHit(lines: seq<string>, i: nat)
    requires i < |lines| && LineName(lines[i]).Some?
    ensures NameIn(lines[i..]) == LineName(lines[i])
  {
    FirstSomeStep(lines, LineName, i);
  }

  lemma LineNameIsSkipped(raw: string, line: string)
    requires line == Strip(raw)
    requires line == [] || LooksLikeContact(line) || IsHeading(line)
    ensures LineName(raw).None?
  {
  }

  lemma LineNameIsWhole(raw: string, line: string, words: seq<string>)
    requires line == Strip(raw) && words == Split(line)
    requires !(line == [] || LooksLikeContact(line) || IsHeading(line))
    requires 2 <= |words| <= 4 && AllCapitalised(words) && |line| < 60
    ensures LineName(raw) == Some(line)
  {
  }

  lemma LineNameIsFirstTwo(raw: string, line: string, words: seq<string>)
    requires line == Strip(raw) && words == Split(line)
    requires !(line == [] || LooksLikeContact(line) || IsHeading(line))
    requires !(2 <= |words| <= 4 && AllCapitalised(words) && |line| < 60)
    requires |words| >= 2 && AllCapitalised(words[..2]) && 5 <= |Join(words[..2], " ")| <= 30
    ensures LineName(raw) == Some(Join(words[..2], " "))
  {
  }

  lemma LineNameIsNone(raw: string, line: string, words: seq<string>)
    requires line == Strip(raw) && words == Split(line)
    requires !(line == [] || LooksLikeContact(line) || IsHeading(line))
    requires !(2 <= |words| <= 4 && AllCapitalised(words) && |line| < 60)
    requires !(|words| >= 2 && AllCapitalised(words[..2]) && 5 <= |Join(words[..2], " ")| <= 30)
    ensures LineName(raw).None?
  {
  }

  /** `NameIn` gives the name of the first line that yields one, and nothing when no line does. */
  lemma NameInFirst(lines: seq<string>)
    ensures NameIn(lines).None? <==> forall k :: 0 <= k < |lines| ==> LineName(lines[k]).None?
    ensures NameIn(lines).Some? ==>
      exists k :: 0 <= k < |lines| && NameIn(lines) == LineName(lines[k])
        && forall p :: 0 <= p < k ==> LineName(lines[p]).None?
  {
    FirstSomeFirst(lines, LineName);
  }

  // ---------------------------------------------------------------------------
  // The words of a name
  // ---------------------------------------------------------------------------

  /** A word without whitespace, then a break or the end: the first word is exactly that word. */
  lemma {:induction false} WordLenOf(w: string, rest: string)
    requires NoSpace(w) && (rest == [] || IsSpace(rest[0]))
    ensures WordLen(w + rest) == |w|
    decreases |w|
  {
    if w != [] {
      assert (w + rest)[1..] == w[1..] + rest;
      WordLenOf(w[1..], rest);
    } else {
      assert w + rest == rest;
    }
  }

  lemma SplitOne(b: string)
    requires b != [] && NoSpace(b)
    ensures Split(b) == [b]
  {
    WordLenOf(b, []);
    assert b + [] == b;
    assert b[|b|..] == [];
  }

  lemma SplitUnfold(s: string)
    ensures var t := LStrip(s);
      Split(s) == if t == [] then [] else [t[..WordLen(t)]] + Split(t[WordLen(t)..])
  {
  }

  lemma SplitAfterSpace(b: string)
    requires b != [] && NoSpace(b)
    ensures Split(" " + b) == [b]
  {
    var t := " " + b;
    assert t[1..] == b;
    assert LStrip(t) == b;
    SplitUnfold(t);
    SplitOne(b);
  }

  /** Two words joined by a space split back into the two words. */
  lemma SplitTwo(a: string, b: string)
    requires a != [] && NoSpace(a) && b != [] && NoSpace(b)
    ensures Split(a + " " + b) == [a, b]
  {
    var t := " " + b;
    assert a + " " + b == a + t;
    SplitCons(a + t, a, t);
    SplitAfterSpace(b);
  }

  /** A leading word followed by whitespace (or nothing) is the first word. */
  lemma SplitCons(w: string, a: string, t: string)
    requires w == a + t && a != [] && NoSpace(a) && (t == [] || IsSpace(t[0]))
    ensures Split(w) == [a] + Split(t)
  {
    assert w[0] == a[0];
    assert LStrip(w) == w;
    WordLenOf(a, t);
    assert w[..|a|] == a && w[|a|..] == t;
    SplitUnfold(w);
  }

  /**
   * A line that yields a name is a non-empty stripped line without `@`, three
   * digits in a row or `http`, and not a short all-upper heading.  The name is
   * two to four capitalised words, the first words of that line, shorter than
   * 60 characters; it is the whole line, or else exactly its first two words,
   * 5-30 characters in all.
   */
  lemma LineNameShape(raw: string)
    ensures LineName(raw).Some? ==>
      var line := Strip(raw);
      var n := LineName(raw).value;
      line != [] && '@' !in line && !HasDigitTriple(line) && !HasSubstring(Lower(line), "http") && !IsHeading(line)
      && NameOfLine(line, n)
  {
    var line := Strip(raw);
    var words := Split(line);
    if Skipped(line) {
      LineNameIsSkipped(raw, line);
    } else if WholeLineIsName(line, words) {
      LineNameIsWhole(raw, line, words);
      WholeShape(line);
    } else if FirstTwoAreName(words) {
      LineNameIsFirstTwo(raw, line, words);
      FirstTwoShape(line);
    } else {
      LineNameIsNone(raw, line, words);
    }
  }

  /** The words of a name `LineName` takes from `line`. */
  predicate NameOfLine(line: string, n: string) {
    var ws := Split(n);
    2 <= |ws| <= 4 && |ws| <= |Split(line)| && ws == Split(line)[..|ws|] && AllCapitalised(ws) && |n| < 60
    && (n == line || (n == Join(Split(line)[..2], " ") && 5 <= |n| <= 30))
  }

  lemma WholeShape(line: string)
    requires WholeLineIsName(line, Split(line))
    ensures NameOfLine(line, line)
  {
    var words := Split(line);
    assert words[..|words|] == words;
  }

  lemma FirstTwoShape(line: string)
    requires FirstTwoAreName(Split(line))
    ensures NameOfLine(line, Join(Split(line)[..2], " "))
  {
    var words := Split(line);
    SplitWordAt(line, 0);
    SplitWordAt(line, 1);
    TwoWordsRejoin(words);
    var ws := Split(Join(words[..2], " "));
    assert ws == words[..2] && |ws| == 2;
  }

  lemma SplitWordAt(s: string, k: nat)
    requires k < |Split(s)|
    ensures Split(s)[k] != [] && NoSpace(Split(s)[k])
  {
    SplitWords(s);
  }

  lemma TwoWordsRejoin(words: seq<string>)
    requires |words| >= 2
    requires words[0] != [] && NoSpace(words[0]) && words[1] != [] && NoSpace(words[1])
    ensures Split(Join(words[..2], " ")) == words[..2]
  {
    JoinTwo(words[..2]);
    SplitTwo(words[0], words[1]);
    assert [words[0], words[1]] == words[..2];
  }

  lemma JoinTwo(ws: seq<string>)
    requires |ws| == 2
    ensures Join(ws, " ") == ws[0] + " " + ws[1]
  {
    assert |ws[1..]| == 1;
  }

  // ---------------------------------------------------------------------------
  // extract_name_from_email
  // ---------------------------------------------------------------------------

  predicate NotDigit(c: char) {
    !IsDigit(c)
  }

  /** `str.capitalize`: the first character upper-cased, the rest lower-cased. */
  function Capitalize(s: string): (r: string)
    ensures |r| == |s|
    ensures s != [] ==> r[0] == UpperChar(s[0])
    ensures forall k :: 0 < k < |s| ==> r[k] == LowerChar(s[k])
  {
    if s == [] then [] else [UpperChar(s[0])] + Fold(s[1..])
  }

  /** The local part of an address with its digits removed (`re.sub(r'\d+', '', ...)`). */
  function LocalLetters(email: string): string {
    Cleaner.Filter(SplitOn(email, '@')[0], NotDigit)
  }

  /**
   * `extract_name_from_email`: the capitalised local part without digits, when
   * that is 3-20 characters long.
   */
  function NameFromEmail(email: string): (r: Option<string>)
    ensures email == [] ==> r.None?
    ensures email != [] ==> (r.Some? <==> 3 <= |LocalLetters(email)| <= 20)
    ensures r.Some? ==> r.value == Capitalize(LocalLetters(email))
    ensures r.Some? ==>
      |r.value| == |LocalLetters(email)| && !IsLowerLetter(r.value[0])
      && (forall k :: 0 < k < |r.value| ==> !IsUpperLetter(r.value[k]))
      && (forall k :: 0 <= k < |r.value| ==> !IsDigit(r.value[k]) && r.value[k] != '@')
  {
    if email == [] then None
    else
      var namePart := LocalLetters(email);
      if namePart != [] && 3 <= |namePart| <= 20 then
        var r := Capitalize(namePart);
        assert forall k :: 0 <= k < |namePart| ==> !IsDigit(namePart[k]) && namePart[k] != '@' by {
          forall k | 0 <= k < |namePart|
            ensures !IsDigit(namePart[k]) && namePart[k] != '@'
          {
            Cleaner.FilterMembers(SplitOn(email, '@')[0], NotDigit, namePart[k]);
          }
        }
        Some(r)
      else None
  }

  /** Only the part before the first `@` matters. */
  lemma NameFromEmailLocalOnly(local: string, domain: string)
    requires local != [] && '@' !in local
    ensures NameFromEmail(local + "@" + domain) == NameFromEmail(local)
  {
    var e := local + "@" + domain;
    assert e[..|local|] == local && e[|local|] == '@';
    assert IndexOf(e, '@') == |local| by {
      IndexOfFirst(e, '@', |local|);
    }
    assert IndexOf(local, '@') == |local| by {
      assert forall j :: 0 <= j < |local| ==> local[j] != '@';
      IndexOfAbsent(local, '@');
    }
  }
}
