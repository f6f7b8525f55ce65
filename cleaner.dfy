/**
 * The text normaliser of app/cv/cleaner.py: `clean_text`,
 * `remove_special_characters` and `normalize_punctuation_for_skills`.
 * Each `re.sub`, `str.replace`, `translate` and `strip` step is one function
 * over strings; the lemmas characterise what the whole chain produces.
 */
module Cleaner {
  import opened Text

  /** No `a` immediately followed by `b`. */
  predicate NoPair(s: string, a: char, b: char) {
    forall i :: 0 <= i < |s| - 1 ==> !(s[i] == a && s[i + 1] == b)
  }

  lemma NoPairCons(x: char, t: string, a: char, b: char)
    ensures NoPair([x] + t, a, b) <==> NoPair(t, a, b) && (t == [] || !(x == a && t[0] == b))
  {
    var s := [x] + t;
    if NoPair(t, a, b) && (t == [] || !(x == a && t[0] == b)) {
      forall i | 0 <= i < |s| - 1 ensures !(s[i] == a && s[i + 1] == b) {
        if i > 0 {
          assert s[i] == t[i - 1] && s[i + 1] == t[i];
        }
      }
    }
    if NoPair(s, a, b) {
      forall i | 0 <= i < |t| - 1 ensures !(t[i] == a && t[i + 1] == b) {
        assert s[i + 1] == t[i] && s[i + 2] == t[i + 1];
      }
      if t != [] {
        assert s[0] == x && s[1] == t[0];
      }
    }
  }

  lemma NoPairSlice(s: string, a: char, b: char, i: nat, j: nat)
    requires i <= j <= |s| && NoPair(s, a, b)
    ensures NoPair(s[i..j], a, b)
  {
    var t := s[i..j];
    forall k | 0 <= k < |t| - 1 ensures !(t[k] == a && t[k + 1] == b) {
      assert t[k] == s[i + k] && t[k + 1] == s[i + k + 1];
    }
  }

  /** Length of the leading run of `c`. */
  function LeadLen(s: string, c: char): (n: nat)
    ensures n <= |s|
    ensures forall i :: 0 <= i < n ==> s[i] == c
    ensures n == |s| || s[n] != c
  {
    if s == [] || s[0] != c then 0 else 1 + LeadLen(s[1..], c)
  }

  // ---------------------------------------------------------------------------
  // clean_text
  // ---------------------------------------------------------------------------

  /**
   * NFKD on one character, for the modelled alphabet: each Turkish letter with a
   * diacritic becomes its base letter followed by the combining mark, and the
   * compatibility spaces (no-break, en/em spaces, ideographic space) become U+0020.
   */
  function DecomposeChar(c: char): string {
    if c == 'Ç' then "C\U{0327}" else if c == 'ç' then "c\U{0327}"
    else if c == 'Ğ' then "G\U{0306}" else if c == 'ğ' then "g\U{0306}"
    else if c == 'İ' then "I\U{0307}"
    else if c == 'Ö' then "O\U{0308}" else if c == 'ö' then "o\U{0308}"
    else if c == 'Ş' then "S\U{0327}" else if c == 'ş' then "s\U{0327}"
    else if c == 'Ü' then "U\U{0308}" else if c == 'ü' then "u\U{0308}"
    else if c == '\U{00A0}' || ('\U{2000}' <= c <= '\U{200A}') || c == '\U{202F}'
         || c == '\U{205F}' || c == '\U{3000}' then " "
    else [c]
  }

  /** `unicodedata.normalize('NFKD', s)` */
  function Nfkd(s: string): string {
    if s == [] then [] else DecomposeChar(s[0]) + Nfkd(s[1..])
  }

  /** Text without decomposable characters is already in NFKD. */
  lemma {:induction false} NfkdIdentity(s: string)
    requires forall i :: 0 <= i < |s| ==> DecomposeChar(s[i]) == [s[i]]
    ensures Nfkd(s) == s
  {
    if s != [] {
      NfkdIdentity(s[1..]);
      assert s == [s[0]] + s[1..];
    }
  }

  /** `re.sub(r'\n{3,}', '\n\n', s)`: a run of three or more newlines becomes two. */
  function CapNewlineRuns(s: string): string
    decreases |s|
  {
    if s == [] then []
    else if s[0] == '\n' then
      var k := LeadLen(s, '\n');
      (if k >= 3 then "\n\n" else s[..k]) + CapNewlineRuns(s[k..])
    else [s[0]] + CapNewlineRuns(s[1..])
  }

  /** Length of the leading run of characters satisfying `p`. */
  function RunLen(s: string, p: char -> bool): (n: nat)
    ensures n <= |s|
    ensures forall i :: 0 <= i < n ==> p(s[i])
    ensures n == |s| || !p(s[n])
  {
    if s == [] || !p(s[0]) then 0 else 1 + RunLen(s[1..], p)
  }

  /** Replaces every maximal run of characters satisfying `p` by one space. */
  function CollapseRuns(s: string, p: char -> bool): string
    decreases |s|
  {
    if s == [] then []
    else if p(s[0]) then " " + CollapseRuns(s[RunLen(s, p)..], p)
    else [s[0]] + CollapseRuns(s[1..], p)
  }

  predicate IsBlank(c: char) {
    c == ' ' || c == '\t'
  }

  /** `re.sub(r'[ \t]+', ' ', s)` */
  function CollapseBlanks(s: string): string {
    CollapseRuns(s, IsBlank)
  }

  /** `re.sub(r' +\n', '\n', s)`: spaces directly before a newline are deleted. */
  function DropSpacesBeforeNewlines(s: string): string
    decreases |s|
  {
    if s == [] then []
    else if s[0] == ' ' then
      var k := LeadLen(s, ' ');
      if k < |s| && s[k] == '\n' then "\n" + DropSpacesBeforeNewlines(s[k + 1..])
      else s[..k] + DropSpacesBeforeNewlines(s[k..])
    else [s[0]] + DropSpacesBeforeNewlines(s[1..])
  }

  /** `re.sub(r'\n +', '\n', s)`: spaces directly after a newline are deleted. */
  function DropSpacesAfterNewlines(s: string): string
    decreases |s|
  {
    if s == [] then []
    else if s[0] == '\n' then "\n" + DropSpacesAfterNewlines(s[1 + LeadLen(s[1..], ' ')..])
    else [s[0]] + DropSpacesAfterNewlines(s[1..])
  }

  /** `clean_text(raw_text)` */
  function CleanText(raw: string): string {
    if raw == [] then []
    else Strip(DropSpacesAfterNewlines(DropSpacesBeforeNewlines(CollapseBlanks(CapNewlineRuns(Nfkd(raw))))))
  }

  /** Collapsing runs leaves no two spaces in a row when every space satisfies `p`, and
      no character satisfying `p` other than the single spaces it writes. */
  lemma {:induction false} CollapseRunsShape(s: string, p: char -> bool)
    requires p(' ')
    ensures var r := CollapseRuns(s, p);
      NoPair(r, ' ', ' ') && (forall i :: 0 <= i < |r| ==> r[i] == ' ' || !p(r[i]))
      && (s == [] <==> r == [])
      && (s != [] ==> r[0] == (if p(s[0]) then ' ' else s[0]))
    decreases |s|
  {
    if s != [] {
      var r := CollapseRuns(s, p);
      if p(s[0]) {
        var k := RunLen(s, p);
        var t := CollapseRuns(s[k..], p);
        CollapseRunsShape(s[k..], p);
        NoPairCons(' ', t, ' ', ' ');
        assert r == [' '] + t;
      } else {
        var t := CollapseRuns(s[1..], p);
        CollapseRunsShape(s[1..], p);
        NoPairCons(s[0], t, ' ', ' ');
        assert r == [s[0]] + t;
      }
    }
  }

  lemma {:induction false} DropBeforeShape(s: string)
    requires '\t' !in s && NoPair(s, ' ', ' ')
    ensures var r := DropSpacesBeforeNewlines(s);
      '\t' !in r && NoPair(r, ' ', ' ') && NoPair(r, ' ', '\n')
      && (s == [] <==> r == [])
      && (s != [] ==> r[0] == s[0] || (s[0] == ' ' && r[0] == '\n'))
    decreases |s|
  {
    if s != [] {
      var r := DropSpacesBeforeNewlines(s);
      if s[0] == ' ' {
        var k := LeadLen(s, ' ');
        if |s| > 1 {
          assert !(s[0] == ' ' && s[1] == ' ');
        }
        assert k == 1;
        if k < |s| && s[k] == '\n' {
          var t := DropSpacesBeforeNewlines(s[2..]);
          NoPairSlice(s, ' ', ' ', 2, |s|);
          DropBeforeShape(s[2..]);
          NoPairCons('\n', t, ' ', ' ');
          NoPairCons('\n', t, ' ', '\n');
          assert r == ['\n'] + t;
        } else {
          var t := DropSpacesBeforeNewlines(s[1..]);
          NoPairSlice(s, ' ', ' ', 1, |s|);
          DropBeforeShape(s[1..]);
          NoPairCons(' ', t, ' ', ' ');
          NoPairCons(' ', t, ' ', '\n');
          assert s[..1] == [' '];
          assert r == [' '] + t;
          if |s| > 1 {
            assert s[1] != ' ' && s[1] != '\n';
          }
        }
      } else {
        var t := DropSpacesBeforeNewlines(s[1..]);
        NoPairSlice(s, ' ', ' ', 1, |s|);
        DropBeforeShape(s[1..]);
        NoPairCons(s[0], t, ' ', ' ');
        NoPairCons(s[0], t, ' ', '\n');
        assert r == [s[0]] + t;
        if |s| > 1 && s[1] == ' ' {
          assert t[0] == ' ' || t[0] == '\n';
        }
      }
    }
  }

  lemma {:induction false} DropAfterShape(s: string)
    requires '\t' !in s && NoPair(s, ' ', ' ') && NoPair(s, ' ', '\n')
    ensures var r := DropSpacesAfterNewlines(s);
      '\t' !in r && NoPair(r, ' ', ' ') && NoPair(r, ' ', '\n') && NoPair(r, '\n', ' ')
      && (s == [] <==> r == [])
      && (s != [] ==> r[0] == s[0])
    decreases |s|
  {
    if s != [] {
      var r := DropSpacesAfterNewlines(s);
      if s[0] == '\n' {
        var j := 1 + LeadLen(s[1..], ' ');
        var t := DropSpacesAfterNewlines(s[j..]);
        NoPairSlice(s, ' ', ' ', j, |s|);
        NoPairSlice(s, ' ', '\n', j, |s|);
        DropAfterShape(s[j..]);
        NoPairCons('\n', t, ' ', ' ');
        NoPairCons('\n', t, ' ', '\n');
        NoPairCons('\n', t, '\n', ' ');
        assert r == ['\n'] + t;
      } else {
        var t := DropSpacesAfterNewlines(s[1..]);
        NoPairSlice(s, ' ', ' ', 1, |s|);
        NoPairSlice(s, ' ', '\n', 1, |s|);
        DropAfterShape(s[1..]);
        NoPairCons(s[0], t, ' ', ' ');
        NoPairCons(s[0], t, ' ', '\n');
        NoPairCons(s[0], t, '\n', ' ');
        assert r == [s[0]] + t;
        if |s| > 1 {
          assert s[0] == ' ' ==> s[1] != ' ' && s[1] != '\n';
        }
      }
    }
  }

  /** Output shape of `clean_text`: no tab, no double space, no space next to a newline,
      nothing blank at either end; empty input gives the empty string. */
  lemma CleanTextShape(raw: string)
    ensures raw == [] ==> CleanText(raw) == []
    ensures var r := CleanText(raw);
      '\t' !in r && NoPair(r, ' ', ' ') && NoPair(r, ' ', '\n') && NoPair(r, '\n', ' ')
      && (r == [] || (!IsSpace(r[0]) && !IsSpace(r[|r| - 1])))
  {
    if raw != [] {
      var c := CollapseBlanks(CapNewlineRuns(Nfkd(raw)));
      CollapseRunsShape(CapNewlineRuns(Nfkd(raw)), IsBlank);
      assert '\t' !in c by {
        forall i | 0 <= i < |c| ensures c[i] != '\t' {
          assert c[i] == ' ' || !IsBlank(c[i]);
        }
      }
      DropBeforeShape(c);
      var d := DropSpacesAfterNewlines(DropSpacesBeforeNewlines(c));
      DropAfterShape(DropSpacesBeforeNewlines(c));
      var a, b := StripSlice(d);
      NoPairSlice(d, ' ', ' ', a, b);
      NoPairSlice(d, ' ', '\n', a, b);
      NoPairSlice(d, '\n', ' ', a, b);
      assert CleanText(raw) == d[a..b];
    }
  }

  lemma CapThreeNewlinesExample(s: string)
    requires s == "a\n\n \nb"
    ensures CapNewlineRuns(s) == s
  {
    var t := s[1..];
    assert t == "\n\n \nb";
    assert t[0] == '\n' && t[1] == '\n' && t[2] == ' ';
    assert LeadLen(t, '\n') == 2;
    var u := t[2..];
    assert u == " \nb";
    var v := u[1..];
    assert v == "\nb";
    assert LeadLen(v, '\n') == 1;
    assert CapNewlineRuns(v[1..]) == v[1..];
    assert CapNewlineRuns(v) == v;
    assert CapNewlineRuns(u) == u;
    assert CapNewlineRuns(t) == t;
  }

  lemma CollapseThreeNewlinesExample(s: string)
    requires s == "a\n\n \nb"
    ensures CollapseBlanks(s) == s
  {
    var u := s[3..];
    assert u == " \nb";
    assert u[0] == ' ' && u[1] == '\n';
    assert RunLen(u, IsBlank) == 1;
    assert u[1..] == "\nb";
    assert CollapseRuns(u[1..][1..], IsBlank) == u[1..][1..];
    assert CollapseRuns(u[1..], IsBlank) == u[1..];
    assert CollapseRuns(u, IsBlank) == u;
    assert CollapseRuns(s[2..], IsBlank) == s[2..];
    assert CollapseRuns(s[1..], IsBlank) == s[1..];
  }

  lemma DropThreeNewlinesExample(s: string, d: string)
    requires s == "a\n\n \nb" && d == "a\n\n\nb"
    ensures DropSpacesBeforeNewlines(s) == d
    ensures DropSpacesAfterNewlines(d) == d
  {
    var u := s[3..];
    assert u == " \nb";
    assert LeadLen(u, ' ') == 1;
    assert DropSpacesBeforeNewlines(u[2..]) == u[2..];
    assert DropSpacesBeforeNewlines(u) == u[1..];
    assert DropSpacesBeforeNewlines(s[2..]) == d[2..];
    assert DropSpacesBeforeNewlines(s[1..]) == d[1..];
    var w := d[3..];
    assert w == "\nb";
    assert LeadLen(w[1..], ' ') == 0;
    assert DropSpacesAfterNewlines(w[1..]) == w[1..];
    assert DropSpacesAfterNewlines(w) == w;
    assert LeadLen(d[3..], ' ') == 0;
    assert DropSpacesAfterNewlines(d[2..]) == d[2..];
    assert LeadLen(d[2..], ' ') == 0;
    assert DropSpacesAfterNewlines(d[1..]) == d[1..];
  }

  /** The chain does not bound newline runs by two: a space between newlines is removed
      only after the newline runs were capped. */
  lemma CleanTextThreeNewlines(s: string, d: string)
    requires s == "a\n\n \nb" && d == "a\n\n\nb"
    ensures CleanText(s) == d
  {
    NfkdIdentity(s);
    CapThreeNewlinesExample(s);
    CollapseThreeNewlinesExample(s);
    DropThreeNewlinesExample(s, d);
    StripExample(d);
  }

  lemma StripExample(d: string)
    requires d == "a\n\n\nb"
    ensures Strip(d) == d
  {
    assert LStrip(d) == d;
    assert RStrip(d) == d;
  }

  // ---------------------------------------------------------------------------
  // remove_special_characters
  // ---------------------------------------------------------------------------

  /** Keeps the characters satisfying `keep`, in order. */
  function Filter(s: string, keep: char -> bool): (r: string)
    ensures |r| <= |s|
    ensures forall i :: 0 <= i < |r| ==> keep(r[i])
    decreases |s|
  {
    if s == [] then [] else (if keep(s[0]) then [s[0]] else []) + Filter(s[1..], keep)
  }

  /** `a` is `b` with some characters deleted. */
  predicate IsSubsequence(a: string, b: string)
    decreases |b|
  {
    if a == [] then true
    else if b == [] then false
    else (a[0] == b[0] && IsSubsequence(a[1..], b[1..])) || IsSubsequence(a, b[1..])
  }

  lemma {:induction false} FilterMembers(s: string, keep: char -> bool, c: char)
    ensures c in Filter(s, keep) <==> c in s && keep(c)
    decreases |s|
  {
    if s != [] {
      FilterMembers(s[1..], keep, c);
      assert s == [s[0]] + s[1..];
    }
  }

  /** Every copy of a kept character survives the filter. */
  lemma {:induction false} FilterCount(s: string, keep: char -> bool, c: char)
    requires keep(c)
    ensures multiset(Filter(s, keep))[c] == multiset(s)[c]
    decreases |s|
  {
    if s != [] {
      FilterCount(s[1..], keep, c);
      assert s == [s[0]] + s[1..];
      assert multiset(s) == multiset([s[0]]) + multiset(s[1..]);
    }
  }

  lemma {:induction false} FilterIsSubsequence(s: string, keep: char -> bool)
    ensures IsSubsequence(Filter(s, keep), s)
    decreases |s|
  {
    if s != [] {
      FilterIsSubsequence(s[1..], keep);
      var t := Filter(s[1..], keep);
      if keep(s[0]) {
        assert Filter(s, keep) == [s[0]] + t;
        assert ([s[0]] + t)[1..] == t;
      } else {
        assert Filter(s, keep) == t;
        if t != [] {
          SubsequenceDrop(t, s);
        }
      }
    }
  }

  lemma {:induction false} FilterFilter(s: string, p: char -> bool, q: char -> bool, pq: char -> bool)
    requires forall c :: pq(c) == (p(c) && q(c))
    ensures Filter(Filter(s, p), q) == Filter(s, pq)
    decreases |s|
  {
    if s != [] {
      FilterFilter(s[1..], p, q, pq);
      var t := Filter(s[1..], p);
      if p(s[0]) {
        assert Filter(s, p) == [s[0]] + t;
        assert ([s[0]] + t)[1..] == t;
      } else {
        assert Filter(s, p) == t;
        assert Filter(s, pq) == Filter(s[1..], pq);
      }
    }
  }

  lemma {:induction false} SubsequenceSlice(a: string, b: string, i: nat, j: nat)
    requires i <= j <= |a| && IsSubsequence(a, b)
    ensures IsSubsequence(a[i..j], b)
    decreases |b|
  {
    if a != [] && b != [] {
      if a[0] == b[0] && IsSubsequence(a[1..], b[1..]) {
        if i == 0 {
          if j > 0 {
            SubsequenceSlice(a[1..], b[1..], 0, j - 1);
            assert a[i..j][1..] == a[1..][0..j - 1];
          }
        } else {
          SubsequenceSlice(a[1..], b[1..], i - 1, j - 1);
          assert a[i..j] == a[1..][i - 1..j - 1];
          SubsequenceDrop(a[i..j], b);
        }
      } else {
        SubsequenceSlice(a, b[1..], i, j);
      }
    }
  }

  lemma SubsequenceDrop(a: string, b: string)
    requires b != [] && IsSubsequence(a, b[1..])
    ensures IsSubsequence(a, b)
  {
  }

  /** The characters the first `re.sub` of `remove_special_characters` deletes. */
  predicate IsControl(c: char, keepNewlines: bool) {
    var n := c as int;
    if keepNewlines then n <= 0x08 || n == 0x0B || n == 0x0C || (0x0E <= n <= 0x1F) || n == 0x7F
    else n <= 0x1F || n == 0x7F
  }

  function NotControl(keepNewlines: bool): char -> bool {
    c => !IsControl(c, keepNewlines)
  }

  predicate NotCarriageReturn(c: char) {
    c != '\r'
  }

  /** `remove_special_characters(text, keep_newlines)` */
  function RemoveSpecialCharacters(text: string, keepNewlines: bool): string {
    if text == [] then []
    else Strip(Filter(Filter(text, NotControl(keepNewlines)), NotCarriageReturn))
  }

  /** The characters that survive both `re.sub` calls. */
  function Survives(keepNewlines: bool): char -> bool {
    c => !IsControl(c, keepNewlines) && c != '\r'
  }

  /** Deletion only: before the final strip the result is the input with the control
      characters and carriage returns filtered out, in order. */
  lemma RemoveSpecialIsOneFilter(text: string, keepNewlines: bool)
    ensures text == [] ==> RemoveSpecialCharacters(text, keepNewlines) == []
    ensures text != [] ==> RemoveSpecialCharacters(text, keepNewlines)
                           == Strip(Filter(text, Survives(keepNewlines)))
  {
    FilterFilter(text, NotControl(keepNewlines), NotCarriageReturn, Survives(keepNewlines));
  }

  /** The result is the input with characters deleted, order preserved. */
  lemma RemoveSpecialIsSubsequence(text: string, keepNewlines: bool)
    ensures IsSubsequence(RemoveSpecialCharacters(text, keepNewlines), text)
  {
    if text != [] {
      RemoveSpecialIsOneFilter(text, keepNewlines);
      var f := Filter(text, Survives(keepNewlines));
      FilterIsSubsequence(text, Survives(keepNewlines));
      var a, b := StripSlice(f);
      SubsequenceSlice(f, text, a, b);
    }
  }

  /** With `keep_newlines`, no character of 0x00-0x08, 0x0B-0x0D, 0x0E-0x1F or 0x7F is left;
      without it, nothing of 0x00-0x1F or 0x7F. */
  lemma RemoveSpecialNoControls(text: string, keepNewlines: bool)
    ensures forall c :: c in RemoveSpecialCharacters(text, keepNewlines) ==>
      !IsControl(c, keepNewlines) && c != '\r'
    ensures !keepNewlines ==> forall c :: c in RemoveSpecialCharacters(text, keepNewlines) ==>
      (c as int) > 0x1F && (c as int) != 0x7F
  {
    if text != [] {
      var f := Filter(Filter(text, NotControl(keepNewlines)), NotCarriageReturn);
      var a, b := StripSlice(f);
      forall c | c in RemoveSpecialCharacters(text, keepNewlines)
        ensures !IsControl(c, keepNewlines) && c != '\r'
      {
        FilterMembers(Filter(text, NotControl(keepNewlines)), NotCarriageReturn, c);
        FilterMembers(text, NotControl(keepNewlines), c);
        assert c in f;
      }
    }
  }

  /** Newlines and tabs are kept by `remove_special_characters(text, True)`: every one of
      them in the input is still there before the final strip, as many times as in the input. */
  lemma RemoveSpecialKeepsLineBreaks(text: string, c: char)
    requires c == '\n' || c == '\t'
    requires c in text
    ensures c in Filter(Filter(text, NotControl(true)), NotCarriageReturn)
    ensures multiset(Filter(Filter(text, NotControl(true)), NotCarriageReturn))[c] == multiset(text)[c]
  {
    FilterCount(text, NotControl(true), c);
    FilterCount(Filter(text, NotControl(true)), NotCarriageReturn, c);
    FilterMembers(text, NotControl(true), c);
    FilterMembers(Filter(text, NotControl(true)), NotCarriageReturn, c);
  }

  // ---------------------------------------------------------------------------
  // normalize_punctuation_for_skills
  // ---------------------------------------------------------------------------

  /** `s.replace(pat, rep)`: leftmost, non-overlapping occurrences. */
  function Replace(s: string, pat: string, rep: string): string
    requires pat != []
    decreases |s|
  {
    if |s| < |pat| then s
    else if pat <= s then rep + Replace(s[|pat|..], pat, rep)
    else [s[0]] + Replace(s[1..], pat, rep)
  }

  lemma {:induction false} ReplaceAbsent(s: string, pat: string, rep: string)
    requires pat != [] && !HasSubstring(s, pat)
    ensures Replace(s, pat, rep) == s
    decreases |s|
  {
    if |s| >= |pat| {
      ReplaceAbsent(s[1..], pat, rep);
      assert s == [s[0]] + s[1..];
    }
  }

  /** `c in string.punctuation`: the 32 ASCII punctuation characters
      !"#$%&'()*+,-./:;<=>?@[\]^_`{|}~ */
  predicate IsPunctuation(c: char) {
    ('!' <= c <= '/') || (':' <= c <= '@') || ('[' <= c <= '`') || ('{' <= c <= '~')
  }

  /** The punctuation the `translate` step maps to a space: all but `/` and `&`. */
  predicate IsReplacedPunct(c: char) {
    IsPunctuation(c) && c != '/' && c != '&'
  }

  /** `s.translate(...)` with every replaced punctuation character mapped to a space. */
  function Translate(s: string): string {
    seq(|s|, i requires 0 <= i < |s| => if IsReplacedPunct(s[i]) then ' ' else s[i])
  }

  predicate IsSpaceChar(c: char) {
    c == ' '
  }

  /** `re.sub(r' +', ' ', s)` */
  function CollapseSpaces(s: string): string {
    CollapseRuns(s, IsSpaceChar)
  }

  /** The placeholder substitution of lines 50-53. */
  function Protect(s: string): string {
    var t := Replace(s, "C++", "C_PLUS_PLUS_TEMP");
    var t := Replace(t, "C#", "C_SHARP_TEMP");
    var t := Replace(t, "Pro/Engineer", "Pro_SLASH_Engineer_TEMP");
    Replace(t, "GD&T", "GD_AMPERSAND_T_TEMP")
  }

  /** The restoring replacements of lines 61-64. */
  function Restore(s: string): string {
    var t := Replace(s, "C_PLUS_PLUS_TEMP", "C++");
    var t := Replace(t, "C_SHARP_TEMP", "C#");
    var t := Replace(t, "Pro_SLASH_Engineer_TEMP", "Pro/Engineer");
    Replace(t, "GD_AMPERSAND_T_TEMP", "GD&T")
  }

  /** `normalize_punctuation_for_skills(text)` */
  function NormalizePunctuation(text: string): string {
    if text == [] then []
    else Strip(CollapseSpaces(Restore(Translate(Protect(text)))))
  }

  /** `translate` removes the underscore, so no placeholder survives it and every
      restoring replacement is a no-op. */
  lemma RestoreIsNoOp(s: string)
    ensures Restore(Translate(s)) == Translate(s)
  {
    var t := Translate(s);
    assert '_' !in t;
    AbsentWithoutChar(t, "C_PLUS_PLUS_TEMP", '_');
    AbsentWithoutChar(t, "C_SHARP_TEMP", '_');
    AbsentWithoutChar(t, "Pro_SLASH_Engineer_TEMP", '_');
    AbsentWithoutChar(t, "GD_AMPERSAND_T_TEMP", '_');
    ReplaceAbsent(t, "C_PLUS_PLUS_TEMP", "C++");
    ReplaceAbsent(t, "C_SHARP_TEMP", "C#");
    ReplaceAbsent(t, "Pro_SLASH_Engineer_TEMP", "Pro/Engineer");
    ReplaceAbsent(t, "GD_AMPERSAND_T_TEMP", "GD&T");
  }

  lemma SliceChars(s: string, a: nat, b: nat)
    requires a <= b <= |s|
    ensures forall c :: c in s[a..b] ==> c in s
  {
    assert s == s[..a] + s[a..b] + s[b..];
  }

  lemma TranslateNoPunct(s: string)
    ensures forall c :: c in Translate(s) ==> !IsReplacedPunct(c)
  {
    var t := Translate(s);
    forall c | c in t ensures !IsReplacedPunct(c) {
      var i :| 0 <= i < |t| && t[i] == c;
    }
  }

  /** So the restoring step can be skipped. */
  lemma NormalizeSkipsRestore(text: string)
    ensures text != [] ==> NormalizePunctuation(text) == Strip(CollapseSpaces(Translate(Protect(text))))
  {
    RestoreIsNoOp(Protect(text));
  }

  /** Collapsing and stripping keep a punctuation-free string punctuation-free and leave
      single spaces only, with nothing blank at either end. */
  lemma CollapseStripShape(t: string)
    requires forall c :: c in t ==> !IsReplacedPunct(c)
    ensures var r := Strip(CollapseSpaces(t));
      (forall c :: c in r ==> !IsReplacedPunct(c))
      && NoPair(r, ' ', ' ')
      && (r == [] || (!IsSpace(r[0]) && !IsSpace(r[|r| - 1])))
  {
    var c := CollapseSpaces(t);
    CollapseRunsShape(t, IsSpaceChar);
    CollapseRunsChars(t, IsSpaceChar);
    var a, b := StripSlice(c);
    NoPairSlice(c, ' ', ' ', a, b);
    SliceChars(c, a, b);
  }

  /** No punctuation other than `/` and `&` is left, no two spaces are adjacent, and nothing
      blank is at either end; empty input gives the empty string. */
  lemma NormalizePunctuationShape(text: string)
    ensures text == [] ==> NormalizePunctuation(text) == []
    ensures var r := NormalizePunctuation(text);
      (forall c :: c in r ==> !IsReplacedPunct(c))
      && NoPair(r, ' ', ' ')
      && (r == [] || (!IsSpace(r[0]) && !IsSpace(r[|r| - 1])))
  {
    if text != [] {
      NormalizeSkipsRestore(text);
      TranslateNoPunct(Protect(text));
      CollapseStripShape(Translate(Protect(text)));
    }
  }

  /** Every character of a collapsed string is a space or comes from the input. */
  lemma {:induction false} CollapseRunsChars(s: string, p: char -> bool)
    ensures forall c :: c in CollapseRuns(s, p) ==> c == ' ' || c in s
    decreases |s|
  {
    if s != [] {
      var k := if p(s[0]) then RunLen(s, p) else 1;
      CollapseRunsChars(s[k..], p);
      assert s == s[..k] + s[k..];
    }
  }

  /** Input that holds none of the protected tokens is the translated input, with space runs
      collapsed and stripped. */
  lemma NormalizeUnprotected(text: string)
    requires !HasSubstring(text, "C++") && !HasSubstring(text, "C#")
    requires !HasSubstring(text, "Pro/Engineer") && !HasSubstring(text, "GD&T")
    ensures NormalizePunctuation(text) == if text == [] then [] else Strip(CollapseSpaces(Translate(text)))
  {
    ReplaceAbsent(text, "C++", "C_PLUS_PLUS_TEMP");
    ReplaceAbsent(text, "C#", "C_SHARP_TEMP");
    ReplaceAbsent(text, "Pro/Engineer", "Pro_SLASH_Engineer_TEMP");
    ReplaceAbsent(text, "GD&T", "GD_AMPERSAND_T_TEMP");
    assert Protect(text) == text;
    NormalizeSkipsRestore(text);
  }

  lemma PlaceholderIsNotProtected(p: string)
    requires p == "C_PLUS_PLUS_TEMP"
    ensures Replace(Replace(Replace(p, "C#", "C_SHARP_TEMP"), "Pro/Engineer", "Pro_SLASH_Engineer_TEMP"),
                    "GD&T", "GD_AMPERSAND_T_TEMP") == p
  {
    AbsentWithoutChar(p, "C#", '#');
    AbsentWithoutChar(p, "Pro/Engineer", '/');
    AbsentWithoutChar(p, "GD&T", '&');
    ReplaceAbsent(p, "C#", "C_SHARP_TEMP");
    ReplaceAbsent(p, "Pro/Engineer", "Pro_SLASH_Engineer_TEMP");
    ReplaceAbsent(p, "GD&T", "GD_AMPERSAND_T_TEMP");
  }

  lemma ProtectCPlusPlus(s: string, p: string)
    requires s == "C++" && p == "C_PLUS_PLUS_TEMP"
    ensures Protect(s) == p
  {
    assert Replace(s, "C++", p) == p by {
      assert "C++" <= s;
      assert s[3..] == [];
      assert Replace([], "C++", p) == [];
    }
    PlaceholderIsNotProtected(p);
  }

  lemma TranslatePlaceholder(p: string, q: string)
    requires p == "C_PLUS_PLUS_TEMP" && q == "C PLUS PLUS TEMP"
    ensures Translate(p) == q
    ensures Strip(CollapseSpaces(q)) == q
  {
    TranslatePlusPlus(p, q);
    SettledPlusPlus(q);
    SettledText(q);
  }

  lemma TranslatePlusPlus(p: string, q: string)
    requires p == "C_PLUS_PLUS_TEMP" && q == "C PLUS PLUS TEMP"
    ensures Translate(p) == q
  {
  }

  lemma SettledPlusPlus(q: string)
    requires q == "C PLUS PLUS TEMP"
    ensures Settled(q)
  {
  }

  /** The protected `C++` does not come back: its placeholder is split at the underscores. */
  lemma CPlusPlusIsNotRestored(s: string, p: string, q: string)
    requires s == "C++" && p == "C_PLUS_PLUS_TEMP" && q == "C PLUS PLUS TEMP"
    ensures NormalizePunctuation(s) == q
  {
    NormalizeSkipsRestore(s);
    ProtectCPlusPlus(s, p);
    TranslatePlaceholder(p, q);
  }

  /** Collapsing space runs changes nothing where no two spaces are adjacent. */
  lemma {:induction false} CollapseSingleSpaces(s: string)
    requires NoPair(s, ' ', ' ')
    ensures CollapseSpaces(s) == s
    decreases |s|
  {
    if s != [] {
      if s[0] == ' ' {
        var k := RunLen(s, IsSpaceChar);
        if |s| > 1 {
          assert !(s[0] == ' ' && s[1] == ' ');
        }
        assert k == 1;
        NoPairSlice(s, ' ', ' ', 1, |s|);
        CollapseSingleSpaces(s[1..]);
        assert s == [' '] + s[1..];
      } else {
        NoPairSlice(s, ' ', ' ', 1, |s|);
        CollapseSingleSpaces(s[1..]);
        assert s == [s[0]] + s[1..];
      }
    }
  }

  /** A string already in the output shape, holding none of the protected tokens, is left
      as it is. */
  lemma NormalizeFixedPoint(r: string)
    requires forall c :: c in r ==> !IsReplacedPunct(c)
    requires NoPair(r, ' ', ' ') && (r == [] || (!IsSpace(r[0]) && !IsSpace(r[|r| - 1])))
    requires !HasSubstring(r, "Pro/Engineer") && !HasSubstring(r, "GD&T")
    ensures NormalizePunctuation(r) == r
  {
    NoPunctNoCTokens(r);
    NormalizeUnprotected(r);
    if r != [] {
      ShapedIsFixed(r);
    }
  }

  /** `C++` and `C#` need punctuation that the output never holds. */
  lemma NoPunctNoCTokens(r: string)
    requires forall c :: c in r ==> !IsReplacedPunct(c)
    ensures !HasSubstring(r, "C++") && !HasSubstring(r, "C#")
  {
    if HasSubstring(r, "C++") {
      SubstringChars(r, "C++", '+');
      assert IsReplacedPunct('+');
    }
    if HasSubstring(r, "C#") {
      SubstringChars(r, "C#", '#');
      assert IsReplacedPunct('#');
    }
  }

  lemma ShapedIsFixed(r: string)
    requires forall c :: c in r ==> !IsReplacedPunct(c)
    requires NoPair(r, ' ', ' ') && (r == [] || (!IsSpace(r[0]) && !IsSpace(r[|r| - 1])))
    ensures Strip(CollapseSpaces(Translate(r))) == r
  {
    assert forall i :: 0 <= i < |r| ==> r[i] in r;
    assert Translate(r) == r;
    CollapseSingleSpaces(r);
    assert LStrip(r) == r;
    assert RStrip(r) == r;
  }

  /** What `normalize_punctuation_for_skills` returns is a fixed point of it as long as it
      holds none of the protected tokens (`C++` and `C#` cannot be left, having no `+` or `#`).
      Without that condition a second pass can differ: `translate` may turn a placeholder
      into text that ends a protected token, as in `GD&Tro/Engineer`. */
  lemma NormalizeIdempotent(text: string)
    requires !HasSubstring(NormalizePunctuation(text), "Pro/Engineer")
    requires !HasSubstring(NormalizePunctuation(text), "GD&T")
    ensures NormalizePunctuation(NormalizePunctuation(text)) == NormalizePunctuation(text)
  {
    NormalizePunctuationShape(text);
    NormalizeFixedPoint(NormalizePunctuation(text));
  }

  /** A prefix holding no first character of the pattern is copied over unchanged. */
  lemma {:induction false} ReplaceSkip(x: string, y: string, pat: string, rep: string)
    requires pat != [] && pat[0] !in x
    ensures Replace(x + y, pat, rep) == x + Replace(y, pat, rep)
    decreases |x|
  {
    var s := x + y;
    if x == [] {
      assert s == y;
    } else if |s| >= |pat| {
      assert s[0] == x[0] != pat[0];
      assert !(pat <= s);
      assert s[1..] == x[1..] + y;
      ReplaceSkip(x[1..], y, pat, rep);
      assert x == [x[0]] + x[1..];
    } else {
      assert Replace(y, pat, rep) == y;
    }
  }

  /** One occurrence of the pattern, with no other: the prefix is kept and the occurrence replaced. */
  lemma ReplaceOne(x: string, pat: string, y: string, rep: string, c: char)
    requires pat != [] && pat[0] !in x && c in pat && c !in y
    ensures Replace(x + pat + y, pat, rep) == x + rep + y
  {
    assert x + pat + y == x + (pat + y);
    ReplaceSkip(x, pat + y, pat, rep);
    assert pat <= pat + y && (pat + y)[|pat|..] == y;
    AbsentWithoutChar(y, pat, c);
    ReplaceAbsent(y, pat, rep);
  }

  /** The output shape: non-empty, single spaces only, nothing blank at either end. */
  predicate Settled(q: string) {
    NoPair(q, ' ', ' ') && q != [] && !IsSpace(q[0]) && !IsSpace(q[|q| - 1])
  }

  /** A string already in the output shape is its own collapsed, stripped form. */
  lemma SettledText(q: string)
    requires Settled(q)
    ensures Strip(CollapseSpaces(q)) == q
  {
    CollapseSingleSpaces(q);
    assert LStrip(q) == q;
    assert RStrip(q) == q;
  }

  lemma TranslateConcat(a: string, b: string)
    ensures Translate(a + b) == Translate(a) + Translate(b)
  {
  }

  /** A replacement whose pattern holds a character the string lacks changes nothing. */
  lemma ReplaceWithout(s: string, pat: string, rep: string, c: char)
    requires pat != [] && c in pat && c !in s
    ensures Replace(s, pat, rep) == s
  {
    AbsentWithoutChar(s, pat, c);
    ReplaceAbsent(s, pat, rep);
  }

  /** A text whose protected, translated form is already settled normalises to that form. */
  lemma NormalizeSettled(s: string, q: string)
    requires s != [] && Translate(Protect(s)) == q && Settled(q)
    ensures NormalizePunctuation(s) == q
  {
    NormalizeSkipsRestore(s);
    SettledText(q);
  }

  /** One character that does not start the pattern is copied. */
  lemma ReplaceStep(c: char, y: string, pat: string, rep: string)
    requires pat != [] && !(pat <= [c] + y)
    ensures Replace([c] + y, pat, rep) == [c] + Replace(y, pat, rep)
  {
    var s := [c] + y;
    assert s[1..] == y;
  }

  /** The pattern occurs once, at the end, after a prefix that holds its first character
      only at one place where the pattern does not start. */
  lemma ReplaceAfterMiddle(y1: string, y2: string, pat: string, rep: string)
    requires |pat| > 1 && pat[0] !in y1 && pat[0] !in y2 && y2 != [] && y2[0] != pat[1]
    ensures Replace(y1 + [pat[0]] + y2 + pat, pat, rep) == y1 + [pat[0]] + y2 + rep
  {
    var m := [pat[0]] + (y2 + pat);
    assert y1 + [pat[0]] + y2 + pat == y1 + m;
    ReplaceSkip(y1, m, pat, rep);
    assert m[1] == y2[0];
    ReplaceStep(pat[0], y2 + pat, pat, rep);
    assert y2 + pat + [] == y2 + pat;
    ReplaceOne(y2, pat, [], rep, pat[0]);
    assert y2 + rep + [] == y2 + rep;
    assert y1 + ([pat[0]] + (y2 + rep)) == y1 + [pat[0]] + y2 + rep;
  }

  /** `GD&Tro/Engineer` in pieces: `GD&T`, then `ro/Engineer`; and the `GD&T` placeholder
      split at its two `P`s. */
  lemma FirstPieces(s: string, x: string, u1: string, u2: string)
    requires s == "GD&Tro/Engineer" && x == "ro/Engineer" && u1 == "GD_AM" && u2 == "ERSAND_T_TEM"
    ensures s == "GD&T" + x && "GD_AMPERSAND_T_TEMP" == u1 + "P" + u2 + "P" && "P" + x == "Pro/Engineer"
  {
  }

  lemma InputChars(s: string, x: string)
    requires s == "GD&Tro/Engineer" && x == "ro/Engineer"
    ensures '+' !in s && '#' !in s && 'P' !in s
    ensures '+' !in x && '#' !in x && '&' !in x
  {
  }

  lemma PieceChars(y1: string, y2: string)
    requires y1 == "GD AM" && y2 == "ERSAND T TEM"
    ensures '+' !in y1 && '#' !in y1 && '&' !in y1 && 'P' !in y1
    ensures '+' !in y2 && '#' !in y2 && '&' !in y2 && 'P' !in y2 && y2[0] != 'r'
  {
  }

  lemma PieceTranslate(x: string, y1: string, y2: string, u1: string, u2: string)
    requires x == "ro/Engineer" && y1 == "GD AM" && y2 == "ERSAND T TEM" && u1 == "GD_AM" && u2 == "ERSAND_T_TEM"
    ensures Translate(x) == x && Translate(y1) == y1 && Translate(y2) == y2 && Translate("P") == "P"
    ensures Translate(u1) == y1 && Translate(u2) == y2
  {
  }

  /** The `Pro/Engineer` placeholder has no `&` and `translate` splits it into words. */
  lemma PlaceholderSlash(b: string, c: string)
    requires b == "Pro_SLASH_Engineer_TEMP" && c == "Pro SLASH Engineer TEMP"
    ensures '&' !in b && Translate(b) == c
  {
  }

  lemma SettledFirst(x: string, y1: string, y2: string)
    requires x == "ro/Engineer" && y1 == "GD AM" && y2 == "ERSAND T TEM"
    ensures Settled(y1 + "P" + y2 + "P" + x)
  {
  }

  lemma SettledSecond(y1: string, y2: string, c: string)
    requires y1 == "GD AM" && y2 == "ERSAND T TEM" && c == "Pro SLASH Engineer TEMP"
    ensures Settled(y1 + "P" + y2 + c)
  {
  }

  /** The first pass: only the `GD&T` at the front is protected, so the result ends with
      the placeholder's `TEMP` followed by `ro/Engineer`. */
  lemma FirstPass(s: string, x: string, y1: string, y2: string, u1: string, u2: string)
    requires s == "GD&T" + x && "GD_AMPERSAND_T_TEMP" == u1 + "P" + u2 + "P"
    requires '+' !in s && '#' !in s && 'P' !in s && '&' !in x
    requires Translate(u1) == y1 && Translate(u2) == y2 && Translate(x) == x && Translate("P") == "P"
    requires Settled(y1 + "P" + y2 + "P" + x)
    ensures NormalizePunctuation(s) == y1 + "P" + y2 + "P" + x
  {
    ReplaceWithout(s, "C++", "C_PLUS_PLUS_TEMP", '+');
    ReplaceWithout(s, "C#", "C_SHARP_TEMP", '#');
    ReplaceWithout(s, "Pro/Engineer", "Pro_SLASH_Engineer_TEMP", 'P');
    assert s == [] + "GD&T" + x;
    ReplaceOne([], "GD&T", x, "GD_AMPERSAND_T_TEMP", '&');
    var p := u1 + "P" + u2 + "P" + x;
    assert Protect(s) == p;
    TranslateConcat(u1, "P");
    TranslateConcat(u1 + "P", u2);
    TranslateConcat(u1 + "P" + u2, "P");
    TranslateConcat(u1 + "P" + u2 + "P", x);
    NormalizeSettled(s, y1 + "P" + y2 + "P" + x);
  }

  /** The second pass protects the `Pro/Engineer` that the first pass left: the `P` of
      `AMPERSAND` does not start it. */
  lemma ProtectTwice(x: string, y1: string, y2: string, b: string)
    requires "P" + x == "Pro/Engineer" && b == "Pro_SLASH_Engineer_TEMP" && '&' !in b
    requires '+' !in x && '#' !in x && '&' !in x
    requires '+' !in y1 && '#' !in y1 && '&' !in y1 && 'P' !in y1
    requires '+' !in y2 && '#' !in y2 && '&' !in y2 && 'P' !in y2 && y2 != [] && y2[0] != 'r'
    ensures Protect(y1 + "P" + y2 + "P" + x) == y1 + "P" + y2 + b
  {
    var q := y1 + "P" + y2 + "P" + x;
    var pat := "Pro/Engineer";
    assert q == y1 + [pat[0]] + y2 + pat;
    ReplaceWithout(q, "C++", "C_PLUS_PLUS_TEMP", '+');
    ReplaceWithout(q, "C#", "C_SHARP_TEMP", '#');
    ReplaceAfterMiddle(y1, y2, pat, b);
    ReplaceWithout(y1 + "P" + y2 + b, "GD&T", "GD_AMPERSAND_T_TEMP", '&');
  }

  /** The second pass turns that `Pro/Engineer` into words. */
  lemma SecondPass(x: string, y1: string, y2: string, b: string, c: string)
    requires "P" + x == "Pro/Engineer" && b == "Pro_SLASH_Engineer_TEMP" && '&' !in b
    requires '+' !in x && '#' !in x && '&' !in x
    requires '+' !in y1 && '#' !in y1 && '&' !in y1 && 'P' !in y1
    requires '+' !in y2 && '#' !in y2 && '&' !in y2 && 'P' !in y2 && y2 != [] && y2[0] != 'r'
    requires Translate(y1) == y1 && Translate(y2) == y2 && Translate("P") == "P" && Translate(b) == c
    requires Settled(y1 + "P" + y2 + c)
    ensures NormalizePunctuation(y1 + "P" + y2 + "P" + x) == y1 + "P" + y2 + c
  {
    ProtectTwice(x, y1, y2, b);
    TranslateConcat(y1, "P");
    TranslateConcat(y1 + "P", y2);
    TranslateConcat(y1 + "P" + y2, b);
    NormalizeSettled(y1 + "P" + y2 + "P" + x, y1 + "P" + y2 + c);
  }

  /** `normalize_punctuation_for_skills` is not idempotent: the first pass over
      `GD&Tro/Engineer` gives `GD AMPERSAND T TEMPro/Engineer`, whose `Pro/Engineer` a second
      pass turns into `Pro SLASH Engineer TEMP`. */
  lemma NormalizeNotIdempotent(s: string)
    requires s == "GD&Tro/Engineer"
    ensures NormalizePunctuation(NormalizePunctuation(s)) != NormalizePunctuation(s)
  {
    var x, y1, y2, u1, u2 := "ro/Engineer", "GD AM", "ERSAND T TEM", "GD_AM", "ERSAND_T_TEM";
    var b, c := "Pro_SLASH_Engineer_TEMP", "Pro SLASH Engineer TEMP";
    FirstPieces(s, x, u1, u2);
    InputChars(s, x);
    PieceChars(y1, y2);
    PieceTranslate(x, y1, y2, u1, u2);
    PlaceholderSlash(b, c);
    SettledFirst(x, y1, y2);
    SettledSecond(y1, y2, c);
    FirstPass(s, x, y1, y2, u1, u2);
    SecondPass(x, y1, y2, b, c);
    assert |c| != |"P" + x|;
  }


}
