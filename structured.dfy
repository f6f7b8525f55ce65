/**
 * `extract_structured_info` (app/cv/advanced_ai_extractor.py, lines 27-93):
 * the personal block, the skills and a short summary, each computed on its
 * own so that a failing step only affects its own field.
 */
module Structured {
  import opened Wrappers
  import opened Text
  import opened Order
  import opened Personal
  import Skills

  // ---------------------------------------------------------------------------
  // The summary heuristic (lines 66-91)
  // ---------------------------------------------------------------------------

  /** The section keywords of line 74, in their order there. */
  const Keywords: seq<string> := ["hakkımda", "about", "summary", "özgeçmiş", "profil"]

  /** One of the section keywords occurs in `l`. */
  predicate HasKeyword(l: string) {
    exists kw :: kw in Keywords && HasSubstring(l, kw)
  }

  /** The test of line 74, on `line.lower().strip()`. */
  predicate IsKeywordLine(line: string) {
    HasKeyword(Strip(Lower(line)))
  }

  function Min(a: int, b: int): int {
    if a < b then a else b
  }

  /** The first index in `i..bound` whose line satisfies `p`. */
  function FirstWhere(lines: seq<string>, p: string -> bool, i: nat, bound: nat): (r: Option<nat>)
    requires i <= bound <= |lines|
    ensures r.Some? ==>
      i <= r.value < bound && p(lines[r.value])
      && forall q :: i <= q < r.value ==> !p(lines[q])
    ensures r.None? ==> forall q :: i <= q < bound ==> !p(lines[q])
    decreases bound - i
  {
    if i == bound then None
    else if p(lines[i]) then Some(i)
    else FirstWhere(lines, p, i + 1, bound)
  }

  /** The keyword line the loop of lines 72-82 stops at. */
  function KeywordLine(lines: seq<string>): (r: Option<nat>)
    ensures r.Some? ==> r.value < 50 && r.value < |lines|
  {
    FirstWhere(lines, IsKeywordLine, 0, Min(50, |lines|))
  }

  /** The keyword line is the first of the first 50 lines that passes the keyword test; there is none when no such line does. */
  lemma KeywordLineIsFirst(lines: seq<string>)
    ensures KeywordLine(lines).Some? ==>
      IsKeywordLine(lines[KeywordLine(lines).value])
      && forall q :: 0 <= q < KeywordLine(lines).value ==> !IsKeywordLine(lines[q])
    ensures KeywordLine(lines).None? ==> forall q :: 0 <= q < |lines| && q < 50 ==> !IsKeywordLine(lines[q])
  {
    var r := FirstWhere(lines, IsKeywordLine, 0, Min(50, |lines|));
    assert r == KeywordLine(lines);
  }

  /** `[f(l) for l in ls if f(l)]` */
  function Kept(ls: seq<string>, f: string -> string): seq<string> {
    if ls == [] then []
    else if f(ls[0]) != [] then [f(ls[0])] + Kept(ls[1..], f)
    else Kept(ls[1..], f)
  }

  /** The non-empty `f(l)` of `ls`, collected until there are `n` of them. */
  function KeptUpTo(ls: seq<string>, f: string -> string, n: nat): seq<string> {
    if ls == [] || n == 0 then []
    else if f(ls[0]) != [] then [f(ls[0])] + KeptUpTo(ls[1..], f, n - 1)
    else KeptUpTo(ls[1..], f, n)
  }

  /** The end of the stretch after keyword line `k`: `min(k + 11, len(lines))`. */
  function SectionEnd(lines: seq<string>, k: nat): nat {
    if k + 11 < |lines| then k + 11 else |lines|
  }

  /** The lines the summary is made of. */
  function SummaryLinesOf(lines: seq<string>): seq<string> {
    SummaryLinesFrom(lines, KeywordLine(lines))
  }

  /** The summary lines for keyword line `kw`: its section, or the first five lines when there is none. */
  function SummaryLinesFrom(lines: seq<string>, kw: Option<nat>): seq<string>
    requires kw.Some? ==> kw.value < |lines|
  {
    if kw.Some? then KeptUpTo(lines[kw.value + 1..SectionEnd(lines, kw.value)], Strip, 5)
    else if lines != [] then Kept(Take(lines, 5), Strip)
    else []
  }

  /** The `summary` field. */
  function SummaryOf(text: string): Option<string> {
    var ls := SummaryLinesOf(SplitOn(text, '\n'));
    if ls == [] then None else Some(Join(ls, " "))
  }

  /** Collecting until there are `n` is taking the first `n` of all that `Kept` keeps. */
  lemma {:induction false} KeptUpToIsTake(ls: seq<string>, f: string -> string, n: nat)
    ensures KeptUpTo(ls, f, n) == Take(Kept(ls, f), n)
    decreases |ls|
  {
    if ls != [] && n != 0 {
      KeptUpToIsTake(ls[1..], f, if f(ls[0]) != [] then n - 1 else n);
    }
  }

  /** `x` is `f` of one of `lines[lo..hi]`. */
  predicate MappedFrom(x: string, lines: seq<string>, f: string -> string, lo: nat, hi: nat)
    requires lo <= hi <= |lines|
  {
    exists j :: lo <= j < hi && x == f(lines[j])
  }

  /** Every line `Kept` keeps is non-empty and `f` of one of its input lines. */
  lemma {:induction false} KeptShape(ls: seq<string>, f: string -> string)
    ensures |Kept(ls, f)| <= |ls|
    ensures forall t :: 0 <= t < |Kept(ls, f)| ==> Kept(ls, f)[t] != [] && MappedFrom(Kept(ls, f)[t], ls, f, 0, |ls|)
    decreases |ls|
  {
    if ls != [] {
      KeptShape(ls[1..], f);
      var tail := Kept(ls[1..], f);
      if f(ls[0]) != [] {
        KeptHead(ls, f, tail);
      } else {
        forall t | 0 <= t < |tail|
          ensures MappedFrom(tail[t], ls, f, 0, |ls|)
        {
          FromRest(tail[t], ls, f);
        }
      }
    }
  }

  lemma KeptHead(ls: seq<string>, f: string -> string, tail: seq<string>)
    requires ls != [] && f(ls[0]) != [] && tail == Kept(ls[1..], f)
    requires forall t :: 0 <= t < |tail| ==> tail[t] != [] && MappedFrom(tail[t], ls[1..], f, 0, |ls| - 1)
    ensures forall t :: 0 <= t < |Kept(ls, f)| ==> Kept(ls, f)[t] != [] && MappedFrom(Kept(ls, f)[t], ls, f, 0, |ls|)
  {
    var r := [f(ls[0])] + tail;
    assert Kept(ls, f) == r;
    forall t | 0 <= t < |r|
      ensures r[t] != [] && MappedFrom(r[t], ls, f, 0, |ls|)
    {
      if t == 0 {
        assert MappedFrom(r[0], ls, f, 0, |ls|);
      } else {
        assert r[t] == tail[t - 1];
        FromRest(tail[t - 1], ls, f);
      }
    }
  }

  lemma FromRest(x: string, ls: seq<string>, f: string -> string)
    requires ls != [] && MappedFrom(x, ls[1..], f, 0, |ls| - 1)
    ensures MappedFrom(x, ls, f, 0, |ls|)
  {
    var j :| 0 <= j < |ls| - 1 && x == f(ls[1..][j]);
    assert x == f(ls[j + 1]);
  }

  /** `f` empties every one of `lines[lo..hi]`. */
  predicate AllEmptied(lines: seq<string>, f: string -> string, lo: nat, hi: nat)
    requires lo <= hi <= |lines|
  {
    forall j :: lo <= j < hi ==> f(lines[j]) == []
  }

  /** `Kept` keeps nothing exactly when `f` empties every line. */
  lemma {:induction false} KeptNone(ls: seq<string>, f: string -> string)
    ensures Kept(ls, f) == [] <==> AllEmptied(ls, f, 0, |ls|)
    decreases |ls|
  {
    if ls != [] && f(ls[0]) == [] {
      KeptNone(ls[1..], f);
      assert forall j :: 0 < j < |ls| ==> ls[j] == ls[1..][j - 1];
    }
  }

  lemma SliceEmptied(lines: seq<string>, f: string -> string, lo: nat, hi: nat)
    requires lo <= hi <= |lines|
    ensures AllEmptied(lines[lo..hi], f, 0, hi - lo) <==> AllEmptied(lines, f, lo, hi)
  {
    assert forall j :: lo <= j < hi ==> lines[j] == lines[lo..hi][j - lo];
  }

  /** What `KeptUpTo` collects: at most `n` lines, each non-empty and `f` of an input line; none exactly when every line is emptied. */
  lemma KeptUpToShape(ls: seq<string>, f: string -> string, n: nat)
    ensures |KeptUpTo(ls, f, n)| <= n
    ensures forall t :: 0 <= t < |KeptUpTo(ls, f, n)| ==>
      KeptUpTo(ls, f, n)[t] != [] && MappedFrom(KeptUpTo(ls, f, n)[t], ls, f, 0, |ls|)
    ensures n > 0 ==> (KeptUpTo(ls, f, n) == [] <==> AllEmptied(ls, f, 0, |ls|))
  {
    KeptUpToIsTake(ls, f, n);
    KeptShape(ls, f);
    KeptNone(ls, f);
    var all := Kept(ls, f);
    assert KeptUpTo(ls, f, n) == all[..|KeptUpTo(ls, f, n)|];
    if n > 0 && all != [] {
      assert KeptUpTo(ls, f, n)[0] == all[0];
    }
  }

  /** A line of `lines[lo..hi]`, by its index into `lines`. */
  lemma FromSlice(x: string, lines: seq<string>, f: string -> string, lo: nat, hi: nat)
    requires lo <= hi <= |lines| && MappedFrom(x, lines[lo..hi], f, 0, hi - lo)
    ensures MappedFrom(x, lines, f, lo, hi)
  {
    var j :| 0 <= j < hi - lo && x == f(lines[lo..hi][j]);
    assert x == f(lines[lo + j]);
  }

  /** Where the summary lines come from: the window after the keyword line, or else the first five lines. */
  function SourceStart(lines: seq<string>): nat {
    if KeywordLine(lines).Some? then KeywordLine(lines).value + 1 else 0
  }

  function SourceEnd(lines: seq<string>): (e: nat)
    ensures SourceStart(lines) <= e <= |lines|
  {
    if KeywordLine(lines).Some? then SectionEnd(lines, KeywordLine(lines).value) else Min(5, |lines|)
  }

  /**
   * What the summary is made of: at most five non-empty stripped lines, taken
   * from the ten lines after the keyword line when there is one, and from the
   * first five lines otherwise; none exactly when all of those are blank.
   */
  lemma SummaryLinesShape(lines: seq<string>)
    ensures |SummaryLinesOf(lines)| <= 5
    ensures forall t :: 0 <= t < |SummaryLinesOf(lines)| ==>
      SummaryLinesOf(lines)[t] != []
      && MappedFrom(SummaryLinesOf(lines)[t], lines, Strip, SourceStart(lines), SourceEnd(lines))
    ensures SummaryLinesOf(lines) == [] <==> AllEmptied(lines, Strip, SourceStart(lines), SourceEnd(lines))
  {
    var r := SummaryLinesOf(lines);
    var lo, hi := SourceStart(lines), SourceEnd(lines);
    var ls := lines[lo..hi];
    assert r == if KeywordLine(lines).Some? then KeptUpTo(ls, Strip, 5) else Kept(ls, Strip);
    RangeShape(lines, r, lo, hi, KeywordLine(lines).Some?);
  }

  lemma RangeShape(lines: seq<string>, r: seq<string>, lo: nat, hi: nat, section: bool)
    requires lo <= hi <= |lines|
    requires section ==> r == KeptUpTo(lines[lo..hi], Strip, 5)
    requires !section ==> hi - lo <= 5 && r == Kept(lines[lo..hi], Strip)
    ensures |r| <= 5
    ensures forall t :: 0 <= t < |r| ==> r[t] != [] && MappedFrom(r[t], lines, Strip, lo, hi)
    ensures r == [] <==> AllEmptied(lines, Strip, lo, hi)
  {
    var ls := lines[lo..hi];
    if section {
      KeptUpToShape(ls, Strip, 5);
    } else {
      KeptShape(ls, Strip);
      KeptNone(ls, Strip);
    }
    forall t | 0 <= t < |r|
      ensures r[t] != [] && MappedFrom(r[t], lines, Strip, lo, hi)
    {
      FromSlice(r[t], lines, Strip, lo, hi);
    }
    SliceEmptied(lines, Strip, lo, hi);
  }

  /**
   * The summary is `None` exactly when its source lines are all blank: the ten
   * lines after the keyword line when there is one (the first lines are then
   * not looked at), and the first five lines otherwise.
   */
  lemma SummaryNone(text: string)
    ensures var lines := SplitOn(text, '\n');
      SummaryOf(text).None? <==> AllEmptied(lines, Strip, SourceStart(lines), SourceEnd(lines))
  {
    SummaryLinesShape(SplitOn(text, '\n'));
  }

  /** A summary is one non-empty line: the collected lines hold no newline and neither does the separator. */
  lemma SummaryOneLine(text: string)
    ensures SummaryOf(text).Some? ==> SummaryOf(text).value != [] && '\n' !in SummaryOf(text).value
  {
    var lines := SplitOn(text, '\n');
    var r := SummaryLinesOf(lines);
    if r != [] {
      SummaryLinesShape(lines);
      NoNewlines(lines, r, SourceStart(lines), SourceEnd(lines));
      JoinAvoids(r, " ", '\n');
      JoinNotEmpty(r);
    }
  }

  lemma NoNewlines(lines: seq<string>, r: seq<string>, lo: nat, hi: nat)
    requires lo <= hi <= |lines|
    requires forall k :: 0 <= k < |lines| ==> '\n' !in lines[k]
    requires forall t :: 0 <= t < |r| ==> MappedFrom(r[t], lines, Strip, lo, hi)
    ensures forall t :: 0 <= t < |r| ==> '\n' !in r[t]
  {
    forall t | 0 <= t < |r|
      ensures '\n' !in r[t]
    {
      var j := MappedWitness(r[t], lines, Strip, lo, hi);
      StripKeepsOut(lines[j], '\n');
    }
  }

  lemma MappedWitness(x: string, lines: seq<string>, f: string -> string, lo: nat, hi: nat) returns (j: nat)
    requires lo <= hi <= |lines| && MappedFrom(x, lines, f, lo, hi)
    ensures lo <= j < hi && x == f(lines[j])
  {
    j :| lo <= j < hi && x == f(lines[j]);
  }

  lemma StripKeepsOut(s: string, c: char)
    requires c !in s
    ensures c !in Strip(s)
  {
    var a, b := StripSlice(s);
    assert forall k :: 0 <= k < |Strip(s)| ==> Strip(s)[k] == s[a + k];
  }

  lemma {:induction false} JoinAvoids(ws: seq<string>, sep: string, c: char)
    requires c !in sep && forall t :: 0 <= t < |ws| ==> c !in ws[t]
    ensures c !in Join(ws, sep)
  {
    if |ws| > 1 {
      JoinAvoids(ws[1..], sep, c);
      assert c !in ws[0];
    } else if |ws| == 1 {
      assert c !in ws[0];
    }
  }

  lemma JoinNotEmpty(ws: seq<string>)
    requires ws != [] && ws[0] != []
    ensures Join(ws, " ") != []
  {
    if |ws| > 1 {
      assert Join(ws, " ") == ws[0] + " " + Join(ws[1..], " ");
    }
  }

  /** `str.lower` makes a dotless ı only from a dotless ı. */
  lemma {:induction false} LowerDotless(s: string)
    requires 'ı' in Lower(s)
    ensures 'ı' in s
    decreases |s|
  {
    if s != [] {
      var head := if s[0] == 'İ' then "i\U{0307}" else [LowerChar(s[0])];
      assert Lower(s) == head + Lower(s[1..]);
      if 'ı' in Lower(s[1..]) {
        LowerDotless(s[1..]);
        assert forall c :: c in s[1..] ==> c in s;
      } else {
        assert 'ı' in head;
      }
    }
  }

  lemma StripKeepsIn(s: string, c: char)
    requires c in Strip(s)
    ensures c in s
  {
    if c !in s {
      StripKeepsOut(s, c);
    }
  }

  lemma DotlessInKeyword()
    ensures 'ı' in "hakkımda"
  {
    assert "hakkımda"[4] == 'ı';
  }

  /**
   * `hakkımda` is spelled with a dotless ı, and `lower()` sends the capital I
   * to a dotted i: a line triggers it only if it has a dotless ı of its own,
   * so a capitalised HAKKIMDA heading does not.
   */
  lemma HakkimdaNeedsDotless(line: string)
    requires HasSubstring(Strip(Lower(line)), "hakkımda")
    ensures 'ı' in line
  {
    var l := Lower(line);
    DotlessInKeyword();
    SubstringChars(Strip(l), "hakkımda", 'ı');
    StripKeepsIn(l, 'ı');
    LowerDotless(line);
  }

  /** One step of `KeptUpTo` over a suffix. */
  lemma KeptUpToStep(ls: seq<string>, f: string -> string, j: nat, n: nat)
    requires j < |ls| && n > 0
    ensures KeptUpTo(ls[j..], f, n) ==
      if f(ls[j]) != [] then [f(ls[j])] + KeptUpTo(ls[j + 1..], f, n - 1)
      else KeptUpTo(ls[j + 1..], f, n)
  {
    assert ls[j..][1..] == ls[j + 1..];
  }

  /** One line of the collecting loop: a non-empty `l == f(ls[j])` is appended, a blank one skipped. */
  lemma CollectStep(ls: seq<string>, f: string -> string, j: nat, l: string, acc: seq<string>, n: nat)
    requires j < |ls| && n > 0 && l == f(ls[j])
    ensures l != [] ==> acc + KeptUpTo(ls[j..], f, n) == (acc + [l]) + KeptUpTo(ls[j + 1..], f, n - 1)
    ensures l == [] ==> KeptUpTo(ls[j..], f, n) == KeptUpTo(ls[j + 1..], f, n)
  {
    KeptUpToStep(ls, f, j, n);
    if l != [] {
      var rest := KeptUpTo(ls[j + 1..], f, n - 1);
      assert acc + ([l] + rest) == (acc + [l]) + rest;
    }
  }

  /**
   * Lines 76-80: collect the non-empty `clean(line)` of the lines after keyword
   * line `i`, stopping at five; the source's `clean` is `strip()`.
   */
  method CollectSection(lines: seq<string>, i: nat, clean: string -> string) returns (summaryLines: seq<string>)
    requires i < |lines|
    ensures summaryLines == KeptUpTo(lines[i + 1..SectionEnd(lines, i)], clean, 5)
  {
    var hi := SectionEnd(lines, i);
    ghost var window := lines[..hi];
    ghost var total := KeptUpTo(lines[i + 1..hi], clean, 5);
    assert window[i + 1..] == lines[i + 1..hi];
    summaryLines := [];
    var j := i + 1;
    while j < hi
      invariant i + 1 <= j <= hi
      invariant |summaryLines| < 5
      invariant summaryLines + KeptUpTo(window[j..], clean, 5 - |summaryLines|) == total
    {
      var l := clean(lines[j]);
      assert window[j] == lines[j];
      CollectStep(window, clean, j, l, summaryLines, 5 - |summaryLines|);
      if l != [] {
        summaryLines := summaryLines + [l];
        if |summaryLines| >= 5 {
          assert KeptUpTo(window[j + 1..], clean, 0) == [];
          break;
        }
      }
      j := j + 1;
    }
    assert j == hi ==> window[j..] == [];
  }

  /** The summary lines when line `k` is the keyword line. */
  lemma SummaryAtKeyword(lines: seq<string>, kw: Option<nat>, k: nat)
    requires k < |lines| && kw == Some(k)
    ensures SummaryLinesFrom(lines, kw) == KeptUpTo(lines[k + 1..SectionEnd(lines, k)], Strip, 5)
  {
  }

  /** The summary lines when no keyword line was found. */
  lemma SummaryWithoutKeyword(lines: seq<string>, kw: Option<nat>)
    requires kw.None?
    ensures SummaryLinesFrom(lines, kw) == if lines != [] then Kept(Take(lines, 5), Strip) else []
  {
  }

  /** Lines 68-86: the keyword section if there is a keyword line, the first lines otherwise. */
  method SummaryLines(lines: seq<string>) returns (summaryLines: seq<string>)
    ensures summaryLines == SummaryLinesOf(lines)
  {
    ghost var kw := KeywordLine(lines);
    assert SummaryLinesOf(lines) == SummaryLinesFrom(lines, kw);
    summaryLines := [];
    var foundSummary := false;
    var head := Take(lines, 50);
    var i := 0;
    while i < |head|
      invariant 0 <= i <= |head|
      invariant FirstWhere(lines, IsKeywordLine, i, |head|) == kw
    {
      var lineLower := Strip(Lower(head[i]));
      if HasKeyword(lineLower) {
        assert IsKeywordLine(lines[i]);
        assert kw == Some(i);
        summaryLines := CollectSection(lines, i, Strip);
        foundSummary := true;
        break;
      }
      i := i + 1;
    }
    if !foundSummary && lines != [] {
      summaryLines := Kept(Take(lines, 5), Strip);
    }
    if foundSummary {
      SummaryAtKeyword(lines, kw, i);
    } else {
      SummaryWithoutKeyword(lines, kw);
    }
  }

  /** Lines 66-88: the `summary` field. */
  method ExtractSummary(text: string) returns (summary: Option<string>)
    ensures summary == SummaryOf(text)
  {
    var lines := SplitOn(text, '\n');
    var summaryLines := SummaryLines(lines);
    summary := if summaryLines != [] then Some(Join(summaryLines, " ")) else None;
  }

  // ---------------------------------------------------------------------------
  // The structured record
  // ---------------------------------------------------------------------------

  /** The `personal_info` dictionary of lines 47-54; `country` is read with `.get`. */
  datatype PersonalRecord = PersonalRecord(
    name: Option<string>,
    email: Option<string>,
    phone: Option<string>,
    location: Option<string>,
    country: Option<string>,
    links: Links)

  /**
   * The `structured` dictionary: `personal` is the `{"error": ...}` dictionary
   * when it is an `Err`; `skillsError` and `summaryError` stand for keys that may
   * be absent.
   */
  datatype StructuredInfo = StructuredInfo(
    personal: Result<PersonalRecord>,
    skills: seq<string>,
    skillsError: Option<string>,
    summary: Option<string>,
    summaryError: Option<string>)

  /** The `personal_info` entry: the fields of `extract_personal_info`, and no country, since it never sets one. */
  function RecordOf(info: PersonalInfo): (r: PersonalRecord)
    ensures r.country.None?
    ensures r.name == info.name && r.email == info.email && r.phone == info.phone
    ensures r.location == info.location && r.links == info.links
  {
    PersonalRecord(info.name, info.email, info.phone, info.location, None, info.links)
  }

  /**
   * `extract_structured_info(text)`, with the taxonomy `extract_skills` loads
   * passed in.  Each field depends only on its own step: the personal block
   * and the summary do not depend on the taxonomy, and a failing taxonomy load
   * empties the skills and records its message in `skillsError`.
   */
  method ExtractStructuredInfo(text: string, taxonomy: Result<Skills.Taxonomy>) returns (r: StructuredInfo)
    ensures r.personal == Ok(RecordOf(PersonalInfoOf(text)))
    ensures r.personal.Ok? && r.personal.value.country.None?
    ensures taxonomy.Ok? ==>
      r.skillsError.None? && StrictlySorted(r.skills)
      && forall s :: s in r.skills <==> s in Skills.SkillsOf(text, taxonomy.value)
    ensures taxonomy.Err? ==>
      r.skills == [] && r.skillsError == Some("Skills extraction hatası: " + taxonomy.message)
    ensures r.summary == SummaryOf(text) && r.summaryError.None?
  {
    var info := ExtractPersonalInfo(text);
    var personal := Ok(RecordOf(info));
    var found := Skills.ExtractSkills(text, taxonomy);
    var skills: seq<string>;
    var skillsError: Option<string>;
    if found.Ok? {
      skills, skillsError := found.value, None;
    } else {
      skills, skillsError := [], Some("Skills extraction hatası: " + found.message);
    }
    var summary := ExtractSummary(text);
    r := StructuredInfo(personal, skills, skillsError, summary, None);
  }
}
