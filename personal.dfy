/**
 * `extract_personal_info` (app/cv/info_extractor.py, lines 332-425): the
 * contact block of a résumé.  The result has exactly the keys of the source's
 * dictionary (name, email, phone, location and the three links), so it never
 * carries a country.
 */
module Personal {
  import opened Wrappers
  import opened Text
  import opened Patterns
  import opened Contacts
  import opened Names
  import opened Location

  datatype Links = Links(github: Option<string>, linkedin: Option<string>, website: Option<string>)

  datatype PersonalInfo = PersonalInfo(
    name: Option<string>,
    email: Option<string>,
    phone: Option<string>,
    location: Option<string>,
    links: Links)

  /** The name the heading lines give, as `extract_name` finds it. */
  function HeadingName(text: string): Option<string> {
    NameIn(Take(SplitOn(text, '\n'), 15))
  }

  /** The email-derived name stands in only for a missing (or empty) heading name, and only when an email was found. */
  function ChosenName(found: Option<string>, email: Option<string>): Option<string> {
    if !Truthy(found) && Truthy(email) then NameFromEmail(email.value) else found
  }

  /** What `extract_personal_info` returns for `text`. */
  function PersonalInfoOf(text: string): PersonalInfo {
    var email := Email(text);
    PersonalInfo(
      ChosenName(HeadingName(text), email),
      email,
      Phone(text),
      LocationOf(text),
      Links(GithubHandle(text), LinkedIn(text), Website(text)))
  }

  // ---------------------------------------------------------------------------
  // The name: heading lines first, the email address second
  // ---------------------------------------------------------------------------

  /** An email match is never empty, so a found email always counts as present. */
  lemma EmailNotEmpty(text: string)
    ensures Email(text).Some? ==> |Email(text).value| >= 5
  {
    if Email(text).Some? {
      var m := Search(EmailRe, text).value;
      var a, d :| m.start < a && a + 1 < d && d + 3 <= m.end && text[a] == '@' && text[d] == '.'
        && AllIn(EmailLocal, text, m.start, a) && AllIn(EmailDomain, text, a + 1, d)
        && AllIn(EmailTld, text, d + 1, m.end);
    }
  }

  /**
   * Where the name field comes from: the heading name whenever it is present
   * or no email was found, and otherwise the name made from the email address.
   */
  lemma NameSource(text: string)
    ensures Truthy(HeadingName(text)) ==> PersonalInfoOf(text).name == HeadingName(text)
    ensures Email(text).None? ==> PersonalInfoOf(text).name == HeadingName(text)
    ensures !Truthy(HeadingName(text)) && Email(text).Some? ==>
      PersonalInfoOf(text).name == NameFromEmail(Email(text).value)
  {
    EmailNotEmpty(text);
  }

  /** A name that differs from the heading name was made from the address the email field reports. */
  lemma EmailNameIsFallback(text: string)
    ensures PersonalInfoOf(text).name != HeadingName(text) ==>
      !Truthy(HeadingName(text)) && PersonalInfoOf(text).email.Some?
      && PersonalInfoOf(text).name == NameFromEmail(PersonalInfoOf(text).email.value)
      && (PersonalInfoOf(text).name.Some? ==> '@' !in PersonalInfoOf(text).name.value)
  {
    NameSource(text);
    var info := PersonalInfoOf(text);
    if info.name != HeadingName(text) && info.name.Some? {
      var n := info.name.value;
      assert forall k :: 0 <= k < |n| ==> n[k] != '@';
    }
  }

  // ---------------------------------------------------------------------------
  // The LinkedIn link split over two lines
  // ---------------------------------------------------------------------------

  const LinkedInPath: string := "linkedin.com/in/"

  /** Position `h` of `s` follows `linkedin.com/in/` (any case) and holds a `[\w-]` character. */
  predicate AnchorAt(s: string, h: nat) {
    16 <= h < |s| && LitAt(s, h - 16, LinkedInPath, true) && InClass(WordOrDash, s[h])
  }

  /** An anchor starts a LinkedIn match. */
  lemma MatchOfAnchor(s: string, h: nat)
    requires AnchorAt(s, h)
    ensures Lang(LinkedInRe, s, h - 16, h + 1)
  {
    var g := h - 16;
    assert Lang(Opt(Scheme(true)), s, g, g);
    assert Lang(Opt(Lit("www.", true)), s, g, g);
    assert Lang(Lit(LinkedInPath, true), s, g, h);
    assert Lang(Cat(Opt(Lit("www.", true)), Lit(LinkedInPath, true)), s, g, h);
    assert Lang(LinkedInPrefix, s, g, h);
    assert Lang(HandleRun, s, h, h + 1);
  }

  /** Every LinkedIn link found in a string sits on an anchor. */
  lemma AnchorOfLink(s: string) returns (h: nat)
    requires LinkedIn(s).Some?
    ensures AnchorAt(s, h)
  {
    var m := Search(LinkedInRe, s).value;
    h :| m.start + 16 <= h < m.end && LitAt(s, h - 16, LinkedInPath, true) && AllIn(WordOrDash, s, h, m.end);
  }

  /** An anchor of a slice of `t` is an anchor of `t`. */
  lemma AnchorInside(u: string, t: string, a: nat, h: nat)
    requires a + |u| <= |t| && t[a..a + |u|] == u && AnchorAt(u, h)
    ensures AnchorAt(t, a + h)
  {
    SliceOfSlice(u, t, a, h - 16, h);
    assert t[a + h] == t[a..a + |u|][h];
  }

  /** `linkedin.com/in/` has no `-`. */
  lemma PathHasNoDash(k: nat)
    requires k < 16
    ensures LinkedInPath[k] != '-'
  {
  }

  /**
   * An anchor of `cur + next`, where `cur` ends with `-`, is an anchor of `cur`
   * or of `next`: the path cannot run across the `-`.
   */
  lemma AnchorOfJoin(cur: string, next: string, h: nat) returns (inCur: bool, h2: nat)
    requires EndsWith(cur, '-') && AnchorAt(cur + next, h)
    ensures inCur ==> AnchorAt(cur, h2)
    ensures !inCur ==> AnchorAt(next, h2)
  {
    var s := cur + next;
    var n := |cur|;
    if h < n {
      inCur, h2 := true, h;
      assert s[..n] == cur;
      SliceOfSlice(cur, s, 0, h - 16, h);
      assert s[h] == cur[h];
    } else if n <= h - 16 {
      inCur, h2 := false, h - n;
      assert s[n..n + |next|] == next;
      SliceOfSlice(next, s, n, h2 - 16, h2);
      assert s[h] == next[h2];
    } else {
      var k := n - 1 - (h - 16);
      assert Fold(s[h - 16..h])[k] == LowerChar(s[n - 1]);
      assert s[n - 1] == cur[n - 1] == '-';
      PathHasNoDash(k);
      assert false;
    }
  }

  /**
   * When `text` holds no LinkedIn link, gluing a stripped line that ends with
   * `-` to another line of `text` does not make one either.
   */
  lemma JoinedNoMatch(text: string, cur: string, oc: nat, next: string, on: nat)
    requires LinkedIn(text).None?
    requires oc + |cur| <= |text| && text[oc..oc + |cur|] == cur && EndsWith(cur, '-')
    requires on + |next| <= |text| && text[on..on + |next|] == next
    ensures LinkedIn(cur + next).None?
  {
    if LinkedIn(cur + next).Some? {
      var h := AnchorOfLink(cur + next);
      var g := AnchorInText(text, cur, oc, next, on, h);
      MatchOfAnchor(text, g);
    }
  }

  lemma AnchorInText(text: string, cur: string, oc: nat, next: string, on: nat, h: nat) returns (g: nat)
    requires oc + |cur| <= |text| && text[oc..oc + |cur|] == cur && EndsWith(cur, '-')
    requires on + |next| <= |text| && text[on..on + |next|] == next
    requires AnchorAt(cur + next, h)
    ensures AnchorAt(text, g)
  {
    var inCur, h2 := AnchorOfJoin(cur, next, h);
    if inCur {
      AnchorInside(cur, text, oc, h2);
      g := oc + h2;
    } else {
      AnchorInside(next, text, on, h2);
      g := on + h2;
    }
  }

  /** Line `k` of `text`, stripped, is a slice of `text`. */
  lemma StrippedLine(text: string, lines: seq<string>, k: nat, line: string) returns (o: nat)
    requires lines == SplitOn(text, '\n') && k < |lines| && line == Strip(lines[k])
    ensures o + |line| <= |text| && text[o..o + |line|] == line
  {
    var a := SplitOnSlice(text, '\n', k);
    o := StripInside(lines[k], text, a);
  }

  lemma StripInside(raw: string, text: string, a: nat) returns (o: nat)
    requires a + |raw| <= |text| && text[a..a + |raw|] == raw
    ensures o + |Strip(raw)| <= |text| && text[o..o + |Strip(raw)|] == Strip(raw)
  {
    var p, q := StripSlice(raw);
    o := a + p;
    SliceOfSlice(raw, text, a, p, q);
  }

  /** One glued attempt of the loop below finds nothing when the direct search found nothing. */
  lemma JoinedLinesNoMatch(text: string, lines: seq<string>, i: nat, j: nat, cur: string, next: string)
    requires lines == SplitOn(text, '\n') && i < |lines| && j < |lines|
    requires cur == Strip(lines[i]) && next == Strip(lines[j]) && EndsWith(cur, '-')
    ensures LinkedIn(text).None? ==> LinkedIn(cur + next).None?
  {
    if LinkedIn(text).None? {
      var oc := StrippedLine(text, lines, i, cur);
      var on := StrippedLine(text, lines, j, next);
      JoinedNoMatch(text, cur, oc, next, on);
    }
  }

  /**
   * The second LinkedIn attempt (lines 392-413): a stripped line holding
   * `linkedin.com/in/` and ending with `-` is glued to one of the next two
   * lines that is not a short all-capitals heading and looks like a link
   * continuation, and the glued line is searched.  It can only be reached
   * when the direct search failed, and then it finds nothing either.
   */
  method JoinedLinkedIn(text: string) returns (link: Option<string>)
    ensures LinkedIn(text).None? ==> link.None?
  {
    var lines := SplitOn(text, '\n');
    link := None;
    var i := 0;
    while i < |lines| - 2
      invariant 0 <= i
      invariant LinkedIn(text).None? ==> link.None?
    {
      var cur := Strip(lines[i]);
      if HasSubstring(Lower(cur), LinkedInPath) && EndsWith(cur, '-') {
        var hi := if i + 3 < |lines| then i + 3 else |lines|;
        var j := i + 1;
        while j < hi
          invariant LinkedIn(text).None? ==> link.None?
        {
          var next := Strip(lines[j]);
          var heading := IsUpperStr(next) && |next| < 20;
          if !heading && next != [] && |next| < 50 && InClass(WordOrDash, next[0]) {
            var found := LinkedIn(cur + next);
            JoinedLinesNoMatch(text, lines, i, j, cur, next);
            if found.Some? {
              link := found;
              break;
            }
          }
          j := j + 1;
        }
        if Truthy(link) {
          break;
        }
      }
      i := i + 1;
    }
  }

  // ---------------------------------------------------------------------------
  // extract_personal_info
  // ---------------------------------------------------------------------------

  /** `extract_personal_info`, field by field in the order of the source. */
  method ExtractPersonalInfo(text: string) returns (info: PersonalInfo)
    ensures info == PersonalInfoOf(text)
  {
    var email := Email(text);
    var name := ExtractName(text);
    if !Truthy(name) && Truthy(email) {
      name := NameFromEmail(email.value);
    }
    var location := ExtractLocation(text);
    var phone := Phone(text);
    var github := GithubHandle(text);
    var linkedin := LinkedIn(text);
    if linkedin.None? {
      linkedin := JoinedLinkedIn(text);
    }
    var website := Website(text);
    info := PersonalInfo(name, email, phone, location, Links(github, linkedin, website));
  }
}
