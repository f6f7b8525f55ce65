/**
 * The contact patterns of `extract_personal_info` (app/cv/info_extractor.py,
 * lines 362-425), written as `Patterns.Re` values, and what a match of each is
 * guaranteed to look like.
 */
module Contacts {
  import opened Wrappers
  import opened Text
  import opened Patterns

  // ---------------------------------------------------------------------------
  // Email: \b[A-Za-z0-9._%+-]+@[A-Za-z0-9.-]+\.[A-Z|a-z]{2,}\b
  // ---------------------------------------------------------------------------

  const EmailTail: Re := Cat(Run(EmailTld, 2, None), Boundary)
  const EmailDot: Re := Cat(Run(Single('.'), 1, Some(1)), EmailTail)
  const EmailDomainPart: Re := Cat(Run(EmailDomain, 1, None), EmailDot)
  const EmailAt: Re := Cat(Run(Single('@'), 1, Some(1)), EmailDomainPart)
  const EmailBody: Re := Cat(Run(EmailLocal, 1, None), EmailAt)
  const EmailRe: Re := Cat(Boundary, EmailBody)

  /** `s[i:j]` is a local part, `@`, a domain, `.`, and at least two top-level-domain characters. */
  predicate EmailShapedAt(s: string, i: nat, j: nat)
    requires i <= j <= |s|
  {
    exists a, d :: i < a && a + 1 < d && d + 3 <= j && s[a] == '@' && s[d] == '.'
      && AllIn(EmailLocal, s, i, a) && AllIn(EmailDomain, s, a + 1, d) && AllIn(EmailTld, s, d + 1, j)
  }

  lemma EmailTailFacts(s: string, i: nat, j: nat)
    requires i <= j <= |s| && Lang(EmailTail, s, i, j)
    ensures i + 2 <= j && AllIn(EmailTld, s, i, j)
  {
    var m := CatSplit(Run(EmailTld, 2, None), Boundary, s, i, j);
    RunFacts(EmailTld, 2, None, s, i, m);
  }

  lemma EmailDotFacts(s: string, i: nat, j: nat)
    requires i <= j <= |s| && Lang(EmailDot, s, i, j)
    ensures i + 3 <= j && s[i] == '.' && AllIn(EmailTld, s, i + 1, j)
  {
    SingleThen('.', EmailTail, s, i, j);
    EmailTailFacts(s, i + 1, j);
  }

  lemma EmailDomainFacts(s: string, i: nat, j: nat) returns (d: nat)
    requires i <= j <= |s| && Lang(EmailDomainPart, s, i, j)
    ensures i < d && d + 3 <= j && s[d] == '.'
    ensures AllIn(EmailDomain, s, i, d) && AllIn(EmailTld, s, d + 1, j)
  {
    d := CatSplit(Run(EmailDomain, 1, None), EmailDot, s, i, j);
    RunFacts(EmailDomain, 1, None, s, i, d);
    EmailDotFacts(s, d, j);
  }

  lemma EmailAtFacts(s: string, i: nat, j: nat) returns (d: nat)
    requires i <= j <= |s| && Lang(EmailAt, s, i, j)
    ensures s[i] == '@' && i + 1 < d && d + 3 <= j && s[d] == '.'
    ensures AllIn(EmailDomain, s, i + 1, d) && AllIn(EmailTld, s, d + 1, j)
  {
    SingleThen('@', EmailDomainPart, s, i, j);
    d := EmailDomainFacts(s, i + 1, j);
  }

  lemma EmailMatchShape(s: string, i: nat, j: nat)
    requires i <= j <= |s| && Lang(EmailRe, s, i, j)
    ensures EmailShapedAt(s, i, j)
  {
    var m0 := CatSplit(Boundary, EmailBody, s, i, j);
    var a := CatSplit(Run(EmailLocal, 1, None), EmailAt, s, m0, j);
    RunFacts(EmailLocal, 1, None, s, m0, a);
    var d := EmailAtFacts(s, a, j);
  }

  /** The `email` field: the leftmost match of the email pattern, which is email-shaped. */
  function Email(text: string): (r: Option<string>)
    ensures r.Some? ==>
      Search(EmailRe, text).Some?
      && var m := Search(EmailRe, text).value;
         r.value == text[m.start..m.end] && EmailShapedAt(text, m.start, m.end)
    ensures r.None? ==> forall p, q :: 0 <= p <= q <= |text| ==> !Lang(EmailRe, text, p, q)
  {
    SearchIsLeftmost(EmailRe, text);
    match Search(EmailRe, text)
    case None => None
    case Some(m) =>
      EmailMatchShape(text, m.start, m.end);
      Some(text[m.start..m.end])
  }

  // ---------------------------------------------------------------------------
  // Phone: (\+?\d{1,3}[-.\s]?)?\(?\d{3}\)?[-.\s]?\d{3}[-.\s]?\d{2}[-.\s]?\d{2}
  // ---------------------------------------------------------------------------

  const Sep: Re := Run(PhoneSep, 0, Some(1))
  const CountryCode: Re := Cat(Run(Single('+'), 0, Some(1)), Cat(Run(Digit, 1, Some(3)), Sep))
  const PhoneLast: Re := Cat(Run(Digit, 2, Some(2)), Cat(Sep, Run(Digit, 2, Some(2))))
  const PhoneLine: Re := Cat(Run(Digit, 3, Some(3)), Cat(Sep, PhoneLast))
  const PhoneArea: Re :=
    Cat(Run(Single('('), 0, Some(1)), Cat(Run(Digit, 3, Some(3)), Cat(Run(Single(')'), 0, Some(1)), Cat(Sep, PhoneLine))))
  const PhoneRe: Re := Cat(Opt(CountryCode), PhoneArea)

  predicate IsPhoneChar(c: char) {
    IsDigit(c) || c == '+' || c == '(' || c == ')' || c == '-' || c == '.' || IsSpace(c)
  }

  lemma PhoneAlphabet(c: char)
    ensures MayContain(PhoneRe, c) ==> IsPhoneChar(c)
  {
    assert MayContain(Sep, c) == InClass(PhoneSep, c);
    assert MayContain(Run(Digit, 1, Some(3)), c) == IsDigit(c);
    assert MayContain(Run(Digit, 2, Some(2)), c) == IsDigit(c);
    assert MayContain(Run(Digit, 3, Some(3)), c) == IsDigit(c);
    assert MayContain(Run(Single('+'), 0, Some(1)), c) == (c == '+');
    assert MayContain(Run(Single('('), 0, Some(1)), c) == (c == '(');
    assert MayContain(Run(Single(')'), 0, Some(1)), c) == (c == ')');
    assert MayContain(Cat(Run(Digit, 1, Some(3)), Sep), c) ==> IsPhoneChar(c);
    assert MayContain(CountryCode, c) ==> IsPhoneChar(c);
    assert MayContain(Cat(Sep, Run(Digit, 2, Some(2))), c) ==> IsPhoneChar(c);
    assert MayContain(PhoneLast, c) ==> IsPhoneChar(c);
    assert MayContain(Cat(Sep, PhoneLast), c) ==> IsPhoneChar(c);
    assert MayContain(PhoneLine, c) ==> IsPhoneChar(c);
    assert MayContain(Cat(Sep, PhoneLine), c) ==> IsPhoneChar(c);
    assert MayContain(Cat(Run(Single(')'), 0, Some(1)), Cat(Sep, PhoneLine)), c) ==> IsPhoneChar(c);
    assert MayContain(Cat(Run(Digit, 3, Some(3)), Cat(Run(Single(')'), 0, Some(1)), Cat(Sep, PhoneLine))), c) ==> IsPhoneChar(c);
    assert MayContain(PhoneArea, c) ==> IsPhoneChar(c);
    assert MayContain(Opt(CountryCode), c) ==> IsPhoneChar(c);
  }

  lemma PhoneDigits()
    ensures MinDigits(PhoneRe) == 10
  {
    assert MinDigits(PhoneLast) == 4;
    assert MinDigits(PhoneLine) == 7;
    assert MinDigits(PhoneArea) == 10;
  }

  /** A phone match holds at least ten digits and only phone characters. */
  lemma PhoneMatchShape(s: string, i: nat, j: nat)
    requires i <= j <= |s| && Lang(PhoneRe, s, i, j)
    ensures DigitCount(s, i, j) >= 10
    ensures forall m :: i <= m < j ==> IsPhoneChar(s[m])
  {
    LangDigits(PhoneRe, s, i, j);
    PhoneDigits();
    LangChars(PhoneRe, s, i, j);
    forall m | i <= m < j ensures IsPhoneChar(s[m]) {
      PhoneAlphabet(s[m]);
    }
  }

  /** The `phone` field: the leftmost phone match, with at least ten digits and only phone characters. */
  function Phone(text: string): (r: Option<string>)
    ensures r.Some? ==>
      Search(PhoneRe, text).Some?
      && var m := Search(PhoneRe, text).value;
         r.value == text[m.start..m.end] && DigitCount(text, m.start, m.end) >= 10
         && forall k :: m.start <= k < m.end ==> IsPhoneChar(text[k])
    ensures r.None? ==> forall p, q :: 0 <= p <= q <= |text| ==> !Lang(PhoneRe, text, p, q)
  {
    SearchIsLeftmost(PhoneRe, text);
    match Search(PhoneRe, text)
    case None => None
    case Some(m) =>
      PhoneMatchShape(text, m.start, m.end);
      Some(text[m.start..m.end])
  }

  // ---------------------------------------------------------------------------
  // GitHub: (?:https?://)?(?:www\.)?github\.com/([\w-]+), group 1
  // ---------------------------------------------------------------------------

  /** `https?://`, optionally under IGNORECASE. */
  function Scheme(ci: bool): Re {
    Cat(Lit("http", ci), Cat(Run(if ci then SingleCI('s') else Single('s'), 0, Some(1)), Lit("://", ci)))
  }

  lemma SchemeFacts(ci: bool, s: string, i: nat, j: nat)
    requires i <= j <= |s| && Lang(Scheme(ci), s, i, j)
    ensures LitAt(s, i, "http", ci) && i + 7 <= j <= i + 8 && LitAt(s, j - 3, "://", ci)
  {
    var k := if ci then SingleCI('s') else Single('s');
    var m0 := CatSplit(Lit("http", ci), Cat(Run(k, 0, Some(1)), Lit("://", ci)), s, i, j);
    LitFacts("http", ci, s, i, m0);
    var m1 := CatSplit(Run(k, 0, Some(1)), Lit("://", ci), s, m0, j);
    RunFacts(k, 0, Some(1), s, m0, m1);
    LitFacts("://", ci, s, m1, j);
  }

  const HandleRun: Re := Run(WordOrDash, 1, None)
  const GithubName: string := "github.com"
  const GithubHost: Re := Cat(Opt(Scheme(false)), Cat(Opt(Lit("www.", false)), Lit(GithubName, false)))
  const GithubRe: Re := Cat(GithubHost, Cat(Run(Single('/'), 1, Some(1)), HandleRun))

  lemma GithubHostFacts(s: string, i: nat, j: nat)
    requires i <= j <= |s| && Lang(GithubHost, s, i, j)
    ensures i + 10 <= j && LitAt(s, j - 10, GithubName, false)
  {
    var m0 := CatSplit(Opt(Scheme(false)), Cat(Opt(Lit("www.", false)), Lit(GithubName, false)), s, i, j);
    var m1 := CatSplit(Opt(Lit("www.", false)), Lit(GithubName, false), s, m0, j);
    LitFacts(GithubName, false, s, m1, j);
  }

  /**
   * Group 1 of a GitHub match is the `[\w-]` run right after `github.com/`,
   * which is the whole trailing `[\w-]` run of the match.
   */
  lemma GithubMatchHandle(s: string, i: nat, j: nat)
    requires i <= j <= |s| && Lang(GithubRe, s, i, j)
    ensures var n := TrailingRun(WordOrDash, s, i, j);
      n > 0 && i + 11 + n <= j && LitAt(s, j - n - 11, GithubName, false) && s[j - n - 1] == '/'
  {
    var h := CatSplit(GithubHost, Cat(Run(Single('/'), 1, Some(1)), HandleRun), s, i, j);
    GithubHostFacts(s, i, h);
    SingleThen('/', HandleRun, s, h, j);
    RunFacts(WordOrDash, 1, None, s, h + 1, j);
    SlashIsNotHandle();
    TrailingRunAfter(WordOrDash, s, i, h, j);
  }

  lemma SlashIsNotHandle()
    ensures !InClass(WordOrDash, '/')
  {
  }

  /** The `github` link: group 1 of the leftmost GitHub match, the handle right after `github.com/`. */
  function GithubHandle(text: string): (r: Option<string>)
    ensures r.Some? ==>
      Search(GithubRe, text).Some?
      && var m := Search(GithubRe, text).value;
         var h := m.end - |r.value|;
         r.value != [] && m.start + 11 <= h && r.value == text[h..m.end]
         && LitAt(text, h - 11, GithubName, false) && text[h - 1] == '/' && AllIn(WordOrDash, text, h, m.end)
    ensures r.None? ==> forall p, q :: 0 <= p <= q <= |text| ==> !Lang(GithubRe, text, p, q)
  {
    SearchIsLeftmost(GithubRe, text);
    match Search(GithubRe, text)
    case None => None
    case Some(m) =>
      GithubMatchHandle(text, m.start, m.end);
      var n := TrailingRun(WordOrDash, text, m.start, m.end);
      Some(text[m.end - n..m.end])
  }

  // ---------------------------------------------------------------------------
  // LinkedIn: (?:https?://)?(?:www\.)?linkedin\.com/in/[\w\-çğıöşü]+(?:-[\w\-çğıöşü]+)*
  // under IGNORECASE.  The trailing group is left out: it has to start with `-`,
  // which the greedy run before it has already consumed, so it only ever
  // matches the empty string and the reported match is the same without it.
  // ---------------------------------------------------------------------------

  const LinkedInPrefix: Re := Cat(Opt(Scheme(true)), Cat(Opt(Lit("www.", true)), Lit("linkedin.com/in/", true)))
  const LinkedInRe: Re := Cat(LinkedInPrefix, HandleRun)

  /** `s[i:j]` ends with `linkedin.com/in/` in any case and then a non-empty `[\w-]` run. */
  predicate LinkedInShapedAt(s: string, i: nat, j: nat)
    requires i <= j <= |s|
  {
    exists h :: i + 16 <= h < j && LitAt(s, h - 16, "linkedin.com/in/", true) && AllIn(WordOrDash, s, h, j)
  }

  lemma LinkedInPrefixFacts(s: string, i: nat, j: nat)
    requires i <= j <= |s| && Lang(LinkedInPrefix, s, i, j)
    ensures i + 16 <= j && LitAt(s, j - 16, "linkedin.com/in/", true)
  {
    var m0 := CatSplit(Opt(Scheme(true)), Cat(Opt(Lit("www.", true)), Lit("linkedin.com/in/", true)), s, i, j);
    var m1 := CatSplit(Opt(Lit("www.", true)), Lit("linkedin.com/in/", true), s, m0, j);
    LitFacts("linkedin.com/in/", true, s, m1, j);
  }

  lemma LinkedInMatchShape(s: string, i: nat, j: nat)
    requires i <= j <= |s| && Lang(LinkedInRe, s, i, j)
    ensures LinkedInShapedAt(s, i, j)
  {
    var h := CatSplit(LinkedInPrefix, HandleRun, s, i, j);
    LinkedInPrefixFacts(s, i, h);
    RunFacts(WordOrDash, 1, None, s, h, j);
  }

  /** The `linkedin` link found directly in a text: the leftmost LinkedIn match. */
  function LinkedIn(text: string): (r: Option<string>)
    ensures r.Some? ==>
      Search(LinkedInRe, text).Some?
      && var m := Search(LinkedInRe, text).value;
         r.value == text[m.start..m.end] && LinkedInShapedAt(text, m.start, m.end)
    ensures r.None? ==> forall p, q :: 0 <= p <= q <= |text| ==> !Lang(LinkedInRe, text, p, q)
  {
    SearchIsLeftmost(LinkedInRe, text);
    match Search(LinkedInRe, text)
    case None => None
    case Some(m) =>
      LinkedInMatchShape(text, m.start, m.end);
      Some(text[m.start..m.end])
  }

  // ---------------------------------------------------------------------------
  // Website: social links removed with
  //   (?:https?://)?(?:www\.)?(github|linkedin)\.com/[^\s]+
  // then https?://(?!www\.(?:github|linkedin)\.com)[^\s/$.?#]+\.[a-z]{2,}[^\s]*
  // both under IGNORECASE.
  // ---------------------------------------------------------------------------

  const SocialPath: Re := Cat(Alt(Lit("github", true), Lit("linkedin", true)), Cat(Lit(".com/", true), Run(NonSpace, 1, None)))
  const SocialRe: Re := Cat(Opt(Scheme(true)), Cat(Opt(Lit("www.", true)), SocialPath))

  const SocialHosts: seq<string> := ["www.github.com", "www.linkedin.com"]
  const WebsiteHost: Re :=
    Cat(Run(HostChar, 1, None), Cat(Run(Single('.'), 1, Some(1)), Cat(Run(Letter, 2, None), Run(NonSpace, 0, None))))
  const WebsiteRest: Re := Cat(NotAhead(SocialHosts), WebsiteHost)
  const WebsiteRe: Re := Cat(Scheme(true), WebsiteRest)

  /**
   * `s[i:j]` starts with `http://` or `https://` in any case, is not followed
   * there by a `www.` GitHub or LinkedIn host, and goes on with at least four
   * characters and no whitespace.
   */
  predicate WebsiteShapedAt(s: string, i: nat, j: nat)
    requires i <= j <= |s|
  {
    LitAt(s, i, "http", true)
    && exists p ::
         i + 7 <= p <= i + 8 && p + 4 <= j && LitAt(s, p - 3, "://", true)
         && !AnyLitAt(s, p, SocialHosts) && AllIn(NonSpace, s, p, j)
  }

  lemma HostAlphabet(c: char)
    ensures MayContain(WebsiteHost, c) ==> !IsSpace(c)
  {
    assert MayContain(Run(HostChar, 1, None), c) == InClass(HostChar, c);
    assert MayContain(Run(Single('.'), 1, Some(1)), c) == (c == '.');
    assert MayContain(Run(Letter, 2, None), c) == InClass(Letter, c);
    assert MayContain(Run(NonSpace, 0, None), c) == !IsSpace(c);
    assert MayContain(Cat(Run(Letter, 2, None), Run(NonSpace, 0, None)), c) ==> !IsSpace(c);
    assert MayContain(Cat(Run(Single('.'), 1, Some(1)), Cat(Run(Letter, 2, None), Run(NonSpace, 0, None))), c) ==> !IsSpace(c);
  }

  lemma WebsiteHostFacts(s: string, i: nat, j: nat)
    requires i <= j <= |s| && Lang(WebsiteHost, s, i, j)
    ensures i + 4 <= j && AllIn(NonSpace, s, i, j)
  {
    LangLength(WebsiteHost, s, i, j);
    LangChars(WebsiteHost, s, i, j);
    forall m | i <= m < j ensures InClass(NonSpace, s[m]) {
      HostAlphabet(s[m]);
    }
  }

  lemma WebsiteMatchShape(s: string, i: nat, j: nat)
    requires i <= j <= |s| && Lang(WebsiteRe, s, i, j)
    ensures WebsiteShapedAt(s, i, j)
  {
    var p := CatSplit(Scheme(true), WebsiteRest, s, i, j);
    SchemeFacts(true, s, i, p);
    var q := CatSplit(NotAhead(SocialHosts), WebsiteHost, s, p, j);
    WebsiteHostFacts(s, q, j);
  }

  /** The text with every social link removed. */
  function WithoutSocial(text: string): string {
    RemoveAll(SocialRe, text)
  }

  /** The `website` link: the leftmost website match once the social links are removed. */
  function Website(text: string): (r: Option<string>)
    ensures var t := WithoutSocial(text);
      r.Some? ==>
        Search(WebsiteRe, t).Some?
        && var m := Search(WebsiteRe, t).value;
           r.value == t[m.start..m.end] && WebsiteShapedAt(t, m.start, m.end)
    ensures r.None? ==> forall p, q :: 0 <= p <= q <= |WithoutSocial(text)| ==> !Lang(WebsiteRe, WithoutSocial(text), p, q)
  {
    var t := WithoutSocial(text);
    SearchIsLeftmost(WebsiteRe, t);
    match Search(WebsiteRe, t)
    case None => None
    case Some(m) =>
      WebsiteMatchShape(t, m.start, m.end);
      Some(t[m.start..m.end])
  }
}
