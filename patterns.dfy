/**
 * The regular expressions of app/cv/info_extractor.py: the email, phone,
 * GitHub, LinkedIn and website patterns of `extract_personal_info`, the
 * removal of social links, and the city/region pattern of `extract_location`.
 *
 * Each pattern is a value of `Re`, run by a small backtracking matcher.
 * `Ends(r, s, i)` lists the end positions of the matches of `r` that start at
 * `i`, in the order Python's `re` tries them, so the first one is the match
 * `re.search` reports.  `Lang` is the declarative meaning of a pattern, and
 * `EndsExact` proves the matcher finds exactly the matches `Lang` admits.
 */
module Patterns {
  import opened Wrappers
  import opened Text

  /** The character classes the patterns use. */
  datatype Class =
    | Digit         // \d
    | WordOrDash    // [\w-], and [\w\-çğıöşü] (its extra letters are already in \w)
    | EmailLocal    // [A-Za-z0-9._%+-]
    | EmailDomain   // [A-Za-z0-9.-]
    | EmailTld      // [A-Z|a-z]: the '|' is a member, as written
    | PhoneSep      // [-.\s]
    | NonSpace      // [^\s]
    | HostChar      // [^\s/$.?#]
    | Letter        // [a-z] under IGNORECASE: what lower-cases into it, and the dotless ı `re` pairs with i
    | Single(c: char)
    | SingleCI(c: char) // one letter under IGNORECASE (`c` lower-case)
    | Capital       // [A-ZÇĞİÖŞÜ]
    | CommaOrSpace  // [,\s]

  predicate IsAsciiLetter(c: char) {
    'A' <= c <= 'Z' || 'a' <= c <= 'z'
  }

  predicate InClass(k: Class, c: char) {
    match k
    case Digit => IsDigit(c)
    case WordOrDash => IsWordChar(c) || c == '-'
    case EmailLocal => IsAsciiLetter(c) || IsDigit(c) || c == '.' || c == '_' || c == '%' || c == '+' || c == '-'
    case EmailDomain => IsAsciiLetter(c) || IsDigit(c) || c == '.' || c == '-'
    case EmailTld => IsAsciiLetter(c) || c == '|'
    case PhoneSep => c == '-' || c == '.' || IsSpace(c)
    case NonSpace => !IsSpace(c)
    case HostChar => !IsSpace(c) && c != '/' && c != '$' && c != '.' && c != '?' && c != '#'
    case Letter => 'a' <= LowerChar(c) <= 'z' || LowerChar(c) == 'ı'
    case Single(d) => c == d
    case SingleCI(d) => LowerChar(c) == d
    case Capital => IsUpperLetter(c)
    case CommaOrSpace => c == ',' || IsSpace(c)
  }

  /** Every character of `s[i:j]` is in class `k`. */
  predicate AllIn(k: Class, s: string, i: nat, j: nat)
    requires i <= j <= |s|
  {
    forall m :: i <= m < j ==> InClass(k, s[m])
  }

  /** A regular expression, in the constructs the patterns need. */
  datatype Re =
    | Lit(text: string, ci: bool)             // a literal; under IGNORECASE when `ci` (then `text` is lower-case)
    | Run(k: Class, lo: nat, hi: Option<nat>) // k{lo,hi}, greedy; `None` is no upper bound
    | Cat(a: Re, b: Re)                       // ab
    | Alt(a: Re, b: Re)                       // a|b
    | Opt(a: Re)                              // (?:a)?, greedy
    | Boundary                                // \b
    | NotAhead(lits: seq<string>)             // (?!l1|l2|...) over literals, under IGNORECASE

  /** `\b` at position `i`: exactly one of the neighbouring characters is a word character. */
  predicate AtBoundary(s: string, i: nat)
    requires i <= |s|
  {
    var before := i > 0 && IsWordChar(s[i - 1]);
    var after := i < |s| && IsWordChar(s[i]);
    before != after
  }

  predicate LitAt(s: string, i: nat, t: string, ci: bool)
    requires i <= |s|
  {
    i + |t| <= |s| && (if ci then Fold(s[i..i + |t|]) == t else s[i..i + |t|] == t)
  }

  predicate AnyLitAt(s: string, i: nat, ls: seq<string>)
    requires i <= |s|
  {
    exists k :: 0 <= k < |ls| && LitAt(s, i, ls[k], true)
  }

  /** Length of the run of `k` characters at `i`, stopped after `hi` characters. */
  function RunLen(s: string, i: nat, k: Class, hi: Option<nat>): (n: nat)
    requires i <= |s|
    ensures i + n <= |s|
    ensures forall m :: i <= m < i + n ==> InClass(k, s[m])
    ensures hi.Some? ==> n <= hi.value
    ensures (hi.Some? && n == hi.value) || i + n == |s| || !InClass(k, s[i + n])
    decreases |s| - i
  {
    if i == |s| || !InClass(k, s[i]) || (hi.Some? && hi.value == 0) then 0
    else 1 + RunLen(s, i + 1, k, if hi.Some? then Some(hi.value - 1) else None)
  }

  /** No run of `k` characters at `i` within the bound is longer than `RunLen`. */
  lemma {:induction false} RunLenMaximal(s: string, i: nat, k: Class, hi: Option<nat>, j: nat)
    requires i <= j <= |s|
    requires hi.None? || j - i <= hi.value
    requires forall m :: i <= m < j ==> InClass(k, s[m])
    ensures j <= i + RunLen(s, i, k, hi)
    decreases |s| - i
  {
    if i < j {
      RunLenMaximal(s, i + 1, k, if hi.Some? then Some(hi.value - 1) else None, j);
    }
  }

  /** A run of `k` characters that cannot be extended is exactly what `RunLen` measures. */
  lemma RunLenExact(s: string, i: nat, k: Class, j: nat)
    requires i <= j <= |s| && AllIn(k, s, i, j) && (j == |s| || !InClass(k, s[j]))
    ensures RunLen(s, i, k, None) == j - i
  {
    RunLenMaximal(s, i, k, None, j);
  }

  /** `i + n, i + n - 1, ..., i + lo`: the greedy order of a repetition. */
  function Countdown(i: nat, n: nat, lo: nat): (es: seq<nat>)
    requires lo <= n
    ensures forall t :: 0 <= t < |es| ==> i + lo <= es[t] <= i + n
    ensures forall j :: i + lo <= j <= i + n ==> j in es
  {
    var es := seq(n - lo + 1, t requires 0 <= t < n - lo + 1 => i + n - t);
    forall j | i + lo <= j <= i + n ensures j in es {
      assert es[i + n - j] == j;
    }
    es
  }

  /** The end positions of the matches of `r` at `i`, in the order they are tried. */
  function Ends(r: Re, s: string, i: nat): (es: seq<nat>)
    requires i <= |s|
    ensures forall t :: 0 <= t < |es| ==> i <= es[t] <= |s|
    decreases r, 0, 0
  {
    match r
    case Lit(t, ci) => if LitAt(s, i, t, ci) then [i + |t|] else []
    case Run(k, lo, hi) =>
      var n := RunLen(s, i, k, hi);
      if lo <= n then Countdown(i, n, lo) else []
    case Cat(a, b) => CatEnds(b, s, Ends(a, s, i), i)
    case Alt(a, b) => Ends(a, s, i) + Ends(b, s, i)
    case Opt(a) => Ends(a, s, i) + [i]
    case Boundary => if AtBoundary(s, i) then [i] else []
    case NotAhead(ls) => if AnyLitAt(s, i, ls) then [] else [i]
  }

  /** The ends of `b` after each end in `ms`, in order. */
  function CatEnds(b: Re, s: string, ms: seq<nat>, i: nat): (es: seq<nat>)
    requires forall t :: 0 <= t < |ms| ==> i <= ms[t] <= |s|
    ensures forall t :: 0 <= t < |es| ==> i <= es[t] <= |s|
    decreases b, 1, |ms|
  {
    if ms == [] then [] else Ends(b, s, ms[0]) + CatEnds(b, s, ms[1..], i)
  }

  /** `s[i:j]` is a match of `r` (in the context of the whole of `s`). */
  predicate Lang(r: Re, s: string, i: nat, j: nat)
    requires i <= j <= |s|
    decreases r
  {
    match r
    case Lit(t, ci) => j == i + |t| && LitAt(s, i, t, ci)
    case Run(k, lo, hi) => lo <= j - i && (hi.None? || j - i <= hi.value) && AllIn(k, s, i, j)
    case Cat(a, b) => exists m :: i <= m <= j && Lang(a, s, i, m) && Lang(b, s, m, j)
    case Alt(a, b) => Lang(a, s, i, j) || Lang(b, s, i, j)
    case Opt(a) => j == i || Lang(a, s, i, j)
    case Boundary => j == i && AtBoundary(s, i)
    case NotAhead(ls) => j == i && !AnyLitAt(s, i, ls)
  }

  lemma {:induction false} CatEndsMember(b: Re, s: string, ms: seq<nat>, i: nat, j: nat)
    requires forall t :: 0 <= t < |ms| ==> i <= ms[t] <= |s|
    ensures j in CatEnds(b, s, ms, i) <==> exists t :: 0 <= t < |ms| && j in Ends(b, s, ms[t])
    decreases |ms|
  {
    if ms != [] {
      CatEndsMember(b, s, ms[1..], i, j);
      if j in CatEnds(b, s, ms[1..], i) {
        var t :| 0 <= t < |ms[1..]| && j in Ends(b, s, ms[1..][t]);
        assert j in Ends(b, s, ms[t + 1]);
      }
      if exists t :: 0 <= t < |ms| && j in Ends(b, s, ms[t]) {
        var t :| 0 <= t < |ms| && j in Ends(b, s, ms[t]);
        if t > 0 {
          assert ms[1..][t - 1] == ms[t];
        }
      }
    }
  }

  /** The matcher finds exactly the matches of the pattern. */
  lemma {:induction false} EndsExact(r: Re, s: string, i: nat, j: nat)
    requires i <= j <= |s|
    ensures j in Ends(r, s, i) <==> Lang(r, s, i, j)
    decreases r
  {
    match r
    case Lit(t, ci) =>
    case Run(k, lo, hi) =>
      var n := RunLen(s, i, k, hi);
      if Lang(r, s, i, j) {
        RunLenMaximal(s, i, k, hi, j);
      }
    case Cat(a, b) =>
      var ms := Ends(a, s, i);
      CatEndsMember(b, s, ms, i, j);
      if j in Ends(r, s, i) {
        var t :| 0 <= t < |ms| && j in Ends(b, s, ms[t]);
        var m := ms[t];
        EndsExact(a, s, i, m);
        EndsExact(b, s, m, j);
      }
      if Lang(r, s, i, j) {
        assert Lang(Cat(a, b), s, i, j);
        var m :| i <= m <= j && Lang(a, s, i, m) && Lang(b, s, m, j);
        EndsExact(a, s, i, m);
        EndsExact(b, s, m, j);
        var t :| 0 <= t < |ms| && ms[t] == m;
      }
    case Alt(a, b) =>
      EndsExact(a, s, i, j);
      EndsExact(b, s, i, j);
    case Opt(a) =>
      EndsExact(a, s, i, j);
    case Boundary =>
    case NotAhead(ls) =>
  }

  /** A greedy unbounded run first tries its longest match. */
  lemma RunFirst(k: Class, lo: nat, s: string, i: nat)
    requires i <= |s| && lo <= RunLen(s, i, k, None)
    ensures Ends(Run(k, lo, None), s, i) != [] && Ends(Run(k, lo, None), s, i)[0] == i + RunLen(s, i, k, None)
  {
  }

  /** When the first match of `a` can be continued by `b`, the first match of `ab` is that continuation. */
  lemma CatFirst(a: Re, b: Re, s: string, i: nat)
    requires i <= |s| && Ends(a, s, i) != [] && Ends(b, s, Ends(a, s, i)[0]) != []
    ensures Ends(Cat(a, b), s, i) != [] && Ends(Cat(a, b), s, i)[0] == Ends(b, s, Ends(a, s, i)[0])[0]
  {
  }

  /** The first match of `a(bc)` chains the first matches of its three parts. */
  lemma CatThreeFirst(a: Re, b: Re, c: Re, s: string, i: nat, e1: nat, e2: nat)
    requires i <= |s| && Ends(a, s, i) != [] && Ends(a, s, i)[0] == e1
    requires e1 <= |s| && Ends(b, s, e1) != [] && Ends(b, s, e1)[0] == e2
    requires e2 <= |s| && Ends(c, s, e2) != []
    ensures Ends(Cat(a, Cat(b, c)), s, i) != [] && Ends(Cat(a, Cat(b, c)), s, i)[0] == Ends(c, s, e2)[0]
  {
    CatFirst(b, c, s, e1);
    CatFirst(a, Cat(b, c), s, i);
  }

  /** A match: `s[start:end]`. */
  datatype Span = Span(start: nat, end: nat)

  /** `re.search` from position `i` on: the first start with a match, and its first end. */
  function SearchFrom(r: Re, s: string, i: nat): (m: Option<Span>)
    requires i <= |s|
    ensures m.Some? ==> i <= m.value.start <= m.value.end <= |s|
    ensures m.Some? ==> Ends(r, s, m.value.start) != [] && m.value.end == Ends(r, s, m.value.start)[0]
    ensures m.Some? ==> forall p :: i <= p < m.value.start ==> Ends(r, s, p) == []
    ensures m.None? ==> forall p :: i <= p <= |s| ==> Ends(r, s, p) == []
    decreases |s| - i
  {
    var es := Ends(r, s, i);
    if es != [] then Some(Span(i, es[0]))
    else if i == |s| then None
    else SearchFrom(r, s, i + 1)
  }

  /** `re.search(r, s)`, as the span of `match.group()`. */
  function Search(r: Re, s: string): Option<Span> {
    SearchFrom(r, s, 0)
  }

  /** `re.search(r, s).group()`, or `None` when there is no match. */
  function Found(r: Re, s: string): Option<string> {
    match Search(r, s)
    case Some(m) => Some(s[m.start..m.end])
    case None => None
  }

  /**
   * What `re.search` reports is a match of the pattern, no match starts
   * further left, and with no result there is no match anywhere.
   */
  lemma SearchIsLeftmost(r: Re, s: string)
    ensures Search(r, s).Some? ==>
      var m := Search(r, s).value;
      m.start <= m.end <= |s| && Lang(r, s, m.start, m.end)
      && forall p, q :: 0 <= p < m.start && p <= q <= |s| ==> !Lang(r, s, p, q)
    ensures Search(r, s).None? ==> forall p, q :: 0 <= p <= q <= |s| ==> !Lang(r, s, p, q)
  {
    var res := Search(r, s);
    if res.Some? {
      var m := res.value;
      EndsExact(r, s, m.start, m.end);
      forall p, q | 0 <= p < m.start && p <= q <= |s| ensures !Lang(r, s, p, q) {
        EndsExact(r, s, p, q);
      }
    } else {
      forall p, q | 0 <= p <= q <= |s| ensures !Lang(r, s, p, q) {
        EndsExact(r, s, p, q);
      }
    }
  }

  /** `re.sub(r, '', s[i:])`, searching in the context of the whole of `s`. */
  function RemoveFrom(r: Re, s: string, i: nat): string
    requires i <= |s|
    decreases |s| - i
  {
    match SearchFrom(r, s, i)
    case None => s[i..]
    case Some(m) =>
      if m.start < m.end then s[i..m.start] + RemoveFrom(r, s, m.end)
      else if m.start < |s| then s[i..m.start + 1] + RemoveFrom(r, s, m.start + 1)
      else s[i..]
  }

  /** `re.sub(r, '', s)` */
  function RemoveAll(r: Re, s: string): string {
    RemoveFrom(r, s, 0)
  }

  /** With no match anywhere, `re.sub` leaves the text as it is. */
  lemma RemoveWithoutMatch(r: Re, s: string)
    requires forall p, q :: 0 <= p <= q <= |s| ==> !Lang(r, s, p, q)
    ensures RemoveAll(r, s) == s
  {
    if SearchFrom(r, s, 0).Some? {
      var m := SearchFrom(r, s, 0).value;
      EndsExact(r, s, m.start, m.end);
    }
  }

  // ---------------------------------------------------------------------------
  // Generic facts about matches
  // ---------------------------------------------------------------------------

  /** A match of `ab` splits into a match of `a` and a match of `b`. */
  lemma CatSplit(a: Re, b: Re, s: string, i: nat, j: nat) returns (m: nat)
    requires i <= j <= |s| && Lang(Cat(a, b), s, i, j)
    ensures i <= m <= j && Lang(a, s, i, m) && Lang(b, s, m, j)
  {
    m :| i <= m <= j && Lang(a, s, i, m) && Lang(b, s, m, j);
  }

  lemma RunFacts(k: Class, lo: nat, hi: Option<nat>, s: string, i: nat, j: nat)
    requires i <= j <= |s| && Lang(Run(k, lo, hi), s, i, j)
    ensures lo <= j - i && (hi.None? || j - i <= hi.value) && AllIn(k, s, i, j)
  {
  }

  /** A match of `c` followed by `b` is the character `c` and then a match of `b`. */
  lemma SingleThen(c: char, b: Re, s: string, i: nat, j: nat)
    requires i <= j <= |s| && Lang(Cat(Run(Single(c), 1, Some(1)), b), s, i, j)
    ensures i < j && s[i] == c && Lang(b, s, i + 1, j)
  {
    var m := CatSplit(Run(Single(c), 1, Some(1)), b, s, i, j);
    RunFacts(Single(c), 1, Some(1), s, i, m);
    assert m == i + 1 && InClass(Single(c), s[i]);
  }

  lemma LitFacts(t: string, ci: bool, s: string, i: nat, j: nat)
    requires i <= j <= |s| && Lang(Lit(t, ci), s, i, j)
    ensures j == i + |t| && LitAt(s, i, t, ci)
  {
  }

  /** The characters a match of `r` can contain. */
  predicate MayContain(r: Re, c: char) {
    match r
    case Lit(t, ci) => if ci then LowerChar(c) in t else c in t
    case Run(k, lo, hi) => InClass(k, c)
    case Cat(a, b) => MayContain(a, c) || MayContain(b, c)
    case Alt(a, b) => MayContain(a, c) || MayContain(b, c)
    case Opt(a) => MayContain(a, c)
    case Boundary => false
    case NotAhead(ls) => false
  }

  lemma {:induction false} LangChars(r: Re, s: string, i: nat, j: nat)
    requires i <= j <= |s| && Lang(r, s, i, j)
    ensures forall m :: i <= m < j ==> MayContain(r, s[m])
    decreases r
  {
    match r
    case Lit(t, ci) =>
      forall m | i <= m < j ensures MayContain(r, s[m]) {
        if ci {
          assert Fold(s[i..j])[m - i] == LowerChar(s[m]);
        } else {
          assert s[i..j][m - i] == s[m];
        }
      }
    case Run(k, lo, hi) =>
    case Cat(a, b) =>
      var m :| i <= m <= j && Lang(a, s, i, m) && Lang(b, s, m, j);
      LangChars(a, s, i, m);
      LangChars(b, s, m, j);
    case Alt(a, b) =>
      if Lang(a, s, i, j) {
        LangChars(a, s, i, j);
      } else {
        LangChars(b, s, i, j);
      }
    case Opt(a) =>
      if j > i {
        LangChars(a, s, i, j);
      }
    case Boundary =>
    case NotAhead(ls) =>
  }

  /** Length of the run of `k` characters that ends `s[i:j]`. */
  function TrailingRun(k: Class, s: string, i: nat, j: nat): (n: nat)
    requires i <= j <= |s|
    ensures n <= j - i && AllIn(k, s, j - n, j)
    ensures j - n == i || !InClass(k, s[j - n - 1])
    decreases j - i
  {
    if j == i || !InClass(k, s[j - 1]) then 0 else 1 + TrailingRun(k, s, i, j - 1)
  }

  /** After a character outside `k`, a run of `k` to the end of the span is the trailing run. */
  lemma {:induction false} TrailingRunAfter(k: Class, s: string, i: nat, h: nat, j: nat)
    requires i <= h < j <= |s| && !InClass(k, s[h]) && AllIn(k, s, h + 1, j)
    ensures TrailingRun(k, s, i, j) == j - h - 1
    decreases j - h
  {
    if j > h + 1 {
      TrailingRunAfter(k, s, i, h, j - 1);
    }
  }

  /** The fewest characters a match of `r` spans. */
  function MinLen(r: Re): nat {
    match r
    case Lit(t, ci) => |t|
    case Run(k, lo, hi) => lo
    case Cat(a, b) => MinLen(a) + MinLen(b)
    case Alt(a, b) => if MinLen(a) <= MinLen(b) then MinLen(a) else MinLen(b)
    case _ => 0
  }

  lemma {:induction false} LangLength(r: Re, s: string, i: nat, j: nat)
    requires i <= j <= |s| && Lang(r, s, i, j)
    ensures j - i >= MinLen(r)
    decreases r
  {
    match r
    case Lit(t, ci) =>
    case Run(k, lo, hi) =>
    case Cat(a, b) =>
      var m :| i <= m <= j && Lang(a, s, i, m) && Lang(b, s, m, j);
      LangLength(a, s, i, m);
      LangLength(b, s, m, j);
    case Alt(a, b) =>
      if Lang(a, s, i, j) {
        LangLength(a, s, i, j);
      } else {
        LangLength(b, s, i, j);
      }
    case Opt(a) =>
    case Boundary =>
    case NotAhead(ls) =>
  }

  /** The number of digits in `s[i:j]`. */
  function DigitCount(s: string, i: nat, j: nat): nat
    requires i <= j <= |s|
    decreases j - i
  {
    if i == j then 0 else DigitCount(s, i, j - 1) + (if IsDigit(s[j - 1]) then 1 else 0)
  }

  lemma {:induction false} DigitCountSplit(s: string, i: nat, m: nat, j: nat)
    requires i <= m <= j <= |s|
    ensures DigitCount(s, i, j) == DigitCount(s, i, m) + DigitCount(s, m, j)
    decreases j - m
  {
    if m < j {
      DigitCountSplit(s, i, m, j - 1);
    }
  }

  lemma {:induction false} AllDigits(s: string, i: nat, j: nat)
    requires i <= j <= |s|
    requires forall m :: i <= m < j ==> IsDigit(s[m])
    ensures DigitCount(s, i, j) == j - i
    decreases j - i
  {
    if i < j {
      AllDigits(s, i, j - 1);
    }
  }

  /** The fewest digits a match of `r` holds. */
  function MinDigits(r: Re): nat {
    match r
    case Run(k, lo, hi) => if k == Digit then lo else 0
    case Cat(a, b) => MinDigits(a) + MinDigits(b)
    case Alt(a, b) => if MinDigits(a) <= MinDigits(b) then MinDigits(a) else MinDigits(b)
    case _ => 0
  }

  lemma {:induction false} LangDigits(r: Re, s: string, i: nat, j: nat)
    requires i <= j <= |s| && Lang(r, s, i, j)
    ensures DigitCount(s, i, j) >= MinDigits(r)
    decreases r
  {
    match r
    case Lit(t, ci) =>
    case Run(k, lo, hi) =>
      if k == Digit {
        AllDigits(s, i, j);
      }
    case Cat(a, b) =>
      var m :| i <= m <= j && Lang(a, s, i, m) && Lang(b, s, m, j);
      LangDigits(a, s, i, m);
      LangDigits(b, s, m, j);
      DigitCountSplit(s, i, m, j);
    case Alt(a, b) =>
      if Lang(a, s, i, j) {
        LangDigits(a, s, i, j);
      } else {
        LangDigits(b, s, i, j);
      }
    case Opt(a) =>
    case Boundary =>
    case NotAhead(ls) =>
  }
}
