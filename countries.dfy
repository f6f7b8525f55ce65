/**
 * Finding a country in a directory `name -> aliases` (app/cv/info_extractor.py,
 * `find_country_in_text` and `find_country_with_spacy`).
 *
 * The directory is the dictionary read from `countries.json`, in its insertion
 * order.  Both searches compare a term with each country in turn:
 * `find_country_in_text` returns the first country that a term names, and
 * `find_country_with_spacy` keeps a `found_country` variable whose Python
 * truthiness (an empty name is false) decides when its loops stop.
 */
module Countries {
  import opened Wrappers
  import opened Text

  datatype Country = Country(name: string, aliases: seq<string>)

  type Directory = seq<Country>

  /** `n` is one of the directory's keys. */
  predicate IsKey(dir: Directory, n: string) {
    exists k :: 0 <= k < |dir| && dir[k].name == n
  }

  /** Every key is a non-empty string. */
  predicate NamedCountries(dir: Directory) {
    forall k :: 0 <= k < |dir| ==> dir[k].name != []
  }

  // ---------------------------------------------------------------------------
  // Comparing a term with a name
  // ---------------------------------------------------------------------------

  /**
   * How a term is compared with a country name or alias: `Exact(w)` asks for
   * `w == name.upper()`; `Fuzzy(w)` compares the NFKD-folded upper-case forms
   * and also accepts a substring in either direction.
   */
  datatype Test = Exact(w: string) | Fuzzy(w: string)

  predicate Hit(t: Test, s: string) {
    match t
    case Exact(w) => w == Upper(s)
    case Fuzzy(w) =>
      var f := Fold(Upper(s));
      w == f || HasSubstring(w, f) || HasSubstring(f, w)
  }

  predicate AnyHit(t: Test, aliases: seq<string>) {
    exists k :: 0 <= k < |aliases| && Hit(t, aliases[k])
  }

  /** The term names the country: its name or one of its aliases. */
  predicate Names(c: Country, t: Test) {
    Hit(t, c.name) || AnyHit(t, c.aliases)
  }

  /** Characters the NFKD decomposition of the modelled letters splits off. */
  predicate IsCombining(c: char) {
    0x300 <= c as int <= 0x36F
  }

  /** One character after NFKD with the combining marks dropped. */
  function FoldChar(c: char): (r: string)
    ensures |r| <= 1
    ensures forall k :: 0 <= k < |r| ==> !IsCombining(r[k])
  {
    if IsCombining(c) then []
    else if c == 'Ç' then "C" else if c == 'ç' then "c"
    else if c == 'Ğ' then "G" else if c == 'ğ' then "g"
    else if c == 'İ' then "I"
    else if c == 'Ö' then "O" else if c == 'ö' then "o"
    else if c == 'Ş' then "S" else if c == 'ş' then "s"
    else if c == 'Ü' then "U" else if c == 'ü' then "u"
    else if c == '\U{00A0}' || ('\U{2000}' <= c <= '\U{200A}') || c == '\U{202F}'
         || c == '\U{205F}' || c == '\U{3000}' then " "
    else [c]
  }

  /** `''.join(c for c in unicodedata.normalize('NFKD', s) if not unicodedata.combining(c))` */
  function Fold(s: string): (r: string)
    ensures |r| <= |s|
  {
    if s == [] then [] else FoldChar(s[0]) + Fold(s[1..])
  }

  /** The characters `str.strip('.,;:!?()[]{}')` removes. */
  predicate IsTrimmed(c: char) {
    c in ".,;:!?()[]{}"
  }

  function LTrim(s: string): (r: string)
    ensures |r| <= |s| && r == s[|s| - |r|..]
    ensures forall k :: 0 <= k < |s| - |r| ==> IsTrimmed(s[k])
    ensures r == [] || !IsTrimmed(r[0])
  {
    if s != [] && IsTrimmed(s[0]) then LTrim(s[1..]) else s
  }

  function RTrim(s: string): (r: string)
    ensures |r| <= |s| && r == s[..|r|]
    ensures forall k :: |r| <= k < |s| ==> IsTrimmed(s[k])
    ensures r == [] || !IsTrimmed(r[|r| - 1])
  {
    if s != [] && IsTrimmed(s[|s| - 1]) then RTrim(s[..|s| - 1]) else s
  }

  /** `word.strip('.,;:!?()[]{}')` */
  function TrimPunct(s: string): string {
    RTrim(LTrim(s))
  }

  // ---------------------------------------------------------------------------
  // find_country_in_text
  // ---------------------------------------------------------------------------

  /** The first country the term names exactly (the inner loops of lines 109-117, 124-132, 140-148). */
  function Lookup(dir: Directory, w: string): (r: Option<string>)
    ensures r.Some? ==> IsKey(dir, r.value)
  {
    if dir == [] then None
    else if Names(dir[0], Exact(w)) then Some(dir[0].name)
    else
      var r := Lookup(dir[1..], w);
      KeyOfRest(dir, r);
      r
  }

  /** A key of the rest of the directory is a key of the directory. */
  lemma KeyOfRest(dir: Directory, r: Option<string>)
    requires dir != [] && (r.Some? ==> IsKey(dir[1..], r.value))
    ensures r.Some? ==> IsKey(dir, r.value)
  {
    if r.Some? {
      var k :| 0 <= k < |dir[1..]| && dir[1..][k].name == r.value;
      assert dir[k + 1].name == r.value;
    }
  }

  /** The nested loops over the countries and their aliases, returning at the first hit. */
  method LookupIn(dir: Directory, w: string) returns (r: Option<string>)
    ensures r == Lookup(dir, w)
  {
    var i := 0;
    while i < |dir|
      invariant 0 <= i <= |dir|
      invariant Lookup(dir, w) == Lookup(dir[i..], w)
    {
      var c := dir[i];
      assert dir[i..][0] == c && dir[i..][1..] == dir[i + 1..];
      if w == Upper(c.name) {
        return Some(c.name);
      }
      var j := 0;
      while j < |c.aliases|
        invariant 0 <= j <= |c.aliases|
        invariant forall p :: 0 <= p < j ==> !Hit(Exact(w), c.aliases[p])
      {
        if w == Upper(c.aliases[j]) {
          return Some(c.name);
        }
        j := j + 1;
      }
      i := i + 1;
    }
    return None;
  }

  /** The phrases of the first 1, 2 and 3 words, from `i` words on (lines 120-132). */
  function PhraseTier(dir: Directory, words: seq<string>, i: nat): (r: Option<string>)
    requires 1 <= i
    ensures r.Some? ==> IsKey(dir, r.value)
    decreases 4 - i
  {
    if i >= 4 || i > |words| then None
    else
      var hit := Lookup(dir, Upper(Join(words[..i], " ")));
      if hit.Some? then hit else PhraseTier(dir, words, i + 1)
  }

  /** Each word of at least two characters in turn (lines 135-148). */
  function WordTier(dir: Directory, words: seq<string>): (r: Option<string>)
    ensures r.Some? ==> IsKey(dir, r.value)
  {
    if words == [] then None
    else
      var hit := if |words[0]| >= 2 then Lookup(dir, Upper(words[0])) else None;
      if hit.Some? then hit else WordTier(dir, words[1..])
  }

  /** The words of the upper-cased text. */
  function UpperWords(text: string): seq<string> {
    Split(Strip(Upper(text)))
  }

  /** What `find_country_in_text` returns. */
  function CountryIn(text: string, dir: Directory): (r: Option<string>)
    ensures text == [] || dir == [] ==> r.None?
    ensures r.Some? ==> IsKey(dir, r.value)
  {
    if text == [] || dir == [] then None
    else
      var words := UpperWords(text);
      var first := if words != [] then Lookup(dir, words[0]) else None;
      if first.Some? then first
      else
        var phrase := PhraseTier(dir, words, 1);
        if phrase.Some? then phrase else WordTier(dir, words)
  }

  /** `find_country_in_text` */
  method FindCountryInText(text: string, dir: Directory) returns (r: Option<string>)
    ensures r == CountryIn(text, dir)
  {
    if text == [] || dir == [] {
      return None;
    }
    var words := UpperWords(text);
    if words != [] {
      r := LookupIn(dir, words[0]);
      if r.Some? {
        return r;
      }
    }
    r := PhraseTierLoop(dir, words);
    if r.Some? {
      return r;
    }
    r := WordTierLoop(dir, words);
  }

  /** The loop over the phrases of the first 1, 2 and 3 words (lines 120-132). */
  method PhraseTierLoop(dir: Directory, words: seq<string>) returns (r: Option<string>)
    ensures r == PhraseTier(dir, words, 1)
  {
    var i := 1;
    var top := if 4 < |words| + 1 then 4 else |words| + 1;
    while i < top
      invariant 1 <= i <= 4 && (i <= top || top == 1)
      invariant PhraseTier(dir, words, 1) == PhraseTier(dir, words, i)
    {
      var phrase := Join(words[..i], " ");
      r := LookupIn(dir, Upper(phrase));
      if r.Some? {
        return r;
      }
      i := i + 1;
    }
    return None;
  }

  /** The loop over the words of at least two characters (lines 135-148). */
  method WordTierLoop(dir: Directory, words: seq<string>) returns (r: Option<string>)
    ensures r == WordTier(dir, words)
  {
    var k := 0;
    while k < |words|
      invariant 0 <= k <= |words|
      invariant WordTier(dir, words) == WordTier(dir, words[k..])
    {
      assert words[k..][0] == words[k] && words[k..][1..] == words[k + 1..];
      var word := words[k];
      if |word| >= 2 {
        r := LookupIn(dir, Upper(word));
        if r.Some? {
          return r;
        }
      }
      k := k + 1;
    }
    return None;
  }

  /** The first word is tried against every country before any phrase or later word. */
  lemma FirstWordFirst(text: string, dir: Directory, k: nat)
    requires UpperWords(text) != [] && k < |dir| && Names(dir[k], Exact(UpperWords(text)[0]))
    ensures CountryIn(text, dir).Some?
    ensures CountryIn(text, dir) == Lookup(dir, UpperWords(text)[0])
  {
    LookupFindsNamed(dir, UpperWords(text)[0], k);
  }

  /** Some country named by a term means `Lookup` finds one, the first such. */
  lemma {:induction false} LookupFindsNamed(dir: Directory, w: string, k: nat)
    requires k < |dir| && Names(dir[k], Exact(w))
    ensures Lookup(dir, w).Some?
    ensures exists p ::
      0 <= p <= k && Lookup(dir, w) == Some(dir[p].name) && Names(dir[p], Exact(w))
      && forall q :: 0 <= q < p ==> !Names(dir[q], Exact(w))
  {
    if !Names(dir[0], Exact(w)) {
      assert dir[1..][k - 1] == dir[k];
      LookupFindsNamed(dir[1..], w, k - 1);
      var p :| 0 <= p <= k - 1 && Lookup(dir[1..], w) == Some(dir[1..][p].name) && Names(dir[1..][p], Exact(w))
        && forall q :: 0 <= q < p ==> !Names(dir[1..][q], Exact(w));
      assert Lookup(dir, w) == Some(dir[p + 1].name);
      forall q | 0 <= q < p + 1 ensures !Names(dir[q], Exact(w)) {
        if q > 0 {
          assert dir[q] == dir[1..][q - 1];
        }
      }
    }
  }

  /** Some country with the key `n` is named, exactly, by the term `w`. */
  predicate NamedBy(dir: Directory, n: string, w: string) {
    exists k :: 0 <= k < |dir| && dir[k].name == n && Names(dir[k], Exact(w))
  }

  /** `Lookup` returns only a country the term names. */
  lemma {:induction false} LookupSound(dir: Directory, w: string)
    ensures Lookup(dir, w).Some? ==> NamedBy(dir, Lookup(dir, w).value, w)
  {
    if dir != [] && !Names(dir[0], Exact(w)) {
      LookupSound(dir[1..], w);
      if Lookup(dir, w).Some? {
        var k :| 0 <= k < |dir[1..]| && dir[1..][k].name == Lookup(dir, w).value && Names(dir[1..][k], Exact(w));
        assert dir[k + 1] == dir[1..][k];
      }
    }
  }

  /** `Lookup` finds nothing exactly when no country is named by the term. */
  lemma LookupNone(dir: Directory, w: string)
    ensures Lookup(dir, w).None? <==> forall k :: 0 <= k < |dir| ==> !Names(dir[k], Exact(w))
  {
    if Lookup(dir, w).None? {
      forall k | 0 <= k < |dir| ensures !Names(dir[k], Exact(w)) {
        if Names(dir[k], Exact(w)) {
          LookupFindsNamed(dir, w, k);
        }
      }
    } else {
      LookupSound(dir, w);
    }
  }

  /** The terms `find_country_in_text` tries: the first word, phrases of 1-3 words, words of two or more characters. */
  predicate TriedTerm(words: seq<string>, w: string) {
    (words != [] && w == words[0])
    || (exists i :: 1 <= i <= 3 && i <= |words| && w == Upper(Join(words[..i], " ")))
    || (exists j :: 0 <= j < |words| && |words[j]| >= 2 && w == Upper(words[j]))
  }

  lemma {:induction false} PhraseTierSound(dir: Directory, words: seq<string>, i: nat)
    requires 1 <= i
    ensures PhraseTier(dir, words, i).Some? ==>
      exists p :: i <= p <= 3 && p <= |words| && NamedBy(dir, PhraseTier(dir, words, i).value, Upper(Join(words[..p], " ")))
    decreases 4 - i
  {
    if i < 4 && i <= |words| {
      LookupSound(dir, Upper(Join(words[..i], " ")));
      PhraseTierSound(dir, words, i + 1);
    }
  }

  lemma {:induction false} WordTierSound(dir: Directory, words: seq<string>)
    ensures WordTier(dir, words).Some? ==>
      exists j :: 0 <= j < |words| && |words[j]| >= 2 && NamedBy(dir, WordTier(dir, words).value, Upper(words[j]))
  {
    if words != [] {
      if |words[0]| >= 2 {
        LookupSound(dir, Upper(words[0]));
      }
      WordTierSound(dir, words[1..]);
      if WordTier(dir, words).Some? && !(|words[0]| >= 2 && Lookup(dir, Upper(words[0])).Some?) {
        var j :| 0 <= j < |words[1..]| && |words[1..][j]| >= 2 && NamedBy(dir, WordTier(dir, words).value, Upper(words[1..][j]));
        assert words[j + 1] == words[1..][j];
      }
    }
  }

  /** A country `find_country_in_text` returns is named by one of the terms it tries. */
  lemma CountryInSound(text: string, dir: Directory)
    ensures CountryIn(text, dir).Some? ==>
      exists w :: TriedTerm(UpperWords(text), w) && NamedBy(dir, CountryIn(text, dir).value, w)
  {
    var words := UpperWords(text);
    var r := CountryIn(text, dir);
    if r.Some? {
      if words != [] && Lookup(dir, words[0]).Some? {
        LookupSound(dir, words[0]);
        assert TriedTerm(words, words[0]);
      } else if PhraseTier(dir, words, 1).Some? {
        PhraseTierSound(dir, words, 1);
        var p :| 1 <= p <= 3 && p <= |words| && NamedBy(dir, r.value, Upper(Join(words[..p], " ")));
        assert TriedTerm(words, Upper(Join(words[..p], " ")));
      } else {
        WordTierSound(dir, words);
        var j :| 0 <= j < |words| && |words[j]| >= 2 && NamedBy(dir, r.value, Upper(words[j]));
        assert TriedTerm(words, Upper(words[j]));
      }
    }
  }

  lemma {:induction false} PhraseTierNone(dir: Directory, words: seq<string>, i: nat, p: nat, k: nat)
    requires 1 <= i <= p <= 3 && p <= |words| && k < |dir| && Names(dir[k], Exact(Upper(Join(words[..p], " "))))
    ensures PhraseTier(dir, words, i).Some?
    decreases 4 - i
  {
    if i == p {
      LookupFindsNamed(dir, Upper(Join(words[..p], " ")), k);
    } else if Lookup(dir, Upper(Join(words[..i], " "))).None? {
      PhraseTierNone(dir, words, i + 1, p, k);
    }
  }

  lemma {:induction false} WordTierNone(dir: Directory, words: seq<string>, j: nat, k: nat)
    requires j < |words| && |words[j]| >= 2 && k < |dir| && Names(dir[k], Exact(Upper(words[j])))
    ensures WordTier(dir, words).Some?
  {
    if j == 0 {
      LookupFindsNamed(dir, Upper(words[0]), k);
    } else if !(|words[0]| >= 2 && Lookup(dir, Upper(words[0])).Some?) {
      assert words[1..][j - 1] == words[j];
      WordTierNone(dir, words[1..], j - 1, k);
    }
  }

  /** With a non-empty text, `find_country_in_text` finds nothing only when no tried term names any country. */
  lemma CountryInComplete(text: string, dir: Directory, w: string, k: nat)
    requires text != [] && k < |dir| && TriedTerm(UpperWords(text), w) && Names(dir[k], Exact(w))
    ensures CountryIn(text, dir).Some?
  {
    var words := UpperWords(text);
    if words != [] && w == words[0] {
      LookupFindsNamed(dir, w, k);
    } else if exists i :: 1 <= i <= 3 && i <= |words| && w == Upper(Join(words[..i], " ")) {
      var i :| 1 <= i <= 3 && i <= |words| && w == Upper(Join(words[..i], " "));
      PhraseTierNone(dir, words, 1, i, k);
    } else {
      var j :| 0 <= j < |words| && |words[j]| >= 2 && w == Upper(words[j]);
      WordTierNone(dir, words, j, k);
    }
    CountryInOfTiers(text, dir);
  }

  lemma CountryInOfTiers(text: string, dir: Directory)
    requires text != [] && dir != []
    requires (UpperWords(text) != [] && Lookup(dir, UpperWords(text)[0]).Some?)
      || PhraseTier(dir, UpperWords(text), 1).Some? || WordTier(dir, UpperWords(text)).Some?
    ensures CountryIn(text, dir).Some?
  {
  }

  // ---------------------------------------------------------------------------
  // find_country_with_spacy
  // ---------------------------------------------------------------------------

  /**
   * The loop over the countries with `found_country` threaded through: a hit
   * on the name stores it and stops; a hit on an alias stores the name and
   * stops only when `stopOnAlias` and the name is truthy; otherwise the loop
   * goes on with what it stored.
   */
  function Scan(dir: Directory, t: Test, found: Option<string>, stopOnAlias: bool): (r: Option<string>)
  {
    if dir == [] then found
    else
      var c := dir[0];
      if Hit(t, c.name) then Some(c.name)
      else
        var f := if AnyHit(t, c.aliases) then Some(c.name) else found;
        if stopOnAlias && Truthy(f) then f else Scan(dir[1..], t, f, stopOnAlias)
  }

  /** The GPE texts upper-cased and stripped (line 172). */
  function GpeTerms(gpes: seq<string>): (ts: seq<string>)
    ensures |ts| == |gpes|
  {
    seq(|gpes|, g requires 0 <= g < |gpes| => Strip(Upper(gpes[g])))
  }

  /** The loops of lines 171-188: each prepared GPE term in turn, until one stores a truthy name. */
  function GpeTier(dir: Directory, terms: seq<string>, found: Option<string>): Option<string> {
    if terms == [] then found
    else
      var f := Scan(dir, Exact(terms[0]), found, true);
      if Truthy(f) then f else GpeTier(dir, terms[1..], f)
  }

  /** The first word after the first `/` of the text, `""` when there is none (lines 199-202). */
  function WordAfterSlash(search: string): string
    requires '/' in search
  {
    var after := Strip(search[IndexOf(search, '/') + 1..]);
    if Split(after) != [] then Split(after)[0] else ""
  }

  /** Lines 197-231: the folded first word after a `/` against each country. */
  function SlashTier(dir: Directory, search: string, found: Option<string>): Option<string> {
    if '/' in search then Scan(dir, Fuzzy(Fold(Upper(WordAfterSlash(search)))), found, true)
    else found
  }

  /** Lines 237-251: each word with its punctuation trimmed, when two characters or longer. */
  function WordScan(dir: Directory, words: seq<string>, found: Option<string>): Option<string> {
    if words == [] then found
    else
      var clean := TrimPunct(words[0]);
      if |clean| >= 2 then
        var f := Scan(dir, Exact(clean), found, false);
        if Truthy(f) then f else WordScan(dir, words[1..], f)
      else WordScan(dir, words[1..], found)
  }

  /**
   * What `find_country_with_spacy` returns; `gpes` are the texts of the GPE
   * entities spaCy finds in the first 2000 characters (empty without spaCy).
   */
  function CountryWithSpacy(text: string, dir: Directory, gpes: seq<string>): Option<string> {
    var g := GpeTier(dir, GpeTerms(gpes), None);
    if Truthy(g) then g
    else
      var search := Take(text, 1000);
      var s := SlashTier(dir, search, g);
      if Truthy(s) then s else WordScan(dir, Split(Upper(search)), s)
  }

  /** One country's turn in the loop: what `found_country` becomes and whether the loop stops. */
  predicate Visited(c: Country, t: Test, found: Option<string>, stopOnAlias: bool, r: Option<string>, done: bool) {
    if Hit(t, c.name) then r == Some(c.name) && done
    else r == (if AnyHit(t, c.aliases) then Some(c.name) else found) && done == (stopOnAlias && Truthy(r))
  }

  /** `Scan` from country `i` on is that country's turn followed, unless it stopped, by the rest. */
  lemma ScanVisit(dir: Directory, i: nat, t: Test, found: Option<string>, stopOnAlias: bool, r: Option<string>, done: bool)
    requires i < |dir| && Visited(dir[i], t, found, stopOnAlias, r, done)
    ensures Scan(dir[i..], t, found, stopOnAlias) == if done then r else Scan(dir[i + 1..], t, r, stopOnAlias)
  {
    assert dir[i..][0] == dir[i] && dir[i..][1..] == dir[i + 1..];
  }

  /** The body of the country loop (lines 175-186 and their copies). */
  method VisitCountry(c: Country, t: Test, found: Option<string>, stopOnAlias: bool) returns (r: Option<string>, done: bool)
    ensures Visited(c, t, found, stopOnAlias, r, done)
  {
    if Hit(t, c.name) {
      return Some(c.name), true;
    }
    var aliasHit := ScanAliases(t, c.aliases);
    r := if aliasHit then Some(c.name) else found;
    done := stopOnAlias && Truthy(r);
  }

  /** The inner loop over one country's aliases (lines 181-184 and their copies). */
  method ScanAliases(t: Test, aliases: seq<string>) returns (hit: bool)
    ensures hit <==> AnyHit(t, aliases)
  {
    hit := false;
    var j := 0;
    while j < |aliases|
      invariant 0 <= j <= |aliases|
      invariant forall p :: 0 <= p < j ==> !Hit(t, aliases[p])
    {
      if Hit(t, aliases[j]) {
        hit := true;
        return;
      }
      j := j + 1;
    }
  }

  /** The loop over the countries and their aliases shared by the three tiers. */
  method ScanCountries(dir: Directory, t: Test, found: Option<string>, stopOnAlias: bool) returns (r: Option<string>)
    ensures r == Scan(dir, t, found, stopOnAlias)
  {
    r := found;
    var i := 0;
    while i < |dir|
      invariant 0 <= i <= |dir|
      invariant Scan(dir, t, found, stopOnAlias) == Scan(dir[i..], t, r, stopOnAlias)
    {
      var next, done := VisitCountry(dir[i], t, r, stopOnAlias);
      ScanVisit(dir, i, t, r, stopOnAlias, next, done);
      r := next;
      if done {
        return;
      }
      i := i + 1;
    }
  }

  /** `find_country_with_spacy`, with spaCy's GPE texts passed in. */
  method FindCountryWithSpacy(text: string, dir: Directory, gpes: seq<string>) returns (found: Option<string>)
    ensures found == CountryWithSpacy(text, dir, gpes)
  {
    found := GpeLoop(dir, gpes);
    if !Truthy(found) {
      var search := Take(text, 1000);
      if '/' in search {
        var first := WordAfterSlash(search);
        found := ScanCountries(dir, Fuzzy(Fold(Upper(first))), found, true);
      }
      if !Truthy(found) {
        found := WordLoop(dir, Split(Upper(search)), found);
      }
    }
  }

  /** Lines 171-188: the GPE texts in turn, until one stores a truthy name. */
  method GpeLoop(dir: Directory, gpes: seq<string>) returns (found: Option<string>)
    ensures found == GpeTier(dir, GpeTerms(gpes), None)
  {
    found := None;
    ghost var terms := GpeTerms(gpes);
    var g := 0;
    while g < |gpes|
      invariant 0 <= g <= |gpes|
      invariant GpeTier(dir, terms, None) == GpeTier(dir, terms[g..], found)
    {
      var term := Strip(Upper(gpes[g]));
      assert terms[g] == term;
      assert terms[g..][0] == term && terms[g..][1..] == terms[g + 1..];
      found := ScanCountries(dir, Exact(term), found, true);
      if Truthy(found) {
        return;
      }
      g := g + 1;
    }
  }

  /** Lines 237-251: the words in turn, until one stores a truthy name. */
  method WordLoop(dir: Directory, words: seq<string>, start: Option<string>) returns (found: Option<string>)
    ensures found == WordScan(dir, words, start)
  {
    found := start;
    var k := 0;
    while k < |words|
      invariant 0 <= k <= |words|
      invariant WordScan(dir, words, start) == WordScan(dir, words[k..], found)
    {
      var clean := TrimPunct(words[k]);
      WordScanAt(dir, words, k, clean, found);
      if |clean| >= 2 {
        found := ScanCountries(dir, Exact(clean), found, false);
        if Truthy(found) {
          return;
        }
      }
      k := k + 1;
    }
  }

  /** `WordScan` from word `k` on: that word's scan, then the rest unless it stored a truthy name. */
  lemma WordScanAt(dir: Directory, words: seq<string>, k: nat, clean: string, found: Option<string>)
    requires k < |words| && clean == TrimPunct(words[k])
    ensures |clean| >= 2 ==> var f := Scan(dir, Exact(clean), found, false);
      WordScan(dir, words[k..], found) == if Truthy(f) then f else WordScan(dir, words[k + 1..], f)
    ensures |clean| < 2 ==> WordScan(dir, words[k..], found) == WordScan(dir, words[k + 1..], found)
  {
    assert words[k..][0] == words[k] && words[k..][1..] == words[k + 1..];
  }

  /** What `Scan` returns is what it was given or the key of a country the term names. */
  lemma {:induction false} ScanSound(dir: Directory, t: Test, found: Option<string>, stopOnAlias: bool)
    ensures var r := Scan(dir, t, found, stopOnAlias);
      r == found || exists k :: 0 <= k < |dir| && Names(dir[k], t) && r == Some(dir[k].name)
  {
    if dir != [] && !Hit(t, dir[0].name) {
      var f := if AnyHit(t, dir[0].aliases) then Some(dir[0].name) else found;
      if !(stopOnAlias && Truthy(f)) {
        ScanSound(dir[1..], t, f, stopOnAlias);
        var r := Scan(dir[1..], t, f, stopOnAlias);
        if r != f {
          var k :| 0 <= k < |dir[1..]| && Names(dir[1..][k], t) && r == Some(dir[1..][k].name);
          assert dir[k + 1] == dir[1..][k];
        }
      }
    }
  }

  /** A term naming no country leaves `found_country` as it was. */
  lemma {:induction false} ScanMiss(dir: Directory, t: Test, found: Option<string>, stopOnAlias: bool)
    requires forall k :: 0 <= k < |dir| ==> !Names(dir[k], t)
    ensures Scan(dir, t, found, stopOnAlias) == found
  {
    if dir != [] {
      assert !Names(dir[0], t);
      assert forall k :: 0 <= k < |dir[1..]| ==> dir[1..][k] == dir[k + 1];
      ScanMiss(dir[1..], t, found, stopOnAlias);
    }
  }

  /** When names are non-empty and the loop stops at alias hits, a term naming a country stores a truthy name it names. */
  lemma {:induction false} ScanStops(dir: Directory, t: Test, found: Option<string>, k: nat)
    requires NamedCountries(dir) && !Truthy(found) && k < |dir| && Names(dir[k], t)
    ensures Truthy(Scan(dir, t, found, true))
    ensures exists p :: 0 <= p <= k && Names(dir[p], t) && Scan(dir, t, found, true) == Some(dir[p].name)
  {
    assert dir[0].name != [];
    if !Names(dir[0], t) {
      assert forall q :: 0 <= q < |dir[1..]| ==> dir[1..][q] == dir[q + 1];
      ScanStops(dir[1..], t, found, k - 1);
      var p :| 0 <= p <= k - 1 && Names(dir[1..][p], t) && Scan(dir[1..], t, found, true) == Some(dir[1..][p].name);
      assert Scan(dir, t, found, true) == Some(dir[p + 1].name);
    }
  }

  /** Some GPE term among the first `i + 1` names the country whose key `r` holds. */
  predicate FromGpe(dir: Directory, terms: seq<string>, i: nat, r: Option<string>) {
    exists g, p :: 0 <= g <= i && g < |terms| && 0 <= p < |dir| && Names(dir[p], Exact(terms[g])) && r == Some(dir[p].name)
  }

  /** The GPE loop stops at the first entity that names a country (non-empty names). */
  lemma {:induction false} GpeTierDecides(dir: Directory, terms: seq<string>, found: Option<string>, i: nat, k: nat)
    requires NamedCountries(dir) && !Truthy(found)
    requires i < |terms| && k < |dir| && Names(dir[k], Exact(terms[i]))
    ensures Truthy(GpeTier(dir, terms, found)) && FromGpe(dir, terms, i, GpeTier(dir, terms, found))
  {
    var f := Scan(dir, Exact(terms[0]), found, true);
    if i == 0 || Truthy(f) {
      assert Truthy(f) && (f == found || exists p :: 0 <= p < |dir| && Names(dir[p], Exact(terms[0])) && f == Some(dir[p].name)) by {
        if i == 0 {
          ScanStops(dir, Exact(terms[0]), found, k);
        } else {
          ScanSound(dir, Exact(terms[0]), found, true);
        }
      }
      GpeTierHead(dir, terms, found, i);
    } else {
      assert Truthy(GpeTier(dir, terms[1..], f)) && FromGpe(dir, terms[1..], i - 1, GpeTier(dir, terms[1..], f)) by {
        assert terms[1..][i - 1] == terms[i];
        GpeTierDecides(dir, terms[1..], f, i - 1, k);
      }
      GpeTierTail(dir, terms, found, i);
    }
  }

  lemma GpeTierHead(dir: Directory, terms: seq<string>, found: Option<string>, i: nat)
    requires terms != [] && !Truthy(found)
    requires var f := Scan(dir, Exact(terms[0]), found, true);
      Truthy(f) && (f == found || exists p :: 0 <= p < |dir| && Names(dir[p], Exact(terms[0])) && f == Some(dir[p].name))
    ensures Truthy(GpeTier(dir, terms, found)) && FromGpe(dir, terms, i, GpeTier(dir, terms, found))
  {
  }

  lemma GpeTierTail(dir: Directory, terms: seq<string>, found: Option<string>, i: nat)
    requires terms != [] && 0 < i
    requires var f := Scan(dir, Exact(terms[0]), found, true);
      !Truthy(f) && Truthy(GpeTier(dir, terms[1..], f)) && FromGpe(dir, terms[1..], i - 1, GpeTier(dir, terms[1..], f))
    ensures Truthy(GpeTier(dir, terms, found)) && FromGpe(dir, terms, i, GpeTier(dir, terms, found))
  {
    var f := Scan(dir, Exact(terms[0]), found, true);
    var r := GpeTier(dir, terms[1..], f);
    var g, p :| 0 <= g <= i - 1 && g < |terms[1..]| && 0 <= p < |dir| && Names(dir[p], Exact(terms[1..][g])) && r == Some(dir[p].name);
    assert terms[1..][g] == terms[g + 1];
  }

  /** GPE terms that name no country leave `found_country` as it was. */
  lemma {:induction false} GpeTierMiss(dir: Directory, terms: seq<string>, found: Option<string>)
    requires forall g, k :: 0 <= g < |terms| && 0 <= k < |dir| ==> !Names(dir[k], Exact(terms[g]))
    ensures GpeTier(dir, terms, found) == found
  {
    if terms != [] {
      ScanMiss(dir, Exact(terms[0]), found, true);
      assert forall g :: 0 <= g < |terms[1..]| ==> terms[1..][g] == terms[g + 1];
      GpeTierMiss(dir, terms[1..], found);
    }
  }

  /**
   * When some GPE text names a country exactly (and names are non-empty), the
   * result is a country named by one of the GPE texts up to that one: the
   * fallbacks do not run.
   */
  lemma GpeFirst(text: string, dir: Directory, gpes: seq<string>, i: nat, k: nat)
    requires NamedCountries(dir) && i < |gpes| && k < |dir| && Names(dir[k], Exact(Strip(Upper(gpes[i]))))
    ensures var r := CountryWithSpacy(text, dir, gpes);
      r == GpeTier(dir, GpeTerms(gpes), None) && FromGpe(dir, GpeTerms(gpes), i, r)
  {
    GpeTierDecides(dir, GpeTerms(gpes), None, i, k);
  }

  /** When no GPE text names a country exactly, the result is that of the fallbacks alone, as without spaCy. */
  lemma GpeUnmatched(text: string, dir: Directory, gpes: seq<string>)
    requires forall g, k :: 0 <= g < |gpes| && 0 <= k < |dir| ==> !Names(dir[k], Exact(Strip(Upper(gpes[g]))))
    ensures CountryWithSpacy(text, dir, gpes) == CountryWithSpacy(text, dir, [])
  {
    var terms := GpeTerms(gpes);
    forall g, k | 0 <= g < |terms| && 0 <= k < |dir| ensures !Names(dir[k], Exact(terms[g])) {
      assert terms[g] == Strip(Upper(gpes[g]));
    }
    GpeTierMiss(dir, terms, None);
    assert GpeTerms([]) == [];
    SameGpeTier(text, dir, gpes, []);
  }

  /** Only the GPE tier's result depends on the GPE texts. */
  lemma SameGpeTier(text: string, dir: Directory, gpes1: seq<string>, gpes2: seq<string>)
    requires GpeTier(dir, GpeTerms(gpes1), None) == GpeTier(dir, GpeTerms(gpes2), None)
    ensures CountryWithSpacy(text, dir, gpes1) == CountryWithSpacy(text, dir, gpes2)
  {
  }

  /** One scan returns what it was given or a key. */
  lemma ScanKeeps(dir: Directory, t: Test, found: Option<string>, stopOnAlias: bool)
    ensures var r := Scan(dir, t, found, stopOnAlias);
      r == found || (r.Some? && IsKey(dir, r.value))
  {
    ScanSound(dir, t, found, stopOnAlias);
    var r := Scan(dir, t, found, stopOnAlias);
    if r != found {
      var k :| 0 <= k < |dir| && Names(dir[k], t) && r == Some(dir[k].name);
    }
  }

  lemma {:induction false} GpeTierKeeps(dir: Directory, terms: seq<string>, found: Option<string>)
    ensures var r := GpeTier(dir, terms, found);
      r == found || (r.Some? && IsKey(dir, r.value))
  {
    if terms != [] {
      ScanKeeps(dir, Exact(terms[0]), found, true);
      var f := Scan(dir, Exact(terms[0]), found, true);
      GpeTierKeeps(dir, terms[1..], f);
    }
  }

  lemma SlashTierKeeps(dir: Directory, search: string, found: Option<string>)
    ensures var r := SlashTier(dir, search, found);
      r == found || (r.Some? && IsKey(dir, r.value))
  {
    if '/' in search {
      ScanKeeps(dir, Fuzzy(Fold(Upper(WordAfterSlash(search)))), found, true);
    }
  }

  lemma {:induction false} WordScanKeeps(dir: Directory, words: seq<string>, found: Option<string>)
    ensures var r := WordScan(dir, words, found);
      r == found || (r.Some? && IsKey(dir, r.value))
  {
    if words != [] {
      var clean := TrimPunct(words[0]);
      if |clean| >= 2 {
        ScanKeeps(dir, Exact(clean), found, false);
        WordScanKeeps(dir, words[1..], Scan(dir, Exact(clean), found, false));
      } else {
        WordScanKeeps(dir, words[1..], found);
      }
    }
  }

  /** `find_country_with_spacy` returns `None` or one of the directory's keys. */
  lemma CountryWithSpacyIsKey(text: string, dir: Directory, gpes: seq<string>)
    ensures CountryWithSpacy(text, dir, gpes).Some? ==> IsKey(dir, CountryWithSpacy(text, dir, gpes).value)
  {
    var g := GpeTier(dir, GpeTerms(gpes), None);
    GpeTierKeeps(dir, GpeTerms(gpes), None);
    if !Truthy(g) {
      var search := Take(text, 1000);
      SlashTierKeeps(dir, search, g);
      WordScanKeeps(dir, Split(Upper(search)), SlashTier(dir, search, g));
    }
  }

  /** A string of whitespace strips to nothing and has no words. */
  lemma BlankHasNoWords(s: string)
    requires forall m :: 0 <= m < |s| ==> IsSpace(s[m])
    ensures Strip(s) == [] && Split(Strip(s)) == []
  {
  }

  /**
   * Nothing but whitespace after the first `/` of the first 1000 characters,
   * when no GPE text decided: the first word is `""`, a substring of every
   * folded name, so the slash tier stores the first country. A non-empty name
   * is returned; an empty one is falsy, so the word tier runs on from it.
   */
  lemma SlashBlankGivesFirst(text: string, dir: Directory, gpes: seq<string>)
    requires !Truthy(GpeTier(dir, GpeTerms(gpes), None))
    requires dir != []
    requires '/' in Take(text, 1000)
    requires var search := Take(text, 1000);
      forall m :: IndexOf(search, '/') < m < |search| ==> IsSpace(search[m])
    ensures dir[0].name != [] ==> CountryWithSpacy(text, dir, gpes) == Some(dir[0].name)
    ensures dir[0].name == [] ==>
      CountryWithSpacy(text, dir, gpes) == WordScan(dir, Split(Upper(Take(text, 1000))), Some([]))
  {
    SlashTierBlank(dir, Take(text, 1000), GpeTier(dir, GpeTerms(gpes), None));
  }

  lemma SlashTierBlank(dir: Directory, search: string, found: Option<string>)
    requires dir != [] && '/' in search
    requires forall m :: IndexOf(search, '/') < m < |search| ==> IsSpace(search[m])
    ensures SlashTier(dir, search, found) == Some(dir[0].name)
  {
    var rest := search[IndexOf(search, '/') + 1..];
    assert forall m :: 0 <= m < |rest| ==> rest[m] == search[IndexOf(search, '/') + 1 + m];
    BlankHasNoWords(rest);
    assert WordAfterSlash(search) == "";
    assert Fold(Upper("")) == "";
    assert Hit(Fuzzy(""), dir[0].name);
  }
}
