/**
 * The taxonomy skill matcher of app/skills/extractor.py: n-gram generation,
 * the recursive lookup of an n-gram in the skill taxonomy, the set of all
 * taxonomy skills, and `extract_skills`.
 *
 * The taxonomy is the parsed JSON tree, passed in as a value (loading it from
 * disk is not modelled; a failed load is an `Err`).
 */
module Skills {
  import opened Wrappers
  import opened Text
  import opened Order
  import Cleaner

  /** A JSON value of the taxonomy, in the shapes the matcher distinguishes. */
  datatype Node =
    | Leaf(name: string, aliases: seq<string>) // a dict with a "name" key ("aliases" absent = [])
    | Category(entries: seq<Entry>)            // a dict without "name"
    | List(items: seq<Node>)                   // a list
    | Str(s: string)                           // a string
    | Other                                    // a number, boolean or null

  /** One key of a dict, in insertion order. */
  datatype Entry = Entry(key: string, value: Node)

  /** The taxonomy: the top-level dict from category name to category data. */
  type Taxonomy = seq<Entry>

  // ---------------------------------------------------------------------------
  // create_ngrams
  // ---------------------------------------------------------------------------

  /** The n-gram starting at word `i`: `" ".join(words[i:i+n]).lower()`. */
  function NGramAt(words: seq<string>, n: nat, i: nat): string
    requires i + n <= |words|
  {
    Lower(Join(words[i..i + n], " "))
  }

  /** How many n-grams of size `n` there are: `max(0, W - n + 1)`. */
  function CountOfSize(w: nat, n: nat): nat {
    if w + 1 >= n then w + 1 - n else 0
  }

  /** All n-grams of size `n`, left to right. */
  function NGramsOfSize(words: seq<string>, n: nat): (r: seq<string>)
    requires n >= 1
    ensures |r| == CountOfSize(|words|, n)
  {
    seq(CountOfSize(|words|, n), i requires 0 <= i < CountOfSize(|words|, n) => NGramAt(words, n, i))
  }

  /** The n-grams of sizes 1..m, by size and then left to right. */
  function NGrams(words: seq<string>, m: int): seq<string>
    decreases m
  {
    if m < 1 then [] else NGrams(words, m - 1) + NGramsOfSize(words, m)
  }

  /** `sum(max(0, W - n + 1) for n in 1..m)` */
  function TotalCount(w: nat, m: int): nat
    decreases m
  {
    if m < 1 then 0 else TotalCount(w, m - 1) + CountOfSize(w, m)
  }

  /** `create_ngrams(text, max_n)`. `str.split()` never yields an empty word, so the
      filter of empty words keeps every word. */
  method CreateNgrams(text: string, maxN: int) returns (ngrams: seq<string>)
    ensures ngrams == NGrams(Split(text), maxN)
  {
    var words := Split(text);
    ngrams := NGramLoops(words, maxN);
  }

  /** The nested loops of lines 42-45. */
  method NGramLoops(words: seq<string>, maxN: int) returns (ngrams: seq<string>)
    ensures ngrams == NGrams(words, maxN)
  {
    ngrams := [];
    var n := 1;
    while n <= maxN
      invariant 1 <= n && (n <= maxN + 1 || n == 1)
      invariant ngrams == NGrams(words, n - 1)
      decreases maxN - n
    {
      ghost var shorter := ngrams;
      var i := 0;
      while i < |words| - n + 1
        invariant 0 <= i <= CountOfSize(|words|, n)
        invariant ngrams == shorter + NGramsOfSize(words, n)[..i]
        decreases |words| - n + 1 - i
      {
        assert NGramsOfSize(words, n)[..i + 1] == NGramsOfSize(words, n)[..i] + [NGramAt(words, n, i)];
        ngrams := ngrams + [NGramAt(words, n, i)];
        i := i + 1;
      }
      assert NGramsOfSize(words, n)[..i] == NGramsOfSize(words, n);
      assert NGrams(words, n) == NGrams(words, n - 1) + NGramsOfSize(words, n);
      n := n + 1;
    }
  }

  /** The number of n-grams is the sum over n = 1..max_n of max(0, W - n + 1). */
  lemma {:induction false} NGramsCount(words: seq<string>, m: int)
    ensures |NGrams(words, m)| == TotalCount(|words|, m)
    decreases m
  {
    if m >= 1 {
      NGramsCount(words, m - 1);
    }
  }

  /** With the default `max_n = 3`: W words give 0, 1, 3 or 3W - 3 n-grams. */
  lemma NGramsCountThree(words: seq<string>)
    ensures |NGrams(words, 3)| == if |words| <= 1 then |words| else if |words| == 2 then 3 else 3 * |words| - 3
  {
    NGramsCount(words, 3);
  }

  /** Order and content: the n-gram of size n at word i sits at position
      TotalCount(W, n - 1) + i, after every shorter n-gram. */
  lemma {:induction false} NGramsPosition(words: seq<string>, m: int, n: nat, i: nat)
    requires 1 <= n <= m && i + n <= |words|
    ensures TotalCount(|words|, n - 1) + i < |NGrams(words, m)|
    ensures NGrams(words, m)[TotalCount(|words|, n - 1) + i] == NGramAt(words, n, i)
    decreases m
  {
    NGramsCount(words, m - 1);
    NGramsCount(words, n - 1);
    if n < m {
      NGramsPosition(words, m - 1, n, i);
    }
  }

  /** Every n-gram is n consecutive words, joined by single spaces and lower-cased. */
  lemma {:induction false} NGramsContent(words: seq<string>, m: int, k: nat)
    requires k < |NGrams(words, m)|
    ensures exists n: nat, i: nat :: 1 <= n <= m && i + n <= |words| && NGrams(words, m)[k] == NGramAt(words, n, i)
    ensures forall j :: 0 <= j < |NGrams(words, m)[k]| ==> !IsUpperLetter(NGrams(words, m)[k][j])
    decreases m
  {
    NGramsCount(words, m - 1);
    var prev := NGrams(words, m - 1);
    if k < |prev| {
      NGramsContent(words, m - 1, k);
      assert NGrams(words, m)[k] == prev[k];
    } else {
      var i := k - |prev|;
      assert NGrams(words, m)[k] == NGramsOfSize(words, m)[i];
      assert NGrams(words, m)[k] == NGramAt(words, m, i);
    }
  }

  // ---------------------------------------------------------------------------
  // search_in_category, search_in_taxonomy
  // ---------------------------------------------------------------------------

  /** The name or some alias, lower-cased, equals the target. */
  predicate LeafMatches(name: string, aliases: seq<string>, target: string) {
    Lower(name) == target || exists a :: a in aliases && Lower(a) == target
  }

  /** A list item that `search_in_category` returns: a string whose lower case is the target. */
  predicate StrMatches(item: Node, target: string) {
    item.Str? && Lower(item.s) == target
  }

  /** The alias loop of lines 61-64. */
  function AnyAliasMatches(aliases: seq<string>, target: string): (b: bool)
    ensures b <==> exists a :: a in aliases && Lower(a) == target
  {
    if aliases == [] then false
    else if Lower(aliases[0]) == target then
      assert aliases[0] in aliases;
      true
    else
      var r := AnyAliasMatches(aliases[1..], target);
      assert r ==> exists a :: a in aliases[1..] && Lower(a) == target;
      assert r ==> exists a :: a in aliases && Lower(a) == target;
      assert (exists a :: a in aliases && Lower(a) == target) ==> exists a :: a in aliases[1..] && Lower(a) == target;
      r
  }

  /** `search_in_category(data, target)`. */
  function SearchInCategory(data: Node, target: string): (r: Option<string>)
    ensures data.Leaf? ==> (r.Some? <==> LeafMatches(data.name, data.aliases, target))
    ensures data.Leaf? && r.Some? ==> r.value == data.name
    ensures data.List? ==> (r.Some? <==> exists i :: 0 <= i < |data.items| && StrMatches(data.items[i], target))
    ensures data.List? && r.Some? ==> exists i :: (0 <= i < |data.items| && StrMatches(data.items[i], target)
      && r.value == data.items[i].s && forall j :: 0 <= j < i ==> !StrMatches(data.items[j], target))
    ensures data.Category? && r.Some? ==> Truthy(r)
    ensures (data.Str? || data.Other?) ==> r == None
    decreases data, 1
  {
    match data
    case Leaf(name, aliases) =>
      if Lower(name) == target then Some(name)
      else if AnyAliasMatches(aliases, target) then Some(name)
      else None
    case Category(entries) => FirstHit(entries, target)
    case List(items) => FirstString(items, target)
    case Str(_) => None
    case Other => None
  }

  /** The loop over a dict's values (lines 67-70 and 83-86): the first truthy result. */
  function FirstHit(entries: seq<Entry>, target: string): (r: Option<string>)
    ensures r.Some? ==> Truthy(r)
    ensures r.Some? ==> exists i :: (0 <= i < |entries| && SearchInCategory(entries[i].value, target) == r
      && forall j :: 0 <= j < i ==> !Truthy(SearchInCategory(entries[j].value, target)))
    ensures r.None? ==> forall i :: 0 <= i < |entries| ==> !Truthy(SearchInCategory(entries[i].value, target))
    decreases entries, 0
  {
    if entries == [] then None
    else
      var result := SearchInCategory(entries[0].value, target);
      if Truthy(result) then result
      else
        var rest := FirstHit(entries[1..], target);
        assert forall i :: 1 <= i < |entries| ==> entries[i] == entries[1..][i - 1];
        rest
  }

  /** The loop over a list's items (lines 73-75): the first string item matching the target. */
  function FirstString(items: seq<Node>, target: string): (r: Option<string>)
    ensures r.Some? <==> exists i :: 0 <= i < |items| && StrMatches(items[i], target)
    ensures r.Some? ==> exists i :: (0 <= i < |items| && StrMatches(items[i], target)
      && r.value == items[i].s && forall j :: 0 <= j < i ==> !StrMatches(items[j], target))
  {
    if items == [] then None
    else if StrMatches(items[0], target) then Some(items[0].s)
    else
      var rest := FirstString(items[1..], target);
      assert forall i :: 1 <= i < |items| ==> items[i] == items[1..][i - 1];
      rest
  }

  /** `search_in_taxonomy(ngram, taxonomy)`: the first truthy category result, in insertion order. */
  function SearchInTaxonomy(ngram: string, taxonomy: Taxonomy): (r: Option<string>)
    ensures r.Some? ==> Truthy(r)
    ensures r.Some? ==> exists i :: (0 <= i < |taxonomy|
      && SearchInCategory(taxonomy[i].value, Lower(ngram)) == r
      && forall j :: 0 <= j < i ==> !Truthy(SearchInCategory(taxonomy[j].value, Lower(ngram))))
    ensures r.None? ==> forall i :: 0 <= i < |taxonomy| ==> !Truthy(SearchInCategory(taxonomy[i].value, Lower(ngram)))
  {
    FirstHit(taxonomy, Lower(ngram))
  }

  // ---------------------------------------------------------------------------
  // get_all_unique_skills_from_taxonomy / collect_skills
  // ---------------------------------------------------------------------------

  /** What `collect_skills(data)` adds to the set. */
  function Collected(data: Node): set<string>
    decreases data, 1
  {
    match data
    case Leaf(name, _) => {Lower(name)}
    case Category(entries) => EntriesCollected(entries)
    case List(items) => ItemsCollected(items)
    case Str(_) => {}
    case Other => {}
  }

  function EntriesCollected(entries: seq<Entry>): set<string>
    decreases entries, 0
  {
    if entries == [] then {} else Collected(entries[0].value) + EntriesCollected(entries[1..])
  }

  /** A list contributes its strings, lower-cased, and what its dict items collect. */
  function ItemsCollected(items: seq<Node>): set<string>
    decreases items, 0
  {
    if items == [] then {}
    else
      var first := match items[0]
        case Str(s) => {Lower(s)}
        case Leaf(_, _) => Collected(items[0])
        case Category(_) => Collected(items[0])
        case _ => {};
      first + ItemsCollected(items[1..])
  }

  /** The nested `collect_skills`, adding into `acc`. */
  method CollectSkills(data: Node, acc: set<string>) returns (unique: set<string>)
    ensures unique == acc + Collected(data)
    decreases data, 1
  {
    unique := acc;
    match data {
      case Leaf(name, _) =>
        unique := unique + {Lower(name)};
      case Category(entries) =>
        var k := 0;
        while k < |entries|
          invariant 0 <= k <= |entries|
          invariant unique + EntriesCollected(entries[k..]) == acc + EntriesCollected(entries)
        {
          assert entries[k..] == [entries[k]] + entries[k + 1..];
          unique := CollectSkills(entries[k].value, unique);
          k := k + 1;
        }
      case List(items) =>
        var k := 0;
        while k < |items|
          invariant 0 <= k <= |items|
          invariant unique + ItemsCollected(items[k..]) == acc + ItemsCollected(items)
        {
          assert items[k..] == [items[k]] + items[k + 1..];
          var item := items[k];
          if item.Str? {
            unique := unique + {Lower(item.s)};
          } else if item.Leaf? || item.Category? {
            unique := CollectSkills(item, unique);
          }
          k := k + 1;
        }
      case Str(_) =>
      case Other =>
    }
  }

  /** The set `get_all_unique_skills_from_taxonomy` returns. */
  function TaxonomySkills(taxonomy: Taxonomy): set<string> {
    EntriesCollected(taxonomy)
  }

  /** `get_all_unique_skills_from_taxonomy()`, on an already loaded taxonomy. */
  method AllUniqueSkills(taxonomy: Taxonomy) returns (unique: set<string>)
    ensures unique == TaxonomySkills(taxonomy)
  {
    unique := {};
    var k := 0;
    while k < |taxonomy|
      invariant 0 <= k <= |taxonomy|
      invariant unique + EntriesCollected(taxonomy[k..]) == EntriesCollected(taxonomy)
    {
      assert taxonomy[k..] == [taxonomy[k]] + taxonomy[k + 1..];
      unique := CollectSkills(taxonomy[k].value, unique);
      k := k + 1;
    }
  }

  lemma {:induction false} EntriesCollectedHas(entries: seq<Entry>, i: nat)
    requires i < |entries|
    ensures Collected(entries[i].value) <= EntriesCollected(entries)
    decreases i
  {
    if i > 0 {
      EntriesCollectedHas(entries[1..], i - 1);
      assert entries[1..][i - 1] == entries[i];
    }
  }

  lemma {:induction false} ItemsCollectedHasString(items: seq<Node>, i: nat)
    requires i < |items| && items[i].Str?
    ensures Lower(items[i].s) in ItemsCollected(items)
    decreases i
  {
    if i > 0 {
      ItemsCollectedHasString(items[1..], i - 1);
      assert items[1..][i - 1] == items[i];
    }
  }

  /** Soundness of the lookup: whatever `search_in_category` returns, lower-cased, is in the
      set `collect_skills` builds for the same data. */
  lemma {:induction false} SearchInCategorySound(data: Node, target: string)
    requires SearchInCategory(data, target).Some?
    ensures Lower(SearchInCategory(data, target).value) in Collected(data)
    decreases data
  {
    var r := SearchInCategory(data, target);
    match data
    case Leaf(name, _) =>
    case Category(entries) =>
      var i :| 0 <= i < |entries| && SearchInCategory(entries[i].value, target) == r
        && forall j :: 0 <= j < i ==> !Truthy(SearchInCategory(entries[j].value, target));
      SearchInCategorySound(entries[i].value, target);
      EntriesCollectedHas(entries, i);
    case List(items) =>
      var i :| 0 <= i < |items| && StrMatches(items[i], target) && r.value == items[i].s
        && forall j :: 0 <= j < i ==> !StrMatches(items[j], target);
      ItemsCollectedHasString(items, i);
  }

  /** Soundness of `search_in_taxonomy` against `get_all_unique_skills_from_taxonomy`. */
  lemma SearchInTaxonomySound(ngram: string, taxonomy: Taxonomy)
    requires SearchInTaxonomy(ngram, taxonomy).Some?
    ensures Lower(SearchInTaxonomy(ngram, taxonomy).value) in TaxonomySkills(taxonomy)
  {
    var r := SearchInTaxonomy(ngram, taxonomy);
    var i :| 0 <= i < |taxonomy| && SearchInCategory(taxonomy[i].value, Lower(ngram)) == r
      && forall j :: 0 <= j < i ==> !Truthy(SearchInCategory(taxonomy[j].value, Lower(ngram)));
    SearchInCategorySound(taxonomy[i].value, Lower(ngram));
    EntriesCollectedHas(taxonomy, i);
  }

  // ---------------------------------------------------------------------------
  // extract_skills
  // ---------------------------------------------------------------------------

  /** The skills the n-gram loop of lines 102-105 finds. */
  function FoundSkills(ngrams: seq<string>, taxonomy: Taxonomy): set<string> {
    set k | 0 <= k < |ngrams| && SearchInTaxonomy(ngrams[k], taxonomy).Some? :: SearchInTaxonomy(ngrams[k], taxonomy).value
  }

  /** The characters that mark a compound skill (line 119). */
  predicate IsCompoundMark(c: char) {
    c == '+' || c == '#' || c == '/' || c == '&' || c == '.' || c == '-'
  }

  /** Another found skill, longer than one character, that starts with `skill` (ignoring
      case) and contains a compound mark (lines 131-137). */
  predicate HasCompoundSibling(skill: string, found: set<string>)
    requires |skill| == 1
  {
    exists other :: other in found && other != skill && |other| > 1
      && Upper(other)[0] == Upper(skill)[0]
      && exists j :: 0 <= j < |other| && IsCompoundMark(other[j])
  }

  /** The filter of lines 121-145: long skills are kept; a single-character one only when it
      is a word of the text (ignoring case) and has no compound sibling. */
  predicate Kept(skill: string, found: set<string>, words: seq<string>) {
    |skill| != 1 || (Upper(skill) in UpperWordSet(words) && !HasCompoundSibling(skill, found))
  }

  /** `{word.upper() for word in words}` (line 116). */
  function UpperWordSet(words: seq<string>): (u: set<string>)
    ensures forall x :: x in u <==> exists w :: w in words && Upper(w) == x
  {
    set w | w in words :: Upper(w)
  }

  /** The skills of `text` that `extract_skills` returns, as a set. */
  function SkillsOf(text: string, taxonomy: Taxonomy): set<string> {
    var normalized := Cleaner.NormalizePunctuation(text);
    var found := FoundSkills(NGrams(Split(normalized), 3), taxonomy);
    set s | s in found && Kept(s, found, Split(normalized))
  }

  /** `extract_skills(text)`, with the result of `load_taxonomy()` passed in. */
  method ExtractSkills(text: string, taxonomy: Result<Taxonomy>) returns (r: Result<seq<string>>)
    ensures taxonomy.Err? ==> r == Err(taxonomy.message)
    ensures taxonomy.Ok? ==> (r.Ok? && StrictlySorted(r.value)
      && forall s :: s in r.value <==> s in SkillsOf(text, taxonomy.value))
    ensures taxonomy.Ok? && text == [] ==> r == Ok([])
  {
    var normalized := Cleaner.NormalizePunctuation(text);
    if taxonomy.Err? {
      return Err(taxonomy.message);
    }
    var tax := taxonomy.value;
    var ngrams := CreateNgrams(normalized, 3);
    var found := MatchNgrams(ngrams, tax);
    var filtered := FilterSkills(found, Split(normalized));
    assert filtered == SkillsOf(text, tax);
    var sorted := SortedList(filtered);
    if text == [] {
      NoSkillsInEmptyText(tax);
      HeadIn(sorted);
    }
    r := Ok(sorted);
  }

  /** The n-gram loop of lines 99-105. */
  method MatchNgrams(ngrams: seq<string>, taxonomy: Taxonomy) returns (found: set<string>)
    ensures found == FoundSkills(ngrams, taxonomy)
  {
    found := {};
    for k := 0 to |ngrams|
      invariant found == FoundSkills(ngrams[..k], taxonomy)
    {
      var result := SearchInTaxonomy(ngrams[k], taxonomy);
      if Truthy(result) {
        found := found + {result.value};
      }
      FoundSkillsStep(ngrams, taxonomy, k);
    }
    assert ngrams[..|ngrams|] == ngrams;
  }

  /** The kept skills among `xs`. */
  function KeptAmong(xs: set<string>, found: set<string>, words: seq<string>): set<string> {
    set s | s in xs && Kept(s, found, words)
  }

  /** The filter loop of lines 112-145 over the found skills. */
  method FilterSkills(found: set<string>, words: seq<string>) returns (filtered: set<string>)
    ensures filtered == KeptAmong(found, found, words)
  {
    filtered := {};
    var wordsSet := UpperWordSet(words);
    var rest := found;
    while rest != {}
      invariant rest <= found
      invariant filtered == KeptAmong(found - rest, found, words)
      decreases rest
    {
      var skill :| skill in rest;
      ghost var before := filtered;
      if |skill| == 1 {
        var skillChar := Upper(skill);
        var isStandaloneWord := skillChar in wordsSet;
        if isStandaloneWord {
          var hasCompound := HasCompoundSibling(skill, found);
          if !hasCompound {
            filtered := filtered + {skill};
          }
        }
      } else {
        filtered := filtered + {skill};
      }
      assert filtered == if Kept(skill, found, words) then before + {skill} else before;
      assert found - (rest - {skill}) == (found - rest) + {skill};
      rest := rest - {skill};
    }
  }

  lemma FoundSkillsStep(ngrams: seq<string>, taxonomy: Taxonomy, k: nat)
    requires k < |ngrams|
    ensures FoundSkills(ngrams[..k + 1], taxonomy) == FoundSkills(ngrams[..k], taxonomy)
      + (if Truthy(SearchInTaxonomy(ngrams[k], taxonomy)) then {SearchInTaxonomy(ngrams[k], taxonomy).value} else {})
  {
    var a := ngrams[..k];
    var b := ngrams[..k + 1];
    assert forall j :: 0 <= j < k ==> b[j] == a[j];
    assert b[k] == ngrams[k];
  }

  /** Every output entry is the taxonomy match of some n-gram of the normalised text. */
  lemma ExtractedAreMatches(text: string, taxonomy: Taxonomy, s: string)
    requires s in SkillsOf(text, taxonomy)
    ensures exists ngram :: (ngram in NGrams(Split(Cleaner.NormalizePunctuation(text)), 3)
      && SearchInTaxonomy(ngram, taxonomy) == Some(s))
  {
    var ngrams := NGrams(Split(Cleaner.NormalizePunctuation(text)), 3);
    var k :| 0 <= k < |ngrams| && SearchInTaxonomy(ngrams[k], taxonomy).Some? && SearchInTaxonomy(ngrams[k], taxonomy).value == s;
    assert ngrams[k] in ngrams;
  }

  /** Every matched skill longer than one character is in the output. */
  lemma LongSkillsKept(text: string, taxonomy: Taxonomy, ngram: string)
    requires ngram in NGrams(Split(Cleaner.NormalizePunctuation(text)), 3)
    requires SearchInTaxonomy(ngram, taxonomy).Some? && |SearchInTaxonomy(ngram, taxonomy).value| > 1
    ensures SearchInTaxonomy(ngram, taxonomy).value in SkillsOf(text, taxonomy)
  {
    var ngrams := NGrams(Split(Cleaner.NormalizePunctuation(text)), 3);
    var k :| 0 <= k < |ngrams| && ngrams[k] == ngram;
    var found := FoundSkills(ngrams, taxonomy);
    assert SearchInTaxonomy(ngram, taxonomy).value in found;
    assert Kept(SearchInTaxonomy(ngram, taxonomy).value, found, Split(Cleaner.NormalizePunctuation(text)));
  }

  /** A matched single-character skill is output exactly when it is, ignoring case, a word of
      the normalised text and no other matched skill longer than one character starts with it
      while containing one of `+ # / & . -`. */
  lemma SingleCharSkills(text: string, taxonomy: Taxonomy, skill: string)
    requires skill in FoundSkills(NGrams(Split(Cleaner.NormalizePunctuation(text)), 3), taxonomy)
    requires |skill| == 1
    ensures var words := Split(Cleaner.NormalizePunctuation(text));
      skill in SkillsOf(text, taxonomy) <==>
        (exists w :: w in words && Upper(w) == Upper(skill))
        && !HasCompoundSibling(skill, FoundSkills(NGrams(words, 3), taxonomy))
  {
    var words := Split(Cleaner.NormalizePunctuation(text));
    assert Upper(skill) in UpperWordSet(words) <==> exists w :: w in words && Upper(w) == Upper(skill);
  }

  /** Empty text has no words, hence no n-grams and no skills. */
  lemma NoSkillsInEmptyText(taxonomy: Taxonomy)
    ensures SkillsOf("", taxonomy) == {}
  {
    assert Cleaner.NormalizePunctuation("") == "";
    assert Split("") == [];
    assert NGrams([], 3) == [];
  }
}
