# MatchaTask résumé extractor, modelled in Dafny

This project models the text-processing core of the MatchaTask résumé
analyser and proves properties of that model. It covers four parts:

- **Text normalisation** (`app/cv/cleaner.py`): `clean_text`,
  `remove_special_characters` and `normalize_punctuation_for_skills`
  (module `Cleaner`, file `cleaner.dfy`).
- **Taxonomy skill matcher** (`app/skills/extractor.py`): n-gram creation,
  the recursive lookup in the skill tree, `extract_skills` with its
  single-character filter, and the `collect_skills` closure (module `Skills`,
  file `skills.dfy`). `sorted(...)` over strings is module `Order`.
- **Personal-information heuristics** (`app/cv/info_extractor.py`):
  - name picking from the first 15 lines and the name made from the email
    (`Names`);
  - the two country look-ups (`Countries`);
  - city and region extraction (`Location`);
  - the email, phone, GitHub, LinkedIn and website patterns (`Contacts`,
    over the small regular-expression engine `Patterns`);
  - `extract_personal_info` (`Personal`).
- **Record assembly** (`app/cv/advanced_ai_extractor.py`,
  `extract_structured_info`): field isolation and the keyword-driven summary
  (module `Structured`).

Shared pieces are `Wrappers` (`Option`, `Result`, Python truthiness of an
optional string) and `Text`. `Text` holds the string operations of Python the
code relies on: `split()`, `split('\n')`, `strip()`, `lower()`, `upper()`,
`isupper()`, `in` and `find`.

Inputs the source loads or computes outside the core are parameters:

- The skill taxonomy is a `Result<Taxonomy>`. An `Err` stands for a failed
  `load_taxonomy`.
- The country directory is a sequence of `(name, aliases)` entries, in the
  insertion order of the JSON dictionary.
- The GPE entity texts spaCy would find are a `seq<string>`.

Python dictionaries become datatypes:

- the `extract_personal_info` result is `Personal.PersonalInfo`;
- the `structured` dictionary is `Structured.StructuredInfo`.

Loops of the source are Dafny `method`s with `while` loops and invariants. Each
method but one is proved equal to a function that specifies it. Every property is
then proved about those functions. The exception is `Personal.JoinedLinkedIn`,
the joined-lines LinkedIn search: it is proved to find nothing whenever the
direct search found nothing, which is the only case in which it runs.

Some behaviours differ from what the code's comments suggest; the model
follows the code:

- **Placeholders do not survive.** The protective placeholders of
  `normalize_punctuation_for_skills` are cut apart at their underscores, so
  `C++` comes out as `C PLUS PLUS TEMP`.
- **Location takes two runs of capitals.** It is built from the first two
  maximal runs of capitals before the `/`: `SAN FRANCISCO, CA /` gives
  `SAN, FRANCISCO`.
- **Country is never set.** The `country` entry of `personal_info` is always
  empty.
- **Two fallbacks never change anything:**
  - the multi-word location pattern;
  - the joined-lines LinkedIn search.
- **The country word tier does not stop at an alias match.** The `break` at
  `app/cv/info_extractor.py:249` only leaves the alias loop, so the scan over
  countries goes on. It returns the first exact name match, and failing that
  the last alias match.

## Model

| member | source | states |
|---|---|---|
| Order.SortedList | app/skills/extractor.py:147 | `sorted(list(s))`: the result is strictly increasing in code-point order and holds exactly the members of the set |
| Order.SortedUnique | app/skills/extractor.py:147 | two strictly sorted lists with the same members are equal, so the sorted list of a set is unique |
| Order.LessTotal | app/skills/extractor.py:147 | the string order is total; with `LessIrreflexive` and `LessTransitive` it is a strict total order |
| Cleaner.CleanText | app/cv/cleaner.py:6-18 | `clean_text`: NFKD, the newline-run cap, the blank and tab collapsing and the spaces next to newlines dropped, then strip; its output shape is stated by `CleanTextShape` |
| Cleaner.CleanTextShape | app/cv/cleaner.py:6-18 | empty input gives `""`; the output has no tab, no two adjacent spaces, no space before or after a newline, and no leading or trailing whitespace |
| Cleaner.CollapseRunsShape | app/cv/cleaner.py:13 | collapsing `[ \t]+` runs leaves no two adjacent spaces and no tab, keeps emptiness, and fixes the first character |
| Cleaner.DropBeforeShape | app/cv/cleaner.py:14 | deleting spaces before newlines keeps the earlier guarantees and leaves no space before a newline |
| Cleaner.DropAfterShape | app/cv/cleaner.py:15 | deleting spaces after newlines keeps the earlier guarantees and leaves no space after a newline |
| Cleaner.CleanTextThreeNewlines | app/cv/cleaner.py:12-16 | newline runs are not bounded by two: `"a\n\n \nb"` is cleaned to `"a\n\n\nb"` |
| Cleaner.NfkdIdentity | app/cv/cleaner.py:11 | text whose characters do not decompose is its own NFKD form |
| Cleaner.RemoveSpecialCharacters | app/cv/cleaner.py:21-41 | `remove_special_characters`: the control-character substitution of the chosen mode, the `\r` deletion and the strip; proved one order-keeping filter by `RemoveSpecialIsOneFilter` |
| Cleaner.RemoveSpecialIsOneFilter | app/cv/cleaner.py:21-41 | empty input gives `""`; otherwise the result is the stripped input with the control characters of the chosen mode and `\r` filtered out, order kept |
| Cleaner.RemoveSpecialIsSubsequence | app/cv/cleaner.py:22-41 | the result is the input with characters deleted: a subsequence of it |
| Cleaner.RemoveSpecialNoControls | app/cv/cleaner.py:31-39 | no character of the deleted class is left and no `\r`; without `keep_newlines` no character at or below 0x1F and no 0x7F is left |
| Cleaner.RemoveSpecialKeepsLineBreaks | app/cv/cleaner.py:31-39 | with `keep_newlines` every newline and every tab of the input survives both substitutions, as many times as it occurs, before the final strip |
| Cleaner.FilterMembers | app/cv/cleaner.py:33-39 | a character is in a filtered string exactly when it is in the input and kept |
| Cleaner.NormalizePunctuation | app/cv/cleaner.py:44-69 | `normalize_punctuation_for_skills`: protect, translate, restore, collapse spaces and strip; its shape and fixed points are stated by the lemmas below |
| Cleaner.RestoreIsNoOp | app/cv/cleaner.py:57-64 | after `translate` none of the four placeholders is left, so the restoring replacements change nothing |
| Cleaner.TranslateNoPunct | app/cv/cleaner.py:57-58 | after `translate` no ASCII punctuation other than `/` and `&` is left |
| Cleaner.NormalizeSkipsRestore | app/cv/cleaner.py:50-69 | for non-empty input the result is protect, translate, collapse and strip, with the restoring step dropped |
| Cleaner.NormalizePunctuationShape | app/cv/cleaner.py:44-69 | empty input gives `""`; the output has no punctuation other than `/` and `&`, no two adjacent spaces, and no leading or trailing whitespace |
| Cleaner.NormalizeUnprotected | app/cv/cleaner.py:57-69 | input without `C++`, `C#`, `Pro/Engineer` and `GD&T` is translated, space-collapsed and stripped, and nothing else |
| Cleaner.PlaceholderIsNotProtected | app/cv/cleaner.py:50-53 | the `C++` placeholder is untouched by the later protective replacements |
| Cleaner.CPlusPlusIsNotRestored | app/cv/cleaner.py:50-64 | `C++` is normalised to `C PLUS PLUS TEMP` |
| Cleaner.NormalizeFixedPoint | app/cv/cleaner.py:44-69 | a string already in the output shape and holding neither `Pro/Engineer` nor `GD&T` is left unchanged |
| Cleaner.NormalizeIdempotent | app/cv/cleaner.py:44-69 | normalising twice equals normalising once when the first result holds neither `Pro/Engineer` nor `GD&T` |
| Cleaner.NormalizeNotIdempotent | app/cv/cleaner.py:44-69 | without that requirement normalising is not idempotent: `GD&Tro/Engineer` gives `GD AMPERSAND T TEMPro/Engineer`, which a second pass changes again |
| Skills.NGrams | app/skills/extractor.py:32-47 | the n-grams of sizes 1 to max_n for a word list; their count, order and content are stated by `NGramsCount`, `NGramsPosition` and `NGramsContent` |
| Skills.CreateNgrams | app/skills/extractor.py:32-47 | the nested loops produce exactly the n-gram sequence `NGrams(split(text), max_n)` |
| Skills.NGramsCount | app/skills/extractor.py:42-45 | with W words there are the sum over n = 1..max_n of max(0, W-n+1) n-grams |
| Skills.NGramsCountThree | app/skills/extractor.py:98 | for max_n = 3: W n-grams when W <= 1, 3 when W = 2, and 3W-3 otherwise |
| Skills.NGramsPosition | app/skills/extractor.py:42-45 | the n-gram of size n at word i sits at index (count of smaller n-grams) + i: ordered by n, then left to right |
| Skills.NGramsContent | app/skills/extractor.py:34-45 | every n-gram is n consecutive words joined by single spaces and lower-cased, and holds no upper-case letter |
| Skills.AnyAliasMatches | app/skills/extractor.py:61-64 | true exactly when some alias, lower-cased, equals the target |
| Skills.SearchInCategory | app/skills/extractor.py:51-76 | a leaf returns its name exactly when the name or an alias matches and never descends; a list returns the first string item that matches, in its own case; a category returns only a truthy result; strings and other values return nothing |
| Skills.FirstHit | app/skills/extractor.py:67-70 | the values of a category are tried in order; the result is the first truthy sub-result, and nothing when there is none |
| Skills.FirstString | app/skills/extractor.py:73-75 | a list yields its first matching string item; dictionaries inside lists never match |
| Skills.SearchInTaxonomy | app/skills/extractor.py:80-88 | the lower-cased n-gram is looked up category by category in insertion order; the result is the first truthy hit |
| Skills.SearchInCategorySound | app/skills/extractor.py:158-170 | what `search_in_category` returns, lower-cased, is collected by `collect_skills` |
| Skills.SearchInTaxonomySound | app/skills/extractor.py:158-175 | any skill `search_in_taxonomy` returns, lower-cased, is in the set of `get_all_unique_skills_from_taxonomy` |
| Skills.CollectSkills | app/skills/extractor.py:158-170 | the recursive collection adds to the set exactly the lower-cased leaf names and list strings of a node, descending into categories and into dictionaries inside lists |
| Skills.AllUniqueSkills | app/skills/extractor.py:151-175 | the loop over categories produces the collected skills of the whole taxonomy |
| Skills.MatchNgrams | app/skills/extractor.py:102-105 | the found set is exactly the truthy taxonomy matches of the n-grams |
| Skills.FoundSkillsStep | app/skills/extractor.py:102-105 | adding one n-gram adds its truthy match, if any, and nothing else |
| Skills.FilterSkills | app/skills/extractor.py:121-145 | the filter keeps exactly the long skills and the single-character skills that pass the standalone-word and compound tests |
| Skills.SkillsOf | app/skills/extractor.py:92-145 | the set of filtered taxonomy matches of the normalised text that `extract_skills` sorts; `ExtractSkills`, `ExtractedAreMatches`, `LongSkillsKept` and `SingleCharSkills` state what it holds |
| Skills.ExtractSkills | app/skills/extractor.py:92-147 | a taxonomy error is passed on; otherwise the result is strictly sorted and holds exactly the filtered skills; empty text gives `[]` |
| Skills.ExtractedAreMatches | app/skills/extractor.py:99-106 | every output skill is the taxonomy match of some n-gram of the normalised text |
| Skills.LongSkillsKept | app/skills/extractor.py:143-145 | every matched skill longer than one character is output |
| Skills.SingleCharSkills | app/skills/extractor.py:121-142 | a matched one-character skill is output exactly when it equals some word ignoring case and has no compound sibling |
| Skills.NoSkillsInEmptyText | app/skills/extractor.py:92-106 | empty text matches no skill |
| Names.LineName | app/cv/info_extractor.py:37-66 | what one line yields: nothing for a skipped line, the whole line, or its first two words; `LineNameShape` states the shape of what it yields |
| Names.NameIn | app/cv/info_extractor.py:33-68 | the first name any line yields; `NameInFirst` states that the first line yielding one decides |
| Names.ExtractName | app/cv/info_extractor.py:33-68 | the line loop returns the name the first 15 lines give, as `NameIn` chooses it |
| Names.NameInFirst | app/cv/info_extractor.py:36-68 | the result comes from the first line that yields a name; nothing is found exactly when no line yields one |
| Names.LineNameShape | app/cv/info_extractor.py:37-66 | a line's name comes from a non-empty stripped line without `@`, `http` or three digits that is not a short heading; it is 2-4 capitalised leading words of it, shorter than 60, and either the whole line or its first two words joined by one space, of length 5-30 |
| Names.Capitalize | app/cv/info_extractor.py:78 | `capitalize()` keeps the length, upper-cases the first character and lower-cases the rest |
| Names.NameFromEmail | app/cv/info_extractor.py:70-80 | empty email gives nothing; otherwise a name exists exactly when the digit-free local part has 3-20 characters, and it is that part capitalised, of the same length, without digits or `@` |
| Names.NameFromEmailLocalOnly | app/cv/info_extractor.py:74 | only the part before the first `@` matters |
| Countries.Lookup | app/cv/info_extractor.py:109-117 | a look-up over the directory returns only a key of it |
| Countries.LookupIn | app/cv/info_extractor.py:109-117 | the country loop with its alias loop returns the look-up's result |
| Countries.LookupFindsNamed | app/cv/info_extractor.py:109-117 | when some country names the word, the first such country is returned |
| Countries.LookupSound | app/cv/info_extractor.py:109-117 | a returned key names the word by its name or an alias, upper-cased |
| Countries.LookupNone | app/cv/info_extractor.py:109-117 | nothing is returned exactly when no country names the word |
| Countries.PhraseTier | app/cv/info_extractor.py:120-132 | the phrase tier: the first 1, 2 or 3 words joined, looked up in that order; any result is a key |
| Countries.WordTier | app/cv/info_extractor.py:135-148 | the word tier: each word of at least two characters looked up in turn; any result is a key |
| Countries.PhraseTierSound | app/cv/info_extractor.py:120-132 | a country found by the phrase tier is named by one of the first 1-3 words joined |
| Countries.WordTierSound | app/cv/info_extractor.py:135-148 | a country found by the word tier is named by some word of at least two characters |
| Countries.CountryIn | app/cv/info_extractor.py:99-150 | empty text or an empty directory give nothing; any result is a key of the directory |
| Countries.FindCountryInText | app/cv/info_extractor.py:91-150 | the three loops return `CountryIn` |
| Countries.PhraseTierLoop | app/cv/info_extractor.py:120-132 | the loop over the 1-, 2- and 3-word phrases returns the phrase tier |
| Countries.WordTierLoop | app/cv/info_extractor.py:135-148 | the loop over the words of at least two characters returns the word tier |
| Countries.FirstWordFirst | app/cv/info_extractor.py:105-117 | when some country names the first word, that look-up decides before any phrase or later word is tried |
| Countries.CountryInSound | app/cv/info_extractor.py:99-150 | a result is named by one of the tried terms: the first word, a 1-3-word phrase, or a word of at least two characters |
| Countries.CountryInComplete | app/cv/info_extractor.py:99-150 | when some tried term names some country, something is found |
| Countries.FoldChar | app/cv/info_extractor.py:206-207 | NFKD and dropping combining marks leave at most one character, never a combining mark |
| Countries.LTrim | app/cv/info_extractor.py:239 | `strip('.,;:!?()[]{}')` on the left removes a prefix made only of trimmed characters and leaves no trimmed character in front |
| Countries.RTrim | app/cv/info_extractor.py:239 | the same on the right: it removes a suffix made only of trimmed characters and leaves no trimmed character at the end |
| Countries.Scan | app/cv/info_extractor.py:174-186 | one pass over the countries with the stored name threaded through; `ScanSound`, `ScanMiss`, `ScanStops` and `ScanKeeps` state what it returns |
| Countries.ScanCountries | app/cv/info_extractor.py:174-186 | the country loop with its `break`s returns `Scan` of the directory |
| Countries.VisitCountry | app/cv/info_extractor.py:175-186 | one country's turn: a name hit stores the name and stops; otherwise an alias hit stores the name, and the loop stops only where the tier stops on aliases and the stored name is truthy |
| Countries.ScanAliases | app/cv/info_extractor.py:181-184 | the alias loop with its `break` reports a hit exactly when some alias of the country matches the term |
| Countries.GpeLoop | app/cv/info_extractor.py:171-188 | the loop over GPE texts returns the GPE tier |
| Countries.SlashTier | app/cv/info_extractor.py:197-221 | the slash tier: the folded first word after the first `/` matched loosely against each country; `SlashTierKeeps`, `SlashTierBlank` and `SlashBlankGivesFirst` state what it returns |
| Countries.WordScan | app/cv/info_extractor.py:234-251 | the word-by-word fallback over trimmed words of at least two characters; `WordScanKeeps` states what it returns |
| Countries.WordLoop | app/cv/info_extractor.py:234-251 | the word-by-word fallback returns `WordScan` |
| Countries.CountryWithSpacy | app/cv/info_extractor.py:152-253 | the GPE tier, then the slash tier, then the word tier, each only when the previous one stored nothing truthy; `CountryWithSpacyIsKey`, `GpeFirst` and `GpeUnmatched` state what it returns |
| Countries.FindCountryWithSpacy | app/cv/info_extractor.py:152-253 | the method returns `CountryWithSpacy` of the text, the directory and the GPE texts |
| Countries.ScanSound | app/cv/info_extractor.py:174-186 | one scan keeps what was found or returns a country that passes the test |
| Countries.ScanMiss | app/cv/info_extractor.py:174-186 | a scan where no country passes the test changes nothing |
| Countries.ScanStops | app/cv/info_extractor.py:174-186 | a scan that stops at an alias returns the first country that passes the test |
| Countries.GpeTierDecides | app/cv/info_extractor.py:171-188 | once a GPE term names a country, the GPE tier returns a truthy country named by that term or an earlier one |
| Countries.GpeFirst | app/cv/info_extractor.py:193-194 | when a GPE text names a country exactly, ignoring case, the GPE result is final: the slash and word fallbacks do not run |
| Countries.GpeUnmatched | app/cv/info_extractor.py:171-194 | when no GPE text names any country the result is the same as with no GPE texts at all |
| Countries.ScanKeeps | app/cv/info_extractor.py:174-186 | one scan keeps its start value or returns a key |
| Countries.GpeTierKeeps | app/cv/info_extractor.py:171-188 | the GPE tier keeps its start value or returns a key |
| Countries.SlashTierKeeps | app/cv/info_extractor.py:197-221 | the slash tier keeps its start value or returns a key |
| Countries.WordScanKeeps | app/cv/info_extractor.py:234-251 | the word tier keeps its start value or returns a key |
| Countries.CountryWithSpacyIsKey | app/cv/info_extractor.py:152-253 | any result is a key of the directory |
| Countries.SlashBlankGivesFirst | app/cv/info_extractor.py:197-221 | when no GPE text gave a truthy country and only whitespace follows the first `/` of the first 1000 characters, the empty first word is a substring of every name, so the slash tier stores the first country: a non-empty name is returned; an empty one is falsy, so the word tier runs on from it |
| Countries.SlashTierBlank | app/cv/info_extractor.py:199-221 | the slash tier alone returns the first country in that case, whatever its name, the empty one included |
| Location.CityRegionEnds | app/cv/info_extractor.py:292 | the backtracking pattern `([A-ZÇĞİÖŞÜ]{2,})[,\s]+([A-ZÇĞİÖŞÜ]{2,})` matches at a position exactly when the greedy run scan does, and ends where it ends |
| Location.SearchByRuns | app/cv/info_extractor.py:293 | `re.search` of that pattern finds the leftmost position where the scan succeeds, and nothing when there is none |
| Location.MatchShape | app/cv/info_extractor.py:293-302 | the two groups, stripped, are maximal runs of at least two capitals separated by commas or whitespace, with no earlier match |
| Location.LineCityRegion | app/cv/info_extractor.py:280-302 | what one line yields: the stripped groups of the city-region pattern in the text before its first `/`; `LineCityRegionShape` and `FirstTwoWords` state what it yields |
| Location.LineCityRegionShape | app/cv/info_extractor.py:280-302 | a line yields a city and region only when it holds a `/` that is not its first character, taken from the text before that `/`, each of at least two capitals |
| Location.MultiWordNeedsSimple | app/cv/info_extractor.py:292-298 | wherever the multi-word pattern matches, the simple pattern matches too |
| Location.MultiWordFallbackIsDead | app/cv/info_extractor.py:296-298 | when the simple pattern finds nothing, the multi-word pattern finds nothing either |
| Location.FirstTwoWords | app/cv/info_extractor.py:292-302 | two runs of capitals separated by a space, with no capital after them, are the city and region, as `SAN FRANCISCO, CA` gives `SAN` and `FRANCISCO` |
| Location.ContactFrom | app/cv/info_extractor.py:268-271 | the contact line is the first line with `@` or a digit, and none is found when no line has one |
| Location.FindContactLine | app/cv/info_extractor.py:268-271 | the loop returns that first contact line |
| Location.NearPick | app/cv/info_extractor.py:274-279 | a hit near the contact line comes from the line before it up to two lines after it |
| Location.NearNone | app/cv/info_extractor.py:274-303 | no hit near the contact line means no line in that window yields one |
| Location.ScanLines | app/cv/info_extractor.py:279-303 | the line loop returns the first line's city and region, both non-empty, or nothing |
| Location.PickFirst | app/cv/info_extractor.py:274-324 | the chosen line yields the result; when a line near the contact line yields one, the chosen line is near it; nothing is found exactly when no line yields anything |
| Location.LocationOf | app/cv/info_extractor.py:255-330 | `extract_location`: the city and region of the chosen line, joined by `, `; `LocationShape` states what it returns |
| Location.LocationShape | app/cv/info_extractor.py:255-330 | the location is `"X, Y"` with X and Y taken from a line of the shape above, preferring the contact window; it is absent exactly when no line yields a city and region |
| Location.ExtractLocation | app/cv/info_extractor.py:255-330 | the method returns `LocationOf` |
| Contacts.Email | app/cv/info_extractor.py:362-365 | a found email is the leftmost match: local part, `@`, a domain, a dot and a top-level part of at least two characters; nothing is found when no substring matches |
| Contacts.PhoneMatchShape | app/cv/info_extractor.py:375 | every phone match holds at least ten digits and only digits, `+`, `-`, `.`, `(`, `)` and whitespace |
| Contacts.Phone | app/cv/info_extractor.py:375-378 | a found phone is the leftmost match, with that shape; nothing is found when no substring matches |
| Contacts.GithubHandle | app/cv/info_extractor.py:380-383 | the handle is group 1: a non-empty `[\w-]` run right after `github.com/` that ends the leftmost match |
| Contacts.LinkedIn | app/cv/info_extractor.py:387-392 | a found link is the leftmost case-insensitive match and holds `linkedin.com/in/` followed by `[\w-]` characters up to its end |
| Contacts.Website | app/cv/info_extractor.py:419-425 | the website is searched in the text with GitHub and LinkedIn URLs removed; it starts with `http://` or `https://`, is not a `www.github.com` or `www.linkedin.com` URL, and has no whitespace after the scheme |
| Personal.EmailNotEmpty | app/cv/info_extractor.py:362-365 | a found email has at least five characters, so it counts as present |
| Personal.NameSource | app/cv/info_extractor.py:367-371 | the heading name is used when present or when no email was found; otherwise the name comes from the email |
| Personal.EmailNameIsFallback | app/cv/info_extractor.py:368-371 | a name that differs from the heading name comes from the reported email, is used only when the heading name is missing, and has no `@` |
| Personal.AnchorOfJoin | app/cv/info_extractor.py:399-409 | a LinkedIn anchor in a line ending with `-` joined to the next line lies wholly in one of the two, since `linkedin.com/in/` has no `-` |
| Personal.JoinedNoMatch | app/cv/info_extractor.py:393-410 | when the whole text has no LinkedIn link, joining a slice ending with `-` to another slice does not make one |
| Personal.JoinedLinesNoMatch | app/cv/info_extractor.py:395-410 | when the whole text has no LinkedIn link, no pair of stripped lines the loop joins has one |
| Personal.JoinedLinkedIn | app/cv/info_extractor.py:393-415 | the joined-lines loop cannot find a link when the direct search found none |
| Personal.PersonalInfoOf | app/cv/info_extractor.py:332-426 | `extract_personal_info` as a record of the six found values; `NameSource` and `EmailNameIsFallback` state how the name is chosen |
| Personal.ExtractPersonalInfo | app/cv/info_extractor.py:332-426 | the method fills the record field by field, equal to `PersonalInfoOf`: email, name, location, phone and the three links, with no country |
| Structured.FirstWhere | app/cv/advanced_ai_extractor.py:72-74 | the first index in range whose line satisfies the test, or none when no line in range does |
| Structured.KeywordLine | app/cv/advanced_ai_extractor.py:72-74 | a keyword line is one of the first 50 lines |
| Structured.KeywordLineIsFirst | app/cv/advanced_ai_extractor.py:72-74 | the keyword line is the first of the first 50 lines whose lower-cased stripped text holds one of the five keywords; there is none exactly when none of them does |
| Structured.HakkimdaNeedsDotless | app/cv/advanced_ai_extractor.py:73-74 | the keyword `hakkımda` triggers only on a line with a dotless `ı`: `str.lower` never produces one from `I` |
| Structured.KeptUpToIsTake | app/cv/advanced_ai_extractor.py:76-80 | stopping at five lines is the same as taking five of the kept lines |
| Structured.KeptUpToShape | app/cv/advanced_ai_extractor.py:76-80 | at most n lines are collected, each non-empty and the stripped form of an input line; none exactly when every line strips to empty |
| Structured.CollectSection | app/cv/advanced_ai_extractor.py:76-80 | the inner loop collects the non-empty stripped lines of the up to ten lines after the keyword line, stopping at five |
| Structured.SummaryLines | app/cv/advanced_ai_extractor.py:68-86 | the loops return `SummaryLinesOf`: the keyword section when there is a keyword line, else the non-empty stripped lines of the first five |
| Structured.SummaryLinesShape | app/cv/advanced_ai_extractor.py:72-86 | at most five lines, each non-empty and the stripped form of a line of the source range; none exactly when that range strips to empty |
| Structured.SummaryNone | app/cv/advanced_ai_extractor.py:81-88 | the summary is absent exactly when every line of the source range strips to empty; a keyword line with blank followers gives no summary and no fallback |
| Structured.SummaryOneLine | app/cv/advanced_ai_extractor.py:88 | a summary is non-empty and holds no newline |
| Structured.SummaryOf | app/cv/advanced_ai_extractor.py:66-88 | the `summary` field: the collected lines joined by single spaces, or nothing; `SummaryNone` and `SummaryOneLine` state when it is absent and its shape |
| Structured.ExtractSummary | app/cv/advanced_ai_extractor.py:66-88 | the method returns `SummaryOf`: the lines joined by single spaces, or nothing when none was collected |
| Structured.ExtractStructuredInfo | app/cv/advanced_ai_extractor.py:38-93 | personal info is always the record of `extract_personal_info` with no country; a taxonomy failure empties only `skills` and sets `skills_error`; otherwise the skills are sorted and exact; the summary is `SummaryOf` with no error |

## Left out

- File and library I/O is not modelled:
  - reading the taxonomy and country JSON files (`load_taxonomy`, `load_countries`);
  - PDF and DOCX parsing (`app/cv/parser.py`);
  - the command line (`main.py`);
  - transformer models and console printing in `app/cv/advanced_ai_extractor.py`;
  - the whole `app/cv/ai_extractor.py`.
  The loaded data are parameters instead.
- spaCy is not modelled: its loading and the named-entity run. The GPE texts are an input sequence.
- Unicode tables are reduced to ASCII plus the Turkish letters `ÇĞİÖŞÜ çğıöşü`:
  - `lower`, `upper`, `isupper`, `capitalize` and `\w` cover only these characters;
  - NFKD decomposes only these letters, and maps the no-break space, the
    spaces U+2000 to U+200A, U+202F, U+205F and U+3000 to a plain space.
    `Cleaner.DecomposeChar` and `Countries.FoldChar` use this same table;
  - `unicodedata.combining` is the range U+0300 to U+036F.
- `\d` is the ASCII digits only; Python's `\d` also accepts other Unicode digits.
- `re.IGNORECASE` is modelled as lower-casing each character, so `İ` matches
  `i` (it lower-cases to `i`). The website pattern's `[a-z]` also accepts the
  dotless `ı`, as Python's `re` does. In the case-insensitive literals
  (`github`, `linkedin.com/in/`, `http`, `www.`), `ı` does not match `i` or `I`,
  although Python would match it.
- `Names.Capitalize` lower-cases the characters after the first one at a time,
  so an `İ` there becomes plain `i` without the combining dot that
  `str.lower` adds. It is applied only to the local part of an email address,
  which the email pattern limits to ASCII.
- The email pattern's top-level class `[A-Z|a-z]` also accepts `|`. This is
  modelled as written, not corrected.
- LinkedIn matches are stated by their leading part only. `Contacts.LinkedIn`
  does not restate the optional `(?:-[\w\-çğıöşü]+)*` tail, which the greedy
  `[\w-]` run before it already covers.
- `Contacts.Website` states only:
  - the scheme;
  - the excluded social hosts;
  - that no whitespace follows the scheme.
  It does not restate the host, dot and TLD structure of the pattern.
- `Cleaner.NormalizeIdempotent` requires that the first result holds neither
  `Pro/Engineer` nor `GD&T`. Without that requirement the function is not
  idempotent: `Cleaner.NormalizeNotIdempotent` proves this for `GD&Tro/Engineer`.
- Some country lemmas require every country name to be non-empty:
  - `Countries.ScanStops`;
  - `Countries.GpeTierDecides`;
  - `Countries.GpeFirst`.
  An empty key is falsy in Python, so the `if found_country: break` tests
  would not stop on it.
- The exception branches of `extract_structured_info` for personal info and
  for the summary cannot be reached, because the modelled steps are total:
  - `Structured.ExtractStructuredInfo` always returns an `Ok` personal record
    and no summary error;
  - the skills error message is the taxonomy failure's message.
- Integer widths, exceptions from memory exhaustion and performance are not
  modelled.
