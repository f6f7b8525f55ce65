/**
 * The Python string primitives the extractors rely on: `str.isspace`, `lower`,
 * `upper`, `isupper`, `strip`, `split()`, `split(sep)`, `join` and the
 * substring test `pat in s`.
 *
 * Case mapping covers the modelled alphabet: ASCII and the Turkish letters
 * Ç Ğ İ Ö Ş Ü / ç ğ ı ö ş ü.  Every other character is uncased.  The
 * whitespace predicate is Python's full `str.isspace` set.
 */
module Text {

  /** Python's `str.isspace` (and the `\s` class of `re` on str patterns). */
  predicate IsSpace(c: char) {
    var n := c as int;
    (0x09 <= n <= 0x0D) || (0x1C <= n <= 0x20) || n == 0x85 || n == 0xA0 || n == 0x1680
    || (0x2000 <= n <= 0x200A) || n == 0x2028 || n == 0x2029 || n == 0x202F
    || n == 0x205F || n == 0x3000
  }

  /** `\d`, restricted to the ASCII digits. */
  predicate IsDigit(c: char) {
    '0' <= c <= '9'
  }

  predicate IsUpperLetter(c: char) {
    'A' <= c <= 'Z' || c == 'Ç' || c == 'Ğ' || c == 'İ' || c == 'Ö' || c == 'Ş' || c == 'Ü'
  }

  predicate IsLowerLetter(c: char) {
    'a' <= c <= 'z' || c == 'ç' || c == 'ğ' || c == 'ı' || c == 'ö' || c == 'ş' || c == 'ü'
  }

  predicate IsLetter(c: char) {
    IsUpperLetter(c) || IsLowerLetter(c)
  }

  /** `\w`: letters, digits and the underscore. */
  predicate IsWordChar(c: char) {
    IsLetter(c) || IsDigit(c) || c == '_'
  }

  /** `str.lower` on one character (İ goes to plain i). */
  function LowerChar(c: char): (d: char)
    ensures !IsUpperLetter(d)
    ensures !IsUpperLetter(c) ==> d == c
  {
    if 'A' <= c <= 'Z' then (c as int + 32) as char
    else if c == 'Ç' then 'ç'
    else if c == 'Ğ' then 'ğ'
    else if c == 'İ' then 'i'
    else if c == 'Ö' then 'ö'
    else if c == 'Ş' then 'ş'
    else if c == 'Ü' then 'ü'
    else c
  }

  /** `str.upper` on one character (ı goes to plain I). */
  function UpperChar(c: char): (d: char)
    ensures !IsLowerLetter(d)
    ensures !IsLowerLetter(c) ==> d == c
  {
    if 'a' <= c <= 'z' then (c as int - 32) as char
    else if c == 'ç' then 'Ç'
    else if c == 'ğ' then 'Ğ'
    else if c == 'ı' then 'I'
    else if c == 'ö' then 'Ö'
    else if c == 'ş' then 'Ş'
    else if c == 'ü' then 'Ü'
    else c
  }

  /**
   * `str.lower`.  Python lowers İ to two characters, i and the combining dot
   * above (U+0307); every other character of the alphabet maps to one.
   */
  function Lower(s: string): (r: string)
    ensures 'İ' !in s ==> r == Fold(s)
    ensures forall j :: 0 <= j < |r| ==> !IsUpperLetter(r[j])
  {
    if s == [] then []
    else
      var head := if s[0] == 'İ' then "i\U{0307}" else [LowerChar(s[0])];
      var rest := Lower(s[1..]);
      assert forall j :: |head| <= j < |head + rest| ==> (head + rest)[j] == rest[j - |head|];
      head + rest
  }

  /**
   * Character-by-character lower-casing, the comparison `re.IGNORECASE` makes
   * between a pattern and the text (İ and i compare equal).
   */
  function Fold(s: string): string {
    seq(|s|, i requires 0 <= i < |s| => LowerChar(s[i]))
  }

  function Upper(s: string): string {
    seq(|s|, i requires 0 <= i < |s| => UpperChar(s[i]))
  }

  /** `str.isupper`: some cased character, and no lower-case one. */
  predicate IsUpperStr(s: string) {
    (exists i :: 0 <= i < |s| && IsUpperLetter(s[i])) && (forall i :: 0 <= i < |s| ==> !IsLowerLetter(s[i]))
  }

  /** The substring test `pat in s`. */
  predicate HasSubstring(s: string, pat: string)
    decreases |s|
  {
    pat <= s || (s != [] && HasSubstring(s[1..], pat))
  }

  predicate HasChar(s: string, c: char) {
    c in s
  }

  predicate EndsWith(s: string, c: char) {
    s != [] && s[|s| - 1] == c
  }

  /** Index of the first `c` in `s`, or `|s|` when there is none. */
  function IndexOf(s: string, c: char): (k: nat)
    ensures k <= |s|
    ensures k < |s| ==> s[k] == c
    ensures forall j :: 0 <= j < k ==> s[j] != c
  {
    if s == [] then 0
    else if s[0] == c then 0
    else 1 + IndexOf(s[1..], c)
  }

  lemma {:induction false} IndexOfFirst(s: string, c: char, k: nat)
    requires k < |s| && s[k] == c && forall j :: 0 <= j < k ==> s[j] != c
    ensures IndexOf(s, c) == k
    decreases k
  {
    if k > 0 {
      IndexOfFirst(s[1..], c, k - 1);
    }
  }

  lemma {:induction false} IndexOfAbsent(s: string, c: char)
    requires c !in s
    ensures IndexOf(s, c) == |s|
    decreases |s|
  {
    if s != [] {
      IndexOfAbsent(s[1..], c);
    }
  }

  /** `lstrip()`: drops the leading whitespace. */
  function LStrip(s: string): (r: string)
    ensures |r| <= |s| && r == s[|s| - |r|..]
    ensures forall i :: 0 <= i < |s| - |r| ==> IsSpace(s[i])
    ensures r == [] || !IsSpace(r[0])
  {
    if s != [] && IsSpace(s[0]) then
      var r := LStrip(s[1..]);
      assert s[1..][|s| - 1 - |r|..] == s[|s| - |r|..];
      assert forall i :: 1 <= i < |s| - |r| ==> s[i] == s[1..][i - 1];
      r
    else s
  }

  /** `rstrip()`: drops the trailing whitespace. */
  function RStrip(s: string): (r: string)
    ensures |r| <= |s| && r == s[..|r|]
    ensures forall i :: |r| <= i < |s| ==> IsSpace(s[i])
    ensures r == [] || !IsSpace(r[|r| - 1])
  {
    if s != [] && IsSpace(s[|s| - 1]) then RStrip(s[..|s| - 1]) else s
  }

  /** `strip()` */
  function Strip(s: string): string {
    RStrip(LStrip(s))
  }

  /** `strip()` keeps a contiguous slice of its input and removes only whitespace around it. */
  lemma StripSlice(s: string) returns (a: nat, b: nat)
    ensures a <= b <= |s| && Strip(s) == s[a..b]
    ensures Strip(s) == [] || (!IsSpace(Strip(s)[0]) && !IsSpace(Strip(s)[|Strip(s)| - 1]))
  {
    var l := LStrip(s);
    var r := RStrip(l);
    a := |s| - |l|;
    b := a + |r|;
    assert r == l[..|r|] && l == s[a..];
    assert s[a..][..|r|] == s[a..b];
    StripEnds(l, r);
  }

  lemma StripEnds(l: string, r: string)
    requires l == [] || !IsSpace(l[0])
    requires r == RStrip(l)
    ensures r == [] || (!IsSpace(r[0]) && !IsSpace(r[|r| - 1]))
  {
    if r != [] {
      assert r[0] == l[0];
    }
  }

  /** Length of the leading run of non-whitespace characters. */
  function WordLen(s: string): (n: nat)
    ensures n <= |s|
    ensures forall i :: 0 <= i < n ==> !IsSpace(s[i])
    ensures n == |s| || IsSpace(s[n])
  {
    if s == [] || IsSpace(s[0]) then 0 else 1 + WordLen(s[1..])
  }

  predicate NoSpace(w: string) {
    forall i :: 0 <= i < |w| ==> !IsSpace(w[i])
  }

  /** `str.split()` with no separator: the maximal runs of non-whitespace. */
  function Split(s: string): (ws: seq<string>)
    decreases |s|
  {
    var t := LStrip(s);
    if t == [] then []
    else
      var n := WordLen(t);
      [t[..n]] + Split(t[n..])
  }

  /** The words `split()` gives are non-empty and hold no whitespace. */
  lemma {:induction false} SplitWords(s: string)
    ensures forall k :: 0 <= k < |Split(s)| ==> Split(s)[k] != [] && NoSpace(Split(s)[k])
    decreases |s|
  {
    var t := LStrip(s);
    if t != [] {
      var n := WordLen(t);
      var w := t[..n];
      assert w != [] && NoSpace(w);
      var rest := Split(t[n..]);
      SplitWords(t[n..]);
      SplitStep(s, t, n, w, rest);
      forall k | 0 <= k < |Split(s)| ensures Split(s)[k] != [] && NoSpace(Split(s)[k]) {
        if k > 0 {
          assert Split(s)[k] == rest[k - 1];
        }
      }
    }
  }

  lemma SplitStep(s: string, t: string, n: nat, w: string, rest: seq<string>)
    requires t == LStrip(s) && t != [] && n == WordLen(t) && w == t[..n] && rest == Split(t[n..])
    ensures Split(s) == [w] + rest
  {
  }

  /** `str.split(c)`: always at least one piece; no piece contains `c`. */
  function SplitOn(s: string, c: char): (ps: seq<string>)
    ensures |ps| >= 1
    ensures forall k :: 0 <= k < |ps| ==> c !in ps[k]
    decreases |s|
  {
    var i := IndexOf(s, c);
    if i == |s| then [s] else [s[..i]] + SplitOn(s[i + 1..], c)
  }

  /** Every piece `split(c)` gives is a slice of the string. */
  lemma {:induction false} SplitOnSlice(s: string, c: char, k: nat) returns (a: nat)
    requires k < |SplitOn(s, c)|
    ensures a + |SplitOn(s, c)[k]| <= |s| && s[a..a + |SplitOn(s, c)[k]|] == SplitOn(s, c)[k]
    decreases |s|, 1
  {
    var i := IndexOf(s, c);
    if k == 0 {
      SplitOnHead(s, c);
      a := 0;
    } else {
      SplitOnMore(s, c);
      var rest := SplitOn(s[i + 1..], c);
      SplitOnStep(s, c, i, rest);
      a := SplitOnSliceTail(s, c, k, i, rest);
    }
  }

  lemma {:induction false} SplitOnSliceTail(s: string, c: char, k: nat, i: nat, rest: seq<string>) returns (a: nat)
    requires i < |s| && rest == SplitOn(s[i + 1..], c) && 0 < k <= |rest|
    ensures a + |rest[k - 1]| <= |s| && s[a..a + |rest[k - 1]|] == rest[k - 1]
    decreases |s|, 0
  {
    var b := SplitOnSlice(s[i + 1..], c, k - 1);
    var p := rest[k - 1];
    a := i + 1 + b;
    SliceOfSlice(s[i + 1..], s, i + 1, b, b + |p|);
  }

  lemma SplitOnMore(s: string, c: char)
    requires |SplitOn(s, c)| > 1
    ensures IndexOf(s, c) < |s|
  {
  }

  lemma SplitOnHead(s: string, c: char)
    ensures SplitOn(s, c)[0] == s[..IndexOf(s, c)]
  {
  }

  /** Past the first piece, `split(c)` goes on after the first `c`. */
  lemma SplitOnStep(s: string, c: char, i: nat, rest: seq<string>)
    requires i == IndexOf(s, c) && i < |s| && rest == SplitOn(s[i + 1..], c)
    ensures SplitOn(s, c) == [s[..i]] + rest
  {
  }

  /** A slice of a slice is a slice of the whole. */
  lemma SliceOfSlice(u: string, t: string, a: nat, i: nat, j: nat)
    requires a + |u| <= |t| && t[a..a + |u|] == u && i <= j <= |u|
    ensures t[a + i..a + j] == u[i..j]
  {
    forall k | 0 <= k < j - i
      ensures t[a + i..a + j][k] == u[i..j][k]
    {
      assert t[a + i + k] == t[a..a + |u|][i + k];
    }
  }

  /** `sep.join(ws)` */
  function Join(ws: seq<string>, sep: string): string {
    if ws == [] then []
    else if |ws| == 1 then ws[0]
    else ws[0] + sep + Join(ws[1..], sep)
  }

  /** The first `n` elements, as Python's `xs[:n]`. */
  function Take<T>(xs: seq<T>, n: nat): (r: seq<T>)
    ensures |r| == if n < |xs| then n else |xs|
    ensures r == xs[..|r|]
  {
    if n < |xs| then xs[..n] else xs
  }

  lemma {:induction false} HasSubstringAt(s: string, pat: string, i: nat)
    requires i + |pat| <= |s| && s[i..i + |pat|] == pat
    ensures HasSubstring(s, pat)
    decreases i
  {
    if i == 0 {
      assert s[..|pat|] == pat;
    } else {
      assert s[1..][i - 1..i - 1 + |pat|] == pat;
      HasSubstringAt(s[1..], pat, i - 1);
    }
  }

  lemma {:induction false} HasSubstringWitness(s: string, pat: string) returns (i: nat)
    requires HasSubstring(s, pat)
    ensures i + |pat| <= |s| && s[i..i + |pat|] == pat
    decreases |s|
  {
    if pat <= s {
      i := 0;
    } else {
      var j := HasSubstringWitness(s[1..], pat);
      i := j + 1;
      assert s[i..i + |pat|] == s[1..][j..j + |pat|];
    }
  }

  /** Every character of an occurrence of `pat` occurs in `s`. */
  lemma SubstringChars(s: string, pat: string, c: char)
    requires HasSubstring(s, pat) && c in pat
    ensures c in s
  {
    var i := HasSubstringWitness(s, pat);
    var k :| 0 <= k < |pat| && pat[k] == c;
    assert s[i + k] == pat[k];
  }

  /** A pattern holding a character that `s` lacks does not occur in `s`. */
  lemma AbsentWithoutChar(s: string, pat: string, c: char)
    requires c in pat && c !in s
    ensures !HasSubstring(s, pat)
  {
    if HasSubstring(s, pat) {
      SubstringChars(s, pat, c);
    }
  }

  lemma {:induction false} JoinLength(ws: seq<string>, sep: string)
    requires ws != []
    ensures |Join(ws, sep)| == SumLengths(ws) + (|ws| - 1) * |sep|
  {
    if |ws| > 1 {
      JoinLength(ws[1..], sep);
    }
  }

  function SumLengths(ws: seq<string>): nat {
    if ws == [] then 0 else |ws[0]| + SumLengths(ws[1..])
  }
}
