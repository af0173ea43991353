/** Text normalisation of script.py: folding of Cyrillic look-alike letters
    (`normalize_homoglyphs`) and reduction of a URL to its host
    (`clean_domain`). */
module Normalizer {
  import opened Strings

  /** `mapping.get(char, char)`: the 18 Cyrillic letters that look like
      Latin ones go to their Latin twins, every other character to itself. */
  function Fold(c: char): char {
    match c
    case '\U{0430}' => 'a'
    case '\U{0441}' => 'c'
    case '\U{0435}' => 'e'
    case '\U{043E}' => 'o'
    case '\U{0440}' => 'p'
    case '\U{0445}' => 'x'
    case '\U{0443}' => 'y'
    case '\U{043A}' => 'k'
    case '\U{043C}' => 'm'
    case '\U{0410}' => 'A'
    case '\U{0421}' => 'C'
    case '\U{0415}' => 'E'
    case '\U{041E}' => 'O'
    case '\U{0420}' => 'P'
    case '\U{0425}' => 'X'
    case '\U{0423}' => 'Y'
    case '\U{041A}' => 'K'
    case '\U{041C}' => 'M'
    case _ => c
  }

  /** The keys of the mapping. */
  const Homoglyphs: set<char> := {
    '\U{0430}', '\U{0441}', '\U{0435}', '\U{043E}', '\U{0440}', '\U{0445}', '\U{0443}', '\U{043A}', '\U{043C}',
    '\U{0410}', '\U{0421}', '\U{0415}', '\U{041E}', '\U{0420}', '\U{0425}', '\U{0423}', '\U{041A}', '\U{041C}'}

  predicate IsAsciiLetter(c: char) {
    'a' <= c <= 'z' || 'A' <= c <= 'Z'
  }

  /** Folding changes exactly the mapped letters, each into a Latin letter,
      and a folded character folds to itself. */
  lemma FoldFacts(c: char)
    ensures Fold(c) != c <==> c in Homoglyphs
    ensures c in Homoglyphs ==> IsAsciiLetter(Fold(c))
    ensures Fold(c) !in Homoglyphs && Fold(Fold(c)) == Fold(c)
  {
  }

  /** `normalize_homoglyphs`: every mapped letter is replaced by its twin,
      every other character is kept. */
  function NormalizeHomoglyphs(s: string): (r: string)
    ensures |r| == |s|
    ensures forall i :: 0 <= i < |s| && s[i] in Homoglyphs ==> IsAsciiLetter(r[i])
    ensures forall i :: 0 <= i < |s| && s[i] !in Homoglyphs ==> r[i] == s[i]
    ensures forall i :: 0 <= i < |r| ==> r[i] !in Homoglyphs
  {
    var r := seq(|s|, i requires 0 <= i < |s| => Fold(s[i]));
    assert forall i :: 0 <= i < |s| ==> r[i] == Fold(s[i]) && (FoldFacts(s[i]); true);
    r
  }

  /** Folding twice is folding once. */
  lemma NormalizeIdempotent(s: string)
    ensures NormalizeHomoglyphs(NormalizeHomoglyphs(s)) == NormalizeHomoglyphs(s)
  {
    var r := NormalizeHomoglyphs(s);
    var t := NormalizeHomoglyphs(r);
    assert forall i :: 0 <= i < |t| ==> t[i] == r[i];
  }

  /** A string changes under folding exactly when it holds a mapped letter. */
  lemma NormalizeChanges(s: string)
    ensures NormalizeHomoglyphs(s) != s <==> exists i :: 0 <= i < |s| && s[i] in Homoglyphs
  {
    var r := NormalizeHomoglyphs(s);
    if r == s {
      forall i | 0 <= i < |s|
        ensures s[i] !in Homoglyphs
      {
        assert r[i] == s[i];
      }
    } else {
      assert exists i :: 0 <= i < |s| && r[i] != s[i];
    }
  }

  /** The characters Python's `str.strip()` removes: the control
      characters 9-13 and 28-31, the space, and the Unicode spaces and
      separators. */
  predicate IsSpace(c: char) {
    || '\t' <= c <= '\r' || '\U{001C}' <= c <= ' ' || c == '\U{0085}' || c == '\U{00A0}'
    || c == '\U{1680}' || '\U{2000}' <= c <= '\U{200A}' || c == '\U{2028}' || c == '\U{2029}'
    || c == '\U{202F}' || c == '\U{205F}' || c == '\U{3000}'
  }

  /** The first position at or after `k` that holds no whitespace, or the
      length of `s` when there is none. */
  function SkipSpaces(s: string, k: nat): (j: nat)
    requires k <= |s|
    ensures k <= j <= |s|
    ensures forall i :: k <= i < j ==> IsSpace(s[i])
    ensures j < |s| ==> !IsSpace(s[j])
    decreases |s| - k
  {
    if k == |s| || !IsSpace(s[k]) then k else SkipSpaces(s, k + 1)
  }

  /** The end of `s[lo..e]` once its trailing whitespace is dropped. */
  function SkipSpacesBack(s: string, lo: nat, e: nat): (j: nat)
    requires lo <= e <= |s|
    ensures lo <= j <= e
    ensures forall i :: j <= i < e ==> IsSpace(s[i])
    ensures j > lo ==> !IsSpace(s[j - 1])
    decreases e
  {
    if e == lo || !IsSpace(s[e - 1]) then e else SkipSpacesBack(s, lo, e - 1)
  }

  /** `r` is `s` with `k` characters of whitespace before it and only
      whitespace after it. */
  predicate StripAt(s: string, r: string, k: int) {
    && 0 <= k <= |s| - |r| && s[k..k + |r|] == r
    && (forall i :: 0 <= i < k ==> IsSpace(s[i]))
    && (forall i :: k + |r| <= i < |s| ==> IsSpace(s[i]))
  }

  /** `str.strip()`: the text between the leading and the trailing
      whitespace, which neither starts nor ends with whitespace itself. */
  function Strip(s: string): (r: string)
    ensures StripAt(s, r, SkipSpaces(s, 0))
    ensures r == [] || (!IsSpace(r[0]) && !IsSpace(r[|r| - 1]))
  {
    var lo := SkipSpaces(s, 0);
    s[lo..SkipSpacesBack(s, lo, |s|)]
  }

  /** Text that neither starts nor ends with whitespace is its own strip. */
  lemma StripStripped(s: string)
    requires s == [] || (!IsSpace(s[0]) && !IsSpace(s[|s| - 1]))
    ensures Strip(s) == s
  {
  }

  /** Stripping twice is stripping once. */
  lemma StripIdempotent(s: string)
    ensures Strip(Strip(s)) == Strip(s)
  {
    StripStripped(Strip(s));
  }

  /** Upper-case letters that `str.lower()` changes and this model covers:
      ASCII and the basic Cyrillic block. */
  predicate IsUpper(c: char) {
    'A' <= c <= 'Z' || '\U{0400}' <= c <= '\U{042F}'
  }

  function LowerChar(c: char): char {
    if 'A' <= c <= 'Z' then (c as int + 32) as char
    else if '\U{0410}' <= c <= '\U{042F}' then (c as int + 0x20) as char
    else if '\U{0400}' <= c <= '\U{040F}' then (c as int + 0x50) as char
    else c
  }

  /** `str.lower()` on ASCII and basic Cyrillic: same length, no upper-case
      letter left, every other character kept. */
  function Lower(s: string): (r: string)
    ensures |r| == |s|
    ensures forall i :: 0 <= i < |r| ==> !IsUpper(r[i])
    ensures forall i :: 0 <= i < |s| && !IsUpper(s[i]) ==> r[i] == s[i]
  {
    seq(|s|, i requires 0 <= i < |s| => LowerChar(s[i]))
  }

  /** Lower-casing twice is lower-casing once. */
  lemma LowerIdempotent(s: string)
    ensures Lower(Lower(s)) == Lower(s)
  {
    var r := Lower(s);
    assert forall i :: 0 <= i < |r| ==> Lower(r)[i] == r[i];
  }

  /** `re.sub(r'^https?://', '', url)`: one leading scheme is removed. */
  function StripScheme(s: string): (r: string)
    ensures |r| <= |s| && r == s[|s| - |r|..]
    ensures s == "http://" + r || s == "https://" + r || s == r
    ensures s == r <==> !StartsWith(s, "http://") && !StartsWith(s, "https://")
  {
    if StartsWith(s, "http://") then s[7..]
    else if StartsWith(s, "https://") then s[8..]
    else s
  }

  /** `re.sub(r'^www\.', '', url)`: one leading `www.` is removed. */
  function StripWww(s: string): (r: string)
    ensures |r| <= |s| && r == s[|s| - |r|..]
    ensures s == "www." + r || s == r
    ensures s == r <==> !StartsWith(s, "www.")
  {
    if StartsWith(s, "www.") then s[4..] else s
  }

  /** The separators of `re.split(r'[/?:@]', url)`. */
  const UrlDelimiters: set<char> := {'/', '?', ':', '@'}

  /** No upper-case letter left. */
  predicate NoUpper(s: string) {
    forall i :: 0 <= i < |s| ==> !IsUpper(s[i])
  }

  /** A suffix of a string without upper-case letters has none either. */
  lemma NoUpperSuffix(s: string, r: string)
    requires NoUpper(s) && |r| <= |s| && r == s[|s| - |r|..]
    ensures NoUpper(r)
  {
    forall i | 0 <= i < |r|
      ensures !IsUpper(r[i])
    {
      assert r[i] == s[|s| - |r| + i];
    }
  }

  /** The URL after stripping, lower-casing and removing one scheme and then
      one `www.`, before it is split. */
  function Prepared(url: string): (p: string)
    ensures NoUpper(p)
  {
    var lowered := Lower(Strip(url));
    var q := StripScheme(lowered);
    var p := StripWww(q);
    NoUpperSuffix(lowered, q);
    NoUpperSuffix(q, p);
    p
  }

  /** `clean_domain`: empty for an empty URL; otherwise the first piece of the
      prepared URL split at `/`, `?`, `:` and `@`, which is its longest
      prefix holding none of them. */
  function CleanDomain(url: string): (r: string)
    ensures url == [] ==> r == []
    ensures url != [] ==> r <= Prepared(url)
    ensures url != [] && |r| < |Prepared(url)| ==> Prepared(url)[|r|] in UrlDelimiters
    ensures forall i :: 0 <= i < |r| ==> r[i] !in UrlDelimiters && !IsUpper(r[i])
  {
    if url == [] then ""
    else
      var p := Prepared(url);
      var parts := Split(p, UrlDelimiters);
      SplitFirst(p, UrlDelimiters);
      parts[0]
  }

}
