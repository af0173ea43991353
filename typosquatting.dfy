/** `analyze_typosquatting` of script.py and the loading of the whitelist
    that it consults. The process-wide `EXACT_WHITELIST` and `bk_tree` are
    passed in as a set and the tree built from the same rows. */
module Typosquatting {
  import opened Strings
  import opened EditDistance
  import opened Reasons
  import opened Normalizer
  import opened BkIndex

  /** The largest distance a search looks at (`max_distance = 2`). */
  const MaxDistance: nat := 2

  /** `init_and_load_db`, lines 82-85: every row is stripped and lower-cased,
      then put both in the exact whitelist and in the tree. */
  method LoadWhitelist(rows: seq<string>) returns (whitelist: set<string>, index: BKTree)
    ensures fresh(index) && index.Valid()
    ensures whitelist == index.Contents()
    ensures whitelist == Cleaned(rows)
  {
    whitelist := {};
    index := new BKTree();
    var i := 0;
    while i < |rows|
      invariant 0 <= i <= |rows|
      invariant fresh(index) && index.Valid()
      invariant whitelist == index.Contents() == Cleaned(rows[..i])
    {
      whitelist := LoadRow(index, whitelist, rows[i]);
      CleanedPrefix(rows, i);
      i := i + 1;
    }
    assert rows[..i] == rows;
  }

  /** One row of the loading loop: the cleaned row joins both the set and
      the tree, which keep holding the same hosts. */
  method LoadRow(index: BKTree, whitelist: set<string>, row: string) returns (grown: set<string>)
    requires index.Valid() && whitelist == index.Contents()
    modifies index
    ensures index.Valid() && grown == index.Contents()
    ensures grown == whitelist + {Lower(Strip(row))}
  {
    var d := Lower(Strip(row));
    grown := whitelist + {d};
    index.Add(d);
  }

  /** The whitelist entries made from database rows. */
  function Cleaned(rows: seq<string>): (ws: set<string>)
  {
    if rows == [] then {} else Cleaned(rows[..|rows| - 1]) + {Lower(Strip(rows[|rows| - 1]))}
  }

  lemma CleanedPrefix(rows: seq<string>, i: nat)
    requires i < |rows|
    ensures Cleaned(rows[..i + 1]) == Cleaned(rows[..i]) + {Lower(Strip(rows[i]))}
  {
    assert rows[..i + 1][..i] == rows[..i];
  }

  /** The whitelist holds exactly the cleaned rows, none with an upper-case
      letter left. */
  lemma {:induction false} CleanedMembers(rows: seq<string>, w: string)
    ensures w in Cleaned(rows) <==> exists j :: 0 <= j < |rows| && Lower(Strip(rows[j])) == w
    ensures w in Cleaned(rows) ==> forall i :: 0 <= i < |w| ==> !IsUpper(w[i])
  {
    if rows != [] {
      var init := rows[..|rows| - 1];
      CleanedMembers(init, w);
      if w in Cleaned(init) {
        var j :| 0 <= j < |init| && Lower(Strip(init[j])) == w;
        assert rows[j] == init[j];
      }
      if exists j :: 0 <= j < |rows| && Lower(Strip(rows[j])) == w {
        var j :| 0 <= j < |rows| && Lower(Strip(rows[j])) == w;
        if j < |rows| - 1 {
          assert init[j] == rows[j];
        }
      }
    }
  }

  /** The position of the first pair with the least distance: the head of
      `found` after Python's stable `sort(key=lambda x: x[0])`. */
  function FirstMin(found: seq<(nat, string)>): (k: nat)
    requires |found| > 0
    ensures k < |found|
    ensures forall j :: 0 <= j < |found| ==> found[k].0 <= found[j].0
    ensures forall j :: 0 <= j < k ==> found[j].0 > found[k].0
  {
    if |found| == 1 then 0
    else
      var k := FirstMin(found[1..]) + 1;
      if found[0].0 <= found[k].0 then 0 else k
  }

  /** Some whitelisted host ends the folded domain after a dot. */
  predicate UnderWhitelisted(normalized: string, whitelist: set<string>) {
    exists w :: w in whitelist && EndsWith(normalized, "." + w)
  }

  /** Some whitelisted host lies within `MaxDistance` edits. */
  predicate NearWhitelisted(normalized: string, whitelist: set<string>) {
    exists w :: w in whitelist && Dist(normalized, w) <= MaxDistance
  }

  /** The score `analyze_typosquatting` gives, read off the whitelist
      directly: a homoglyph spoof 100, an exact or subdomain hit 0, a host
      one edit away 90, two edits away 70, nothing near 0. */
  function TyposquatScore(currentDomain: string, whitelist: set<string>): (score: nat)
  {
    var n := NormalizeHomoglyphs(currentDomain);
    if n in whitelist then (if n == currentDomain then 0 else 100)
    else if UnderWhitelisted(n, whitelist) then 0
    else if exists w :: w in whitelist && Dist(n, w) == 1 then 90
    else if NearWhitelisted(n, whitelist) then 70
    else 0
  }

  /** Only a host spelled with Cyrillic look-alikes scores 100: exactly when
      it holds a mapped letter and its folded form is whitelisted. */
  lemma SpoofNeedsHomoglyph(currentDomain: string, whitelist: set<string>)
    ensures TyposquatScore(currentDomain, whitelist) == 100 <==>
              && NormalizeHomoglyphs(currentDomain) in whitelist
              && exists i :: 0 <= i < |currentDomain| && currentDomain[i] in Homoglyphs
  {
    NormalizeChanges(currentDomain);
  }

  /** The reason `analyze_typosquatting` gives with a positive score: a
      homoglyph attack naming the folded host when that host is whitelisted,
      otherwise a typosquat naming a whitelisted host at the least distance
      from the folded host, with that distance. */
  predicate TsReasonOk(currentDomain: string, whitelist: set<string>, reason: Reason) {
    var n := NormalizeHomoglyphs(currentDomain);
    if n in whitelist then reason == Homoglyph(n) && n != currentDomain
    else
      && reason.Typosquat? && reason.target in whitelist
      && reason.dist == Dist(n, reason.target)
      && forall w :: w in whitelist ==> reason.dist <= Dist(n, w)
  }

  /** `analyze_typosquatting`, checks in order:
      the folded host is whitelisted: 0 when folding changed nothing, else a
      homoglyph attack scored 100; it is a subdomain of a whitelisted host: 0;
      a whitelisted host lies within two edits: 90 at distance 1, 70 at
      distance 2, naming a nearest one; otherwise 0. */
  method AnalyzeTyposquatting(index: BKTree, whitelist: set<string>, currentDomain: string)
    returns (score: nat, reason: Option<Reason>)
    requires index.Valid() && index.Contents() == whitelist
    ensures var n := NormalizeHomoglyphs(currentDomain);
            n in whitelist ==>
              if n == currentDomain then score == 0 && reason == None
              else score == 100 && reason == Some(Homoglyph(n))
    ensures var n := NormalizeHomoglyphs(currentDomain);
            n !in whitelist && UnderWhitelisted(n, whitelist) ==> score == 0 && reason == None
    ensures var n := NormalizeHomoglyphs(currentDomain);
            n !in whitelist && !UnderWhitelisted(n, whitelist) ==>
              && (NearWhitelisted(n, whitelist) <==> score > 0)
              && (score > 0 ==>
                    && reason.Some? && reason.value.Typosquat?
                    && reason.value.target in whitelist
                    && reason.value.dist == Dist(n, reason.value.target)
                    && (forall w :: w in whitelist ==> reason.value.dist <= Dist(n, w))
                    && score == (if reason.value.dist == 1 then 90 else 70))
              && (score == 0 ==> reason == None)
    ensures score == TyposquatScore(currentDomain, whitelist)
    ensures score in {0, 70, 90, 100}
    ensures score > 0 <==> reason.Some?
    ensures score > 0 ==> TsReasonOk(currentDomain, whitelist, reason.value)
    ensures reason.Some? && reason.value.Typosquat? ==> 1 <= reason.value.dist <= MaxDistance
  {
    var normalized := NormalizeHomoglyphs(currentDomain);
    if normalized in whitelist {
      if currentDomain != normalized {
        return 100, Some(Homoglyph(normalized));
      }
      return 0, None;
    }
    var pending := whitelist;
    while pending != {}
      invariant pending <= whitelist
      invariant forall w :: w in whitelist - pending ==> !EndsWith(normalized, "." + w)
      decreases pending
    {
      var legit :| legit in pending;
      if EndsWith(normalized, "." + legit) {
        return 0, None;
      }
      pending := pending - {legit};
    }
    var found := index.Search(normalized, MaxDistance);
    if |found| > 0 {
      var k := FirstMin(found);
      var (bestDist, bestMatch) := found[k];
      ZeroIffEqual(normalized, bestMatch);
      forall w | w in whitelist && Dist(normalized, w) <= MaxDistance
        ensures bestDist <= Dist(normalized, w)
      {
        var j :| 0 <= j < |found| && found[j] == (Dist(normalized, w), w);
      }
      assert (exists w :: w in whitelist && Dist(normalized, w) == 1) <==> bestDist == 1;
      var risk := if bestDist == 1 then 90 else 70;
      return risk, Some(Typosquat(bestMatch, bestDist));
    }
    return 0, None;
  }

  /** A host and the whitelist entries it is loaded from: a BK-tree match
      that reaches the distance step is never at distance 0, because a host
      at distance 0 is whitelisted and stops at the first check. */
  lemma NoZeroMatch(normalized: string, whitelist: set<string>, w: string)
    requires normalized !in whitelist && w in whitelist
    ensures Dist(normalized, w) >= 1
  {
    ZeroIffEqual(normalized, w);
  }
}
