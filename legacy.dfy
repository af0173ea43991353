/** scritp.py, the older server: a rolling-row Levenshtein routine, a
    first-hit scan of a fixed brand table, and the status thresholds. The
    URL parser (`urlparse(...).netloc`) is the parameter `netloc`, which
    yields `None` where the parser raises; the HTML parser of the fourth
    stage is the parameter `parse`. */
module Legacy {
  import opened Strings
  import opened EditDistance
  import opened Normalizer

  /** `TARGET_DOMAINS`, in the order of its literal: brand and official host. */
  const TargetDomains: seq<(string, string)> := [
    ("google", "google.com"), ("facebook", "facebook.com"), ("vk", "vk.com"),
    ("sberbank", "sberbank.ru"), ("instagram", "instagram.com"), ("twitter", "twitter.com"),
    ("yandex", "yandex.ru")]

  /** `suspicious_keywords` of the fourth stage. */
  const SuspiciousKeywords: seq<string> :=
    ["verify", "account suspended", "confirm identity", "подтвердите аккаунт", "блокировка", "update payment"]

  /** The messages `analyze_security` returns. */
  datatype LegacyReason =
    | OfficialDomain               // the host is a brand's official one
    | Spoof(legit: string)         // the host is one or two edits from an official one
    | Keyword(kw: string)          // a suspicious keyword in the title, meta data or text

  /** The exception the handler turns into a 500 answer. */
  datatype Failure = NameError

  datatype Status = Danger | Warning | Safe

  /** What the parser reports about a page: its text and its `<title>`. */
  datatype LegacyPage = LegacyPage(text: string, title: Option<string>)

  /** `row[j]` is the distance of `a` and `b[..j]`, for every `j`. */
  predicate RowOk(row: seq<nat>, a: string, b: string) {
    |row| == |b| + 1 && forall j :: 0 <= j <= |b| ==> row[j] == Dist(a, b[..j])
  }

  /** One cell of the new row from the previous row and the cell to its left. */
  lemma RowStep(s1: string, s2: string, i: nat, j: nat, diag: nat, up: nat, left: nat)
    requires i < |s1| && j < |s2|
    requires diag == Dist(s1[..i], s2[..j])
    requires up == Dist(s1[..i], s2[..j + 1])
    requires left == Dist(s1[..i + 1], s2[..j])
    ensures Dist(s1[..i + 1], s2[..j + 1]) == Min3(up + 1, left + 1, diag + (if s1[i] != s2[j] then 1 else 0))
  {
    var a, b := s1[..i + 1], s2[..j + 1];
    assert a[..i] == s1[..i] && b[..j] == s2[..j];
    PrefixStep(a, b, diag, up, left);
  }

  /** The rolling-row recurrence on two non-empty strings. */
  lemma PrefixStep(a: string, b: string, diag: nat, up: nat, left: nat)
    requires |a| > 0 && |b| > 0
    requires diag == Dist(a[..|a| - 1], b[..|b| - 1])
    requires up == Dist(a[..|a| - 1], b)
    requires left == Dist(a, b[..|b| - 1])
    ensures Dist(a, b) == Min3(up + 1, left + 1, diag + (if a[|a| - 1] != b[|b| - 1] then 1 else 0))
  {
    Unfold(a, b, diag + Cost(a[|a| - 1], b[|b| - 1]), up + 1, left + 1);
  }

  /** The inner loop: the row of `s1[..i + 1]` from the row of `s1[..i]`. */
  method NextRow(previous: seq<nat>, s1: string, s2: string, i: nat) returns (current: seq<nat>)
    requires i < |s1| && RowOk(previous, s1[..i], s2)
    ensures RowOk(current, s1[..i + 1], s2)
  {
    var c1 := s1[i];
    current := [i + 1];
    assert Dist(s1[..i + 1], s2[..0]) == i + 1;
    for j := 0 to |s2|
      invariant |current| == j + 1
      invariant forall k :: 0 <= k <= j ==> current[k] == Dist(s1[..i + 1], s2[..k])
    {
      var c2 := s2[j];
      var insertions := previous[j + 1] + 1;
      var deletions := current[j] + 1;
      var substitutions := previous[j] + (if c1 != c2 then 1 else 0);
      RowStep(s1, s2, i, j, previous[j], previous[j + 1], current[j]);
      current := current + [Min3(insertions, deletions, substitutions)];
    }
  }

  /** `levenshtein_distance`: the arguments are swapped so that the first is
      the longer, the distance to an empty string is the other's length, and
      otherwise one row of distances is kept and rebuilt per character of the
      longer string. The result is the edit distance. */
  method LevenshteinDistance(s1: string, s2: string) returns (d: nat)
    ensures d == Dist(s1, s2)
    decreases if |s1| < |s2| then 1 else 0
  {
    if |s1| < |s2| {
      d := LevenshteinDistance(s2, s1);
      Symmetric(s1, s2);
      return;
    }
    if |s2| == 0 {
      return |s1|;
    }
    var previous: seq<nat> := seq(|s2| + 1, j => j);
    forall j | 0 <= j <= |s2|
      ensures previous[j] == Dist(s1[..0], s2[..j])
    {
    }
    for i := 0 to |s1|
      invariant RowOk(previous, s1[..i], s2)
    {
      previous := NextRow(previous, s1, s2, i);
    }
    assert s1[..|s1|] == s1 && s2[..|s2|] == s2;
    d := previous[|s2|];
  }

  /** `clean_domain`: a URL without an `http` prefix gets `http://`, the
      parser's host part loses one leading `www.` and is lower-cased; the
      empty string where the parser raises. */
  function LegacyCleanDomain(url: string, netloc: string -> Option<string>): (r: string)
    ensures forall i :: 0 <= i < |r| ==> !IsUpper(r[i])
  {
    var u := if StartsWith(url, "http") then url else "http://" + url;
    match netloc(u)
    case None => ""
    case Some(host) =>
      Lower(if StartsWith(host, "www.") then host[4..] else host)
  }

  /** The host is a brand's official host or lies below it. */
  predicate IsOfficial(domain: string, legit: string) {
    domain == legit || EndsWith(domain, "." + legit)
  }

  /** The host is one or two edits from an official host. */
  predicate Near(domain: string, legit: string) {
    0 < Dist(domain, legit) <= 2
  }

  /** What the first stage concludes. */
  datatype Stage1 = Official | Spoofed(legit: string) | Unmatched

  /** The first stage read off the brand table: the first entry that is
      official for the host or near it decides. */
  function Stage1Of(domain: string, targets: seq<(string, string)>): Stage1 {
    if targets == [] then Unmatched
    else if IsOfficial(domain, targets[0].1) then Official
    else if Near(domain, targets[0].1) then Spoofed(targets[0].1)
    else Stage1Of(domain, targets[1..])
  }

  /** An entry decides when it is official for the host or near it. */
  predicate Decides(domain: string, legit: string) {
    IsOfficial(domain, legit) || Near(domain, legit)
  }

  /** The stage concludes from the earliest deciding entry, and finds
      nothing exactly when no entry decides. */
  lemma {:induction false} Stage1Spec(domain: string, targets: seq<(string, string)>)
    ensures Stage1Of(domain, targets) == Unmatched <==>
              forall k :: 0 <= k < |targets| ==> !Decides(domain, targets[k].1)
    ensures Stage1Of(domain, targets) != Unmatched ==>
              exists k :: && 0 <= k < |targets| && Decides(domain, targets[k].1)
                          && (forall j :: 0 <= j < k ==> !Decides(domain, targets[j].1))
                          && Stage1Of(domain, targets) ==
                               if IsOfficial(domain, targets[k].1) then Official else Spoofed(targets[k].1)
  {
    if targets != [] && !Decides(domain, targets[0].1) {
      var rest := targets[1..];
      Stage1Spec(domain, rest);
      if forall k :: 0 <= k < |rest| ==> !Decides(domain, rest[k].1) {
        forall k | 0 <= k < |targets|
          ensures !Decides(domain, targets[k].1)
        {
          if k > 0 {
            assert targets[k] == rest[k - 1];
          }
        }
      } else {
        var k :| && 0 <= k < |rest| && Decides(domain, rest[k].1)
                 && (forall j :: 0 <= j < k ==> !Decides(domain, rest[j].1))
                 && Stage1Of(domain, rest) ==
                      if IsOfficial(domain, rest[k].1) then Official else Spoofed(rest[k].1);
        assert targets[k + 1] == rest[k];
        forall j | 0 <= j < k + 1
          ensures !Decides(domain, targets[j].1)
        {
          if j > 0 {
            assert targets[j] == rest[j - 1];
          }
        }
      }
    }
  }

  /** A spoof is never an official host: it is reported at distance 1 or 2
      from an entry earlier than any entry it is official for. */
  lemma SpoofNotOfficial(domain: string, targets: seq<(string, string)>)
    requires Stage1Of(domain, targets).Spoofed?
    ensures var legit := Stage1Of(domain, targets).legit;
            0 < Dist(domain, legit) <= 2 && domain != legit
  {
    Stage1Spec(domain, targets);
    ZeroIffEqual(domain, Stage1Of(domain, targets).legit);
  }

  /** Stage 1 of `analyze_security`: the table is scanned in order; an
      official hit returns at once with its one reason, the first near hit
      adds 80 and its reason and ends the scan. `official` tells the early
      return apart from falling out of the loop. */
  method ScanTargets(currentDomain: string) returns (official: bool, score: nat, reasons: seq<LegacyReason>)
    ensures official <==> Stage1Of(currentDomain, TargetDomains) == Official
    ensures official ==> score == 0 && reasons == [OfficialDomain]
    ensures Stage1Of(currentDomain, TargetDomains).Spoofed? ==>
              score == 80 && reasons == [Spoof(Stage1Of(currentDomain, TargetDomains).legit)]
    ensures Stage1Of(currentDomain, TargetDomains) == Unmatched ==> score == 0 && reasons == []
  {
    score, reasons := 0, [];
    var i := 0;
    while i < |TargetDomains|
      invariant 0 <= i <= |TargetDomains|
      invariant Stage1Of(currentDomain, TargetDomains) == Stage1Of(currentDomain, TargetDomains[i..])
    {
      assert TargetDomains[i..][1..] == TargetDomains[i + 1..];
      var (brand, legitDomain) := TargetDomains[i];
      if currentDomain == legitDomain || EndsWith(currentDomain, "." + legitDomain) {
        return true, 0, [OfficialDomain];
      }
      var dist := LevenshteinDistance(currentDomain, legitDomain);
      if 0 < dist <= 2 {
        score := score + 80;
        reasons := reasons + [Spoof(legitDomain)];
        return false, score, reasons;
      }
      i := i + 1;
    }
    return false, score, reasons;
  }

  /** `analyze_security` as written: after the first stage, line 107 reads
      `soup`, which only a commented-out line assigns, so every host that is
      not official raises `NameError`; only official hosts get an answer,
      and that answer is always 0 with its one reason, whose status is safe. */
  method AnalyzeSecurity(domainRaw: string, netloc: string -> Option<string>)
    returns (result: Result<(nat, seq<LegacyReason>), Failure>)
    ensures result.Ok? <==> Stage1Of(LegacyCleanDomain(domainRaw, netloc), TargetDomains) == Official
    ensures result.Ok? ==> result.value == (0, [OfficialDomain])
    ensures result.Ok? ==> LegacyStatus(result.value.0) == Safe
  {
    var currentDomain := LegacyCleanDomain(domainRaw, netloc);
    var official, score, reasons := ScanTargets(currentDomain);
    if official {
      return Ok((score, reasons));
    }
    return Err(NameError);
  }

  /** A host outside the table that no entry is official for: with it the
      handler as written fails. */
  lemma UnofficialHostFails(domain: string)
    requires domain == "example.org"
    ensures Stage1Of(domain, TargetDomains) != Official
  {
    Stage1Spec(domain, TargetDomains);
    forall k | 0 <= k < |TargetDomains|
      ensures !IsOfficial(domain, TargetDomains[k].1)
    {
      assert domain[|domain| - 1] == 'g';
    }
  }

  /** One keyword is found in the lower-cased meta data and title or in the
      first 500 characters of the lower-cased text. */
  predicate KeywordFound(kw: string, combinedMeta: string, text: string) {
    Contains(combinedMeta, kw) || Contains(if |text| <= 500 then text else text[..500], kw)
  }

  /** The keyword reasons, in the order of the keyword list. */
  function KeywordHits(kws: seq<string>, combinedMeta: string, text: string): (hits: seq<LegacyReason>)
    ensures |hits| <= |kws|
  {
    if kws == [] then []
    else
      KeywordHits(kws[..|kws| - 1], combinedMeta, text)
      + (if KeywordFound(kws[|kws| - 1], combinedMeta, text) then [Keyword(kws[|kws| - 1])] else [])
  }

  /** A keyword reason is present exactly for a listed keyword that is found. */
  lemma {:induction false} KeywordHitsSpec(kws: seq<string>, combinedMeta: string, text: string, kw: string)
    ensures Keyword(kw) in KeywordHits(kws, combinedMeta, text) <==> kw in kws && KeywordFound(kw, combinedMeta, text)
    ensures OfficialDomain !in KeywordHits(kws, combinedMeta, text)
  {
    if kws != [] {
      var init := kws[..|kws| - 1];
      KeywordHitsSpec(init, combinedMeta, text, kw);
      assert kws == init + [kws[|kws| - 1]];
    }
  }

  /** The fourth stage's loop: 20 points and one reason per keyword found. */
  method KeywordScan(combinedMeta: string, text: string) returns (score: nat, reasons: seq<LegacyReason>)
    ensures reasons == KeywordHits(SuspiciousKeywords, combinedMeta, text)
    ensures score == 20 * |reasons|
  {
    score, reasons := 0, [];
    for i := 0 to |SuspiciousKeywords|
      invariant reasons == KeywordHits(SuspiciousKeywords[..i], combinedMeta, text)
      invariant score == 20 * |reasons|
    {
      var kw := SuspiciousKeywords[i];
      assert SuspiciousKeywords[..i + 1][..i] == SuspiciousKeywords[..i];
      if KeywordFound(kw, combinedMeta, text) {
        score := score + 20;
        reasons := reasons + [Keyword(kw)];
      }
    }
    assert SuspiciousKeywords[..|SuspiciousKeywords|] == SuspiciousKeywords;
  }

  /** `analyze_security` with the parse of lines 75-76 restored, so that
      `soup` and `text_content` are bound: official hosts still get 0 with
      their one reason; every other host gets an answer, the first stage's
      score plus 20 per keyword found, clamped to 100 by line 115. The meta
      data and title are read only when the page has a title, as the
      conditional expression of line 107 groups them. A spoofed host scores
      at least 80, so its status is always danger. */
  method AnalyzeSecurityFixed(domainRaw: string, html: string, metaText: string,
                              netloc: string -> Option<string>, parse: string -> LegacyPage)
    returns (score: nat, reasons: seq<LegacyReason>)
    ensures var stage1 := Stage1Of(LegacyCleanDomain(domainRaw, netloc), TargetDomains);
            stage1 == Official ==> score == 0 && reasons == [OfficialDomain]
    ensures var stage1 := Stage1Of(LegacyCleanDomain(domainRaw, netloc), TargetDomains);
            var page := parse(html);
            var combinedMeta := if page.title.Some? then Lower(metaText + page.title.value) else "";
            var hits := KeywordHits(SuspiciousKeywords, combinedMeta, Lower(page.text));
            stage1 != Official ==>
              && reasons == (if stage1.Spoofed? then [Spoof(stage1.legit)] else []) + hits
              && score == Min(if stage1.Spoofed? then 80 + 20 * |hits| else 20 * |hits|, 100)
    ensures score <= 100
    ensures Stage1Of(LegacyCleanDomain(domainRaw, netloc), TargetDomains).Spoofed? ==> LegacyStatus(score) == Danger
  {
    var currentDomain := LegacyCleanDomain(domainRaw, netloc);
    var official, stageScore, stageReasons := ScanTargets(currentDomain);
    if official {
      return stageScore, stageReasons;
    }
    var page := parse(html);
    var textContent := Lower(page.text);
    var combinedMeta := if page.title.Some? then Lower(metaText + page.title.value) else "";
    var kwScore, kwReasons := KeywordScan(combinedMeta, textContent);
    score := stageScore + kwScore;
    reasons := stageReasons + kwReasons;
    score := Min(score, 100);
  }

  /** The status thresholds of the handler: 70 and above is danger, 30 and
      above a warning, anything lower safe. */
  function LegacyStatus(score: int): Status {
    if score >= 70 then Danger else if score >= 30 then Warning else Safe
  }

  function Severity(s: Status): nat {
    match s
    case Safe => 0
    case Warning => 1
    case Danger => 2
  }

  /** A higher score never gives a milder status. */
  lemma StatusMonotone(s1: int, s2: int)
    requires s1 <= s2
    ensures Severity(LegacyStatus(s1)) <= Severity(LegacyStatus(s2))
  {
  }
}
