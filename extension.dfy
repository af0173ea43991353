/** back.js, the browser-extension variant of the scorer: its own
    Levenshtein routine, the whitelist lookup, the syntax checks on the URL,
    the brand-impersonation scan and the verdict thresholds. The list
    `TRUSTED_DOMAINS` is passed in as `trusted`; the `URL` object as the
    three parts the checks read. */
module Extension {
  import opened Strings
  import opened EditDistance

  /** The warnings the extension pushes; the brand ones carry the brand's
      first label. */
  datatype Alert =
    | IpInsteadOfDomain
    | AtInAddress
    | TooManySubdomains
    | SuspiciousZone
    | BrandTypo(name: string)
    | BrandInForeignDomain(name: string)

  /** The parts of a parsed `URL` that the syntax checks read. */
  datatype UrlParts = UrlParts(username: string, password: string, href: string)

  datatype Level = Danger | Warning | Unknown

  /** What each warning adds to the score. */
  function Weight(w: Alert): nat {
    match w
    case IpInsteadOfDomain => 50
    case AtInAddress => 40
    case TooManySubdomains => 20
    case SuspiciousZone => 15
    case BrandTypo(_) => 80
    case BrandInForeignDomain(_) => 60
  }

  function TotalWeight(ws: seq<Alert>): nat {
    if ws == [] then 0 else TotalWeight(ws[..|ws| - 1]) + Weight(ws[|ws| - 1])
  }

  lemma TotalWeightSnoc(ws: seq<Alert>, w: Alert)
    ensures TotalWeight(ws + [w]) == TotalWeight(ws) + Weight(w)
  {
    assert (ws + [w])[..|ws|] == ws;
  }

  /** `v` is the distance of two prefixes, as the matrix cell `matrix[i][j]`
      holds it: `b[..i]` against `a[..j]`. */
  predicate Cell(v: nat, a: string, b: string, i: nat, j: nat)
    requires i <= |b| && j <= |a|
  {
    v == Dist(b[..i], a[..j])
  }

  /** One cell of the matrix from its three neighbours: the diagonal when
      the characters agree, else one more than the least neighbour. */
  lemma CellStep(a: string, b: string, i: nat, j: nat, diag: nat, left: nat, up: nat)
    requires 1 <= i <= |b| && 1 <= j <= |a|
    requires diag == Dist(b[..i - 1], a[..j - 1])
    requires left == Dist(b[..i], a[..j - 1])
    requires up == Dist(b[..i - 1], a[..j])
    ensures (if b[i - 1] == a[j - 1] then diag else Min3(diag + 1, left + 1, up + 1)) == Dist(b[..i], a[..j])
  {
    var x, y := b[..i], a[..j];
    assert x[..i - 1] == b[..i - 1] && y[..j - 1] == a[..j - 1];
    Recurrence(x, y, diag, left, up);
  }

  /** The distance to the empty string is the length. */
  lemma DistEmpty(x: string)
    ensures Dist(x, []) == |x| && Dist([], x) == |x|
  {
  }

  /** `getLevenshteinDistance`: the full matrix in which `matrix[i][j]` is
      the distance of `b[..i]` and `a[..j]`; the bottom-right cell is the
      distance of `b` and `a`, and so of `a` and `b`. */
  method GetLevenshteinDistance(a: string, b: string) returns (d: nat)
    ensures d == Dist(a, b)
  {
    if |a| == 0 {
      return |b|;
    }
    if |b| == 0 {
      return |a|;
    }
    var matrix := new nat[|b| + 1, |a| + 1];
    for i := 0 to |b| + 1
      invariant forall r :: 0 <= r < i ==> matrix[r, 0] == r
    {
      matrix[i, 0] := i;
    }
    for j := 0 to |a| + 1
      invariant forall r :: 0 <= r <= |b| ==> matrix[r, 0] == r
      invariant forall c :: 0 <= c < j ==> matrix[0, c] == c
    {
      matrix[0, j] := j;
    }
    forall c | 0 <= c <= |a|
      ensures Cell(matrix[0, c], a, b, 0, c)
    {
      DistEmpty(a[..c]);
    }
    for i := 1 to |b| + 1
      invariant forall r, c :: 0 <= r < i && 0 <= c <= |a| ==> Cell(matrix[r, c], a, b, r, c)
      invariant forall r :: i <= r <= |b| ==> matrix[r, 0] == r
    {
      FillRow(matrix, a, b, i);
    }
    assert Cell(matrix[|b|, |a|], a, b, |b|, |a|);
    assert b[..|b|] == b && a[..|a|] == a;
    Symmetric(a, b);
    d := matrix[|b|, |a|];
  }

  /** One pass of the inner loop: row `i` is filled from row `i - 1`, the
      rows above are kept. */
  method FillRow(matrix: array2<nat>, a: string, b: string, i: nat)
    requires 1 <= i <= |b| && matrix.Length0 == |b| + 1 && matrix.Length1 == |a| + 1
    requires forall r, c :: 0 <= r < i && 0 <= c <= |a| ==> Cell(matrix[r, c], a, b, r, c)
    requires forall r :: i <= r <= |b| ==> matrix[r, 0] == r
    modifies matrix
    ensures forall r, c :: 0 <= r <= i && 0 <= c <= |a| ==> Cell(matrix[r, c], a, b, r, c)
    ensures forall r :: i < r <= |b| ==> matrix[r, 0] == r
  {
    DistEmpty(b[..i]);
    for j := 1 to |a| + 1
      invariant forall r, c :: 0 <= r < i && 0 <= c <= |a| ==> Cell(matrix[r, c], a, b, r, c)
      invariant forall r :: i < r <= |b| ==> matrix[r, 0] == r
      invariant forall c :: 0 <= c < j ==> Cell(matrix[i, c], a, b, i, c)
    {
      CellStep(a, b, i, j, matrix[i - 1, j - 1], matrix[i, j - 1], matrix[i - 1, j]);
      if b[i - 1] == a[j - 1] {
        matrix[i, j] := matrix[i - 1, j - 1];
      } else {
        matrix[i, j] := Min3(matrix[i - 1, j - 1] + 1, matrix[i, j - 1] + 1, matrix[i - 1, j] + 1);
      }
    }
  }

  /** The object `checkWhitelist` returns. */
  datatype WhitelistVerdict = WhitelistVerdict(isSafe: bool, score: nat, reason: Option<string>)

  /** `checkWhitelist`: safe exactly for a listed host, with the reason
      "Trusted Source"; no reason for any other host; never any points
      either way. */
  function CheckWhitelist(domain: string, trusted: seq<string>): (r: WhitelistVerdict)
    ensures r.isSafe <==> domain in trusted
    ensures r.score == 0
    ensures r.reason.Some? <==> r.isSafe
    ensures r.isSafe ==> r.reason == Some("Trusted Source")
  {
    if domain in trusted then WhitelistVerdict(true, 0, Some("Trusted Source"))
    else WhitelistVerdict(false, 0, None)
  }

  predicate IsDigit(c: char) {
    '0' <= c <= '9'
  }

  /** `\d{1,3}`: one to three ASCII digits. */
  predicate DigitGroup(g: string) {
    1 <= |g| <= 3 && forall i :: 0 <= i < |g| ==> IsDigit(g[i])
  }

  /** `/^\d{1,3}\.\d{1,3}\.\d{1,3}\.\d{1,3}$/.test(domain)`: dots at
      three positions cut the host into four digit groups. */
  predicate IpShape(domain: string) {
    exists i, j, k :: 0 < i < j < k < |domain| && IpDots(domain, i, j, k)
  }

  predicate IpDots(d: string, i: int, j: int, k: int)
    requires 0 < i < j < k < |d|
  {
    && d[i] == '.' && d[j] == '.' && d[k] == '.'
    && DigitGroup(d[..i]) && DigitGroup(d[i + 1..j]) && DigitGroup(d[j + 1..k]) && DigitGroup(d[k + 1..])
  }

  /** Every text the pattern describes passes the test. */
  lemma IpShapeOf(g0: string, g1: string, g2: string, g3: string)
    requires DigitGroup(g0) && DigitGroup(g1) && DigitGroup(g2) && DigitGroup(g3)
    ensures IpShape(g0 + "." + g1 + "." + g2 + "." + g3)
  {
    var d := g0 + "." + g1 + "." + g2 + "." + g3;
    var i := |g0|;
    var j := i + 1 + |g1|;
    var k := j + 1 + |g2|;
    assert d[..i] == g0;
    assert d[i + 1..j] == g1;
    assert d[j + 1..k] == g2;
    assert d[k + 1..] == g3;
    assert IpDots(d, i, j, k);
  }

  /** The test checks the shape only: no group is compared with 255, and
      leading zeros pass. */
  lemma NoRangeCheck(s: string, t: string)
    requires s == "999.999.999.999" && t == "0.00.000.1"
    ensures IpShape(s) && IpShape(t)
  {
    assert s[..3] == "999" && s[4..7] == "999" && s[8..11] == "999" && s[12..] == "999";
    assert IpDots(s, 3, 7, 11);
    assert t[..1] == "0" && t[2..4] == "00" && t[5..8] == "000" && t[9..] == "1";
    assert IpDots(t, 1, 4, 8);
  }

  /** The position of a syntax alert in the order the checks run, and of
      the brand alerts after them. */
  function Rank(w: Alert): nat {
    match w
    case IpInsteadOfDomain => 0
    case AtInAddress => 1
    case TooManySubdomains => 2
    case SuspiciousZone => 3
    case _ => 4
  }

  /** The suffixes `checkUrlSyntax` treats as suspicious zones. */
  predicate BadZone(domain: string) {
    EndsWith(domain, ".xyz") || EndsWith(domain, ".tk") || EndsWith(domain, ".top")
  }

  /** '@' or user information in the URL. */
  predicate AtOrUserInfo(url: UrlParts) {
    url.username != [] || url.password != [] || '@' in url.href
  }

  /** `domain.split('.').length > 4`. */
  predicate ManyLabels(domain: string) {
    |Split(domain, {'.'})| > 4
  }

  /** `reasons.push(w)` when a check fires. */
  function Fire(ws: seq<Alert>, fired: bool, w: Alert): seq<Alert> {
    if fired then ws + [w] else ws
  }

  /** The alerts of the four syntax checks that fire, in the order they run. */
  function SyntaxAlerts(url: UrlParts, domain: string): seq<Alert> {
    var ws := Fire([], IpShape(domain), IpInsteadOfDomain);
    var ws := Fire(ws, AtOrUserInfo(url), AtInAddress);
    var ws := Fire(ws, ManyLabels(domain), TooManySubdomains);
    Fire(ws, BadZone(domain), SuspiciousZone)
  }

  /** Pushing adds the alert when the check fires and nothing else. */
  lemma FireIn(ws: seq<Alert>, fired: bool, w: Alert, x: Alert)
    ensures x in Fire(ws, fired, w) <==> x in ws || (fired && x == w)
  {
  }

  /** Pushing an alert that ranks after all present ones keeps the alerts
      strictly ordered. */
  lemma FireOrdered(ws: seq<Alert>, fired: bool, w: Alert)
    requires forall i :: 0 <= i < |ws| ==> Rank(ws[i]) < Rank(w)
    requires forall i, j :: 0 <= i < j < |ws| ==> Rank(ws[i]) < Rank(ws[j])
    ensures forall i :: 0 <= i < |Fire(ws, fired, w)| ==> Rank(Fire(ws, fired, w)[i]) <= Rank(w)
    ensures forall i, j :: 0 <= i < j < |Fire(ws, fired, w)| ==> Rank(Fire(ws, fired, w)[i]) < Rank(Fire(ws, fired, w)[j])
  {
  }

  /** Pushing adds the alert's weight when the check fires. */
  lemma FireWeight(ws: seq<Alert>, fired: bool, w: Alert)
    ensures TotalWeight(Fire(ws, fired, w)) == TotalWeight(ws) + (if fired then Weight(w) else 0)
  {
    if fired {
      TotalWeightSnoc(ws, w);
    }
  }

  /** More than four labels is more than three dots. */
  lemma ManyLabelsDots(domain: string)
    ensures ManyLabels(domain) <==> Count(domain, '.') > 3
  {
    SplitLength(domain, '.');
  }

  /** Each alert is present exactly when its check fires. */
  lemma SyntaxAlertsPresent(url: UrlParts, domain: string)
    ensures var ws := SyntaxAlerts(url, domain);
            && (IpInsteadOfDomain in ws <==> IpShape(domain))
            && (AtInAddress in ws <==> AtOrUserInfo(url))
            && (TooManySubdomains in ws <==> Count(domain, '.') > 3)
            && (SuspiciousZone in ws <==> BadZone(domain))
  {
    ManyLabelsDots(domain);
    var w1 := Fire([], IpShape(domain), IpInsteadOfDomain);
    var w2 := Fire(w1, AtOrUserInfo(url), AtInAddress);
    var w3 := Fire(w2, ManyLabels(domain), TooManySubdomains);
    forall x
      ensures x in SyntaxAlerts(url, domain) <==>
                || (IpShape(domain) && x == IpInsteadOfDomain)
                || (AtOrUserInfo(url) && x == AtInAddress)
                || (ManyLabels(domain) && x == TooManySubdomains)
                || (BadZone(domain) && x == SuspiciousZone)
    {
      FireIn([], IpShape(domain), IpInsteadOfDomain, x);
      FireIn(w1, AtOrUserInfo(url), AtInAddress, x);
      FireIn(w2, ManyLabels(domain), TooManySubdomains, x);
      FireIn(w3, BadZone(domain), SuspiciousZone, x);
    }
  }

  /** The alerts come in the order of the checks, without repetition, and
      are all syntax alerts. */
  lemma SyntaxAlertsOrdered(url: UrlParts, domain: string)
    ensures var ws := SyntaxAlerts(url, domain);
            && (forall i :: 0 <= i < |ws| ==> Rank(ws[i]) < 4)
            && (forall i, j :: 0 <= i < j < |ws| ==> Rank(ws[i]) < Rank(ws[j]))
  {
    var w1 := Fire([], IpShape(domain), IpInsteadOfDomain);
    FireOrdered([], IpShape(domain), IpInsteadOfDomain);
    var w2 := Fire(w1, AtOrUserInfo(url), AtInAddress);
    FireOrdered(w1, AtOrUserInfo(url), AtInAddress);
    var w3 := Fire(w2, ManyLabels(domain), TooManySubdomains);
    FireOrdered(w2, ManyLabels(domain), TooManySubdomains);
    FireOrdered(w3, BadZone(domain), SuspiciousZone);
  }

  /** The syntax score is at most 50 + 40 + 20 + 15 = 125. */
  lemma SyntaxAlertsWeight(url: UrlParts, domain: string)
    ensures TotalWeight(SyntaxAlerts(url, domain)) <= 125
  {
    var w1 := Fire([], IpShape(domain), IpInsteadOfDomain);
    FireWeight([], IpShape(domain), IpInsteadOfDomain);
    var w2 := Fire(w1, AtOrUserInfo(url), AtInAddress);
    FireWeight(w1, AtOrUserInfo(url), AtInAddress);
    var w3 := Fire(w2, ManyLabels(domain), TooManySubdomains);
    FireWeight(w2, ManyLabels(domain), TooManySubdomains);
    FireWeight(w3, BadZone(domain), SuspiciousZone);
  }

  /** `checkUrlSyntax`: four independent checks, each adding its points and
      pushing its alert when it fires: the IP shape (50, not terminal), '@'
      or user information in the URL (40), more than four labels (20), and
      a suspicious zone (15). The score is the weight of the alerts. */
  method CheckUrlSyntax(url: UrlParts, domain: string) returns (score: nat, reasons: seq<Alert>)
    ensures reasons == SyntaxAlerts(url, domain)
    ensures score == TotalWeight(reasons)
  {
    score, reasons := 0, [];
    if IpShape(domain) {
      TotalWeightSnoc(reasons, IpInsteadOfDomain);
      score := score + 50;
      reasons := reasons + [IpInsteadOfDomain];
    }
    assert reasons == Fire([], IpShape(domain), IpInsteadOfDomain);
    ghost var w1 := reasons;
    if AtOrUserInfo(url) {
      TotalWeightSnoc(reasons, AtInAddress);
      score := score + 40;
      reasons := reasons + [AtInAddress];
    }
    assert reasons == Fire(w1, AtOrUserInfo(url), AtInAddress);
    ghost var w2 := reasons;
    if ManyLabels(domain) {
      TotalWeightSnoc(reasons, TooManySubdomains);
      score := score + 20;
      reasons := reasons + [TooManySubdomains];
    }
    assert reasons == Fire(w2, ManyLabels(domain), TooManySubdomains);
    ghost var w3 := reasons;
    if BadZone(domain) {
      TotalWeightSnoc(reasons, SuspiciousZone);
      score := score + 15;
      reasons := reasons + [SuspiciousZone];
    }
    assert reasons == Fire(w3, BadZone(domain), SuspiciousZone);
  }

  /** `domain.split('.')[0]`. */
  function FirstLabel(s: string): string {
    Split(s, {'.'})[0]
  }

  /** What one trusted entry says about a host: nothing when the entry's
      first label is shorter than four; a typo alert when that label is one
      edit from the host's own first label; a foreign-domain alert when the
      host contains the label and is not the entry itself; else nothing. */
  function BrandCheck(domain: string, brand: string): Option<Alert> {
    var name := FirstLabel(brand);
    if |name| < 4 then None
    else if Dist(FirstLabel(domain), name) == 1 then Some(BrandTypo(name))
    else if Contains(domain, name) && domain != brand then Some(BrandInForeignDomain(name))
    else None
  }

  /** The verdict of the first trusted entry that has one. */
  function FirstHit(domain: string, trusted: seq<string>): Option<Alert> {
    if trusted == [] then None
    else if BrandCheck(domain, trusted[0]).Some? then BrandCheck(domain, trusted[0])
    else FirstHit(domain, trusted[1..])
  }

  /** The scan reports an alert exactly when some entry has one. */
  lemma {:induction false} FirstHitExists(domain: string, trusted: seq<string>)
    ensures FirstHit(domain, trusted).Some? <==>
              exists k :: 0 <= k < |trusted| && BrandCheck(domain, trusted[k]).Some?
  {
    if trusted != [] {
      FirstHitExists(domain, trusted[1..]);
      if exists k :: 0 <= k < |trusted| && BrandCheck(domain, trusted[k]).Some? {
        var k :| 0 <= k < |trusted| && BrandCheck(domain, trusted[k]).Some?;
        if k > 0 {
          assert trusted[1..][k - 1] == trusted[k];
        }
      }
      if exists k :: 0 <= k < |trusted[1..]| && BrandCheck(domain, trusted[1..][k]).Some? {
        var k :| 0 <= k < |trusted[1..]| && BrandCheck(domain, trusted[1..][k]).Some?;
        assert trusted[k + 1] == trusted[1..][k];
      }
    }
  }

  /** The alert reported is that of the earliest entry that has one. */
  lemma {:induction false} FirstHitEarliest(domain: string, trusted: seq<string>)
    requires FirstHit(domain, trusted).Some?
    ensures exists k :: && 0 <= k < |trusted|
                        && BrandCheck(domain, trusted[k]) == FirstHit(domain, trusted)
                        && forall j :: 0 <= j < k ==> BrandCheck(domain, trusted[j]).None?
  {
    if BrandCheck(domain, trusted[0]).Some? {
      assert BrandCheck(domain, trusted[0]) == FirstHit(domain, trusted);
    } else {
      var rest := trusted[1..];
      FirstHitEarliest(domain, rest);
      var k :| && 0 <= k < |rest|
               && BrandCheck(domain, rest[k]) == FirstHit(domain, rest)
               && forall j :: 0 <= j < k ==> BrandCheck(domain, rest[j]).None?;
      forall j | 0 <= j < k + 1
        ensures BrandCheck(domain, trusted[j]).None?
      {
        if j > 0 {
          assert trusted[j] == rest[j - 1];
        }
      }
      assert trusted[k + 1] == rest[k];
    }
  }

  /** `checkImpersonation`: the trusted entries are scanned in order,
      skipping those with a short first label, and the scan stops at the
      first alert, which is the only one reported. */
  method CheckImpersonation(domain: string, trusted: seq<string>) returns (score: nat, reasons: seq<Alert>)
    ensures reasons == (if FirstHit(domain, trusted).Some? then [FirstHit(domain, trusted).value] else [])
    ensures score == TotalWeight(reasons)
  {
    score, reasons := 0, [];
    var domainBody := FirstLabel(domain);
    var i := 0;
    while i < |trusted|
      invariant 0 <= i <= |trusted|
      invariant FirstHit(domain, trusted) == FirstHit(domain, trusted[i..])
      invariant score == 0 && reasons == []
    {
      var brand := trusted[i];
      assert trusted[i..][1..] == trusted[i + 1..];
      var trustedName := FirstLabel(brand);
      if |trustedName| < 4 {
        i := i + 1;
        continue;
      }
      var dist := GetLevenshteinDistance(domainBody, trustedName);
      if dist == 1 {
        score := score + 80;
        reasons := reasons + [BrandTypo(trustedName)];
        return;
      }
      if Contains(domain, trustedName) && domain != brand {
        score := score + 60;
        reasons := reasons + [BrandInForeignDomain(trustedName)];
        return;
      }
      i := i + 1;
    }
  }

  /** At most one alert, worth 80 for a typo and 60 for a foreign domain,
      so the score is 0, 60 or 80. */
  lemma ImpersonationScores(domain: string, trusted: seq<string>)
    ensures var hit := FirstHit(domain, trusted);
            var ws := if hit.Some? then [hit.value] else [];
            && TotalWeight(ws) in {0, 60, 80}
            && (TotalWeight(ws) == 80 <==> hit.Some? && hit.value.BrandTypo?)
            && (TotalWeight(ws) == 60 <==> hit.Some? && hit.value.BrandInForeignDomain?)
  {
    if FirstHit(domain, trusted).Some? {
      FirstHitEarliest(domain, trusted);
      var hit := FirstHit(domain, trusted).value;
      assert TotalWeight([hit]) == TotalWeight([]) + Weight(hit);
    }
  }

  /** The verdict thresholds of `finalizeVerdict`. */
  function VerdictLevel(score: int): Level {
    if score >= 50 then Danger else if score >= 20 then Warning else Unknown
  }

  function Severity(l: Level): nat {
    match l
    case Unknown => 0
    case Warning => 1
    case Danger => 2
  }

  /** A higher score never gives a milder verdict, and the three levels are
      the three score bands. */
  lemma VerdictMonotone(s1: int, s2: int)
    requires s1 <= s2
    ensures Severity(VerdictLevel(s1)) <= Severity(VerdictLevel(s2))
  {
  }
}
