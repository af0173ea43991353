/** The `/analyze` handler of script.py: the host is cleaned, the three
    analyzers run, and their scores are combined. The combination is a pure
    function of the sub-scores; the handler wires the analyzers to it. The
    process-wide `bk_tree` and `EXACT_WHITELIST` are the parameters `index`
    and `whitelist`; the host test and the HTML parser are the parameters
    `isIp` and `parse`. */
module Risk {
  import opened Strings
  import opened Reasons
  import opened Normalizer
  import opened BkIndex
  import opened UrlStructure
  import opened Typosquatting
  import opened Content

  /** The JSON body of a successful answer. */
  datatype Report = Report(riskScore: nat, reasons: seq<Reason>)

  /** The 400 answer `{"error": "Bad URL"}`. */
  datatype Failure = BadUrl

  /** Content findings confirm a URL or typosquatting alarm: some HTML was
      scored above 0 and the host either looks like a whitelisted one or its
      URL scored at least 50. */
  predicate Escalates(urlScore: nat, tsScore: nat, contentScore: Option<nat>) {
    contentScore.Some? && contentScore.value > 0 && (tsScore > 0 || urlScore >= 50)
  }

  /** The sub-scores added up, the content one only when HTML was sent. */
  function Sum(urlScore: nat, tsScore: nat, contentScore: Option<nat>): nat {
    urlScore + tsScore + (if contentScore.Some? then contentScore.value else 0)
  }

  /** `total_score` before clamping: 100 on escalation, else the sum. */
  function Total(urlScore: nat, tsScore: nat, contentScore: Option<nat>): nat {
    if Escalates(urlScore, tsScore, contentScore) then 100 else Sum(urlScore, tsScore, contentScore)
  }

  /** `min(total_score, 100)`. */
  function Clamp(total: nat): (s: nat)
    ensures s <= 100 && s <= total
    ensures total <= 100 ==> s == total
  {
    if total <= 100 then total else 100
  }

  function ScoreOf(content: Option<(nat, seq<Reason>)>): Option<nat> {
    if content.Some? then Some(content.value.0) else None
  }

  /** Lines 228-249: the reported score is `min(total_score, 100)` and the
      reasons come in the order structure, typosquatting, content. */
  function Combine(urlScore: nat, urlReasons: seq<Reason>, tsScore: nat, tsReason: Option<Reason>,
                   content: Option<(nat, seq<Reason>)>): (r: Report)
    requires tsScore > 0 ==> tsReason.Some?
    ensures r.riskScore <= 100
  {
    Report(Clamp(Total(urlScore, tsScore, ScoreOf(content))),
           urlReasons
           + (if tsScore > 0 then [tsReason.value] else [])
           + (if content.Some? then content.value.1 else []))
  }

  /** Escalation sets the score to 100; without it the score is the clamped
      sum. Either way it never falls below the clamped sum. */
  lemma CombineScore(urlScore: nat, urlReasons: seq<Reason>, tsScore: nat, tsReason: Option<Reason>,
                     content: Option<(nat, seq<Reason>)>)
    requires tsScore > 0 ==> tsReason.Some?
    ensures var r := Combine(urlScore, urlReasons, tsScore, tsReason, content);
            var c := ScoreOf(content);
            && (Escalates(urlScore, tsScore, c) ==> r.riskScore == 100)
            && (!Escalates(urlScore, tsScore, c) ==> r.riskScore == Clamp(Sum(urlScore, tsScore, c)))
            && r.riskScore >= Clamp(Sum(urlScore, tsScore, c))
  {
  }

  /** Without HTML the content analyzer plays no part. */
  lemma NoHtmlNoEscalation(urlScore: nat, urlReasons: seq<Reason>, tsScore: nat, tsReason: Option<Reason>)
    requires tsScore > 0 ==> tsReason.Some?
    ensures var r := Combine(urlScore, urlReasons, tsScore, tsReason, None);
            && r.riskScore == Clamp(Sum(urlScore, tsScore, None))
            && |r.reasons| == |urlReasons| + (if tsScore > 0 then 1 else 0)
  {
  }

  /** The structure reasons come first, the content reasons last, with the
      typosquatting reason between them exactly when that score is positive. */
  lemma CombineReasons(urlScore: nat, urlReasons: seq<Reason>, tsScore: nat, tsReason: Option<Reason>,
                       content: Option<(nat, seq<Reason>)>)
    requires tsScore > 0 ==> tsReason.Some?
    ensures var r := Combine(urlScore, urlReasons, tsScore, tsReason, content);
            var tail := if content.Some? then content.value.1 else [];
            && |r.reasons| == |urlReasons| + (if tsScore > 0 then 1 else 0) + |tail|
            && r.reasons[..|urlReasons|] == urlReasons
            && r.reasons[|r.reasons| - |tail|..] == tail
            && (tsScore > 0 ==> r.reasons[|urlReasons|] == tsReason.value)
  {
    var r := Combine(urlScore, urlReasons, tsScore, tsReason, content);
    var tail := if content.Some? then content.value.1 else [];
    var mid := if tsScore > 0 then [tsReason.value] else [];
    assert r.reasons == urlReasons + mid + tail;
    assert (urlReasons + mid + tail)[..|urlReasons|] == urlReasons;
  }

  /** Raising any sub-score never lowers the reported score, escalation
      included. */
  lemma CombineMonotone(u1: nat, t1: nat, c1: Option<nat>, u2: nat, t2: nat, c2: Option<nat>)
    requires u1 <= u2 && t1 <= t2
    requires c1.Some? <==> c2.Some?
    requires c1.Some? ==> c1.value <= c2.value
    ensures Clamp(Total(u1, t1, c1)) <= Clamp(Total(u2, t2, c2))
  {
    if Escalates(u1, t1, c1) {
      assert Escalates(u2, t2, c2);
    }
  }

  /** What `analyze` answers for a host that survived cleaning: the
      combined score of the URL structure, the typosquatting check and, when
      HTML was sent, the content, at most 100; the structure reasons first,
      the content reasons last, and between them, exactly when that score is
      positive, the typosquatting reason: the homoglyph attack or the nearest
      whitelisted host. */
  ghost predicate Reports(report: Report, fullUrl: string, domain: string, html: string,
                          whitelist: set<string>, isIp: string -> bool, parse: string -> Page)
  {
    var c := if html == [] then None else Some(AnalyzeContent(html, parse).0);
    var urlReasons := UrlReasons(fullUrl, domain, isIp);
    var tail := if html == [] then [] else AnalyzeContent(html, parse).1;
    && report.riskScore == Clamp(Total(UrlScore(fullUrl, domain, isIp), TyposquatScore(domain, whitelist), c))
    && report.riskScore <= 100
    && |report.reasons| == |urlReasons| + (if TyposquatScore(domain, whitelist) > 0 then 1 else 0) + |tail|
    && report.reasons[..|urlReasons|] == urlReasons
    && report.reasons[|report.reasons| - |tail|..] == tail
    && (TyposquatScore(domain, whitelist) > 0 ==> TsReasonOk(domain, whitelist, report.reasons[|urlReasons|]))
  }

  /** Lines 228-249: the three analyzers run on the cleaned host and their
      results are combined. */
  method ScoreHost(index: BKTree, whitelist: set<string>, fullUrl: string, domain: string, html: string,
                   isIp: string -> bool, parse: string -> Page)
    returns (report: Report)
    requires index.Valid() && index.Contents() == whitelist
    ensures Reports(report, fullUrl, domain, html, whitelist, isIp, parse)
  {
    var urlScore, urlReasons := AnalyzeUrlStructure(fullUrl, domain, isIp);
    var tsScore, tsReason := AnalyzeTyposquatting(index, whitelist, domain);
    var content := if html == [] then None else Some(AnalyzeContent(html, parse));
    report := Combine(urlScore, urlReasons, tsScore, tsReason, content);
    CombineReasons(urlScore, urlReasons, tsScore, tsReason, content);
  }

  /** `analyze`: a URL whose cleaned host is empty is refused with "Bad
      URL" before any scoring; otherwise the host is scored. */
  method Analyze(index: BKTree, whitelist: set<string>, fullUrl: string, html: string,
                 isIp: string -> bool, parse: string -> Page)
    returns (response: Result<Report, Failure>)
    requires index.Valid() && index.Contents() == whitelist
    ensures response.Err? <==> CleanDomain(fullUrl) == []
    ensures response.Ok? ==> Reports(response.value, fullUrl, CleanDomain(fullUrl), html, whitelist, isIp, parse)
  {
    var domain := CleanDomain(fullUrl);
    if domain == [] {
      return Err(BadUrl);
    }
    var report := ScoreHost(index, whitelist, fullUrl, domain, html, isIp, parse);
    return Ok(report);
  }
}
