/** `analyze_url_structure` of script.py: additive penalties read off the
    URL and its host. */
module UrlStructure {
  import opened Strings
  import opened Reasons

  /** `SUSPICIOUS_TLDS`. */
  const SuspiciousTlds: set<string> :=
    {".xyz", ".top", ".club", ".win", ".online", ".info", ".gq", ".tk", ".ml", ".ga", ".cf", ".cn"}

  /** A dot followed by a non-empty label without dots. */
  predicate DotLabel(t: string) {
    |t| >= 2 && t[0] == '.' && forall i :: 1 <= i < |t| ==> t[i] != '.'
  }

  lemma TldsAreLabels()
    ensures forall t :: t in SuspiciousTlds ==> DotLabel(t)
  {
  }

  /** Of two dot-labels, one ends the other only if they are equal. */
  lemma DotLabelSuffix(t: string, u: string)
    requires DotLabel(t) && DotLabel(u) && EndsWith(t, u)
    ensures t == u
  {
    var k := |t| - |u|;
    assert t[k] == u[0] == '.';
    assert k == 0;
  }

  /** No suspicious zone is a suffix of another, so a host ends with at most
      one of them and the `.endswith` scan adds 15 at most once. */
  lemma ZoneUnique(domain: string, t: string, u: string)
    requires t in SuspiciousTlds && u in SuspiciousTlds
    requires EndsWith(domain, t) && EndsWith(domain, u)
    ensures t == u
  {
    TldsAreLabels();
    if |t| <= |u| {
      SuffixOfSuffix(domain, t, u);
      DotLabelSuffix(u, t);
    } else {
      SuffixOfSuffix(domain, u, t);
      DotLabelSuffix(t, u);
    }
  }

  predicate HasZone(domain: string) {
    exists t :: t in SuspiciousTlds && EndsWith(domain, t)
  }

  /** The one suspicious zone the host ends with, if any. */
  ghost function Zone(domain: string): (z: Option<string>)
    ensures z.Some? <==> HasZone(domain)
    ensures z.Some? ==> z.value in SuspiciousTlds && EndsWith(domain, z.value)
  {
    if HasZone(domain) then
      var t :| t in SuspiciousTlds && EndsWith(domain, t);
      Some(t)
    else None
  }

  /** The score without the IP shortcut: 60 for '@' in the URL, 15 for a
      suspicious zone, 20 for more than three dots in the host. */
  function StructureScore(fullUrl: string, domain: string): (score: nat)
    ensures score <= 95
  {
    (if '@' in fullUrl then 60 else 0)
    + (if HasZone(domain) then 15 else 0)
    + (if Count(domain, '.') > 3 then 20 else 0)
  }

  /** The score of `analyze_url_structure`: 80 for an IP host, else the
      sum of the structural penalties. */
  function UrlScore(fullUrl: string, domain: string, isIp: string -> bool): (score: nat)
    ensures score <= 95
    ensures score >= 50 <==> isIp(domain) || '@' in fullUrl
  {
    if isIp(domain) then 80 else StructureScore(fullUrl, domain)
  }

  /** The reasons of `analyze_url_structure`, in the order the checks run. */
  ghost function UrlReasons(fullUrl: string, domain: string, isIp: string -> bool): (reasons: seq<Reason>)
    ensures |reasons| <= 3
    ensures reasons == [] <==> UrlScore(fullUrl, domain, isIp) == 0
  {
    if isIp(domain) then [IpHost]
    else (if '@' in fullUrl then [AtSign] else [])
         + (if Zone(domain).Some? then [SuspiciousZone(Zone(domain).value)] else [])
         + (if Count(domain, '.') > 3 then [ManySubdomains] else [])
  }

  /** The `for tld in SUSPICIOUS_TLDS` scan: it stops at the first zone
      the host ends with, and since no zone ends another, the one found is
      the host's zone whatever order the set is walked in. */
  method FindZone(domain: string) returns (zone: Option<string>)
    ensures zone == Zone(domain)
  {
    var pending := SuspiciousTlds;
    while pending != {}
      invariant pending <= SuspiciousTlds
      invariant forall t :: t in SuspiciousTlds - pending ==> !EndsWith(domain, t)
      decreases pending
    {
      var tld :| tld in pending;
      if EndsWith(domain, tld) {
        ZoneUnique(domain, tld, Zone(domain).value);
        return Some(tld);
      }
      pending := pending - {tld};
    }
    return None;
  }

  /** `analyze_url_structure`: an IP host scores 80 with its one reason and
      nothing else is looked at; otherwise each check that fires adds its
      points and one reason, in the order '@', zone, subdomains. The host
      test `is_ip_address` is the parameter `isIp`. */
  method AnalyzeUrlStructure(fullUrl: string, domain: string, isIp: string -> bool)
    returns (score: nat, reasons: seq<Reason>)
    ensures isIp(domain) ==> score == 80 && reasons == [IpHost]
    ensures score == UrlScore(fullUrl, domain, isIp)
    ensures reasons == UrlReasons(fullUrl, domain, isIp)
  {
    score, reasons := 0, [];
    if isIp(domain) {
      score := score + 80;
      reasons := reasons + [IpHost];
      return;
    }
    var at: seq<Reason>, inZone: seq<Reason>, deep: seq<Reason> := [], [], [];
    if '@' in fullUrl {
      score := score + 60;
      at := [AtSign];
    }
    var zone := FindZone(domain);
    if zone.Some? {
      score := score + 15;
      inZone := [SuspiciousZone(zone.value)];
    }
    if Count(domain, '.') > 3 {
      score := score + 20;
      deep := [ManySubdomains];
    }
    reasons := at + inZone + deep;
  }
}
