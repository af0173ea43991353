/** The scoring part of `analyze_content_optimized` in script.py: the page
    text is searched for urgency and money words and the page for a password
    field, and the three answers are read off a small table. Parsing the
    HTML and dropping scripts, styles and media is done by the parameter
    `parse`, which yields the visible text and whether the page holds an
    `<input type="password">`. */
module Content {
  import opened Strings
  import opened Reasons
  import opened Normalizer

  /** What the HTML parser reports about a page. */
  datatype Page = Page(text: string, hasPassword: bool)

  /** Pages longer than this are cut before parsing. */
  const MaxHtml: nat := 500_000

  /** `triggers['urgent']`. */
  const UrgentWords: seq<string> :=
    ["blocked", "suspended", "immediately", "urgent", "заблокирован", "срок", "срочно", "24 часа", "внимание"]

  /** `triggers['money']`. */
  const MoneyWords: seq<string> :=
    ["card", "cvv", "bank", "payment", "карта", "платеж", "реквизиты", "банк", "средства"]

  /** `any(w in text for w in words)`. */
  predicate AnyWord(text: string, words: seq<string>) {
    exists i :: 0 <= i < |words| && Contains(text, words[i])
  }

  /** The HTML handed to the parser: at most `MaxHtml` characters, a prefix
      of the page. */
  function Truncate(html: string): (t: string)
    ensures t <= html
    ensures |t| <= MaxHtml
    ensures |html| <= MaxHtml ==> t == html
  {
    if |html| > MaxHtml then html[..MaxHtml] else html
  }

  /** The content table: a password field with urgency or money words
      scores 70, a password field alone 10, urgency and money words without
      a password field 40, anything else 0; each non-zero score carries its
      one reason. */
  function ContentScore(hasPassword: bool, urgency: bool, money: bool): (r: (nat, seq<Reason>))
  {
    if hasPassword then
      if urgency || money then (70, [PasswordUnderPressure]) else (10, [PasswordForm])
    else if money && urgency then (40, [ScamText])
    else (0, [])
  }

  /** `analyze_content_optimized`: the table applied to the lower-cased
      visible text of the truncated page. */
  function AnalyzeContent(html: string, parse: string -> Page): (r: (nat, seq<Reason>))
  {
    var page := parse(Truncate(html));
    var text := Lower(page.text);
    ContentScore(page.hasPassword, AnyWord(text, UrgentWords), AnyWord(text, MoneyWords))
  }

  /** The score is one of four values, it is positive exactly when there is
      a password field or both kinds of words, and it comes with one reason
      exactly when it is positive. */
  lemma ContentTable(hasPassword: bool, urgency: bool, money: bool)
    ensures var (score, reasons) := ContentScore(hasPassword, urgency, money);
            && score in {0, 10, 40, 70}
            && (score > 0 <==> hasPassword || (urgency && money))
            && (score > 0 <==> |reasons| == 1)
            && (score == 0 <==> reasons == [])
  {
  }

  /** More alarming words never lower the score. */
  lemma ContentMonotone(hasPassword: bool, u1: bool, m1: bool, u2: bool, m2: bool)
    requires u1 ==> u2
    requires m1 ==> m2
    ensures ContentScore(hasPassword, u1, m1).0 <= ContentScore(hasPassword, u2, m2).0
  {
  }

  /** A word found in some text is still found when more text surrounds it,
      so appending content to a page never removes a trigger. */
  lemma AnyWordPersists(text: string, before: string, after: string, words: seq<string>)
    requires AnyWord(text, words)
    ensures AnyWord(before + text + after, words)
  {
    var i :| 0 <= i < |words| && Contains(text, words[i]);
    var k :| 0 <= k <= |text| - |words[i]| && OccursAt(text, words[i], k);
    var whole := before + text + after;
    var at := |before| + k;
    assert whole[at..at + |words[i]|] == text[k..k + |words[i]|];
    assert OccursAt(whole, words[i], at);
  }

  /** Every trigger word is lower-case, so lower-casing the page first loses
      none of them: a word found in the text is found in its lower-cased
      form when that word is written in lower case. */
  lemma LowerKeepsLowerWord(text: string, w: string)
    requires Contains(text, w)
    requires forall i :: 0 <= i < |w| ==> !IsUpper(w[i])
    ensures Contains(Lower(text), w)
  {
    var k :| 0 <= k <= |text| - |w| && OccursAt(text, w, k);
    var low := Lower(text);
    assert forall i :: k <= i < k + |w| ==> low[i] == text[i];
    assert low[k..k + |w|] == w;
    assert OccursAt(low, w, k);
  }

  /** The trigger words hold no upper-case letter. */
  lemma TriggersLowerCase()
    ensures forall j, i :: 0 <= j < |UrgentWords| && 0 <= i < |UrgentWords[j]| ==> !IsUpper(UrgentWords[j][i])
    ensures forall j, i :: 0 <= j < |MoneyWords| && 0 <= i < |MoneyWords[j]| ==> !IsUpper(MoneyWords[j][i])
  {
  }

  /** Hence a page whose raw text holds a trigger word as written is still
      flagged after the text is lower-cased. */
  lemma RawTriggerFound(text: string, words: seq<string>)
    requires words == UrgentWords || words == MoneyWords
    requires AnyWord(text, words)
    ensures AnyWord(Lower(text), words)
  {
    var j :| 0 <= j < |words| && Contains(text, words[j]);
    TriggersLowerCase();
    LowerKeepsLowerWord(text, words[j]);
  }
}
