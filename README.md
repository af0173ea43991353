# Phishing and typosquatting risk scorer, modelled in Dafny

The repository scores a URL, and optionally the HTML of its page, for
phishing risk. The result is a number from 0 to 100 with a list of reasons.
Three variants of the scorer are modelled here.

- **script.py**, the main server:
  - a BK-tree (a metric tree keyed by edit distance) over a whitelist of
    legitimate hosts;
  - folding of Cyrillic look-alike letters;
  - host cleaning;
  - three analyzers: URL structure, typosquatting and page content;
  - the `/analyze` handler that combines their scores, with escalation to
    100 and a clamp at 100.
- **back.js**, the browser extension:
  - a full-matrix Levenshtein routine;
  - the whitelist check;
  - four additive syntax checks;
  - a first-hit brand-impersonation scan;
  - the verdict thresholds.
- **scritp.py**, an older server:
  - a rolling-row Levenshtein routine;
  - the first stage of `analyze_security`, a first-hit scan of a fixed
    brand table;
  - the keyword stage;
  - the status thresholds.

Both hand-written Levenshtein routines are proved equal to one recursive
definition, `EditDistance.Dist`. That definition also stands in for the C
`Levenshtein` library that script.py calls. The BK-tree is a class over an
arena of nodes:
- `words[x]` is the word of node `x`, and `kids[x]` is its `children` dict
  (a map from edit distance to child slot);
- ghost fields record each node's parent, its key and its path from the root;
- its invariant says that every child is stored under its distance to its
  parent, and every word sits under keys equal to its distances to the
  nodes above it;
- `Search` is proved to report exactly the pairs that a brute-force scan
  would report, each word once.

Modules, one per file:
- `Strings` (common.dfy): shared string vocabulary.
- `EditDistance` (edit_distance.dfy).
- `BkIndex` (bk_tree.dfy).
- `Normalizer` (normalizer.dfy).
- `Reasons` (reasons.dfy): the reason messages of script.py as constructors.
- `UrlStructure` (url_structure.dfy).
- `Typosquatting` (typosquatting.dfy).
- `Content` (content.dfy).
- `Risk` (risk.dfy).
- `Extension` (extension.dfy): back.js.
- `Legacy` (legacy.dfy): scritp.py.

Things the code calls but does not define are parameters of the model:
- script.py's `is_ip_address` is `isIp`;
- the BeautifulSoup parse is `parse`, which yields the visible text and
  whether the page has a password field;
- the `urlparse(...).netloc` of scritp.py is `netloc`, which yields `None`
  where the parser raises.

The process-wide `bk_tree` and `EXACT_WHITELIST` of script.py are passed in
as a `BKTree` and a set. Both are required to hold the same hosts, as the
loading loop leaves them.

Two behaviours of script.py that a reader might expect differently:
- **Escalation trigger.** The `/analyze` handler (lines 240-243) raises the
  total to 100 when the content score is positive and either the
  typosquatting score is positive or the structure score is at least 50.
  It adds no reason of its own for the escalation.
- **No classification label.** The handler's answer (lines 246-249) holds
  only `risk_score` and `reasons`, so no safe/warning/danger label is
  modelled for script.py.

## Model

| member | source | states |
|---|---|---|
| Strings.Count | script.py:145 | `domain.count('.')` never exceeds the length, and is zero exactly when there is no dot |
| Strings.CountConcat | script.py:145 | counting a character is additive over concatenation |
| Strings.Split | script.py:107 | `re.split(r'[/?:@]', url)` here and `split('.')` at back.js:49 and 68: the pieces between separators, always at least one; `SplitFirst`, `SplitPiecesFree`, `SplitLength` and `SplitJoin` state what the pieces are |
| Strings.TakeUntil | script.py:107-109 | the first split piece is a prefix free of separators, stopped by a separator or the end of the text |
| Strings.SplitFirst | script.py:107-109 | the first piece of `re.split(r'[/?:@]', url)` is the longest separator-free prefix |
| Strings.SplitPiecesFree | script.py:107 | no piece of a split holds a separator |
| Strings.SplitLength | back.js:49 | `domain.split('.')` has one piece more than the host has dots |
| Strings.SplitJoin | back.js:68 | joining the pieces of `split('.')` with dots gives the host back, so no character is lost |
| EditDistance.Dist | script.py:38 | the Levenshtein distance that `Levenshtein.distance` computes (also line 54), defined by recursion on prefixes as the cheapest of match or substitute, delete and insert; its properties are the lemmas that follow |
| EditDistance.Symmetric | scritp.py:23-24 | the distance is symmetric, which is what makes the argument swap of `levenshtein_distance` harmless |
| EditDistance.ZeroIffEqual | script.py:38-40 | the distance is 0 exactly for equal words, so `add` stops exactly when the word is already in the tree |
| EditDistance.Triangle | script.py:57-60 | the triangle inequality that justifies the search's pruning |
| EditDistance.Pruning | script.py:57-59 | a word within `m` of the query lies in a subtree whose key is within `m` of the node's distance |
| EditDistance.LengthGap | script.py:38 | the distance is at least the difference of the lengths |
| EditDistance.LengthSum | script.py:38 | the distance is at most the sum of the lengths |
| EditDistance.Recurrence | back.js:13-16 | each cell of the dynamic programme follows from its three neighbours: the diagonal on equal characters, else one more than the least neighbour |
| BkIndex.ScanMembers | script.py:47-61 | a pair is in the brute-force scan exactly when its word is listed and its distance to the query is at most `max_dist` |
| BkIndex.ScanSet | script.py:47-61 | a result list holding exactly the words within `max_dist` holds the same pairs as the brute-force scan |
| BkIndex.PushChildren | script.py:57-60 | exactly the children whose key lies in `[low, high]` are pushed, each once |
| BkIndex.Hang | script.py:44 | `children[distance] = (word, {})` on the arena: the node's dict gains the new slot under the distance, and the new slot starts with no children; `AttachLinks` proves the tree invariant survives it |
| BkIndex.BKTree.constructor | script.py:28-29 | a new tree is empty and well formed |
| BkIndex.BKTree.ChildKey | script.py:38-44 | every child is stored under the edit distance between its word and its parent's word |
| BkIndex.BKTree.Descend | script.py:35-45 | the descent ends at the word's node when the word is present; otherwise it ends at a node with no child under the word's distance, and the keys along the way are the word's distances |
| BkIndex.BKTree.Attach | script.py:44 | hanging the new node keeps the tree well formed and appends the word |
| BkIndex.BKTree.Add | script.py:31-45 | the tree stays well formed; a word already present leaves it unchanged; otherwise the word is appended; the word set grows by the word |
| BkIndex.BKTree.Visit | script.py:53-60 | one pop of the candidate stack keeps every node still to be reported reachable from the stack, and the results exact |
| BkIndex.BKTree.Search | script.py:47-61 | the results are exactly the pairs `(Dist(query, w), w)` with `w` in the tree and the distance at most `max_dist`, each word once, the same set as the brute-force scan; an empty tree gives `[]` |
| Normalizer.FoldFacts | script.py:93-97 | the mapping changes exactly its 18 keys, each into a Latin letter that is not a key |
| Normalizer.Fold | script.py:93-97 | `mapping.get(char, char)`: the 18 Cyrillic look-alike letters go to their Latin twins, every other character to itself; `FoldFacts` states this |
| Normalizer.NormalizeHomoglyphs | script.py:92-97 | the length is kept, mapped letters become Latin letters, every other character is kept, and no mapped letter is left |
| Normalizer.NormalizeIdempotent | script.py:92-97 | folding twice is folding once |
| Normalizer.NormalizeChanges | script.py:156 | folding changes a host exactly when the host holds a mapped letter |
| Normalizer.Strip | script.py:104 | the result sits in the text after its leading whitespace and is followed by whitespace only; it neither starts nor ends with whitespace |
| Normalizer.StripStripped | script.py:104 | text without leading or trailing whitespace is its own strip |
| Normalizer.StripIdempotent | script.py:84 | stripping twice is stripping once |
| Normalizer.Lower | script.py:104 | the length is kept, no upper-case letter is left, and every other character is kept |
| Normalizer.LowerIdempotent | script.py:84 | lower-casing twice is lower-casing once |
| Normalizer.StripScheme | script.py:105 | one leading `http://` or `https://` is removed, and only when present |
| Normalizer.StripWww | script.py:106 | one leading `www.` is removed, and only when present |
| Normalizer.Prepared | script.py:104-106 | the prepared URL holds no upper-case letter |
| Normalizer.CleanDomain | script.py:100-112 | empty for an empty URL; otherwise a prefix of the prepared URL that ends at its first `/`, `?`, `:` or `@` or at its end, with no such character and no upper-case letter |
| UrlStructure.TldsAreLabels | script.py:66-67 | every suspicious zone is a dot followed by a label without dots |
| UrlStructure.ZoneUnique | script.py:139-143 | a host ends with at most one suspicious zone, so the zone check adds 15 at most once, whatever order the set is walked in |
| UrlStructure.Zone | script.py:139-143 | the zone found is suspicious and ends the host, and there is one exactly when some suspicious zone ends the host |
| UrlStructure.StructureScore | script.py:135-147 | the penalties for '@', zone and more than three dots add up to at most 95 |
| UrlStructure.UrlScore | script.py:126-149 | the score is at most 95, and at least 50 exactly when the host is an IP or the URL holds '@' |
| UrlStructure.UrlReasons | script.py:126-149 | at most three reasons, and none exactly when the score is 0 |
| UrlStructure.FindZone | script.py:139-143 | the scan finds the host's suspicious zone, or none when there is none |
| UrlStructure.AnalyzeUrlStructure | script.py:126-149 | an IP host gives exactly `(80, [IpHost])`; otherwise the score and reasons are those of the checks that fire, in the order '@', zone, subdomains |
| Typosquatting.LoadRow | script.py:84-86 | the cleaned row joins both the set and the tree, which keep holding the same hosts |
| Typosquatting.LoadWhitelist | script.py:83-86 | the set and the tree hold the same hosts, exactly the stripped and lower-cased rows |
| Typosquatting.CleanedMembers | script.py:83-85 | a host is whitelisted exactly when some row cleans to it, and no whitelisted host holds an upper-case letter |
| Typosquatting.FirstMin | script.py:168-169 | after the stable sort the head is the first pair with the least distance |
| Typosquatting.SpoofNeedsHomoglyph | script.py:155-157 | the score is 100 exactly when the folded host is whitelisted and the host holds a mapped letter |
| Typosquatting.AnalyzeTyposquatting | script.py:152-173 | a folded host that is whitelisted gives 0 when folding changed nothing, else 100 with a homoglyph reason; a subdomain of a whitelisted host gives 0; otherwise a nearest whitelisted host within two edits gives 90 at distance 1 and 70 at distance 2; the score is in {0, 70, 90, 100}, with a reason exactly when it is positive |
| Typosquatting.TsReasonOk | script.py:155-170 | the reason `analyze_typosquatting` gives with a positive score: the homoglyph reason naming the folded host when that host is whitelisted and differs from the raw one, otherwise a typosquat reason naming a whitelisted host and its distance, no whitelisted host being nearer |
| Typosquatting.NoZeroMatch | script.py:155-170 | a match that reaches the tree search is never at distance 0 |
| Content.Truncate | script.py:180-181 | the page handed to the parser is a prefix of at most 500 000 characters, and a shorter page is kept whole |
| Content.ContentScore | script.py:198-211 | the score table: 70 for a password field with urgency or money words, 10 for a password field alone, 40 for urgency and money words without one, else 0, each positive score with its one reason; `ContentTable` and `ContentMonotone` state its properties |
| Content.AnalyzeContent | script.py:176-211 | the table applied to the parse of the truncated page, the urgency and money words looked for in the lower-cased visible text |
| Content.ContentTable | script.py:198-211 | the score is one of 0, 10, 40 and 70; it is positive exactly for a password field or for both kinds of words; it comes with exactly one reason when positive and none otherwise |
| Content.ContentMonotone | script.py:198-211 | more alarming words never lower the content score |
| Content.AnyWordPersists | script.py:194-195 | more text around a trigger word never hides it |
| Content.TriggersLowerCase | script.py:189-192 | the trigger words hold no upper-case letter |
| Content.LowerKeepsLowerWord | script.py:187-195 | a lower-case word found in the text is found in its lower-cased form |
| Content.RawTriggerFound | script.py:187-195 | a trigger word in the raw page text is still found after lower-casing |
| Risk.Clamp | script.py:247 | the clamped score is at most 100 and at most the total, and a total up to 100 is kept |
| Risk.Escalates | script.py:240 | escalation happens exactly when HTML was sent and scored above 0, and the typosquatting score is positive or the structure score at least 50 |
| Risk.Total | script.py:225-243 | `total_score` before the clamp: 100 on escalation, else the sum of the sub-scores, the content one only when HTML was sent |
| Risk.Combine | script.py:225-249 | the combined score is at most 100 |
| Risk.CombineScore | script.py:237-247 | escalation gives 100; without it the score is the clamped sum; either way it is never below the clamped sum |
| Risk.NoHtmlNoEscalation | script.py:237-247 | without HTML the score is the clamped sum of the structure and typosquatting scores, and the content adds no reason |
| Risk.CombineReasons | script.py:228-244 | the structure reasons come first and the content reasons last, with the typosquatting reason between them exactly when that score is positive |
| Risk.CombineMonotone | script.py:228-247 | raising any sub-score never lowers the reported score, escalation included |
| Risk.ScoreHost | script.py:228-249 | the report of a cleaned host carries the clamped total of the three analyzers and their reasons in order; when the typosquatting score is positive, the reason after the structure reasons is the homoglyph reason for a whitelisted folded host, else a typosquat reason naming a nearest whitelisted host and its distance |
| Risk.Analyze | script.py:221-249 | "Bad URL" exactly when the cleaned host is empty; otherwise the report holds the clamped total of the three analyzers and their reasons in order, the typosquatting reason constrained as for `ScoreHost` |
| Extension.DistEmpty | back.js:6-7 | the distance to an empty string is the other string's length |
| Extension.CellStep | back.js:13-16 | each matrix cell computed from its neighbours is the distance of the two prefixes |
| Extension.FillRow | back.js:11-18 | after row `i` is filled, every cell up to row `i` holds the distance of its prefixes |
| Extension.GetLevenshteinDistance | back.js:5-21 | the result is the edit distance |
| Extension.CheckWhitelist | back.js:24-29 | safe exactly for a trusted host, with the reason "Trusted Source" then and no reason otherwise; the score is always 0 |
| Extension.IpShapeOf | back.js:37 | four dot-separated groups of one to three digits pass the IP test |
| Extension.NoRangeCheck | back.js:37 | groups above 255 and with leading zeros pass too: the test checks shape only |
| Extension.ManyLabelsDots | back.js:49 | more than four labels is the same as more than three dots |
| Extension.SyntaxAlertsPresent | back.js:32-61 | each alert is present exactly when its check fires, and the IP alert stops nothing |
| Extension.SyntaxAlertsOrdered | back.js:32-61 | the alerts come in the order the checks run, without repetition |
| Extension.SyntaxAlertsWeight | back.js:32-61 | the syntax score is at most 125 |
| Extension.CheckUrlSyntax | back.js:32-61 | the reasons are the alerts of the checks that fire, and the score is the sum of their weights |
| Extension.BrandCheck | back.js:71-89 | one trusted entry's verdict: skipped when its first label is shorter than 4; a typo alert when the host's first label is one edit from it; else a foreign-domain alert when the host contains it and is not the entry; else nothing |
| Extension.FirstHitExists | back.js:70-90 | the scan reports an alert exactly when some trusted entry has one |
| Extension.FirstHitEarliest | back.js:70-90 | the alert reported is that of the earliest entry that has one |
| Extension.CheckImpersonation | back.js:64-93 | at most one reason, the first entry's alert in list order, skipping short first labels; the score is its weight |
| Extension.ImpersonationScores | back.js:64-93 | the score is 0, 60 or 80, and 80 exactly for a typo, 60 exactly for a brand in a foreign domain |
| Extension.VerdictLevel | back.js:161-177 | `finalizeVerdict`'s bands: danger from 50, warning from 20, otherwise unknown |
| Extension.VerdictMonotone | back.js:161-177 | a higher score never gives a milder verdict |
| Legacy.RowStep | scritp.py:31-34 | a new cell is the least of insertion, deletion and substitution, and equals the distance of the prefixes |
| Legacy.NextRow | scritp.py:28-35 | the new row holds the distances of `s1[..i+1]` to every prefix of `s2` |
| Legacy.LevenshteinDistance | scritp.py:22-36 | the result is the edit distance |
| Legacy.LegacyCleanDomain | scritp.py:39-49 | the cleaned host holds no upper-case letter |
| Legacy.Stage1Of | scritp.py:59-72 | the first stage: the brand entries are taken in order and the first one for which the host is official (the entry or a subdomain of it) or at distance 1 or 2 decides, as official or as a spoof of it; when no entry decides, nothing is found |
| Legacy.Stage1Spec | scritp.py:59-72 | the stage finds nothing exactly when no entry is official for the host or near it; otherwise the earliest such entry decides |
| Legacy.SpoofNotOfficial | scritp.py:64-72 | a spoof is at distance 1 or 2 from its entry and is not that entry |
| Legacy.ScanTargets | scritp.py:59-72 | an official host returns at once with `(0, [OfficialDomain])`; a spoof adds 80 and one reason; otherwise nothing is added |
| Legacy.AnalyzeSecurity | scritp.py:51-117 | as written: an answer exactly for official hosts, always `(0, [OfficialDomain])`, whose status is safe; `NameError` for every other host |
| Legacy.UnofficialHostFails | scritp.py:107 | `example.org` is not official for any entry, so the handler as written fails on it |
| Legacy.KeywordFound | scritp.py:110 | a keyword is found in the lower-cased meta data and title or in the first 500 characters of the text |
| Legacy.KeywordHits | scritp.py:109-112 | no more hits than keywords |
| Legacy.KeywordHitsSpec | scritp.py:109-112 | a keyword reason is present exactly for a listed keyword that is found |
| Legacy.KeywordScan | scritp.py:105-112 | 20 points and one reason per keyword found, in list order |
| Legacy.AnalyzeSecurityFixed | scritp.py:51-117 | official hosts get 0 and their one reason; any other host gets the first stage's reason followed by the keyword reasons, and a score of 80 for a spoof plus 20 per keyword, clamped to 100; a spoofed host's status is always danger |
| Legacy.LegacyStatus | scritp.py:133-137 | the status bands: danger from 70, warning from 30, otherwise safe |
| Legacy.StatusMonotone | scritp.py:133-137 | a higher score never gives a milder status |

## Left out

- Flask routing, JSON marshalling and the 500 answer for exceptions in general: only the scoring is modelled. `Analyze` returns the "Bad URL" refusal as an error value, and `AnalyzeSecurity` returns `NameError`.
- SQLAlchemy, the database and init_db.py: the whitelist rows are the parameter of `LoadWhitelist`.
- The C `Levenshtein` library: replaced by `EditDistance.Dist`.
- `ipaddress.ip_address`, BeautifulSoup and `urlparse` are foreign parsers, modelled as the parameters `isIp`, `parse` and `netloc`. Tag decomposition and text extraction are inside `parse`.
- Iteration order of Python sets and dicts: the scans over `SUSPICIOUS_TLDS`, `EXACT_WHITELIST` and a node's `children` take elements in an unspecified order.
- Typosquatting.AnalyzeTyposquatting: the results do not depend on the scan order, except for which of several equally near hosts is named in the reason. That choice follows the order of the tree's results, and the contract only says the named host is one of the nearest.
- BkIndex.BKTree.Search: the order of the results is left open for the same reason. The contract states the result set and that each word appears once.
- `str.lower()` covers ASCII and the basic Cyrillic block (U+0400 to U+042F) only. Other scripts are kept as they are.
- `str.strip()` covers the whitespace set Python strips.
- JavaScript strings are modelled as sequences of characters. UTF-16 code units are not modelled, which matters only outside the basic plane.
- Normalizer.CleanDomain: the `except` branch (returning "" on an exception) cannot be reached for a string argument and is not modelled. The `if parts:` fallback is dead code, since a split always yields a piece.
- Legacy.LegacyCleanDomain: `urlparse` raising is modelled as `netloc` returning `None`. Nothing about the shape of the host is proved beyond lower case.
- The chrome extension plumbing of back.js is not modelled: `performSecurityCheck`, `executeScript`, `updateIcon`, `alert`, the tab listener and the asynchronous callback that adds 20 for a password field. Nor is popup.js.
- The reasons of script.py are modelled as constructors of `Reasons.Reason`, not as the localised strings. Those of back.js are `Extension.Alert` and those of scritp.py `Legacy.LegacyReason`.
- scritp.py stages 2 and 3 are commented out in the source and are not modelled.
- `soup.title.string` being `None` is not modelled. That happens for a `<title>` whose content is not exactly one string, and it raises `TypeError` in the corrected variant.
- The `status` that scritp.py's handler computes is not in its answer (line 141 is commented out). `LegacyStatus` models the thresholds alone.
- Risk.Combine: the requirement that a positive typosquatting score comes with a reason is what `analyze_typosquatting` guarantees. Python would append `None` otherwise.

## Findings

| source | as written | input that shows it | evidently intended | confidence | as-written member | corrected member |
|---|---|---|---|---|---|---|
| scritp.py:107 | `soup` is read, but the only line that assigns it (75) is commented out; line 110 reads `text_content` likewise (76). So every host that the first stage does not find official raises `NameError` and the handler answers 500. | domain `example.org` | lines 75-76 active, so that every host gets the keyword stage and a score clamped to 100 | high; not executed | Legacy.AnalyzeSecurity | Legacy.AnalyzeSecurityFixed |
