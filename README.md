# Truth Social market monitor — a Dafny model

This project models the decision logic of a small monitor. The monitor reads new posts from one
Truth Social account, has a language model classify each post as bullish, bearish or neutral, and
sends a Telegram alert for market-moving posts. A stored post id, the watermark, keeps a post from
being handled twice.

Every collaborator is an oracle that supplies values:

- the Truth Social API;
- the Groq chat completion;
- the Hugging Face classifier of the older script;
- MongoDB;
- Telegram;
- the free-proxy sources.

The model consists of:

- `text.dfy` (`Text`): the Python string operations the monitor relies on, restricted to ASCII:
  - `strip`, `lower` and `upper`;
  - `split` and `splitlines`;
  - `in` on strings;
  - string comparison;
  - truthiness.
- `html.dfy` (`Html`): `strip_html`, written as a left-to-right scanner for `re.sub(r"<[^>]+>", "", s)`, then strip.
- `classifier.dfy` (`Classifier`): the part of `analyze_post_with_groq` that reads the reply content.
- `proxy.dfy` (`Proxy`): `_proxy_works` and `_pick_free_proxy`, which covers:
  - address normalisation;
  - FreeProxy first;
  - the provider lists shuffled in place;
  - per provider: at most 30 shuffled candidates, checked in pool order, first success wins.
- `fetch.dfy` (`Fetch`): the module-level `PROXY_URL` and `_FREE_LISTS`, updated in place by the class `Fetcher`:
  - start-up proxy choice;
  - the proxy `get_scraper` installs;
  - the retry state machine of `fetch_json_with_retries`.
- `store.dfy` (`Store`): the effect log the loops produce (Telegram messages and watermark writes), and the watermark it leaves behind.
- `monitor.py`'s `main` loop (`monitor.dfy`, `Monitor`): posts oldest first against the watermark read at start.
- `truth_social_monitor.py`'s `main` loop (`legacy_monitor.dfy`, `LegacyMonitor`): page order, stopping at the stored id.

Each loop is a method proved equal to a specification function. The properties are lemmas about
that function.

Points of the code that are easy to misread, which the model follows as written:

- The reply parser (`monitor.py:326-333`) does not look for `Classification:` and `Explanation:` keys. It takes the first two non-blank lines, whatever their keys.
- A proxy list is not skipped when its download returns a non-200 status. The code reads `.text` without checking the status (`monitor.py:117`), so an error page is parsed like a list.
- `r.ok` and `raise_for_status()` fail exactly for statuses 400 to 599. A status of 600 or more counts as ok.

## Model

| member | source | states |
|---|---|---|
| Text.Strip | monitor.py:118 | the result has no leading or trailing ASCII whitespace, is no longer than the input, is empty exactly when the input is blank, and is the input itself when that is already stripped |
| Text.TrimLeft | monitor.py:118 | the result is a suffix of the input, everything cut off is whitespace, and it does not start with whitespace |
| Text.StripIsSlice | monitor.py:118 | the stripped text is what is left after the leading whitespace, cut before a tail made only of whitespace: the input minus its leading and trailing whitespace |
| Text.StripIdempotent | monitor.py:327 | stripping twice is stripping once |
| Text.Lower | monitor.py:331 | same length; each upper-case letter `A`..`Z` becomes the letter 32 code points up (`a`..`z`), every other character is unchanged, so no upper-case letter is left and whitespace stays where it was |
| Text.Upper | truth_social_monitor.py:102 | same length; each lower-case letter `a`..`z` becomes the letter 32 code points down (`A`..`Z`), every other character is unchanged, so no lower-case letter is left |
| Text.LowerOfLowerCase | monitor.py:331 | text with no upper-case letter is its own lower-case form |
| Text.SplitOn | monitor.py:328 | at least one piece, and no piece contains a separator |
| Text.SplitRebuilds | monitor.py:328 | there is one piece more than there are separators in the text, and the pieces with the text's separators put back between them, in order, are the text |
| Text.JoinSplit | monitor.py:328 | joining the pieces of a split with one separator gives back the text |
| Text.KeepNonBlank | monitor.py:118 | the list comprehension keeps no more lines than it is given, and every kept line is non-empty and stripped |
| Text.KeepNonBlankAppend | monitor.py:118 | filtering a concatenation is concatenating the filtered halves, so the comprehension keeps the order of the lines |
| Text.NonBlankLines | monitor.py:118 | every kept line is non-empty and already stripped |
| Text.StripKeepsLines | monitor.py:327-328 | stripping the content before cutting it into lines does not change its stripped non-blank lines |
| Text.BlankPrefixKeepsLines | monitor.py:327-328 | a blank prefix, line breaks included, does not change the stripped non-blank lines |
| Text.BlankHasNoLines | monitor.py:118-121 | a blank provider text yields no candidate lines |
| Text.AfterFirst | monitor.py:331-332 | the text after the first occurrence of the character, or the whole text when it has none |
| Text.ContainsMeans | monitor.py:105 | `t in s` holds exactly when `t` occurs in `s` at some position |
| Text.LexLeMeans | monitor.py:365 | `a <= b` on strings holds exactly when `a` is a prefix of `b` or, at some position before which they agree, `a` has the smaller character |
| Text.LexLeTotal | monitor.py:365 | Python string order compares any two ids |
| Text.LexLeTrans | monitor.py:365 | Python string order is transitive |
| Text.LexLeAntisymmetric | monitor.py:365 | two ids each at most the other are equal |
| Html.RemoveTags | monitor.py:343 | the result is no longer than the input, is made of its characters, and has no tag left |
| Html.StripHtml | monitor.py:342-343 | the result is stripped, has no tag left and is no longer than the input (an absent input counts as empty) |
| Html.RemovesTag | monitor.py:343 | a `<`, one or more non-`>` characters and a `>` at the front are deleted |
| Html.KeepsText | monitor.py:343 | a character other than `<` is kept |
| Html.KeepsEmptyBrackets | monitor.py:343 | a bare `<>` is kept |
| Html.KeepsUnclosed | monitor.py:343 | a `<` with no `>` after it is kept |
| Html.TagFreeUnchanged | monitor.py:343 | text with no tag in it comes back unchanged |
| Html.RemoveTagsIdempotent | monitor.py:343 | removing tags twice is removing them once |
| Html.PlainTextOnlyStripped | monitor.py:342-343 | text with no `<` is only stripped |
| Classifier.FieldValue | monitor.py:331-332 | the value is stripped; a line with no colon gives the whole line stripped; a line with a colon gives the text after the first colon stripped, which is shorter than the line |
| Classifier.FieldAfterColon | monitor.py:331-332 | a line `key:rest` with a colon-free key gives `rest` stripped, whatever further colons `rest` holds |
| Classifier.ParseResponse | monitor.py:326-333 | the result is `(None, None, 0.0)` exactly when fewer than two non-blank lines remain; otherwise both texts are present and stripped, the label has no upper-case letter, and the confidence is 1.0 |
| Classifier.AnalyzePost | monitor.py:318-335 | a failed request gives `(None, None, 0.0)`; any result is a failure or a full parse |
| Classifier.SingleLineRejected | monitor.py:328-330 | a reply without a line break never classifies |
| Classifier.FirstTwoLines | monitor.py:326-333 | for any content, with the stripped non-blank lines of the content cut at `\n`: fewer than two gives `(None, None, 0.0)`; otherwise the label is the lower-cased field value of the first, the explanation the field value of the second, the confidence 1.0, and later lines are ignored |
| Classifier.LeadingBlankIgnored | monitor.py:327-328 | blank lines and whitespace in front of the reply do not change the parse |
| Classifier.TwoLinesRead | monitor.py:326-333 | two non-blank lines followed by nothing or by a line break and anything else are read on their own, each after the first colon of its stripped line |
| Classifier.ReadBackTwoLines | monitor.py:326-333 | two `Key: value` lines are read back as their values, the first lower-cased |
| Classifier.ParseRoundTrip | monitor.py:279-281 | a reply in the two-line format the prompt requests is read back as exactly the label and the explanation written |
| Proxy.Normalise | monitor.py:76-77 | the result contains `://` and ends with the address; it is the address itself exactly when the address already contains `://`, and `http://` followed by the address otherwise |
| Proxy.NormaliseIdempotent | monitor.py:105 | normalising twice is normalising once |
| Proxy.ProxyWorksMeans | monitor.py:74-86 | a probe succeeds exactly when it got a response with a status outside 400..599 whose Content-Type contains `application/json` |
| Proxy.HtmlPageRejected | monitor.py:84 | a response whose Content-Type is `text/html` never succeeds, whatever its status |
| Proxy.FromFreeProxy | monitor.py:94-107 | the FreeProxy result is taken exactly when it is non-empty and its probe succeeds, and it is normalised |
| Proxy.Shuffle | monitor.py:112 | the shuffle keeps the length and is a permutation (equal multisets) |
| Proxy.Take | monitor.py:120 | the slice `[:n]` keeps at most `n` elements, is a prefix, and is everything when the input is short |
| Proxy.Sample | monitor.py:119-120 | the sample has at most `n` elements, is a sub-multiset of the input, is empty exactly when the input is or `n` is 0, and holds every element of the input, in some order, when it fits |
| Proxy.Candidates | monitor.py:117-122 | at most 30 candidates; a sub-multiset of the stripped non-blank lines, all of them in some order when there are 30 or fewer; none exactly when there are no such lines; each candidate non-empty and stripped |
| Proxy.BlankListYieldsNothing | monitor.py:121-122 | a provider whose text is blank offers nothing |
| Proxy.FromList | monitor.py:116-130 | a provider's offer is the normalised form of one of its non-blank lines, and a provider whose fetch raised offers nothing |
| Proxy.FromListFirstWorking | monitor.py:124-128 | the offer is the normalised first candidate, in pool order, whose probe succeeded; there is none exactly when no probe of the pool succeeded |
| Proxy.FirstWorking | monitor.py:124-128 | the loop finds the first pool position whose probe succeeded: every earlier probe failed, and it finds nothing exactly when no probe succeeded |
| Proxy.FirstWorkingUnique | monitor.py:124-128 | a first successful position is unique |
| Proxy.TryList | monitor.py:116-130 | the method returns the offer of `FromList` |
| Proxy.PickFreeProxy | monitor.py:89-132 | the method returns the picker's result, and leaves the lists in their reshuffled order (unchanged when FreeProxy answered) |
| Proxy.PickSound | monitor.py:89-132 | a picked proxy contains `://` and is either FreeProxy's or the offer of a provider reached before the time-out, with every earlier provider offering nothing |
| Proxy.PickNoneIff | monitor.py:131-132 | the picker returns None exactly when FreeProxy gave nothing usable and no provider reached before the time-out offered a proxy |
| Proxy.FreeProxyFirst | monitor.py:103-105 | a working FreeProxy answer wins and the lists are not touched |
| Proxy.ListsAfter | monitor.py:103-112 | `_FREE_LISTS` keeps its length and its elements (a permutation), and is untouched when FreeProxy gave a working proxy |
| Proxy.EmptyListsGiveNone | monitor.py:117-122 | when FreeProxy gave nothing usable and every provider text is blank the picker returns None |
| Proxy.TimedOutAtOnce | monitor.py:113-115 | once the time budget is spent before the first provider, only FreeProxy can supply a proxy |
| Fetch.Judge | monitor.py:226-233 | a reply returns JSON exactly when it is a 200 response whose body decodes; as written it is neither returned nor caught exactly when its status is not 200 and lies outside 400..599 |
| Fetch.BlockedWouldRaiseAnyway | monitor.py:230-232 | the explicit raise for 403, 429, 502 and 503 changes no outcome, since `raise_for_status()` raises for them too |
| Fetch.Route | monitor.py:196-197 | a request goes through PROXY_URL when it is a non-empty text, and direct otherwise |
| Fetch.Next | monitor.py:226-240 | one more request records its route; a caught failure also sleeps the current back-off, doubles it, uses up an attempt and installs the next picker result, and a reply that is not caught changes nothing else |
| Fetch.RetryBackoff | monitor.py:217-240 | the `i`-th sleep of a fetch lasts `5 * 2^i` seconds |
| Fetch.RetryBudget | monitor.py:219-241 | each caught failure uses up one attempt; the fetch ends with `sys.exit(1)` exactly when the caught failures reach `max_retries`, and never more |
| Fetch.RetryFetched | monitor.py:228-229 | JSON is returned only from a 200 reply whose body decoded, which is the last request made; no earlier reply was one |
| Fetch.Failover | monitor.py:236-238 | after a caught failure the next request uses whatever the picker found (direct when it found nothing), and the first sleep is 5 seconds |
| Fetch.AllCaught | monitor.py:219-244 | from any loop state, when every reply is caught the fetch ends `Fatal` after exactly one request and one sleep per remaining attempt |
| Fetch.GivesUpAfterBudget | monitor.py:219-244 | when every reply is caught, the fetch exits after exactly `max_retries` requests and `max_retries` sleeps of 5, 10, 20, ... seconds |
| Fetch.UnraisedStatusSpins | monitor.py:226-232 | as written, replies with an unraised status (204, 301, ...) make requests forever without sleeping, counting an attempt or changing the proxy |
| Fetch.NoContentExceedsBudget | monitor.py:219-232 | six 204 replies under the default five attempts make six requests and the fetch is still running |
| Fetch.StrictRetryBounded | monitor.py:219-244 | corrected, with every non-200 reply caught: a fetch makes at most `max_retries` requests and has ended once that many replies arrived |
| Fetch.Fetcher.constructor | monitor.py:135-140 | a pinned PROXY_URL is kept; an unset or empty one is replaced by the picker's result |
| Fetch.Fetcher.FetchJsonWithRetries | monitor.py:215-244 | the method's result, its request routes, its sleeps and the new PROXY_URL are those of the retry specification; `_FREE_LISTS` is left as the picker calls reordered it |
| Fetch.Fetcher.Attempt | monitor.py:226-241 | one pass judges the reply; on a caught failure it installs the next picker result and records the sleep, otherwise it changes nothing |
| Store.FinalWatermark | monitor.py:170-174 | the stored id after a log is the initial one or the id of one of the log's writes |
| Store.FinalWatermarkAppend | monitor.py:170-174 | replaying a log in two halves gives the same stored id |
| Store.NoWriteKeepsWatermark | monitor.py:161-174 | a log with no write leaves the stored id as it was |
| Store.FinalIsLastWritten | monitor.py:170-174 | the stored id after a log is its last write, or the initial id when it has none |
| Monitor.Decide | monitor.py:361-385 | a post has an effect exactly when its id is stored: it is fresh and is either empty or accepted by the classifier. It gets two effects, an alert carrying its alert message then a write, exactly when it is accepted as bullish or bearish. The last effect is always the write of its id |
| Monitor.See | monitor.py:362-383 | a fetched post keeps its id, its text is the content with the markup stripped, its verdict is the classifier's, and its alert reads `CLASSIFICATION: text`, a line break, then `Reason: explanation` |
| Monitor.VisitPost | monitor.py:361-385 | one iteration produces the effects of `Decide` on the post's id, its stripped text, its classification and the alert message built from them, and reports exactly the posts left for later |
| Monitor.ActOn | monitor.py:377-385 | for a fresh post with text, the confidence gate defers exactly the posts the classifier did not accept |
| Monitor.ProcessPosts | monitor.py:349-387 | the loop's effects are those of the specification over the posts in reverse order; every alert is followed by its write, and only fresh ids are written |
| Monitor.RunNotifiesThenWrites | monitor.py:381-385 | every alert is followed at once by a watermark write |
| Monitor.RunWritesFresh | monitor.py:361-367 | only non-empty ids newer than the watermark read at start are written |
| Monitor.RunWatermark | monitor.py:351-385 | the stored id after the run is that of the newest post whose id the loop stored, or the old one when none was |
| Monitor.QuietWhenNothingNew | monitor.py:363-367 | with no post newer than the watermark the run has no effect |
| Monitor.WatermarkIsGreatest | monitor.py:361-385 | for a newest-first list, the stored id after the run is the greatest id the loop stored |
| Monitor.RerunIsQuiet | monitor.py:361-385 | if every fresh post was stored, a second run over the same ids finds nothing new |
| Monitor.RerunPostsIsQuiet | monitor.py:349-387 | the same, stated on the fetched posts, whatever the classifier says the second time |
| Monitor.AlertsCounted | monitor.py:381-384 | exactly one alert per bullish or bearish accepted post, and none for any other |
| Monitor.ThreePostExample | monitor.py:361-385 | with watermark A100: A101 (empty) is written, A102 (bearish) gets an alert and a write, A103 (unparsed) gets nothing, and the watermark ends at A102 |
| Monitor.DeferredPostSkipped | monitor.py:377-385 | as written, an older post left for later is passed over for good once a newer post is stored |
| Monitor.DeferredFromSome | monitor.py:377-379 | the deferral test holds exactly when some remaining post is deferred |
| Monitor.ProcessPostsStopping | monitor.py:349-387 | corrected loop: as the original, but the first deferred post ends the run |
| Monitor.StoppingWatermark | monitor.py:361-385 | after a stopping run the stored id is the old one, or that of a post listed after (older than, visited before) every deferred post |
| Monitor.DeferredPostsKept | monitor.py:361-385 | corrected: for strictly newest-first ids, every deferred post is still newer than the stored id after the run, so a later run retries it |
| LegacyMonitor.See | truth_social_monitor.py:87-101 | a scraped post keeps its id and its label; it has text exactly when it has a text element, that text is the element's text stripped, and its alert line is the upper-cased label, `: `, then the text |
| LegacyMonitor.AlertLineIs | truth_social_monitor.py:101 | the alert line is the upper-cased label followed by `: ` and the post text |
| LegacyMonitor.Act | truth_social_monitor.py:97-106 | a classified post gets the write of its id last, preceded by exactly one alert, carrying its alert line, when the label is `buy stocks` or `sell stocks`, and by none otherwise |
| LegacyMonitor.VisitLegacyPost | truth_social_monitor.py:86-106 | one iteration stops exactly at a non-empty id equal to the stored one; otherwise it produces the effects of that post as the loop's specification gives them |
| LegacyMonitor.ClassifyAndAlert | truth_social_monitor.py:97-106 | the method produces the effects of `Act` with the alert line `LABEL: text` |
| LegacyMonitor.LegacyMain | truth_social_monitor.py:70-109 | the loop's effects are those of the specification; a failed page or an empty post list has none |
| LegacyMonitor.StopAt | truth_social_monitor.py:91-92 | the stop index is the first post with a non-empty id equal to the stored one, or the end of the page |
| LegacyMonitor.StopsAtStored | truth_social_monitor.py:86-92 | the run is the effects of the posts before the stored id, and nothing from it on |
| LegacyMonitor.EveryProcessedWritten | truth_social_monitor.py:88-107 | the ids written are exactly those of the posts that reached the classifier, in page order, whatever their labels; posts with no id or no text element are not written |
| LegacyMonitor.StepWritten | truth_social_monitor.py:88-107 | a visited post writes its id exactly when it reaches the classifier, and nothing otherwise |
| LegacyMonitor.ActWritesId | truth_social_monitor.py:106-107 | a classified post writes its own id once, whatever its label |
| LegacyMonitor.AlertsPerLabel | truth_social_monitor.py:100-104 | exactly one alert per post labelled `buy stocks` or `sell stocks`, and none otherwise |
| LegacyMonitor.StepSent | truth_social_monitor.py:100-104 | a visited post sends one alert exactly when it reaches the classifier with a buy or sell label |
| LegacyMonitor.ActSendsOnce | truth_social_monitor.py:100-104 | a classified post sends one alert for a buy or sell label and none otherwise |
| LegacyMonitor.LegacyWatermark | truth_social_monitor.py:100-107 | as written, the stored id after the run is that of the last post, in page order, that reached the classifier, or unchanged when none did |
| LegacyMonitor.NoneProcessedQuiet | truth_social_monitor.py:82-96 | posts none of which reach the classifier have no effect |
| LegacyMonitor.RepeatedAlert | truth_social_monitor.py:91-107 | as written, two new buy or sell posts are alerted, the watermark ends at the older one, and a rerun on the same page alerts the newer one again |
| LegacyMonitor.RepeatedAlertExample | truth_social_monitor.py:91-107 | the same with ids "2" and "1" and label `buy stocks` |
| LegacyMonitor.FixedRerunIsQuiet | truth_social_monitor.py:91-107 | corrected (watermark set to the newest processed post): a rerun on the same page has no effect |
| LegacyMonitor.FixedRerunOnPageIsQuiet | truth_social_monitor.py:70-109 | the same, stated on the scraped page, whatever labels the second run gets |

## Left out

- MongoDB (connection, `find_one` and the upsert). The store is a log of writes. The stored id is the last write.
  - A read that fails is the same as no stored id.
  - The code logs a failed write and carries on (`monitor.py:173-174`). The model has no failed writes: every write in the log takes effect.
- Monitor.RunWatermark, Monitor.WatermarkIsGreatest, Monitor.RerunIsQuiet, Monitor.RerunPostsIsQuiet, LegacyMonitor.LegacyWatermark, LegacyMonitor.FixedRerunIsQuiet and LegacyMonitor.FixedRerunOnPageIsQuiet: these hold only when every upsert succeeds, because a failed write leaves the old stored id in place.
- Telegram sending is fire-and-forget. Only the message text is recorded.
- The Groq and Hugging Face HTTP calls and the prompts are oracles:
  - Groq: its reply content, or a failure covering a non-200 status, an exception or a missing field;
  - Hugging Face: the label.
- Cloudscraper, the user-agent choice (`random.choice`), headers and the `cf_clearance` cookie are not modelled. Only the proxy the scraper is given is.
- FreeProxy is an oracle: nothing, an exception, or a proxy with its probe.
- Every HTTP probe and list download is an oracle value.
- The thread pool of the picker runs checks concurrently. Only the order in which their results are read is modelled.
- Time is not modelled:
  - The picker's 20-second budget is a per-provider "timed out" flag.
  - `time.sleep` is recorded as the list of sleep durations.
  - The per-request time-outs are not modelled.
- `random.shuffle` is driven by a sequence of draws. Any draw sequence gives a permutation, in the Fisher–Yates order CPython uses.
- Proxy.Shuffle: `_FREE_LISTS` is shuffled in place in the source. The model computes the new order as a value, which `Fetcher` stores back in its field.
- Exceptions other than `RequestException` and `JSONDecodeError` inside a fetch propagate out of the program. They are not modelled.
- `sys.exit(1)` is the `Fatal` result.
- Fetch.Fetcher.FetchJsonWithRetries: a finite list of replies stands in for the network. When the list runs out the result is `Pending`, so a spin is visible as `Pending` rather than as non-termination.
- The environment checks and `sys.exit` at import, logging, and the URL and endpoint constants are not modelled.
- BeautifulSoup scraping in the older script: the page is a list of posts with an optional id and an optional text element.
- Python's Unicode `strip`, `lower`, `upper`, `isspace` and `splitlines` are modelled on ASCII only.
  - Python's `splitlines` treats `\r\n` as one line boundary. The model cuts at each of the two characters, which yields an extra empty line. That line is dropped with the other blank lines, so the candidates are the same.
- Ids are compared as Python strings, by code point, as the code does. The model does not treat them as numbers, so numeric ids of different lengths compare as strings here too.

## Findings

| source | as written | input that shows it | evidently intended | confidence | as-written member | corrected member |
|---|---|---|---|---|---|---|
| monitor.py:228-232 | a non-200 reply with a status outside 400..599 raises nothing, so neither `attempt` nor the proxy changes and the loop asks again | six replies with status 204 under `max_retries=5`: six requests, no sleep, still running | every non-200 reply is a failure that uses up an attempt | not executed | Fetch.UnraisedStatusSpins, Fetch.NoContentExceedsBudget | Fetch.StrictRetryBounded |
| truth_social_monitor.py:86-107 | the watermark is written for every processed post in page order (newest first), so it ends at the oldest new post | no stored id, posts "2" then "1", both `buy stocks`: two alerts and the watermark "1"; the next run alerts "2" again | the watermark is the newest processed post, so a rerun is quiet | not executed | LegacyMonitor.RepeatedAlert, LegacyMonitor.RepeatedAlertExample | LegacyMonitor.FixedRerunIsQuiet, LegacyMonitor.FixedRerunOnPageIsQuiet |
| monitor.py:377-385 | a post that fails to classify is left "to retry later", but a newer post in the same run still advances the watermark past it | watermark none, post "1" unclassifiable, post "2" classified neutral: the watermark ends at "2" and "1" is never retried | a deferred post ends the run, so the watermark stays below it | not executed | Monitor.DeferredPostSkipped | Monitor.ProcessPostsStopping, Monitor.DeferredPostsKept |
