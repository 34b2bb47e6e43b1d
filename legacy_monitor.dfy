/**
 * The earlier scraping monitor (truth_social_monitor.py): the profile page is
 * read newest first, the loop stops at the stored post id, and every post with an
 * id and a text element is classified, alerted on when its label is
 * "buy stocks" or "sell stocks", and written as the new watermark.
 */
module LegacyMonitor {
  import opened Wrappers
  import opened Text
  import opened Store

  /** A `div.post` element: its `id` attribute and the text of its `div.post-text`
      child, either of which may be missing. */
  datatype LegacyPost = LegacyPost(id: Option<string>, text: Option<string>)

  /** The page request either raised a `RequestException` (a transport failure or a
      4xx/5xx status) or yielded the posts found on the page. */
  datatype Page = PageFailed | Page(posts: seq<LegacyPost>)

  /** The labels that trigger an alert. */
  const BuySell: set<string> := {"buy stocks", "sell stocks"}

  /** The classifier's label for the post at index `i`; a post without one is an
      API failure (`None`). */
  function LabelAt(labels: seq<Option<string>>, i: nat): Option<string> {
    if i < |labels| then labels[i] else None
  }

  /** A post as the loop sees it: its id, its text element's stripped text (if any),
      the classifier's answer on that text and the alert line it would send. */
  datatype Scraped = Scraped(id: Option<string>, text: Option<string>, classification: Option<string>, alert: string)

  /** The alert line for a post with text and a label, `LABEL: text`; empty otherwise. */
  function Alert(text: Option<string>, classification: Option<string>): string {
    if text.Some? && classification.Some? then AlertLine(classification.value, text.value) else []
  }

  /** A post as the loop sees it, given the classifier's answer. */
  function See(post: LegacyPost, classification: Option<string>): (s: Scraped)
    ensures s.id == post.id && s.classification == classification
    ensures s.text.Some? <==> post.text.Some?
    ensures s.text.Some? ==> s.text.value == Strip(post.text.value)
    ensures s.text.Some? && classification.Some? ==>
      s.alert == Upper(classification.value) + ": " + s.text.value
  {
    var text := StrippedText(post);
    var s := Scraped(post.id, text, classification, Alert(text, classification));
    if text.Some? && classification.Some? then
      AlertLineIs(classification.value, text.value);
      s
    else
      s
  }

  /** `post_text_elem.text.strip()`, when the element exists. */
  function StrippedText(post: LegacyPost): Option<string> {
    if post.text.Some? then Some(Strip(post.text.value)) else None
  }

  /** Every scraped post as the loop sees it. */
  function Scrape(posts: seq<LegacyPost>, labels: seq<Option<string>>): (v: seq<Scraped>)
    ensures |v| == |posts|
    ensures forall i :: 0 <= i < |posts| ==> v[i] == See(posts[i], LabelAt(labels, i))
  {
    seq(|posts|, i requires 0 <= i < |posts| => See(posts[i], LabelAt(labels, i)))
  }

  /** A post the loop classifies, once it gets there: it has an id and a text element. */
  predicate ProcessedAt(v: seq<Scraped>, j: nat)
    requires j < |v|
  {
    Truthy(v[j].id) && v[j].text.Some?
  }

  /** `f"{classification.upper()}: {post_text}"`, built one character of the label at a time. */
  function AlertLine(tag: string, text: string): string
    decreases |tag|
  {
    if tag == [] then [':', ' '] + text else [UpperChar(tag[0])] + AlertLine(tag[1..], text)
  }

  /** The alert line is the upper-cased label, a colon and a space, then the text. */
  lemma {:induction false} AlertLineIs(tag: string, text: string)
    ensures AlertLine(tag, text) == Upper(tag) + ": " + text
    decreases |tag|
  {
    if tag != [] {
      AlertLineIs(tag[1..], text);
      assert [UpperChar(tag[0])] + (Upper(tag[1..]) + ": " + text) == Upper(tag) + ": " + text;
    }
  }

  /** The effects for a post that reaches the classifier (lines 97-106): an alert for a
      buy or sell label, then the watermark write whatever the label. */
  function Act(id: string, alert: string, classification: Option<string>): (r: seq<Effect>)
    ensures 1 <= |r| <= 2
    ensures r[|r| - 1] == Write(id)
    ensures |r| == 2 <==> classification.Some? && classification.value in BuySell
    ensures |r| == 2 ==> r[0] == Notify(alert)
  {
    (if classification.Some? && classification.value in BuySell then [Notify(alert)] else []) +
    [Write(id)]
  }

  /** The effects of post `j` when the loop visits it without stopping. */
  function Step(v: seq<Scraped>, j: nat): seq<Effect>
    requires j < |v|
  {
    if ProcessedAt(v, j) then Act(v[j].id.value, v[j].alert, v[j].classification) else []
  }

  /** The loop from post `i` on (lines 85-106). */
  function LegacyRunFrom(last: Option<string>, v: seq<Scraped>, i: nat): seq<Effect>
    decreases |v| - i
  {
    if i >= |v| then []
    else if !Truthy(v[i].id) then LegacyRunFrom(last, v, i + 1)
    else if v[i].id == last then []
    else Step(v, i) + LegacyRunFrom(last, v, i + 1)
  }

  /** The whole of `main` once the page and the classifier are oracles. */
  function LegacyRun(last: Option<string>, page: Page, labels: seq<Option<string>>): seq<Effect> {
    match page
    case PageFailed => []
    case Page(posts) => LegacyRunFrom(last, Scrape(posts, labels), 0)
  }

  /** Lines 70-109: `lastProcessed` is the stored id, `page` the scraped page and
      `labels[i]` the classifier's answer for `posts[i]`. */
  method LegacyMain(lastProcessed: Option<string>, page: Page, labels: seq<Option<string>>)
    returns (effects: seq<Effect>)
    ensures effects == LegacyRun(lastProcessed, page, labels)
  {
    effects := [];
    if page.PageFailed? {
      return;
    }
    var posts := page.posts;
    if |posts| == 0 {
      return;
    }
    ghost var v := Scrape(posts, labels);
    var i := 0;
    while i < |posts|
      invariant 0 <= i <= StopAt(lastProcessed, v, 0)
      invariant effects == Steps(v, 0, i)
    {
      var stop, step := VisitLegacyPost(lastProcessed, posts[i], LabelAt(labels, i));
      if stop {
        break;
      }
      StepsSnoc(v, 0, i);
      effects := effects + step;
      i := i + 1;
    }
    StopsAtStored(lastProcessed, v, 0);
  }

  /** Lines 87-106 for one post: `stop` when its id is the stored one (the `break`),
      otherwise the effects of the post. */
  method VisitLegacyPost(lastProcessed: Option<string>, post: LegacyPost, classification: Option<string>)
    returns (stop: bool, step: seq<Effect>)
    ensures stop <==> Truthy(post.id) && post.id == lastProcessed
    ensures !stop ==> step == Step([See(post, classification)], 0)
  {
    step := [];
    var postId := post.id;
    if !Truthy(postId) {
      return false, step;
    }
    if postId == lastProcessed {
      return true, step;
    }
    if post.text.None? {
      return false, step;
    }
    step := ClassifyAndAlert(postId.value, Strip(post.text.value), classification);
    return false, step;
  }

  /** Lines 97-106 for one post. */
  method ClassifyAndAlert(postId: string, postText: string, classification: Option<string>)
    returns (step: seq<Effect>)
    ensures step == Act(postId, Alert(Some(postText), classification), classification)
  {
    step := [];
    if classification.Some? && classification.value in BuySell {
      step := [Notify(Upper(classification.value) + ": " + postText)];
      AlertLineIs(classification.value, postText);
    }
    step := step + [Write(postId)];
  }

  /** The index of the first post at or after `i` carrying the stored id, or the
      length of the page. */
  function StopAt(last: Option<string>, v: seq<Scraped>, i: nat): (r: nat)
    requires i <= |v|
    ensures i <= r <= |v|
    ensures r < |v| ==> Truthy(v[r].id) && v[r].id == last
    ensures forall j :: i <= j < r ==> !(Truthy(v[j].id) && v[j].id == last)
    decreases |v| - i
  {
    if i == |v| then i
    else if Truthy(v[i].id) && v[i].id == last then i
    else StopAt(last, v, i + 1)
  }

  /** The effects of posts `i` up to `n`, visited without stopping. */
  function Steps(v: seq<Scraped>, i: nat, n: nat): seq<Effect>
    requires n <= |v|
    decreases n - i
  {
    if i >= n then [] else Step(v, i) + Steps(v, i + 1, n)
  }

  lemma {:induction false} StepsSnoc(v: seq<Scraped>, i: nat, n: nat)
    requires i <= n < |v|
    ensures Steps(v, i, n + 1) == Steps(v, i, n) + Step(v, n)
    decreases n - i
  {
    if i < n {
      StepsSnoc(v, i + 1, n);
      AppendAssoc(Step(v, i), Steps(v, i + 1, n), Step(v, n));
    }
  }

  /** The loop stops at the stored id: posts from it on (older ones) are never
      visited, and every post before it is. */
  lemma {:induction false} StopsAtStored(last: Option<string>, v: seq<Scraped>, i: nat)
    requires i <= |v|
    ensures LegacyRunFrom(last, v, i) == Steps(v, i, StopAt(last, v, i))
    decreases |v| - i
  {
    if i < |v| && !(Truthy(v[i].id) && v[i].id == last) {
      StopsAtStored(last, v, i + 1);
    }
  }

  /** The ids of the posts from `i` up to `n` that reach the classifier, in page order. */
  function ProcessedIds(v: seq<Scraped>, i: nat, n: nat): (r: seq<string>)
    requires n <= |v|
    ensures |r| <= n - i || i > n
    decreases n - i
  {
    if i >= n then []
    else (if ProcessedAt(v, i) then [v[i].id.value] else []) + ProcessedIds(v, i + 1, n)
  }

  /** Every post that reaches the classifier is written, whatever its label (even
      when the classifier failed), in page order. */
  lemma {:induction false} EveryProcessedWritten(v: seq<Scraped>, i: nat, n: nat)
    requires n <= |v|
    ensures Written(Steps(v, i, n)) == ProcessedIds(v, i, n)
    decreases n - i
  {
    if i < n {
      EveryProcessedWritten(v, i + 1, n);
      StepWritten(v, i);
      WrittenAppend(Step(v, i), Steps(v, i + 1, n));
    }
  }

  /** A visited post writes its id exactly when it reaches the classifier. */
  lemma StepWritten(v: seq<Scraped>, i: nat)
    requires i < |v|
    ensures Written(Step(v, i)) == if ProcessedAt(v, i) then [v[i].id.value] else []
  {
    if ProcessedAt(v, i) {
      ActWritesId(v[i].id.value, v[i].alert, v[i].classification);
    }
  }

  lemma ActWritesId(id: string, alert: string, classification: Option<string>)
    ensures Written(Act(id, alert, classification)) == [id]
  {
    var r := Act(id, alert, classification);
    if |r| == 2 {
      assert r == [r[0]] + [r[1]];
      WrittenAppend([r[0]], [r[1]]);
    }
  }

  /** The number of posts from `i` up to `n` that reach the classifier with a buy or
      sell label. */
  function CountBuySell(v: seq<Scraped>, i: nat, n: nat): (c: nat)
    requires n <= |v|
    ensures c <= n - i || i > n
    decreases n - i
  {
    if i >= n then 0
    else
      var here := if ProcessedAt(v, i) && v[i].classification.Some? && v[i].classification.value in BuySell then 1 else 0;
      here + CountBuySell(v, i + 1, n)
  }

  /** One alert per post with a buy or sell label and none for the others. */
  lemma {:induction false} AlertsPerLabel(v: seq<Scraped>, i: nat, n: nat)
    requires n <= |v|
    ensures |Sent(Steps(v, i, n))| == CountBuySell(v, i, n)
    decreases n - i
  {
    if i < n {
      AlertsPerLabel(v, i + 1, n);
      StepSent(v, i);
      SentAppend(Step(v, i), Steps(v, i + 1, n));
    }
  }

  /** A visited post sends one message exactly when it reaches the classifier with a
      buy or sell label. */
  lemma StepSent(v: seq<Scraped>, i: nat)
    requires i < |v|
    ensures |Sent(Step(v, i))| ==
      if ProcessedAt(v, i) && v[i].classification.Some? && v[i].classification.value in BuySell then 1 else 0
  {
    if ProcessedAt(v, i) {
      ActSendsOnce(v[i].id.value, v[i].alert, v[i].classification);
    }
  }

  /** A post that reaches the classifier sends one message for a buy or sell label
      and none otherwise. */
  lemma ActSendsOnce(id: string, alert: string, classification: Option<string>)
    ensures |Sent(Act(id, alert, classification))| == if classification.Some? && classification.value in BuySell then 1 else 0
  {
    var r := Act(id, alert, classification);
    if |r| == 2 {
      assert r == [r[0]] + [r[1]];
      SentAppend([r[0]], [r[1]]);
    } else {
      assert r == [r[0]];
    }
  }

  /** As written: the stored id after a run is the id of the LAST post that reached the
      classifier in page order, which on a newest-first page is the oldest one. */
  lemma LegacyWatermark(last: Option<string>, v: seq<Scraped>)
    ensures var ids := ProcessedIds(v, 0, StopAt(last, v, 0));
      FinalWatermark(last, LegacyRunFrom(last, v, 0)) ==
        if ids == [] then last else Some(ids[|ids| - 1])
  {
    StopsAtStored(last, v, 0);
    EveryProcessedWritten(v, 0, StopAt(last, v, 0));
    FinalIsLastWritten(last, LegacyRunFrom(last, v, 0));
  }

  /** The first post from `i` up to `n` that reaches the classifier, or `n`. */
  function FirstProcessed(v: seq<Scraped>, i: nat, n: nat): (r: nat)
    requires i <= n <= |v|
    ensures i <= r <= n
    ensures r < n ==> ProcessedAt(v, r)
    ensures forall j :: i <= j < r ==> !ProcessedAt(v, j)
    decreases n - i
  {
    if i == n then i
    else if ProcessedAt(v, i) then i
    else FirstProcessed(v, i + 1, n)
  }

  lemma {:induction false} ProcessedIdsHead(v: seq<Scraped>, i: nat, n: nat)
    requires i <= n <= |v|
    ensures ProcessedIds(v, i, n) == [] <==> FirstProcessed(v, i, n) == n
    ensures ProcessedIds(v, i, n) != [] ==>
      ProcessedIds(v, i, n)[0] == v[FirstProcessed(v, i, n)].id.value
    decreases n - i
  {
    if i < n && !ProcessedAt(v, i) {
      ProcessedIdsHead(v, i + 1, n);
    }
  }

  lemma {:induction false} NoneProcessedQuiet(v: seq<Scraped>, i: nat, n: nat)
    requires n <= |v|
    requires forall j :: i <= j < n ==> !ProcessedAt(v, j)
    ensures Steps(v, i, n) == []
    decreases n - i
  {
    if i < n {
      NoneProcessedQuiet(v, i + 1, n);
    }
  }

  /** A page that lists post `newer` above post `older`, both with text `text` and
      the label `classification`. */
  function TwoPosts(newer: string, older: string, text: string, classification: string): seq<Scraped> {
    var alert := Alert(Some(text), Some(classification));
    [Scraped(Some(newer), Some(text), Some(classification), alert),
     Scraped(Some(older), Some(text), Some(classification), alert)]
  }

  /** As written: with no stored id and two new posts labelled "buy stocks" (or "sell
      stocks"), the run alerts on both and leaves the watermark at the OLDER post; a
      second run over the same page alerts again on the newer one. */
  lemma RepeatedAlert(newer: string, older: string, text: string, classification: string)
    requires newer != [] && older != [] && newer != older
    requires classification in BuySell
    ensures var v := TwoPosts(newer, older, text, classification);
      var w := FinalWatermark(None, LegacyRunFrom(None, v, 0));
      w == Some(older) &&
      LegacyRunFrom(None, v, 0) == Act(newer, AlertLine(classification, text), Some(classification)) + Act(older, AlertLine(classification, text), Some(classification)) &&
      LegacyRunFrom(w, v, 0) == Act(newer, AlertLine(classification, text), Some(classification))
  {
    FirstRunOfTwo(newer, older, text, classification);
    SecondRunOfTwo(newer, older, text, classification);
  }

  lemma FirstRunOfTwo(newer: string, older: string, text: string, classification: string)
    requires newer != [] && older != [] && newer != older
    ensures var v := TwoPosts(newer, older, text, classification);
      LegacyRunFrom(None, v, 0) == Act(newer, AlertLine(classification, text), Some(classification)) + Act(older, AlertLine(classification, text), Some(classification)) &&
      FinalWatermark(None, LegacyRunFrom(None, v, 0)) == Some(older)
  {
    var v := TwoPosts(newer, older, text, classification);
    assert ProcessedAt(v, 0) && ProcessedAt(v, 1);
    assert LegacyRunFrom(None, v, 2) == [];
    assert LegacyRunFrom(None, v, 1) == Act(older, AlertLine(classification, text), Some(classification)) + [];
    assert StopAt(None, v, 1) == 2;
    assert StopAt(None, v, 0) == 2;
    assert ProcessedIds(v, 1, 2) == [older] + ProcessedIds(v, 2, 2);
    LegacyWatermark(None, v);
  }

  lemma SecondRunOfTwo(newer: string, older: string, text: string, classification: string)
    requires newer != [] && older != [] && newer != older
    ensures LegacyRunFrom(Some(older), TwoPosts(newer, older, text, classification), 0) ==
      Act(newer, AlertLine(classification, text), Some(classification))
  {
    var v := TwoPosts(newer, older, text, classification);
    assert LegacyRunFrom(Some(older), v, 1) == [];
    assert LegacyRunFrom(Some(older), v, 0) == Act(newer, AlertLine(classification, text), Some(classification)) + [];
  }

  /** The counterexample with ids "2" and "1". */
  lemma RepeatedAlertExample()
    ensures var v := TwoPosts("2", "1", "t", "buy stocks");
      var w := FinalWatermark(None, LegacyRunFrom(None, v, 0));
      w == Some("1") && LegacyRunFrom(w, v, 0) == Act("2", AlertLine("buy stocks", "t"), Some("buy stocks")) &&
      Act("2", AlertLine("buy stocks", "t"), Some("buy stocks"))[0].Notify?
  {
    assert "buy stocks" in BuySell;
    RepeatedAlert("2", "1", "t", "buy stocks");
  }

  /** The loop as evidently intended: alerts as before, but the watermark is written
      once, with the newest post that reached the classifier. */
  function LegacyRunFixed(last: Option<string>, v: seq<Scraped>): seq<Effect> {
    var n := StopAt(last, v, 0);
    var ids := ProcessedIds(v, 0, n);
    Notifications(Sent(Steps(v, 0, n))) + (if ids == [] then [] else [Write(ids[0])])
  }

  function Notifications(messages: seq<string>): (r: seq<Effect>)
    ensures |r| == |messages|
    ensures forall k :: 0 <= k < |r| ==> r[k] == Notify(messages[k])
  {
    seq(|messages|, k requires 0 <= k < |messages| => Notify(messages[k]))
  }

  /** The same page seen a second time: the same ids and text elements, whatever the
      classifier answers. */
  predicate SamePage(v: seq<Scraped>, v2: seq<Scraped>) {
    |v2| == |v| && forall j :: 0 <= j < |v| ==> v2[j].id == v[j].id && v2[j].text.Some? == v[j].text.Some?
  }

  lemma {:induction false} StopAtSamePage(last: Option<string>, v: seq<Scraped>, v2: seq<Scraped>, i: nat)
    requires SamePage(v, v2) && i <= |v|
    ensures StopAt(last, v, i) == StopAt(last, v2, i)
    decreases |v| - i
  {
    if i < |v| {
      StopAtSamePage(last, v, v2, i + 1);
    }
  }

  /** Corrected: the watermark ends at the newest post that reached the classifier,
      and a second run over the same page alerts on nothing and writes nothing. */
  lemma FixedRerunIsQuiet(last: Option<string>, v: seq<Scraped>, v2: seq<Scraped>)
    requires SamePage(v, v2)
    ensures var w := FinalWatermark(last, LegacyRunFixed(last, v));
      LegacyRunFixed(w, v2) == []
  {
    var n := StopAt(last, v, 0);
    var ids := ProcessedIds(v, 0, n);
    var alerts := Notifications(Sent(Steps(v, 0, n)));
    ProcessedIdsHead(v, 0, n);
    var f := FirstProcessed(v, 0, n);
    var w := FinalWatermark(last, LegacyRunFixed(last, v));
    if ids == [] {
      NoWriteKeepsWatermark(last, alerts);
      assert LegacyRunFixed(last, v) == alerts + [];
      StopAtSamePage(last, v, v2, 0);
    } else {
      FinalWatermarkAppend(last, alerts, [Write(ids[0])]);
      assert w == v[f].id;
    }
    var n2 := StopAt(w, v2, 0);
    assert n2 <= f;
    forall j | 0 <= j < n2
      ensures !ProcessedAt(v2, j)
    {
      assert !ProcessedAt(v, j);
    }
    NoneProcessedQuiet(v2, 0, n2);
    ProcessedIdsHead(v2, 0, n2);
  }

  /** The same, stated on the scraped page: rerunning the corrected loop on the same
      page is quiet whatever the classifier answers the second time. */
  lemma FixedRerunOnPageIsQuiet(last: Option<string>, posts: seq<LegacyPost>,
                                labels: seq<Option<string>>, labels2: seq<Option<string>>)
    ensures var w := FinalWatermark(last, LegacyRunFixed(last, Scrape(posts, labels)));
      LegacyRunFixed(w, Scrape(posts, labels2)) == []
  {
    FixedRerunIsQuiet(last, Scrape(posts, labels), Scrape(posts, labels2));
  }
}
