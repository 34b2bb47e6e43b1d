/**
 * The cursor loop of `main` in monitor.py: the fetched statuses (newest first)
 * are visited oldest first against the stored watermark; a post is skipped when
 * it has no id or its id is `<=` the watermark, an empty post only advances the
 * watermark, a post the classifier does not accept is left for a later run, and
 * an accepted post advances the watermark after an alert for the actionable
 * labels.
 */
module Monitor {
  import opened Wrappers
  import opened Text
  import opened Html
  import opened Classifier
  import opened Store

  /** A status as returned by the accounts/statuses endpoint: `id` and `content`
      may be absent (or null). */
  datatype Post = Post(id: Option<string>, content: Option<string>)

  /** The labels that trigger an alert. */
  const Actionable: set<string> := {"bullish", "bearish"}

  /** `f"{classification.upper()}: {post_text}\nReason: {explanation}"`. */
  function AlertMessage(classification: string, text: string, explanation: Option<string>): string {
    Upper(classification) + ": " + text + "\nReason: " + explanation.GetOr("None")
  }

  /** `last_processed and post_id <= last_processed`. */
  predicate AlreadyProcessed(last: Option<string>, id: string) {
    Truthy(last) && LexLe(id, last.value)
  }

  /** A post id the loop does not skip outright. */
  predicate Fresh(last: Option<string>, id: Option<string>) {
    Truthy(id) && !AlreadyProcessed(last, id.value)
  }

  /** A post whose id the loop stores: fresh, and either empty once its markup is
      stripped or classified with enough confidence. */
  predicate Stores(last: Option<string>, id: Option<string>, text: string, a: Analysis) {
    Fresh(last, id) && (text == [] || Accepted(a))
  }

  /** A post the loop raises an alert for. */
  predicate Alerts(last: Option<string>, id: Option<string>, text: string, a: Analysis) {
    Fresh(last, id) && text != [] && Accepted(a) && a.classification.value in Actionable
  }

  /** A post the loop leaves for a later run ("will retry later"): fresh, with text,
      but not classified with enough confidence. */
  predicate Defers(last: Option<string>, id: Option<string>, text: string, a: Analysis) {
    Fresh(last, id) && text != [] && !Accepted(a)
  }

  /** The classifier's reply for the post at index `i`; a post without one is a
      failed classification. */
  function ReplyAt(replies: seq<GroqReply>, i: nat): GroqReply {
    if i < |replies| then replies[i] else GroqFailed
  }

  /** The alert a post would raise, given its stripped text and its classification. */
  function AlertFor(text: string, a: Analysis): string {
    AlertMessage(a.classification.GetOr([]), text, a.explanation)
  }

  /** The effects of one iteration of the loop, given the post's id, its text with the
      markup stripped, the classifier's verdict on it and the alert it would raise. */
  function Decide(last: Option<string>, id: Option<string>, text: string, a: Analysis, alert: string): (r: seq<Effect>)
    ensures r != [] <==> Stores(last, id, text, a)
    ensures |r| == 2 <==> Alerts(last, id, text, a)
    ensures r != [] ==> r[|r| - 1] == Write(id.value)
    ensures |r| == 2 ==> r[0] == Notify(alert)
    ensures |r| <= 2
  {
    if !Truthy(id) || AlreadyProcessed(last, id.value) then []
    else if text == [] then [Write(id.value)]
    else if a.classification.None? || a.confidence < ConfidenceThreshold then []
    else if a.classification.value in Actionable then
      [Notify(alert), Write(id.value)]
    else [Write(id.value)]
  }

  /** A post as the loop sees it: its id, its text with the markup stripped, the
      classifier's verdict on that text and the alert it would raise. */
  datatype Seen = Seen(id: Option<string>, text: string, analysis: Analysis, alert: string)

  /** A post with id `id`, text `text` and verdict `a`, as the loop sees it. */
  function SeenPost(id: Option<string>, text: string, a: Analysis): Seen {
    Seen(id, text, a, AlertFor(text, a))
  }

  /** A fetched post as the loop sees it: an alert reads `CLASSIFICATION: text` followed
      by a line `Reason: explanation`. */
  function See(post: Post, reply: GroqReply): (s: Seen)
    ensures s.id == post.id && s.text == StripHtml(post.content) && s.analysis == AnalyzePost(reply)
    ensures s.analysis.classification.Some? ==>
      s.alert == Upper(s.analysis.classification.value) + ": " + s.text + "\nReason: " + s.analysis.explanation.GetOr("None")
  {
    SeenPost(post.id, StripHtml(post.content), AnalyzePost(reply))
  }

  /** Every fetched post as the loop sees it. */
  function Views(posts: seq<Post>, replies: seq<GroqReply>): (v: seq<Seen>)
    ensures |v| == |posts|
    ensures forall i :: 0 <= i < |posts| ==> v[i] == See(posts[i], ReplyAt(replies, i))
  {
    seq(|posts|, i requires 0 <= i < |posts| => See(posts[i], ReplyAt(replies, i)))
  }

  /** Whether the loop stores the id of `seen[i]`. */
  predicate StoresAt(last: Option<string>, seen: seq<Seen>, i: nat)
    requires i < |seen|
  {
    Stores(last, seen[i].id, seen[i].text, seen[i].analysis)
  }

  /** Whether the loop raises an alert for `seen[i]`. */
  predicate AlertsAt(last: Option<string>, seen: seq<Seen>, i: nat)
    requires i < |seen|
  {
    Alerts(last, seen[i].id, seen[i].text, seen[i].analysis)
  }

  function Visit(last: Option<string>, seen: seq<Seen>, i: nat): seq<Effect>
    requires i < |seen|
  {
    Decide(last, seen[i].id, seen[i].text, seen[i].analysis, seen[i].alert)
  }

  /** The effects of visiting `seen[|seen| - 1]` down to `seen[i]`. */
  function RunFrom(last: Option<string>, seen: seq<Seen>, i: nat): seq<Effect>
    decreases |seen| - i
  {
    if i >= |seen| then []
    else RunFrom(last, seen, i + 1) + Visit(last, seen, i)
  }

  /** The effects of the whole loop. */
  function RunEffects(last: Option<string>, posts: seq<Post>, replies: seq<GroqReply>): seq<Effect> {
    RunFrom(last, Views(posts, replies), 0)
  }

  /** One iteration of the loop (lines 361-385); `deferred` reports the branch that
      logs "will retry later". */
  method VisitPost(lastProcessed: Option<string>, post: Post, reply: GroqReply)
    returns (effects: seq<Effect>, deferred: bool)
    ensures effects == Decide(lastProcessed, post.id, StripHtml(post.content), AnalyzePost(reply),
      AlertFor(StripHtml(post.content), AnalyzePost(reply)))
    ensures deferred <==> Defers(lastProcessed, post.id, StripHtml(post.content), AnalyzePost(reply))
  {
    effects, deferred := [], false;
    var postId := post.id;
    if !Truthy(postId) {
      return;
    }
    if Truthy(lastProcessed) && LexLe(postId.value, lastProcessed.value) {
      return;
    }
    var postText := StripHtml(post.content);
    if postText == [] {
      effects := [Write(postId.value)];
      return;
    }
    var analysis := AnalyzePost(reply);
    effects, deferred := ActOn(lastProcessed, postId.value, postText, analysis);
  }

  /** Lines 377-385: the confidence gate, the alert and the watermark write for a
      fresh post with text. */
  method ActOn(lastProcessed: Option<string>, postId: string, postText: string, analysis: Analysis)
    returns (effects: seq<Effect>, deferred: bool)
    requires Fresh(lastProcessed, Some(postId)) && postText != []
    ensures effects == Decide(lastProcessed, Some(postId), postText, analysis, AlertFor(postText, analysis))
    ensures deferred <==> !Accepted(analysis)
  {
    if analysis.classification.None? || analysis.confidence < ConfidenceThreshold {
      return [], true;
    }
    if analysis.classification.value in Actionable {
      return [Notify(AlertFor(postText, analysis)), Write(postId)], false;
    }
    return [Write(postId)], false;
  }

  /** Lines 349-387 after the fetch: `lastProcessed` is the watermark read once at
      start-up, `posts` the fetched list and `replies[i]` the classifier's reply for
      `posts[i]`; the posts are visited from the last to the first. */
  method ProcessPosts(lastProcessed: Option<string>, posts: seq<Post>, replies: seq<GroqReply>)
    returns (effects: seq<Effect>)
    ensures effects == RunEffects(lastProcessed, posts, replies)
    ensures NotifiesThenWrites(effects)
    ensures WritesFresh(lastProcessed, effects)
  {
    ghost var seen := Views(posts, replies);
    effects := [];
    var i := |posts|;
    while i > 0
      invariant 0 <= i <= |posts|
      invariant effects == RunFrom(lastProcessed, seen, i)
    {
      i := i - 1;
      var visit, _ := VisitPost(lastProcessed, posts[i], ReplyAt(replies, i));
      assert visit == Visit(lastProcessed, seen, i);
      effects := effects + visit;
    }
    RunNotifiesThenWrites(lastProcessed, seen, 0);
    RunWritesFresh(lastProcessed, seen, 0);
  }

  /** A written id is fresh. */
  predicate WritesFresh(last: Option<string>, effects: seq<Effect>) {
    forall k :: 0 <= k < |effects| && effects[k].Write? ==>
      effects[k].postId != [] && !AlreadyProcessed(last, effects[k].postId)
  }

  /** Every alert is followed at once by its watermark write. */
  lemma {:induction false} RunNotifiesThenWrites(last: Option<string>, seen: seq<Seen>, i: nat)
    ensures NotifiesThenWrites(RunFrom(last, seen, i))
    decreases |seen| - i
  {
    if i < |seen| {
      RunNotifiesThenWrites(last, seen, i + 1);
      NotifiesThenWritesAppend(RunFrom(last, seen, i + 1), Visit(last, seen, i));
    }
  }

  /** Only ids that are non-empty and newer than the stored one are ever written. */
  lemma {:induction false} RunWritesFresh(last: Option<string>, seen: seq<Seen>, i: nat)
    ensures WritesFresh(last, RunFrom(last, seen, i))
    decreases |seen| - i
  {
    if i < |seen| {
      RunWritesFresh(last, seen, i + 1);
      var before := RunFrom(last, seen, i + 1);
      var v := Visit(last, seen, i);
      var all: seq<Effect> := before + v;
      forall k | 0 <= k < |all| && all[k].Write?
        ensures all[k].postId != [] && !AlreadyProcessed(last, all[k].postId)
      {
        if k < |before| {
          assert all[k] == before[k];
        } else {
          assert all[k] == v[k - |before|];
        }
      }
    }
  }

  /** The index of the newest post (the first at or after `i`) whose id the loop stores. */
  function NewestStored(last: Option<string>, seen: seq<Seen>, i: nat): (r: nat)
    ensures i <= r || i > |seen|
    ensures r <= |seen| || i > |seen|
    ensures r < |seen| ==> StoresAt(last, seen, r)
    ensures forall j :: i <= j < r && j < |seen| ==> !StoresAt(last, seen, j)
    decreases |seen| - i
  {
    if i >= |seen| then i
    else if StoresAt(last, seen, i) then i
    else NewestStored(last, seen, i + 1)
  }

  /** The stored id after the run is that of the newest post the loop stored, or the
      old one when it stored none; it never moves back to an id `<=` the old one. */
  lemma {:induction false} RunWatermark(last: Option<string>, seen: seq<Seen>, i: nat)
    requires i <= |seen|
    ensures var f := NewestStored(last, seen, i);
      FinalWatermark(last, RunFrom(last, seen, i)) ==
        if f < |seen| then Some(seen[f].id.value) else last
    ensures var w := FinalWatermark(last, RunFrom(last, seen, i));
      w == last || (Truthy(w) && !AlreadyProcessed(last, w.value))
    decreases |seen| - i
  {
    if i < |seen| {
      RunWatermark(last, seen, i + 1);
      var before := RunFrom(last, seen, i + 1);
      var v := Visit(last, seen, i);
      FinalWatermarkAppend(last, before, v);
      var w := FinalWatermark(last, before);
      if v != [] {
        assert FinalWatermark(w, v) == seen[i].id;
        assert NewestStored(last, seen, i) == i;
      } else {
        assert FinalWatermark(w, v) == w;
        assert NewestStored(last, seen, i) == NewestStored(last, seen, i + 1);
      }
    }
  }

  /** With nothing newer than the watermark the loop has no effect. */
  lemma {:induction false} QuietWhenNothingNew(last: Option<string>, seen: seq<Seen>, i: nat)
    requires forall j :: i <= j < |seen| ==> !Fresh(last, seen[j].id)
    ensures RunFrom(last, seen, i) == []
    decreases |seen| - i
  {
    if i < |seen| {
      QuietWhenNothingNew(last, seen, i + 1);
    }
  }

  /** The endpoint lists statuses newest first: ids do not increase along the list. */
  predicate NewestFirst(seen: seq<Seen>) {
    forall a, b :: 0 <= a < b < |seen| && Truthy(seen[a].id) && Truthy(seen[b].id) ==>
      LexLe(seen[b].id.value, seen[a].id.value)
  }

  /** For a newest-first list the stored id is the greatest id the loop stored. */
  lemma WatermarkIsGreatest(last: Option<string>, seen: seq<Seen>)
    requires NewestFirst(seen)
    ensures var w := FinalWatermark(last, RunFrom(last, seen, 0));
      forall j :: 0 <= j < |seen| && StoresAt(last, seen, j) ==>
        w.Some? && LexLe(seen[j].id.value, w.value)
  {
    RunWatermark(last, seen, 0);
    var f := NewestStored(last, seen, 0);
    forall j | 0 <= j < |seen| && StoresAt(last, seen, j)
      ensures LexLe(seen[j].id.value, seen[f].id.value)
    {
      if j == f {
        LexLeRefl(seen[j].id.value);
      }
    }
  }

  /** Re-running on the same newest-first list after a run in which every fresh post
      was stored produces no alert and no write, whatever the classifier says the
      second time. */
  lemma RerunIsQuiet(last: Option<string>, seen: seq<Seen>, seen2: seq<Seen>)
    requires NewestFirst(seen)
    requires forall j :: 0 <= j < |seen| && Fresh(last, seen[j].id) ==> StoresAt(last, seen, j)
    requires |seen2| == |seen| && forall j :: 0 <= j < |seen| ==> seen2[j].id == seen[j].id
    ensures var w := FinalWatermark(last, RunFrom(last, seen, 0));
      RunFrom(w, seen2, 0) == []
  {
    RunWatermark(last, seen, 0);
    var w := FinalWatermark(last, RunFrom(last, seen, 0));
    var f := NewestStored(last, seen, 0);
    forall j | 0 <= j < |seen2|
      ensures !Fresh(w, seen2[j].id)
    {
      if f < |seen| && Truthy(seen[j].id) {
        if j < f {
          assert !StoresAt(last, seen, j);
          assert LexLe(seen[f].id.value, seen[j].id.value);
          LexLeTrans(seen[f].id.value, seen[j].id.value, last.value);
        } else if j == f {
          LexLeRefl(seen[j].id.value);
        }
      }
    }
    QuietWhenNothingNew(w, seen2, 0);
  }

  /** The same, stated on the fetched posts: a second run over the same newest-first
      statuses after a run that stored every fresh post sends nothing and writes nothing. */
  lemma RerunPostsIsQuiet(last: Option<string>, posts: seq<Post>, replies: seq<GroqReply>, replies2: seq<GroqReply>)
    requires NewestFirst(Views(posts, replies))
    requires forall j :: 0 <= j < |posts| && Fresh(last, posts[j].id) ==> StoresAt(last, Views(posts, replies), j)
    ensures var w := FinalWatermark(last, RunEffects(last, posts, replies));
      RunEffects(w, posts, replies2) == []
  {
    RerunIsQuiet(last, Views(posts, replies), Views(posts, replies2));
  }

  /** The number of posts at or after `i` that raise an alert. */
  function CountAlerts(last: Option<string>, seen: seq<Seen>, i: nat): (n: nat)
    ensures n <= |seen| - i || i > |seen|
    decreases |seen| - i
  {
    if i >= |seen| then 0
    else CountAlerts(last, seen, i + 1) + (if AlertsAt(last, seen, i) then 1 else 0)
  }

  /** One alert per alerting post and none otherwise: at most one per post. */
  lemma {:induction false} AlertsCounted(last: Option<string>, seen: seq<Seen>, i: nat)
    ensures |Sent(RunFrom(last, seen, i))| == CountAlerts(last, seen, i)
    decreases |seen| - i
  {
    if i < |seen| {
      AlertsCounted(last, seen, i + 1);
      var v := Visit(last, seen, i);
      SentAppend(RunFrom(last, seen, i + 1), v);
      if |v| == 2 {
        assert v[1..][1..] == [];
      } else if |v| == 1 {
        assert v[1..] == [];
      }
    }
  }

  /** Three new posts over the watermark "A100"; A101 is empty, A102 is
      classified bearish with confidence 1.0 and A103 fails to parse. One alert, for
      A102, and the watermark ends at A102, leaving A103 for the next run. */
  lemma ThreePostExample()
    ensures var effects := RunFrom(Some("A100"), ExamplePosts(), 0);
      effects == [Write("A101"), Notify(AlertMessage("bearish", "t2", Some("r"))), Write("A102")] &&
      FinalWatermark(Some("A100"), effects) == Some("A102") &&
      Fresh(Some("A102"), Some("A103"))
  {
    ExampleIdsFresh();
    ExampleOlderTwo();
    assert RunFrom(Some("A100"), ExamplePosts(), 0) == RunFrom(Some("A100"), ExamplePosts(), 1) + [];
  }

  /** The run over the two older posts of the example. */
  lemma ExampleOlderTwo()
    ensures RunFrom(Some("A100"), ExamplePosts(), 1) ==
      [Write("A101"), Notify(AlertMessage("bearish", "t2", Some("r"))), Write("A102")]
  {
    var seen := ExamplePosts();
    ExampleIdsFresh();
    ExampleAlert();
    assert seen[1].alert == AlertMessage("bearish", "t2", Some("r"));
    assert Visit(Some("A100"), seen, 1) == [Notify(AlertMessage("bearish", "t2", Some("r"))), Write("A102")];
    assert Visit(Some("A100"), seen, 2) == [Write("A101")];
    assert RunFrom(Some("A100"), seen, 3) == [];
    assert RunFrom(Some("A100"), seen, 2) == [Write("A101")];
  }

  function ExamplePosts(): seq<Seen> {
    [SeenPost(Some("A103"), "t3", Unclassified),
     SeenPost(Some("A102"), "t2", Analysis(Some("bearish"), Some("r"), 1.0)),
     SeenPost(Some("A101"), "", Unclassified)]
  }

  lemma ExampleIdsFresh()
    ensures Fresh(Some("A100"), Some("A101")) && Fresh(Some("A100"), Some("A102"))
    ensures Fresh(Some("A100"), Some("A103")) && Fresh(Some("A102"), Some("A103"))
  {
    assert !LexLe("1", "0") && !LexLe("2", "0") && !LexLe("3", "0") && !LexLe("3", "2");
    assert "A101"[1..] == "101" && "A100"[1..] == "100" && "101"[1..] == "01" && "100"[1..] == "00";
    assert "A102"[1..] == "102" && "102"[1..] == "02" && "01"[1..] == "1" && "00"[1..] == "0" && "02"[1..] == "2";
    assert "A103"[1..] == "103" && "103"[1..] == "03" && "03"[1..] == "3";
  }

  lemma ExampleAlert()
    ensures Decide(Some("A100"), Some("A102"), "t2", Analysis(Some("bearish"), Some("r"), 1.0),
      AlertMessage("bearish", "t2", Some("r"))) ==
      [Notify(AlertMessage("bearish", "t2", Some("r"))), Write("A102")]
  {
    ExampleIdsFresh();
    assert "bearish" in Actionable;
  }

  // A deferred post is lost when a newer post in the same run is stored.

  /** As written (lines 377-379 with 385): the older post "1" fails to classify and
      is deferred, the newer post "2" is stored, so the watermark passes "1" and no
      later run classifies it again. */
  lemma DeferredPostSkipped()
    ensures var seen := [SeenPost(Some("2"), "b", Analysis(Some("neutral"), Some("r"), 1.0)),
                         SeenPost(Some("1"), "a", Unclassified)];
      var w := FinalWatermark(None, RunFrom(None, seen, 0));
      DefersAt(None, seen, 1) && w == Some("2") && !Fresh(w, seen[1].id)
  {
    var seen := [SeenPost(Some("2"), "b", Analysis(Some("neutral"), Some("r"), 1.0)),
                 SeenPost(Some("1"), "a", Unclassified)];
    assert "neutral" !in Actionable;
    assert RunFrom(None, seen, 1) == [];
    assert RunFrom(None, seen, 0) == [Write("2")];
    assert LexLe("1", "2");
  }

  predicate DefersAt(last: Option<string>, seen: seq<Seen>, i: nat)
    requires i < |seen|
  {
    Defers(last, seen[i].id, seen[i].text, seen[i].analysis)
  }

  /** Whether some post at or after `i` is deferred, i.e. whether a loop that stops at
      the first deferred post stops before reaching `seen[i - 1]`. */
  predicate DeferredFrom(last: Option<string>, seen: seq<Seen>, i: nat)
    decreases |seen| - i
  {
    i < |seen| && (DefersAt(last, seen, i) || DeferredFrom(last, seen, i + 1))
  }

  /** `DeferredFrom` holds exactly when some post at or after `i` is deferred. */
  lemma {:induction false} DeferredFromSome(last: Option<string>, seen: seq<Seen>, i: nat)
    ensures DeferredFrom(last, seen, i) <==> exists j :: i <= j < |seen| && DefersAt(last, seen, j)
    decreases |seen| - i
  {
    if i < |seen| {
      DeferredFromSome(last, seen, i + 1);
    }
  }

  /** The loop as evidently intended: a deferred post ends the run, so that nothing
      newer than it is stored before it has been classified. */
  function StoppingRunFrom(last: Option<string>, seen: seq<Seen>, i: nat): seq<Effect>
    decreases |seen| - i
  {
    if i >= |seen| then []
    else if DeferredFrom(last, seen, i + 1) then StoppingRunFrom(last, seen, i + 1)
    else StoppingRunFrom(last, seen, i + 1) + Visit(last, seen, i)
  }

  /** The corrected loop: as `ProcessPosts`, but a deferred post ends the run. */
  method ProcessPostsStopping(lastProcessed: Option<string>, posts: seq<Post>, replies: seq<GroqReply>)
    returns (effects: seq<Effect>)
    ensures effects == StoppingRunFrom(lastProcessed, Views(posts, replies), 0)
  {
    ghost var seen := Views(posts, replies);
    effects := [];
    var i := |posts|;
    while i > 0
      invariant 0 <= i <= |posts|
      invariant !DeferredFrom(lastProcessed, seen, i)
      invariant effects == StoppingRunFrom(lastProcessed, seen, i)
    {
      i := i - 1;
      var visit, deferred := VisitPost(lastProcessed, posts[i], ReplyAt(replies, i));
      assert visit == Visit(lastProcessed, seen, i);
      assert deferred == DefersAt(lastProcessed, seen, i);
      StoppingStep(lastProcessed, seen, i);
      effects := effects + visit;
      if deferred {
        StoppingSkipsFrom(lastProcessed, seen, i, 0);
        return;
      }
    }
  }

  /** While no newer post was deferred, the stopping loop visits `seen[i]`. */
  lemma StoppingStep(last: Option<string>, seen: seq<Seen>, i: nat)
    requires i < |seen| && !DeferredFrom(last, seen, i + 1)
    ensures StoppingRunFrom(last, seen, i) == StoppingRunFrom(last, seen, i + 1) + Visit(last, seen, i)
    ensures DeferredFrom(last, seen, i) <==> DefersAt(last, seen, i)
  {
  }

  /** Once `seen[i]` is deferred, the stopping loop adds nothing for older posts. */
  lemma {:induction false} StoppingSkipsFrom(last: Option<string>, seen: seq<Seen>, i: nat, j: nat)
    requires j <= i < |seen| && DefersAt(last, seen, i)
    ensures StoppingRunFrom(last, seen, j) == StoppingRunFrom(last, seen, i)
    decreases i - j
  {
    if j < i {
      DeferredFromSome(last, seen, j + 1);
      StoppingSkipsFrom(last, seen, i, j + 1);
    }
  }

  /** Post `k` is listed after (older than, and visited before) every deferred post
      at or after `i`. */
  predicate BelowDeferred(last: Option<string>, seen: seq<Seen>, i: nat, k: nat) {
    i <= k < |seen| && forall j :: i <= j < |seen| && DefersAt(last, seen, j) ==> j < k
  }

  /** The stored id after a stopping run is the old one, or the id of a post listed
      after (older than, and visited before) every deferred post. */
  lemma {:induction false} StoppingWatermark(last: Option<string>, seen: seq<Seen>, i: nat)
    ensures var w := FinalWatermark(last, StoppingRunFrom(last, seen, i));
      w == last || exists k: nat :: BelowDeferred(last, seen, i, k) && w == seen[k].id
    decreases |seen| - i
  {
    if i < |seen| {
      StoppingWatermark(last, seen, i + 1);
      var before := StoppingRunFrom(last, seen, i + 1);
      var w := FinalWatermark(last, before);
      if DeferredFrom(last, seen, i + 1) {
        WatermarkCarried(last, seen, i, w);
      } else {
        var v := Visit(last, seen, i);
        FinalWatermarkAppend(last, before, v);
        if v != [] {
          assert FinalWatermark(w, v) == seen[i].id;
          StoredBelowDeferred(last, seen, i);
        } else {
          WatermarkCarried(last, seen, i, w);
        }
      }
    }
  }

  /** A post below every deferred post from `i + 1` on is below every one from `i` on. */
  lemma WatermarkCarried(last: Option<string>, seen: seq<Seen>, i: nat, w: Option<string>)
    requires w == last || exists k: nat :: BelowDeferred(last, seen, i + 1, k) && w == seen[k].id
    ensures w == last || exists k: nat :: BelowDeferred(last, seen, i, k) && w == seen[k].id
  {
    if w != last {
      var k: nat :| BelowDeferred(last, seen, i + 1, k) && w == seen[k].id;
      assert BelowDeferred(last, seen, i, k);
    }
  }

  /** A post the stopping loop stores is below every deferred post from it on. */
  lemma StoredBelowDeferred(last: Option<string>, seen: seq<Seen>, i: nat)
    requires i < |seen| && !DeferredFrom(last, seen, i + 1) && StoresAt(last, seen, i)
    ensures BelowDeferred(last, seen, i, i)
  {
    DeferredFromSome(last, seen, i + 1);
  }

  /** Ids strictly decrease along the list. */
  predicate StrictlyNewestFirst(seen: seq<Seen>) {
    NewestFirst(seen) &&
    forall a, b :: 0 <= a < b < |seen| && Truthy(seen[a].id) && Truthy(seen[b].id) ==> seen[a].id != seen[b].id
  }

  /** Corrected: every deferred post is still newer than the stored id after the run,
      so the next run classifies it again. */
  lemma DeferredPostsKept(last: Option<string>, seen: seq<Seen>)
    requires StrictlyNewestFirst(seen)
    ensures var w := FinalWatermark(last, StoppingRunFrom(last, seen, 0));
      forall j :: 0 <= j < |seen| && DefersAt(last, seen, j) ==> Fresh(w, seen[j].id)
  {
    StoppingWatermark(last, seen, 0);
    var w := FinalWatermark(last, StoppingRunFrom(last, seen, 0));
    forall j | 0 <= j < |seen| && DefersAt(last, seen, j)
      ensures Fresh(w, seen[j].id)
    {
      if w != last {
        var k: nat :| BelowDeferred(last, seen, 0, k) && w == seen[k].id;
        assert j < k;
        if Truthy(w) && LexLe(seen[j].id.value, w.value) {
          LexLeAntisymmetric(seen[j].id.value, seen[k].id.value);
        }
      }
    }
  }
}
