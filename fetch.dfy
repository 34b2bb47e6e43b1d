/**
 * The resilient fetch of monitor.py: the start-up choice of PROXY_URL
 * (lines 135-140), the proxy `get_scraper` installs (lines 196-197) and
 * `fetch_json_with_retries` (lines 215-244). Each `scraper.get` is an oracle
 * reply and each call of `_pick_free_proxy` is given its own `PickerOracle`.
 */
module Fetch {
  import opened Wrappers
  import opened Text
  import opened Proxy

  /** The default `max_retries`. */
  const DefaultMaxRetries: int := 5

  /** The first back-off, in seconds. */
  const InitialBackoff: nat := 5

  /** The statuses raised as a `RequestException` before `raise_for_status()`. */
  const Blocked: set<int> := {403, 429, 502, 503}

  /** What one `scraper.get(...)` gave: a `RequestException`, or a response with its
      status and its body read as JSON (`None` when `resp.json()` would raise a
      `JSONDecodeError`). */
  datatype Reply<J> = Raised | Response(status: int, body: Option<J>)

  /** What one pass of the loop makes of a reply: the JSON is returned, an exception
      is caught (new proxy, sleep, next attempt), or nothing is raised at all and the
      loop goes round again with the same attempt number. */
  datatype Verdict<J> = Done(json: J) | Caught | Silent

  /** How a fetch ended: with the JSON, with `sys.exit(1)` after the last attempt, or
      still running when the replies ran out. */
  datatype FetchResult<J> = Fetched(json: J) | Fatal | Pending

  /** Lines 226-233 for one reply. As written (`strict` false) a non-200 status outside
      400..599 raises nothing; `strict` treats every non-200 status as a failure. */
  function Judge<J>(reply: Reply<J>, strict: bool): (v: Verdict<J>)
    ensures v.Done? <==> reply.Response? && reply.status == 200 && reply.body.Some?
    ensures v.Done? ==> v.json == reply.body.value
    ensures v.Silent? <==> !strict && reply.Response? && reply.status != 200 && !RaisesForStatus(reply.status)
  {
    match reply
    case Raised => Caught
    case Response(status, body) =>
      if status == 200 then (if body.Some? then Done(body.value) else Caught)
      else if status in Blocked then Caught
      else if RaisesForStatus(status) || strict then Caught
      else Silent
  }

  /** The explicit raise for 403, 429, 502 and 503 changes no outcome: `raise_for_status()`
      would have raised for each of them too. */
  lemma BlockedWouldRaiseAnyway(status: int)
    requires status in Blocked
    ensures RaisesForStatus(status)
  {
  }

  /** Lines 196-197: the request goes through PROXY_URL when it is a non-empty text,
      and direct (`None`) otherwise. */
  function Route(proxy: Option<string>): (r: Option<string>)
    ensures r.None? <==> !Truthy(proxy)
    ensures r.Some? ==> r == proxy
  {
    if Truthy(proxy) then proxy else None
  }

  /** The oracle of the `c`-th picker call; a missing one finds nothing. */
  function PickerAt(picks: seq<PickerOracle>, c: int): PickerOracle {
    if 0 <= c < |picks| then picks[c] else PickerOracle(FreeProxyMissing, [], [])
  }

  /** What the `c`-th picker call finds, for lists of the length of `lists`. Only the
      number of lists matters to the picker, and reshuffling keeps it. */
  function Found(lists: seq<string>, picks: seq<PickerOracle>): (found: seq<Option<string>>)
    ensures |found| == |picks|
  {
    seq(|picks|, c requires 0 <= c < |picks| => Pick(lists, picks[c]))
  }

  /** The `c`-th entry of `found`; none when there is no such entry. */
  function FoundAt(found: seq<Option<string>>, c: int): Option<string> {
    if 0 <= c < |found| then found[c] else None
  }


  /** The order `_FREE_LISTS` is left in after the first `n` picker calls. */
  function Reordered(lists: seq<string>, picks: seq<PickerOracle>, n: nat): (r: seq<string>)
    ensures |r| == |lists|
  {
    if n == 0 then lists else ListsAfter(Reordered(lists, picks, n - 1), PickerAt(picks, n - 1))
  }

  /** The picker, called on lists of the original length, finds `FoundAt(found, c)`. */
  lemma FoundAtPick(lists: seq<string>, current: seq<string>, picks: seq<PickerOracle>, c: nat)
    requires |current| == |lists|
    ensures Pick(current, PickerAt(picks, c)) == FoundAt(Found(lists, picks), c)
  {
    if c >= |picks| {
      var none := PickerOracle(FreeProxyMissing, [], []);
      var offers := Offers(none.providers, |current|);
      assert |current| == 0 || offers[0].timedOut;
    }
  }

  /** The variables of the loop of lines 217-241 between two passes: the attempt
      number, the back-off, how many replies have been read, PROXY_URL, and the
      route of every request and every sleep so far. The picker has been called
      once per sleep. */
  datatype Loop = Loop(attempt: int, backoff: nat, k: nat, proxy: Option<string>,
                       routes: seq<Option<string>>, sleeps: seq<nat>)

  /** The loop as it is entered (lines 217-218). */
  function Start(proxy: Option<string>): Loop {
    Loop(1, InitialBackoff, 0, proxy, [], [])
  }

  /** The loop variables after one more request, caught or not: the request's route
      is recorded, and a caught failure sleeps the current back-off, doubles it,
      uses up an attempt and switches PROXY_URL to what the next picker call found. */
  function Next(s: Loop, caught: bool, found: seq<Option<string>>): (t: Loop)
    ensures t.k == s.k + 1 && t.routes == s.routes + [Route(s.proxy)]
    ensures caught ==> t.attempt == s.attempt + 1 && t.sleeps == s.sleeps + [s.backoff] &&
                       t.backoff == 2 * s.backoff && t.proxy == FoundAt(found, |s.sleeps|)
    ensures !caught ==> t.attempt == s.attempt && t.sleeps == s.sleeps && t.backoff == s.backoff && t.proxy == s.proxy
  {
    var routes := s.routes + [Route(s.proxy)];
    if caught then Loop(s.attempt + 1, s.backoff * 2, s.k + 1, FoundAt(found, |s.sleeps|), routes, s.sleeps + [s.backoff])
    else s.(k := s.k + 1, routes := routes)
  }

  /** Everything a fetch does: how it ended, the route of every request in order,
      every sleep in order, and PROXY_URL afterwards. */
  datatype Run<J> = Run(result: FetchResult<J>, routes: seq<Option<string>>, sleeps: seq<nat>, proxy: Option<string>)

  /** The loop of lines 219-244 run from `s` over `replies`; the `c`-th caught failure
      makes PROXY_URL what the `c`-th picker call found, `FoundAt(found, c)`. */
  function Retry<J>(maxRetries: int, replies: seq<Reply<J>>, found: seq<Option<string>>, strict: bool, s: Loop): Run<J>
    decreases |replies| - s.k
  {
    if s.attempt > maxRetries then Run(Fatal, s.routes, s.sleeps, s.proxy)
    else if s.k >= |replies| then Run(Pending, s.routes, s.sleeps, s.proxy)
    else
      var routes := s.routes + [Route(s.proxy)];
      match Judge(replies[s.k], strict)
      case Done(json) => Run(Fetched(json), routes, s.sleeps, s.proxy)
      case Silent => Retry(maxRetries, replies, found, strict, Next(s, false, found))
      case Caught =>
        Retry(maxRetries, replies, found, strict, Next(s, true, found))
  }

  /** One request of the loop, read off `Retry`. */
  lemma RetryStep<J>(maxRetries: int, replies: seq<Reply<J>>, found: seq<Option<string>>, strict: bool, s: Loop)
    requires s.attempt <= maxRetries && s.k < |replies|
    ensures var run := Retry(maxRetries, replies, found, strict, s);
      match Judge(replies[s.k], strict)
      case Done(json) => run == Run(Fetched(json), s.routes + [Route(s.proxy)], s.sleeps, s.proxy)
      case Silent => run == Retry(maxRetries, replies, found, strict, Next(s, false, found))
      case Caught => run == Retry(maxRetries, replies, found, strict, Next(s, true, found))
  {
  }

  /** `2 ** k`. */
  function Pow2(k: nat): (r: nat)
    ensures r >= 1
  {
    if k == 0 then 1 else 2 * Pow2(k - 1)
  }

  /** One request per reply read, and the requests and sleeps made so far are kept. */
  lemma {:induction false} RetryExtends<J>(maxRetries: int, replies: seq<Reply<J>>, found: seq<Option<string>>, strict: bool, s: Loop)
    requires |s.routes| == s.k <= |replies|
    ensures var run := Retry(maxRetries, replies, found, strict, s);
      s.routes <= run.routes && |run.routes| <= |replies| && s.sleeps <= run.sleeps &&
      |run.sleeps| - |s.sleeps| <= |run.routes| - |s.routes|
    decreases |replies| - s.k
  {
    if s.attempt <= maxRetries && s.k < |replies| {
      match Judge(replies[s.k], strict)
      case Done(_) =>
      case Silent =>
        RetryExtends(maxRetries, replies, found, strict, Next(s, false, found));
      case Caught =>
        RetryExtends(maxRetries, replies, found, strict, Next(s, true, found));
    }
  }

  /** The back-off doubles after every sleep: from the start, the `i`-th sleep lasts
      `5 * 2 ** i` seconds. */
  lemma {:induction false} RetryBackoff<J>(maxRetries: int, replies: seq<Reply<J>>, found: seq<Option<string>>, strict: bool,
                                          s: Loop, base: nat)
    requires s.backoff == base * Pow2(|s.sleeps|)
    requires forall i :: 0 <= i < |s.sleeps| ==> s.sleeps[i] == base * Pow2(i)
    ensures var run := Retry(maxRetries, replies, found, strict, s);
      forall i :: 0 <= i < |run.sleeps| ==> run.sleeps[i] == base * Pow2(i)
    decreases |replies| - s.k
  {
    if s.attempt <= maxRetries && s.k < |replies| {
      match Judge(replies[s.k], strict)
      case Done(_) =>
      case Silent =>
        RetryBackoff(maxRetries, replies, found, strict, Next(s, false, found), base);
      case Caught =>
        var next := Next(s, true, found);
        assert next.backoff == base * Pow2(|next.sleeps|);
        RetryBackoff(maxRetries, replies, found, strict, next, base);
    }
  }

  /** Each caught failure uses up one attempt: a fetch ends `Fatal` exactly when its
      caught failures exhaust the attempts, and never catches more than that. */
  lemma {:induction false} RetryBudget<J>(maxRetries: int, replies: seq<Reply<J>>, found: seq<Option<string>>, strict: bool, s: Loop)
    requires s.attempt <= maxRetries + 1
    ensures var run := Retry(maxRetries, replies, found, strict, s);
      var caught := |run.sleeps| - |s.sleeps|;
      caught >= 0 && s.attempt + caught <= maxRetries + 1 &&
      (run.result.Fatal? <==> s.attempt + caught == maxRetries + 1)
    decreases |replies| - s.k
  {
    if s.attempt <= maxRetries && s.k < |replies| {
      match Judge(replies[s.k], strict)
      case Done(_) =>
      case Silent =>
        RetryBudget(maxRetries, replies, found, strict, Next(s, false, found));
      case Caught =>
        RetryBudget(maxRetries, replies, found, strict, Next(s, true, found));
    }
  }

  /** A fetch returns JSON only from a 200 response whose body parsed; that response
      is the last request made, and no earlier reply was one. */
  lemma {:induction false} RetryFetched<J>(maxRetries: int, replies: seq<Reply<J>>, found: seq<Option<string>>, strict: bool, s: Loop)
    requires |s.routes| == s.k <= |replies|
    ensures var run := Retry(maxRetries, replies, found, strict, s);
      run.result.Fetched? ==>
        s.k < |run.routes| <= |replies| &&
        replies[|run.routes| - 1] == Response(200, Some(run.result.json)) &&
        forall i :: s.k <= i < |run.routes| - 1 ==> !Judge(replies[i], strict).Done?
    decreases |replies| - s.k
  {
    if s.attempt <= maxRetries && s.k < |replies| {
      match Judge(replies[s.k], strict)
      case Done(_) =>
      case Silent =>
        RetryFetched(maxRetries, replies, found, strict, Next(s, false, found));
      case Caught =>
        RetryFetched(maxRetries, replies, found, strict, Next(s, true, found));
    }
  }

  /** The first request goes out on the route PROXY_URL gives at entry; after a caught
      failure the proxy is dropped and the next request goes through whatever the
      picker found, or direct when it found nothing. */
  lemma Failover<J>(maxRetries: int, replies: seq<Reply<J>>, found: seq<Option<string>>, strict: bool, proxy: Option<string>)
    requires 2 <= maxRetries && 2 <= |replies|
    requires Judge(replies[0], strict).Caught?
    ensures var run := Retry(maxRetries, replies, found, strict, Start(proxy));
      |run.routes| >= 2 && run.routes[0] == Route(proxy) &&
      run.routes[1] == Route(FoundAt(found, 0)) &&
      |run.sleeps| >= 1 && run.sleeps[0] == InitialBackoff
  {
    var s0 := Start(proxy);
    var next := Next(s0, true, found);
    assert Retry(maxRetries, replies, found, strict, s0) == Retry(maxRetries, replies, found, strict, next);
    match Judge(replies[1], strict)
    case Done(_) =>
    case Silent =>
      RetryExtends(maxRetries, replies, found, strict, Next(next, false, found));
    case Caught =>
      RetryExtends(maxRetries, replies, found, strict, Next(next, true, found));
  }

  /** When every reply is caught, each request sleeps once until the attempts run
      out, and no further request is made. */
  lemma {:induction false} AllCaught<J>(maxRetries: int, replies: seq<Reply<J>>, found: seq<Option<string>>, strict: bool, s: Loop)
    requires forall i :: s.k <= i < |replies| ==> Judge(replies[i], strict).Caught?
    requires s.attempt <= maxRetries + 1 && |replies| - s.k >= maxRetries + 1 - s.attempt
    ensures var run := Retry(maxRetries, replies, found, strict, s);
      run.result == Fatal && |run.sleeps| == |s.sleeps| + maxRetries + 1 - s.attempt &&
      |run.routes| == |s.routes| + maxRetries + 1 - s.attempt
    decreases |replies| - s.k
  {
    if s.attempt <= maxRetries {
      AllCaught(maxRetries, replies, found, strict, Next(s, true, found));
    }
  }

  /** Whatever the statuses, a fetch whose every reply is caught ends `Fatal` after
      `maxRetries` requests, having slept 5, 10, 20, ... seconds in between. */
  lemma GivesUpAfterBudget<J>(maxRetries: nat, replies: seq<Reply<J>>, found: seq<Option<string>>, strict: bool, proxy: Option<string>)
    requires |replies| >= maxRetries
    requires forall i :: 0 <= i < |replies| ==> Judge(replies[i], strict).Caught?
    ensures var run := Retry(maxRetries, replies, found, strict, Start(proxy));
      run.result == Fatal && |run.routes| == maxRetries && |run.sleeps| == maxRetries &&
      forall i :: 0 <= i < maxRetries ==> run.sleeps[i] == InitialBackoff * Pow2(i)
  {
    AllCaught(maxRetries, replies, found, strict, Start(proxy));
    RetryBackoff(maxRetries, replies, found, strict, Start(proxy), InitialBackoff);
  }

  /** A status no branch raises for: not 200 and outside 400..599 (204, 301, ...). */
  predicate Unraised<J>(reply: Reply<J>) {
    reply.Response? && reply.status != 200 && !RaisesForStatus(reply.status)
  }

  /** As written: replies with such a status neither return nor count as an attempt.
      However many of them arrive, the loop is still running, has not slept and has
      not changed the proxy. */
  lemma {:induction false} UnraisedStatusSpins<J>(maxRetries: int, replies: seq<Reply<J>>, found: seq<Option<string>>, s: Loop)
    requires s.attempt <= maxRetries && s.k <= |replies|
    requires forall i :: s.k <= i < |replies| ==> Unraised(replies[i])
    ensures Retry(maxRetries, replies, found, false, s) ==
      Run(Pending, s.routes + seq(|replies| - s.k, _ => Route(s.proxy)), s.sleeps, s.proxy)
    decreases |replies| - s.k
  {
    if s.k < |replies| {
      var routes := s.routes + [Route(s.proxy)];
      UnraisedStatusSpins(maxRetries, replies, found, Next(s, false, found));
      assert routes + seq(|replies| - s.k - 1, _ => Route(s.proxy)) == s.routes + seq(|replies| - s.k, _ => Route(s.proxy));
    }
  }

  /** With the default budget of five attempts, six 204 replies make six requests and
      the fetch has still neither returned nor given up. */
  lemma NoContentExceedsBudget<J>(found: seq<Option<string>>, proxy: Option<string>)
    ensures var replies: seq<Reply<J>> := seq(6, _ => Response(204, None));
      var run := Retry(DefaultMaxRetries, replies, found, false, Start(proxy));
      run.result == Pending && |run.routes| == 6 > DefaultMaxRetries && run.sleeps == []
  {
    var replies: seq<Reply<J>> := seq(6, _ => Response(204, None));
    UnraisedStatusSpins(DefaultMaxRetries, replies, found, Start(proxy));
  }

  /** Corrected (`strict`): every request either returns or uses up an attempt, so a
      fetch makes at most `maxRetries` requests and has ended once that many replies
      arrived. */
  lemma {:induction false} StrictRetryBounded<J>(maxRetries: int, replies: seq<Reply<J>>, found: seq<Option<string>>, s: Loop)
    requires s.attempt <= maxRetries + 1
    ensures var run := Retry(maxRetries, replies, found, true, s);
      |run.routes| - |s.routes| <= maxRetries + 1 - s.attempt &&
      (|replies| - s.k >= maxRetries + 1 - s.attempt ==> !run.result.Pending?)
    decreases |replies| - s.k
  {
    if s.attempt <= maxRetries && s.k < |replies| {
      match Judge(replies[s.k], true)
      case Done(_) =>
      case Caught =>
        StrictRetryBounded(maxRetries, replies, found, Next(s, true, found));
    }
  }

  /** The module-level state the fetch layer updates in place: PROXY_URL and the
      order of `_FREE_LISTS`. */
  class Fetcher {
    var proxyUrl: Option<string>
    var freeLists: seq<string>

    /** Lines 135-140: a pinned PROXY_URL is kept; when it is unset or empty the
        picker runs once at start-up and its result, possibly none, is used. */
    constructor (pinned: Option<string>, startup: PickerOracle)
      ensures Truthy(pinned) ==> proxyUrl == pinned && freeLists == FreeLists
      ensures !Truthy(pinned) ==> proxyUrl == Pick(FreeLists, startup) && freeLists == ListsAfter(FreeLists, startup)
    {
      if Truthy(pinned) {
        proxyUrl := pinned;
        freeLists := FreeLists;
      } else {
        var picked, lists := PickFreeProxy(FreeLists, startup);
        proxyUrl := picked;
        freeLists := lists;
      }
    }

    /** Lines 215-244. The `k`-th `scraper.get` gives `replies[k]` and the `c`-th call
        of `_pick_free_proxy` sees `picks[c]`; returns how the fetch ended, the route
        of every request and every sleep. With `strict` false this is the code as
        written; `strict` is the corrected reading of line 232. */
    method FetchJsonWithRetries<J>(maxRetries: int, replies: seq<Reply<J>>, picks: seq<PickerOracle>, strict: bool)
      returns (result: FetchResult<J>, routes: seq<Option<string>>, sleeps: seq<nat>)
      modifies this
      ensures var run := Retry(maxRetries, replies, Found(old(freeLists), picks), strict, Start(old(proxyUrl)));
        result == run.result && routes == run.routes && sleeps == run.sleeps && proxyUrl == run.proxy
      ensures freeLists == Reordered(old(freeLists), picks, |sleeps|)
    {
      var lists0 := freeLists;
      ghost var found := Found(lists0, picks);
      ghost var run := Retry(maxRetries, replies, found, strict, Start(proxyUrl));
      var backoff: nat := InitialBackoff;
      var attempt := 1;
      var k := 0;
      routes, sleeps := [], [];
      while attempt <= maxRetries
        invariant k <= |replies|
        invariant freeLists == Reordered(lists0, picks, |sleeps|)
        invariant Retry(maxRetries, replies, found, strict, Loop(attempt, backoff, k, proxyUrl, routes, sleeps)) == run
        decreases |replies| - k
      {
        if k == |replies| {
          return Pending, routes, sleeps;
        }
        ghost var before := Loop(attempt, backoff, k, proxyUrl, routes, sleeps);
        RetryStep(maxRetries, replies, found, strict, before);
        routes := routes + [Route(proxyUrl)];
        var verdict;
        verdict, sleeps := Attempt(replies[k], lists0, picks, sleeps, backoff, strict);
        k := k + 1;
        match verdict {
          case Done(json) =>
            return Fetched(json), routes, sleeps;
          case Silent =>
            assert Loop(attempt, backoff, k, proxyUrl, routes, sleeps) == Next(before, false, found);
          case Caught =>
            backoff := backoff * 2;
            attempt := attempt + 1;
            assert Loop(attempt, backoff, k, proxyUrl, routes, sleeps) == Next(before, true, found);
        }
      }
      result := Fatal;
    }

    /** Lines 226-241 for one reply: its verdict, and on a caught failure the proxy
        the next picker call finds and the sleep of the current back-off. */
    method Attempt<J>(reply: Reply<J>, lists0: seq<string>, picks: seq<PickerOracle>, sleeps: seq<nat>, backoff: nat, strict: bool)
      returns (verdict: Verdict<J>, slept: seq<nat>)
      requires freeLists == Reordered(lists0, picks, |sleeps|)
      modifies this
      ensures verdict == Judge(reply, strict)
      ensures freeLists == Reordered(lists0, picks, |slept|)
      ensures verdict.Caught? ==> proxyUrl == FoundAt(Found(lists0, picks), |sleeps|) && slept == sleeps + [backoff]
      ensures !verdict.Caught? ==> proxyUrl == old(proxyUrl) && slept == sleeps
    {
      slept := sleeps;
      var caught := false;
      if reply.Raised? {
        caught := true;
      } else if reply.status == 200 {
        if reply.body.Some? {
          return Done(reply.body.value), slept;
        }
        caught := true;
      } else if reply.status in Blocked {
        caught := true;
      } else if RaisesForStatus(reply.status) || strict {
        caught := true;
      }
      if !caught {
        return Silent, slept;
      }
      FoundAtPick(lists0, freeLists, picks, |sleeps|);
      proxyUrl, freeLists := PickFreeProxy(freeLists, PickerAt(picks, |sleeps|));
      slept := sleeps + [backoff];
      return Caught, slept;
    }
  }
}
