/**
 * The automatic proxy picker of monitor.py: `_proxy_works`, the candidate lists
 * and `_pick_free_proxy`. Every network exchange, every random draw and the
 * wall clock are oracles handed in as data:
 *  - a probe through a candidate is a `Probe` (the response, or an exception);
 *  - the FreeProxy library call is a `FreeProxyOutcome`;
 *  - `random.shuffle` is Python's Fisher-Yates walk driven by a sequence of draws;
 *  - the check `timed_out()` made before each list provider is a boolean per provider.
 */
module Proxy {
  import opened Wrappers
  import opened Text

  /** _MAX_CANDIDATES: how many candidates of one list are tested. */
  const MaxCandidates: nat := 30

  /** _FREE_LISTS as first declared (lines 61-67); the order is reshuffled in place. */
  const FreeLists: seq<string> := [
    "https://raw.githubusercontent.com/TheSpeedX/PROXY-List/main/http.txt",
    "https://raw.githubusercontent.com/ShiftyTR/Proxy-List/master/proxies/http.txt",
    "https://raw.githubusercontent.com/roosterkid/openproxylist/main/HTTPS_RAW.txt",
    "https://raw.githubusercontent.com/mmpx12/proxy-list/master/http.txt",
    "https://raw.githubusercontent.com/jetkai/proxy-list/main/online-proxies/txt/proxies-http.txt"
  ]

  /** The scheme prefix added to a bare `host:port`. */
  const DefaultScheme: string := "http://"

  /** `proxy if "://" in proxy else f"http://{proxy}"`. */
  function Normalise(proxy: string): (r: string)
    ensures Contains(r, "://")
    ensures |r| >= |proxy| && r[|r| - |proxy|..] == proxy
    ensures Contains(proxy, "://") <==> r == proxy
    ensures !Contains(proxy, "://") ==> r == DefaultScheme + proxy
  {
    if Contains(proxy, "://") then proxy
    else
      ContainsAt(DefaultScheme + proxy, "://", 4);
      assert (DefaultScheme + proxy)[|DefaultScheme|..] == proxy;
      DefaultScheme + proxy
  }

  /** Normalising twice is normalising once. */
  lemma NormaliseIdempotent(proxy: string)
    ensures Normalise(Normalise(proxy)) == Normalise(proxy)
  {
  }

  /** What the probe `GET https://api.ipify.org?format=json` through a candidate gave:
      an exception (refused, TLS failure, timeout, ...) or a response with its status
      and its `Content-Type` header (the empty text when the header is absent). */
  datatype Probe = ProbeRaised | ProbeResponse(status: int, contentType: string)

  /** `raise_for_status()` raises, and `ok` is false, exactly for a status in 400..599. */
  predicate RaisesForStatus(status: int) {
    400 <= status < 600
  }

  /** Lines 74-86: `r.ok and "application/json" in Content-Type`, false on any exception. */
  predicate ProxyWorks(probe: Probe) {
    match probe
    case ProbeRaised => false
    case ProbeResponse(status, contentType) =>
      !RaisesForStatus(status) && Contains(contentType, "application/json")
  }

  /** A probe succeeds exactly when a non-error response declared JSON. */
  lemma ProxyWorksMeans(probe: Probe)
    ensures ProxyWorks(probe) <==>
      probe.ProbeResponse? && (probe.status < 400 || probe.status >= 600) && Contains(probe.contentType, "application/json")
  {
  }

  /** A proxy whose probe came back as an HTML error page is rejected, whatever its status. */
  lemma HtmlPageRejected(status: int)
    ensures !ProxyWorks(ProbeResponse(status, "text/html"))
  {
    var ct := "text/html";
    assert !Contains(ct[1..][1..][1..], "application/json");
  }

  /** The outcome of `FreeProxy(...).get()`: the library is not installed, the call
      raised, or it gave a proxy (possibly empty) together with the probe through it. */
  datatype FreeProxyOutcome = FreeProxyMissing | FreeProxyRaised | FreeProxyGot(proxy: string, probe: Probe)

  /** Lines 94-107: the FreeProxy proxy, normalised, when it is non-empty and works. */
  function FromFreeProxy(free: FreeProxyOutcome): (r: Option<string>)
    ensures r.Some? <==> free.FreeProxyGot? && free.proxy != [] && ProxyWorks(free.probe)
    ensures r.Some? ==> r.value == Normalise(free.proxy)
  {
    match free
    case FreeProxyGot(proxy, probe) =>
      if proxy != [] && ProxyWorks(probe) then Some(Normalise(proxy)) else None
    case _ => None
  }

  /** The `k`-th draw, 0 once the draws run out. */
  function DrawAt(draws: seq<nat>, k: int): nat {
    if 0 <= k < |draws| then draws[k] else 0
  }

  function Swap<T>(s: seq<T>, i: nat, j: nat): (r: seq<T>)
    requires i < |s| && j < |s|
    ensures multiset(r) == multiset(s)
    ensures |r| == |s| && r[i] == s[j] && r[j] == s[i]
  {
    s[i := s[j]][j := s[i]]
  }

  /** `random.shuffle` from position `i` down to 1: position `i` is swapped with
      position `draw % (i + 1)`, the draw for position `i` being draw number `|s| - 1 - i`. */
  function ShuffleDown<T>(s: seq<T>, draws: seq<nat>, i: int): (r: seq<T>)
    requires i < |s|
    ensures multiset(r) == multiset(s)
    decreases i
  {
    if i < 1 then s
    else
      var j := DrawAt(draws, |s| - 1 - i) % (i + 1);
      ShuffleDown(Swap(s, i, j), draws, i - 1)
  }

  /** `random.shuffle(s)`: always a permutation of `s`. */
  function Shuffle<T>(s: seq<T>, draws: seq<nat>): (r: seq<T>)
    ensures multiset(r) == multiset(s) && |r| == |s|
  {
    assert |multiset(ShuffleDown(s, draws, |s| - 1))| == |s|;
    ShuffleDown(s, draws, |s| - 1)
  }

  /** `pool[:n]`. */
  function Take<T>(s: seq<T>, n: nat): (r: seq<T>)
    ensures |r| == if |s| < n then |s| else n
    ensures r == s[..|r|]
    ensures |s| <= n ==> r == s
    ensures multiset(r) <= multiset(s)
  {
    if |s| < n then s
    else
      assert s == s[..n] + s[n..];
      s[..n]
  }

  /** `random.shuffle(s)` followed by `s[:n]`: a sample of at most `n` elements of `s`. */
  function Sample<T>(s: seq<T>, draws: seq<nat>, n: nat): (r: seq<T>)
    ensures |r| <= n
    ensures multiset(r) <= multiset(s)
    ensures |s| <= n ==> multiset(r) == multiset(s)
    ensures r == [] <==> s == [] || n == 0
    ensures forall k :: 0 <= k < |r| ==> r[k] in s
  {
    var t := Shuffle(s, draws);
    PermutationKeepsElements(t, s);
    Take(t, n)
  }

  lemma PermutationKeepsElements<T>(t: seq<T>, s: seq<T>)
    requires multiset(t) == multiset(s)
    ensures forall k :: 0 <= k < |t| ==> t[k] in s
  {
    forall k | 0 <= k < |t|
      ensures t[k] in s
    {
      assert t[k] in multiset(t);
    }
  }

  /** Lines 118-120: the stripped non-blank lines of a list, shuffled and cut to
      `MaxCandidates`. */
  function Candidates(text: string, draws: seq<nat>): (pool: seq<string>)
    ensures |pool| <= MaxCandidates
    ensures multiset(pool) <= multiset(NonBlankLines(text, LineBreaks))
    ensures |NonBlankLines(text, LineBreaks)| <= MaxCandidates ==> multiset(pool) == multiset(NonBlankLines(text, LineBreaks))
    ensures pool == [] <==> NonBlankLines(text, LineBreaks) == []
    ensures forall k :: 0 <= k < |pool| ==> pool[k] != [] && Trimmed(pool[k])
  {
    Sample(NonBlankLines(text, LineBreaks), draws, MaxCandidates)
  }

  /** The outcome of the probe of candidate `k`; a missing one counts as an exception. */
  function ProbeAt(probes: seq<Probe>, k: int): Probe {
    if 0 <= k < |probes| then probes[k] else ProbeRaised
  }

  /** The first index in `k..n-1` whose probe succeeded. */
  function FirstWorkingFrom(probes: seq<Probe>, n: nat, k: nat): (r: Option<nat>)
    requires k <= n
    ensures r.Some? ==> k <= r.value < n && ProxyWorks(ProbeAt(probes, r.value))
    ensures r.Some? ==> forall j :: k <= j < r.value ==> !ProxyWorks(ProbeAt(probes, j))
    ensures r.None? ==> forall j :: k <= j < n ==> !ProxyWorks(ProbeAt(probes, j))
    decreases n - k
  {
    if k == n then None
    else if ProxyWorks(ProbeAt(probes, k)) then Some(k)
    else FirstWorkingFrom(probes, n, k + 1)
  }

  /** One list provider as met by the picker: whether `timed_out()` held when the loop
      reached it, and what fetching it gave (an exception, or its text together with
      the draws of the shuffle of its pool and the probes of the pool's candidates,
      in pool order). */
  datatype ListFetch = ListRaised | ListText(text: string, draws: seq<nat>, probes: seq<Probe>)
  datatype Provider = Provider(timedOut: bool, fetch: ListFetch)

  /** Everything `_pick_free_proxy` learns from the outside world in one call:
      the FreeProxy outcome, the draws of the shuffle of the providers, and one
      `Provider` per list in visiting order (a missing one counts as the budget
      having run out). */
  datatype PickerOracle = PickerOracle(free: FreeProxyOutcome, listDraws: seq<nat>, providers: seq<Provider>)

  function ProviderAt(providers: seq<Provider>, k: int): Provider {
    if 0 <= k < |providers| then providers[k] else Provider(true, ListRaised)
  }

  /** Lines 116-130 for one provider: the first candidate of its pool whose probe
      succeeded, normalised; none when the fetch raised or no candidate works. */
  function FromList(fetch: ListFetch): (r: Option<string>)
    ensures r.Some? ==> fetch.ListText? && Contains(r.value, "://")
    ensures r.Some? ==>
      (exists k :: 0 <= k < |NonBlankLines(fetch.text, LineBreaks)| && r.value == Normalise(NonBlankLines(fetch.text, LineBreaks)[k]))
  {
    match fetch
    case ListRaised => None
    case ListText(text, draws, probes) =>
      var pool := Candidates(text, draws);
      var found := FirstWorkingFrom(probes, |pool|, 0);
      if found.None? then None
      else
        var lines := NonBlankLines(text, LineBreaks);
        assert pool[found.value] in multiset(lines);
        Some(Normalise(pool[found.value]))
  }

  /** A provider's offer is the normalised first candidate of its pool, in pool order,
      whose probe succeeded; it offers nothing exactly when no probe of the pool did. */
  lemma FromListFirstWorking(text: string, draws: seq<nat>, probes: seq<Probe>)
    ensures var pool := Candidates(text, draws);
      FromList(ListText(text, draws, probes)).None? <==> forall j :: 0 <= j < |pool| ==> !ProxyWorks(ProbeAt(probes, j))
    ensures var pool := Candidates(text, draws);
      var r := FromList(ListText(text, draws, probes));
      r.Some? ==>
        (exists k :: 0 <= k < |pool| && r.value == Normalise(pool[k]) && ProxyWorks(ProbeAt(probes, k)) &&
           forall j :: 0 <= j < k ==> !ProxyWorks(ProbeAt(probes, j)))
  {
  }

  /** A list whose text has no non-blank line yields nothing. */
  lemma BlankListYieldsNothing(text: string, draws: seq<nat>, probes: seq<Probe>)
    requires Blank(text)
    ensures FromList(ListText(text, draws, probes)) == None
  {
    BlankHasNoLines(text, LineBreaks);
  }

  /** What provider `j` offers: whether `timed_out()` held on reaching it, and what
      it yields when fetched. */
  datatype Offer = Offer(timedOut: bool, proxy: Option<string>)

  /** The offers of the first `n` providers. */
  function Offers(providers: seq<Provider>, n: nat): (offers: seq<Offer>)
    ensures |offers| == n
    ensures forall j :: 0 <= j < n ==>
      offers[j] == Offer(ProviderAt(providers, j).timedOut, FromList(ProviderAt(providers, j).fetch))
  {
    seq(n, j requires 0 <= j < n => Offer(ProviderAt(providers, j).timedOut, FromList(ProviderAt(providers, j).fetch)))
  }

  /** Lines 112-131: the offers from position `k` on, stopping at the first that has
      run out of time or gave a working proxy. */
  function FromLists(offers: seq<Offer>, k: nat): Option<string>
    decreases |offers| - k
  {
    if k >= |offers| || offers[k].timedOut then None
    else if offers[k].proxy.Some? then offers[k].proxy
    else FromLists(offers, k + 1)
  }

  /** How many offers are reached before the budget runs out. */
  function Reached(offers: seq<Offer>, k: nat): (r: nat)
    requires k <= |offers|
    ensures k <= r <= |offers|
    ensures forall j :: k <= j < r ==> !offers[j].timedOut
    ensures r < |offers| ==> offers[r].timedOut
    decreases |offers| - k
  {
    if k == |offers| || offers[k].timedOut then k else Reached(offers, k + 1)
  }

  /** The specification of `_pick_free_proxy` over `freeLists`: FreeProxy first, then the lists. */
  function Pick(freeLists: seq<string>, o: PickerOracle): Option<string> {
    var free := FromFreeProxy(o.free);
    if free.Some? then free else FromLists(Offers(o.providers, |freeLists|), 0)
  }

  /** The order `_FREE_LISTS` is left in: shuffled unless FreeProxy already delivered. */
  function ListsAfter(freeLists: seq<string>, o: PickerOracle): (r: seq<string>)
    ensures |r| == |freeLists| && multiset(r) == multiset(freeLists)
    ensures FromFreeProxy(o.free).Some? ==> r == freeLists
  {
    if FromFreeProxy(o.free).Some? then freeLists else Shuffle(freeLists, o.listDraws)
  }

  /** Lines 124-128: the probes of the pool are read in pool order and the first
      success wins. */
  method FirstWorking(pool: seq<string>, probes: seq<Probe>) returns (found: Option<nat>)
    ensures found.Some? ==> found.value < |pool| && ProxyWorks(ProbeAt(probes, found.value))
    ensures found.Some? ==> forall j :: 0 <= j < found.value ==> !ProxyWorks(ProbeAt(probes, j))
    ensures found.None? ==> forall j :: 0 <= j < |pool| ==> !ProxyWorks(ProbeAt(probes, j))
  {
    var k := 0;
    while k < |pool|
      invariant 0 <= k <= |pool|
      invariant forall j :: 0 <= j < k ==> !ProxyWorks(ProbeAt(probes, j))
    {
      var probe := if k < |probes| then probes[k] else ProbeRaised;
      if ProxyWorks(probe) {
        return Some(k);
      }
      k := k + 1;
    }
    return None;
  }

  /** The first success in pool order is unique. */
  lemma FirstWorkingUnique(probes: seq<Probe>, n: nat, a: Option<nat>)
    requires a.Some? ==> a.value < n && ProxyWorks(ProbeAt(probes, a.value))
    requires a.Some? ==> forall j :: 0 <= j < a.value ==> !ProxyWorks(ProbeAt(probes, j))
    requires a.None? ==> forall j :: 0 <= j < n ==> !ProxyWorks(ProbeAt(probes, j))
    ensures a == FirstWorkingFrom(probes, n, 0)
  {
  }

  /** Lines 116-130 for one provider. */
  method TryList(fetch: ListFetch) returns (proxy: Option<string>)
    ensures proxy == FromList(fetch)
  {
    if fetch.ListRaised? {
      return None;
    }
    var pool := Candidates(fetch.text, fetch.draws);
    if pool == [] {
      return None;
    }
    var found := FirstWorking(pool, fetch.probes);
    FirstWorkingUnique(fetch.probes, |pool|, found);
    if found.Some? {
      return Some(Normalise(pool[found.value]));
    }
    return None;
  }

  /** Lines 89-132, given the current order of `_FREE_LISTS`; returns the proxy and
      the order the lists are left in. */
  method PickFreeProxy(freeLists: seq<string>, o: PickerOracle) returns (proxy: Option<string>, lists: seq<string>)
    ensures proxy == Pick(freeLists, o)
    ensures lists == ListsAfter(freeLists, o)
  {
    if o.free.FreeProxyGot? {
      var candidate := o.free.proxy;
      if candidate != [] && ProxyWorks(o.free.probe) {
        return Some(Normalise(candidate)), freeLists;
      }
    }
    lists := Shuffle(freeLists, o.listDraws);
    ghost var offers := Offers(o.providers, |lists|);
    var k := 0;
    while k < |lists|
      invariant 0 <= k <= |lists|
      invariant Pick(freeLists, o) == FromLists(offers, k)
    {
      var provider := ProviderAt(o.providers, k);
      if provider.timedOut {
        break;
      }
      var found := TryList(provider.fetch);
      if found.Some? {
        return found, lists;
      }
      k := k + 1;
    }
    proxy := None;
  }

  /** A picked proxy always carries a scheme, and comes from FreeProxy or from the
      first provider, reached within the time budget, that yields one. */
  lemma PickSound(freeLists: seq<string>, o: PickerOracle)
    requires Pick(freeLists, o).Some?
    ensures Contains(Pick(freeLists, o).value, "://")
    ensures FromFreeProxy(o.free).Some? ||
      var offers := Offers(o.providers, |freeLists|);
      exists k :: 0 <= k < Reached(offers, 0) && Pick(freeLists, o) == FromList(ProviderAt(o.providers, k).fetch) &&
        forall j :: 0 <= j < k ==> FromList(ProviderAt(o.providers, j).fetch).None?
  {
    if FromFreeProxy(o.free).None? {
      var offers := Offers(o.providers, |freeLists|);
      var k := FromListsFound(offers, 0);
      assert offers[k].proxy == FromList(ProviderAt(o.providers, k).fetch);
    }
  }

  /** A success of the lists loop names the offer it came from. */
  lemma {:induction false} FromListsFound(offers: seq<Offer>, k: nat) returns (w: nat)
    requires k <= |offers|
    requires FromLists(offers, k).Some?
    ensures k <= w < Reached(offers, k)
    ensures FromLists(offers, k) == offers[w].proxy
    ensures forall j :: k <= j < w ==> offers[j].proxy.None?
    decreases |offers| - k
  {
    if offers[k].proxy.Some? {
      w := k;
    } else {
      w := FromListsFound(offers, k + 1);
    }
  }

  /** The lists yield nothing exactly when every offer reached within the budget is empty. */
  lemma {:induction false} FromListsNone(offers: seq<Offer>, k: nat)
    requires k <= |offers|
    ensures FromLists(offers, k).None? <==> forall j :: k <= j < Reached(offers, k) ==> offers[j].proxy.None?
    decreases |offers| - k
  {
    if k < |offers| && !offers[k].timedOut {
      FromListsNone(offers, k + 1);
    }
  }

  /** No proxy is found exactly when FreeProxy gave none and no provider reached in
      time had a working candidate; the caller then goes direct. */
  lemma PickNoneIff(freeLists: seq<string>, o: PickerOracle)
    ensures Pick(freeLists, o).None? <==>
      FromFreeProxy(o.free).None? &&
      var offers := Offers(o.providers, |freeLists|);
      forall j :: 0 <= j < Reached(offers, 0) ==> FromList(ProviderAt(o.providers, j).fetch).None?
  {
    FromListsNone(Offers(o.providers, |freeLists|), 0);
  }

  /** A working FreeProxy proxy wins without any list being fetched. */
  lemma FreeProxyFirst(freeLists: seq<string>, o: PickerOracle)
    requires o.free.FreeProxyGot? && o.free.proxy != [] && ProxyWorks(o.free.probe)
    ensures Pick(freeLists, o) == Some(Normalise(o.free.proxy))
    ensures ListsAfter(freeLists, o) == freeLists
  {
  }

  /** When every provider serves an empty list and FreeProxy yields nothing usable,
      the picker returns none rather than failing. */
  lemma {:induction false} EmptyListsGiveNone(freeLists: seq<string>, o: PickerOracle)
    requires FromFreeProxy(o.free).None?
    requires forall k :: 0 <= k < |o.providers| ==>
      o.providers[k].fetch.ListText? && Blank(o.providers[k].fetch.text)
    ensures Pick(freeLists, o) == None
  {
    forall j | 0 <= j < Reached(Offers(o.providers, |freeLists|), 0)
      ensures FromList(ProviderAt(o.providers, j).fetch).None?
    {
      if j < |o.providers| {
        var f := o.providers[j].fetch;
        BlankListYieldsNothing(f.text, f.draws, f.probes);
      }
    }
    PickNoneIff(freeLists, o);
  }

  /** Once the budget has run out at the first provider, nothing but FreeProxy can help. */
  lemma TimedOutAtOnce(freeLists: seq<string>, o: PickerOracle)
    requires ProviderAt(o.providers, 0).timedOut
    ensures Pick(freeLists, o) == FromFreeProxy(o.free)
  {
  }
}
