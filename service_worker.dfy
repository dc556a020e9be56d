/**
 * The progressive web app's service worker: which fetches it intercepts and with
 * which strategy, the named caches it keeps (Cache Storage), the pruning of old
 * caches on activation, and the background-sync replay of queued requests. The
 * network is an input: each handler is given what `fetch` would resolve or reject with.
 */
module ServiceWorker {
  import opened Wrappers
  import opened Text

  const StaticCache: string := "opendms-static-v1.0.0"
  const DynamicCache: string := "opendms-dynamic-v1.0.0"

  /** The caches activation keeps: exactly the two current names. */
  const Keep: set<string> := {StaticCache, DynamicCache}

  const OfflineBody: string := "{\"error\":\"You are offline. Please check your connection and try again.\",\"offline\":true}"

  /**
   * A URL as the cache keys it: origin, path and query string (`search`, "" or
   * starting with "?"). The fragment is never part of a request URL.
   */
  datatype Url = Url(origin: string, pathname: string, search: string)

  /** A request as the fetch handler sees it; `accept` is None when the header is absent. */
  datatype Request = Request(httpMethod: string, url: Url, accept: Option<string>)

  datatype Response = Response(status: int, statusText: string, contentType: string, body: string)

  /** What `fetch(request)` does: resolve with a response (of any status) or reject. */
  datatype Fetched = NetworkError | Fetched(response: Response)

  /** The 503 the API handler makes up when it is offline and has nothing cached. */
  const OfflineApiResponse: Response := Response(503, "Service Unavailable", "application/json", OfflineBody)

  /** `new Response("Not found", { status: 404 })` */
  const NotFoundResponse: Response := Response(404, "", "text/plain;charset=UTF-8", "Not found")

  // ---------------------------------------------------------------- routing

  /**
   * Which handler a fetch event goes to. `Browser`: the listener returns without
   * `respondWith` (a non-GET request, or no Accept header, where reading it throws
   * before any answer), so the browser performs the request itself.
   */
  datatype Route = Browser | Api | Static | Html | Default

  predicate IsCdn(origin: string) {
    origin == "https://unpkg.com" || origin == "https://cdn.tailwindcss.com"
  }

  /** The fetch listener's tests, in order. */
  function Classify(req: Request): Route {
    if req.httpMethod != "GET" then Browser
    else if StartsWith(req.url.pathname, "/api/") then Api
    else if StartsWith(req.url.pathname, "/static/") || IsCdn(req.url.origin) then Static
    else if req.accept.None? then Browser
    else if Contains(req.accept.value, "text/html") then Html
    else Default
  }

  /** Each route exactly when its test is the first that passes. */
  lemma ClassifyIff(req: Request)
    ensures req.httpMethod != "GET" ==> Classify(req) == Browser
    ensures Classify(req) == Api <==> req.httpMethod == "GET" && StartsWith(req.url.pathname, "/api/")
    ensures Classify(req) == Static <==>
      req.httpMethod == "GET" && !StartsWith(req.url.pathname, "/api/") && (StartsWith(req.url.pathname, "/static/") || IsCdn(req.url.origin))
    ensures Classify(req) == Html <==>
      && req.httpMethod == "GET" && !StartsWith(req.url.pathname, "/api/") && !StartsWith(req.url.pathname, "/static/")
      && !IsCdn(req.url.origin) && req.accept.Some? && Contains(req.accept.value, "text/html")
    ensures Classify(req) == Default <==>
      && req.httpMethod == "GET" && !StartsWith(req.url.pathname, "/api/") && !StartsWith(req.url.pathname, "/static/")
      && !IsCdn(req.url.origin) && req.accept.Some? && !Contains(req.accept.value, "text/html")
  {
  }

  /** An API path is never routed as static, even when it continues with "/static/", whatever its query. */
  lemma ApiBeforeStatic(origin: string, rest: string, search: string, accept: Option<string>)
    ensures Classify(Request("GET", Url(origin, "/api/" + rest, search), accept)) == Api
  {
    assert ("/api/" + rest)[..5] == "/api/";
  }

  // ---------------------------------------------------------------- cache storage

  /** Cache Storage: cache names in creation order, and each cache's responses by URL. */
  datatype CacheState = CacheState(names: seq<string>, entries: map<string, map<Url, Response>>)

  /** No name occurs twice. */
  ghost predicate Distinct(s: seq<string>) {
    forall x :: multiset(s)[x] <= 1
  }

  /** Each name once, and a cache for exactly the listed names. */
  ghost predicate Valid(c: CacheState) {
    Distinct(c.names) && forall n :: n in c.entries <==> n in c.names
  }

  /** `caches.match(url)`: the first cache, in creation order, holding the URL. */
  function MatchIn(names: seq<string>, entries: map<string, map<Url, Response>>, key: Url): (r: Option<Response>)
    ensures r.Some? ==> exists n :: n in names && n in entries && key in entries[n] && entries[n][key] == r.value
    ensures r.None? ==> forall n :: n in names && n in entries ==> key !in entries[n]
  {
    if names == [] then None
    else if names[0] in entries && key in entries[names[0]] then Some(entries[names[0]][key])
    else MatchIn(names[1..], entries, key)
  }

  function MatchAll(c: CacheState, key: Url): Option<Response> {
    MatchIn(c.names, c.entries, key)
  }

  /** `caches.open(name)`: the cache, created empty (and listed last) when it does not exist. */
  function Open(c: CacheState, name: string): CacheState {
    if name in c.entries then c else CacheState(c.names + [name], c.entries[name := map[]])
  }

  /** `cache.put(url, response)` on the cache `name`, opening it first. */
  function PutIn(c: CacheState, name: string, key: Url, resp: Response): CacheState {
    var o := Open(c, name);
    o.(entries := o.entries[name := o.entries[name][key := resp]])
  }

  /** The names of s that are in keep, in their order. */
  function Kept(s: seq<string>, keep: set<string>): seq<string> {
    if s == [] then [] else Kept(s[..|s| - 1], keep) + (if s[|s| - 1] in keep then [s[|s| - 1]] else [])
  }

  /** What activation leaves: the caches on the keep list, untouched. */
  function Pruned(c: CacheState): CacheState {
    CacheState(Kept(c.names, Keep), map n | n in c.entries && n in Keep :: c.entries[n])
  }

  /** The list without the name: what `caches.delete(name)` does to the name list. */
  function RemoveName(s: seq<string>, name: string): seq<string> {
    if s == [] then [] else (if s[0] == name then [] else [s[0]]) + RemoveName(s[1..], name)
  }

  // ---------------------------------------------------------------- cache lemmas

  lemma {:induction false} KeptIff(s: seq<string>, keep: set<string>, n: string)
    ensures n in Kept(s, keep) <==> n in s && n in keep
  {
    if s != [] {
      KeptIff(s[..|s| - 1], keep, n);
      assert s == s[..|s| - 1] + [s[|s| - 1]];
    }
  }

  /** The two sides of a cut of a list without repeats have no repeats and nothing in common. */
  lemma DistinctSplit(s: seq<string>, i: int)
    requires Distinct(s) && 0 <= i <= |s|
    ensures Distinct(s[..i]) && Distinct(s[i..])
    ensures forall x :: x in s[..i] ==> x !in s[i..]
  {
    var a, b := s[..i], s[i..];
    assert s == a + b;
    assert multiset(s) == multiset(a) + multiset(b);
    forall x ensures multiset(a)[x] <= 1 && multiset(b)[x] <= 1 {
      assert multiset(s)[x] <= 1;
    }
    forall x | x in a ensures x !in b {
      assert multiset(s)[x] <= 1;
    }
  }

  lemma DistinctParts(s: seq<string>, i: int)
    requires Distinct(s) && 0 <= i < |s|
    ensures Distinct(s[..i]) && Distinct(s[i + 1..])
    ensures s[i] !in s[..i] && s[i] !in s[i + 1..]
  {
    DistinctSplit(s, i);
    DistinctSplit(s[i..], 1);
    assert s[i..][..1] == [s[i]] && s[i..][1..] == s[i + 1..];
  }

  lemma DistinctJoin(a: seq<string>, b: seq<string>)
    requires Distinct(a) && Distinct(b)
    requires forall x :: x in a ==> x !in b
    ensures Distinct(a + b)
  {
    assert multiset(a + b) == multiset(a) + multiset(b);
    forall x ensures multiset(a + b)[x] <= 1 {
      if x in a {
        assert multiset(b)[x] == 0;
      } else {
        assert multiset(a)[x] == 0;
      }
    }
  }

  lemma {:induction false} KeptDistinct(s: seq<string>, keep: set<string>)
    requires Distinct(s)
    ensures Distinct(Kept(s, keep))
  {
    if s != [] {
      var init := s[..|s| - 1];
      DistinctParts(s, |s| - 1);
      KeptDistinct(init, keep);
      KeptIff(init, keep, s[|s| - 1]);
      DistinctJoin(Kept(init, keep), if s[|s| - 1] in keep then [s[|s| - 1]] else []);
    }
  }

  lemma {:induction false} RemoveAbsent(s: seq<string>, name: string)
    requires name !in s
    ensures RemoveName(s, name) == s
  {
    if s != [] {
      RemoveAbsent(s[1..], name);
    }
  }

  /** Removing a name that occurs once, between two parts free of it, leaves both parts. */
  lemma {:induction false} RemoveOnce(a: seq<string>, name: string, b: seq<string>)
    requires name !in a && name !in b
    ensures RemoveName(a + [name] + b, name) == a + b
  {
    if a == [] {
      assert ([name] + b)[1..] == b;
      RemoveAbsent(b, name);
    } else {
      assert (a + [name] + b)[1..] == a[1..] + [name] + b;
      RemoveOnce(a[1..], name, b);
    }
  }

  lemma {:induction false} RemoveNameIff(s: seq<string>, name: string, n: string)
    ensures n in RemoveName(s, name) <==> n in s && n != name
  {
    if s != [] {
      RemoveNameIff(s[1..], name, n);
      assert s == [s[0]] + s[1..];
    }
  }

  lemma {:induction false} RemoveDistinct(s: seq<string>, name: string)
    requires Distinct(s)
    ensures Distinct(RemoveName(s, name))
  {
    if s != [] {
      DistinctParts(s, 0);
      RemoveDistinct(s[1..], name);
      RemoveNameIff(s[1..], name, s[0]);
      DistinctJoin(if s[0] == name then [] else [s[0]], RemoveName(s[1..], name));
    }
  }

  /** `caches.delete(name)` keeps the storage valid. */
  lemma RemoveKeepsValid(c: CacheState, name: string)
    requires Valid(c)
    ensures Valid(CacheState(RemoveName(c.names, name), c.entries - {name}))
  {
    RemoveDistinct(c.names, name);
    forall n ensures n in c.entries - {name} <==> n in RemoveName(c.names, name) {
      RemoveNameIff(c.names, name, n);
    }
  }

  /** A put keeps the storage valid, stores the response under the URL, and changes no other entry. */
  lemma PutStores(c: CacheState, name: string, key: Url, resp: Response)
    requires Valid(c)
    ensures var p := PutIn(c, name, key, resp);
      && Valid(p)
      && name in p.entries && p.entries[name][key] == resp
      && p.entries[name] == (if name in c.entries then c.entries[name] else map[])[key := resp]
      && (forall n :: n in c.entries && n != name ==> n in p.entries && p.entries[n] == c.entries[n])
      && p.names == (if name in c.names then c.names else c.names + [name])
  {
    if name !in c.entries {
      DistinctJoin(c.names, [name]);
    }
  }

  /** A URL held by exactly one cache is matched to that cache's response. */
  lemma {:induction false} MatchOnly(names: seq<string>, entries: map<string, map<Url, Response>>, key: Url, n: string)
    requires n in names && n in entries && key in entries[n]
    requires forall m :: m in names && m in entries && m != n ==> key !in entries[m]
    ensures MatchIn(names, entries, key) == Some(entries[n][key])
  {
    if names[0] != n {
      MatchOnly(names[1..], entries, key, n);
    }
  }

  /** The storage after activation has looked at the first i names of c. */
  ghost function Partial(c: CacheState, i: nat): CacheState
    requires i <= |c.names|
  {
    CacheState(Kept(c.names[..i], Keep) + c.names[i..], map n | n in c.entries && (n in Keep || n !in c.names[..i]) :: c.entries[n])
  }

  lemma PartialValid(c: CacheState, i: nat)
    requires Valid(c) && i <= |c.names|
    ensures Valid(Partial(c, i))
  {
    var pre, suf := c.names[..i], c.names[i..];
    var kp := Kept(pre, Keep);
    var p := Partial(c, i);
    assert c.names == pre + suf;
    DistinctSplit(c.names, i);
    KeptDistinct(pre, Keep);
    forall x | x in kp ensures x !in suf {
      KeptIff(pre, Keep, x);
    }
    DistinctJoin(kp, suf);
    forall n ensures n in p.entries <==> n in p.names {
      KeptIff(pre, Keep, n);
    }
  }

  /** One step of activation: a kept name changes nothing, any other is deleted. */
  lemma PartialStep(c: CacheState, i: nat)
    requires i < |c.names| && c.names[i] !in c.names[i + 1..]
    ensures var n := c.names[i];
      var p := Partial(c, i);
      Partial(c, i + 1) == if n in Keep then p else CacheState(RemoveName(p.names, n), p.entries - {n})
  {
    var n := c.names[i];
    var pre, suf := c.names[..i], c.names[i + 1..];
    var p, q := Partial(c, i), Partial(c, i + 1);
    var kp := Kept(pre, Keep);
    assert c.names[..i + 1] == pre + [n];
    assert (pre + [n])[..|pre|] == pre;
    assert Kept(c.names[..i + 1], Keep) == kp + (if n in Keep then [n] else []);
    assert c.names[i..] == [n] + suf;
    assert p.names == kp + [n] + suf;
    if n in Keep {
      assert q.names == p.names;
      assert q.entries == p.entries;
    } else {
      KeptIff(pre, Keep, n);
      RemoveOnce(kp, n, suf);
      assert q.names == kp + suf;
      assert q.entries == p.entries - {n};
    }
  }

  /** One turn of the activation loop: the state so far is valid, and the next name is kept or removed. */
  lemma ActivateTurn(c: CacheState, i: nat)
    requires Valid(c) && i < |c.names|
    ensures Valid(Partial(c, i))
    ensures c.names[i] in Keep <==> c.names[i] == StaticCache || c.names[i] == DynamicCache
    ensures c.names[i] in Keep ==> Partial(c, i + 1) == Partial(c, i)
    ensures c.names[i] !in Keep ==>
      Partial(c, i + 1) == CacheState(RemoveName(Partial(c, i).names, c.names[i]), Partial(c, i).entries - {c.names[i]})
  {
    PartialValid(c, i);
    DistinctParts(c.names, i);
    PartialStep(c, i);
  }

  lemma PartialStart(c: CacheState)
    ensures Partial(c, 0) == c
  {
    assert c.names[..0] == [] && c.names[0..] == c.names;
    assert Partial(c, 0).entries == c.entries;
  }

  lemma PartialEnd(c: CacheState)
    requires Valid(c)
    ensures Partial(c, |c.names|) == Pruned(c)
  {
    assert c.names[..|c.names|] == c.names && c.names[|c.names|..] == [];
    assert Partial(c, |c.names|).entries == Pruned(c).entries;
  }

  /** Activation keeps a valid storage, exactly the kept names in their order, and the kept caches' contents; doing it again changes nothing. */
  lemma PrunedKeeps(c: CacheState)
    requires Valid(c)
    ensures var p := Pruned(c);
      && Valid(p)
      && (forall n :: n in p.names <==> n in c.names && n in Keep)
      && (forall n :: n in p.entries ==> p.entries[n] == c.entries[n])
      && Pruned(p) == p
  {
    var p := Pruned(c);
    PartialEnd(c);
    PartialValid(c, |c.names|);
    forall n ensures n in p.names <==> n in c.names && n in Keep {
      KeptIff(c.names, Keep, n);
    }
    forall i | 0 <= i < |p.names| ensures p.names[i] in Keep {
      KeptIff(c.names, Keep, p.names[i]);
    }
    KeptAll(p.names, Keep);
    PrunedAgain(p);
  }

  /** A storage whose names are all kept, and whose entries are all kept, is left as it is. */
  lemma PrunedAgain(p: CacheState)
    requires Kept(p.names, Keep) == p.names
    requires forall n :: n in p.entries ==> n in Keep
    ensures Pruned(p) == p
  {
    assert Pruned(p).entries == p.entries;
  }

  lemma {:induction false} KeptAll(s: seq<string>, keep: set<string>)
    requires forall i :: 0 <= i < |s| ==> s[i] in keep
    ensures Kept(s, keep) == s
  {
    if s != [] {
      KeptAll(s[..|s| - 1], keep);
    }
  }

  // ---------------------------------------------------------------- strategies

  /** What a strategy leaves: the caches after it, and what it answers. */
  datatype Handled<T> = Handled(state: CacheState, response: T)

  /** Network first: a resolved fetch is answered as is, and stored in the dynamic cache when its status is 200. */
  function FromNetwork(c: CacheState, key: Url, resp: Response, cacheName: string): Handled<Response> {
    Handled(if resp.status == 200 then PutIn(c, cacheName, key, resp) else c, resp)
  }

  /** `handleApiRequest`: network first; offline, the cached response or the 503 JSON error. */
  function ApiStep(c: CacheState, key: Url, net: Fetched): Handled<Response> {
    match net
    case Fetched(resp) => FromNetwork(c, key, resp, DynamicCache)
    case NetworkError => Handled(c, MatchAll(c, key).GetOr(OfflineApiResponse))
  }

  /** `handleStaticRequest`: cache first; on a miss the network, stored in the static cache when 200; offline, 404. */
  function StaticStep(c: CacheState, key: Url, net: Fetched): Handled<Response> {
    match MatchAll(c, key)
    case Some(cached) => Handled(c, cached)
    case None =>
      match net
      case Fetched(resp) => FromNetwork(c, key, resp, StaticCache)
      case NetworkError => Handled(c, NotFoundResponse)
  }

  /** `handleHtmlRequest`: network first; offline, the cached page, else the cached "/offline.html" (which may be missing too). */
  function HtmlStep(c: CacheState, key: Url, net: Fetched, scope: string): Handled<Option<Response>> {
    match net
    case Fetched(resp) =>
      var h := FromNetwork(c, key, resp, DynamicCache);
      Handled(h.state, Some(h.response))
    case NetworkError =>
      Handled(c, if MatchAll(c, key).Some? then MatchAll(c, key) else MatchAll(c, Url(scope, "/offline.html", "")))
  }

  /** The default branch: network first, offline the cached response if any. */
  function DefaultStep(c: CacheState, key: Url, net: Fetched): Handled<Option<Response>> {
    match net
    case Fetched(resp) =>
      var h := FromNetwork(c, key, resp, DynamicCache);
      Handled(h.state, Some(h.response))
    case NetworkError => Handled(c, MatchAll(c, key))
  }

  /** The outcome of a fetch event: left to the browser, or `respondWith` a response (None: `undefined`, a network error). */
  datatype Outcome = ToBrowser | Responded(response: Option<Response>)

  function FetchStep(c: CacheState, req: Request, net: Fetched, scope: string): Handled<Outcome> {
    match Classify(req)
    case Browser => Handled(c, ToBrowser)
    case Api => var h := ApiStep(c, req.url, net); Handled(h.state, Responded(Some(h.response)))
    case Static => var h := StaticStep(c, req.url, net); Handled(h.state, Responded(Some(h.response)))
    case Html => var h := HtmlStep(c, req.url, net, scope); Handled(h.state, Responded(h.response))
    case Default => var h := DefaultStep(c, req.url, net); Handled(h.state, Responded(h.response))
  }

  // ---------------------------------------------------------------- strategy properties

  /** Only a 200 is stored, and a stored response is stored in the named cache under the request's URL. */
  lemma NetworkStoresOnly200(c: CacheState, key: Url, resp: Response, cacheName: string)
    requires Valid(c)
    ensures var h := FromNetwork(c, key, resp, cacheName);
      && h.response == resp && Valid(h.state)
      && (resp.status != 200 ==> h.state == c)
      && (resp.status == 200 ==> cacheName in h.state.entries && h.state.entries[cacheName][key] == resp)
  {
    if resp.status == 200 {
      PutStores(c, cacheName, key, resp);
    }
  }

  /** Offline, the API handler changes nothing and answers the cached response, or the 503 with `offline: true` when there is none. */
  lemma ApiOffline(c: CacheState, key: Url)
    ensures ApiStep(c, key, NetworkError).state == c
    ensures MatchAll(c, key).Some? ==> ApiStep(c, key, NetworkError).response == MatchAll(c, key).value
    ensures MatchAll(c, key).None? ==>
      ApiStep(c, key, NetworkError).response == Response(503, "Service Unavailable", "application/json", OfflineBody)
  {
  }

  /**
   * What the API handler fetched with a 200 is what it answers later, offline, for
   * the same URL, provided no cache held that URL before.
   */
  lemma ApiOfflineReplay(c: CacheState, key: Url, resp: Response)
    requires Valid(c) && MatchAll(c, key).None? && resp.status == 200
    ensures var online := ApiStep(c, key, Fetched(resp));
      online.response == resp && ApiStep(online.state, key, NetworkError).response == resp
  {
    var p := PutIn(c, DynamicCache, key, resp);
    PutStores(c, DynamicCache, key, resp);
    MatchOnly(p.names, p.entries, key, DynamicCache);
  }

  /**
   * The cache keys on the query string too: after a page of an API resource was
   * fetched online, another page of it, not cached before, is the 503 offline.
   */
  lemma ApiOtherQueryOffline(c: CacheState, origin: string, path: string, seen: string, other: string, resp: Response)
    requires Valid(c) && seen != other && MatchAll(c, Url(origin, path, other)).None?
    ensures var online := ApiStep(c, Url(origin, path, seen), Fetched(resp));
      ApiStep(online.state, Url(origin, path, other), NetworkError).response == OfflineApiResponse
  {
    var key, miss := Url(origin, path, seen), Url(origin, path, other);
    NetworkStoresOnly200(c, key, resp, DynamicCache);
    if resp.status == 200 {
      PutStores(c, DynamicCache, key, resp);
      var p := PutIn(c, DynamicCache, key, resp);
      forall n | n in p.names && n in p.entries ensures miss !in p.entries[n] {
        if n == DynamicCache && DynamicCache !in c.entries {
          assert p.entries[n] == map[key := resp];
        }
      }
    }
  }

  /** A cache hit is answered without the network: the outcome is the same whatever the fetch would have done. */
  lemma StaticCacheFirst(c: CacheState, key: Url, net: Fetched, other: Fetched)
    requires MatchAll(c, key).Some?
    ensures StaticStep(c, key, net) == StaticStep(c, key, other) == Handled(c, MatchAll(c, key).value)
  {
  }

  /** On a miss: a resolved fetch is answered (and a 200 stored in the static cache); a rejected one is a 404 "Not found". */
  lemma StaticMiss(c: CacheState, key: Url, net: Fetched)
    requires Valid(c) && MatchAll(c, key).None?
    ensures net.Fetched? ==> StaticStep(c, key, net) == FromNetwork(c, key, net.response, StaticCache)
    ensures net.NetworkError? ==> StaticStep(c, key, net) == Handled(c, Response(404, "", "text/plain;charset=UTF-8", "Not found"))
  {
  }

  /** Offline, an HTML page is the cached page, else the cached offline page; nothing is stored. */
  lemma HtmlOffline(c: CacheState, key: Url, scope: string)
    ensures var h := HtmlStep(c, key, NetworkError, scope);
      && h.state == c
      && (MatchAll(c, key).Some? ==> h.response == MatchAll(c, key))
      && (MatchAll(c, key).None? ==> h.response == MatchAll(c, Url(scope, "/offline.html", "")))
  {
  }

  /** Online, the HTML and default branches answer what the API handler would, and store the same. */
  lemma NetworkFirstAgree(c: CacheState, key: Url, resp: Response, scope: string)
    ensures var api := ApiStep(c, key, Fetched(resp));
      && HtmlStep(c, key, Fetched(resp), scope) == Handled(api.state, Some(api.response))
      && DefaultStep(c, key, Fetched(resp)) == Handled(api.state, Some(api.response))
  {
  }

  /** Requests the worker does not intercept leave the caches alone; so does every strategy that the network fails. */
  lemma FetchStepCases(c: CacheState, req: Request, net: Fetched, scope: string)
    ensures Classify(req) == Browser ==> FetchStep(c, req, net, scope) == Handled(c, ToBrowser)
    ensures net.NetworkError? ==> FetchStep(c, req, net, scope).state == c
    ensures Classify(req) != Browser ==> FetchStep(c, req, net, scope).response.Responded?
    ensures Classify(req) == Api || Classify(req) == Static ==> FetchStep(c, req, net, scope).response.response.Some?
  {
  }

  // ---------------------------------------------------------------- the caches object

  /** `caches`, the worker's Cache Storage. */
  class CacheStorage {
    var names: seq<string>
    var entries: map<string, map<Url, Response>>

    function State(): CacheState
      reads this
    {
      CacheState(names, entries)
    }

    ghost predicate Inv()
      reads this
    {
      Valid(State())
    }

    constructor ()
      ensures Inv() && State() == CacheState([], map[])
    {
      names := [];
      entries := map[];
    }

    /** `caches.match(url)`, searching the caches one by one in creation order. */
    method Match(key: Url) returns (r: Option<Response>)
      requires Inv()
      ensures r == MatchAll(State(), key)
    {
      var i := 0;
      while i < |names|
        invariant 0 <= i <= |names|
        invariant MatchIn(names, entries, key) == MatchIn(names[i..], entries, key)
      {
        var cache := entries[names[i]];
        if key in cache {
          return Some(cache[key]);
        }
        assert names[i..][1..] == names[i + 1..];
        i := i + 1;
      }
      return None;
    }

    /** `caches.open(name).then(cache => cache.put(url, response))` */
    method Put(name: string, key: Url, resp: Response)
      requires Inv()
      modifies this
      ensures Inv() && State() == PutIn(old(State()), name, key, resp)
    {
      PutStores(State(), name, key, resp);
      if name !in entries {
        names := names + [name];
        entries := entries[name := map[]];
      }
      entries := entries[name := entries[name][key := resp]];
    }

    /** `caches.delete(name)`: whether there was such a cache; it is gone afterwards. */
    method Delete(name: string) returns (found: bool)
      requires Inv()
      modifies this
      ensures Inv()
      ensures found == (name in old(entries))
      ensures names == RemoveName(old(names), name) && entries == old(entries) - {name}
    {
      found := name in entries;
      RemoveKeepsValid(State(), name);
      names := RemoveName(names, name);
      entries := entries - {name};
    }

    /** The activate listener: every cache whose name is neither current name is deleted. */
    method Activate()
      requires Inv()
      modifies this
      ensures Inv() && State() == Pruned(old(State()))
    {
      var cacheNames := names;
      ghost var c0 := State();
      assert Valid(c0);
      PartialStart(c0);
      var i := 0;
      while i < |cacheNames|
        invariant 0 <= i <= |cacheNames| && cacheNames == c0.names
        invariant State() == Partial(c0, i)
      {
        ActivateTurn(c0, i);
        var n := cacheNames[i];
        if n != StaticCache && n != DynamicCache {
          var _ := Delete(n);
        }
        i := i + 1;
      }
      PartialValid(c0, i);
      PartialEnd(c0);
    }
  }

  // ---------------------------------------------------------------- handlers over the caches object

  method HandleApiRequest(caches: CacheStorage, req: Request, net: Fetched) returns (r: Response)
    requires caches.Inv()
    modifies caches
    ensures caches.Inv() && Handled(caches.State(), r) == ApiStep(old(caches.State()), req.url, net)
  {
    match net {
      case Fetched(resp) =>
        if resp.status == 200 {
          caches.Put(DynamicCache, req.url, resp);
        }
        r := resp;
      case NetworkError =>
        var cached := caches.Match(req.url);
        r := if cached.Some? then cached.value else OfflineApiResponse;
    }
  }

  method HandleStaticRequest(caches: CacheStorage, req: Request, net: Fetched) returns (r: Response)
    requires caches.Inv()
    modifies caches
    ensures caches.Inv() && Handled(caches.State(), r) == StaticStep(old(caches.State()), req.url, net)
  {
    var cached := caches.Match(req.url);
    if cached.Some? {
      return cached.value;
    }
    match net {
      case Fetched(resp) =>
        if resp.status == 200 {
          caches.Put(StaticCache, req.url, resp);
        }
        r := resp;
      case NetworkError =>
        r := NotFoundResponse;
    }
  }

  method HandleHtmlRequest(caches: CacheStorage, req: Request, net: Fetched, scope: string) returns (r: Option<Response>)
    requires caches.Inv()
    modifies caches
    ensures caches.Inv() && Handled(caches.State(), r) == HtmlStep(old(caches.State()), req.url, net, scope)
  {
    match net {
      case Fetched(resp) =>
        if resp.status == 200 {
          caches.Put(DynamicCache, req.url, resp);
        }
        r := Some(resp);
      case NetworkError =>
        r := caches.Match(req.url);
        if r.None? {
          r := caches.Match(Url(scope, "/offline.html", ""));
        }
    }
  }

  /** The fetch listener. */
  method OnFetch(caches: CacheStorage, req: Request, net: Fetched, scope: string) returns (o: Outcome)
    requires caches.Inv()
    modifies caches
    ensures caches.Inv() && Handled(caches.State(), o) == FetchStep(old(caches.State()), req, net, scope)
  {
    match Classify(req) {
      case Browser =>
        o := ToBrowser;
      case Api =>
        var r := HandleApiRequest(caches, req, net);
        o := Responded(Some(r));
      case Static =>
        var r := HandleStaticRequest(caches, req, net);
        o := Responded(Some(r));
      case Html =>
        var r := HandleHtmlRequest(caches, req, net, scope);
        o := Responded(r);
      case Default =>
        match net {
          case Fetched(resp) =>
            if resp.status == 200 {
              caches.Put(DynamicCache, req.url, resp);
            }
            o := Responded(Some(resp));
          case NetworkError =>
            var cached := caches.Match(req.url);
            o := Responded(cached);
        }
    }
  }

  // ---------------------------------------------------------------- background sync

  /** A request queued while offline; `id` is its key in the queue's store. */
  datatype PendingRequest = PendingRequest(id: int, url: string, httpMethod: string, body: string)

  /** The queue after a replay: the requests whose fetch did not succeed, in their order. */
  function Undelivered(ps: seq<PendingRequest>, delivers: PendingRequest -> bool): seq<PendingRequest> {
    if ps == [] then []
    else Undelivered(ps[..|ps| - 1], delivers) + (if delivers(ps[|ps| - 1]) then [] else [ps[|ps| - 1]])
  }

  /** Every request stays queued exactly when its replay failed. */
  lemma {:induction false} UndeliveredIff(ps: seq<PendingRequest>, delivers: PendingRequest -> bool, p: PendingRequest)
    ensures p in Undelivered(ps, delivers) <==> p in ps && !delivers(p)
  {
    if ps != [] {
      UndeliveredIff(ps[..|ps| - 1], delivers, p);
      assert ps == ps[..|ps| - 1] + [ps[|ps| - 1]];
    }
  }

  /** Removing by id (`removePendingRequest(id)`). */
  function RemoveId(ps: seq<PendingRequest>, id: int): seq<PendingRequest> {
    if ps == [] then [] else (if ps[0].id == id then [] else [ps[0]]) + RemoveId(ps[1..], id)
  }

  predicate IdsUnique(ps: seq<PendingRequest>) {
    forall i, j :: 0 <= i < j < |ps| ==> ps[i].id != ps[j].id
  }

  lemma {:induction false} RemoveIdAbsent(ps: seq<PendingRequest>, id: int)
    requires forall i :: 0 <= i < |ps| ==> ps[i].id != id
    ensures RemoveId(ps, id) == ps
  {
    if ps != [] {
      RemoveIdAbsent(ps[1..], id);
    }
  }

  lemma {:induction false} RemoveIdOnce(a: seq<PendingRequest>, p: PendingRequest, b: seq<PendingRequest>)
    requires forall i :: 0 <= i < |a| ==> a[i].id != p.id
    requires forall i :: 0 <= i < |b| ==> b[i].id != p.id
    ensures RemoveId(a + [p] + b, p.id) == a + b
  {
    if a == [] {
      assert ([p] + b)[1..] == b;
      RemoveIdAbsent(b, p.id);
    } else {
      assert (a + [p] + b)[1..] == a[1..] + [p] + b;
      RemoveIdOnce(a[1..], p, b);
    }
  }

  /** The queue after the replay has gone through its first i requests. */
  ghost function SyncPartial(requests: seq<PendingRequest>, i: nat, delivers: PendingRequest -> bool): seq<PendingRequest>
    requires i <= |requests|
  {
    Undelivered(requests[..i], delivers) + requests[i..]
  }

  /** One replay: a delivered request is removed by its id, a failed one stays. */
  lemma SyncStep(requests: seq<PendingRequest>, i: nat, delivers: PendingRequest -> bool)
    requires IdsUnique(requests) && i < |requests|
    ensures delivers(requests[i]) ==> SyncPartial(requests, i + 1, delivers) == RemoveId(SyncPartial(requests, i, delivers), requests[i].id)
    ensures !delivers(requests[i]) ==> SyncPartial(requests, i + 1, delivers) == SyncPartial(requests, i, delivers)
  {
    var pre, x, suf := requests[..i], requests[i], requests[i + 1..];
    assert requests[..i + 1] == pre + [x];
    assert (pre + [x])[..|pre|] == pre;
    assert requests[i..] == [x] + suf;
    var a := Undelivered(pre, delivers);
    assert Undelivered(requests[..i + 1], delivers) == a + (if delivers(x) then [] else [x]);
    assert SyncPartial(requests, i, delivers) == a + [x] + suf;
    if delivers(x) {
      forall k | 0 <= k < |a| ensures a[k].id != x.id {
        UndeliveredIff(pre, delivers, a[k]);
      }
      forall k | 0 <= k < |suf| ensures suf[k].id != x.id {
        assert suf[k] == requests[i + 1 + k];
      }
      RemoveIdOnce(a, x, suf);
    }
  }

  lemma SyncEnds(requests: seq<PendingRequest>, delivers: PendingRequest -> bool)
    ensures SyncPartial(requests, 0, delivers) == requests
    ensures SyncPartial(requests, |requests|, delivers) == Undelivered(requests, delivers)
  {
    assert requests[..|requests|] == requests;
  }

  /** The pending-request store the sync replays. */
  class SyncQueue {
    var pending: seq<PendingRequest>

    constructor (ps: seq<PendingRequest>)
      ensures pending == ps
    {
      pending := ps;
    }

    method RemovePendingRequest(id: int)
      modifies this
      ensures pending == RemoveId(old(pending), id)
    {
      pending := RemoveId(pending, id);
    }

    /**
     * `doBackgroundSync`: each request is replayed in turn; one whose fetch succeeds is
     * removed, one whose fetch fails stays and the loop goes on with the next.
     */
    method DoBackgroundSync(delivers: PendingRequest -> bool)
      requires IdsUnique(pending)
      modifies this
      ensures pending == Undelivered(old(pending), delivers)
    {
      var requests := pending;
      assert IdsUnique(requests);
      SyncEnds(requests, delivers);
      var i := 0;
      while i < |requests|
        invariant 0 <= i <= |requests|
        invariant pending == SyncPartial(requests, i, delivers)
      {
        SyncStep(requests, i, delivers);
        var request := requests[i];
        if delivers(request) {
          RemovePendingRequest(request.id);
        }
        i := i + 1;
      }
    }
  }
}
