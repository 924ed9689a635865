/** The offline support of `service-worker.js`: on install the worker pins a
    fixed list of assets into the cache `agents-offline`; every fetch goes to
    the network and, when the network fails, is answered with the cached
    `offline.html`; a `refreshOffline` event overwrites one cache entry.
    The browser's cache storage is a map from cache names to caches, a cache
    a map from request URLs to responses, and the network an explicit input. */
module ServiceWorker {
  import opened Wrappers

  /** The one cache all three handlers open. */
  const CacheName := "agents-offline"

  /** The page served when the network fails. */
  const OfflinePage := "offline.html"

  /** The URLs `cache.addAll` pins at install (service-worker.js lines 7-21). */
  const Manifest: seq<string> := [
    "manifest.json",
    "offline.html",
    "/template/assets/images/gov.uk_logotype_crown.png",
    "/template/assets/images/open-government-licence_2x.png",
    "/template/assets/stylesheets/images/govuk-crest.png",
    "/template/assets/stylesheets/govuk-template.css",
    "/template/assets/stylesheets/fonts.css",
    "/template/assets/stylesheets/govuk-template-print.css",
    "/agent-subscription/assets/stylesheets/styles.css",
    "/agent-subscription/assets/stylesheets/offline.css",
    "/agent-subscription/assets/javascripts/accessible-autocomplete.min.js",
    "/agent-subscription/assets/javascripts/details.pollyfill.js",
    "/agent-subscription/assets/javascripts/ga-events.js",
    "/agent-subscription/assets/javascripts/scripts.js"
  ]

  datatype Response = Response(status: int, body: string)

  /** `response.ok`: a status in the range 200-299. */
  predicate IsOk(r: Response) {
    200 <= r.status <= 299
  }

  /** A response the cache accepts: `Cache.addAll` rejects, and `Cache.put`
      throws on, a partial response (status 206). */
  predicate Storable(r: Response) {
    r.status != 206
  }

  datatype Request = Request(verb: string, url: string)

  type Cache = map<string, Response>

  /** The browser's cache storage: caches by name. */
  type Storage = map<string, Cache>

  /** What the network answers for each URL; a URL absent from the map is a
      network error (the `fetch` promise rejects). */
  type Network = map<string, Response>

  /** The manifest lists 14 distinct URLs, `offline.html` among them. */
  lemma ManifestShape()
    ensures |Manifest| == 14 && OfflinePage in Manifest
    ensures forall i, j :: 0 <= i < j < |Manifest| ==> Manifest[i] != Manifest[j]
  {
  }

  /** `caches.open(CacheName)`: the cache is created empty when absent; no
      other cache, and no entry, changes. */
  function Open(s: Storage): (s': Storage)
    ensures CacheName in s' && s'.Keys == s.Keys + {CacheName}
    ensures forall n :: n in s ==> s'[n] == s[n]
    ensures CacheName !in s ==> s'[CacheName] == map[]
  {
    if CacheName in s then s else s[CacheName := map[]]
  }

  /** Only the cache `agents-offline` may differ between `s` and `s'`. */
  predicate OthersUnchanged(s: Storage, s': Storage) {
    && s'.Keys - {CacheName} == s.Keys - {CacheName}
    && forall n :: n in s && n != CacheName ==> n in s' && s'[n] == s[n]
  }

  /** The URL can be fetched with an ok, non-partial response. */
  predicate Fetchable(network: Network, url: string) {
    url in network && IsOk(network[url]) && Storable(network[url])
  }

  /** `cache.addAll(urls)`: every URL is fetched; when each answers ok and
      not with a partial response, every response is stored under its URL,
      and otherwise the call rejects and the cache stays as it was. */
  function AddAll(cache: Cache, urls: seq<string>, network: Network): (r: Option<Cache>)
    ensures r.Some? <==> forall u :: u in urls ==> Fetchable(network, u)
    ensures r.Some? ==> r.value.Keys == cache.Keys + set u | u in urls
    ensures r.Some? ==> forall k :: k in r.value ==>
      r.value[k] == if k in urls then network[k] else cache[k]
    decreases |urls|
  {
    if urls == [] then Some(cache)
    else if !Fetchable(network, urls[0]) then None
    else AddAll(cache[urls[0] := network[urls[0]]], urls[1..], network)
  }

  /** The install handler (service-worker.js lines 2-33): open the cache, then
      add the whole manifest. Returns the new storage and whether install
      succeeded. */
  function InstallStep(s: Storage, network: Network): (r: (Storage, bool))
    ensures r.1 <==> forall u :: u in Manifest ==> Fetchable(network, u)
    ensures !r.1 ==> r.0 == Open(s)
  {
    var ready := Open(s);
    match AddAll(ready[CacheName], Manifest, network)
    case Some(c) => (ready[CacheName := c], true)
    case None => (ready, false)
  }

  /** A successful install leaves every manifest URL cached with the response
      the network gave for it, keeps every other entry and adds no key outside
      the manifest; a failed one adds nothing. Either way no other cache changes. */
  lemma InstallOutcome(s: Storage, network: Network)
    ensures var (s', ok) := InstallStep(s, network);
      && OthersUnchanged(s, s') && CacheName in s'
      && (ok ==> forall u :: u in Manifest ==> u in s'[CacheName] && s'[CacheName][u] == network[u])
      && (ok ==> s'[CacheName].Keys == Open(s)[CacheName].Keys + set u | u in Manifest)
      && (ok ==> forall k :: k in Open(s)[CacheName] && k !in Manifest ==>
                   k in s'[CacheName] && s'[CacheName][k] == Open(s)[CacheName][k])
      && (!ok ==> s'[CacheName] == if CacheName in s then s[CacheName] else map[])
  {
    var ready := Open(s);
    var added := AddAll(ready[CacheName], Manifest, network);
    if added.Some? {
      StoreKeepsOthers(s, ready, added.value);
    }
  }

  lemma StoreKeepsOthers(s: Storage, ready: Storage, c: Cache)
    requires ready == Open(s)
    ensures OthersUnchanged(s, ready[CacheName := c])
  {
  }

  /** The fetch handler (service-worker.js lines 36-45): the network's answer
      when there is one, whatever its status; on a network error the cached
      `offline.html`, or nothing (`undefined`) when it is not cached. */
  function FetchStep(s: Storage, request: Request, answer: Option<Response>): (r: (Storage, Option<Response>))
    ensures answer.Some? ==> r == (s, answer)
    ensures answer.None? ==> r.0 == Open(s)
    ensures answer.None? ==> (r.1.Some? <==> CacheName in s && OfflinePage in s[CacheName])
    ensures answer.None? && r.1.Some? ==> r.1.value == s[CacheName][OfflinePage]
  {
    if answer.Some? then (s, answer)
    else
      var ready := Open(s);
      var cache := ready[CacheName];
      (ready, if OfflinePage in cache then Some(cache[OfflinePage]) else None)
  }

  /** The `refreshOffline` handler (service-worker.js lines 48-53) with its key
      and response made explicit: `cache.put(key, response)`, which throws on
      a partial response after the cache is opened. */
  function RefreshStep(s: Storage, key: string, response: Response): (s': Storage)
    ensures OthersUnchanged(s, s') && CacheName in s'
    ensures !Storable(response) ==> s' == Open(s)
    ensures Storable(response) ==> key in s'[CacheName] && s'[CacheName][key] == response
    ensures Storable(response) ==> s'[CacheName].Keys == Open(s)[CacheName].Keys + {key}
    ensures forall k :: k in s'[CacheName] && k != key ==> k in Open(s)[CacheName] && s'[CacheName][k] == Open(s)[CacheName][k]
  {
    var ready := Open(s);
    if Storable(response) then ready[CacheName := ready[CacheName][key := response]] else ready
  }

  /** The refresh handler as the file has it: `offlineSite` is not declared
      anywhere, so after the cache is opened, evaluating the arguments of
      `cache.put` throws a ReferenceError and nothing is stored. */
  function RefreshAsWritten(s: Storage): (s': Storage)
    ensures OthersUnchanged(s, s') && CacheName in s'
    ensures s'[CacheName] == if CacheName in s then s[CacheName] else map[]
  {
    Open(s)
  }

  /** The refresh handler as written never stores the page it is given,
      where the intended one does. */
  lemma RefreshAsWrittenStoresNothing(response: Response)
    ensures OfflinePage !in RefreshAsWritten(map[])[CacheName]
    ensures Storable(response) ==> RefreshStep(map[], OfflinePage, response)[CacheName][OfflinePage] == response
  {
  }

  /** Repeating a refresh of the same key keeps only the last stored
      response; a partial response leaves the cache as the first refresh
      left it. */
  lemma RefreshLastWriteWins(s: Storage, key: string, first: Response, second: Response)
    ensures RefreshStep(RefreshStep(s, key, first), key, second) ==
      if Storable(second) then RefreshStep(s, key, second) else RefreshStep(s, key, first)
  {
    if Storable(second) {
      var a := RefreshStep(RefreshStep(s, key, first), key, second);
      var b := RefreshStep(s, key, second);
      assert a[CacheName] == b[CacheName];
    }
  }

  /** The answer to a fetch does not depend on the request: every method and
      every URL is handled the same way. */
  lemma FetchIgnoresRequest(s: Storage, r1: Request, r2: Request, answer: Option<Response>)
    ensures FetchStep(s, r1, answer) == FetchStep(s, r2, answer)
  {
  }

  /** Something that happens to the worker. */
  datatype Event =
    | Install(network: Network)
    | Fetch(request: Request, answer: Option<Response>)
    | RefreshOffline(key: string, response: Response)

  /** The storage after one event. */
  function After(s: Storage, e: Event): Storage {
    match e
    case Install(network) => InstallStep(s, network).0
    case Fetch(request, answer) => FetchStep(s, request, answer).0
    case RefreshOffline(key, response) => RefreshStep(s, key, response)
  }

  /** The storage after a sequence of events. */
  function Run(s: Storage, events: seq<Event>): Storage
    decreases |events|
  {
    if events == [] then s else Run(After(s, events[0]), events[1..])
  }

  predicate HasOfflinePage(s: Storage) {
    CacheName in s && OfflinePage in s[CacheName]
  }

  /** No single event removes a cached `offline.html`. */
  lemma AfterKeepsOfflinePage(s: Storage, e: Event)
    requires HasOfflinePage(s)
    ensures HasOfflinePage(After(s, e))
  {
    match e
    case Install(network) =>
      InstallOutcome(s, network);
      var (s', ok) := InstallStep(s, network);
      if ok {
        if OfflinePage !in Manifest {
          assert OfflinePage in Open(s)[CacheName];
        }
      }
    case Fetch(request, answer) =>
    case RefreshOffline(key, response) =>
  }

  /** Once `offline.html` is cached, no sequence of events removes it. */
  lemma {:induction false} OfflinePageStays(s: Storage, events: seq<Event>)
    requires HasOfflinePage(s)
    ensures HasOfflinePage(Run(s, events))
    decreases |events|
  {
    if events != [] {
      AfterKeepsOfflinePage(s, events[0]);
      OfflinePageStays(After(s, events[0]), events[1..]);
    }
  }

  /** After a successful install, whatever happens next, a fetch that the
      network fails is answered with the cached offline page. */
  lemma InstalledWorkerServesOfflinePage(s: Storage, network: Network, events: seq<Event>, request: Request)
    ensures InstallStep(s, network).1 ==>
      FetchStep(Run(InstallStep(s, network).0, events), request, None).1.Some?
  {
    if InstallStep(s, network).1 {
      ManifestShape();
      InstallOutcome(s, network);
      OfflinePageStays(InstallStep(s, network).0, events);
    }
  }

  /** Fetches alone never change a cache entry: the only writes are install
      and refresh. At most, a failed fetch creates the empty cache. */
  lemma {:induction false} FetchesOnlyRead(s: Storage, events: seq<Event>)
    requires forall i :: 0 <= i < |events| ==> events[i].Fetch?
    ensures Run(s, events) == s || Run(s, events) == Open(s)
    decreases |events|
  {
    if events != [] {
      var s1 := After(s, events[0]);
      assert s1 == s || s1 == Open(s);
      FetchesOnlyRead(s1, events[1..]);
      if s1 == Open(s) {
        assert Open(s1) == s1;
      }
    }
  }

  /** The service worker's view of the cache storage. */
  class Worker {
    var storage: Storage

    constructor (storage: Storage)
      ensures this.storage == storage
    {
      this.storage := storage;
    }

    /** `caches.open('agents-offline')`. */
    method OpenCache() returns (cache: Cache)
      modifies this
      ensures storage == Open(old(storage)) && cache == storage[CacheName]
    {
      if CacheName !in storage {
        storage := storage[CacheName := map[]];
      }
      cache := storage[CacheName];
    }

    /** The `install` event: open the cache and `addAll` the manifest. */
    method OnInstall(network: Network) returns (installed: bool)
      modifies this
      ensures (storage, installed) == InstallStep(old(storage), network)
    {
      var cache := OpenCache();
      var added := AddAll(cache, Manifest, network);
      if added.Some? {
        storage := storage[CacheName := added.value];
        installed := true;
      } else {
        installed := false;
      }
    }

    /** The `fetch` event: `fetch(request)`, falling back to
        `cache.match('offline.html')` when it rejects. */
    method OnFetch(request: Request, answer: Option<Response>) returns (response: Option<Response>)
      modifies this
      ensures (storage, response) == FetchStep(old(storage), request, answer)
    {
      if answer.Some? {
        response := answer;
      } else {
        var cache := OpenCache();
        if OfflinePage in cache {
          response := Some(cache[OfflinePage]);
        } else {
          response := None;
        }
      }
    }

    /** The `refreshOffline` event: `cache.put(key, response)`. */
    method OnRefreshOffline(key: string, response: Response)
      modifies this
      ensures storage == RefreshStep(old(storage), key, response)
    {
      var cache := OpenCache();
      if response.status != 206 {
        storage := storage[CacheName := cache[key := response]];
      }
    }
  }
}
