/** The service worker's three event handlers as pure functions over Cache
    Storage: `install` precaches the application shell into the current
    cache generation, `activate` deletes every other generation, and `fetch`
    answers each request cache-first for model files and network-first with
    a cache fallback for everything else. The network is a map from URL to
    the response it would deliver; a URL missing from it is a failed fetch. */
module ServiceWorker {
  import opened Common
  import opened Caches

  /** The name of the current cache generation. */
  const CACHE_NAME: CacheName := "demo-pwa-cache-v1"

  /** The CDN the shell's libraries come from. */
  const Jsdelivr: Url := "https://cdn.jsdelivr.net/npm/"

  /** One entry of the application shell: a path on the worker's own
      origin, written root-relative, or a package file on the CDN. */
  datatype ShellEntry = FromOrigin(path: string) | FromCdn(file: string) {
    /** The entry as written in the precache list. */
    function Url(): Url {
      match this
      case FromOrigin(p) => "/" + p
      case FromCdn(f) => Jsdelivr + f
    }
  }

  /** The application shell fetched at install time, in order. */
  const Shell: seq<ShellEntry> := [
    FromOrigin(""),
    FromOrigin("index.html"),
    FromCdn("dropzone@5.9.3/dist/min/dropzone.min.js"),
    FromCdn("dropzone@5.9.3/dist/min/dropzone.min.css"),
    FromCdn("bootstrap@5.3.3/dist/css/bootstrap.min.css"),
    FromOrigin("stylesheet.css"),
    FromCdn("tiff.js@1.0.0/tiff.min.js"),
    FromCdn("onnxruntime-web@1.21.0/dist/ort.all.min.js"),
    FromCdn("@tensorflow/tfjs@4.22.0/dist/tf.min.js"),
    FromOrigin("caching.js"),
    FromOrigin("models.js"),
    FromOrigin("index.js"),
    FromCdn("bootstrap@5.3.5/dist/js/bootstrap.bundle.min.js")
  ]

  /** `precacheResources`: the shell's URLs as the worker lists them. */
  const PrecacheResources: seq<Url> := seq(|Shell|, i requires 0 <= i < |Shell| => Shell[i].Url())

  /** What the network would answer: a URL absent from the map makes
      `fetch` reject. */
  type Network = map<Url, Response>

  /** An intercepted request. */
  datatype Request = Request(httpMethod: string, url: Url)

  /** `response.ok`: a status in 200-299. */
  predicate IsOk(r: Response) {
    200 <= r.status <= 299
  }

  /** A response `cache.addAll` keeps: the `addAll(requests)` algorithm of
      the W3C Service Workers specification's `Cache` interface rejects a
      response whose status is not ok or is 206 (partial content). */
  predicate Accepted(r: Response) {
    IsOk(r) && r.status != 206
  }

  /** The worker's request schemes: only `http:` and `https:` URLs are
      intercepted. */
  predicate Intercepted(url: Url) {
    StartsWith(url, "http:") || StartsWith(url, "https:")
  }

  /** A root-relative URL: a path from the origin's root. */
  predicate Rooted(u: Url) {
    |u| > 0 && u[0] == '/'
  }

  /** The URL `addAll` fetches for a shell entry when the worker runs at
      `origin`: a root-relative path (one starting with `/`) is resolved
      against the origin, any other entry is already absolute. */
  function Resolve(origin: Url, u: Url): (r: Url)
    ensures !Rooted(u) ==> r == u
    ensures Rooted(u) && Intercepted(origin) ==> Intercepted(r)
  {
    if Rooted(u) then
      PrefixExtends(origin, u, "http:");
      PrefixExtends(origin, u, "https:");
      origin + u
    else u
  }

  /** A prefix of a string is a prefix of every extension of it. */
  lemma PrefixExtends(s: string, t: string, p: string)
    ensures StartsWith(s, p) ==> StartsWith(s + t, p)
  {
    if StartsWith(s, p) {
      assert (s + t)[..|p|] == s[..|p|];
    }
  }

  /** Every entry of `urls` resolved against `origin`, in order. */
  function ResolveAll(origin: Url, urls: seq<Url>): (r: seq<Url>)
    ensures |r| == |urls|
    ensures forall i :: 0 <= i < |urls| ==> r[i] == Resolve(origin, urls[i])
  {
    seq(|urls|, i requires 0 <= i < |urls| => Resolve(origin, urls[i]))
  }

  /** The response synthesised when neither network nor cache can answer. */
  const ServiceUnavailable: Response :=
    Response(503, "Service Unavailable", "Service Unavailable")

  /** `cache.match(request)`: only GET requests ever match. */
  function Lookup(cache: Cache, req: Request): Option<Response>
  {
    if req.httpMethod == "GET" && req.url in cache then Some(cache[req.url]) else None
  }

  /** `cache.put(request, response)`: rejected (and the cache left as it
      was) for a non-GET request, a 206 partial response, or a storage
      failure (`putFails`, e.g. quota exceeded). */
  function Put(cache: Cache, req: Request, resp: Response, putFails: bool): Cache
  {
    if !putFails && req.httpMethod == "GET" && resp.status != 206 then cache[req.url := resp] else cache
  }

  /** The result of the install event. `installed` is false when
      `waitUntil` received a rejected promise, which fails the install. */
  datatype Installed = Installed(storage: Storage, installed: bool)

  /** The `install` handler of a worker running at `origin`: open the
      current generation, then `cache.addAll(resources)`, which resolves
      every entry against the worker's location, fetches it, and stores
      them all only if every fetch succeeded with an accepted response. The
      worker passes `PrecacheResources`. */
  function Install(st: Storage, net: Network, origin: Url, resources: seq<Url>): (r: Installed)
    ensures r.storage.Keys == st.Keys + {CACHE_NAME}
    ensures r.installed <==>
              forall u :: u in resources ==> Resolve(origin, u) in net && Accepted(net[Resolve(origin, u)])
    ensures r.installed ==>
              forall u :: u in resources ==>
                Resolve(origin, u) in r.storage[CACHE_NAME] && r.storage[CACHE_NAME][Resolve(origin, u)] == net[Resolve(origin, u)]
    ensures !r.installed ==> r.storage == Open(st, CACHE_NAME)
    ensures forall n :: n in st && n != CACHE_NAME ==> r.storage[n] == st[n]
    ensures forall v :: v in r.storage[CACHE_NAME] && v !in ResolveAll(origin, resources) ==>
              CACHE_NAME in st && v in st[CACHE_NAME]
  {
    var withCurrent := Open(st, CACHE_NAME);
    var urls := ResolveAll(origin, resources);
    assert forall u :: u in resources ==> Resolve(origin, u) in urls by {
      forall u | u in resources ensures Resolve(origin, u) in urls {
        var i :| 0 <= i < |resources| && resources[i] == u;
        assert urls[i] == Resolve(origin, u);
      }
    }
    match AddAll(withCurrent[CACHE_NAME], urls, net)
    case Some(c) => Installed(withCurrent[CACHE_NAME := c], true)
    case None => Installed(withCurrent, false)
  }

  /** `cache.addAll(urls)`: every URL is fetched; if any fetch fails or
      answers with a response that is not accepted, nothing is stored
      (`None`), otherwise every response is stored, replacing older
      entries. */
  function AddAll(cache: Cache, urls: seq<Url>, net: Network): (r: Option<Cache>)
    ensures r.Some? <==> forall u :: u in urls ==> u in net && Accepted(net[u])
    ensures r.Some? ==> forall u :: u in urls ==> u in r.value && r.value[u] == net[u]
    ensures r.Some? ==> forall u :: u in r.value && u !in urls ==> u in cache && r.value[u] == cache[u]
    ensures r.Some? ==> forall u :: u in cache ==> u in r.value
  {
    if forall u :: u in urls ==> u in net && Accepted(net[u]) then
      Some(cache + map u | u in urls :: net[u])
    else
      None
  }

  /** A partial response anywhere in the shell fails the whole install and
      stores nothing new. */
  lemma PartialResponseFailsInstall(st: Storage, net: Network, origin: Url, resources: seq<Url>, u: Url)
    requires u in resources && Resolve(origin, u) in net && net[Resolve(origin, u)].status == 206
    ensures !Install(st, net, origin, resources).installed
    ensures Install(st, net, origin, resources).storage == Open(st, CACHE_NAME)
  {
  }

  /** The `activate` handler: delete every cache whose name is not the
      current generation's. */
  function Activate(st: Storage): (st': Storage)
    ensures st'.Keys == st.Keys * {CACHE_NAME}
    ensures CACHE_NAME in st ==> st'[CACHE_NAME] == st[CACHE_NAME]
  {
    map n | n in st && n == CACHE_NAME :: st[n]
  }

  /** What the `fetch` handler does with one request. */
  datatype Outcome =
    | NotIntercepted
      // `respondWith` was called; `usedNetwork` says whether `fetch` ran
    | Responded(response: Response, storage: Storage, usedNetwork: bool)

  /** The network-first part of the handler: fetch; on success, store a
      clone in the current generation (best effort) and return the live
      response; on failure, return the cached entry or a 503. */
  function NetworkFirst(req: Request, withCurrent: Storage, net: Network, putFails: bool): (o: Outcome)
    requires CACHE_NAME in withCurrent
    ensures o.Responded? && o.usedNetwork
    ensures req.url in net ==> o.response == net[req.url]
    ensures req.url in net ==> o.storage == withCurrent[CACHE_NAME := Put(withCurrent[CACHE_NAME], req, net[req.url], putFails)]
    ensures req.url !in net ==> o.storage == withCurrent
    ensures req.url !in net && Lookup(withCurrent[CACHE_NAME], req).Some? ==> o.response == withCurrent[CACHE_NAME][req.url]
    ensures req.url !in net && Lookup(withCurrent[CACHE_NAME], req).None? ==> o.response == ServiceUnavailable
  {
    var cache := withCurrent[CACHE_NAME];
    if req.url in net then
      var response := net[req.url];
      Responded(response, withCurrent[CACHE_NAME := Put(cache, req, response, putFails)], true)
    else
      match Lookup(cache, req)
      case Some(r) => Responded(r, withCurrent, true)
      case None => Responded(ServiceUnavailable, withCurrent, true)
  }

  /** The `fetch` handler. Requests whose URL is neither `http:` nor
      `https:` are left to the browser; `.onnx` requests are answered from
      the current generation when it holds them; everything else (and an
      `.onnx` miss) goes network-first. */
  function HandleFetch(req: Request, st: Storage, net: Network, putFails: bool): (o: Outcome)
    ensures o.NotIntercepted? <==> !Intercepted(req.url)
    ensures o.Responded? ==> CACHE_NAME in o.storage && o.storage.Keys == st.Keys + {CACHE_NAME}
    ensures o.Responded? ==> forall n :: n in st && n != CACHE_NAME ==> o.storage[n] == st[n]
  {
    if !Intercepted(req.url) then NotIntercepted
    else
      var withCurrent := Open(st, CACHE_NAME);
      if EndsWith(req.url, ".onnx") && Lookup(withCurrent[CACHE_NAME], req).Some? then
        Responded(Lookup(withCurrent[CACHE_NAME], req).value, withCurrent, false)
      else
        NetworkFirst(req, withCurrent, net, putFails)
  }

  /** `https:` URLs are not caught by the `http:` test, so the handler
      needs both. */
  lemma HttpsNeedsItsOwnTest()
    ensures !StartsWith("https://example.org/", "http:")
    ensures HandleFetch(Request("GET", "https://example.org/"), map[], map[], false).Responded?
    ensures HandleFetch(Request("GET", "chrome-extension://x/a.js"), map[], map[], false).NotIntercepted?
  {
    HttpsPrefix("https://example.org/");
    OtherScheme("chrome-extension://x/a.js");
  }

  /** An `https:` URL fails the `http:` test at its fifth character. */
  lemma HttpsPrefix(u: string)
    requires |u| >= 6 && u[..6] == "https:"
    ensures !StartsWith(u, "http:") && StartsWith(u, "https:")
  {
    assert u[4] == 's';
    assert "http:"[4] == ':';
  }

  /** A URL starting with a letter other than `h` passes neither test. */
  lemma OtherScheme(u: string)
    requires |u| > 0 && u[0] != 'h'
    ensures !StartsWith(u, "http:") && !StartsWith(u, "https:")
  {
    assert "http:"[0] == 'h' && "https:"[0] == 'h';
  }

  /** A model file held by the current generation is served from it, with
      no network fetch and no change to any cache. */
  lemma OnnxHitSkipsNetwork(req: Request, st: Storage, net: Network, putFails: bool)
    requires Intercepted(req.url) && EndsWith(req.url, ".onnx")
    requires req.httpMethod == "GET" && CACHE_NAME in st && req.url in st[CACHE_NAME]
    ensures HandleFetch(req, st, net, putFails) == Responded(st[CACHE_NAME][req.url], st, false)
  {
  }

  /** Every intercepted request other than a model file the current
      generation can answer (a model-file miss, a non-GET request, any other
      URL, cached or not) goes network-first. */
  lemma NetworkFirstUnlessOnnxHit(req: Request, st: Storage, net: Network, putFails: bool)
    requires Intercepted(req.url)
    requires !(EndsWith(req.url, ".onnx") && Lookup(Open(st, CACHE_NAME)[CACHE_NAME], req).Some?)
    ensures HandleFetch(req, st, net, putFails) == NetworkFirst(req, Open(st, CACHE_NAME), net, putFails)
  {
  }

  /** Online, a request that is not for a model file gets the live
      response, and that response replaces whatever the current generation
      held for the URL, so the next offline request sees the fresh copy. */
  lemma OnlineRefreshesEntry(req: Request, st: Storage, net: Network)
    requires Intercepted(req.url) && !EndsWith(req.url, ".onnx") && req.httpMethod == "GET"
    requires req.url in net && net[req.url].status != 206
    ensures var o := HandleFetch(req, st, net, false);
            && o.Responded? && o.usedNetwork && o.response == net[req.url]
            && Lookup(o.storage[CACHE_NAME], req) == Some(net[req.url])
            && HandleFetch(req, o.storage, map[], false).response == net[req.url]
  {
    var o := HandleFetch(req, st, net, false);
    PutThenMatch(Open(st, CACHE_NAME)[CACHE_NAME], req, net[req.url], false, req);
    assert req.url in o.storage[CACHE_NAME];
  }

  /** `cache.put` followed by `cache.match`: a stored GET response is found
      again under its URL, every other URL keeps its answer, and a rejected
      put (failure, non-GET request or 206) changes no answer at all. Only
      GET requests are ever answered. */
  lemma PutThenMatch(c: Cache, req: Request, resp: Response, putFails: bool, other: Request)
    ensures !putFails && req.httpMethod == "GET" && resp.status != 206 ==>
              Lookup(Put(c, req, resp, putFails), req) == Some(resp)
    ensures other.url != req.url ==> Lookup(Put(c, req, resp, putFails), other) == Lookup(c, other)
    ensures putFails || req.httpMethod != "GET" || resp.status == 206 ==>
              Lookup(Put(c, req, resp, putFails), other) == Lookup(c, other)
    ensures other.httpMethod != "GET" ==> Lookup(c, other) == None
  {
  }

  /** The response never depends on whether the cache write succeeded. */
  lemma CacheWriteDoesNotAffectResponse(req: Request, st: Storage, net: Network)
    requires HandleFetch(req, st, net, false).Responded?
    ensures HandleFetch(req, st, net, true).response == HandleFetch(req, st, net, false).response
  {
  }

  /** Only the current generation is ever read: two storages that agree on
      it get the same response to every request, so after activation no
      response can come from a superseded generation. */
  lemma OnlyCurrentGenerationIsRead(req: Request, st1: Storage, st2: Storage, net: Network, putFails: bool)
    requires CACHE_NAME in st1 <==> CACHE_NAME in st2
    requires CACHE_NAME in st1 ==> st1[CACHE_NAME] == st2[CACHE_NAME]
    requires HandleFetch(req, st1, net, putFails).Responded?
    ensures HandleFetch(req, st1, net, putFails).response == HandleFetch(req, st2, net, putFails).response
    ensures HandleFetch(req, st2, net, putFails).usedNetwork == HandleFetch(req, st1, net, putFails).usedNetwork
  {
    var w1, w2 := Open(st1, CACHE_NAME), Open(st2, CACHE_NAME);
    assert w1[CACHE_NAME] == w2[CACHE_NAME];
    if !(EndsWith(req.url, ".onnx") && Lookup(w1[CACHE_NAME], req).Some?) {
      NetworkFirstReadsCurrent(req, w1, w2, net, putFails);
    }
  }

  /** The network-first answer depends on the current generation only. */
  lemma NetworkFirstReadsCurrent(req: Request, w1: Storage, w2: Storage, net: Network, putFails: bool)
    requires CACHE_NAME in w1 && CACHE_NAME in w2 && w1[CACHE_NAME] == w2[CACHE_NAME]
    ensures NetworkFirst(req, w1, net, putFails).response == NetworkFirst(req, w2, net, putFails).response
    ensures NetworkFirst(req, w1, net, putFails).usedNetwork == NetworkFirst(req, w2, net, putFails).usedNetwork
  {
    if req.url !in net {
      assert Lookup(w1[CACHE_NAME], req) == Lookup(w2[CACHE_NAME], req);
    }
  }

  /** Activation keeps answers unchanged while removing every stale
      generation. */
  lemma ActivationPreservesAnswers(req: Request, st: Storage, net: Network, putFails: bool)
    requires HandleFetch(req, st, net, putFails).Responded?
    ensures HandleFetch(req, Activate(st), net, putFails).response == HandleFetch(req, st, net, putFails).response
    ensures forall n :: n in Activate(st) ==> n == CACHE_NAME
  {
    OnlyCurrentGenerationIsRead(req, st, Activate(st), net, putFails);
  }

  /** A model file fetched once over the network is, on the next request,
      served from the cache with the same response and without the network,
      whatever the network then does. */
  lemma OnnxCachedAfterFirstFetch(req: Request, st: Storage, net: Network, net2: Network, putFails2: bool)
    requires Intercepted(req.url) && EndsWith(req.url, ".onnx") && req.httpMethod == "GET"
    requires req.url in net && net[req.url].status != 206
    ensures var first := HandleFetch(req, st, net, false);
            && first.Responded?
            && InSomeCache(first.storage, req.url)
            && HandleFetch(req, first.storage, net2, putFails2) == Responded(first.response, first.storage, false)
  {
    var first := HandleFetch(req, st, net, false);
    assert req.url in first.storage[CACHE_NAME];
  }

  /** Network down, entry cached: the cached entry is returned, not a 503. */
  lemma OfflineWithCachedEntry(req: Request, st: Storage, putFails: bool)
    requires Intercepted(req.url) && !EndsWith(req.url, ".onnx") && req.httpMethod == "GET"
    requires CACHE_NAME in st && req.url in st[CACHE_NAME]
    ensures HandleFetch(req, st, map[], putFails) == Responded(st[CACHE_NAME][req.url], st, true)
  {
  }

  /** Network down, nothing cached: a 503 "Service Unavailable". */
  lemma OfflineWithoutEntry(req: Request, st: Storage, putFails: bool)
    requires Intercepted(req.url) && req.httpMethod == "GET"
    requires CACHE_NAME !in st || req.url !in st[CACHE_NAME]
    ensures var o := HandleFetch(req, st, map[], putFails);
            o.Responded? && o.response.status == 503 && o.response.statusText == "Service Unavailable"
  {
  }

  /** A successful install lets the worker answer each installed resource
      with no network at all: the intercepted request for its resolved URL
      gets the response fetched at install time, and no cache changes. */
  lemma InstalledResourceServedOffline(st: Storage, net: Network, origin: Url, resources: seq<Url>, u: Url, putFails: bool)
    requires Install(st, net, origin, resources).installed
    requires u in resources && Intercepted(Resolve(origin, u))
    ensures var s := Install(st, net, origin, resources).storage;
            var o := HandleFetch(Request("GET", Resolve(origin, u)), s, map[], putFails);
            && InSomeCache(s, Resolve(origin, u))
            && o.Responded? && o.response == net[Resolve(origin, u)] && o.storage == s
  {
    var s := Install(st, net, origin, resources).storage;
    var v := Resolve(origin, u);
    assert v in s[CACHE_NAME];
    if !EndsWith(v, ".onnx") {
      OfflineWithCachedEntry(Request("GET", v), s, putFails);
    }
  }

  /** Every entry of the application shell is either root-relative or an
      absolute `https:` URL on the CDN. */
  lemma ShellEntryForms()
    ensures forall u :: u in PrecacheResources ==> Rooted(u) || StartsWith(u, "https:")
  {
    assert StartsWith(Jsdelivr, "https:") by {
      assert Jsdelivr[..6] == "https:";
    }
    forall u | u in PrecacheResources
      ensures Rooted(u) || StartsWith(u, "https:")
    {
      var i :| 0 <= i < |Shell| && u == Shell[i].Url();
      match Shell[i]
      case FromOrigin(p) =>
        assert Rooted("/" + p);
      case FromCdn(f) =>
        PrefixExtends(Jsdelivr, f, "https:");
    }
  }

  /** So a worker served over HTTP(S) intercepts every shell entry once
      resolved. */
  lemma ShellIsIntercepted(origin: Url)
    requires Intercepted(origin)
    ensures forall u :: u in PrecacheResources ==> Intercepted(Resolve(origin, u))
  {
    ShellEntryForms();
  }

  /** After a successful install from an HTTP(S) origin, the whole
      application shell is served offline from the cache. */
  lemma InstalledShellServedOffline(st: Storage, net: Network, origin: Url, putFails: bool)
    requires Intercepted(origin)
    requires Install(st, net, origin, PrecacheResources).installed
    ensures var s := Install(st, net, origin, PrecacheResources).storage;
            forall u :: u in PrecacheResources ==>
              && HandleFetch(Request("GET", Resolve(origin, u)), s, map[], putFails).Responded?
              && HandleFetch(Request("GET", Resolve(origin, u)), s, map[], putFails).response == net[Resolve(origin, u)]
  {
    ShellIsIntercepted(origin);
    forall u | u in PrecacheResources
      ensures var s := Install(st, net, origin, PrecacheResources).storage;
              && HandleFetch(Request("GET", Resolve(origin, u)), s, map[], putFails).Responded?
              && HandleFetch(Request("GET", Resolve(origin, u)), s, map[], putFails).response == net[Resolve(origin, u)]
    {
      InstalledResourceServedOffline(st, net, origin, PrecacheResources, u, putFails);
    }
  }
}
