/** The browser's Cache Storage as the application sees it: named caches
    (cache generations), each mapping request URLs to stored responses, and
    the two helpers that act on all of them at once, `modelIsCached` and
    `clearCaches`. */
module Caches {
  import opened Common

  type Url = string
  type CacheName = string

  /** A stored or live HTTP response; its body is opaque to the caching
      logic. */
  datatype Response = Response(status: nat, statusText: string, body: string)

  /** One named cache: at most one response per URL, later puts overwrite. */
  type Cache = map<Url, Response>

  /** All caches of the origin, by name. */
  type Storage = map<CacheName, Cache>

  /** `caches.open(name)`: the named cache, created empty if it does not
      exist yet; the other caches are untouched. */
  function Open(st: Storage, name: CacheName): (st': Storage)
    ensures name in st'
    ensures st'.Keys == st.Keys + {name}
    ensures forall n :: n in st ==> st'[n] == st[n]
    ensures name !in st ==> st'[name] == map[]
  {
    if name in st then st else st[name := map[]]
  }

  /** Some cache holds an entry for `url`: what `caches.match` looks for
      when it searches every cache of the origin. */
  predicate InSomeCache(st: Storage, url: Url)
  {
    exists name :: name in st && url in st[name]
  }

  /** `modelIsCached(model)`: `caches.match` on the model's `onnxPath`,
      searching the caches one by one until one of them holds the path. The
      answer does not depend on the order in which the caches are searched. */
  method ModelIsCached(st: Storage, onnxPath: Url) returns (found: bool)
    ensures found <==> InSomeCache(st, onnxPath)
  {
    var unsearched := st.Keys;
    found := false;
    while unsearched != {} && !found
      invariant unsearched <= st.Keys
      invariant found ==> InSomeCache(st, onnxPath)
      invariant !found ==> forall n :: n in st && n !in unsearched ==> onnxPath !in st[n]
      decreases unsearched
    {
      var name :| name in unsearched;
      found := onnxPath in st[name];
      unsearched := unsearched - {name};
    }
  }

  /** What `clearCaches` leaves behind. It never throws: a failure is caught
      and reported with `console.error`, so `errorLogged` is the only trace
      of one. */
  datatype Cleared = Cleared(storage: Storage, errorLogged: bool)

  /** `clearCaches()`: list the cache names, then delete each. `keysFail`
      says that listing the names rejected (nothing is deleted); `deleteFails`
      names the caches whose deletion rejected (they survive, the others are
      still deleted). */
  function ClearCaches(st: Storage, keysFail: bool, deleteFails: set<CacheName>): (r: Cleared)
    ensures !keysFail && st.Keys !! deleteFails ==> r.storage == map[] && !r.errorLogged
    ensures r.errorLogged <==> keysFail || st.Keys * deleteFails != {}
    ensures r.storage.Keys <= st.Keys
    ensures forall n :: n in r.storage ==> r.storage[n] == st[n]
    ensures !keysFail ==> r.storage.Keys == st.Keys * deleteFails
    ensures keysFail ==> r.storage == st
  {
    if keysFail then Cleared(st, true)
    else
      var kept := map n | n in st && n in deleteFails :: st[n];
      assert kept.Keys == st.Keys * deleteFails;
      Cleared(kept, kept.Keys != {})
  }

  /** After a clean `clearCaches`, no cache holds any entry, so no model is
      reported as cached. */
  lemma NothingCachedAfterClear(st: Storage, onnxPath: Url)
    ensures !InSomeCache(ClearCaches(st, false, {}).storage, onnxPath)
  {
  }

  /** Whether a path is cached depends only on which caches hold it: it is
      after storing the path in any cache, and opening a cache changes
      nothing. */
  lemma CachedAfterStore(st: Storage, name: CacheName, onnxPath: Url, resp: Response)
    ensures var c := if name in st then st[name] else map[];
            InSomeCache(st[name := c[onnxPath := resp]], onnxPath)
    ensures InSomeCache(Open(st, name), onnxPath) <==> InSomeCache(st, onnxPath)
  {
    var c := if name in st then st[name] else map[];
    assert onnxPath in st[name := c[onnxPath := resp]][name];
    if InSomeCache(Open(st, name), onnxPath) {
      var n :| n in Open(st, name) && onnxPath in Open(st, name)[n];
      assert n in st;
    }
  }
}
