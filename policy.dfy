/**
 * The worker's configuration and the meaning of its handlers as functions
 * of the cache storage: what a successful install leaves in the current
 * cache, which reply a fetch gets and which entry it asks to persist.
 */
module Policy {

  import opened Wrappers
  import opened Requests
  import opened CacheStore

  const VERSION: string := "2026-02-08.1"

  /** The one cache this version owns. */
  const CACHE: CacheName := "bigdog-" + VERSION

  /** The app shell: all of it is cached, or the install fails. */
  const CORE: seq<Key> := ["/", "/index.html", "/manifest.json"]

  /** Icons: each is cached if it can be, independently of the others. */
  const OPTIONAL: seq<Key> := ["/icons/icon-192.png", "/icons/icon-512.png"]

  /** Every page load is persisted under, and served offline from, this key. */
  const ShellKey: Key := "/index.html"

  /** The reply to a page load when both the network and the cache fail. */
  const Offline: Response := Response(503, "Offline")

  /** The reply to an asset request when both the cache and the network fail. */
  const GatewayTimeout: Response := Response(504, "")

  /** What the fetch handler does with a request: leave it to the browser, or answer it. */
  datatype Reply = PassThrough | Respond(response: Response)

  /** A write the fetch handler issues without waiting for it. */
  datatype Entry = Entry(key: Key, response: Response)

  lemma CacheIsVersioned()
    ensures CACHE == "bigdog-2026-02-08.1"
    ensures ShellKey in CORE
    ensures forall k :: k in CORE ==> k !in OPTIONAL
  {
  }

  /**
   * The current cache after an install that started from cache `c`:
   * the core assets all-or-nothing, then each optional asset on its own.
   * None is a failed install.
   */
  function Installed(c: Cache, net: Network): Option<Cache>
  {
    match AddAll(c, CORE, net)
    case None => None
    case Some(withCore) => Some(AddEach(withCore, OPTIONAL, net))
  }

  /** An install is the core step followed, when it succeeds, by the optional step. */
  lemma InstalledSteps(c: Cache, net: Network)
    ensures AddAll(c, CORE, net).None? ==> Installed(c, net).None?
    ensures AddAll(c, CORE, net).Some? ==>
      Installed(c, net) == Some(AddEach(AddAll(c, CORE, net).value, OPTIONAL, net))
  {
  }

  /**
   * An install succeeds exactly when every core asset fetches a storable
   * response, so the optional assets never decide it. A successful install
   * holds every core asset and every optional asset that fetched, and
   * leaves every other entry as it was.
   */
  lemma InstallOutcome(c: Cache, net: Network)
    ensures Installed(c, net).Some? <==> forall k :: k in CORE ==> Storable(net(k))
    ensures Installed(c, net).Some? ==>
      var r := Installed(c, net).value;
      && r.Keys == c.Keys + (set k | k in CORE) + (set k | k in OPTIONAL && Storable(net(k)))
      && (forall k :: k in CORE ==> r[k] == net(k).response)
      && (forall k :: k in OPTIONAL && Storable(net(k)) ==> r[k] == net(k).response)
      && (forall k :: k in OPTIONAL && !Storable(net(k)) ==> (k in r <==> k in c))
      && (forall k :: k in c && k !in CORE && !(k in OPTIONAL && Storable(net(k))) ==> r[k] == c[k])
  {
    CacheIsVersioned();
    AddAllContents(c, CORE, net);
    if AddAll(c, CORE, net).Some? {
      AddEachContents(AddAll(c, CORE, net).value, OPTIONAL, net);
    }
  }

  /** Two networks that agree on the core assets give installs that agree on success. */
  lemma OptionalNeverDecidesInstall(c: Cache, net1: Network, net2: Network)
    requires forall k :: k in CORE ==> net1(k) == net2(k)
    ensures Installed(c, net1).Some? == Installed(c, net2).Some?
  {
    InstallOutcome(c, net1);
    InstallOutcome(c, net2);
  }

  /** Whether the handler goes to the network for this request. */
  predicate UsesNetwork(names: seq<CacheName>, store: Store, selfOrigin: string, req: Request)
  {
    Intercepted(req, selfOrigin) && (IsHTML(req) || Match(names, store, req.key).None?)
  }

  /**
   * The reply to a request, given the caches and the outcome the network
   * would give. Page loads are network-first with the cached shell, then
   * 503, as fallbacks; assets are cache-first with 504 as the fallback.
   */
  function Answer(names: seq<CacheName>, store: Store, selfOrigin: string, req: Request, outcome: FetchOutcome): (r: Reply)
    ensures r.PassThrough? <==> !Intercepted(req, selfOrigin)
    ensures r.Respond? ==>
      (outcome.Fetched? && r.response == outcome.response) ||
      (exists n, k :: n in names && Holds(store, n, k) && r.response == store[n][k]) ||
      r.response == Offline || r.response == GatewayTimeout
  {
    if !Intercepted(req, selfOrigin) then PassThrough
    else if IsHTML(req) then
      match outcome
      case Fetched(live) => Respond(live)
      case NetworkError =>
        match Match(names, store, ShellKey)
        case Some(cached) => Respond(cached)
        case None => Respond(Offline)
    else
      match Match(names, store, req.key)
      case Some(cached) => Respond(cached)
      case None =>
        match outcome
        case Fetched(live) => Respond(live)
        case NetworkError => Respond(GatewayTimeout)
  }

  /**
   * The entry the handler asks to persist: a live page under the shell
   * key, a live asset under its own key, nothing otherwise.
   */
  function Persist(names: seq<CacheName>, store: Store, selfOrigin: string, req: Request, outcome: FetchOutcome): (w: Option<Entry>)
    ensures w.Some? <==> UsesNetwork(names, store, selfOrigin, req) && outcome.Fetched?
    ensures w.Some? ==> Answer(names, store, selfOrigin, req, outcome) == Respond(w.value.response)
    ensures w.Some? ==> w.value.key == if IsHTML(req) then ShellKey else req.key
  {
    if !Intercepted(req, selfOrigin) then None
    else if IsHTML(req) then
      match outcome
      case Fetched(live) => Some(Entry(ShellKey, live))
      case NetworkError => None
    else if Match(names, store, req.key).Some? then None
    else
      match outcome
      case Fetched(live) => Some(Entry(req.key, live))
      case NetworkError => None
  }

  /** When the handler does not go to the network, the network's outcome changes nothing. */
  lemma NetworkUnusedIsIrrelevant(names: seq<CacheName>, store: Store, selfOrigin: string, req: Request, o1: FetchOutcome, o2: FetchOutcome)
    requires !UsesNetwork(names, store, selfOrigin, req)
    ensures Answer(names, store, selfOrigin, req, o1) == Answer(names, store, selfOrigin, req, o2)
    ensures Persist(names, store, selfOrigin, req, o1).None?
  {
  }

  /** Cache-first hit: the oldest cache's entry is returned and nothing is fetched or written. */
  lemma CacheFirstHit(names: seq<CacheName>, store: Store, selfOrigin: string, req: Request, outcome: FetchOutcome, i: int)
    requires Intercepted(req, selfOrigin) && !IsHTML(req)
    requires FirstHolder(names, store, req.key, i)
    ensures Answer(names, store, selfOrigin, req, outcome) == Respond(store[names[i]][req.key])
    ensures !UsesNetwork(names, store, selfOrigin, req)
    ensures Persist(names, store, selfOrigin, req, outcome).None?
  {
    MatchPrefersOldest(names, store, req.key, i);
  }

  /** Cache-first miss: the live response, kept under the request key; a 504 on failure. */
  lemma CacheFirstMiss(names: seq<CacheName>, store: Store, selfOrigin: string, req: Request, live: Response)
    requires Intercepted(req, selfOrigin) && !IsHTML(req)
    requires forall n :: n in names ==> !Holds(store, n, req.key)
    ensures UsesNetwork(names, store, selfOrigin, req)
    ensures Answer(names, store, selfOrigin, req, Fetched(live)) == Respond(live)
    ensures Persist(names, store, selfOrigin, req, Fetched(live)) == Some(Entry(req.key, live))
    ensures Answer(names, store, selfOrigin, req, NetworkError) == Respond(GatewayTimeout)
    ensures Persist(names, store, selfOrigin, req, NetworkError).None?
  {
  }

  /** Network-first success: the live page is returned and kept under the shell key, not its own. */
  lemma NetworkFirstFresh(names: seq<CacheName>, store: Store, selfOrigin: string, req: Request, live: Response)
    requires Intercepted(req, selfOrigin) && IsHTML(req)
    ensures Answer(names, store, selfOrigin, req, Fetched(live)) == Respond(live)
    ensures Persist(names, store, selfOrigin, req, Fetched(live)) == Some(Entry(ShellKey, live))
  {
  }

  /** Network-first failure: the shell from the oldest cache that holds it, else 503 "Offline". */
  lemma NetworkFirstFallback(names: seq<CacheName>, store: Store, selfOrigin: string, req: Request, i: int)
    requires Intercepted(req, selfOrigin) && IsHTML(req)
    ensures FirstHolder(names, store, ShellKey, i) ==>
      Answer(names, store, selfOrigin, req, NetworkError) == Respond(store[names[i]][ShellKey])
    ensures (forall n :: n in names ==> !Holds(store, n, ShellKey)) ==>
      Answer(names, store, selfOrigin, req, NetworkError) == Respond(Offline)
    ensures Persist(names, store, selfOrigin, req, NetworkError).None?
  {
    if FirstHolder(names, store, ShellKey, i) {
      MatchPrefersOldest(names, store, ShellKey, i);
    }
  }

  /**
   * Once a successful install is the only cache left, every page load that
   * fails on the network is answered with the shell fetched at install, and
   * every core asset asked for by a request that is not HTML-class is
   * served from the cache without the network. A page load of a core asset
   * is still network-first and falls back to the shell, not to its own entry.
   */
  lemma OfflineAfterInstall(c: Cache, net: Network, selfOrigin: string, req: Request, outcome: FetchOutcome)
    requires Installed(c, net).Some?
    requires Intercepted(req, selfOrigin)
    ensures var store := map[CACHE := Installed(c, net).value];
      IsHTML(req) ==>
        Answer([CACHE], store, selfOrigin, req, NetworkError) == Respond(net(ShellKey).response)
    ensures var store := map[CACHE := Installed(c, net).value];
      !IsHTML(req) && req.key in CORE ==>
        !UsesNetwork([CACHE], store, selfOrigin, req) &&
        Answer([CACHE], store, selfOrigin, req, outcome) == Respond(net(req.key).response)
  {
    var store := map[CACHE := Installed(c, net).value];
    CacheIsVersioned();
    InstallOutcome(c, net);
    MatchSingleCache(store, CACHE, ShellKey);
    MatchSingleCache(store, CACHE, req.key);
  }
}
