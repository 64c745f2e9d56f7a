/**
 * The service worker itself: the shared cache storage as fields, the cache
 * storage primitives it calls, and the install, activate and fetch
 * handlers as methods that change that storage step by step.
 */
module Worker {

  import opened Wrappers
  import opened Requests
  import opened CacheStore
  import opened Policy

  class ServiceWorker {
    /** The origin the worker is registered on. */
    const selfOrigin: string

    /** The cache names in creation order, as `caches.keys()` lists them. */
    var names: seq<CacheName>

    /** The contents of every cache, by name. */
    var store: Store

    /** `self.skipWaiting()` has been called. */
    var skippedWaiting: bool

    /** `self.clients.claim()` has been called. */
    var claimedClients: bool

    /** Every cache is listed exactly once among the names. */
    ghost predicate Valid()
      reads this
    {
      Listed(names, store)
    }

    /** A worker starting over whatever caches earlier versions left behind. */
    constructor (origin: string, existingNames: seq<CacheName>, existing: Store)
      requires Listed(existingNames, existing)
      ensures Valid()
      ensures selfOrigin == origin && names == existingNames && store == existing
      ensures !skippedWaiting && !claimedClients
    {
      selfOrigin := origin;
      names := existingNames;
      store := existing;
      skippedWaiting := false;
      claimedClients := false;
    }

    /** `caches.open(name)`: create the cache, empty and newest, unless it exists. */
    method Open(name: CacheName)
      requires Valid()
      modifies this
      ensures Valid()
      ensures store == old(store)[name := Slot(old(store), name)]
      ensures names == if name in old(store) then old(names) else old(names) + [name]
      ensures skippedWaiting == old(skippedWaiting) && claimedClients == old(claimedClients)
    {
      if name !in store {
        store := store[name := map[]];
        names := names + [name];
      }
    }

    /** `caches.delete(name)`: drop the cache and its name; answers whether it existed. */
    method Delete(name: CacheName) returns (existed: bool)
      requires Valid()
      modifies this
      ensures Valid()
      ensures existed == (name in old(store))
      ensures store == old(store) - {name}
      ensures names == Without(old(names), {name})
      ensures skippedWaiting == old(skippedWaiting) && claimedClients == old(claimedClients)
    {
      WithoutContents(names, {name});
      existed := name in store;
      store := store - {name};
      names := Without(names, {name});
    }

    /**
     * `cache.put(key, response)` on an open cache: the entry is replaced or
     * added, unless the response is partial content, which is rejected.
     */
    method Put(name: CacheName, key: Key, response: Response) returns (ok: bool)
      requires Valid() && name in store
      modifies this
      ensures Valid()
      ensures ok == Puttable(response)
      ensures store == old(store)[name := if ok then old(store)[name][key := response] else old(store)[name]]
      ensures names == old(names)
      ensures skippedWaiting == old(skippedWaiting) && claimedClients == old(claimedClients)
    {
      ok := Puttable(response);
      if ok {
        store := store[name := store[name][key := response]];
      }
    }

    /** `cache.addAll(keys)` on the open cache `name`: every key stored, or none. */
    method AddAllTo(name: CacheName, keys: seq<Key>, net: Network) returns (ok: bool)
      requires Valid() && name in store
      modifies this
      ensures Valid()
      ensures ok == AddAll(old(store)[name], keys, net).Some?
      ensures store == old(store)[name := if ok then AddAll(old(store)[name], keys, net).value else old(store)[name]]
      ensures names == old(names)
      ensures skippedWaiting == old(skippedWaiting) && claimedClients == old(claimedClients)
    {
      var added := AddAll(store[name], keys, net);
      ok := added.Some?;
      if ok {
        store := store[name := added.value];
      }
    }

    /**
     * One `cache.add` per key into the open cache `name`, each failure
     * caught on its own, as `Promise.allSettled` over the keys does.
     */
    method AddEachTo(name: CacheName, keys: seq<Key>, net: Network)
      requires Valid() && name in store
      modifies this
      ensures Valid()
      ensures store == old(store)[name := AddEach(old(store)[name], keys, net)]
      ensures names == old(names)
      ensures skippedWaiting == old(skippedWaiting) && claimedClients == old(claimedClients)
    {
      var i := 0;
      while i < |keys|
        invariant 0 <= i <= |keys|
        invariant Valid() && names == old(names)
        invariant store == old(store)[name := AddEach(old(store)[name], keys[..i], net)]
        invariant skippedWaiting == old(skippedWaiting) && claimedClients == old(claimedClients)
      {
        var outcome := net(keys[i]);
        if Storable(outcome) {
          var ok := Put(name, keys[i], outcome.response);
        }
        assert keys[..i + 1] == keys[..i] + [keys[i]];
        AddEachStep(old(store)[name], keys[..i], keys[i], net);
        i := i + 1;
      }
      assert keys[..i] == keys;
    }

    /**
     * The install handler: open the current cache, add the core assets all
     * or nothing, add each optional asset on its own, then skip waiting.
     * `ok` is false exactly when the install fails.
     */
    method Install(net: Network) returns (ok: bool)
      requires Valid()
      modifies this
      ensures Valid()
      ensures ok == Installed(Slot(old(store), CACHE), net).Some?
      ensures names == if CACHE in old(store) then old(names) else old(names) + [CACHE]
      ensures ok ==> store == old(store)[CACHE := Installed(Slot(old(store), CACHE), net).value]
      ensures !ok ==> store == old(store)[CACHE := Slot(old(store), CACHE)]
      ensures skippedWaiting == (old(skippedWaiting) || ok)
      ensures claimedClients == old(claimedClients)
    {
      ghost var start := Slot(old(store), CACHE);
      Open(CACHE);
      ghost var afterOpen := store;
      assert afterOpen == old(store)[CACHE := start];
      ok := AddAllTo(CACHE, CORE, net);
      InstalledSteps(start, net);
      if !ok {
        return;
      }
      ghost var withCore := AddAll(start, CORE, net).value;
      ReplaceTwice(old(store), CACHE, start, withCore);
      ghost var afterCore := store;
      AddEachTo(CACHE, OPTIONAL, net);
      ReplaceTwice(old(store), CACHE, withCore, AddEach(withCore, OPTIONAL, net));
      assert store == afterCore[CACHE := AddEach(withCore, OPTIONAL, net)];
      skippedWaiting := true;
    }

    /**
     * One step of the activate handler's loop over the names `keys` it
     * listed at the start: delete the cache `keys[i]` unless it is `keep`.
     */
    method PruneOne(keys: seq<CacheName>, keep: CacheName, i: nat, ghost store0: Store)
      requires Listed(keys, store0) && i < |keys|
      requires store == store0 - Stale(keys[..i], keep)
      requires names == Without(keys, Stale(keys[..i], keep))
      modifies this
      ensures store == store0 - Stale(keys[..i + 1], keep)
      ensures names == Without(keys, Stale(keys[..i + 1], keep))
      ensures skippedWaiting == old(skippedWaiting) && claimedClients == old(claimedClients)
    {
      ListedWithout(keys, store0, Stale(keys[..i], keep));
      PruneStep(store0, keys, i, keep);
      if keys[i] != keep {
        var existed := Delete(keys[i]);
      }
    }

    /**
     * Delete, one after the other, every cache in `keys` other than `keep`.
     * Each deletion is independent of the others.
     */
    method DeleteAllBut(keys: seq<CacheName>, keep: CacheName)
      requires Valid() && keys == names
      modifies this
      ensures Valid()
      ensures store.Keys == old(store).Keys * {keep}
      ensures keep in old(store) ==> store[keep] == old(store)[keep]
      ensures names == if keep in old(store) then [keep] else []
      ensures skippedWaiting == old(skippedWaiting) && claimedClients == old(claimedClients)
    {
      ghost var store0 := store;
      var i := 0;
      WithoutNothing(keys);
      assert Stale(keys[..0], keep) == {};
      while i < |keys|
        invariant 0 <= i <= |keys|
        invariant store == store0 - Stale(keys[..i], keep)
        invariant names == Without(keys, Stale(keys[..i], keep))
        invariant skippedWaiting == old(skippedWaiting) && claimedClients == old(claimedClients)
      {
        PruneOne(keys, keep, i, store0);
        i := i + 1;
      }
      PruneDone(keys, store0, keep, i);
    }

    /**
     * The activate handler: list the caches, delete every one but the
     * current one, then claim the open pages.
     */
    method Activate()
      requires Valid()
      modifies this
      ensures Valid()
      ensures store.Keys == old(store).Keys * {CACHE}
      ensures CACHE in old(store) ==> store[CACHE] == old(store)[CACHE]
      ensures names == if CACHE in old(store) then [CACHE] else []
      ensures skippedWaiting == old(skippedWaiting)
      ensures claimedClients
    {
      var keys := names;
      DeleteAllBut(keys, CACHE);
      claimedClients := true;
    }

    /**
     * `caches.open(CACHE)` followed by a `put` that is neither awaited nor
     * allowed to fail the request. `lands` says whether the write is issued
     * without a storage failure; even then `put` rejects partial content.
     */
    method PersistDetached(key: Key, response: Response, lands: bool)
      requires Valid()
      modifies this
      ensures Valid()
      ensures names == if CACHE in old(store) then old(names) else old(names) + [CACHE]
      ensures store == old(store)[CACHE :=
        if lands && Puttable(response) then Slot(old(store), CACHE)[key := response] else Slot(old(store), CACHE)]
      ensures skippedWaiting == old(skippedWaiting) && claimedClients == old(claimedClients)
    {
      Open(CACHE);
      if lands {
        ReplaceTwice(old(store), CACHE, Slot(old(store), CACHE), Slot(old(store), CACHE)[key := response]);
        var ok := Put(CACHE, key, response);
      }
    }

    /**
     * The fetch handler. `outcome` is what the network would answer if
     * asked; `putLands` is whether the detached write meets no storage
     * failure (a partial response is rejected regardless). The reply
     * does not depend on `putLands`, and the storage changes only by the
     * entry `Persist` names, written into the current cache.
     */
    method HandleFetch(req: Request, outcome: FetchOutcome, putLands: bool) returns (reply: Reply, usedNetwork: bool)
      requires Valid()
      modifies this
      ensures Valid()
      ensures reply == Answer(old(names), old(store), selfOrigin, req, outcome)
      ensures usedNetwork == UsesNetwork(old(names), old(store), selfOrigin, req)
      ensures var w := Persist(old(names), old(store), selfOrigin, req, outcome);
        if w.None? then store == old(store) && names == old(names)
        else
          && names == (if CACHE in old(store) then old(names) else old(names) + [CACHE])
          && store == old(store)[CACHE :=
               if putLands && Puttable(w.value.response) then Slot(old(store), CACHE)[w.value.key := w.value.response]
               else Slot(old(store), CACHE)]
      ensures skippedWaiting == old(skippedWaiting) && claimedClients == old(claimedClients)
    {
      if req.verb != "GET" {
        return PassThrough, false;
      }
      if req.origin != selfOrigin {
        return PassThrough, false;
      }
      if IsHTML(req) {
        usedNetwork := true;
        match outcome {
          case Fetched(live) =>
            PersistDetached(ShellKey, live, putLands);
            reply := Respond(live);
          case NetworkError =>
            var cached := Match(names, store, ShellKey);
            reply := if cached.Some? then Respond(cached.value) else Respond(Offline);
        }
        return;
      }
      var cached := Match(names, store, req.key);
      if cached.Some? {
        return Respond(cached.value), false;
      }
      usedNetwork := true;
      match outcome {
        case Fetched(live) =>
          PersistDetached(req.key, live, putLands);
          reply := Respond(live);
        case NetworkError =>
          reply := Respond(GatewayTimeout);
      }
    }
  }
}
