/**
 * The browser's cache storage as values: named caches, each a map from a
 * request key to a stored response, kept in creation order. The functions
 * here are the meanings of `caches.match`, `cache.addAll`, a run of
 * independent `cache.add` calls and the deletion of whole caches.
 */
module CacheStore {

  import opened Wrappers
  import opened Requests

  /** A response snapshot; responses are immutable values here. */
  datatype Response = Response(status: int, body: string)

  /** The result of one network fetch: a response (of any status) or a rejection. */
  datatype FetchOutcome = Fetched(response: Response) | NetworkError

  /** What the network answers for each key during one install. */
  type Network = Key -> FetchOutcome

  type CacheName = string
  type Cache = map<Key, Response>
  type Store = map<CacheName, Cache>

  /** No cache name is listed twice. */
  predicate Distinct(names: seq<CacheName>)
  {
    forall i, j :: 0 <= i < j < |names| ==> names[i] != names[j]
  }

  /** The cache called `name` holds an entry for `key`. */
  predicate Holds(store: Store, name: CacheName, key: Key)
  {
    name in store && key in store[name]
  }

  /** The cache `caches.open(name)` yields: the existing one, or a new empty one. */
  function Slot(store: Store, name: CacheName): Cache
  {
    if name in store then store[name] else map[]
  }

  /**
   * `caches.match(key)`: search the caches in creation order and answer the
   * entry of the first one that holds the key.
   */
  function Match(names: seq<CacheName>, store: Store, key: Key): (r: Option<Response>)
    ensures r.None? <==> forall n :: n in names ==> !Holds(store, n, key)
    ensures r.Some? ==> exists n :: n in names && Holds(store, n, key) && r.value == store[n][key]
  {
    if names == [] then None
    else if Holds(store, names[0], key) then Some(store[names[0]][key])
    else Match(names[1..], store, key)
  }

  /** The first cache, in creation order, that holds `key` is the `i`-th one. */
  predicate FirstHolder(names: seq<CacheName>, store: Store, key: Key, i: int)
  {
    0 <= i < |names| && Holds(store, names[i], key) &&
    forall j :: 0 <= j < i ==> !Holds(store, names[j], key)
  }

  /** When several caches hold the key, the oldest one's entry is answered. */
  lemma {:induction false} MatchPrefersOldest(names: seq<CacheName>, store: Store, key: Key, i: int)
    requires FirstHolder(names, store, key, i)
    ensures Match(names, store, key) == Some(store[names[i]][key])
    decreases i
  {
    if i > 0 {
      assert !Holds(store, names[0], key);
      assert FirstHolder(names[1..], store, key, i - 1) by {
        forall j | 0 <= j < i - 1
          ensures !Holds(store, names[1..][j], key)
        {
          assert names[1..][j] == names[j + 1];
        }
      }
      MatchPrefersOldest(names[1..], store, key, i - 1);
    }
  }

  /** While only `name` exists, a search of all caches is a lookup in that one. */
  lemma MatchSingleCache(store: Store, name: CacheName, key: Key)
    requires store.Keys <= {name}
    ensures Match([name], store, key) == (if Holds(store, name, key) then Some(store[name][key]) else None)
  {
  }

  /**
   * `add` and `addAll` keep only a fetched response whose status is in the
   * range 200-299 and is not 206 Partial Content.
   */
  predicate Storable(o: FetchOutcome)
  {
    o.Fetched? && 200 <= o.response.status <= 299 && o.response.status != 206
  }

  /** `cache.put` rejects a 206 Partial Content response; it stores any other. */
  predicate Puttable(r: Response)
  {
    r.status != 206
  }

  /**
   * `cache.addAll(keys)`: all or nothing. When every key fetches a storable
   * response, the cache gets all of them; when any one fails, nothing.
   */
  function AddAll(c: Cache, keys: seq<Key>, net: Network): Option<Cache>
    decreases |keys|
  {
    if keys == [] then Some(c)
    else if !Storable(net(keys[0])) then None
    else AddAll(c[keys[0] := net(keys[0]).response], keys[1..], net)
  }

  /**
   * `addAll` succeeds exactly when every key fetches a storable response;
   * then every key maps to its fetched response and the rest is untouched.
   */
  lemma {:induction false} AddAllContents(c: Cache, keys: seq<Key>, net: Network)
    ensures AddAll(c, keys, net).Some? <==> forall k :: k in keys ==> Storable(net(k))
    ensures AddAll(c, keys, net).Some? ==>
      var r := AddAll(c, keys, net).value;
      && r.Keys == c.Keys + (set k | k in keys)
      && (forall k :: k in keys ==> r[k] == net(k).response)
      && (forall k :: k in c && k !in keys ==> r[k] == c[k])
    decreases |keys|
  {
    if keys != [] && Storable(net(keys[0])) {
      AddAllContents(c[keys[0] := net(keys[0]).response], keys[1..], net);
    }
  }

  /**
   * One `cache.add` per key, each caught on its own: every key whose fetch
   * is storable is stored, the others leave the cache as it was. Defined
   * back to front, in the order a loop over the keys performs the adds.
   */
  function AddEach(c: Cache, keys: seq<Key>, net: Network): Cache
    decreases |keys|
  {
    if keys == [] then c
    else
      var prev := AddEach(c, keys[..|keys| - 1], net);
      var k := keys[|keys| - 1];
      if Storable(net(k)) then prev[k := net(k).response] else prev
  }

  /**
   * After the independent adds, a key's entry depends on its own fetch
   * alone: stored when storable, otherwise as it was before.
   */
  lemma {:induction false} AddEachContents(c: Cache, keys: seq<Key>, net: Network)
    ensures var r := AddEach(c, keys, net);
      && r.Keys == c.Keys + (set k | k in keys && Storable(net(k)))
      && (forall k :: k in keys && Storable(net(k)) ==> r[k] == net(k).response)
      && (forall k :: k in c && !(k in keys && Storable(net(k))) ==> r[k] == c[k])
    decreases |keys|
  {
    if keys != [] {
      var init := keys[..|keys| - 1];
      AddEachContents(c, init, net);
      assert forall k :: k in keys <==> k in init || k == keys[|keys| - 1];
    }
  }

  /** One more independent add extends the run of adds by exactly that key's outcome. */
  lemma AddEachStep(c: Cache, keys: seq<Key>, k: Key, net: Network)
    ensures AddEach(c, keys + [k], net) ==
      if Storable(net(k)) then AddEach(c, keys, net)[k := net(k).response] else AddEach(c, keys, net)
  {
    assert (keys + [k])[..|keys|] == keys;
  }

  /** The cache names left once every name in `dead` is deleted, order kept. */
  function Without(names: seq<CacheName>, dead: set<CacheName>): seq<CacheName>
  {
    if names == [] then []
    else if names[0] in dead then Without(names[1..], dead)
    else [names[0]] + Without(names[1..], dead)
  }

  /** Exactly the names outside `dead` are left, and none of them twice. */
  lemma {:induction false} WithoutContents(names: seq<CacheName>, dead: set<CacheName>)
    ensures forall n :: n in Without(names, dead) <==> n in names && n !in dead
    ensures Distinct(names) ==> Distinct(Without(names, dead))
  {
    if names != [] {
      WithoutContents(names[1..], dead);
      if Distinct(names) {
        assert Distinct(names[1..]) by {
          forall i, j | 0 <= i < j < |names[1..]|
            ensures names[1..][i] != names[1..][j]
          {
            assert names[1..][i] == names[i + 1] && names[1..][j] == names[j + 1];
          }
        }
        assert names[0] !in names[1..] by {
          forall j | 0 <= j < |names[1..]|
            ensures names[1..][j] != names[0]
          {
            assert names[1..][j] == names[j + 1];
          }
        }
      }
    }
  }

  /** `names` lists every cache of `store` exactly once, in some order. */
  ghost predicate Listed(names: seq<CacheName>, store: Store)
  {
    Distinct(names) && forall n :: n in names <==> n in store
  }

  /** Deleting the same caches from the store and from its listing keeps them in step. */
  lemma ListedWithout(names: seq<CacheName>, store: Store, dead: set<CacheName>)
    requires Listed(names, store)
    ensures Listed(Without(names, dead), store - dead)
  {
    WithoutContents(names, dead);
  }

  /**
   * The names among `names` that are not `keep`: the ones activation
   * deletes. Built name by name, in the order the deletions are issued.
   */
  function Stale(names: seq<CacheName>, keep: CacheName): set<CacheName>
  {
    if names == [] then {}
    else
      var last := names[|names| - 1];
      Stale(names[..|names| - 1], keep) + (if last == keep then {} else {last})
  }

  /** Looking at one more name adds it to the stale ones unless it is `keep`. */
  lemma StaleStep(names: seq<CacheName>, x: CacheName, keep: CacheName)
    ensures Stale(names + [x], keep) == if x == keep then Stale(names, keep) else Stale(names, keep) + {x}
  {
    assert (names + [x])[..|names|] == names;
  }

  /** A name is stale exactly when it is listed and is not `keep`. */
  lemma {:induction false} StaleMembers(names: seq<CacheName>, keep: CacheName)
    ensures forall n :: n in Stale(names, keep) <==> n in names && n != keep
  {
    if names != [] {
      var init := names[..|names| - 1];
      StaleMembers(init, keep);
      assert names == init + [names[|names| - 1]];
    }
  }

  /** Replacing a cache twice is replacing it once with the second contents. */
  lemma ReplaceTwice(store: Store, name: CacheName, first: Cache, second: Cache)
    ensures store[name := first][name := second] == store[name := second]
  {
  }

  /** Removing caches `dead` and then `x` from the store is removing both at once. */
  lemma RemoveTwice(store: Store, dead: set<CacheName>, x: CacheName)
    ensures (store - dead) - {x} == store - (dead + {x})
  {
  }

  /** Deleting no names keeps them all. */
  lemma {:induction false} WithoutNothing(names: seq<CacheName>)
    ensures Without(names, {}) == names
  {
    if names != [] {
      WithoutNothing(names[1..]);
    }
  }

  /** Deleting `dead` and then `x` is deleting both at once. */
  lemma {:induction false} WithoutTwice(names: seq<CacheName>, dead: set<CacheName>, x: CacheName)
    ensures Without(Without(names, dead), {x}) == Without(names, dead + {x})
  {
    if names != [] {
      WithoutTwice(names[1..], dead, x);
    }
  }

  /**
   * Deleting every name other than `keep` leaves `keep` alone when it was
   * there, and nothing otherwise.
   */
  lemma {:induction false} OnlyKeptSurvives(names: seq<CacheName>, dead: set<CacheName>, keep: CacheName)
    requires Distinct(names)
    requires keep !in dead
    requires forall n :: n in names && n != keep ==> n in dead
    ensures Without(names, dead) == if keep in names then [keep] else []
  {
    if names != [] {
      assert Distinct(names[1..]) by {
        forall i, j | 0 <= i < j < |names[1..]|
          ensures names[1..][i] != names[1..][j]
        {
          assert names[1..][i] == names[i + 1] && names[1..][j] == names[j + 1];
        }
      }
      OnlyKeptSurvives(names[1..], dead, keep);
      if names[0] == keep {
        assert keep !in names[1..] by {
          forall j | 0 <= j < |names[1..]|
            ensures names[1..][j] != keep
          {
            assert names[1..][j] == names[j + 1];
          }
        }
      }
    }
  }

  /**
   * One step of activation: deleting the `i`-th listed name, when it is
   * stale, extends the deletions done so far by exactly that name.
   */
  lemma PruneStep(store: Store, names: seq<CacheName>, i: nat, keep: CacheName)
    requires i < |names|
    ensures names[i] == keep ==> Stale(names[..i + 1], keep) == Stale(names[..i], keep)
    ensures names[i] != keep ==>
      && (store - Stale(names[..i], keep)) - {names[i]} == store - Stale(names[..i + 1], keep)
      && Without(Without(names, Stale(names[..i], keep)), {names[i]}) == Without(names, Stale(names[..i + 1], keep))
  {
    assert names[..i + 1] == names[..i] + [names[i]];
    StaleStep(names[..i], names[i], keep);
    RemoveTwice(store, Stale(names[..i], keep), names[i]);
    WithoutTwice(names, Stale(names[..i], keep), names[i]);
  }

  /**
   * Deleting every stale name from a store whose names are listed once
   * each leaves at most `keep`, with its contents as they were.
   */
  lemma PruneKeepsOnlyCurrent(names: seq<CacheName>, store: Store, keep: CacheName)
    requires Listed(names, store)
    ensures (store - Stale(names, keep)).Keys == store.Keys * {keep}
    ensures keep in store ==> (store - Stale(names, keep))[keep] == store[keep]
    ensures Without(names, Stale(names, keep)) == if keep in store then [keep] else []
    ensures Listed(Without(names, Stale(names, keep)), store - Stale(names, keep))
  {
    StaleMembers(names, keep);
    OnlyKeptSurvives(names, Stale(names, keep), keep);
    ListedWithout(names, store, Stale(names, keep));
  }

  /**
   * The state once activation has looked at all `i == |names|` listed
   * names, in the form its loop invariant states it.
   */
  lemma PruneDone(names: seq<CacheName>, store: Store, keep: CacheName, i: nat)
    requires Listed(names, store) && i == |names|
    ensures (store - Stale(names[..i], keep)).Keys == store.Keys * {keep}
    ensures keep in store ==> (store - Stale(names[..i], keep))[keep] == store[keep]
    ensures Without(names, Stale(names[..i], keep)) == if keep in store then [keep] else []
    ensures Listed(Without(names, Stale(names[..i], keep)), store - Stale(names[..i], keep))
  {
    assert names[..i] == names;
    PruneKeepsOnlyCurrent(names, store, keep);
  }

  /** A 206 Partial Content answer to any one key makes `addAll` fail as a whole. */
  lemma PartialContentFailsAddAll(c: Cache, keys: seq<Key>, net: Network, k: Key)
    requires k in keys && net(k).Fetched? && net(k).response.status == 206
    ensures AddAll(c, keys, net).None?
  {
    AddAllContents(c, keys, net);
  }
}
