# Big Dog service worker: a verified model of its cache policy

`sw.js` is the service worker of the Big Dog progressive web app. It owns one
versioned cache, `bigdog-2026-02-08.1`, and installs three handlers:

- **install** opens that cache and adds the app shell (`/`, `/index.html`,
  `/manifest.json`) all or nothing. It then adds each icon separately,
  ignoring any that fail, and calls `skipWaiting`.
- **activate** deletes every cache except the current one and claims the open
  pages.
- **fetch** leaves alone any request that is not a GET or goes to another
  origin. Page loads (`isHTML`) are network-first: the live page is written,
  without waiting, under `/index.html`. If the network fails, the cached
  `/index.html` is served, or a 503 `Offline` when there is none. Every other
  same-origin GET is cache-first. On a miss the live response is written
  under the request's own key. If the network also fails, the reply is a 504
  with an empty body.

The model has six modules. The first five are:

- `Wrappers` holds `Option`.
- `Text` holds ASCII lower-casing and substring search.
- `Requests` holds the request record, `isHTML` and the interception guard.
- `CacheStore` models the browser's cache storage as values:
  - the cache names in creation order, and a map from each name to its
    entries;
  - `caches.match`, which searches in creation order;
  - `cache.addAll`, which is all or nothing;
  - a series of `cache.add` calls, each of which may fail on its own;
  - the deletions of activation.
- `Policy` holds the constants and the handlers' meaning as functions:
  - `Installed` is the current cache after an install;
  - `Answer` is the reply to a request;
  - `Persist` is the entry the handler asks to write.

`Worker` is the imperative part. Its class `ServiceWorker` keeps the cache
storage in fields that its methods update in place. These methods are:

- the cache primitives `Open`, `Delete` and `Put`;
- the `addAll` and per-key `add` steps of install (`AddAllTo`, `AddEachTo`);
- activation's delete loop (`DeleteAllBut`, one step `PruneOne`);
- the detached open-and-put of the fetch handler (`PersistDetached`);
- the three handlers `Install`, `Activate` and `HandleFetch`.

 Each
handler is proved to leave exactly the state described by the `Policy`
functions or given in closed form.

Two oracles stand in for the network:

- at install time, a function from asset key to fetch outcome;
- in the fetch handler, one outcome for the request.

A flag, `putLands`, says whether the fetch handler's unawaited `cache.put`
meets no storage failure. The reply is proved not to depend on it. Even
when the write succeeds, `put` rejects a 206 Partial Content response, so
such a response is served but never stored.

`isHTML` (sw.js:38-42) returns true for a navigation of any method, not
only GET (`NonGetIsHTMLOnlyWhenNavigating`). Nothing observable comes of it,
because the GET guard (sw.js:46) runs first (`GuardRejects`, `Answer`).

## Model

| member | source | states |
|---|---|---|
| Text.Lower | sw.js:40 | The lower-cased header has the same length, and every character is its ASCII lower-case form: no upper-case letter is left, and nothing else changes |
| Text.LowerIdempotent | sw.js:40 | Lower-casing twice is the same as lower-casing once |
| Text.IncludesIff | sw.js:41 | `accept.includes(pat)` is true exactly when `pat` occurs at some index of the string |
| Requests.HtmlClassification | sw.js:38-42 | A request is HTML-class exactly when it is a navigation, or a GET whose lower-cased accept header (empty when the header is absent) contains `text/html` |
| Requests.NavigationIsHTML | sw.js:39 | A navigation is HTML-class whatever its method and accept header |
| Requests.MissingAcceptIsStatic | sw.js:40-41 | A request that is not a navigation and has no accept header is not HTML-class |
| Requests.NonGetIsHTMLOnlyWhenNavigating | sw.js:38-42 | A non-GET request is HTML-class exactly when it is a navigation |
| Requests.AcceptCaseInsensitive | sw.js:40 | The case of the accept header does not change the classification |
| Requests.GuardRejects | sw.js:46-49 | A non-GET request and a request to another origin are never intercepted |
| CacheStore.Match | sw.js:59 | No answer exactly when no listed cache holds the key; otherwise the answer is the entry of some listed cache that holds it |
| CacheStore.MatchPrefersOldest | sw.js:68 | When the i-th cache is the first in creation order to hold the key, that cache's entry is the answer |
| CacheStore.MatchSingleCache | sw.js:59 | When the store has only one cache, matching is a lookup in that cache |
| CacheStore.AddAllContents | sw.js:24 | addAll succeeds exactly when every key fetches a 2xx response other than 206. On success, every key holds its fetched response and every other entry is unchanged |
| CacheStore.AddEachContents | sw.js:25 | After the per-key adds, exactly the keys that fetched a 2xx response other than 206 are added or replaced. A key whose add failed keeps its old entry or stays absent |
| CacheStore.PartialContentFailsAddAll | sw.js:24 | A 206 Partial Content answer to any one key makes addAll fail as a whole |
| CacheStore.WithoutContents | sw.js:33 | After the deletions, exactly the names outside the deleted set remain, with none repeated |
| CacheStore.StaleMembers | sw.js:33 | The caches activation deletes are exactly the listed names other than the kept one |
| CacheStore.OnlyKeptSurvives | sw.js:33 | Deleting every listed name except `keep` leaves the listing `[keep]` when `keep` was listed, and the empty listing otherwise |
| CacheStore.PruneKeepsOnlyCurrent | sw.js:32-33 | After activation's deletions, only the current cache can remain, its contents are unchanged, and the listing holds only that cache |
| Policy.CacheIsVersioned | sw.js:7-19 | The cache name is `bigdog-2026-02-08.1`, the shell key is a core asset, and no core asset is optional |
| Policy.InstallOutcome | sw.js:23-25 | Install succeeds exactly when every core asset fetches a 2xx response other than 206. A successful install holds every core asset, every optional asset that fetched, and the earlier entries otherwise unchanged |
| Policy.OptionalNeverDecidesInstall | sw.js:25 | Two networks that agree on the core assets give installs that agree on success |
| Policy.Answer | sw.js:44-80 | A request passes through exactly when it is not a same-origin GET. Any reply is the live response, a cached entry, the 503 `Offline` or the 504 |
| Policy.Persist | sw.js:51-75 | A write is issued exactly when the handler went to the network and the fetch succeeded. The reply is what was written, under `/index.html` for a page load and under the request key otherwise |
| Policy.NetworkUnusedIsIrrelevant | sw.js:68-69 | When the handler does not go to the network, the network outcome changes neither the reply nor the writes |
| Policy.CacheFirstHit | sw.js:68-69 | For a cached asset, the oldest holder's entry is returned, with no fetch and no write |
| Policy.CacheFirstMiss | sw.js:71-78 | For an uncached asset, the live response is returned and written under the request key; if the fetch fails, a 504 and no write |
| Policy.NetworkFirstFresh | sw.js:53-57 | A live page is returned and written under `/index.html` |
| Policy.NetworkFirstFallback | sw.js:58-61 | If the page fetch fails, the first cache holding `/index.html` answers, or else the 503 `Offline`, and nothing is written |
| Policy.OfflineAfterInstall | sw.js:21-80 | After a successful install with only the current cache left, an offline page load gets the shell fetched at install, and every core asset asked for by a request that is not HTML-class is served from the cache without the network |
| Worker.ServiceWorker.Open | sw.js:23 | The named cache becomes present with its old contents, or empty; a new name is appended last in creation order |
| Worker.ServiceWorker.Delete | sw.js:33 | The cache and its name are removed, nothing else changes, and the result says whether the cache existed |
| Worker.ServiceWorker.Put | sw.js:56 | The entry is added or replaced in the named cache unless the response is a 206, which is rejected; the result says which, and nothing else changes |
| Worker.ServiceWorker.AddAllTo | sw.js:24 | The cache gets all the keys' responses or is left unchanged, and the result says which happened |
| Worker.ServiceWorker.AddEachTo | sw.js:25 | The cache ends as the per-key adds of `AddEach` leave it; no other cache changes |
| Worker.ServiceWorker.Install | sw.js:21-28 | The current cache is opened. On success it holds `Installed` and waiting is skipped; on failure it stays as opened and waiting is not skipped |
| Worker.ServiceWorker.PruneOne | sw.js:33 | One step of activation's loop extends the deletions by `keys[i]` unless it is the kept cache |
| Worker.ServiceWorker.DeleteAllBut | sw.js:32-33 | Every cache except `keep` is deleted; `keep` keeps its contents and is the only name left |
| Worker.ServiceWorker.Activate | sw.js:30-36 | Only the current cache can remain, with its contents unchanged, and the clients are claimed |
| Worker.ServiceWorker.PersistDetached | sw.js:55-56 | The current cache is opened. The entry lands in it exactly when the write meets no storage failure and the response is not a 206, and nothing else changes |
| Worker.ServiceWorker.HandleFetch | sw.js:44-80 | The reply is `Answer`, the network is used exactly when `UsesNetwork` holds, and storage changes only by the `Persist` entry in the current cache, never written for a 206 response |

## Left out

- Event wiring: `addEventListener`, `waitUntil` and `respondWith` are
  modelled as calls to the handler methods. Returning without `respondWith` is
  modelled as `PassThrough`.
- `skipWaiting` and `clients.claim` are modelled as flags. Their effect on
  the browser's worker lifecycle and on open pages is outside the model.
- Concurrency: `Promise.all` and `Promise.allSettled` issue their adds and
  deletes concurrently. The model runs them one after the other, in list
  order. Each of them touches a different key or cache, so the order does
  not change the result.
- Worker.ServiceWorker.HandleFetch: the detached `put` is modelled as
  landing at once or never. In the browser it may land after later requests
  have run. Two such requests for the same asset, or two page loads that
  both write `/index.html`, then race, and the last write wins. A put that
  lands after a later lookup of its key is outside the model, and so is
  the result of that race.
- The network is an oracle. The `{ cache: 'no-store' }` option of the page
  fetch (sw.js:54) is not modelled, and response bodies are strings;
  `clone()` is not modelled (a response is a value).
- Requests are matched by key equality. URL parsing (`new URL`, sw.js:48) is
  replaced by an `origin` field, and `caches.match` options such as `ignoreVary`
  are not modelled.
- CacheStore.Storable: `add`, `addAll` and `put` also reject a response
  that carries `Vary: *`. Responses here have no headers, so that rejection
  is not modelled, neither here nor in `CacheStore.Puttable`.
- Requests.IsHTML: lower-casing covers ASCII only. `toLowerCase` also maps
  non-ASCII letters, which cannot change whether `text/html` occurs.
- Rejections of `caches.open`, `caches.match`, `caches.keys` and
  `caches.delete` are not modelled. These are storage failures, like a quota
  error, that the code does not handle on purpose. In particular, a rejected
  `caches.open` after a successful page fetch would fall into the `catch` at
  sw.js:58 and serve the fallback. The model always lets the open succeed.
- Worker.ServiceWorker.Install: a failed `addAll` rejects the install
  promise, and the browser then discards the worker. The model returns
  `false`, with the opened cache left as opened, and says nothing about what
  the browser does next.
- Header values that are present but empty (`''`) behave like an absent
  header, as `|| ''` does in the source. The model therefore needs no
  separate case for them.
