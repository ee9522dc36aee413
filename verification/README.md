# quick-worker, modelled in Dafny

quick-worker turns a built web application into an offline-capable one. It
has three cooperating parts, and this project models the decision logic of
each as pure functions over immutable datatypes:

- **The manifest builder** (`src/index.ts`).
  - `dirinfo` walks the build directory depth first, visiting entries in sorted name order.
  - It folds a rolling digest `H := MD5(H ++ name ++ Base64(content))`, seeded with `""`, over the regular files.
  - It sums their sizes and reports them as sorted web paths.
  - The generator validates the deployment type, prepares the root and emits `apphash.json`: `{hash, files, size}` in static mode, `{hash}` otherwise.
- **The cache runtime** (`scripts/service-worker.js`).
  - Install selects and precaches files into `QSW-STATIC-v1`.
  - Activate prunes the worker's own caches of other versions.
  - The fetch handler is a first-match-wins classifier: bypass, a four-probe cache lookup, navigation preload, network with a cacheability predicate, then the failure fallback.
- **The update reconciler** (`scripts/service-worker-handler.js`).
  - On page load it reads the manifest and decides one of: do nothing, tear the worker down, or register it.
  - Teardown deletes the worker's caches, unregisters it and forgets the stored hash.

The modules follow that structure:

- `outcomes.dfy`: `Option` and `Result`.
- `strings.dfy`: JavaScript's default string order, an insertion sort with its permutation and uniqueness lemmas, prefix and suffix tests, and ASCII lower-casing.
- `json.dfy`: the parsed manifest, JavaScript truthiness, and the page's view of a manifest fetch.
- `dir_walk.dfy`: `dirinfo`, and the traversal-order reference it is proved against.
- `generator.dfy`: the generation entry point.
- `cache_storage.dfy`: the Cache Storage API.
  - Storage is an ordered sequence of named caches, because `caches.match` searches them in creation order.
  - Each cache is an ordered sequence of entries, because an ignore-query match returns the first hit.
- `cache_runtime.dfy`: the worker's install, activate and fetch handlers.
- `reconciler.dfy`: the load-time reconciliation and teardown.
- `end_to_end.dfy`: properties that cross the three parts. A static build's manifest becomes the precache list, its hash drives the reconciler, and a precached file is then served from STATIC.

Abstractions:

- MD5 and Base64 are the two function fields of a `Codec` the caller supplies, so nothing is assumed about them.
- The file tree is a recursive `Node` datatype as `stat` sees it, so a symbolic link appears as the node it points to.
- The network, navigation preload, per-file fetches, cache-write failures and registration failures are parameters of the operations.

Behaviour of the code that this model keeps as written:

- The "not cacheable" branch logs an undeclared variable, `shouldNotCache`.
  - Arguments are evaluated even when logging is off, so the branch throws a ReferenceError.
  - The handler's own catch turns that into the network-error path.
  - So in runtime mode, a 200 response that no cacheability test accepts is never returned.
  - The user sees the cache fallback or a 503 instead (`UncacheableResponseIsLost`).
- The fallback for non-navigation requests uses `caches.match`, which searches every cache of the origin, not only the worker's two.
- A navigation-preload response is stored in RUNTIME whatever its status, except 206 (partial content), which `cache.put` rejects.
- Teardown deletes every cache with either prefix, the current version included. Activation spares the two current names.
- The visited set of `dirinfo` holds lexically resolved paths. A directory reachable under two names is walked twice (`LinkedDirectoryWalkedTwice`).
- The type check `type && …` lets the empty string through: no offline page, and the manifest has no file list.
- The handler treats `disable`, `unregister` and the stored hash by truthiness, so a stored hash of `""` never counts as drift.
  - A `null` manifest body makes the property reads throw, and the error is swallowed.
  - A primitive or array body reads `hash` as `undefined`.
  - Both end in no action.

In `dirinfo`, only an entry whose `stat` fails is skipped (src/index.ts:198-203). A directory whose `readdirSync` throws aborts the whole walk (src/index.ts:192), as does a regular file whose read throws (src/index.ts:212-221).

The reconciler's decision type has three values: `Skip`, `Teardown` and `Register(hash)`. Skip covers both "no action" and the invalid-hash abort, because both leave every piece of client state unchanged.

## Model

| member | source | states |
|---|---|---|
| Strings.LexLeTotal | src/index.ts:194 | any two names are comparable under the default sort order, so the entry order is fully determined |
| Strings.LexLeTransitive | src/index.ts:194 | the default sort order is transitive |
| Strings.LexLeAntisymmetric | src/index.ts:194 | two names that sort before each other are equal, so distinct names never tie |
| Strings.SortBy | src/index.ts:192-194 | the sorted listing is ordered by name and is a permutation of the listing |
| Strings.SortedUnique | src/index.ts:192-194 | two sorted permutations of one listing with distinct names are identical, so the order readdir returns cannot affect the result |
| Strings.Lower | scripts/service-worker.js:244-249 | the case-insensitive match folds exactly the ASCII capitals and keeps every other character |
| JsonValues.Get | scripts/service-worker-handler.js:17-19 | a property read yields a value exactly when the body is an object holding that key |
| JsonValues.StringItems | scripts/service-worker.js:393 | a list is accepted exactly when every item is a string, and the accepted list holds those strings in order |
| JsonValues.StringArray | src/index.ts:147 | a serialised list of paths reads back as the same list |
| DirWalk.Join | src/index.ts:197 | an entry's path extends its directory's path |
| DirWalk.WalkDir | src/index.ts:184-229 | an already visited directory is skipped with no change; a walk that succeeds records the directory as visited and only grows the visited set, the size and the file list |
| DirWalk.WalkEntries | src/index.ts:196-226 | walking a directory's entries only grows the visited set, the size and the file list |
| DirWalk.WalkEntry | src/index.ts:197-225 | one entry's step only grows the visited set, the size and the file list |
| DirWalk.RollAppend | src/index.ts:213-218 | the rolling digest over two stretches of files is the digest over the second stretch, seeded with the digest over the first |
| DirWalk.WalkDirIsFold | src/index.ts:184-229 | the walk fails exactly when the traversal meets an unlistable directory or unreadable file; otherwise its files, size and hash are the traversal's paths, summed sizes and left-folded digest, and its visited set is the traversal's |
| DirWalk.WalkEntriesIsFold | src/index.ts:196-226 | the same agreement between the walk and the traversal, for a run of entries |
| DirWalk.WalkEntryIsFold | src/index.ts:197-225 | the same agreement between the walk and the traversal, for one entry |
| DirWalk.TraverseDirEnteredOnce | src/index.ts:184-190 | no directory path is entered twice in one walk, and none already visited is entered |
| DirWalk.TraverseEntriesEnteredOnce | src/index.ts:196-207 | the visited set shared across sibling entries keeps each directory path to one entry |
| DirWalk.TraverseEntryEnteredOnce | src/index.ts:206-207 | a subdirectory's walk enters no path twice and no path visited before it |
| DirWalk.ReplaceBackslashes | src/index.ts:240 | every backslash becomes a slash and every other character is kept, at the same position |
| DirWalk.ReplaceNoBackslash | src/index.ts:240 | a path without backslashes is unchanged by normalisation |
| DirWalk.WebPath | src/index.ts:237-243 | a web path is non-empty, starts with a slash and has no backslash; for a path under the root it is the normalised remainder, or that remainder with one slash put in front |
| DirWalk.WebPathLeadingSlash | src/index.ts:240-242 | the slash is put in front exactly when the normalised remainder does not already start with one, so no web path starts with a doubled slash |
| DirWalk.WebPathRoundTrip | src/index.ts:237-243 | a slash-led, backslash-free web path appended to the root comes back unchanged |
| DirWalk.WebPathOfJoin | src/index.ts:237-243 | a file directly in the root becomes "/" followed by its normalised name |
| DirWalk.Normalized | src/index.ts:236-243 | normalisation maps each collected path, position by position, to its web path |
| DirWalk.WebPaths | src/index.ts:236-244 | the reported list is sorted, is a permutation of the normalised paths, and every item starts with a slash and has no backslash |
| DirWalk.DirInfoOf | src/index.ts:171-247 | an empty path fails with "path required" and a root that is not a directory with "not found"; a success reports the root it was given and a sorted list of slash-led, backslash-free web paths |
| DirWalk.DirInfoSpec | src/index.ts:171-247 | `dirinfo` fails exactly when the root path is empty or not a directory, or some walked directory or file cannot be read; otherwise hash, size and files are the digest, sum and sorted web paths of the regular files in depth-first sorted order, and no directory is entered twice |
| DirWalk.Canon | src/index.ts:192-194 | the canonical form of a tree, with every listing sorted by name, keeps each node's name, kind and listability |
| DirWalk.CanonChildren | src/index.ts:192-194 | a canonical directory lists the canonical forms of its children in sorted order |
| DirWalk.WalkDirCanon | src/index.ts:184-229 | walking a directory gives the same result as walking its canonical form |
| DirWalk.WalkEntriesCanon | src/index.ts:196-226 | walking a run of entries gives the same result as walking their canonical forms |
| DirWalk.WalkEntryCanon | src/index.ts:197-225 | walking one entry gives the same result as walking its canonical form |
| DirWalk.SameCanonSameInfo | src/index.ts:171-247 | two trees with the same canonical form give the same `dirinfo` result, hash included |
| DirWalk.ReorderedSameCanon | src/index.ts:192-194 | a directory whose entries come back from readdir in another order has the same canonical form |
| DirWalk.RootFileListed | src/index.ts:196-244 | a regular file directly in the root appears in the reported files as "/" plus its normalised name |
| DirWalk.DirInfoFiles | src/index.ts:231-246 | a successful result's file list is the sorted web paths of the traversal's regular files, and the root was listable |
| DirWalk.WalkOneFileDir | src/index.ts:184-229 | a directory holding one readable file is marked visited, gains that file's path and size, and takes one digest step |
| DirWalk.LinkedDirectoryWalkedTwice | src/index.ts:184-190 | two names leading to the same directory contents are both walked, so its file is listed, sized and hashed twice |
| Generator.ValidateType | src/index.ts:15-19 | the type is rejected exactly when it is a non-empty string other than "static" and "runtime"; an absent type means runtime; the empty string passes |
| Generator.RemoveFileIfExists | src/index.ts:161-169 | only a regular file of that name is removed; a missing name or a directory leaves the tree as it was |
| Generator.WriteFile | src/index.ts:86-90 | a write fails exactly when a directory holds the name; otherwise the file is present with the given content and every other entry is kept |
| Generator.EnsureOfflinePage | src/index.ts:49-61 | an existing offline page is kept untouched; otherwise one is written, and creation fails exactly when a directory holds the name |
| Generator.ToJson | src/index.ts:145-150 | the serialised manifest reads back with the same hash, with `files` and `size` present exactly when the record has them, and with no reconciler flag set |
| Generator.Emit | src/index.ts:145-150 | the record always carries the walk's hash, and carries the walk's file list and size exactly in static mode; the walk itself is pinned by `Generator.BuildManifestIsWalk` |
| Generator.RemoveStale | src/index.ts:63-70 | after the removal no regular file named `apphash.json`, `service-worker.js` or `service-worker-handler.js` is left; every other entry is kept and none is added |
| Generator.WriteScripts | src/index.ts:86-99 | after the scripts are written, both script files are in the root with the given texts, and every other entry is kept |
| Generator.Prepare | src/index.ts:48-99 | the prepared root holds both scripts; in runtime mode it holds an offline page; otherwise it adds nothing else |
| Generator.WriteManifest | src/index.ts:152-156 | the manifest file holds the serialised record, and an existing offline page is kept |
| Generator.Build | src/index.ts:134-156 | a failed preparation is returned as is; after a successful one the result is exactly the walk-emit-write of the prepared root, so the build fails exactly when preparation fails, the walk fails (wrapped as "failed to generate directory info") or a directory holds the manifest name; the manifest is the one emitted from that walk, has `files` and `size` exactly in static mode, lists both scripts in static mode, and is written; runtime mode leaves an offline page, and other modes add none |
| Generator.Finish | src/index.ts:134-156 | a failed walk is reported as "failed to generate directory info" with its cause; the run fails exactly when the walk fails or a directory holds the manifest name; on success the manifest is the one emitted from the walk's result, both scripts are listed in static mode, and only the manifest file is added |
| Generator.BuildManifestIsWalk | src/index.ts:136-150 | the manifest hash is the rolling digest over the prepared root's regular files in traversal order; in static mode the size is their total and the file list their sorted web paths |
| Generator.Generate | src/index.ts:15-159 | an invalid type fails before the file system is consulted, and a missing root fails next; for a valid type and a directory root the result is exactly the build of the validated mode, so its success condition and its manifest are Build's; it carries files and size exactly for "static" and is written; runtime and the default leave an offline page; the empty type creates none |
| Generator.WrittenFileListed | src/index.ts:196-244 | a file written directly into the root is listed by `dirinfo` as "/" plus its name |
| Generator.ScriptsListed | src/index.ts:134-143 | both scripts written into the root are among the files `dirinfo` reports |
| CacheStorage.Find | scripts/service-worker.js:159 | a cache is found exactly when one of that name exists, and with unique names the one found is that cache |
| CacheStorage.Open | scripts/service-worker.js:159 | opening creates an empty cache at the end only when none of that name exists, leaves every other cache alone and keeps names unique |
| CacheStorage.DeleteWhere | scripts/service-worker.js:95-108 | exactly the caches whose names the filter selects are deleted; lookups by any other name see the same cache as before |
| CacheStorage.DeleteWhereAppend | scripts/service-worker.js:95-108 | deleting from a concatenation deletes from each part and keeps the parts in order, so the survivors keep their creation order |
| CacheStorage.DeleteWhereSingle | scripts/service-worker.js:99-103 | a single cache survives exactly when the filter does not select its name |
| CacheStorage.FirstMatch | scripts/service-worker.js:160-171 | the index of the first entry matching the request, or -1 exactly when none matches |
| CacheStorage.MatchIn | scripts/service-worker.js:160-171 | a cache lookup misses exactly when no entry matches, and otherwise returns the response of the first match |
| CacheStorage.MatchAny | scripts/service-worker.js:328-338 | a lookup across all caches misses exactly when every cache misses, and otherwise returns the hit of the first cache, in creation order, that has one |
| CacheStorage.WithoutKey | scripts/service-worker.js:263 | replacing a key first drops exactly the entries stored under that key |
| CacheStorage.PutEntry | scripts/service-worker.js:263 | after a put, an exact lookup of the key returns the new response, and the entries are the old ones under other keys plus the new one |
| CacheStorage.Put | scripts/service-worker.js:262-263 | a put into a named cache makes an exact lookup there return the response, leaves every other cache unchanged and creates the cache if absent |
| CacheStorage.PutAllIsPutEach | scripts/service-worker.js:42-66 | storing a batch with distinct keys at once has the same effect as storing its entries one by one |
| CacheStorage.PutOtherKeepsMatch | scripts/service-worker.js:52-59 | a put under one key leaves the exact lookup of every other key unchanged |
| CacheStorage.PutEachStoresAll | scripts/service-worker.js:52-59 | after one put per entry, each entry's key returns that entry's response |
| CacheRuntime.AnyPresent | scripts/service-worker.js:376-384 | the header test holds exactly when one of the listed names is present |
| CacheRuntime.EndsWithAny | scripts/service-worker.js:244-246 | the extension test holds exactly when the URL ends with one of the listed suffixes |
| CacheRuntime.StartsWithAny | scripts/service-worker.js:247-249 | the content-type test holds exactly when it starts with one of the listed prefixes |
| CacheRuntime.ShouldCacheContentTypeCase | scripts/service-worker.js:242-251 | the content-type tests ignore ASCII case: a content type and its lower-case form get the same decision, because `text/html` is also a case-insensitive prefix |
| CacheRuntime.HtmlTypeCacheable | scripts/service-worker.js:243-248 | a content type starting with `text/html` passes the case-insensitive MIME test too |
| CacheRuntime.ShouldCacheUrlCase | scripts/service-worker.js:244-246 | the extension test ignores ASCII case: lowering the path and query string leaves the decision unchanged |
| CacheRuntime.StaticLookup | scripts/service-worker.js:175-196 | static mode opens STATIC and answers the first hit of the exact and then the ignore-query probe there |
| CacheRuntime.RuntimeLookup | scripts/service-worker.js:152-196 | runtime mode opens RUNTIME and possibly STATIC, and answers the first hit of the four probes in order: RUNTIME exact, RUNTIME ignoring the query, STATIC exact, STATIC ignoring the query |
| CacheRuntime.CacheLookup | scripts/service-worker.js:152-196 | the lookup answers the first hit of the mode's probe order, opens no cache but the ones it probes, and keeps names unique |
| CacheRuntime.StoreRuntime | scripts/service-worker.js:203-212 | a response whose put succeeds and is not a 206 becomes the exact hit in RUNTIME; no other cache changes |
| CacheRuntime.ErrorFallback | scripts/service-worker.js:306-357 | a navigation gets the STATIC offline page exactly when it is cached, and then that cached page; another same-origin request gets the first exact hit from any cache, else the first ignore-query hit, else the 503; a cross-origin request gets the no-store 503 |
| CacheRuntime.MatchAnyIgnoringSearch | scripts/service-worker.js:328-339 | an exact hit in some cache implies an ignore-query hit in some cache |
| CacheRuntime.AfterMiss | scripts/service-worker.js:198-357 | after a cache miss a response always comes back; a usable preload is returned as is; static mode never changes RUNTIME, and an unavailable answer is the no-store 503 |
| CacheRuntime.AfterMissFailureFallsBack | scripts/service-worker.js:198-357 | a failed preload, or a failed network fetch with no preload, goes to the error fallback on the storage as it stood after the lookup |
| CacheRuntime.HandleFetch | scripts/service-worker.js:129-361 | a request passes through to the network exactly when it is non-GET, cross-origin or carries a sensitive header, and then no cache changes; static mode never touches RUNTIME |
| CacheRuntime.CacheHitServed | scripts/service-worker.js:193-196 | on a cache hit the hit is returned, with no preload or network step |
| CacheRuntime.StaticExactServed | scripts/service-worker.js:176-182 | in static mode, an exact hit in an existing STATIC is served as is and storage is unchanged |
| CacheRuntime.StaticLookupKeepsRuntime | scripts/service-worker.js:157-173 | the static-mode lookup never opens or changes RUNTIME |
| CacheRuntime.MissContinues | scripts/service-worker.js:193-199 | on a miss, the handler continues with preload and network from the storage the lookup left |
| CacheRuntime.NavigationCacheable | scripts/service-worker.js:242-243 | a navigation response is always cacheable, whatever its content type |
| CacheRuntime.NetworkWriteRule | scripts/service-worker.js:216-305 | a network response is stored in RUNTIME exactly when the mode is runtime, the status is 200, it is cacheable, its type is basic or cors and the put succeeds; it is returned unless it is an uncacheable runtime 200 |
| CacheRuntime.NetworkAfterMiss | scripts/service-worker.js:216-305 | the same write-and-return rule, stated from the storage after a miss |
| CacheRuntime.PreloadWriteRule | scripts/service-worker.js:198-214 | a preload response is returned as is, and in runtime mode it is stored in RUNTIME whatever its status, unless it is a 206 or the put fails |
| CacheRuntime.UncacheableResponseIsLost | scripts/service-worker.js:283-291 | in runtime mode an uncacheable 200 response is never returned; with only the worker's caches present and a miss, the user gets the 503 |
| CacheRuntime.UncacheableFallsBack | scripts/service-worker.js:283-306 | an uncacheable runtime 200 is not a navigation, and the handler takes the error fallback |
| CacheRuntime.OtherRequestFallsBackToCaches | scripts/service-worker.js:306-357 | a non-navigation whose preload fails, or whose network fetch fails with no preload, gets the first exact hit from any cache if it is same-origin, else the first hit ignoring the query string, else the 503; a cross-origin one gets the 503; the storage is the lookup's |
| CacheRuntime.NavigationFallsBackToOfflinePage | scripts/service-worker.js:309-322 | a navigation whose preload fails, or whose network fetch fails with no preload, gets the STATIC offline page if it is cached and the 503 otherwise |
| CacheRuntime.RuntimeIgnoringSearchBeforeStatic | scripts/service-worker.js:165-172 | in runtime mode an ignore-query hit in RUNTIME wins over any STATIC entry, exact or not |
| CacheRuntime.UsableFiles | scripts/service-worker.js:20-31 | a manifest is usable exactly when it was fetched with an ok status, parsed, passes the static validity check and has a non-empty `files` array; the list is then exactly that array's strings |
| CacheRuntime.PrecacheList | scripts/service-worker.js:17-40 | the precache list is never empty; a runtime worker always precaches only the offline page |
| CacheRuntime.PrecacheListOfManifest | scripts/service-worker.js:20-28 | a static worker precaches exactly the files of a fetched ok manifest with a string hash and a non-empty string array of files |
| CacheRuntime.PrecacheListFallback | scripts/service-worker.js:22-36 | a static worker whose manifest is unreachable, not ok, unparsable, without a string hash, or whose files are missing, empty or hold a non-string precaches only the offline page |
| CacheRuntime.FetchedEntriesSound | scripts/service-worker.js:52-59 | every stored entry comes from a listed file whose fetch succeeded |
| CacheRuntime.FetchedEntriesComplete | scripts/service-worker.js:52-59 | every listed file whose fetch succeeds is stored |
| CacheRuntime.PrecacheEntries | scripts/service-worker.js:42-66 | the atomic `addAll` path and the per-file fallback both leave STATIC with what adding the storable files one by one stores |
| CacheRuntime.Precache | scripts/service-worker.js:42-66 | after precaching, every listed file that fetched successfully is an exact hit in STATIC; no other cache changes |
| CacheRuntime.PrecacheStoresAll | scripts/service-worker.js:42-66 | every listed file that fetched successfully is an exact hit in the precached entries |
| CacheRuntime.Install | scripts/service-worker.js:12-84 | install makes every storable precache file an exact hit in STATIC; runtime mode creates RUNTIME; static mode leaves it alone; no foreign cache changes |
| CacheRuntime.Activate | scripts/service-worker.js:93-108 | activation deletes exactly the caches of either prefix that are not the two current names, and keeps the current and foreign ones unchanged |
| CacheRuntime.ActivateExample | scripts/service-worker.js:93-108 | last version's static and runtime caches go, and this version's static cache and a foreign cache stay, in their order |
| Reconciler.Decide | scripts/service-worker-handler.js:1-54 | the load does nothing without support, parse or an object body; `disable` wins over everything; teardown happens exactly on `unregister` or on a valid hash differing from a non-empty stored one; registration happens exactly when the hash is valid, there is no flag and no drift, and carries that hash |
| Reconciler.TeardownClient | scripts/service-worker-handler.js:56-73 | teardown deletes exactly the caches of either prefix, of any version, unregisters the worker and clears the stored hash |
| Reconciler.OnLoad | scripts/service-worker-handler.js:1-73 | the page reloads exactly on teardown, and then the client is the torn-down one; it reports ready exactly when registration is decided and succeeds, and then stores the hash; a failed registration and a skip change nothing; foreign caches never change |
| Reconciler.DriftConverges | scripts/service-worker-handler.js:33-50 | after a hash change the first load tears down, the second registers and stores the new hash, and the third changes nothing |
| Reconciler.TeardownCoversActivate | scripts/service-worker-handler.js:59-65 | every cache activation deletes is also deleted by teardown |
| Reconciler.ForeignCachesSurvive | scripts/service-worker-handler.js:59-65 | neither teardown nor activation changes a cache without either prefix |
| EndToEnd.StaticManifestPrecached | scripts/service-worker.js:19-28 | a static-mode worker precaches exactly the files a generated static manifest lists |
| EndToEnd.FilelessManifestFallsBack | scripts/service-worker.js:26-37 | a static-mode worker given a manifest without a file list precaches only the offline page |
| EndToEnd.GeneratedManifestValid | scripts/service-worker.js:387-401 | `validateApphash` accepts every generated manifest, except that a static worker rejects one written without a file list |
| EndToEnd.GeneratedStaticBuildPrecached | src/index.ts:145-150 | the precache list of a generated static build is its manifest's file list, and it includes both scripts |
| EndToEnd.GeneratedManifestDecision | scripts/service-worker-handler.js:17-50 | a generated manifest leads to no action when its hash is empty, teardown on drift, and registration of its hash otherwise |
| EndToEnd.PrecachedFileServedFromCache | scripts/service-worker.js:176-196 | after install and activation in static mode, a plain same-origin GET of a precached file is served from STATIC with no network step |
| EndToEnd.InstalledFileCached | scripts/service-worker.js:42-108 | a precached file is still an exact hit in STATIC after activation |

## Left out

- MD5 and Base64 internals: both are uninterpreted functions of `Codec`. No injectivity is assumed, so "a changed byte changes the hash" is not stated.
- `JSON.stringify` and `JSON.parse` byte formats: the manifest is modelled as the parsed value `ToJson` gives, and the bytes written are an opaque `serialize` of it.
- Script templating by text replacement, the appended custom code, uglify-js minification and file copies (src/index.ts:72-132): the script texts arrive as opaque parameters.
- Command-line parsing, `path.resolve` of the root and console logging: the root is a resolved path, and logging has no effect on decisions.
- The `!filePath` guard of `removeFileIfExists`: the three paths it receives are never empty.
- URL parsing in `isSameOrigin`: the request's origin is a field, and a URL that cannot be parsed is not modelled.
- Fragments and the `Vary`, `ignoreMethod` match options: keys are (origin, path, query) and only GET requests reach the cache.
- The default sort order compares characters by code point. JavaScript compares UTF-16 code units, and the two differ only for names with characters outside the Basic Multilingual Plane.
- Header name case-insensitivity: headers are a set of lower-case names.
- The regular expressions of the cacheability test are modelled as suffix and prefix lists over an ASCII lower-cased string.
- Failures of `caches.open`, `caches.match` and `caches.delete`: only `cache.put` failure is a parameter (`putSucceeds`). An `add` failure is a per-file fetch returning nothing storable.
- Promise concurrency of the per-file precache fallback: the adds are modelled in list order. Duplicate-free lists make the order irrelevant (`CacheStorage.PutAllIsPutEach`).
- `skipWaiting`, `clients.claim` and `navigationPreload.enable`: they change no cache and no decision.
- `location.reload` and the `QSW_READY` event: they appear only as the `reloaded` and `ready` flags of a load's result.
- Failures during teardown: `unregisterServiceWorker` is modelled as succeeding.
- The `Date.now()` cache-busting query on manifest fetches: the fetch is a parameter.
- Symbolic-link cycles: the tree is a finite datatype, so a cycle cannot be represented. The lexical visited-set quirk is shown on a finite tree instead.
- CacheRuntime.HandleFetch: states the bypass, the RUNTIME rule of static mode and the shape of the 503 only. What a request under each other path receives is stated by `CacheRuntime.AfterMiss`, `CacheRuntime.AfterMissFailureFallsBack` and the lemmas that follow them (hits, misses, network and preload writes, the uncacheable 200, and the navigation and non-navigation failure fallbacks), not by one contract.
- CacheRuntime.Precache: each manifest string is used verbatim as a same-origin path with an empty query string. The URL resolution `cache.add` performs is not modelled: percent-encoding (a space becomes `%20`), a `?` splitting off a query string, and a relative name resolved against the worker script's location. The generator only writes slash-led paths, so from a generated manifest only file names that need encoding or contain `?` or `#` are affected.
- Generator.WriteFile: the only write failure modelled is a directory holding the name. Permission errors, a read-only file system and other `writeFileSync` errors are not parameters, so a write in the model succeeds wherever the real one could fail for those reasons.
- Generator.RemoveFileIfExists: removal never fails in the model. An `rmSync` refused for permissions or a read-only file system is not modelled.
