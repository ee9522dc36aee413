/**
 The service worker (scripts/service-worker.js): install-time precaching,
 activate-time pruning of prior cache versions, and the fetch handler's
 cache/preload/network/fallback decision. The build-time `isStatic` flag and
 `self.location.origin` are the two fields of a `Worker`.
 */
module CacheRuntime {
  import opened Outcomes
  import opened Strings
  import opened JsonValues
  import opened CacheStorage

  const CacheVersion: string := "v1"
  const StaticPrefix: string := "QSW-STATIC-"
  const RuntimePrefix: string := "QSW-RUNTIME-"
  const StaticName: string := StaticPrefix + CacheVersion
  const RuntimeName: string := RuntimePrefix + CacheVersion
  const OfflinePath: string := "/offline.html"

  datatype Worker = Worker(isStatic: bool, origin: string)

  /** `Request.mode`. */
  datatype RequestMode = Navigate | SameOriginMode | NoCors | CorsMode

  /** A request: its method (`verb`), its URL split into origin, path and search, the names of
      its headers in lower case, its mode and its destination (`""` when
      the browser reports none). */
  datatype Request = Request(verb: string, origin: string, path: string, search: string,
                             headers: set<string>, mode: RequestMode, destination: string)

  function Url(req: Request): string
  {
    req.origin + req.path + req.search
  }

  function KeyOf(req: Request): Key
  {
    Key(req.origin, req.path, req.search)
  }

  predicate IsSameOrigin(w: Worker, req: Request)
  {
    req.origin == w.origin
  }

  const SensitiveHeaders: seq<string> := ["authorization", "cookie", "x-csrf-token", "x-requested-with"]

  /** Some name of `names` is among `headers`. */
  function AnyPresent(names: seq<string>, headers: set<string>): (b: bool)
    ensures b <==> exists i :: 0 <= i < |names| && names[i] in headers
  {
    if |names| == 0 then false
    else if names[0] in headers then true
    else
      var b := AnyPresent(names[1..], headers);
      assert (exists i :: 1 <= i < |names| && names[i] in headers) ==> b by {
        if exists i :: 1 <= i < |names| && names[i] in headers {
          var i :| 1 <= i < |names| && names[i] in headers;
          assert names[1..][i - 1] == names[i];
        }
      }
      b
  }

  predicate HasSensitiveHeaders(req: Request)
  {
    AnyPresent(SensitiveHeaders, req.headers)
  }

  /** The fetch handler hands the request straight to the network. */
  predicate Bypassed(w: Worker, req: Request)
  {
    req.verb != "GET" || !IsSameOrigin(w, req) || HasSensitiveHeaders(req)
  }

  // ---------------------------------------------------------------------
  // Which network responses the runtime cache keeps

  const AssetDestinations: seq<string> := ["font", "image", "script", "style", "audio", "video", "track"]

  const CacheableSuffixes: seq<string> :=
    [".js", ".css", ".png", ".jpg", ".jpeg", ".gif", ".svg", ".woff", ".woff2", ".ttf", ".eot",
     ".ico", ".webp", ".avif", ".html", ".htm", ".json", ".xml", ".txt"]

  const CacheableTypePrefixes: seq<string> :=
    ["text/html", "text/css", "text/javascript", "text/plain", "text/xml", "text/json",
     "application/javascript", "application/json", "application/xml",
     "image/", "font/", "audio/", "video/"]

  function EndsWithAny(s: string, suffixes: seq<string>): (b: bool)
    ensures b <==> exists i :: 0 <= i < |suffixes| && EndsWith(s, suffixes[i])
  {
    if |suffixes| == 0 then false
    else if EndsWith(s, suffixes[0]) then true
    else
      var b := EndsWithAny(s, suffixes[1..]);
      assert (exists i :: 1 <= i < |suffixes| && EndsWith(s, suffixes[i])) ==> b by {
        if exists i :: 1 <= i < |suffixes| && EndsWith(s, suffixes[i]) {
          var i :| 1 <= i < |suffixes| && EndsWith(s, suffixes[i]);
          assert suffixes[1..][i - 1] == suffixes[i];
        }
      }
      b
  }

  function StartsWithAny(s: string, prefixes: seq<string>): (b: bool)
    ensures b <==> exists i :: 0 <= i < |prefixes| && StartsWith(s, prefixes[i])
  {
    if |prefixes| == 0 then false
    else if StartsWith(s, prefixes[0]) then true
    else
      var b := StartsWithAny(s, prefixes[1..]);
      assert (exists i :: 1 <= i < |prefixes| && StartsWith(s, prefixes[i])) ==> b by {
        if exists i :: 1 <= i < |prefixes| && StartsWith(s, prefixes[i]) {
          var i :| 1 <= i < |prefixes| && StartsWith(s, prefixes[i]);
          assert prefixes[1..][i - 1] == prefixes[i];
        }
      }
      b
  }

  /** The four cacheability tests; any one suffices. The extension and MIME
      tests ignore ASCII case. */
  predicate ShouldCache(req: Request, contentType: string)
  {
    var isAsset := req.destination in AssetDestinations;
    var isHtmlPage := req.mode == Navigate || req.destination == "document" || StartsWith(contentType, "text/html");
    var byExtension := EndsWithAny(Lower(Url(req)), CacheableSuffixes);
    var byType := StartsWithAny(Lower(contentType), CacheableTypePrefixes);
    isAsset || isHtmlPage || byExtension || byType
  }

  /** The MIME test ignores case: a content type and its lower-case form get
      the same decision, even for the case-sensitive `text/html` page test,
      since `text/html` is also one of the cacheable type prefixes. */
  lemma ShouldCacheContentTypeCase(req: Request, contentType: string)
    ensures ShouldCache(req, contentType) <==> ShouldCache(req, Lower(contentType))
  {
    LowerIdempotent(contentType);
    HtmlTypeCacheable(contentType);
    HtmlTypeCacheable(Lower(contentType));
  }

  /** A `text/html` content type, in any case, passes the MIME test. */
  lemma HtmlTypeCacheable(contentType: string)
    ensures StartsWith(contentType, "text/html") ==> StartsWithAny(Lower(contentType), CacheableTypePrefixes)
  {
    if StartsWith(contentType, "text/html") {
      TextHtmlLower();
      LowerKeepsPrefix(contentType, "text/html");
      assert StartsWith(Lower(contentType), CacheableTypePrefixes[0]);
    }
  }

  lemma TextHtmlLower()
    ensures Lower("text/html") == "text/html"
  {
    assert forall i :: 0 <= i < |"text/html"| ==> LowerChar("text/html"[i]) == "text/html"[i];
  }

  /** The extension test ignores case: lowering the path and query string
      leaves the decision unchanged. */
  lemma ShouldCacheUrlCase(req: Request, contentType: string)
    ensures ShouldCache(req, contentType) <==>
            ShouldCache(req.(path := Lower(req.path), search := Lower(req.search)), contentType)
  {
    var req' := req.(path := Lower(req.path), search := Lower(req.search));
    LowerAppend(req.origin + req.path, req.search);
    LowerAppend(req.origin, req.path);
    LowerAppend(req.origin + Lower(req.path), Lower(req.search));
    LowerAppend(req.origin, Lower(req.path));
    LowerIdempotent(req.path);
    LowerIdempotent(req.search);
    assert Lower(Url(req')) == Lower(Url(req));
  }

  // ---------------------------------------------------------------------
  // Cache lookup

  /** Where a fetch handler reply came from. */
  datatype Source =
    | RuntimeExact | RuntimeIgnoringSearch | StaticExact | StaticIgnoringSearch
    | FromPreload | FromNetwork | OfflinePage | FallbackExact | FallbackIgnoringSearch | Unavailable

  /** One `cache.match` attempt of the lookup. */
  datatype Probe = Probe(cache: string, ignoreSearch: bool, source: Source)

  /** The lookup order: runtime mode tries RUNTIME before STATIC, each first
      exactly and then ignoring the query string; static mode tries STATIC only. */
  function LookupOrder(isStatic: bool): seq<Probe>
  {
    (if isStatic then [] else [Probe(RuntimeName, false, RuntimeExact), Probe(RuntimeName, true, RuntimeIgnoringSearch)])
    + [Probe(StaticName, false, StaticExact), Probe(StaticName, true, StaticIgnoringSearch)]
  }

  datatype Hit = Hit(resp: Response, source: Source)

  /** The answer of the first probe that matches. */
  function FirstHit(st: Storage, q: Key, probes: seq<Probe>): Option<Hit>
  {
    if |probes| == 0 then None
    else
      match MatchCache(st, probes[0].cache, q, probes[0].ignoreSearch)
      case Some(resp) => Some(Hit(resp, probes[0].source))
      case None => FirstHit(st, q, probes[1..])
  }

  /** The storage after the lookup (it may have created empty caches) and what it found. */
  datatype Lookup = Lookup(storage: Storage, hit: Option<Hit>)

  /** Only empty caches named `a` or `b` were created; nothing else changed. */
  ghost predicate OnlyOpened(st: Storage, st': Storage, a: string, b: string)
  {
    forall n :: Find(st', n) == Find(st, n) || (Find(st, n).None? && (n == a || n == b) && Find(st', n) == Some([]))
  }

  function StaticLookup(st: Storage, q: Key): (r: Lookup)
    ensures r.hit == FirstHit(r.storage, q, LookupOrder(true))
    ensures r.storage == Open(st, StaticName)
  {
    var st1 := Open(st, StaticName);
    var probes := LookupOrder(true);
    assert probes[1..][1..] == [];
    match MatchCache(st1, StaticName, q, false)
    case Some(resp) => Lookup(st1, Some(Hit(resp, StaticExact)))
    case None =>
      match MatchCache(st1, StaticName, q, true)
      case Some(resp) => Lookup(st1, Some(Hit(resp, StaticIgnoringSearch)))
      case None =>
        assert FirstHit(st1, q, probes[1..]) == FirstHit(st1, q, probes[1..][1..]) == None;
        Lookup(st1, None)
  }

  function RuntimeLookup(st: Storage, q: Key): (r: Lookup)
    ensures r.hit == FirstHit(r.storage, q, LookupOrder(false))
    ensures r.storage == Open(st, RuntimeName) || r.storage == Open(Open(st, RuntimeName), StaticName)
  {
    var st1 := Open(st, RuntimeName);
    var probes := LookupOrder(false);
    assert probes[1..][1..] == LookupOrder(true);
    match MatchCache(st1, RuntimeName, q, false)
    case Some(resp) => Lookup(st1, Some(Hit(resp, RuntimeExact)))
    case None =>
      match MatchCache(st1, RuntimeName, q, true)
      case Some(resp) => Lookup(st1, Some(Hit(resp, RuntimeIgnoringSearch)))
      case None =>
        var r := StaticLookup(st1, q);
        assert Find(r.storage, RuntimeName) == Find(st1, RuntimeName);
        r
  }

  /** The lookup of the fetch handler: the probes of `LookupOrder`, in order,
      over caches that are opened (created empty) on the way. */
  function CacheLookup(w: Worker, st: Storage, q: Key): (r: Lookup)
    ensures r.hit == FirstHit(r.storage, q, LookupOrder(w.isStatic))
    ensures OnlyOpened(st, r.storage, StaticName, if w.isStatic then StaticName else RuntimeName)
    ensures UniqueNames(st) ==> UniqueNames(r.storage)
  {
    var r := if w.isStatic then StaticLookup(st, q) else RuntimeLookup(st, q);
    OpenOnlyOpens(st, StaticName);
    OpenOnlyOpens(st, RuntimeName);
    OpenOnlyOpens(Open(st, RuntimeName), StaticName);
    r
  }

  lemma OpenOnlyOpens(st: Storage, name: string)
    ensures OnlyOpened(st, Open(st, name), name, name)
  {
  }

  // ---------------------------------------------------------------------
  // The fetch handler

  /** What `event.preloadResponse` settles to. */
  datatype Preload = NoPreload | Preloaded(resp: Response) | PreloadFailed

  /** What `fetch(request)` settles to. */
  datatype NetResult = NetResponse(resp: Response) | NetFailed

  /** The outside world of one fetch event: the preload, the network, and
      whether `cache.put` would succeed (quota, storage errors). */
  datatype FetchEnv = FetchEnv(preload: Preload, network: NetResult, putSucceeds: bool)

  datatype Reply = PassThrough | Respond(resp: Response, source: Source)

  datatype Outcome = Outcome(reply: Reply, storage: Storage)

  const Unavailable503: Response := Response(503, Default, "text/plain", "no-store", "Resource unavailable")

  /** `cache.put` of a response into RUNTIME; a 206 response and a failing put leave the storage alone. */
  function StoreRuntime(st: Storage, q: Key, resp: Response, putSucceeds: bool): (r: Storage)
    ensures putSucceeds && resp.status != 206 ==> MatchCache(r, RuntimeName, q, false) == Some(resp)
    ensures forall n :: n != RuntimeName ==> Find(r, n) == Find(st, n)
  {
    if putSucceeds && resp.status != 206 then Put(st, RuntimeName, q, resp) else st
  }

  /** The `catch` branch: the offline page for a navigation, otherwise any
      cache's copy of the request, otherwise a 503. */
  function ErrorFallback(w: Worker, st: Storage, req: Request): (o: Outcome)
    ensures o.reply.Respond?
    ensures o.reply.source in {OfflinePage, FallbackExact, FallbackIgnoringSearch, Unavailable}
    ensures o.reply.source == Unavailable ==> o.reply.resp == Unavailable503
    ensures o.reply.source == OfflinePage <==>
      req.mode == Navigate && MatchCache(Open(st, StaticName), StaticName, Key(w.origin, OfflinePath, ""), false).Some?
    ensures o.reply.source in {FallbackExact, FallbackIgnoringSearch} ==>
      req.mode != Navigate && IsSameOrigin(w, req) && MatchAny(st, KeyOf(req), true).Some?
    ensures o.storage == (if req.mode == Navigate then Open(st, StaticName) else st)
    ensures o.reply.source == OfflinePage ==>
      o.reply.resp == MatchCache(Open(st, StaticName), StaticName, Key(w.origin, OfflinePath, ""), false).value
    ensures req.mode != Navigate && IsSameOrigin(w, req) ==>
      o.reply == (if MatchAny(st, KeyOf(req), false).Some? then Respond(MatchAny(st, KeyOf(req), false).value, FallbackExact)
                  else if MatchAny(st, KeyOf(req), true).Some? then Respond(MatchAny(st, KeyOf(req), true).value, FallbackIgnoringSearch)
                  else Respond(Unavailable503, Unavailable))
    ensures req.mode != Navigate && !IsSameOrigin(w, req) ==> o.reply == Respond(Unavailable503, Unavailable)
  {
    if req.mode == Navigate then
      var st1 := Open(st, StaticName);
      match MatchCache(st1, StaticName, Key(w.origin, OfflinePath, ""), false)
      case Some(resp) => Outcome(Respond(resp, OfflinePage), st1)
      case None => Outcome(Respond(Unavailable503, Unavailable), st1)
    else if IsSameOrigin(w, req) then
      match MatchAny(st, KeyOf(req), false)
      case Some(resp) =>
        MatchAnyIgnoringSearch(st, KeyOf(req));
        Outcome(Respond(resp, FallbackExact), st)
      case None =>
        match MatchAny(st, KeyOf(req), true)
        case Some(resp) => Outcome(Respond(resp, FallbackIgnoringSearch), st)
        case None => Outcome(Respond(Unavailable503, Unavailable), st)
    else
      Outcome(Respond(Unavailable503, Unavailable), st)
  }

  /** An exact hit in some cache is also a hit when the query string is ignored. */
  lemma MatchAnyIgnoringSearch(st: Storage, q: Key)
    requires MatchAny(st, q, false).Some?
    ensures MatchAny(st, q, true).Some?
  {
    var i :| 0 <= i < |st| && MatchIn(st[i].entries, q, false).Some?;
    var j :| 0 <= j < |st[i].entries| && Matches(st[i].entries[j].key, q, false);
    assert Matches(st[i].entries[j].key, q, true);
  }

  /** After a lookup miss: the preload, else the network, caching what
      the runtime cache keeps; a failure anywhere goes to `ErrorFallback`.
      A 200 response in runtime mode that fails every cacheability test also
      goes there: the diagnostic for that branch names an undeclared
      variable, and evaluating it throws a ReferenceError. */
  function AfterMiss(w: Worker, st: Storage, req: Request, env: FetchEnv): (o: Outcome)
    requires !Bypassed(w, req)
    ensures o.reply.Respond?
    ensures w.isStatic ==> Find(o.storage, RuntimeName) == Find(st, RuntimeName)
    ensures o.reply.source == Unavailable ==> o.reply.resp == Unavailable503
    ensures env.preload.Preloaded? ==> o.reply == Respond(env.preload.resp, FromPreload)
  {
    match env.preload
    case PreloadFailed => ErrorFallback(w, st, req)
    case Preloaded(resp) =>
      var st' := if !w.isStatic then StoreRuntime(st, KeyOf(req), resp, env.putSucceeds) else st;
      Outcome(Respond(resp, FromPreload), st')
    case NoPreload =>
      match env.network
      case NetFailed => ErrorFallback(w, st, req)
      case NetResponse(resp) =>
        if !w.isStatic && IsOk(resp) && resp.status == 200 then
          if ShouldCache(req, resp.contentType) then
            var st' := if resp.rtype == Basic || resp.rtype == Cors
                       then StoreRuntime(st, KeyOf(req), resp, env.putSucceeds) else st;
            Outcome(Respond(resp, FromNetwork), st')
          else
            ErrorFallback(w, st, req)
        else
          Outcome(Respond(resp, FromNetwork), st)
  }

  /** A failed preload, or a failed network fetch with no preload, goes to the
      error fallback on the storage as it stood after the lookup. */
  lemma AfterMissFailureFallsBack(w: Worker, st: Storage, req: Request, env: FetchEnv)
    requires !Bypassed(w, req)
    ensures env.preload == PreloadFailed || (env.preload == NoPreload && env.network == NetFailed) ==>
              AfterMiss(w, st, req, env) == ErrorFallback(w, st, req)
  {
  }

  /** The fetch event handler. */
  function HandleFetch(w: Worker, st: Storage, req: Request, env: FetchEnv): (o: Outcome)
    ensures o.reply.PassThrough? <==> Bypassed(w, req)
    ensures Bypassed(w, req) ==> o.storage == st
    ensures w.isStatic ==> Find(o.storage, RuntimeName) == Find(st, RuntimeName)
    ensures o.reply.Respond? && o.reply.source == Unavailable ==> o.reply.resp == Unavailable503
  {
    if Bypassed(w, req) then Outcome(PassThrough, st)
    else
      var l := CacheLookup(w, st, KeyOf(req));
      match l.hit
      case Some(h) => Outcome(Respond(h.resp, h.source), l.storage)
      case None =>
        StaticLookupKeepsRuntime(w, st, KeyOf(req));
        AfterMiss(w, l.storage, req, env)
  }

  /** A lookup hit is the reply, with nothing asked of the preload or the network. */
  lemma CacheHitServed(w: Worker, st: Storage, req: Request, env: FetchEnv)
    requires !Bypassed(w, req) && CacheLookup(w, st, KeyOf(req)).hit.Some?
    ensures var l := CacheLookup(w, st, KeyOf(req));
            HandleFetch(w, st, req, env) == Outcome(Respond(l.hit.value.resp, l.hit.value.source), l.storage)
  {
  }

  /** A static worker answers an exact STATIC hit from the cache. */
  lemma StaticExactServed(w: Worker, st: Storage, req: Request, resp: Response, env: FetchEnv)
    requires w.isStatic && !Bypassed(w, req)
    requires Find(st, StaticName).Some? && MatchCache(st, StaticName, KeyOf(req), false) == Some(resp)
    ensures HandleFetch(w, st, req, env) == Outcome(Respond(resp, StaticExact), st)
  {
    assert Open(st, StaticName) == st;
  }

  lemma StaticLookupKeepsRuntime(w: Worker, st: Storage, q: Key)
    ensures w.isStatic ==> Find(CacheLookup(w, st, q).storage, RuntimeName) == Find(st, RuntimeName)
  {
  }

  /** On a lookup miss the handler continues with the lookup's storage. */
  lemma MissContinues(w: Worker, st: Storage, req: Request, env: FetchEnv)
    requires !Bypassed(w, req)
    requires CacheLookup(w, st, KeyOf(req)).hit.None?
    ensures HandleFetch(w, st, req, env) == AfterMiss(w, CacheLookup(w, st, KeyOf(req)).storage, req, env)
  {
  }

  /** A navigation passes the cacheability test whatever its response. */
  lemma NavigationCacheable(req: Request, contentType: string)
    requires req.mode == Navigate
    ensures ShouldCache(req, contentType)
  {
  }

  /** A network answer after a lookup miss: it reaches the page unchanged
      unless it is the 200 that trips the undeclared variable, and it is
      written to RUNTIME exactly when the worker is in runtime mode, the
      status is 200, a cacheability test passes, the response is basic or
      cors and the put succeeds. */
  lemma NetworkWriteRule(w: Worker, st: Storage, req: Request, resp: Response, putSucceeds: bool)
    requires !Bypassed(w, req)
    requires CacheLookup(w, st, KeyOf(req)).hit.None?
    ensures var l := CacheLookup(w, st, KeyOf(req)).storage;
            var o := HandleFetch(w, st, req, FetchEnv(NoPreload, NetResponse(resp), putSucceeds));
            o.storage == (if !w.isStatic && resp.status == 200 && ShouldCache(req, resp.contentType)
                             && (resp.rtype == Basic || resp.rtype == Cors) && putSucceeds
                          then Put(l, RuntimeName, KeyOf(req), resp) else l)
            && (w.isStatic || resp.status != 200 || ShouldCache(req, resp.contentType) ==> o.reply == Respond(resp, FromNetwork))
  {
    var env := FetchEnv(NoPreload, NetResponse(resp), putSucceeds);
    MissContinues(w, st, req, env);
    NetworkAfterMiss(w, CacheLookup(w, st, KeyOf(req)).storage, req, resp, putSucceeds);
  }

  lemma NetworkAfterMiss(w: Worker, l: Storage, req: Request, resp: Response, putSucceeds: bool)
    requires !Bypassed(w, req)
    ensures var o := AfterMiss(w, l, req, FetchEnv(NoPreload, NetResponse(resp), putSucceeds));
            o.storage == (if !w.isStatic && resp.status == 200 && ShouldCache(req, resp.contentType)
                             && (resp.rtype == Basic || resp.rtype == Cors) && putSucceeds
                          then Put(l, RuntimeName, KeyOf(req), resp) else l)
            && (w.isStatic || resp.status != 200 || ShouldCache(req, resp.contentType) ==> o.reply == Respond(resp, FromNetwork))
  {
    var env := FetchEnv(NoPreload, NetResponse(resp), putSucceeds);
    if w.isStatic || resp.status != 200 {
      assert AfterMiss(w, l, req, env) == Outcome(Respond(resp, FromNetwork), l);
    } else if ShouldCache(req, resp.contentType) {
      var st' := if resp.rtype == Basic || resp.rtype == Cors then StoreRuntime(l, KeyOf(req), resp, putSucceeds) else l;
      assert AfterMiss(w, l, req, env) == Outcome(Respond(resp, FromNetwork), st');
    } else {
      UncacheableFallsBack(w, l, req, resp, putSucceeds);
    }
  }

  /** A preload answer after a lookup miss reaches the page and, in runtime
      mode, is put into RUNTIME whatever its status, except a 206 or a failing put. */
  lemma PreloadWriteRule(w: Worker, st: Storage, req: Request, resp: Response, env: FetchEnv)
    requires !Bypassed(w, req)
    requires CacheLookup(w, st, KeyOf(req)).hit.None?
    requires env.preload == Preloaded(resp)
    ensures var l := CacheLookup(w, st, KeyOf(req)).storage;
            var o := HandleFetch(w, st, req, env);
            o.reply == Respond(resp, FromPreload)
            && o.storage == (if !w.isStatic && resp.status != 206 && env.putSucceeds
                             then Put(l, RuntimeName, KeyOf(req), resp) else l)
  {
    MissContinues(w, st, req, env);
  }

  /** The undeclared variable in the "not cached" diagnostic: a runtime-mode
      200 response that no cacheability test accepts never reaches the page.
      When the origin's storage holds only this version's two caches, the
      page gets the 503 instead. */
  lemma UncacheableResponseIsLost(w: Worker, st: Storage, req: Request, resp: Response, putSucceeds: bool)
    requires !w.isStatic && !Bypassed(w, req)
    requires CacheLookup(w, st, KeyOf(req)).hit.None?
    requires resp.status == 200 && !ShouldCache(req, resp.contentType)
    requires UniqueNames(st)
    requires forall i :: 0 <= i < |st| ==> st[i].name == StaticName || st[i].name == RuntimeName
    ensures HandleFetch(w, st, req, FetchEnv(NoPreload, NetResponse(resp), putSucceeds)).reply
            == Respond(Unavailable503, Unavailable)
  {
    var q := KeyOf(req);
    var l := CacheLookup(w, st, q);
    var env := FetchEnv(NoPreload, NetResponse(resp), putSucceeds);
    MissContinues(w, st, req, env);
    UncacheableFallsBack(w, l.storage, req, resp, putSucceeds);
    LookupMissEverywhere(st, q);
  }

  lemma UncacheableFallsBack(w: Worker, l: Storage, req: Request, resp: Response, putSucceeds: bool)
    requires !w.isStatic && !Bypassed(w, req)
    requires resp.status == 200 && !ShouldCache(req, resp.contentType)
    ensures req.mode != Navigate
    ensures AfterMiss(w, l, req, FetchEnv(NoPreload, NetResponse(resp), putSucceeds)) == ErrorFallback(w, l, req)
  {
    if req.mode == Navigate {
      NavigationCacheable(req, resp.contentType);
    }
  }

  /** When the origin holds only this version's caches, a runtime-mode
      lookup miss is a miss in every cache, with or without the query. */
  lemma LookupMissEverywhere(st: Storage, q: Key)
    requires UniqueNames(st)
    requires forall i :: 0 <= i < |st| ==> st[i].name == StaticName || st[i].name == RuntimeName
    requires CacheLookup(Worker(false, q.origin), st, q).hit.None?
    ensures MatchAny(CacheLookup(Worker(false, q.origin), st, q).storage, q, true).None?
    ensures MatchAny(CacheLookup(Worker(false, q.origin), st, q).storage, q, false).None?
  {
    var l := CacheLookup(Worker(false, q.origin), st, q);
    var probes := LookupOrder(false);
    assert probes[1..][1..][1..] == [Probe(StaticName, true, StaticIgnoringSearch)];
    assert MatchCache(l.storage, RuntimeName, q, true).None?;
    assert MatchCache(l.storage, StaticName, q, true).None?;
    NoOtherCaches(st, l.storage);
    forall i | 0 <= i < |l.storage| ensures MatchIn(l.storage[i].entries, q, true).None? {
      assert Find(l.storage, l.storage[i].name) == Some(l.storage[i].entries);
    }
    if MatchAny(l.storage, q, false).Some? {
      MatchAnyIgnoringSearch(l.storage, q);
    }
  }

  /** A lookup in runtime mode adds no cache besides STATIC and RUNTIME. */
  lemma NoOtherCaches(st: Storage, st': Storage)
    requires OnlyOpened(st, st', StaticName, RuntimeName)
    requires forall i :: 0 <= i < |st| ==> st[i].name == StaticName || st[i].name == RuntimeName
    ensures forall i :: 0 <= i < |st'| ==> st'[i].name == StaticName || st'[i].name == RuntimeName
  {
    forall i | 0 <= i < |st'| ensures st'[i].name == StaticName || st'[i].name == RuntimeName {
      var n := st'[i].name;
      assert Find(st', n).Some?;
      if Find(st, n).Some? {
        var j :| 0 <= j < |st| && st[j].name == n && st[j].entries == Find(st, n).value;
      }
    }
  }

  /** A failed network (or preload) on a navigation serves the cached
      offline page, and the 503 when STATIC holds none. */
  lemma NavigationFallsBackToOfflinePage(w: Worker, st: Storage, req: Request, env: FetchEnv)
    requires !Bypassed(w, req) && req.mode == Navigate
    requires CacheLookup(w, st, KeyOf(req)).hit.None?
    requires env.preload == PreloadFailed || (env.preload == NoPreload && env.network == NetFailed)
    ensures var l := CacheLookup(w, st, KeyOf(req)).storage;
            var page := MatchCache(Open(l, StaticName), StaticName, Key(w.origin, OfflinePath, ""), false);
            HandleFetch(w, st, req, env).reply
            == (if page.Some? then Respond(page.value, OfflinePage) else Respond(Unavailable503, Unavailable))
  {
  }

  /** A failed network (or preload) on any other request that missed the
      lookup: a same-origin request gets the first exact hit from any cache,
      else the first hit ignoring the query string, else the 503; a
      cross-origin request gets the 503. */
  lemma OtherRequestFallsBackToCaches(w: Worker, st: Storage, req: Request, env: FetchEnv)
    requires !Bypassed(w, req) && req.mode != Navigate
    requires CacheLookup(w, st, KeyOf(req)).hit.None?
    requires env.preload == PreloadFailed || (env.preload == NoPreload && env.network == NetFailed)
    ensures var l := CacheLookup(w, st, KeyOf(req)).storage;
            var exact := MatchAny(l, KeyOf(req), false);
            var loose := MatchAny(l, KeyOf(req), true);
            HandleFetch(w, st, req, env)
            == Outcome(if !IsSameOrigin(w, req) then Respond(Unavailable503, Unavailable)
                       else if exact.Some? then Respond(exact.value, FallbackExact)
                       else if loose.Some? then Respond(loose.value, FallbackIgnoringSearch)
                       else Respond(Unavailable503, Unavailable), l)
  {
  }

  /** A request RUNTIME holds only under another query string is answered from
      RUNTIME ignoring the query, before STATIC is consulted. */
  lemma RuntimeIgnoringSearchBeforeStatic(w: Worker, st: Storage, req: Request, resp: Response, env: FetchEnv)
    requires !w.isStatic && !Bypassed(w, req)
    requires Find(st, RuntimeName).Some?
    requires MatchCache(st, RuntimeName, KeyOf(req), false).None?
    requires MatchCache(st, RuntimeName, KeyOf(req), true) == Some(resp)
    ensures HandleFetch(w, st, req, env) == Outcome(Respond(resp, RuntimeIgnoringSearch), st)
  {
  }

  // ---------------------------------------------------------------------
  // Install

  /** `validateApphash`: a JSON object whose `hash` is a string and, for a
      static worker, whose `files` is an array of strings. */
  predicate ValidManifest(isStatic: bool, data: Json)
  {
    data.JObj?
    && (isStatic ==> Get(data, "files").Some? && Get(data, "files").value.JArr?
                     && StringItems(Get(data, "files").value.items).Some?)
    && Get(data, "hash").Some? && Get(data, "hash").value.JStr?
  }

  /** The `files` of a manifest a static worker can precache from: fetched
      with an ok status, parsed, valid and with a non-empty file list. */
  function UsableFiles(mf: ManifestFetch): (r: Option<seq<string>>)
    ensures r.Some? ==> |r.value| > 0
    ensures r.Some? <==> mf.Fetched? && StatusOk(mf.status) && mf.body.Some? && ValidManifest(true, mf.body.value)
                         && |Get(mf.body.value, "files").value.items| > 0
    ensures r.Some? ==> Get(mf.body.value, "files") == Some(StringArray(r.value))
  {
    if mf.Fetched? && StatusOk(mf.status) && mf.body.Some? && ValidManifest(true, mf.body.value)
       && |StringItems(Get(mf.body.value, "files").value.items).value| > 0
    then
      StringItemsInverse(Get(mf.body.value, "files").value.items);
      StringItems(Get(mf.body.value, "files").value.items)
    else None
  }

  /** The install list: the manifest's files for a static worker that got a
      usable manifest, the offline page otherwise. */
  function PrecacheList(isStatic: bool, mf: ManifestFetch): (files: seq<string>)
    ensures |files| > 0
    ensures !isStatic || UsableFiles(mf).None? ==> files == [OfflinePath]
    ensures isStatic && UsableFiles(mf).Some? ==> files == UsableFiles(mf).value
  {
    if isStatic && UsableFiles(mf).Some? then UsableFiles(mf).value else [OfflinePath]
  }

  /** A static worker precaches exactly the listed files of a fetched manifest
      whose `hash` is a string and whose `files` is a non-empty string array. */
  lemma PrecacheListOfManifest(mf: ManifestFetch, j: Json, hash: string, files: seq<string>)
    requires mf.Fetched? && StatusOk(mf.status) && mf.body == Some(j) && j.JObj?
    requires Get(j, "hash") == Some(JStr(hash)) && Get(j, "files") == Some(StringArray(files))
    requires |files| > 0
    ensures UsableFiles(mf) == Some(files)
    ensures PrecacheList(true, mf) == files
  {
  }

  /** A manifest the static worker cannot use (not fetched, not ok, not JSON,
      no string `hash`, or `files` missing, empty or holding a non-string)
      falls back to the offline page. */
  lemma PrecacheListFallback(mf: ManifestFetch)
    requires !mf.Fetched? || !StatusOk(mf.status) || mf.body.None?
             || Get(mf.body.value, "hash").None? || !Get(mf.body.value, "hash").value.JStr?
             || Get(mf.body.value, "files").None? || !Get(mf.body.value, "files").value.JArr?
             || |Get(mf.body.value, "files").value.items| == 0
             || exists i :: 0 <= i < |Get(mf.body.value, "files").value.items|
                            && !Get(mf.body.value, "files").value.items[i].JStr?
    ensures PrecacheList(true, mf) == [OfflinePath]
  {
  }

  /** `cache.add` accepts a response: it arrived, is ok and is not partial. */
  predicate Storable(r: Option<Response>)
  {
    r.Some? && IsOk(r.value) && r.value.status != 206
  }

  predicate NoDuplicates(files: seq<string>)
  {
    forall i, j :: 0 <= i < j < |files| ==> files[i] != files[j]
  }

  /** The entry `cache.add(f)` stores. */
  function EntryFor(origin: string, f: string, fetchFile: string -> Option<Response>): Entry
    requires Storable(fetchFile(f))
  {
    Entry(Key(origin, f, ""), fetchFile(f).value)
  }

  /** The entries that adding `files` one by one would store. */
  function FetchedEntries(origin: string, files: seq<string>, fetchFile: string -> Option<Response>): seq<Entry>
  {
    if |files| == 0 then []
    else
      (if Storable(fetchFile(files[0])) then [EntryFor(origin, files[0], fetchFile)] else [])
      + FetchedEntries(origin, files[1..], fetchFile)
  }

  /** Every fetched entry is a storable file's. */
  lemma {:induction false} FetchedEntriesSound(origin: string, files: seq<string>, fetchFile: string -> Option<Response>)
    ensures forall e :: e in FetchedEntries(origin, files, fetchFile) ==>
              exists f :: f in files && Storable(fetchFile(f)) && e == EntryFor(origin, f, fetchFile)
  {
    if |files| > 0 {
      FetchedEntriesSound(origin, files[1..], fetchFile);
      forall e | e in FetchedEntries(origin, files[1..], fetchFile)
        ensures exists f :: f in files && Storable(fetchFile(f)) && e == EntryFor(origin, f, fetchFile)
      {
        var f :| f in files[1..] && Storable(fetchFile(f)) && e == EntryFor(origin, f, fetchFile);
        assert f in files;
      }
    }
  }

  /** Every storable file has its entry among the fetched ones. */
  lemma {:induction false} FetchedEntriesComplete(origin: string, files: seq<string>, fetchFile: string -> Option<Response>)
    ensures forall f :: f in files && Storable(fetchFile(f)) ==> EntryFor(origin, f, fetchFile) in FetchedEntries(origin, files, fetchFile)
  {
    if |files| > 0 {
      FetchedEntriesComplete(origin, files[1..], fetchFile);
      forall f | f in files && Storable(fetchFile(f))
        ensures EntryFor(origin, f, fetchFile) in FetchedEntries(origin, files, fetchFile)
      {
        if f != files[0] {
          assert f in files[1..];
        }
      }
    }
  }

  /** Distinct files give entries under distinct keys. */
  lemma {:induction false} FetchedEntriesDistinct(origin: string, files: seq<string>, fetchFile: string -> Option<Response>)
    requires NoDuplicates(files)
    ensures DistinctEntryKeys(FetchedEntries(origin, files, fetchFile))
  {
    if |files| > 0 {
      var rest := FetchedEntries(origin, files[1..], fetchFile);
      FetchedEntriesDistinct(origin, files[1..], fetchFile);
      FetchedEntriesSound(origin, files[1..], fetchFile);
      forall e | e in rest ensures e.key != Key(origin, files[0], "") {
        var f :| f in files[1..] && Storable(fetchFile(f)) && e == EntryFor(origin, f, fetchFile);
        var j :| 0 <= j < |files[1..]| && files[1..][j] == f;
        assert files[j + 1] == f;
      }
      var news := FetchedEntries(origin, files, fetchFile);
      forall i, j | 0 <= i < j < |news| ensures news[i].key != news[j].key {
        if Storable(fetchFile(files[0])) {
          if i > 0 {
            assert news[i] == rest[i - 1] && news[j] == rest[j - 1];
          } else {
            assert news[j] in rest;
          }
        } else {
          assert news == rest;
        }
      }
    }
  }

  /** `cache.addAll` succeeds: every file is storable and none is listed twice. */
  predicate AddAllSucceeds(files: seq<string>, fetchFile: string -> Option<Response>)
  {
    NoDuplicates(files) && forall i :: 0 <= i < |files| ==> Storable(fetchFile(files[i]))
  }

  /** STATIC's entries after install: the atomic `addAll` when it succeeds,
      otherwise one `cache.add` per file, the failures skipped. Either path
      leaves STATIC with what adding the storable files one by one stores. */
  function PrecacheEntries(prior: seq<Entry>, origin: string, files: seq<string>, fetchFile: string -> Option<Response>): (r: seq<Entry>)
    ensures r == PutEach(prior, FetchedEntries(origin, files, fetchFile))
  {
    var news := FetchedEntries(origin, files, fetchFile);
    if AddAllSucceeds(files, fetchFile) then
      FetchedEntriesDistinct(origin, files, fetchFile);
      PutAllIsPutEach(prior, news);
      PutAll(prior, news)
    else PutEach(prior, news)
  }

  /** The precache step of the install handler: STATIC is opened and filled, nothing else changes. */
  function Precache(w: Worker, st: Storage, mf: ManifestFetch, fetchFile: string -> Option<Response>): (r: Storage)
    ensures forall f :: f in PrecacheList(w.isStatic, mf) && Storable(fetchFile(f)) ==>
              MatchCache(r, StaticName, Key(w.origin, f, ""), false) == fetchFile(f)
    ensures forall n :: n != StaticName ==> Find(r, n) == Find(st, n)
    ensures UniqueNames(st) ==> UniqueNames(r)
  {
    var files := PrecacheList(w.isStatic, mf);
    var st1 := Open(st, StaticName);
    var prior := Find(st1, StaticName).value;
    var entries := PrecacheEntries(prior, w.origin, files, fetchFile);
    PrecacheStoresAll(prior, w.origin, files, fetchFile);
    SetEntries(st1, StaticName, entries)
  }

  /** The install handler: precache into STATIC, then in runtime mode make sure RUNTIME exists. */
  function Install(w: Worker, st: Storage, mf: ManifestFetch, fetchFile: string -> Option<Response>): (r: Storage)
    ensures forall f :: f in PrecacheList(w.isStatic, mf) && Storable(fetchFile(f)) ==>
              MatchCache(r, StaticName, Key(w.origin, f, ""), false) == fetchFile(f)
    ensures forall n :: n != StaticName && n != RuntimeName ==> Find(r, n) == Find(st, n)
    ensures !w.isStatic ==> Find(r, RuntimeName).Some?
    ensures w.isStatic ==> Find(r, RuntimeName) == Find(st, RuntimeName)
    ensures UniqueNames(st) ==> UniqueNames(r)
  {
    var st2 := Precache(w, st, mf, fetchFile);
    if w.isStatic then st2 else Open(st2, RuntimeName)
  }

  lemma PrecacheStoresAll(prior: seq<Entry>, origin: string, files: seq<string>, fetchFile: string -> Option<Response>)
    ensures forall f :: f in files && Storable(fetchFile(f)) ==>
              MatchIn(PrecacheEntries(prior, origin, files, fetchFile), Key(origin, f, ""), false) == fetchFile(f)
  {
    var news := FetchedEntries(origin, files, fetchFile);
    FetchedEntriesSound(origin, files, fetchFile);
    FetchedEntriesComplete(origin, files, fetchFile);
    forall a, b | 0 <= a < |news| && 0 <= b < |news| && news[a].key == news[b].key
      ensures news[a].resp == news[b].resp
    {
      assert news[a] in news && news[b] in news;
    }
    forall f | f in files && Storable(fetchFile(f))
      ensures MatchIn(PutEach(prior, news), Key(origin, f, ""), false) == fetchFile(f)
    {
      var e := EntryFor(origin, f, fetchFile);
      assert e in news;
      var i :| 0 <= i < |news| && news[i] == e;
      PutEachStoresAll(prior, news, i);
    }
  }

  // ---------------------------------------------------------------------
  // Activate

  /** A cache this worker owns (either prefix) that is not of the current version. */
  predicate IsStale(name: string)
  {
    (StartsWith(name, StaticPrefix) || StartsWith(name, RuntimePrefix)) && name != StaticName && name != RuntimeName
  }

  /** The activate handler's cleanup: every stale cache is deleted, every other cache kept. */
  function Activate(st: Storage): (r: Storage)
    ensures forall c :: c in r <==> c in st && !IsStale(c.name)
    ensures Find(r, StaticName) == Find(st, StaticName) && Find(r, RuntimeName) == Find(st, RuntimeName)
    ensures forall n :: !StartsWith(n, StaticPrefix) && !StartsWith(n, RuntimePrefix) ==> Find(r, n) == Find(st, n)
    ensures forall n :: IsStale(n) ==> Find(r, n).None?
  {
    DeleteWhere(st, IsStale)
  }

  /** An origin holding last version's two caches, this version's static
      cache and another library's cache keeps the last two after activation. */
  lemma ActivateExample(e1: seq<Entry>, e2: seq<Entry>, e3: seq<Entry>, e4: seq<Entry>)
    ensures var st := [Cache("QSW-STATIC-v0", e1), Cache("QSW-RUNTIME-v0", e2),
                       Cache(StaticName, e3), Cache("other-cache", e4)];
            Activate(st) == [Cache(StaticName, e3), Cache("other-cache", e4)]
  {
    var st := [Cache("QSW-STATIC-v0", e1), Cache("QSW-RUNTIME-v0", e2),
               Cache(StaticName, e3), Cache("other-cache", e4)];
    ExampleNames();
    var tail := [Cache("other-cache", e4)];
    assert DeleteWhere(tail, IsStale) == tail by {
      assert tail[1..] == [];
    }
    var kept := [Cache(StaticName, e3)] + tail;
    assert DeleteWhere(kept, IsStale) == kept by {
      assert kept[1..] == tail;
    }
    assert st[1..][1..] == kept;
    assert st[0].name == "QSW-STATIC-v0" && st[1..][0].name == "QSW-RUNTIME-v0";
    assert DeleteWhere(st[1..], IsStale) == DeleteWhere(kept, IsStale);
    assert DeleteWhere(st, IsStale) == DeleteWhere(st[1..], IsStale);
  }

  lemma ExampleNames()
    ensures IsStale("QSW-STATIC-v0") && IsStale("QSW-RUNTIME-v0")
    ensures !IsStale(StaticName) && !IsStale("other-cache")
  {
    assert "QSW-STATIC-v0"[..|StaticPrefix|] == StaticPrefix;
    assert "QSW-RUNTIME-v0"[..|RuntimePrefix|] == RuntimePrefix;
    assert "other-cache"[0] != StaticPrefix[0] && "other-cache"[0] != RuntimePrefix[0];
  }
}
