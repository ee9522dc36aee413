/**
 How the three parts meet: the manifest the generator writes is what the
 worker precaches from and what the reconciler decides on, and a static
 build's files are served from the precache once the worker is installed.
 A fetched manifest body is taken to parse back to the JSON the generator
 serialised.
 */
module EndToEnd {
  import opened Outcomes
  import opened JsonValues
  import opened CacheStorage
  import opened Generator
  import opened CacheRuntime
  import opened Reconciler

  /** A worker built for a static manifest precaches exactly its file list. */
  lemma StaticManifestPrecached(m: Manifest)
    requires m.files.Some? && |m.files.value| > 0
    ensures PrecacheList(true, Fetched(200, Some(ToJson(m)))) == m.files.value
  {
    var j := ToJson(m);
    assert ValidManifest(true, j);
  }

  /** The worker's manifest check accepts every generated manifest, except
      that a static worker rejects one written without a file list. */
  lemma GeneratedManifestValid(m: Manifest, isStatic: bool)
    ensures ValidManifest(isStatic, ToJson(m)) <==> !isStatic || m.files.Some?
  {
  }

  /** A manifest without a file list (runtime or blank mode) read by a static
      worker leaves it precaching the offline page only. */
  lemma FilelessManifestFallsBack(m: Manifest)
    requires m.files.None?
    ensures PrecacheList(true, Fetched(200, Some(ToJson(m)))) == [OfflinePath]
  {
  }

  /** What a static generation run writes, a static worker precaches in full:
      the listing, which includes both scripts. */
  lemma GeneratedStaticBuildPrecached(c: DirWalk.Codec, root: string, tree: DirWalk.Node, a: Artifacts)
    requires Generate(c, Config(root, Some("static")), tree, a).Ok?
    ensures var m := Generate(c, Config(root, Some("static")), tree, a).value.manifest;
            var files := PrecacheList(true, Fetched(200, Some(ToJson(m))));
            Some(files) == m.files && "/" + WorkerName in files && "/" + HandlerName in files
  {
    var m := Generate(c, Config(root, Some("static")), tree, a).value.manifest;
    assert "/" + WorkerName in m.files.value;
    StaticManifestPrecached(m);
  }

  /** The reconciler never skips or tears down because of a flag in a
      generated manifest: it registers, or tears down on hash drift, or
      skips on an empty hash. */
  lemma GeneratedManifestDecision(m: Manifest, stored: Option<string>)
    ensures Decide(true, Fetched(200, Some(ToJson(m))), stored)
            == (if m.hash == "" then Skip else if Drifted(stored, m.hash) then Teardown else Register(m.hash))
  {
  }

  /** Offline after install: a static worker that installed and activated
      answers a plain GET for a precached file from STATIC, without the
      network, whatever the preload and network would have done. */
  lemma PrecachedFileServedFromCache(w: Worker, st: Storage, mf: ManifestFetch,
                                     fetchFile: string -> Option<Response>, req: Request, env: FetchEnv)
    requires w.isStatic
    requires req.verb == "GET" && req.origin == w.origin && req.search == "" && !HasSensitiveHeaders(req)
    requires req.path in PrecacheList(true, mf) && Storable(fetchFile(req.path))
    ensures HandleFetch(w, Activate(Install(w, st, mf, fetchFile)), req, env)
            == Outcome(Respond(fetchFile(req.path).value, StaticExact), Activate(Install(w, st, mf, fetchFile)))
  {
    var st2 := Activate(Install(w, st, mf, fetchFile));
    InstalledFileCached(w, st, mf, fetchFile, req.path);
    assert KeyOf(req) == Key(w.origin, req.path, "");
    StaticExactServed(w, st2, req, fetchFile(req.path).value, env);
  }

  /** A storable precache file is in STATIC after install and activate. */
  lemma InstalledFileCached(w: Worker, st: Storage, mf: ManifestFetch, fetchFile: string -> Option<Response>, f: string)
    requires f in PrecacheList(w.isStatic, mf) && Storable(fetchFile(f))
    ensures var st2 := Activate(Install(w, st, mf, fetchFile));
            Find(st2, StaticName).Some? && MatchCache(st2, StaticName, Key(w.origin, f, ""), false) == fetchFile(f)
  {
  }
}
