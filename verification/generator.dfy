/**
 The generation entry point (the default export of src/index.ts), reduced to
 its decisions: validating the deployment type, preparing the build root
 (offline page, removal of stale artifacts, the two runtime scripts), and
 emitting the manifest by mode. The script texts are the output of an opaque
 templating and minification step and arrive as parameters.
 */
module Generator {
  import opened Outcomes
  import opened Strings
  import opened JsonValues
  import opened DirWalk

  /** The deployment type. `Blank` is the empty string, which the validation lets
      through although it is neither "static" nor "runtime". */
  datatype Mode = Static | Runtime | Blank

  datatype GenError =
    | InvalidType(kind: string)
    | DirectoryNotFound(root: string)
    | OfflinePageFailed
    | WriteFailed(name: string)
    | DirInfoFailed(cause: WalkError)

  /** `if (type && type !== 'static' && type !== 'runtime') throw`, with the
      parameter defaulting to "runtime" when absent. */
  function ValidateType(kind: Option<string>): (r: Result<Mode, GenError>)
    ensures r.Err? <==> kind.Some? && kind.value != "" && kind.value != "static" && kind.value != "runtime"
    ensures r.Err? ==> r.error == InvalidType(kind.value)
    ensures r == Ok(Static) <==> kind == Some("static")
    ensures r == Ok(Runtime) <==> kind == None || kind == Some("runtime")
    ensures r == Ok(Blank) <==> kind == Some("")
  {
    match kind
    case None => Ok(Runtime)
    case Some(t) =>
      if t == "static" then Ok(Static)
      else if t == "runtime" then Ok(Runtime)
      else if t == "" then Ok(Blank)
      else Err(InvalidType(t))
  }

  predicate IsFileNamed(n: Node, name: string)
  {
    n.File? && n.name == name
  }

  function Filter(cs: seq<Node>, name: string): (r: seq<Node>)
    ensures forall c :: c in r <==> c in cs && !IsFileNamed(c, name)
    ensures (forall c :: c in cs ==> !IsFileNamed(c, name)) ==> r == cs
  {
    if |cs| == 0 then []
    else if IsFileNamed(cs[0], name) then Filter(cs[1..], name)
    else [cs[0]] + Filter(cs[1..], name)
  }

  /** `removeFileIfExists(root/name)`: a regular file is deleted; a missing
      entry, a directory, a special file or an entry `stat` cannot reach is left alone. */
  function RemoveFileIfExists(d: Node, name: string): (r: Node)
    requires d.Dir?
    ensures r.Dir? && r.name == d.name && r.listable == d.listable
    ensures forall c :: c in r.children <==> c in d.children && !IsFileNamed(c, name)
    ensures (forall c :: c in d.children ==> !IsFileNamed(c, name)) ==> r == d
  {
    d.(children := Filter(d.children, name))
  }

  function Replace(cs: seq<Node>, f: Node): (r: seq<Node>)
    ensures forall c :: c in r <==> c == f || (c in cs && c.name != f.name)
  {
    if |cs| == 0 then [f]
    else if cs[0].name == f.name then Replace(cs[1..], f) 
    else [cs[0]] + Replace(cs[1..], f)
  }

  /** `writeFileSync(root/name, content)`: fails on a directory of that name,
      otherwise the entry of that name becomes the regular file. */
  function WriteFile(d: Node, name: string, content: seq<byte>): (r: Result<Node, GenError>)
    requires d.Dir?
    ensures r.Err? <==> exists c :: c in d.children && c.Dir? && c.name == name
    ensures r.Ok? ==> r.value.Dir? && r.value.name == d.name && r.value.listable == d.listable
    ensures r.Ok? ==> forall c :: c in r.value.children <==>
                        c == File(name, |content|, Some(content)) || (c in d.children && c.name != name)
  {
    if exists c :: c in d.children && c.Dir? && c.name == name then Err(WriteFailed(name))
    else Ok(d.(children := Replace(d.children, File(name, |content|, Some(content)))))
  }

  /** In runtime mode, `offline.html` is written unless a regular file of that
      name is already there; writing over a directory fails. */
  function EnsureOfflinePage(d: Node, page: seq<byte>): (r: Result<Node, GenError>)
    requires d.Dir?
    ensures r.Ok? ==> r.value.Dir? && exists c :: c in r.value.children && IsFileNamed(c, OfflineName)
    ensures r.Ok? ==> forall c :: c in d.children && c.name != OfflineName ==> c in r.value.children
    ensures (exists c :: c in d.children && IsFileNamed(c, OfflineName)) ==> r == Ok(d)
    ensures r.Err? <==> (forall c :: c in d.children ==> !IsFileNamed(c, OfflineName))
                        && exists c :: c in d.children && c.Dir? && c.name == OfflineName
  {
    if exists c :: c in d.children && IsFileNamed(c, OfflineName) then Ok(d)
    else
      match WriteFile(d, OfflineName, page)
      case Err(_) => Err(OfflinePageFailed)
      case Ok(d') => Ok(d')
  }

  const OfflineName := "offline.html"
  const ManifestName := "apphash.json"
  const WorkerName := "service-worker.js"
  const HandlerName := "service-worker-handler.js"

  /** The manifest record: `files` and `size` are present only in static mode. */
  datatype Manifest = Manifest(hash: string, files: Option<seq<string>>, size: Option<nat>)

  /** The manifest emission by mode. */
  function Emit(mode: Mode, info: DirInfo): (m: Manifest)
    ensures m.hash == info.hash
    ensures m.files.Some? <==> mode == Static
    ensures m.size.Some? <==> mode == Static
    ensures mode == Static ==> m.files.value == info.files && m.size.value == info.size
  {
    if mode == Static then Manifest(info.hash, Some(info.files), Some(info.size))
    else Manifest(info.hash, None, None)
  }

  /** `JSON.stringify` of the emitted record, as a reader parses it back: the
      hash is a string property, `files` an array of exactly the listed paths and
      `size` a number, the last two only when present; no reconciler flag is set. */
  function ToJson(m: Manifest): (j: Json)
    ensures Get(j, "hash") == Some(JStr(m.hash))
    ensures Get(j, "files").Some? <==> m.files.Some?
    ensures m.files.Some? ==> Get(j, "files").value.JArr? && StringItems(Get(j, "files").value.items) == m.files
    ensures Get(j, "size").Some? <==> m.size.Some?
    ensures Get(j, "disable").None? && Get(j, "unregister").None?
  {
    var base := map["hash" := JStr(m.hash)];
    var withFiles := if m.files.Some? then base["files" := StringArray(m.files.value)] else base;
    JObj(if m.size.Some? then withFiles["size" := JNum(m.size.value as real)] else withFiles)
  }

  /** The two script texts and the offline page after templating and
      minification, and the serialisation of the manifest: all opaque here. */
  datatype Artifacts = Artifacts(worker: seq<byte>, handler: seq<byte>, offlinePage: seq<byte>,
                                 serialize: Json -> seq<byte>)

  datatype Config = Config(root: string, kind: Option<string>)

  datatype Generated = Generated(tree: Node, manifest: Manifest)

  /** The `removeFileIfExists` calls for the three generated artifacts. */
  function RemoveStale(t: Node): (r: Node)
    requires t.Dir?
    ensures r.Dir?
    ensures forall f :: f in t.children && f.name != ManifestName && f.name != WorkerName && f.name != HandlerName
                        ==> f in r.children
    ensures forall f :: f in r.children ==> f in t.children
    ensures forall f :: f in r.children && f.File? ==>
                        f.name != ManifestName && f.name != WorkerName && f.name != HandlerName
  {
    RemoveFileIfExists(RemoveFileIfExists(RemoveFileIfExists(t, ManifestName), WorkerName), HandlerName)
  }

  /** Writing the service worker and copying its handler into the root. */
  function WriteScripts(t: Node, a: Artifacts): (r: Result<Node, GenError>)
    requires t.Dir?
    ensures r.Ok? ==> r.value.Dir?
    ensures r.Ok? ==> File(WorkerName, |a.worker|, Some(a.worker)) in r.value.children
                      && File(HandlerName, |a.handler|, Some(a.handler)) in r.value.children
    ensures r.Ok? ==> forall f :: f in t.children && f.name != WorkerName && f.name != HandlerName
                                  ==> f in r.value.children
    ensures r.Ok? ==> forall f :: f in r.value.children ==>
                                  f in t.children || f.name == WorkerName || f.name == HandlerName
  {
    match WriteFile(t, WorkerName, a.worker)
    case Err(e) => Err(e)
    case Ok(t3) =>
      match WriteFile(t3, HandlerName, a.handler)
      case Err(e) => Err(e)
      case Ok(t4) =>
        assert File(WorkerName, |a.worker|, Some(a.worker)) in t4.children;
        Ok(t4)
  }

  /** The root as the walk will see it: the offline page ensured in runtime
      mode, stale artifacts removed, the two runtime scripts written. */
  function Prepare(mode: Mode, tree: Node, a: Artifacts): (r: Result<Node, GenError>)
    requires tree.Dir?
    ensures r.Ok? ==> r.value.Dir?
    ensures r.Ok? ==> File(WorkerName, |a.worker|, Some(a.worker)) in r.value.children
                      && File(HandlerName, |a.handler|, Some(a.handler)) in r.value.children
    ensures r.Ok? && mode == Runtime ==> exists f :: f in r.value.children && IsFileNamed(f, OfflineName)
    ensures r.Ok? && mode != Runtime ==> forall f :: f in r.value.children ==>
                                           f in tree.children || f.name == WorkerName || f.name == HandlerName
  {
    var prepared := if mode == Runtime then EnsureOfflinePage(tree, a.offlinePage) else Ok(tree);
    match prepared
    case Err(e) => Err(e)
    case Ok(t1) =>
      var t2 := RemoveStale(t1);
      match WriteScripts(t2, a)
      case Err(e) => Err(e)
      case Ok(t4) =>
        assert mode == Runtime ==> exists f :: f in t4.children && IsFileNamed(f, OfflineName) by {
          if mode == Runtime {
            var f :| f in t1.children && IsFileNamed(f, OfflineName);
            assert f in t2.children;
          }
        }
        Ok(t4)
  }

  /** Writing `apphash.json` into the prepared root. */
  function WriteManifest(t: Node, m: Manifest, a: Artifacts): (r: Result<Node, GenError>)
    requires t.Dir?
    ensures r.Ok? ==> r.value.Dir?
    ensures r.Ok? ==> var body := a.serialize(ToJson(m));
                      File(ManifestName, |body|, Some(body)) in r.value.children
    ensures r.Ok? ==> forall f :: f in t.children && IsFileNamed(f, OfflineName) ==> f in r.value.children
    ensures r.Ok? ==> forall f :: f in r.value.children ==> f in t.children || f.name == ManifestName
  {
    WriteFile(t, ManifestName, a.serialize(ToJson(m)))
  }

  /** Everything after the type check, once the root is known to be a directory:
      prepare the root, walk it, emit the manifest by mode and write it. */
  function Build(c: Codec, root: string, mode: Mode, tree: Node, a: Artifacts): (r: Result<Generated, GenError>)
    requires tree.Dir?
    ensures r.Ok? ==> r.value.tree.Dir?
    ensures r.Ok? ==> (r.value.manifest.files.Some? <==> mode == Static)
                      && (r.value.manifest.size.Some? <==> mode == Static)
    ensures r.Ok? && mode == Static ==>
              "/" + WorkerName in r.value.manifest.files.value && "/" + HandlerName in r.value.manifest.files.value
    ensures r.Ok? ==> var body := a.serialize(ToJson(r.value.manifest));
                      File(ManifestName, |body|, Some(body)) in r.value.tree.children
    ensures r.Ok? && mode == Runtime ==> exists f :: f in r.value.tree.children && IsFileNamed(f, OfflineName)
    ensures r.Ok? && mode != Runtime ==> forall f :: f in r.value.tree.children && f.name == OfflineName ==> f in tree.children
    ensures Prepare(mode, tree, a).Err? ==> r == Err(Prepare(mode, tree, a).error)
    ensures r.Ok? ==> Prepare(mode, tree, a).Ok? && DirInfoOf(c, root, Prepare(mode, tree, a).value).Ok?
                      && r.value.manifest == Emit(mode, DirInfoOf(c, root, Prepare(mode, tree, a).value).value)
    ensures Prepare(mode, tree, a).Ok? ==> r == Finish(c, root, mode, Prepare(mode, tree, a).value, a)
    ensures Prepare(mode, tree, a).Ok? && DirInfoOf(c, root, Prepare(mode, tree, a).value).Err? ==>
              r == Err(DirInfoFailed(DirInfoOf(c, root, Prepare(mode, tree, a).value).error))
    ensures r.Err? <==> Prepare(mode, tree, a).Err? || DirInfoOf(c, root, Prepare(mode, tree, a).value).Err?
                        || exists f :: f in Prepare(mode, tree, a).value.children && f.Dir? && f.name == ManifestName
  {
    var p := Prepare(mode, tree, a);
    if p.Err? then Err(p.error)
    else
      var r := Finish(c, root, mode, p.value, a);
      if r.Ok? then
        OfflinePageKept(mode, tree, p.value, r.value.tree);
        r
      else r
  }

  /** The walk of the prepared root, the manifest emitted by mode, and its write. */
  function Finish(c: Codec, root: string, mode: Mode, t4: Node, a: Artifacts): (r: Result<Generated, GenError>)
    requires t4.Dir?
    requires File(WorkerName, |a.worker|, Some(a.worker)) in t4.children
    requires File(HandlerName, |a.handler|, Some(a.handler)) in t4.children
    ensures r.Ok? ==> r.value.tree.Dir?
    ensures r.Ok? ==> (r.value.manifest.files.Some? <==> mode == Static)
                      && (r.value.manifest.size.Some? <==> mode == Static)
    ensures r.Ok? && mode == Static ==>
              "/" + WorkerName in r.value.manifest.files.value && "/" + HandlerName in r.value.manifest.files.value
    ensures r.Ok? ==> var body := a.serialize(ToJson(r.value.manifest));
                      File(ManifestName, |body|, Some(body)) in r.value.tree.children
    ensures r.Ok? ==> forall f :: f in t4.children && IsFileNamed(f, OfflineName) ==> f in r.value.tree.children
    ensures r.Ok? ==> forall f :: f in r.value.tree.children ==> f in t4.children || f.name == ManifestName
    ensures DirInfoOf(c, root, t4).Err? ==> r == Err(DirInfoFailed(DirInfoOf(c, root, t4).error))
    ensures r.Ok? ==> DirInfoOf(c, root, t4).Ok? && r.value.manifest == Emit(mode, DirInfoOf(c, root, t4).value)
    ensures r.Err? <==> DirInfoOf(c, root, t4).Err? ||
                        exists f :: f in t4.children && f.Dir? && f.name == ManifestName
  {
    match DirInfoOf(c, root, t4)
    case Err(e) => Err(DirInfoFailed(e))
    case Ok(info) =>
      var m := Emit(mode, info);
      match WriteManifest(t4, m, a)
      case Err(e) => Err(e)
      case Ok(t5) =>
        ScriptsListed(c, root, t4, a, info);
        Ok(Generated(t5, m))
  }

  /** The generation entry point, from a resolved root path. An invalid type
      fails before the file system is consulted; static mode emits the file list
      and size, which include the two runtime scripts; runtime mode leaves an
      offline page behind; the empty type passes but creates no offline page. */
  function Generate(c: Codec, cfg: Config, tree: Node, a: Artifacts): (r: Result<Generated, GenError>)
    ensures ValidateType(cfg.kind).Err? ==> r == Err(InvalidType(cfg.kind.value))
    ensures ValidateType(cfg.kind).Ok? && !tree.Dir? ==> r == Err(DirectoryNotFound(cfg.root))
    ensures r.Ok? ==> r.value.tree.Dir?
    ensures r.Ok? ==> (r.value.manifest.files.Some? <==> cfg.kind == Some("static"))
                      && (r.value.manifest.size.Some? <==> cfg.kind == Some("static"))
    ensures r.Ok? && cfg.kind == Some("static") ==>
              "/" + WorkerName in r.value.manifest.files.value && "/" + HandlerName in r.value.manifest.files.value
    ensures r.Ok? ==> var body := a.serialize(ToJson(r.value.manifest));
                      File(ManifestName, |body|, Some(body)) in r.value.tree.children
    ensures r.Ok? && (cfg.kind == None || cfg.kind == Some("runtime")) ==>
              exists f :: f in r.value.tree.children && IsFileNamed(f, OfflineName)
    ensures r.Ok? && cfg.kind == Some("") && (forall f :: f in tree.children ==> f.name != OfflineName) ==>
              forall f :: f in r.value.tree.children ==> f.name != OfflineName
    ensures r.Ok? ==> ValidateType(cfg.kind).Ok? && tree.Dir?
    ensures ValidateType(cfg.kind).Ok? && tree.Dir? ==> r == Build(c, cfg.root, ValidateType(cfg.kind).value, tree, a)
  {
    match ValidateType(cfg.kind)
    case Err(e) => Err(e)
    case Ok(mode) =>
      if !tree.Dir? then Err(DirectoryNotFound(cfg.root))
      else
        var r := Build(c, cfg.root, mode, tree, a);
        assert mode == Static <==> cfg.kind == Some("static");
        assert mode == Runtime <==> cfg.kind == None || cfg.kind == Some("runtime");
        r
  }

  /** The manifest write neither loses nor adds an offline page: one the
      prepared root holds in runtime mode is kept, and in the other modes any
      offline page was already in the original root. */
  lemma OfflinePageKept(mode: Mode, tree: Node, prepared: Node, written: Node)
    requires tree.Dir? && prepared.Dir? && written.Dir?
    requires mode == Runtime ==> exists f :: f in prepared.children && IsFileNamed(f, OfflineName)
    requires mode != Runtime ==> forall f :: f in prepared.children ==>
                                   f in tree.children || f.name == WorkerName || f.name == HandlerName
    requires forall f :: f in prepared.children && IsFileNamed(f, OfflineName) ==> f in written.children
    requires forall f :: f in written.children ==> f in prepared.children || f.name == ManifestName
    ensures mode == Runtime ==> exists f :: f in written.children && IsFileNamed(f, OfflineName)
    ensures mode != Runtime ==> forall f :: f in written.children && f.name == OfflineName ==> f in tree.children
  {
    if mode == Runtime {
      var f :| f in prepared.children && IsFileNamed(f, OfflineName);
      assert f in written.children;
    }
  }

  /** The emitted manifest against the walk of the prepared root: its hash is
      the rolling digest over the regular files in traversal order and, in static
      mode, its size is their total and its file list their sorted web paths. */
  lemma BuildManifestIsWalk(c: Codec, root: string, mode: Mode, tree: Node, a: Artifacts)
    requires tree.Dir?
    ensures var r := Build(c, root, mode, tree, a);
            r.Ok? ==>
              var t := TraverseDir(root, Prepare(mode, tree, a).value, {});
              && r.value.manifest.hash == Roll(c, "", t.events)
              && (mode == Static ==>
                    && r.value.manifest.size == Some(TotalSize(t.events))
                    && multiset(r.value.manifest.files.value) == multiset(Normalized(root, Paths(t.events)))
                    && SortedBy(r.value.manifest.files.value, Identity))
  {
    var r := Build(c, root, mode, tree, a);
    if r.Ok? {
      DirInfoSpec(c, root, Prepare(mode, tree, a).value);
    }
  }

  /** A regular file written directly into the root is among the listed files. */
  lemma WrittenFileListed(c: Codec, root: string, t: Node, name: string, content: seq<byte>, info: DirInfo)
    requires t.Dir? && DirInfoOf(c, root, t) == Ok(info)
    requires File(name, |content|, Some(content)) in t.children
    requires |name| > 0 && name[0] != '/' && '\\' !in name
    ensures "/" + name in info.files
  {
    RootFileListed(c, root, t, File(name, |content|, Some(content)));
    ReplaceNoBackslash(name);
  }

  /** The two runtime scripts, written before the walk, are among the listed files. */
  lemma ScriptsListed(c: Codec, root: string, t4: Node, a: Artifacts, info: DirInfo)
    requires t4.Dir? && DirInfoOf(c, root, t4) == Ok(info)
    requires File(WorkerName, |a.worker|, Some(a.worker)) in t4.children
    requires File(HandlerName, |a.handler|, Some(a.handler)) in t4.children
    ensures "/" + WorkerName in info.files && "/" + HandlerName in info.files
  {
    ScriptNamesPlain();
    WrittenFileListed(c, root, t4, WorkerName, a.worker, info);
    WrittenFileListed(c, root, t4, HandlerName, a.handler, info);
  }

  /** The script names are plain relative names. */
  lemma ScriptNamesPlain()
    ensures |WorkerName| > 0 && WorkerName[0] != '/' && '\\' !in WorkerName
    ensures |HandlerName| > 0 && HandlerName[0] != '/' && '\\' !in HandlerName
  {
  }
}
