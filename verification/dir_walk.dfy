/**
 The manifest builder's directory walk (`dirinfo` in src/index.ts): a
 depth-first walk over a directory tree that visits each directory's entries
 in sorted name order, folds a rolling digest over the regular files, sums
 their sizes, and reports their paths as sorted web paths.

 The tree is the file system as `stat` sees it, so a symbolic link appears
 as the node it points to. MD5 and Base64 are left uninterpreted: they are
 the two functions of a `Codec` the caller supplies.
 */
module DirWalk {
  import opened Outcomes
  import opened Strings

  newtype byte = x: int | 0 <= x < 256

  /** `digest` is MD5 (RFC 1321) as a hex string; `base64` is the encoding of
      section 4 of RFC 4648. Nothing is assumed about either. */
  datatype Codec = Codec(digest: string -> string, base64: seq<byte> -> string)

  /** One directory entry as `statSync` reports it. */
  datatype Node =
    | File(name: string, size: nat, content: Option<seq<byte>>)  // content None: reading the file throws
    | Dir(name: string, listable: bool, children: seq<Node>)      // listable false: readdirSync throws
    | Special(name: string)                                       // socket, FIFO, device
    | Broken(name: string)                                        // statSync throws

  function NameOf(n: Node): string { n.name }

  /** `path.join` of a directory and one plain entry name. */
  function Join(dir: string, name: string): (p: string)
    ensures StartsWith(p, dir)
  {
    if |dir| > 0 && dir[|dir| - 1] == '/' then dir + name else dir + "/" + name
  }

  /** The walk's mutable state: the visited set and the three accumulators. */
  datatype Acc = Acc(visited: set<string>, files: seq<string>, size: nat, hash: string)

  datatype WalkError =
    | PathRequired             // an empty directory path
    | NotFound(path: string)   // the root is missing or not a directory
    | ListFailed(path: string) // readdirSync threw
    | ReadFailed(path: string) // readFileSync threw

  /** One file's step of the rolling hash: `H := Digest(H ++ name ++ Base64(content))`. */
  function HashStep(c: Codec, h: string, name: string, content: seq<byte>): string
  {
    c.digest(h + name + c.base64(content))
  }

  // ---------------------------------------------------------------------------
  // The walk, as the source performs it: accumulators updated in place.
  // ---------------------------------------------------------------------------

  /** `walk(dirPath, visitedPaths)`: skip a directory already visited, else mark it
      visited, list it (a listing failure aborts) and walk its entries in sorted order. */
  function WalkDir(c: Codec, path: string, d: Node, acc: Acc): (r: Result<Acc, WalkError>)
    requires d.Dir?
    ensures path in acc.visited ==> r == Ok(acc)
    ensures r.Ok? ==> acc.visited <= r.value.visited && path in r.value.visited
    ensures r.Ok? ==> acc.size <= r.value.size && |acc.files| <= |r.value.files|
    decreases d, 1
  {
    if path in acc.visited then Ok(acc)
    else if !d.listable then Err(ListFailed(path))
    else
      var sorted := SortBy(d.children, NameOf);
      SortByMembers(d.children, NameOf);
      WalkEntries(c, path, d, sorted, acc.(visited := acc.visited + {path}))
  }

  /** The `forEach` over one directory's sorted entries; `parent` only bounds the recursion. */
  function WalkEntries(c: Codec, path: string, ghost parent: Node, es: seq<Node>, acc: Acc): (r: Result<Acc, WalkError>)
    requires parent.Dir? && forall e :: e in es ==> e in parent.children
    ensures r.Ok? ==> acc.visited <= r.value.visited
    ensures r.Ok? ==> acc.size <= r.value.size && |acc.files| <= |r.value.files|
    decreases parent, 0, |es|
  {
    if |es| == 0 then Ok(acc)
    else
      assert es[0] in parent.children;
      match WalkEntry(c, path, es[0], acc)
      case Err(e) => Err(e)
      case Ok(acc') => WalkEntries(c, path, parent, es[1..], acc')
  }

  /** One entry: recurse into a directory, hash a regular file (a read failure
      aborts), skip anything else, including an entry whose `stat` failed. */
  function WalkEntry(c: Codec, dirPath: string, e: Node, acc: Acc): (r: Result<Acc, WalkError>)
    ensures r.Ok? ==> acc.visited <= r.value.visited
    ensures r.Ok? ==> acc.size <= r.value.size && |acc.files| <= |r.value.files|
    decreases e, 2
  {
    var p := Join(dirPath, e.name);
    match e
    case Broken(_) => Ok(acc)
    case Special(_) => Ok(acc)
    case Dir(_, _, _) => WalkDir(c, p, e, acc)
    case File(name, size, content) =>
      match content
      case None => Err(ReadFailed(p))
      case Some(bytes) =>
        Ok(Acc(acc.visited, acc.files + [p], acc.size + size, HashStep(c, acc.hash, name, bytes)))
  }

  // ---------------------------------------------------------------------------
  // The reference: the depth-first traversal order, as a list of events.
  // ---------------------------------------------------------------------------

  /** A regular file reached by the walk, or a directory whose listing failed. */
  datatype Event =
    | Read(path: string, name: string, size: nat, content: Option<seq<byte>>)
    | ListFail(path: string)

  /** The events in traversal order, the visited set afterwards, and the
      directories actually entered, in order. */
  datatype Trace = Trace(events: seq<Event>, visited: set<string>, walked: seq<string>)

  function TraverseDir(path: string, d: Node, visited: set<string>): Trace
    requires d.Dir?
    decreases d, 1
  {
    if path in visited then Trace([], visited, [])
    else if !d.listable then Trace([ListFail(path)], visited + {path}, [path])
    else
      var sorted := SortBy(d.children, NameOf);
      SortByMembers(d.children, NameOf);
      var t := TraverseEntries(path, d, sorted, visited + {path});
      Trace(t.events, t.visited, [path] + t.walked)
  }

  function TraverseEntries(path: string, ghost parent: Node, es: seq<Node>, visited: set<string>): Trace
    requires parent.Dir? && forall e :: e in es ==> e in parent.children
    decreases parent, 0, |es|
  {
    if |es| == 0 then Trace([], visited, [])
    else
      assert es[0] in parent.children;
      var a := TraverseEntry(path, es[0], visited);
      var b := TraverseEntries(path, parent, es[1..], a.visited);
      Trace(a.events + b.events, b.visited, a.walked + b.walked)
  }

  function TraverseEntry(dirPath: string, e: Node, visited: set<string>): Trace
    decreases e, 2
  {
    match e
    case File(name, size, content) => Trace([Read(Join(dirPath, name), name, size, content)], visited, [])
    case Dir(_, _, _) => TraverseDir(Join(dirPath, e.name), e, visited)
    case _ => Trace([], visited, [])
  }

  predicate Fails(ev: Event)
  {
    ev.ListFail? || ev.content.None?
  }

  predicate AnyFails(evs: seq<Event>)
  {
    exists i :: 0 <= i < |evs| && Fails(evs[i])
  }

  /** The paths of the regular files among the events. */
  function Paths(evs: seq<Event>): seq<string>
  {
    if |evs| == 0 then []
    else (if evs[0].Read? then [evs[0].path] else []) + Paths(evs[1..])
  }

  function TotalSize(evs: seq<Event>): nat
  {
    if |evs| == 0 then 0
    else (if evs[0].Read? then evs[0].size else 0) + TotalSize(evs[1..])
  }

  /** The left fold of `HashStep` over the readable regular files, from seed `h`. */
  function Roll(c: Codec, h: string, evs: seq<Event>): string
    decreases |evs|
  {
    if |evs| == 0 then h
    else
      var h' := if evs[0].Read? && evs[0].content.Some? then HashStep(c, h, evs[0].name, evs[0].content.value) else h;
      Roll(c, h', evs[1..])
  }

  lemma {:induction false} PathsAppend(a: seq<Event>, b: seq<Event>)
    ensures Paths(a + b) == Paths(a) + Paths(b)
  {
    if |a| > 0 {
      assert (a + b)[1..] == a[1..] + b;
      PathsAppend(a[1..], b);
    } else {
      assert a + b == b;
    }
  }

  lemma {:induction false} TotalSizeAppend(a: seq<Event>, b: seq<Event>)
    ensures TotalSize(a + b) == TotalSize(a) + TotalSize(b)
  {
    if |a| > 0 {
      assert (a + b)[1..] == a[1..] + b;
      TotalSizeAppend(a[1..], b);
    } else {
      assert a + b == b;
    }
  }

  lemma {:induction false} RollAppend(c: Codec, h: string, a: seq<Event>, b: seq<Event>)
    ensures Roll(c, h, a + b) == Roll(c, Roll(c, h, a), b)
    decreases |a|
  {
    if |a| > 0 {
      assert (a + b)[1..] == a[1..] + b;
      var h' := if a[0].Read? && a[0].content.Some? then HashStep(c, h, a[0].name, a[0].content.value) else h;
      RollAppend(c, h', a[1..], b);
    } else {
      assert a + b == b;
    }
  }

  lemma AnyFailsAppend(a: seq<Event>, b: seq<Event>)
    ensures AnyFails(a + b) <==> AnyFails(a) || AnyFails(b)
  {
    if AnyFails(a) {
      var i :| 0 <= i < |a| && Fails(a[i]);
      assert (a + b)[i] == a[i];
    }
    if AnyFails(b) {
      var i :| 0 <= i < |b| && Fails(b[i]);
      assert (a + b)[|a| + i] == b[i];
    }
    if AnyFails(a + b) {
      var i :| 0 <= i < |a + b| && Fails((a + b)[i]);
      if i >= |a| { assert b[i - |a|] == (a + b)[i]; }
    }
  }

  /** The walk's outcome agrees with the traversal `t` started from `acc`: it
      aborts exactly when some event fails, and otherwise its accumulators are
      the folds of the events over `acc`'s. */
  ghost predicate Agrees(c: Codec, acc: Acc, t: Trace, r: Result<Acc, WalkError>)
  {
    && (r.Err? <==> AnyFails(t.events))
    && (r.Ok? ==> r.value == Acc(t.visited, acc.files + Paths(t.events),
                                 acc.size + TotalSize(t.events), Roll(c, acc.hash, t.events)))
  }

  lemma {:induction false} WalkDirIsFold(c: Codec, path: string, d: Node, acc: Acc)
    requires d.Dir?
    ensures Agrees(c, acc, TraverseDir(path, d, acc.visited), WalkDir(c, path, d, acc))
    decreases d, 1
  {
    if path !in acc.visited && d.listable {
      var sorted := SortBy(d.children, NameOf);
      SortByMembers(d.children, NameOf);
      WalkEntriesIsFold(c, path, d, sorted, acc.(visited := acc.visited + {path}));
    } else if path !in acc.visited {
      assert Fails(TraverseDir(path, d, acc.visited).events[0]);
    }
  }

  lemma {:induction false} WalkEntriesIsFold(c: Codec, path: string, parent: Node, es: seq<Node>, acc: Acc)
    requires parent.Dir? && forall e :: e in es ==> e in parent.children
    ensures Agrees(c, acc, TraverseEntries(path, parent, es, acc.visited), WalkEntries(c, path, parent, es, acc))
    decreases parent, 0, |es|
  {
    if |es| > 0 {
      assert es[0] in parent.children;
      var a := TraverseEntry(path, es[0], acc.visited);
      WalkEntryIsFold(c, path, es[0], acc);
      AnyFailsAppend(a.events, TraverseEntries(path, parent, es[1..], a.visited).events);
      match WalkEntry(c, path, es[0], acc)
      case Err(_) =>
      case Ok(acc') =>
        var b := TraverseEntries(path, parent, es[1..], a.visited);
        WalkEntriesIsFold(c, path, parent, es[1..], acc');
        PathsAppend(a.events, b.events);
        TotalSizeAppend(a.events, b.events);
        RollAppend(c, acc.hash, a.events, b.events);
    }
  }

  lemma {:induction false} WalkEntryIsFold(c: Codec, dirPath: string, e: Node, acc: Acc)
    ensures Agrees(c, acc, TraverseEntry(dirPath, e, acc.visited), WalkEntry(c, dirPath, e, acc))
    decreases e, 2
  {
    match e
    case Dir(_, _, _) => WalkDirIsFold(c, Join(dirPath, e.name), e, acc);
    case File(name, size, content) =>
      var evs := TraverseEntry(dirPath, e, acc.visited).events;
      assert evs[1..] == [];
      if content.None? { assert Fails(evs[0]); }
    case _ =>
  }

  // ---------------------------------------------------------------------------
  // The visited set: shared by the whole walk, so no directory path is entered twice.
  // ---------------------------------------------------------------------------

  /** Every directory `t` entered was new when the traversal began, is recorded
      as visited afterwards, and was entered once. */
  ghost predicate EnteredOnce(visited: set<string>, t: Trace)
  {
    && visited <= t.visited
    && (forall i :: 0 <= i < |t.walked| ==> t.walked[i] !in visited && t.walked[i] in t.visited)
    && (forall i, j :: 0 <= i < j < |t.walked| ==> t.walked[i] != t.walked[j])
  }

  lemma {:induction false} TraverseDirEnteredOnce(path: string, d: Node, visited: set<string>)
    requires d.Dir?
    ensures EnteredOnce(visited, TraverseDir(path, d, visited))
    decreases d, 1
  {
    if path !in visited && d.listable {
      var sorted := SortBy(d.children, NameOf);
      SortByMembers(d.children, NameOf);
      TraverseEntriesEnteredOnce(path, d, sorted, visited + {path});
    }
  }

  lemma {:induction false} TraverseEntriesEnteredOnce(path: string, parent: Node, es: seq<Node>, visited: set<string>)
    requires parent.Dir? && forall e :: e in es ==> e in parent.children
    ensures EnteredOnce(visited, TraverseEntries(path, parent, es, visited))
    decreases parent, 0, |es|
  {
    if |es| > 0 {
      assert es[0] in parent.children;
      var a := TraverseEntry(path, es[0], visited);
      TraverseEntryEnteredOnce(path, es[0], visited);
      var b := TraverseEntries(path, parent, es[1..], a.visited);
      TraverseEntriesEnteredOnce(path, parent, es[1..], a.visited);
      var w := a.walked + b.walked;
      forall i, j | 0 <= i < j < |w| ensures w[i] != w[j] {
        if j < |a.walked| {
        } else if i >= |a.walked| {
          assert w[i] == b.walked[i - |a.walked|] && w[j] == b.walked[j - |a.walked|];
        } else {
          assert w[i] == a.walked[i] && a.walked[i] in a.visited;
          assert w[j] == b.walked[j - |a.walked|] && b.walked[j - |a.walked|] !in a.visited;
        }
      }
      forall i | 0 <= i < |w| ensures w[i] !in visited && w[i] in b.visited {
        if i >= |a.walked| {
          assert w[i] == b.walked[i - |a.walked|];
        }
      }
    }
  }

  lemma {:induction false} TraverseEntryEnteredOnce(dirPath: string, e: Node, visited: set<string>)
    ensures EnteredOnce(visited, TraverseEntry(dirPath, e, visited))
    decreases e, 2
  {
    if e.Dir? {
      TraverseDirEnteredOnce(Join(dirPath, e.name), e, visited);
    }
  }

  // ---------------------------------------------------------------------------
  // Web paths and the result of `dirinfo`.
  // ---------------------------------------------------------------------------

  function ReplaceBackslashes(s: string): (r: string)
    ensures |r| == |s|
    ensures forall i :: 0 <= i < |s| ==> r[i] == (if s[i] == '\\' then '/' else s[i])
  {
    if |s| == 0 then [] else [if s[0] == '\\' then '/' else s[0]] + ReplaceBackslashes(s[1..])
  }

  /** A name without backslashes is left as it is. */
  lemma {:induction false} ReplaceNoBackslash(s: string)
    requires '\\' !in s
    ensures ReplaceBackslashes(s) == s
  {
    if |s| > 0 {
      assert '\\' !in s[1..];
      ReplaceNoBackslash(s[1..]);
      assert s == [s[0]] + s[1..];
    }
  }

  /** An absolute file path as a web path: the root's length stripped, backslashes
      turned into slashes, and a leading slash added when missing. */
  function WebPath(root: string, file: string): (w: string)
    ensures |w| > 0 && w[0] == '/'
    ensures '\\' !in w
    ensures StartsWith(file, root) ==>
      var rel := ReplaceBackslashes(file[|root|..]);
      w == rel || w == "/" + rel
  {
    var rel := if |root| <= |file| then file[|root|..] else "";
    var fwd := ReplaceBackslashes(rel);
    if |fwd| > 0 && fwd[0] == '/' then fwd else "/" + fwd
  }

  /** The slash is added exactly when the stripped, forward-slashed path does
      not already start with one. */
  lemma WebPathLeadingSlash(root: string, file: string)
    requires StartsWith(file, root)
    ensures var rel := ReplaceBackslashes(file[|root|..]);
            && (WebPath(root, file) == rel <==> |rel| > 0 && rel[0] == '/')
            && (WebPath(root, file) == "/" + rel <==> !(|rel| > 0 && rel[0] == '/'))
  {
  }

  /** A file joined directly below the root becomes `/` followed by its name. */
  lemma WebPathOfJoin(root: string, name: string)
    requires |name| > 0 && name[0] != '/' && name[0] != '\\'
    ensures WebPath(root, Join(root, name)) == "/" + ReplaceBackslashes(name)
  {
    var j := Join(root, name);
    var fwd := ReplaceBackslashes(name);
    assert fwd[0] == name[0];
    if |root| > 0 && root[|root| - 1] == '/' {
      assert j == root + name;
      assert j[|root|..] == name;
    } else {
      assert j == root + "/" + name;
      assert j[|root|..] == "/" + name;
      var g := ReplaceBackslashes("/" + name);
      assert forall i :: 0 <= i < |g| ==> g[i] == ("/" + fwd)[i];
      assert g == "/" + fwd;
    }
  }

  /** A web path below the root comes back unchanged: stripping the root again
      and normalising is the identity on slash-led, backslash-free paths. */
  lemma WebPathRoundTrip(root: string, web: string)
    requires |web| > 0 && web[0] == '/' && '\\' !in web
    ensures WebPath(root, root + web) == web
  {
    assert (root + web)[|root|..] == web;
    ReplaceNoBackslash(web);
  }

  function Identity(s: string): string { s }

  /** The `files.map(...)` step, before sorting. */
  function Normalized(root: string, files: seq<string>): (ws: seq<string>)
    ensures |ws| == |files| && forall i :: 0 <= i < |files| ==> ws[i] == WebPath(root, files[i])
  {
    if |files| == 0 then [] else [WebPath(root, files[0])] + Normalized(root, files[1..])
  }

  /** The `files.map(...).sort()` step. */
  function WebPaths(root: string, files: seq<string>): (r: seq<string>)
    ensures |r| == |files|
    ensures SortedBy(r, Identity)
    ensures multiset(r) == multiset(Normalized(root, files))
    ensures forall i :: 0 <= i < |r| ==> |r[i]| > 0 && r[i][0] == '/' && '\\' !in r[i]
  {
    var ws := Normalized(root, files);
    var r := SortBy(ws, Identity);
    SortByMembers(ws, Identity);
    forall i | 0 <= i < |r| ensures |r[i]| > 0 && r[i][0] == '/' && '\\' !in r[i] {
      assert r[i] in ws;
      var j :| 0 <= j < |ws| && ws[j] == r[i];
      assert ws[j] == WebPath(root, files[j]);
    }
    r
  }

  datatype DirInfo = DirInfo(files: seq<string>, size: nat, hash: string, root: string)

  /** `dirinfo(dirPath)`, for a root path already resolved by the caller. */
  function DirInfoOf(c: Codec, root: string, tree: Node): (r: Result<DirInfo, WalkError>)
    ensures root == "" ==> r == Err(PathRequired)
    ensures root != "" && !tree.Dir? ==> r == Err(NotFound(root))
    ensures r.Ok? ==> r.value.root == root && SortedBy(r.value.files, Identity)
    ensures r.Ok? ==> forall i :: 0 <= i < |r.value.files| ==>
                        |r.value.files[i]| > 0 && r.value.files[i][0] == '/' && '\\' !in r.value.files[i]
  {
    if root == "" then Err(PathRequired)
    else if !tree.Dir? then Err(NotFound(root))
    else
      match WalkDir(c, root, tree, Acc({}, [], 0, ""))
      case Err(e) => Err(e)
      case Ok(acc) => Ok(DirInfo(WebPaths(root, acc.files), acc.size, acc.hash, root))
  }

  /** What `dirinfo` returns, stated against the depth-first traversal order: it
      fails exactly when the root is missing or some walked directory or regular
      file cannot be read; otherwise the hash is the rolling digest seeded with
      the empty string over the regular files in traversal order, the size is
      the sum of their sizes, the file list is the sorted web paths of exactly
      those files, and no directory was entered twice. */
  lemma DirInfoSpec(c: Codec, root: string, tree: Node)
    ensures tree.Dir? ==>
      var t := TraverseDir(root, tree, {});
      var r := DirInfoOf(c, root, tree);
      && (r.Ok? <==> root != "" && !AnyFails(t.events))
      && (r.Ok? ==>
            && r.value.hash == Roll(c, "", t.events)
            && r.value.size == TotalSize(t.events)
            && r.value.root == root
            && |r.value.files| == |Paths(t.events)|
            && multiset(r.value.files) == multiset(Normalized(root, Paths(t.events)))
            && SortedBy(r.value.files, Identity))
      && (forall i, j :: 0 <= i < j < |t.walked| ==> t.walked[i] != t.walked[j])
    ensures !tree.Dir? ==> DirInfoOf(c, root, tree).Err?
  {
    if tree.Dir? {
      var acc0 := Acc({}, [], 0, "");
      WalkDirIsFold(c, root, tree, acc0);
      TraverseDirEnteredOnce(root, tree, {});
      var t := TraverseDir(root, tree, {});
      if root != "" && !AnyFails(t.events) {
        var acc := WalkDir(c, root, tree, acc0).value;
        assert acc.files == Paths(t.events);
        assert DirInfoOf(c, root, tree) == Ok(DirInfo(WebPaths(root, acc.files), acc.size, acc.hash, root));
      }
    }
  }

  // ---------------------------------------------------------------------------
  // Readdir order does not matter.
  // ---------------------------------------------------------------------------

  /** The tree with every directory's entries in sorted order, at every depth. */
  function Canon(n: Node): (r: Node)
    ensures r.name == n.name
    ensures r.Dir? == n.Dir? && (r.Dir? ==> r.listable == n.listable)
    ensures !n.Dir? ==> r == n
    decreases n
  {
    match n
    case Dir(name, l, cs) => Dir(name, l, SortBy(seq(|cs|, i requires 0 <= i < |cs| => Canon(cs[i])), NameOf))
    case _ => n
  }

  lemma CanonChildren(d: Node)
    requires d.Dir?
    ensures Canon(d).children == SortBy(MapSeq(Canon, d.children), NameOf)
  {
    assert seq(|d.children|, i requires 0 <= i < |d.children| => Canon(d.children[i])) == MapSeq(Canon, d.children);
  }

  /** Walking a directory gives the same result as walking its canonical form:
      the order in which `readdirSync` lists entries never reaches the result. */
  lemma {:induction false} WalkDirCanon(c: Codec, path: string, d: Node, acc: Acc)
    requires d.Dir?
    ensures WalkDir(c, path, Canon(d), acc) == WalkDir(c, path, d, acc)
    decreases d, 1
  {
    if path !in acc.visited && d.listable {
      var sorted := SortBy(d.children, NameOf);
      SortByMembers(d.children, NameOf);
      CanonChildren(d);
      var mapped := MapSeq(Canon, d.children);
      SortMapCommute(Canon, d.children, NameOf, NameOf);
      SortSorted(Canon(d).children, NameOf);
      assert SortBy(Canon(d).children, NameOf) == MapSeq(Canon, sorted);
      SortByMembers(mapped, NameOf);
      WalkEntriesCanon(c, path, d, Canon(d), sorted, acc.(visited := acc.visited + {path}));
    }
  }

  lemma {:induction false} WalkEntriesCanon(c: Codec, path: string, parent: Node, cparent: Node, es: seq<Node>, acc: Acc)
    requires parent.Dir? && forall e :: e in es ==> e in parent.children
    requires cparent.Dir? && forall e :: e in MapSeq(Canon, es) ==> e in cparent.children
    ensures WalkEntries(c, path, cparent, MapSeq(Canon, es), acc) == WalkEntries(c, path, parent, es, acc)
    decreases parent, 0, |es|
  {
    if |es| > 0 {
      assert es[0] in parent.children;
      WalkEntryCanon(c, path, es[0], acc);
      var ces := MapSeq(Canon, es);
      assert ces[1..] == MapSeq(Canon, es[1..]);
      match WalkEntry(c, path, es[0], acc)
      case Err(_) =>
      case Ok(acc') =>
        WalkEntriesCanon(c, path, parent, cparent, es[1..], acc');
    }
  }

  lemma {:induction false} WalkEntryCanon(c: Codec, dirPath: string, e: Node, acc: Acc)
    ensures WalkEntry(c, dirPath, Canon(e), acc) == WalkEntry(c, dirPath, e, acc)
    decreases e, 2
  {
    if e.Dir? {
      WalkDirCanon(c, Join(dirPath, e.name), e, acc);
    }
  }

  /** Two trees with the same canonical form, that is, listed in any order at
      any depth, produce the same manifest: same hash, same files, same size. */
  lemma SameCanonSameInfo(c: Codec, root: string, t1: Node, t2: Node)
    requires Canon(t1) == Canon(t2)
    ensures DirInfoOf(c, root, t1) == DirInfoOf(c, root, t2)
  {
    if t1.Dir? {
      WalkDirCanon(c, root, t1, Acc({}, [], 0, ""));
      WalkDirCanon(c, root, t2, Acc({}, [], 0, ""));
    }
  }

  /** A directory whose entries' canonical forms are a rearrangement of another's,
      under distinct names, has the same canonical form. */
  lemma ReorderedSameCanon(name: string, l: bool, cs1: seq<Node>, cs2: seq<Node>)
    requires multiset(MapSeq(Canon, cs1)) == multiset(MapSeq(Canon, cs2))
    requires DistinctKeys(MapSeq(Canon, cs1), NameOf)
    ensures Canon(Dir(name, l, cs1)) == Canon(Dir(name, l, cs2))
  {
    CanonChildren(Dir(name, l, cs1));
    CanonChildren(Dir(name, l, cs2));
    var s := SortBy(MapSeq(Canon, cs1), NameOf);
    var t := SortBy(MapSeq(Canon, cs2), NameOf);
    DistinctKeysPermutation(MapSeq(Canon, cs1), s, NameOf);
    SortedUnique(s, t, NameOf);
  }

  // ---------------------------------------------------------------------------
  // What the walk reports about particular entries.
  // ---------------------------------------------------------------------------

  lemma {:induction false} EntriesListFile(path: string, parent: Node, es: seq<Node>, visited: set<string>, f: Node)
    requires parent.Dir? && forall e :: e in es ==> e in parent.children
    requires f in es && f.File?
    ensures Read(Join(path, f.name), f.name, f.size, f.content) in TraverseEntries(path, parent, es, visited).events
    decreases |es|
  {
    assert es[0] in parent.children;
    var a := TraverseEntry(path, es[0], visited);
    if f != es[0] {
      assert f in es[1..];
      EntriesListFile(path, parent, es[1..], a.visited, f);
    }
  }

  lemma {:induction false} PathsListRead(evs: seq<Event>, ev: Event)
    requires ev in evs && ev.Read?
    ensures ev.path in Paths(evs)
    decreases |evs|
  {
    if evs[0] != ev {
      assert ev in evs[1..];
      PathsListRead(evs[1..], ev);
    }
  }

  /** A regular file directly inside the root is always listed, under `/` and its name. */
  lemma RootFileListed(c: Codec, root: string, tree: Node, f: Node)
    requires tree.Dir? && f in tree.children && f.File?
    requires |f.name| > 0 && f.name[0] != '/' && f.name[0] != '\\'
    requires DirInfoOf(c, root, tree).Ok?
    ensures "/" + ReplaceBackslashes(f.name) in DirInfoOf(c, root, tree).value.files
  {
    DirInfoFiles(c, root, tree);
    var ps := Paths(TraverseDir(root, tree, {}).events);
    RootFileTraversed(root, tree, f);
    var k :| 0 <= k < |ps| && ps[k] == Join(root, f.name);
    WebPathOfJoin(root, f.name);
    WebPathsContain(root, ps, k);
  }

  /** A successful `dirinfo` lists the web paths of the traversal's files;
      its root was listable. */
  lemma DirInfoFiles(c: Codec, root: string, tree: Node)
    requires tree.Dir? && DirInfoOf(c, root, tree).Ok?
    ensures tree.listable
    ensures DirInfoOf(c, root, tree).value.files == WebPaths(root, Paths(TraverseDir(root, tree, {}).events))
  {
    var acc0 := Acc({}, [], 0, "");
    WalkDirIsFold(c, root, tree, acc0);
    var t := TraverseDir(root, tree, {});
    var ps := Paths(t.events);
    var acc := WalkDir(c, root, tree, acc0).value;
    assert acc0.files + ps == ps;
    assert acc.files == ps;
    assert DirInfoOf(c, root, tree) == Ok(DirInfo(WebPaths(root, acc.files), acc.size, acc.hash, root));
  }

  /** The traversal reads every regular file directly inside a listable root. */
  lemma RootFileTraversed(root: string, tree: Node, f: Node)
    requires tree.Dir? && tree.listable && f in tree.children && f.File?
    ensures Join(root, f.name) in Paths(TraverseDir(root, tree, {}).events)
  {
    var t := TraverseDir(root, tree, {});
    var sorted := SortBy(tree.children, NameOf);
    SortByMembers(tree.children, NameOf);
    var none: set<string> := {};
    assert root !in none;
    assert none + {root} == {root};
    var inner := TraverseEntries(root, tree, sorted, {root});
    assert t.events == inner.events;
    EntriesListFile(root, tree, sorted, {root}, f);
    PathsListRead(t.events, Read(Join(root, f.name), f.name, f.size, f.content));
  }

  lemma WebPathsContain(root: string, ps: seq<string>, k: int)
    requires 0 <= k < |ps|
    ensures WebPath(root, ps[k]) in WebPaths(root, ps)
  {
    assert Normalized(root, ps)[k] == WebPath(root, ps[k]);
    assert WebPath(root, ps[k]) in multiset(Normalized(root, ps));
  }

  /** Walking a fresh directory that holds one readable file. */
  lemma WalkOneFileDir(c: Codec, path: string, d: Node, acc: Acc)
    requires d.Dir? && d.listable && |d.children| == 1 && d.children[0].File? && d.children[0].content.Some?
    requires path !in acc.visited
    ensures var f := d.children[0];
      WalkDir(c, path, d, acc) == Ok(Acc(acc.visited + {path}, acc.files + [Join(path, f.name)],
                                         acc.size + f.size, HashStep(c, acc.hash, f.name, f.content.value)))
  {
    var f := d.children[0];
    assert SortBy(d.children, NameOf) == d.children;
    var acc' := acc.(visited := acc.visited + {path});
    var r := Acc(acc.visited + {path}, acc.files + [Join(path, f.name)], acc.size + f.size, HashStep(c, acc.hash, f.name, f.content.value));
    assert WalkEntry(c, path, f, acc') == Ok(r);
    assert d.children[1..] == [];
    assert WalkEntries(c, path, d, d.children[1..], r) == Ok(r);
  }

  /** The visited set holds lexical paths, not real ones: a directory reached a
      second time through a symbolic link under another name is walked again,
      and its files are counted, listed and hashed twice. */
  lemma LinkedDirectoryWalkedTwice(c: Codec)
    ensures
      var sub := [File("x", 1, Some([]))];
      var tree := Dir("site", true, [Dir("b", true, sub), Dir("a", true, sub)]);
      DirInfoOf(c, "/site", tree)
        == Ok(DirInfo(["/a/x", "/b/x"], 2, HashStep(c, HashStep(c, "", "x", []), "x", []), "/site"))
  {
    var acc3 := LinkedWalk(c);
    LinkedWebPaths();
  }

  lemma LinkedWebPaths()
    ensures WebPaths("/site", ["/site/a/x", "/site/b/x"]) == ["/a/x", "/b/x"]
  {
    LinkedNormalized();
    assert LexLe("/a/x", "/b/x");
    SortSorted(["/a/x", "/b/x"], Identity);
  }

  lemma LinkedNormalized()
    ensures Normalized("/site", ["/site/a/x", "/site/b/x"]) == ["/a/x", "/b/x"]
  {
    LinkedWebPath("/site/a/x", "/a/x");
    LinkedWebPath("/site/b/x", "/b/x");
  }

  lemma LinkedWebPath(file: string, web: string)
    requires file == "/site" + web && |web| > 0 && web[0] == '/' && '\\' !in web
    ensures WebPath("/site", file) == web
  {
    assert file[..5] == "/site";
    assert file[5..] == web;
    ReplaceNoBackslash(web);
  }

  lemma LinkedWalk(c: Codec) returns (acc3: Acc)
    ensures acc3 == Acc({"/site", "/site/a", "/site/b"}, ["/site/a/x", "/site/b/x"], 2, HashStep(c, HashStep(c, "", "x", []), "x", []))
    ensures
      var sub := [File("x", 1, Some([]))];
      var tree := Dir("site", true, [Dir("b", true, sub), Dir("a", true, sub)]);
      WalkDir(c, "/site", tree, Acc({}, [], 0, "")) == Ok(acc3)
  {
    var sub := [File("x", 1, Some([]))];
    var a, b := Dir("a", true, sub), Dir("b", true, sub);
    var tree := Dir("site", true, [b, a]);
    var acc1 := Acc({"/site"}, [], 0, "");
    acc3 := LinkedEntries(c);
    LinkedSort();
    var acc0 := Acc({}, [], 0, "");
    assert acc0.visited + {"/site"} == acc1.visited;
  }

  lemma LinkedEntries(c: Codec) returns (acc3: Acc)
    ensures acc3 == Acc({"/site", "/site/a", "/site/b"}, ["/site/a/x", "/site/b/x"], 2, HashStep(c, HashStep(c, "", "x", []), "x", []))
    ensures
      var sub := [File("x", 1, Some([]))];
      var tree := Dir("site", true, [Dir("b", true, sub), Dir("a", true, sub)]);
      WalkEntries(c, "/site", tree, [Dir("a", true, sub), Dir("b", true, sub)], Acc({"/site"}, [], 0, "")) == Ok(acc3)
  {
    var sub := [File("x", 1, Some([]))];
    var a, b := Dir("a", true, sub), Dir("b", true, sub);
    var tree := Dir("site", true, [b, a]);
    var acc1 := Acc({"/site"}, [], 0, "");
    var acc2 := Acc({"/site", "/site/a"}, ["/site/a/x"], 1, HashStep(c, "", "x", []));
    acc3 := Acc({"/site", "/site/a", "/site/b"}, ["/site/a/x", "/site/b/x"], 2, HashStep(c, acc2.hash, "x", []));
    LinkedEntryA(c, acc1, acc2);
    LinkedEntryB(c, acc2, acc3);
    assert [a, b][1..] == [b];
    assert [b][1..] == [];
    assert WalkEntries(c, "/site", tree, [], acc3) == Ok(acc3);
    assert WalkEntries(c, "/site", tree, [b], acc2) == Ok(acc3);
    assert WalkEntries(c, "/site", tree, [a, b], acc1) == Ok(acc3);
  }

  lemma LinkedEntryA(c: Codec, acc1: Acc, acc2: Acc)
    requires acc1 == Acc({"/site"}, [], 0, "")
    requires acc2 == Acc({"/site", "/site/a"}, ["/site/a/x"], 1, HashStep(c, "", "x", []))
    ensures WalkEntry(c, "/site", Dir("a", true, [File("x", 1, Some([]))]), acc1) == Ok(acc2)
  {
    assert "/site/" + "a" == "/site/a" && "/site/" + "a" + "/x" == "/site/a/x";
    assert acc1.visited + {"/site/a"} == acc2.visited && acc1.files + ["/site/a/x"] == acc2.files;
    LinkedEntry(c, "a", acc1, acc2);
  }

  lemma LinkedEntryB(c: Codec, acc2: Acc, acc3: Acc)
    requires acc2 == Acc({"/site", "/site/a"}, ["/site/a/x"], 1, HashStep(c, "", "x", []))
    requires acc3 == Acc({"/site", "/site/a", "/site/b"}, ["/site/a/x", "/site/b/x"], 2, HashStep(c, acc2.hash, "x", []))
    ensures WalkEntry(c, "/site", Dir("b", true, [File("x", 1, Some([]))]), acc2) == Ok(acc3)
  {
    assert "/site/" + "b" == "/site/b" && "/site/" + "b" + "/x" == "/site/b/x";
    assert acc2.visited + {"/site/b"} == acc3.visited && acc2.files + ["/site/b/x"] == acc3.files;
    LinkedEntry(c, "b", acc2, acc3);
  }

  lemma LinkedSort()
    ensures
      var sub := [File("x", 1, Some([]))];
      SortBy([Dir("b", true, sub), Dir("a", true, sub)], NameOf) == [Dir("a", true, sub), Dir("b", true, sub)]
  {
    assert LexLe("a", "b");
    assert !LexLe("b", "a");
  }

  lemma LinkedEntry(c: Codec, n: string, before: Acc, after: Acc)
    requires n == "a" || n == "b"
    requires "/site/" + n !in before.visited
    requires after == Acc(before.visited + {"/site/" + n}, before.files + ["/site/" + n + "/x"], before.size + 1,
                          HashStep(c, before.hash, "x", []))
    ensures WalkEntry(c, "/site", Dir(n, true, [File("x", 1, Some([]))]), before) == Ok(after)
  {
    var d := Dir(n, true, [File("x", 1, Some([]))]);
    assert Join("/site", n) == "/site/" + n;
    assert Join("/site/" + n, "x") == "/site/" + n + "/x";
    WalkOneFileDir(c, "/site/" + n, d, before);
  }
}
