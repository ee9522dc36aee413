/**
 The browser's CacheStorage as the cache runtime and the reconciler use it:
 an ordered list of named caches (creation order, as `caches.keys()` reports
 it and `caches.match` searches it), each an ordered list of request/response
 entries (insertion order, as `Cache.match` scans it). Vary headers and the
 request method are not part of a key: every stored request is a GET.
 */
module CacheStorage {
  import opened Outcomes
  import JsonValues

  /** `Response.type`. */
  datatype ResponseType = Basic | Cors | Opaque | OpaqueRedirect | Default | ErrorType

  datatype Response = Response(status: int, rtype: ResponseType, contentType: string, cacheControl: string, body: string)

  /** `response.ok`. */
  predicate IsOk(r: Response)
  {
    JsonValues.StatusOk(r.status)
  }

  /** A request URL without its fragment: origin, path, and the search part
      (empty, or starting with `?`). */
  datatype Key = Key(origin: string, path: string, search: string)

  datatype Entry = Entry(key: Key, resp: Response)

  datatype Cache = Cache(name: string, entries: seq<Entry>)

  type Storage = seq<Cache>

  function Names(st: Storage): (ns: seq<string>)
    ensures |ns| == |st| && forall i :: 0 <= i < |st| ==> ns[i] == st[i].name
  {
    if |st| == 0 then [] else [st[0].name] + Names(st[1..])
  }

  /** No two caches share a name, as CacheStorage guarantees. */
  predicate UniqueNames(st: Storage)
  {
    forall i, j :: 0 <= i < j < |st| ==> st[i].name != st[j].name
  }

  /** The entries of the cache called `name`, if it exists. */
  function Find(st: Storage, name: string): (r: Option<seq<Entry>>)
    ensures r.None? <==> forall i :: 0 <= i < |st| ==> st[i].name != name
    ensures r.Some? ==> exists i :: 0 <= i < |st| && st[i].name == name && st[i].entries == r.value
    ensures UniqueNames(st) ==> forall i :: 0 <= i < |st| && st[i].name == name ==> r == Some(st[i].entries)
  {
    if |st| == 0 then None
    else if st[0].name == name then Some(st[0].entries)
    else Find(st[1..], name)
  }

  /** `caches.open(name)`: the cache, created empty at the end of the list when absent. */
  function Open(st: Storage, name: string): (r: Storage)
    ensures Find(st, name).Some? ==> r == st
    ensures Find(st, name).None? ==> r == st + [Cache(name, [])]
    ensures Find(r, name).Some?
    ensures forall n :: n != name ==> Find(r, n) == Find(st, n)
    ensures UniqueNames(st) ==> UniqueNames(r)
  {
    if Find(st, name).Some? then st
    else
      var r := st + [Cache(name, [])];
      FindAppendOther(st, Cache(name, []));
      assert Find(r, name).Some? by { assert r[|st|].name == name; }
      r
  }

  lemma FindAppendOther(st: Storage, c: Cache)
    ensures forall n :: n != c.name ==> Find(st + [c], n) == Find(st, n)
  {
    forall n | n != c.name ensures Find(st + [c], n) == Find(st, n) {
      FindAppend(st, c, n);
    }
  }

  lemma {:induction false} FindAppend(st: Storage, c: Cache, n: string)
    requires n != c.name
    ensures Find(st + [c], n) == Find(st, n)
  {
    if |st| > 0 {
      assert (st + [c])[1..] == st[1..] + [c];
      FindAppend(st[1..], c, n);
    } else {
      assert (st + [c])[1..] == [];
    }
  }

  /** The caches whose names do not satisfy `doomed`, in their original order. */
  function DeleteWhere(st: Storage, doomed: string -> bool): (r: Storage)
    ensures forall c :: c in r <==> c in st && !doomed(c.name)
    ensures forall n :: !doomed(n) ==> Find(r, n) == Find(st, n)
    ensures forall n :: doomed(n) ==> Find(r, n).None?
    ensures UniqueNames(st) ==> UniqueNames(r)
  {
    if |st| == 0 then []
    else if doomed(st[0].name) then DeleteWhere(st[1..], doomed)
    else [st[0]] + DeleteWhere(st[1..], doomed)
  }

  /** Deleting from a concatenation deletes from each part and keeps their
      order: the survivors stay in creation order. */
  lemma {:induction false} DeleteWhereAppend(a: Storage, b: Storage, doomed: string -> bool)
    ensures DeleteWhere(a + b, doomed) == DeleteWhere(a, doomed) + DeleteWhere(b, doomed)
  {
    if |a| > 0 {
      assert (a + b)[1..] == a[1..] + b;
      DeleteWhereAppend(a[1..], b, doomed);
    } else {
      assert a + b == b;
    }
  }

  /** A single cache survives exactly when its name is not doomed. */
  lemma DeleteWhereSingle(c: Cache, doomed: string -> bool)
    ensures DeleteWhere([c], doomed) == if doomed(c.name) then [] else [c]
  {
  }

  /** `Cache.match` key comparison: the same origin and path, and the same
      search part unless `ignoreSearch`. */
  predicate Matches(stored: Key, q: Key, ignoreSearch: bool)
  {
    stored.origin == q.origin && stored.path == q.path && (ignoreSearch || stored.search == q.search)
  }

  /** The position of the first entry matching `q`, or -1 when none does. */
  function FirstMatch(entries: seq<Entry>, q: Key, ignoreSearch: bool): (k: int)
    ensures -1 <= k < |entries|
    ensures k == -1 <==> forall i :: 0 <= i < |entries| ==> !Matches(entries[i].key, q, ignoreSearch)
    ensures k >= 0 ==> Matches(entries[k].key, q, ignoreSearch)
                       && forall j :: 0 <= j < k ==> !Matches(entries[j].key, q, ignoreSearch)
  {
    if |entries| == 0 then -1
    else if Matches(entries[0].key, q, ignoreSearch) then 0
    else
      var k := FirstMatch(entries[1..], q, ignoreSearch);
      assert forall i :: 1 <= i < |entries| ==> entries[i] == entries[1..][i - 1];
      if k == -1 then -1 else k + 1
  }

  /** `Cache.match`: the response of the first matching entry. */
  function MatchIn(entries: seq<Entry>, q: Key, ignoreSearch: bool): (r: Option<Response>)
    ensures r.None? <==> forall i :: 0 <= i < |entries| ==> !Matches(entries[i].key, q, ignoreSearch)
    ensures r.Some? ==> exists i :: 0 <= i < |entries| && Matches(entries[i].key, q, ignoreSearch)
                                     && entries[i].resp == r.value
                                     && forall j :: 0 <= j < i ==> !Matches(entries[j].key, q, ignoreSearch)
  {
    var k := FirstMatch(entries, q, ignoreSearch);
    if k == -1 then None else Some(entries[k].resp)
  }

  /** `Cache.match` looks at the first entry, then at the rest. */
  lemma MatchInCons(entries: seq<Entry>, q: Key, ignoreSearch: bool)
    requires |entries| > 0
    ensures MatchIn(entries, q, ignoreSearch)
            == if Matches(entries[0].key, q, ignoreSearch) then Some(entries[0].resp) else MatchIn(entries[1..], q, ignoreSearch)
  {
    if !Matches(entries[0].key, q, ignoreSearch) {
      var k := FirstMatch(entries[1..], q, ignoreSearch);
      if k >= 0 {
        assert entries[k + 1] == entries[1..][k];
      }
    }
  }

  /** `caches.open(name)` then `cache.match(q)`. */
  function MatchCache(st: Storage, name: string, q: Key, ignoreSearch: bool): Option<Response>
  {
    match Find(st, name)
    case None => None
    case Some(es) => MatchIn(es, q, ignoreSearch)
  }

  /** `caches.match(q)`: every cache in creation order, the first hit wins. */
  function MatchAny(st: Storage, q: Key, ignoreSearch: bool): (r: Option<Response>)
    ensures r.None? <==> forall i :: 0 <= i < |st| ==> MatchIn(st[i].entries, q, ignoreSearch).None?
    ensures r.Some? ==> exists i :: 0 <= i < |st| && MatchIn(st[i].entries, q, ignoreSearch) == r
                                     && forall j :: 0 <= j < i ==> MatchIn(st[j].entries, q, ignoreSearch).None?
  {
    if |st| == 0 then None
    else
      match MatchIn(st[0].entries, q, ignoreSearch)
      case Some(resp) => Some(resp)
      case None =>
        var r := MatchAny(st[1..], q, ignoreSearch);
        assert r.Some? ==> exists i :: 1 <= i < |st| && MatchIn(st[i].entries, q, ignoreSearch) == r
                                       && forall j :: 0 <= j < i ==> MatchIn(st[j].entries, q, ignoreSearch).None? by {
          if r.Some? {
            var k :| 0 <= k < |st[1..]| && MatchIn(st[1..][k].entries, q, ignoreSearch) == r
                     && forall j :: 0 <= j < k ==> MatchIn(st[1..][j].entries, q, ignoreSearch).None?;
            assert st[k + 1] == st[1..][k];
            forall j | 0 <= j < k + 1 ensures MatchIn(st[j].entries, q, ignoreSearch).None? {
              if j > 0 { assert st[j] == st[1..][j - 1]; }
            }
          }
        }
        r
  }

  /** The entries without any stored under key `k`. */
  function WithoutKey(entries: seq<Entry>, k: Key): (r: seq<Entry>)
    ensures forall e :: e in r <==> e in entries && e.key != k
  {
    if |entries| == 0 then []
    else if entries[0].key == k then WithoutKey(entries[1..], k)
    else [entries[0]] + WithoutKey(entries[1..], k)
  }

  /** One `cache.put`: an entry under the same key is replaced, and the new one goes last. */
  function PutEntry(entries: seq<Entry>, k: Key, resp: Response): (r: seq<Entry>)
    ensures MatchIn(r, k, false) == Some(resp)
    ensures forall e :: e in r <==> e == Entry(k, resp) || (e in entries && e.key != k)
  {
    var r := WithoutKey(entries, k) + [Entry(k, resp)];
    assert MatchIn(r, k, false) == Some(resp) by {
      forall i | 0 <= i < |r| - 1 ensures !Matches(r[i].key, k, false) {
        assert r[i] in WithoutKey(entries, k);
      }
      assert Matches(r[|r| - 1].key, k, false);
    }
    r
  }

  /** `caches.open(name)` then `cache.put(k, resp)`. */
  function Put(st: Storage, name: string, k: Key, resp: Response): (r: Storage)
    ensures Find(r, name).Some? && MatchIn(Find(r, name).value, k, false) == Some(resp)
    ensures forall n :: n != name ==> Find(r, n) == Find(st, n)
    ensures UniqueNames(st) ==> UniqueNames(r)
    ensures Names(r) == Names(Open(st, name))
  {
    var st1 := Open(st, name);
    SetEntries(st1, name, PutEntry(Find(st1, name).value, k, resp))
  }

  /** The storage with the entries of cache `name` replaced by `es`. */
  function SetEntries(st: Storage, name: string, es: seq<Entry>): (r: Storage)
    requires Find(st, name).Some?
    ensures Find(r, name) == Some(es)
    ensures forall n :: n != name ==> Find(r, n) == Find(st, n)
    ensures |r| == |st| && forall i :: 0 <= i < |r| ==> r[i].name == st[i].name
  {
    if st[0].name == name then
      var r := [Cache(name, es)] + st[1..];
      assert r[1..] == st[1..];
      r
    else
      var r := [st[0]] + SetEntries(st[1..], name, es);
      assert r[1..] == SetEntries(st[1..], name, es);
      r
  }

  /** The keys of a list of entries. */
  function KeysOf(news: seq<Entry>): set<Key>
  {
    if |news| == 0 then {} else {news[0].key} + KeysOf(news[1..])
  }

  lemma {:induction false} KeysOfMembers(news: seq<Entry>)
    ensures forall k :: k in KeysOf(news) <==> exists i :: 0 <= i < |news| && news[i].key == k
  {
    if |news| > 0 {
      KeysOfMembers(news[1..]);
      forall k | k in KeysOf(news) ensures exists i :: 0 <= i < |news| && news[i].key == k {
        if k != news[0].key {
          assert k in KeysOf(news[1..]);
          var i :| 0 <= i < |news[1..]| && news[1..][i].key == k;
          assert news[i + 1].key == k;
        }
      }
      forall k | exists i :: 0 <= i < |news| && news[i].key == k ensures k in KeysOf(news) {
        var i :| 0 <= i < |news| && news[i].key == k;
        if i > 0 {
          assert news[1..][i - 1].key == k;
        }
      }
    }
  }

  predicate DistinctEntryKeys(news: seq<Entry>)
  {
    forall i, j :: 0 <= i < j < |news| ==> news[i].key != news[j].key
  }

  function WithoutKeys(entries: seq<Entry>, ks: set<Key>): seq<Entry>
  {
    if |entries| == 0 then []
    else if entries[0].key in ks then WithoutKeys(entries[1..], ks)
    else [entries[0]] + WithoutKeys(entries[1..], ks)
  }

  /** `cache.addAll` once every response is in: entries under any of the new
      keys go, the new entries follow in request order. */
  function PutAll(entries: seq<Entry>, news: seq<Entry>): seq<Entry>
  {
    WithoutKeys(entries, KeysOf(news)) + news
  }

  /** One `cache.put` after another, in list order. */
  function PutEach(entries: seq<Entry>, news: seq<Entry>): seq<Entry>
    decreases |news|
  {
    if |news| == 0 then entries
    else PutEach(PutEntry(entries, news[0].key, news[0].resp), news[1..])
  }

  lemma {:induction false} WithoutKeysAppend(a: seq<Entry>, b: seq<Entry>, ks: set<Key>)
    ensures WithoutKeys(a + b, ks) == WithoutKeys(a, ks) + WithoutKeys(b, ks)
  {
    if |a| > 0 {
      assert (a + b)[1..] == a[1..] + b;
      WithoutKeysAppend(a[1..], b, ks);
    } else {
      assert a + b == b;
    }
  }

  lemma {:induction false} WithoutKeyThenKeys(es: seq<Entry>, k: Key, ks: set<Key>)
    ensures WithoutKeys(WithoutKey(es, k), ks) == WithoutKeys(es, {k} + ks)
  {
    if |es| > 0 {
      WithoutKeyThenKeys(es[1..], k, ks);
    }
  }

  /** With distinct keys, a batch put and the same puts one at a time leave the same entries. */
  lemma {:induction false} PutAllIsPutEach(entries: seq<Entry>, news: seq<Entry>)
    requires DistinctEntryKeys(news)
    ensures PutAll(entries, news) == PutEach(entries, news)
    decreases |news|
  {
    if |news| == 0 {
      assert KeysOf(news) == {};
      WithoutKeysNone(entries);
    } else {
      var n := news[0];
      var rest := news[1..];
      assert DistinctEntryKeys(rest);
      KeysOfMembers(rest);
      assert n.key !in KeysOf(rest);
      PutAllIsPutEach(PutEntry(entries, n.key, n.resp), rest);
      assert PutEntry(entries, n.key, n.resp) == WithoutKey(entries, n.key) + [n];
      PutAllCons(entries, n, rest);
      assert news == [n] + rest;
    }
  }

  lemma PutAllCons(entries: seq<Entry>, n: Entry, rest: seq<Entry>)
    requires n.key !in KeysOf(rest)
    ensures PutAll(WithoutKey(entries, n.key) + [n], rest) == PutAll(entries, [n] + rest)
  {
    var ks := KeysOf(rest);
    var kept := WithoutKey(entries, n.key);
    assert WithoutKeys(kept + [n], ks) == WithoutKeys(entries, {n.key} + ks) + [n] by {
      WithoutKeysAppend(kept, [n], ks);
      WithoutKeyThenKeys(entries, n.key, ks);
      assert WithoutKeys([n], ks) == [n];
    }
    assert KeysOf([n] + rest) == {n.key} + ks by {
      assert ([n] + rest)[1..] == rest;
    }
    calc {
      PutAll(kept + [n], rest);
      WithoutKeys(kept + [n], ks) + rest;
      WithoutKeys(entries, {n.key} + ks) + [n] + rest;
      PutAll(entries, [n] + rest);
    }
  }

  lemma {:induction false} WithoutKeysNone(es: seq<Entry>)
    ensures WithoutKeys(es, {}) == es
  {
    if |es| > 0 {
      WithoutKeysNone(es[1..]);
    }
  }

  /** A put under another key does not change what an exact match for `k` finds. */
  lemma {:induction false} PutOtherKeepsMatch(es: seq<Entry>, k2: Key, r2: Response, k: Key)
    requires k2 != k
    ensures MatchIn(PutEntry(es, k2, r2), k, false) == MatchIn(es, k, false)
  {
    WithoutKeyKeepsMatch(es, k2, k);
    MatchInAppendMiss(WithoutKey(es, k2), [Entry(k2, r2)], k);
  }

  lemma {:induction false} WithoutKeyKeepsMatch(es: seq<Entry>, k2: Key, k: Key)
    requires k2 != k
    ensures MatchIn(WithoutKey(es, k2), k, false) == MatchIn(es, k, false)
  {
    if |es| > 0 {
      WithoutKeyKeepsMatch(es[1..], k2, k);
      MatchInCons(es, k, false);
      if es[0].key != k2 {
        var w := [es[0]] + WithoutKey(es[1..], k2);
        assert w[1..] == WithoutKey(es[1..], k2);
        MatchInCons(w, k, false);
      } else {
        assert !Matches(es[0].key, k, false);
      }
    }
  }

  lemma {:induction false} MatchInAppendMiss(a: seq<Entry>, b: seq<Entry>, k: Key)
    requires MatchIn(b, k, false).None? || MatchIn(a, k, false).Some?
    ensures MatchIn(a + b, k, false) == (if MatchIn(a, k, false).Some? then MatchIn(a, k, false) else MatchIn(b, k, false))
  {
    if |a| > 0 {
      assert (a + b)[1..] == a[1..] + b;
      MatchInCons(a, k, false);
      MatchInCons(a + b, k, false);
      if !Matches(a[0].key, k, false) {
        MatchInAppendMiss(a[1..], b, k);
      }
    } else {
      assert a + b == b;
    }
  }

  /** Puts under keys other than `k` leave the exact match for `k` alone. */
  lemma {:induction false} PutEachOthersKeepMatch(es: seq<Entry>, news: seq<Entry>, k: Key)
    requires k !in KeysOf(news)
    ensures MatchIn(PutEach(es, news), k, false) == MatchIn(es, k, false)
    decreases |news|
  {
    if |news| > 0 {
      assert news[0].key != k;
      PutOtherKeepsMatch(es, news[0].key, news[0].resp, k);
      PutEachOthersKeepMatch(PutEntry(es, news[0].key, news[0].resp), news[1..], k);
    }
  }

  /** After one put per entry, with one response per key, an exact match finds each entry's response. */
  lemma {:induction false} PutEachStoresAll(es: seq<Entry>, news: seq<Entry>, i: int)
    requires 0 <= i < |news|
    requires forall a, b :: 0 <= a < |news| && 0 <= b < |news| && news[a].key == news[b].key ==> news[a].resp == news[b].resp
    ensures MatchIn(PutEach(es, news), news[i].key, false) == Some(news[i].resp)
    decreases |news|
  {
    var rest := news[1..];
    var k := news[i].key;
    var es1 := PutEntry(es, news[0].key, news[0].resp);
    KeysOfMembers(rest);
    if k in KeysOf(rest) {
      var j :| 0 <= j < |rest| && rest[j].key == k;
      assert rest[j] == news[j + 1];
      PutEachStoresAll(es1, rest, j);
    } else {
      assert i == 0;
      PutEachOthersKeepMatch(es1, rest, k);
    }
  }
}
