/**
 The page-side update reconciler (scripts/service-worker-handler.js): on
 every page load it fetches the manifest and either does nothing, tears the
 worker down (deleting this worker's caches of every version, unregistering,
 forgetting the stored hash and reloading), or registers the worker and
 remembers the manifest's hash under `QSW_APPHASH`.
 */
module Reconciler {
  import opened Outcomes
  import opened Strings
  import opened JsonValues
  import opened CacheStorage
  import CacheRuntime

  datatype Decision = Skip | Teardown | Register(hash: string)

  /** The parsed manifest, when the browser supports service workers, the
      fetch succeeded with an ok status and the body parsed as JSON. */
  function Parsed(supported: bool, mf: ManifestFetch): (r: Option<Json>)
    ensures r.Some? <==> supported && mf.Fetched? && StatusOk(mf.status) && mf.body.Some?
    ensures r.Some? ==> r.value == mf.body.value
  {
    if supported && mf.Fetched? && StatusOk(mf.status) && mf.body.Some? then mf.body else None
  }

  /** `hash` is a non-empty string. */
  predicate ValidHash(j: Json)
  {
    Get(j, "hash").Some? && Get(j, "hash").value.JStr? && Get(j, "hash").value.s != ""
  }

  /** The stored hash is set (a non-empty string) and differs from `h`. */
  predicate Drifted(stored: Option<string>, h: string)
  {
    stored.Some? && stored.value != "" && stored.value != h
  }

  /** The load handler's decision. A `null` body makes reading its fields
      throw, which the handler catches; any other non-object body has no
      fields and stops at the hash check. */
  function Decide(supported: bool, mf: ManifestFetch, stored: Option<string>): (d: Decision)
    ensures Parsed(supported, mf).None? ==> d == Skip
    ensures Parsed(supported, mf) == Some(JNull) ==> d == Skip
    ensures d.Register? ==>
      var j := Parsed(supported, mf).value;
      !Truthy(Get(j, "disable")) && !Truthy(Get(j, "unregister")) && ValidHash(j)
      && d.hash == Get(j, "hash").value.s && !Drifted(stored, d.hash)
    ensures d == Teardown <==>
      Parsed(supported, mf).Some? && (var j := Parsed(supported, mf).value;
        !Truthy(Get(j, "disable"))
        && (Truthy(Get(j, "unregister")) || (ValidHash(j) && Drifted(stored, Get(j, "hash").value.s))))
    ensures Parsed(supported, mf).Some? && Truthy(Get(Parsed(supported, mf).value, "disable")) ==> d == Skip
    ensures Parsed(supported, mf).Some? ==>
      var j := Parsed(supported, mf).value;
      (j != JNull && !Truthy(Get(j, "disable")) && !Truthy(Get(j, "unregister")) && ValidHash(j)
       && !Drifted(stored, Get(j, "hash").value.s)) ==> d == Register(Get(j, "hash").value.s)
  {
    match Parsed(supported, mf)
    case None => Skip
    case Some(j) =>
      if j == JNull then Skip
      else if Truthy(Get(j, "disable")) then Skip
      else if Truthy(Get(j, "unregister")) then Teardown
      else if !ValidHash(j) then Skip
      else
        var h := Get(j, "hash").value.s;
        if Drifted(stored, h) then Teardown else Register(h)
  }

  /** What the reconciler can see and change: the origin's caches, whether a
      worker registration exists, and the `QSW_APPHASH` entry. */
  datatype Client = Client(storage: Storage, registered: bool, stored: Option<string>)

  /** The state after a load and whether the page reloaded or announced `QSW_READY`. */
  datatype LoadResult = LoadResult(client: Client, reloaded: bool, ready: bool)

  predicate IsOwnCache(name: string)
  {
    StartsWith(name, CacheRuntime.StaticPrefix) || StartsWith(name, CacheRuntime.RuntimePrefix)
  }

  /** `unregisterServiceWorker`: every own cache of any version goes, the
      registrations go, the stored hash goes, the page reloads. */
  function TeardownClient(c: Client): (r: Client)
    ensures forall n :: !IsOwnCache(n) ==> Find(r.storage, n) == Find(c.storage, n)
    ensures forall n :: IsOwnCache(n) ==> Find(r.storage, n).None?
    ensures !r.registered && r.stored.None?
  {
    Client(DeleteWhere(c.storage, IsOwnCache), false, None)
  }

  /** One page load. `registerSucceeds` is the outcome of
      `navigator.serviceWorker.register`. */
  function OnLoad(c: Client, supported: bool, mf: ManifestFetch, registerSucceeds: bool): (r: LoadResult)
    ensures r.reloaded <==> Decide(supported, mf, c.stored) == Teardown
    ensures r.ready <==> Decide(supported, mf, c.stored).Register? && registerSucceeds
    ensures Decide(supported, mf, c.stored) == Skip ==> r.client == c
    ensures r.ready ==> r.client == c.(registered := true, stored := Some(Decide(supported, mf, c.stored).hash))
    ensures Decide(supported, mf, c.stored) == Teardown ==> r.client == TeardownClient(c)
    ensures Decide(supported, mf, c.stored).Register? && !registerSucceeds ==> r.client == c
    ensures forall n :: !IsOwnCache(n) ==> Find(r.client.storage, n) == Find(c.storage, n)
  {
    match Decide(supported, mf, c.stored)
    case Skip => LoadResult(c, false, false)
    case Teardown => LoadResult(TeardownClient(c), true, false)
    case Register(h) =>
      if registerSucceeds then LoadResult(c.(registered := true, stored := Some(h)), false, true)
      else LoadResult(c, false, false)
  }

  /** A new deployment: the page that remembers the old hash tears down and
      reloads; the reloaded page registers and remembers the new hash; and
      further loads of the same deployment change nothing. */
  lemma {:induction false} DriftConverges(c: Client, mf: ManifestFetch, j: Json, newHash: string)
    requires mf == Fetched(200, Some(j)) && j.JObj?
    requires !Truthy(Get(j, "disable")) && !Truthy(Get(j, "unregister"))
    requires Get(j, "hash") == Some(JStr(newHash)) && newHash != ""
    requires Drifted(c.stored, newHash)
    ensures var first := OnLoad(c, true, mf, true);
            var second := OnLoad(first.client, true, mf, true);
            var third := OnLoad(second.client, true, mf, true);
            first.reloaded && !first.client.registered && first.client.stored.None?
            && second.ready && second.client.registered && second.client.stored == Some(newHash)
            && third.client == second.client && !third.reloaded
  {
    assert Decide(true, mf, c.stored) == Teardown;
    var first := OnLoad(c, true, mf, true);
    assert Decide(true, mf, first.client.stored) == Register(newHash);
    var second := OnLoad(first.client, true, mf, true);
    assert Decide(true, mf, second.client.stored) == Register(newHash);
  }

  /** Tearing down deletes every cache the worker's activate step deletes,
      and more: the current version's caches as well. */
  lemma TeardownCoversActivate(st: Storage, n: string)
    requires CacheRuntime.IsStale(n)
    ensures Find(TeardownClient(Client(st, true, None)).storage, n).None?
    ensures Find(CacheRuntime.Activate(st), n).None?
  {
  }

  /** Caches of other libraries survive both the worker's cleanup and a teardown. */
  lemma ForeignCachesSurvive(c: Client, n: string)
    requires !IsOwnCache(n)
    ensures Find(TeardownClient(c).storage, n) == Find(c.storage, n)
    ensures Find(CacheRuntime.Activate(c.storage), n) == Find(c.storage, n)
  {
  }
}
