/**
 JSON values as `response.json()` yields them, the property reads and
 truthiness tests the two runtime scripts apply to the parsed manifest, and
 the outcome of fetching the manifest.
 */
module JsonValues {
  import opened Outcomes

  datatype Json =
    | JNull
    | JBool(b: bool)
    | JNum(n: real)
    | JStr(s: string)
    | JArr(items: seq<Json>)
    | JObj(fields: map<string, Json>)

  /** `v.key`: a property read, `None` standing for `undefined`. Arrays,
      strings, numbers and booleans carry none of the manifest's keys. Reading a
      property of `null` throws; callers check `JNull` first. */
  function Get(v: Json, key: string): (r: Option<Json>)
    ensures r.Some? <==> v.JObj? && key in v.fields
  {
    if v.JObj? && key in v.fields then Some(v.fields[key]) else None
  }

  /** JavaScript truthiness of a property value. */
  predicate Truthy(v: Option<Json>)
  {
    match v
    case None => false
    case Some(JNull) => false
    case Some(JBool(b)) => b
    case Some(JNum(n)) => n != 0.0
    case Some(JStr(s)) => s != ""
    case Some(JArr(_)) => true
    case Some(JObj(_)) => true
  }

  /** The strings of an array whose every item is a string (`every(f => typeof f === 'string')`). */
  function StringItems(items: seq<Json>): (r: Option<seq<string>>)
    ensures r.Some? <==> forall i :: 0 <= i < |items| ==> items[i].JStr?
    ensures r.Some? ==> |r.value| == |items| && forall i :: 0 <= i < |items| ==> r.value[i] == items[i].s
  {
    if |items| == 0 then Some([])
    else if !items[0].JStr? then None
    else
      match StringItems(items[1..])
      case None => None
      case Some(rest) => Some([items[0].s] + rest)
  }

  /** `JSON.stringify` of a string array, as the reader will see it again. */
  function StringArray(ss: seq<string>): (j: Json)
    ensures j.JArr? && StringItems(j.items) == Some(ss)
  {
    var items := seq(|ss|, i requires 0 <= i < |ss| => JStr(ss[i]));
    assert StringItems(items).Some?;
    assert StringItems(items).value == ss;
    JArr(items)
  }

  /** The strings read back from an all-string array serialise to that array. */
  lemma StringItemsInverse(items: seq<Json>)
    requires StringItems(items).Some?
    ensures StringArray(StringItems(items).value) == JArr(items)
  {
    var ss := StringItems(items).value;
    assert forall i :: 0 <= i < |items| ==> StringArray(ss).items[i] == JStr(ss[i]) == items[i];
  }

  /** A fetch of `/apphash.json`: rejected (network failure), or answered with a
      status and a body that parses as JSON (`Some`) or does not (`None`). */
  datatype ManifestFetch = Unreachable | Fetched(status: int, body: Option<Json>)

  /** `response.ok`. */
  predicate StatusOk(status: int)
  {
    200 <= status <= 299
  }
}
