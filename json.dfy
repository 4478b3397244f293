/**
 * The already-parsed JSON values the catalog scripts work on.
 *
 * A repository record is a JSON object; the keys the code inspects are
 * `repo_id`, `metadata`, `tracking`, `classification` and `domain_specific`.
 */
module Json {
  import opened Strings

  datatype Option<T> = None | Some(value: T)

  /** One JSON value as `json.load` returns it (floating-point numbers are not modelled). */
  datatype Json =
    | JNull
    | JBool(b: bool)
    | JInt(i: int)
    | JString(s: string)
    | JArray(items: seq<Json>)
    | JObject(fields: map<string, Json>)

  /** A record is a JSON object: a dictionary from key to value. */
  type Record = map<string, Json>

  /** Python truthiness of a JSON value (`if value:`). */
  predicate Truthy(v: Json) {
    match v
    case JNull => false
    case JBool(b) => b
    case JInt(i) => i != 0
    case JString(s) => s != ""
    case JArray(items) => items != []
    case JObject(fields) => fields != map[]
  }

  /** Values Python can use as a dictionary key or set element (lists and dicts cannot). */
  predicate Hashable(v: Json) {
    !v.JArray? && !v.JObject?
  }

  /** Python's `d.get(key, default)`. */
  function Get(d: map<string, Json>, key: string, default: Json): Json {
    if key in d then d[key] else default
  }

  predicate MetadataObject(r: Record) {
    "metadata" in r && r["metadata"].JObject?
  }

  predicate TrackingObject(r: Record) {
    "tracking" in r && r["tracking"].JObject?
  }

  /** The values Python's `key in v` accepts: a dictionary, a string or a list. */
  predicate Container(v: Json) {
    v.JObject? || v.JString? || v.JArray?
  }

  /**
   * Python's `key in v` for a string key: a key test on a dictionary, a
   * substring test on a string, an element test on a list.
   */
  predicate KeyIn(key: string, v: Json)
    requires Container(v)
  {
    match v
    case JObject(fields) => key in fields
    case JString(s) => Contains(s, key)
    case JArray(items) => JString(key) in items
  }

  /** The values `for x in v` walks in a known order: a list, or a string character by character. */
  predicate Iterable(v: Json) {
    v.JArray? || v.JString?
  }

  /** What `for x in v` visits: the list's items, or the string's characters as one-character strings. */
  function Iterated(v: Json): (r: seq<Json>)
    requires Iterable(v)
    ensures v.JArray? ==> r == v.items
    ensures v.JString? ==> |r| == |v.s| && forall k :: 0 <= k < |r| ==> r[k] == JString([v.s[k]])
  {
    if v.JArray? then v.items else seq(|v.s|, k requires 0 <= k < |v.s| => JString([v.s[k]]))
  }
}
