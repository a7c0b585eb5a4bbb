/** Optional values and the JavaScript truthiness tests the routes apply to them. */
module Wrappers {

  /** A nullable or possibly-undefined value. */
  datatype Option<+T> = None | Some(value: T) {

    /** The wrapped value, or `default` when there is none (JavaScript `x ?? default`). */
    function GetOr(default: T): T {
      match this
      case Some(v) => v
      case None => default
    }
  }

  /** `if (x)` on a `string | null | undefined`: false for null, undefined and the empty string. */
  predicate Truthy(o: Option<string>) {
    o.Some? && o.value != ""
  }

  /** `x || null` on an optional string: keeps a non-empty string, turns everything else into null. */
  function OrNull(o: Option<string>): (r: Option<string>)
    ensures Truthy(o) ==> r == o
    ensures !Truthy(o) ==> r == None
    ensures r.Some? ==> r.value != ""
  {
    if Truthy(o) then o else None
  }

  /** `m[key]` on a string-keyed record, undefined when the key is absent. */
  function Lookup<V>(m: map<string, V>, key: string): (r: Option<V>)
    ensures r.Some? <==> key in m
    ensures r.Some? ==> r.value == m[key]
  {
    if key in m then Some(m[key]) else None
  }
}
