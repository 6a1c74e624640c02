/** Optional values, for the dictionary lookups that may find nothing. */
module Wrappers {

  datatype Option<T> = None | Some(value: T)
  {
    function GetOr(default: T): (v: T)
      ensures this.Some? ==> v == value
      ensures this.None? ==> v == default
    {
      match this
      case Some(x) => x
      case None => default
    }
  }

  /** `d.get(k)` on a Python dictionary. */
  function Get<K, V>(d: map<K, V>, k: K): (r: Option<V>)
    ensures r.Some? <==> k in d
    ensures r.Some? ==> r.value == d[k]
  {
    if k in d then Some(d[k]) else None
  }
}
