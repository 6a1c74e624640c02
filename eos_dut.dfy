/**
 * The device-under-test of the `netcam_aioeos` revision: the response cache
 * that lets several evaluators share one eAPI reply, and the table that
 * sends a check collection to the executor registered for its type. The
 * eAPI request itself is not modelled: a cache lookup is given the reply the
 * device would send, and the object records each command it actually sends.
 */
module EosDut {
  import opened Wrappers
  import opened Design

  /** An eAPI reply, as JSON. */
  datatype Json =
    | Null
    | Bool(b: bool)
    | Int(i: int)
    | Str(s: string)
    | List(items: seq<Json>)
    | Object(fields: map<string, Json>)

  /** Python's truth value of the decoded reply. */
  predicate ReplyTruthy(j: Json) {
    match j
    case Null => false
    case Bool(b) => b
    case Int(i) => i != 0
    case Str(s) => s != ""
    case List(items) => items != []
    case Object(fields) => fields != map[]
  }

  /** The cache after one `api_cache_get`, the value returned and whether the device was asked. */
  datatype Lookup = Lookup(cache: map<string, Json>, data: Json, fetched: bool)

  /** `api_cache_get`: a stored truthy reply is returned as is; otherwise `reply` is fetched, stored and returned. */
  function CacheGet(cache: map<string, Json>, key: string, reply: Json): Lookup {
    if key in cache && ReplyTruthy(cache[key]) then Lookup(cache, cache[key], false)
    else Lookup(cache[key := reply], reply, true)
  }

  /**
   * The device is asked exactly when the key holds no truthy reply. A hit
   * returns the stored reply and changes nothing; after any lookup the key
   * holds the value returned, and no other key changes.
   */
  lemma CacheGetRules(cache: map<string, Json>, key: string, reply: Json)
    ensures var l := CacheGet(cache, key, reply);
            && (l.fetched <==> key !in cache || !ReplyTruthy(cache[key]))
            && (!l.fetched ==> l.data == cache[key] && l.cache == cache)
            && (l.fetched ==> l.data == reply)
            && key in l.cache && l.cache[key] == l.data
            && l.cache.Keys == cache.Keys + {key}
            && forall k :: k in cache && k != key ==> l.cache[k] == cache[k]
  {
  }

  /**
   * A key is fetched at most once while its reply is truthy: a second
   * lookup after a truthy reply asks nothing and returns the same reply,
   * while a falsy reply is fetched again.
   */
  lemma SecondLookup(cache: map<string, Json>, key: string, first: Json, second: Json)
    ensures var l1 := CacheGet(cache, key, first);
            var l2 := CacheGet(l1.cache, key, second);
            && (ReplyTruthy(l1.data) ==> !l2.fetched && l2.data == l1.data && l2.cache == l1.cache)
            && (!ReplyTruthy(l1.data) ==> l2.fetched && l2.data == second)
  {
    CacheGetRules(cache, key, first);
  }

  class EosDeviceUnderTest {
    /** `_api_cache` */
    var apiCache: map<string, Json>
    /** The eAPI commands sent to the device, in order. */
    var sent: seq<string>

    /** The executors registered on `execute_testcases`, by collection type. */
    var registry: map<CollectionKind, string>

    /**
     * A new DUT has an empty cache and has sent nothing; the class body's
     * `register` calls leave the registry holding the seven executors.
     */
    constructor ()
      ensures apiCache == map[] && sent == []
      ensures registry == Registered
    {
      apiCache := map[];
      sent := [];
      registry := map[];
      new;
      Register(DeviceInformationChecks, "eos_tc_device_info");
      Register(InterfaceChecks, "eos_tc_interfaces");
      Register(TransceiverChecks, "eos_test_transceivers");
      Register(CablingChecks, "eos_test_cabling");
      Register(VlanChecks, "eos_check_vlans");
      Register(IpAddrChecks, "eos_test_ipaddrs");
      Register(SwitchportChecks, "eos_tc_switchports");
    }

    /** `execute_testcases.register`: `name` now handles `kind`; nothing else changes. */
    method Register(kind: CollectionKind, name: string)
      modifies this
      ensures registry == old(registry)[kind := name]
      ensures apiCache == old(apiCache) && sent == old(sent)
    {
      registry := registry[kind := name];
    }

    /**
     * `execute_testcases`: the executor registered for `kind`, or the
     * default's None; on the registry the constructor builds, this is the
     * table `ExecuteTestcases` states.
     */
    method Dispatch(kind: CollectionKind) returns (executor: Option<string>)
      ensures executor.Some? <==> kind in registry
      ensures executor.Some? ==> executor.value == registry[kind]
      ensures registry == Registered ==> executor == ExecuteTestcases(kind)
    {
      if kind in registry {
        executor := Some(registry[kind]);
      } else {
        executor := None;
      }
    }

    /** `api_cache_get`; `reply` is what the device answers `command`. */
    method ApiCacheGet(key: string, command: string, reply: Json) returns (data: Json)
      modifies this
      ensures var l := CacheGet(old(apiCache), key, reply);
              && apiCache == l.cache && data == l.data
              && sent == old(sent) + (if l.fetched then [command] else [])
      ensures registry == old(registry)
    {
      var hasData: Json := Null;
      if key in apiCache {
        hasData := apiCache[key];
      }
      if !ReplyTruthy(hasData) {
        hasData := reply;
        sent := sent + [command];
        apiCache := apiCache[key := hasData];
      }
      data := hasData;
    }

    /** `get_switchports`: always through the "switchports" key. */
    method GetSwitchports(reply: Json) returns (data: Json)
      modifies this
      ensures var l := CacheGet(old(apiCache), "switchports", reply);
              && apiCache == l.cache && data == l.data
              && sent == old(sent) + (if l.fetched then ["show interfaces switchport"] else [])
      ensures registry == old(registry)
    {
      data := ApiCacheGet("switchports", "show interfaces switchport", reply);
    }

    /** The lookup `check_bgp_neighbors` makes: always through the "bgp-summary" key. */
    method GetBgpSummary(reply: Json) returns (data: Json)
      modifies this
      ensures var l := CacheGet(old(apiCache), "bgp-summary", reply);
              && apiCache == l.cache && data == l.data
              && sent == old(sent) + (if l.fetched then ["show ip bgp summary vrf all"] else [])
      ensures registry == old(registry)
    {
      data := ApiCacheGet("bgp-summary", "show ip bgp summary vrf all", reply);
    }
  }

  /** The executors registered on `execute_testcases`, by the type of collection they take. */
  const Registered: map<CollectionKind, string> :=
    map[DeviceInformationChecks := "eos_tc_device_info", InterfaceChecks := "eos_tc_interfaces",
        TransceiverChecks := "eos_test_transceivers", CablingChecks := "eos_test_cabling",
        VlanChecks := "eos_check_vlans", IpAddrChecks := "eos_test_ipaddrs", SwitchportChecks := "eos_tc_switchports"]

  /** `execute_testcases`: the registered executor, or the default, which returns None. */
  function ExecuteTestcases(kind: CollectionKind): (executor: Option<string>)
    ensures executor.None? <==> kind == LagChecks || kind == MlagChecks || kind == BgpRouterChecks
    ensures kind == DeviceInformationChecks ==> executor == Some("eos_tc_device_info")
    ensures kind == InterfaceChecks ==> executor == Some("eos_tc_interfaces")
    ensures kind == TransceiverChecks ==> executor == Some("eos_test_transceivers")
    ensures kind == CablingChecks ==> executor == Some("eos_test_cabling")
    ensures kind == VlanChecks ==> executor == Some("eos_check_vlans")
    ensures kind == IpAddrChecks ==> executor == Some("eos_test_ipaddrs")
    ensures kind == SwitchportChecks ==> executor == Some("eos_tc_switchports")
  {
    match kind
    case LagChecks => assert kind !in Registered; None
    case MlagChecks => assert kind !in Registered; None
    case BgpRouterChecks => assert kind !in Registered; None
    case _ => Some(Registered[kind])
  }
}
