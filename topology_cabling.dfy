/**
 * The cabling executor of the topology checks. Each check, named by its local
 * interface, is measured from the LLDP neighbor on that port: the neighbor's
 * host name as `device` and its port as `port_id`. A port with no neighbor is
 * measured as None. The mismatch callback lets the design library's
 * neighbor matchers, which are not part of this model, decide each field.
 */
module TopologyCabling {
  import opened Wrappers
  import opened Results
  import opened Design
  import opened Lldp

  /** The measured neighbor: `device` and `port_id`. */
  datatype CablingMeasurement = CablingMeasurement(device: string, portId: string)

  /** One entry of the results list; `matched` records that the neighbor-match callback is passed to `measure()`. */
  datatype Entry = Measured(check: CablingCheck, measurement: Option<CablingMeasurement>, matched: bool)

  /**
   * The `on_mismatch` callback: "device" is decided by the host-name matcher,
   * "port_id" by the interface matcher, and any other field fails.
   */
  function OnMismatch(field: string, expected: string, measured: string,
                      hostnameMatch: (string, string) -> bool, interfaceMatch: (string, string) -> bool): (s: Status)
    ensures s == Pass || s == Fail
    ensures s == Pass <==> (field == "device" && hostnameMatch(expected, measured)) || (field == "port_id" && interfaceMatch(expected, measured))
  {
    var ok := if field == "device" then hostnameMatch(expected, measured)
              else if field == "port_id" then interfaceMatch(expected, measured)
              else false;
    if ok then Pass else Fail
  }

  /** `_check_one_interface`: the neighbor's host name and port. */
  function Measurement(nei: LldpNeighbor): (m: CablingMeasurement)
    ensures m.device == nei.neighborDevice && m.portId == nei.neighborPort
  {
    CablingMeasurement(nei.neighborDevice, nei.neighborPort)
  }

  /** The entry one check contributes. */
  function OneCheck(c: CablingCheck, neighbors: map<string, LldpNeighbor>): Entry {
    if c.name !in neighbors then Measured(c, None, false)
    else Measured(c, Some(Measurement(neighbors[c.name])), true)
  }

  /** `eos_check_cabling`: exactly one entry per check, in check order. */
  method CheckCabling(checks: seq<CablingCheck>, records: seq<LldpNeighbor>) returns (results: seq<Entry>)
    ensures |results| == |checks|
    ensures forall i :: 0 <= i < |checks| ==> results[i] == OneCheck(checks[i], NeighborMap(records))
  {
    var neighbors := NeighborMap(records);
    results := [];
    for i := 0 to |checks|
      invariant |results| == i
      invariant forall k :: 0 <= k < i ==> results[k] == OneCheck(checks[k], neighbors)
    {
      var c := checks[i];
      if c.name !in neighbors {
        results := results + [Measured(c, None, false)];
        continue;
      }
      results := results + [Measured(c, Some(Measurement(neighbors[c.name])), true)];
    }
  }

  /**
   * A check is measured as None exactly when no LLDP record names its port;
   * otherwise it is measured from the last record for that port.
   */
  lemma OneCheckRules(c: CablingCheck, records: seq<LldpNeighbor>, i: nat)
    ensures OneCheck(c, NeighborMap(records)).measurement.None? <==> forall j :: 0 <= j < |records| ==> records[j].port != c.name
    ensures i < |records| && records[i].port == c.name && (forall j :: i < j < |records| ==> records[j].port != c.name) ==>
              OneCheck(c, NeighborMap(records)).measurement == Some(CablingMeasurement(records[i].neighborDevice, records[i].neighborPort))
  {
    var m := NeighborMap(records);
    if c.name in m {
      var j :| 0 <= j < |records| && records[j].port == c.name;
    }
    if i < |records| && records[i].port == c.name && (forall j :: i < j < |records| ==> records[j].port != c.name) {
      LastRecordWins(records, i);
    }
  }
}
