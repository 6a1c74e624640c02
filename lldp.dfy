/**
 * The LLDP neighbor table of `show lldp neighbors` and the map the cabling
 * evaluators build from it, keyed by each record's local port.
 */
module Lldp {

  /** One record of `lldpNeighbors`. */
  datatype LldpNeighbor = LldpNeighbor(port: string, neighborDevice: string, neighborPort: string)

  /** `{nei["port"]: nei for nei in records}`: a later record for the same port replaces an earlier one. */
  function NeighborMap(records: seq<LldpNeighbor>): (m: map<string, LldpNeighbor>)
    ensures m.Keys == set i | 0 <= i < |records| :: records[i].port
    ensures forall p :: p in m ==> m[p].port == p
  {
    if records == [] then map[]
    else
      var init := records[..|records| - 1];
      var r := records[|records| - 1];
      var m := NeighborMap(init)[r.port := r];
      assert forall i :: 0 <= i < |init| ==> init[i] == records[i];
      assert m.Keys == (set i | 0 <= i < |init| :: init[i].port) + {r.port};
      m
  }

  /** The record a port maps to is the last record for that port. */
  lemma {:induction false} LastRecordWins(records: seq<LldpNeighbor>, i: nat)
    requires i < |records|
    requires forall j :: i < j < |records| ==> records[j].port != records[i].port
    ensures NeighborMap(records)[records[i].port] == records[i]
  {
    var init := records[..|records| - 1];
    if i < |records| - 1 {
      assert forall j :: i < j < |init| ==> init[j] == records[j];
      LastRecordWins(init, i);
    }
  }
}
