/**
 * The BGP definitions of the EOS adapter: the name of the default VRF, and
 * the read-only table from the neighbor-state strings EOS prints to the
 * design library's neighbor states.
 */
module BgpPeeringDefs {

  /** `EOS_DEFAULT_VRF_NAME` */
  const EosDefaultVrfName: string := "default"

  /** The design library's `BgpNeighborState`. */
  datatype BgpNeighborState = Idle | Connect | Active | OpenSent | OpenConfirm | Established

  /** `EOS_MAP_BGP_STATES`; a constant map, so it cannot be changed. */
  const EosMapBgpStates: map<string, BgpNeighborState> :=
    map["Idle" := Idle, "Connect" := Connect, "Active" := Active,
        "OpenSent" := OpenSent, "OpenConfirm" := OpenConfirm, "Established" := Established]

  /** The EOS spelling of each neighbor state. */
  function EosStateName(s: BgpNeighborState): string {
    match s
    case Idle => "Idle"
    case Connect => "Connect"
    case Active => "Active"
    case OpenSent => "OpenSent"
    case OpenConfirm => "OpenConfirm"
    case Established => "Established"
  }

  /**
   * The table has exactly the six EOS spellings as keys, maps each to the
   * state of that name, so every state is reached from exactly one key, and
   * has nothing for any other string (a lower-case "established" included).
   */
  lemma StateTableRules(k: string, s: BgpNeighborState)
    ensures EosMapBgpStates.Keys == {"Idle", "Connect", "Active", "OpenSent", "OpenConfirm", "Established"}
    ensures |EosMapBgpStates| == 6
    ensures k in EosMapBgpStates ==> EosStateName(EosMapBgpStates[k]) == k
    ensures EosStateName(s) in EosMapBgpStates && EosMapBgpStates[EosStateName(s)] == s
    ensures k in EosMapBgpStates && EosMapBgpStates[k] == s ==> k == EosStateName(s)
    ensures "established" !in EosMapBgpStates
  {
    assert |EosMapBgpStates.Keys| == 6;
  }
}
