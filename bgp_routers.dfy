/**
 * The BGP-router executor of the BGP peering design service. Each router
 * check is measured from the `show ip bgp summary vrf all` entry of its VRF
 * (the default VRF when the check names none): the router id, or "" when
 * EOS reports none, and the AS number as an integer, or -1 when EOS reports
 * none. The comparison is left to the design library's `measure()`.
 */
module EosChecksBgpRouters {
  import opened Wrappers
  import opened Strings
  import opened BgpPeeringDefs

  /** One VRF of `show ip bgp summary vrf all`: its router id and AS number, when reported. */
  datatype VrfSummary = VrfSummary(routerId: Option<string>, asn: Option<string>)

  /** A BGP-router check: its name and the VRF of its `check_params`, when set. */
  datatype BgpRouterCheck = BgpRouterCheck(name: string, vrf: Option<string>)

  datatype BgpRouterMeasurement = BgpRouterMeasurement(routerId: string, asn: int)

  /** One entry of the results list. */
  datatype Entry = Measured(check: BgpRouterCheck, measurement: BgpRouterMeasurement)

  /** `check.check_params.vrf or EOS_DEFAULT_VRF_NAME` */
  function VrfName(c: BgpRouterCheck): (vrf: string)
    ensures vrf != ""
    ensures c.vrf.Some? && c.vrf.value != "" ==> vrf == c.vrf.value
    ensures c.vrf.None? || c.vrf.value == "" ==> vrf == "default"
  {
    if c.vrf.Some? && c.vrf.value != "" then c.vrf.value else EosDefaultVrfName
  }

  /** `int()` accepts the AS number EOS prints. */
  predicate AsnReadable(v: VrfSummary) {
    v.asn.Some? ==> IsDecimal(v.asn.value)
  }

  /** `_check_router_vrf`: the VRF's router id and AS number. */
  function OneCheck(c: BgpRouterCheck, vrfs: map<string, VrfSummary>): Entry
    requires VrfName(c) in vrfs && AsnReadable(vrfs[VrfName(c)])
  {
    var v := vrfs[VrfName(c)];
    Measured(c, BgpRouterMeasurement(v.routerId.GetOr(""), if v.asn.Some? then DecimalToNat(v.asn.value) else -1))
  }

  /**
   * The measured router id is the VRF's, or "" when it has none; the
   * measured AS number is the one the VRF reports, read back from its
   * decimal form, or -1 when it has none (never -1 otherwise).
   */
  lemma OneCheckRules(c: BgpRouterCheck, vrfs: map<string, VrfSummary>, n: nat)
    requires VrfName(c) in vrfs && AsnReadable(vrfs[VrfName(c)])
    ensures var e := OneCheck(c, vrfs);
            var v := vrfs[VrfName(c)];
            && e.check == c
            && (v.routerId.Some? ==> e.measurement.routerId == v.routerId.value)
            && (v.routerId.None? ==> e.measurement.routerId == "")
            && (e.measurement.asn == -1 <==> v.asn.None?)
            && (v.asn == Some(NatToDecimal(n)) ==> e.measurement.asn == n)
  {
    DecimalRoundTrip(n);
  }

  /** Every check's VRF is in the reply, with an AS number `int()` accepts. */
  predicate VrfsReadable(checks: seq<BgpRouterCheck>, vrfs: map<string, VrfSummary>) {
    forall i :: 0 <= i < |checks| ==> VrfName(checks[i]) in vrfs && AsnReadable(vrfs[VrfName(checks[i])])
  }

  /** `check_bgp_neighbors`: exactly one entry per router check, in check order. */
  method CheckBgpNeighbors(checks: seq<BgpRouterCheck>, vrfs: map<string, VrfSummary>) returns (results: seq<Entry>)
    requires VrfsReadable(checks, vrfs)
    ensures |results| == |checks|
    ensures forall i :: 0 <= i < |checks| ==> results[i] == OneCheck(checks[i], vrfs)
  {
    results := [];
    for i := 0 to |checks|
      invariant |results| == i
      invariant forall k :: 0 <= k < i ==> results[k] == OneCheck(checks[k], vrfs)
    {
      var rtrChk := checks[i];
      var devData := vrfs[VrfName(rtrChk)];
      var routerId := devData.routerId.GetOr("");
      var asn := if devData.asn.Some? then DecimalToNat(devData.asn.value) else -1;
      results := results + [Measured(rtrChk, BgpRouterMeasurement(routerId, asn))];
    }
  }
}
