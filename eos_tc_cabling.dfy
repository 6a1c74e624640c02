/**
 * The cabling evaluator of the `netcam_aioeos.eos` revision. A port with no
 * LLDP neighbor is one NoExists failure; otherwise the neighbor's host name
 * and port are checked by the design library's matchers (parameters here),
 * each failing on its own field, and the Pass carrying the neighbor record is
 * appended only when neither failed.
 */
module EosTcCabling {
  import opened Results
  import opened Design
  import opened Lldp

  datatype Measure =
    | NoValue
    | Text(s: string)
    | Record(neighbor: LldpNeighbor)

  type R = Result<Measure>

  /** `eos_test_one_interface` */
  function OneInterface(c: CablingCheck, nei: LldpNeighbor,
                        hostnameMatch: (string, string) -> bool, interfaceMatch: (string, string) -> bool): seq<R> {
    var deviceFail := if !hostnameMatch(c.device, nei.neighborDevice) then [Mismatch(Check(c.name), "device", Text(nei.neighborDevice))] else [];
    var portFail := if !interfaceMatch(c.portId, nei.neighborPort) then [Mismatch(Check(c.name), "port_id", Text(nei.neighborPort))] else [];
    WithPassUnlessFailed(deviceFail + portFail, Passed(Check(c.name), "", Record(nei)))
  }

  /**
   * "device" fails exactly when the host-name matcher rejects the neighbor,
   * "port_id" exactly when the interface matcher rejects its port; the Pass
   * comes exactly when both accept, and is then the only result.
   */
  lemma OneInterfaceRules(c: CablingCheck, nei: LldpNeighbor,
                          hostnameMatch: (string, string) -> bool, interfaceMatch: (string, string) -> bool)
    ensures var rs := OneInterface(c, nei, hostnameMatch, interfaceMatch);
            && (HasFailOn(rs, "device") <==> !hostnameMatch(c.device, nei.neighborDevice))
            && (HasFailOn(rs, "port_id") <==> !interfaceMatch(c.portId, nei.neighborPort))
            && (AnyPass(rs) <==> hostnameMatch(c.device, nei.neighborDevice) && interfaceMatch(c.portId, nei.neighborPort))
            && (AnyPass(rs) ==> rs == [Passed(Check(c.name), "", Record(nei))])
            && !HasKind(rs, NoExists)
  {
    var df: seq<R> := if !hostnameMatch(c.device, nei.neighborDevice) then [Mismatch(Check(c.name), "device", Text(nei.neighborDevice))] else [];
    var pf: seq<R> := if !interfaceMatch(c.portId, nei.neighborPort) then [Mismatch(Check(c.name), "port_id", Text(nei.neighborPort))] else [];
    var fails := df + pf;
    var pass := Passed(Check(c.name), "", Record(nei));
    var rs := OneInterface(c, nei, hostnameMatch, interfaceMatch);
    HasFailOnAppend(df, pf, "device");
    HasFailOnAppend(df, pf, "port_id");
    if df != [] { assert df[0].field == "device"; }
    if pf != [] { assert pf[0].field == "port_id"; }
    assert AllFail(fails) by { forall i | 0 <= i < |fails| ensures IsFail(fails[i]) { } }
    AllFailFacts(fails);
    assert !HasKind(fails, NoExists) by { forall i | 0 <= i < |fails| ensures fails[i].kind != NoExists { } }
    if !AnyFailures(fails) {
      assert fails == [];
      assert rs == [pass];
      assert IsPass(rs[0]);
    }
  }

  function OneCheck(c: CablingCheck, neighbors: map<string, LldpNeighbor>,
                    hostnameMatch: (string, string) -> bool, interfaceMatch: (string, string) -> bool): seq<R> {
    if c.name !in neighbors then [Absent(Check(c.name), "", NoValue)]
    else OneInterface(c, neighbors[c.name], hostnameMatch, interfaceMatch)
  }

  /** The results of `checks`, in check order. */
  function Run(checks: seq<CablingCheck>, neighbors: map<string, LldpNeighbor>,
               hostnameMatch: (string, string) -> bool, interfaceMatch: (string, string) -> bool): seq<R> {
    if checks == [] then []
    else Run(checks[..|checks| - 1], neighbors, hostnameMatch, interfaceMatch) + OneCheck(checks[|checks| - 1], neighbors, hostnameMatch, interfaceMatch)
  }

  lemma RunStep(checks: seq<CablingCheck>, i: nat, neighbors: map<string, LldpNeighbor>,
                hostnameMatch: (string, string) -> bool, interfaceMatch: (string, string) -> bool)
    requires i < |checks|
    ensures Run(checks[..i + 1], neighbors, hostnameMatch, interfaceMatch)
              == Run(checks[..i], neighbors, hostnameMatch, interfaceMatch) + OneCheck(checks[i], neighbors, hostnameMatch, interfaceMatch)
  {
    assert checks[..i + 1][..i] == checks[..i];
  }

  /** A port is one NoExists exactly when no LLDP record names it; otherwise never NoExists. */
  lemma OneCheckRules(c: CablingCheck, records: seq<LldpNeighbor>,
                      hostnameMatch: (string, string) -> bool, interfaceMatch: (string, string) -> bool)
    ensures var rs := OneCheck(c, NeighborMap(records), hostnameMatch, interfaceMatch);
            && (HasKind(rs, NoExists) <==> forall j :: 0 <= j < |records| ==> records[j].port != c.name)
            && (HasKind(rs, NoExists) ==> |rs| == 1)
  {
    var m := NeighborMap(records);
    if c.name in m {
      var j :| 0 <= j < |records| && records[j].port == c.name;
      OneInterfaceRules(c, m[c.name], hostnameMatch, interfaceMatch);
    } else {
      assert OneCheck(c, m, hostnameMatch, interfaceMatch)[0].kind == NoExists;
    }
  }

  /** `eos_test_cabling` */
  method TestCabling(checks: seq<CablingCheck>, records: seq<LldpNeighbor>,
                     hostnameMatch: (string, string) -> bool, interfaceMatch: (string, string) -> bool)
    returns (results: seq<R>)
    ensures results == Run(checks, NeighborMap(records), hostnameMatch, interfaceMatch)
  {
    var neighbors := NeighborMap(records);
    results := [];
    for i := 0 to |checks|
      invariant results == Run(checks[..i], neighbors, hostnameMatch, interfaceMatch)
    {
      RunStep(checks, i, neighbors, hostnameMatch, interfaceMatch);
      var c := checks[i];
      if c.name !in neighbors {
        results := results + [Absent(Check(c.name), "", NoValue)];
        continue;
      }
      results := results + OneInterface(c, neighbors[c.name], hostnameMatch, interfaceMatch);
    }
    assert checks[..|checks|] == checks;
  }
}
