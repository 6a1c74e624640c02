/**
 * The cabling evaluator of the `netcam_test_aiodevices` generation. It is the
 * same evaluator as `EosTcCabling`, with the Pass decided by testing the list
 * for a failure result instead of `any_failures`, which is the same test; so
 * its results are those of `EosTcCabling.Run`.
 */
module TestAioCabling {
  import opened Results
  import opened Design
  import opened Lldp
  import opened EosTcCabling

  /** `eos_test_cabling` */
  method TestCabling(tests: seq<CablingCheck>, records: seq<LldpNeighbor>,
                     hostnameMatch: (string, string) -> bool, interfaceMatch: (string, string) -> bool)
    returns (results: seq<R>)
    ensures results == Run(tests, NeighborMap(records), hostnameMatch, interfaceMatch)
  {
    var neighbors := NeighborMap(records);
    results := [];
    for i := 0 to |tests|
      invariant results == Run(tests[..i], neighbors, hostnameMatch, interfaceMatch)
    {
      RunStep(tests, i, neighbors, hostnameMatch, interfaceMatch);
      var testCase := tests[i];
      if testCase.name !in neighbors {
        results := results + [Absent(Check(testCase.name), "", NoValue)];
        continue;
      }
      var one := TestOneInterface(testCase, neighbors[testCase.name], hostnameMatch, interfaceMatch);
      results := results + one;
    }
    assert tests[..|tests|] == tests;
  }

  /** `eos_test_one_interface`: the failures appended to a list, and the Pass unless one of them is a failure. */
  method TestOneInterface(testCase: CablingCheck, nei: LldpNeighbor,
                          hostnameMatch: (string, string) -> bool, interfaceMatch: (string, string) -> bool)
    returns (results: seq<R>)
    ensures results == OneInterface(testCase, nei, hostnameMatch, interfaceMatch)
  {
    results := [];
    if !hostnameMatch(testCase.device, nei.neighborDevice) {
      results := results + [Mismatch(Check(testCase.name), "device", Text(nei.neighborDevice))];
    }
    if !interfaceMatch(testCase.portId, nei.neighborPort) {
      results := results + [Mismatch(Check(testCase.name), "port_id", Text(nei.neighborPort))];
    }
    ghost var deviceFail: seq<R> := if !hostnameMatch(testCase.device, nei.neighborDevice) then [Mismatch(Check(testCase.name), "device", Text(nei.neighborDevice))] else [];
    ghost var portFail: seq<R> := if !interfaceMatch(testCase.portId, nei.neighborPort) then [Mismatch(Check(testCase.name), "port_id", Text(nei.neighborPort))] else [];
    assert results == deviceFail + portFail;
    // Whether some result is a FailTestCase instance; IsFail is that class test.
    var failed := exists i :: 0 <= i < |results| && IsFail(results[i]);
    if !failed {
      results := results + [Passed(Check(testCase.name), "", Record(nei))];
    }
  }
}
