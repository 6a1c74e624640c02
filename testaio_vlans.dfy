/**
 * The VLAN generator of the `netcam_test_aiodevices` generation. It is the
 * `EosTcVlans` evaluator under other result class names, with the Pass
 * decided by testing the list for a failure result; so its results are
 * those of `EosTcVlans.Run`.
 */
module TestAioVlans {
  import opened Results
  import opened Design
  import opened EosPayloads
  import opened VlanMembers
  import opened EosTcVlans

  /** `eos_test_one_vlan`: the failures appended one by one, then the Pass unless one of them is a failure. */
  method TestOneVlan(testCase: VlanCheck, vlanId: string, vlanStatus: VlanBrief) returns (results: seq<R>)
    requires vlanId == VlanCheckId(testCase)
    ensures results == OneVlan(testCase, vlanStatus)
  {
    results := [];
    if vlanStatus.status != "active" {
      results := results + [Mismatch(Check(vlanId), "status", Text(vlanStatus.status))];
    }
    if vlanStatus.name != testCase.name {
      results := results + [Mismatch(Check(vlanId), "name", Text(vlanStatus.name))];
    }
    assert results == FieldFails(testCase, vlanStatus);
    var expdInterfaces := ExpectedSet(testCase);
    var msrdInterfaces := MemberSet(vlanStatus.interfaces, vlanId);
    if expdInterfaces - msrdInterfaces != {} {
      results := results + [MissingOf(Check(vlanId), "interfaces", Members(expdInterfaces, expdInterfaces - msrdInterfaces))];
    }
    if msrdInterfaces - expdInterfaces != {} {
      results := results + [ExtraOf(Check(vlanId), "interfaces", Members(expdInterfaces, msrdInterfaces - expdInterfaces))];
    }
    assert results == FieldFails(testCase, vlanStatus) + MemberFails(testCase, vlanStatus);
    var failed := exists i :: 0 <= i < |results| && IsFail(results[i]);
    if !failed {
      results := results + [Passed(Check(vlanId), "", State(vlanStatus.name, vlanStatus.status, msrdInterfaces))];
    }
  }

  /** `eos_test_vlans` */
  method TestVlans(tests: seq<VlanCheck>, vlans: map<string, VlanBrief>, configured: map<string, seq<string>>)
    returns (results: seq<R>)
    requires configured.Keys <= vlans.Keys
    ensures results == Run(tests, Merged(vlans, configured))
  {
    var devVlansInfo := MergeConfigured(vlans, configured);
    results := [];
    for i := 0 to |tests|
      invariant results == Run(tests[..i], devVlansInfo)
    {
      RunStep(tests, i, devVlansInfo);
      var testCase := tests[i];
      var vlanId := VlanCheckId(testCase);
      if vlanId !in devVlansInfo {
        results := results + [Absent(Check(vlanId), "", NoValue)];
        continue;
      }
      var one := TestOneVlan(testCase, vlanId, devVlansInfo[vlanId]);
      results := results + one;
    }
    assert tests[..|tests|] == tests;
  }
}
