/**
 * The switchport evaluator of the `netcam_aioeos.eos` revision. An interface
 * the device does not report is one NoExists failure. A port in another mode
 * than the design's is one failure on "switchport_mode" and nothing more is
 * checked. Otherwise the mode's handler compares: an access port its VLAN
 * id; a trunk its native VLAN (only when the design sets a non-zero one) and
 * its allowed-VLAN string against the range string of the sorted expected
 * ids, or "NONE" when that string is empty. The Pass, carrying the port's
 * switchport record, is appended only when the handler found no failure.
 */
module EosTcSwitchports {
  import opened Wrappers
  import opened Results
  import opened Design
  import opened EosPayloads
  import opened Sorting

  datatype Measure =
    | NoValue
    | Text(s: string)
    | Number(n: int)
    | Record(info: SwitchportInfo)

  type R = Result<Measure>

  /** `_check_access_switchport` */
  function AccessFails(c: SwitchportCheck, swp: SwitchportInfo): seq<R>
    requires c.expectation.AccessExpect?
  {
    if c.expectation.vlanId != swp.accessVlanId then [Mismatch(Check(c.name), "vlan", Number(swp.accessVlanId))] else []
  }

  /** The expected allowed-VLAN string: the range string of the sorted ids, "NONE" when that is empty. */
  function ExpectedAllowed(allowed: seq<int>, rangeString: seq<int> -> string): string {
    var s := rangeString(SortInts(allowed));
    if s == "" then "NONE" else s
  }

  /** The native VLAN is compared only when the design sets one and its id is not zero. */
  predicate NativeChecked(native: Option<int>) {
    native.Some? && native.value != 0
  }

  /** `_check_trunk_switchport` */
  function TrunkFails(c: SwitchportCheck, swp: SwitchportInfo, rangeString: seq<int> -> string): seq<R>
    requires c.expectation.TrunkExpect?
  {
    var native := c.expectation.nativeVlan;
    var nativeFail := if NativeChecked(native) && native.value != swp.trunkingNativeVlanId
                      then [Mismatch(Check(c.name), "native_vlan", Number(swp.trunkingNativeVlanId))] else [];
    var allowedFail := if ExpectedAllowed(c.expectation.allowedVlans, rangeString) != swp.trunkAllowedVlans
                       then [Mismatch(Check(c.name), "trunk_allowed_vlans", Text(swp.trunkAllowedVlans))] else [];
    nativeFail + allowedFail
  }

  /** The failures of the mode's handler. */
  function ModeFails(c: SwitchportCheck, swp: SwitchportInfo, rangeString: seq<int> -> string): seq<R> {
    match c.expectation
    case AccessExpect(_) => AccessFails(c, swp)
    case TrunkExpect(_, _) => TrunkFails(c, swp, rangeString)
  }

  /** The results of one check. */
  function OneCheck(c: SwitchportCheck, switchports: map<string, SwitchportInfo>, rangeString: seq<int> -> string): seq<R> {
    if c.name !in switchports then [Absent(Check(c.name), "", NoValue)]
    else
      var swp := switchports[c.name];
      if SwitchportMode(c.expectation) != swp.mode then [Mismatch(Check(c.name), "switchport_mode", Text(swp.mode))]
      else WithPassUnlessFailed(ModeFails(c, swp, rangeString), Passed(Check(c.name), "", Record(swp)))
  }

  /** Every handler result is a field mismatch, and each field fails on its own condition. */
  lemma ModeFailsRules(c: SwitchportCheck, swp: SwitchportInfo, rangeString: seq<int> -> string)
    ensures var fails := ModeFails(c, swp, rangeString);
            && AllFail(fails) && !HasKind(fails, NoExists) && !HasFailOn(fails, "switchport_mode")
            && (HasFailOn(fails, "vlan") <==> c.expectation.AccessExpect? && c.expectation.vlanId != swp.accessVlanId)
            && (HasFailOn(fails, "native_vlan") <==>
                  c.expectation.TrunkExpect? && NativeChecked(c.expectation.nativeVlan) && c.expectation.nativeVlan.value != swp.trunkingNativeVlanId)
            && (HasFailOn(fails, "trunk_allowed_vlans") <==>
                  c.expectation.TrunkExpect? && ExpectedAllowed(c.expectation.allowedVlans, rangeString) != swp.trunkAllowedVlans)
  {
    if c.expectation.TrunkExpect? {
      TrunkFailsRules(c, swp, rangeString);
    } else {
      var fails := ModeFails(c, swp, rangeString);
      assert fails == AccessFails(c, swp);
      assert forall i :: 0 <= i < |fails| ==> IsFail(fails[i]) && fails[i].kind == FieldMismatch;
      if fails != [] { assert fails[0].field == "vlan"; }
    }
  }

  /** The trunk handler's failures: one on the native VLAN and one on the allowed list, each on its own condition. */
  lemma TrunkFailsRules(c: SwitchportCheck, swp: SwitchportInfo, rangeString: seq<int> -> string)
    requires c.expectation.TrunkExpect?
    ensures var fails := TrunkFails(c, swp, rangeString);
            && AllFail(fails) && !HasKind(fails, NoExists) && !HasFailOn(fails, "switchport_mode") && !HasFailOn(fails, "vlan")
            && (HasFailOn(fails, "native_vlan") <==>
                  NativeChecked(c.expectation.nativeVlan) && c.expectation.nativeVlan.value != swp.trunkingNativeVlanId)
            && (HasFailOn(fails, "trunk_allowed_vlans") <==>
                  ExpectedAllowed(c.expectation.allowedVlans, rangeString) != swp.trunkAllowedVlans)
  {
    var fails := TrunkFails(c, swp, rangeString);
    var native := c.expectation.nativeVlan;
    var nf: seq<R> := if NativeChecked(native) && native.value != swp.trunkingNativeVlanId
                      then [Mismatch(Check(c.name), "native_vlan", Number(swp.trunkingNativeVlanId))] else [];
    var af: seq<R> := if ExpectedAllowed(c.expectation.allowedVlans, rangeString) != swp.trunkAllowedVlans
                      then [Mismatch(Check(c.name), "trunk_allowed_vlans", Text(swp.trunkAllowedVlans))] else [];
    assert fails == nf + af;
    assert forall i :: 0 <= i < |fails| ==> IsFail(fails[i]) && fails[i].kind == FieldMismatch;
    HasFailOnAppend(nf, af, "native_vlan");
    HasFailOnAppend(nf, af, "trunk_allowed_vlans");
    HasFailOnAppend(nf, af, "vlan");
    HasFailOnAppend(nf, af, "switchport_mode");
    if nf != [] { assert nf[0].field == "native_vlan"; }
    if af != [] { assert af[0].field == "trunk_allowed_vlans"; }
  }

  /**
   * An interface the device does not report is exactly one NoExists; a mode
   * mismatch is exactly one failure on "switchport_mode"; otherwise the
   * handler's failures follow their rules and the Pass, carrying the port's
   * record, comes exactly when there are none, as the only result.
   */
  lemma OneCheckRules(c: SwitchportCheck, switchports: map<string, SwitchportInfo>, rangeString: seq<int> -> string)
    ensures var rs := OneCheck(c, switchports, rangeString);
            && (HasKind(rs, NoExists) <==> c.name !in switchports)
            && (HasKind(rs, NoExists) ==> |rs| == 1)
            && (c.name in switchports ==>
                  var swp := switchports[c.name];
                  && (HasFailOn(rs, "switchport_mode") <==> SwitchportMode(c.expectation) != swp.mode)
                  && (HasFailOn(rs, "switchport_mode") ==> |rs| == 1)
                  && (AnyPass(rs) <==> SwitchportMode(c.expectation) == swp.mode && ModeFails(c, swp, rangeString) == [])
                  && (AnyPass(rs) ==> rs == [Passed(Check(c.name), "", Record(swp))])
                  && (SwitchportMode(c.expectation) == swp.mode ==>
                        forall f :: f != "switchport_mode" ==> (HasFailOn(rs, f) <==> HasFailOn(ModeFails(c, swp, rangeString), f))))
  {
    var rs := OneCheck(c, switchports, rangeString);
    if c.name !in switchports {
      assert rs[0].kind == NoExists;
    } else {
      var swp := switchports[c.name];
      if SwitchportMode(c.expectation) != swp.mode {
        assert rs[0].field == "switchport_mode" && IsFail(rs[0]);
      } else {
        var fails := ModeFails(c, swp, rangeString);
        ModeFailsRules(c, swp, rangeString);
        AllFailFacts(fails);
        if fails != [] {
          assert rs == fails;
        } else {
          assert rs == [Passed(Check(c.name), "", Record(swp))];
          assert IsPass(rs[0]);
        }
      }
    }
  }

  /** The expected allowed-VLAN string does not depend on the order the design lists the VLANs in. */
  lemma AllowedOrderIgnored(a: seq<int>, b: seq<int>, rangeString: seq<int> -> string)
    requires multiset(a) == multiset(b)
    ensures ExpectedAllowed(a, rangeString) == ExpectedAllowed(b, rangeString)
  {
    SortIntsEqualIff(a, b);
  }

  /** The results of `checks`, in check order. */
  function Run(checks: seq<SwitchportCheck>, switchports: map<string, SwitchportInfo>, rangeString: seq<int> -> string): seq<R> {
    if checks == [] then []
    else Run(checks[..|checks| - 1], switchports, rangeString) + OneCheck(checks[|checks| - 1], switchports, rangeString)
  }

  lemma RunStep(checks: seq<SwitchportCheck>, i: nat, switchports: map<string, SwitchportInfo>, rangeString: seq<int> -> string)
    requires i < |checks|
    ensures Run(checks[..i + 1], switchports, rangeString) == Run(checks[..i], switchports, rangeString) + OneCheck(checks[i], switchports, rangeString)
  {
    assert checks[..i + 1][..i] == checks[..i];
  }

  /** `eos_tc_switchports` */
  method TestSwitchports(checks: seq<SwitchportCheck>, switchports: map<string, SwitchportInfo>, rangeString: seq<int> -> string)
    returns (results: seq<R>)
    ensures results == Run(checks, switchports, rangeString)
  {
    results := [];
    for i := 0 to |checks|
      invariant results == Run(checks[..i], switchports, rangeString)
    {
      RunStep(checks, i, switchports, rangeString);
      var testCase := checks[i];
      if testCase.name !in switchports {
        results := results + [Absent(Check(testCase.name), "", NoValue)];
        continue;
      }
      var msrdSwpinfo := switchports[testCase.name];
      var expdMode := SwitchportMode(testCase.expectation);
      if expdMode != msrdSwpinfo.mode {
        results := results + [Mismatch(Check(testCase.name), "switchport_mode", Text(msrdSwpinfo.mode))];
        continue;
      }
      var modeResults := ModeFails(testCase, msrdSwpinfo, rangeString);
      if !AnyFailures(modeResults) {
        modeResults := modeResults + [Passed(Check(testCase.name), "", Record(msrdSwpinfo))];
      }
      results := results + modeResults;
    }
    assert checks[..|checks|] == checks;
  }
}
