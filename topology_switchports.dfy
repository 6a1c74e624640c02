/**
 * The switchport executor of the VLAN design service. Each check names an
 * interface; one the device does not report is measured as None. An access
 * check is measured by the port's mode and access VLAN, and its expected VLAN
 * is rewritten to the VLAN's id. A trunk check is measured by the mode, the
 * native VLAN and the allowed-VLAN string EOS prints; its expected allowed
 * VLANs are rewritten to the range string of their sorted ids, or "ALL" when
 * the design allows none, and its native VLAN to the VLAN's id when one is
 * set. The comparison is left to the design library's `measure()`; the range
 * string is the design library's too, so it is a parameter here.
 */
module TopologySwitchports {
  import opened Wrappers
  import opened Design
  import opened EosPayloads
  import opened Sorting

  /** What `measure()` is given as expected, after the rewriting. */
  datatype Expected =
    | ExpectAccess(mode: string, vlan: int)
    | ExpectTrunk(mode: string, nativeVlan: Option<int>, trunkAllowedVlans: string)

  /** `MeasuredAccess` and `MeasuredTrunk`. */
  datatype Measured =
    | MeasuredAccess(mode: string, vlan: int)
    | MeasuredTrunk(mode: string, nativeVlan: int, trunkAllowedVlans: string)

  /** One entry of the results list. */
  datatype Entry =
    | Unmeasured(check: SwitchportCheck)
    | Compared(check: SwitchportCheck, expected: Expected, measurement: Measured)

  /** `_check_access_switchport` */
  function AccessEntry(c: SwitchportCheck, swp: SwitchportInfo): Entry
    requires c.expectation.AccessExpect?
  {
    Compared(c, ExpectAccess("access", c.expectation.vlanId), MeasuredAccess(swp.mode, swp.accessVlanId))
  }

  /** The expected allowed-VLAN string of a trunk. */
  function ExpectedAllowed(allowed: seq<int>, rangeString: seq<int> -> string): string {
    if |allowed| != 0 then rangeString(SortInts(allowed)) else "ALL"
  }

  /** `_check_trunk_switchport` */
  function TrunkEntry(c: SwitchportCheck, swp: SwitchportInfo, rangeString: seq<int> -> string): Entry
    requires c.expectation.TrunkExpect?
  {
    Compared(c, ExpectTrunk("trunk", c.expectation.nativeVlan, ExpectedAllowed(c.expectation.allowedVlans, rangeString)),
             MeasuredTrunk(swp.mode, swp.trunkingNativeVlanId, swp.trunkAllowedVlans))
  }

  /** The entry one check contributes: access checks go to the access handler, every other mode to the trunk one. */
  function OneCheck(c: SwitchportCheck, switchports: map<string, SwitchportInfo>, rangeString: seq<int> -> string): Entry {
    if c.name !in switchports then Unmeasured(c)
    else if SwitchportMode(c.expectation) == "access" then AccessEntry(c, switchports[c.name])
    else TrunkEntry(c, switchports[c.name], rangeString)
  }

  /** `eos_check_switchports`: exactly one entry per check, in check order. */
  method CheckSwitchports(checks: seq<SwitchportCheck>, switchports: map<string, SwitchportInfo>, rangeString: seq<int> -> string)
    returns (results: seq<Entry>)
    ensures |results| == |checks|
    ensures forall i :: 0 <= i < |checks| ==> results[i] == OneCheck(checks[i], switchports, rangeString)
  {
    results := [];
    for i := 0 to |checks|
      invariant |results| == i
      invariant forall k :: 0 <= k < i ==> results[k] == OneCheck(checks[k], switchports, rangeString)
    {
      var c := checks[i];
      if c.name !in switchports {
        results := results + [Unmeasured(c)];
        continue;
      }
      var msrdSwpinfo := switchports[c.name];
      if SwitchportMode(c.expectation) == "access" {
        results := results + [AccessEntry(c, msrdSwpinfo)];
      } else {
        results := results + [TrunkEntry(c, msrdSwpinfo, rangeString)];
      }
    }
  }

  /**
   * An interface the device does not report is the only unmeasured case. An
   * access port is compared on its mode and access VLAN against the
   * expected VLAN id; a trunk on its mode, native VLAN and allowed-VLAN
   * string, against the expected native id (None when unset) and "ALL" for
   * an empty allowed list, otherwise the range string of the sorted ids.
   */
  lemma OneCheckRules(c: SwitchportCheck, switchports: map<string, SwitchportInfo>, rangeString: seq<int> -> string)
    ensures var e := OneCheck(c, switchports, rangeString);
            && e.check == c
            && (e.Unmeasured? <==> c.name !in switchports)
            && (e.Compared? ==> e.measurement.mode == switchports[c.name].mode && e.expected.mode == SwitchportMode(c.expectation))
            && (e.Compared? && c.expectation.AccessExpect? ==>
                  e.expected.ExpectAccess? && e.expected.vlan == c.expectation.vlanId &&
                  e.measurement.MeasuredAccess? && e.measurement.vlan == switchports[c.name].accessVlanId)
            && (e.Compared? && c.expectation.TrunkExpect? ==>
                  e.expected.ExpectTrunk? && e.measurement.MeasuredTrunk? &&
                  e.expected.nativeVlan == c.expectation.nativeVlan &&
                  e.measurement.nativeVlan == switchports[c.name].trunkingNativeVlanId &&
                  e.measurement.trunkAllowedVlans == switchports[c.name].trunkAllowedVlans &&
                  (e.expected.trunkAllowedVlans == "ALL" <== c.expectation.allowedVlans == []) &&
                  (c.expectation.allowedVlans != [] ==>
                     exists ids :: Sorted(ids, IntLeq) && multiset(ids) == multiset(c.expectation.allowedVlans) &&
                                   e.expected.trunkAllowedVlans == rangeString(ids)))
  {
    if c.name in switchports && c.expectation.TrunkExpect? && c.expectation.allowedVlans != [] {
      var ids := SortInts(c.expectation.allowedVlans);
      assert Sorted(ids, IntLeq) && multiset(ids) == multiset(c.expectation.allowedVlans);
    }
  }

  /** The expected allowed-VLAN string does not depend on the order the design lists the VLANs in. */
  lemma AllowedOrderIgnored(a: seq<int>, b: seq<int>, rangeString: seq<int> -> string)
    requires multiset(a) == multiset(b)
    ensures ExpectedAllowed(a, rangeString) == ExpectedAllowed(b, rangeString)
  {
    SortIntsEqualIff(a, b);
    if |a| == 0 {
      assert multiset(b) == multiset{};
    } else {
      assert |multiset(b)| == |multiset(a)|;
    }
  }
}
