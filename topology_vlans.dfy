/**
 * The VLAN executor of the VLAN design service. Unless the design asks for
 * VLAN 1 to be checked, VLAN 1 is removed from both `show vlan` tables (it
 * must be there). The active VLAN ids are collected, the configured-ports
 * interfaces are merged in, and each check is measured: a VLAN the device
 * lacks as None, otherwise by its status, name and members, with the missing
 * and extra members logged as failures in exclusive mode. The comparison is
 * left to the design library's `measure()`, steered by a mismatch callback.
 * In exclusive mode one collection-wide entry comparing the expected VLAN ids
 * with the active ones follows the per-VLAN entries.
 */
module TopologyVlans {
  import opened Wrappers
  import opened Results
  import opened Strings
  import opened Design
  import opened EosPayloads
  import opened VlanMembers

  /** The measured `oper_up`, `name` and `interfaces` of one VLAN. */
  datatype VlanMeasurement = VlanMeasurement(operUp: bool, name: string, interfaces: seq<string>)

  datatype Detail = MissingIfs(names: set<string>) | ExtraIfs(names: set<string>)

  /** One entry of a result's `logs`. */
  datatype Log = Log(status: Status, field: string, detail: Detail)

  /** One entry of the results list. */
  datatype Entry =
    | Unmeasured(check: VlanCheck)
    | Measured(check: VlanCheck, measurement: VlanMeasurement, logs: seq<Log>, exclusive: bool)
    | ExclusiveList(expected: set<string>, measured: set<nat>)

  /** What the mismatch callback returns (None leaves the status to `measure()`) and whether it logs a warning. */
  datatype Verdict = Verdict(status: Option<Status>, warn: bool)

  function ExpectedSet(c: VlanCheck): set<string> {
    set x | x in c.interfaces
  }

  /** `ds_config.check_vlan1` false: VLAN 1 is popped from the table. */
  function Dropped<V>(m: map<string, V>, checkVlan1: bool): map<string, V> {
    if checkVlan1 then m else m - {"1"}
  }

  predicate ActiveKeysDecimal(vlans: map<string, VlanBrief>) {
    forall k :: k in vlans && vlans[k].status == "active" ==> IsDecimal(k)
  }

  /** `msrd_active_vlan_ids` */
  function ActiveIds(vlans: map<string, VlanBrief>): (ids: set<nat>)
    requires ActiveKeysDecimal(vlans)
  {
    set k | k in vlans && vlans[k].status == "active" :: DecimalToNat(k)
  }

  /** A VLAN id is measured active exactly when its canonical decimal key is an active VLAN (the keys EOS prints). */
  lemma ActiveIdsRules(vlans: map<string, VlanBrief>, id: nat)
    requires ActiveKeysDecimal(vlans)
    requires forall k :: k in vlans ==> IsCanonicalDecimal(k)
    ensures id in ActiveIds(vlans) <==> NatToDecimal(id) in vlans && vlans[NatToDecimal(id)].status == "active"
  {
    DecimalRoundTrip(id);
    if id in ActiveIds(vlans) {
      var k :| k in vlans && vlans[k].status == "active" && DecimalToNat(k) == id;
      CanonicalRoundTrip(k);
    }
  }

  /** The tables the checks are measured against. */
  function Prepared(vlans: map<string, VlanBrief>, configured: map<string, seq<string>>, checkVlan1: bool): map<string, VlanBrief>
    requires configured.Keys <= vlans.Keys
  {
    Merged(Dropped(vlans, checkVlan1), Dropped(configured, checkVlan1))
  }

  /** `eos_check_one_vlan`: the measurement and, in exclusive mode, the membership logs. */
  function OneVlan(c: VlanCheck, exclusive: bool, st: VlanBrief): (e: Entry)
    ensures e.Measured? && e.check == c && e.exclusive == exclusive
  {
    var id := VlanCheckId(c);
    var ifs := MeasuredMembers(st.interfaces, id);
    var msrd := set x | x in ifs;
    var expd := ExpectedSet(c);
    var logs :=
      if exclusive then
        (if expd - msrd != {} then [Log(Fail, "interfaces", MissingIfs(expd - msrd))] else [])
        + (if msrd - expd != {} then [Log(Fail, "interfaces", ExtraIfs(msrd - expd))] else [])
      else [];
    Measured(c, VlanMeasurement(st.status == "active", st.name, ifs), logs, exclusive)
  }

  /**
   * `oper_up` is the VLAN being active and the name is the device's; in
   * exclusive mode the missing and the extra members are each logged as a
   * failure on "interfaces" exactly when there are some, and outside it
   * nothing is logged.
   */
  lemma OneVlanRules(c: VlanCheck, exclusive: bool, st: VlanBrief)
    ensures var e := OneVlan(c, exclusive, st);
            var expd := ExpectedSet(c);
            var msrd := MemberSet(st.interfaces, VlanCheckId(c));
            && e.measurement.operUp == (st.status == "active")
            && e.measurement.name == st.name
            && (set x | x in e.measurement.interfaces) == msrd
            && (forall i :: 0 <= i < |e.logs| ==> e.logs[i].status == Fail && e.logs[i].field == "interfaces")
            && (!exclusive ==> e.logs == [])
            && ((exists i :: 0 <= i < |e.logs| && e.logs[i].detail == MissingIfs(expd - msrd)) <==> exclusive && expd - msrd != {})
            && ((exists i :: 0 <= i < |e.logs| && e.logs[i].detail == ExtraIfs(msrd - expd)) <==> exclusive && msrd - expd != {})
  {
    var e := OneVlan(c, exclusive, st);
    var expd := ExpectedSet(c);
    var msrd := MemberSet(st.interfaces, VlanCheckId(c));
    if exclusive {
      var a: seq<Log> := if expd - msrd != {} then [Log(Fail, "interfaces", MissingIfs(expd - msrd))] else [];
      var b: seq<Log> := if msrd - expd != {} then [Log(Fail, "interfaces", ExtraIfs(msrd - expd))] else [];
      assert e.logs == a + b;
      if expd - msrd != {} { assert e.logs[0].detail == MissingIfs(expd - msrd); }
      if msrd - expd != {} { assert e.logs[|a|].detail == ExtraIfs(msrd - expd); }
    }
  }

  /**
   * `on_mismatch`: "name" always passes, warning when the design names the
   * VLAN; "interfaces" passes when the member sets are equal (exclusive) or
   * the expected members are all measured (otherwise), and is otherwise left
   * to `measure()`; every other field is left to `measure()`.
   */
  function OnMismatch(e: Entry, field: string): (v: Verdict)
    requires e.Measured?
    ensures field == "name" ==> v == Verdict(Some(Pass), e.check.name != "")
    ensures field != "name" ==> !v.warn && v.status != Some(Fail)
    ensures field == "interfaces" ==>
              var expd := ExpectedSet(e.check);
              var msrd := set x | x in e.measurement.interfaces;
              (v.status == Some(Pass) <==> if e.exclusive then msrd == expd else expd <= msrd)
    ensures field != "name" && field != "interfaces" ==> v.status == None
  {
    var msrdIfs := set x | x in e.measurement.interfaces;
    var expdIfs := ExpectedSet(e.check);
    if field == "name" then
      if e.check.name == "" then Verdict(Some(Pass), false) else Verdict(Some(Pass), true)
    else if field == "interfaces" then
      if e.exclusive then
        (if msrdIfs == expdIfs then Verdict(Some(Pass), false) else Verdict(None, false))
      else
        (if msrdIfs * expdIfs == expdIfs then Verdict(Some(Pass), false) else Verdict(None, false))
    else Verdict(None, false)
  }

  /** The entry one check contributes. */
  function OneCheck(c: VlanCheck, exclusive: bool, vlans: map<string, VlanBrief>): (e: Entry)
    ensures !e.ExclusiveList? && e.check == c
  {
    if VlanCheckId(c) !in vlans then Unmeasured(c)
    else OneVlan(c, exclusive, vlans[VlanCheckId(c)])
  }

  function CheckIds(checks: seq<VlanCheck>): set<string> {
    set i | 0 <= i < |checks| :: VlanCheckId(checks[i])
  }

  /** `eos_check_vlans` */
  method CheckVlans(checks: seq<VlanCheck>, exclusive: bool, checkVlan1: bool,
                    vlans: map<string, VlanBrief>, configured: map<string, seq<string>>)
    returns (results: seq<Entry>)
    requires !checkVlan1 ==> "1" in vlans && "1" in configured
    requires configured.Keys <= vlans.Keys
    requires ActiveKeysDecimal(vlans)
    ensures |results| == |checks| + (if exclusive then 1 else 0)
    ensures forall i :: 0 <= i < |checks| ==> results[i] == OneCheck(checks[i], exclusive, Prepared(vlans, configured, checkVlan1))
    ensures exclusive ==> results[|checks|] == ExclusiveList(CheckIds(checks), ActiveIds(Dropped(vlans, checkVlan1)))
  {
    var devVlansInfo := vlans;
    var devVlansCfgInfo := configured;
    if !checkVlan1 {
      devVlansInfo := devVlansInfo - {"1"};
      devVlansCfgInfo := devVlansCfgInfo - {"1"};
    }
    var msrdActiveVlanIds := ActiveIds(devVlansInfo);
    devVlansInfo := MergeConfigured(devVlansInfo, devVlansCfgInfo);
    var expdVlanIds: set<string> := {};
    results := [];
    for i := 0 to |checks|
      invariant |results| == i
      invariant forall k :: 0 <= k < i ==> results[k] == OneCheck(checks[k], exclusive, devVlansInfo)
      invariant expdVlanIds == CheckIds(checks[..i])
    {
      var c := checks[i];
      var vlanId := VlanCheckId(c);
      expdVlanIds := expdVlanIds + {vlanId};
      assert CheckIds(checks[..i + 1]) == CheckIds(checks[..i]) + {vlanId} by {
        assert forall k :: 0 <= k < i ==> checks[..i + 1][k] == checks[..i][k];
      }
      if vlanId !in devVlansInfo {
        results := results + [Unmeasured(c)];
        continue;
      }
      results := results + [OneVlan(c, exclusive, devVlansInfo[vlanId])];
    }
    assert checks[..|checks|] == checks;
    if exclusive {
      results := results + [ExclusiveList(expdVlanIds, msrdActiveVlanIds)];
    }
  }

  /**
   * A check is left unmeasured exactly when its VLAN is not on the device,
   * or it is VLAN 1 and VLAN 1 is not checked; otherwise it is measured on
   * the merged membership.
   */
  lemma OneCheckRules(c: VlanCheck, exclusive: bool, checkVlan1: bool,
                      vlans: map<string, VlanBrief>, configured: map<string, seq<string>>)
    requires configured.Keys <= vlans.Keys
    ensures var e := OneCheck(c, exclusive, Prepared(vlans, configured, checkVlan1));
            && (e.Unmeasured? <==> VlanCheckId(c) !in vlans || (!checkVlan1 && c.vlanId == 1))
            && (e.Measured? ==>
                  var st := Merged(vlans, configured)[VlanCheckId(c)];
                  e == OneVlan(c, exclusive, st))
  {
    var id := VlanCheckId(c);
    DecimalRoundTrip(1);
    assert NatToDecimal(1) == "1";
    if id == "1" {
      assert c.vlanId == 1;
    } else if c.vlanId == 1 {
      assert false;
    }
    var dv := Dropped(vlans, checkVlan1);
    var dc := Dropped(configured, checkVlan1);
    MergedRules(dv, dc, id);
  }
}
