/**
 * The IP-address evaluator of the topology checks. Each check looks up its
 * interface in `show ip interface brief`: a missing interface is NoExists,
 * otherwise the rendered "address/maskLen" is compared with the design, and an
 * enabled interface whose line protocol is not up fails — unless it is an SVI
 * all of whose configured member ports are disabled or reserved. The optional
 * exclusive check comes after every per-check result and only reports extra
 * addressed interfaces.
 *
 * The design's per-interface records (`device_info["interfaces"]`) and the
 * responses of `show vlan id N configured-ports` are parameters; the
 * evaluator indexes both without defaults, so the lookups it makes are
 * preconditions.
 */
module TopologyIpAddrs {
  import opened Wrappers
  import opened Strings
  import opened Results
  import opened EosPayloads
  import opened Design

  datatype Measure =
    | NoValue
    | Text(s: string)
    | Record(record: IpIfBrief)                         // the raw device entry
    | SviDown(ifOper: string, interfaces: set<string>)  // the INFO of a tolerated down SVI
    | Members(expected: set<string>, extras: set<string>)

  type R = Result<Measure>

  /** The expected address that marks an externally managed IP address. */
  const ReservedAddress := "is_reserved"

  /** A configured member port the SVI check disregards: disabled, or flagged reserved. */
  predicate Disregarded(d: DeviceInterface) {
    !d.enabled || "is_reserved" in d.profileFlags
  }

  predicate AllKnown(ports: seq<string>, devIfs: map<string, DeviceInterface>) {
    forall i :: 0 <= i < |ports| ==> ports[i] in devIfs
  }

  /** Every configured member port is disregarded (vacuously so when there are none). */
  predicate AllDisregarded(ports: seq<string>, devIfs: map<string, DeviceInterface>)
    requires AllKnown(ports, devIfs)
  {
    forall i :: 0 <= i < |ports| ==> Disregarded(devIfs[ports[i]])
  }

  /** What `_check_vlan_assoc_interface` reports for a down SVI whose VLAN has the configured `ports`. */
  function SviResults(c: IpCheck, ifOper: string, ports: seq<string>, devIfs: map<string, DeviceInterface>): seq<R>
    requires AllKnown(ports, devIfs)
  {
    if AllDisregarded(ports, devIfs) then
      [Logged(Check(c.name), "if_oper", SviDown(ifOper, set i | 0 <= i < |ports| :: ports[i])),
       Passed(Check(c.name), "", Text("exists"))]
    else [Mismatch(Check(c.name), "if_oper", Text(ifOper))]
  }

  /** `_check_vlan_assoc_interface`: collects the disregarded ports and compares them with the configured ones. */
  method CheckVlanAssocInterface(c: IpCheck, ifOper: string, ports: seq<string>, devIfs: map<string, DeviceInterface>)
    returns (results: seq<R>)
    requires AllKnown(ports, devIfs)
    ensures results == SviResults(c, ifOper, ports, devIfs)
  {
    var cfgd := set i | 0 <= i < |ports| :: ports[i];
    var disrd: set<string> := {};
    var rest := cfgd;
    while rest != {}
      invariant rest <= cfgd
      invariant disrd == set p | p in cfgd - rest && p in devIfs && Disregarded(devIfs[p])
      decreases |rest|
    {
      var p :| p in rest;
      assert p in devIfs by { var i :| 0 <= i < |ports| && ports[i] == p; }
      var d := devIfs[p];
      if !d.enabled || "is_reserved" in d.profileFlags {
        disrd := disrd + {p};
      }
      rest := rest - {p};
    }
    if disrd == cfgd {
      forall i | 0 <= i < |ports| ensures Disregarded(devIfs[ports[i]]) {
        assert ports[i] in cfgd;
      }
      results := [Logged(Check(c.name), "if_oper", SviDown(ifOper, cfgd)), Passed(Check(c.name), "", Text("exists"))];
    } else {
      assert !AllDisregarded(ports, devIfs) by {
        var p :| p in cfgd && p !in disrd;
        var i :| 0 <= i < |ports| && ports[i] == p;
      }
      results := [Mismatch(Check(c.name), "if_oper", Text(ifOper))];
    }
  }

  /** The VLAN id of an SVI name: what follows the last "Vlan". */
  function SviVlanId(name: string): string {
    AfterLast(name, "Vlan")
  }

  /** The oper-state check runs: the design enables the interface and its line protocol is not up. */
  predicate OperChecked(c: IpCheck, rec: IpIfBrief, devIfs: map<string, DeviceInterface>)
    requires c.name in devIfs
  {
    devIfs[c.name].enabled && rec.lineProtocolStatus != "up"
  }

  /** The lookups one interface check makes without a default. */
  predicate OneReady(c: IpCheck, rec: IpIfBrief, devIfs: map<string, DeviceInterface>, vlanPorts: map<string, seq<string>>) {
    MeasuredAddress(rec).Some? ==>
      && c.name in devIfs
      && (OperChecked(c, rec, devIfs) && StartsWith(c.name, "Vlan") ==>
            SviVlanId(c.name) in vlanPorts && AllKnown(vlanPorts[SviVlanId(c.name)], devIfs))
  }

  /** The address results: INFO for a reserved address, a failure for an unequal one. */
  function AddressResults(c: IpCheck, addr: string): seq<R> {
    if c.ifIpaddr == ReservedAddress then [Logged(Check(c.name), "if_ipaddr", Text(addr))]
    else if addr != c.ifIpaddr then [Mismatch(Check(c.name), "if_ipaddr", Text(addr))]
    else []
  }

  /** The oper-state results of a present, addressed interface. */
  function OperResults(c: IpCheck, rec: IpIfBrief, devIfs: map<string, DeviceInterface>, vlanPorts: map<string, seq<string>>): seq<R>
    requires MeasuredAddress(rec).Some? && OneReady(c, rec, devIfs, vlanPorts)
  {
    if !OperChecked(c, rec, devIfs) then []
    else if StartsWith(c.name, "Vlan") then SviResults(c, rec.lineProtocolStatus, vlanPorts[SviVlanId(c.name)], devIfs)
    else [Mismatch(Check(c.name), "if_oper", Text(rec.lineProtocolStatus))]
  }

  /** `eos_test_one_interface` */
  function OneInterface(c: IpCheck, rec: IpIfBrief, devIfs: map<string, DeviceInterface>, vlanPorts: map<string, seq<string>>): seq<R>
    requires OneReady(c, rec, devIfs, vlanPorts)
  {
    match MeasuredAddress(rec)
    case None => [Mismatch(Check(c.name), "measurement", Record(rec))]
    case Some(addr) =>
      WithPassUnlessFailed(AddressResults(c, addr) + OperResults(c, rec, devIfs, vlanPorts), Passed(Check(c.name), "", Record(rec)))
  }

  /** `eos_test_one_interface`, running the SVI member scan when it is needed. */
  method TestOneInterface(c: IpCheck, rec: IpIfBrief, devIfs: map<string, DeviceInterface>, vlanPorts: map<string, seq<string>>)
    returns (results: seq<R>)
    requires OneReady(c, rec, devIfs, vlanPorts)
    ensures results == OneInterface(c, rec, devIfs, vlanPorts)
  {
    var measured := MeasuredAddress(rec);
    if measured.None? {
      return [Mismatch(Check(c.name), "measurement", Record(rec))];
    }
    var addr := measured.value;
    var oper: seq<R> := [];
    if devIfs[c.name].enabled && rec.lineProtocolStatus != "up" {
      if StartsWith(c.name, "Vlan") {
        oper := CheckVlanAssocInterface(c, rec.lineProtocolStatus, vlanPorts[SviVlanId(c.name)], devIfs);
      } else {
        oper := [Mismatch(Check(c.name), "if_oper", Text(rec.lineProtocolStatus))];
      }
    }
    assert oper == OperResults(c, rec, devIfs, vlanPorts);
    results := AddressResults(c, addr) + oper;
    if !AnyFailures(results) {
      results := results + [Passed(Check(c.name), "", Record(rec))];
    }
  }

  /** Unreadable address keys yield exactly one mismatch on "measurement" and nothing else. */
  lemma UnreadableAddress(c: IpCheck, rec: IpIfBrief, devIfs: map<string, DeviceInterface>, vlanPorts: map<string, seq<string>>)
    requires MeasuredAddress(rec).None?
    ensures OneInterface(c, rec, devIfs, vlanPorts) == [Mismatch(Check(c.name), "measurement", Record(rec))]
  {
  }

  /**
   * A reserved expected address is logged as INFO and never fails; any other
   * expected address fails "if_ipaddr" exactly when the rendered address differs.
   * The oper-state fails "if_oper" exactly when the interface is enabled, its
   * line protocol is not up, and it is not an SVI whose members are all
   * disregarded.
   */
  lemma AddressAndOperRules(c: IpCheck, rec: IpIfBrief, devIfs: map<string, DeviceInterface>, vlanPorts: map<string, seq<string>>)
    requires OneReady(c, rec, devIfs, vlanPorts) && MeasuredAddress(rec).Some?
    ensures var rs := OneInterface(c, rec, devIfs, vlanPorts);
            var addr := MeasuredAddress(rec).value;
            && (HasFailOn(rs, "if_ipaddr") <==> c.ifIpaddr != ReservedAddress && addr != c.ifIpaddr)
            && (c.ifIpaddr == ReservedAddress ==> rs[0] == Logged(Check(c.name), "if_ipaddr", Text(addr)))
            && (HasFailOn(rs, "if_oper") <==>
                  OperChecked(c, rec, devIfs) &&
                  (!StartsWith(c.name, "Vlan") || !AllDisregarded(vlanPorts[SviVlanId(c.name)], devIfs)))
  {
    var addr := MeasuredAddress(rec).value;
    var a := AddressResults(c, addr);
    var o := OperResults(c, rec, devIfs, vlanPorts);
    var pass := Passed(Check(c.name), "", Record(rec));
    assert !HasFailOn(a, "if_oper") && (HasFailOn(a, "if_ipaddr") <==> c.ifIpaddr != ReservedAddress && addr != c.ifIpaddr) by {
      if a != [] { assert a[0].field == "if_ipaddr"; }
    }
    assert !HasFailOn(o, "if_ipaddr") by {
      forall i | 0 <= i < |o| ensures o[i].field != "if_ipaddr" { }
    }
    assert HasFailOn(o, "if_oper") <==>
             OperChecked(c, rec, devIfs) && (!StartsWith(c.name, "Vlan") || !AllDisregarded(vlanPorts[SviVlanId(c.name)], devIfs)) by {
      if o != [] && IsFail(o[0]) { assert o[0].field == "if_oper"; }
    }
    HasFailOnAppend(a, o, "if_ipaddr");
    HasFailOnAppend(a, o, "if_oper");
    HasFailOnAppend(a + o, [pass], "if_ipaddr");
    HasFailOnAppend(a + o, [pass], "if_oper");
  }

  /**
   * The check's own Pass closes its results exactly when nothing failed; a
   * tolerated down SVI with a matching address therefore carries two Passes.
   */
  lemma PassRule(c: IpCheck, rec: IpIfBrief, devIfs: map<string, DeviceInterface>, vlanPorts: map<string, seq<string>>)
    requires OneReady(c, rec, devIfs, vlanPorts) && MeasuredAddress(rec).Some?
    ensures var rs := OneInterface(c, rec, devIfs, vlanPorts);
            && (rs != [] && rs[|rs| - 1] == Passed(Check(c.name), "", Record(rec)) <==> !AnyFailures(rs))
            && ((OperChecked(c, rec, devIfs) && StartsWith(c.name, "Vlan") && AllDisregarded(vlanPorts[SviVlanId(c.name)], devIfs)
                 && c.ifIpaddr == MeasuredAddress(rec).value) ==> PassCount(rs) == 2)
  {
    var addr := MeasuredAddress(rec).value;
    var a := AddressResults(c, addr);
    var o := OperResults(c, rec, devIfs, vlanPorts);
    var pass := Passed(Check(c.name), "", Record(rec));
    var rs := OneInterface(c, rec, devIfs, vlanPorts);
    if AnyFailures(a + o) {
      assert rs == a + o;
      assert rs[|rs| - 1] != pass by {
        if |o| > 0 { assert rs[|rs| - 1] == o[|o| - 1]; } else { assert rs[|rs| - 1] == a[|a| - 1]; }
      }
    }
    if OperChecked(c, rec, devIfs) && StartsWith(c.name, "Vlan") && AllDisregarded(vlanPorts[SviVlanId(c.name)], devIfs)
       && c.ifIpaddr == addr {
      assert c.ifIpaddr != ReservedAddress ==> a == [];
      assert c.ifIpaddr == ReservedAddress ==> IsPass(pass) && !IsPass(a[0]) && |a| == 1;
      assert !AnyFailures(a + o) by {
        forall i | 0 <= i < |a + o| ensures !IsFail((a + o)[i]) { }
      }
      assert PassCount(a + o) == 1 by {
        PassCountAppend(a, o);
        assert PassCount(a) == 0 by { if a != [] { assert a == [a[0]]; assert a[..0] == []; } }
        assert o[..1] == [o[0]] && o[..1][..0] == [];
      }
      PassCountAppend(a + o, [pass]);
      assert [pass][..0] == [];
    }
  }

  /** The results of one check in the executor: NoExists when the device has no IP entry for it. */
  function PerCheck(c: IpCheck, ips: map<string, IpIfBrief>, devIfs: map<string, DeviceInterface>, vlanPorts: map<string, seq<string>>): seq<R>
    requires c.name in ips ==> OneReady(c, ips[c.name], devIfs, vlanPorts)
  {
    if c.name !in ips then [Absent(Check(c.name), "if_ipaddr", NoValue)]
    else OneInterface(c, ips[c.name], devIfs, vlanPorts)
  }

  predicate Ready(checks: seq<IpCheck>, ips: map<string, IpIfBrief>, devIfs: map<string, DeviceInterface>, vlanPorts: map<string, seq<string>>) {
    forall i :: 0 <= i < |checks| && checks[i].name in ips ==> OneReady(checks[i], ips[checks[i].name], devIfs, vlanPorts)
  }

  function Run(checks: seq<IpCheck>, ips: map<string, IpIfBrief>, devIfs: map<string, DeviceInterface>, vlanPorts: map<string, seq<string>>): seq<R>
    requires Ready(checks, ips, devIfs, vlanPorts)
  {
    if checks == [] then []
    else Run(checks[..|checks| - 1], ips, devIfs, vlanPorts) + PerCheck(checks[|checks| - 1], ips, devIfs, vlanPorts)
  }

  lemma RunStep(checks: seq<IpCheck>, i: nat, ips: map<string, IpIfBrief>, devIfs: map<string, DeviceInterface>, vlanPorts: map<string, seq<string>>)
    requires Ready(checks, ips, devIfs, vlanPorts) && i < |checks|
    ensures Ready(checks[..i], ips, devIfs, vlanPorts)
    ensures Run(checks[..i + 1], ips, devIfs, vlanPorts) == Run(checks[..i], ips, devIfs, vlanPorts) + PerCheck(checks[i], ips, devIfs, vlanPorts)
  {
    assert checks[..i + 1][..i] == checks[..i];
  }

  /** Every device entry carries a mask length: the exclusive list reads it without a default. */
  predicate MaskLensKnown(ips: map<string, IpIfBrief>) {
    forall k :: k in ips ==> ips[k].ipAddr.Some? && ips[k].ipAddr.value.maskLen.Some?
  }

  /** The names of the device entries with an assigned address (mask length not zero). */
  function AddressedNames(ips: map<string, IpIfBrief>): (names: set<string>)
    requires MaskLensKnown(ips)
    ensures forall k :: k in ips && ips[k].ipAddr.value.maskLen.value != 0 ==> ips[k].name in names
    ensures forall n :: n in names ==> exists k :: k in ips && ips[k].ipAddr.value.maskLen.value != 0 && ips[k].name == n
  {
    set k | k in ips && ips[k].ipAddr.value.maskLen.value != 0 :: ips[k].name
  }

  function IpCheckNames(checks: seq<IpCheck>): set<string> {
    set i | 0 <= i < |checks| :: checks[i].name
  }

  /** `eos_test_exclusive_list` */
  function ExclusiveList(expd: set<string>, msrd: set<string>): (rs: seq<R>)
    ensures |rs| == 1 && rs[0].check == ExclusiveListCheck
    ensures rs[0].kind == ExtraMembers <==> msrd - expd != {}
    ensures rs[0].status == Pass <==> msrd <= expd
    ensures rs[0].kind != MissingMembers
    ensures rs[0].kind == ExtraMembers ==> rs[0].measurement == Members(expd, msrd - expd)
  {
    if msrd - expd != {} then [ExtraOf(ExclusiveListCheck, "interfaces", Members(expd, msrd - expd))]
    else
      assert msrd <= expd by { forall n | n in msrd ensures n in expd { assert n !in msrd - expd; } }
      [Passed(ExclusiveListCheck, "", Text("exists"))]
  }

  /** `eos_test_ipaddrs` */
  method TestIpAddrs(checks: seq<IpCheck>, exclusive: bool, ips: map<string, IpIfBrief>,
                     devIfs: map<string, DeviceInterface>, vlanPorts: map<string, seq<string>>)
    returns (results: seq<R>)
    requires Ready(checks, ips, devIfs, vlanPorts)
    requires exclusive ==> MaskLensKnown(ips)
    ensures results == Run(checks, ips, devIfs, vlanPorts)
                       + (if exclusive then ExclusiveList(IpCheckNames(checks), AddressedNames(ips)) else [])
  {
    results := [];
    var ifNames: seq<string> := [];
    for i := 0 to |checks|
      invariant results == Run(checks[..i], ips, devIfs, vlanPorts)
      invariant |ifNames| == i && forall j :: 0 <= j < i ==> ifNames[j] == checks[j].name
    {
      RunStep(checks, i, ips, devIfs, vlanPorts);
      var c := checks[i];
      ifNames := ifNames + [c.name];
      if c.name !in ips {
        results := results + [Absent(Check(c.name), "if_ipaddr", NoValue)];
        continue;
      }
      var one := TestOneInterface(c, ips[c.name], devIfs, vlanPorts);
      results := results + one;
    }
    assert checks[..|checks|] == checks;
    if exclusive {
      var expd := set n | n in ifNames;
      assert expd == IpCheckNames(checks) by {
        forall n | n in expd ensures n in IpCheckNames(checks) { var j :| 0 <= j < |ifNames| && ifNames[j] == n; }
        forall n | n in IpCheckNames(checks) ensures n in expd { var j :| 0 <= j < |checks| && checks[j].name == n; assert ifNames[j] == n; }
      }
      results := results + ExclusiveList(expd, AddressedNames(ips));
    }
  }
}
