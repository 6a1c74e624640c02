/**
 * The transceiver evaluator of the topology checks. Each check finds its
 * interface's primary port in the design: a reserved interface is logged and
 * its port set aside; any other port is expected, its inventory slot (keyed by
 * the decimal port number) gives the model and the hardware entry (keyed by
 * interface name) gives the type. The optional exclusive list then compares
 * the expected ports with the ports holding a transceiver, reserved ones left
 * out. The model and type matchers belong to netcad and are parameters here.
 */
module TopologyTransceivers {
  import opened Wrappers
  import opened Strings
  import opened Results
  import opened EosPayloads
  import opened Design

  datatype Measure =
    | NoValue
    | Text(s: string)
    | Reserved(slot: Option<XcvrSlot>, hw: Option<XcvrHw>)   // the INFO of a reserved interface
    | Found(model: string, xcvrType: string)                  // the Pass measurement
    | Ports(expected: set<nat>, diff: set<nat>)               // missing or extra ports

  type R = Result<Measure>

  /** `eos_test_one_interface` */
  function OneInterface(c: XcvrCheck, slot: Option<XcvrSlot>, hw: Option<XcvrHw>,
                        modelMatches: (string, string) -> bool, typeMatches: (string, string) -> bool): seq<R>
    requires slot.Some? && slot.value.modelName != "" ==> hw.Some?
  {
    if slot.None? || slot.value.modelName == "" then [Absent(Check(c.name), "", NoValue)]
    else
      var model := slot.value.modelName;
      var xcvrType := hw.value.transceiverType;
      var modelFail := if !modelMatches(c.model, model) then [Mismatch(Check(c.name), "model", Text(model))] else [];
      var typeFail := if !typeMatches(c.xcvrType, xcvrType) then [Mismatch(Check(c.name), "type", Text(xcvrType))] else [];
      WithPassUnlessFailed(modelFail + typeFail, Passed(Check(c.name), "", Found(model, xcvrType)))
  }

  /**
   * A missing slot or an empty model is one NoExists and nothing else;
   * otherwise model and type each fail exactly when their matcher rejects the
   * measured value, the model result first, and the one Pass, carrying both
   * measured values, comes exactly when neither failed.
   */
  lemma OneInterfaceRules(c: XcvrCheck, slot: Option<XcvrSlot>, hw: Option<XcvrHw>,
                          modelMatches: (string, string) -> bool, typeMatches: (string, string) -> bool)
    requires slot.Some? && slot.value.modelName != "" ==> hw.Some?
    ensures var rs := OneInterface(c, slot, hw, modelMatches, typeMatches);
            && (HasKind(rs, NoExists) <==> slot.None? || slot.value.modelName == "")
            && (HasKind(rs, NoExists) ==> |rs| == 1)
            && (!HasKind(rs, NoExists) ==>
                  var model := slot.value.modelName;
                  var xcvrType := hw.value.transceiverType;
                  && (HasFailOn(rs, "model") <==> !modelMatches(c.model, model))
                  && (HasFailOn(rs, "type") <==> !typeMatches(c.xcvrType, xcvrType))
                  && (HasFailOn(rs, "model") ==> rs[0].field == "model")
                  && (AnyPass(rs) <==> modelMatches(c.model, model) && typeMatches(c.xcvrType, xcvrType))
                  && (AnyPass(rs) ==> rs == [Passed(Check(c.name), "", Found(model, xcvrType))]))
  {
    var rs := OneInterface(c, slot, hw, modelMatches, typeMatches);
    if slot.Some? && slot.value.modelName != "" {
      var model := slot.value.modelName;
      var xcvrType := hw.value.transceiverType;
      var mf: seq<R> := if !modelMatches(c.model, model) then [Mismatch(Check(c.name), "model", Text(model))] else [];
      var tf: seq<R> := if !typeMatches(c.xcvrType, xcvrType) then [Mismatch(Check(c.name), "type", Text(xcvrType))] else [];
      HasFailOnAppend(mf, tf, "model");
      HasFailOnAppend(mf, tf, "type");
      AnyFailuresAppend(mf, tf);
      assert HasFailOn(mf, "model") <==> mf != [] by { if mf != [] { assert mf[0].field == "model"; } }
      assert !HasFailOn(mf, "type") by { if mf != [] { assert mf[0].field == "model"; } }
      assert HasFailOn(tf, "type") <==> tf != [] by { if tf != [] { assert tf[0].field == "type"; } }
      assert !HasFailOn(tf, "model") by { if tf != [] { assert tf[0].field == "type"; } }
      assert AnyFailures(mf) <==> mf != [] by { if mf != [] { assert IsFail(mf[0]); } }
      assert AnyFailures(tf) <==> tf != [] by { if tf != [] { assert IsFail(tf[0]); } }
      var pass := Passed(Check(c.name), "", Found(model, xcvrType));
      if AnyFailures(mf + tf) {
        assert rs == mf + tf;
        assert !AnyPass(rs) by {
          forall i | 0 <= i < |rs| ensures !IsPass(rs[i]) { }
        }
      } else {
        assert rs == [pass];
      }
      HasFailOnAppend(mf + tf, [pass], "model");
      HasFailOnAppend(mf + tf, [pass], "type");
      forall i | 0 <= i < |rs| ensures rs[i].kind != NoExists { }
    } else {
      assert rs[0].kind == NoExists;
    }
  }

  /** The inventory key of a port: its decimal string, as `str()` writes it. */
  function SlotKey(port: nat): string {
    NatToDecimal(port)
  }

  /** The results one check contributes. */
  function PerCheck(c: XcvrCheck, design: map<string, InterfaceDesign>, inv: map<string, XcvrSlot>, hw: map<string, XcvrHw>,
                    modelMatches: (string, string) -> bool, typeMatches: (string, string) -> bool): seq<R>
    requires c.name in design && |design[c.name].portNumbers| > 0
    requires SlotReady(c, design, inv, hw)
  {
    var key := SlotKey(PrimaryPort(design[c.name]));
    if design[c.name].isReserved then [Logged(Check(c.name), "", Reserved(Get(inv, key), Get(hw, c.name)))]
    else OneInterface(c, Get(inv, key), Get(hw, c.name), modelMatches, typeMatches)
  }

  /** The hardware entry is read whenever the slot of a non-reserved interface holds a transceiver. */
  predicate SlotReady(c: XcvrCheck, design: map<string, InterfaceDesign>, inv: map<string, XcvrSlot>, hw: map<string, XcvrHw>)
    requires c.name in design && |design[c.name].portNumbers| > 0
  {
    var key := SlotKey(PrimaryPort(design[c.name]));
    !design[c.name].isReserved && key in inv && inv[key].modelName != "" ==> c.name in hw
  }

  predicate Ready(checks: seq<XcvrCheck>, design: map<string, InterfaceDesign>, inv: map<string, XcvrSlot>, hw: map<string, XcvrHw>) {
    PortsDesigned(checks, design) && forall i :: 0 <= i < |checks| ==> SlotReady(checks[i], design, inv, hw)
  }

  function Run(checks: seq<XcvrCheck>, design: map<string, InterfaceDesign>, inv: map<string, XcvrSlot>, hw: map<string, XcvrHw>,
               modelMatches: (string, string) -> bool, typeMatches: (string, string) -> bool): seq<R>
    requires Ready(checks, design, inv, hw)
  {
    if checks == [] then []
    else
      Run(checks[..|checks| - 1], design, inv, hw, modelMatches, typeMatches)
        + PerCheck(checks[|checks| - 1], design, inv, hw, modelMatches, typeMatches)
  }

  /** `if_port_numbers`: the primary ports of the non-reserved checks. */
  function ExpectedPorts(checks: seq<XcvrCheck>, design: map<string, InterfaceDesign>): (ports: set<nat>)
    requires PortsDesigned(checks, design)
    ensures forall p :: p in ports <==>
              exists i :: 0 <= i < |checks| && !design[checks[i].name].isReserved && PrimaryPort(design[checks[i].name]) == p
  {
    if checks == [] then {}
    else
      var init := checks[..|checks| - 1];
      var c := checks[|checks| - 1];
      var ports := ExpectedPorts(init, design) + (if design[c.name].isReserved then {} else {PrimaryPort(design[c.name])});
      assert forall i :: 0 <= i < |init| ==> init[i] == checks[i];
      ports
  }

  /** `rsvd_ports_set`: the primary ports of the reserved checks. */
  function ReservedPorts(checks: seq<XcvrCheck>, design: map<string, InterfaceDesign>): (ports: set<nat>)
    requires PortsDesigned(checks, design)
    ensures forall p :: p in ports <==>
              exists i :: 0 <= i < |checks| && design[checks[i].name].isReserved && PrimaryPort(design[checks[i].name]) == p
  {
    if checks == [] then {}
    else
      var init := checks[..|checks| - 1];
      var c := checks[|checks| - 1];
      var ports := ReservedPorts(init, design) + (if design[c.name].isReserved then {PrimaryPort(design[c.name])} else {});
      assert forall i :: 0 <= i < |init| ==> init[i] == checks[i];
      ports
  }

  lemma RunStep(checks: seq<XcvrCheck>, i: nat, design: map<string, InterfaceDesign>, inv: map<string, XcvrSlot>, hw: map<string, XcvrHw>,
                modelMatches: (string, string) -> bool, typeMatches: (string, string) -> bool)
    requires Ready(checks, design, inv, hw) && i < |checks|
    ensures Ready(checks[..i], design, inv, hw) && Ready(checks[..i + 1], design, inv, hw)
    ensures Run(checks[..i + 1], design, inv, hw, modelMatches, typeMatches)
              == Run(checks[..i], design, inv, hw, modelMatches, typeMatches) + PerCheck(checks[i], design, inv, hw, modelMatches, typeMatches)
    ensures var d := design[checks[i].name];
            && ExpectedPorts(checks[..i + 1], design) == ExpectedPorts(checks[..i], design) + (if d.isReserved then {} else {PrimaryPort(d)})
            && ReservedPorts(checks[..i + 1], design) == ReservedPorts(checks[..i], design) + (if d.isReserved then {PrimaryPort(d)} else {})
  {
    assert checks[..i + 1][..i] == checks[..i];
  }

  /** `eos_test_exclusive_list`: the ports holding a transceiver, reserved ports left out, against the expected ports. */
  function ExclusiveList(expd: set<nat>, inv: map<string, XcvrSlot>, rsvd: set<nat>): (rs: seq<R>)
    requires SlotKeysDecimal(inv)
    ensures var used := UsedPorts(inv) - rsvd;
            && (HasKind(rs, MissingMembers) <==> expd - used != {})
            && (HasKind(rs, ExtraMembers) <==> used - expd != {})
            && (AnyPass(rs) <==> expd == used)
            && (forall i :: 0 <= i < |rs| ==> rs[i].check == ExclusiveListCheck)
            && (forall i :: 0 <= i < |rs| && rs[i].kind == ExtraMembers ==> rs[i].measurement == Ports(expd, used - expd))
            && (forall i :: 0 <= i < |rs| && rs[i].kind == MissingMembers ==> rs[i].measurement == Ports(expd, expd - used))
  {
    var used := UsedPorts(inv) - rsvd;
    var missing: seq<R> := if expd - used != {} then [MissingOf(ExclusiveListCheck, "transceivers", Ports(expd, expd - used))] else [];
    var extra: seq<R> := if used - expd != {} then [ExtraOf(ExclusiveListCheck, "transceivers", Ports(expd, used - expd))] else [];
    var pass := Passed(ExclusiveListCheck, "", Text("OK: no extra or missing transceivers"));
    SameMembersIffNoDifference(expd, used);
    HasKindAppend(missing, extra, MissingMembers);
    HasKindAppend(missing, extra, ExtraMembers);
    HasKindAppend(missing + extra, [pass], MissingMembers);
    HasKindAppend(missing + extra, [pass], ExtraMembers);
    assert AnyFailures(missing + extra) <==> missing + extra != [] by {
      if missing + extra != [] { assert IsFail((missing + extra)[0]); }
    }
    assert !AnyPass(missing + extra) by {
      forall i | 0 <= i < |missing + extra| ensures !IsPass((missing + extra)[i]) { }
    }
    assert HasKind(missing, MissingMembers) <==> missing != [] by { if missing != [] { assert missing[0].kind == MissingMembers; } }
    assert HasKind(extra, ExtraMembers) <==> extra != [] by { if extra != [] { assert extra[0].kind == ExtraMembers; } }
    assert !HasKind(missing, ExtraMembers) && !HasKind(extra, MissingMembers);
    WithPassUnlessFailed(missing + extra, pass)
  }

  /** A reserved port is never reported as an extra, whatever its slot holds. */
  lemma ReservedNeverExtra(expd: set<nat>, inv: map<string, XcvrSlot>, rsvd: set<nat>, p: nat)
    requires SlotKeysDecimal(inv) && p in rsvd
    ensures var rs := ExclusiveList(expd, inv, rsvd);
            forall i :: 0 <= i < |rs| && rs[i].kind == ExtraMembers ==> p !in rs[i].measurement.diff
  {
  }

  /**
   * With canonical slot keys, a non-reserved check reports NoExists exactly
   * when its port is absent from the used ports the exclusive list compares.
   */
  lemma NoExistsIffUnused(c: XcvrCheck, design: map<string, InterfaceDesign>, inv: map<string, XcvrSlot>, hw: map<string, XcvrHw>,
                          modelMatches: (string, string) -> bool, typeMatches: (string, string) -> bool)
    requires c.name in design && |design[c.name].portNumbers| > 0 && !design[c.name].isReserved
    requires SlotReady(c, design, inv, hw) && SlotKeysCanonical(inv)
    ensures SlotKeysDecimal(inv)
    ensures HasKind(PerCheck(c, design, inv, hw, modelMatches, typeMatches), NoExists) <==>
              PrimaryPort(design[c.name]) !in UsedPorts(inv)
  {
    var key := SlotKey(PrimaryPort(design[c.name]));
    UsedPortLookup(inv, PrimaryPort(design[c.name]));
    OneInterfaceRules(c, Get(inv, key), Get(hw, c.name), modelMatches, typeMatches);
  }

  /** `eos_check_transceivers` */
  method CheckTransceivers(checks: seq<XcvrCheck>, exclusive: bool, design: map<string, InterfaceDesign>,
                           inv: map<string, XcvrSlot>, hw: map<string, XcvrHw>,
                           modelMatches: (string, string) -> bool, typeMatches: (string, string) -> bool)
    returns (results: seq<R>)
    requires Ready(checks, design, inv, hw)
    requires exclusive ==> SlotKeysDecimal(inv)
    ensures results == Run(checks, design, inv, hw, modelMatches, typeMatches)
                       + (if exclusive then ExclusiveList(ExpectedPorts(checks, design), inv, ReservedPorts(checks, design)) else [])
  {
    results := [];
    var ifPortNumbers: set<nat> := {};
    var rsvdPorts: set<nat> := {};
    for i := 0 to |checks|
      invariant Ready(checks[..i], design, inv, hw)
      invariant results == Run(checks[..i], design, inv, hw, modelMatches, typeMatches)
      invariant ifPortNumbers == ExpectedPorts(checks[..i], design)
      invariant rsvdPorts == ReservedPorts(checks[..i], design)
    {
      RunStep(checks, i, design, inv, hw, modelMatches, typeMatches);
      var c := checks[i];
      var d := design[c.name];
      var port := d.portNumbers[0];
      var key := SlotKey(port);
      if d.isReserved {
        results := results + [Logged(Check(c.name), "", Reserved(Get(inv, key), Get(hw, c.name)))];
        rsvdPorts := rsvdPorts + {port};
        continue;
      }
      ifPortNumbers := ifPortNumbers + {port};
      results := results + OneInterface(c, Get(inv, key), Get(hw, c.name), modelMatches, typeMatches);
    }
    assert checks[..|checks|] == checks;
    if exclusive {
      results := results + ExclusiveList(ifPortNumbers, inv, rsvdPorts);
    }
  }
}
