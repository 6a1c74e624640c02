/**
 * The transceiver evaluator of the `netcam_aioeos/eos` generation. Every
 * check's primary port is expected (there is no reserved handling), each
 * interface is compared on model and type, and the exclusive list is always
 * evaluated after the per-interface results. The model and type matchers come
 * from a module that is not part of this model and are parameters here.
 */
module EosTcTransceivers {
  import opened Wrappers
  import opened Strings
  import opened Results
  import opened EosPayloads
  import opened Design

  datatype Measure =
    | NoValue
    | Text(s: string)
    | Found(model: string, xcvrType: string)
    | Ports(expected: set<nat>, diff: set<nat>)

  type R = Result<Measure>

  /** `eos_test_one_interface`: only a missing slot is NoExists; an empty model is compared like any other. */
  function OneInterface(c: XcvrCheck, slot: Option<XcvrSlot>, hw: Option<XcvrHw>,
                        modelMatches: (string, string) -> bool, typeMatches: (string, string) -> bool): seq<R>
    requires slot.Some? ==> hw.Some?
  {
    match slot
    case None => [Absent(Check(c.name), "", NoValue)]
    case Some(s) =>
      var xcvrType := hw.value.transceiverType;
      var modelFail := if !modelMatches(c.model, s.modelName) then [Mismatch(Check(c.name), "model", Text(s.modelName))] else [];
      var typeFail := if !typeMatches(c.xcvrType, xcvrType) then [Mismatch(Check(c.name), "type", Text(xcvrType))] else [];
      WithPassUnlessFailed(modelFail + typeFail, Passed(Check(c.name), "", Found(s.modelName, xcvrType)))
  }

  /**
   * A missing slot is one NoExists and nothing else; a present slot, even one
   * with an empty model, is compared: model and type each fail exactly when
   * their matcher rejects the measured value, model first, and the one Pass
   * comes exactly when neither failed.
   */
  lemma OneInterfaceRules(c: XcvrCheck, slot: Option<XcvrSlot>, hw: Option<XcvrHw>,
                          modelMatches: (string, string) -> bool, typeMatches: (string, string) -> bool)
    requires slot.Some? ==> hw.Some?
    ensures var rs := OneInterface(c, slot, hw, modelMatches, typeMatches);
            && (HasKind(rs, NoExists) <==> slot.None?)
            && (slot.None? ==> |rs| == 1)
            && (slot.Some? ==>
                  var model := slot.value.modelName;
                  var xcvrType := hw.value.transceiverType;
                  && (HasFailOn(rs, "model") <==> !modelMatches(c.model, model))
                  && (HasFailOn(rs, "type") <==> !typeMatches(c.xcvrType, xcvrType))
                  && (HasFailOn(rs, "model") ==> rs[0].field == "model")
                  && (AnyPass(rs) <==> modelMatches(c.model, model) && typeMatches(c.xcvrType, xcvrType))
                  && (AnyPass(rs) ==> rs == [Passed(Check(c.name), "", Found(model, xcvrType))]))
  {
    var rs := OneInterface(c, slot, hw, modelMatches, typeMatches);
    if slot.Some? {
      var model := slot.value.modelName;
      var xcvrType := hw.value.transceiverType;
      var mf: seq<R> := if !modelMatches(c.model, model) then [Mismatch(Check(c.name), "model", Text(model))] else [];
      var tf: seq<R> := if !typeMatches(c.xcvrType, xcvrType) then [Mismatch(Check(c.name), "type", Text(xcvrType))] else [];
      HasFailOnAppend(mf, tf, "model");
      HasFailOnAppend(mf, tf, "type");
      AnyFailuresAppend(mf, tf);
      assert HasFailOn(mf, "model") <==> mf != [] by { if mf != [] { assert mf[0].field == "model"; } }
      assert !HasFailOn(mf, "type") by { if mf != [] { assert mf[0].field == "model"; } }
      assert HasFailOn(tf, "type") <==> tf != [] by { if tf != [] { assert tf[0].field == "type"; } }
      assert !HasFailOn(tf, "model") by { if tf != [] { assert tf[0].field == "type"; } }
      assert AnyFailures(mf) <==> mf != [] by { if mf != [] { assert IsFail(mf[0]); } }
      assert AnyFailures(tf) <==> tf != [] by { if tf != [] { assert IsFail(tf[0]); } }
      var pass := Passed(Check(c.name), "", Found(model, xcvrType));
      if AnyFailures(mf + tf) {
        assert rs == mf + tf;
        assert !AnyPass(rs) by {
          forall i | 0 <= i < |rs| ensures !IsPass(rs[i]) { }
        }
      } else {
        assert rs == [pass];
        assert AnyPass(rs) by { assert IsPass(rs[0]); }
      }
      HasFailOnAppend(mf + tf, [pass], "model");
      HasFailOnAppend(mf + tf, [pass], "type");
      forall i | 0 <= i < |rs| ensures rs[i].kind != NoExists { }
    } else {
      assert rs[0].kind == NoExists;
    }
  }

  /** The hardware entry is read whenever the interface's slot is present. */
  predicate Ready(checks: seq<XcvrCheck>, design: map<string, InterfaceDesign>, inv: map<string, XcvrSlot>, hw: map<string, XcvrHw>) {
    && PortsDesigned(checks, design)
    && forall i :: 0 <= i < |checks| && NatToDecimal(PrimaryPort(design[checks[i].name])) in inv ==> checks[i].name in hw
  }

  /** The per-interface results of `checks`, in check order. */
  function Run(checks: seq<XcvrCheck>, design: map<string, InterfaceDesign>, inv: map<string, XcvrSlot>, hw: map<string, XcvrHw>,
               modelMatches: (string, string) -> bool, typeMatches: (string, string) -> bool): seq<R>
    requires Ready(checks, design, inv, hw)
  {
    if checks == [] then []
    else
      var c := checks[|checks| - 1];
      Run(checks[..|checks| - 1], design, inv, hw, modelMatches, typeMatches)
        + OneInterface(c, Get(inv, NatToDecimal(PrimaryPort(design[c.name]))), Get(hw, c.name), modelMatches, typeMatches)
  }

  /** `if_port_numbers`: the primary port of every check. */
  function ExpectedPorts(checks: seq<XcvrCheck>, design: map<string, InterfaceDesign>): (ports: set<nat>)
    requires PortsDesigned(checks, design)
    ensures forall p :: p in ports <==> exists i :: 0 <= i < |checks| && PrimaryPort(design[checks[i].name]) == p
  {
    if checks == [] then {}
    else
      var init := checks[..|checks| - 1];
      var ports := ExpectedPorts(init, design) + {PrimaryPort(design[checks[|checks| - 1].name])};
      assert forall i :: 0 <= i < |init| ==> init[i] == checks[i];
      ports
  }

  lemma RunStep(checks: seq<XcvrCheck>, i: nat, design: map<string, InterfaceDesign>, inv: map<string, XcvrSlot>, hw: map<string, XcvrHw>,
                modelMatches: (string, string) -> bool, typeMatches: (string, string) -> bool)
    requires Ready(checks, design, inv, hw) && i < |checks|
    ensures Ready(checks[..i], design, inv, hw)
    ensures Run(checks[..i + 1], design, inv, hw, modelMatches, typeMatches)
              == Run(checks[..i], design, inv, hw, modelMatches, typeMatches)
                 + OneInterface(checks[i], Get(inv, NatToDecimal(PrimaryPort(design[checks[i].name]))), Get(hw, checks[i].name),
                                modelMatches, typeMatches)
    ensures ExpectedPorts(checks[..i + 1], design) == ExpectedPorts(checks[..i], design) + {PrimaryPort(design[checks[i].name])}
  {
    assert checks[..i + 1][..i] == checks[..i];
  }

  /** `eos_test_exclusive_list`: the ports holding a transceiver against the expected ports. */
  function ExclusiveList(expd: set<nat>, inv: map<string, XcvrSlot>): (rs: seq<R>)
    requires SlotKeysDecimal(inv)
    ensures var used := UsedPorts(inv);
            && (HasKind(rs, MissingMembers) <==> expd - used != {})
            && (HasKind(rs, ExtraMembers) <==> used - expd != {})
            && (AnyPass(rs) <==> expd == used)
            && (forall i :: 0 <= i < |rs| ==> rs[i].check == ExclusiveListCheck)
            && (forall i :: 0 <= i < |rs| && rs[i].kind == ExtraMembers ==> rs[i].measurement == Ports(expd, used - expd))
            && (forall i :: 0 <= i < |rs| && rs[i].kind == MissingMembers ==> rs[i].measurement == Ports(expd, expd - used))
  {
    var used := UsedPorts(inv);
    var missing: seq<R> := if expd - used != {} then [MissingOf(ExclusiveListCheck, "transceivers", Ports(expd, expd - used))] else [];
    var extra: seq<R> := if used - expd != {} then [ExtraOf(ExclusiveListCheck, "transceivers", Ports(expd, used - expd))] else [];
    var pass := Passed(ExclusiveListCheck, "", Text("OK: no extra or missing transceivers"));
    SameMembersIffNoDifference(expd, used);
    HasKindAppend(missing, extra, MissingMembers);
    HasKindAppend(missing, extra, ExtraMembers);
    HasKindAppend(missing + extra, [pass], MissingMembers);
    HasKindAppend(missing + extra, [pass], ExtraMembers);
    assert AnyFailures(missing + extra) <==> missing + extra != [] by {
      if missing + extra != [] { assert IsFail((missing + extra)[0]); }
    }
    assert !AnyPass(missing + extra) by {
      forall i | 0 <= i < |missing + extra| ensures !IsPass((missing + extra)[i]) { }
    }
    assert HasKind(missing, MissingMembers) <==> missing != [] by { if missing != [] { assert missing[0].kind == MissingMembers; } }
    assert HasKind(extra, ExtraMembers) <==> extra != [] by { if extra != [] { assert extra[0].kind == ExtraMembers; } }
    assert !HasKind(missing, ExtraMembers) && !HasKind(extra, MissingMembers);
    WithPassUnlessFailed(missing + extra, pass)
  }

  /** `eos_test_transceivers` */
  method TestTransceivers(checks: seq<XcvrCheck>, design: map<string, InterfaceDesign>,
                          inv: map<string, XcvrSlot>, hw: map<string, XcvrHw>,
                          modelMatches: (string, string) -> bool, typeMatches: (string, string) -> bool)
    returns (results: seq<R>)
    requires Ready(checks, design, inv, hw) && SlotKeysDecimal(inv)
    ensures results == Run(checks, design, inv, hw, modelMatches, typeMatches) + ExclusiveList(ExpectedPorts(checks, design), inv)
  {
    results := [];
    var ifPortNumbers: set<nat> := {};
    for i := 0 to |checks|
      invariant results == Run(checks[..i], design, inv, hw, modelMatches, typeMatches)
      invariant ifPortNumbers == ExpectedPorts(checks[..i], design)
    {
      RunStep(checks, i, design, inv, hw, modelMatches, typeMatches);
      var c := checks[i];
      var port := design[c.name].portNumbers[0];
      ifPortNumbers := ifPortNumbers + {port};
      results := results + OneInterface(c, Get(inv, NatToDecimal(port)), Get(hw, c.name), modelMatches, typeMatches);
    }
    assert checks[..|checks|] == checks;
    results := results + ExclusiveList(ifPortNumbers, inv);
  }

  /**
   * With canonical slot keys, a check reports NoExists exactly when no slot is
   * keyed by its port; a port whose slot is present but empty is compared, and
   * is also reported missing by the exclusive list.
   */
  lemma NoExistsIffNoSlot(c: XcvrCheck, port: nat, inv: map<string, XcvrSlot>, hw: map<string, XcvrHw>,
                          modelMatches: (string, string) -> bool, typeMatches: (string, string) -> bool)
    requires NatToDecimal(port) in inv ==> c.name in hw
    requires SlotKeysCanonical(inv)
    ensures SlotKeysDecimal(inv)
    ensures var rs := OneInterface(c, Get(inv, NatToDecimal(port)), Get(hw, c.name), modelMatches, typeMatches);
            HasKind(rs, NoExists) <==> NatToDecimal(port) !in inv
    ensures NatToDecimal(port) in inv && inv[NatToDecimal(port)].modelName == "" ==> port !in UsedPorts(inv)
  {
    UsedPortLookup(inv, port);
    OneInterfaceRules(c, Get(inv, NatToDecimal(port)), Get(hw, c.name), modelMatches, typeMatches);
  }
}
