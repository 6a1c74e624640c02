/**
 * The transceiver test of the `netcam_aio_devices` generation: each test's
 * primary port is looked up in the inventory slots and the interface in the
 * hardware table, and the per-interface results are yielded in test order.
 * This generation has no exclusive list and uses its own matchers.
 */
module AioTransceivers {
  import opened Wrappers
  import opened Strings
  import opened Results
  import opened EosPayloads
  import opened Design
  import opened AioXcvrMatching

  datatype Measure =
    | NoValue
    | Text(s: string)
    | Found(model: string, xcvrType: string)

  type R = Result<Measure>

  /** `eos_test_one_interface`: the `failed` counter is the number of mismatches yielded. */
  function OneInterface(c: XcvrCheck, slot: Option<XcvrSlot>, hw: Option<XcvrHw>): seq<R>
    requires slot.Some? ==> hw.Some?
  {
    match slot
    case None => [Absent(Check(c.name), "", NoValue)]
    case Some(s) =>
      var xcvrType := hw.value.transceiverType;
      var modelFail := if !ModelMatches(c.model, s.modelName) then [Mismatch(Check(c.name), "model", Text(s.modelName))] else [];
      var typeFail := if !TypeMatches(c.xcvrType, xcvrType) then [Mismatch(Check(c.name), "type", Text(xcvrType))] else [];
      if |modelFail| + |typeFail| != 0 then modelFail + typeFail
      else [Passed(Check(c.name), "", Found(s.modelName, xcvrType))]
  }

  /**
   * A missing slot is one NoExists and nothing else; a present slot is
   * compared: model and type each fail exactly when the matcher rejects the
   * measured value, model first, and the one Pass comes exactly when neither
   * failed.
   */
  lemma OneInterfaceRules(c: XcvrCheck, slot: Option<XcvrSlot>, hw: Option<XcvrHw>)
    requires slot.Some? ==> hw.Some?
    ensures var rs := OneInterface(c, slot, hw);
            && (HasKind(rs, NoExists) <==> slot.None?)
            && (slot.None? ==> |rs| == 1)
            && (slot.Some? ==>
                  var model := slot.value.modelName;
                  var xcvrType := hw.value.transceiverType;
                  && (HasFailOn(rs, "model") <==> !ModelMatches(c.model, model))
                  && (HasFailOn(rs, "type") <==> !TypeMatches(c.xcvrType, xcvrType))
                  && (HasFailOn(rs, "model") ==> rs[0].field == "model")
                  && (AnyPass(rs) <==> ModelMatches(c.model, model) && TypeMatches(c.xcvrType, xcvrType))
                  && (AnyPass(rs) ==> rs == [Passed(Check(c.name), "", Found(model, xcvrType))]))
  {
    var rs := OneInterface(c, slot, hw);
    if slot.Some? {
      var model := slot.value.modelName;
      var xcvrType := hw.value.transceiverType;
      var mf: seq<R> := if !ModelMatches(c.model, model) then [Mismatch(Check(c.name), "model", Text(model))] else [];
      var tf: seq<R> := if !TypeMatches(c.xcvrType, xcvrType) then [Mismatch(Check(c.name), "type", Text(xcvrType))] else [];
      HasFailOnAppend(mf, tf, "model");
      HasFailOnAppend(mf, tf, "type");
      assert HasFailOn(mf, "model") <==> mf != [] by { if mf != [] { assert mf[0].field == "model"; } }
      assert !HasFailOn(mf, "type") by { if mf != [] { assert mf[0].field == "model"; } }
      assert HasFailOn(tf, "type") <==> tf != [] by { if tf != [] { assert tf[0].field == "type"; } }
      assert !HasFailOn(tf, "model") by { if tf != [] { assert tf[0].field == "type"; } }
      var pass := Passed(Check(c.name), "", Found(model, xcvrType));
      assert |mf| + |tf| == 0 <==> ModelMatches(c.model, model) && TypeMatches(c.xcvrType, xcvrType);
      if |mf| + |tf| != 0 {
        assert rs == mf + tf;
        assert !AnyPass(rs) by {
          forall i | 0 <= i < |rs| ensures !IsPass(rs[i]) { }
        }
      } else {
        assert rs == [pass];
        assert IsPass(rs[0]);
      }
      forall i | 0 <= i < |rs| ensures rs[i].kind != NoExists { }
    } else {
      assert rs[0].kind == NoExists;
    }
  }

  /** An Arista-branded optic of the expected model and with the Arista name of the expected type passes. */
  lemma AristaOpticPasses(c: XcvrCheck, base: string, aristaType: string)
    requires !StartsWith(c.model, AocPrefix)
    requires forall j :: !OccursAt(base, AristaSuffix, j)
    requires c.model == base
    requires aristaType in TypeAlias && c.xcvrType == TypeAlias[aristaType]
    ensures OneInterface(c, Some(XcvrSlot(base + AristaSuffix)), Some(XcvrHw(aristaType)))
              == [Passed(Check(c.name), "", Found(base + AristaSuffix, aristaType))]
  {
    AristaSuffixIgnored(c.model, base);
    AristaTypeRule(aristaType);
  }

  /** The hardware entry is read whenever the interface's slot is present. */
  predicate Ready(checks: seq<XcvrCheck>, design: map<string, InterfaceDesign>, inv: map<string, XcvrSlot>, hw: map<string, XcvrHw>) {
    && PortsDesigned(checks, design)
    && forall i :: 0 <= i < |checks| && NatToDecimal(PrimaryPort(design[checks[i].name])) in inv ==> checks[i].name in hw
  }

  /** The results of `checks`, in check order. */
  function Run(checks: seq<XcvrCheck>, design: map<string, InterfaceDesign>, inv: map<string, XcvrSlot>, hw: map<string, XcvrHw>): seq<R>
    requires Ready(checks, design, inv, hw)
  {
    if checks == [] then []
    else
      var c := checks[|checks| - 1];
      Run(checks[..|checks| - 1], design, inv, hw) + OneInterface(c, Get(inv, NatToDecimal(PrimaryPort(design[c.name]))), Get(hw, c.name))
  }

  lemma RunStep(checks: seq<XcvrCheck>, i: nat, design: map<string, InterfaceDesign>, inv: map<string, XcvrSlot>, hw: map<string, XcvrHw>)
    requires Ready(checks, design, inv, hw) && i < |checks|
    ensures Ready(checks[..i], design, inv, hw)
    ensures Run(checks[..i + 1], design, inv, hw)
              == Run(checks[..i], design, inv, hw)
                 + OneInterface(checks[i], Get(inv, NatToDecimal(PrimaryPort(design[checks[i].name]))), Get(hw, checks[i].name))
  {
    assert checks[..i + 1][..i] == checks[..i];
  }

  /** One check's results are never empty, and hold a NoExists exactly when its slot is absent. */
  lemma OneInterfaceShape(c: XcvrCheck, slot: Option<XcvrSlot>, hw: Option<XcvrHw>)
    requires slot.Some? ==> hw.Some?
    ensures |OneInterface(c, slot, hw)| >= 1
    ensures HasKind(OneInterface(c, slot, hw), NoExists) <==> slot.None?
  {
    OneInterfaceRules(c, slot, hw);
  }

  /** The inventory has no slot for the check's primary port. */
  predicate SlotMissing(c: XcvrCheck, design: map<string, InterfaceDesign>, inv: map<string, XcvrSlot>)
    requires c.name in design && |design[c.name].portNumbers| > 0
  {
    NatToDecimal(PrimaryPort(design[c.name])) !in inv
  }

  /** Each check contributes at least one result, and NoExists results are exactly those of checks whose slot is absent. */
  lemma {:induction false} RunShape(checks: seq<XcvrCheck>, design: map<string, InterfaceDesign>, inv: map<string, XcvrSlot>, hw: map<string, XcvrHw>)
    requires Ready(checks, design, inv, hw)
    ensures |Run(checks, design, inv, hw)| >= |checks|
    ensures HasKind(Run(checks, design, inv, hw), NoExists) <==>
              exists i :: 0 <= i < |checks| && SlotMissing(checks[i], design, inv)
  {
    if checks != [] {
      var init := checks[..|checks| - 1];
      var c := checks[|checks| - 1];
      assert Ready(init, design, inv, hw) by {
        assert forall i :: 0 <= i < |init| ==> init[i] == checks[i];
      }
      RunShape(init, design, inv, hw);
      var slot := Get(inv, NatToDecimal(PrimaryPort(design[c.name])));
      OneInterfaceShape(c, slot, Get(hw, c.name));
      HasKindAppend(Run(init, design, inv, hw), OneInterface(c, slot, Get(hw, c.name)), NoExists);
      SomeSlotMissingStep(checks, design, inv);
    }
  }

  /** Some check's slot is missing. */
  predicate SomeSlotMissing(checks: seq<XcvrCheck>, design: map<string, InterfaceDesign>, inv: map<string, XcvrSlot>)
    requires PortsDesigned(checks, design)
  {
    exists i :: 0 <= i < |checks| && SlotMissing(checks[i], design, inv)
  }

  /** A slot is missing for some check exactly when it is for some earlier check or for the last one. */
  lemma SomeSlotMissingStep(checks: seq<XcvrCheck>, design: map<string, InterfaceDesign>, inv: map<string, XcvrSlot>)
    requires checks != [] && PortsDesigned(checks, design)
    ensures PortsDesigned(checks[..|checks| - 1], design)
    ensures SomeSlotMissing(checks, design, inv) <==>
              SomeSlotMissing(checks[..|checks| - 1], design, inv) || SlotMissing(checks[|checks| - 1], design, inv)
  {
    var init := checks[..|checks| - 1];
    assert forall i :: 0 <= i < |init| ==> init[i] == checks[i];
    if SomeSlotMissing(checks, design, inv) {
      var i :| 0 <= i < |checks| && SlotMissing(checks[i], design, inv);
      if i < |init| { assert init[i] == checks[i]; }
    }
    if SomeSlotMissing(init, design, inv) {
      var i :| 0 <= i < |init| && SlotMissing(init[i], design, inv);
      assert init[i] == checks[i];
    }
  }

  /** `eos_test_one_interface`, with its `failed` counter. */
  method TestOneInterface(c: XcvrCheck, slot: Option<XcvrSlot>, hw: Option<XcvrHw>) returns (results: seq<R>)
    requires slot.Some? ==> hw.Some?
    ensures results == OneInterface(c, slot, hw)
  {
    if slot.None? {
      return [Absent(Check(c.name), "", NoValue)];
    }
    results := [];
    var failed := 0;
    var model := slot.value.modelName;
    if !ModelMatches(c.model, model) {
      results := results + [Mismatch(Check(c.name), "model", Text(model))];
      failed := failed + 1;
    }
    var xcvrType := hw.value.transceiverType;
    if !TypeMatches(c.xcvrType, xcvrType) {
      results := results + [Mismatch(Check(c.name), "type", Text(xcvrType))];
      failed := failed + 1;
    }
    if failed != 0 {
      return;
    }
    results := [Passed(Check(c.name), "", Found(model, xcvrType))];
  }

  /** `eos_test_transceivers`: every test's results, yielded as they are produced. */
  method TestTransceivers(checks: seq<XcvrCheck>, design: map<string, InterfaceDesign>,
                          inv: map<string, XcvrSlot>, hw: map<string, XcvrHw>)
    returns (results: seq<R>)
    requires Ready(checks, design, inv, hw)
    ensures results == Run(checks, design, inv, hw)
  {
    results := [];
    for i := 0 to |checks|
      invariant results == Run(checks[..i], design, inv, hw)
    {
      RunStep(checks, i, design, inv, hw);
      var c := checks[i];
      var port := design[c.name].portNumbers[0];
      var one := TestOneInterface(c, Get(inv, NatToDecimal(port)), Get(hw, c.name));
      results := results + one;
    }
    assert checks[..|checks|] == checks;
  }
}
