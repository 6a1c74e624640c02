/**
 * The interface evaluator that compares fields itself: the exclusive-list
 * check always comes first, then each check contributes its own results:
 * SVIs are compared with their VLAN entry, Loopbacks only need to exist, and
 * physical interfaces are compared field by field.
 *
 * As written, a physical interface absent from the status data is reported
 * as NoExists and then handed on to `from_cli`, which fails on the missing
 * record and aborts the whole evaluation. `InterfacesAsWritten` models that;
 * `CheckInterfaces` is the evaluator with the evidently intended `continue`.
 */
module EosTcInterfaces {
  import opened Wrappers
  import opened Strings
  import opened Results
  import opened EosPayloads
  import opened Design

  /** The measurement a result carries. */
  datatype Measure =
    | NoValue
    | Text(s: string)
    | Flag(b: bool)
    | Field(v: FieldValue)
    | State(state: IfState)                              // `measurement.dict()` of a physical port
    | Expected(expected: IfState)                        // `check.expected_results.dict()`
    | IpRecord(record: IpIfBrief)                        // the raw `show ip interface brief` entry
    | Members(expectedNames: set<string>, names: set<string>)

  type R = Result<Measure>

  const OkMessage := "OK: no extra or missing interfaces"

  /** `eos_check_interfaces_list` */
  function InterfacesList(expd: set<string>, msrd: set<string>): (rs: seq<R>)
    ensures HasKind(rs, MissingMembers) <==> expd - msrd != {}
    ensures HasKind(rs, ExtraMembers) <==> msrd - expd != {}
    ensures AnyPass(rs) <==> expd == msrd
    ensures forall i :: 0 <= i < |rs| && rs[i].kind == MissingMembers ==> rs[i].measurement == Members(expd, expd - msrd)
    ensures forall i :: 0 <= i < |rs| && rs[i].kind == ExtraMembers ==> rs[i].measurement == Members(expd, msrd - expd)
    ensures forall i :: 0 <= i < |rs| ==> rs[i].check == ExclusiveListCheck
  {
    var missing := if expd - msrd != {} then [MissingOf(ExclusiveListCheck, "interfaces", Members(expd, expd - msrd))] else [];
    var extra := if msrd - expd != {} then [ExtraOf(ExclusiveListCheck, "interfaces", Members(expd, msrd - expd))] else [];
    var fails := missing + extra;
    assert HasKind(missing, MissingMembers) <==> missing != [] by { if missing != [] { assert missing[0].kind == MissingMembers; } }
    assert !HasKind(missing, ExtraMembers) by { if missing != [] { assert missing[0].kind == MissingMembers; } }
    assert HasKind(extra, ExtraMembers) <==> extra != [] by { if extra != [] { assert extra[0].kind == ExtraMembers; } }
    assert !HasKind(extra, MissingMembers) by { if extra != [] { assert extra[0].kind == ExtraMembers; } }
    assert AllFail(missing) && AllFail(extra);
    HasKindAppend(missing, extra, MissingMembers);
    HasKindAppend(missing, extra, ExtraMembers);
    AllFailAppend(missing, extra);
    AllFailFacts(fails);
    SameMembersIffNoDifference(expd, msrd);
    var pass := Passed(ExclusiveListCheck, "", Text(OkMessage));
    var rs := WithPassUnlessFailed(fails, pass);
    assert [pass][0].kind == Plain;
    HasKindAppend(fails, [pass], MissingMembers);
    HasKindAppend(fails, [pass], ExtraMembers);
    rs
  }

  /** `EosInterfaceMeasurement.from_cli` */
  function FromCli(s: IfStatus): (m: IfState)
    requires SpeedConvertible(s)
    ensures m.used <==> s.linkStatus != "disabled"
    ensures m.operUp <==> s.lineProtocolStatus == "up"
    ensures m.desc == s.description
    ensures m.speed * BitsPerMbps == s.bandwidth
  {
    IfState(s.linkStatus != "disabled", s.lineProtocolStatus == "up", s.description, s.bandwidth / BitsPerMbps)
  }

  /** The failures the field loop appends after visiting `fields`. */
  function FieldFailures(c: InterfaceCheck, m: IfState, fields: seq<string>): seq<R>
    requires AreFields(fields)
  {
    if fields == [] then []
    else
      var f := fields[|fields| - 1];
      FieldFailures(c, m, fields[..|fields| - 1])
        + (if FailsUnlessFalsy(c.expected, m, f) then [Mismatch(Check(c.name), f, Field(FieldOf(m, f)))] else [])
  }

  /** The field loop appends only failures, and one on `field` exactly when that field fails. */
  lemma {:induction false} FieldFailuresFacts(c: InterfaceCheck, m: IfState, fields: seq<string>, field: string)
    requires AreFields(fields)
    ensures AllFail(FieldFailures(c, m, fields))
    ensures HasFailOn(FieldFailures(c, m, fields), field) <==>
              field in InterfaceFields && field in fields && FailsUnlessFalsy(c.expected, m, field)
  {
    if fields != [] {
      var f := fields[|fields| - 1];
      var init := fields[..|fields| - 1];
      FieldFailuresFacts(c, m, init, field);
      var tail := if FailsUnlessFalsy(c.expected, m, f) then [Mismatch(Check(c.name), f, Field(FieldOf(m, f)))] else [];
      HasFailOnAppend(FieldFailures(c, m, init), tail, field);
      AllFailAppend(FieldFailures(c, m, init), tail);
      assert fields == init + [f];
      assert field in fields <==> field in init || field == f;
      assert f in InterfaceFields;
      if tail != [] { assert HasFailOn(tail, field) <==> field == f by { assert tail[0].field == f; } }
    }
  }

  /** The `used` comparison: one failure when expected and measured differ. */
  function UsedFailure(c: InterfaceCheck, m: IfState): seq<R> {
    if c.expected.used != m.used then [Mismatch(Check(c.name), "used", Flag(m.used))] else []
  }

  /** `eos_test_one_interface` */
  function OneInterface(c: InterfaceCheck, s: IfStatus): seq<R>
    requires SpeedConvertible(s)
  {
    var m := FromCli(s);
    if c.flags.isReserved then [Logged(Check(c.name), "is_reserved", State(m))]
    else if !c.expected.used then UsedFailure(c, m)
    else WithPassUnlessFailed(UsedFailure(c, m) + FieldFailures(c, m, InterfaceFields), Passed(Check(c.name), "", State(m)))
  }

  /** `eos_test_one_interface`, with its loop over the three compared fields. */
  method TestOneInterface(c: InterfaceCheck, s: IfStatus) returns (results: seq<R>)
    requires SpeedConvertible(s)
    ensures results == OneInterface(c, s)
  {
    var m := FromCli(s);
    if c.flags.isReserved {
      return [Logged(Check(c.name), "is_reserved", State(m))];
    }
    results := [];
    if c.expected.used != m.used {
      results := results + [Mismatch(Check(c.name), "used", Flag(m.used))];
    }
    if !c.expected.used {
      return;
    }
    for i := 0 to |InterfaceFields|
      invariant results == UsedFailure(c, m) + FieldFailures(c, m, InterfaceFields[..i])
    {
      var field := InterfaceFields[i];
      assert InterfaceFields[..i + 1][..i] == InterfaceFields[..i];
      var expected := FieldOf(c.expected, field);
      if !Truthy(expected) {
        continue;
      }
      var measured := FieldOf(m, field);
      if expected == measured {
        continue;
      }
      results := results + [Mismatch(Check(c.name), field, Field(measured))];
    }
    assert InterfaceFields[..|InterfaceFields|] == InterfaceFields;
    if !AnyFailures(results) {
      results := results + [Passed(Check(c.name), "", State(m))];
    }
  }

  /** A reserved interface yields exactly one Info result. */
  lemma ReservedOnlyInfo(c: InterfaceCheck, s: IfStatus)
    requires SpeedConvertible(s) && c.flags.isReserved
    ensures var rs := OneInterface(c, s); |rs| == 1 && rs[0].status == Info && rs[0].field == "is_reserved"
  {
  }

  /**
   * A used mismatch is one Fail "used"; when the interface is expected unused
   * nothing else is compared and no Pass is produced.
   */
  lemma UsedRule(c: InterfaceCheck, s: IfStatus)
    requires SpeedConvertible(s) && !c.flags.isReserved
    ensures var rs := OneInterface(c, s);
            && (HasFailOn(rs, "used") <==> c.expected.used != (s.linkStatus != "disabled"))
            && (!c.expected.used ==> !AnyPass(rs) && |rs| <= 1)
  {
    var m := FromCli(s);
    var rs := OneInterface(c, s);
    var u := UsedFailure(c, m);
    assert HasFailOn(u, "used") <==> c.expected.used != m.used by {
      if u != [] { assert u[0].field == "used"; }
    }
    assert AllFail(u);
    AllFailFacts(u);
    if c.expected.used {
      var fails := u + FieldFailures(c, m, InterfaceFields);
      FieldFailuresFacts(c, m, InterfaceFields, "used");
      HasFailOnAppend(u, FieldFailures(c, m, InterfaceFields), "used");
      var pass := Passed(Check(c.name), "", State(m));
      if !AnyFailures(fails) {
        HasFailOnAppend(fails, [pass], "used");
      }
    }
  }

  /**
   * For an interface expected in use: each of oper_up, desc and speed fails
   * exactly when its expected value is truthy and differs from the measured
   * one, and a Pass is appended exactly when nothing failed.
   */
  lemma FieldRule(c: InterfaceCheck, s: IfStatus, field: string)
    requires SpeedConvertible(s) && !c.flags.isReserved && c.expected.used
    requires field in InterfaceFields
    ensures var rs := OneInterface(c, s);
            && (HasFailOn(rs, field) <==> FailsUnlessFalsy(c.expected, FromCli(s), field))
            && (AnyPass(rs) <==> !AnyFailures(rs))
  {
    var m := FromCli(s);
    var u := UsedFailure(c, m);
    var ff := FieldFailures(c, m, InterfaceFields);
    FieldFailuresFacts(c, m, InterfaceFields, field);
    assert !HasFailOn(u, field) by { if u != [] { assert u[0].field == "used"; } }
    HasFailOnAppend(u, ff, field);
    assert AllFail(u);
    AllFailAppend(u, ff);
    AllFailFacts(u + ff);
    var pass := Passed(Check(c.name), "", State(m));
    if !AnyFailures(u + ff) {
      HasFailOnAppend(u + ff, [pass], field);
    }
  }

  /** `eos_check_one_svi`: the VLAN name against the description, the VLAN status against oper_up. */
  function OneSvi(c: InterfaceCheck, v: VlanBrief): (rs: seq<R>)
    ensures HasFailOn(rs, "desc") <==> v.name != c.expected.desc
    ensures HasFailOn(rs, "oper_up") <==> c.expected.operUp != (v.status == "active")
    ensures AnyPass(rs) <==> v.name == c.expected.desc && c.expected.operUp == (v.status == "active")
    ensures AnyPass(rs) ==> rs == [Passed(Check(c.name), "", Expected(c.expected))]
  {
    var descFail := if v.name != c.expected.desc then [Mismatch(Check(c.name), "desc", Text(v.name))] else [];
    var operFail := if c.expected.operUp != (v.status == "active") then [Mismatch(Check(c.name), "oper_up", Text(v.status))] else [];
    var fails := descFail + operFail;
    assert HasFailOn(descFail, "desc") <==> descFail != [] by { if descFail != [] { assert descFail[0].field == "desc"; } }
    assert !HasFailOn(descFail, "oper_up") by { if descFail != [] { assert descFail[0].field == "desc"; } }
    assert HasFailOn(operFail, "oper_up") <==> operFail != [] by { if operFail != [] { assert operFail[0].field == "oper_up"; } }
    assert !HasFailOn(operFail, "desc") by { if operFail != [] { assert operFail[0].field == "oper_up"; } }
    HasFailOnAppend(descFail, operFail, "desc");
    HasFailOnAppend(descFail, operFail, "oper_up");
    assert AllFail(descFail) && AllFail(operFail);
    AllFailAppend(descFail, operFail);
    AllFailFacts(fails);
    var pass := Passed(Check(c.name), "", Expected(c.expected));
    assert fails == [] ==> fails + [pass] == [pass];
    assert fails != [] ==> HasFailOn(fails, "desc") || HasFailOn(fails, "oper_up") by {
      if descFail == [] { assert fails == operFail; }
    }
    WithPassUnlessFailed(fails, pass)
  }

  /** A physical interface name: neither `Vlan<N>` nor a Loopback. */
  predicate IsPhysical(name: string) {
    MatchDigitsAfter(name, "Vlan").None? && !StartsWith(name, "Loopback")
  }

  /** What one check contributes, with NoExists ending the check for a missing physical interface. */
  function OneCheck(c: InterfaceCheck, statuses: map<string, IfStatus>, vlans: map<string, VlanBrief>,
                    ipIfs: map<string, IpIfBrief>): seq<R>
    requires c.name in statuses ==> SpeedConvertible(statuses[c.name])
  {
    match MatchDigitsAfter(c.name, "Vlan")
    case Some(vlanId) =>
      if vlanId !in vlans then [Absent(Check(c.name), "", NoValue)] else OneSvi(c, vlans[vlanId])
    case None =>
      if StartsWith(c.name, "Loopback") then
        if c.name !in ipIfs then [Absent(Check(c.name), "", NoValue)]
        else [Passed(Check(c.name), "", IpRecord(ipIfs[c.name]))]
      else if c.name !in statuses then [Absent(Check(c.name), "", NoValue)]
      else OneInterface(c, statuses[c.name])
  }

  /** The per-check results of `checks`, in check order. */
  function Run(checks: seq<InterfaceCheck>, statuses: map<string, IfStatus>, vlans: map<string, VlanBrief>,
               ipIfs: map<string, IpIfBrief>): seq<R>
    requires CheckedSpeedsConvertible(checks, statuses)
  {
    if checks == [] then []
    else Run(checks[..|checks| - 1], statuses, vlans, ipIfs) + OneCheck(checks[|checks| - 1], statuses, vlans, ipIfs)
  }

  lemma RunStep(checks: seq<InterfaceCheck>, i: nat, statuses: map<string, IfStatus>, vlans: map<string, VlanBrief>,
                ipIfs: map<string, IpIfBrief>)
    requires CheckedSpeedsConvertible(checks, statuses) && i < |checks|
    ensures Run(checks[..i + 1], statuses, vlans, ipIfs) == Run(checks[..i], statuses, vlans, ipIfs) + OneCheck(checks[i], statuses, vlans, ipIfs)
  {
    assert checks[..i + 1][..i] == checks[..i];
  }

  /** One check of the loop in `eos_tc_interfaces`; a present physical interface runs the field loop. */
  method CheckOne(c: InterfaceCheck, statuses: map<string, IfStatus>, vlans: map<string, VlanBrief>,
                  ipIfs: map<string, IpIfBrief>) returns (one: seq<R>)
    requires c.name in statuses ==> SpeedConvertible(statuses[c.name])
    ensures one == OneCheck(c, statuses, vlans, ipIfs)
  {
    if IsPhysical(c.name) && c.name in statuses {
      one := TestOneInterface(c, statuses[c.name]);
    } else {
      one := OneCheck(c, statuses, vlans, ipIfs);
    }
  }

  /** `eos_tc_interfaces` with a `continue` after the NoExists of a missing physical interface. */
  method CheckInterfaces(checks: seq<InterfaceCheck>, statuses: map<string, IfStatus>,
                         vlans: map<string, VlanBrief>, ipIfs: map<string, IpIfBrief>)
    returns (results: seq<R>)
    requires CheckedSpeedsConvertible(checks, statuses)
    ensures results == InterfacesList(InterfaceNames(checks), statuses.Keys + ipIfs.Keys) + Run(checks, statuses, vlans, ipIfs)
  {
    var perCheck: seq<R> := [];
    for i := 0 to |checks|
      invariant perCheck == Run(checks[..i], statuses, vlans, ipIfs)
    {
      var one := CheckOne(checks[i], statuses, vlans, ipIfs);
      RunStep(checks, i, statuses, vlans, ipIfs);
      perCheck := perCheck + one;
    }
    results := InterfacesList(InterfaceNames(checks), statuses.Keys + ipIfs.Keys) + perCheck;
    assert checks[..|checks|] == checks;
  }

  /** The outcome of the evaluation as written: its results, or the check at which it aborts. */
  datatype Outcome = Completed(results: seq<R>) | Aborted(check: string)

  /** The per-check loop as written: a missing physical interface aborts the evaluation after its NoExists. */
  function RunAsWritten(checks: seq<InterfaceCheck>, statuses: map<string, IfStatus>, vlans: map<string, VlanBrief>,
                        ipIfs: map<string, IpIfBrief>): Outcome
    requires CheckedSpeedsConvertible(checks, statuses)
  {
    if checks == [] then Completed([])
    else
      var c := checks[|checks| - 1];
      match RunAsWritten(checks[..|checks| - 1], statuses, vlans, ipIfs)
      case Aborted(name) => Aborted(name)
      case Completed(rs) =>
        if IsPhysical(c.name) && c.name !in statuses then Aborted(c.name)
        else Completed(rs + OneCheck(c, statuses, vlans, ipIfs))
  }

  /** `eos_tc_interfaces` as written. */
  function InterfacesAsWritten(checks: seq<InterfaceCheck>, statuses: map<string, IfStatus>,
                               vlans: map<string, VlanBrief>, ipIfs: map<string, IpIfBrief>): Outcome
    requires CheckedSpeedsConvertible(checks, statuses)
  {
    match RunAsWritten(checks, statuses, vlans, ipIfs)
    case Aborted(name) => Aborted(name)
    case Completed(rs) => Completed(InterfacesList(InterfaceNames(checks), statuses.Keys + ipIfs.Keys) + rs)
  }

  predicate SomePhysicalMissing(checks: seq<InterfaceCheck>, statuses: map<string, IfStatus>) {
    exists i :: 0 <= i < |checks| && IsPhysical(checks[i].name) && checks[i].name !in statuses
  }

  /**
   * As written, the evaluation aborts exactly when some physical interface is
   * missing from the status data; otherwise it agrees with `CheckInterfaces`.
   */
  lemma {:induction false} AsWrittenAbortsIffPhysicalMissing(checks: seq<InterfaceCheck>, statuses: map<string, IfStatus>,
                                                           vlans: map<string, VlanBrief>, ipIfs: map<string, IpIfBrief>)
    requires CheckedSpeedsConvertible(checks, statuses)
    ensures RunAsWritten(checks, statuses, vlans, ipIfs).Aborted? <==> SomePhysicalMissing(checks, statuses)
    ensures !SomePhysicalMissing(checks, statuses) ==>
              RunAsWritten(checks, statuses, vlans, ipIfs) == Completed(Run(checks, statuses, vlans, ipIfs))
  {
    if checks != [] {
      var init := checks[..|checks| - 1];
      var c := checks[|checks| - 1];
      AsWrittenAbortsIffPhysicalMissing(init, statuses, vlans, ipIfs);
      if SomePhysicalMissing(init, statuses) {
        var i :| 0 <= i < |init| && IsPhysical(init[i].name) && init[i].name !in statuses;
        assert checks[i] == init[i];
      }
      if SomePhysicalMissing(checks, statuses) {
        var i :| 0 <= i < |checks| && IsPhysical(checks[i].name) && checks[i].name !in statuses;
        if i < |init| { assert init[i] == checks[i]; }
      }
    }
  }

  /** The smallest input that shows the abort: one physical interface the device does not report. */
  lemma AsWrittenAbortsOnMissingPort()
    ensures var c := InterfaceCheck("Ethernet1", IfState(true, true, "", 0), IfFlags(false, false));
            InterfacesAsWritten([c], map[], map[], map[]) == Aborted("Ethernet1")
  {
    var c := InterfaceCheck("Ethernet1", IfState(true, true, "", 0), IfFlags(false, false));
    assert "Ethernet1"[..4][0] == 'E';
    assert "Ethernet1"[..8][0] == 'E';
    assert IsPhysical("Ethernet1");
    assert [c][..0] == [];
  }

  /** Corrected: a missing physical interface yields exactly one NoExists and the evaluation goes on. */
  lemma MissingPortIsNoExists(c: InterfaceCheck, statuses: map<string, IfStatus>, vlans: map<string, VlanBrief>,
                              ipIfs: map<string, IpIfBrief>)
    requires IsPhysical(c.name) && c.name !in statuses
    ensures OneCheck(c, statuses, vlans, ipIfs) == [Absent(Check(c.name), "", NoValue)]
  {
  }

  /** A Loopback present in the IP data yields exactly one Pass; an absent one exactly one NoExists. */
  lemma LoopbackRule(c: InterfaceCheck, statuses: map<string, IfStatus>, vlans: map<string, VlanBrief>,
                     ipIfs: map<string, IpIfBrief>)
    requires c.name in statuses ==> SpeedConvertible(statuses[c.name])
    requires StartsWith(c.name, "Loopback")
    ensures var rs := OneCheck(c, statuses, vlans, ipIfs);
            |rs| == 1 && (rs[0].status == Pass <==> c.name in ipIfs) && (rs[0].kind == NoExists <==> c.name !in ipIfs)
  {
    assert c.name[..4] == "Loop";
    assert MatchDigitsAfter(c.name, "Vlan").None?;
  }
}
