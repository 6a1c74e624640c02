/**
 * The VLAN evaluator of the `netcam_aioeos.eos` revision. The configured-ports
 * interfaces are merged into `show vlan` first. A VLAN the device lacks is one
 * NoExists failure; otherwise a status other than "active" fails "status", a
 * name that differs (compared strictly) fails "name", and expected members the
 * device lacks, or device members the design does not expect, are each one
 * failure on "interfaces". The Pass, carrying the device's name, status and
 * members, is appended only when none of these failed.
 */
module EosTcVlans {
  import opened Results
  import opened Design
  import opened EosPayloads
  import opened VlanMembers

  datatype Measure =
    | NoValue
    | Text(s: string)
    | Members(expected: set<string>, diff: set<string>)
    | State(name: string, status: string, interfaces: set<string>)

  type R = Result<Measure>

  function ExpectedSet(c: VlanCheck): set<string> {
    set x | x in c.interfaces
  }

  function StatusFail(c: VlanCheck, st: VlanBrief): seq<R> {
    if st.status != "active" then [Mismatch(Check(VlanCheckId(c)), "status", Text(st.status))] else []
  }

  function NameFail(c: VlanCheck, st: VlanBrief): seq<R> {
    if st.name != c.name then [Mismatch(Check(VlanCheckId(c)), "name", Text(st.name))] else []
  }

  function MissingFail(c: VlanCheck, st: VlanBrief): seq<R> {
    var expd := ExpectedSet(c);
    var msrd := MemberSet(st.interfaces, VlanCheckId(c));
    if expd - msrd != {} then [MissingOf(Check(VlanCheckId(c)), "interfaces", Members(expd, expd - msrd))] else []
  }

  function ExtraFail(c: VlanCheck, st: VlanBrief): seq<R> {
    var expd := ExpectedSet(c);
    var msrd := MemberSet(st.interfaces, VlanCheckId(c));
    if msrd - expd != {} then [ExtraOf(Check(VlanCheckId(c)), "interfaces", Members(expd, msrd - expd))] else []
  }

  /** The status and name failures. */
  function FieldFails(c: VlanCheck, st: VlanBrief): seq<R> {
    StatusFail(c, st) + NameFail(c, st)
  }

  /** The membership failures. */
  function MemberFails(c: VlanCheck, st: VlanBrief): seq<R> {
    MissingFail(c, st) + ExtraFail(c, st)
  }

  /** The failures of one VLAN, before the Pass decision. */
  function Fails(c: VlanCheck, st: VlanBrief): seq<R> {
    FieldFails(c, st) + MemberFails(c, st)
  }

  lemma FieldFailsRules(c: VlanCheck, st: VlanBrief)
    ensures var fails := FieldFails(c, st);
            && AllFail(fails) && !HasKind(fails, NoExists) && !HasKind(fails, MissingMembers) && !HasKind(fails, ExtraMembers)
            && (HasFailOn(fails, "status") <==> st.status != "active")
            && (HasFailOn(fails, "name") <==> st.name != c.name)
  {
    var sf := StatusFail(c, st);
    var nf := NameFail(c, st);
    var fails := sf + nf;
    assert forall i :: 0 <= i < |fails| ==> fails[i].kind == FieldMismatch && IsFail(fails[i]);
    HasFailOnAppend(sf, nf, "status");
    HasFailOnAppend(sf, nf, "name");
    if sf != [] { assert sf[0].field == "status"; }
    if nf != [] { assert nf[0].field == "name"; }
  }

  lemma MemberFailsRules(c: VlanCheck, st: VlanBrief)
    ensures var fails := MemberFails(c, st);
            var expd := ExpectedSet(c);
            var msrd := MemberSet(st.interfaces, VlanCheckId(c));
            && AllFail(fails) && !HasKind(fails, NoExists)
            && !HasFailOn(fails, "status") && !HasFailOn(fails, "name")
            && (HasKind(fails, MissingMembers) <==> expd - msrd != {})
            && (HasKind(fails, ExtraMembers) <==> msrd - expd != {})
  {
    var mf := MissingFail(c, st);
    var ef := ExtraFail(c, st);
    var fails := mf + ef;
    assert forall i :: 0 <= i < |fails| ==> fails[i].field == "interfaces" && IsFail(fails[i]) && fails[i].kind != NoExists;
    HasKindAppend(mf, ef, MissingMembers);
    HasKindAppend(mf, ef, ExtraMembers);
    if mf != [] { assert mf[0].kind == MissingMembers; }
    if ef != [] { assert ef[0].kind == ExtraMembers; }
  }

  /** `eos_check_one_vlan` */
  function OneVlan(c: VlanCheck, st: VlanBrief): seq<R> {
    WithPassUnlessFailed(Fails(c, st), Passed(Check(VlanCheckId(c)), "", State(st.name, st.status, MemberSet(st.interfaces, VlanCheckId(c)))))
  }

  /** Each failure comes from its own condition, and all of them are failures. */
  lemma FailsRules(c: VlanCheck, st: VlanBrief)
    ensures var fails := Fails(c, st);
            var expd := ExpectedSet(c);
            var msrd := MemberSet(st.interfaces, VlanCheckId(c));
            && AllFail(fails) && !HasKind(fails, NoExists)
            && (HasFailOn(fails, "status") <==> st.status != "active")
            && (HasFailOn(fails, "name") <==> st.name != c.name)
            && (HasKind(fails, MissingMembers) <==> expd - msrd != {})
            && (HasKind(fails, ExtraMembers) <==> msrd - expd != {})
  {
    var ff := FieldFails(c, st);
    var mf := MemberFails(c, st);
    FieldFailsRules(c, st);
    MemberFailsRules(c, st);
    AllFailAppend(ff, mf);
    HasKindAppend(ff, mf, NoExists);
    HasKindAppend(ff, mf, MissingMembers);
    HasKindAppend(ff, mf, ExtraMembers);
    HasFailOnAppend(ff, mf, "status");
    HasFailOnAppend(ff, mf, "name");
  }

  /**
   * "status" fails exactly when the VLAN is not active, "name" exactly when
   * the names differ, MissingMembers exactly when an expected member is not
   * measured and ExtraMembers exactly when a measured member is not
   * expected; the Pass comes exactly when none of these holds, and is then
   * the only result.
   */
  lemma OneVlanRules(c: VlanCheck, st: VlanBrief)
    ensures var rs := OneVlan(c, st);
            var expd := ExpectedSet(c);
            var msrd := MemberSet(st.interfaces, VlanCheckId(c));
            && (HasFailOn(rs, "status") <==> st.status != "active")
            && (HasFailOn(rs, "name") <==> st.name != c.name)
            && (HasKind(rs, MissingMembers) <==> expd - msrd != {})
            && (HasKind(rs, ExtraMembers) <==> msrd - expd != {})
            && (AnyPass(rs) <==> st.status == "active" && st.name == c.name && expd == msrd)
            && (AnyPass(rs) ==> rs == [Passed(Check(VlanCheckId(c)), "", State(st.name, st.status, msrd))])
            && !HasKind(rs, NoExists)
  {
    var fails := Fails(c, st);
    var rs := OneVlan(c, st);
    var msrd := MemberSet(st.interfaces, VlanCheckId(c));
    FailsRules(c, st);
    AllFailFacts(fails);
    SameMembersIffNoDifference(ExpectedSet(c), msrd);
    if fails != [] {
      assert rs == fails;
    } else {
      assert rs == [Passed(Check(VlanCheckId(c)), "", State(st.name, st.status, msrd))];
      assert IsPass(rs[0]);
    }
  }

  function OneCheck(c: VlanCheck, vlans: map<string, VlanBrief>): seq<R> {
    if VlanCheckId(c) !in vlans then [Absent(Check(VlanCheckId(c)), "", NoValue)]
    else OneVlan(c, vlans[VlanCheckId(c)])
  }

  /** The results of `checks` against the merged table, in check order. */
  function Run(checks: seq<VlanCheck>, vlans: map<string, VlanBrief>): seq<R> {
    if checks == [] then []
    else Run(checks[..|checks| - 1], vlans) + OneCheck(checks[|checks| - 1], vlans)
  }

  lemma RunStep(checks: seq<VlanCheck>, i: nat, vlans: map<string, VlanBrief>)
    requires i < |checks|
    ensures Run(checks[..i + 1], vlans) == Run(checks[..i], vlans) + OneCheck(checks[i], vlans)
  {
    assert checks[..i + 1][..i] == checks[..i];
  }

  /**
   * A VLAN the device lacks is exactly one NoExists; a VLAN it has is never
   * NoExists, and is judged on its merged membership: the configured-ports
   * interfaces count as members.
   */
  lemma OneCheckRules(c: VlanCheck, vlans: map<string, VlanBrief>, configured: map<string, seq<string>>)
    requires configured.Keys <= vlans.Keys
    ensures var rs := OneCheck(c, Merged(vlans, configured));
            && (HasKind(rs, NoExists) <==> VlanCheckId(c) !in vlans)
            && (HasKind(rs, NoExists) ==> rs == [Absent(Check(VlanCheckId(c)), "", NoValue)])
            && (VlanCheckId(c) in configured ==>
                  forall x :: x in configured[VlanCheckId(c)] && x != "Cpu" && !Strings.StartsWith(x, "Peer") ==>
                    x in MemberSet(Merged(vlans, configured)[VlanCheckId(c)].interfaces, VlanCheckId(c)))
  {
    var id := VlanCheckId(c);
    var m := Merged(vlans, configured);
    MergedRules(vlans, configured, id);
    if id in vlans {
      OneVlanRules(c, m[id]);
      if id in configured {
        forall x | x in configured[id] && x != "Cpu" && !Strings.StartsWith(x, "Peer")
          ensures x in MemberSet(m[id].interfaces, id)
        {
          MeasuredMembersRules(m[id].interfaces, id, x);
        }
      }
    } else {
      assert OneCheck(c, m)[0].kind == NoExists;
    }
  }

  /** `eos_check_vlans` */
  method CheckVlans(checks: seq<VlanCheck>, vlans: map<string, VlanBrief>, configured: map<string, seq<string>>)
    returns (results: seq<R>)
    requires configured.Keys <= vlans.Keys
    ensures results == Run(checks, Merged(vlans, configured))
  {
    var devVlans := MergeConfigured(vlans, configured);
    results := [];
    for i := 0 to |checks|
      invariant results == Run(checks[..i], devVlans)
    {
      RunStep(checks, i, devVlans);
      var c := checks[i];
      var vlanId := VlanCheckId(c);
      if vlanId !in devVlans {
        results := results + [Absent(Check(vlanId), "", NoValue)];
        continue;
      }
      results := results + OneVlan(c, devVlans[vlanId]);
    }
    assert checks[..|checks|] == checks;
  }
}
