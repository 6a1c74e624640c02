/**
 * The MLAG executor of the topology checks. The MLAG configuration-sanity
 * result comes first; then each check, named by its port-channel, is looked
 * up by the digits after "Port-Channel" in the device's MLAG table. A missing
 * MLAG is one NoExists failure; otherwise the MLAG's status and its two
 * member interfaces (compared as sorted lists) may each fail, and the Pass,
 * carrying the sorted members, comes only when neither did.
 */
module TopologyMlags {
  import opened Wrappers
  import opened Strings
  import opened Sorting
  import opened Results
  import opened EosPayloads
  import opened Design

  datatype Measure =
    | NoValue
    | Text(s: string)
    | Sanity(sanity: MlagConfigSanity)
    | Sorted(interfaces: seq<string>)
    | Differs(expected: seq<string>, measured: seq<string>)

  type R = Result<Measure>

  /** The MLAG status of a healthy MLAG. */
  const ActiveFull := "active-full"

  /** The prefix of a port-channel name, before the MLAG id. */
  const PortChannel := "Port-Channel"

  /** `eos_test_mlag_system_status` */
  function SystemStatus(s: MlagConfigSanity): (r: R)
    ensures r.check == SystemStatusCheck
    ensures IsPass(r) <==> s.mlagConnected && s.mlagActive && |s.interfaceConfiguration| == 0 && |s.globalConfiguration| == 0
    ensures !IsPass(r) ==> r == Mismatch(SystemStatusCheck, "mlag_status", Sanity(s))
  {
    if s.mlagConnected && s.mlagActive && |s.interfaceConfiguration| == 0 && |s.globalConfiguration| == 0 then
      Passed(SystemStatusCheck, "", Text("OK"))
    else Mismatch(SystemStatusCheck, "mlag_status", Sanity(s))
  }

  /** `_re_mlag_id.match(name).group(1)`, for a name the pattern matches. */
  function MlagId(name: string): (id: string)
    requires MatchDigitsAfter(name, PortChannel).Some?
    ensures IsDecimal(id)
  {
    MatchDigitsAfter(name, PortChannel).value
  }

  /** The port-channel `Port-Channel<n>` is MLAG `n`. */
  lemma MlagIdOfPortChannel(n: nat)
    ensures MatchDigitsAfter(PortChannel + NatToDecimal(n), PortChannel).Some?
    ensures MlagId(PortChannel + NatToDecimal(n)) == NatToDecimal(n)
  {
    PrefixedDecimalMatch(PortChannel, NatToDecimal(n));
  }

  /** The measured members, sorted. */
  function MeasuredInterfaces(st: MlagIfStatus): seq<string> {
    SortStrings([st.localInterface, st.peerInterface])
  }

  /** The expected members, sorted. */
  function ExpectedInterfaces(c: LagCheck): seq<string> {
    SortStrings(MemberNames(c.interfaces))
  }

  /** `eos_test_one_mlag`: the `fails` counter is the number of failures yielded. */
  function OneMlag(c: LagCheck, st: MlagIfStatus): seq<R> {
    Compare(c.name, st.status, ExpectedInterfaces(c), MeasuredInterfaces(st))
  }

  /** The two comparisons of `eos_test_one_mlag`, given the sorted member lists. */
  function Compare(name: string, status: string, expd: seq<string>, msrd: seq<string>): seq<R> {
    var statusFail := if status != ActiveFull then [Mismatch(Check(name), "status", Text(status))] else [];
    var ifsFail := if expd != msrd then [Mismatch(Check(name), "interfaces", Differs(expd, msrd))] else [];
    if |statusFail| + |ifsFail| != 0 then statusFail + ifsFail else [Passed(Check(name), "", Sorted(msrd))]
  }

  /** The comparisons on the sorted lists: each failure comes from its own condition, and the Pass from neither. */
  lemma CompareRules(name: string, status: string, expd: seq<string>, msrd: seq<string>)
    ensures var rs := Compare(name, status, expd, msrd);
            && (HasFailOn(rs, "status") <==> status != ActiveFull)
            && (HasFailOn(rs, "interfaces") <==> expd != msrd)
            && (AnyPass(rs) <==> status == ActiveFull && expd == msrd)
            && (AnyPass(rs) ==> rs == [Passed(Check(name), "", Sorted(msrd))])
            && !HasKind(rs, NoExists)
            && forall i :: 0 <= i < |rs| ==> rs[i].check == Check(name)
  {
    var rs := Compare(name, status, expd, msrd);
    var sf: seq<R> := if status != ActiveFull then [Mismatch(Check(name), "status", Text(status))] else [];
    var f: seq<R> := if expd != msrd then [Mismatch(Check(name), "interfaces", Differs(expd, msrd))] else [];
    HasFailOnAppend(sf, f, "status");
    HasFailOnAppend(sf, f, "interfaces");
    if sf != [] { assert sf[0].field == "status"; }
    if f != [] { assert f[0].field == "interfaces"; }
    if |sf| + |f| != 0 {
      assert rs == sf + f;
      assert !AnyPass(rs) by { forall i | 0 <= i < |rs| ensures !IsPass(rs[i]) { } }
    } else {
      assert IsPass(rs[0]);
    }
  }

  /**
   * "status" fails exactly when the MLAG is not active-full; "interfaces"
   * fails exactly when the expected members are not the local and peer
   * interfaces, in any order and counting repeats; the Pass comes exactly
   * when neither failed and is then the only result.
   */
  lemma OneMlagRules(c: LagCheck, st: MlagIfStatus)
    ensures var rs := OneMlag(c, st);
            && (HasFailOn(rs, "status") <==> st.status != ActiveFull)
            && (HasFailOn(rs, "interfaces") <==> multiset(MemberNames(c.interfaces)) != multiset([st.localInterface, st.peerInterface]))
            && (AnyPass(rs) <==> st.status == ActiveFull && multiset(MemberNames(c.interfaces)) == multiset([st.localInterface, st.peerInterface]))
            && (AnyPass(rs) ==> rs == [Passed(Check(c.name), "", Sorted(MeasuredInterfaces(st)))])
            && !HasKind(rs, NoExists)
            && forall i :: 0 <= i < |rs| ==> rs[i].check == Check(c.name)
  {
    SortStringsEqualIff(MemberNames(c.interfaces), [st.localInterface, st.peerInterface]);
    CompareRules(c.name, st.status, ExpectedInterfaces(c), MeasuredInterfaces(st));
  }

  /** A design listing the two members in either order matches a healthy MLAG. */
  lemma MemberOrderIgnored(c: LagCheck, st: MlagIfStatus)
    requires st.status == ActiveFull
    requires MemberNames(c.interfaces) == [st.peerInterface, st.localInterface]
    ensures OneMlag(c, st) == [Passed(Check(c.name), "", Sorted(MeasuredInterfaces(st)))]
  {
    assert multiset([st.peerInterface, st.localInterface]) == multiset([st.localInterface, st.peerInterface]);
    OneMlagRules(c, st);
  }

  /** The body of `eos_test_one_mlag` after sorting, with its `fails` counter. */
  method CompareSorted(name: string, status: string, expd: seq<string>, msrd: seq<string>) returns (results: seq<R>)
    ensures results == Compare(name, status, expd, msrd)
  {
    var fails := 0;
    results := [];
    if status != ActiveFull {
      results := results + [Mismatch(Check(name), "status", Text(status))];
      fails := fails + 1;
    }
    if expd != msrd {
      results := results + [Mismatch(Check(name), "interfaces", Differs(expd, msrd))];
      fails := fails + 1;
    }
    if fails != 0 {
      return;
    }
    results := [Passed(Check(name), "", Sorted(msrd))];
  }

  /** `eos_test_one_mlag` */
  method TestOneMlag(c: LagCheck, st: MlagIfStatus) returns (results: seq<R>)
    ensures results == OneMlag(c, st)
  {
    var expd := SortStrings(MemberNames(c.interfaces));
    var msrd := SortStrings([st.localInterface, st.peerInterface]);
    results := CompareSorted(c.name, st.status, expd, msrd);
  }

  /** Every check is named `Port-Channel<digits>`: the id pattern must match. */
  predicate Ready(checks: seq<LagCheck>) {
    forall i :: 0 <= i < |checks| ==> MatchDigitsAfter(checks[i].name, PortChannel).Some?
  }

  function OneCheck(c: LagCheck, mlags: map<string, MlagIfStatus>): seq<R>
    requires MatchDigitsAfter(c.name, PortChannel).Some?
  {
    var id := MlagId(c.name);
    if id !in mlags then [Absent(Check(c.name), "", NoValue)] else OneMlag(c, mlags[id])
  }

  /** The per-MLAG results of `checks`, in check order. */
  function Run(checks: seq<LagCheck>, mlags: map<string, MlagIfStatus>): seq<R>
    requires Ready(checks)
  {
    if checks == [] then [] else Run(checks[..|checks| - 1], mlags) + OneCheck(checks[|checks| - 1], mlags)
  }

  lemma RunStep(checks: seq<LagCheck>, i: nat, mlags: map<string, MlagIfStatus>)
    requires Ready(checks) && i < |checks|
    ensures Ready(checks[..i])
    ensures Run(checks[..i + 1], mlags) == Run(checks[..i], mlags) + OneCheck(checks[i], mlags)
  {
    assert checks[..i + 1][..i] == checks[..i];
  }

  /** A check is one NoExists exactly when its MLAG id is not in the table; every result names its check. */
  lemma OneCheckRules(c: LagCheck, mlags: map<string, MlagIfStatus>)
    requires MatchDigitsAfter(c.name, PortChannel).Some?
    ensures HasKind(OneCheck(c, mlags), NoExists) <==> MlagId(c.name) !in mlags
    ensures MlagId(c.name) !in mlags ==> |OneCheck(c, mlags)| == 1
    ensures forall i :: 0 <= i < |OneCheck(c, mlags)| ==> OneCheck(c, mlags)[i].check == Check(c.name)
  {
    if MlagId(c.name) in mlags {
      OneMlagRules(c, mlags[MlagId(c.name)]);
    } else {
      assert OneCheck(c, mlags)[0].kind == NoExists;
    }
  }

  /** No per-MLAG result is about the system-status check. */
  lemma {:induction false} RunNamesChecks(checks: seq<LagCheck>, mlags: map<string, MlagIfStatus>)
    requires Ready(checks)
    ensures forall i :: 0 <= i < |Run(checks, mlags)| ==> Run(checks, mlags)[i].check.Check?
  {
    if checks != [] {
      var init := checks[..|checks| - 1];
      assert Ready(init) by { assert forall i :: 0 <= i < |init| ==> init[i] == checks[i]; }
      RunNamesChecks(init, mlags);
      OneCheckRules(checks[|checks| - 1], mlags);
      var a: seq<R> := Run(init, mlags);
      var b: seq<R> := OneCheck(checks[|checks| - 1], mlags);
      assert Run(checks, mlags) == a + b;
      forall i | 0 <= i < |a + b| ensures (a + b)[i].check.Check? {
        if i < |a| { assert (a + b)[i] == a[i]; } else { assert (a + b)[i] == b[i - |a|]; }
      }
    }
  }

  /** Some check names an MLAG id the table lacks. */
  predicate SomeUnknown(checks: seq<LagCheck>, mlags: map<string, MlagIfStatus>)
    requires Ready(checks)
  {
    exists i :: 0 <= i < |checks| && MlagId(checks[i].name) !in mlags
  }

  lemma SomeUnknownStep(checks: seq<LagCheck>, mlags: map<string, MlagIfStatus>)
    requires Ready(checks) && checks != []
    ensures Ready(checks[..|checks| - 1])
    ensures SomeUnknown(checks, mlags) <==>
              SomeUnknown(checks[..|checks| - 1], mlags) || MlagId(checks[|checks| - 1].name) !in mlags
  {
    var init := checks[..|checks| - 1];
    assert forall i :: 0 <= i < |init| ==> init[i] == checks[i];
    if SomeUnknown(checks, mlags) {
      var i :| 0 <= i < |checks| && MlagId(checks[i].name) !in mlags;
      if i < |init| { assert MlagId(init[i].name) !in mlags; }
    }
  }

  /** Some check yields NoExists exactly when some check's MLAG id is not in the table. */
  lemma {:induction false} RunNoExists(checks: seq<LagCheck>, mlags: map<string, MlagIfStatus>)
    requires Ready(checks)
    ensures HasKind(Run(checks, mlags), NoExists) <==> SomeUnknown(checks, mlags)
  {
    if checks != [] {
      var init := checks[..|checks| - 1];
      var c := checks[|checks| - 1];
      SomeUnknownStep(checks, mlags);
      RunNoExists(init, mlags);
      OneCheckRules(c, mlags);
      HasKindAppend(Run(init, mlags), OneCheck(c, mlags), NoExists);
    }
  }

  /** The per-MLAG loop. */
  method CheckEachMlag(checks: seq<LagCheck>, mlags: map<string, MlagIfStatus>) returns (results: seq<R>)
    requires Ready(checks)
    ensures results == Run(checks, mlags)
  {
    results := [];
    for i := 0 to |checks|
      invariant results == Run(checks[..i], mlags)
    {
      RunStep(checks, i, mlags);
      var c := checks[i];
      var id := MatchDigitsAfter(c.name, PortChannel).value;
      if id !in mlags {
        results := results + [Absent(Check(c.name), "", NoValue)];
        continue;
      }
      var one := TestOneMlag(c, mlags[id]);
      results := results + one;
    }
    assert checks[..|checks|] == checks;
  }

  /** `eos_check_mlags`: the system-status result, then the per-MLAG results. */
  method CheckMlags(checks: seq<LagCheck>, sanity: MlagConfigSanity, mlags: map<string, MlagIfStatus>) returns (results: seq<R>)
    requires Ready(checks)
    ensures results == [SystemStatus(sanity)] + Run(checks, mlags)
  {
    var perMlag := CheckEachMlag(checks, mlags);
    results := [SystemStatus(sanity)] + perMlag;
  }

  /** A status result put ahead of per-check results is the only one about the system-status check. */
  lemma StatusAhead(status: R, run: seq<R>)
    requires status.check == SystemStatusCheck && status.kind != NoExists
    requires forall i :: 0 <= i < |run| ==> run[i].check.Check?
    ensures var rs := [status] + run;
            && rs[0].check == SystemStatusCheck
            && (forall i :: 1 <= i < |rs| ==> rs[i].check.Check?)
            && (HasKind(rs, NoExists) <==> HasKind(run, NoExists))
  {
    var rs := [status] + run;
    assert forall i :: 1 <= i < |rs| ==> rs[i] == run[i - 1];
    HasKindAppend([status], run, NoExists);
    assert !HasKind([status], NoExists) by { assert [status][0].kind != NoExists; }
  }

  /**
   * The stream starts with the system-status result, the only one about the
   * system-status check, and holds a NoExists failure exactly when some
   * check's MLAG id is not in the device's table.
   */
  lemma StreamRules(checks: seq<LagCheck>, sanity: MlagConfigSanity, mlags: map<string, MlagIfStatus>)
    requires Ready(checks)
    ensures var rs := [SystemStatus(sanity)] + Run(checks, mlags);
            && rs[0].check == SystemStatusCheck
            && (forall i :: 1 <= i < |rs| ==> rs[i].check.Check?)
            && (HasKind(rs, NoExists) <==> SomeUnknown(checks, mlags))
  {
    RunNamesChecks(checks, mlags);
    RunNoExists(checks, mlags);
    StatusAhead(SystemStatus(sanity), Run(checks, mlags));
  }
}
