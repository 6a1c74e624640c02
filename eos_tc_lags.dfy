/**
 * The LAG generator of the `netcam_aioeos.eos` revision. A port-channel the
 * device lacks yields one NoExists failure. Otherwise the members that are not
 * bundled are reported in one MissingMembers failure, expected members the
 * device lacks in another and device members the design does not expect in
 * an ExtraMembers failure; the Pass, carrying the device's members, is yielded
 * only when none of these failed.
 */
module EosTcLags {
  import opened Results
  import opened Design
  import opened Lacp

  datatype Measure =
    | NoValue
    | Unbundled(expected: set<string>, missing: seq<string>)
    | Members(expected: set<string>, diff: set<string>)
    | Interfaces(names: set<string>)

  type R = Result<Measure>

  function ExpectedNames(c: LagCheck): set<string> {
    set n | n in MemberNames(c.interfaces)
  }

  function MeasuredNames(members: seq<LacpMember>): set<string> {
    set n | n in Names(members)
  }

  /** The failure for the non-bundled groups left after the pop, if any. */
  function NonBundled(c: LagCheck, members: seq<LacpMember>): seq<R> {
    var rest := Pop(GroupAll(members), Bundled);
    if rest != [] then [MissingOf(Check(c.name), "", Unbundled(ExpectedNames(c), Chain(rest)))] else []
  }

  function MissingIfs(c: LagCheck, members: seq<LacpMember>): seq<R> {
    var expd := ExpectedNames(c);
    var msrd := MeasuredNames(members);
    if expd - msrd != {} then [MissingOf(Check(c.name), "interfaces", Members(expd, expd - msrd))] else []
  }

  function ExtraIfs(c: LagCheck, members: seq<LacpMember>): seq<R> {
    var expd := ExpectedNames(c);
    var msrd := MeasuredNames(members);
    if msrd - expd != {} then [ExtraOf(Check(c.name), "interfaces", Members(expd, msrd - expd))] else []
  }

  /** `eos_check_one_lag`: the failures in order, or else the one Pass. */
  function OneLag(c: LagCheck, members: seq<LacpMember>): seq<R> {
    var fails := NonBundled(c, members) + MissingIfs(c, members) + ExtraIfs(c, members);
    if |fails| != 0 then fails else [Passed(Check(c.name), "", Interfaces(MeasuredNames(members)))]
  }

  /** A member is missing or extra exactly when it is in one name set and not the other. */
  lemma NameSets(c: LagCheck, members: seq<LacpMember>, n: string)
    ensures n in ExpectedNames(c) <==> exists i :: 0 <= i < |c.interfaces| && c.interfaces[i].interface == n
    ensures n in MeasuredNames(members) <==> exists i :: 0 <= i < |members| && members[i].name == n
  {
    if n in ExpectedNames(c) {
      var i :| 0 <= i < |c.interfaces| && MemberNames(c.interfaces)[i] == n;
    }
    if n in MeasuredNames(members) {
      var i :| 0 <= i < |members| && Names(members)[i] == n;
    }
    if exists i :: 0 <= i < |c.interfaces| && c.interfaces[i].interface == n {
      var i :| 0 <= i < |c.interfaces| && c.interfaces[i].interface == n;
      assert MemberNames(c.interfaces)[i] == n;
    }
    if exists i :: 0 <= i < |members| && members[i].name == n {
      var i :| 0 <= i < |members| && members[i].name == n;
      assert Names(members)[i] == n;
    }
  }

  /** The failures of one port-channel, before the Pass decision. */
  function Fails(c: LagCheck, members: seq<LacpMember>): seq<R> {
    NonBundled(c, members) + MissingIfs(c, members) + ExtraIfs(c, members)
  }

  /** Which failure is which: each of the three comes from its own condition. */
  lemma FailsRules(c: LagCheck, members: seq<LacpMember>)
    ensures var fails := Fails(c, members);
            var expd := ExpectedNames(c);
            var msrd := MeasuredNames(members);
            && AllFail(fails) && !HasKind(fails, NoExists)
            && (HasFailOn(fails, "") <==> Pop(GroupAll(members), Bundled) != [])
            && (HasKindOn(fails, MissingMembers, "interfaces") <==> expd - msrd != {})
            && (HasKind(fails, ExtraMembers) <==> msrd - expd != {})
  {
    var nb := NonBundled(c, members);
    var mi := MissingIfs(c, members);
    var ex := ExtraIfs(c, members);
    AllFailAppend(nb, mi);
    AllFailAppend(nb + mi, ex);
    HasKindAppend(nb, mi, NoExists);
    HasKindAppend(nb + mi, ex, NoExists);
    HasFailOnAppend(nb, mi, "");
    HasFailOnAppend(nb + mi, ex, "");
    HasKindOnAppend(nb, mi, MissingMembers, "interfaces");
    HasKindOnAppend(nb + mi, ex, MissingMembers, "interfaces");
    HasKindAppend(nb, mi, ExtraMembers);
    HasKindAppend(nb + mi, ex, ExtraMembers);
    if nb != [] { assert IsFail(nb[0]) && nb[0].field == ""; }
    if mi != [] { assert mi[0].kind == MissingMembers && mi[0].field == "interfaces"; }
    if ex != [] { assert ex[0].kind == ExtraMembers; }
  }

  /** The one failure about no field is the unbundled report, listing the non-bundled groups. */
  lemma UnbundledEntry(c: LagCheck, members: seq<LacpMember>, i: nat)
    requires i < |Fails(c, members)| && Fails(c, members)[i].field == ""
    ensures Fails(c, members)[i] == MissingOf(Check(c.name), "", Unbundled(ExpectedNames(c), Chain(Pop(GroupAll(members), Bundled))))
  {
    var nb := NonBundled(c, members);
    var mi := MissingIfs(c, members);
    var ex := ExtraIfs(c, members);
    var fails := nb + mi + ex;
    forall j | |nb| <= j < |fails| ensures fails[j].field == "interfaces" {
      if j < |nb| + |mi| { assert fails[j] == mi[j - |nb|]; } else { assert fails[j] == ex[j - |nb| - |mi|]; }
    }
    assert fails[i] == nb[i];
  }

  /** The unbundled report lists exactly the members that are not bundled. */
  lemma UnbundledReport(c: LagCheck, members: seq<LacpMember>)
    ensures var fails := Fails(c, members);
            forall i :: 0 <= i < |fails| && fails[i].field == "" ==>
              fails[i].kind == MissingMembers && fails[i].measurement.Unbundled? && multiset(fails[i].measurement.missing) == multiset(NamesNotWith(members, Bundled))
  {
    GroupAllRules(members, Bundled);
    var fails := Fails(c, members);
    forall i | 0 <= i < |fails| && fails[i].field == ""
      ensures fails[i].kind == MissingMembers && fails[i].measurement.Unbundled? && multiset(fails[i].measurement.missing) == multiset(NamesNotWith(members, Bundled))
    {
      UnbundledEntry(c, members, i);
    }
  }

  /** The rules `OneLagRules` states, about the results `rs` of one LAG. */
  predicate LagRules(c: LagCheck, members: seq<LacpMember>, rs: seq<R>) {
    var expd := ExpectedNames(c);
    var msrd := MeasuredNames(members);
    && (HasFailOn(rs, "") <==> NamesNotWith(members, Bundled) != [])
    && (forall i :: 0 <= i < |rs| && rs[i].field == "" && IsFail(rs[i]) ==>
          rs[i].kind == MissingMembers && rs[i].measurement.Unbundled? && multiset(rs[i].measurement.missing) == multiset(NamesNotWith(members, Bundled)))
    && (HasKindOn(rs, MissingMembers, "interfaces") <==> expd - msrd != {})
    && (HasKind(rs, ExtraMembers) <==> msrd - expd != {})
    && (AnyPass(rs) <==> NamesNotWith(members, Bundled) == [] && expd == msrd)
    && (AnyPass(rs) ==> rs == [Passed(Check(c.name), "", Interfaces(msrd))])
    && !HasKind(rs, NoExists)
  }

  /**
   * The unbundled failure comes exactly when some member is not bundled and
   * lists exactly those members (in group order); MissingMembers on
   * "interfaces" comes exactly when an expected member is absent and
   * ExtraMembers exactly when a device member is unexpected; the Pass comes
   * exactly when none of these holds, and is then the only result.
   */
  lemma OneLagRules(c: LagCheck, members: seq<LacpMember>)
    ensures var rs := OneLag(c, members);
            var expd := ExpectedNames(c);
            var msrd := MeasuredNames(members);
            && (HasFailOn(rs, "") <==> NamesNotWith(members, Bundled) != [])
            && (forall i :: 0 <= i < |rs| && rs[i].field == "" && IsFail(rs[i]) ==>
                  rs[i].kind == MissingMembers && rs[i].measurement.Unbundled? && multiset(rs[i].measurement.missing) == multiset(NamesNotWith(members, Bundled)))
            && (HasKindOn(rs, MissingMembers, "interfaces") <==> expd - msrd != {})
            && (HasKind(rs, ExtraMembers) <==> msrd - expd != {})
            && (AnyPass(rs) <==> NamesNotWith(members, Bundled) == [] && expd == msrd)
            && (AnyPass(rs) ==> rs == [Passed(Check(c.name), "", Interfaces(msrd))])
            && !HasKind(rs, NoExists)
  {
    if |Fails(c, members)| != 0 {
      FailingLagRules(c, members);
    } else {
      PassingLagRules(c, members);
    }
  }

  /** `OneLagRules` when some failure is reported. */
  lemma FailingLagRules(c: LagCheck, members: seq<LacpMember>)
    requires |Fails(c, members)| != 0
    ensures LagRules(c, members, OneLag(c, members))
  {
    var rs := OneLag(c, members);
    FailsRules(c, members);
    GroupAllRules(members, Bundled);
    SameMembersIffNoDifference(ExpectedNames(c), MeasuredNames(members));
    assert rs == Fails(c, members);
    UnbundledReport(c, members);
    assert !AnyPass(rs) by { forall i | 0 <= i < |rs| ensures !IsPass(rs[i]) { } }
  }

  /** No failure means every member is bundled and the two name sets agree. */
  lemma NoFailsConditions(c: LagCheck, members: seq<LacpMember>)
    requires |Fails(c, members)| == 0
    ensures NamesNotWith(members, Bundled) == []
    ensures ExpectedNames(c) == MeasuredNames(members)
  {
    var expd := ExpectedNames(c);
    var msrd := MeasuredNames(members);
    assert NonBundled(c, members) == [] && MissingIfs(c, members) == [] && ExtraIfs(c, members) == [];
    assert Pop(GroupAll(members), Bundled) == [];
    GroupAllRules(members, Bundled);
    assert expd - msrd == {} && msrd - expd == {};
    SameMembersIffNoDifference(expd, msrd);
  }

  /** `OneLagRules` when no failure is reported. */
  lemma PassingLagRules(c: LagCheck, members: seq<LacpMember>)
    requires |Fails(c, members)| == 0
    ensures LagRules(c, members, OneLag(c, members))
  {
    var rs := OneLag(c, members);
    NoFailsConditions(c, members);
    assert rs == [Passed(Check(c.name), "", Interfaces(MeasuredNames(members)))];
    assert IsPass(rs[0]);
  }

  /** `eos_check_one_lag`, with its `fails` counter. */
  method CheckOneLag(c: LagCheck, members: seq<LacpMember>) returns (results: seq<R>)
    requires SomeWith(members, Bundled)
    ensures results == OneLag(c, members)
  {
    var fails := 0;
    results := [];
    var expd := ExpectedNames(c);
    var bundleStatus := BundleStatus(members);
    bundleStatus := Pop(bundleStatus, Bundled);
    if bundleStatus != [] {
      results := results + [MissingOf(Check(c.name), "", Unbundled(expd, Chain(bundleStatus)))];
      fails := fails + 1;
    }
    var msrd := MeasuredNames(members);
    if expd - msrd != {} {
      results := results + [MissingOf(Check(c.name), "interfaces", Members(expd, expd - msrd))];
      fails := fails + 1;
    }
    if msrd - expd != {} {
      results := results + [ExtraOf(Check(c.name), "interfaces", Members(expd, msrd - expd))];
      fails := fails + 1;
    }
    assert fails == |results|;
    if fails != 0 {
      return;
    }
    results := [Passed(Check(c.name), "", Interfaces(msrd))];
  }

  /** Every port-channel present on the device has a bundled member. */
  predicate Ready(checks: seq<LagCheck>, lacp: map<string, seq<LacpMember>>) {
    forall i :: 0 <= i < |checks| && checks[i].name in lacp ==> SomeWith(lacp[checks[i].name], Bundled)
  }

  function OneCheck(c: LagCheck, lacp: map<string, seq<LacpMember>>): seq<R> {
    if c.name !in lacp then [Absent(Check(c.name), "", NoValue)] else OneLag(c, lacp[c.name])
  }

  /** The results of `checks`, in check order. */
  function Run(checks: seq<LagCheck>, lacp: map<string, seq<LacpMember>>): seq<R> {
    if checks == [] then [] else Run(checks[..|checks| - 1], lacp) + OneCheck(checks[|checks| - 1], lacp)
  }

  lemma RunStep(checks: seq<LagCheck>, i: nat, lacp: map<string, seq<LacpMember>>)
    requires i < |checks|
    ensures Run(checks[..i + 1], lacp) == Run(checks[..i], lacp) + OneCheck(checks[i], lacp)
  {
    assert checks[..i + 1][..i] == checks[..i];
  }

  /** A port-channel contributes a NoExists result exactly when the device lacks it, and at least one result either way. */
  lemma OneCheckRules(c: LagCheck, lacp: map<string, seq<LacpMember>>)
    ensures |OneCheck(c, lacp)| >= 1
    ensures HasKind(OneCheck(c, lacp), NoExists) <==> c.name !in lacp
    ensures c.name !in lacp ==> |OneCheck(c, lacp)| == 1
  {
    if c.name in lacp {
      OneLagRules(c, lacp[c.name]);
    } else {
      assert OneCheck(c, lacp)[0].kind == NoExists;
    }
  }

  /** `eos_test_lags` */
  method TestLags(checks: seq<LagCheck>, lacp: map<string, seq<LacpMember>>) returns (results: seq<R>)
    requires Ready(checks, lacp)
    ensures results == Run(checks, lacp)
  {
    results := [];
    for i := 0 to |checks|
      invariant results == Run(checks[..i], lacp)
    {
      RunStep(checks, i, lacp);
      var c := checks[i];
      if c.name !in lacp {
        results := results + [Absent(Check(c.name), "", NoValue)];
        continue;
      }
      var one := CheckOneLag(c, lacp[c.name]);
      results := results + one;
    }
    assert checks[..|checks|] == checks;
  }
}
