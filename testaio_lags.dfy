/**
 * The LAG generator of the `netcam_test_aiodevices` generation. It differs
 * from the later revision in one respect: members that are not bundled are
 * counted as a failure but no result reports them, so such a port-channel
 * yields only its membership failures, or nothing at all.
 */
module TestAioLags {
  import opened Results
  import opened Design
  import opened Lacp

  datatype Measure =
    | NoValue
    | Members(expected: set<string>, diff: set<string>)
    | Interfaces(names: set<string>)

  type R = Result<Measure>

  function ExpectedNames(c: LagCheck): set<string> {
    set n | n in MemberNames(c.interfaces)
  }

  function MeasuredNames(members: seq<LacpMember>): set<string> {
    set n | n in Names(members)
  }

  /** The yielded failures: expected members the device lacks, then device members the design does not expect. */
  function Fails(c: LagCheck, members: seq<LacpMember>): seq<R> {
    var expd := ExpectedNames(c);
    var msrd := MeasuredNames(members);
    (if expd - msrd != {} then [MissingOf(Check(c.name), "interfaces", Members(expd, expd - msrd))] else [])
      + (if msrd - expd != {} then [ExtraOf(Check(c.name), "interfaces", Members(expd, msrd - expd))] else [])
  }

  /** `eos_test_one_lag`: the counter also counts the non-bundled groups, which yield nothing. */
  function OneLag(c: LagCheck, members: seq<LacpMember>): seq<R> {
    var unbundled := if Pop(GroupAll(members), Bundled) != [] then 1 else 0;
    var fails := Fails(c, members);
    if unbundled + |fails| != 0 then fails else [Passed(Check(c.name), "", Interfaces(MeasuredNames(members)))]
  }

  lemma FailsRules(c: LagCheck, members: seq<LacpMember>)
    ensures var fails := Fails(c, members);
            var expd := ExpectedNames(c);
            var msrd := MeasuredNames(members);
            && AllFail(fails) && !HasKind(fails, NoExists)
            && (HasKindOn(fails, MissingMembers, "interfaces") <==> expd - msrd != {})
            && (HasKind(fails, ExtraMembers) <==> msrd - expd != {})
            && (fails == [] <==> expd == msrd)
  {
    var expd := ExpectedNames(c);
    var msrd := MeasuredNames(members);
    var mi: seq<R> := if expd - msrd != {} then [MissingOf(Check(c.name), "interfaces", Members(expd, expd - msrd))] else [];
    var ex: seq<R> := if msrd - expd != {} then [ExtraOf(Check(c.name), "interfaces", Members(expd, msrd - expd))] else [];
    assert Fails(c, members) == mi + ex;
    AllFailAppend(mi, ex);
    HasKindAppend(mi, ex, NoExists);
    HasKindOnAppend(mi, ex, MissingMembers, "interfaces");
    HasKindAppend(mi, ex, ExtraMembers);
    SameMembersIffNoDifference(expd, msrd);
    if mi != [] { assert mi[0].kind == MissingMembers && mi[0].field == "interfaces"; }
    if ex != [] { assert ex[0].kind == ExtraMembers; }
  }

  /**
   * MissingMembers comes exactly when an expected member is absent and
   * ExtraMembers exactly when a device member is unexpected; the Pass comes
   * exactly when every member is bundled and the member sets agree, and is
   * then the only result.
   */
  lemma OneLagRules(c: LagCheck, members: seq<LacpMember>)
    ensures var rs := OneLag(c, members);
            var expd := ExpectedNames(c);
            var msrd := MeasuredNames(members);
            && (HasKindOn(rs, MissingMembers, "interfaces") <==> expd - msrd != {})
            && (HasKind(rs, ExtraMembers) <==> msrd - expd != {})
            && (AnyPass(rs) <==> NamesNotWith(members, Bundled) == [] && expd == msrd)
            && (AnyPass(rs) ==> rs == [Passed(Check(c.name), "", Interfaces(msrd))])
            && !HasKind(rs, NoExists)
  {
    var rs := OneLag(c, members);
    FailsRules(c, members);
    GroupAllRules(members, Bundled);
    if rs == Fails(c, members) {
      AllFailFacts(rs);
    } else {
      assert IsPass(rs[0]);
    }
  }

  /** A port-channel whose members agree with the design but are not all bundled yields no result at all. */
  lemma UnbundledIsSilent(c: LagCheck, members: seq<LacpMember>)
    requires NamesNotWith(members, Bundled) != [] && ExpectedNames(c) == MeasuredNames(members)
    ensures OneLag(c, members) == []
  {
    FailsRules(c, members);
    GroupAllRules(members, Bundled);
  }

  /** `eos_test_one_lag`, with its `fails` counter. */
  method TestOneLag(c: LagCheck, members: seq<LacpMember>) returns (results: seq<R>)
    requires SomeWith(members, Bundled)
    ensures results == OneLag(c, members)
  {
    var fails := 0;
    results := [];
    var bundleStatus := BundleStatus(members);
    bundleStatus := Pop(bundleStatus, Bundled);
    if bundleStatus != [] {
      fails := fails + 1;
    }
    var msrd := MeasuredNames(members);
    var expd := ExpectedNames(c);
    if expd - msrd != {} {
      results := results + [MissingOf(Check(c.name), "interfaces", Members(expd, expd - msrd))];
      fails := fails + 1;
    }
    if msrd - expd != {} {
      results := results + [ExtraOf(Check(c.name), "interfaces", Members(expd, msrd - expd))];
      fails := fails + 1;
    }
    if fails != 0 {
      return;
    }
    results := [Passed(Check(c.name), "", Interfaces(msrd))];
  }

  /** Every port-channel present on the device has a bundled member. */
  predicate Ready(tests: seq<LagCheck>, lacp: map<string, seq<LacpMember>>) {
    forall i :: 0 <= i < |tests| && tests[i].name in lacp ==> SomeWith(lacp[tests[i].name], Bundled)
  }

  function OneTest(c: LagCheck, lacp: map<string, seq<LacpMember>>): seq<R> {
    if c.name !in lacp then [Absent(Check(c.name), "", NoValue)] else OneLag(c, lacp[c.name])
  }

  /** The results of `tests`, in test order. */
  function Run(tests: seq<LagCheck>, lacp: map<string, seq<LacpMember>>): seq<R> {
    if tests == [] then [] else Run(tests[..|tests| - 1], lacp) + OneTest(tests[|tests| - 1], lacp)
  }

  lemma RunStep(tests: seq<LagCheck>, i: nat, lacp: map<string, seq<LacpMember>>)
    requires i < |tests|
    ensures Run(tests[..i + 1], lacp) == Run(tests[..i], lacp) + OneTest(tests[i], lacp)
  {
    assert tests[..i + 1][..i] == tests[..i];
  }

  /** A missing port-channel is one NoExists; a present one never yields NoExists. */
  lemma OneTestRules(c: LagCheck, lacp: map<string, seq<LacpMember>>)
    ensures HasKind(OneTest(c, lacp), NoExists) <==> c.name !in lacp
    ensures c.name !in lacp ==> |OneTest(c, lacp)| == 1
  {
    if c.name in lacp {
      OneLagRules(c, lacp[c.name]);
    } else {
      assert OneTest(c, lacp)[0].kind == NoExists;
    }
  }

  /** `eos_test_lags` */
  method TestLags(tests: seq<LagCheck>, lacp: map<string, seq<LacpMember>>) returns (results: seq<R>)
    requires Ready(tests, lacp)
    ensures results == Run(tests, lacp)
  {
    results := [];
    for i := 0 to |tests|
      invariant results == Run(tests[..i], lacp)
    {
      RunStep(tests, i, lacp);
      var c := tests[i];
      if c.name !in lacp {
        results := results + [Absent(Check(c.name), "", NoValue)];
        continue;
      }
      var one := TestOneLag(c, lacp[c.name]);
      results := results + one;
    }
    assert tests[..|tests|] == tests;
  }
}
