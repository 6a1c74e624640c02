/**
 * The LAG executor of the topology checks. Each check appends one entry: a
 * result with no measurement when the device has no such port-channel, or a
 * result whose measurement lists the device's members in device order, each
 * enabled exactly when it is bundled, and the LAG enabled unless every member
 * is unbundled. The comparison itself is the design library's `measure()`,
 * which is not part of this model.
 */
module TopologyLags {
  import opened Wrappers
  import opened Design
  import opened Lacp

  /** The measured LAG: `enabled` and `interfaces`. */
  datatype LagMeasurement = LagMeasurement(enabled: bool, interfaces: seq<LagMemberStatus>)

  /** One entry of the results list. */
  datatype Entry =
    | Unmeasured(check: LagCheck)                              // `measurement=None`, appended without `measure()`
    | Measured(check: LagCheck, measurement: LagMeasurement)   // handed to `measure()`

  /** The names the dictionary `iface_unbundled_state` is keyed by. */
  function Unbundled(members: seq<LacpMember>): set<string> {
    set n | n in NamesNotWith(members, Bundled)
  }

  /** Each device member, in device order, enabled unless it is unbundled. */
  function MemberStates(members: seq<LacpMember>, unbundled: set<string>): (ifs: seq<LagMemberStatus>)
    ensures |ifs| == |members|
    ensures forall i :: 0 <= i < |members| ==> ifs[i] == LagMemberStatus(members[i].name !in unbundled, members[i].name)
  {
    if members == [] then []
    else MemberStates(members[..|members| - 1], unbundled) + [LagMemberStatus(members[|members| - 1].name !in unbundled, members[|members| - 1].name)]
  }

  /** The measurement `eos_check_one_lag` builds. */
  function Measurement(members: seq<LacpMember>): LagMeasurement {
    var unbundled := Unbundled(members);
    LagMeasurement(!(|unbundled| == |members|), MemberStates(members, unbundled))
  }

  /**
   * The measurement keeps the device's members in device order, each enabled
   * exactly when it is bundled; and since the "bundled" group must exist for
   * the pop to succeed, the LAG is always measured as enabled.
   */
  lemma MeasurementRules(members: seq<LacpMember>)
    requires DistinctNames(members)
    requires SomeWith(members, Bundled)
    ensures var m := Measurement(members);
            && m.enabled
            && |m.interfaces| == |members|
            && forall i :: 0 <= i < |members| ==>
                 m.interfaces[i].interface == members[i].name && (m.interfaces[i].enabled <==> members[i].actorPortStatus == Bundled)
  {
    var names := NamesNotWith(members, Bundled);
    SetOfSeqCard(names);
    NotWithShorter(members, Bundled);
    forall i | 0 <= i < |members|
      ensures members[i].name in Unbundled(members) <==> members[i].actorPortStatus != Bundled
    {
      if members[i].name in names {
        var j :| 0 <= j < |members| && members[j].actorPortStatus != Bundled && members[j].name == members[i].name;
        assert j == i;
      }
    }
  }

  /** The keys of `iface_unbundled_state`, built from the chained groups, are the unbundled names. */
  lemma UnbundledFromChain(members: seq<LacpMember>)
    ensures (set n | n in Chain(Pop(GroupAll(members), Bundled))) == Unbundled(members)
  {
    var chain := Chain(Pop(GroupAll(members), Bundled));
    GroupAllRules(members, Bundled);
    assert forall n :: n in chain <==> n in multiset(chain);
    assert forall n :: n in NamesNotWith(members, Bundled) <==> n in multiset(NamesNotWith(members, Bundled));
  }

  /** `eos_check_one_lag`: the partition loop, the pop, and the measured LAG. */
  method CheckOneLag(c: LagCheck, members: seq<LacpMember>) returns (e: Entry)
    requires SomeWith(members, Bundled)
    ensures e == Measured(c, Measurement(members))
  {
    var bundleStatus := BundleStatus(members);
    bundleStatus := Pop(bundleStatus, Bundled);
    var unbundled := set n | n in Chain(bundleStatus);
    UnbundledFromChain(members);
    var lagDown := |unbundled| == |members|;
    var interfaces: seq<LagMemberStatus> := [];
    for i := 0 to |members|
      invariant |interfaces| == i
      invariant forall k :: 0 <= k < i ==> interfaces[k] == LagMemberStatus(members[k].name !in unbundled, members[k].name)
    {
      interfaces := interfaces + [LagMemberStatus(members[i].name !in unbundled, members[i].name)];
    }
    assert interfaces == MemberStates(members, unbundled);
    e := Measured(c, LagMeasurement(!lagDown, interfaces));
  }

  /** Every port-channel present on the device has a bundled member. */
  predicate Ready(checks: seq<LagCheck>, lacp: map<string, seq<LacpMember>>) {
    forall i :: 0 <= i < |checks| && checks[i].name in lacp ==> SomeWith(lacp[checks[i].name], Bundled)
  }

  /** The entry one check contributes. */
  function OneCheck(c: LagCheck, lacp: map<string, seq<LacpMember>>): Entry
    requires c.name in lacp ==> SomeWith(lacp[c.name], Bundled)
  {
    if c.name !in lacp then Unmeasured(c) else Measured(c, Measurement(lacp[c.name]))
  }

  /** `eos_check_lags`: exactly one entry per check, in check order. */
  method CheckLags(checks: seq<LagCheck>, lacp: map<string, seq<LacpMember>>) returns (results: seq<Entry>)
    requires Ready(checks, lacp)
    ensures |results| == |checks|
    ensures forall i :: 0 <= i < |checks| ==> results[i] == OneCheck(checks[i], lacp)
    ensures forall i :: 0 <= i < |checks| ==> (results[i].Unmeasured? <==> checks[i].name !in lacp) && results[i].check == checks[i]
  {
    results := [];
    for i := 0 to |checks|
      invariant |results| == i
      invariant forall k :: 0 <= k < i ==> results[k] == OneCheck(checks[k], lacp)
    {
      var c := checks[i];
      if c.name !in lacp {
        results := results + [Unmeasured(c)];
        continue;
      }
      var e := CheckOneLag(c, lacp[c.name]);
      results := results + [e];
    }
  }
}
