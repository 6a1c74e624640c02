/**
 * The interface evaluator of the topology checks: for each interface check it
 * builds the measurement (and, for physical ports, the mismatch policy) that
 * is handed to the result's `measure()`; an optional exclusive-list entry
 * comes first. The field comparison itself belongs to `measure()` and is not
 * part of this model: an entry records exactly what `measure()` receives.
 */
module TopologyInterfaces {
  import opened Wrappers
  import opened Strings
  import opened Results
  import opened EosPayloads
  import opened Design

  /** The measurement fields the evaluator sets; None leaves a field at its default. */
  datatype IfMeasurement = IfMeasurement(used: Option<bool>, operUp: Option<bool>, desc: Option<string>, speed: Option<int>)

  /** The `on_mismatch` callback handed to `measure()`, by what it closes over. */
  datatype Policy =
    | DefaultPolicy                                         // `measure()` without a callback
    | PhysicalPolicy(forcedUnused: bool, measuredOperUp: bool)

  /** One entry of the results list. */
  datatype Entry =
    | ExclusiveList(expectedNames: set<string>, measuredNames: set<string>)                              // measured with the interface sort key
    | Measured(check: string, expected: IfState, measurement: Option<IfMeasurement>, policy: Policy)
    | ReservedInfo(check: string, expected: IfState, logged: IfMeasurement)                       // status preset to INFO, then measured
    | LoopbackUnmeasured(check: string, expected: IfState, operUp: bool)                          // appended without `measure()`

  /** `EosInterfaceMeasurement.from_cli`: every field is set from the status record. */
  function FromCli(s: IfStatus): (m: IfMeasurement)
    requires SpeedConvertible(s)
    ensures m.used.Some? && m.operUp.Some? && m.desc.Some? && m.speed.Some?
    ensures m.used.value <==> s.linkStatus != "disabled"
    ensures m.operUp.value <==> s.lineProtocolStatus == "up"
    ensures m.desc.value == s.description
    ensures m.speed.value * BitsPerMbps == s.bandwidth
  {
    IfMeasurement(Some(s.linkStatus != "disabled"), Some(s.lineProtocolStatus == "up"),
                  Some(s.description), Some(s.bandwidth / BitsPerMbps))
  }

  /** `on_mismatch` of a physical interface; None lets `measure()` decide. */
  function OnMismatch(p: Policy, field: string): (r: Option<Status>)
    ensures r.Some? ==> p.PhysicalPolicy?
    ensures r == Some(Fail) <==> p.PhysicalPolicy? && field == "desc" && p.forcedUnused
    ensures r == Some(Warn) <==> p.PhysicalPolicy? && field == "desc" && !p.forcedUnused
    ensures r == Some(Skip) <==> p.PhysicalPolicy? && field == "speed" && !p.measuredOperUp
    ensures r != Some(Pass) && r != Some(Info)
  {
    match p
    case DefaultPolicy => None
    case PhysicalPolicy(forcedUnused, operUp) =>
      if field == "desc" then (if forcedUnused then Some(Fail) else Some(Warn))
      else if field == "speed" && !operUp then Some(Skip)
      else None
  }

  /**
   * `eos_check_one_svi`: the measurement of a `Vlan<N>` interface. The source's
   * second branch, meant to reject a VLAN without a Cpu member, tests
   * `not (entry or ...)`, which is false whenever the entry exists; it can
   * never be taken and has no counterpart here.
   */
  function SviMeasurement(vlan: Option<VlanBrief>, expected: IfState): (m: Option<IfMeasurement>)
    ensures m.Some? <==> vlan.Some?
    ensures m.Some? ==> m.value == IfMeasurement(Some(true), Some(vlan.value.status == "active"), Some(expected.desc), None)
  {
    match vlan
    case None => None
    case Some(v) => Some(IfMeasurement(Some(true), Some(v.status == "active"), Some(expected.desc), None))
  }

  /** `eos_check_one_interface`: a physical interface. */
  function OneInterface(c: InterfaceCheck, status: Option<IfStatus>): Entry
    requires status.Some? ==> SpeedConvertible(status.value)
  {
    match status
    case None => Measured(c.name, c.expected, None, DefaultPolicy)
    case Some(s) =>
      var m := FromCli(s);
      if c.flags.isReserved then ReservedInfo(c.name, c.expected, m)
      else
        var expected := if c.flags.isForcedUnused then c.expected.(used := false) else c.expected;
        Measured(c.name, expected, Some(m), PhysicalPolicy(c.flags.isForcedUnused, m.operUp.value))
  }

  /** The one entry a check contributes: SVI first, then Loopback, then physical. */
  function OneCheck(c: InterfaceCheck, statuses: map<string, IfStatus>, vlans: map<string, VlanBrief>,
                    ipIfs: map<string, IpIfBrief>): Entry
    requires c.name in statuses ==> SpeedConvertible(statuses[c.name])
  {
    match MatchDigitsAfter(c.name, "Vlan")
    case Some(vlanId) => Measured(c.name, c.expected, SviMeasurement(Get(vlans, vlanId), c.expected), DefaultPolicy)
    case None =>
      if StartsWith(c.name, "Loopback") then
        if c.name !in ipIfs then Measured(c.name, c.expected, None, DefaultPolicy)
        else LoopbackUnmeasured(c.name, c.expected, ipIfs[c.name].lineProtocolStatus == "up")
      else OneInterface(c, Get(statuses, c.name))
  }

  /** `eos_check_interfaces` */
  method CheckInterfaces(checks: seq<InterfaceCheck>, exclusive: bool, statuses: map<string, IfStatus>,
                         vlans: map<string, VlanBrief>, ipIfs: map<string, IpIfBrief>)
    returns (results: seq<Entry>)
    requires CheckedSpeedsConvertible(checks, statuses)
    ensures |results| == |checks| + (if exclusive then 1 else 0)
    ensures exclusive ==> results[0] == ExclusiveList(InterfaceNames(checks), statuses.Keys + ipIfs.Keys)
    ensures var offset := if exclusive then 1 else 0;
            forall i :: 0 <= i < |checks| ==> results[offset + i] == OneCheck(checks[i], statuses, vlans, ipIfs)
  {
    results := [];
    if exclusive {
      results := results + [ExclusiveList(InterfaceNames(checks), statuses.Keys + ipIfs.Keys)];
    }
    var offset := |results|;
    for i := 0 to |checks|
      invariant |results| == offset + i
      invariant exclusive ==> results[0] == ExclusiveList(InterfaceNames(checks), statuses.Keys + ipIfs.Keys)
      invariant forall k :: 0 <= k < i ==> results[offset + k] == OneCheck(checks[k], statuses, vlans, ipIfs)
    {
      results := results + [OneCheck(checks[i], statuses, vlans, ipIfs)];
    }
  }

  /** A `Vlan<N>` check is measured from the VLAN entry `N`: None when the VLAN is absent. */
  lemma SviEntry(c: InterfaceCheck, statuses: map<string, IfStatus>, vlans: map<string, VlanBrief>,
                 ipIfs: map<string, IpIfBrief>, vlanId: string)
    requires c.name in statuses ==> SpeedConvertible(statuses[c.name])
    requires MatchDigitsAfter(c.name, "Vlan") == Some(vlanId)
    ensures var e := OneCheck(c, statuses, vlans, ipIfs);
            && e.Measured? && e.policy == DefaultPolicy && e.expected == c.expected
            && (e.measurement.None? <==> vlanId !in vlans)
            && (vlanId in vlans ==>
                  && e.measurement.value.used == Some(true)
                  && e.measurement.value.desc == Some(c.expected.desc)
                  && e.measurement.value.operUp == Some(vlans[vlanId].status == "active"))
  {
  }

  /** A Loopback absent from the IP data is measured as None; a present one is appended unmeasured with its line state. */
  lemma LoopbackEntry(c: InterfaceCheck, statuses: map<string, IfStatus>, vlans: map<string, VlanBrief>,
                      ipIfs: map<string, IpIfBrief>)
    requires c.name in statuses ==> SpeedConvertible(statuses[c.name])
    requires StartsWith(c.name, "Loopback")
    ensures var e := OneCheck(c, statuses, vlans, ipIfs);
            && (c.name !in ipIfs ==> e == Measured(c.name, c.expected, None, DefaultPolicy))
            && (c.name in ipIfs ==> e.LoopbackUnmeasured? && (e.operUp <==> ipIfs[c.name].lineProtocolStatus == "up"))
  {
    var n := c.name;
    assert n[..4] == "Loop";
    assert MatchDigitsAfter(n, "Vlan").None?;
  }

  /**
   * A physical interface: missing means measurement None; reserved means one
   * INFO entry carrying the measured state; otherwise the measured state is
   * compared against the expectations, with `used` forced to false for a
   * forced-unused port.
   */
  lemma PhysicalEntry(c: InterfaceCheck, statuses: map<string, IfStatus>, vlans: map<string, VlanBrief>,
                      ipIfs: map<string, IpIfBrief>)
    requires c.name in statuses ==> SpeedConvertible(statuses[c.name])
    requires MatchDigitsAfter(c.name, "Vlan").None? && !StartsWith(c.name, "Loopback")
    ensures var e := OneCheck(c, statuses, vlans, ipIfs);
            && (c.name !in statuses ==> e == Measured(c.name, c.expected, None, DefaultPolicy))
            && (c.name in statuses && c.flags.isReserved ==>
                  e == ReservedInfo(c.name, c.expected, FromCli(statuses[c.name])))
            && (c.name in statuses && !c.flags.isReserved ==>
                  && e.Measured? && e.measurement == Some(FromCli(statuses[c.name]))
                  && e.expected.used == (c.expected.used && !c.flags.isForcedUnused)
                  && e.expected.(used := c.expected.used) == c.expected
                  && e.policy.PhysicalPolicy? && e.policy.forcedUnused == c.flags.isForcedUnused
                  && (e.policy.measuredOperUp <==> statuses[c.name].lineProtocolStatus == "up"))
  {
  }
}
