/**
 * The design side of every check: what a check names and what it expects.
 * Each evaluator reads these records; none of them is changed by an
 * evaluator except where the evaluator itself says so.
 */
module Design {
  import opened Wrappers
  import opened EosPayloads

  /** The expected (or measured) state of one interface: `used`, `oper_up`, `desc`, `speed`. */
  datatype IfState = IfState(used: bool, operUp: bool, desc: string, speed: int)

  /** The interface flags of the design: `is_reserved`, `is_forced_unused`. */
  datatype IfFlags = IfFlags(isReserved: bool, isForcedUnused: bool)

  /** An interface check: the interface name is the check id. */
  datatype InterfaceCheck = InterfaceCheck(name: string, expected: IfState, flags: IfFlags)

  /** An IP interface check: the interface name is the check id; `ifIpaddr` is "address/len" or "is_reserved". */
  datatype IpCheck = IpCheck(name: string, ifIpaddr: string)

  /** The design's record of one device interface, as `device_info["interfaces"]` holds it. */
  datatype DeviceInterface = DeviceInterface(enabled: bool, profileFlags: set<string>)

  /** The design's interface object (`device.interfaces[name]`): its physical port numbers and whether its profile is reserved. */
  datatype InterfaceDesign = InterfaceDesign(portNumbers: seq<nat>, isReserved: bool)

  /** A transceiver check: the interface name is the check id. */
  datatype XcvrCheck = XcvrCheck(name: string, model: string, xcvrType: string)

  /** One expected member of a port-channel: `enabled` is whether it should be bundled. */
  datatype LagMemberStatus = LagMemberStatus(enabled: bool, interface: string)

  /** A LAG (or MLAG) check: the port-channel name is the check id. */
  datatype LagCheck = LagCheck(name: string, enabled: bool, interfaces: seq<LagMemberStatus>)

  /** The interface names of the expected members, in design order. */
  function MemberNames(members: seq<LagMemberStatus>): (names: seq<string>)
    ensures |names| == |members|
    ensures forall i :: 0 <= i < |members| ==> names[i] == members[i].interface
  {
    if members == [] then [] else MemberNames(members[..|members| - 1]) + [members[|members| - 1].interface]
  }

  /** A cabling check: the local interface name is the check id; the expected neighbor's host name and port. */
  datatype CablingCheck = CablingCheck(name: string, device: string, portId: string)

  /** The value of one interface field, as `getattr` returns it. */
  datatype FieldValue = BoolValue(b: bool) | TextValue(s: string) | IntValue(n: int)

  /** The fields compared after `used`, in the order the evaluators visit them. */
  const InterfaceFields: seq<string> := ["oper_up", "desc", "speed"]

  /** `getattr(state, field)` for the three compared fields. */
  function FieldOf(s: IfState, field: string): FieldValue
    requires field in InterfaceFields
  {
    if field == "oper_up" then BoolValue(s.operUp)
    else if field == "desc" then TextValue(s.desc)
    else IntValue(s.speed)
  }

  predicate AreFields(fields: seq<string>) {
    forall i :: 0 <= i < |fields| ==> fields[i] in InterfaceFields
  }

  /** The expected and measured values of a field differ. */
  predicate DiffersOn(expected: IfState, measured: IfState, field: string)
    requires field in InterfaceFields
  {
    FieldOf(expected, field) != FieldOf(measured, field)
  }

  /** A field whose expected value is falsy is skipped; otherwise it fails when the values differ. */
  predicate FailsUnlessFalsy(expected: IfState, measured: IfState, field: string)
    requires field in InterfaceFields
  {
    Truthy(FieldOf(expected, field)) && DiffersOn(expected, measured, field)
  }

  /** Python truthiness of a field value: False, "" and 0 are falsy. */
  predicate Truthy(v: FieldValue) {
    match v
    case BoolValue(b) => b
    case TextValue(s) => s != ""
    case IntValue(n) => n != 0
  }

  /** The set of check ids of a list of interface checks. */
  function InterfaceNames(checks: seq<InterfaceCheck>): (names: set<string>)
    ensures forall i :: 0 <= i < |checks| ==> checks[i].name in names
    ensures forall n :: n in names ==> exists i :: 0 <= i < |checks| && checks[i].name == n
  {
    set i | 0 <= i < |checks| :: checks[i].name
  }

  /** Every status record that some check names converts to whole Mbps. */
  predicate CheckedSpeedsConvertible(checks: seq<InterfaceCheck>, statuses: map<string, IfStatus>) {
    forall i :: 0 <= i < |checks| && checks[i].name in statuses ==> SpeedConvertible(statuses[checks[i].name])
  }

  /** Every status record that some check names converts to a positive whole number of Mbps. */
  predicate CheckedSpeedsPositive(checks: seq<InterfaceCheck>, statuses: map<string, IfStatus>) {
    forall i :: 0 <= i < |checks| && checks[i].name in statuses ==> SpeedPositive(statuses[checks[i].name])
  }

  /** Every checked interface is in the design and has a primary port (`port_numbers[0]`). */
  predicate PortsDesigned(checks: seq<XcvrCheck>, design: map<string, InterfaceDesign>) {
    forall i :: 0 <= i < |checks| ==> checks[i].name in design && |design[checks[i].name].portNumbers| > 0
  }

  /** The primary port of a designed interface. */
  function PrimaryPort(d: InterfaceDesign): nat
    requires |d.portNumbers| > 0
  {
    d.portNumbers[0]
  }

  /** A device-information check: the product model the design expects. */
  datatype DeviceInfoCheck = DeviceInfoCheck(name: string, productModel: string)

  /** A VLAN check: the VLAN id, the name the design gives it and its expected member interfaces. */
  datatype VlanCheck = VlanCheck(vlanId: nat, name: string, interfaces: seq<string>)

  /**
   * The expected switchport: an access port's VLAN, or a trunk's native VLAN
   * (when the design sets one) and allowed VLANs, each VLAN by its id.
   */
  datatype SwitchportExpect =
    | AccessExpect(vlanId: int)
    | TrunkExpect(nativeVlan: Option<int>, allowedVlans: seq<int>)

  /** `switchport_mode` of the expectation. */
  function SwitchportMode(e: SwitchportExpect): (mode: string)
    ensures mode == "access" <==> e.AccessExpect?
  {
    if e.AccessExpect? then "access" else "trunk"
  }

  /** A switchport check, named by its interface. */
  datatype SwitchportCheck = SwitchportCheck(name: string, expectation: SwitchportExpect)

  /** The check-collection types the design can hand to a DUT. */
  datatype CollectionKind =
    | DeviceInformationChecks
    | InterfaceChecks
    | TransceiverChecks
    | CablingChecks
    | VlanChecks
    | LagChecks
    | MlagChecks
    | IpAddrChecks
    | SwitchportChecks
    | BgpRouterChecks
}
