/**
 * The records the evaluators read from the EOS "show" commands. Each record
 * keeps only the keys some evaluator reads. A record that is present in a
 * response is a non-empty dictionary and therefore truthy.
 */
module EosPayloads {
  import opened Wrappers
  import opened Strings

  /** One entry of `show interfaces status` (`interfaceStatuses`). */
  datatype IfStatus = IfStatus(linkStatus: string, lineProtocolStatus: string, description: string, bandwidth: int)

  /** Bits per second in one megabit per second: the factor `10 ** -6` divides by. */
  const BitsPerMbps: nat := 1_000_000

  /**
   * The bandwidth converts to a whole number of Mbps. The source multiplies by
   * the float `10 ** -6`; for these bandwidths the product is exact.
   */
  predicate SpeedConvertible(s: IfStatus) {
    s.bandwidth >= 0 && s.bandwidth % BitsPerMbps == 0
  }

  /** The older measurements declare speed a positive integer: at least one whole Mbps. */
  predicate SpeedPositive(s: IfStatus) {
    SpeedConvertible(s) && s.bandwidth >= BitsPerMbps
  }

  /** One entry of `show vlan brief` / `show vlan` (`vlans`); `interfaces` lists the member names in order. */
  datatype VlanBrief = VlanBrief(name: string, status: string, interfaces: seq<string>)

  /** `interfaceAddress.ipAddr` of `show ip interface brief`; a key the device left out is None. */
  datatype IpAddr = IpAddr(address: Option<string>, maskLen: Option<nat>)

  /** One entry of `show ip interface brief` (`interfaces`); `ipAddr` is None when either level is missing. */
  datatype IpIfBrief = IpIfBrief(name: string, lineProtocolStatus: string, ipAddr: Option<IpAddr>)

  /**
   * The measured `"address/maskLen"` string, or None where reading the keys
   * raises `KeyError`.
   */
  function MeasuredAddress(r: IpIfBrief): (a: Option<string>)
    ensures a.Some? <==> r.ipAddr.Some? && r.ipAddr.value.address.Some? && r.ipAddr.value.maskLen.Some?
    ensures a.Some? ==> StartsWith(a.value, r.ipAddr.value.address.value + "/")
    ensures a.Some? ==> EndsWith(a.value, NatToDecimal(r.ipAddr.value.maskLen.value))
    ensures a.Some? ==> |a.value| == |r.ipAddr.value.address.value| + 1 + |NatToDecimal(r.ipAddr.value.maskLen.value)|
  {
    match r.ipAddr
    case None => None
    case Some(ip) =>
      if ip.address.None? || ip.maskLen.None? then None
      else
        var a := ip.address.value + "/" + NatToDecimal(ip.maskLen.value);
        assert a[..|ip.address.value + "/"|] == ip.address.value + "/";
        assert a[|a| - |NatToDecimal(ip.maskLen.value)|..] == NatToDecimal(ip.maskLen.value);
        Some(a)
  }

  /** Two records with the same address and mask length render the same string, and only those. */
  lemma MeasuredAddressInjective(r1: IpIfBrief, r2: IpIfBrief)
    requires MeasuredAddress(r1).Some? && MeasuredAddress(r2).Some?
    ensures MeasuredAddress(r1) == MeasuredAddress(r2) <==>
              r1.ipAddr.value.address == r2.ipAddr.value.address && r1.ipAddr.value.maskLen == r2.ipAddr.value.maskLen
  {
    var a1 := r1.ipAddr.value.address.value;
    var a2 := r2.ipAddr.value.address.value;
    var m1 := r1.ipAddr.value.maskLen.value;
    var m2 := r2.ipAddr.value.maskLen.value;
    if MeasuredAddress(r1) == MeasuredAddress(r2) {
      SlashSplitLast(a1, NatToDecimal(m1), a2, NatToDecimal(m2));
      DecimalInjective(m1, m2);
    }
  }

  /**
   * The last '/' of `a + "/" + d` sits right before `d` when `d` is all
   * digits, whatever `a` holds; so the address and the digits are recovered.
   */
  lemma SlashSplitLast(a1: string, d1: string, a2: string, d2: string)
    requires IsDecimal(d1) && IsDecimal(d2)
    requires a1 + "/" + d1 == a2 + "/" + d2
    ensures a1 == a2 && d1 == d2
  {
    DigitsNotLonger(a1, d1, a2, d2);
    DigitsNotLonger(a2, d2, a1, d1);
    var s := a1 + "/" + d1;
    assert d1 == s[|a1| + 1..];
    assert d2 == s[|a2| + 1..];
    assert a1 == s[..|a1|];
    assert a2 == s[..|a2|];
  }

  /** The digits after the last '/' cannot reach past the '/' of another split of the same string. */
  lemma DigitsNotLonger(a1: string, d1: string, a2: string, d2: string)
    requires IsDecimal(d2)
    requires a1 + "/" + d1 == a2 + "/" + d2
    ensures |d2| <= |d1|
  {
    var s := a2 + "/" + d2;
    assert forall j :: |a2| + 1 <= j < |s| ==> s[j] == d2[j - (|a2| + 1)];
    assert s[|a1|] == '/';
  }

  /** One slot of `show inventory` (`xcvrSlots`); an empty model name means an empty slot. */
  datatype XcvrSlot = XcvrSlot(modelName: string)

  /** One entry of `show interfaces hardware` (`interfaces`). */
  datatype XcvrHw = XcvrHw(transceiverType: string)

  /** Every slot holding a transceiver is keyed by a port number, which `int()` reads. */
  predicate SlotKeysDecimal(inv: map<string, XcvrSlot>) {
    forall k :: k in inv && inv[k].modelName != "" ==> IsDecimal(k)
  }

  /** Every slot key is written as `str()` writes a port number. */
  predicate SlotKeysCanonical(inv: map<string, XcvrSlot>) {
    forall k :: k in inv ==> IsCanonicalDecimal(k)
  }

  /** `used_msrd_ports`: the port numbers of the slots that hold a transceiver. */
  function UsedPorts(inv: map<string, XcvrSlot>): (ports: set<nat>)
    requires SlotKeysDecimal(inv)
    ensures forall k :: k in inv && inv[k].modelName != "" ==> DecimalToNat(k) in ports
    ensures forall p :: p in ports ==> exists k :: k in inv && inv[k].modelName != "" && DecimalToNat(k) == p
  {
    set k | k in inv && inv[k].modelName != "" :: DecimalToNat(k)
  }

  /**
   * With canonical keys, a port is in use exactly when the slot the per-interface
   * lookup `str(port)` finds holds a transceiver.
   */
  lemma UsedPortLookup(inv: map<string, XcvrSlot>, p: nat)
    requires SlotKeysCanonical(inv)
    ensures SlotKeysDecimal(inv)
    ensures p in UsedPorts(inv) <==> NatToDecimal(p) in inv && inv[NatToDecimal(p)].modelName != ""
  {
    if p in UsedPorts(inv) {
      var k :| k in inv && inv[k].modelName != "" && DecimalToNat(k) == p;
      CanonicalRoundTrip(k);
    }
    if NatToDecimal(p) in inv && inv[NatToDecimal(p)].modelName != "" {
      DecimalRoundTrip(p);
    }
  }

  /** `show mlag config-sanity`: the two state flags and the two lists of configuration differences. */
  datatype MlagConfigSanity = MlagConfigSanity(mlagConnected: bool, mlagActive: bool,
                                               interfaceConfiguration: seq<string>, globalConfiguration: seq<string>)

  /** One entry of `show mlag interfaces` (`interfaces`, keyed by the MLAG id). */
  datatype MlagIfStatus = MlagIfStatus(status: string, localInterface: string, peerInterface: string)

  /** `show version`: the product model and the rest of the reply, kept as raw text. */
  datatype VersionInfo = VersionInfo(modelName: string, raw: map<string, string>)

  /** `switchportInfo` of one interface in `show interfaces switchport`. */
  datatype SwitchportInfo = SwitchportInfo(mode: string, accessVlanId: int, trunkingNativeVlanId: int, trunkAllowedVlans: string)
}
