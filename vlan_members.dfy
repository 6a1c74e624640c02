/**
 * The VLAN tables as every VLAN evaluator prepares them. `show vlan` is keyed
 * by the VLAN id in decimal; its interface lists are extended with those of
 * `show vlan configured-ports` (a dict update, so names already present keep
 * their place and new ones are added at the end). A VLAN's measured members
 * drop the MLAG peer entries ("Peer…") and name the CPU entry after the
 * VLAN's own SVI, `Vlan<id>`.
 */
module VlanMembers {
  import opened Strings
  import opened EosPayloads
  import opened Design

  /** `check_id()`: the VLAN id in decimal. */
  function VlanCheckId(c: VlanCheck): (id: string)
    ensures IsCanonicalDecimal(id) && DecimalToNat(id) == c.vlanId
  {
    DecimalRoundTrip(c.vlanId);
    NatToDecimal(c.vlanId)
  }

  /** `a.update(b)` on the interface dicts, by their keys. */
  function MergeKeys(a: seq<string>, b: seq<string>): (r: seq<string>)
    ensures |a| <= |r| && r[..|a|] == a
    ensures forall x :: x in r <==> x in a || x in b
    decreases |b|
  {
    if b == [] then a
    else MergeKeys(if b[0] in a then a else a + [b[0]], b[1..])
  }

  /** The `show vlan` table after the configured-ports interfaces are merged in. */
  function Merged(vlans: map<string, VlanBrief>, configured: map<string, seq<string>>): (m: map<string, VlanBrief>)
    requires configured.Keys <= vlans.Keys
  {
    map k | k in vlans :: if k in configured then vlans[k].(interfaces := MergeKeys(vlans[k].interfaces, configured[k])) else vlans[k]
  }

  /**
   * The merge keeps every VLAN, its name and status and its own interfaces
   * in front; a configured VLAN gains exactly the configured interfaces it
   * lacked.
   */
  lemma MergedRules(vlans: map<string, VlanBrief>, configured: map<string, seq<string>>, k: string)
    requires configured.Keys <= vlans.Keys
    ensures Merged(vlans, configured).Keys == vlans.Keys
    ensures k in vlans ==>
              var v := Merged(vlans, configured)[k];
              && v.name == vlans[k].name && v.status == vlans[k].status
              && v.interfaces[..|vlans[k].interfaces|] == vlans[k].interfaces
              && forall x :: x in v.interfaces <==> x in vlans[k].interfaces || (k in configured && x in configured[k])
  {
  }

  /** The merge loop over the configured-ports table; keys are taken in any order, as each touches only its own VLAN. */
  method MergeConfigured(vlans: map<string, VlanBrief>, configured: map<string, seq<string>>) returns (merged: map<string, VlanBrief>)
    requires configured.Keys <= vlans.Keys
    ensures merged == Merged(vlans, configured)
  {
    merged := vlans;
    var todo := configured.Keys;
    while todo != {}
      invariant todo <= configured.Keys
      invariant merged.Keys == vlans.Keys
      invariant forall k :: k in vlans ==>
                  merged[k] == if k in configured && k !in todo then vlans[k].(interfaces := MergeKeys(vlans[k].interfaces, configured[k])) else vlans[k]
      decreases |todo|
    {
      var vlanId :| vlanId in todo;
      var cfgInterfaces := configured[vlanId];
      merged := merged[vlanId := merged[vlanId].(interfaces := MergeKeys(merged[vlanId].interfaces, cfgInterfaces))];
      todo := todo - {vlanId};
    }
  }

  /** The measured members of VLAN `vlanId`, in device order. */
  function MeasuredMembers(ifs: seq<string>, vlanId: string): (ms: seq<string>)
    ensures |ms| <= |ifs|
    ensures forall i :: 0 <= i < |ms| ==> !StartsWith(ms[i], "Peer") && ms[i] != "Cpu"
  {
    if ifs == [] then []
    else
      var head := if StartsWith(ifs[0], "Peer") then [] else if ifs[0] == "Cpu" then ["Vlan" + vlanId] else [ifs[0]];
      head + MeasuredMembers(ifs[1..], vlanId)
  }

  /**
   * A name is a measured member exactly when the device lists it and it is
   * neither a peer entry nor the CPU, or it is the VLAN's SVI and the device
   * lists the CPU.
   */
  lemma {:induction false} MeasuredMembersRules(ifs: seq<string>, vlanId: string, x: string)
    ensures x in MeasuredMembers(ifs, vlanId) <==>
              (x in ifs && !StartsWith(x, "Peer") && x != "Cpu") || (x == "Vlan" + vlanId && "Cpu" in ifs)
  {
    if ifs != [] {
      MeasuredMembersRules(ifs[1..], vlanId, x);
      assert forall y :: y in ifs <==> y == ifs[0] || y in ifs[1..];
    }
  }

  /** The measured member set. */
  function MemberSet(ifs: seq<string>, vlanId: string): set<string> {
    set x | x in MeasuredMembers(ifs, vlanId)
  }
}
