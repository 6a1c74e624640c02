/**
 * The transceiver matchers of the `netcam_aio_devices` generation: the same
 * AOC and "-AR" rules as the topology matchers, but with no user-configured
 * model table.
 */
module AioXcvrMatching {
  import opened Strings

  const AocPrefix := "AOC-S-S-10G"
  const AristaSuffix := "-AR"

  /** `ARISTA_TYPE_ALIAS` */
  const TypeAlias: map<string, string> :=
    map["100GBASE-AR4" := "100GBASE-LR", "10GBASE-AR" := "10GBASE-LR", "10GBASE-CRA" := "10GBASE-CR"]

  /** The alias table has exactly its three entries, and no alias is itself aliased. */
  lemma TypeAliasTable()
    ensures TypeAlias.Keys == {"100GBASE-AR4", "10GBASE-AR", "10GBASE-CRA"}
    ensures |TypeAlias| == 3
    ensures forall t :: t in TypeAlias ==> TypeAlias[t] !in TypeAlias
  {
    assert |TypeAlias.Keys| == 3;
    assert "10GBASE-LR" != "10GBASE-AR" by { assert "10GBASE-LR"[8] != "10GBASE-AR"[8]; }
    assert "10GBASE-CR" != "10GBASE-AR" by { assert "10GBASE-CR"[8] != "10GBASE-AR"[8]; }
  }

  /** `eos_xcvr_model_matches` */
  function ModelMatches(expected: string, measured: string): (r: bool)
    ensures StartsWith(expected, AocPrefix) ==> (r <==> StartsWith(measured, AocPrefix))
    ensures !StartsWith(expected, AocPrefix) && !EndsWith(measured, AristaSuffix) ==> (r <==> expected == measured)
    ensures !StartsWith(expected, AocPrefix) && EndsWith(measured, AristaSuffix) && r ==>
              StartsWith(measured, expected) && OccursAt(measured, AristaSuffix, |expected|)
  {
    if StartsWith(expected, AocPrefix) then StartsWith(measured, AocPrefix)
    else if EndsWith(measured, AristaSuffix) then
      assert OccursAt(measured, AristaSuffix, |measured| - |AristaSuffix|);
      expected == BeforeFirst(measured, AristaSuffix)
    else expected == measured
  }

  /** Appending the mark creates no occurrence of it before the appended one. */
  lemma NoEarlyOccurrence(base: string, j: nat)
    requires forall j :: !OccursAt(base, AristaSuffix, j)
    requires j < |base|
    ensures !OccursAt(base + AristaSuffix, AristaSuffix, j)
  {
    var s := base + AristaSuffix;
    if j + 3 <= |base| {
      assert s[j..j + 3] == base[j..j + 3];
      assert !OccursAt(base, AristaSuffix, j);
    } else if j + 2 == |base| {
      assert s[j + 2] == '-';
    } else {
      assert s[j + 1] == '-';
    }
  }

  /** A model without the mark matches the same expectations with the mark appended. */
  lemma AristaSuffixIgnored(expected: string, base: string)
    requires !StartsWith(expected, AocPrefix)
    requires forall j :: !OccursAt(base, AristaSuffix, j)
    ensures ModelMatches(expected, base + AristaSuffix) <==> expected == base
  {
    var s := base + AristaSuffix;
    assert s[|s| - 3..] == AristaSuffix;
    assert OccursAt(s, AristaSuffix, |s| - 3);
    var r := BeforeFirst(s, AristaSuffix);
    assert OccursAt(s, AristaSuffix, |base|) by { assert s[|base|..|base| + 3] == AristaSuffix; }
    forall j | 0 <= j < |base| ensures !OccursAt(s, AristaSuffix, j) {
      NoEarlyOccurrence(base, j);
    }
    assert r == s[..|base|] == base;
  }

  /** `eos_xcvr_type_matches`: the measured type normalised through the alias table must equal the expected one. */
  function TypeMatches(expected: string, measured: string): (r: bool)
    ensures measured !in TypeAlias ==> (r <==> expected == measured)
    ensures r ==> expected !in TypeAlias
  {
    TypeAliasTable();
    expected == (if measured in TypeAlias then TypeAlias[measured] else measured)
  }

  /** An Arista type matches its standard name, and never its own name. */
  lemma AristaTypeRule(measured: string)
    requires measured in TypeAlias
    ensures TypeMatches(TypeAlias[measured], measured)
    ensures !TypeMatches(measured, measured)
  {
  }
}
