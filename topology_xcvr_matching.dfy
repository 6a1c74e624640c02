/**
 * The transceiver matchers of the topology checks: model names ignore the
 * cable length of "AOC-S-S-10G" optics and the "-AR" mark of Arista-branded
 * optics, and may be renamed by the user's configured model table; types are
 * normalised through the three-entry Arista alias table.
 */
module TopologyXcvrMatching {
  import opened Strings

  /** The model prefix of the 10G active optical cables, whose length is not compared. */
  const AocPrefix := "AOC-S-S-10G"

  /** The mark of an Arista-branded optic. */
  const AristaSuffix := "-AR"

  /** `ARISTA_TYPE_ALIAS` */
  const TypeAlias: map<string, string> :=
    map["100GBASE-AR4" := "100GBASE-LR", "10GBASE-AR" := "10GBASE-LR", "10GBASE-CRA" := "10GBASE-CR"]

  /** The alias table has exactly its three entries, and no alias is itself aliased. */
  lemma TypeAliasTable()
    ensures TypeAlias.Keys == {"100GBASE-AR4", "10GBASE-AR", "10GBASE-CRA"}
    ensures |TypeAlias| == 3
    ensures TypeAlias["100GBASE-AR4"] == "100GBASE-LR"
    ensures TypeAlias["10GBASE-AR"] == "10GBASE-LR"
    ensures TypeAlias["10GBASE-CRA"] == "10GBASE-CR"
    ensures forall t :: t in TypeAlias ==> TypeAlias[t] !in TypeAlias
  {
    assert |TypeAlias.Keys| == 3;
    assert "10GBASE-LR" != "10GBASE-AR" by { assert "10GBASE-LR"[8] != "10GBASE-AR"[8]; }
    assert "10GBASE-LR" != "10GBASE-CRA";
    assert "10GBASE-CR" != "10GBASE-AR" by { assert "10GBASE-CR"[8] != "10GBASE-AR"[8]; }
    assert "10GBASE-CR" != "10GBASE-CRA";
    assert "100GBASE-LR" != "100GBASE-AR4";
  }

  /** A configured model mapping for `model`, as `get_config_transciver_model` returns it; an empty mapping is ignored. */
  predicate HasConfigAlias(models: map<string, string>, model: string) {
    model in models && models[model] != ""
  }

  /** `measured.split("-AR", 1)[0]` when the measured model ends with "-AR"; otherwise the model itself. */
  function TrimAristaSuffix(measured: string): (r: string)
    ensures !EndsWith(measured, AristaSuffix) ==> r == measured
    ensures EndsWith(measured, AristaSuffix) ==>
              && StartsWith(measured, r) && OccursAt(measured, AristaSuffix, |r|)
              && forall j :: 0 <= j < |r| ==> !OccursAt(measured, AristaSuffix, j)
  {
    if EndsWith(measured, AristaSuffix) then
      assert OccursAt(measured, AristaSuffix, |measured| - |AristaSuffix|);
      BeforeFirst(measured, AristaSuffix)
    else measured
  }

  /** `eos_xcvr_model_matches`; `models` is the user's [transceivers.models] table. */
  function ModelMatches(expected: string, measured: string, models: map<string, string>): (r: bool)
    ensures StartsWith(expected, AocPrefix) ==> (r <==> StartsWith(measured, AocPrefix))
  {
    if StartsWith(expected, AocPrefix) then StartsWith(measured, AocPrefix)
    else
      var trimmed := TrimAristaSuffix(measured);
      var m := if HasConfigAlias(models, trimmed) then models[trimmed] else trimmed;
      expected == m
  }

  /** Without the AOC prefix, the "-AR" mark or a configured alias, a model matches only itself. */
  lemma PlainModelEquality(expected: string, measured: string, models: map<string, string>)
    requires !StartsWith(expected, AocPrefix) && !EndsWith(measured, AristaSuffix) && !HasConfigAlias(models, measured)
    ensures ModelMatches(expected, measured, models) <==> expected == measured
  {
  }

  /** A configured alias of the measured model replaces it before the comparison. */
  lemma ConfigAliasApplies(expected: string, measured: string, models: map<string, string>)
    requires !StartsWith(expected, AocPrefix) && !EndsWith(measured, AristaSuffix) && HasConfigAlias(models, measured)
    ensures ModelMatches(expected, measured, models) <==> expected == models[measured]
  {
  }

  /** Appending the "-AR" mark to a model that does not contain it changes no comparison. */
  lemma AristaSuffixIgnored(expected: string, base: string, models: map<string, string>)
    requires !StartsWith(expected, AocPrefix)
    requires forall j :: !OccursAt(base, AristaSuffix, j)
    ensures TrimAristaSuffix(base + AristaSuffix) == base
    ensures ModelMatches(expected, base + AristaSuffix, models) == ModelMatches(expected, base, models)
  {
    var s := base + AristaSuffix;
    assert s[|s| - 3..] == AristaSuffix;
    var r := TrimAristaSuffix(s);
    assert OccursAt(s, AristaSuffix, |base|) by { assert s[|base|..|base| + 3] == AristaSuffix; }
    assert |r| <= |base|;
    forall j | 0 <= j < |base| ensures !OccursAt(s, AristaSuffix, j) {
      NoEarlyOccurrence(base, j);
    }
    assert r == s[..|base|] == base;
    assert !EndsWith(base, AristaSuffix) by {
      if |base| >= 3 {
        assert !OccursAt(base, AristaSuffix, |base| - 3);
        assert base[|base| - 3..] == base[|base| - 3..|base| - 3 + |AristaSuffix|];
      }
    }
  }

  /** Appending the mark creates no occurrence of it before the appended one. */
  lemma NoEarlyOccurrence(base: string, j: nat)
    requires forall j :: !OccursAt(base, AristaSuffix, j)
    requires j < |base|
    ensures !OccursAt(base + AristaSuffix, AristaSuffix, j)
  {
    var s := base + AristaSuffix;
    if j + 3 <= |base| {
      assert s[j..j + 3] == base[j..j + 3];
      assert !OccursAt(base, AristaSuffix, j);
    } else if j + 2 == |base| {
      assert s[j + 2] == '-';
    } else {
      assert s[j + 1] == '-';
    }
  }

  /** "QSFP-100G-LR4-AR" compares as "QSFP-100G-LR4". */
  lemma AristaOpticExample()
    ensures ModelMatches("QSFP-100G-LR4", "QSFP-100G-LR4-AR", map[])
  {
    var base := "QSFP-100G-LR4";
    forall j ensures !OccursAt(base, AristaSuffix, j) {
      if 0 <= j && j + 3 <= |base| { assert base[j..j + 3][1] == base[j + 1] != 'A'; }
    }
    assert !StartsWith("QSFP-100G-LR4", AocPrefix) by { assert "QSFP-100G-LR4"[0] != AocPrefix[0]; }
    AristaSuffixIgnored("QSFP-100G-LR4", base, map[]);
    assert base + AristaSuffix == "QSFP-100G-LR4-AR";
  }

  /** `eos_xcvr_type_matches` */
  function TypeMatches(expected: string, measured: string): (r: bool)
    ensures measured !in TypeAlias ==> (r <==> expected == measured)
    ensures r ==> expected !in TypeAlias
  {
    TypeAliasTable();
    expected == (if measured in TypeAlias then TypeAlias[measured] else measured)
  }

  /** An Arista type matches its standard name, and never its own name. */
  lemma AristaTypeRule(measured: string)
    requires measured in TypeAlias
    ensures TypeMatches(TypeAlias[measured], measured)
    ensures !TypeMatches(measured, measured)
  {
  }
}
