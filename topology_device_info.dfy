/**
 * The device-information executor of the topology checks. Only the first
 * check of the collection is evaluated. Its product model is compared with
 * the `modelName` of `show version` on the characters both strings have, so
 * a "front" or "rear" suffix on either side is ignored; the comparison itself
 * is left to the design library's `measure()`, whose mismatch callback
 * returns Pass when the models agree that far. The raw version data follows
 * as an Info.
 */
module TopologyDeviceInfo {
  import opened Results
  import opened Design
  import opened Strings
  import opened EosPayloads

  /**
   * One entry of the results list: the measured check, with the status its
   * mismatch callback gives every field, or the Info carrying `show version`.
   */
  datatype Entry =
    | Measured(check: DeviceInfoCheck, onMismatch: Status)
    | Information(check: DeviceInfoCheck, measurement: VersionInfo)

  function Min(a: nat, b: nat): nat { if a <= b then a else b }

  /** `model_match`: the two models agree on the first `min(len)` characters. */
  predicate ModelMatch(measured: string, expected: string) {
    var n := Min(|measured|, |expected|);
    measured[..n] == expected[..n]
  }

  /**
   * The models match exactly when one is a prefix of the other; in
   * particular an empty model on either side always matches.
   */
  lemma ModelMatchRules(measured: string, expected: string)
    ensures ModelMatch(measured, expected) <==> StartsWith(measured, expected) || StartsWith(expected, measured)
    ensures measured == [] || expected == [] ==> ModelMatch(measured, expected)
  {
    var n := Min(|measured|, |expected|);
    if |measured| <= |expected| {
      assert measured[..n] == measured;
    } else {
      assert expected[..n] == expected;
    }
  }

  /** `on_mismatch`: Pass when the models match, whatever the field; otherwise Fail. */
  function OnMismatch(field: string, measured: string, expected: string): (s: Status)
    ensures s == Pass || s == Fail
    ensures s == Pass <==> StartsWith(measured, expected) || StartsWith(expected, measured)
  {
    ModelMatchRules(measured, expected);
    if ModelMatch(measured, expected) then Pass else Fail
  }

  /** `eos_check_device_info`; an empty collection has no first check. */
  function CheckDeviceInfo(checks: seq<DeviceInfoCheck>, version: VersionInfo): (rs: seq<Entry>)
    requires |checks| > 0
    ensures |rs| == 2
    ensures rs[0].Measured? && rs[0].check == checks[0]
    ensures rs[0].onMismatch == Pass <==>
              StartsWith(version.modelName, checks[0].productModel) || StartsWith(checks[0].productModel, version.modelName)
    ensures checks[0].productModel == [] ==> rs[0].onMismatch == Pass
    ensures rs[1] == Information(checks[0], version)
  {
    var check := checks[0];
    ModelMatchRules(version.modelName, check.productModel);
    [Measured(check, OnMismatch("product_model", version.modelName, check.productModel)), Information(check, version)]
  }
}
