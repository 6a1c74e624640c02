/**
 * The device-information evaluator of the `netcam_aioeos.eos` revision. Only
 * the first check is evaluated: it passes when the design's product model is
 * a prefix of the device's `modelName` (so a "front" or "rear" suffix on the
 * device side is ignored) and fails otherwise, both on field
 * "product_model"; the raw `show version` reply follows as an Info.
 */
module EosTcDeviceInfo {
  import opened Results
  import opened Design
  import opened Strings
  import opened EosPayloads

  datatype Measure =
    | Text(s: string)
    | Version(info: VersionInfo)

  type R = Result<Measure>

  /** `eos_tc_device_info`; an empty collection has no first check. */
  function DeviceInfo(checks: seq<DeviceInfoCheck>, version: VersionInfo): (rs: seq<R>)
    requires |checks| > 0
    ensures |rs| == 2
    ensures rs[0].check == Check(checks[0].name) && rs[0].field == "product_model"
    ensures rs[0].measurement == Text(version.modelName)
    ensures IsPass(rs[0]) <==> StartsWith(version.modelName, checks[0].productModel)
    ensures IsPass(rs[0]) != IsFail(rs[0])
    ensures |checks[0].productModel| > |version.modelName| ==> IsFail(rs[0])
    ensures rs[1] == Logged(Check(checks[0].name), "version", Version(version))
  {
    var testcase := checks[0];
    var expected := testcase.productModel;
    var measured := version.modelName;
    TakeIsStartsWith(measured, expected);
    var first :=
      if Take(measured, |expected|) == expected then Passed(Check(testcase.name), "product_model", Text(measured))
      else Failed(Check(testcase.name), "product_model", Text(measured));
    [first, Logged(Check(testcase.name), "version", Version(version))]
  }
}
