/**
 * The device-information generator of the `netcam_aio_devices` generation:
 * `TestCasePass` when the design's product model is a prefix of the device's
 * `modelName`, `TestCaseFailed` otherwise, then `TestCaseInfo` with the raw
 * `show version` reply.
 */
module AioDeviceInfo {
  import opened Results
  import opened Design
  import opened Strings
  import opened EosPayloads

  datatype Measure =
    | Text(s: string)
    | Version(info: VersionInfo)

  type R = Result<Measure>

  /** `eos_tc_device_info`, its two yields as a list; an empty collection has no first test. */
  function DeviceInfo(tests: seq<DeviceInfoCheck>, version: VersionInfo): (rs: seq<R>)
    requires |tests| > 0
    ensures |rs| == 2
    ensures rs[0].check == Check(tests[0].name) && rs[0].field == "product_model"
    ensures IsPass(rs[0]) <==> StartsWith(version.modelName, tests[0].productModel)
    ensures IsPass(rs[0]) || rs[0] == Failed(Check(tests[0].name), "product_model", Text(version.modelName))
    ensures rs[1] == Logged(Check(tests[0].name), "version", Version(version))
  {
    var testcase := tests[0];
    var expProductModel := testcase.productModel;
    var hasProductModel := version.modelName;
    TakeIsStartsWith(hasProductModel, expProductModel);
    var result :=
      if Take(hasProductModel, |expProductModel|) == expProductModel then Passed(Check(testcase.name), "product_model", Text(hasProductModel))
      else Failed(Check(testcase.name), "product_model", Text(hasProductModel));
    [result, Logged(Check(testcase.name), "version", Version(version))]
  }
}
