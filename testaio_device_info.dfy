/**
 * The device-information generator of the `netcam_test_aiodevices`
 * generation: the model result for the first test (Pass when the measured
 * model cut to the expected model's length equals it, otherwise Fail), then
 * the Info with the raw `show version` reply.
 */
module TestAioDeviceInfo {
  import opened Results
  import opened Design
  import opened Strings
  import opened EosPayloads

  datatype Measure =
    | Text(s: string)
    | Version(info: VersionInfo)

  type R = Result<Measure>

  /** `eos_tc_device_info`, its two yields as a list; an empty collection has no first test. */
  function DeviceInfo(tests: seq<DeviceInfoCheck>, version: VersionInfo): (rs: seq<R>)
    requires |tests| > 0
    ensures |rs| == 2
    ensures rs[0].check == Check(tests[0].name) && rs[0].field == "product_model"
    ensures rs[0].measurement == Text(version.modelName)
    ensures IsPass(rs[0]) <==> StartsWith(version.modelName, tests[0].productModel)
    ensures IsPass(rs[0]) != IsFail(rs[0])
    ensures rs[1] == Logged(Check(tests[0].name), "version", Version(version))
  {
    var testcase := tests[0];
    var hasModel := version.modelName;
    TakeIsStartsWith(hasModel, testcase.productModel);
    var result :=
      if Take(hasModel, |testcase.productModel|) == testcase.productModel then Passed(Check(testcase.name), "product_model", Text(hasModel))
      else Failed(Check(testcase.name), "product_model", Text(hasModel));
    [result] + [Logged(Check(testcase.name), "version", Version(version))]
  }
}
