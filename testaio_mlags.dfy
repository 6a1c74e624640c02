/**
 * The MLAG generator of the `netcam_test_aiodevices` revision. Its system-status test, its
 * per-MLAG test and its loop are the same as the topology executor's, so the
 * per-MLAG results are those of `TopologyMlags`; this module states the
 * generator's own stream: the system status first, then each MLAG in order.
 */
module TestAioMlags {
  import opened Results
  import opened EosPayloads
  import opened Design
  import opened TopologyMlags

  /** The generator: yields the system status, then walks the tests with the topology loop. */
  method TestMlags(tests: seq<LagCheck>, sanity: MlagConfigSanity, mlags: map<string, MlagIfStatus>) returns (results: seq<R>)
    requires Ready(tests)
    ensures results == [SystemStatus(sanity)] + Run(tests, mlags)
  {
    var perMlag := CheckEachMlag(tests, mlags);
    results := [SystemStatus(sanity)] + perMlag;
  }
}
