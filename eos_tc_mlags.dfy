/**
 * The MLAG generator of the `netcam_aioeos.eos` revision. Its system-status test, its
 * per-MLAG test and its loop are the same as the topology executor's, so the
 * per-MLAG results are those of `TopologyMlags`; this module states the
 * generator's own stream: the system status first, then each MLAG in order.
 */
module EosTcMlags {
  import opened Results
  import opened EosPayloads
  import opened Design
  import opened TopologyMlags

  /** The generator: yields the system status, then walks the checks with the topology loop. */
  method CheckMlags(checks: seq<LagCheck>, sanity: MlagConfigSanity, mlags: map<string, MlagIfStatus>) returns (results: seq<R>)
    requires Ready(checks)
    ensures results == [SystemStatus(sanity)] + Run(checks, mlags)
  {
    var perMlag := CheckEachMlag(checks, mlags);
    results := [SystemStatus(sanity)] + perMlag;
  }
}
