# EOS check evaluation, modelled in Dafny

This project models how the Arista EOS adapter of the netcad/netcam
network-validation tooling evaluates a device's design checks against
what the device reports. A design produces check collections: interfaces,
IP addresses, transceivers, LAGs, MLAGs, cabling (LLDP neighbors),
device information, VLANs, switchports and BGP routers. For each
collection, the device-under-test (DUT) object dispatches to an executor.
The executor reads the device's `show` outputs and produces an ordered
list of results: Pass, Fail (a field mismatch, a missing item, missing or
extra members), Info and so on.

Three code generations of the adapter coexist, and each source file is
its own Dafny module:

* `netcam_aioeos/topology`, `netcam_aioeos/vlans`, `netcam_aioeos/bgp_peering`
  (modules `Topology*`, `BgpPeeringDefs`, `EosChecksBgpRouters`). The
  executors hand each check, its expected values and its measurement to the
  design library's `measure()`. They are modelled as returning the entries
  they hand over, together with the mismatch policy of each entry.
* `netcam_aioeos/eos` (modules `EosTc*`). Generators that decide every
  result themselves.
* `netcam_test_aiodevices/eos` and `netcam_aio_devices/eos` (modules
  `TestAio*`, `Aio*`). The oldest test-case generators and their DUTs. The
  two `eos_dut.py` files are the same line for line, and `TestAioDut` models
  both.

Shared modules:

* `Results`: result statuses and kinds, with the `any_failures` family of
  predicates.
* `EosPayloads`: records of the EOS `show` replies.
* `Design`: the check records.
* `Lacp`: the port-channel member partition.
* `Lldp`: the neighbor map.
* `VlanMembers`: VLAN table preparation.
* `Strings` and `Sorting`: decimal rendering, prefix matching and
  lexicographic sorting.

The models take three forms:

* An executor that loops over its checks, appending results, is a method
  with a loop. It is proved equal to a recursive specification function
  over the checks.
* The per-check rules are functions, with lemmas that state when each
  result appears.
* The generation-3 DUT's response cache and dispatch registry are a class.

## Model

| member | source | states |
|---|---|---|
| TopologyInterfaces.FromCli | netcam_aioeos/topology/eos_check_interfaces.py:231-237 | every measured field is set: used iff the link is not "disabled", oper_up iff the line protocol is "up", the description copied, the speed in Mbps times 1,000,000 giving the bandwidth |
| TopologyInterfaces.OnMismatch | netcam_aioeos/topology/eos_check_interfaces.py:290-306 | only a physical interface's callback overrides: "desc" becomes Fail on a forced-unused port and Warn otherwise, "speed" becomes Skip when the port is down; it never decides Pass or Info |
| TopologyInterfaces.SviMeasurement | netcam_aioeos/topology/eos_check_interfaces.py:312-337 | an SVI is measured exactly when its VLAN exists: used true, oper_up iff the VLAN is "active", the description taken from the expectation so it never mismatches, no speed |
| TopologyInterfaces.CheckInterfaces | netcam_aioeos/topology/eos_check_interfaces.py:63-182 | one entry per check in check order, preceded by the exclusive-list entry (expected names against all reported physical and IP interfaces) exactly when the collection is exclusive |
| TopologyInterfaces.SviEntry | netcam_aioeos/topology/eos_check_interfaces.py:132-149 | a `Vlan<N>` check is measured from VLAN N with the default callback: no measurement iff VLAN N is absent, otherwise used, the expected description and oper_up iff "active" |
| TopologyInterfaces.LoopbackEntry | netcam_aioeos/topology/eos_check_interfaces.py:155-169 | a Loopback absent from the IP data is measured as missing; a present one is appended without measurement, carrying whether its line protocol is up |
| TopologyInterfaces.PhysicalEntry | netcam_aioeos/topology/eos_check_interfaces.py:241-309 | a missing port is measured as missing; a reserved port gives one INFO entry with its measured state; otherwise the measured state is compared with the expectation, whose `used` is forced false for a forced-unused port, under the physical callback |
| EosTcInterfaces.InterfacesList | netcam_aioeos/eos/eos_tc_interfaces.py:190-237 | a MissingMembers result iff some expected interface is not reported, an ExtraMembers result iff some reported one is not expected, each carrying that difference; a Pass iff the two sets are equal |
| EosTcInterfaces.FromCli | netcam_aioeos/eos/eos_tc_interfaces.py:259-266 | used iff the link is not "disabled", oper_up iff the line protocol is "up", the description copied, the speed in Mbps times 1,000,000 giving the bandwidth |
| EosTcInterfaces.FieldFailuresFacts | netcam_aioeos/eos/eos_tc_interfaces.py:320-342 | the field loop appends only failures, and one on a field exactly when that field was visited, its expected value is truthy and differs from the measured one |
| EosTcInterfaces.TestOneInterface | netcam_aioeos/eos/eos_tc_interfaces.py:269-351 | the loop over oper_up, desc and speed computes exactly the specification `OneInterface` (the loop invariant carries the failures so far) |
| EosTcInterfaces.ReservedOnlyInfo | netcam_aioeos/eos/eos_tc_interfaces.py:287-296 | a reserved interface yields exactly one Info result, on "is_reserved" |
| EosTcInterfaces.UsedRule | netcam_aioeos/eos/eos_tc_interfaces.py:299-314 | a Fail on "used" iff expected and measured use differ; an interface expected unused gets at most that one result and never a Pass |
| EosTcInterfaces.FieldRule | netcam_aioeos/eos/eos_tc_interfaces.py:316-351 | for an interface expected in use, each compared field fails iff its expected value is truthy and differs, and a Pass is present iff nothing failed |
| EosTcInterfaces.OneSvi | netcam_aioeos/eos/eos_tc_interfaces.py:367-419 | Fail on "desc" iff the VLAN name differs from the description, Fail on "oper_up" iff the expected state differs from the VLAN being "active", and otherwise exactly one Pass |
| EosTcInterfaces.CheckOne | netcam_aioeos/eos/eos_tc_interfaces.py:107-178 | one turn of the check loop computes the specification `OneCheck` (SVI, then Loopback, then physical) |
| EosTcInterfaces.CheckInterfaces | netcam_aioeos/eos/eos_tc_interfaces.py:92-180 | the corrected evaluation: the exclusive-list results over all reported physical and IP interfaces, then each check's results in order, a missing physical interface giving a NoExists and the loop going on |
| EosTcInterfaces.AsWrittenAbortsIffPhysicalMissing | netcam_aioeos/eos/eos_tc_interfaces.py:169-178 | as written, the evaluation aborts exactly when some physical interface is not reported, and otherwise agrees with the corrected one |
| EosTcInterfaces.AsWrittenAbortsOnMissingPort | netcam_aioeos/eos/eos_tc_interfaces.py:169-178 | a single check on an unreported Ethernet1 makes the code as written abort |
| EosTcInterfaces.MissingPortIsNoExists | netcam_aioeos/eos/eos_tc_interfaces.py:169-171 | corrected: an unreported physical interface yields exactly one NoExists |
| EosTcInterfaces.LoopbackRule | netcam_aioeos/eos/eos_tc_interfaces.py:149-161 | a Loopback yields exactly one result: a Pass iff it is in the IP data, a NoExists iff it is not |
| TestAioInterfaces.FromCli | netcam_test_aiodevices/eos/eos_tc_interfaces.py:86-105 | used iff the link is not "disabled", oper_up iff the line protocol is "up", the description copied, a positive speed in Mbps times 1,000,000 giving the bandwidth |
| TestAioInterfaces.FieldFailuresFacts | netcam_test_aiodevices/eos/eos_tc_interfaces.py:155-173 | the field loop yields only failures, and one on a field exactly when that field was visited, its expected value is truthy and differs |
| TestAioInterfaces.FieldFailuresEmpty | netcam_test_aiodevices/eos/eos_tc_interfaces.py:155-176 | the failure counter stays zero exactly when no visited field fails |
| TestAioInterfaces.FieldLoop | netcam_test_aiodevices/eos/eos_tc_interfaces.py:155-176 | the loop over oper_up, desc and speed yields exactly the field failures of the specification, and its counter equals their number |
| TestAioInterfaces.TestOneInterface | netcam_test_aiodevices/eos/eos_tc_interfaces.py:113-178 | the generator with its field loop and failure counter yields exactly the specification `OneInterface` |
| TestAioInterfaces.MissingRule | netcam_test_aiodevices/eos/eos_tc_interfaces.py:121-129 | an interface the device does not report yields exactly one plain failure, whose field is the interface name |
| TestAioInterfaces.PresentRules | netcam_test_aiodevices/eos/eos_tc_interfaces.py:131-178 | Fail on "used" iff use differs; an interface expected unused yields at most that failure and no Pass; otherwise each field fails iff its expected value is truthy and differs, and a Pass is yielded iff none of the three fields failed |
| TestAioInterfaces.PassAfterUsedFailure | netcam_test_aiodevices/eos/eos_tc_interfaces.py:137-178 | a Pass can follow a failed `used` comparison, since the Pass depends only on the field-loop counter |
| TestAioInterfaces.TestInterfaces | netcam_test_aiodevices/eos/eos_tc_interfaces.py:39-76 | the stream is each test's results concatenated in test order |
| TestAioInterfaces.MissingCount | netcam_test_aiodevices/eos/eos_tc_interfaces.py:68-76 | when no tested interface is reported, the stream holds exactly one failure per test |
| AioInterfaces.FromCli | netcam_aio_devices/eos/eos_tc_interfaces.py:85-104 | used iff the link is not "disabled", oper_up iff the line protocol is "up", the description copied, a positive speed in Mbps times 1,000,000 giving the bandwidth |
| AioInterfaces.FieldFailuresFacts | netcam_aio_devices/eos/eos_tc_interfaces.py:154-172 | the field loop yields only failures, and one on a field exactly when that field was visited, its expected value is truthy and differs |
| AioInterfaces.FieldFailuresEmpty | netcam_aio_devices/eos/eos_tc_interfaces.py:154-174 | the failure counter stays zero exactly when no visited field fails |
| AioInterfaces.FieldLoop | netcam_aio_devices/eos/eos_tc_interfaces.py:154-174 | the loop over oper_up, desc and speed yields exactly the field failures of the specification, and its counter equals their number |
| AioInterfaces.TestOneInterface | netcam_aio_devices/eos/eos_tc_interfaces.py:112-177 | the generator with its field loop and failure counter yields exactly the specification `OneInterface` |
| AioInterfaces.MissingRule | netcam_aio_devices/eos/eos_tc_interfaces.py:120-128 | an interface the device does not report yields exactly one plain failure, whose field is the interface name |
| AioInterfaces.PresentRules | netcam_aio_devices/eos/eos_tc_interfaces.py:130-177 | Fail on "used" iff use differs; an interface expected unused yields at most that failure and no Pass; otherwise each field fails iff its expected value is truthy and differs, and a Pass is yielded iff none of the three fields failed |
| AioInterfaces.PassAfterUsedFailure | netcam_aio_devices/eos/eos_tc_interfaces.py:136-177 | a Pass can follow a failed `used` comparison, since the Pass depends only on the field-loop counter |
| AioInterfaces.TestInterfaces | netcam_aio_devices/eos/eos_tc_interfaces.py:38-75 | the stream is each test's results concatenated in test order |
| AioInterfaces.MissingCount | netcam_aio_devices/eos/eos_tc_interfaces.py:67-75 | when no tested interface is reported, the stream holds exactly one failure per test |
| AioInterfaces.Ethernet3Passes | tests/eos/test_eos_testcase_interfaces.py:47-72 | Ethernet3 of the recorded status payload (connected, up, "sw2112-et49/50", 10 Gb/s) against its design expectations yields exactly one result, a Pass |
| AioTestcasesInterfaces.FromCli | netcam_aio_devices/eos/testing_services/eos_testcases_interfaces.py:53-72 | used iff the link is not "disabled", oper_up iff the line protocol is "up", the description copied, a positive speed in Mbps times 1,000,000 giving the bandwidth |
| AioTestcasesInterfaces.FieldFailuresFacts | netcam_aio_devices/eos/testing_services/eos_testcases_interfaces.py:122-138 | the field loop yields only failures, and one on a field exactly when that field was visited and differs (no falsy expectation is skipped) |
| AioTestcasesInterfaces.FieldFailuresEmpty | netcam_aio_devices/eos/testing_services/eos_testcases_interfaces.py:122-140 | the failure counter stays zero exactly when no visited field differs |
| AioTestcasesInterfaces.FieldLoop | netcam_aio_devices/eos/testing_services/eos_testcases_interfaces.py:122-140 | the loop over oper_up, desc and speed yields exactly the field failures of the specification, and its counter equals their number |
| AioTestcasesInterfaces.TestOneInterface | netcam_aio_devices/eos/testing_services/eos_testcases_interfaces.py:80-141 | the generator with its field loop and failure counter yields exactly the specification `OneInterface` |
| AioTestcasesInterfaces.MissingRule | netcam_aio_devices/eos/testing_services/eos_testcases_interfaces.py:88-96 | an interface the device does not report yields exactly one plain failure, whose field is the interface name |
| AioTestcasesInterfaces.PresentRules | netcam_aio_devices/eos/testing_services/eos_testcases_interfaces.py:98-141 | Fail on "used" iff use differs; an interface expected unused yields at most that failure and no Pass; otherwise each field fails iff it differs, and a Pass is yielded iff none of the three fields failed |
| AioTestcasesInterfaces.PassAfterUsedFailure | netcam_aio_devices/eos/testing_services/eos_testcases_interfaces.py:104-141 | a Pass can follow a failed `used` comparison, since the Pass depends only on the field-loop counter |
| AioTestcasesInterfaces.TestInterfaces | netcam_aio_devices/eos/testing_services/eos_testcases_interfaces.py:31-43 | the stream is each test's results concatenated in test order |
| AioTestcasesInterfaces.MissingCount | netcam_aio_devices/eos/testing_services/eos_testcases_interfaces.py:35-43 | when no tested interface is reported, the stream holds exactly one failure per test |
| AioTestInterfaces.ReportsOnAppend | netcam_aio_devices/eos/testing_services/eos_test_interfaces.py:108-118 | a field is reported by the concatenation of two result lists iff it is reported by one of them |
| AioTestInterfaces.FromCli | netcam_aio_devices/eos/testing_services/eos_test_interfaces.py:37-65 | the validator maps the four status keys in order: used iff the link is not "disabled", oper_up iff the line protocol is "up", the description copied, a positive speed in Mbps times 1,000,000 giving the bandwidth |
| AioTestInterfaces.FieldFailuresFacts | netcam_aio_devices/eos/testing_services/eos_test_interfaces.py:108-118 | the field loop yields only failures, and one naming a field exactly when that field was visited and differs |
| AioTestInterfaces.TestOneInterface | netcam_aio_devices/eos/testing_services/eos_test_interfaces.py:68-120 | the generator with its field loop yields exactly the specification `OneInterface` |
| AioTestInterfaces.MissingRule | netcam_aio_devices/eos/testing_services/eos_test_interfaces.py:76-83 | an interface the device does not report yields exactly one failure, with no measurement |
| AioTestInterfaces.PresentRules | netcam_aio_devices/eos/testing_services/eos_test_interfaces.py:85-120 | "used" is reported iff use differs; an interface expected unused yields at most that failure and no Pass; otherwise each field is reported iff it differs, and the list ends with its one Pass whatever failed before it |
| AioTestInterfaces.PassCountOfFailures | netcam_aio_devices/eos/testing_services/eos_test_interfaces.py:108-118 | a list of failures holds no Pass |
| AioTestInterfaces.PassCountAppendPass | netcam_aio_devices/eos/testing_services/eos_test_interfaces.py:120 | appending a Pass adds exactly one to the Pass count |
| AioTestInterfaces.TestInterfaces | netcam_aio_devices/eos/testing_services/eos_test_interfaces.py:123-135 | the stream is each test's results concatenated in test order |
| AioTestInterfaces.PassesCountUsedTests | netcam_aio_devices/eos/testing_services/eos_test_interfaces.py:101-135 | when every tested interface is reported and expected in use, the stream holds exactly one Pass per test |
| TopologyIpAddrs.CheckVlanAssocInterface | netcam_aioeos/topology/eos_check_ipaddrs.py:254-328 | the member scan of a down SVI computes `SviResults`: a Pass (the SVI is tolerated) exactly when every configured member port is disabled or reserved, otherwise a failure on "if_oper" |
| TopologyIpAddrs.TestOneInterface | netcam_aioeos/topology/eos_check_ipaddrs.py:114-222 | one interface check, running the SVI member scan only when needed, yields exactly the specification `OneInterface` |
| TopologyIpAddrs.UnreadableAddress | netcam_aioeos/topology/eos_check_ipaddrs.py:131-148 | unreadable address keys yield exactly one mismatch on "measurement" and nothing else |
| TopologyIpAddrs.AddressAndOperRules | netcam_aioeos/topology/eos_check_ipaddrs.py:154-215 | a reserved expected address is logged as INFO first and never fails; any other fails "if_ipaddr" iff the rendered address differs; "if_oper" fails iff the interface is enabled, its line protocol is not up, and it is not an SVI whose member ports are all disregarded |
| TopologyIpAddrs.PassRule | netcam_aioeos/topology/eos_check_ipaddrs.py:217-220 | the check's own Pass closes its results iff nothing failed; a tolerated down SVI with the expected address therefore carries two Passes |
| TopologyIpAddrs.AddressedNames | netcam_aioeos/topology/eos_check_ipaddrs.py:98-104 | exactly the names of the device's IP entries whose mask length is not zero |
| TopologyIpAddrs.ExclusiveList | netcam_aioeos/topology/eos_check_ipaddrs.py:225-251 | exactly one result: ExtraMembers carrying the extras iff some addressed interface is not expected, otherwise a Pass; never MissingMembers |
| TopologyIpAddrs.TestIpAddrs | netcam_aioeos/topology/eos_check_ipaddrs.py:59-108 | each check's results in order (NoExists when the device has no IP entry for it), followed by the exclusive-list result exactly when the collection is exclusive |
| TestAioIpAddrs.OneInterfaceRules | netcam_test_aiodevices/eos/eos_tc_ipaddrs.py:90-151 | with a readable address, "if_ipaddr" fails iff the rendered address differs, "if_oper" fails iff the line protocol is not up, and the one Pass comes iff neither failed; never NoExists |
| TestAioIpAddrs.ReservedAlwaysFails | netcam_test_aiodevices/eos/eos_tc_ipaddrs.py:117-125 | this generation has no "is_reserved" escape: such a design address always fails "if_ipaddr" |
| TestAioIpAddrs.MissingStep | netcam_test_aiodevices/eos/eos_tc_ipaddrs.py:56-68 | one step of the walk adds a NoExists for a test the device lacks and defers a generator for one it has |
| TestAioIpAddrs.MissingOrPending | netcam_test_aiodevices/eos/eos_tc_ipaddrs.py:56-68 | every test is either missing (a NoExists naming an interface not in the data) or deferred with its own record |
| TestAioIpAddrs.DrainHasNoNoExists | netcam_test_aiodevices/eos/eos_tc_ipaddrs.py:86-87 | draining the deferred generators never yields NoExists |
| TestAioIpAddrs.AddressedNames | netcam_test_aiodevices/eos/eos_tc_ipaddrs.py:78-82 | exactly the names of the device's IP entries whose mask length is not zero |
| TestAioIpAddrs.ExclusiveList | netcam_test_aiodevices/eos/eos_tc_ipaddrs.py:154-174 | exactly one result: ExtraMembers carrying the extras iff some addressed interface is not expected, otherwise a Pass |
| TestAioIpAddrs.NamesCollected | netcam_test_aiodevices/eos/eos_tc_ipaddrs.py:54-58 | the collected `if_names` list holds exactly the tested interface names |
| TestAioIpAddrs.DrainPending | netcam_test_aiodevices/eos/eos_tc_ipaddrs.py:86-87 | the final chain over the deferred generators yields exactly `Drain` of them, in order |
| TestAioIpAddrs.TestIpAddrs | netcam_test_aiodevices/eos/eos_tc_ipaddrs.py:45-87 | the stream is the NoExists failures of the walk, then the drained per-interface results, then the exclusive-list result |
| TestAioIpAddrs.NoExistsFirst | netcam_test_aiodevices/eos/eos_tc_ipaddrs.py:56-87 | every NoExists in the stream comes before every other result |
| TopologyXcvrMatching.TypeAliasTable | netcam_aioeos/topology/eos_xcvr_matching.py:37-41 | the alias table has exactly the three Arista types, mapped to 100GBASE-LR, 10GBASE-LR and 10GBASE-CR, and no alias is itself aliased |
| TopologyXcvrMatching.TrimAristaSuffix | netcam_aioeos/topology/eos_xcvr_matching.py:94-95 | a model not ending in "-AR" is unchanged; one ending in it is cut before the first occurrence of "-AR" |
| TopologyXcvrMatching.ModelMatches | netcam_aioeos/topology/eos_xcvr_matching.py:65-100 | an expected 10G active optical cable matches exactly the measured models with the same prefix, whatever their length |
| TopologyXcvrMatching.PlainModelEquality | netcam_aioeos/topology/eos_xcvr_matching.py:65-100 | without the AOC prefix, the "-AR" mark or a configured alias, a model matches only itself |
| TopologyXcvrMatching.ConfigAliasApplies | netcam_aioeos/topology/eos_xcvr_matching.py:44-62 | a non-empty configured mapping of the measured model replaces it before the comparison |
| TopologyXcvrMatching.AristaSuffixIgnored | netcam_aioeos/topology/eos_xcvr_matching.py:94-95 | appending "-AR" to a model that does not contain it changes no comparison |
| TopologyXcvrMatching.NoEarlyOccurrence | netcam_aioeos/topology/eos_xcvr_matching.py:94-95 | appending "-AR" creates no earlier occurrence of "-AR", so the split cuts exactly the appended mark |
| TopologyXcvrMatching.AristaOpticExample | netcam_aioeos/topology/eos_xcvr_matching.py:91-95 | "QSFP-100G-LR4-AR" compares as "QSFP-100G-LR4" |
| TopologyXcvrMatching.TypeMatches | netcam_aioeos/topology/eos_xcvr_matching.py:103-109 | a type outside the alias table matches only itself, and no aliased Arista type can be the expected one |
| TopologyXcvrMatching.AristaTypeRule | netcam_aioeos/topology/eos_xcvr_matching.py:103-109 | an Arista type matches its standard name and never its own name |
| AioXcvrMatching.TypeAliasTable | netcam_aio_devices/eos/eos_xcvr_matching.py:4-8 | the alias table has exactly the three Arista types, and no alias is itself aliased |
| AioXcvrMatching.ModelMatches | netcam_aio_devices/eos/eos_xcvr_matching.py:11-24 | an expected AOC model matches exactly the measured models with the same prefix; otherwise a model without "-AR" matches only itself, and one with it matches only its part before the mark |
| AioXcvrMatching.NoEarlyOccurrence | netcam_aio_devices/eos/eos_xcvr_matching.py:21-22 | appending "-AR" creates no earlier occurrence of "-AR" |
| AioXcvrMatching.AristaSuffixIgnored | netcam_aio_devices/eos/eos_xcvr_matching.py:21-24 | a model with "-AR" appended matches exactly the expectation equal to the model without it |
| AioXcvrMatching.TypeMatches | netcam_aio_devices/eos/eos_xcvr_matching.py:27-32 | a type outside the alias table matches only itself, and no aliased Arista type can be the expected one |
| AioXcvrMatching.AristaTypeRule | netcam_aio_devices/eos/eos_xcvr_matching.py:27-32 | an Arista type matches its standard name and never its own name |
| TopologyTransceivers.OneInterfaceRules | netcam_aioeos/topology/eos_check_transceivers.py:214-276 | a missing slot or an empty model is one NoExists and nothing else; otherwise model and type each fail iff their matcher rejects the measured value, the model result first, and the one Pass, carrying both measured values, comes iff neither failed |
| TopologyTransceivers.ExpectedPorts | netcam_aioeos/topology/eos_check_transceivers.py:90-125 | exactly the primary ports of the non-reserved checks |
| TopologyTransceivers.ReservedPorts | netcam_aioeos/topology/eos_check_transceivers.py:99-122 | exactly the primary ports of the reserved checks |
| TopologyTransceivers.ExclusiveList | netcam_aioeos/topology/eos_check_transceivers.py:157-211 | over the ports holding a transceiver with the reserved ports removed: MissingMembers iff some expected port is unused, ExtraMembers iff some used port is unexpected, each carrying that difference, and a Pass iff the two sets are equal |
| TopologyTransceivers.ReservedNeverExtra | netcam_aioeos/topology/eos_check_transceivers.py:178 | a reserved port is never reported as an extra, whatever its slot holds |
| TopologyTransceivers.NoExistsIffUnused | netcam_aioeos/topology/eos_check_transceivers.py:169-178 | with canonical slot keys, a non-reserved check reports NoExists exactly when its port is absent from the used ports the exclusive list compares, so the two views agree |
| TopologyTransceivers.CheckTransceivers | netcam_aioeos/topology/eos_check_transceivers.py:58-147 | each check's results in order, followed by the exclusive-list results over the expected and reserved ports exactly when the collection is exclusive |
| EosTcTransceivers.OneInterfaceRules | netcam_aioeos/eos/eos_tc_transceivers.py:165-210 | a missing slot is one NoExists and nothing else; a present slot, even with an empty model, is compared: model and type each fail iff their matcher rejects the measured value, model first, and the one Pass comes iff neither failed |
| EosTcTransceivers.ExpectedPorts | netcam_aioeos/eos/eos_tc_transceivers.py:75-89 | exactly the primary ports of all the checks |
| EosTcTransceivers.ExclusiveList | netcam_aioeos/eos/eos_tc_transceivers.py:118-162 | over the ports holding a transceiver: MissingMembers iff some expected port is unused, ExtraMembers iff some used port is unexpected, each carrying that difference, and a Pass iff the sets are equal |
| EosTcTransceivers.TestTransceivers | netcam_aioeos/eos/eos_tc_transceivers.py:43-108 | each check's results in order, then the exclusive-list results, which this generation always runs |
| EosTcTransceivers.NoExistsIffNoSlot | netcam_aioeos/eos/eos_tc_transceivers.py:165-178 | with canonical slot keys, a check reports NoExists iff no slot is keyed by its port; a present but empty slot is compared and is also reported missing by the exclusive list |
| TestAioTransceivers.OneInterfaceRules | netcam_test_aiodevices/eos/eos_tc_transceivers.py:168-208 | a missing slot is one NoExists and nothing else; a present slot, even with an empty model, is compared: model and type each fail iff their matcher rejects the measured value, model first, and the one Pass comes iff neither failed |
| TestAioTransceivers.TestOneInterface | netcam_test_aiodevices/eos/eos_tc_transceivers.py:168-208 | the generator with its `failed` counter yields exactly the specification `OneInterface` |
| TestAioTransceivers.ExpectedPorts | netcam_test_aiodevices/eos/eos_tc_transceivers.py:75-89 | exactly the primary ports of all the tests |
| TestAioTransceivers.ExclusiveList | netcam_test_aiodevices/eos/eos_tc_transceivers.py:122-165 | MissingMembers iff some expected port is unused, ExtraMembers iff some used port is unexpected, each carrying that difference, and a Pass iff the sets are equal |
| TestAioTransceivers.TestTransceivers | netcam_test_aiodevices/eos/eos_tc_transceivers.py:45-112 | the deferred generators drained in order: each test's results, then the exclusive-list results |
| TestAioTransceivers.NoExistsIffNoSlot | netcam_test_aiodevices/eos/eos_tc_transceivers.py:168-177 | with canonical slot keys, a test reports NoExists iff no slot is keyed by its port; a present but empty slot is compared and is also reported missing by the exclusive list |
| AioTransceivers.OneInterfaceRules | netcam_aio_devices/eos/eos_tc_transceivers.py:77-117 | a missing slot is one NoExists and nothing else; a present slot is compared: model and type each fail iff the matcher rejects the measured value, model first, and the one Pass comes iff neither failed |
| AioTransceivers.AristaOpticPasses | netcam_aio_devices/eos/eos_tc_transceivers.py:88-117 | an Arista-branded optic of the expected model, reporting the Arista name of the expected type, yields exactly one Pass |
| AioTransceivers.RunShape | netcam_aio_devices/eos/eos_tc_transceivers.py:62-74 | each test contributes at least one result, and the stream holds a NoExists iff some test's port has no slot |
| AioTransceivers.TestOneInterface | netcam_aio_devices/eos/eos_tc_transceivers.py:77-117 | the generator with its `failed` counter yields exactly the specification `OneInterface` |
| AioTransceivers.TestTransceivers | netcam_aio_devices/eos/eos_tc_transceivers.py:35-74 | every test's results, yielded as produced, in test order |
| Lacp.Names | netcam_aioeos/eos/eos_tc_lags.py:109 | the member names, one per table entry, in device order |
| Lacp.NamesNotWith | netcam_aioeos/eos/eos_tc_lags.py:95-96 | a name is listed iff some member of that name has a status other than the given one |
| Lacp.HasKeyCons | netcam_aioeos/eos/eos_tc_lags.py:85-87 | a key is present in a group list with one more entry in front iff that entry has it or the rest does |
| Lacp.GroupKeys | netcam_aioeos/eos/eos_tc_lags.py:85-87 | appending a name under a status adds exactly that status as a key, and keeps every group non-empty |
| Lacp.PopGroupSame | netcam_aioeos/eos/eos_tc_lags.py:87-89 | popping the status a name was just grouped under undoes the grouping |
| Lacp.PopGroupOther | netcam_aioeos/eos/eos_tc_lags.py:87-89 | under another status the grouped name survives the pop, adding exactly one occurrence to the chained groups |
| Lacp.GroupChain | netcam_aioeos/eos/eos_tc_lags.py:87-96 | grouping adds exactly one occurrence of the name to the chained group values |
| Lacp.PopKeepsNonEmpty | netcam_aioeos/eos/eos_tc_lags.py:89-96 | after a pop every remaining group is still non-empty, so the dictionary is empty iff its chained values are |
| Lacp.GroupAllKeys | netcam_aioeos/eos/eos_tc_lags.py:85-87 | the partition's keys are exactly the statuses that occur in the member table, and no group is empty |
| Lacp.GroupAllChain | netcam_aioeos/eos/eos_tc_lags.py:85-96 | once "bundled" is popped, the chained groups hold exactly the members that are not bundled, each as often as in the table |
| Lacp.GroupAllRules | netcam_aioeos/eos/eos_tc_lags.py:85-96 | the partition's keys are exactly the occurring statuses; after the "bundled" pop the groups hold exactly the non-bundled members and are empty iff every member is bundled |
| Lacp.SetOfSeqCard | netcam_aioeos/topology/eos_check_lags.py:123-127 | the set built from a list has no more elements than the list |
| Lacp.NotWithShorter | netcam_aioeos/topology/eos_check_lags.py:123-127 | leaving out the members with a status shortens the list, strictly when some member has that status |
| Lacp.BundleStatus | netcam_aioeos/eos/eos_tc_lags.py:85-87 | the `defaultdict(list)` loop over the member table builds exactly the partition `GroupAll` |
| TopologyLags.MemberStates | netcam_aioeos/topology/eos_check_lags.py:134-139 | one status per device member, in device order, enabled iff the member is not among the unbundled names |
| TopologyLags.MeasurementRules | netcam_aioeos/topology/eos_check_lags.py:113-139 | the measurement keeps the device's members in device order, each enabled iff it is bundled, and since the "bundled" group must exist for the pop to succeed the LAG is always measured as enabled |
| TopologyLags.UnbundledFromChain | netcam_aioeos/topology/eos_check_lags.py:123-125 | the keys of the unbundled-state dictionary are exactly the names of the members that are not bundled |
| TopologyLags.CheckOneLag | netcam_aioeos/topology/eos_check_lags.py:87-141 | the partition loop, the pop and the measured LAG give exactly the `Measurement` of the member table |
| TopologyLags.CheckLags | netcam_aioeos/topology/eos_check_lags.py:51-84 | exactly one entry per check in check order, unmeasured iff the device lacks the port-channel |
| EosTcLags.NameSets | netcam_aioeos/eos/eos_tc_lags.py:76-78 | the expected and measured name sets hold exactly the design's member names and the device's member names |
| EosTcLags.FailsRules | netcam_aioeos/eos/eos_tc_lags.py:95-129 | the failures are all Fail and never NoExists; one without a field iff some group survives the pop, MissingMembers on "interfaces" iff an expected member is absent, ExtraMembers iff a device member is unexpected |
| EosTcLags.UnbundledEntry | netcam_aioeos/eos/eos_tc_lags.py:95-102 | the failure without a field is the unbundled report, listing the chained non-bundled groups |
| EosTcLags.UnbundledReport | netcam_aioeos/eos/eos_tc_lags.py:95-102 | the unbundled report lists exactly the members that are not bundled, each once |
| EosTcLags.OneLagRules | netcam_aioeos/eos/eos_tc_lags.py:61-139 | the unbundled failure iff some member is not bundled, listing exactly those members; MissingMembers and ExtraMembers on "interfaces" iff the name sets differ that way; the Pass, carrying the measured names, iff none of these holds, and then it is the only result |
| EosTcLags.CheckOneLag | netcam_aioeos/eos/eos_tc_lags.py:61-139 | the generator with its `fails` counter yields exactly the specification `OneLag` |
| EosTcLags.OneCheckRules | netcam_aioeos/eos/eos_tc_lags.py:43-58 | every port-channel contributes at least one result, and a NoExists (then the only result) iff the device lacks it |
| EosTcLags.TestLags | netcam_aioeos/eos/eos_tc_lags.py:33-58 | each check's results concatenated in check order |
| TestAioLags.FailsRules | netcam_test_aiodevices/eos/eos_tc_lags.py:88-115 | the yielded failures are all Fail and never NoExists; MissingMembers iff an expected member is absent, ExtraMembers iff a device member is unexpected, none iff the name sets agree |
| TestAioLags.OneLagRules | netcam_test_aiodevices/eos/eos_tc_lags.py:60-125 | MissingMembers and ExtraMembers iff the name sets differ that way; the Pass iff every member is bundled and the name sets agree, and then it is the only result |
| TestAioLags.UnbundledIsSilent | netcam_test_aiodevices/eos/eos_tc_lags.py:83-85 | a port-channel whose members agree with the design but are not all bundled yields no result at all |
| TestAioLags.TestOneLag | netcam_test_aiodevices/eos/eos_tc_lags.py:60-125 | the generator with its `fails` counter yields exactly the specification `OneLag` |
| TestAioLags.OneTestRules | netcam_test_aiodevices/eos/eos_tc_lags.py:42-57 | a missing port-channel is exactly one NoExists; a present one never yields NoExists |
| TestAioLags.TestLags | netcam_test_aiodevices/eos/eos_tc_lags.py:32-57 | each test's results concatenated in test order |
| Lldp.NeighborMap | netcam_aioeos/eos/eos_tc_cabling.py:73 | the map's keys are exactly the ports of the records, and each port maps to a record of that port |
| Lldp.LastRecordWins | netcam_aioeos/eos/eos_tc_cabling.py:73 | a port maps to the last record for that port |
| TopologyMlags.SystemStatus | netcam_aioeos/topology/eos_check_mlags.py:101-129 | the system-status result passes iff MLAG is connected and active with no interface or global configuration inconsistency; otherwise it is one mismatch on "mlag_status" carrying the sanity record |
| TopologyMlags.MlagId | netcam_aioeos/topology/eos_check_mlags.py:62 | the id the pattern `Port-Channel(\d+)` captures is a string of decimal digits |
| TopologyMlags.MlagIdOfPortChannel | netcam_aioeos/topology/eos_check_mlags.py:89 | the pattern matches `Port-Channel<n>` and captures exactly the decimal form of n |
| TopologyMlags.CompareRules | netcam_aioeos/topology/eos_check_mlags.py:144-183 | on the sorted member lists: "status" fails iff the MLAG is not active-full, "interfaces" fails iff the lists differ, and the Pass, carrying the measured list, comes iff neither failed and is then the only result |
| TopologyMlags.OneMlagRules | netcam_aioeos/topology/eos_check_mlags.py:132-183 | "status" fails iff the MLAG is not active-full; "interfaces" fails iff the expected members are not the local and peer interfaces, in any order and counting repeats; the Pass comes iff neither failed and is then the only result |
| TopologyMlags.MemberOrderIgnored | netcam_aioeos/topology/eos_check_mlags.py:159-166 | a design listing the two members in either order matches a healthy MLAG and yields exactly one Pass |
| TopologyMlags.CompareSorted | netcam_aioeos/topology/eos_check_mlags.py:138-183 | the comparisons with the `fails` counter yield exactly the specification `Compare` |
| TopologyMlags.TestOneMlag | netcam_aioeos/topology/eos_check_mlags.py:132-183 | sorting both member lists and comparing yields exactly the specification `OneMlag` |
| TopologyMlags.OneCheckRules | netcam_aioeos/topology/eos_check_mlags.py:89-98 | a check yields NoExists iff its MLAG id is not in the device's table, and then only that; every result names its check |
| TopologyMlags.RunNamesChecks | netcam_aioeos/topology/eos_check_mlags.py:83-98 | no per-MLAG result is about the system-status check |
| TopologyMlags.SomeUnknownStep | netcam_aioeos/topology/eos_check_mlags.py:83-93 | some check has an unknown MLAG id iff the last one does or one before it does |
| TopologyMlags.RunNoExists | netcam_aioeos/topology/eos_check_mlags.py:83-98 | the per-MLAG results hold a NoExists iff some check's MLAG id is not in the device's table |
| TopologyMlags.CheckEachMlag | netcam_aioeos/topology/eos_check_mlags.py:83-98 | the per-MLAG loop yields each check's results concatenated in check order |
| TopologyMlags.CheckMlags | netcam_aioeos/topology/eos_check_mlags.py:66-98 | the stream is the system-status result followed by the per-MLAG results |
| TopologyMlags.StatusAhead | netcam_aioeos/topology/eos_check_mlags.py:75 | a status result put ahead of per-check results is the only one about the system-status check and adds no NoExists |
| TopologyMlags.StreamRules | netcam_aioeos/topology/eos_check_mlags.py:66-98 | the stream starts with the system-status result, the only one about that check, and holds a NoExists iff some check's MLAG id is not in the device's table |
| EosTcMlags.CheckMlags | netcam_aioeos/eos/eos_tc_mlags.py:40-144 | the generator's stream is the system-status result followed by each MLAG's results in check order, the same as the topology executor's |
| TestAioMlags.TestMlags | netcam_test_aiodevices/eos/eos_tc_mlags.py:40-150 | the generator's stream is the system-status result followed by each MLAG's results in test order, the same as the topology executor's |
| TopologyCabling.OnMismatch | netcam_aioeos/topology/eos_check_cabling.py:117-125 | the callback returns only Pass or Fail: Pass iff the field is "device" and the host-name matcher accepts, or "port_id" and the interface matcher accepts; any other field fails |
| TopologyCabling.Measurement | netcam_aioeos/topology/eos_check_cabling.py:114-115 | the measurement is the neighbor's host name and port |
| TopologyCabling.CheckCabling | netcam_aioeos/topology/eos_check_cabling.py:54-99 | exactly one entry per check, in check order, each looked up in the port-keyed neighbor map |
| TopologyCabling.OneCheckRules | netcam_aioeos/topology/eos_check_cabling.py:83-93 | a check is measured as None iff no LLDP record names its port; otherwise it is measured from the last record for that port |
| EosTcCabling.OneInterfaceRules | netcam_aioeos/eos/eos_tc_cabling.py:93-130 | "device" fails iff the host-name matcher rejects the neighbor, "port_id" iff the interface matcher rejects its port; the Pass, carrying the neighbor record, comes iff both accept and is then the only result; never NoExists |
| EosTcCabling.OneCheckRules | netcam_aioeos/eos/eos_tc_cabling.py:73-90 | a port yields one NoExists (and nothing else) iff no LLDP record names it; otherwise never NoExists |
| EosTcCabling.TestCabling | netcam_aioeos/eos/eos_tc_cabling.py:44-90 | each check's results concatenated in check order, neighbors looked up in the port-keyed map |
| TestAioCabling.TestCabling | netcam_test_aiodevices/eos/eos_tc_cabling.py:44-90 | each test's results concatenated in test order, equal to the `netcam_aioeos` generator's |
| TestAioCabling.TestOneInterface | netcam_test_aiodevices/eos/eos_tc_cabling.py:93-132 | the failures appended to a list, then a Pass unless one of them is a failure, give exactly the specification `OneInterface` |
| TopologyDeviceInfo.ModelMatchRules | netcam_aioeos/topology/eos_check_device_info.py:69-70 | the models agree on their common length iff one is a prefix of the other; an empty model on either side always matches |
| TopologyDeviceInfo.OnMismatch | netcam_aioeos/topology/eos_check_device_info.py:72-73 | whatever the field, the callback returns Pass iff one of the captured models is a prefix of the other, and Fail otherwise |
| TopologyDeviceInfo.CheckDeviceInfo | netcam_aioeos/topology/eos_check_device_info.py:45-84 | exactly two entries about the first check: its measurement, whose mismatches pass iff one model is a prefix of the other (always for an empty expected model), then the Info carrying the version record |
| EosTcDeviceInfo.DeviceInfo | netcam_aioeos/eos/eos_tc_device_info.py:39-84 | exactly two results about the first check: on "product_model", carrying the device model, a Pass iff the device model starts with the expected one and a Fail otherwise (always when the expected model is longer); then an Info carrying the version record |
| TestAioDeviceInfo.DeviceInfo | netcam_test_aiodevices/eos/eos_tc_device_info.py:34-70 | exactly two results about the first test: on "product_model", carrying the device model, a Pass iff the device model starts with the expected one and a Fail otherwise; then an Info about the first test on "version", carrying the version record |
| AioDeviceInfo.DeviceInfo | netcam_aio_devices/eos/eos_tc_device_info.py:34-70 | exactly two results about the first test: on "product_model", a Pass iff the device model starts with the expected one and otherwise the plain failure carrying the device model; then an Info carrying the version record |
| VlanMembers.VlanCheckId | netcam_aioeos/eos/eos_tc_vlans.py:57-58 | the check id is the VLAN id in canonical decimal form, and reading it back gives the id |
| VlanMembers.MergeKeys | netcam_aioeos/eos/eos_tc_vlans.py:51-53 | the dictionary update keeps the existing interfaces in front, in order, and its keys are exactly the union of both |
| VlanMembers.MergedRules | netcam_aioeos/eos/eos_tc_vlans.py:49-53 | the merge keeps every VLAN with its name and status and its own interfaces in front, and a configured VLAN gains exactly the configured interfaces it lacked |
| VlanMembers.MergeConfigured | netcam_aioeos/eos/eos_tc_vlans.py:51-53 | the merge loop over the configured-ports table, taking keys in any order, computes exactly `Merged` |
| VlanMembers.MeasuredMembers | netcam_aioeos/eos/eos_tc_vlans.py:137-141 | no measured member is a peer entry or the CPU, and there are no more measured members than listed interfaces |
| VlanMembers.MeasuredMembersRules | netcam_aioeos/eos/eos_tc_vlans.py:137-141 | a name is a measured member iff the device lists it and it is neither a "Peer" entry nor "Cpu", or it is the VLAN's SVI `Vlan<id>` and the device lists "Cpu" |
| EosTcVlans.FieldFailsRules | netcam_aioeos/eos/eos_tc_vlans.py:96-123 | the field failures are all Fail mismatches: "status" iff the VLAN is not active, "name" iff the names differ |
| EosTcVlans.MemberFailsRules | netcam_aioeos/eos/eos_tc_vlans.py:143-163 | the membership failures are all Fail and on neither "status" nor "name": MissingMembers iff an expected member is not measured, ExtraMembers iff a measured one is not expected |
| EosTcVlans.FailsRules | netcam_aioeos/eos/eos_tc_vlans.py:96-163 | each failure of a VLAN comes from its own condition and all of them are Fail, never NoExists |
| EosTcVlans.OneVlanRules | netcam_aioeos/eos/eos_tc_vlans.py:86-178 | "status" fails iff the VLAN is not active, "name" iff the names differ, MissingMembers iff an expected member is not measured, ExtraMembers iff a measured one is not expected; the Pass, carrying name, status and members, comes iff none of these holds and is then the only result |
| EosTcVlans.OneCheckRules | netcam_aioeos/eos/eos_tc_vlans.py:55-76 | a VLAN the device lacks is exactly one NoExists; one it has is never NoExists and is judged on its merged membership, so every configured interface that is not a peer entry or the CPU counts as a member |
| EosTcVlans.CheckVlans | netcam_aioeos/eos/eos_tc_vlans.py:30-76 | each check's results in check order, against the table with the configured-ports interfaces merged in |
| TestAioVlans.TestOneVlan | netcam_test_aiodevices/eos/eos_tc_vlans.py:87-179 | the failures appended one by one, then the Pass unless one is a failure, give exactly the `netcam_aioeos` specification `OneVlan` |
| TestAioVlans.TestVlans | netcam_test_aiodevices/eos/eos_tc_vlans.py:30-75 | each test's results in test order against the merged table, equal to the `netcam_aioeos` generator's |
| TopologyVlans.ActiveIdsRules | netcam_aioeos/vlans/eos_check_vlans.py:87-91 | a VLAN id is measured active iff its canonical decimal key is a VLAN whose status is "active" |
| TopologyVlans.OneVlan | netcam_aioeos/vlans/eos_check_vlans.py:162-203 | the entry is a measurement of the check, in the collection's exclusive mode |
| TopologyVlans.OneVlanRules | netcam_aioeos/vlans/eos_check_vlans.py:162-203 | oper_up is the VLAN being active and the name is the device's, the members are the measured member set; in exclusive mode missing and extra members are each logged as a Fail on "interfaces" iff there are some, and outside it nothing is logged |
| TopologyVlans.OnMismatch | netcam_aioeos/vlans/eos_check_vlans.py:205-227 | "name" always passes, warning iff the design names the VLAN; "interfaces" passes iff the member sets are equal (exclusive) or every expected member is measured (otherwise) and is otherwise left to `measure()`; the callback never decides Fail, and other fields are left to `measure()` |
| TopologyVlans.OneCheck | netcam_aioeos/vlans/eos_check_vlans.py:110-122 | every check contributes an entry about itself, never the exclusive-list entry |
| TopologyVlans.CheckVlans | netcam_aioeos/vlans/eos_check_vlans.py:52-132 | one entry per check in check order against the prepared table, then, exactly in exclusive mode, one exclusive-list entry comparing the expected ids with the active VLAN ids (VLAN 1 dropped unless it is checked) |
| TopologyVlans.OneCheckRules | netcam_aioeos/vlans/eos_check_vlans.py:82-122 | a check is unmeasured iff its VLAN is not on the device, or it is VLAN 1 and VLAN 1 is not checked; otherwise it is measured on the merged membership |
| TopologySwitchports.CheckSwitchports | netcam_aioeos/vlans/eos_check_switchports.py:50-107 | one entry per switchport check, in check order, each the entry of that check against the device's switchport table |
| TopologySwitchports.OneCheckRules | netcam_aioeos/vlans/eos_check_switchports.py:92-162 | an interface the device does not report is the only unmeasured entry; an access port is measured on mode and access VLAN against the expected VLAN id; a trunk on mode, native VLAN and allowed-VLAN string, expecting the native id (none when unset) and "ALL" for an empty allowed list, otherwise the range string of the sorted ids |
| TopologySwitchports.AllowedOrderIgnored | netcam_aioeos/vlans/eos_check_switchports.py:152-156 | the expected allowed-VLAN string is the same for any two orderings of the same VLAN ids |
| EosTcSwitchports.ModeFailsRules | netcam_aioeos/eos/eos_tc_switchports.py:100-176 | every failure a mode handler reports is a field mismatch, and each field (access VLAN, native VLAN, allowed VLANs) fails exactly when its own comparison fails; the native VLAN is compared only when the design sets a non-zero one |
| EosTcSwitchports.TrunkFailsRules | netcam_aioeos/eos/eos_tc_switchports.py:125-176 | the trunk handler reports only field mismatches: one on the native VLAN exactly when the design sets a non-zero native VLAN that differs, and one on the allowed list exactly when the expected allowed string differs |
| EosTcSwitchports.OneCheckRules | netcam_aioeos/eos/eos_tc_switchports.py:61-95 | a port the device does not report gives exactly one NoExists; a mode mismatch gives exactly one failure on the mode field; otherwise the handler's failures follow their rules, and a Pass carrying the port's record is produced exactly when there are none, as the only result |
| EosTcSwitchports.AllowedOrderIgnored | netcam_aioeos/eos/eos_tc_switchports.py:149-174 | the expected allowed-VLAN string ("NONE" for an empty list) is the same for any two orderings of the same VLAN ids |
| EosTcSwitchports.TestSwitchports | netcam_aioeos/eos/eos_tc_switchports.py:42-97 | the results are the concatenation, in check order, of each check's results |
| BgpPeeringDefs.StateTableRules | netcam_aioeos/bgp_peering/eos_check_bgp_peering_defs.py:15-24 | the state table has exactly the six EOS spellings as keys, is a bijection between them and the neighbor states, and has no entry for any other string |
| EosChecksBgpRouters.VrfName | netcam_aioeos/bgp_peering/eos_checks_bgp_routers.py:74 | the VRF looked up is the check's VRF when it is set and non-empty, and "default" otherwise; never empty |
| EosChecksBgpRouters.OneCheckRules | netcam_aioeos/bgp_peering/eos_checks_bgp_routers.py:68-84 | the measured router id is the VRF's, or "" when it reports none; the measured AS number is the reported one read back from its decimal form, or -1 exactly when none is reported |
| EosChecksBgpRouters.CheckBgpNeighbors | netcam_aioeos/bgp_peering/eos_checks_bgp_routers.py:28-58 | one entry per router check, in check order, each measured from the VRF that check names |
| EosDut.CacheGetRules | netcam_aioeos/eos_dut.py:79-85 | the device is asked exactly when the key holds no truthy reply; a hit returns the stored reply and leaves the cache alone; afterwards the key holds the value returned and no other key changes |
| EosDut.SecondLookup | netcam_aioeos/eos_dut.py:79-85 | a truthy reply is fetched once: a second lookup of the same key asks nothing and returns it again, while a falsy reply is fetched again |
| EosDut.EosDeviceUnderTest.constructor | netcam_aioeos/eos_dut.py:64-71 | a new device starts with an empty response cache, has sent no command, and its registry holds exactly the seven executors the class body registers (LAG, MLAG and BGP-router collections have none) |
| EosDut.EosDeviceUnderTest.Register | netcam_aioeos/eos_dut.py:139-199 | a registration adds or replaces the handler of one collection type and changes nothing else |
| EosDut.EosDeviceUnderTest.Dispatch | netcam_aioeos/eos_dut.py:123-127 | a collection type with a registered handler gets that handler, any other gets None; on the registry the class body builds this agrees with `EosDut.ExecuteTestcases` |
| EosDut.EosDeviceUnderTest.ApiCacheGet | netcam_aioeos/eos_dut.py:79-85 | the new cache and the value returned are those of the cache lookup, and the command is sent (appended to the commands sent) exactly when the lookup fetches |
| EosDut.EosDeviceUnderTest.GetSwitchports | netcam_aioeos/eos_dut.py:87-90 | the switchport table is looked up under the "switchports" key, sending "show interfaces switchport" only on a miss |
| EosDut.EosDeviceUnderTest.GetBgpSummary | netcam_aioeos/bgp_peering/eos_checks_bgp_routers.py:51-53 | the BGP summary is looked up under the "bgp-summary" key, sending "show ip bgp summary vrf all" only on a miss |
| EosDut.ExecuteTestcases | netcam_aioeos/eos_dut.py:123-205 | the default (no executor) is taken exactly for LAG, MLAG and BGP-router collections; each other collection type goes to the executor registered for it |
| TestAioDut.ExecuteTestcases | netcam_test_aiodevices/eos/eos_dut.py:63-93 | exactly device-information, interface and transceiver collections have an executor, each its own; every other type raises the "Missing: device ..." error |
| TestAioDut.MissingMessageNames | netcam_test_aiodevices/eos/eos_dut.py:66-69 | the error text starts "Missing: device ", then the device name, and ends with the collection's class name in quotes |
| Results.WithPassUnlessFailed | netcam_aioeos/eos/eos_tc_interfaces.py:228-235 | the pass result is added exactly when the results so far hold no failure; the failures are unchanged and a pass is present afterwards exactly when one was already there or nothing failed |
| Results.SameMembersIffNoDifference | netcam_aioeos/eos/eos_tc_lags.py:111-130 | the expected and measured member sets are equal exactly when both set differences (missing and extra) are empty |
| EosPayloads.MeasuredAddress | netcam_aioeos/topology/eos_check_ipaddrs.py:135-148 | an address string is measured exactly when the reply has the address and mask length keys, and it is the address, a slash and the decimal mask length |
| EosPayloads.MeasuredAddressInjective | netcam_aioeos/topology/eos_check_ipaddrs.py:137 | two replies render the same address string exactly when their addresses and mask lengths agree, whatever characters the address holds (the split is taken at the last slash, before the digits) |
| Strings.AfterLast | netcam_aioeos/topology/eos_check_ipaddrs.py:283 | the last piece of a split is the suffix right after an occurrence of the separator and contains no separator, or is the whole name when the separator does not occur |
| Strings.AfterLastFollowsSeparator | netcam_aioeos/topology/eos_check_ipaddrs.py:283 | whenever the separator occurs, the piece kept is strictly shorter than the name and an occurrence of the separator sits right before it |
| Strings.AfterLastVlanExample | netcam_aioeos/topology/eos_check_ipaddrs.py:283 | the VLAN id of "Vlan10" is "10" |
| EosPayloads.UsedPorts | netcam_aioeos/topology/eos_check_transceivers.py:169-173 | the used ports are exactly the numbers of the inventory slots whose model name is set |
| EosPayloads.UsedPortLookup | netcam_aioeos/topology/eos_check_transceivers.py:169-173 | with canonical decimal slot keys, a port is in use exactly when the slot looked up by its decimal name holds a transceiver |

## Left out

- The eAPI transport (`eapi.cli`, connection checks, DUT setup and teardown) is not modelled. Every executor is given the decoded `show` replies as parameters, and a cache lookup is given the reply the device would send.
- The asyncio lock around the response cache is left out. The cache is modelled sequentially.
- The design library's `measure()` and its default mismatch semantics are not modelled. The generation-1 executors therefore state what they hand to it, not the Pass or Fail it produces.
- `DeviceInterface` natural sort order, `range_string`, and the transceiver model, type, hostname and port-name matchers are function-typed parameters. Nothing is assumed about their behaviour.
- Member lists whose only role is presentation order (missing and extra interfaces, LAG and VLAN members) are carried as sets or in their reply order, not in natural interface order. Where `sorted()` of strings decides an outcome (MLAG), a lexicographic sort is modelled.
- Interface speed uses floating point in the source (`BITS_TO_MBS`). It is modelled as the integer `bandwidth / 1_000_000` under a divisibility precondition.
- pydantic validation (`PositiveInt`, `parse_obj`) appears only as preconditions.
- The expected interface values `used`, `oper_up`, `desc` and `speed` are never None in the model (`Design.IfState` holds plain values). The design may leave `oper_up` unset on a reserved interface (netcam_test_aiodevices/eos/eos_tc_interfaces.py:157-159); the generations with a falsy skip would skip such a field, while netcam_aio_devices/eos/testing_services/eos_testcases_interfaces.py:122-138 and netcam_aio_devices/eos/testing_services/eos_test_interfaces.py:108-118 would always report it as a mismatch. Neither case is modelled.
- A record present in a reply is a non-empty dictionary in the model. The source's `if not x:` tests (for example netcam_aioeos/topology/eos_check_interfaces.py:158, 255 and 325) also treat an empty dictionary as missing; an empty record is not representable, so that case is not modelled.
- Python `int()` of a reply string is modelled for strings of decimal digits only. The sign, whitespace and underscores it also accepts are not modelled.
- Strings.IsDigit: accepts only the ASCII digits `0`-`9`. Python's `\d` and `int()` also accept the other Unicode decimal digits, which are not modelled.
- Crash paths of the source are preconditions of the member that would raise. These are a KeyError on `pop("1")` or `pop("bundled")`, a failed MLAG regex group, a missing interface or VLAN record, a missing router VRF or unreadable AS number, a KeyError on a missing mask length in the exclusive IP-address list (`MaskLensKnown`), and the IndexError of `checks[0]` on an empty device-information collection (`requires |checks| > 0`). The one exception is the interface crash under "## Findings".
- TopologyLags.OneCheck: the KeyError of `pop("bundled")` when no member of a port-channel is bundled is excluded by its precondition, so the model never sees a port-channel with no bundled member.
- TopologyVlans.CheckVlans: the collection-wide exclusive entry keeps the expected VLAN ids as the strings `check_id()` yields and the measured ids as integers, as the source builds them. Whether `measure()` treats these as equal is not part of this model.
- TopologyInterfaces.OneInterface: the source sets `used = False` on the forced-unused check's expected values in place. The model puts a copy with `used` false in the entry instead, so the change to the design's check object is not modelled.
- TopologySwitchports.CheckSwitchports: the source overwrites fields of each check's expected values in place. The model returns the rewritten expected values in the entry instead, so aliasing of the check object is not modelled.
- In the used-ports computation, a transceiver slot without a `modelName` is treated like one whose model name is empty (both falsy), as the `.get` lookup there reads it. The per-interface checks index `modelName` directly and raise KeyError on a slot without it; the slot record always carries a model name, so that crash is not representable.
- The missing-members result of an unbundled LAG member has no field in the source. It is modelled with the field name "".
- VLAN design profiles are reduced to their VLAN ids.
- The class name of a check collection in the "Missing: device ..." error is a parameter.
- The message text of Fail results is not modelled, beyond the field and value it reports.
- The switchport mode of an expectation is tied to its variant (access or trunk). A mode string that names neither is not representable.
- EosTcSwitchports.OneCheck: the `mode_handler` lookup that yields None for an unknown mode is excluded by the same typing.
- netcam_aioeos/eos_dut.py registers names that the topology and VLAN modules do not define under those names (for example `eos_tc_device_info` against `eos_check_device_info`). The registry is modelled by the names the DUT registers.
- netcam_aioeos/eos/eos_xcvr_matching.py and netcam_test_aiodevices/eos/eos_xcvr_matching.py are not part of this model. The generation-2 and test-device transceiver matchers are parameters.
- The configuration, credentials, plugin glue, device configuration push and reflection-based registration files hold no comparison logic and are not modelled. The BGP-peering executor, which is a stub returning no results, is left out for the same reason.

## Findings

| source | as written | input that shows it | evidently intended | confidence | as-written member | corrected member |
|---|---|---|---|---|---|---|
| netcam_aioeos/eos/eos_tc_interfaces.py:169-178 | after reporting a check's interface as missing (NoExists), the loop does not `continue`: it builds the measurement from the absent status record and the evaluation aborts | one interface check "Ethernet1" whose name is not in `show interfaces status` | report NoExists for that interface and go on to the next check | not executed | EosTcInterfaces.AsWrittenAbortsOnMissingPort | EosTcInterfaces.MissingPortIsNoExists |
