/**
 * The collection dispatch of the `netcam_test_aiodevices` DUT, and of the
 * `netcam_aio_devices` DUT, whose source is the same line for line. Only device
 * information, interfaces and transceivers are registered; any other
 * collection type is an error naming the device and the collection's class.
 */
module TestAioDut {
  import opened Design

  /** What `execute_testcases` does with a collection: run an executor, or raise. */
  datatype Dispatch = Executor(name: string) | Missing(message: string)

  /** The `RuntimeError` message of the default. */
  function MissingMessage(device: string, clsName: string): string {
    "Missing: device " + device + " support for testcases of type \"" + clsName + "\""
  }

  /** `execute_testcases`; `clsName` is the collection's class name. */
  function ExecuteTestcases(device: string, kind: CollectionKind, clsName: string): (d: Dispatch)
    ensures d.Executor? <==> kind == DeviceInformationChecks || kind == InterfaceChecks || kind == TransceiverChecks
    ensures kind == DeviceInformationChecks ==> d == Executor("eos_tc_device_info")
    ensures kind == InterfaceChecks ==> d == Executor("eos_tc_interfaces")
    ensures kind == TransceiverChecks ==> d == Executor("eos_test_transceivers")
    ensures d.Missing? ==> d.message == MissingMessage(device, clsName)
  {
    match kind
    case DeviceInformationChecks => Executor("eos_tc_device_info")
    case InterfaceChecks => Executor("eos_tc_interfaces")
    case TransceiverChecks => Executor("eos_test_transceivers")
    case _ => Missing(MissingMessage(device, clsName))
  }

  /** The error message names the device and the collection's class, each where the text puts it. */
  lemma MissingMessageNames(device: string, clsName: string)
    ensures var m := MissingMessage(device, clsName);
            && m[..16] == "Missing: device "
            && m[16..16 + |device|] == device
            && m[|m| - |clsName| - 1..|m| - 1] == clsName
  {
  }
}
