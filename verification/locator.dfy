/**
 * Device discovery: one BLE scan, then the address of the first scanned device whose
 * advertised name equals the requested name exactly. Both program variants behave alike;
 * a scan that raises (Bluetooth switched off) is reported differently from no match.
 */
module Locator {
  import opened Wrappers
  import opened Py
  import opened Events

  /** A scanned device; Bleak reports `None` for a device that advertises no name. */
  datatype Device = Device(name: Option<string>, address: string)

  /** What `BleakScanner.discover()` produced. */
  datatype ScanResult = ScanRaises | Discovered(devices: seq<Device>)

  /** Position of the first device named exactly `target`. */
  function FirstNamed(devices: seq<Device>, target: string): (k: Option<nat>)
    ensures k.Some? ==> k.value < |devices| && devices[k.value].name == Some(target)
    ensures k.Some? ==> forall j | 0 <= j < k.value :: devices[j].name != Some(target)
    ensures k.None? ==> forall j | 0 <= j < |devices| :: devices[j].name != Some(target)
  {
    First(devices, (d: Device) => d.name == Some(target))
  }

  /** `scan_devices`: the events it emits and the address it returns. */
  function ScanDevices(target: string, scan: ScanResult): (r: Step<Option<string>>)
    ensures |r.events| == 2 && r.events[0] == ScanStarted && r.events[1].Log?
  {
    match scan
    case ScanRaises => Step([ScanStarted, Log(BluetoothOff)], None)
    case Discovered(devices) =>
      match FirstNamed(devices, target)
      case Some(k) => Step([ScanStarted, Log(DeviceFound(target))], Some(devices[k].address))
      case None => Step([ScanStarted, Log(DeviceNotFound)], None)
  }

  /**
   * An address is returned exactly when the scan succeeded and some device carries the name;
   * it is the address of the first such device.
   */
  lemma ScanSelectsFirstMatch(target: string, scan: ScanResult)
    ensures ScanDevices(target, scan).value.Some? <==>
      scan.Discovered? && exists k | 0 <= k < |scan.devices| :: scan.devices[k].name == Some(target)
    ensures ScanDevices(target, scan).value.Some? ==>
      exists k | 0 <= k < |scan.devices| ::
        && scan.devices[k].name == Some(target)
        && ScanDevices(target, scan).value.value == scan.devices[k].address
        && forall j | 0 <= j < k :: scan.devices[j].name != Some(target)
  {
    if scan.Discovered? {
      var k := FirstNamed(scan.devices, target);
      if k.Some? {
        assert scan.devices[k.value].name == Some(target);
      }
    }
  }

  /** The worked discovery case: a match among other devices, and a name nobody carries. */
  lemma DiscoveryExample()
    ensures ScanDevices("PWR-7734", Discovered([Device(None, "AA"), Device(Some("LAMP"), "BB"),
      Device(Some("PWR-7734"), "CC"), Device(Some("PWR-7734"), "DD")])).value == Some("CC")
    ensures ScanDevices("NOPE", Discovered([Device(None, "AA"), Device(Some("LAMP"), "BB"),
      Device(Some("PWR-7734"), "CC")])).value == None
  {
    var devices := [Device(None, "AA"), Device(Some("LAMP"), "BB"), Device(Some("PWR-7734"), "CC"), Device(Some("PWR-7734"), "DD")];
    assert FirstNamed(devices[2..], "PWR-7734") == Some(0);
    assert devices[1..][1..] == devices[2..];
    assert FirstNamed(devices, "PWR-7734") == Some(2);
  }
}
