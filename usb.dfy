/**
 * The parts of libusb the driver depends on, as data. Every libusb call
 * is replaced by the result it returns; the library itself is not part of
 * this model. The error codes are libusb 1.0's.
 */
module Usb {
  const Success: int := 0
  const ErrorInvalidParam: int := -2
  const ErrorNoDevice: int := -4

  /** One alternate setting of an interface: its interface number, the
      answers to "is a kernel driver active", the auto-detach request, and
      the results of successive claim requests for it. */
  datatype AltSetting = AltSetting(number: bv8, kernelActive: bool, detachResult: int, claimResults: seq<int>)

  /** Result of the `j`-th claim request on an alternate setting (0-based);
      requests beyond the listed ones succeed. */
  function ClaimResult(a: AltSetting, j: nat): int
  {
    if j < |a.claimResults| then a.claimResults[j] else Success
  }

  /** The configuration descriptor read for one configuration: the read
      result, bConfigurationValue, and per interface its alternate settings. */
  datatype ConfigEntry = ConfigEntry(result: int, value: bv8, interfaces: seq<seq<AltSetting>>)

  /** One entry of libusb's device list: the device-descriptor read result,
      idVendor, idProduct, the open result and one config entry per
      configuration (bNumConfigurations of them). */
  datatype DeviceEntry = DeviceEntry(descResult: int, vendor: bv16, product: bv16, openResult: int, configs: seq<ConfigEntry>)

  /** What `libusb_get_device_list` returns: a negative error code, or the
      NULL-terminated list (whose length is the return value). */
  datatype DeviceList = ListFailed(code: ListError) | Listed(devs: seq<DeviceEntry>)

  /** The libusb error codes are negative. */
  type ListError = c: int | c < 0 witness -1

  /** A transfer handed to `libusb_submit_transfer`: a bulk transfer to an
      endpoint, or a control transfer whose buffer is the setup packet
      followed by the data stage. */
  datatype Transfer = BulkOut(endpoint: bv8, payload: seq<bv8>) | ControlOut(packet: seq<bv8>)
}
