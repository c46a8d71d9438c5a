/**
 * The control requests of both revisions: brightness, backlight colour and
 * M-key LEDs. Each buffer is an 8-byte USB setup packet followed by the
 * data stage, laid out as in section 9.3 (Table 9-2) of the USB 2.0
 * specification, which `libusb_fill_control_setup` writes.
 */
module Control {
  import opened G19
  import opened LegacyHeader
  import opened Keys

  datatype Setup = Setup(requestType: bv8, request: bv8, value: bv16, index: bv16, length: bv16)

  function Lo16(w: bv16): bv8 { (w & 0xFF) as bv8 }
  function Hi16(w: bv16): bv8 { (w >> 8) as bv8 }
  function Join16(lo: bv8, hi: bv8): bv16 { (lo as bv16) | ((hi as bv16) << 8) }

  lemma Split16(w: bv16)
    ensures Join16(Lo16(w), Hi16(w)) == w
  {
  }

  lemma Join16Bytes(lo: bv8, hi: bv8)
    ensures Lo16(Join16(lo, hi)) == lo && Hi16(Join16(lo, hi)) == hi
  {
  }

  /** The eight setup bytes; wValue, wIndex and wLength little-endian. */
  function SetupBytes(s: Setup): (b: seq<bv8>)
    ensures |b| == 8
  {
    [s.requestType, s.request, Lo16(s.value), Hi16(s.value),
     Lo16(s.index), Hi16(s.index), Lo16(s.length), Hi16(s.length)]
  }

  /** How a device reads the first eight bytes of a control buffer. */
  function ParseSetup(b: seq<bv8>): Setup
    requires |b| >= 8
  {
    Setup(b[0], b[1], Join16(b[2], b[3]), Join16(b[4], b[5]), Join16(b[6], b[7]))
  }

  lemma SetupRoundTrip(s: Setup)
    ensures ParseSetup(SetupBytes(s)) == s
  {
    Split16(s.value);
    Split16(s.index);
    Split16(s.length);
  }

  lemma SetupBytesRoundTrip(b: seq<bv8>)
    requires |b| == 8
    ensures SetupBytes(ParseSetup(b)) == b
  {
    Join16Bytes(b[2], b[3]);
    Join16Bytes(b[4], b[5]);
    Join16Bytes(b[6], b[7]);
  }

  /** A control buffer: setup packet, then exactly wLength data bytes. */
  function ControlPacket(s: Setup, payload: seq<bv8>): (p: seq<bv8>)
    requires |payload| == s.length as int
    ensures |p| == 8 + s.length as int
  {
    SetupBytes(s) + payload
  }

  /** bmRequestType of the HID requests: LIBUSB_REQUEST_TYPE_CLASS (0x20)
      or LIBUSB_RECIPIENT_INTERFACE (0x01), host to device. */
  const ClassInterfaceOut: bv8 := 0x20 | 0x01

  const BrightnessSetup := Setup(0x41, 0x10, 0x0000, 0x0000, 1)
  const BacklightSetup := Setup(ClassInterfaceOut, 0x09, 0x0307, 0x0001, 4)
  const MKeysSetup := Setup(ClassInterfaceOut, 0x09, 0x0305, 0x0001, 2)

  function BrightnessPacket(level: bv8): seq<bv8>
  {
    ControlPacket(BrightnessSetup, [level])
  }

  function BacklightPacket(r: bv8, g: bv8, b: bv8): seq<bv8>
  {
    ControlPacket(BacklightSetup, [255, r, g, b])
  }

  /** The LED byte: M1, M2, M3, MR light bits `0x10 << 3` .. `0x10 << 0`. */
  function MLedByte(keys: bv32): bv8
  {
    (if keys & Bit(M1) != 0 then 0x10 << 3 else 0)
    | (if keys & Bit(M2) != 0 then 0x10 << 2 else 0)
    | (if keys & Bit(M3) != 0 then 0x10 << 1 else 0)
    | (if keys & Bit(MR) != 0 then 0x10 << 0 else 0)
  }

  /** The same byte under the old header's M-key bits (12 to 15). */
  function LegacyMLedByte(keys: bv32): bv8
  {
    (if keys & LegacyBit(M1) != 0 then 0x10 << 3 else 0)
    | (if keys & LegacyBit(M2) != 0 then 0x10 << 2 else 0)
    | (if keys & LegacyBit(M3) != 0 then 0x10 << 1 else 0)
    | (if keys & LegacyBit(MR) != 0 then 0x10 << 0 else 0)
  }

  function MKeysPacket(led: bv8): seq<bv8>
  {
    ControlPacket(MKeysSetup, [0x10, led])
  }

  /** The LED bit each M-key lights. */
  function LedBit(k: Key): bv8
    requires k.IsMKey()
  {
    match k
    case M1 => 0x80
    case M2 => 0x40
    case M3 => 0x20
    case MR => 0x10
  }

  /** Each M-key's LED is lit exactly when that key's bit is set, the low
      nibble is always clear, and no other key bit has any effect. */
  lemma MLedByteKeys(keys: bv32, k: Key)
    requires k.IsMKey()
    ensures MLedByte(keys) & LedBit(k) != 0 <==> keys & Bit(k) != 0
    ensures MLedByte(keys) & 0x0F == 0
    ensures MLedByte(keys) == MLedByte(keys & 0xF0_0000)
  {
    match k
    case M1 =>
    case M2 =>
    case M3 =>
    case MR =>
  }

  lemma LegacyMLedByteKeys(keys: bv32, k: Key)
    requires k.IsMKey()
    ensures LegacyMLedByte(keys) & LedBit(k) != 0 <==> keys & LegacyBit(k) != 0
    ensures LegacyMLedByte(keys) & 0x0F == 0
    ensures LegacyMLedByte(keys) == LegacyMLedByte(keys & 0xF000)
  {
    match k
    case M1 =>
    case M2 =>
    case M3 =>
    case MR =>
  }

  /** The old library's LED byte is the new one after moving the M-key
      bits up by eight, from bits 12-15 of the old layout to 20-23. */
  lemma MLedRevisions(keys: bv32)
    ensures LegacyMLedByte(keys) == MLedByte(keys << 8)
  {
  }

  /** What the device reads back from each control buffer. */
  lemma PacketLayouts(level: bv8, r: bv8, g: bv8, b: bv8, led: bv8)
    ensures ParseSetup(BrightnessPacket(level)) == BrightnessSetup
    ensures BrightnessPacket(level)[8..] == [level]
    ensures ParseSetup(BacklightPacket(r, g, b)) == BacklightSetup
    ensures BacklightPacket(r, g, b)[8..] == [255, r, g, b]
    ensures ParseSetup(MKeysPacket(led)) == MKeysSetup
    ensures MKeysPacket(led)[8..] == [0x10, led]
    ensures ClassInterfaceOut == 0x21
  {
    SetupRoundTrip(BrightnessSetup);
    SetupRoundTrip(BacklightSetup);
    SetupRoundTrip(MKeysSetup);
  }
}
