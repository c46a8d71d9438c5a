/**
 * Constants and the key-bit layout of the per-device library's public
 * header (libg19/libg19.h): frame sizes, the USB identifiers of the
 * keyboard, the key bit positions, the LCD update types and the version
 * code.
 */
module G19 {

  /** Total size of one LCD frame (G19_BMP_SIZE). */
  const BmpSize: nat := 154112
  /** Size of the pixel region of a frame (G19_BMP_DSIZE). */
  const BmpDataSize: nat := 153600
  /** Size of the constant header in front of the pixels (G19_DATA_HDR_SIZE). */
  const DataHeaderSize: nat := 512
  const VendorId: bv16 := 0x046d
  const ProductId: bv16 := 0xc229

  /** The panel: 320 by 240 pixels of two bytes each. */
  const LcdWidth: nat := 320
  const LcdHeight: nat := 240

  /**
   * The 512 bytes of `g19_data_hdr`. Their values are not part of this
   * model, so every operation that copies them takes them as a parameter.
   */
  type Header = h: seq<bv8> | |h| == DataHeaderSize witness seq(512, _ => 0)

  /** The frame is the header followed by the pixel region, and the pixel
      region holds one 16-bit value per pixel of the panel. */
  lemma FrameLayout()
    ensures BmpSize == DataHeaderSize + BmpDataSize
    ensures BmpDataSize == LcdWidth * LcdHeight * 2
  {
  }

  /** The special keys of the keyboard (`enum _G19Keys`). */
  datatype Key =
    | LHome | LCancel | LMenu | LOk | LRight | LLeft | LDown | LUp
    | G1 | G2 | G3 | G4 | G5 | G6 | G7 | G8 | G9 | G10 | G11 | G12
    | M1 | M2 | M3 | MR
  {
    predicate IsLKey() { LHome? || LCancel? || LMenu? || LOk? || LRight? || LLeft? || LDown? || LUp? }
    predicate IsMKey() { M1? || M2? || M3? || MR? }
    predicate IsGKey() { !IsLKey() && !IsMKey() }
  }

  /** Bit position of a key in a key word of this header. */
  function Position(k: Key): (p: nat)
    ensures p < 24
    ensures k.IsLKey() <==> p < 8
    ensures k.IsGKey() <==> 8 <= p < 20
    ensures k.IsMKey() <==> 20 <= p
  {
    match k
    case LHome => 0   case LCancel => 1  case LMenu => 2  case LOk => 3
    case LRight => 4  case LLeft => 5    case LDown => 6  case LUp => 7
    case G1 => 8      case G2 => 9       case G3 => 10    case G4 => 11
    case G5 => 12     case G6 => 13      case G7 => 14    case G8 => 15
    case G9 => 16     case G10 => 17     case G11 => 18   case G12 => 19
    case M1 => 20     case M2 => 21      case M3 => 22    case MR => 23
  }

  /** The key's constant as the header writes it. */
  function Bit(k: Key): bv32
  {
    match k
    case LHome => 1 << 0   case LCancel => 1 << 1  case LMenu => 1 << 2  case LOk => 1 << 3
    case LRight => 1 << 4  case LLeft => 1 << 5    case LDown => 1 << 6  case LUp => 1 << 7
    case G1 => 1 << 8      case G2 => 1 << 9       case G3 => 1 << 10    case G4 => 1 << 11
    case G5 => 1 << 12     case G6 => 1 << 13      case G7 => 1 << 14    case G8 => 1 << 15
    case G9 => 1 << 16     case G10 => 1 << 17     case G11 => 1 << 18   case G12 => 1 << 19
    case M1 => 1 << 20     case M2 => 1 << 21      case M3 => 1 << 22    case MR => 1 << 23
  }

  /** Each constant is the single bit at the key's position. */
  lemma BitIsPosition(k: Key)
    ensures Bit(k) == 1 << Position(k)
  {
  }

  /** Every key of the header in declaration order. */
  const AllKeys: seq<Key> := [LHome, LCancel, LMenu, LOk, LRight, LLeft, LDown, LUp,
                              G1, G2, G3, G4, G5, G6, G7, G8, G9, G10, G11, G12,
                              M1, M2, M3, MR]

  /** The 24 constants are distinct single bits: positions never collide. */
  lemma PositionInjective(a: Key, b: Key)
    ensures Position(a) == Position(b) ==> a == b
  {
  }

  lemma BitsDisjoint(a: Key, b: Key)
    requires a != b
    ensures Bit(a) & Bit(b) == 0
  {
    KeyOfBitInverse(a);
    KeyOfBitInverse(b);
    SingleBitsMeet(Bit(a), Bit(b));
  }

  /** `x` has exactly one bit set. */
  predicate SingleBit(x: bv32)
  {
    x != 0 && x & (x - 1) == 0
  }

  /** Two different single bits have no bit in common. */
  lemma SingleBitsMeet(x: bv32, y: bv32)
    requires SingleBit(x) && SingleBit(y) && x != y
    ensures x & y == 0
  {
  }

  /** The key whose constant is `x`, for the 24 constants. */
  function KeyOfBit(x: bv32): Key
  {
    if x == 1 << 0 then LHome else if x == 1 << 1 then LCancel else if x == 1 << 2 then LMenu
    else if x == 1 << 3 then LOk else if x == 1 << 4 then LRight else if x == 1 << 5 then LLeft
    else if x == 1 << 6 then LDown else if x == 1 << 7 then LUp else if x == 1 << 8 then G1
    else if x == 1 << 9 then G2 else if x == 1 << 10 then G3 else if x == 1 << 11 then G4
    else if x == 1 << 12 then G5 else if x == 1 << 13 then G6 else if x == 1 << 14 then G7
    else if x == 1 << 15 then G8 else if x == 1 << 16 then G9 else if x == 1 << 17 then G10
    else if x == 1 << 18 then G11 else if x == 1 << 19 then G12 else if x == 1 << 20 then M1
    else if x == 1 << 21 then M2 else if x == 1 << 22 then M3 else MR
  }

  lemma KeyOfBitInverse(k: Key)
    ensures KeyOfBit(Bit(k)) == k && SingleBit(Bit(k))
  {
  }

  /** Every bit position below 24 belongs to exactly one key. */
  lemma PositionOnto(p: nat)
    requires p < 24
    ensures exists k :: Position(k) == p
  {
    assert Position(AllKeys[p]) == p;
  }

  /** The LCD data formats (`enum _G19UpdateType`). */
  const UpdateTypeBmp: bv32 := 1
  const UpdateTypeRaw: bv32 := 2

  /** `g19_device_lcd` converts pixels unless the RAW bit is set. */
  predicate IsConverted(updateType: bv32)
  {
    updateType & UpdateTypeRaw == 0
  }

  lemma UpdateTypesDisjoint()
    ensures UpdateTypeBmp & UpdateTypeRaw == 0
    ensures IsConverted(UpdateTypeBmp) && !IsConverted(UpdateTypeRaw)
    ensures IsConverted(0) && !IsConverted(UpdateTypeBmp | UpdateTypeRaw)
  {
  }

  /** LIBG19_VERCODE(m1, m2, m3). */
  function VerCode(m1: bv32, m2: bv32, m3: bv32): bv32
  {
    (m1 << 16) | (m2 << 8) | m3
  }

  /** Each component below 256 can be read back from the version code. */
  lemma VerCodeComponents(m1: bv32, m2: bv32, m3: bv32)
    requires m1 < 256 && m2 < 256 && m3 < 256
    ensures VerCode(m1, m2, m3) >> 16 == m1
    ensures (VerCode(m1, m2, m3) >> 8) & 0xFF == m2
    ensures VerCode(m1, m2, m3) & 0xFF == m3
  {
  }

  /** Version codes of components below 256 are distinct. */
  lemma VerCodeInjective(a1: bv32, a2: bv32, a3: bv32, b1: bv32, b2: bv32, b3: bv32)
    requires a1 < 256 && a2 < 256 && a3 < 256
    requires b1 < 256 && b2 < 256 && b3 < 256
    requires VerCode(a1, a2, a3) == VerCode(b1, b2, b3)
    ensures a1 == b1 && a2 == b2 && a3 == b3
  {
    VerCodeComponents(a1, a2, a3);
    VerCodeComponents(b1, b2, b3);
  }

  /** LIBG19_VERSION. */
  const Version: bv32 := VerCode(1, 1, 1)

  lemma VersionValue()
    ensures Version == 0x010101
  {
  }
}
