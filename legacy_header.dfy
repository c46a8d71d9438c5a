/**
 * The older global-state library's header (libg19.h): the same 24 keys as
 * the per-device header, laid out with the G-keys and M-keys in the low
 * 16 bits and the L-keys above them, and the documented LCD data size.
 */
module LegacyHeader {
  import opened G19

  /** Bit position of a key in the old layout. */
  function LegacyPosition(k: Key): (p: nat)
    ensures p < 24
    ensures k.IsGKey() <==> p < 12
    ensures k.IsMKey() <==> 12 <= p < 16
    ensures k.IsLKey() <==> 16 <= p
  {
    match k
    case G1 => 0      case G2 => 1       case G3 => 2     case G4 => 3
    case G5 => 4      case G6 => 5       case G7 => 6     case G8 => 7
    case G9 => 8      case G10 => 9      case G11 => 10   case G12 => 11
    case M1 => 12     case M2 => 13      case M3 => 14    case MR => 15
    case LHome => 16  case LCancel => 17 case LMenu => 18 case LOk => 19
    case LRight => 20 case LLeft => 21   case LDown => 22 case LUp => 23
  }

  /** The key's constant as the old header writes it. */
  function LegacyBit(k: Key): bv32
  {
    match k
    case G1 => 1 << 0      case G2 => 1 << 1       case G3 => 1 << 2     case G4 => 1 << 3
    case G5 => 1 << 4      case G6 => 1 << 5       case G7 => 1 << 6     case G8 => 1 << 7
    case G9 => 1 << 8      case G10 => 1 << 9      case G11 => 1 << 10   case G12 => 1 << 11
    case M1 => 1 << 12     case M2 => 1 << 13      case M3 => 1 << 14    case MR => 1 << 15
    case LHome => 1 << 16  case LCancel => 1 << 17 case LMenu => 1 << 18 case LOk => 1 << 19
    case LRight => 1 << 20 case LLeft => 1 << 21   case LDown => 1 << 22 case LUp => 1 << 23
  }

  /** The old constants of G9 to G12 and of the M-keys. */
  lemma HighGKeyConstants()
    ensures LegacyBit(G9) == 0x100 && LegacyBit(G10) == 0x200 && LegacyBit(G11) == 0x400 && LegacyBit(G12) == 0x800
  {
  }

  lemma MKeyConstants()
    ensures LegacyBit(M1) == 0x1000 && LegacyBit(M2) == 0x2000 && LegacyBit(M3) == 0x4000 && LegacyBit(MR) == 0x8000
  {
  }

  lemma LegacyBitIsPosition(k: Key)
    ensures LegacyBit(k) == 1 << LegacyPosition(k)
  {
  }

  lemma LegacyBitsDisjoint(a: Key, b: Key)
    requires a != b
    ensures LegacyPosition(a) != LegacyPosition(b)
    ensures LegacyBit(a) & LegacyBit(b) == 0
  {
    LegacyInverses(a);
    LegacyInverses(b);
    SingleBitsMeet(LegacyBit(a), LegacyBit(b));
  }

  /** The key whose old constant is `x`, for the 24 constants. */
  function LegacyKeyOfBit(x: bv32): Key
  {
    if x == 1 << 0 then G1 else if x == 1 << 1 then G2 else if x == 1 << 2 then G3
    else if x == 1 << 3 then G4 else if x == 1 << 4 then G5 else if x == 1 << 5 then G6
    else if x == 1 << 6 then G7 else if x == 1 << 7 then G8 else if x == 1 << 8 then G9
    else if x == 1 << 9 then G10 else if x == 1 << 10 then G11 else if x == 1 << 11 then G12
    else if x == 1 << 12 then M1 else if x == 1 << 13 then M2 else if x == 1 << 14 then M3
    else if x == 1 << 15 then MR else if x == 1 << 16 then LHome else if x == 1 << 17 then LCancel
    else if x == 1 << 18 then LMenu else if x == 1 << 19 then LOk else if x == 1 << 20 then LRight
    else if x == 1 << 21 then LLeft else if x == 1 << 22 then LDown else LUp
  }

  /** The keys in old bit order. */
  const LegacyOrder: seq<Key> := GmKeys + LKeys

  lemma LegacyInverses(k: Key)
    ensures LegacyKeyOfBit(LegacyBit(k)) == k && SingleBit(LegacyBit(k))
    ensures |LegacyOrder| == 24 && LegacyOrder[LegacyPosition(k)] == k
  {
  }

  /** The G-keys and M-keys in the order the old header lists them. */
  const GmKeys: seq<Key> := [G1, G2, G3, G4, G5, G6, G7, G8, G9, G10, G11, G12, M1, M2, M3, MR]
  /** The L-keys in the order the old header lists them. */
  const LKeys: seq<Key> := [LHome, LCancel, LMenu, LOk, LRight, LLeft, LDown, LUp]

  /** The G and M constants lie in the low 16 bits, the L constants in the
      next 8. */
  lemma LegacyGroups(k: Key)
    ensures (k.IsGKey() || k.IsMKey()) <==> LegacyBit(k) & 0xFFFF == LegacyBit(k)
    ensures k.IsLKey() <==> LegacyBit(k) & 0xFF_0000 == LegacyBit(k)
  {
  }

  /** Every one of the low 16 bits is the constant of a G- or M-key, so those
      16 constants exactly fill the low 16 bits. */
  lemma LegacyGmFill(p: nat)
    requires p < 16
    ensures exists k :: LegacyPosition(k) == p && (k.IsGKey() || k.IsMKey())
  {
    assert LegacyPosition(GmKeys[p]) == p;
  }

  /** The two layouts are one rotation apart: a key sits 8 bits higher in the
      per-device header, modulo 24. */
  lemma LayoutsRotate(k: Key)
    ensures Position(k) == (LegacyPosition(k) + 8) % 24
  {
  }

  /** The largest LCD payload the old header documents: 320 x 240 pixels of
      two bytes, the per-device header's G19_BMP_DSIZE. */
  const LegacyLcdMaxData: nat := 153600

  lemma LegacyLcdMaxDataIsPanel()
    ensures LegacyLcdMaxData == LcdWidth * LcdHeight * 2 == BmpDataSize
    ensures LegacyLcdMaxData / 2 == 76800
  {
  }
}
