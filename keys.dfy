/**
 * Key decoding. The older library tests the bits of the interrupt payload
 * one by one and ORs the old header's constants into the result
 * (`g19_lkey_data_keys`, `g19_gkey_data_keys`); the per-device library
 * copies the payload into a `uint32_t` with `memcpy`, which on the
 * little-endian hosts the code is written for is a little-endian load.
 */
module Keys {
  import opened G19
  import opened LegacyHeader

  /** `if (cond) *keys |= bit;` contributes `bit` or nothing. */
  function Flag(cond: bool, bit: bv32): bv32
  {
    if cond then bit else 0
  }

  /** The mask `1 << j` of bit `j` of a byte. */
  function ByteMask(j: nat): (m: bv8)
    requires j < 8
  {
    if j == 0 then 0x01 else if j == 1 then 0x02 else if j == 2 then 0x04 else if j == 3 then 0x08
    else if j == 4 then 0x10 else if j == 5 then 0x20 else if j == 6 then 0x40 else 0x80
  }

  /** Whether bit `j` of byte `b` is set. */
  predicate ByteBit(b: bv8, j: nat)
    requires j < 8
  {
    b & ByteMask(j) != 0
  }

  lemma ByteMaskIsShift(j: nat)
    requires j < 8
    ensures ByteMask(j) == 1 << j
  {
  }

  /**
   * `g19_lkey_data_keys`: only `data[0]` is read; its eight bits, low to
   * high, are HOME, CANCEL, MENU, OK, RIGHT, LEFT, DOWN, UP, which the old
   * layout keeps in bits 16 to 23, so the result is `data[0] << 16`.
   */
  function LegacyLKeys(data: seq<bv8>): (keys: bv32)
    requires |data| >= 1
    ensures keys == (data[0] as bv32) << 16
  {
    Flag(data[0] & 0x1 != 0, LegacyBit(LHome))
    | Flag(data[0] & 0x2 != 0, LegacyBit(LCancel))
    | Flag(data[0] & 0x4 != 0, LegacyBit(LMenu))
    | Flag(data[0] & 0x8 != 0, LegacyBit(LOk))
    | Flag(data[0] & 0x10 != 0, LegacyBit(LRight))
    | Flag(data[0] & 0x20 != 0, LegacyBit(LLeft))
    | Flag(data[0] & 0x40 != 0, LegacyBit(LDown))
    | Flag(data[0] & 0x80 != 0, LegacyBit(LUp))
  }

  /** The second early return of `g19_gkey_data_keys` masks both bytes with
      zero, so it can never be taken. */
  predicate ZeroMaskGuard(data: seq<bv8>)
    requires |data| >= 3
  {
    var d1, d2 := data[1], data[2];
    (d1 & 0x0 != 0) && (d2 & 0x0 != 0)
  }

  lemma ZeroMaskGuardNeverFires(data: seq<bv8>)
    requires |data| >= 3
    ensures !ZeroMaskGuard(data)
  {
  }

  /** The tests of `data[1]` in `g19_gkey_data_keys`: G1 to G8. */
  function GKeysOfFirstByte(d1: bv8): (keys: bv32)
    ensures keys == d1 as bv32
  {
    Flag(d1 & 0x1 != 0, LegacyBit(G1))
    | Flag(d1 & 0x2 != 0, LegacyBit(G2))
    | Flag(d1 & 0x4 != 0, LegacyBit(G3))
    | Flag(d1 & 0x8 != 0, LegacyBit(G4))
    | Flag(d1 & 0x10 != 0, LegacyBit(G5))
    | Flag(d1 & 0x20 != 0, LegacyBit(G6))
    | Flag(d1 & 0x40 != 0, LegacyBit(G7))
    | Flag(d1 & 0x80 != 0, LegacyBit(G8))
  }

  /** The tests of `data[2]` in `g19_gkey_data_keys`: G9 to G12, M1 to MR. */
  function GKeysOfSecondByte(d2: bv8): (keys: bv32)
    ensures keys == (d2 as bv32) << 8
  {
    SecondByteConstants();
    SecondByteFlags(d2);
    Flag(d2 & 0x1 != 0, LegacyBit(G9))
    | Flag(d2 & 0x2 != 0, LegacyBit(G10))
    | Flag(d2 & 0x4 != 0, LegacyBit(G11))
    | Flag(d2 & 0x8 != 0, LegacyBit(G12))
    | Flag(d2 & 0x10 != 0, LegacyBit(M1))
    | Flag(d2 & 0x20 != 0, LegacyBit(M2))
    | Flag(d2 & 0x40 != 0, LegacyBit(M3))
    | Flag(d2 & 0x80 != 0, LegacyBit(MR))
  }

  lemma SecondByteConstants()
    ensures LegacyBit(G9) == 0x100 && LegacyBit(G10) == 0x200 && LegacyBit(G11) == 0x400 && LegacyBit(G12) == 0x800
    ensures LegacyBit(M1) == 0x1000 && LegacyBit(M2) == 0x2000 && LegacyBit(M3) == 0x4000 && LegacyBit(MR) == 0x8000
  {
    HighGKeyConstants();
    MKeyConstants();
  }

  /** Eight flags at bits 8 to 15 are the byte shifted by eight. */
  lemma SecondByteFlags(d2: bv8)
    ensures Flag(d2 & 0x1 != 0, 0x100) | Flag(d2 & 0x2 != 0, 0x200) | Flag(d2 & 0x4 != 0, 0x400)
          | Flag(d2 & 0x8 != 0, 0x800) | Flag(d2 & 0x10 != 0, 0x1000) | Flag(d2 & 0x20 != 0, 0x2000)
          | Flag(d2 & 0x40 != 0, 0x4000) | Flag(d2 & 0x80 != 0, 0x8000) == (d2 as bv32) << 8
  {
  }

  /**
   * `g19_gkey_data_keys`: nothing when the presence byte `data[0]` is zero;
   * otherwise `data[1]` gives G1..G8 and `data[2]` gives G9..G12, M1..MR,
   * which in the old layout is exactly `data[1] | data[2] << 8`.
   */
  function LegacyGKeys(data: seq<bv8>): (keys: bv32)
    requires |data| >= 3
    ensures data[0] == 0 ==> keys == 0
    ensures data[0] != 0 ==> keys == (data[1] as bv32) | ((data[2] as bv32) << 8)
    ensures keys & 0xFFFF_0000 == 0
  {
    if data[0] < 1 then 0
    else if ZeroMaskGuard(data) then 0
    else GKeysOfFirstByte(data[1]) | GKeysOfSecondByte(data[2])
  }

  /** Each L-key is reported exactly when its bit of `data[0]` is set. */
  lemma LegacyLKeyBit(data: seq<bv8>, k: Key)
    requires |data| >= 1 && k.IsLKey()
    ensures LegacyBit(k) & LegacyLKeys(data) != 0 <==> ByteBit(data[0], LegacyPosition(k) - 16)
  {
    var w := LegacyLKeys(data);
    LegacyKeyBitLane(k);
    ByteLane(w, ByteMask(LegacyPosition(k) % 8), LegacyPosition(k) / 8);
    assert ByteOf(w, 2) == data[0];
  }

  /** Each G- or M-key is reported exactly when the presence byte is non-zero
      and its bit of `data[1]` (G1..G8) or `data[2]` (the rest) is set. */
  lemma LegacyGKeyBit(data: seq<bv8>, k: Key)
    requires |data| >= 3 && !k.IsLKey()
    ensures LegacyBit(k) & LegacyGKeys(data) != 0 <==>
      data[0] != 0 && ByteBit(if LegacyPosition(k) < 8 then data[1] else data[2], LegacyPosition(k) % 8)
  {
    if data[0] != 0 {
      PairKey(data[1], data[2], k);
    }
  }

  lemma PairKey(d1: bv8, d2: bv8, k: Key)
    requires !k.IsLKey()
    ensures LegacyBit(k) & ((d1 as bv32) | ((d2 as bv32) << 8)) != 0 <==>
      ByteBit(if LegacyPosition(k) < 8 then d1 else d2, LegacyPosition(k) % 8)
  {
    LegacyKeyBitLane(k);
    PairBit(d1, d2, LegacyPosition(k));
  }

  /** Bit `p < 16` of `d1 | d2 << 8` is bit `p % 8` of `d1` or `d2`. */
  lemma PairBit(d1: bv8, d2: bv8, p: nat)
    requires p < 16
    ensures LaneMask(ByteMask(p % 8), p / 8) & ((d1 as bv32) | ((d2 as bv32) << 8)) != 0 <==>
      ByteBit(if p < 8 then d1 else d2, p % 8)
  {
    var w := (d1 as bv32) | ((d2 as bv32) << 8);
    LaneBit(w, p);
    PairBytes(d1, d2);
  }

  lemma PairIndex(data: seq<bv8>, p: nat)
    requires |data| >= 3 && p < 16
    ensures data[1 + p / 8] == if p < 8 then data[1] else data[2]
  {
  }

  lemma PairBytes(d1: bv8, d2: bv8)
    ensures ByteOf((d1 as bv32) | ((d2 as bv32) << 8), 0) == d1
    ensures ByteOf((d1 as bv32) | ((d2 as bv32) << 8), 1) == d2
  {
  }

  /** G1..G8 come from `data[1]`. */
  lemma LegacyLowGKeyBit(data: seq<bv8>, k: Key)
    requires |data| >= 3 && data[0] != 0 && LegacyPosition(k) < 8
    ensures LegacyBit(k) & LegacyGKeys(data) != 0 <==> ByteBit(data[1], LegacyPosition(k))
  {
    var p := LegacyPosition(k);
    assert p / 8 == 0 && p % 8 == p;
    LegacyGKeyBit(data, k);
  }

  /** G9..G12 and M1..MR come from `data[2]`. */
  lemma LegacyHighGmKeyBit(data: seq<bv8>, k: Key)
    requires |data| >= 3 && data[0] != 0 && 8 <= LegacyPosition(k) < 16
    ensures LegacyBit(k) & LegacyGKeys(data) != 0 <==> ByteBit(data[2], LegacyPosition(k) - 8)
  {
    var p := LegacyPosition(k);
    assert p / 8 == 1 && p % 8 == p - 8;
    LegacyGKeyBit(data, k);
  }

  /** The old L-key decoder never reports a G- or M-key, and the old G-key
      decoder never reports an L-key. */
  lemma LegacyDecodersSeparate(data: seq<bv8>, k: Key)
    requires |data| >= 3
    ensures !k.IsLKey() ==> LegacyBit(k) & LegacyLKeys(data) == 0
    ensures k.IsLKey() ==> LegacyBit(k) & LegacyGKeys(data) == 0
  {
    LegacyGroups(k);
  }

  /**
   * `memcpy(&keys, buffer, n)` into a zeroed `uint32_t` on a little-endian
   * host: byte `i` of the buffer becomes bits `8i` to `8i + 7`, and the
   * bytes not copied stay zero.
   */
  function LoadLE(buf: seq<bv8>, n: nat): bv32
    requires n <= 4 && n <= |buf|
  {
    (if n > 0 then buf[0] as bv32 else 0)
    | (if n > 1 then (buf[1] as bv32) << 8 else 0)
    | (if n > 2 then (buf[2] as bv32) << 16 else 0)
    | (if n > 3 then (buf[3] as bv32) << 24 else 0)
  }

  /** Byte `b` of a word, counting from the least significant. */
  function ByteOf(w: bv32, b: nat): bv8
    requires b < 4
  {
    ((if b == 0 then w else if b == 1 then w >> 8 else if b == 2 then w >> 16 else w >> 24) & 0xFF) as bv8
  }

  /** Byte `b` of the loaded word is byte `b` of the buffer when it was
      copied and zero otherwise, so bit `j` of buffer byte `b` is bit
      `8b + j` of the word. */
  lemma LoadLEByte(buf: seq<bv8>, n: nat, b: nat)
    requires n <= 4 && n <= |buf| && b < 4
    ensures ByteOf(LoadLE(buf, n), b) == if b < n then buf[b] else 0
  {
    assert LoadsByte(buf, n, b) by {
      if b == 0 {
        LoadByte0(buf, n);
      } else if b == 1 {
        LoadByte1(buf, n);
      } else if b == 2 {
        LoadByte2(buf, n);
      } else {
        LoadByte3(buf, n);
      }
    }
  }

  predicate LoadsByte(buf: seq<bv8>, n: nat, b: nat)
    requires n <= 4 && n <= |buf| && b < 4
  {
    ByteOf(LoadLE(buf, n), b) == if b < n then buf[b] else 0
  }

  lemma LoadByte0(buf: seq<bv8>, n: nat) requires n <= 4 && n <= |buf| ensures LoadsByte(buf, n, 0) {}
  lemma LoadByte1(buf: seq<bv8>, n: nat) requires n <= 4 && n <= |buf| ensures LoadsByte(buf, n, 1) {}
  lemma LoadByte2(buf: seq<bv8>, n: nat) requires n <= 4 && n <= |buf| ensures LoadsByte(buf, n, 2) {}
  lemma LoadByte3(buf: seq<bv8>, n: nat) requires n <= 4 && n <= |buf| ensures LoadsByte(buf, n, 3) {}

  /** The word `g19_device_gkey_cb` hands to the key callback. */
  function GKeyWord(buf: seq<bv8>): bv32
    requires |buf| >= 4
  {
    LoadLE(buf, 4)
  }

  /** The word `g19_device_lkey_cb` hands to the key callback. */
  function LKeyWord(buf: seq<bv8>): bv32
    requires |buf| >= 2
  {
    LoadLE(buf, 2)
  }

  /** Byte `bm` moved into byte lane `b` of a word. */
  function LaneMask(bm: bv8, b: nat): bv32
    requires b < 4
  {
    if b == 0 then bm as bv32
    else if b == 1 then (bm as bv32) << 8
    else if b == 2 then (bm as bv32) << 16
    else (bm as bv32) << 24
  }

  /** A mask confined to byte lane `b` meets a word exactly where it meets
      that word's byte `b`. */
  predicate MeetsLane(w: bv32, bm: bv8, b: nat)
    requires b < 4
  {
    LaneMask(bm, b) & w != 0 <==> ByteOf(w, b) & bm != 0
  }

  lemma ByteLane(w: bv32, bm: bv8, b: nat)
    requires b < 4
    ensures MeetsLane(w, bm, b)
  {
    if b == 0 {
      Lane0(w, bm);
    } else if b == 1 {
      Lane1(w, bm);
    } else if b == 2 {
      Lane2(w, bm);
    } else {
      Lane3(w, bm);
    }
  }

  lemma Lane0(w: bv32, bm: bv8) ensures MeetsLane(w, bm, 0) {}
  lemma Lane1(w: bv32, bm: bv8) ensures MeetsLane(w, bm, 1) {}
  lemma Lane2(w: bv32, bm: bv8) ensures MeetsLane(w, bm, 2) {}
  lemma Lane3(w: bv32, bm: bv8) ensures MeetsLane(w, bm, 3) {}

  /** Each per-device constant is its bit's mask in its byte's lane. */
  lemma KeyBitLane(k: Key)
    ensures Bit(k) == LaneMask(ByteMask(Position(k) % 8), Position(k) / 8)
  {
    match k
    case LHome =>   case LCancel => case LMenu =>  case LOk =>
    case LRight =>  case LLeft =>   case LDown =>  case LUp =>
    case G1 => case G2 => case G3 => case G4 => case G5 => case G6 => case G7 => case G8 =>
    case G9 => case G10 => case G11 => case G12 =>
    case M1 => case M2 => case M3 => case MR =>
  }

  /** Each old constant is its bit's mask in its byte's lane. */
  lemma LegacyKeyBitLane(k: Key)
    ensures LegacyBit(k) == LaneMask(ByteMask(LegacyPosition(k) % 8), LegacyPosition(k) / 8)
  {
    match k
    case LHome =>   case LCancel => case LMenu =>  case LOk =>
    case LRight =>  case LLeft =>   case LDown =>  case LUp =>
    case G1 => case G2 => case G3 => case G4 => case G5 => case G6 => case G7 => case G8 =>
    case G9 => case G10 => case G11 => case G12 =>
    case M1 => case M2 => case M3 => case MR =>
  }

  /** A key's constant tests bit `Position(k) % 8` of byte `Position(k) / 8`
      of a word. */
  lemma KeyBitInByte(w: bv32, k: Key)
    ensures Bit(k) & w != 0 <==> ByteBit(ByteOf(w, Position(k) / 8), Position(k) % 8)
  {
    KeyBitLane(k);
    LaneBit(w, Position(k));
  }

  /** Bit `p` of a word, as a lane mask, is bit `p % 8` of byte `p / 8`. */
  lemma LaneBit(w: bv32, p: nat)
    requires p < 32
    ensures LaneMask(ByteMask(p % 8), p / 8) & w != 0 <==> ByteBit(ByteOf(w, p / 8), p % 8)
  {
    ByteLane(w, ByteMask(p % 8), p / 8);
  }

  /** In a G-key event of the per-device library, each key named by the
      per-device header is set exactly when its byte and bit of the
      four-byte payload are. */
  lemma GKeyWordKey(buf: seq<bv8>, k: Key)
    requires |buf| >= 4
    ensures Bit(k) & GKeyWord(buf) != 0 <==> ByteBit(buf[Position(k) / 8], Position(k) % 8)
  {
    KeyBitLane(k);
    LoadLaneBit(buf, 4, Position(k));
  }

  /** In an L-key event only the two copied bytes can set bits. */
  lemma LKeyWordKey(buf: seq<bv8>, k: Key)
    requires |buf| >= 2
    ensures Bit(k) & LKeyWord(buf) != 0 <==>
      Position(k) < 16 && ByteBit(buf[Position(k) / 8], Position(k) % 8)
  {
    KeyBitLane(k);
    LoadLaneBit(buf, 2, Position(k));
  }

  /** Bit `p` of the loaded word is bit `p % 8` of buffer byte `p / 8`
      when that byte was copied, and clear otherwise. */
  lemma LoadLaneBit(buf: seq<bv8>, n: nat, p: nat)
    requires n <= 4 && n <= |buf| && p < 32
    ensures LaneMask(ByteMask(p % 8), p / 8) & LoadLE(buf, n) != 0 <==>
      p / 8 < n && ByteBit(buf[p / 8], p % 8)
  {
    var b, j := p / 8, p % 8;
    assert b < 4 && j < 8;
    LoadBitAt(buf, n, b, j);
  }

  /** Bit `j` of byte lane `b` of the loaded word is bit `j` of buffer
      byte `b` when that byte was copied, and clear otherwise. */
  lemma LoadBitAt(buf: seq<bv8>, n: nat, b: nat, j: nat)
    requires n <= 4 && n <= |buf| && b < 4 && j < 8
    ensures LaneMask(ByteMask(j), b) & LoadLE(buf, n) != 0 <==> b < n && ByteBit(buf[b], j)
  {
    LoadLEByte(buf, n, b);
    ByteLane(LoadLE(buf, n), ByteMask(j), b);
    if b >= n {
      ZeroByte(j);
    }
  }

  lemma ZeroByte(j: nat)
    requires j < 8
    ensures !ByteBit(0, j)
  {
  }

  /**
   * The two revisions agree on every G- and M-key of a G-key event whose
   * presence byte is non-zero: the per-device word, read with the
   * per-device header, reports the same keys as the old decoder read with
   * the old header.
   */
  lemma GKeyRevisionsAgree(buf: seq<bv8>, k: Key)
    requires |buf| >= 4 && buf[0] != 0 && !k.IsLKey()
    ensures Bit(k) & GKeyWord(buf) != 0 <==> LegacyBit(k) & LegacyGKeys(buf) != 0
  {
    GKeyWordKey(buf, k);
    LegacyGKeyBit(buf, k);
    SameGKeyByte(buf, k);
  }

  /** Both revisions test the same bit of the same payload byte for a G- or
      M-key. */
  lemma SameGKeyByte(buf: seq<bv8>, k: Key)
    requires |buf| >= 4 && !k.IsLKey()
    ensures ByteBit(buf[Position(k) / 8], Position(k) % 8)
        == ByteBit(if LegacyPosition(k) < 8 then buf[1] else buf[2], LegacyPosition(k) % 8)
  {
    LayoutsRotate(k);
    RevisionIndex(LegacyPosition(k), Position(k));
    PairIndex(buf, LegacyPosition(k));
  }

  /** A G- or M-key sits one byte lane higher in the per-device word. */
  lemma RevisionIndex(l: nat, p: nat)
    requires l < 16 && p == (l + 8) % 24
    ensures p / 8 == 1 + l / 8 && p % 8 == l % 8
  {
  }

  /** An L-key sits in byte lane 0 of the per-device word. */
  lemma LKeyIndex(l: nat, p: nat)
    requires 16 <= l < 24 && p == (l + 8) % 24
    ensures p < 8 && p / 8 == 0 && p % 8 == p && p == l - 16
  {
  }

  /** The same for the L-keys of an L-key event. */
  lemma LKeyRevisionsAgree(buf: seq<bv8>, k: Key)
    requires |buf| >= 2 && k.IsLKey()
    ensures Bit(k) & LKeyWord(buf) != 0 <==> LegacyBit(k) & LegacyLKeys(buf) != 0
  {
    LKeyWordKey(buf, k);
    LegacyLKeyBit(buf, k);
    LayoutsRotate(k);
    LKeyIndex(LegacyPosition(k), Position(k));
  }

  /** The per-device G-key word also carries the presence byte, in the bits
      the per-device header gives to the L-keys. */
  lemma GKeyWordPresenceByte(buf: seq<bv8>)
    requires |buf| >= 4
    ensures GKeyWord(buf) & 0xFF == buf[0] as bv32
  {
    LoadLEByte(buf, 4, 0);
  }
}
