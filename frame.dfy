/**
 * The LCD frame encoder of both revisions (`g19_device_lcd` in
 * libg19/libg19.c and `g19_update_lcd` in libg19.c): a zeroed frame of
 * G19_BMP_SIZE bytes, the 512-byte header in front, then either the
 * caller's bytes (truncated or zero-padded) or the caller's 4-byte RGBA
 * pixels packed to 2-byte RGB565 values, low byte first.
 */
module Frame {
  import opened G19

  function Min(a: nat, b: nat): nat
  {
    if a < b then a else b
  }

  /** `(r / 8) << 11 | (g / 4) << 5 | b / 8`: five bits of red, six of
      green, five of blue. */
  function Pack565(r: bv8, g: bv8, b: bv8): bv16
  {
    (((r / 8) as bv16) << 11) | (((g / 4) as bv16) << 5) | ((b / 8) as bv16)
  }

  /** The three fields of a 565 value. */
  function Unpack565(c: bv16): (bv8, bv8, bv8)
  {
    ((c >> 11) as bv8, ((c >> 5) & 0x3F) as bv8, (c & 0x1F) as bv8)
  }

  /** Packing keeps the top five, six and five bits of the three channels
      and nothing else. */
  lemma PackUnpack(r: bv8, g: bv8, b: bv8)
    ensures Unpack565(Pack565(r, g, b)) == (r / 8, g / 4, b / 8)
  {
  }

  /** Every 16-bit value is the packing of some colour. */
  lemma UnpackPack(c: bv16)
    ensures Pack565(Unpack565(c).0 * 8, Unpack565(c).1 * 4, Unpack565(c).2 * 8) == c
  {
  }

  lemma SampleColours()
    ensures Pack565(255, 0, 0) == 0xF800
    ensures Pack565(0, 255, 0) == 0x07E0
    ensures Pack565(0, 0, 255) == 0x001F
    ensures Pack565(255, 255, 255) == 0xFFFF
  {
  }

  /** The two bytes `memcpy(bits + i, &color, 2)` writes on a little-endian
      host. */
  function Lo(c: bv16): bv8 { (c & 0xFF) as bv8 }
  function Hi(c: bv16): bv8 { (c >> 8) as bv8 }

  /** The pixel-loop bounds of the two revisions: the per-device library
      stops the frame index at G19_BMP_DSIZE, the old one at the frame size. */
  predicate ValidLimit(limit: nat)
  {
    limit == BmpDataSize || limit == BmpSize
  }

  /**
   * How many pixels the loop `for (i = 512, d = 0; i < limit && d < size;
   * i += 2, d += 4)` converts: pixel `k` is converted exactly when
   * `512 + 2k < limit` and `4k < size`.
   */
  function PixelCount(size: nat, limit: nat): (n: nat)
    requires ValidLimit(limit)
    ensures forall k: nat :: k < n <==> DataHeaderSize + 2 * k < limit && 4 * k < size
  {
    Min((size + 3) / 4, (limit - DataHeaderSize) / 2)
  }

  /** The loop reads `data[d]`, `data[d + 1]` and `data[d + 2]` for every
      converted pixel; nothing in the source checks that these lie inside
      the caller's buffer, so this is the callers' obligation. */
  predicate ReadsInBounds(dataLen: nat, size: nat, limit: nat)
    requires ValidLimit(limit)
  {
    PixelCount(size, limit) == 0 || 4 * (PixelCount(size, limit) - 1) + 2 < dataLen
  }

  /** The packed value of pixel `k`, from bytes `4k`, `4k + 1`, `4k + 2`. */
  function PixelValue(data: seq<bv8>, k: nat): bv16
    requires 4 * k + 2 < |data|
  {
    Pack565(data[4 * k], data[4 * k + 1], data[4 * k + 2])
  }

  /** Byte `i` of a converted frame. */
  function ConvertedByte(hdr: Header, data: seq<bv8>, size: nat, limit: nat, i: nat): bv8
    requires ValidLimit(limit) && ReadsInBounds(|data|, size, limit) && i < BmpSize
  {
    if i < DataHeaderSize then hdr[i]
    else
      var k := (i - DataHeaderSize) / 2;
      if k < PixelCount(size, limit) then
        if (i - DataHeaderSize) % 2 == 0 then Lo(PixelValue(data, k)) else Hi(PixelValue(data, k))
      else 0
  }

  /** The frame of converted mode. */
  function ConvertedFrame(hdr: Header, data: seq<bv8>, size: nat, limit: nat): (f: seq<bv8>)
    requires ValidLimit(limit) && ReadsInBounds(|data|, size, limit)
    ensures |f| == BmpSize
  {
    seq(BmpSize, i requires 0 <= i < BmpSize => ConvertedByte(hdr, data, size, limit, i))
  }

  /** The frame of raw mode: header, the first `n` caller bytes, zeros. */
  function RawFrame(hdr: Header, data: seq<bv8>, n: nat): (f: seq<bv8>)
    requires n <= BmpDataSize && n <= |data|
    ensures |f| == BmpSize
  {
    hdr + data[..n] + seq(BmpDataSize - n, _ => 0)
  }

  /** The bytes after the header. */
  function PixelRegion(f: seq<bv8>): seq<bv8>
    requires |f| == BmpSize
  {
    f[DataHeaderSize..]
  }

  /** The 16-bit value stored for pixel `k` (the inverse of Lo/Hi). */
  function StoredPixel(f: seq<bv8>, k: nat): bv16
    requires |f| == BmpSize && k < BmpDataSize / 2
  {
    (f[DataHeaderSize + 2 * k] as bv16) | ((f[DataHeaderSize + 2 * k + 1] as bv16) << 8)
  }

  lemma LoHiJoin(c: bv16)
    ensures (Lo(c) as bv16) | ((Hi(c) as bv16) << 8) == c
  {
  }

  /** What the caller's buffer must provide for the chosen mode. */
  predicate FrameReadable(dataLen: nat, size: nat, converted: bool, limit: nat)
    requires ValidLimit(limit)
  {
    if converted then ReadsInBounds(dataLen, size, limit) else Min(size, BmpDataSize) <= dataLen
  }

  /** The frame either mode produces. */
  function EncodedFrame(hdr: Header, data: seq<bv8>, size: nat, converted: bool, limit: nat): (f: seq<bv8>)
    requires ValidLimit(limit) && FrameReadable(|data|, size, converted, limit)
    ensures |f| == BmpSize && f[..DataHeaderSize] == hdr
  {
    if converted then ConvertedFrame(hdr, data, size, limit) else RawFrame(hdr, data, Min(size, BmpDataSize))
  }

  /**
   * Builds the frame the way both revisions do: allocate and zero
   * G19_BMP_SIZE bytes, copy the header, then run the conversion loop or
   * the truncating copy. The raw copy length is `min(size, 153600)` in both
   * revisions (the old one writes it as `bsize - sizeof(hdata)`).
   */
  method EncodeFrame(hdr: Header, data: seq<bv8>, size: nat, converted: bool, limit: nat)
    returns (bits: array<bv8>)
    requires ValidLimit(limit) && FrameReadable(|data|, size, converted, limit)
    ensures bits.Length == BmpSize
    ensures bits[..] == EncodedFrame(hdr, data, size, converted, limit)
  {
    bits := new bv8[BmpSize](_ => 0);
    CopyHeader(bits, hdr);
    if converted {
      ConvertPixels(bits, hdr, data, size, limit);
    } else {
      CopyRaw(bits, hdr, data, Min(size, BmpDataSize));
    }
  }

  /** The header copy into the zeroed buffer. */
  method CopyHeader(bits: array<bv8>, hdr: Header)
    requires bits.Length == BmpSize && forall m :: 0 <= m < BmpSize ==> bits[m] == 0
    modifies bits
    ensures forall m :: 0 <= m < BmpSize ==> bits[m] == if m < DataHeaderSize then hdr[m] else 0
  {
    for j := 0 to DataHeaderSize
      invariant forall m :: 0 <= m < BmpSize ==> bits[m] == if m < j then hdr[m] else 0
    {
      bits[j] := hdr[j];
    }
  }

  /** The conversion loop: two bytes per pixel after the header, while
      the write index is below `limit` and the read index below `size`. */
  method ConvertPixels(bits: array<bv8>, hdr: Header, data: seq<bv8>, size: nat, limit: nat)
    requires ValidLimit(limit) && ReadsInBounds(|data|, size, limit)
    requires bits.Length == BmpSize
    requires forall m :: 0 <= m < BmpSize ==> bits[m] == if m < DataHeaderSize then hdr[m] else 0
    modifies bits
    ensures bits[..] == ConvertedFrame(hdr, data, size, limit)
  {
    var i, d := DataHeaderSize, 0;
    ghost var k: nat := 0;
    while i < limit && d < size
      invariant i == DataHeaderSize + 2 * k && d == 4 * k && k <= PixelCount(size, limit)
      invariant forall m :: 0 <= m < BmpSize ==>
        bits[m] == if m < i then ConvertedByte(hdr, data, size, limit, m) else 0
    {
      var color := Pack565(data[d], data[d + 1], data[d + 2]);
      ConvertedStep(hdr, data, size, limit, k);
      bits[i] := Lo(color);
      bits[i + 1] := Hi(color);
      i, d, k := i + 2, d + 4, k + 1;
    }
    assert k == PixelCount(size, limit);
  }

  /** The truncating copy of `n` caller bytes after the header. */
  method CopyRaw(bits: array<bv8>, hdr: Header, data: seq<bv8>, n: nat)
    requires n <= BmpDataSize && n <= |data|
    requires bits.Length == BmpSize
    requires forall m :: 0 <= m < BmpSize ==> bits[m] == if m < DataHeaderSize then hdr[m] else 0
    modifies bits
    ensures bits[..] == RawFrame(hdr, data, n)
  {
    for j := 0 to n
      invariant forall m :: 0 <= m < BmpSize ==>
        bits[m] == if m < DataHeaderSize then hdr[m]
                   else if m < DataHeaderSize + j then data[m - DataHeaderSize] else 0
    {
      bits[DataHeaderSize + j] := data[j];
    }
  }

  /** The two bytes the loop writes for pixel `k`. */
  lemma ConvertedStep(hdr: Header, data: seq<bv8>, size: nat, limit: nat, k: nat)
    requires ValidLimit(limit) && ReadsInBounds(|data|, size, limit) && k < PixelCount(size, limit)
    ensures 4 * k + 2 < |data|
    ensures ConvertedByte(hdr, data, size, limit, DataHeaderSize + 2 * k)
         == Lo(Pack565(data[4 * k], data[4 * k + 1], data[4 * k + 2]))
    ensures ConvertedByte(hdr, data, size, limit, DataHeaderSize + 2 * k + 1)
         == Hi(Pack565(data[4 * k], data[4 * k + 1], data[4 * k + 2]))
  {
    assert (DataHeaderSize + 2 * k - DataHeaderSize) / 2 == k;
    assert (DataHeaderSize + 2 * k + 1 - DataHeaderSize) / 2 == k;
  }

  /** Both modes put the header first and produce G19_BMP_SIZE bytes. */
  lemma ConvertedHeader(hdr: Header, data: seq<bv8>, size: nat, limit: nat)
    requires ValidLimit(limit) && ReadsInBounds(|data|, size, limit)
    ensures ConvertedFrame(hdr, data, size, limit)[..DataHeaderSize] == hdr
  {
  }

  lemma RawHeader(hdr: Header, data: seq<bv8>, n: nat)
    requires n <= BmpDataSize && n <= |data|
    ensures RawFrame(hdr, data, n)[..DataHeaderSize] == hdr
  {
  }

  /** Pixel `k` of a converted frame is stored little-endian at bytes
      `512 + 2k` and `513 + 2k`, and decodes to the top bits of the pixel's
      red, green and blue bytes. */
  lemma ConvertedPixel(hdr: Header, data: seq<bv8>, size: nat, limit: nat, k: nat)
    requires ValidLimit(limit) && ReadsInBounds(|data|, size, limit)
    requires k < PixelCount(size, limit)
    ensures ConvertedFrame(hdr, data, size, limit)[DataHeaderSize + 2 * k] == Lo(PixelValue(data, k))
    ensures ConvertedFrame(hdr, data, size, limit)[DataHeaderSize + 2 * k + 1] == Hi(PixelValue(data, k))
    ensures StoredPixel(ConvertedFrame(hdr, data, size, limit), k) == PixelValue(data, k)
    ensures Unpack565(StoredPixel(ConvertedFrame(hdr, data, size, limit), k))
      == (data[4 * k] / 8, data[4 * k + 1] / 4, data[4 * k + 2] / 8)
  {
    var f := ConvertedFrame(hdr, data, size, limit);
    assert f[DataHeaderSize + 2 * k] == ConvertedByte(hdr, data, size, limit, DataHeaderSize + 2 * k);
    assert f[DataHeaderSize + 2 * k + 1] == ConvertedByte(hdr, data, size, limit, DataHeaderSize + 2 * k + 1);
    StoredPixelOf(f, k, PixelValue(data, k));
    PackUnpack(data[4 * k], data[4 * k + 1], data[4 * k + 2]);
  }

  lemma StoredPixelOf(f: seq<bv8>, k: nat, c: bv16)
    requires |f| == BmpSize && k < BmpDataSize / 2
    requires f[DataHeaderSize + 2 * k] == Lo(c) && f[DataHeaderSize + 2 * k + 1] == Hi(c)
    ensures StoredPixel(f, k) == c
  {
    LoHiJoin(c);
  }

  /** Every byte past the last converted pixel stays zero; in particular
      nothing at or beyond the loop bound is written. */
  lemma ConvertedTailZero(hdr: Header, data: seq<bv8>, size: nat, limit: nat, i: nat)
    requires ValidLimit(limit) && ReadsInBounds(|data|, size, limit)
    requires DataHeaderSize + 2 * PixelCount(size, limit) <= i < BmpSize
    ensures ConvertedFrame(hdr, data, size, limit)[i] == 0
    ensures limit <= i ==> ConvertedFrame(hdr, data, size, limit)[i] == 0
  {
    assert ConvertedFrame(hdr, data, size, limit)[i] == ConvertedByte(hdr, data, size, limit, i);
  }

  /** Bytes at or beyond the loop bound are never written. */
  lemma BeyondLimitZero(hdr: Header, data: seq<bv8>, size: nat, limit: nat, i: nat)
    requires ValidLimit(limit) && ReadsInBounds(|data|, size, limit)
    requires limit <= i < BmpSize
    ensures ConvertedFrame(hdr, data, size, limit)[i] == 0
  {
    ConvertedTailZero(hdr, data, size, limit, i);
  }

  /** The per-device library converts at most 76544 pixels, the old one at
      most 76800 (a full 320 x 240 panel); both reach the bound once the
      caller supplies enough pixels. */
  lemma PixelCountBounds(size: nat)
    ensures PixelCount(size, BmpDataSize) <= 76544
    ensures PixelCount(size, BmpSize) <= LcdWidth * LcdHeight
    ensures size >= 4 * 76544 ==> PixelCount(size, BmpDataSize) == 76544
    ensures size >= 4 * LcdWidth * LcdHeight ==> PixelCount(size, BmpSize) == LcdWidth * LcdHeight
    ensures PixelCount(size, BmpDataSize) <= PixelCount(size, BmpSize)
  {
  }

  /** The fourth byte of every pixel (alpha) is never read. */
  lemma AlphaIgnored(hdr: Header, data: seq<bv8>, data': seq<bv8>, size: nat, limit: nat)
    requires ValidLimit(limit) && ReadsInBounds(|data|, size, limit)
    requires |data| == |data'|
    requires forall j :: 0 <= j < |data| && j % 4 != 3 ==> data[j] == data'[j]
    ensures ConvertedFrame(hdr, data, size, limit) == ConvertedFrame(hdr, data', size, limit)
  {
    forall i | 0 <= i < BmpSize
      ensures ConvertedByte(hdr, data, size, limit, i) == ConvertedByte(hdr, data', size, limit, i)
    {
      if DataHeaderSize <= i {
        var k := (i - DataHeaderSize) / 2;
        if k < PixelCount(size, limit) {
          SamePixel(data, data', k);
        }
      }
    }
  }

  lemma SamePixel(data: seq<bv8>, data': seq<bv8>, k: nat)
    requires |data| == |data'| && 4 * k + 2 < |data|
    requires forall j :: 0 <= j < |data| && j % 4 != 3 ==> data[j] == data'[j]
    ensures PixelValue(data, k) == PixelValue(data', k)
  {
    assert (4 * k) % 4 == 0 && (4 * k + 1) % 4 == 1 && (4 * k + 2) % 4 == 2;
    assert data[4 * k] == data'[4 * k];
    assert data[4 * k + 1] == data'[4 * k + 1];
    assert data[4 * k + 2] == data'[4 * k + 2];
  }

  /** Below G19_BMP_DSIZE the two revisions' converted frames agree; they
      differ only in the last 512 bytes, which the per-device library never
      writes. */
  lemma RevisionsAgreeBelowDataSize(hdr: Header, data: seq<bv8>, size: nat, i: nat)
    requires ReadsInBounds(|data|, size, BmpSize)
    requires i < BmpDataSize
    ensures ReadsInBounds(|data|, size, BmpDataSize)
    ensures ConvertedFrame(hdr, data, size, BmpDataSize)[i] == ConvertedFrame(hdr, data, size, BmpSize)[i]
  {
    PixelCountBounds(size);
    assert ConvertedFrame(hdr, data, size, BmpDataSize)[i] == ConvertedByte(hdr, data, size, BmpDataSize, i);
    assert ConvertedFrame(hdr, data, size, BmpSize)[i] == ConvertedByte(hdr, data, size, BmpSize, i);
  }

  /** With a full panel of pixels, the old revision's loop stores every
      one of the 76800 pixels, while the per-device library leaves the last
      256 of them zero. */
  lemma FullPanel(hdr: Header, data: seq<bv8>, size: nat, k: nat)
    requires ReadsInBounds(|data|, size, BmpSize)
    requires size >= 4 * LcdWidth * LcdHeight && k < LcdWidth * LcdHeight
    ensures StoredPixel(ConvertedFrame(hdr, data, size, BmpSize), k) == PixelValue(data, k)
    ensures 76544 <= k ==> StoredPixel(ConvertedFrame(hdr, data, size, BmpDataSize), k) == 0
  {
    PixelCountBounds(size);
    ConvertedPixel(hdr, data, size, BmpSize, k);
    if 76544 <= k {
      RevisionsAgreeBelowDataSize(hdr, data, size, 0);
      ConvertedTailZero(hdr, data, size, BmpDataSize, DataHeaderSize + 2 * k);
      ConvertedTailZero(hdr, data, size, BmpDataSize, DataHeaderSize + 2 * k + 1);
    }
  }

  /** Raw mode: the pixel region is the caller's first `n` bytes followed
      by zeros, so a full-size buffer comes back unchanged. */
  lemma RawLayout(hdr: Header, data: seq<bv8>, n: nat)
    requires n <= BmpDataSize && n <= |data|
    ensures PixelRegion(RawFrame(hdr, data, n))[..n] == data[..n]
    ensures forall i :: n <= i < BmpDataSize ==> PixelRegion(RawFrame(hdr, data, n))[i] == 0
    ensures n == BmpDataSize ==> PixelRegion(RawFrame(hdr, data, n)) == data[..BmpDataSize]
  {
  }

  /** Raw mode reads nothing past the copied prefix: bytes of the caller's
      buffer beyond `min(size, 153600)` do not influence the frame. */
  lemma RawTruncates(hdr: Header, data: seq<bv8>, data': seq<bv8>, size: nat)
    requires Min(size, BmpDataSize) <= |data| && Min(size, BmpDataSize) <= |data'|
    requires data[..Min(size, BmpDataSize)] == data'[..Min(size, BmpDataSize)]
    ensures RawFrame(hdr, data, Min(size, BmpDataSize)) == RawFrame(hdr, data', Min(size, BmpDataSize))
  {
  }
}
