/**
 * The Windows frame-to-bitmap routines: an RGBA video frame converted to
 * BGRA with opaque alpha, and three producers of an in-memory .bmp file
 * (BITMAPFILEHEADER, BITMAPINFO, pixels) handed to the caller with its length.
 *
 * The routines size and fill the file with sizeof(BITMAPINFO) = 44 but compute
 * bfSize and bfOffBits with sizeof(BITMAPINFOHEADER) = 40; the model keeps the
 * two apart, so bfOffBits is 54 while the pixels start at byte 58, and bfSize
 * is 4 less than the length returned.
 */
module DataToImageTools {
  import opened Ints
  import opened LittleEndian
  import opened WinGdi

  /** Offset of the first pixel byte in the file as filled in: 14 + 44. */
  const PixelStart: nat := SizeofFileHeader + SizeofBitmapInfo

  /** The largest payload whose file length still fits the 32-bit `long` returned. */
  const MaxPayload: nat := Int32Max - PixelStart

  /** The GDI BITMAP fields the capture path reads. */
  datatype Bitmap = Bitmap(bmWidth: int32, bmHeight: int32)

  // ---------------------------------------------------------------------------
  // Channel conversion
  // ---------------------------------------------------------------------------

  /**
   * Pixel `p` of an RGBA buffer (bytes r, g, b, a) rewritten as a BGRA pixel
   * (bytes b, g, r, a) whose alpha is 255 whatever the source alpha was.
   */
  function BgraOpaque(src: seq<byte>, p: nat): (r: seq<byte>)
    requires 4 * p + 4 <= |src|
    ensures |r| == 4
  {
    [src[4 * p + 2], src[4 * p + 1], src[4 * p], 255]
  }

  /** The first `n` pixels of `src`, each converted. */
  function SwapPixels(src: seq<byte>, n: nat): (r: seq<byte>)
    requires 4 * n <= |src|
    ensures |r| == 4 * n
  {
    if n == 0 then [] else SwapPixels(src, n - 1) + BgraOpaque(src, n - 1)
  }

  /**
   * The converted frame: the `width * height` pixels of the grid converted,
   * and the bytes of `frame` beyond them left at the zero `resize` gives.
   */
  function Converted(frame: seq<byte>, width: nat, height: nat): (r: seq<byte>)
    requires width * height * 4 <= |frame|
    ensures |r| == |frame|
    ensures forall k :: width * height * 4 <= k < |r| ==> r[k] == 0
  {
    SwapPixels(frame, width * height) + seq(|frame| - width * height * 4, _ => 0)
  }

  lemma {:induction false} SwapPixelsAt(src: seq<byte>, n: nat, p: nat)
    requires 4 * n <= |src| && p < n
    ensures SwapPixels(src, n)[4 * p .. 4 * p + 4] == BgraOpaque(src, p)
  {
    var prev := SwapPixels(src, n - 1);
    assert SwapPixels(src, n) == prev + BgraOpaque(src, n - 1);
    if p < n - 1 {
      SwapPixelsAt(src, n - 1, p);
      assert SwapPixels(src, n)[4 * p .. 4 * p + 4] == prev[4 * p .. 4 * p + 4];
    } else {
      assert SwapPixels(src, n)[4 * p .. 4 * p + 4] == BgraOpaque(src, n - 1);
    }
  }

  /**
   * Every pixel of the grid comes out as b, g, r of the source pixel and an
   * alpha of 255.
   */
  lemma ChannelMapping(frame: seq<byte>, width: nat, height: nat, p: nat)
    requires width * height * 4 <= |frame|
    requires p < width * height
    ensures Converted(frame, width, height)[4 * p] == frame[4 * p + 2]
    ensures Converted(frame, width, height)[4 * p + 1] == frame[4 * p + 1]
    ensures Converted(frame, width, height)[4 * p + 2] == frame[4 * p]
    ensures Converted(frame, width, height)[4 * p + 3] == 255
  {
    var r := Converted(frame, width, height);
    var px := SwapPixels(frame, width * height);
    SwapPixelsAt(frame, width * height, p);
    assert r[..4 * (width * height)] == px;
    assert r[4 * p .. 4 * p + 4] == px[4 * p .. 4 * p + 4];
  }

  /** The block of the loop body: pixel `sp` of `frame` written into `dest`, field by field. */
  method SetPixel(dest: array<byte>, frame: seq<byte>, sp: nat)
    requires 4 * sp + 4 <= |frame| == dest.Length
    modifies dest
    ensures dest[..4 * sp + 4] == old(dest[..4 * sp]) + BgraOpaque(frame, sp)
    ensures forall k :: 4 * sp + 4 <= k < dest.Length ==> dest[k] == old(dest[k])
  {
    dest[4 * sp + 2] := frame[4 * sp];      // r
    dest[4 * sp + 1] := frame[4 * sp + 1];  // g
    dest[4 * sp] := frame[4 * sp + 2];      // b
    dest[4 * sp + 3] := 255;                // a
  }

  /** Row y + 1 of the grid starts `width` pixels after row y and still lies within it. */
  lemma NextRow(y: nat, width: nat, height: nat)
    requires y < height
    ensures (y + 1) * width == y * width + width <= width * height
  {
    assert (y + 1) * width <= height * width;
  }

  /**
   * The inner x loop for row `y`: the row's pixels are appended to the
   * converted prefix, and the rest of the buffer stays zero.
   */
  method ConvertRow(dest: array<byte>, frame: seq<byte>, y: nat, width: nat, ghost rowStart: nat)
    requires rowStart == y * width
    requires 4 * (rowStart + width) <= |frame| == dest.Length
    requires dest[..4 * rowStart] == SwapPixels(frame, rowStart)
    requires forall k :: 4 * rowStart <= k < dest.Length ==> dest[k] == 0
    modifies dest
    ensures dest[..4 * (rowStart + width)] == SwapPixels(frame, rowStart + width)
    ensures forall k :: 4 * (rowStart + width) <= k < dest.Length ==> dest[k] == 0
  {
    var x: nat := 0;
    while x < width
      invariant x <= width
      invariant dest[..4 * (rowStart + x)] == SwapPixels(frame, rowStart + x)
      invariant forall k :: 4 * (rowStart + x) <= k < dest.Length ==> dest[k] == 0
    {
      var sp := y * width + x;
      SetPixel(dest, frame, sp);
      x := x + 1;
    }
  }

  /**
   * The nested y/x loop of the RGBA frame conversion: `dest` starts as a
   * zeroed buffer of the frame's size and pixel `y * width + x` is written
   * for every x < width and y < height.
   */
  method ConvertRgbaToBgra(frame: seq<byte>, width: int32, height: int32) returns (dest: array<byte>)
    requires 0 <= width && 0 <= height
    requires width * height * 4 <= |frame|
    requires width * height <= 0xFFFF_FFFF
    ensures fresh(dest)
    ensures dest[..] == Converted(frame, width, height)
  {
    dest := new byte[|frame|](_ => 0);
    var y: int := 0;
    ghost var rowStart: int := 0;
    while y < height
      invariant 0 <= y <= height
      invariant rowStart == y * width <= width * height
      invariant dest.Length == |frame|
      invariant fresh(dest)
      invariant dest[..4 * rowStart] == SwapPixels(frame, rowStart)
      invariant forall k :: 4 * rowStart <= k < dest.Length ==> dest[k] == 0
    {
      NextRow(y, width, height);
      ConvertRow(dest, frame, y, width, rowStart);
      y := y + 1;
      rowStart := rowStart + width;
    }
    assert rowStart == width * height;
    assert dest[..] == dest[..4 * rowStart] + dest[4 * rowStart..];
  }

  // ---------------------------------------------------------------------------
  // The bitmap container
  // ---------------------------------------------------------------------------

  /** The file header all three routines fill in for a payload of `payloadLen` bytes. */
  function FileHeaderFor(payloadLen: nat): (h: FileHeader)
    requires payloadLen <= MaxPayload
    ensures h.bfOffBits == SizeofFileHeader + SizeofInfoHeader == PixelStart - 4
    ensures h.bfSize == h.bfOffBits + payloadLen
  {
    FileHeader(BfTypeBitmap, payloadLen + 14 + SizeofInfoHeader, 0, 0, SizeofInfoHeader + SizeofFileHeader)
  }

  /** The info header the routines fill in; only the height fields differ between them. */
  function InfoHeaderFor(width: int32, biHeight: int32, yPelsPerMeter: int32): (h: InfoHeader)
    ensures h.biSize == |EncodeInfoHeader(h)|
    ensures h.biXPelsPerMeter == h.biWidth == width
  {
    InfoHeader(SizeofInfoHeader, width, biHeight, 1, 32, BiRgb, 0, width, yPelsPerMeter, 0, 0)
  }

  /** The bytes of a file: file header, then BITMAPINFO, then the payload. */
  function Container(bf: FileHeader, bi: BitmapInfo, payload: seq<byte>): (r: seq<byte>)
    ensures |r| == PixelStart + |payload|
  {
    EncodeFileHeader(bf) + EncodeBitmapInfo(bi) + payload
  }

  /**
   * A reader of the file finds the file header at offset 0, the BITMAPINFO
   * at offset 14 and the payload from offset 58 on.
   */
  lemma ContainerRoundTrip(bf: FileHeader, bi: BitmapInfo, payload: seq<byte>)
    ensures DecodeFileHeader(Container(bf, bi, payload), 0) == bf
    ensures DecodeBitmapInfo(Container(bf, bi, payload), SizeofFileHeader) == bi
    ensures Container(bf, bi, payload)[PixelStart..] == payload
  {
    var r := Container(bf, bi, payload);
    var fh := EncodeFileHeader(bf);
    var ih := EncodeInfoHeader(bi.bmiHeader);
    assert r[..SizeofFileHeader] == fh;
    DecodeFileHeaderPrefix(r, fh, 0);
    FileHeaderRoundTrip(bf);
    assert r[SizeofFileHeader..SizeofFileHeader + SizeofInfoHeader] == ih;
    DecodeInfoHeaderPrefix(r, ih, SizeofFileHeader);
    InfoHeaderRoundTrip(bi.bmiHeader);
    assert r[SizeofFileHeader + SizeofInfoHeader..PixelStart] == EncodeRgbQuad(bi.bmiColors);
    assert r[PixelStart..] == payload;
  }

  /**
   * The file header as written: "BM", a bfSize 4 bytes short of the file,
   * zero reserved fields, and a bfOffBits of 54, 4 bytes before the first
   * pixel byte.
   */
  lemma FileHeaderAsWritten(payload: seq<byte>, bi: BitmapInfo)
    requires |payload| <= MaxPayload
    ensures var r := Container(FileHeaderFor(|payload|), bi, payload);
      && r[0] == 0x42 && r[1] == 0x4D
      && ReadU16(r, 0) == 0x4d42
      && ReadU32(r, 2) == |r| - 4
      && ReadU16(r, 6) == 0 && ReadU16(r, 8) == 0
      && ReadU32(r, 10) == 54 == PixelStart - 4
  {
    ContainerRoundTrip(FileHeaderFor(|payload|), bi, payload);
  }

  /**
   * The fixed info-header fields as written: a 40-byte header, one plane,
   * 32 bits per pixel, uncompressed, no image size, the width and the given
   * height fields, and an empty colour table.
   */
  lemma InfoHeaderAsWritten(bf: FileHeader, width: int32, biHeight: int32, yPels: int32,
                            colors: RgbQuad, payload: seq<byte>)
    ensures var r := Container(bf, BitmapInfo(InfoHeaderFor(width, biHeight, yPels), colors), payload);
      && ReadU32(r, 14) == 40
      && ReadI32(r, 18) == width
      && ReadI32(r, 22) == biHeight
      && ReadU16(r, 26) == 1
      && ReadU16(r, 28) == 32
      && ReadU32(r, 30) == BiRgb
      && ReadU32(r, 34) == 0
      && ReadI32(r, 38) == width
      && ReadI32(r, 42) == yPels
      && ReadU32(r, 46) == 0 && ReadU32(r, 50) == 0
  {
    ContainerRoundTrip(bf, BitmapInfo(InfoHeaderFor(width, biHeight, yPels), colors), payload);
  }

  /** RtlZeroMemory over the whole buffer. */
  method ZeroMemory(dst: array<byte>)
    modifies dst
    ensures forall k :: 0 <= k < dst.Length ==> dst[k] == 0
  {
    var i := 0;
    while i < dst.Length
      invariant 0 <= i <= dst.Length
      invariant forall k :: 0 <= k < i ==> dst[k] == 0
    {
      dst[i] := 0;
      i := i + 1;
    }
  }

  /** RtlMoveMemory of `src` to offset `off` of `dst`. */
  method MoveMemory(dst: array<byte>, off: nat, src: seq<byte>)
    requires off + |src| <= dst.Length
    modifies dst
    ensures dst[..] == old(dst[..off]) + src + old(dst[off + |src|..])
  {
    var i := 0;
    while i < |src|
      invariant 0 <= i <= |src|
      invariant forall k :: 0 <= k < dst.Length ==>
        dst[k] == if off <= k < off + i then src[k - off] else old(dst[k])
    {
      dst[off + i] := src[i];
      i := i + 1;
    }
    assert dst[..] == old(dst[..off]) + src + old(dst[off + |src|..]);
  }

  /**
   * The part the three routines share: allocate file-sized storage, zero it,
   * and copy the file header and the BITMAPINFO in, leaving the payload area
   * zero.
   */
  method WriteHeaders(bf: FileHeader, bi: BitmapInfo, payloadLen: nat) returns (buff: array<byte>)
    ensures fresh(buff)
    ensures buff.Length == PixelStart + payloadLen
    ensures buff[..] == EncodeFileHeader(bf) + EncodeBitmapInfo(bi) + seq(payloadLen, _ => 0)
  {
    var fh, info := EncodeFileHeader(bf), EncodeBitmapInfo(bi);
    buff := new byte[PixelStart + payloadLen];
    ZeroMemory(buff);
    assert buff[..] == seq(buff.Length, _ => 0);
    MoveMemory(buff, 0, fh);
    assert buff[..] == fh + seq(SizeofBitmapInfo + payloadLen, _ => 0);
    MoveMemory(buff, SizeofFileHeader, info);
    assert buff[..SizeofFileHeader] == fh;
    assert buff[SizeofFileHeader + SizeofBitmapInfo..] == seq(payloadLen, _ => 0);
  }

  // ---------------------------------------------------------------------------
  // makeBtimap: an RGBA frame, converted, as a bottom-up bitmap
  // ---------------------------------------------------------------------------

  /** The file makeBtimap returns for a frame. */
  function BtimapBytes(frame: seq<byte>, width: int32, height: int32, bmiColors: RgbQuad): (r: seq<byte>)
    requires 0 <= width && 0 <= height
    requires width * height * 4 <= |frame| <= MaxPayload
  {
    Container(FileHeaderFor(|frame|), BitmapInfo(InfoHeaderFor(width, height, height), bmiColors),
              Converted(frame, width, height))
  }

  /**
   * `bmiColors` stands for the four bytes of the uninitialised BITMAPINFO on
   * the stack that land at offsets 54..57: every value is possible.
   */
  method MakeBtimap(frame: seq<byte>, width: int32, height: int32, bmiColors: RgbQuad)
    returns (len: int32, buff: array<byte>)
    requires 0 <= width && 0 <= height
    requires width * height * 4 <= |frame| <= MaxPayload
    ensures fresh(buff)
    ensures len == buff.Length == PixelStart + |frame|
    ensures buff[..] == BtimapBytes(frame, width, height, bmiColors)
  {
    var bufferLen := |frame|;
    var dest := ConvertRgbaToBgra(frame, width, height);
    var bi := BitmapInfo(InfoHeaderFor(width, height, height), bmiColors);
    var bf := FileHeaderFor(bufferLen);
    buff := WriteHeaders(bf, bi, bufferLen);
    MoveMemory(buff, PixelStart, dest[..]);
    len := PixelStart + bufferLen;
  }

  /**
   * The file makeBtimap returns: "BM" header, a bottom-up (+height) info
   * header, and from byte 58 on the converted frame.
   */
  lemma BtimapLayout(frame: seq<byte>, width: int32, height: int32, bmiColors: RgbQuad)
    requires 0 <= width && 0 <= height
    requires width * height * 4 <= |frame| <= MaxPayload
    ensures var r := BtimapBytes(frame, width, height, bmiColors);
      && |r| == 58 + |frame|
      && DecodeFileHeader(r, 0) == FileHeader(0x4d42, |frame| + 54, 0, 0, 54)
      && DecodeInfoHeader(r, 14) == InfoHeader(40, width, height, 1, 32, 0, 0, width, height, 0, 0)
      && ReadI32(r, 22) == height
      && r[58..] == Converted(frame, width, height)
  {
    var bi := BitmapInfo(InfoHeaderFor(width, height, height), bmiColors);
    ContainerRoundTrip(FileHeaderFor(|frame|), bi, Converted(frame, width, height));
  }

  /**
   * Pixel `p` of the grid sits at byte 58 + 4p of the file, in BGRA order
   * with alpha 255.
   */
  lemma BtimapPixel(frame: seq<byte>, width: int32, height: int32, bmiColors: RgbQuad, p: nat)
    requires 0 <= width && 0 <= height
    requires width * height * 4 <= |frame| <= MaxPayload
    requires p < width * height
    ensures var r := BtimapBytes(frame, width, height, bmiColors);
      && r[58 + 4 * p] == frame[4 * p + 2]
      && r[58 + 4 * p + 1] == frame[4 * p + 1]
      && r[58 + 4 * p + 2] == frame[4 * p]
      && r[58 + 4 * p + 3] == 255
  {
    BtimapLayout(frame, width, height, bmiColors);
    ChannelMapping(frame, width, height, p);
    var r := BtimapBytes(frame, width, height, bmiColors);
    assert r[58..][4 * p] == r[58 + 4 * p];
    assert r[58..][4 * p + 1] == r[58 + 4 * p + 1];
    assert r[58..][4 * p + 2] == r[58 + 4 * p + 2];
    assert r[58..][4 * p + 3] == r[58 + 4 * p + 3];
  }

  /** A 1x1 frame (r, g, b, a) = (10, 20, 30, 99) gives a 62-byte file ending in 30, 20, 10, 255. */
  lemma SinglePixelFrame(bmiColors: RgbQuad)
    ensures var r := BtimapBytes([10, 20, 30, 99], 1, 1, bmiColors);
      |r| == 62 && r[58..] == [30, 20, 10, 255]
  {
    var frame: seq<byte> := [10, 20, 30, 99];
    BtimapLayout(frame, 1, 1, bmiColors);
    ChannelMapping(frame, 1, 1, 0);
  }

  // ---------------------------------------------------------------------------
  // makeBtimapByBGRABuffer: BGRA pixels copied as they are, top-down
  // ---------------------------------------------------------------------------

  /** The file makeBtimapByBGRABuffer returns for a BGRA buffer. */
  function BgraBitmapBytes(buffer: seq<byte>, width: int32, height: int32, bmiColors: RgbQuad): (r: seq<byte>)
    requires -0x8000_0000 < height
    requires |buffer| <= MaxPayload
  {
    Container(FileHeaderFor(|buffer|), BitmapInfo(InfoHeaderFor(width, -height, height), bmiColors),
              buffer)
  }

  method MakeBtimapByBgraBuffer(buffer: array<byte>, length: uint32, width: int32, height: int32,
                                bmiColors: RgbQuad)
    returns (len: int32, buff: array<byte>)
    requires length <= buffer.Length
    requires length <= MaxPayload
    requires -0x8000_0000 < height
    ensures fresh(buff)
    ensures len == buff.Length == PixelStart + length
    ensures buff[..] == BgraBitmapBytes(buffer[..length], width, height, bmiColors)
  {
    var bufferLen := length;
    var destBuffer := buffer[..length];
    var bi := BitmapInfo(InfoHeaderFor(width, -height, height), bmiColors);
    var bf := FileHeaderFor(bufferLen);
    buff := WriteHeaders(bf, bi, bufferLen);
    MoveMemory(buff, PixelStart, destBuffer);
    len := PixelStart + bufferLen;
  }

  /**
   * The file makeBtimapByBGRABuffer returns: the same file header, a
   * top-down (-height) info header whose biYPelsPerMeter is still +height,
   * and the buffer byte for byte from offset 58 on.
   */
  lemma BgraBitmapLayout(buffer: seq<byte>, width: int32, height: int32, bmiColors: RgbQuad)
    requires -0x8000_0000 < height
    requires |buffer| <= MaxPayload
    ensures var r := BgraBitmapBytes(buffer, width, height, bmiColors);
      && |r| == 58 + |buffer|
      && DecodeFileHeader(r, 0) == FileHeader(0x4d42, |buffer| + 54, 0, 0, 54)
      && DecodeInfoHeader(r, 14) == InfoHeader(40, width, -height, 1, 32, 0, 0, width, height, 0, 0)
      && ReadI32(r, 22) == -height
      && r[58..] == buffer
  {
    var bi := BitmapInfo(InfoHeaderFor(width, -height, height), bmiColors);
    ContainerRoundTrip(FileHeaderFor(|buffer|), bi, buffer);
  }

  // ---------------------------------------------------------------------------
  // CreateFromHBITMAP: header layout around pixels fetched by GetDIBits
  // ---------------------------------------------------------------------------

  /** `bitsize` of the capture path: 4 bytes per pixel of the GDI bitmap. */
  function BitSize(bm: Bitmap): (n: int)
    ensures n % 4 == 0
    ensures n == 0 <==> bm.bmWidth == 0 || bm.bmHeight == 0
  {
    bm.bmWidth * bm.bmHeight * 4
  }

  /** The file CreateFromHBITMAP returns when GetDIBits fills in `dibits`. */
  function HBitmapBytes(bm: Bitmap, dibits: seq<byte>, bmiColors: RgbQuad): (r: seq<byte>)
    requires 0 <= BitSize(bm) <= MaxPayload
    requires |dibits| == BitSize(bm)
  {
    Container(FileHeaderFor(BitSize(bm)),
              BitmapInfo(InfoHeaderFor(bm.bmWidth, bm.bmHeight, bm.bmHeight), bmiColors), dibits)
  }

  /**
   * GetDIBits is a foreign call: `dibits` stands for whatever bytes it
   * writes after the headers, and `bmiColors` for the uninitialised colour
   * table entry of the stack BITMAPINFO.
   */
  method CreateFromHBitmap(bm: Bitmap, dibits: seq<byte>, bmiColors: RgbQuad)
    returns (len: int32, buff: array<byte>)
    requires 0 <= BitSize(bm) <= MaxPayload
    requires |dibits| == BitSize(bm)
    ensures fresh(buff)
    ensures len == buff.Length == PixelStart + BitSize(bm)
    ensures buff[..] == HBitmapBytes(bm, dibits, bmiColors)
  {
    var bi := BitmapInfo(InfoHeaderFor(bm.bmWidth, bm.bmHeight, bm.bmHeight), bmiColors);
    var bitsize := bm.bmWidth * bm.bmHeight * 4;
    var bf := FileHeaderFor(bitsize);
    buff := WriteHeaders(bf, bi, bitsize);
    MoveMemory(buff, PixelStart, dibits);  // GetDIBits
    len := PixelStart + bitsize;
  }

  /**
   * The file CreateFromHBITMAP returns: 58 + width * height * 4 bytes, the
   * same file header, biHeight = bmHeight, and the fetched bits from byte 58.
   */
  lemma HBitmapLayout(bm: Bitmap, dibits: seq<byte>, bmiColors: RgbQuad)
    requires 0 <= BitSize(bm) <= MaxPayload
    requires |dibits| == BitSize(bm)
    ensures var r := HBitmapBytes(bm, dibits, bmiColors);
      && |r| == 58 + bm.bmWidth * bm.bmHeight * 4
      && DecodeFileHeader(r, 0) == FileHeader(0x4d42, |dibits| + 54, 0, 0, 54)
      && DecodeInfoHeader(r, 14)
         == InfoHeader(40, bm.bmWidth, bm.bmHeight, 1, 32, 0, 0, bm.bmWidth, bm.bmHeight, 0, 0)
      && ReadI32(r, 22) == bm.bmHeight
      && r[58..] == dibits
  {
    var bi := BitmapInfo(InfoHeaderFor(bm.bmWidth, bm.bmHeight, bm.bmHeight), bmiColors);
    ContainerRoundTrip(FileHeaderFor(BitSize(bm)), bi, dibits);
  }
}
