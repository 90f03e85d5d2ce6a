/**
 * The Win32 GDI structures that make up an in-memory .bmp file, with their
 * byte layout: BITMAPFILEHEADER (14 bytes, packed), BITMAPINFOHEADER
 * (40 bytes) and BITMAPINFO (the info header followed by one RGBQUAD,
 * 44 bytes). Every field is little-endian.
 */
module WinGdi {
  import opened Ints
  import opened LittleEndian

  /** sizeof(BITMAPFILEHEADER) */
  const SizeofFileHeader: nat := 14
  /** sizeof(BITMAPINFOHEADER) */
  const SizeofInfoHeader: nat := 40
  /** sizeof(BITMAPINFO): the info header and a one-entry colour table */
  const SizeofBitmapInfo: nat := 44
  /** bfType of a bitmap file: the characters "BM" read as a little-endian WORD */
  const BfTypeBitmap: uint16 := 0x4d42
  /** biCompression value for uncompressed pixels */
  const BiRgb: uint32 := 0

  datatype FileHeader = FileHeader(
    bfType: uint16,
    bfSize: uint32,
    bfReserved1: uint16,
    bfReserved2: uint16,
    bfOffBits: uint32)

  datatype InfoHeader = InfoHeader(
    biSize: uint32,
    biWidth: int32,
    biHeight: int32,
    biPlanes: uint16,
    biBitCount: uint16,
    biCompression: uint32,
    biSizeImage: uint32,
    biXPelsPerMeter: int32,
    biYPelsPerMeter: int32,
    biClrUsed: uint32,
    biClrImportant: uint32)

  datatype RgbQuad = RgbQuad(rgbBlue: byte, rgbGreen: byte, rgbRed: byte, rgbReserved: byte)

  datatype BitmapInfo = BitmapInfo(bmiHeader: InfoHeader, bmiColors: RgbQuad)

  function EncodeFileHeader(h: FileHeader): (r: seq<byte>)
    ensures |r| == SizeofFileHeader
  {
    Le16(h.bfType) + Le32(h.bfSize) + Le16(h.bfReserved1) + Le16(h.bfReserved2) + Le32(h.bfOffBits)
  }

  function EncodeInfoHeader(h: InfoHeader): (r: seq<byte>)
    ensures |r| == SizeofInfoHeader
  {
    Le32(h.biSize) + LeI32(h.biWidth) + LeI32(h.biHeight) + Le16(h.biPlanes) + Le16(h.biBitCount)
    + Le32(h.biCompression) + Le32(h.biSizeImage) + LeI32(h.biXPelsPerMeter)
    + LeI32(h.biYPelsPerMeter) + Le32(h.biClrUsed) + Le32(h.biClrImportant)
  }

  function EncodeRgbQuad(q: RgbQuad): (r: seq<byte>)
    ensures |r| == 4
  {
    [q.rgbBlue, q.rgbGreen, q.rgbRed, q.rgbReserved]
  }

  function EncodeBitmapInfo(bi: BitmapInfo): (r: seq<byte>)
    ensures |r| == SizeofBitmapInfo
  {
    EncodeInfoHeader(bi.bmiHeader) + EncodeRgbQuad(bi.bmiColors)
  }

  /** The file header as a reader finds it at offset `off` of `s`. */
  function DecodeFileHeader(s: seq<byte>, off: nat): (h: FileHeader)
    requires off + SizeofFileHeader <= |s|
  {
    FileHeader(ReadU16(s, off), ReadU32(s, off + 2), ReadU16(s, off + 6), ReadU16(s, off + 8),
               ReadU32(s, off + 10))
  }

  /** The info header as a reader finds it at offset `off` of `s`. */
  function DecodeInfoHeader(s: seq<byte>, off: nat): (h: InfoHeader)
    requires off + SizeofInfoHeader <= |s|
  {
    InfoHeader(ReadU32(s, off), ReadI32(s, off + 4), ReadI32(s, off + 8), ReadU16(s, off + 12),
               ReadU16(s, off + 14), ReadU32(s, off + 16), ReadU32(s, off + 20),
               ReadI32(s, off + 24), ReadI32(s, off + 28), ReadU32(s, off + 32),
               ReadU32(s, off + 36))
  }

  function DecodeRgbQuad(s: seq<byte>, off: nat): (q: RgbQuad)
    requires off + 4 <= |s|
  {
    RgbQuad(s[off], s[off + 1], s[off + 2], s[off + 3])
  }

  function DecodeBitmapInfo(s: seq<byte>, off: nat): (bi: BitmapInfo)
    requires off + SizeofBitmapInfo <= |s|
  {
    BitmapInfo(DecodeInfoHeader(s, off), DecodeRgbQuad(s, off + SizeofInfoHeader))
  }

  /** Decoding an encoded file header gives the header back. */
  lemma {:induction false} FileHeaderRoundTrip(h: FileHeader)
    ensures DecodeFileHeader(EncodeFileHeader(h), 0) == h
  {
    var r := EncodeFileHeader(h);
    ReadAt(r, 0, Le16(h.bfType));
    ReadAt(r, 2, Le32(h.bfSize));
    ReadAt(r, 6, Le16(h.bfReserved1));
    ReadAt(r, 8, Le16(h.bfReserved2));
    ReadAt(r, 10, Le32(h.bfOffBits));
    ReadLe16(h.bfType);
    ReadLe32(h.bfSize);
    ReadLe16(h.bfReserved1);
    ReadLe16(h.bfReserved2);
    ReadLe32(h.bfOffBits);
  }

  /** Every 14 bytes are the encoding of the file header decoded from them. */
  lemma {:induction false} FileHeaderBytesRoundTrip(s: seq<byte>)
    requires |s| == SizeofFileHeader
    ensures EncodeFileHeader(DecodeFileHeader(s, 0)) == s
  {
    ReadAt(s, 0, s[0..2]);
    ReadAt(s, 2, s[2..6]);
    ReadAt(s, 6, s[6..8]);
    ReadAt(s, 8, s[8..10]);
    ReadAt(s, 10, s[10..14]);
    Le16Read(s[0..2]);
    Le32Read(s[2..6]);
    Le16Read(s[6..8]);
    Le16Read(s[8..10]);
    Le32Read(s[10..14]);
    assert s == s[0..2] + s[2..6] + s[6..8] + s[8..10] + s[10..14];
  }

  /** Decoding an encoded info header gives the header back. */
  lemma {:induction false} InfoHeaderRoundTrip(h: InfoHeader)
    ensures DecodeInfoHeader(EncodeInfoHeader(h), 0) == h
  {
    var r := EncodeInfoHeader(h);
    ReadAt(r, 0, Le32(h.biSize));
    ReadAt(r, 4, LeI32(h.biWidth));
    ReadAt(r, 8, LeI32(h.biHeight));
    ReadAt(r, 12, Le16(h.biPlanes));
    ReadAt(r, 14, Le16(h.biBitCount));
    ReadAt(r, 16, Le32(h.biCompression));
    ReadAt(r, 20, Le32(h.biSizeImage));
    ReadAt(r, 24, LeI32(h.biXPelsPerMeter));
    ReadAt(r, 28, LeI32(h.biYPelsPerMeter));
    ReadAt(r, 32, Le32(h.biClrUsed));
    ReadAt(r, 36, Le32(h.biClrImportant));
    ReadLe32(h.biSize);
    ReadLeI32(h.biWidth);
    ReadLeI32(h.biHeight);
    ReadLe16(h.biPlanes);
    ReadLe16(h.biBitCount);
    ReadLe32(h.biCompression);
    ReadLe32(h.biSizeImage);
    ReadLeI32(h.biXPelsPerMeter);
    ReadLeI32(h.biYPelsPerMeter);
    ReadLe32(h.biClrUsed);
    ReadLe32(h.biClrImportant);
  }

  /** Every 40 bytes are the encoding of the info header decoded from them. */
  lemma {:induction false} InfoHeaderBytesRoundTrip(s: seq<byte>)
    requires |s| == SizeofInfoHeader
    ensures EncodeInfoHeader(DecodeInfoHeader(s, 0)) == s
  {
    ReadAt(s, 0, s[0..4]);
    ReadAt(s, 4, s[4..8]);
    ReadAt(s, 8, s[8..12]);
    ReadAt(s, 12, s[12..14]);
    ReadAt(s, 14, s[14..16]);
    ReadAt(s, 16, s[16..20]);
    ReadAt(s, 20, s[20..24]);
    ReadAt(s, 24, s[24..28]);
    ReadAt(s, 28, s[28..32]);
    ReadAt(s, 32, s[32..36]);
    ReadAt(s, 36, s[36..40]);
    Le32Read(s[0..4]);
    LeI32Read(s[4..8]);
    LeI32Read(s[8..12]);
    Le16Read(s[12..14]);
    Le16Read(s[14..16]);
    Le32Read(s[16..20]);
    Le32Read(s[20..24]);
    LeI32Read(s[24..28]);
    LeI32Read(s[28..32]);
    Le32Read(s[32..36]);
    Le32Read(s[36..40]);
    assert s == s[0..4] + s[4..8] + s[8..12] + s[12..14] + s[14..16] + s[16..20] + s[20..24]
              + s[24..28] + s[28..32] + s[32..36] + s[36..40];
  }

  /** Decoding an encoded BITMAPINFO gives it back, colour table included. */
  lemma {:induction false} BitmapInfoRoundTrip(bi: BitmapInfo)
    ensures DecodeBitmapInfo(EncodeBitmapInfo(bi), 0) == bi
  {
    var r := EncodeBitmapInfo(bi);
    var ih := EncodeInfoHeader(bi.bmiHeader);
    assert r[..SizeofInfoHeader] == ih;
    InfoHeaderRoundTrip(bi.bmiHeader);
    DecodeInfoHeaderPrefix(r, ih, 0);
  }

  /** Every 44 bytes are the encoding of the BITMAPINFO decoded from them. */
  lemma {:induction false} BitmapInfoBytesRoundTrip(s: seq<byte>)
    requires |s| == SizeofBitmapInfo
    ensures EncodeBitmapInfo(DecodeBitmapInfo(s, 0)) == s
  {
    var ih := s[..SizeofInfoHeader];
    DecodeInfoHeaderPrefix(s, ih, 0);
    InfoHeaderBytesRoundTrip(ih);
    assert s == ih + s[SizeofInfoHeader..];
  }

  /** The info header decoded at `off` depends only on the 40 bytes there. */
  lemma DecodeInfoHeaderPrefix(s: seq<byte>, t: seq<byte>, off: nat)
    requires |t| == SizeofInfoHeader && off + |t| <= |s| && s[off..off + |t|] == t
    ensures DecodeInfoHeader(s, off) == DecodeInfoHeader(t, 0)
  {
    forall k | 0 <= k < SizeofInfoHeader ensures s[off + k] == t[k] {
      assert s[off..off + |t|][k] == t[k];
    }
  }

  /** The file header decoded at `off` depends only on the 14 bytes there. */
  lemma DecodeFileHeaderPrefix(s: seq<byte>, t: seq<byte>, off: nat)
    requires |t| == SizeofFileHeader && off + |t| <= |s| && s[off..off + |t|] == t
    ensures DecodeFileHeader(s, off) == DecodeFileHeader(t, 0)
  {
    forall k | 0 <= k < SizeofFileHeader ensures s[off + k] == t[k] {
      assert s[off..off + |t|][k] == t[k];
    }
  }
}
