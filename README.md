# Frame-to-bitmap packaging and argument helpers of the Zego Express Flutter plugin

This project is a Dafny model of two small pieces of the plugin.

The first is the Windows code that turns a video frame into an in-memory
Windows bitmap (.bmp) file:

- `makeBtimap` copies an RGBA frame and rewrites every pixel as BGRA with an
  alpha of 255. It then writes a `BITMAPFILEHEADER`, a `BITMAPINFO` and the
  converted pixels into a freshly allocated buffer. The rows are marked
  bottom-up (`biHeight = +height`).
- `makeBtimapByBGRABuffer` packages a BGRA buffer unchanged. The rows are
  marked top-down (`biHeight = -height`).
- `CreateFromHBITMAP` packages the pixels that GDI fetches from a bitmap
  handle. The header is built from the bitmap's own width and height.

The second is a set of Android helpers that read method-channel arguments:
`boolValue`, `intValue` and `longValue` default a null argument, and
`intArrayValue` copies an `ArrayList<Integer>` into an `int[]`.

Files:

- `ints.dfy` (module `Ints`): the fixed-width integer types. It also holds
  Java's `long`-to-`int` narrowing.
- `little_endian.dfy` (module `LittleEndian`): the little-endian bytes of
  WORD, DWORD and LONG fields, and reading them back.
- `win_gdi.dfy` (module `WinGdi`): `BITMAPFILEHEADER` (14 bytes),
  `BITMAPINFOHEADER` (40 bytes), `RGBQUAD` and `BITMAPINFO` (44 bytes). It
  gives their byte encodings and decoders. The file header, the info header
  and `BITMAPINFO` (which holds the `RGBQUAD`) have round trips in both
  directions.
- `data_to_image_tools.dfy` (module `DataToImageTools`): the conversion loop,
  `RtlZeroMemory`/`RtlMoveMemory`, the three routines, and the layout of the
  files they return.
- `zego_utils.dfy` (module `ZegoUtils`): the Java helpers, with
  `ArrayList` and its iterator as classes.

Each routine is an imperative method. Each method's postcondition ties the
buffer it returns to a function of its inputs (`BtimapBytes`,
`BgraBitmapBytes`, `HBitmapBytes`). Lemmas then state what a reader of that
file finds at each offset.

The model reproduces the code as written. The code sizes the file and places
the pixels with `sizeof(BITMAPINFO)`, which is 44. It computes `bfSize` and
`bfOffBits` with `sizeof(BITMAPINFOHEADER)`, which is 40. So every file
has `bfOffBits = 54`, but its pixels start at byte 58, and `bfSize` is 4 less
than the returned length. `FileHeaderAsWritten` states this. Bytes 54..57 are
the colour-table entry of a `BITMAPINFO` on the stack that is never
initialised. The model takes them as an arbitrary `RgbQuad` parameter, so no
property depends on their value.

Four more facts about the code shape the model:

- The code does not check the buffer length against the dimensions. The
  length that the conversion needs is therefore a precondition.
- The destination buffer is zeroed first, but the 4 uninitialised
  `bmiColors` bytes are still copied into it.
- `bfOffBits` and `bfSize` count 14 + 40 header bytes, while the pixels
  start at 14 + 44.
- `CreateFromHBITMAP` writes `bm.bmHeight` as it is. The model accepts any
  bitmap whose `bitsize` (width × height × 4) is not negative. That includes
  zero dimensions and a bitmap whose width and height are both negative.

## Model

| member | source | states |
|---|---|---|
| `DataToImageTools.SwapPixelsAt` | windows/internal/DataToImageTools.hpp:55-64 | pixel p of the first n converted pixels is the b, g, r of source pixel p followed by 255 |
| `DataToImageTools.ChannelMapping` | windows/internal/DataToImageTools.hpp:55-64 | for every p < width*height, converted byte 4p is source byte 4p+2, byte 4p+1 is source byte 4p+1, byte 4p+2 is source byte 4p, and byte 4p+3 is 255 whatever the source alpha |
| `DataToImageTools.Converted` | windows/internal/DataToImageTools.hpp:50-57 | the converted buffer has the frame's length, and every byte past width*height*4 keeps the zero that `resize` gives |
| `DataToImageTools.SetPixel` | windows/internal/DataToImageTools.hpp:58-63 | writing pixel sp appends its BGRA-opaque form to the converted prefix and leaves every later byte alone |
| `DataToImageTools.ConvertRow` | windows/internal/DataToImageTools.hpp:56-64 | one pass of the inner x loop appends row y's converted pixels to the converted prefix and leaves the rest of the buffer zero |
| `DataToImageTools.ConvertRgbaToBgra` | windows/internal/DataToImageTools.hpp:48-66 | the nested y/x loop over a fresh zero-filled buffer of the frame's size yields exactly `Converted(frame, width, height)` |
| `DataToImageTools.ZeroMemory` | windows/internal/DataToImageTools.hpp:83 | every byte of the buffer is 0 afterwards |
| `DataToImageTools.MoveMemory` | windows/internal/DataToImageTools.hpp:90-94 | the source bytes land at the offset, and every other byte is unchanged |
| `DataToImageTools.WriteHeaders` | windows/internal/DataToImageTools.hpp:81-93 | a fresh buffer of 58 + payload bytes holds the encoded file header, then the encoded BITMAPINFO, then zeros |
| `DataToImageTools.FileHeaderFor` | windows/internal/DataToImageTools.hpp:84-89 | the file header filled in for a payload: bfOffBits is 14 + 40, 4 bytes before the first pixel at 58, and bfSize is bfOffBits plus the payload length |
| `DataToImageTools.InfoHeaderFor` | windows/internal/DataToImageTools.hpp:68-79 | the info header filled in: biSize equals the length of its own encoding, and biXPelsPerMeter equals biWidth, which is the width given |
| `DataToImageTools.BitSize` | windows/internal/DataToImageTools.hpp:24 | bitsize is a whole number of 4-byte pixels, and it is 0 exactly when the bitmap has zero width or zero height |
| `DataToImageTools.Container` | windows/internal/DataToImageTools.hpp:90-95 | a file is 14 + 44 + payload bytes long |
| `DataToImageTools.ContainerRoundTrip` | windows/internal/DataToImageTools.hpp:90-94 | decoding offset 0 gives back the file header, decoding offset 14 gives back the BITMAPINFO (colour entry included), and bytes from 58 on are the payload |
| `DataToImageTools.FileHeaderAsWritten` | windows/internal/DataToImageTools.hpp:84-90 | the file starts with 0x42 0x4D (bfType 0x4d42); bfSize is the file length minus 4; both reserved fields are 0; bfOffBits is 54, 4 bytes before the first pixel byte |
| `DataToImageTools.InfoHeaderAsWritten` | windows/internal/DataToImageTools.hpp:67-79 | biSize 40, biWidth and biHeight as given at offsets 18 and 22, 1 plane, 32 bits per pixel, BI_RGB, biSizeImage 0, biXPelsPerMeter = width, biYPelsPerMeter as given, biClrUsed = biClrImportant = 0 |
| `DataToImageTools.MakeBtimap` | windows/internal/DataToImageTools.hpp:42-96 | returns a fresh buffer and its length 58 + frame length, holding exactly `BtimapBytes` of the frame |
| `DataToImageTools.BtimapLayout` | windows/internal/DataToImageTools.hpp:67-95 | the makeBtimap file decodes to bfSize = frame length + 54, bfOffBits 54, biHeight = +height (bottom-up), biYPelsPerMeter = height, and from byte 58 on holds the converted frame |
| `DataToImageTools.BtimapPixel` | windows/internal/DataToImageTools.hpp:55-94 | grid pixel p sits at file bytes 58+4p..58+4p+3 as b, g, r of source pixel p and 255 |
| `DataToImageTools.SinglePixelFrame` | windows/internal/DataToImageTools.hpp:42-95 | the 1x1 frame (10, 20, 30, 99) gives a 62-byte file whose last 4 bytes are 30, 20, 10, 255 |
| `DataToImageTools.MakeBtimapByBgraBuffer` | windows/internal/DataToImageTools.hpp:98-134 | returns a fresh buffer and its length 58 + length, holding exactly `BgraBitmapBytes` of the first `length` bytes of the buffer |
| `DataToImageTools.BgraBitmapLayout` | windows/internal/DataToImageTools.hpp:103-133 | the BGRA file decodes to the same file header, biHeight = -height (top-down) with biYPelsPerMeter still +height, and from byte 58 on holds the input bytes unchanged |
| `DataToImageTools.CreateFromHBitmap` | windows/internal/DataToImageTools.hpp:6-40 | returns a fresh buffer and its length 58 + width*height*4, holding the headers built from the bitmap's size followed by the bytes GetDIBits fetched |
| `DataToImageTools.HBitmapLayout` | windows/internal/DataToImageTools.hpp:12-39 | the capture file decodes to bfSize = bitsize + 54, bfOffBits 54, biWidth = bmWidth and biHeight = biYPelsPerMeter = bmHeight, and from byte 58 on holds the fetched bits |
| `WinGdi.FileHeaderRoundTrip` | windows/internal/DataToImageTools.hpp:28-34 | the 14 bytes copied from a BITMAPFILEHEADER decode back to the same five fields |
| `WinGdi.FileHeaderBytesRoundTrip` | windows/internal/DataToImageTools.hpp:28-34 | every 14 bytes are the encoding of the header decoded from them, so the encoding is a bijection |
| `WinGdi.InfoHeaderRoundTrip` | windows/internal/DataToImageTools.hpp:12-23 | the 40 bytes copied from a BITMAPINFOHEADER decode back to the same eleven fields, signed fields included |
| `WinGdi.InfoHeaderBytesRoundTrip` | windows/internal/DataToImageTools.hpp:12-23 | every 40 bytes are the encoding of the info header decoded from them |
| `WinGdi.BitmapInfoRoundTrip` | windows/internal/DataToImageTools.hpp:36 | the 44 bytes copied from a BITMAPINFO decode back to its header and its colour-table entry |
| `WinGdi.BitmapInfoBytesRoundTrip` | windows/internal/DataToImageTools.hpp:36 | every 44 bytes are the encoding of the BITMAPINFO decoded from them |
| `ZegoUtils.BoolValue` | android/src/main/java/im/zego/zego_express_engine/internal/ZegoUtils.java:9-11 | true exactly when the argument is a non-null Boolean holding true; null gives false |
| `ZegoUtils.IntValue` | android/src/main/java/im/zego/zego_express_engine/internal/ZegoUtils.java:13-15 | null gives 0; a non-null Integer gives its value |
| `ZegoUtils.LongValue` | android/src/main/java/im/zego/zego_express_engine/internal/ZegoUtils.java:17-19 | null gives 0; a non-null Long gives its value; a non-null Integer gives its value widened to 64 bits |
| `ZegoUtils.IntValueNarrowsLongValue` | android/src/main/java/im/zego/zego_express_engine/internal/ZegoUtils.java:13-19 | intValue equals longValue whenever the value fits in an int, and always agrees with it modulo 2^32 |
| `ZegoUtils.ArrayList.Iterator` | android/src/main/java/im/zego/zego_express_engine/internal/ZegoUtils.java:31 | a fresh iterator over the list, positioned at its first element |
| `ZegoUtils.ListIterator.Next` | android/src/main/java/im/zego/zego_express_engine/internal/ZegoUtils.java:33 | returns the element at the cursor and advances the cursor by one |
| `ZegoUtils.IntArrayValue` | android/src/main/java/im/zego/zego_express_engine/internal/ZegoUtils.java:29-36 | a fresh array as long as the list, where ret[i] is the i-th element for every i; the list is unchanged |

## Left out

- GDI calls in `CreateFromHBITMAP` (`GetDC`, `CreateCompatibleDC`, `SelectObject`, `GetObject`, `GetDIBits`) are calls into the operating system. The bitmap's width and height are an input (`Bitmap`). The bytes `GetDIBits` writes are an arbitrary `dibits` sequence of `bitsize` bytes. The device context that is never released, and the `DIB_PAL_COLORS` flag, are not modelled.
- The 4 `bmiColors` bytes at file offsets 54..57 come from uninitialised stack memory. They are an arbitrary `RgbQuad` parameter and are left unconstrained.
- `new BYTE[]` and the caller's later release of the buffer are modelled as a fresh Dafny array. Allocation failure is not modelled.
- The code does not validate its inputs. A frame shorter than width*height*4 would be read out of bounds, so `width * height * 4 <= |frame|` is a precondition. Negative dimensions mixed with the `uint32_t` loop counters are excluded the same way. These are preconditions of `MakeBtimap` and `ConvertRgbaToBgra`, not modelled errors.
- CreateFromHBitmap: requires `bitsize` (width × height × 4) not to be negative. If exactly one dimension is negative, `bitsize` is negative and `58 + bitsize` wraps around as a `size_t`. So `new` throws when `bitsize < -58`, and otherwise allocates fewer than the 58 header bytes that are copied into it.
- MakeBtimap, MakeBtimapByBgraBuffer, CreateFromHBitmap: require payload length <= 2^31 - 1 - 58. This is because the length is returned as a 32-bit Windows `long`, and `bitsize` is an `int`. Wrap-around for larger buffers is not modelled.
- ConvertRgbaToBgra: requires width*height <= 2^32 - 1 so that the `uint32_t` pixel index `sp` does not wrap. `MakeBtimap`'s length bound already implies this.
- MakeBtimapByBgraBuffer: requires height > -2^31, because negating INT32_MIN overflows. Other negative or zero dimensions are allowed, since this routine does not loop over the grid.
- `ZegoCustomVideoCaptureManager.java` only passes calls through to the closed engine SDK from a synchronized singleton. It has no logic of its own.
- `ZegoExpressEngineEventHandler.h` only forwards events to the Flutter event channel. Its bodies are not available, and what it does is I/O.
- `floatValue`, `doubleValue` and `floatArrayValueFromDoubleArray` work on floating point.
- `Number` subclasses other than Integer and Long (Short, Byte, Double, BigInteger, ...) are not modelled. The method-channel codec delivers integers as Integer or Long.
- IntArrayValue: the list argument is non-null. A null list would throw NullPointerException at `size()`.
- IntArrayValue: requires every list element to be non-null. Java's unboxing of a null element would throw NullPointerException.
- ListIterator.Next: requires an element to remain. `intArrayValue` calls `next()` exactly `size()` times, so the iterator's NoSuchElementException and ConcurrentModificationException are not modelled.
