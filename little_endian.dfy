/**
 * Little-endian layout of the WORD, DWORD and LONG fields of the Win32 bitmap
 * headers, as `RtlMoveMemory` of a header struct lays them out on x86 and
 * ARM Windows: least significant byte first, LONG in two's complement.
 */
module LittleEndian {
  import opened Ints

  /** The two bytes of a WORD, least significant first. */
  function Le16(v: uint16): (r: seq<byte>)
    ensures |r| == 2
  {
    [v % 0x100, v / 0x100]
  }

  /** The four bytes of a DWORD, least significant first. */
  function Le32(v: uint32): (r: seq<byte>)
    ensures |r| == 4
  {
    [v % 0x100, v / 0x100 % 0x100, v / 0x1_0000 % 0x100, v / 0x100_0000]
  }

  /** The two's complement bit pattern of a LONG. */
  function Int32Bits(v: int32): (u: uint32)
    ensures v >= 0 ==> u == v
    ensures v < 0 ==> u >= 0x8000_0000
  {
    if v < 0 then v + 0x1_0000_0000 else v
  }

  /** The LONG whose bit pattern is `u`. */
  function Int32OfBits(u: uint32): (v: int32)
    ensures Int32Bits(v) == u
  {
    if u < 0x8000_0000 then u else u - 0x1_0000_0000
  }

  /** The four bytes of a LONG. */
  function LeI32(v: int32): (r: seq<byte>)
    ensures |r| == 4
  {
    Le32(Int32Bits(v))
  }

  /** The WORD stored at `off`. */
  function ReadU16(s: seq<byte>, off: nat): (v: uint16)
    requires off + 2 <= |s|
  {
    s[off] as int + 0x100 * (s[off + 1] as int)
  }

  /** The DWORD stored at `off`. */
  function ReadU32(s: seq<byte>, off: nat): (v: uint32)
    requires off + 4 <= |s|
  {
    s[off] as int + 0x100 * (s[off + 1] as int)
    + 0x1_0000 * (s[off + 2] as int) + 0x100_0000 * (s[off + 3] as int)
  }

  /** The LONG stored at `off`. */
  function ReadI32(s: seq<byte>, off: nat): (v: int32)
    requires off + 4 <= |s|
  {
    Int32OfBits(ReadU32(s, off))
  }

  lemma DivMod256(lo: int, hi: int)
    requires 0 <= lo < 0x100
    ensures (lo + 0x100 * hi) / 0x100 == hi
    ensures (lo + 0x100 * hi) % 0x100 == lo
  {
  }

  /** Reading back a written WORD gives the WORD. */
  lemma {:induction false} ReadLe16(v: uint16)
    ensures ReadU16(Le16(v), 0) == v
  {
  }

  /** Every two bytes are the encoding of the WORD read from them. */
  lemma {:induction false} Le16Read(s: seq<byte>)
    requires |s| == 2
    ensures Le16(ReadU16(s, 0)) == s
  {
    DivMod256(s[0], s[1]);
  }

  /** Reading back a written DWORD gives the DWORD. */
  lemma {:induction false} ReadLe32(v: uint32)
    ensures ReadU32(Le32(v), 0) == v
  {
    var a := v / 0x100;
    var b := a / 0x100;
    assert v / 0x1_0000 == b;
    assert v / 0x100_0000 == b / 0x100;
    assert a == a % 0x100 + 0x100 * b;
    assert b == b % 0x100 + 0x100 * (b / 0x100);
  }

  /** Every four bytes are the encoding of the DWORD read from them. */
  lemma {:induction false} Le32Read(s: seq<byte>)
    requires |s| == 4
    ensures Le32(ReadU32(s, 0)) == s
  {
    var v := ReadU32(s, 0);
    var hi2 := s[2] as int + 0x100 * (s[3] as int);
    var hi1 := s[1] as int + 0x100 * hi2;
    assert v == s[0] as int + 0x100 * hi1;
    DivMod256(s[0], hi1);
    DivMod256(s[1], hi2);
    DivMod256(s[2], s[3]);
    assert v / 0x1_0000 == hi1 / 0x100;
    assert v / 0x100_0000 == hi2 / 0x100;
  }

  /** Reading back a written LONG gives the LONG. */
  lemma {:induction false} ReadLeI32(v: int32)
    ensures ReadI32(LeI32(v), 0) == v
  {
    ReadLe32(Int32Bits(v));
  }

  /** Every four bytes are the encoding of the LONG read from them. */
  lemma {:induction false} LeI32Read(s: seq<byte>)
    requires |s| == 4
    ensures LeI32(ReadI32(s, 0)) == s
  {
    Le32Read(s);
  }

  /** A field read at `off` only depends on the bytes of the field. */
  lemma ReadAt(s: seq<byte>, off: nat, t: seq<byte>)
    requires off + |t| <= |s| && s[off..off + |t|] == t
    ensures |t| >= 2 ==> ReadU16(s, off) == ReadU16(t, 0)
    ensures |t| >= 4 ==> ReadU32(s, off) == ReadU32(t, 0)
    ensures |t| >= 4 ==> ReadI32(s, off) == ReadI32(t, 0)
  {
    if |t| >= 2 {
      assert s[off] == t[0] && s[off + 1] == t[1];
    }
    if |t| >= 4 {
      assert s[off + 2] == t[2] && s[off + 3] == t[3];
    }
  }
}
