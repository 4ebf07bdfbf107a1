/** The 14-byte wire header, and prepending and stripping it in place. */
module Packet {
  import opened Words
  import opened Buffer

  const HEADER_SIZE := 14

  const TYPE_DATA: byte := 3
  const TYPE_KEEPALIVE: byte := 4
  const TYPE_DISCONNECT: byte := 5

  datatype Header = Header(Type: byte, Flags: byte, ReceiverIndex: uint32, Counter: uint64)

  function Encode(h: Header): (s: seq<byte>)
    ensures |s| == HEADER_SIZE
  {
    [h.Type, h.Flags] + LittleEndian(4, h.ReceiverIndex) + LittleEndian(8, h.Counter)
  }

  /** The header in the first 14 bytes of s. */
  function Decode(s: seq<byte>): Header
    requires |s| >= HEADER_SIZE
  {
    Ranges();
    Header(s[0], s[1], FromLittleEndian(s[2..6]), FromLittleEndian(s[6..14]))
  }

  lemma {:induction false} DecodeAfterEncode(h: Header, rest: seq<byte>)
    ensures Decode(Encode(h) + rest) == h
  {
    Ranges();
    var s := Encode(h) + rest;
    assert s[2..6] == LittleEndian(4, h.ReceiverIndex);
    assert s[6..14] == LittleEndian(8, h.Counter);
    DecodeEncode(4, h.ReceiverIndex);
    DecodeEncode(8, h.Counter);
  }

  lemma {:induction false} EncodeAfterDecode(s: seq<byte>)
    requires |s| >= HEADER_SIZE
    ensures Encode(Decode(s)) == s[..HEADER_SIZE]
  {
    EncodeDecode(s[2..6]);
    EncodeDecode(s[6..14]);
    assert s[..14] == [s[0], s[1]] + s[2..6] + s[6..14];
  }

  /** The wire layout, byte by byte. */
  predicate Layout(s: seq<byte>, h: Header)
    requires |s| >= 14
  {
    && s[0] == h.Type
    && s[1] == h.Flags
    && h.ReceiverIndex == (s[2] as int) + 0x100 * (s[3] as int) + 0x1_0000 * (s[4] as int) + 0x100_0000 * (s[5] as int)
    && h.Counter ==
         (s[6] as int) + 0x100 * (s[7] as int) + 0x1_0000 * (s[8] as int) + 0x100_0000 * (s[9] as int) +
         0x1_0000_0000 * ((s[10] as int) + 0x100 * (s[11] as int) + 0x1_0000 * (s[12] as int) + 0x100_0000 * (s[13] as int))
  }

  /** It is the layout of encoding and of decoding, and determines both. */
  lemma LayoutDetermines(s: seq<byte>, h: Header)
    requires |s| >= 14
    ensures Layout(s, h) <==> Decode(s) == h
    ensures Layout(s, h) <==> Encode(h) == s[..14]
    ensures |Encode(h)| == 14
  {
    FourBytesValue(s[2..6]);
    EightBytesValue(s[6..14]);
    EncodeAfterDecode(s);
    DecodeAfterEncode(h, s[14..]);
    hide Encode;
    if Encode(h) == s[..14] {
      assert Encode(h) + s[14..] == s;
    }
  }

  method EncodeHeader(h: Header, dst: array<byte>, at: nat)
    requires at + HEADER_SIZE <= dst.Length
    modifies dst
    ensures dst[..] == Splice(old(dst[..]), at, Encode(h))
    ensures Layout(dst[at..at + 14], h)
  {
    ghost var was := dst[..];
    dst[at], dst[at + 1] := h.Type, h.Flags;
    assert dst[..] == Splice(was, at, [h.Type, h.Flags]);
    Store(dst, at + 2, LittleEndian(4, h.ReceiverIndex));
    SpliceTwice(was, at, [h.Type, h.Flags], LittleEndian(4, h.ReceiverIndex));
    Store(dst, at + 6, LittleEndian(8, h.Counter));
    SpliceTwice(was, at, [h.Type, h.Flags] + LittleEndian(4, h.ReceiverIndex), LittleEndian(8, h.Counter));
    hide LittleEndian, Layout;
    LayoutDetermines(dst[at..at + 14], h);
    assert dst[at..at + 14] == dst[..][at..at + 14] == Encode(h);
  }

  /** The header in a buffer of its own, as the additional data of a packet. */
  method HeaderBytes(h: Header) returns (ad: seq<byte>)
    ensures ad == Encode(h)
  {
    var a := new byte[HEADER_SIZE](_ => 0);
    EncodeHeader(h, a, 0);
    return a[..];
  }

  method DecodeHeader(src: seq<byte>) returns (h: Option<Header>)
    ensures h.None? <==> |src| < 14
    ensures h.Some? ==> Layout(src, h.value)
    ensures h.Some? ==> Encode(h.value) + src[14..] == src && h.value == Decode(src)
  {
    if |src| < HEADER_SIZE {
      return None;
    }
    EncodeAfterDecode(src);
    LayoutDetermines(src, Decode(src));
    return Some(Decode(src));
  }

  /** Writing r just in front of the window of length n at position at. */
  lemma InFront(s: seq<byte>, at: nat, n: nat, r: seq<byte>)
    requires |r| <= at && at + n <= |s|
    ensures var t := Splice(s, at - |r|, r);
            t[at - |r|..at + n] == r + s[at..at + n] && OutsideUnchanged(s, t, at - |r|, at + n)
  {
  }

  /** Moving the window to position |r|, over itself, and writing r at the front. */
  lemma ByShifting(s: seq<byte>, at: nat, n: nat, r: seq<byte>)
    requires at + n <= |s| && |r| + n <= |s|
    ensures var t := Splice(Splice(s, |r|, s[at..at + n]), 0, r);
            t[0..|r| + n] == r + s[at..at + n] && OutsideUnchanged(s, t, 0, |r| + n)
  {
    var m := Splice(s, |r|, s[at..at + n]);
    var t := Splice(m, 0, r);
    assert t[|r|..] == m[|r|..];
    assert m[|r|..|r| + n] == s[at..at + n];
    assert t[|r| + n..] == m[|r| + n..];
  }

  /** Succeeds exactly when the header fits, either in front of the window or by
    * shifting the window right over itself. */
  method PrependHeader(buf: PacketBuffer, h: Header) returns (ok: bool)
    requires buf.Valid()
    modifies buf, buf.Data
    ensures buf.Valid()
    ensures ok <==> old(buf.Offset) >= 14 || old(buf.Length) + 14 <= buf.Data.Length
    ensures ok ==> buf.Bytes() == Encode(h) + old(buf.Bytes())
    ensures ok ==> buf.Offset == if old(buf.Offset) >= 14 then old(buf.Offset) - 14 else 0
    ensures ok ==> OutsideUnchanged(old(buf.Data[..]), buf.Data[..], buf.Offset, buf.Offset + buf.Length)
    ensures !ok ==> unchanged(buf) && unchanged(buf.Data)
  {
    hide OutsideUnchanged, Encode, PacketBuffer.Bytes;
    if buf.Offset >= HEADER_SIZE {
      WriteInFront(buf, h);
      return true;
    }
    if buf.Data.Length < buf.Length + HEADER_SIZE {
      return false;
    }
    ShiftAndWrite(buf, h);
    return true;
  }

  method WriteInFront(buf: PacketBuffer, h: Header)
    requires buf.Valid() && buf.Offset >= HEADER_SIZE
    modifies buf, buf.Data
    ensures buf.Valid() && buf.Offset == old(buf.Offset) - 14
    ensures buf.Bytes() == Encode(h) + old(buf.Bytes())
    ensures OutsideUnchanged(old(buf.Data[..]), buf.Data[..], buf.Offset, buf.Offset + buf.Length)
  {
    hide OutsideUnchanged, Encode, Splice, Layout;
    ghost var was, at, n := buf.Data[..], buf.Offset, buf.Length;
    assert buf.Bytes() == was[at..at + n];
    buf.Offset := buf.Offset - HEADER_SIZE;
    buf.Length := buf.Length + HEADER_SIZE;
    EncodeHeader(h, buf.Data, buf.Offset);
    InFront(was, at, n, Encode(h));
    assert buf.Bytes() == buf.Data[..][buf.Offset..buf.Offset + buf.Length];
  }

  method ShiftAndWrite(buf: PacketBuffer, h: Header)
    requires buf.Valid() && buf.Length + HEADER_SIZE <= buf.Data.Length
    modifies buf, buf.Data
    ensures buf.Valid() && buf.Offset == 0
    ensures buf.Bytes() == Encode(h) + old(buf.Bytes())
    ensures OutsideUnchanged(old(buf.Data[..]), buf.Data[..], 0, buf.Length)
  {
    hide OutsideUnchanged, Encode, Splice, Layout;
    ghost var was, at, n := buf.Data[..], buf.Offset, buf.Length;
    assert buf.Bytes() == was[at..at + n];
    Move(buf.Data, HEADER_SIZE, buf.Offset, buf.Length);
    buf.Offset := 0;
    buf.Length := buf.Length + HEADER_SIZE;
    EncodeHeader(h, buf.Data, 0);
    ByShifting(was, at, n, Encode(h));
    assert buf.Bytes() == buf.Data[..][0..buf.Length];
  }

  method StripHeader(buf: PacketBuffer) returns (h: Option<Header>)
    requires buf.Valid()
    modifies buf
    ensures buf.Valid()
    ensures h.None? <==> old(buf.Length) < 14
    ensures h.None? ==> unchanged(buf)
    ensures h.Some? ==> Encode(h.value) + buf.Bytes() == old(buf.Bytes())
    ensures h.Some? ==> h.value == Decode(old(buf.Bytes()))
    ensures h.Some? ==> buf.Offset == old(buf.Offset) + 14
  {
    if buf.Length < HEADER_SIZE {
      return None;
    }
    ghost var was := buf.Bytes();
    h := DecodeHeader(buf.Bytes());
    EncodeAfterDecode(was);
    buf.Offset := buf.Offset + HEADER_SIZE;
    buf.Length := buf.Length - HEADER_SIZE;
    assert was == was[..HEADER_SIZE] + buf.Bytes();
  }

  /** StripHeader, in terms of the packet alone. */
  method Strip(buf: PacketBuffer) returns (h: Option<Header>)
    requires buf.Valid()
    modifies buf
    ensures buf.Valid()
    ensures h.None? ==> |old(buf.Bytes())| < HEADER_SIZE
    ensures h.Some? ==> |old(buf.Bytes())| >= HEADER_SIZE && h.value == Decode(old(buf.Bytes()))
    ensures h.Some? ==> buf.Bytes() == old(buf.Bytes())[HEADER_SIZE..]
  {
    hide Encode, Decode, PacketBuffer.Bytes;
    ghost var packet := buf.Bytes();
    h := StripHeader(buf);
    assert h.Some? ==> (Encode(h.value) + buf.Bytes())[HEADER_SIZE..] == buf.Bytes();
  }
}
