/** Fixed-width unsigned integers and their little-endian byte encoding. */
module Words {

  const TWO_TO_64: int := 0x1_0000_0000_0000_0000

  type byte = x: int | 0 <= x < 0x100
  type uint32 = x: int | 0 <= x < 0x1_0000_0000
  type uint64 = x: int | 0 <= x < TWO_TO_64

  datatype Option<+T> = None | Some(value: T)

  /** The number of values that fit in n bytes. */
  function Range(n: nat): nat {
    if n == 0 then 1 else 256 * Range(n - 1)
  }

  lemma Ranges()
    ensures Range(2) == 0x1_0000
    ensures Range(4) == 0x1_0000_0000
    ensures Range(8) == TWO_TO_64
  {
    assert Range(1) == 256;
    assert Range(2) == 256 * Range(1);
    assert Range(3) == 256 * Range(2);
    assert Range(4) == 256 * Range(3);
    assert Range(5) == 256 * Range(4);
    assert Range(6) == 256 * Range(5);
    assert Range(7) == 256 * Range(6);
  }

  /** The n low bytes of x, least significant first. */
  function LittleEndian(n: nat, x: nat): (s: seq<byte>)
    ensures |s| == n
  {
    if n == 0 then [] else [x % 256] + LittleEndian(n - 1, x / 256)
  }

  /** The number whose little-endian bytes are s. */
  function FromLittleEndian(s: seq<byte>): (x: nat)
    ensures x < Range(|s|)
  {
    if s == [] then 0 else s[0] + 256 * FromLittleEndian(s[1..])
  }

  lemma TwoBytesValue(s: seq<byte>)
    requires |s| >= 2
    ensures FromLittleEndian(s) == (s[0] as int) + 0x100 * (s[1] as int) + 0x1_0000 * FromLittleEndian(s[2..])
    ensures FromLittleEndian([]) == 0
  {
    assert s[1..][1..] == s[2..];
  }

  lemma FourBytesValue(s: seq<byte>)
    requires |s| >= 4
    ensures FromLittleEndian(s) ==
      (s[0] as int) + 0x100 * (s[1] as int) + 0x1_0000 * (s[2] as int) + 0x100_0000 * (s[3] as int) +
      0x1_0000_0000 * FromLittleEndian(s[4..])
    ensures FromLittleEndian([]) == 0
  {
    hide FromLittleEndian;
    TwoBytesValue(s);
    TwoBytesValue(s[2..]);
    assert s[2..][2..] == s[4..];
  }

  lemma EightBytesValue(s: seq<byte>)
    requires |s| == 8
    ensures FromLittleEndian(s) ==
      (s[0] as int) + 0x100 * (s[1] as int) + 0x1_0000 * (s[2] as int) + 0x100_0000 * (s[3] as int) +
      0x1_0000_0000 * ((s[4] as int) + 0x100 * (s[5] as int) + 0x1_0000 * (s[6] as int) + 0x100_0000 * (s[7] as int))
  {
    hide FromLittleEndian;
    FourBytesValue(s);
    FourBytesValue(s[4..]);
    assert s[4..][4..] == [];
  }

  lemma {:induction false} DecodeEncode(n: nat, x: nat)
    requires x < Range(n)
    ensures FromLittleEndian(LittleEndian(n, x)) == x
  {
    if n != 0 {
      DecodeEncode(n - 1, x / 256);
      assert LittleEndian(n, x)[1..] == LittleEndian(n - 1, x / 256);
    }
  }

  lemma LowByte(b: byte, x: nat)
    ensures ((b as int) + 256 * x) % 256 == b && ((b as int) + 256 * x) / 256 == x
  {
  }

  lemma LittleEndianStep(n: nat, b: byte, x: nat)
    ensures LittleEndian(n + 1, (b as int) + 256 * x) == [b] + LittleEndian(n, x)
  {
    LowByte(b, x);
  }

  lemma {:induction false} EncodeDecode(s: seq<byte>)
    ensures LittleEndian(|s|, FromLittleEndian(s)) == s
  {
    if s != [] {
      EncodeDecode(s[1..]);
      LittleEndianStep(|s| - 1, s[0], FromLittleEndian(s[1..]));
      hide LittleEndian;
      assert s == [s[0]] + s[1..];
    }
  }

  lemma {:induction false} EncodingInjective(n: nat, x: nat, y: nat)
    requires x < Range(n) && y < Range(n)
    requires LittleEndian(n, x) == LittleEndian(n, y)
    ensures x == y
  {
    DecodeEncode(n, x);
    DecodeEncode(n, y);
  }
}
