/** Fixed-width integers as bytes, both ways. */
module Bytes {
  import opened Bits

  type u16 = x: int | 0 <= x < 0x1_0000

  function LittleEndian16(x: u16): (s: seq<byte>)
    ensures |s| == 2 && s[0] as int + 0x100 * s[1] as int == x && ReadLittleEndian16(s) == x
  {
    [x % 256, x / 256]
  }

  function ReadLittleEndian16(s: seq<byte>): u16
    requires |s| == 2
  {
    s[0] as int + 256 * s[1] as int
  }

  function BigEndian16(x: u16): (s: seq<byte>)
    ensures |s| == 2 && 0x100 * s[0] as int + s[1] as int == x && ReadBigEndian16(s) == x
  {
    [x / 256, x % 256]
  }

  function ReadBigEndian16(s: seq<byte>): u16
    requires |s| == 2
  {
    256 * s[0] as int + s[1] as int
  }

  function BigEndian32(x: u32): (s: seq<byte>)
    ensures |s| == 4 && ReadBigEndian32(s) == x
    ensures 0x100_0000 * s[0] as int + 0x1_0000 * s[1] as int + 0x100 * s[2] as int + s[3] as int == x
  {
    var s := BigEndian16(x / 0x1_0000) + BigEndian16(x % 0x1_0000);
    assert s[..2] == BigEndian16(x / 0x1_0000) && s[2..] == BigEndian16(x % 0x1_0000);
    s
  }

  function ReadBigEndian32(s: seq<byte>): u32
    requires |s| == 4
  {
    0x1_0000 * ReadBigEndian16(s[..2]) as int + ReadBigEndian16(s[2..]) as int
  }
}
