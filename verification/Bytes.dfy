/** Bytes, big-endian integers and the option type shared by the other modules. */
module Bytes {

  type Byte = b: int | 0 <= b < 0x100

  datatype Option<+T> = None | Some(value: T)

  function Min(a: int, b: int): int {
    if a <= b then a else b
  }

  /** Two-byte big-endian number, struct.pack(">H", n). */
  function PackShort(n: int): (s: seq<Byte>)
    requires 0 <= n < 0x1_0000
    ensures |s| == 2
  {
    [n / 0x100, n % 0x100]
  }

  function UnpackShort(s: seq<Byte>): (n: int)
    requires |s| == 2
    ensures 0 <= n < 0x1_0000
  {
    (s[0] as int) * 0x100 + s[1] as int
  }

  /** Four-byte big-endian number, struct.pack(">I", n). */
  function PackWord(n: int): (s: seq<Byte>)
    requires 0 <= n < 0x1_0000_0000
    ensures |s| == 4
  {
    PackShort(n / 0x1_0000) + PackShort(n % 0x1_0000)
  }

  function UnpackWord(s: seq<Byte>): (n: int)
    requires |s| == 4
    ensures 0 <= n < 0x1_0000_0000
  {
    UnpackShort(s[..2]) * 0x1_0000 + UnpackShort(s[2..])
  }

  lemma WordRoundTrip(n: int)
    requires 0 <= n < 0x1_0000_0000
    ensures UnpackWord(PackWord(n)) == n
  {
    assert PackWord(n)[..2] == PackShort(n / 0x1_0000);
    assert PackWord(n)[2..] == PackShort(n % 0x1_0000);
  }

  /** bytes.ljust(n, b"\x00") for a string that is not longer than n. */
  function PadTo(s: seq<Byte>, n: nat): seq<Byte>
    requires |s| <= n
  {
    s + seq(n - |s|, i => 0)
  }
}
