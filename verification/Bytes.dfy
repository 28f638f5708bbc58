/** Little-endian encoding of unsigned integers, as every format in the repository uses it. */
module Bytes {
  import opened Word32

  function Put16(n: u16): (r: seq<byte>)
    ensures |r| == 2
  {
    [n % 256, n / 256]
  }

  function Get16(b: seq<byte>): u16
    requires |b| == 2
  {
    var b0: int, b1: int := b[0], b[1];
    b0 + 256 * b1
  }

  function Put32(n: u32): (r: seq<byte>)
    ensures |r| == 4
  {
    [n % 256, n / 256 % 256, n / 65536 % 256, n / 16777216]
  }

  function Get32(b: seq<byte>): u32
    requires |b| == 4
  {
    var b0: int, b1: int, b2: int, b3: int := b[0], b[1], b[2], b[3];
    b0 + 256 * b1 + 65536 * b2 + 16777216 * b3
  }

  lemma RoundTrip16(n: u16)
    ensures Get16(Put16(n)) == n
  {
  }

  lemma RoundTrip32(n: u32)
    ensures Get32(Put32(n)) == n
  {
    assert n / 65536 == n / 256 / 256;
    assert n / 16777216 == n / 65536 / 256;
  }

  lemma Unique16(b: seq<byte>)
    requires |b| == 2
    ensures Put16(Get16(b)) == b
  {
  }

  lemma Unique32(b: seq<byte>)
    requires |b| == 4
    ensures Put32(Get32(b)) == b
  {
    var b0: int, b1: int, b2: int, b3: int := b[0], b[1], b[2], b[3];
    var n := Get32(b);
    assert n / 16777216 == b3;
    assert n / 65536 == b2 + 256 * b3;
    assert n / 256 == b1 + 256 * (b2 + 256 * b3);
  }
}
