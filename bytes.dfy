/**
 * Fixed-width unsigned integers (Go's uint8, uint16 and uint32) and the
 * big-endian byte layout that `binary.BigEndian.AppendUint16` and
 * `AppendUint32` append to a buffer. The library's internals are not
 * modelled, only the bytes it is specified to produce; `Read16` and
 * `Read32` are their inverses, used by the decoders.
 */
module BigEndian {
  type u8 = x: int | 0 <= x < 0x100
  type u16 = x: int | 0 <= x < 0x1_0000
  type u32 = x: int | 0 <= x < 0x1_0000_0000
  type byte = u8

  /** The two bytes `AppendUint16` appends: most significant first. */
  function BE16(x: u16): (r: seq<byte>)
    ensures |r| == 2 && r[0] as int * 0x100 + r[1] == x
  {
    [x / 0x100, x % 0x100]
  }

  /** The four bytes `AppendUint32` appends: most significant first. */
  function BE32(x: u32): (r: seq<byte>)
    ensures |r| == 4
    ensures r[0] as int * 0x100_0000 + r[1] as int * 0x1_0000 + r[2] as int * 0x100 + r[3] == x
  {
    BE16(x / 0x1_0000) + BE16(x % 0x1_0000)
  }

  /** The big-endian 16-bit value at the front of `b`. */
  function Read16(b: seq<byte>): u16
    requires |b| >= 2
  {
    b[0] as int * 0x100 + b[1]
  }

  /** The big-endian 32-bit value at the front of `b`. */
  function Read32(b: seq<byte>): u32
    requires |b| >= 4
  {
    Read16(b) as int * 0x1_0000 + Read16(b[2..])
  }

  lemma Read16BE16(x: u16, rest: seq<byte>)
    ensures Read16(BE16(x) + rest) == x
  {
  }

  lemma Read32BE32(x: u32, rest: seq<byte>)
    ensures Read32(BE32(x) + rest) == x
  {
    var b := BE32(x) + rest;
    assert b[2..] == BE16(x % 0x1_0000) + rest;
    Read16BE16(x / 0x1_0000, BE16(x % 0x1_0000) + rest);
    Read16BE16(x % 0x1_0000, rest);
  }
}
