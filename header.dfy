/**
 * The 12-byte DNS message header (section 4.1.1 of RFC 1035) and the
 * encoder `Header.flags()` of app/main.go, which, despite its name, returns
 * the whole header: id, the packed flags word, then the four counts.
 */
module DnsHeader {
  import opened BigEndian
  import opened Bits
  import opened Wrappers

  /** One field per member of the Go struct, with the Go field widths. */
  datatype Header = Header(
    id: u16,
    qr: bool,
    opcode: u8,
    aa: bool,
    tc: bool,   // truncation
    rd: bool,   // recursion desired
    ra: bool,   // recursion available
    z: u8,      // reserved, 3 bits wide on the wire
    rc: u8,     // response code, 4 bits wide on the wire
    qc: u16,    // question count
    anc: u16,   // answer record count
    nsc: u16,   // authority record count
    arc: u16    // additional record count
  )

  /**
   * The header fields fit the bit ranges the wire gives them. The Go types
   * are wider than the wire fields and nothing masks them, so this is what
   * a caller must ensure for the fields to be recoverable.
   */
  predicate FieldsInRange(h: Header)
  {
    h.opcode < 0x10 && h.z < 0x8 && h.rc < 0x10
  }

  /** A flag as the number 0 or 1. */
  function FlagBit(b: bool): (r: nat)
    ensures r < 2
  {
    if b then 1 else 0
  }

  /**
   * The flags word built from the eight field values as `Header.flags()`
   * builds it: from zero, each value shifted to its place, with the
   * truncation of Go's uint16 shifts, and OR-ed in. Nothing masks the
   * values, so an out-of-range opcode, z or rc spills into the bits of its
   * neighbours.
   */
  function Pack(qr: nat, opcode: nat, aa: nat, tc: nat, rd: nat, ra: nat, z: nat, rc: nat): u16
    requires rc < 0x1_0000
  {
    var w1 := Or16(0, Shl16(qr, 15));
    var w2 := Or16(w1, Shl16(opcode, 11));
    var w3 := Or16(w2, Shl16(aa, 10));
    var w4 := Or16(w3, Shl16(tc, 9));
    var w5 := Or16(w4, Shl16(rd, 8));
    var w6 := Or16(w5, Shl16(ra, 7));
    var w7 := Or16(w6, Shl16(z, 4));
    Or16(w7, rc)
  }

  /** The flags word of a header; a set flag contributes `uint16(1) << k`. */
  function FlagsWord(h: Header): u16
  {
    Pack(FlagBit(h.qr), h.opcode, FlagBit(h.aa), FlagBit(h.tc), FlagBit(h.rd), FlagBit(h.ra), h.z, h.rc)
  }

  /** The header as it appears on the wire: six big-endian 16-bit words. */
  function HeaderWire(h: Header): (r: seq<byte>)
    ensures |r| == 12
  {
    BE16(h.id) + BE16(FlagsWord(h)) + BE16(h.qc) + BE16(h.anc)
      + BE16(h.nsc) + BE16(h.arc)
  }

  /**
   * One `if on { flags |= 1 << k }` step of `Header.flags()`: the flag's
   * bit is OR-ed in when the flag is set, and the word is unchanged
   * otherwise.
   */
  method SetFlag(flags: u16, on: bool, k: nat) returns (r: u16)
    requires k < 16
    ensures r == Or16(flags, Shl16(FlagBit(on), k))
    ensures !on ==> r == flags
  {
    r := flags;
    if on {
      r := Or16(r, Shl16(1, k));
    }
  }

  /**
   * The flags word as `Header.flags()` builds it in its local `flags`:
   * from zero, by a sequence of OR steps, of which the single-bit ones are
   * conditional on their flag.
   */
  method PackFlags(h: Header) returns (flags: u16)
    ensures flags == FlagsWord(h)
  {
    flags := 0;
    flags := SetFlag(flags, h.qr, 15);
    flags := Or16(flags, Shl16(h.opcode, 11));
    flags := SetFlag(flags, h.aa, 10);
    flags := SetFlag(flags, h.tc, 9);
    flags := SetFlag(flags, h.rd, 8);
    flags := SetFlag(flags, h.ra, 7);
    flags := Or16(flags, Shl16(h.z, 4));
    flags := Or16(flags, h.rc);
  }

  /**
   * `Header.flags()`: start from an empty buffer, append the id, the flags
   * word and the four counts, each as a big-endian 16-bit word.
   */
  method Flags(h: Header) returns (out: seq<byte>)
    ensures out == HeaderWire(h)
  {
    out := [];
    out := out + BE16(h.id);
    var flags := PackFlags(h);
    out := out + BE16(flags);
    out := out + BE16(h.qc);
    out := out + BE16(h.anc);
    out := out + BE16(h.nsc);
    out := out + BE16(h.arc);
  }

  /**
   * The inverse of `HeaderWire`: reads six big-endian words and takes each
   * flag field out of its bit range. app/main.go has no decoder; this one is
   * the partner the round-trip lemma is stated against.
   */
  function DecodeHeader(b: seq<byte>): (r: Option<Header>)
    ensures r.Some? <==> |b| >= 12
  {
    if |b| < 12 then None
    else
      var w := Read16(b[2..]);
      Pow2Values();
      Some(Header(
        Read16(b),
        BitField(w, 15, 1) == 1,
        BitField(w, 11, 4),
        BitField(w, 10, 1) == 1,
        BitField(w, 9, 1) == 1,
        BitField(w, 8, 1) == 1,
        BitField(w, 7, 1) == 1,
        BitField(w, 4, 3),
        BitField(w, 0, 4),
        Read16(b[4..]),
        Read16(b[6..]),
        Read16(b[8..]),
        Read16(b[10..])))
  }

  /**
   * With the values in range the OR steps never overlap, and the flags word
   * is the sum of each value scaled to its bit position: qr at bit 15,
   * opcode at bits 14-11, aa at 10, tc at 9, rd at 8, ra at 7, z at bits
   * 6-4 and rc at bits 3-0.
   */
  lemma PackValue(qr: nat, opcode: nat, aa: nat, tc: nat, rd: nat, ra: nat, z: nat, rc: nat)
    requires qr < 2 && opcode < 0x10 && aa < 2 && tc < 2 && rd < 2 && ra < 2 && z < 8 && rc < 0x10
    ensures Pack(qr, opcode, aa, tc, rd, ra, z, rc)
      == qr * 0x8000 + opcode * 0x800 + aa * 0x400 + tc * 0x200 + rd * 0x100 + ra * 0x80 + z * 0x10 + rc
  {
    Pow2Values();
    Shl16Exact(qr, 15, 0x8000);
    Shl16Exact(opcode, 11, 0x800);
    Shl16Exact(aa, 10, 0x400);
    Shl16Exact(tc, 9, 0x200);
    Shl16Exact(rd, 8, 0x100);
    Shl16Exact(ra, 7, 0x80);
    Shl16Exact(z, 4, 0x10);
    var w1 := Or16(0, Shl16(qr, 15));
    var w2 := Or16(w1, Shl16(opcode, 11));
    var w3 := Or16(w2, Shl16(aa, 10));
    var w4 := Or16(w3, Shl16(tc, 9));
    var w5 := Or16(w4, Shl16(rd, 8));
    var w6 := Or16(w5, Shl16(ra, 7));
    var w7 := Or16(w6, Shl16(z, 4));
    var c := qr;
    OrDisjoint(w1, c, 0x8000, Shl16(opcode, 11), 15);
    c := 16 * c + opcode;
    OrDisjoint(w2, c, 0x800, Shl16(aa, 10), 11);
    c := 2 * c + aa;
    OrDisjoint(w3, c, 0x400, Shl16(tc, 9), 10);
    c := 2 * c + tc;
    OrDisjoint(w4, c, 0x200, Shl16(rd, 8), 9);
    c := 2 * c + rd;
    OrDisjoint(w5, c, 0x100, Shl16(ra, 7), 8);
    c := 2 * c + ra;
    OrDisjoint(w6, c, 0x80, Shl16(z, 4), 7);
    c := 8 * c + z;
    OrDisjoint(w7, c, 0x10, rc, 4);
  }

  /**
   * Each value can be read back from its bit range of a word laid out as
   * `PackValue` gives it.
   */
  lemma FieldsOfWord(w: nat, qr: nat, opcode: nat, aa: nat, tc: nat, rd: nat, ra: nat, z: nat, rc: nat)
    requires qr < 2 && opcode < 0x10 && aa < 2 && tc < 2 && rd < 2 && ra < 2 && z < 8 && rc < 0x10
    requires w == qr * 0x8000 + opcode * 0x800 + aa * 0x400 + tc * 0x200 + rd * 0x100 + ra * 0x80 + z * 0x10 + rc
    ensures BitField(w, 15, 1) == qr && BitField(w, 11, 4) == opcode
    ensures BitField(w, 10, 1) == aa && BitField(w, 9, 1) == tc
    ensures BitField(w, 8, 1) == rd && BitField(w, 7, 1) == ra
    ensures BitField(w, 4, 3) == z && BitField(w, 0, 4) == rc
  {
    Pow2Values();
    assert Pow2(0) == 1 && Pow2(1) == 2 && Pow2(3) == 8;
    FieldOf(w, 0, qr, w - qr * 0x8000, 15, 0x8000, 1, 2);
    FieldOf(w, qr, opcode, w - qr * 0x8000 - opcode * 0x800, 11, 0x800, 4, 0x10);
    var hi := 16 * qr + opcode;
    FieldOf(w, hi, aa, w - (hi * 2 + aa) * 0x400, 10, 0x400, 1, 2);
    hi := 2 * hi + aa;
    FieldOf(w, hi, tc, w - (hi * 2 + tc) * 0x200, 9, 0x200, 1, 2);
    hi := 2 * hi + tc;
    FieldOf(w, hi, rd, w - (hi * 2 + rd) * 0x100, 8, 0x100, 1, 2);
    hi := 2 * hi + rd;
    FieldOf(w, hi, ra, w - (hi * 2 + ra) * 0x80, 7, 0x80, 1, 2);
    hi := 2 * hi + ra;
    FieldOf(w, hi, z, rc, 4, 0x10, 3, 8);
    hi := 8 * hi + z;
    FieldOf(w, hi, rc, 0, 0, 1, 4, 0x10);
  }

  /** The six big-endian words of the encoded header, read back. */
  lemma HeaderWords(h: Header, rest: seq<byte>)
    ensures var b := HeaderWire(h) + rest;
      Read16(b) == h.id && Read16(b[2..]) == FlagsWord(h) && Read16(b[4..]) == h.qc
      && Read16(b[6..]) == h.anc && Read16(b[8..]) == h.nsc && Read16(b[10..]) == h.arc
  {
    var b := HeaderWire(h) + rest;
    var w := FlagsWord(h);
    Read16BE16(h.id, b[2..]);
    assert b[2..] == BE16(w) + b[4..];
    Read16BE16(w, b[4..]);
    assert b[4..] == BE16(h.qc) + b[6..];
    Read16BE16(h.qc, b[6..]);
    assert b[6..] == BE16(h.anc) + b[8..];
    Read16BE16(h.anc, b[8..]);
    assert b[8..] == BE16(h.nsc) + b[10..];
    Read16BE16(h.nsc, b[10..]);
    assert b[10..] == BE16(h.arc) + rest;
    Read16BE16(h.arc, rest);
  }

  /**
   * Any 12 or more bytes whose words are a header's id, flags and counts
   * decode to that header, when its fields are in range. The flags word is
   * given as the sum of the fields at their bit positions, which is what
   * `PackValue` shows the packed word to be.
   */
  lemma DecodeWords(b: seq<byte>, h: Header)
    requires FieldsInRange(h) && |b| >= 12
    requires Read16(b) == h.id && Read16(b[4..]) == h.qc
    requires Read16(b[2..]) == FlagBit(h.qr) * 0x8000 + h.opcode * 0x800 + FlagBit(h.aa) * 0x400 + FlagBit(h.tc) * 0x200
      + FlagBit(h.rd) * 0x100 + FlagBit(h.ra) * 0x80 + h.z * 0x10 + h.rc
    requires Read16(b[6..]) == h.anc && Read16(b[8..]) == h.nsc && Read16(b[10..]) == h.arc
    ensures DecodeHeader(b) == Some(h)
  {
    var w := Read16(b[2..]);
    var qr, aa, tc, rd, ra := FlagBit(h.qr), FlagBit(h.aa), FlagBit(h.tc), FlagBit(h.rd), FlagBit(h.ra);
    FieldsOfWord(w, qr, h.opcode, aa, tc, rd, ra, h.z, h.rc);
  }

  /**
   * The reader takes opcode, z and rc from their 4-, 3- and 4-bit fields, so
   * whatever it returns has its fields in range.
   */
  lemma DecodedFieldsInRange(b: seq<byte>)
    ensures DecodeHeader(b).Some? ==> FieldsInRange(DecodeHeader(b).value)
  {
    Pow2Values();
    assert Pow2(3) == 8;
  }

  /**
   * Decoding the encoded header (followed by anything) gives it back exactly
   * when its fields are in range: no header with an opcode, z or rc too wide
   * for its bits survives the trip.
   */
  lemma HeaderRoundTrip(h: Header, rest: seq<byte>)
    ensures DecodeHeader(HeaderWire(h) + rest) == Some(h) <==> FieldsInRange(h)
  {
    if FieldsInRange(h) {
      HeaderWords(h, rest);
      PackValue(FlagBit(h.qr), h.opcode, FlagBit(h.aa), FlagBit(h.tc), FlagBit(h.rd), FlagBit(h.ra), h.z, h.rc);
      DecodeWords(HeaderWire(h) + rest, h);
    } else {
      DecodedFieldsInRange(HeaderWire(h) + rest);
    }
  }

  /**
   * The unmasked shift: opcode 16 lands on bit 15, so a query header (qr
   * clear) with an opcode the 4-bit field cannot hold encodes exactly like
   * a response with opcode 0, and reads back as one.
   */
  lemma OpcodeOverflowSetsQr(h: Header)
    requires !h.qr && h.opcode == 0x10 && !h.aa && !h.tc && !h.rd && !h.ra && h.z == 0 && h.rc == 0
    ensures FlagsWord(h) == 0x8000
    ensures DecodeHeader(HeaderWire(h)) == Some(h.(qr := true, opcode := 0))
  {
    var h' := h.(qr := true, opcode := 0);
    assert Pack(0, 0x10, 0, 0, 0, 0, 0, 0) == 0x8000 by {
      Pow2Values();
      var w1 := Or16(0, Shl16(0, 15));
      assert w1 == 0;
      var w2 := Or16(w1, Shl16(0x10, 11));
      assert Shl16(0x10, 11) == 0x8000;
      assert w2 == 0x8000;
      var w3 := Or16(w2, Shl16(0, 10));
      var w4 := Or16(w3, Shl16(0, 9));
      var w5 := Or16(w4, Shl16(0, 8));
      var w6 := Or16(w5, Shl16(0, 7));
      var w7 := Or16(w6, Shl16(0, 4));
      assert w3 == 0x8000;
      assert w4 == 0x8000;
      assert w5 == 0x8000;
      assert w6 == 0x8000;
      assert w7 == 0x8000;
    }
    PackValue(1, 0, 0, 0, 0, 0, 0, 0);
    assert FlagsWord(h) == FlagsWord(h');
    assert HeaderWire(h) == HeaderWire(h') + [];
    HeaderRoundTrip(h', []);
  }
}
