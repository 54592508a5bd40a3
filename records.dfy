/**
 * The question and resource-record entries of app/main.go and their
 * encoders `Question.bytes()` and `ResourceRecord.bytes()`: the encoded
 * name, then the fixed-width fields as big-endian integers.
 */
module DnsRecords {
  import opened BigEndian
  import opened Wrappers
  import opened Seqs
  import opened DnsName

  /** A question: the name asked about, its type and its class. */
  datatype Question = Question(name: seq<byte>, ty: u16, cls: u16)

  /**
   * A resource record. `rdlen` is stored as given and written as given; the
   * data is always a 32-bit value, written as four bytes.
   */
  datatype ResourceRecord = ResourceRecord(
    name: seq<byte>,
    ty: u16,
    cls: u16,
    ttl: u32,
    rdlen: u16,
    data: u32
  )

  /** A question on the wire: name, type, class. */
  function QuestionWire(q: Question): seq<byte>
  {
    NameWire(q.name) + BE16(q.ty) + BE16(q.cls)
  }

  /** A record on the wire: name, type, class, ttl, rdlen, then the four data bytes. */
  function RecordWire(a: ResourceRecord): seq<byte>
  {
    NameWire(a.name) + BE16(a.ty) + BE16(a.cls) + BE32(a.ttl) + BE16(a.rdlen) + BE32(a.data)
  }

  /** `Question.bytes()`: the name's labels (see `EncodeName`), then type and class. */
  method QuestionBytes(q: Question) returns (out: seq<byte>)
    ensures out == QuestionWire(q)
  {
    out := EncodeName(q.name);
    out := out + BE16(q.ty);
    out := out + BE16(q.cls);
  }

  /** `ResourceRecord.bytes()`: the name's labels, then the five fixed fields. */
  method RecordBytes(a: ResourceRecord) returns (out: seq<byte>)
    ensures out == RecordWire(a)
  {
    out := EncodeName(a.name);
    out := out + BE16(a.ty);
    out := out + BE16(a.cls);
    out := out + BE32(a.ttl);
    out := out + BE16(a.rdlen);
    out := out + BE32(a.data);
  }

  /** A question takes its name's bytes plus six. */
  lemma QuestionWireLength(q: Question)
    ensures |QuestionWire(q)| == |q.name| + 6
  {
    NameWireLength(q.name);
  }

  /** A record takes its name's bytes plus sixteen, whatever its `rdlen` says. */
  lemma RecordWireLength(a: ResourceRecord)
    ensures |RecordWire(a)| == |a.name| + 16
  {
    NameWireLength(a.name);
  }

  /**
   * The record data is always the last four bytes, and `rdlen` only decides
   * the two bytes before them: two records that differ only in `rdlen` have
   * wire forms that differ only there.
   */
  lemma RecordDataFixed(a: ResourceRecord, n: u16)
    ensures var w, k := RecordWire(a), |a.name| + 10;
      |w| == k + 6 && w[k..k + 2] == BE16(a.rdlen) && w[k + 2..] == BE32(a.data)
      && RecordWire(a.(rdlen := n)) == w[..k] + BE16(n) + w[k + 2..]
  {
    RecordWireLength(a);
    NameWireLength(a.name);
    var w, k := RecordWire(a), |a.name| + 10;
    var pre := NameWire(a.name) + BE16(a.ty) + BE16(a.cls) + BE32(a.ttl);
    assert |pre| == k;
    assert w == pre + BE16(a.rdlen) + BE32(a.data);
    Assoc(pre, BE16(a.rdlen), BE32(a.data));
    assert w[..k] == pre;
    assert w[k..k + 2] == BE16(a.rdlen);
    assert w[k + 2..] == BE32(a.data);
  }

  /**
   * Reads a question from the front of `b`: the question and the bytes
   * consumed, or None when the name or the four fixed bytes are missing.
   */
  function DecodeQuestion(b: seq<byte>): (r: Option<(Question, nat)>)
    ensures r.Some? ==> r.value.1 <= |b|
  {
    match DecodeName(b)
    case None => None
    case Some((name, n)) => QuestionAfterName(name, n, b[n..])
  }

  /** The type and class that follow a name `n` bytes long, read from `t`. */
  function QuestionAfterName(name: seq<byte>, n: nat, t: seq<byte>): (r: Option<(Question, nat)>)
    ensures r.Some? ==> r.value.1 == n + 4 <= n + |t|
  {
    if |t| < 4 then None
    else Some((Question(name, Read16(t), Read16(t[2..])), n + 4))
  }

  /**
   * Reads a record from the front of `b` as a resolver reads one: the fixed
   * fields, then `rdlen` bytes of data. A record whose data is not four
   * bytes long cannot be held in a `ResourceRecord`, so it is rejected.
   */
  function DecodeRecord(b: seq<byte>): (r: Option<(ResourceRecord, nat)>)
    ensures r.Some? ==> r.value.1 <= |b|
  {
    match DecodeName(b)
    case None => None
    case Some((name, n)) => RecordAfterName(name, n, b[n..])
  }

  /** The fixed fields and the data that follow a name `n` bytes long, read from `t`. */
  function RecordAfterName(name: seq<byte>, n: nat, t: seq<byte>): (r: Option<(ResourceRecord, nat)>)
    ensures r.Some? ==> r.value.1 == n + 14 <= n + |t|
  {
    if |t| < 10 then None
    else
      var rdlen := Read16(t[8..]);
      if rdlen != 4 || |t| < 14 then None
      else
        Some((ResourceRecord(name, Read16(t), Read16(t[2..]), Read32(t[4..]), rdlen, Read32(t[10..])), n + 14))
  }

  /** The fields after a name read back from their wire form. */
  lemma QuestionFields(ty: u16, cls: u16, rest: seq<byte>)
    ensures var b := BE16(ty) + BE16(cls) + rest;
      |b| >= 4 && Read16(b) == ty && Read16(b[2..]) == cls
  {
    var b := BE16(ty) + BE16(cls) + rest;
    Read16BE16(ty, BE16(cls) + rest);
    assert b[2..] == BE16(cls) + rest;
    Read16BE16(cls, rest);
  }

  /** A question whose name's labels fit reads back, whatever follows it. */
  lemma QuestionRoundTrip(q: Question, rest: seq<byte>)
    requires LabelsFit(Split(q.name))
    ensures DecodeQuestion(QuestionWire(q) + rest) == Some((q, |QuestionWire(q)|))
  {
    var b := QuestionWire(q) + rest;
    var t := BE16(q.ty) + BE16(q.cls) + rest;
    var n := |q.name| + 2;
    assert b == NameWire(q.name) + t by {
      Assoc(NameWire(q.name) + BE16(q.ty), BE16(q.cls), rest);
      Assoc(NameWire(q.name), BE16(q.ty), BE16(q.cls) + rest);
    }
    NameRoundTrip(q.name, t);
    NameWireLength(q.name);
    assert b[n..] == t;
    QuestionFields(q.ty, q.cls, rest);
    QuestionWireLength(q);
  }

  /** The fixed fields after a record's name read back from their wire form. */
  lemma RecordFields(a: ResourceRecord, rest: seq<byte>)
    ensures var b := BE16(a.ty) + BE16(a.cls) + BE32(a.ttl) + BE16(a.rdlen) + BE32(a.data) + rest;
      |b| >= 14 && Read16(b) == a.ty && Read16(b[2..]) == a.cls && Read32(b[4..]) == a.ttl
      && Read16(b[8..]) == a.rdlen && Read32(b[10..]) == a.data
  {
    var b := BE16(a.ty) + BE16(a.cls) + BE32(a.ttl) + BE16(a.rdlen) + BE32(a.data) + rest;
    assert b[..2] == BE16(a.ty);
    assert b[2..4] == BE16(a.cls);
    assert b[4..8] == BE32(a.ttl);
    assert b[8..10] == BE16(a.rdlen);
    assert b[10..14] == BE32(a.data);
    Read16BE16(a.ty, b[2..]);
    assert b[2..] == BE16(a.cls) + b[4..];
    Read16BE16(a.cls, b[4..]);
    assert b[4..] == BE32(a.ttl) + b[8..];
    Read32BE32(a.ttl, b[8..]);
    assert b[8..] == BE16(a.rdlen) + b[10..];
    Read16BE16(a.rdlen, b[10..]);
    assert b[10..] == BE32(a.data) + rest;
    Read32BE32(a.data, rest);
  }

  /**
   * A record whose name's labels fit reads back, whatever follows it,
   * exactly when its `rdlen` is 4, the length of the data the encoder
   * writes; with any other `rdlen` a resolver rejects it.
   */
  lemma RecordRoundTrip(a: ResourceRecord, rest: seq<byte>)
    requires LabelsFit(Split(a.name))
    ensures DecodeRecord(RecordWire(a) + rest) == (if a.rdlen == 4 then Some((a, |RecordWire(a)|)) else None)
  {
    var b := RecordWire(a) + rest;
    var t := BE16(a.ty) + BE16(a.cls) + BE32(a.ttl) + BE16(a.rdlen) + BE32(a.data) + rest;
    var n := |a.name| + 2;
    assert b == NameWire(a.name) + t by {
      Assoc(NameWire(a.name) + BE16(a.ty) + BE16(a.cls) + BE32(a.ttl) + BE16(a.rdlen), BE32(a.data), rest);
      Assoc(NameWire(a.name) + BE16(a.ty) + BE16(a.cls) + BE32(a.ttl), BE16(a.rdlen), BE32(a.data) + rest);
      Assoc(NameWire(a.name) + BE16(a.ty) + BE16(a.cls), BE32(a.ttl), BE16(a.rdlen) + BE32(a.data) + rest);
      Assoc(NameWire(a.name) + BE16(a.ty), BE16(a.cls), BE32(a.ttl) + BE16(a.rdlen) + BE32(a.data) + rest);
      Assoc(NameWire(a.name), BE16(a.ty), BE16(a.cls) + BE32(a.ttl) + BE16(a.rdlen) + BE32(a.data) + rest);
    }
    NameRoundTrip(a.name, t);
    NameWireLength(a.name);
    RecordFields(a, rest);
    assert b[n..] == t;
    RecordWireLength(a);
  }
}
