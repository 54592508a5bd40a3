/**
 * The reply that `main` in app/main.go sends to each datagram of 8 bytes or
 * more it receives before a read error: a header with id 1234 and the
 * response bit set, one question for codecrafters.io
 * (type A, class IN) and one answer for it with a TTL of 60 and the address
 * 8.8.8.8. Its bytes are worked out here in full.
 */
module DnsResponse {
  import opened BigEndian
  import opened Wrappers
  import opened Seqs
  import opened DnsHeader
  import opened DnsName
  import opened DnsRecords
  import opened Entries
  import opened DnsMessage

  /** The bytes of "codecrafters". */
  const Codecrafters: seq<byte> := [0x63, 0x6F, 0x64, 0x65, 0x63, 0x72, 0x61, 0x66, 0x74, 0x65, 0x72, 0x73]

  /** The bytes of "io". */
  const Io: seq<byte> := [0x69, 0x6F]

  /** The bytes of "codecrafters.io". */
  const CodecraftersIo: seq<byte> := Codecrafters + [Dot] + Io

  /** The header literal of `main`: id 1234, a response, every other field zero. */
  const ReplyHeader: Header := Header(1234, true, 0, false, false, false, false, 0, 0, 0, 0, 0, 0)

  /** The encoded name: a length byte and the label, for both labels, then the zero byte. */
  const NameBytes: seq<byte> := [12] + Codecrafters + [2] + Io + [0]

  /** The reply's header: id, flags, then the four counts, two bytes each. */
  const ReplyHeaderBytes: seq<byte> := [0x04, 0xD2] + [0x80, 0x00] + [0x00, 0x01] + [0x00, 0x01] + [0x00, 0x00] + [0x00, 0x00]

  /** The reply's question: the name, type A and class IN. */
  const ReplyQuestionBytes: seq<byte> := NameBytes + [0x00, 0x01] + [0x00, 0x01]

  /** The reply's answer: the name, type A, class IN, TTL 60, rdlen 4 and 8.8.8.8. */
  const ReplyAnswerBytes: seq<byte> :=
    NameBytes + [0x00, 0x01] + [0x00, 0x01] + [0x00, 0x00, 0x00, 0x3C] + [0x00, 0x04] + [0x08, 0x08, 0x08, 0x08]

  /** The 64 bytes of the reply. */
  const ReplyBytes: seq<byte> := ReplyHeaderBytes + ReplyQuestionBytes + ReplyAnswerBytes

  /**
   * `main`'s reply: the header literal, then `addQ` and `addA` with the
   * arguments `main` passes, then `bytes()`.
   */
  method Reply() returns (out: seq<byte>)
    ensures out == ReplyBytes && |out| == 64
  {
    var m := new Message(ReplyHeader);
    m.AddQ(CodecraftersIo, 1, 1);
    assert m.hdr == ReplyHeader.(qc := 1);
    m.AddA(CodecraftersIo, 1, 1, 60, 4, 0x0808_0808);
    assert m.hdr == ReplyHeader.(qc := 1, anc := 1);
    assert m.ques == [Question(CodecraftersIo, 1, 1)];
    assert m.ans == [ResourceRecord(CodecraftersIo, 1, 1, 60, 4, 0x0808_0808)];
    out := m.Bytes();
    ReplyWire(m.hdr, m.ques[0], m.ans[0]);
  }

  /** "codecrafters.io" splits into its two labels. */
  lemma SplitName()
    ensures Split(CodecraftersIo) == [Codecrafters, Io]
  {
    var ls := [Codecrafters, Io];
    assert Join(ls) == CodecraftersIo by {
      assert ls[..1] == [Codecrafters];
    }
    assert DotFree(ls);
    SplitJoin(ls);
  }

  /** The name is written as its two labels, each after its length, then a zero byte. */
  lemma NameBytesOf()
    ensures NameWire(CodecraftersIo) == NameBytes
  {
    SplitName();
    var ls := [Codecrafters, Io];
    assert ls[1..] == [Io] && [Io][1..] == [];
    assert LabelsWire([Io]) == LabelWire(Io) + LabelsWire([]);
    assert LabelsWire(ls) == LabelWire(Codecrafters) + LabelsWire([Io]);
  }

  /** The header: 1234, the response bit alone, one question, one answer. */
  lemma HeaderBytesOf(h: Header)
    requires h.id == 1234 && h.qr && h.opcode == 0 && !h.aa && !h.tc && !h.rd && !h.ra && h.z == 0 && h.rc == 0
    requires h.qc == 1 && h.anc == 1 && h.nsc == 0 && h.arc == 0
    ensures HeaderWire(h) == ReplyHeaderBytes
  {
    assert FlagsWord(h) == 0x8000 by {
      PackValue(FlagBit(h.qr), h.opcode, FlagBit(h.aa), FlagBit(h.tc), FlagBit(h.rd), FlagBit(h.ra), h.z, h.rc);
    }
    assert BE16(h.id) == [0x04, 0xD2];
    assert BE16(FlagsWord(h)) == [0x80, 0x00];
    assert BE16(h.qc) == [0x00, 0x01] && BE16(h.anc) == [0x00, 0x01];
    assert BE16(h.nsc) == [0x00, 0x00] && BE16(h.arc) == [0x00, 0x00];
  }

  /** The question: the name, then type and class 1. */
  lemma QuestionBytesOf(q: Question)
    requires q.name == CodecraftersIo && q.ty == 1 && q.cls == 1
    ensures QuestionWire(q) == ReplyQuestionBytes
  {
    NameBytesOf();
    assert BE16(q.ty) == [0x00, 0x01] && BE16(q.cls) == [0x00, 0x01];
  }

  /** The answer: the name, type and class 1, TTL 60, rdlen 4, then 8.8.8.8. */
  lemma AnswerBytesOf(a: ResourceRecord)
    requires a.name == CodecraftersIo && a.ty == 1 && a.cls == 1 && a.ttl == 60 && a.rdlen == 4 && a.data == 0x0808_0808
    ensures RecordWire(a) == ReplyAnswerBytes
  {
    NameBytesOf();
    assert BE16(a.ty) == [0x00, 0x01] && BE16(a.cls) == [0x00, 0x01];
    assert BE32(a.ttl) == [0x00, 0x00, 0x00, 0x3C] by {
      assert BE16(0) == [0x00, 0x00] && BE16(60) == [0x00, 0x3C];
    }
    assert BE16(a.rdlen) == [0x00, 0x04];
    assert BE32(a.data) == [0x08, 0x08, 0x08, 0x08] by {
      assert BE16(0x0808) == [0x08, 0x08];
    }
  }

  /** The reply's bytes, section by section. */
  lemma ReplyWire(h: Header, q: Question, a: ResourceRecord)
    requires h == ReplyHeader.(qc := 1, anc := 1)
    requires q == Question(CodecraftersIo, 1, 1)
    requires a == ResourceRecord(CodecraftersIo, 1, 1, 60, 4, 0x0808_0808)
    ensures MessageWire(h, [q], [a]) == ReplyBytes
  {
    HeaderBytesOf(h);
    QuestionBytesOf(q);
    AnswerBytesOf(a);
    assert Wires(QuestionWire, [q]) == QuestionWire(q) by {
      assert [q][1..] == [];
    }
    assert Wires(RecordWire, [a]) == RecordWire(a) by {
      assert [a][1..] == [];
    }
  }

  /** The reply reads back as the message `main` builds. */
  lemma ReplyDecodes()
    ensures DecodeMessage(ReplyBytes) == Some((ReplyHeader.(qc := 1, anc := 1),
      [Question(CodecraftersIo, 1, 1)], [ResourceRecord(CodecraftersIo, 1, 1, 60, 4, 0x0808_0808)]))
  {
    var q, a := Question(CodecraftersIo, 1, 1), ResourceRecord(CodecraftersIo, 1, 1, 60, 4, 0x0808_0808);
    var h := ReplyHeader.(qc := 1, anc := 1);
    SplitName();
    assert LabelsFit(Split(CodecraftersIo));
    assert Decodable([q], [a]);
    assert FieldsInRange(h) && CountsMatch(h, [q], [a]);
    ReplyWire(ReplyHeader.(qc := 1, anc := 1), q, a);
    MessageRoundTrip(h, [q], [a]);
  }
}
