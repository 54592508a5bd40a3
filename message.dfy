/**
 * The message of app/main.go: a header, the questions and the answers, the
 * operations `addQ` and `addA` that append an entry and count it in the
 * header, and `Message.bytes()`, which writes the header and then every
 * entry in order.
 */
module DnsMessage {
  import opened BigEndian
  import opened Wrappers
  import opened Seqs
  import opened DnsHeader
  import opened DnsName
  import opened DnsRecords
  import opened Entries

  /** A message on the wire: the header, the questions, then the answers. */
  function MessageWire(h: Header, qs: seq<Question>, ans: seq<ResourceRecord>): seq<byte>
  {
    HeaderWire(h) + Wires(QuestionWire, qs) + Wires(RecordWire, ans)
  }

  /**
   * The header's question and answer counts are the numbers of entries, as
   * the 16-bit counters that `addQ` and `addA` increment hold them.
   */
  predicate CountsMatch(h: Header, qs: seq<Question>, ans: seq<ResourceRecord>)
  {
    h.qc == |qs| % 0x1_0000 && h.anc == |ans| % 0x1_0000
  }

  /** The message entity. Its fields are updated in place by `AddQ` and `AddA`. */
  class Message {
    var hdr: Header
    var ques: seq<Question>
    var ans: seq<ResourceRecord>

    /** A message literal with a header and no entries, as built in `main`. */
    constructor (h: Header)
      ensures hdr == h && ques == [] && ans == []
    {
      hdr := h;
      ques := [];
      ans := [];
    }

    /** `addQ`: append a question and increment the 16-bit question count. */
    method AddQ(name: seq<byte>, ty: u16, cls: u16)
      modifies this
      ensures ques == old(ques) + [Question(name, ty, cls)]
      ensures ans == old(ans)
      ensures hdr == old(hdr).(qc := (old(hdr.qc) + 1) % 0x1_0000)
      ensures CountsMatch(old(hdr), old(ques), old(ans)) ==> CountsMatch(hdr, ques, ans)
    {
      WrapStep(|ques|);
      ques := ques + [Question(name, ty, cls)];
      hdr := hdr.(qc := (hdr.qc + 1) % 0x1_0000);
    }

    /** `addA`: append an answer record and increment the 16-bit answer count. */
    method AddA(name: seq<byte>, ty: u16, cls: u16, ttl: u32, rdlen: u16, data: u32)
      modifies this
      ensures ans == old(ans) + [ResourceRecord(name, ty, cls, ttl, rdlen, data)]
      ensures ques == old(ques)
      ensures hdr == old(hdr).(anc := (old(hdr.anc) + 1) % 0x1_0000)
      ensures CountsMatch(old(hdr), old(ques), old(ans)) ==> CountsMatch(hdr, ques, ans)
    {
      WrapStep(|ans|);
      ans := ans + [ResourceRecord(name, ty, cls, ttl, rdlen, data)];
      hdr := hdr.(anc := (hdr.anc + 1) % 0x1_0000);
    }

    /**
     * `Message.bytes()`: the header from `Flags`, then each question's and
     * each answer's bytes, in order.
     */
    method Bytes() returns (out: seq<byte>)
      ensures out == MessageWire(hdr, ques, ans)
    {
      out := Flags(hdr);
      for i := 0 to |ques|
        invariant out == HeaderWire(hdr) + Wires(QuestionWire, ques[..i])
      {
        var qb := QuestionBytes(ques[i]);
        AppendEntry(QuestionWire, HeaderWire(hdr), ques, i);
        out := out + qb;
      }
      assert ques[..|ques|] == ques;
      for i := 0 to |ans|
        invariant out == HeaderWire(hdr) + Wires(QuestionWire, ques) + Wires(RecordWire, ans[..i])
      {
        var ab := RecordBytes(ans[i]);
        AppendEntry(RecordWire, HeaderWire(hdr) + Wires(QuestionWire, ques), ans, i);
        out := out + ab;
      }
      assert ans[..|ans|] == ans;
    }
  }

  /** `addQ` keeps the counts in step with the entries, wrapping as the counter does. */
  lemma AddQKeepsCounts(h: Header, qs: seq<Question>, ans: seq<ResourceRecord>, q: Question)
    requires CountsMatch(h, qs, ans)
    ensures CountsMatch(h.(qc := (h.qc + 1) % 0x1_0000), qs + [q], ans)
  {
    WrapStep(|qs|);
  }

  /** `addA` keeps the counts in step with the entries, wrapping as the counter does. */
  lemma AddAKeepsCounts(h: Header, qs: seq<Question>, ans: seq<ResourceRecord>, a: ResourceRecord)
    requires CountsMatch(h, qs, ans)
    ensures CountsMatch(h.(anc := (h.anc + 1) % 0x1_0000), qs, ans + [a])
  {
    WrapStep(|ans|);
  }

  /** Incrementing a 16-bit counter that holds n leaves n + 1 in it. */
  lemma WrapStep(n: nat)
    ensures (n % 0x1_0000 + 1) % 0x1_0000 == (n + 1) % 0x1_0000
  {
    var q, r := n / 0x1_0000, n % 0x1_0000;
    assert n == q * 0x1_0000 + r;
    if r + 1 == 0x1_0000 {
      assert n + 1 == (q + 1) * 0x1_0000;
    } else {
      assert n + 1 == q * 0x1_0000 + (r + 1);
    }
  }

  /** Below 65536 entries the counts are exactly the numbers of entries. */
  lemma CountsExact(h: Header, qs: seq<Question>, ans: seq<ResourceRecord>)
    requires CountsMatch(h, qs, ans) && |qs| < 0x1_0000 && |ans| < 0x1_0000
    ensures h.qc == |qs| && h.anc == |ans|
  {
  }

  /** The 65536th question wraps the question count back to zero. */
  lemma QuestionCountWraps(h: Header, qs: seq<Question>, ans: seq<ResourceRecord>)
    requires CountsMatch(h, qs, ans) && |qs| == 0x1_0000
    ensures h.qc == 0
  {
  }

  /** Every name on the message fits the label rules and every answer's rdlen is 4. */
  predicate Decodable(qs: seq<Question>, ans: seq<ResourceRecord>)
  {
    (forall i | 0 <= i < |qs| :: LabelsFit(Split(qs[i].name)))
    && (forall i | 0 <= i < |ans| :: LabelsFit(Split(ans[i].name)) && ans[i].rdlen == 4)
  }

  /**
   * Reads a whole message: the header, then the entries it counts, which
   * must fill the rest of `b`.
   */
  function DecodeMessage(b: seq<byte>): (r: Option<(Header, seq<Question>, seq<ResourceRecord>)>)
    ensures r.Some? ==> |b| >= 12 && r.value.0.nsc == 0 && r.value.0.arc == 0
    ensures r.Some? ==> |r.value.1| == r.value.0.qc && |r.value.2| == r.value.0.anc
  {
    match DecodeHeader(b)
    case None => None
    case Some(h) => DecodeBody(h, b[12..])
  }

  /**
   * Reads the questions and answers a header counts from `body`, and nothing
   * after them. The message holds no authority or additional records, so a
   * header that counts some is rejected.
   */
  function DecodeBody(h: Header, body: seq<byte>): (r: Option<(Header, seq<Question>, seq<ResourceRecord>)>)
    ensures r.Some? ==> r.value.0 == h && h.nsc == 0 && h.arc == 0
    ensures r.Some? ==> |r.value.1| == h.qc && |r.value.2| == h.anc
  {
    if h.nsc != 0 || h.arc != 0 then None
    else
      match DecodeMany(DecodeQuestion, body, h.qc)
      case None => None
      case Some((qs, k)) =>
        match DecodeMany(DecodeRecord, body[k..], h.anc)
        case None => None
        case Some((ans, m)) => if k + m == |body| then Some((h, qs, ans)) else None
  }

  /** Questions whose names fit read back, whatever follows them. */
  lemma QuestionsRoundTrip(qs: seq<Question>, rest: seq<byte>)
    requires forall i | 0 <= i < |qs| :: LabelsFit(Split(qs[i].name))
    ensures DecodeMany(DecodeQuestion, Wires(QuestionWire, qs) + rest, |qs|) == Some((qs, |Wires(QuestionWire, qs)|))
  {
    forall i, t | 0 <= i < |qs|
      ensures DecodeQuestion(QuestionWire(qs[i]) + t) == Some((qs[i], |QuestionWire(qs[i])|))
    {
      QuestionRoundTrip(qs[i], t);
    }
    ManyRoundTrip(DecodeQuestion, QuestionWire, qs, rest);
  }

  /** Answer records whose names fit and whose rdlen is 4 read back, whatever follows them. */
  lemma AnswersRoundTrip(ans: seq<ResourceRecord>, rest: seq<byte>)
    requires forall i | 0 <= i < |ans| :: LabelsFit(Split(ans[i].name)) && ans[i].rdlen == 4
    ensures DecodeMany(DecodeRecord, Wires(RecordWire, ans) + rest, |ans|) == Some((ans, |Wires(RecordWire, ans)|))
  {
    forall i, t | 0 <= i < |ans|
      ensures DecodeRecord(RecordWire(ans[i]) + t) == Some((ans[i], |RecordWire(ans[i])|))
    {
      RecordRoundTrip(ans[i], t);
    }
    ManyRoundTrip(DecodeRecord, RecordWire, ans, rest);
  }

  /** The entries of a message body read back when the header counts them. */
  lemma BodyRoundTrip(h: Header, qs: seq<Question>, ans: seq<ResourceRecord>)
    requires h.nsc == 0 && h.arc == 0 && h.qc == |qs| && h.anc == |ans|
    requires Decodable(qs, ans)
    ensures DecodeBody(h, Wires(QuestionWire, qs) + Wires(RecordWire, ans)) == Some((h, qs, ans))
  {
    var qw, aw := Wires(QuestionWire, qs), Wires(RecordWire, ans);
    assert DecodeMany(DecodeQuestion, qw + aw, |qs|) == Some((qs, |qw|)) by {
      QuestionsRoundTrip(qs, aw);
    }
    assert DecodeMany(DecodeRecord, aw, |ans|) == Some((ans, |aw|)) by {
      assert aw == aw + [];
      AnswersRoundTrip(ans, []);
    }
    assert (qw + aw)[|qw|..] == aw;
  }

  /**
   * A message whose counts match its entries reads back from its wire form,
   * when the header's fields are in range, it counts no authority or
   * additional records, there are fewer than 65536 entries of each kind and
   * every entry is decodable.
   */
  lemma MessageRoundTrip(h: Header, qs: seq<Question>, ans: seq<ResourceRecord>)
    requires FieldsInRange(h) && h.nsc == 0 && h.arc == 0
    requires CountsMatch(h, qs, ans) && |qs| < 0x1_0000 && |ans| < 0x1_0000
    requires Decodable(qs, ans)
    ensures DecodeMessage(MessageWire(h, qs, ans)) == Some((h, qs, ans))
  {
    CountsExact(h, qs, ans);
    var b := MessageWire(h, qs, ans);
    var body := Wires(QuestionWire, qs) + Wires(RecordWire, ans);
    assert b == HeaderWire(h) + body && b[12..] == body by {
      Assoc(HeaderWire(h), Wires(QuestionWire, qs), Wires(RecordWire, ans));
    }
    assert DecodeHeader(b) == Some(h) by {
      HeaderRoundTrip(h, body);
    }
    assert DecodeBody(h, body) == Some((h, qs, ans)) by {
      BodyRoundTrip(h, qs, ans);
    }
  }

  /** The encoded message starts with the encoded header. */
  lemma MessageStartsWithHeader(h: Header, qs: seq<Question>, ans: seq<ResourceRecord>)
    ensures |MessageWire(h, qs, ans)| >= 12 && MessageWire(h, qs, ans)[..12] == HeaderWire(h)
  {
    Assoc(HeaderWire(h), Wires(QuestionWire, qs), Wires(RecordWire, ans));
  }
}
