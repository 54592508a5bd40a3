# DNS reply encoder, modelled in Dafny

The repository (`app/main.go`) is a toy DNS server. It reads UDP datagrams in a
loop and stops at the first read error. It ignores a datagram shorter than 8 bytes
and answers any other with the same reply. It builds a `Message` from a `Header` literal. It appends one
`Question` with `addQ` and one `ResourceRecord` with `addA`, then serialises the
message with `Message.bytes()`. That method writes the 12-byte header produced by
`Header.flags()`, then each question's and each answer's bytes. A name is written
by splitting it at the dots and emitting each label as a length byte and its
bytes, followed by a zero byte. The fixed-width integers follow, as big-endian
words.

The project models that encoder:

- `DnsHeader`: the header record. `Header.flags()` is the method `Flags`, and it
  builds the flags word in `PackFlags`, one OR step at a time, exactly as the Go
  code does. Go's `|` and truncating `uint16 <<` are written out on naturals in
  `Bits`.
- `DnsName`: `strings.Split` on `.`, and the label loop as `EncodeName`.
- `DnsRecords`: the two entry types. Their `bytes()` methods are `QuestionBytes`
  and `RecordBytes`.
- `DnsMessage`: the `Message` class, whose `AddQ` and `AddA` update its fields in
  place, and `Bytes`.
- `DnsResponse`: the reply `main` sends, worked out byte by byte.
- `Entries`: what every message section shares, namely back-to-back entries and
  reading a counted number of them.

Each imperative method is proved against a wire-format function:
`HeaderWire`, `NameWire`, `QuestionWire`, `RecordWire` and `MessageWire`.
The source has no decoder. Its partner here is a decoder written for the model:
`DecodeHeader`, `DecodeName`, `DecodeQuestion`, `DecodeRecord` and
`DecodeMessage`. Two round trips are exact, an if-and-only-if. A header reads back
exactly when its opcode, z and rc fit their bit fields (`HeaderRoundTrip`). A record
whose name fits reads back exactly when its rdlen is 4 (`RecordRoundTrip`). The name,
question and message round trips give sufficient conditions only: labels of 1 to
255 bytes, rdlen 4, header fields in range (opcode < 16, z < 8, rc < 16), no
authority or additional records, counts that match the entries, and fewer than
65536 entries of each kind. The edge-case lemmas show what happens outside those
conditions. `EmptyName` and `LongLabel` give names that the reader rejects.
`TrailingDot` gives a name that reads back without its trailing dot, one byte
early. `OpcodeOverflowSetsQr` gives a query that reads back as a response.
`QuestionCountWraps` shows what the encoder writes for a 65536th question: a
question count of 0.

## Model

| member | source | states |
|---|---|---|
| `BigEndian.BE16` | app/main.go:73-77 | the two bytes `AppendUint16` appends: the most significant byte first, and they weigh back to the value |
| `BigEndian.BE32` | app/main.go:130-134 | the four bytes `AppendUint32` appends (ttl and data): the most significant first, and they weigh back to the value |
| `Bits.Or` | app/main.go:54-72 | the OR-assignments of `flags`, as bitwise OR on naturals defined bit by bit; its partner is `OrBit` |
| `Bits.OrBit` | app/main.go:54-72 | bit i of `Or(a, b)` is set exactly when bit i of a or of b is, for every i |
| `Bits.Or16` | app/main.go:54-72 | the OR of two uint16 values stays below 2^16 |
| `Bits.Shl16` | app/main.go:56-71 | `uint16(x) << k` keeps the low 16 bits of x·2^k, so the result is below 2^16 |
| `DnsHeader.Pack` | app/main.go:54-72 | the flags word built from the eight values by the source's OR steps, with nothing masked; `PackValue` gives its value |
| `DnsHeader.FlagsWord` | app/main.go:54-72 | the flags word of a header: each set flag counts as 1, and the fields go to `Pack` unmasked |
| `DnsHeader.HeaderWire` | app/main.go:49-80 | the header is exactly 12 bytes |
| `DnsHeader.Flags` | app/main.go:49-80 | `flags()` returns the id, the flags word and the four counts, each as two big-endian bytes |
| `DnsHeader.PackFlags` | app/main.go:54-72 | the sequence of OR steps on the local `flags` yields the flags word of the header |
| `DnsHeader.SetFlag` | app/main.go:55-57 | one conditional OR step: bit k is OR-ed in when the flag is set, and the word is unchanged otherwise |
| `DnsHeader.PackValue` | app/main.go:54-72 | with every field inside its bit range, the OR of the shifted fields equals their weighted sum qr·2^15 + opcode·2^11 + … + rc, so no bits overlap |
| `DnsHeader.FieldsOfWord` | app/main.go:54-72 | each field's bit range of that sum holds exactly that field |
| `DnsHeader.HeaderWords` | app/main.go:52-77 | the six big-endian words read back from the header's bytes are the id, the flags word and the four counts, whatever follows them |
| `DnsHeader.DecodeWords` | app/main.go:54-72 | six words that read back as a header's id, flags and counts, the flags being the in-range fields at their bit positions, decode to that header |
| `DnsHeader.DecodeHeader` | app/main.go:49-80 | the inverse reader succeeds exactly when at least 12 bytes are present |
| `DnsHeader.DecodedFieldsInRange` | app/main.go:54-72 | every header the reader returns has opcode < 16, z < 8 and rc < 16 |
| `DnsHeader.HeaderRoundTrip` | app/main.go:49-80 | a header decodes back to itself from its bytes, whatever follows, if and only if its opcode < 16, z < 8 and rc < 16 |
| `DnsHeader.OpcodeOverflowSetsQr` | app/main.go:58 | opcode 16 in a query spills into bit 15: its flags word is 0x8000, and the bytes decode as a response with opcode 0 |
| `DnsName.Split` | app/main.go:107 | `strings.Split` yields at least one piece, and no piece contains a dot |
| `DnsName.JoinSplit` | app/main.go:107 | joining the pieces with dots gives the name back |
| `DnsName.SplitJoin` | app/main.go:107 | splitting a dot-join of dot-free pieces gives the pieces back |
| `DnsName.SplitSnoc` | app/main.go:107 | a byte other than a dot, appended to a string, extends the last piece of its split |
| `DnsName.SplitAppendStep` | app/main.go:107 | if appending `l` only extends the last piece, so does appending `l` and one more byte other than a dot |
| `DnsName.SplitAppendFree` | app/main.go:107 | appending dot-free bytes to a string extends its last piece only |
| `DnsName.LabelsWire` | app/main.go:108-111 | the labels' wire forms back to back; `LabelsWireLength` and `LabelsRoundTrip` are its properties |
| `DnsName.NameWire` | app/main.go:107-112 | a name on the wire is the wire form of its split, then the zero byte; `NameWireLength` and `NameRoundTrip` are its properties |
| `DnsName.LabelWire` | app/main.go:109-110 | a label is written as its length mod 256 followed by its bytes |
| `DnsName.LabelsWireSnoc` | app/main.go:108-111 | each loop iteration appends exactly that label's wire form |
| `DnsName.EncodeName` | app/main.go:107-112 | the label loop and the terminating zero produce the labels' wire forms, in order, followed by 0 |
| `DnsName.LabelsWireLength` | app/main.go:108-111 | the labels take one length byte each on top of their joined bytes |
| `DnsName.NameWireLength` | app/main.go:107-112 | every name takes exactly its length plus two bytes |
| `DnsName.DecodeLabels` | app/main.go:108-112 | the label reader never claims more bytes than it is given |
| `DnsName.DecodeName` | app/main.go:107-112 | the name reader joins what it reads with dots, rejects a name with no label and never claims more bytes than it is given |
| `DnsName.LabelWireParts` | app/main.go:109-110 | a label's length byte, its bytes and what follows it sit at offsets 0, 1 and one past the label |
| `DnsName.DecodeLabelStep` | app/main.go:109-110 | a label of 1 to 255 bytes reads back, and reading continues right after it |
| `DnsName.LabelsRoundTripStep` | app/main.go:108-111 | if the labels after the first read back, so do all of them, with the first label in front |
| `DnsName.LabelsRoundTrip` | app/main.go:108-112 | labels of 1 to 255 bytes read back, with the zero byte, whatever follows them |
| `DnsName.NameDecodes` | app/main.go:107-112 | such a name reads back as the join of its labels, consuming its labels and the zero byte |
| `DnsName.NameRoundTrip` | app/main.go:107-112 | a name whose labels are 1 to 255 bytes long reads back as itself, consuming its length plus two bytes |
| `DnsName.EmptyName` | app/main.go:107-112 | the empty name is written as two zero bytes, one empty label and then the terminator, and a reader rejects it, whatever follows |
| `DnsName.TrailingDot` | app/main.go:107-112 | a trailing dot adds an empty label, whose zero length byte ends the name early for a reader |
| `DnsName.LongLabel` | app/main.go:109 | `byte(len(lbl))` writes a 256-byte label's length as 0, the terminator value, so a reader rejects the name, whatever follows |
| `DnsRecords.QuestionWire` | app/main.go:104-118 | a question on the wire: its name, then type and class; `QuestionWireLength` and `QuestionRoundTrip` are its properties |
| `DnsRecords.RecordWire` | app/main.go:120-137 | a record on the wire: its name, then type, class, ttl, rdlen and the 4 data bytes; `RecordWireLength` and `RecordRoundTrip` are its properties |
| `DnsRecords.QuestionBytes` | app/main.go:104-118 | `Question.bytes()` is the encoded name, then type and class as big-endian words |
| `DnsRecords.RecordBytes` | app/main.go:120-137 | `ResourceRecord.bytes()` is the encoded name, then type, class, ttl, rdlen and data as big-endian words |
| `DnsRecords.QuestionWireLength` | app/main.go:104-118 | a question takes its name's length plus 6 bytes |
| `DnsRecords.RecordWireLength` | app/main.go:120-137 | a record takes its name's length plus 16 bytes, whatever its rdlen says |
| `DnsRecords.RecordDataFixed` | app/main.go:133-134 | the data is always the last 4 bytes, and rdlen changes only the two bytes before them |
| `DnsRecords.DecodeQuestion` | app/main.go:104-118 | the question reader never claims more bytes than it is given |
| `DnsRecords.QuestionAfterName` | app/main.go:114-115 | reading type and class after a name consumes exactly 4 more bytes |
| `DnsRecords.DecodeRecord` | app/main.go:120-137 | the record reader never claims more bytes than it is given |
| `DnsRecords.RecordAfterName` | app/main.go:130-134 | reading the fixed fields after a name consumes exactly 14 more bytes |
| `DnsRecords.QuestionFields` | app/main.go:114-115 | type and class read back from their bytes |
| `DnsRecords.QuestionRoundTrip` | app/main.go:104-118 | a question whose name fits reads back as itself, whatever follows |
| `DnsRecords.RecordFields` | app/main.go:130-134 | type, class, ttl, rdlen and data read back from their bytes |
| `DnsRecords.RecordRoundTrip` | app/main.go:120-137 | a record whose name fits reads back as itself exactly when rdlen is 4, the length of the data actually written; otherwise a reader rejects it |
| `Entries.Wires` | app/main.go:84-89 | a section on the wire: every entry's bytes, back to back in slice order, as the two `range` loops append them; `WiresSnoc` and `ManyRoundTrip` are its properties |
| `Entries.DecodeMany` | app/main.go:84-89 | reading n entries yields n entries and never claims more bytes than it is given |
| `Entries.WiresSnoc` | app/main.go:84-89 | appending an entry appends its bytes |
| `Entries.AppendEntry` | app/main.go:85 | one `append(out, x.bytes()...)` extends the section written so far by one entry |
| `Entries.DecodeManyStep` | app/main.go:84-89 | an entry read from the front, then n more, gives n + 1 entries |
| `Entries.ManyRoundTrip` | app/main.go:84-89 | a section of entries that each read back reads back, whatever follows it |
| `DnsMessage.MessageWire` | app/main.go:82-92 | a message on the wire: the header, then every question, then every answer, in order; `MessageRoundTrip` is its property |
| `DnsMessage.Message.constructor` | app/main.go:175-191 | the message literal holds the given header and no entries |
| `DnsMessage.Message.AddQ` | app/main.go:94-97 | `addQ` appends the question, increments the question count mod 2^16, and changes nothing else; counts that match the entries still match after it |
| `DnsMessage.Message.AddA` | app/main.go:99-102 | `addA` appends the record, increments the answer count mod 2^16, and changes nothing else; counts that match the entries still match after it |
| `DnsMessage.Message.Bytes` | app/main.go:82-92 | `bytes()` is the header, then every question, then every answer, in order |
| `DnsMessage.AddQKeepsCounts` | app/main.go:94-97 | `addQ` keeps the question count equal to the number of questions mod 2^16 |
| `DnsMessage.AddAKeepsCounts` | app/main.go:99-102 | `addA` keeps the answer count equal to the number of answers mod 2^16 |
| `DnsMessage.WrapStep` | app/main.go:96 | incrementing a uint16 counter that holds n mod 2^16 leaves n + 1 mod 2^16 |
| `DnsMessage.CountsExact` | app/main.go:94-102 | below 65536 entries, the counts equal the numbers of entries |
| `DnsMessage.QuestionCountWraps` | app/main.go:96 | the 65536th question wraps the question count to 0 |
| `DnsMessage.DecodeBody` | app/main.go:82-92 | the body reader returns the header it is given, exactly as many questions and answers as it counts, and nothing when it counts authority or additional records |
| `DnsMessage.DecodeMessage` | app/main.go:82-92 | a message that reads back has at least 12 bytes, no authority or additional records, and exactly as many entries as its header counts |
| `DnsMessage.QuestionsRoundTrip` | app/main.go:84-86 | the question section reads back as its questions when every name fits |
| `DnsMessage.AnswersRoundTrip` | app/main.go:87-89 | the answer section reads back as its records when every name fits and every rdlen is 4 |
| `DnsMessage.BodyRoundTrip` | app/main.go:84-89 | entries counted by the header read back and fill the body exactly |
| `DnsMessage.MessageRoundTrip` | app/main.go:82-102 | a message reads back from its bytes when its header's fields are in range, it counts no authority or additional records, and its counts equal its numbers of entries mod 2^16; there must be fewer than 65536 entries of each kind, and every name must fit with every rdlen 4. `addQ`/`addA` keep the counts matching from a header whose counts are zero |
| `DnsMessage.MessageStartsWithHeader` | app/main.go:82-83 | the message's first 12 bytes are the header |
| `DnsResponse.Reply` | app/main.go:175-196 | the reply `main` sends is exactly `04 D2 80 00 00 01 00 01 00 00 00 00`, then the question `0C "codecrafters" 02 "io" 00 00 01 00 01`, then the answer with the same name and `00 01 00 01 00 00 00 3C 00 04 08 08 08 08`: 64 bytes |
| `DnsResponse.SplitName` | app/main.go:193 | "codecrafters.io" splits into "codecrafters" and "io" |
| `DnsResponse.NameBytesOf` | app/main.go:193 | that name is written as `0C "codecrafters" 02 "io" 00` |
| `DnsResponse.HeaderBytesOf` | app/main.go:176-190 | the reply header, after one `addQ` and one `addA`, is `04 D2 80 00 00 01 00 01 00 00 00 00` |
| `DnsResponse.QuestionBytesOf` | app/main.go:193 | the reply's question bytes |
| `DnsResponse.AnswerBytesOf` | app/main.go:194 | the reply's answer bytes: TTL 60, rdlen 4, data 8.8.8.8 |
| `DnsResponse.ReplyWire` | app/main.go:175-196 | the message `main` builds has exactly the reply's bytes |
| `DnsResponse.ReplyDecodes` | app/main.go:175-196 | the reply reads back as the header, the question and the answer `main` built |

## Left out

- `main`'s UDP socket, its receive loop, the `size < 8` check and its printing are I/O. They are not modelled. `Reply` models only how the reply is built and what bytes it has.
- Go strings are modelled as byte sequences. `strings.Split` and `binary.BigEndian.AppendUint16`/`AppendUint32` are library calls. They are modelled by the results their documentation specifies, not by their code.
- Appending to a Go slice can share a backing array with another slice. Aliasing and capacity are not modelled; `append` is sequence concatenation.
- `Question.bytes()` and `ResourceRecord.bytes()` repeat the same label loop. It is modelled once, as `EncodeName`, which both call.
- The flags assembly at lines 54-72 is one straight-line block in Go. `SetFlag` is one of its `if … { flags |= 1 << k }` steps, factored out; `PackFlags` performs the steps in the source order.
- The decoders are not part of the source. They are the partners that the round-trip lemmas are stated against. `DecodeRecord` accepts only an `rdlen` of 4, the length of the data the encoder always writes, and then reads exactly 4 data bytes. It rejects every other `rdlen`, so a record whose `rdlen` is not 4 does not read back. `RecordRoundTrip` states that case.
- The message has no authority or additional records. `DecodeMessage` rejects a header that counts some, so `MessageRoundTrip` requires `nsc` and `arc` to be 0.
- DnsMessage.MessageRoundTrip: does not cover 65536 or more entries of one kind. The wrapped count then no longer says how many entries follow. `QuestionCountWraps` states the wrap itself.
