/** The wire formats of RFC.md and payload.go written out as plain byte strings, and the encoders
    proved to produce them. */
module WireFormat {
  import opened Base
  import opened Wire
  import opened PayloadCodec
  import opened FrameCodec

  /** Integers are big-endian: the first byte is the most significant one, and the others are the
      integer that is left without it. */
  lemma MostSignificantFirst(n: nat, w: nat)
    requires w > 0 && n < Pow256(w)
    ensures var s := BigEndian(n, w); n == s[0] * Pow256(w - 1) + Value(s[1..]) && Value(s[1..]) < Pow256(w - 1)
  {
    var s := BigEndian(n, w);
    ValueOfBigEndian(n, w);
    ValueSplits(s);
    BigEndianOfValue(s[1..]);
  }

  lemma {:induction false} ValueSplits(s: Bytes)
    requires s != []
    ensures Value(s) == s[0] * Pow256(|s| - 1) + Value(s[1..])
  {
    if |s| == 1 {
      assert s[..0] == [] && s[1..] == [];
    } else {
      var init := s[..|s| - 1];
      ValueSplits(init);
      assert s[1..][..|s| - 2] == init[1..];
      Distribute(s[0], Pow256(|s| - 2), Value(init[1..]));
    }
  }

  lemma Distribute(a: nat, p: nat, v: nat)
    ensures (a * p + v) * 256 == a * (256 * p) + v * 256
  {
  }

  // ---------------------------------------------------------------- payloads

  /** A text behind its length. */
  function Prefixed(s: Bytes): Bytes {
    BigEndian(|s|, 4) + s
  }

  /** The first `n` parts, one after the other. */
  function PartList(parts: seq<TransferPart>, n: nat): Bytes
    requires n <= |parts|
  {
    if n == 0 then []
    else
      var p := parts[n - 1];
      PartList(parts, n - 1)
      + (Prefixed(p.field) + BigEndian(p.index, 4) + Prefixed(p.name) + BigEndian(p.totalSize, 8)
         + BigEndian(p.contentType, 4))
  }

  function FieldList(fields: seq<TransferField>, n: nat): Bytes
    requires n <= |fields|
  {
    if n == 0 then []
    else FieldList(fields, n - 1) + (Prefixed(fields[n - 1].key) + Prefixed(fields[n - 1].value))
  }

  /** No fields take no bytes at all. */
  function FieldBlock(fields: seq<TransferField>): Bytes {
    if fields == [] then [] else BigEndian(|fields|, 4) + FieldList(fields, |fields|)
  }

  /** One cell more of a record. */
  lemma WrittenNext(r: Record, layout: Layout, n: nat)
    requires Matches(r, layout) && n < |r|
    ensures Written(r, layout, n + 1) == Written(r, layout, n) + CellBytes(r[n], layout[n])
    ensures n == 0 ==> Written(r, layout, n + 1) == CellBytes(r[n], layout[n])
  {
  }

  lemma PartFormat(p: TransferPart)
    requires |p.field| < U32_SIZE && |p.name| < U32_SIZE
    ensures Matches(PartRecord(p), PART_LAYOUT)
    ensures RecordBytes(PartRecord(p), PART_LAYOUT)
         == Prefixed(p.field) + BigEndian(p.index, 4) + Prefixed(p.name) + BigEndian(p.totalSize, 8)
            + BigEndian(p.contentType, 4)
  {
    PartFits(p);
    hide BigEndian, Pow256, Written;
    var r := PartRecord(p);
    WrittenNext(r, PART_LAYOUT, 0);
    WrittenNext(r, PART_LAYOUT, 1);
    WrittenNext(r, PART_LAYOUT, 2);
    WrittenNext(r, PART_LAYOUT, 3);
    WrittenNext(r, PART_LAYOUT, 4);
  }

  lemma FieldFormat(f: TransferField)
    requires |f.key| < U32_SIZE && |f.value| < U32_SIZE
    ensures Matches(FieldRecord(f), FIELD_LAYOUT)
    ensures RecordBytes(FieldRecord(f), FIELD_LAYOUT) == Prefixed(f.key) + Prefixed(f.value)
  {
    FieldFits(f);
    hide BigEndian;
    assert Written(FieldRecord(f), FIELD_LAYOUT, 1) == Prefixed(f.key);
  }

  lemma {:induction false} PartsListed(parts: seq<TransferPart>, rs: seq<Record>, n: nat)
    requires SmallParts(parts) && rs == PartRecords(parts, |parts|) && AllMatch(rs, PART_LAYOUT) && n <= |parts|
    ensures Listed(rs, PART_LAYOUT, n) == PartList(parts, n)
  {
    hide Matches, RecordBytes, BigEndian, Prefixed;
    if n == 0 {
    } else {
      PartsListed(parts, rs, n - 1);
      PartFormat(parts[n - 1]);
    }
  }

  lemma {:induction false} FieldsListed(fields: seq<TransferField>, rs: seq<Record>, n: nat)
    requires SmallFields(fields) && rs == FieldRecords(fields, |fields|) && AllMatch(rs, FIELD_LAYOUT) && n <= |fields|
    ensures Listed(rs, FIELD_LAYOUT, n) == FieldList(fields, n)
  {
    hide Matches, RecordBytes, BigEndian, Prefixed;
    if n == 0 {
    } else {
      FieldsListed(fields, rs, n - 1);
      FieldFormat(fields[n - 1]);
    }
  }

  lemma FieldsFormat(fields: seq<TransferField>)
    requires SmallFields(fields)
    ensures FieldsBytes(fields) == FieldBlock(fields)
  {
    hide Matches, RecordBytes, BigEndian;
    if fields != [] {
      FieldsMatch(fields);
      CountFits(|fields|);
      FieldsListed(fields, FieldRecords(fields, |fields|), |fields|);
    }
  }

  lemma PartsFormat(parts: seq<TransferPart>)
    requires SmallParts(parts)
    ensures PartsBytes(parts) == BigEndian(|parts|, 4) + PartList(parts, |parts|)
  {
    hide Matches, RecordBytes, BigEndian;
    PartsMatch(parts);
    CountFits(|parts|);
    PartsListed(parts, PartRecords(parts, |parts|), |parts|);
  }

  /** The numbers and the checksum at the front of an announcement. */
  function FixedPart(v: TransferBegin): Bytes {
    BigEndian(v.totalSize, 8) + BigEndian(v.chunkSize, 4) + BigEndian(v.chunkCount, 4) + BigEndian(v.contentType, 4)
    + BigEndian(v.flags, 4) + v.checksum
  }

  lemma FixedFormat(v: TransferBegin)
    requires Matches(BeginRecord(v), BEGIN_LAYOUT)
    ensures Written(BeginRecord(v), BEGIN_LAYOUT, 6) == FixedPart(v)
  {
    hide BigEndian;
    var r := BeginRecord(v);
    assert Written(r, BEGIN_LAYOUT, 1) == BigEndian(v.totalSize, 8);
    assert Written(r, BEGIN_LAYOUT, 2) == BigEndian(v.totalSize, 8) + BigEndian(v.chunkSize, 4);
    assert Written(r, BEGIN_LAYOUT, 4) == BigEndian(v.totalSize, 8) + BigEndian(v.chunkSize, 4)
        + BigEndian(v.chunkCount, 4) + BigEndian(v.contentType, 4);
  }

  lemma HeadFormat(v: TransferBegin)
    requires Matches(BeginRecord(v), BEGIN_LAYOUT)
    ensures RecordBytes(BeginRecord(v), BEGIN_LAYOUT)
         == FixedPart(v) + Prefixed(v.name) + Prefixed(v.event) + Prefixed(v.field) + BigEndian(v.index, 4)
  {
    FixedFormat(v);
    hide BigEndian, FixedPart;
    var r := BeginRecord(v);
    assert Written(r, BEGIN_LAYOUT, 7) == FixedPart(v) + Prefixed(v.name);
    assert Written(r, BEGIN_LAYOUT, 8) == FixedPart(v) + Prefixed(v.name) + Prefixed(v.event);
    assert Written(r, BEGIN_LAYOUT, 9) == FixedPart(v) + Prefixed(v.name) + Prefixed(v.event) + Prefixed(v.field);
  }

  /** `TransferBegin` on the wire: the fields of section 14 of RFC.md in their order. */
  lemma BeginFormat(v: TransferBegin)
    requires BeginSize(v) <= MAX_PAYLOAD
    ensures EncodeBegin(v) == Some(
      FixedPart(v) + Prefixed(v.name) + Prefixed(v.event) + Prefixed(v.field) + BigEndian(v.index, 4)
      + (BigEndian(|v.parts|, 4) + PartList(v.parts, |v.parts|)) + FieldBlock(v.fields))
  {
    hide RecordBytes, Matches, PartsBytes, FieldsBytes, FieldBlock, PartList, FixedPart, BigEndian, Prefixed;
    SizeBoundsBegin(v);
    BeginFits(v);
    HeadFormat(v);
    PartsFormat(v.parts);
    FieldsFormat(v.fields);
  }

  /** An event message on the wire: name, data, fields. */
  lemma EventFormat(e: Event)
    requires SmallEvent(e)
    ensures EventBytes(e) == Prefixed(e.event) + Prefixed(e.data) + FieldBlock(e.fields)
  {
    hide RecordBytes, Matches, FieldsBytes, FieldBlock;
    FieldFormat(TransferField(e.event, e.data));
    FieldsFormat(e.fields);
  }

  // ---------------------------------------------------------------- frames

  /** The first half of a header: what the frame is and how its payload lies. */
  function HeaderFront(h: Header): Bytes {
    BigEndian(h.version, 1) + BigEndian(h.frameType, 1) + BigEndian(h.flags, 2) + BigEndian(h.priority, 1)
    + BigEndian(h.headerLength, 1) + BigEndian(h.channel, 2) + BigEndian(h.payloadOffset, 2)
    + BigEndian(h.headerFlags, 2)
  }

  /** The second half: the payload's length and schema, and what the frame belongs to. */
  function HeaderBack(h: Header): Bytes {
    BigEndian(h.payloadLength, 4) + BigEndian(h.schema, 4) + BigEndian(h.request, 8) + BigEndian(h.transfer, 8)
    + BigEndian(h.chunk, 4)
  }

  lemma FrontFormat(h: Header)
    requires Matches(HeaderRecord(h), HEADER_LAYOUT)
    ensures Written(HeaderRecord(h), HEADER_LAYOUT, 8) == HeaderFront(h)
  {
    hide BigEndian, Written, Matches;
    var r := HeaderRecord(h);
    WrittenNext(r, HEADER_LAYOUT, 0);
    WrittenNext(r, HEADER_LAYOUT, 1);
    WrittenNext(r, HEADER_LAYOUT, 2);
    WrittenNext(r, HEADER_LAYOUT, 3);
    WrittenNext(r, HEADER_LAYOUT, 4);
    WrittenNext(r, HEADER_LAYOUT, 5);
    WrittenNext(r, HEADER_LAYOUT, 6);
    WrittenNext(r, HEADER_LAYOUT, 7);
  }

  lemma HeaderFormat(h: Header)
    ensures HeaderBytes(h) == HeaderFront(h) + HeaderBack(h)
  {
    HeaderFits(h);
    FrontFormat(h);
    hide BigEndian, HeaderFront;
    var r, front := HeaderRecord(h), HeaderFront(h);
    assert Written(r, HEADER_LAYOUT, 9) == front + BigEndian(h.payloadLength, 4);
    assert Written(r, HEADER_LAYOUT, 10) == front + (BigEndian(h.payloadLength, 4) + BigEndian(h.schema, 4));
    assert Written(r, HEADER_LAYOUT, 11)
        == front + (BigEndian(h.payloadLength, 4) + BigEndian(h.schema, 4) + BigEndian(h.request, 8));
    assert Written(r, HEADER_LAYOUT, 12) == front + (BigEndian(h.payloadLength, 4) + BigEndian(h.schema, 4)
        + BigEndian(h.request, 8) + BigEndian(h.transfer, 8));
  }

  /** A header in front of `length` payload bytes that this version of the protocol knows: a known
      type, priority and channel, no flags but First, Last, AckRequest and Control, no header flags,
      and the fixed fields. */
  predicate Known(h: Header, length: nat) {
    && h.version == 1 && h.headerLength == 40 && h.payloadOffset == 40
    && h.frameType in {1, 2, 3, 4, 5, 6, 7, 8, 9, 10, 11, 12, 13, 14, 15, 16, 17, 18, 19, 20, 21, 22, 23}
    && h.priority in {0, 1, 2, 3, 4} && h.channel in {0, 1, 2, 3, 4} && h.headerFlags == 0
    && h.flags in {0, 1, 2, 3, 4, 5, 6, 7, 32, 33, 34, 35, 36, 37, 38, 39}
    && h.payloadLength == length
  }

  /** Bytes are a frame exactly if their header is known and says how many bytes follow. */
  lemma FrameAcceptedIff(h: Header, payload: Bytes)
    requires |payload| <= MAX_PAYLOAD
    ensures DecodeFrame(HeaderBytes(h) + payload) == if Known(h, |payload|) then Some(Frame(h, payload)) else None
  {
    hide HeaderBytes, DecodeHeader;
    HeaderOffsets(h);
    DecodeHeaderOfBytes(h, payload);
    FlagsKnown(h.flags);
    assert (HeaderBytes(h) + payload)[HEADER_SIZE..] == payload;
  }

  lemma FlagsKnown(flags: nat)
    ensures flags < 64 && (flags / 8) % 4 == 0
       <==> flags in {0, 1, 2, 3, 4, 5, 6, 7, 32, 33, 34, 35, 36, 37, 38, 39}
  {
  }

  /** An event frame on the wire: version 1, its type, the first and last flag, normal priority, a
      header of 40 bytes, the realtime channel, the event schema, its request, and the message. */
  lemma EventFrameFormat(frameType: byte, request: u64, e: Event)
    requires EventSize(e) <= MAX_PAYLOAD && 1 <= frameType <= 23
    ensures var h := Header(version := 1, frameType := frameType, flags := 1 + 2, priority := 2, headerLength := 40,
          channel := 1, payloadOffset := 40, headerFlags := 0, payloadLength := EventSize(e), schema := 300,
          request := request, transfer := 0, chunk := 0);
      && SmallEvent(e)
      && EncodeFrame(Frame(EventHeader(frameType, request), EventBytes(e)))
         == Some(HeaderFront(h) + HeaderBack(h) + (Prefixed(e.event) + Prefixed(e.data) + FieldBlock(e.fields)))
  {
    var h := Fixed(EventHeader(frameType, request), EventSize(e));
    EventFrame(frameType, request, e);
    hide EventBytes, HeaderBytes, EncodeFrame, HeaderFront, HeaderBack, FieldBlock, Prefixed;
    HeaderFormat(h);
    EventFormat(e);
  }
}
