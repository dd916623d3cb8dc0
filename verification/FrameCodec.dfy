/** Frames (frame.go): a fixed 40-byte header and a payload that fills the rest, and event
    messages, which have a fast path that builds payload and header in one buffer (session.go). */
module FrameCodec {
  import opened Base
  import opened Wire
  import opened Buffers
  import opened PayloadCodec
  import opened PayloadBuffers

  const MAX_FRAME: nat := 8388608
  const HEADER_SIZE: nat := 40
  const WIRE_VERSION: byte := 1

  datatype Header = Header(
    version: byte, frameType: byte, flags: u16, priority: byte, headerLength: byte, channel: u16,
    payloadOffset: u16, headerFlags: u16, payloadLength: u32, schema: u32, request: u64, transfer: u64, chunk: u32)

  datatype Frame = Frame(header: Header, payload: Bytes)

  const HEADER_LAYOUT: Layout := [U(1), U(1), U(2), U(1), U(1), U(2), U(2), U(2), U(4), U(4), U(8), U(8), U(4)]

  function HeaderRecord(h: Header): Record {
    [Num(h.version), Num(h.frameType), Num(h.flags), Num(h.priority), Num(h.headerLength), Num(h.channel),
     Num(h.payloadOffset), Num(h.headerFlags), Num(h.payloadLength), Num(h.schema), Num(h.request), Num(h.transfer),
     Num(h.chunk)]
  }

  function HeaderOf(r: Record): Header
    requires Matches(r, HEADER_LAYOUT)
  {
    Widths();
    Header(r[0].n, r[1].n, r[2].n, r[3].n, r[4].n, r[5].n, r[6].n, r[7].n, r[8].n, r[9].n, r[10].n, r[11].n, r[12].n)
  }

  lemma HeaderFits(h: Header)
    ensures Matches(HeaderRecord(h), HEADER_LAYOUT) && HeaderOf(HeaderRecord(h)) == h
  {
    Widths();
  }

  lemma RecordOfHeader(r: Record)
    requires Matches(r, HEADER_LAYOUT)
    ensures HeaderRecord(HeaderOf(r)) == r
  {
    assert Fits(r[0], HEADER_LAYOUT[0]) && Fits(r[1], HEADER_LAYOUT[1]) && Fits(r[2], HEADER_LAYOUT[2])
        && Fits(r[3], HEADER_LAYOUT[3]) && Fits(r[4], HEADER_LAYOUT[4]) && Fits(r[5], HEADER_LAYOUT[5])
        && Fits(r[6], HEADER_LAYOUT[6]) && Fits(r[7], HEADER_LAYOUT[7]) && Fits(r[8], HEADER_LAYOUT[8])
        && Fits(r[9], HEADER_LAYOUT[9]) && Fits(r[10], HEADER_LAYOUT[10]) && Fits(r[11], HEADER_LAYOUT[11])
        && Fits(r[12], HEADER_LAYOUT[12]);
  }

  function HeaderBytes(h: Header): Bytes {
    HeaderFits(h);
    RecordBytes(HeaderRecord(h), HEADER_LAYOUT)
  }

  /** The position of every header field, as the wire format fixes it. */
  lemma HeaderOffsets(h: Header)
    ensures |HeaderBytes(h)| == HEADER_SIZE
    ensures var b := HeaderBytes(h);
      && At(b, 0, BigEndian(h.version, 1)) && At(b, 1, BigEndian(h.frameType, 1)) && At(b, 2, BigEndian(h.flags, 2))
      && At(b, 4, BigEndian(h.priority, 1)) && At(b, 5, BigEndian(h.headerLength, 1))
      && At(b, 6, BigEndian(h.channel, 2)) && At(b, 8, BigEndian(h.payloadOffset, 2))
      && At(b, 10, BigEndian(h.headerFlags, 2)) && At(b, 12, BigEndian(h.payloadLength, 4))
      && At(b, 16, BigEndian(h.schema, 4)) && At(b, 20, BigEndian(h.request, 8))
      && At(b, 28, BigEndian(h.transfer, 8)) && At(b, 36, BigEndian(h.chunk, 4))
  {
    hide BigEndian, At;
    HeaderFits(h);
    var r := HeaderRecord(h);
    var b := HeaderBytes(h);
    AtWhole(b);
    var n := 13;
    while n > 0
      invariant 0 <= n <= 13
      invariant |b| == |Written(r, HEADER_LAYOUT, 13)|
      invariant At(b, 0, Written(r, HEADER_LAYOUT, n))
      invariant forall i :: n <= i < 13 ==> At(b, |Written(r, HEADER_LAYOUT, i)|, CellBytes(r[i], HEADER_LAYOUT[i]))
    {
      n := n - 1;
      AtConcat(b, 0, Written(r, HEADER_LAYOUT, n), CellBytes(r[n], HEADER_LAYOUT[n]));
    }
    HeaderWidths(h);
  }

  lemma HeaderWidths(h: Header)
    requires Matches(HeaderRecord(h), HEADER_LAYOUT)
    ensures var r := HeaderRecord(h);
      && |Written(r, HEADER_LAYOUT, 1)| == 1 && |Written(r, HEADER_LAYOUT, 2)| == 2
      && |Written(r, HEADER_LAYOUT, 3)| == 4 && |Written(r, HEADER_LAYOUT, 4)| == 5
      && |Written(r, HEADER_LAYOUT, 5)| == 6 && |Written(r, HEADER_LAYOUT, 6)| == 8
      && |Written(r, HEADER_LAYOUT, 7)| == 10 && |Written(r, HEADER_LAYOUT, 8)| == 12
      && |Written(r, HEADER_LAYOUT, 9)| == 16 && |Written(r, HEADER_LAYOUT, 10)| == 20
      && |Written(r, HEADER_LAYOUT, 11)| == 28 && |Written(r, HEADER_LAYOUT, 12)| == 36
      && |Written(r, HEADER_LAYOUT, 13)| == 40
  {
    hide BigEndian;
  }

  // ---------------------------------------------------------------- frames

  /** `validateHeaderValues`. Of the flags only bits 0, 1, 2 and 5 may be set: bits 3 and 4 are
      known but not implemented. */
  predicate ValidValues(h: Header) {
    && 1 <= h.frameType <= 23
    && h.priority <= 4
    && h.channel <= 4
    && h.headerFlags == 0
    && h.flags < 64 && (h.flags / 8) % 4 == 0
  }

  /** The fields that encoding overwrites. */
  function Fixed(h: Header, length: u32): Header {
    h.(version := WIRE_VERSION, headerLength := 40, payloadOffset := 40, payloadLength := length)
  }

  function EncodeFrame(f: Frame): Option<Bytes> {
    if |f.payload| > MAX_PAYLOAD then None
    else if !ValidValues(Fixed(f.header, |f.payload|)) then None
    else Some(HeaderBytes(Fixed(f.header, |f.payload|)) + f.payload)
  }

  function DecodeHeader(p: Bytes): Option<Header> {
    if |p| < HEADER_SIZE then None
    else match ReadRecord(p, 0, HEADER_LAYOUT)
      case None => None
      case Some(c) =>
        WrittenRecordRead(p, 0, HEADER_LAYOUT);
        var h := HeaderOf(c.record);
        if h.version != WIRE_VERSION || h.headerLength != 40 || h.payloadOffset != 40 then None
        else if !ValidValues(h) then None
        else Some(h)
  }

  function DecodeFrame(p: Bytes): Option<Frame> {
    if |p| > MAX_FRAME then None
    else match DecodeHeader(p)
      case None => None
      case Some(h) =>
        if h.payloadLength > |p| - HEADER_SIZE || HEADER_SIZE + h.payloadLength != |p| then None
        else Some(Frame(h, p[HEADER_SIZE..]))
  }

  lemma DecodeHeaderOfBytes(h: Header, rest: Bytes)
    ensures DecodeHeader(HeaderBytes(h) + rest) ==
      if h == Fixed(h, h.payloadLength) && ValidValues(h) then Some(h) else None
  {
    hide ReadRecord, Matches, RecordBytes, HeaderOf, HeaderRecord, At;
    HeaderFits(h);
    HeaderOffsets(h);
    var p := HeaderBytes(h) + rest;
    AtWhole(p);
    AtConcat(p, 0, HeaderBytes(h), rest);
    ReadWrittenRecord(p, 0, HeaderRecord(h), HEADER_LAYOUT);
  }

  /** Decoding an encoded frame gives the frame back, with the four fixed fields filled in. */
  lemma FrameRoundTrip(f: Frame)
    requires EncodeFrame(f).Some?
    ensures DecodeFrame(EncodeFrame(f).value) == Some(Frame(Fixed(f.header, |f.payload|), f.payload))
  {
    hide HeaderBytes, DecodeHeader;
    var h := Fixed(f.header, |f.payload|);
    HeaderOffsets(h);
    DecodeHeaderOfBytes(h, f.payload);
  }

  /** Every accepted byte string is the encoding of what it decodes to. */
  lemma FrameCanonical(p: Bytes)
    requires DecodeFrame(p).Some?
    ensures EncodeFrame(DecodeFrame(p).value) == Some(p)
  {
    hide ReadRecord, Matches, RecordBytes, HeaderOf, HeaderRecord;
    WrittenRecordRead(p, 0, HEADER_LAYOUT);
    var c := ReadRecord(p, 0, HEADER_LAYOUT).value;
    RecordOfHeader(c.record);
    var h := HeaderOf(c.record);
    HeaderOffsets(h);
    assert p == p[..HEADER_SIZE] + p[HEADER_SIZE..];
  }

  /** `encodeFrameHeaderInto`. */
  method EncodeFrameHeaderInto(arr: array<byte>, at: nat, h: Header, length: u32)
    requires at + HEADER_SIZE <= arr.Length
    modifies arr
    ensures at + |HeaderBytes(Fixed(h, length))| <= arr.Length
    ensures arr[..] == Patch(old(arr[..]), at, HeaderBytes(Fixed(h, length)))
  {
    hide Patch, RecordBytes, HeaderRecord, Matches, At;
    HeaderFits(Fixed(h, length));
    HeaderOffsets(Fixed(h, length));
    PutRecord(arr, at, HeaderRecord(Fixed(h, length)), HEADER_LAYOUT);
  }

  /** Whatever the reused buffer held, the result is the encoding. */
  method EncodeFrameInto(dst: Slice, f: Frame) returns (out: Option<Slice>)
    requires Valid(dst)
    modifies dst.arr
    ensures out.Some? <==> EncodeFrame(f).Some?
    ensures out.Some? ==> Valid(out.value) && Content(out.value) == EncodeFrame(f).value
    ensures out.Some? ==> out.value.arr == dst.arr || fresh(out.value.arr)
  {
    hide Patch, HeaderBytes, At;
    if |f.payload| > MAX_PAYLOAD || !ValidValues(Fixed(f.header, |f.payload|)) {
      return None;
    }
    var h := Fixed(f.header, |f.payload|);
    HeaderOffsets(h);
    var o := Resize(dst, HEADER_SIZE + |f.payload|);
    ghost var was := o.arr[..];
    PatchAfter(was, o.off, HeaderBytes(h), f.payload);
    EncodeFrameHeaderInto(o.arr, o.off, h, |f.payload|);
    Copy(o.arr, o.off + HEADER_SIZE, f.payload);
    PatchRead(was, o.off, HeaderBytes(h) + f.payload);
    return Some(o);
  }

  // ---------------------------------------------------------------- event messages

  datatype Event = Event(event: Bytes, data: Bytes, fields: seq<TransferField>)

  function EventSize(e: Event): nat {
    8 + |e.event| + |e.data| + FieldsBlock(e.fields)
  }

  predicate SmallEvent(e: Event) {
    |e.event| < U32_SIZE && |e.data| < U32_SIZE && SmallFields(e.fields)
  }

  lemma SizeBoundsEvent(e: Event)
    requires EventSize(e) <= MAX_PAYLOAD
    ensures SmallEvent(e)
  {
    FieldsSizeBounds(e.fields, |e.fields|);
  }

  /** Name and data are laid out like the key and value of one field. */
  function EventBytes(e: Event): Bytes
    requires SmallEvent(e)
  {
    var head := TransferField(e.event, e.data);
    FieldFits(head);
    RecordBytes(FieldRecord(head), FIELD_LAYOUT) + FieldsBytes(e.fields)
  }

  lemma EventLength(e: Event)
    requires SmallEvent(e)
    ensures |EventBytes(e)| == EventSize(e)
  {
    hide RecordBytes, FieldsBytes, Matches;
    FieldFits(TransferField(e.event, e.data));
    FieldsLength(e.fields);
  }

  function DecodeEvent(p: Bytes): Option<Event> {
    if |p| < 8 then None
    else match ReadRecord(p, 0, FIELD_LAYOUT)
      case None => None
      case Some(c) =>
        WrittenRecordRead(p, 0, FIELD_LAYOUT);
        match DecodeFields(p[c.next..])
        case None => None
        case Some(fields) =>
          var head := FieldOf(c.record);
          Some(Event(head.key, head.value, fields))
  }

  lemma EventRoundTrip(e: Event)
    requires EventSize(e) <= MAX_PAYLOAD
    ensures SmallEvent(e)
    ensures DecodeEvent(EventBytes(e)) == if |e.fields| <= MAX_FIELDS then Some(e) else None
  {
    hide RecordBytes, FieldsBytes, Matches, ReadRecord, DecodeFields, At, FieldOf, FieldRecord;
    SizeBoundsEvent(e);
    var head := TransferField(e.event, e.data);
    FieldFits(head);
    FieldRoundTrip(head);
    EventLength(e);
    var front := RecordBytes(FieldRecord(head), FIELD_LAYOUT);
    var p := EventBytes(e);
    AtWhole(p);
    AtConcat(p, 0, front, FieldsBytes(e.fields));
    ReadWrittenRecord(p, 0, FieldRecord(head), FIELD_LAYOUT);
    assert p[|front|..] == FieldsBytes(e.fields);
    FieldsRoundTrip(e.fields);
  }

  /** `encodeEventMessageStringWithFieldsSizedInto`: in place if the capacity allows it. */
  method EncodeEventInto(dst: Slice, e: Event) returns (out: Slice)
    requires Valid(dst) && EventSize(e) <= MAX_PAYLOAD
    modifies dst.arr
    ensures SmallEvent(e) && Valid(out) && Content(out) == EventBytes(e)
    ensures Capacity(dst) >= EventSize(e) ==>
      && out == Slice(dst.arr, dst.off, EventSize(e))
      && dst.off + |EventBytes(e)| <= dst.arr.Length
      && dst.arr[..] == Patch(old(dst.arr[..]), dst.off, EventBytes(e))
    ensures Capacity(dst) < EventSize(e) ==> fresh(out.arr)
  {
    hide Matches, RecordBytes, Patch, FieldsBytes, FieldRecord;
    SizeBoundsEvent(e);
    EventLength(e);
    var head := TransferField(e.event, e.data);
    FieldFits(head);
    var fieldsSize := TransferFieldsPayloadSize(e.fields);
    out := Resize(dst, 8 + |e.event| + |e.data| + fieldsSize);
    ghost var was := out.arr[..];
    PutRecord(out.arr, out.off, FieldRecord(head), FIELD_LAYOUT);
    PatchAfter(was, out.off, RecordBytes(FieldRecord(head), FIELD_LAYOUT), FieldsBytes(e.fields));
    EncodeTransferFieldsInto(out.arr, out.off + 8 + |e.event| + |e.data|, e.fields);
    PatchRead(was, out.off, EventBytes(e));
  }

  /** The header of an event frame: first and last flag, normal priority, realtime channel. */
  function EventHeader(frameType: byte, request: u64): Header {
    Header(0, frameType, 3, 2, 0, 1, 0, 0, 0, 300, request, 0, 0)
  }

  lemma EventFrame(frameType: byte, request: u64, e: Event)
    requires EventSize(e) <= MAX_PAYLOAD && 1 <= frameType <= 23
    ensures SmallEvent(e)
    ensures var h := Fixed(EventHeader(frameType, request), EventSize(e));
      && |HeaderBytes(h)| == HEADER_SIZE && |EventBytes(e)| == EventSize(e)
      && EncodeFrame(Frame(EventHeader(frameType, request), EventBytes(e))) == Some(HeaderBytes(h) + EventBytes(e))
  {
    hide EventBytes, HeaderBytes, At;
    SizeBoundsEvent(e);
    EventLength(e);
    HeaderOffsets(Fixed(EventHeader(frameType, request), EventSize(e)));
  }

  /** The way without a session writer: payload first, then a frame around it. */
  method EventFrameInTwoSteps(payloadBuffer: array<byte>, frameBuffer: array<byte>, frameType: byte,
      request: u64, e: Event)
    returns (out: Option<Slice>)
    requires EventSize(e) <= MAX_PAYLOAD && 1 <= frameType <= 23
    modifies payloadBuffer, frameBuffer
    ensures out.Some? && Valid(out.value) && SmallEvent(e)
    ensures EncodeFrame(Frame(EventHeader(frameType, request), EventBytes(e))) == Some(Content(out.value))
  {
    var payload := EncodeEventInto(Slice(payloadBuffer, 0, 0), e);
    EventLength(e);
    var bytes := payload.arr[payload.off..payload.off + payload.len];
    out := EncodeFrameInto(Slice(frameBuffer, 0, 0), Frame(EventHeader(frameType, request), bytes));
  }

  /** The fast path: the payload is encoded behind the space left for the header, in the same
      buffer, and the header is written in front of it afterwards. It emits the same bytes. */
  method EventFrameInPlace(buffer: array<byte>, frameType: byte, request: u64, e: Event) returns (out: Slice)
    requires EventSize(e) <= MAX_PAYLOAD && 1 <= frameType <= 23
    requires buffer.Length >= HEADER_SIZE + EventSize(e)
    modifies buffer
    ensures Valid(out) && SmallEvent(e) && out.arr == buffer
    ensures EncodeFrame(Frame(EventHeader(frameType, request), EventBytes(e))) == Some(Content(out))
  {
    hide Patch, HeaderBytes, EventBytes, EncodeFrame, Fixed;
    EventFrame(frameType, request, e);
    ghost var was := buffer[..];
    var payload := EncodeEventInto(Slice(buffer, HEADER_SIZE, 0), e);
    var h := EventHeader(frameType, request);
    ghost var header := HeaderBytes(Fixed(h, EventSize(e)));
    PatchBefore(was, 0, header, EventBytes(e));
    EncodeFrameHeaderInto(buffer, 0, h, payload.len);
    PatchRead(was, 0, header + EventBytes(e));
    out := Slice(buffer, 0, HEADER_SIZE + payload.len);
  }
}
