/** The payloads with nested lists (payload.go): `TransferBegin` with its parts and fields, and
    event messages with their fields. Encoders fill a reused buffer; decoders check every length. */
module PayloadCodec {
  import opened Base
  import opened Wire

  const MAX_PAYLOAD: nat := 8388568
  const MAX_PARTS: nat := 1024
  const MAX_FIELDS: nat := 1024

  /** A checksum field is always 32 bytes long. */
  type Digest = s: Bytes | |s| == 32 witness [0, 0, 0, 0, 0, 0, 0, 0, 0, 0, 0, 0, 0, 0, 0, 0, 0, 0, 0, 0, 0, 0,
      0, 0, 0, 0, 0, 0, 0, 0, 0, 0]

  datatype TransferPart = TransferPart(field: Bytes, index: u32, name: Bytes, totalSize: u64, contentType: u32)

  datatype TransferField = TransferField(key: Bytes, value: Bytes)

  datatype TransferBegin = TransferBegin(
    totalSize: u64, chunkSize: u32, chunkCount: u32, contentType: u32, flags: u32, checksum: Digest,
    name: Bytes, event: Bytes, field: Bytes, index: u32, parts: seq<TransferPart>, fields: seq<TransferField>)

  const PART_LAYOUT: Layout := [Text(4), U(4), Text(4), U(8), U(4)]
  const FIELD_LAYOUT: Layout := [Text(4), Text(4)]
  const BEGIN_LAYOUT: Layout := [U(8), U(4), U(4), U(4), U(4), Raw(32), Text(4), Text(4), Text(4), U(4)]
  const COUNT_LAYOUT: Layout := [U(4)]

  // ---------------------------------------------------------------- sizes

  function PartsSize(parts: seq<TransferPart>, n: nat): nat
    requires n <= |parts|
  {
    if n == 0 then 4 else PartsSize(parts, n - 1) + 24 + |parts[n - 1].field| + |parts[n - 1].name|
  }

  function FieldsSize(fields: seq<TransferField>, n: nat): nat
    requires n <= |fields|
  {
    if n == 0 then 4 else FieldsSize(fields, n - 1) + 8 + |fields[n - 1].key| + |fields[n - 1].value|
  }

  /** `transferFieldsPayloadSize64`: no fields take no bytes at all. */
  function FieldsBlock(fields: seq<TransferField>): nat {
    if fields == [] then 0 else FieldsSize(fields, |fields|)
  }

  function BeginSize(v: TransferBegin): nat {
    72 + |v.name| + |v.event| + |v.field| + PartsSize(v.parts, |v.parts|) + FieldsBlock(v.fields)
  }

  method TransferPartsPayloadSize(parts: seq<TransferPart>) returns (size: nat)
    ensures size == PartsSize(parts, |parts|)
  {
    size := 4;
    for i := 0 to |parts|
      invariant size == PartsSize(parts, i)
    {
      size := size + 24 + |parts[i].field| + |parts[i].name|;
    }
  }

  method TransferFieldsPayloadSize(fields: seq<TransferField>) returns (size: nat)
    ensures size == FieldsBlock(fields)
  {
    if |fields| == 0 {
      return 0;
    }
    size := 4;
    for i := 0 to |fields|
      invariant size == FieldsSize(fields, i)
    {
      size := size + 8 + |fields[i].key| + |fields[i].value|;
    }
  }

  // ---------------------------------------------------------------- records

  function PartRecord(p: TransferPart): Record {
    [Str(p.field), Num(p.index), Str(p.name), Num(p.totalSize), Num(p.contentType)]
  }

  function PartOf(r: Record): TransferPart
    requires Matches(r, PART_LAYOUT)
  {
    Widths();
    TransferPart(r[0].s, r[1].n, r[2].s, r[3].n, r[4].n)
  }

  function FieldRecord(f: TransferField): Record {
    [Str(f.key), Str(f.value)]
  }

  function FieldOf(r: Record): TransferField
    requires Matches(r, FIELD_LAYOUT)
  {
    TransferField(r[0].s, r[1].s)
  }

  function BeginRecord(v: TransferBegin): Record {
    [Num(v.totalSize), Num(v.chunkSize), Num(v.chunkCount), Num(v.contentType), Num(v.flags), Str(v.checksum),
     Str(v.name), Str(v.event), Str(v.field), Num(v.index)]
  }

  function BeginOf(r: Record, parts: seq<TransferPart>, fields: seq<TransferField>): TransferBegin
    requires Matches(r, BEGIN_LAYOUT)
  {
    Widths();
    TransferBegin(r[0].n, r[1].n, r[2].n, r[3].n, r[4].n, r[5].s, r[6].s, r[7].s, r[8].s, r[9].n, parts, fields)
  }

  lemma PartFits(p: TransferPart)
    requires |p.field| < U32_SIZE && |p.name| < U32_SIZE
    ensures Matches(PartRecord(p), PART_LAYOUT)
    ensures |RecordBytes(PartRecord(p), PART_LAYOUT)| == 24 + |p.field| + |p.name|
  {
    hide BigEndian;
    Widths();
    var r := PartRecord(p);
    assert |Written(r, PART_LAYOUT, 1)| == 4 + |p.field|;
    assert |Written(r, PART_LAYOUT, 2)| == 8 + |p.field|;
    assert |Written(r, PART_LAYOUT, 3)| == 12 + |p.field| + |p.name|;
    assert |Written(r, PART_LAYOUT, 4)| == 20 + |p.field| + |p.name|;
  }

  lemma FieldFits(f: TransferField)
    requires |f.key| < U32_SIZE && |f.value| < U32_SIZE
    ensures Matches(FieldRecord(f), FIELD_LAYOUT)
    ensures |RecordBytes(FieldRecord(f), FIELD_LAYOUT)| == 8 + |f.key| + |f.value|
  {
    hide BigEndian;
    Widths();
    assert |Written(FieldRecord(f), FIELD_LAYOUT, 1)| == 4 + |f.key|;
  }

  lemma BeginFits(v: TransferBegin)
    requires |v.name| < U32_SIZE && |v.event| < U32_SIZE && |v.field| < U32_SIZE
    ensures Matches(BeginRecord(v), BEGIN_LAYOUT)
    ensures |RecordBytes(BeginRecord(v), BEGIN_LAYOUT)| == 72 + |v.name| + |v.event| + |v.field|
  {
    hide BigEndian;
    Widths();
    var r := BeginRecord(v);
    assert |Written(r, BEGIN_LAYOUT, 1)| == 8;
    assert |Written(r, BEGIN_LAYOUT, 2)| == 12;
    assert |Written(r, BEGIN_LAYOUT, 3)| == 16;
    assert |Written(r, BEGIN_LAYOUT, 4)| == 20;
    assert |Written(r, BEGIN_LAYOUT, 5)| == 24;
    assert |Written(r, BEGIN_LAYOUT, 6)| == 56;
    assert |Written(r, BEGIN_LAYOUT, 7)| == 60 + |v.name|;
    assert |Written(r, BEGIN_LAYOUT, 8)| == 64 + |v.name| + |v.event|;
    assert |Written(r, BEGIN_LAYOUT, 9)| == 68 + |v.name| + |v.event| + |v.field|;
  }

  // ---------------------------------------------------------------- parts

  predicate SmallParts(parts: seq<TransferPart>) {
    |parts| < U32_SIZE && forall i :: 0 <= i < |parts| ==> |parts[i].field| < U32_SIZE && |parts[i].name| < U32_SIZE
  }

  lemma {:induction false} PartsSizeBounds(parts: seq<TransferPart>, n: nat)
    requires n <= |parts|
    ensures PartsSize(parts, n) >= 4 + 24 * n
    ensures forall i :: 0 <= i < n ==> |parts[i].field| + |parts[i].name| < PartsSize(parts, n)
  {
    if n == 0 {
    } else {
      PartsSizeBounds(parts, n - 1);
    }
  }

  function PartRecords(parts: seq<TransferPart>, n: nat): (rs: seq<Record>)
    requires n <= |parts|
    ensures |rs| == n && forall i :: 0 <= i < n ==> rs[i] == PartRecord(parts[i])
  {
    if n == 0 then [] else PartRecords(parts, n - 1) + [PartRecord(parts[n - 1])]
  }

  function PartsOf(rs: seq<Record>, n: nat): (parts: seq<TransferPart>)
    requires AllMatch(rs, PART_LAYOUT) && n <= |rs|
    ensures |parts| == n && forall i :: 0 <= i < n ==> parts[i] == PartOf(rs[i])
  {
    if n == 0 then [] else PartsOf(rs, n - 1) + [PartOf(rs[n - 1])]
  }

  lemma PartsMatch(parts: seq<TransferPart>)
    requires SmallParts(parts)
    ensures var rs := PartRecords(parts, |parts|);
      AllMatch(rs, PART_LAYOUT) && AllAtLeast(rs, PART_LAYOUT, 24) && Fits(Num(|rs|), COUNT)
  {
    hide Matches, RecordBytes, Fits;
    CountFits(|parts|);
    forall i | 0 <= i < |parts|
      ensures Matches(PartRecord(parts[i]), PART_LAYOUT) && |RecordBytes(PartRecord(parts[i]), PART_LAYOUT)| >= 24
    {
      PartFits(parts[i]);
    }
  }

  function PartsBytes(parts: seq<TransferPart>): Bytes
    requires SmallParts(parts)
  {
    PartsMatch(parts);
    CountedBytes(PartRecords(parts, |parts|), PART_LAYOUT)
  }

  lemma {:induction false} PartsListedSize(parts: seq<TransferPart>, rs: seq<Record>, n: nat)
    requires SmallParts(parts) && rs == PartRecords(parts, |parts|) && AllMatch(rs, PART_LAYOUT) && n <= |parts|
    ensures |Listed(rs, PART_LAYOUT, n)| + 4 == PartsSize(parts, n)
  {
    hide Matches, RecordBytes;
    if n == 0 {
    } else {
      PartsListedSize(parts, rs, n - 1);
      PartFits(parts[n - 1]);
    }
  }

  /** The size that is computed beforehand is the number of bytes that are written. */
  lemma PartsLength(parts: seq<TransferPart>)
    requires SmallParts(parts)
    ensures |PartsBytes(parts)| == PartsSize(parts, |parts|)
  {
    hide Matches, RecordBytes;
    PartsMatch(parts);
    CountFits(|parts|);
    PartsListedSize(parts, PartRecords(parts, |parts|), |parts|);
  }

  datatype Parts = Parts(parts: seq<TransferPart>, used: nat)

  function DecodeParts(p: Bytes): Option<Parts> {
    match ReadCounted(p, PART_LAYOUT, MAX_PARTS, 24)
    case None => None
    case Some(r) =>
      WrittenCountedRead(p, PART_LAYOUT, MAX_PARTS, 24);
      Some(Parts(PartsOf(r.records, |r.records|), r.next))
  }

  lemma PartRoundTrip(p: TransferPart)
    requires Matches(PartRecord(p), PART_LAYOUT)
    ensures PartOf(PartRecord(p)) == p
  {
  }

  lemma RecordOfPart(r: Record)
    requires Matches(r, PART_LAYOUT)
    ensures PartRecord(PartOf(r)) == r && |PartOf(r).field| < U32_SIZE && |PartOf(r).name| < U32_SIZE
  {
    Widths();
    assert Fits(r[0], PART_LAYOUT[0]) && Fits(r[1], PART_LAYOUT[1]) && Fits(r[2], PART_LAYOUT[2])
        && Fits(r[3], PART_LAYOUT[3]) && Fits(r[4], PART_LAYOUT[4]);
  }

  lemma PartsRoundTrip(p: Bytes, parts: seq<TransferPart>)
    requires SmallParts(parts) && At(p, 0, PartsBytes(parts))
    ensures DecodeParts(p) == if |parts| <= MAX_PARTS then Some(Parts(parts, |PartsBytes(parts)|)) else None
  {
    hide Matches, RecordBytes, At, ReadCounted, CountedBytes, PartOf, PartRecord, Fits;
    PartsMatch(parts);
    var rs := PartRecords(parts, |parts|);
    ReadWrittenCounted(p, rs, PART_LAYOUT, MAX_PARTS, 24);
    if |parts| <= MAX_PARTS {
      forall i | 0 <= i < |parts| ensures PartOf(rs[i]) == parts[i] {
        assert Matches(rs[i], PART_LAYOUT);
        PartRoundTrip(parts[i]);
      }
      assert PartsOf(rs, |rs|) == parts;
    }
  }

  lemma PartsCanonical(p: Bytes)
    requires DecodeParts(p).Some?
    ensures var r := DecodeParts(p).value;
      |r.parts| <= MAX_PARTS && SmallParts(r.parts) && At(p, 0, PartsBytes(r.parts))
          && r.used == |PartsBytes(r.parts)|
  {
    hide Matches, RecordBytes, At, ReadCounted, CountedBytes, PartOf, PartRecord, Fits;
    WrittenCountedRead(p, PART_LAYOUT, MAX_PARTS, 24);
    var rs := ReadCounted(p, PART_LAYOUT, MAX_PARTS, 24).value.records;
    var parts := PartsOf(rs, |rs|);
    forall i | 0 <= i < |rs|
      ensures PartRecord(parts[i]) == rs[i] && |parts[i].field| < U32_SIZE && |parts[i].name| < U32_SIZE
    {
      assert Matches(rs[i], PART_LAYOUT);
      RecordOfPart(rs[i]);
    }
    assert PartRecords(parts, |parts|) == rs;
  }

  // ---------------------------------------------------------------- fields

  predicate SmallFields(fields: seq<TransferField>) {
    && |fields| < U32_SIZE
    && forall i :: 0 <= i < |fields| ==> |fields[i].key| < U32_SIZE && |fields[i].value| < U32_SIZE
  }

  lemma {:induction false} FieldsSizeBounds(fields: seq<TransferField>, n: nat)
    requires n <= |fields|
    ensures FieldsSize(fields, n) >= 4 + 8 * n
    ensures forall i :: 0 <= i < n ==> |fields[i].key| + |fields[i].value| < FieldsSize(fields, n)
  {
    if n == 0 {
    } else {
      FieldsSizeBounds(fields, n - 1);
    }
  }

  function FieldRecords(fields: seq<TransferField>, n: nat): (rs: seq<Record>)
    requires n <= |fields|
    ensures |rs| == n && forall i :: 0 <= i < n ==> rs[i] == FieldRecord(fields[i])
  {
    if n == 0 then [] else FieldRecords(fields, n - 1) + [FieldRecord(fields[n - 1])]
  }

  function FieldsOf(rs: seq<Record>, n: nat): (fields: seq<TransferField>)
    requires AllMatch(rs, FIELD_LAYOUT) && n <= |rs|
    ensures |fields| == n && forall i :: 0 <= i < n ==> fields[i] == FieldOf(rs[i])
  {
    if n == 0 then [] else FieldsOf(rs, n - 1) + [FieldOf(rs[n - 1])]
  }

  lemma FieldsMatch(fields: seq<TransferField>)
    requires SmallFields(fields)
    ensures var rs := FieldRecords(fields, |fields|);
      AllMatch(rs, FIELD_LAYOUT) && AllAtLeast(rs, FIELD_LAYOUT, 8) && Fits(Num(|rs|), COUNT)
  {
    hide Matches, RecordBytes, Fits;
    CountFits(|fields|);
    forall i | 0 <= i < |fields|
      ensures Matches(FieldRecord(fields[i]), FIELD_LAYOUT) && |RecordBytes(FieldRecord(fields[i]),
          FIELD_LAYOUT)| >= 8
    {
      FieldFits(fields[i]);
    }
  }

  function FieldListBytes(fields: seq<TransferField>): Bytes
    requires SmallFields(fields)
  {
    FieldsMatch(fields);
    CountedBytes(FieldRecords(fields, |fields|), FIELD_LAYOUT)
  }

  /** An empty list of fields is not written at all. */
  function FieldsBytes(fields: seq<TransferField>): Bytes
    requires SmallFields(fields)
  {
    if fields == [] then [] else FieldListBytes(fields)
  }

  lemma {:induction false} FieldsListedSize(fields: seq<TransferField>, rs: seq<Record>, n: nat)
    requires SmallFields(fields) && rs == FieldRecords(fields, |fields|) && AllMatch(rs, FIELD_LAYOUT)
        && n <= |fields|
    ensures |Listed(rs, FIELD_LAYOUT, n)| + 4 == FieldsSize(fields, n)
  {
    hide Matches, RecordBytes;
    if n == 0 {
    } else {
      FieldsListedSize(fields, rs, n - 1);
      FieldFits(fields[n - 1]);
    }
  }

  lemma FieldsLength(fields: seq<TransferField>)
    requires SmallFields(fields)
    ensures |FieldsBytes(fields)| == FieldsBlock(fields)
  {
    hide Matches, RecordBytes;
    FieldsMatch(fields);
    CountFits(|fields|);
    FieldsListedSize(fields, FieldRecords(fields, |fields|), |fields|);
  }

  function DecodeFields(p: Bytes): Option<seq<TransferField>> {
    if p == [] then Some([])
    else match ReadCounted(p, FIELD_LAYOUT, MAX_FIELDS, 8)
      case None => None
      case Some(r) =>
        WrittenCountedRead(p, FIELD_LAYOUT, MAX_FIELDS, 8);
        if r.next != |p| then None else Some(FieldsOf(r.records, |r.records|))
  }

  lemma FieldRoundTrip(f: TransferField)
    requires Matches(FieldRecord(f), FIELD_LAYOUT)
    ensures FieldOf(FieldRecord(f)) == f
  {
  }

  lemma RecordOfField(r: Record)
    requires Matches(r, FIELD_LAYOUT)
    ensures FieldRecord(FieldOf(r)) == r && |FieldOf(r).key| < U32_SIZE && |FieldOf(r).value| < U32_SIZE
  {
    Widths();
    assert Fits(r[0], FIELD_LAYOUT[0]) && Fits(r[1], FIELD_LAYOUT[1]);
  }

  lemma FieldsRoundTrip(fields: seq<TransferField>)
    requires SmallFields(fields)
    ensures DecodeFields(FieldsBytes(fields)) == if |fields| <= MAX_FIELDS then Some(fields) else None
  {
    hide Matches, RecordBytes, ReadCounted, FieldOf, FieldRecord, Fits;
    if fields != [] {
      FieldsMatch(fields);
      FieldsLength(fields);
      FieldsSizeBounds(fields, |fields|);
      var rs := FieldRecords(fields, |fields|);
      var p := FieldsBytes(fields);
      assert At(p, 0, p);
      ReadWrittenCounted(p, rs, FIELD_LAYOUT, MAX_FIELDS, 8);
      if |fields| <= MAX_FIELDS {
        forall i | 0 <= i < |fields| ensures FieldOf(rs[i]) == fields[i] {
          assert Matches(rs[i], FIELD_LAYOUT);
          FieldRoundTrip(fields[i]);
        }
        assert FieldsOf(rs, |rs|) == fields;
      }
    }
  }

  /** What was decoded is what encoding produces, unless the block spells out a count of zero. */
  lemma FieldsCanonical(p: Bytes)
    requires DecodeFields(p).Some?
    ensures var fields := DecodeFields(p).value;
      && |fields| <= MAX_FIELDS && SmallFields(fields)
      && (FieldsBytes(fields) == p <==> |p| != 4)
      && (|p| == 4 ==> fields == [])
  {
    hide Matches, RecordBytes, ReadCounted, FieldOf, FieldRecord, Fits;
    if p != [] {
      WrittenCountedRead(p, FIELD_LAYOUT, MAX_FIELDS, 8);
      var rs := ReadCounted(p, FIELD_LAYOUT, MAX_FIELDS, 8).value.records;
      var fields := FieldsOf(rs, |rs|);
      forall i | 0 <= i < |rs|
        ensures FieldRecord(fields[i]) == rs[i] && |fields[i].key| < U32_SIZE && |fields[i].value| < U32_SIZE
      {
        assert Matches(rs[i], FIELD_LAYOUT);
        RecordOfField(rs[i]);
      }
      assert FieldRecords(fields, |fields|) == rs;
      CountFits(|rs|);
      FieldsListedSize(fields, rs, |rs|);
      FieldsSizeBounds(fields, |fields|);
      assert p[0..|p|] == p;
    }
  }

  // ---------------------------------------------------------------- TransferBegin

  predicate SmallBegin(v: TransferBegin) {
    && |v.name| < U32_SIZE && |v.event| < U32_SIZE && |v.field| < U32_SIZE
    && SmallParts(v.parts) && SmallFields(v.fields)
  }

  /** Within the size limit no length field can overflow. */
  lemma SizeBoundsBegin(v: TransferBegin)
    requires BeginSize(v) <= MAX_PAYLOAD
    ensures SmallBegin(v)
  {
    PartsSizeBounds(v.parts, |v.parts|);
    FieldsSizeBounds(v.fields, |v.fields|);
  }

  function BeginBytes(v: TransferBegin): Bytes
    requires SmallBegin(v)
  {
    BeginFits(v);
    RecordBytes(BeginRecord(v), BEGIN_LAYOUT) + PartsBytes(v.parts) + FieldsBytes(v.fields)
  }

  lemma BeginLength(v: TransferBegin)
    requires SmallBegin(v)
    ensures |BeginBytes(v)| == BeginSize(v)
  {
    hide Matches, RecordBytes, PartsBytes, FieldsBytes;
    BeginFits(v);
    PartsLength(v.parts);
    FieldsLength(v.fields);
  }

  function EncodeBegin(v: TransferBegin): Option<Bytes> {
    if BeginSize(v) > MAX_PAYLOAD then None
    else
      SizeBoundsBegin(v);
      Some(BeginBytes(v))
  }

  /** Where the list of fields starts, once the fixed part and the parts have been read. */
  function FieldsStart(p: Bytes): Option<nat> {
    if |p| < 72 then None
    else match ReadRecord(p, 0, BEGIN_LAYOUT)
      case None => None
      case Some(c) =>
        WrittenRecordRead(p, 0, BEGIN_LAYOUT);
        match DecodeParts(p[c.next..])
        case None => None
        case Some(ps) =>
          PartsCanonical(p[c.next..]);
          Some(c.next + ps.used)
  }

  function DecodeBegin(p: Bytes): Option<TransferBegin> {
    if |p| < 72 then None
    else match ReadRecord(p, 0, BEGIN_LAYOUT)
      case None => None
      case Some(c) =>
        WrittenRecordRead(p, 0, BEGIN_LAYOUT);
        match DecodeParts(p[c.next..])
        case None => None
        case Some(ps) =>
          PartsCanonical(p[c.next..]);
          match DecodeFields(p[c.next + ps.used..])
          case None => None
          case Some(fields) => Some(BeginOf(c.record, ps.parts, fields))
  }

  lemma BeginRecordRoundTrip(v: TransferBegin)
    requires Matches(BeginRecord(v), BEGIN_LAYOUT)
    ensures BeginOf(BeginRecord(v), v.parts, v.fields) == v
  {
  }

  lemma RecordOfBegin(r: Record, parts: seq<TransferPart>, fields: seq<TransferField>)
    requires Matches(r, BEGIN_LAYOUT)
    ensures var v := BeginOf(r, parts, fields);
      BeginRecord(v) == r && |v.name| < U32_SIZE && |v.event| < U32_SIZE && |v.field| < U32_SIZE
  {
    hide CellBytes;
    Widths();
    assert Fits(r[0], BEGIN_LAYOUT[0]) && Fits(r[1], BEGIN_LAYOUT[1]) && Fits(r[2], BEGIN_LAYOUT[2])
        && Fits(r[3], BEGIN_LAYOUT[3]) && Fits(r[4], BEGIN_LAYOUT[4]) && Fits(r[5], BEGIN_LAYOUT[5])
        && Fits(r[6], BEGIN_LAYOUT[6]) && Fits(r[7], BEGIN_LAYOUT[7]) && Fits(r[8], BEGIN_LAYOUT[8])
        && Fits(r[9], BEGIN_LAYOUT[9]);
  }

  lemma AtTail(p: Bytes, at: nat, s: Bytes)
    requires at <= |p|
    ensures At(p, at, s) <==> At(p[at..], 0, s)
  {
  }

  /** `DecodeTransferBegin` inverts `EncodeTransferBegin` for every value within the size limit
      that has at most 1024 parts and fields, and rejects the encoding of every other. */
  lemma BeginRoundTrip(v: TransferBegin)
    requires BeginSize(v) <= MAX_PAYLOAD
    ensures EncodeBegin(v).Some?
    ensures DecodeBegin(EncodeBegin(v).value) ==
      if |v.parts| <= MAX_PARTS && |v.fields| <= MAX_FIELDS then Some(v) else None
  {
    hide Matches, RecordBytes, ReadRecord, PartsBytes, FieldsBytes, DecodeParts, DecodeFields, At, BeginOf;
    SizeBoundsBegin(v);
    BeginFits(v);
    BeginLength(v);
    PartsSizeBounds(v.parts, |v.parts|);
    var fixed := RecordBytes(BeginRecord(v), BEGIN_LAYOUT);
    var parts := PartsBytes(v.parts);
    var fields := FieldsBytes(v.fields);
    var p := fixed + parts + fields;
    AtWhole(p);
    AtConcat(p, 0, fixed + parts, fields);
    AtConcat(p, 0, fixed, parts);
    ReadWrittenRecord(p, 0, BeginRecord(v), BEGIN_LAYOUT);
    AtTail(p, |fixed|, parts);
    PartsRoundTrip(p[|fixed|..], v.parts);
    assert p[|fixed| + |parts|..] == fields;
    FieldsRoundTrip(v.fields);
    BeginRecordRoundTrip(v);
  }

  lemma AtWhole(p: Bytes)
    ensures At(p, 0, p)
  {
  }

  /** Decoding is injective up to one spelling: what was decoded is what encoding produces
      exactly when the payload does not spell out an empty list of fields. */
  lemma BeginCanonicalIff(p: Bytes)
    requires |p| <= MAX_PAYLOAD && DecodeBegin(p).Some?
    ensures FieldsStart(p).Some?
    ensures EncodeBegin(DecodeBegin(p).value) == Some(p) <==> |p| != FieldsStart(p).value + 4
  {
    hide Matches, RecordBytes, ReadRecord, PartsBytes, DecodeParts, DecodeFields, BeginOf, FieldsBytes;
    WrittenRecordRead(p, 0, BEGIN_LAYOUT);
    var c := ReadRecord(p, 0, BEGIN_LAYOUT).value;
    PartsCanonical(p[c.next..]);
    var ps := DecodeParts(p[c.next..]).value;
    var rest := p[c.next + ps.used..];
    FieldsCanonical(rest);
    var fields := DecodeFields(rest).value;
    RecordOfBegin(c.record, ps.parts, fields);
    AtTail(p, c.next, PartsBytes(ps.parts));
    AtConcat(p, 0, RecordBytes(c.record, BEGIN_LAYOUT), PartsBytes(ps.parts));
    assert p == p[..c.next + ps.used] + rest;
    var v := DecodeBegin(p).value;
    assert v == BeginOf(c.record, ps.parts, fields);
    BeginOfLists(c.record, ps.parts, fields);
    assert SmallBegin(v);
    BeginLength(v);
    FieldsLength(fields);
    var front := RecordBytes(c.record, BEGIN_LAYOUT) + PartsBytes(ps.parts);
    assert front == p[..c.next + ps.used];
    assert BeginBytes(v) == front + FieldsBytes(fields);
    assert BeginBytes(v) == p <==> FieldsBytes(fields) == rest by {
      if BeginBytes(v) == p {
        assert (front + FieldsBytes(fields))[|front|..] == FieldsBytes(fields);
      }
    }
  }

  /** The failing family: any announcement without fields, followed by an explicit count of zero,
      decodes to that announcement but is not its encoding. */
  lemma ExplicitEmptyFields(v: TransferBegin, count: Bytes)
    requires v.fields == [] && |v.parts| <= MAX_PARTS && BeginSize(v) + 4 <= MAX_PAYLOAD
    requires Fits(Num(0), COUNT) && count == CellBytes(Num(0), COUNT)
    ensures EncodeBegin(v).Some?
    ensures var p := EncodeBegin(v).value + count;
      DecodeBegin(p) == Some(v) && EncodeBegin(v) != Some(p)
  {
    hide Matches, RecordBytes, ReadRecord, PartsBytes, DecodeParts, At, BeginOf, CellBytes;
    SizeBoundsBegin(v);
    BeginFits(v);
    BeginLength(v);
    CountFits(0);
    PartsSizeBounds(v.parts, |v.parts|);
    var fixed := RecordBytes(BeginRecord(v), BEGIN_LAYOUT);
    var parts := PartsBytes(v.parts);
    var p := fixed + parts + count;
    assert EncodeBegin(v).value == fixed + parts + [] == fixed + parts;
    AtWhole(p);
    AtConcat(p, 0, fixed + parts, count);
    AtConcat(p, 0, fixed, parts);
    ReadWrittenRecord(p, 0, BeginRecord(v), BEGIN_LAYOUT);
    AtTail(p, |fixed|, parts);
    PartsRoundTrip(p[|fixed|..], v.parts);
    assert p[|fixed| + |parts|..] == count;
    NoFieldsSpelledOut(count);
    BeginRecordRoundTrip(v);
  }

  lemma NoFieldsSpelledOut(count: Bytes)
    requires Fits(Num(0), COUNT) && count == CellBytes(Num(0), COUNT)
    ensures DecodeFields(count) == Some([])
  {
    hide CellBytes, BigEndian, At;
    CountFits(0);
    var none: seq<Record> := [];
    assert CountedBytes(none, FIELD_LAYOUT) == count + [] == count;
    AtWhole(count);
    ReadWrittenCounted(count, none, FIELD_LAYOUT, MAX_FIELDS, 8);
  }

  /** Such a payload: an empty transfer without a name, and four zero bytes. */
  lemma BeginCanonicalCounterexample() returns (p: Bytes)
    ensures DecodeBegin(p).Some? && EncodeBegin(DecodeBegin(p).value) != Some(p)
  {
    hide EncodeBegin, DecodeBegin, CellBytes;
    var zeros: Digest := [0, 0, 0, 0, 0, 0, 0, 0, 0, 0, 0, 0, 0, 0, 0, 0, 0, 0, 0, 0, 0, 0, 0, 0, 0, 0, 0, 0, 0,
        0, 0, 0];
    var v := TransferBegin(0, 1, 0, 0, 0, zeros, [], [], [], 0, [], []);
    CountFits(0);
    ExplicitEmptyFields(v, CellBytes(Num(0), COUNT));
    p := EncodeBegin(v).value + CellBytes(Num(0), COUNT);
  }

  lemma BeginOfLists(r: Record, parts: seq<TransferPart>, fields: seq<TransferField>)
    requires Matches(r, BEGIN_LAYOUT)
    ensures BeginOf(r, parts, fields).parts == parts && BeginOf(r, parts, fields).fields == fields
  {
  }
}
