/** The encoders and decoders of payload.go as they run: loops over parts and fields that write
    into a shared buffer or walk through a received one. Each is proved against the functions of
    module `PayloadCodec`. */
module PayloadBuffers {
  import opened Base
  import opened Wire
  import opened Buffers
  import opened PayloadCodec

  method EncodeTransferPartsInto(arr: array<byte>, at: nat, parts: seq<TransferPart>)
    requires SmallParts(parts) && at + |PartsBytes(parts)| <= arr.Length
    modifies arr
    ensures arr[..] == Patch(old(arr[..]), at, PartsBytes(parts))
  {
    hide Matches, RecordBytes, Patch, PartRecord;
    ghost var rs := PartRecords(parts, |parts|);
    PartsMatch(parts);
    CountFits(|parts|);
    var count := CellBytes(Num(|parts|), COUNT);
    ghost var was := arr[..];
    Copy(arr, at, count);
    var i, pos := 0, at + 4;
    assert count + Listed(rs, PART_LAYOUT, 0) == count;
    while i < |parts|
      invariant i <= |parts| && pos == at + 4 + |Listed(rs, PART_LAYOUT, i)| <= arr.Length
      invariant arr[..] == Patch(was, at, count + Listed(rs, PART_LAYOUT, i))
    {
      PartFits(parts[i]);
      ListedGrows(rs, PART_LAYOUT, i + 1, |parts|);
      ghost var bytes := RecordBytes(rs[i], PART_LAYOUT);
      PatchAfter(was, at, count + Listed(rs, PART_LAYOUT, i), bytes);
      assert count + Listed(rs, PART_LAYOUT, i) + bytes == count + Listed(rs, PART_LAYOUT, i + 1);
      PutRecord(arr, pos, PartRecord(parts[i]), PART_LAYOUT);
      pos := pos + 24 + |parts[i].field| + |parts[i].name|;
      i := i + 1;
    }
  }

  method EncodeTransferFieldsInto(arr: array<byte>, at: nat, fields: seq<TransferField>)
    requires SmallFields(fields) && at + |FieldsBytes(fields)| <= arr.Length
    modifies arr
    ensures arr[..] == Patch(old(arr[..]), at, FieldsBytes(fields))
  {
    hide Patch;
    PatchNothing(arr[..], at);
    if |fields| != 0 {
      PutFields(arr, at, fields);
    }
  }

  method PutFields(arr: array<byte>, at: nat, fields: seq<TransferField>)
    requires SmallFields(fields) && at + |FieldListBytes(fields)| <= arr.Length
    modifies arr
    ensures arr[..] == Patch(old(arr[..]), at, FieldListBytes(fields))
  {
    hide Matches, RecordBytes, Patch, FieldRecord;
    ghost var rs := FieldRecords(fields, |fields|);
    FieldsMatch(fields);
    CountFits(|fields|);
    var count := CellBytes(Num(|fields|), COUNT);
    ghost var was := arr[..];
    Copy(arr, at, count);
    var i, pos := 0, at + 4;
    assert count + Listed(rs, FIELD_LAYOUT, 0) == count;
    while i < |fields|
      invariant i <= |fields| && pos == at + 4 + |Listed(rs, FIELD_LAYOUT, i)| <= arr.Length
      invariant arr[..] == Patch(was, at, count + Listed(rs, FIELD_LAYOUT, i))
    {
      FieldFits(fields[i]);
      ListedGrows(rs, FIELD_LAYOUT, i + 1, |fields|);
      ghost var bytes := RecordBytes(rs[i], FIELD_LAYOUT);
      PatchAfter(was, at, count + Listed(rs, FIELD_LAYOUT, i), bytes);
      assert count + Listed(rs, FIELD_LAYOUT, i) + bytes == count + Listed(rs, FIELD_LAYOUT, i + 1);
      PutRecord(arr, pos, FieldRecord(fields[i]), FIELD_LAYOUT);
      pos := pos + 8 + |fields[i].key| + |fields[i].value|;
      i := i + 1;
    }
  }

  /** Whatever the reused buffer held, the result is the encoding; a buffer that is large enough
      is used in place and changed nowhere else. */
  method EncodeTransferBeginInto(dst: Slice, v: TransferBegin) returns (out: Option<Slice>)
    requires Valid(dst)
    modifies dst.arr
    ensures out.Some? <==> EncodeBegin(v).Some?
    ensures out.Some? ==> Valid(out.value) && Content(out.value) == EncodeBegin(v).value
    ensures out.Some? && Capacity(dst) >= BeginSize(v) ==>
      && out.value == Slice(dst.arr, dst.off, BeginSize(v))
      && dst.off + |EncodeBegin(v).value| <= dst.arr.Length
      && dst.arr[..] == Patch(old(dst.arr[..]), dst.off, EncodeBegin(v).value)
    ensures out.None? || Capacity(dst) < BeginSize(v) ==> dst.arr[..] == old(dst.arr[..])
  {
    hide Matches, RecordBytes, Patch, PartsBytes, FieldsBytes, BeginRecord;
    var partsSize := TransferPartsPayloadSize(v.parts);
    var fieldsSize := TransferFieldsPayloadSize(v.fields);
    var size := 72 + |v.name| + |v.event| + |v.field| + partsSize + fieldsSize;
    if size > MAX_PAYLOAD {
      return None;
    }
    SizeBoundsBegin(v);
    BeginFits(v);
    BeginLength(v);
    PartsLength(v.parts);
    var o := Resize(dst, size);
    ghost var was := o.arr[..];
    ghost var fixed := RecordBytes(BeginRecord(v), BEGIN_LAYOUT);
    PutRecord(o.arr, o.off, BeginRecord(v), BEGIN_LAYOUT);
    var pos := o.off + 72 + |v.name| + |v.event| + |v.field|;
    PatchAfter(was, o.off, fixed, PartsBytes(v.parts));
    EncodeTransferPartsInto(o.arr, pos, v.parts);
    pos := pos + partsSize;
    PatchAfter(was, o.off, fixed + PartsBytes(v.parts), FieldsBytes(v.fields));
    EncodeTransferFieldsInto(o.arr, pos, v.fields);
    PatchRead(was, o.off, BeginBytes(v));
    return Some(o);
  }

  method DecodeTransferParts(p: Bytes) returns (r: Option<Parts>)
    ensures r == DecodeParts(p)
  {
    hide PartOf, ReadRecord, Matches;
    var c := ReadCell(p, 0, COUNT);
    if c.None? {
      return None;
    }
    var count := c.value.cell.n;
    if count > MAX_PARTS || count * 24 > |p| - 4 {
      return None;
    }
    var pos: nat, i: nat := 4, 0;
    var parts: seq<TransferPart> := [];
    ghost var rs: seq<Record> := [];
    while i < count
      invariant i <= count && |rs| == i && pos <= |p|
      invariant ReadRecords(p, 4, PART_LAYOUT, i) == Some(Records(rs, pos))
      invariant AllMatch(rs, PART_LAYOUT) && parts == PartsOf(rs, i)
    {
      var part := ReadRecord(p, pos, PART_LAYOUT);
      if part.None? {
        ReadRecordsFails(p, 4, PART_LAYOUT, i + 1, count);
        return None;
      }
      WrittenRecordRead(p, pos, PART_LAYOUT);
      PartsOfPrefix(rs, rs + [part.value.record], i);
      rs := rs + [part.value.record];
      parts := parts + [PartOf(part.value.record)];
      pos := part.value.next;
      i := i + 1;
    }
    return Some(Parts(parts, pos));
  }

  lemma {:induction false} PartsOfPrefix(rs: seq<Record>, more: seq<Record>, n: nat)
    requires AllMatch(rs, PART_LAYOUT) && AllMatch(more, PART_LAYOUT) && n <= |rs| <= |more| && rs == more[..|rs|]
    ensures PartsOf(rs, n) == PartsOf(more, n)
  {
    hide PartOf, Matches;
  }

  method DecodeTransferFields(p: Bytes) returns (r: Option<seq<TransferField>>)
    ensures r == DecodeFields(p)
  {
    hide FieldOf, ReadRecord, Matches;
    if |p| == 0 {
      return Some([]);
    }
    var c := ReadCell(p, 0, COUNT);
    if c.None? {
      return None;
    }
    var count := c.value.cell.n;
    if count > MAX_FIELDS || count * 8 > |p| - 4 {
      return None;
    }
    var pos: nat, i: nat := 4, 0;
    var fields: seq<TransferField> := [];
    ghost var rs: seq<Record> := [];
    while i < count
      invariant i <= count && |rs| == i && pos <= |p|
      invariant ReadRecords(p, 4, FIELD_LAYOUT, i) == Some(Records(rs, pos))
      invariant AllMatch(rs, FIELD_LAYOUT) && fields == FieldsOf(rs, i)
    {
      var field := ReadRecord(p, pos, FIELD_LAYOUT);
      if field.None? {
        ReadRecordsFails(p, 4, FIELD_LAYOUT, i + 1, count);
        return None;
      }
      WrittenRecordRead(p, pos, FIELD_LAYOUT);
      FieldsOfPrefix(rs, rs + [field.value.record], i);
      rs := rs + [field.value.record];
      fields := fields + [FieldOf(field.value.record)];
      pos := field.value.next;
      i := i + 1;
    }
    if pos != |p| {
      return None;
    }
    return Some(fields);
  }

  lemma {:induction false} FieldsOfPrefix(rs: seq<Record>, more: seq<Record>, n: nat)
    requires AllMatch(rs, FIELD_LAYOUT) && AllMatch(more, FIELD_LAYOUT) && n <= |rs| <= |more| && rs == more[..|rs|]
    ensures FieldsOf(rs, n) == FieldsOf(more, n)
  {
    hide FieldOf, Matches;
  }

  method DecodeTransferBegin(p: Bytes) returns (r: Option<TransferBegin>)
    ensures r == DecodeBegin(p)
  {
    hide DecodeParts, DecodeFields, ReadRecord, BeginOf, Matches;
    if |p| < 72 {
      return None;
    }
    var fixed := ReadRecord(p, 0, BEGIN_LAYOUT);
    if fixed.None? {
      return None;
    }
    WrittenRecordRead(p, 0, BEGIN_LAYOUT);
    var pos := fixed.value.next;
    var parts := DecodeTransferParts(p[pos..]);
    if parts.None? {
      return None;
    }
    PartsCanonical(p[pos..]);
    pos := pos + parts.value.used;
    var fields := DecodeTransferFields(p[pos..]);
    if fields.None? {
      return None;
    }
    return Some(BeginOf(fixed.value.record, parts.value.parts, fields.value));
  }
}
