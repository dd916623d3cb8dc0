/** Big-endian integers and length-prefixed strings: the cells from which every frame and payload
    of the protocol is built (frame.go, payload.go). A record is a sequence of cells laid out one
    after the other; reading and writing it are proved to be inverse for every layout. */
module Wire {
  import opened Base

  type Bytes = seq<byte>

  // ---------------------------------------------------------------- integers

  function Pow256(w: nat): nat {
    if w == 0 then 1 else 256 * Pow256(w - 1)
  }

  lemma Widths()
    ensures Pow256(1) == 0x100 && Pow256(2) == 0x1_0000 && Pow256(4) == U32_SIZE && Pow256(8) == U64_SIZE
  {
  }

  function BigEndian(n: nat, w: nat): (s: Bytes)
    ensures |s| == w
  {
    if w == 0 then [] else BigEndian(n / 256, w - 1) + [n % 256]
  }

  function Value(s: Bytes): nat {
    if s == [] then 0 else Value(s[..|s| - 1]) * 256 + s[|s| - 1]
  }

  lemma {:induction false} ValueOfBigEndian(n: nat, w: nat)
    requires n < Pow256(w)
    ensures Value(BigEndian(n, w)) == n
  {
    if w == 0 {
    } else {
      ValueOfBigEndian(n / 256, w - 1);
      assert BigEndian(n, w)[..w - 1] == BigEndian(n / 256, w - 1);
    }
  }

  lemma {:induction false} BigEndianOfValue(s: Bytes)
    ensures Value(s) < Pow256(|s|)
    ensures BigEndian(Value(s), |s|) == s
  {
    if s == [] {
    } else {
      var init := s[..|s| - 1];
      BigEndianOfValue(init);
      assert Value(s) / 256 == Value(init) && Value(s) % 256 == s[|s| - 1];
      assert s == init + [s[|s| - 1]];
    }
  }

  // ---------------------------------------------------------------- cells

  /** An integer of `width` bytes, `size` bytes as they are, or a string with its length in
      `prefix` bytes in front. */
  datatype Kind = U(width: nat) | Raw(size: nat) | Text(prefix: nat)

  datatype Cell = Num(n: nat) | Str(s: Bytes)

  predicate Fits(c: Cell, k: Kind) {
    match k
    case U(width) => c.Num? && c.n < Pow256(width)
    case Raw(size) => c.Str? && |c.s| == size
    case Text(prefix) => c.Str? && |c.s| < Pow256(prefix)
  }

  function CellBytes(c: Cell, k: Kind): Bytes
    requires Fits(c, k)
  {
    match k
    case U(width) => BigEndian(c.n, width)
    case Raw(_) => c.s
    case Text(prefix) => BigEndian(|c.s|, prefix) + c.s
  }

  /** The bytes `s` stand at position `at` of `p`. */
  predicate At(p: Bytes, at: nat, s: Bytes) {
    at + |s| <= |p| && p[at..at + |s|] == s
  }

  lemma AtConcat(p: Bytes, at: nat, a: Bytes, b: Bytes)
    ensures At(p, at, a + b) <==> At(p, at, a) && At(p, at + |a|, b)
  {
    if at + |a| + |b| <= |p| {
      var s := p[at..at + |a| + |b|];
      assert s[..|a|] == p[at..at + |a|] && s[|a|..] == p[at + |a|..at + |a| + |b|];
      assert (a + b)[..|a|] == a && (a + b)[|a|..] == b;
      assert s == s[..|a|] + s[|a|..];
    }
  }

  /** `checkedPayloadEnd`: where `length` bytes from `start` on end, if they are there. */
  function CheckedEnd(p: Bytes, start: nat, length: nat): (end: Option<nat>)
    ensures end.Some? <==> start + length <= |p|
    ensures end.Some? ==> end.value == start + length
  {
    if start > |p| || length > |p| - start then None else Some(start + length)
  }

  datatype Read = Read(cell: Cell, next: nat)

  function ReadCell(p: Bytes, at: nat, k: Kind): Option<Read> {
    match k
    case U(width) =>
      if at + width > |p| then None else Some(Read(Num(Value(p[at..at + width])), at + width))
    case Raw(size) =>
      if at + size > |p| then None else Some(Read(Str(p[at..at + size]), at + size))
    case Text(prefix) =>
      if at + prefix > |p| then None
      else match CheckedEnd(p, at + prefix, Value(p[at..at + prefix]))
        case None => None
        case Some(end) => Some(Read(Str(p[at + prefix..end]), end))
  }

  lemma ReadWritten(p: Bytes, at: nat, c: Cell, k: Kind)
    requires Fits(c, k) && At(p, at, CellBytes(c, k))
    ensures ReadCell(p, at, k) == Some(Read(c, at + |CellBytes(c, k)|))
  {
    hide BigEndian, Value, Pow256;
    match k {
      case U(width) => ValueOfBigEndian(c.n, width);
      case Raw(_) =>
      case Text(prefix) =>
        AtConcat(p, at, BigEndian(|c.s|, prefix), c.s);
        ValueOfBigEndian(|c.s|, prefix);
    }
  }

  lemma WrittenRead(p: Bytes, at: nat, k: Kind)
    requires ReadCell(p, at, k).Some?
    ensures var r := ReadCell(p, at, k).value;
      Fits(r.cell, k) && At(p, at, CellBytes(r.cell, k)) && r.next == at + |CellBytes(r.cell, k)|
  {
    hide BigEndian, Value, Pow256;
    var r := ReadCell(p, at, k).value;
    match k {
      case U(width) => BigEndianOfValue(p[at..at + width]);
      case Raw(_) =>
      case Text(prefix) =>
        BigEndianOfValue(p[at..at + prefix]);
        AtConcat(p, at, BigEndian(|r.cell.s|, prefix), r.cell.s);
    }
  }

  // ---------------------------------------------------------------- records

  type Layout = seq<Kind>
  type Record = seq<Cell>

  predicate Matches(r: Record, layout: Layout) {
    |r| == |layout| && forall i :: 0 <= i < |r| ==> Fits(r[i], layout[i])
  }

  /** The first `n` cells of a record. */
  function Written(r: Record, layout: Layout, n: nat): Bytes
    requires Matches(r, layout) && n <= |r|
  {
    if n == 0 then [] else Written(r, layout, n - 1) + CellBytes(r[n - 1], layout[n - 1])
  }

  function RecordBytes(r: Record, layout: Layout): Bytes
    requires Matches(r, layout)
  {
    Written(r, layout, |r|)
  }

  datatype Cells = Cells(record: Record, next: nat)

  function ReadCells(p: Bytes, at: nat, layout: Layout, n: nat): Option<Cells>
    requires n <= |layout|
  {
    if n == 0 then Some(Cells([], at))
    else match ReadCells(p, at, layout, n - 1)
      case None => None
      case Some(before) =>
        match ReadCell(p, before.next, layout[n - 1])
        case None => None
        case Some(r) => Some(Cells(before.record + [r.cell], r.next))
  }

  function ReadRecord(p: Bytes, at: nat, layout: Layout): Option<Cells> {
    ReadCells(p, at, layout, |layout|)
  }

  lemma {:induction false} ReadWrittenCells(p: Bytes, at: nat, r: Record, layout: Layout, n: nat)
    requires Matches(r, layout) && n <= |r| && At(p, at, Written(r, layout, n))
    ensures ReadCells(p, at, layout, n) == Some(Cells(r[..n], at + |Written(r, layout, n)|))
  {
    hide At, Fits, CellBytes, ReadCell;
    if n == 0 {
    } else {
      var before := Written(r, layout, n - 1);
      AtConcat(p, at, before, CellBytes(r[n - 1], layout[n - 1]));
      ReadWrittenCells(p, at, r, layout, n - 1);
      ReadWritten(p, at + |before|, r[n - 1], layout[n - 1]);
      assert r[..n - 1] + [r[n - 1]] == r[..n];
    }
  }

  /** Reading a record that was written gives it back. */
  lemma ReadWrittenRecord(p: Bytes, at: nat, r: Record, layout: Layout)
    requires Matches(r, layout) && At(p, at, RecordBytes(r, layout))
    ensures ReadRecord(p, at, layout) == Some(Cells(r, at + |RecordBytes(r, layout)|))
  {
    ReadWrittenCells(p, at, r, layout, |r|);
    assert r[..|r|] == r;
  }

  lemma {:induction false} WrittenPrefix(r: Record, more: Record, layout: Layout, n: nat)
    requires |r| <= |layout| && Matches(r, layout[..|r|]) && Matches(more, layout) && n <= |r| && r == more[..|r|]
    ensures Written(more, layout, n) == Written(r, layout[..|r|], n)
  {
    if n == 0 {
    } else {
      WrittenPrefix(r, more, layout, n - 1);
    }
  }

  lemma {:induction false} WrittenCellsRead(p: Bytes, at: nat, layout: Layout, n: nat)
    requires n <= |layout| && at <= |p| && ReadCells(p, at, layout, n).Some?
    ensures var c := ReadCells(p, at, layout, n).value;
      Matches(c.record, layout[..n]) && At(p, at, RecordBytes(c.record, layout[..n]))
          && c.next == at + |RecordBytes(c.record, layout[..n])|
  {
    hide Fits, CellBytes, ReadCell;
    if n == 0 {
    } else {
      WrittenCellsRead(p, at, layout, n - 1);
      var before := ReadCells(p, at, layout, n - 1).value;
      WrittenRead(p, before.next, layout[n - 1]);
      var r := ReadCell(p, before.next, layout[n - 1]).value;
      var record := before.record + [r.cell];
      assert layout[..n][..n - 1] == layout[..n - 1];
      WrittenPrefix(before.record, record, layout[..n], n - 1);
      AtConcat(p, at, RecordBytes(before.record, layout[..n - 1]), CellBytes(r.cell, layout[n - 1]));
    }
  }

  /** Whatever was read as a record is what writing it produces. */
  lemma WrittenRecordRead(p: Bytes, at: nat, layout: Layout)
    requires at <= |p| && ReadRecord(p, at, layout).Some?
    ensures var c := ReadRecord(p, at, layout).value;
      Matches(c.record, layout) && At(p, at, RecordBytes(c.record, layout))
          && c.next == at + |RecordBytes(c.record, layout)|
  {
    assert layout[..|layout|] == layout;
    WrittenCellsRead(p, at, layout, |layout|);
  }

  // ---------------------------------------------------------------- lists of records

  predicate AllMatch(rs: seq<Record>, layout: Layout) {
    forall i :: 0 <= i < |rs| ==> Matches(rs[i], layout)
  }

  function Listed(rs: seq<Record>, layout: Layout, n: nat): Bytes
    requires AllMatch(rs, layout) && n <= |rs|
  {
    if n == 0 then [] else Listed(rs, layout, n - 1) + RecordBytes(rs[n - 1], layout)
  }

  datatype Records = Records(records: seq<Record>, next: nat)

  function ReadRecords(p: Bytes, at: nat, layout: Layout, n: nat): Option<Records> {
    if n == 0 then Some(Records([], at))
    else match ReadRecords(p, at, layout, n - 1)
      case None => None
      case Some(before) =>
        match ReadRecord(p, before.next, layout)
        case None => None
        case Some(c) => Some(Records(before.records + [c.record], c.next))
  }

  lemma {:induction false} ReadListed(p: Bytes, at: nat, rs: seq<Record>, layout: Layout, n: nat)
    requires AllMatch(rs, layout) && n <= |rs| && At(p, at, Listed(rs, layout, n))
    ensures ReadRecords(p, at, layout, n) == Some(Records(rs[..n], at + |Listed(rs, layout, n)|))
  {
    hide At, Matches, RecordBytes, ReadRecord;
    if n == 0 {
    } else {
      var before := Listed(rs, layout, n - 1);
      AtConcat(p, at, before, RecordBytes(rs[n - 1], layout));
      ReadListed(p, at, rs, layout, n - 1);
      ReadWrittenRecord(p, at + |before|, rs[n - 1], layout);
      assert rs[..n - 1] + [rs[n - 1]] == rs[..n];
    }
  }

  lemma {:induction false} ListedPrefix(rs: seq<Record>, more: seq<Record>, layout: Layout, n: nat)
    requires AllMatch(rs, layout) && AllMatch(more, layout) && n <= |rs| <= |more| && rs == more[..|rs|]
    ensures Listed(more, layout, n) == Listed(rs, layout, n)
  {
    if n == 0 {
    } else {
      ListedPrefix(rs, more, layout, n - 1);
    }
  }

  lemma {:induction false} ListedRead(p: Bytes, at: nat, layout: Layout, n: nat)
    requires at <= |p| && ReadRecords(p, at, layout, n).Some?
    ensures var r := ReadRecords(p, at, layout, n).value;
      |r.records| == n && AllMatch(r.records, layout) && At(p, at, Listed(r.records, layout, n))
          && r.next == at + |Listed(r.records, layout, n)|
  {
    hide Matches, RecordBytes, ReadRecord;
    if n > 0 {
      ListedRead(p, at, layout, n - 1);
      var before := ReadRecords(p, at, layout, n - 1).value;
      WrittenRecordRead(p, before.next, layout);
      var c := ReadRecord(p, before.next, layout).value;
      ListedPrefix(before.records, before.records + [c.record], layout, n - 1);
      AtConcat(p, at, Listed(before.records, layout, n - 1), RecordBytes(c.record, layout));
    } else {
      assert p[at..at] == [];
    }
  }

  lemma {:induction false} ReadRecordsFails(p: Bytes, at: nat, layout: Layout, n: nat, m: nat)
    requires n <= m && ReadRecords(p, at, layout, n).None?
    ensures ReadRecords(p, at, layout, m).None?
    decreases m
  {
    if n < m {
      ReadRecordsFails(p, at, layout, n, m - 1);
    }
  }

  // ---------------------------------------------------------------- counted lists

  const COUNT: Kind := U(4)

  function CountedBytes(rs: seq<Record>, layout: Layout): Bytes
    requires AllMatch(rs, layout) && Fits(Num(|rs|), COUNT)
  {
    CellBytes(Num(|rs|), COUNT) + Listed(rs, layout, |rs|)
  }

  /** A count, at most `max`, that many records must fit at `least` bytes each, and the records. */
  function ReadCounted(p: Bytes, layout: Layout, max: nat, least: nat): Option<Records> {
    match ReadCell(p, 0, COUNT)
    case None => None
    case Some(r) =>
      var count := r.cell.n;
      if count > max || count * least > |p| - 4 then None
      else ReadRecords(p, r.next, layout, count)
  }

  predicate AllAtLeast(rs: seq<Record>, layout: Layout, least: nat)
    requires AllMatch(rs, layout)
  {
    forall i :: 0 <= i < |rs| ==> |RecordBytes(rs[i], layout)| >= least
  }

  lemma {:induction false} ListedAtLeast(rs: seq<Record>, layout: Layout, least: nat, n: nat)
    requires AllMatch(rs, layout) && AllAtLeast(rs, layout, least) && n <= |rs|
    ensures |Listed(rs, layout, n)| >= n * least
  {
    hide Matches, RecordBytes;
    if n == 0 {
    } else {
      ListedAtLeast(rs, layout, least, n - 1);
      assert n * least == (n - 1) * least + least;
    }
  }

  lemma CountFits(n: nat)
    ensures Fits(Num(n), COUNT) <==> n < U32_SIZE
    ensures Fits(Num(n), COUNT) ==> |CellBytes(Num(n), COUNT)| == 4
  {
    Widths();
  }

  /** A written list reads back exactly when its length is admitted. */
  lemma ReadWrittenCounted(p: Bytes, rs: seq<Record>, layout: Layout, max: nat, least: nat)
    requires AllMatch(rs, layout) && Fits(Num(|rs|), COUNT) && AllAtLeast(rs, layout, least)
    requires At(p, 0, CountedBytes(rs, layout))
    ensures ReadCounted(p, layout, max, least) ==
      if |rs| <= max then Some(Records(rs, |CountedBytes(rs, layout)|)) else None
  {
    hide Fits, CellBytes, Matches, AllMatch, AllAtLeast, Listed, ReadCell, ReadRecords;
    CountFits(|rs|);
    AtConcat(p, 0, CellBytes(Num(|rs|), COUNT), Listed(rs, layout, |rs|));
    ReadWritten(p, 0, Num(|rs|), COUNT);
    ReadListed(p, 4, rs, layout, |rs|);
    ListedAtLeast(rs, layout, least, |rs|);
    assert rs[..|rs|] == rs;
  }

  lemma WrittenCountedRead(p: Bytes, layout: Layout, max: nat, least: nat)
    requires ReadCounted(p, layout, max, least).Some?
    ensures var r := ReadCounted(p, layout, max, least).value;
      && |r.records| <= max && AllMatch(r.records, layout) && Fits(Num(|r.records|), COUNT)
      && At(p, 0, CountedBytes(r.records, layout)) && r.next == |CountedBytes(r.records, layout)|
  {
    hide CellBytes, Matches, AllMatch, Listed, ReadRecords;
    WrittenRead(p, 0, COUNT);
    var c := ReadCell(p, 0, COUNT).value;
    CountFits(c.cell.n);
    ListedRead(p, c.next, layout, c.cell.n);
    var r := ReadCounted(p, layout, max, least).value;
    AtConcat(p, 0, CellBytes(Num(|r.records|), COUNT), Listed(r.records, layout, |r.records|));
  }
}
