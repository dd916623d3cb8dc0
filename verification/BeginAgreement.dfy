/** How two endpoints agree on a transfer (session.go, incoming.go): each normalises its own
    configuration and tells the other its limits in a Hello; the sender fits a transfer to both
    sets of limits and announces it; the receiver checks the announcement again from its bytes. */
module BeginAgreement {
  import opened Base
  import opened Chunks
  import opened Wire
  import opened PayloadCodec

  // ---------------------------------------------------------------- configuration and Hello

  /** A capability is the number of its bit. */
  const TRANSFERS := 0
  const ACK := 2
  const SHA256 := 5
  const COMMIT := 12
  const ALL_CAPABILITIES: set<nat> := {0, 1, 2, 3, 4, 5, 6, 7, 8, 9, 10, 11, 12}
  const DEFAULT_CAPABILITIES: set<nat> := {0, 1, 2, 3, 4, 5, 6, 7, 8, 9, 10, 12}

  const MAX_FRAME_BYTES: int := 8388608
  const HEADER_BYTES: int := 40
  const DEFAULT_CHUNK_SIZE: int := 16384
  const MILLISECOND: int := 1_000_000
  const MAX_HEARTBEAT: int := 0xFFFF_FFFF * MILLISECOND

  datatype Role = Client | Server

  /** The part of the configuration that the Hello and the transfer checks look at. */
  datatype Config = Config(
    role: Role, capabilities: set<nat>, maxFrameBytes: u32, maxChunkSize: int, maxTransferBytes: u64,
    maxInFlightChunks: int, maxInFlightBytes: u64, maxSendBytes: u64, maxReceiveBytes: u64, heartbeat: int)

  /** Go's conversion of a signed integer to `uint32`. */
  function LowBits(x: int): (r: u32)
    ensures 0 <= x < U32_SIZE ==> r == x
  {
    x % U32_SIZE
  }

  function Or(x: int, otherwise: int): int {
    if x <= 0 then otherwise else x
  }

  function AtMost(x: int, limit: u64): int {
    if limit > 0 && x > limit then limit else x
  }

  /** The chain of caps on the chunk size at the end of `normalizeSessionConfig`. */
  function NormalChunkSize(c: Config): int {
    var size := Or(c.maxChunkSize, 65536);
    var forFrame := c.maxFrameBytes - HEADER_BYTES;
    var size := if size > forFrame then forFrame else size;
    var size := AtMost(AtMost(AtMost(size, c.maxInFlightBytes), c.maxSendBytes), c.maxReceiveBytes);
    if size <= 0 then 1 else size
  }

  function Normalize(c: Config): Config {
    var caps := if c.capabilities == {} then DEFAULT_CAPABILITIES else c.capabilities;
    var beat := Or(c.heartbeat, 10_000 * MILLISECOND);
    var beat := if beat < MILLISECOND then MILLISECOND else if beat > MAX_HEARTBEAT then MAX_HEARTBEAT else beat;
    var c := c.(
      capabilities := caps * ALL_CAPABILITIES,
      maxInFlightChunks := Or(c.maxInFlightChunks, 16),
      maxInFlightBytes := if c.maxInFlightBytes == 0 then 8388608 else c.maxInFlightBytes,
      maxSendBytes := if c.maxSendBytes == 0 then 16777216 else c.maxSendBytes,
      maxReceiveBytes := if c.maxReceiveBytes == 0 then 33554432 else c.maxReceiveBytes,
      maxTransferBytes := if c.maxTransferBytes == 0 then 536870912 else c.maxTransferBytes,
      maxFrameBytes := if c.maxFrameBytes < HEADER_BYTES || c.maxFrameBytes > MAX_FRAME_BYTES
          then MAX_FRAME_BYTES else c.maxFrameBytes,
      heartbeat := beat);
    c.(maxChunkSize := NormalChunkSize(c))
  }

  datatype Hello = Hello(
    role: Role, capabilities: set<nat>, maxFrameBytes: u32, maxChunkSize: u32, maxTransferBytes: u64,
    maxInFlightChunks: u32, heartbeatMillis: u32)

  function HelloOf(c: Config): Hello {
    Hello(c.role, c.capabilities, c.maxFrameBytes, LowBits(c.maxChunkSize), c.maxTransferBytes,
          LowBits(c.maxInFlightChunks), LowBits(c.heartbeat / MILLISECOND))
  }

  /** `acceptRemoteHello`. */
  predicate HelloAccepted(h: Hello, expected: Role) {
    && h.role == expected
    && h.capabilities <= ALL_CAPABILITIES
    && HEADER_BYTES <= h.maxFrameBytes <= MAX_FRAME_BYTES
    && 0 < h.maxChunkSize <= h.maxFrameBytes - HEADER_BYTES
    && h.maxTransferBytes > 0 && h.maxInFlightChunks > 0 && h.heartbeatMillis > 0
  }

  lemma Normalized(c: Config)
    ensures var n := Normalize(c);
      && n.capabilities <= ALL_CAPABILITIES && n.role == c.role
      && HEADER_BYTES <= n.maxFrameBytes <= MAX_FRAME_BYTES && n.maxTransferBytes > 0
      && 1 <= n.maxChunkSize <= MAX_FRAME_BYTES
      && (n.maxFrameBytes > HEADER_BYTES ==> n.maxChunkSize <= n.maxFrameBytes - HEADER_BYTES)
      && n.maxInFlightChunks > 0 && MILLISECOND <= n.heartbeat <= MAX_HEARTBEAT
  {
  }

  /** A configuration that can be used as it is: everything set and within its range, and a chunk
      that fits into a frame and all three buffers. */
  predicate Usable(c: Config) {
    && {} != c.capabilities <= ALL_CAPABILITIES
    && HEADER_BYTES < c.maxFrameBytes <= MAX_FRAME_BYTES && c.maxTransferBytes > 0
    && c.maxInFlightChunks > 0 && MILLISECOND <= c.heartbeat <= MAX_HEARTBEAT
    && 0 < c.maxChunkSize <= c.maxFrameBytes - HEADER_BYTES
    && c.maxChunkSize <= c.maxInFlightBytes && c.maxChunkSize <= c.maxSendBytes && c.maxChunkSize <= c.maxReceiveBytes
  }

  /** Normalising leaves exactly the usable configurations alone, apart from the degenerate frame
      limit of the bare header. */
  lemma NormalizeKeepsIff(c: Config)
    requires c.maxFrameBytes != HEADER_BYTES
    ensures Normalize(c) == c <==> Usable(c)
  {
    assert 0 in DEFAULT_CAPABILITIES * ALL_CAPABILITIES;
    assert c.capabilities * ALL_CAPABILITIES == c.capabilities <==> c.capabilities <= ALL_CAPABILITIES;
  }

  /** Normalising twice is normalising once, except for a configuration that names only unknown
      capabilities: the first pass leaves it none, and the second takes that for unset. */
  lemma NormalizeIdempotentIff(c: Config)
    ensures Normalize(Normalize(c)) == Normalize(c) <==> c.capabilities == {} || c.capabilities * ALL_CAPABILITIES != {}
  {
    var n := Normalize(c);
    assert DEFAULT_CAPABILITIES * ALL_CAPABILITIES == DEFAULT_CAPABILITIES;
    assert n.capabilities * ALL_CAPABILITIES == n.capabilities;
    SizesStable(c);
  }

  /** All numbers of a normalised configuration are normal. */
  lemma SizesStable(c: Config)
    ensures var n, m := Normalize(c), Normalize(Normalize(c)); m == n.(capabilities := m.capabilities)
  {
  }

  lemma NormalizeIdempotentCounterexample(c: Config)
    requires c.capabilities == {13}
    ensures Normalize(c).capabilities == {} && Normalize(Normalize(c)).capabilities == DEFAULT_CAPABILITIES
  {
    assert {13} * ALL_CAPABILITIES == {};
    assert DEFAULT_CAPABILITIES * ALL_CAPABILITIES == DEFAULT_CAPABILITIES;
  }

  /** What is not set gets its default, and what is out of range the nearest value or the default. */
  lemma DefaultsFilledIn(c: Config)
    ensures var n := Normalize(c);
      && (c.capabilities == {} ==> n.capabilities == {0, 1, 2, 3, 4, 5, 6, 7, 8, 9, 10, 12})
      && (c.maxInFlightChunks <= 0 ==> n.maxInFlightChunks == 16)
      && (c.maxInFlightBytes == 0 ==> n.maxInFlightBytes == 8 * 1024 * 1024)
      && (c.maxSendBytes == 0 ==> n.maxSendBytes == 16 * 1024 * 1024)
      && (c.maxReceiveBytes == 0 ==> n.maxReceiveBytes == 32 * 1024 * 1024)
      && (c.maxTransferBytes == 0 ==> n.maxTransferBytes == 512 * 1024 * 1024)
      && (c.maxFrameBytes < 40 || c.maxFrameBytes > 8 * 1024 * 1024 ==> n.maxFrameBytes == 8 * 1024 * 1024)
      && (c.heartbeat <= 0 ==> n.heartbeat == 10_000 * MILLISECOND)
      && (c.heartbeat > MAX_HEARTBEAT ==> n.heartbeat == MAX_HEARTBEAT)
      && (0 < c.heartbeat < MILLISECOND ==> n.heartbeat == MILLISECOND)
    ensures var n := Normalize(c); n.maxFrameBytes > HEADER_BYTES ==>
      && n.maxChunkSize <= n.maxInFlightBytes && n.maxChunkSize <= n.maxSendBytes
      && n.maxChunkSize <= n.maxReceiveBytes
      && (c.maxChunkSize <= 0 ==> n.maxChunkSize <= 65536)
      && (n.maxChunkSize == (if c.maxChunkSize <= 0 then 65536 else c.maxChunkSize)
          || n.maxChunkSize == n.maxFrameBytes - HEADER_BYTES || n.maxChunkSize == n.maxInFlightBytes
          || n.maxChunkSize == n.maxSendBytes || n.maxChunkSize == n.maxReceiveBytes)
  {
    assert DEFAULT_CAPABILITIES * ALL_CAPABILITIES == DEFAULT_CAPABILITIES;
  }

  /** A Hello is refused for a wrong role, an unknown capability, frames or chunks that cannot be, or
      a limit or heartbeat of zero. */
  lemma HelloRefused(h: Hello, expected: Role, unknown: nat)
    ensures
      || h.role != expected
      || (unknown >= 13 && unknown in h.capabilities)
      || h.maxFrameBytes > 8 * 1024 * 1024
      || h.maxChunkSize == 0 || h.maxChunkSize + 40 > h.maxFrameBytes
      || h.maxTransferBytes == 0 || h.maxInFlightChunks == 0 || h.heartbeatMillis == 0
      ==> !HelloAccepted(h, expected)
  {
  }

  /** A normalised configuration announces itself acceptably exactly when its frames have room
      for a payload byte and its window does not vanish in 32 bits. */
  lemma HelloAcceptedIff(c: Config, expected: Role)
    ensures HelloAccepted(HelloOf(Normalize(c)), expected) <==>
      && c.role == expected
      && Normalize(c).maxFrameBytes > HEADER_BYTES
      && Normalize(c).maxInFlightChunks % U32_SIZE != 0
  {
    hide Normalize;
    Normalized(c);
    var n := Normalize(c);
    assert LowBits(n.maxChunkSize) == n.maxChunkSize;
    assert 1 <= n.heartbeat / MILLISECOND < U32_SIZE;
    assert LowBits(n.heartbeat / MILLISECOND) == n.heartbeat / MILLISECOND;
  }

  /** A frame limit of exactly the header size survives normalisation and is then refused by
      every peer. */
  lemma HelloRefusedCounterexample(c: Config)
    requires c.maxFrameBytes == HEADER_BYTES
    ensures !HelloAccepted(HelloOf(Normalize(c)), c.role)
  {
    HelloAcceptedIff(c, c.role);
  }

  // ---------------------------------------------------------------- the sender

  /** An endpoint that has accepted the Hello of its peer. */
  datatype Endpoint = Endpoint(config: Config, remote: Hello)

  function Negotiated(e: Endpoint): set<nat> {
    e.remote.capabilities * e.config.capabilities
  }

  datatype Options = Options(
    requestId: u64, totalSize: u64, chunkSize: int, contentType: u32, sha256: bool, checksum: Digest,
    name: Bytes, event: Bytes, field: Bytes, index: u32, parts: seq<TransferPart>, fields: seq<TransferField>)

  /** `normalizeTransferOptions`. */
  function NormalizeOptions(e: Endpoint, o: Options): Options {
    var size := Or(o.chunkSize, DEFAULT_CHUNK_SIZE);
    var size := if size > e.config.maxChunkSize then e.config.maxChunkSize else size;
    o.(chunkSize := if e.remote.maxChunkSize > 0 && LowBits(size) > e.remote.maxChunkSize
        then e.remote.maxChunkSize else size)
  }

  function PartsTotal(parts: seq<TransferPart>, n: nat): nat
    requires n <= |parts|
  {
    if n == 0 then 0 else PartsTotal(parts, n - 1) + parts[n - 1].totalSize
  }

  /** The total is the sum of the parts: nothing for none, and one part more adds its size. */
  lemma PartsTotalAdds(parts: seq<TransferPart>, more: TransferPart)
    ensures PartsTotal([], 0) == 0
    ensures PartsTotal(parts + [more], |parts| + 1) == PartsTotal(parts, |parts|) + more.totalSize
  {
    PartsTotalFront(parts, more, |parts|);
  }

  lemma {:induction false} PartsTotalFront(parts: seq<TransferPart>, more: TransferPart, n: nat)
    requires n <= |parts|
    ensures PartsTotal(parts + [more], n) == PartsTotal(parts, n)
  {
    if n == 0 {
    } else {
      PartsTotalFront(parts, more, n - 1);
    }
  }

  lemma {:induction false} PartsTotalGrows(parts: seq<TransferPart>, i: nat, n: nat)
    requires i <= n <= |parts|
    ensures PartsTotal(parts, i) <= PartsTotal(parts, n)
    decreases n
  {
    if i < n {
      PartsTotalGrows(parts, i, n - 1);
    }
  }

  predicate PartsAddUp(parts: seq<TransferPart>, total: u64) {
    parts != [] ==> PartsTotal(parts, |parts|) == total
  }

  /** The loop that both sides run over the parts. Comparing with what is left instead of adding
      first keeps the sum below 2^64, so it accepts exactly the parts whose sizes add up. */
  method CheckParts(parts: seq<TransferPart>, total: u64) returns (ok: bool)
    ensures ok <==> PartsAddUp(parts, total)
  {
    if |parts| == 0 {
      return true;
    }
    var sum: u64 := 0;
    for i := 0 to |parts|
      invariant sum == PartsTotal(parts, i) <= total
    {
      if parts[i].totalSize > total - sum {
        PartsTotalGrows(parts, i + 1, |parts|);
        return false;
      }
      sum := sum + parts[i].totalSize;
    }
    return sum == total;
  }

  predicate AllZero(s: Bytes) {
    forall i :: 0 <= i < |s| ==> s[i] == 0
  }

  /** The fields of the options that end up in `TransferBegin`. */
  function Announcement(o: Options): TransferBegin
    requires o.totalSize == 0 || LowBits(o.chunkSize) > 0
  {
    TransferBegin(o.totalSize, LowBits(o.chunkSize), ChunkCountFor(o.totalSize, LowBits(o.chunkSize)), o.contentType,
                  if o.sha256 then 1 else 0, o.checksum, o.name, o.event, o.field, o.index, o.parts, o.fields)
  }

  function AnnouncementSize(o: Options): nat {
    72 + |o.name| + |o.event| + |o.field| + PartsSize(o.parts, |o.parts|) + FieldsBlock(o.fields)
  }

  /** `validateOutgoingTransfer`, apart from the authentication state and the reader. */
  predicate OutgoingValid(e: Endpoint, o: Options) {
    && {TRANSFERS, COMMIT, ACK} <= e.config.capabilities
    && {TRANSFERS, COMMIT, ACK} <= Negotiated(e)
    && o.totalSize <= e.config.maxTransferBytes
    && (e.remote.maxTransferBytes > 0 ==> o.totalSize <= e.remote.maxTransferBytes)
    && 0 < o.chunkSize <= e.config.maxChunkSize
    && (o.totalSize > 0 ==> LowBits(o.chunkSize) > 0 && ChunkCountFor(o.totalSize, LowBits(o.chunkSize)) != MAX_U32)
    && |o.parts| <= MAX_PARTS && |o.fields| <= MAX_FIELDS
    && PartsAddUp(o.parts, o.totalSize)
    && (o.requestId == 0 <==> o.event == [])
    && (o.sha256 ==> !AllZero(o.checksum) && SHA256 in e.config.capabilities && SHA256 in Negotiated(e))
    && HEADER_BYTES + AnnouncementSize(o) <= e.config.maxFrameBytes
    && (e.remote.maxFrameBytes > 0 ==> HEADER_BYTES + AnnouncementSize(o) <= e.remote.maxFrameBytes)
  }

  // ---------------------------------------------------------------- the receiver

  /** The checks of `handleIncomingTransferBegin` on the announcement itself: the transfer it
      describes, if it passes all of them. Only the checksum bit of the flags is known. */
  function ReceiveBegin(e: Endpoint, requestId: u64, payload: Bytes): Option<TransferBegin> {
    if COMMIT !in e.config.capabilities || COMMIT !in Negotiated(e) then None
    else match DecodeBegin(payload)
      case None => None
      case Some(v) =>
        if v.totalSize > e.config.maxTransferBytes then None
        else if v.chunkSize == 0 || v.chunkSize > LowBits(e.config.maxChunkSize) then None
        else if v.chunkCount != ChunkCountFor(v.totalSize, v.chunkSize) then None
        else if v.flags > 1 then None
        else if v.flags == 1 && SHA256 !in Negotiated(e) then None
        else if !PartsAddUp(v.parts, v.totalSize) then None
        else if (requestId == 0) != (v.event == []) then None
        else Some(v)
  }

  // ---------------------------------------------------------------- agreement

  /** Both endpoints hold each other's Hello, each from a normalised configuration. */
  predicate Introduced(a: Endpoint, b: Endpoint) {
    && a.remote == HelloOf(b.config) && b.remote == HelloOf(a.config)
    && HelloAccepted(a.remote, b.config.role) && HelloAccepted(b.remote, a.config.role)
    && 1 <= a.config.maxChunkSize <= MAX_FRAME_BYTES && 1 <= b.config.maxChunkSize <= MAX_FRAME_BYTES
    && a.config.maxFrameBytes <= MAX_FRAME_BYTES
  }

  lemma NormalizedPeersIntroduced(a: Config, b: Config)
    requires HelloAccepted(HelloOf(Normalize(a)), a.role) && HelloAccepted(HelloOf(Normalize(b)), b.role)
    ensures Introduced(Endpoint(Normalize(a), HelloOf(Normalize(b))), Endpoint(Normalize(b), HelloOf(Normalize(a))))
  {
    hide Normalize;
    Normalized(a);
    Normalized(b);
  }

  lemma OptionsFit(a: Endpoint, b: Endpoint, o: Options)
    requires Introduced(a, b)
    ensures var n := NormalizeOptions(a, o);
      0 < n.chunkSize <= a.config.maxChunkSize && n.chunkSize <= b.config.maxChunkSize
          && LowBits(n.chunkSize) == n.chunkSize
  {
    assert a.remote.maxChunkSize == b.config.maxChunkSize;
  }

  lemma Announced(o: Options)
    requires o.totalSize == 0 || LowBits(o.chunkSize) > 0
    ensures BeginSize(Announcement(o)) == AnnouncementSize(o)
  {
    hide PartsSize, FieldsBlock, ChunkCountFor;
  }

  /** The receiver's checks, one by one, on an announcement that decodes to itself. */
  lemma ChecksPass(a: Endpoint, b: Endpoint, o: Options, payload: Bytes)
    requires Introduced(a, b) && OutgoingValid(a, o)
    requires LowBits(o.chunkSize) == o.chunkSize <= b.config.maxChunkSize
    requires DecodeBegin(payload) == Some(Announcement(o))
    ensures ReceiveBegin(b, o.requestId, payload) == Some(Announcement(o))
  {
    hide DecodeBegin, ChunkCountFor, PartsSize, FieldsBlock, PartsTotal, LowBits;
    assert LowBits(b.config.maxChunkSize) == b.config.maxChunkSize;
  }

  /** Whatever the sender normalised and accepted, the receiver accepts from the bytes on the
      wire, as exactly the transfer that was announced, and its chunk layout is well formed. */
  lemma BeginAgreed(a: Endpoint, b: Endpoint, wanted: Options)
    requires Introduced(a, b)
    requires OutgoingValid(a, NormalizeOptions(a, wanted))
    ensures var o := NormalizeOptions(a, wanted);
      && o.chunkSize > 0 && LowBits(o.chunkSize) > 0
      && EncodeBegin(Announcement(o)).Some?
      && ReceiveBegin(b, o.requestId, EncodeBegin(Announcement(o)).value) == Some(Announcement(o))
      && WellFormed(Meta(o.totalSize, LowBits(o.chunkSize), Announcement(o).chunkCount))
  {
    hide NormalizeOptions, EncodeBegin, DecodeBegin, ReceiveBegin, BeginSize, AnnouncementSize, LowBits, WellFormed,
         PartsTotal;
    OptionsFit(a, b, wanted);
    var o := NormalizeOptions(a, wanted);
    var v := Announcement(o);
    Announced(o);
    BeginRoundTrip(v);
    ChecksPass(a, b, o, EncodeBegin(v).value);
    WellFormedIff(Meta(o.totalSize, LowBits(o.chunkSize), v.chunkCount));
  }

  /** What an announcement must say to be taken: its size within the limit, a chunk size within the
      configured one, the number of chunks that size takes, no flag but the checksum and that only
      if both sides can check it, parts that add up, and an event exactly if it answers a request. */
  predicate Acceptable(e: Endpoint, requestId: u64, v: TransferBegin) {
    && COMMIT in e.config.capabilities && COMMIT in e.remote.capabilities
    && v.totalSize <= e.config.maxTransferBytes
    && 0 < v.chunkSize <= LowBits(e.config.maxChunkSize)
    && (WellFormed(Meta(v.totalSize, v.chunkSize, v.chunkCount))
        || (v.chunkCount == MAX_U32 && v.totalSize > (MAX_U32 - 1) * v.chunkSize))
    && (v.flags == 0
        || (v.flags == 1 && SHA256 in e.config.capabilities && SHA256 in e.remote.capabilities))
    && (v.parts == [] || PartsTotal(v.parts, |v.parts|) == v.totalSize)
    && (requestId == 0 <==> v.event == [])
  }

  /** The receiver takes the bytes of an announcement exactly if it is acceptable, and then as what
      was announced: everything else is refused. */
  lemma AnnouncementAcceptedIff(e: Endpoint, requestId: u64, v: TransferBegin)
    requires BeginSize(v) <= MAX_PAYLOAD && |v.parts| <= MAX_PARTS && |v.fields| <= MAX_FIELDS
    ensures EncodeBegin(v).Some?
    ensures ReceiveBegin(e, requestId, EncodeBegin(v).value) == if Acceptable(e, requestId, v) then Some(v) else None
  {
    hide EncodeBegin, DecodeBegin, BeginSize, PartsTotal, LowBits, WellFormed, ChunkCountFor;
    BeginRoundTrip(v);
    if v.chunkSize > 0 {
      CountRight(v.totalSize, v.chunkSize, v.chunkCount);
    }
  }

  /** The computed count is the right one, or the largest if the right one does not fit. */
  lemma CountRight(total: u64, size: u32, count: u32)
    requires size > 0
    ensures count == ChunkCountFor(total, size)
       <==> WellFormed(Meta(total, size, count)) || (count == MAX_U32 && total > (MAX_U32 - 1) * size)
  {
    hide Times, WellFormed;
    WellFormedIff(Meta(total, size, count));
    if total > 0 {
      QuotientAtLeast(total - 1, size, MAX_U32 - 1);
    }
  }

  lemma QuotientAtLeast(x: nat, size: nat, k: nat)
    requires size > 0
    ensures x / size >= k <==> x >= k * size
  {
    DivBounds(x, size);
    var q := x / size;
    if q >= k {
      assert q * size == k * size + (q - k) * size;
      NotNegative(q - k, size);
    } else {
      assert k * size == q * size + size + (k - q - 1) * size;
      NotNegative(k - q - 1, size);
    }
  }

  lemma NotNegative(a: nat, b: nat)
    ensures a * b >= 0
  {
  }

  /** A chunk size within both limits is kept, a missing one is 16 KiB, and one that is too large
      becomes the smaller limit. */
  lemma ChunkSizeChosen(e: Endpoint, o: Options)
    requires 0 < e.config.maxChunkSize < U32_SIZE && e.remote.maxChunkSize > 0
    ensures var wanted := if o.chunkSize <= 0 then 16384 else o.chunkSize;
      NormalizeOptions(e, o) == o.(chunkSize := Min(wanted, Min(e.config.maxChunkSize, e.remote.maxChunkSize)))
  {
  }

  /** The sender's own validation and the receiver's agree: with the chunk size chosen, a transfer
      is valid for the sender exactly if the receiver would take its announcement and it stays
      within what only the sender can check: its own limits, the number of chunks, the lists, the
      frame, and a checksum that is one. */
  lemma ValidIff(a: Endpoint, b: Endpoint, o: Options)
    requires Introduced(a, b) && 0 < o.chunkSize <= a.config.maxChunkSize && o.chunkSize <= b.config.maxChunkSize
    ensures LowBits(o.chunkSize) == o.chunkSize
    ensures OutgoingValid(a, o) <==>
      && Acceptable(b, o.requestId, Announcement(o))
      && {TRANSFERS, ACK} <= a.config.capabilities && {TRANSFERS, ACK} <= b.config.capabilities
      && o.totalSize <= a.config.maxTransferBytes
      && WellFormed(Meta(o.totalSize, o.chunkSize, Announcement(o).chunkCount))
      && |o.parts| <= 1024 && |o.fields| <= 1024
      && (o.sha256 ==> exists i :: 0 <= i < |o.checksum| && o.checksum[i] != 0)
      && HEADER_BYTES + AnnouncementSize(o) <= Min(a.config.maxFrameBytes, b.config.maxFrameBytes)
  {
    hide AnnouncementSize, PartsTotal, ChunkCountFor, WellFormed;
    assert LowBits(b.config.maxChunkSize) == b.config.maxChunkSize;
    WellFormedIff(Meta(o.totalSize, o.chunkSize, Announcement(o).chunkCount));
    CountRight(o.totalSize, o.chunkSize, Announcement(o).chunkCount);
    EmptyCount(o.chunkSize);
  }

  lemma EmptyCount(size: u32)
    ensures ChunkCountFor(0, size) == 0
  {
  }
}
