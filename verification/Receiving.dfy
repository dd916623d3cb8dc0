/** The receiving side of one transfer (`incomingTransfer`, incoming.go). The reader accepts
    chunks in order into a bounded queue; a second goroutine takes them out, writes them to the
    application's sink and only then acknowledges them; `TransferEnd` closes the queue, waits
    for that goroutine and commits. Each step between two lock operations is a function. */
module Receiving {
  import opened Base
  import opened Chunks
  import opened Sending

  /** The frames of one transfer, in both directions. A nack reason other than a missing chunk
      or flow control makes the sender give up, so those are one constructor. */
  datatype Msg =
    | Data(id: u32, payload: seq<byte>)
    | End
    | AckMsg(ack: Ack)
    | NackMsg(from: u32, to: u32, reason: NackReason)
    | WindowMsg(bytes: nat, chunks: nat)
    | CompletedMsg(received: nat, next: nat)
    | FailedMsg

  datatype Chunk = Chunk(id: u32, payload: seq<byte>)

  /** The writer goroutine: idle at the queue, holding a chunk not yet written, holding a chunk
      written but not yet counted, or gone (`tr.done` is closed). */
  datatype WriterPc = Waiting | Taken(chunk: Chunk) | Wrote(chunk: Chunk) | Stopped

  /** What became of the application's writer. */
  datatype Fate = Open | Committed | Abandoned

  /** `sink` is what the application's writer received, `hashed` what the running checksum
      covers, `accepting` whether the queue is open, `installed` whether the transfer is still
      found by its id. */
  datatype Receiver = Receiver(
    meta: Meta, capacity: nat,
    receivedBytes: u64, acceptedBytes: u64,
    firstChunk: u32, lastChunk: u32, nextChunk: u32, acceptedNextChunk: u32,
    queue: seq<Chunk>, accepting: bool, ending: bool, failed: bool, installed: bool,
    writer: WriterPc, sink: seq<byte>, hashed: seq<byte>, fate: Fate)

  function CurrentAck(r: Receiver): Msg {
    AckMsg(Ack(r.firstChunk, r.lastChunk, r.receivedBytes))
  }

  function Refuse(id: u32): Msg {
    NackMsg(id, id, Fatal)
  }

  // ---------------------------------------------------------------- the reader

  /** `handleIncomingTransferData`. `reserved` is the answer of the shared receive budget. */
  function OnData(r: Receiver, id: u32, payload: seq<byte>, reserved: bool): (Receiver, seq<Msg>) {
    if payload == [] || !r.installed then (r, [Refuse(id)])
    else if r.failed then (r, [])
    else if !r.accepting then (r, [Refuse(id)])
    else if id < r.nextChunk then (r, [CurrentAck(r)])
    else if id < r.acceptedNextChunk then (r, [])
    else if id > r.acceptedNextChunk then (r, [NackMsg(r.acceptedNextChunk, id - 1, MissingChunk)])
    else if id >= r.meta.chunkCount || |payload| > r.meta.chunkSize then (r, [Refuse(id)])
    else if |payload| != ExpectedSize(r.meta, id) then (r, [Refuse(id)])
    else if !reserved then (r, [NackMsg(id, id, FlowControl)])
    else if QueueFull(r) then (r, [NackMsg(id, id, FlowControl)])
    else (Accept(r, Chunk(id, payload)), [])
  }

  predicate QueueFull(r: Receiver) {
    |r.queue| >= r.capacity
  }

  function Accept(r: Receiver, c: Chunk): Receiver
    requires r.acceptedNextChunk < MAX_U32
  {
    r.(queue := r.queue + [c],
       acceptedBytes := AddU64(r.acceptedBytes, |c.payload|),
       acceptedNextChunk := r.acceptedNextChunk + 1)
  }

  predicate CompleteInput(r: Receiver) {
    r.acceptedBytes == r.meta.total && r.acceptedNextChunk == r.meta.chunkCount
  }

  /** `handleIncomingTransferEnd` up to the point where it waits for the writer. A repeated end
      frame waits for the first one and is then answered from the memory of finished transfers,
      unless that has forgotten. The end of the missing range is `ChunkCount - 1` in `uint32`;
      `chunk` is the chunk number of the end frame, which a sender leaves at zero. */
  function OnEnd(r: Receiver, chunk: u32, remembered: bool): (Receiver, seq<Msg>)
  {
    if r.installed && !CompleteInput(r) then
      (r, [NackMsg(r.acceptedNextChunk, ToU32(r.meta.chunkCount + MAX_U32), MissingChunk)])
    else if r.installed && !r.ending then (r.(ending := true, accepting := false), [])
    else if r.installed && r.fate == Open then (r, [])
    else if remembered && r.fate == Committed then (r, [CompletedMsg(r.receivedBytes, r.nextChunk)])
    else if remembered && r.fate == Abandoned then (r, [FailedMsg])
    else if r.installed then (r, [NackMsg(r.firstChunk, r.lastChunk, Fatal)])
    else (r, [Refuse(chunk)])
  }

  /** The wait was cut short by the session or the transfer being cancelled. */
  function AbortEnd(r: Receiver): Receiver {
    Stop(r).(fate := Abandoned)
  }

  /** The rest of it, once the writer is gone: every check, then the commit. `closeOk` is what
      the application's `Close` returned in time; `sha` and `checksum` model the SHA-256 check. */
  function FinishEnd(r: Receiver, closeOk: bool, sha: seq<byte> -> seq<byte>,
      checksum: Option<seq<byte>>): (Receiver, seq<Msg>) {
    if r.failed
       || (r.meta.total > 0 && r.receivedBytes != r.meta.total)
       || (checksum.Some? && sha(r.hashed) != checksum.value)
       || !closeOk
    then (r.(installed := false, fate := Abandoned), [FailedMsg, Refuse(r.firstChunk)])
    else (r.(installed := false, fate := Committed), [CompletedMsg(r.receivedBytes, r.nextChunk)])
  }

  // ---------------------------------------------------------------- the writer goroutine

  /** `runIncomingTransfer`: after a failure chunks are only released. */
  function Take(r: Receiver): Receiver
    requires r.queue != []
  {
    r.(queue := r.queue[1..], writer := if r.failed then Waiting else Taken(r.queue[0]))
  }

  /** The application's writer took `n` bytes and returned an error or not. */
  function Write(r: Receiver, n: nat, ok: bool): (Receiver, seq<Msg>)
    requires r.writer.Taken? && n <= |r.writer.chunk.payload|
  {
    var c := r.writer.chunk;
    var r' := r.(sink := r.sink + c.payload[..n]);
    if ok && n == |c.payload| then (r'.(writer := Wrote(c)), [])
    else (Stop(r'.(writer := Waiting)), [Refuse(c.id)])
  }

  /** The locked tail of `writeIncomingChunk`: counters move and the acknowledgement goes out,
      unless the transfer failed while the chunk was being written. */
  function CountWritten(r: Receiver): (Receiver, seq<Msg>)
    requires r.writer.Wrote?
  {
    var c := r.writer.chunk;
    if r.failed then (r.(writer := Waiting), [])
    else
      var r' := r.(writer := Waiting,
                   hashed := r.hashed + c.payload,
                   firstChunk := if r.receivedBytes == 0 then c.id else r.firstChunk,
                   lastChunk := c.id,
                   nextChunk := ToU32(c.id + 1),
                   receivedBytes := AddU64(r.receivedBytes, |c.payload|));
      (r', [CurrentAck(r')])
  }

  /** `stop`: a write error, a cancellation or the end of the session. */
  function Stop(r: Receiver): Receiver {
    r.(failed := true, accepting := false)
  }

  // ---------------------------------------------------------------- invariant

  /** Bytes of chunk `k` of a source. */
  function ChunkBytes(source: seq<byte>, m: Meta, k: nat): seq<byte>
    requires WellFormed(m) && |source| == m.total && k < m.chunkCount
  {
    NextOffset(m, k);
    source[Offset(m, k)..Offset(m, k + 1)]
  }

  /** The first `k` chunks of a source. */
  function Prefix(source: seq<byte>, m: Meta, k: nat): seq<byte>
    requires WellFormed(m) && |source| == m.total && k <= m.chunkCount
  {
    OffsetMonotone(m, k, m.chunkCount);
    source[..Offset(m, k)]
  }

  lemma PrefixExtends(source: seq<byte>, m: Meta, k: nat)
    requires WellFormed(m) && |source| == m.total && k < m.chunkCount
    ensures Prefix(source, m, k + 1) == Prefix(source, m, k) + ChunkBytes(source, m, k)
    ensures |ChunkBytes(source, m, k)| == Offset(m, k + 1) - Offset(m, k) > 0
    ensures Prefix(source, m, k + 1) <= source
    ensures |Prefix(source, m, k)| == Offset(m, k) && |Prefix(source, m, k + 1)| == Offset(m, k + 1)
  {
    NextOffset(m, k);
  }

  lemma PrefixWhole(source: seq<byte>, m: Meta)
    requires WellFormed(m) && |source| == m.total
    ensures Prefix(source, m, m.chunkCount) == source
    ensures Prefix(source, m, 0) == []
  {
  }

  predicate ChunkOk(source: seq<byte>, m: Meta, c: Chunk)
    requires WellFormed(m) && |source| == m.total
  {
    c.id < m.chunkCount && c.payload == ChunkBytes(source, m, c.id)
  }

  /** Chunks accepted but not yet counted, oldest first. */
  function InFlight(r: Receiver): seq<Chunk> {
    (if r.writer.Taken? || r.writer.Wrote? then [r.writer.chunk] else []) + r.queue
  }

  /** Counters sit on chunk boundaries, in order. */
  predicate OnBoundaries(r: Receiver) {
    && WellFormed(r.meta)
    && r.nextChunk <= r.acceptedNextChunk <= r.meta.chunkCount
    && r.receivedBytes == Offset(r.meta, r.nextChunk)
    && r.acceptedBytes == Offset(r.meta, r.acceptedNextChunk)
    && r.firstChunk == 0
    && (r.nextChunk > 0 ==> r.lastChunk == r.nextChunk - 1)
  }

  /** What the sink holds: always a prefix of the source, and for a transfer that did not fail
      the prefix the counters claim. */
  predicate SinkExact(source: seq<byte>, r: Receiver)
    requires WellFormed(r.meta) && |source| == r.meta.total
  {
    match r.writer
    case Taken(c) => ChunkOk(source, r.meta, c) && r.sink == Prefix(source, r.meta, c.id)
    case Wrote(c) => ChunkOk(source, r.meta, c) && r.sink == Prefix(source, r.meta, c.id + 1)
    case _ => r.sink <= source
  }

  /** Consecutive chunks of the source, from number `k` on. */
  predicate InLine(source: seq<byte>, m: Meta, chunks: seq<Chunk>, k: nat)
    requires WellFormed(m) && |source| == m.total
  {
    forall i :: 0 <= i < |chunks| ==> chunks[i].id == k + i && ChunkOk(source, m, chunks[i])
  }

  lemma InLineTail(source: seq<byte>, m: Meta, chunks: seq<Chunk>, k: nat)
    requires WellFormed(m) && |source| == m.total && chunks != []
    requires InLine(source, m, chunks, k)
    ensures InLine(source, m, chunks[1..], k + 1)
  {
  }

  /** Exactly the accepted chunks are in flight, in order and with the right bytes. */
  predicate PipelineExact(source: seq<byte>, r: Receiver)
    requires OnBoundaries(r) && |source| == r.meta.total
  {
    && |InFlight(r)| == r.acceptedNextChunk - r.nextChunk
    && InLine(source, r.meta, InFlight(r), r.nextChunk)
    && r.hashed == Prefix(source, r.meta, r.nextChunk)
    && (!r.writer.Wrote? ==> r.sink == Prefix(source, r.meta, r.nextChunk))
    && (!r.accepting ==> r.ending)
  }

  predicate Exact(source: seq<byte>, r: Receiver) {
    && OnBoundaries(r)
    && |source| == r.meta.total
    && SinkExact(source, r)
    && (!r.failed ==> PipelineExact(source, r))
    && |r.queue| <= r.capacity
    && (r.ending ==> r.acceptedNextChunk == r.meta.chunkCount && !r.accepting)
    && (r.writer.Stopped? ==> r.queue == [] && !r.accepting)
    && (r.fate == Committed ==> r.writer.Stopped? && r.sink == source && r.nextChunk == r.meta.chunkCount)
  }

  // ---------------------------------------------------------------- honest frames

  /** What every frame of a transfer says truthfully, given how far the two sides are: data is
      the source's, an acknowledgement covers only chunks that were written, a missing range
      is a range of chunks, and completion is announced only after the commit. */
  predicate MsgOk(source: seq<byte>, m: Meta, sent: nat, next: nat, committed: bool, msg: Msg)
    requires WellFormed(m) && |source| == m.total
  {
    match msg
    case Data(id, payload) => id < sent && ChunkOk(source, m, Chunk(id, payload))
    case AckMsg(a) => a.from == 0 && a.to < next <= m.chunkCount && a.bytes == Offset(m, a.to + 1)
    case NackMsg(from, to, reason) => from <= to && (reason == MissingChunk ==> to < m.chunkCount)
    case CompletedMsg(received, n) => committed && received == m.total && n == m.chunkCount
    case _ => true
  }

  predicate RepliesOk(source: seq<byte>, r: Receiver, sent: nat, msgs: seq<Msg>)
    requires WellFormed(r.meta) && |source| == r.meta.total
  {
    forall i :: 0 <= i < |msgs| ==> MsgOk(source, r.meta, sent, r.nextChunk, r.fate == Committed, msgs[i])
  }

  lemma AckOk(source: seq<byte>, r: Receiver, sent: nat)
    requires Exact(source, r) && r.nextChunk > 0
    ensures RepliesOk(source, r, sent, [CurrentAck(r)])
  {
    OffsetMonotone(r.meta, r.nextChunk, r.meta.chunkCount);
  }

  lemma AcceptExact(source: seq<byte>, r: Receiver, c: Chunk)
    requires Exact(source, r) && !r.failed && r.accepting && |r.queue| < r.capacity
    requires ChunkOk(source, r.meta, c) && c.id == r.acceptedNextChunk
    ensures Exact(source, Accept(r, c))
  {
    hide Offset, Prefix;
    var r' := Accept(r, c);
    PrefixExtends(source, r.meta, c.id);
    assert InFlight(r') == InFlight(r) + [c];
    assert PipelineExact(source, r');
  }

  /** The reader still takes data for this transfer. */
  predicate Live(r: Receiver) {
    r.installed && !r.failed && r.accepting
  }

  /** A nack that asks for chunk `k`. */
  predicate AsksFor(msg: Msg, k: nat) {
    msg.NackMsg? && msg.reason == MissingChunk && msg.from <= k <= msg.to
  }

  /** It asks for exactly the chunks from `lo` up to, not including, `hi`. */
  ghost predicate NamesExactly(msg: Msg, lo: nat, hi: nat) {
    forall k: nat :: AsksFor(msg, k) <==> lo <= k < hi
  }

  /** A data frame is accepted only in order, and every answer to it is truthful. A gap is answered
      with exactly the chunks it consists of, and nothing else is asked for. */
  lemma DataExact(source: seq<byte>, r: Receiver, id: u32, payload: seq<byte>, reserved: bool, sent: nat)
    requires Exact(source, r)
    requires id < sent && ChunkOk(source, r.meta, Chunk(id, payload))
    ensures var (r', msgs) := OnData(r, id, payload, reserved);
      && Exact(source, r') && RepliesOk(source, r', sent, msgs)
      && r'.meta == r.meta && r'.nextChunk == r.nextChunk && r'.fate == r.fate
      && (r'.acceptedNextChunk == r.acceptedNextChunk || r'.acceptedNextChunk == id + 1)
      && (Live(r) && id > r.acceptedNextChunk ==> |msgs| == 1 && NamesExactly(msgs[0], r.acceptedNextChunk, id))
      && (forall m, k: nat :: m in msgs && AsksFor(m, k) ==> Live(r) && id > r.acceptedNextChunk)
  {
    OffsetStep(r.meta, id);
    var (r', msgs) := OnData(r, id, payload, reserved);
    if r' != r {
      AcceptExact(source, r, Chunk(id, payload));
    }
    if msgs == [CurrentAck(r)] {
      AckOk(source, r, sent);
    }
  }

  /** The other answers to a data frame with the source's bytes. A live receiver takes the next
      chunk exactly if budget and queue have room, and asks for a pause otherwise; a chunk already
      written is acknowledged with the counters of now, one still on its way is passed over. A
      receiver that failed is silent, and one that takes no more data refuses. */
  lemma DataAnswers(source: seq<byte>, r: Receiver, id: u32, payload: seq<byte>, reserved: bool)
    requires Exact(source, r) && ChunkOk(source, r.meta, Chunk(id, payload)) && id <= r.acceptedNextChunk
    ensures var (r', msgs) := OnData(r, id, payload, reserved); var room := reserved && |r.queue| < r.capacity;
      && (Live(r) && id == r.acceptedNextChunk && room ==>
            && msgs == [] && r'.acceptedNextChunk == id + 1 && r'.acceptedBytes == Offset(r.meta, id + 1)
            && r'.queue == r.queue + [Chunk(id, payload)])
      && (Live(r) && id == r.acceptedNextChunk && !room ==> r' == r && msgs == [NackMsg(id, id, FlowControl)])
      && (Live(r) && id < r.nextChunk ==>
            r' == r && msgs == [AckMsg(Ack(0, r.nextChunk - 1, Offset(r.meta, r.nextChunk)))])
      && (Live(r) && r.nextChunk <= id < r.acceptedNextChunk ==> r' == r && msgs == [])
      && (!Live(r) ==> r' == r && msgs == if r.installed && r.failed then [] else [NackMsg(id, id, Fatal)])
  {
    OffsetStep(r.meta, id);
    OffsetMonotone(r.meta, id + 1, r.meta.chunkCount);
  }

  /** The next chunk with any other length than its place in the source has is refused for good,
      and so is one past the end. */
  lemma WrongDataRefused(r: Receiver, id: u32, payload: seq<byte>, reserved: bool)
    requires OnBoundaries(r) && Live(r) && id == r.acceptedNextChunk
    requires id < r.meta.chunkCount ==> |payload| != Offset(r.meta, id + 1) - Offset(r.meta, id)
    ensures OnData(r, id, payload, reserved) == (r, [NackMsg(id, id, Fatal)])
  {
    if id < r.meta.chunkCount {
      OffsetStep(r.meta, id);
    }
  }

  lemma TakeExact(source: seq<byte>, r: Receiver)
    requires Exact(source, r) && r.writer.Waiting? && r.queue != []
    ensures Exact(source, Take(r))
  {
    var r' := Take(r);
    if !r.failed {
      assert InFlight(r') == InFlight(r);
      assert InFlight(r)[0] == r.queue[0];
      assert PipelineExact(source, r');
    }
  }

  lemma WroteExact(source: seq<byte>, r: Receiver)
    requires Exact(source, r) && r.writer.Taken?
    ensures Exact(source, Write(r, |r.writer.chunk.payload|, true).0)
  {
    var c := r.writer.chunk;
    PrefixExtends(source, r.meta, c.id);
    assert c.payload[..|c.payload|] == c.payload;
    if !r.failed {
      assert InFlight(r.(writer := Wrote(c))) == InFlight(r);
      assert InFlight(r)[0] == c;
    }
  }

  /** A full write leaves the chunk to be counted; a short or failed one ends the transfer and
      tells the sender which chunk it was. The sink gets what was written. */
  lemma WriteExact(source: seq<byte>, r: Receiver, n: nat, ok: bool, sent: nat)
    requires Exact(source, r) && r.writer.Taken? && n <= |r.writer.chunk.payload|
    ensures var (r', msgs) := Write(r, n, ok); var c := r.writer.chunk;
      && Exact(source, r') && RepliesOk(source, r', sent, msgs)
      && r'.sink == r.sink + c.payload[..n]
      && (ok && n == |c.payload| ==> r'.writer == Wrote(c) && r'.failed == r.failed && msgs == [])
      && (!ok || n < |c.payload| ==>
            r'.writer == Waiting && r'.failed && !r'.accepting && msgs == [NackMsg(c.id, c.id, Fatal)])
  {
    if ok && n == |r.writer.chunk.payload| {
      WroteExact(source, r);
    } else {
      WriteIsPrefix(source, r, n);
    }
  }

  lemma WriteIsPrefix(source: seq<byte>, r: Receiver, n: nat)
    requires Exact(source, r) && r.writer.Taken? && n <= |r.writer.chunk.payload|
    ensures r.sink + r.writer.chunk.payload[..n] <= source
  {
    var c := r.writer.chunk;
    PrefixExtends(source, r.meta, c.id);
    OffsetMonotone(r.meta, c.id + 1, r.meta.chunkCount);
  }

  /** A written chunk is counted and acknowledged with all before it, unless the transfer failed
      meanwhile; either way the goroutine goes back to its queue. */
  lemma CountExact(source: seq<byte>, r: Receiver, sent: nat)
    requires Exact(source, r) && r.writer.Wrote?
    ensures !r.failed ==>
      r.writer.chunk.id == r.nextChunk && r.receivedBytes + |r.writer.chunk.payload| <= r.meta.total
    ensures var (r', msgs) := CountWritten(r);
      && Exact(source, r') && RepliesOk(source, r', sent, msgs)
      && r'.writer == Waiting && r'.nextChunk == (if r.failed then r.nextChunk else r.nextChunk + 1)
      && (r.failed ==> r' == r.(writer := Waiting) && msgs == [])
      && (!r.failed ==> msgs == [AckMsg(Ack(0, r.nextChunk, Offset(r.meta, r'.nextChunk)))])
  {
    var c := r.writer.chunk;
    PrefixExtends(source, r.meta, c.id);
    OffsetMonotone(r.meta, c.id + 1, r.meta.chunkCount);
    if !r.failed {
      assert InFlight(r)[0] == c;
      CountedExact(source, r);
      AckOk(source, CountWritten(r).0, sent);
    }
  }

  lemma CountedOnBoundaries(r: Receiver)
    requires OnBoundaries(r) && r.writer.Wrote? && !r.failed && r.writer.chunk.id == r.nextChunk < r.acceptedNextChunk
    requires |r.writer.chunk.payload| == Offset(r.meta, r.nextChunk + 1) - Offset(r.meta, r.nextChunk)
    ensures OnBoundaries(CountWritten(r).0)
  {
    OffsetMonotone(r.meta, r.nextChunk + 1, r.meta.chunkCount);
    if r.nextChunk > 0 {
      OffsetMonotone(r.meta, 0, r.nextChunk);
    }
  }

  lemma CountedExact(source: seq<byte>, r: Receiver)
    requires Exact(source, r) && r.writer.Wrote? && !r.failed
    ensures Exact(source, CountWritten(r).0)
    ensures CountWritten(r).0.nextChunk == r.nextChunk + 1
  {
    var c := r.writer.chunk;
    var r' := CountWritten(r).0;
    assert InFlight(r)[0] == c;
    PrefixExtends(source, r.meta, c.id);
    CountedOnBoundaries(r);
    assert InFlight(r') == InFlight(r)[1..];
    InLineTail(source, r.meta, InFlight(r), r.nextChunk);
    assert PipelineExact(source, r');
  }

  /** The commit is reached only with the whole source written, so neither the byte count nor a
      checksum of the source can be found wrong: it happens exactly if the receiver did not fail,
      the announced checksum is the source's and the application's `Close` succeeds. Either way the
      sender is told. */
  lemma FinishExact(source: seq<byte>, r: Receiver, closeOk: bool, sha: seq<byte> -> seq<byte>,
      checksum: Option<seq<byte>>, sent: nat)
    requires Exact(source, r) && r.ending && r.writer.Stopped? && r.fate == Open
    ensures var (r', msgs) := FinishEnd(r, closeOk, sha, checksum);
      Exact(source, r') && RepliesOk(source, r', sent, msgs)
    ensures !r.failed ==> r.receivedBytes == r.meta.total && r.hashed == source && r.sink == source
    ensures var (r', msgs) := FinishEnd(r, closeOk, sha, checksum);
      var commits := !r.failed && closeOk && (checksum.Some? ==> checksum.value == sha(source));
      && r'.fate == (if commits then Committed else Abandoned) && !r'.installed
      && msgs == if commits then [CompletedMsg(r.meta.total, r.meta.chunkCount)] else [FailedMsg, NackMsg(0, 0, Fatal)]
  {
    if !r.failed {
      assert InFlight(r) == [];
      PrefixWhole(source, r.meta);
    }
  }

  /** An end frame that comes before the last chunk is answered with exactly the chunks not yet
      accepted; the range is never empty or wrapped around. With all of them accepted it closes
      the queue for the commit. */
  lemma EndExact(source: seq<byte>, r: Receiver, chunk: u32, remembered: bool, sent: nat)
    requires Exact(source, r)
    ensures var (r', msgs) := OnEnd(r, chunk, remembered);
      && Exact(source, r') && RepliesOk(source, r', sent, msgs)
      && (r.installed && r.acceptedNextChunk < r.meta.chunkCount ==>
            r' == r && |msgs| == 1 && NamesExactly(msgs[0], r.acceptedNextChunk, r.meta.chunkCount))
      && (forall m, k: nat :: m in msgs && AsksFor(m, k) ==>
            r.installed && r.acceptedNextChunk < r.meta.chunkCount)
      && (r.installed && r.acceptedNextChunk == r.meta.chunkCount && !r.ending ==>
            r'.ending && !r'.accepting && msgs == [])
  {
    hide InLine;
    if r.installed && !CompleteInput(r) {
      MissingRange(r);
    } else {
      hide PipelineExact, SinkExact;
      if !r.failed {
        EndPipeline(source, r);
      }
    }
  }

  /** Whatever a receiver went through, it commits only if it did not fail, got as many bytes as
      were announced, found the announced checksum and closed the application's writer. */
  lemma CommitGuarded(r: Receiver, closeOk: bool, sha: seq<byte> -> seq<byte>, checksum: Option<seq<byte>>)
    requires r.fate == Open
    ensures FinishEnd(r, closeOk, sha, checksum).0.fate == Committed <==>
      && !r.failed && closeOk
      && (r.meta.total == 0 || r.receivedBytes == r.meta.total)
      && (checksum.None? || sha(r.hashed) == checksum.value)
  {
  }

  /** An end frame that comes again, or late. While the first one is being dealt with there is no
      answer; after that the verdict is repeated as long as it is remembered, and a forgotten
      transfer is refused. A commit that was given up counts as a failure. */
  lemma EndAgain(source: seq<byte>, r: Receiver, chunk: u32, remembered: bool)
    requires Exact(source, r) && (r.installed ==> r.ending)
    ensures var (r', msgs) := OnEnd(r, chunk, remembered);
      && r' == r
      && (r.installed && r.fate == Open ==> msgs == [])
      && (remembered && r.fate == Committed ==> msgs == [CompletedMsg(r.meta.total, r.meta.chunkCount)])
      && (remembered && r.fate == Abandoned ==> msgs == [FailedMsg])
      && (!remembered && (r.installed ==> r.fate != Open) ==>
            |msgs| == 1 && msgs[0].NackMsg? && msgs[0].reason == Fatal)
      && (!remembered && !r.installed ==> msgs == [NackMsg(chunk, chunk, Fatal)])
    ensures r.installed && r.fate == Open ==> OnEnd(AbortEnd(r), chunk, true).1 == [FailedMsg]
  {
    hide PipelineExact, SinkExact;
    if r.ending {
      assert r.acceptedBytes == r.meta.total;
    }
  }

  /** With input missing, the first chunk not accepted is at most the last one. */
  lemma MissingRange(r: Receiver)
    requires OnBoundaries(r) && !CompleteInput(r)
    ensures r.acceptedNextChunk <= ToU32(r.meta.chunkCount + MAX_U32) == r.meta.chunkCount - 1
  {
    assert r.acceptedNextChunk < r.meta.chunkCount;
    assert r.meta.chunkCount + MAX_U32 == (r.meta.chunkCount - 1) + U32_SIZE;
    assert ToU32(r.meta.chunkCount + MAX_U32) == r.meta.chunkCount - 1;
  }

  lemma EndPipeline(source: seq<byte>, r: Receiver)
    requires OnBoundaries(r) && |source| == r.meta.total && SinkExact(source, r) && PipelineExact(source, r)
    ensures var e := r.(ending := true, accepting := false); SinkExact(source, e) && PipelineExact(source, e)
  {
    assert InFlight(r.(ending := true, accepting := false)) == InFlight(r);
  }

  lemma StopExact(source: seq<byte>, r: Receiver)
    requires Exact(source, r)
    ensures Exact(source, Stop(r))
    ensures r.fate != Committed ==> Exact(source, AbortEnd(r))
  {
  }

  lemma StopsExact(source: seq<byte>, r: Receiver)
    requires Exact(source, r) && r.writer.Waiting? && r.queue == [] && !r.accepting
    ensures Exact(source, r.(writer := Stopped))
  {
    assert InFlight(r) == InFlight(r.(writer := Stopped));
  }
}
