/** The sending side of one transfer (`outgoingTransfer`, session.go): a window of unacknowledged
    chunks, byte counters, the peer's window, retry counts and the commit phase. Every operation
    that the code runs under the transfer's lock is a function on `Sender` values; module
    `Outgoing` refines them with the object the code updates in place. */
module Sending {
  import opened Base
  import opened Chunks

  datatype SentChunk = SentChunk(id: u32, payload: seq<byte>, sentAt: int, retries: nat)

  datatype Limits = Limits(ackTimeout: int, retryLimit: nat, maxInFlight: nat, maxInFlightBytes: nat)

  /** The peer's flow-control window; `known` is `hasRemoteWindow`. */
  datatype Window = Window(known: bool, bytes: nat, chunks: nat)

  datatype Ack = Ack(from: u32, to: u32, bytes: u64)

  datatype NackReason = MissingChunk | FlowControl | Fatal

  /** `written` and `chunkId` are the local variables of `sendTransferBody`; `started` says that
      it runs, which for a resumed transfer is after the peer's decision. */
  datatype Sender = Sender(
    meta: Meta, limits: Limits,
    pending: seq<SentChunk>, pendingBytes: nat, window: Window, ackedBytes: nat,
    doneSending: bool, completed: bool, commitSentAt: Option<int>, commitRetries: nat,
    failed: bool, started: bool, written: nat, chunkId: nat)

  // ---------------------------------------------------------------- registering a transfer

  /** `registerOutgoing`: the requested window, clamped to the peer's queue. The comparison is
      made on `uint32(maxInFlight)`, as in the code. */
  function ClampInFlight(maxInFlight: nat, remoteMaxInFlight: u32): nat {
    if remoteMaxInFlight > 0 && ToU32(maxInFlight) > remoteMaxInFlight then remoteMaxInFlight else maxInFlight
  }

  /** The clamp keeps the window within the peer's queue unless the request has low 32 bits
      that hide its size; a request below 2^32 never does. */
  lemma ClampRespectsPeerIff(maxInFlight: nat, remote: u32)
    requires remote > 0
    ensures ClampInFlight(maxInFlight, remote) <= remote
       <==> maxInFlight <= remote || maxInFlight % U32_SIZE > remote
    ensures maxInFlight < U32_SIZE ==> ClampInFlight(maxInFlight, remote) <= remote
  {
    assert maxInFlight < U32_SIZE ==> maxInFlight % U32_SIZE == maxInFlight;
  }

  /** A request of exactly 2^32 chunks slips through. */
  lemma ClampCounterexample()
    ensures ClampInFlight(U32_SIZE, 16) > 16
  {
    assert U32_SIZE % U32_SIZE == 0;
  }

  // ---------------------------------------------------------------- the sending loop

  /** Payload bytes of the first `n` chunks of a window. */
  function SumTo(p: seq<SentChunk>, n: nat): nat
    requires n <= |p|
  {
    if n == 0 then 0 else SumTo(p, n - 1) + |p[n - 1].payload|
  }

  function SumBytes(p: seq<SentChunk>): nat {
    SumTo(p, |p|)
  }

  /** The condition on which `sendReliableChunk` waits. */
  predicate WindowFull(s: Sender, n: nat) {
    || |s.pending| >= s.limits.maxInFlight
    || s.pendingBytes + n > s.limits.maxInFlightBytes
    || (s.window.known && (s.window.bytes < n || s.window.chunks == 0))
  }

  function ReadSize(s: Sender): nat
    requires s.written <= s.meta.total
  {
    Min(s.meta.chunkSize, s.meta.total - s.written)
  }

  /** The guard of one turn of `sendTransferBody` that gets past the wait. */
  predicate CanSend(s: Sender) {
    s.started && !s.doneSending && !s.failed && s.written < s.meta.total && !WindowFull(s, ReadSize(s))
  }

  function SendChunk(s: Sender, payload: seq<byte>, now: int): Sender
    requires CanSend(s) && |payload| == ReadSize(s)
    requires s.chunkId < U32_SIZE
  {
    s.(pending := s.pending + [SentChunk(s.chunkId, payload, now, 0)],
       pendingBytes := s.pendingBytes + |payload|,
       window := if s.window.known
                 then Window(true, s.window.bytes - |payload|, s.window.chunks - 1)
                 else s.window,
       written := s.written + |payload|,
       chunkId := s.chunkId + 1)
  }

  predicate CanFinish(s: Sender) {
    s.started && !s.doneSending && !s.failed && s.written >= s.meta.total
  }

  /** `TransferEnd` is sent right after the last chunk, before any of it is acknowledged. */
  function FinishSending(s: Sender, now: int): Sender {
    s.(doneSending := true, commitSentAt := Some(now))
  }

  /** The exit test of `waitOutgoingAcked`: the transfer returns success. */
  predicate Succeeded(s: Sender) {
    s.doneSending && s.pending == [] && s.completed && !s.failed
  }

  function Fail(s: Sender): Sender {
    s.(failed := true)
  }

  function ReceiveWindow(s: Sender, bytes: nat, chunks: nat): Sender {
    s.(window := Window(true, bytes, chunks))
  }

  // ---------------------------------------------------------------- acknowledgements

  predicate InRange(c: SentChunk, from: u32, to: u32) {
    from <= c.id <= to
  }

  /** What is left of the first `n` chunks after an acknowledgement of `from .. to`. */
  function Outside(p: seq<SentChunk>, from: u32, to: u32, n: nat): seq<SentChunk>
    requires n <= |p|
  {
    if n == 0 then []
    else
      Outside(p, from, to, n - 1) + if InRange(p[n - 1], from, to) then [] else [p[n - 1]]
  }

  function InsideBytes(p: seq<SentChunk>, from: u32, to: u32, n: nat): nat
    requires n <= |p|
  {
    if n == 0 then 0
    else
      InsideBytes(p, from, to, n - 1) + if InRange(p[n - 1], from, to) then |p[n - 1].payload| else 0
  }

  predicate Matched(p: seq<SentChunk>, from: u32, to: u32, n: nat)
    requires n <= |p|
  {
    exists i :: 0 <= i < n && InRange(p[i], from, to)
  }

  function SaturatingSub(a: nat, b: nat): nat {
    if a >= b then a - b else 0
  }

  /** `HandleAck` followed by `applyAck`; the flag is whether it returned nil. An error also
      fails the session, which fails the transfer (`Run` calls `failOutgoing`). */
  function ApplyAck(s: Sender, a: Ack): (Sender, bool) {
    if a.from > a.to || a.to >= s.meta.chunkCount || a.bytes < s.ackedBytes || a.bytes > s.meta.total then
      (s, false)
    else
      var inside := InsideBytes(s.pending, a.from, a.to, |s.pending|);
      var s' := s.(pending := Outside(s.pending, a.from, a.to, |s.pending|),
                   pendingBytes := SaturatingSub(s.pendingBytes, inside),
                   ackedBytes := s.ackedBytes + inside);
      if Matched(s.pending, a.from, a.to, |s.pending|) then
        if a.bytes != s'.ackedBytes then (Fail(s'), false) else (s', true)
      else
        (s', a.bytes <= s'.ackedBytes)
  }

  // ---------------------------------------------------------------- retransmission

  /** Which chunks a retransmission pass picks: those a nack names, or those whose
      acknowledgement timeout has expired. */
  datatype Pick = Named(from: u32, to: u32) | Expired(now: int, timeout: int)

  predicate Picks(k: Pick, c: SentChunk) {
    match k
    case Named(from, to) => InRange(c, from, to)
    case Expired(now, timeout) => c.sentAt + timeout - now <= 0
  }

  /** Index of the first picked chunk without retries left, where both loops stop. */
  function FirstExhausted(p: seq<SentChunk>, k: Pick, limit: nat, from: nat): (n: nat)
    requires from <= |p|
    ensures from <= n <= |p|
    ensures forall i :: from <= i < n && Picks(k, p[i]) ==> p[i].retries < limit
    ensures n < |p| ==> Picks(k, p[n]) && p[n].retries >= limit
    decreases |p| - from
  {
    if from == |p| || (Picks(k, p[from]) && p[from].retries >= limit) then from
    else FirstExhausted(p, k, limit, from + 1)
  }

  function Bump(c: SentChunk, now: int): SentChunk {
    c.(retries := c.retries + 1, sentAt := now)
  }

  /** The window after a pass that got as far as index `n`. */
  function Retried(p: seq<SentChunk>, k: Pick, n: nat, now: int): (q: seq<SentChunk>)
    requires n <= |p|
    ensures |q| == |p|
    ensures forall i :: 0 <= i < |p| ==> q[i] == if i < n && Picks(k, p[i]) then Bump(p[i], now) else p[i]
  {
    if n == 0 then p
    else
      var q := Retried(p, k, n - 1, now);
      if Picks(k, p[n - 1]) then q[n - 1 := Bump(p[n - 1], now)] else q
  }

  /** The picked ones among the first `n` chunks. */
  function Picked(p: seq<SentChunk>, k: Pick, n: nat): seq<SentChunk>
    requires n <= |p|
  {
    if n == 0 then [] else Picked(p, k, n - 1) + if Picks(k, p[n - 1]) then [p[n - 1]] else []
  }

  /** The chunks picked by one turn of the loop more. */
  lemma PickedStep(p: seq<SentChunk>, k: Pick, i: nat)
    requires i < |p|
    ensures Picked(p, k, i + 1) == if Picks(k, p[i]) then Picked(p, k, i) + [p[i]] else Picked(p, k, i)
  {
  }

  /** `resend` lists the chunks put on the wire, `resendEnd` says that `TransferEnd` is too. */
  datatype Retransmission = Retransmission(sender: Sender, resend: seq<SentChunk>, resendEnd: bool, ok: bool)

  function RetryPass(s: Sender, k: Pick, now: int): Retransmission {
    var n := FirstExhausted(s.pending, k, s.limits.retryLimit, 0);
    var s' := s.(pending := Retried(s.pending, k, n, now));
    if n < |s.pending| then Retransmission(Fail(s'), [], false, false)
    else Retransmission(s', Picked(s.pending, k, n), false, true)
  }

  /** `HandleNack` followed by `applyNack`. */
  function ApplyNack(s: Sender, from: u32, to: u32, reason: NackReason, now: int): Retransmission {
    if from > to then Retransmission(s, [], false, false)
    else
      match reason
      case Fatal => Retransmission(Fail(s), [], false, true)
      case FlowControl => Retransmission(s.(window := Window(true, 0, 0)), [], false, true)
      case MissingChunk => RetryPass(s, Named(from, to), now)
  }

  predicate AwaitsCommit(s: Sender) {
    s.doneSending && !s.completed && s.commitSentAt.Some?
  }

  predicate CommitExpired(s: Sender, now: int) {
    AwaitsCommit(s) && s.commitSentAt.value + s.limits.ackTimeout - now <= 0
  }

  predicate Idle(s: Sender) {
    s.failed || (s.doneSending && s.pending == [] && s.completed)
  }

  function ScanCommit(s: Sender, now: int): Sender {
    if !CommitExpired(s, now) then s
    else if s.commitRetries >= s.limits.retryLimit then Fail(s)
    else s.(commitRetries := s.commitRetries + 1, commitSentAt := Some(now))
  }

  /** One transfer's share of `processOutgoingTimeouts`. Frames are sent after the pass, and only
      if it left the transfer unfailed. */
  function Scan(s: Sender, now: int): Retransmission {
    if Idle(s) then Retransmission(s, [], false, true)
    else
      var s1 := ScanCommit(s, now);
      if s1.failed then Retransmission(s1, [], false, true)
      else
        var r := RetryPass(s1, Expired(now, s.limits.ackTimeout), now);
        r.(resendEnd := r.ok && CommitExpired(s, now), ok := true)
  }

  // ---------------------------------------------------------------- peer's verdict

  /** A `Completed` state; wrong counters fail the transfer. */
  function ReceiveCompleted(s: Sender, bytes: nat, next: nat): (Sender, bool) {
    if bytes != s.meta.total || next != s.meta.chunkCount then (Fail(s), false)
    else (s.(completed := true), true)
  }

  /** A `ResumeAccepted` state overwrites the acknowledged counter without looking at what was
      sent; the first one also starts the sending loop at the agreed chunk. */
  function ReceiveResumeAccepted(s: Sender, bytes: u64, next: u32): (Sender, bool) {
    if TransferOffsetForChunk(s.meta.total, s.meta.chunkSize, next) != Some(bytes) then (Fail(s), false)
    else if s.started then (s.(ackedBytes := bytes), true)
    else (s.(ackedBytes := bytes, started := true, written := bytes, chunkId := next), true)
  }

  // ---------------------------------------------------------------- invariants

  predicate RetriesWithin(p: seq<SentChunk>, limit: nat) {
    forall i :: 0 <= i < |p| ==> p[i].retries <= limit
  }

  /** Byte and retry counters agree with the window, and the window respects its limits. */
  predicate Counters(s: Sender) {
    && RetriesWithin(s.pending, s.limits.retryLimit)
    && s.commitRetries <= s.limits.retryLimit
    && s.pendingBytes == SumBytes(s.pending)
    && s.ackedBytes + s.pendingBytes == s.written
    && |s.pending| <= s.limits.maxInFlight
    && s.pendingBytes <= s.limits.maxInFlightBytes
    && (!s.started ==> s.pending == [])
    && (s.doneSending ==> s.written >= s.meta.total)
  }

  /** The sending loop stands at the start of chunk `chunkId`. */
  predicate Position(s: Sender) {
    && WellFormed(s.meta)
    && s.chunkId <= s.meta.chunkCount
    && s.written == Offset(s.meta, s.chunkId)
    && (!s.started ==> s.chunkId == 0)
  }

  predicate SamePosition(s: Sender, s': Sender) {
    s'.meta == s.meta && s'.limits == s.limits && s'.chunkId == s.chunkId && s'.written == s.written
        && s'.started == s.started
  }

  /** What holds whatever frames arrive, honest or not. */
  predicate Accounting(s: Sender) {
    Counters(s) && Position(s)
  }

  // ---------------------------------------------------------------- lemmas about the window

  /** Two windows with the same payload lengths hold the same number of bytes. */
  lemma {:induction false} SumToEqual(p: seq<SentChunk>, q: seq<SentChunk>, n: nat)
    requires n <= |p| && n <= |q|
    requires forall i :: 0 <= i < n ==> p[i].payload == q[i].payload
    ensures SumTo(p, n) == SumTo(q, n)
  {
    if n == 0 {
    } else {
      SumToEqual(p, q, n - 1);
    }
  }

  lemma SumAppend(p: seq<SentChunk>, c: SentChunk)
    ensures SumBytes(p + [c]) == SumBytes(p) + |c.payload|
  {
    SumToEqual(p, p + [c], |p|);
  }

  /** An acknowledgement splits the window: nothing is counted twice and nothing is lost. */
  lemma {:induction false} AckSplits(p: seq<SentChunk>, from: u32, to: u32, n: nat)
    requires n <= |p|
    ensures SumTo(p, n) == SumBytes(Outside(p, from, to, n)) + InsideBytes(p, from, to, n)
    ensures |Outside(p, from, to, n)| <= n
    ensures !Matched(p, from, to, n) ==> InsideBytes(p, from, to, n) == 0 && Outside(p, from, to, n) == p[..n]
  {
    if n == 0 {
    } else {
      AckSplits(p, from, to, n - 1);
      var rest := Outside(p, from, to, n - 1);
      if InRange(p[n - 1], from, to) {
        assert Matched(p, from, to, n);
        assert Outside(p, from, to, n) == rest;
      } else {
        SumAppend(rest, p[n - 1]);
        assert p[..n] == p[..n - 1] + [p[n - 1]];
      }
    }
  }

  lemma {:induction false} OutsideRetries(p: seq<SentChunk>, from: u32, to: u32, limit: nat, n: nat)
    requires n <= |p| && RetriesWithin(p, limit)
    ensures RetriesWithin(Outside(p, from, to, n), limit)
  {
    if n == 0 {
    } else {
      OutsideRetries(p, from, to, limit, n - 1);
    }
  }

  /** A chunk moves the loop to the start of the next one. */
  lemma PositionSend(s: Sender, payload: seq<byte>, now: int)
    requires Position(s) && CanSend(s) && |payload| == ReadSize(s)
    ensures s.chunkId < s.meta.chunkCount
    ensures Position(SendChunk(s, payload, now))
  {
    NextOffset(s.meta, s.chunkId);
  }

  lemma CountersSend(s: Sender, payload: seq<byte>, now: int)
    requires Counters(s) && CanSend(s) && |payload| == ReadSize(s) && s.chunkId < U32_SIZE
    ensures Counters(SendChunk(s, payload, now))
  {
    SumAppend(s.pending, SentChunk(s.chunkId, payload, now, 0));
  }

  /** Any acknowledgement, honest or not, leaves the counters consistent; one that is accepted
      states exactly the bytes acknowledged so far, and one that names no chunk of the window
      changes nothing. */
  lemma CountersAck(s: Sender, a: Ack)
    requires Counters(s)
    ensures Counters(ApplyAck(s, a).0) && SamePosition(s, ApplyAck(s, a).0)
    ensures ApplyAck(s, a).1 ==> ApplyAck(s, a).0.ackedBytes == a.bytes
    ensures (forall i :: 0 <= i < |s.pending| ==> !(a.from <= s.pending[i].id <= a.to)) ==> ApplyAck(s, a).0 == s
  {
    AckSplits(s.pending, a.from, a.to, |s.pending|);
    OutsideRetries(s.pending, a.from, a.to, s.limits.retryLimit, |s.pending|);
  }

  lemma RetriedKeeps(p: seq<SentChunk>, k: Pick, n: nat, now: int, limit: nat)
    requires n <= |p| && RetriesWithin(p, limit)
    requires forall i :: 0 <= i < n && Picks(k, p[i]) ==> p[i].retries < limit
    ensures RetriesWithin(Retried(p, k, n, now), limit)
    ensures SumBytes(Retried(p, k, n, now)) == SumBytes(p)
  {
    SumToEqual(p, Retried(p, k, n, now), |p|);
  }

  lemma CountersRetryPass(s: Sender, k: Pick, now: int)
    requires Counters(s)
    ensures Counters(RetryPass(s, k, now).sender) && SamePosition(s, RetryPass(s, k, now).sender)
  {
    var n := FirstExhausted(s.pending, k, s.limits.retryLimit, 0);
    RetriedKeeps(s.pending, k, n, now, s.limits.retryLimit);
    var q := Retried(s.pending, k, n, now);
    assert Counters(s.(pending := q));
  }

  lemma CountersNack(s: Sender, from: u32, to: u32, reason: NackReason, now: int)
    requires Counters(s)
    ensures var s' := ApplyNack(s, from, to, reason, now).sender; Counters(s') && SamePosition(s, s')
  {
    CountersRetryPass(s, Named(from, to), now);
  }

  lemma CountersScan(s: Sender, now: int)
    requires Counters(s)
    ensures Counters(Scan(s, now).sender) && SamePosition(s, Scan(s, now).sender)
  {
    if !Idle(s) && !ScanCommit(s, now).failed {
      CountersRetryPass(ScanCommit(s, now), Expired(now, s.limits.ackTimeout), now);
    }
  }

  lemma PositionKept(s: Sender, s': Sender)
    requires Position(s) && SamePosition(s, s')
    ensures Position(s')
  {
  }

  /** The unguarded overwrite is harmless exactly when the loop has not started, or when the
      counter it writes is the one already there. */
  lemma ResumeAcceptedKeepsAccountingIff(s: Sender, bytes: u64, next: u32)
    requires Accounting(s)
    requires TransferOffsetForChunk(s.meta.total, s.meta.chunkSize, next) == Some(bytes)
    ensures Accounting(ReceiveResumeAccepted(s, bytes, next).0) <==> (!s.started || bytes == s.ackedBytes)
  {
    OffsetIsTransferOffset(s.meta, next);
  }

  /** A decision for chunk 0 that meets a transfer with acknowledged bytes rewinds the counter. */
  lemma ResumeRewinds(s: Sender, start: u32)
    requires Accounting(s) && s.started && s.ackedBytes > 0 && start == 0
    ensures ReceiveResumeAccepted(s, start, start).1
    ensures !Accounting(ReceiveResumeAccepted(s, start, start).0)
  {
    hide Counters, TransferOffsetForChunk;
    assert Offset(s.meta, start) == 0;
    OffsetIsTransferOffset(s.meta, start);
    ResumeAcceptedKeepsAccountingIff(s, start, start);
  }

  /** Such a transfer: its only byte sent and acknowledged. */
  lemma ResumeAcceptedCounterexample() returns (s: Sender)
    ensures Accounting(s) && s.started && ReceiveResumeAccepted(s, 0, 0).1
    ensures !Accounting(ReceiveResumeAccepted(s, 0, 0).0)
  {
    hide TransferOffsetForChunk;
    assert Times(1, 1) == Times(0, 1) + 1;
    s := Sender(Meta(1, 1, 1), Limits(1, 0, 1, 1), [], 0, Window(false, 0, 0), 1, false, false, None, 0, false,
        true, 1, 1);
    ResumeRewinds(s, 0);
  }

  // ---------------------------------------------------------------- runs of one sender

  /** Everything that can happen to a registered transfer, with the peer free to send anything. */
  datatype Op =
    | Send(payload: seq<byte>, at: int)
    | Finish(at: int)
    | OnAck(ack: Ack)
    | OnNack(from: u32, to: u32, reason: NackReason, at: int)
    | OnWindow(bytes: nat, chunks: nat)
    | OnCompleted(total: nat, next: nat)
    | OnResumeAccepted(resumeBytes: u64, resumeChunk: u32)
    | OnScan(at: int)
    | OnFailure

  predicate OpEnabled(s: Sender, op: Op) {
    match op
    case Send(payload, _) => CanSend(s) && |payload| == ReadSize(s) && s.chunkId < U32_SIZE
    case Finish(_) => CanFinish(s)
    case _ => true
  }

  function ApplyOp(s: Sender, op: Op): Sender
    requires OpEnabled(s, op)
  {
    match op
    case Send(payload, now) => SendChunk(s, payload, now)
    case Finish(now) => FinishSending(s, now)
    case OnAck(a) => ApplyAck(s, a).0
    case OnNack(from, to, reason, now) => ApplyNack(s, from, to, reason, now).sender
    case OnWindow(bytes, chunks) => ReceiveWindow(s, bytes, chunks)
    case OnCompleted(bytes, next) => ReceiveCompleted(s, bytes, next).0
    case OnResumeAccepted(bytes, next) => ReceiveResumeAccepted(s, bytes, next).0
    case OnScan(now) => Scan(s, now).sender
    case OnFailure => Fail(s)
  }

  predicate OpAt(run: seq<Sender>, ops: seq<Op>, i: nat)
    requires i < |ops| < |run|
  {
    OpEnabled(run[i], ops[i]) && run[i + 1] == ApplyOp(run[i], ops[i])
  }

  predicate IsSenderRun(run: seq<Sender>, ops: seq<Op>) {
    |run| == |ops| + 1 && forall i :: 0 <= i < |ops| ==> OpAt(run, ops, i)
  }

  lemma CountersStep(s: Sender, op: Op)
    requires Counters(s) && !op.Send? && !op.OnResumeAccepted? && OpEnabled(s, op)
    ensures Counters(ApplyOp(s, op)) && SamePosition(s, ApplyOp(s, op))
  {
    hide InsideBytes, Outside, SumTo;
    match op {
      case OnAck(a) => CountersAck(s, a);
      case OnNack(from, to, reason, now) => CountersNack(s, from, to, reason, now);
      case OnScan(now) => CountersScan(s, now);
      case _ =>
    }
  }

  /** Everything but a resume decision with valid counters that meets a transfer already under way
      and does not repeat what is acknowledged. */
  predicate Harmless(s: Sender, op: Op) {
    op.OnResumeAccepted?
    && TransferOffsetForChunk(s.meta.total, s.meta.chunkSize, op.resumeChunk) == Some(op.resumeBytes)
    ==> !s.started || op.resumeBytes == s.ackedBytes
  }

  /** Whatever arrives, an operation keeps the accounting exactly if it is harmless. */
  lemma AccountingStepIff(s: Sender, op: Op)
    requires Accounting(s) && OpEnabled(s, op)
    ensures Accounting(ApplyOp(s, op)) <==> Harmless(s, op)
  {
    hide Position, Counters, Offset;
    if op.Send? {
      PositionSend(s, op.payload, op.at);
      CountersSend(s, op.payload, op.at);
    } else if op.OnResumeAccepted? {
      if TransferOffsetForChunk(s.meta.total, s.meta.chunkSize, op.resumeChunk) == Some(op.resumeBytes) {
        ResumeAcceptedKeepsAccountingIff(s, op.resumeBytes, op.resumeChunk);
      } else {
        CountersStep(s, OnFailure);
        PositionKept(s, Fail(s));
      }
    } else {
      CountersStep(s, op);
      PositionKept(s, ApplyOp(s, op));
    }
  }

  predicate HarmlessAt(run: seq<Sender>, ops: seq<Op>, i: nat)
    requires i < |ops| < |run|
  {
    Harmless(run[i], ops[i])
  }

  /** Over every run, as long as every operation was harmless: the byte counters add up to what
      was put in flight, the window respects both of its limits and the retry counts theirs. */
  lemma {:induction false} AccountingInEveryRun(run: seq<Sender>, ops: seq<Op>, n: nat)
    requires IsSenderRun(run, ops) && Accounting(run[0]) && n <= |ops|
    requires forall i :: 0 <= i < n ==> HarmlessAt(run, ops, i)
    ensures Accounting(run[n])
  {
    hide Accounting, Harmless;
    if n == 0 {
    } else {
      AccountingInEveryRun(run, ops, n - 1);
      assert OpAt(run, ops, n - 1) && HarmlessAt(run, ops, n - 1);
      AccountingStepIff(run[n - 1], ops[n - 1]);
    }
  }

  /** Against a peer that may send anything, the accounting holds throughout a run exactly if no
      resume decision with other counters met a transfer already under way. */
  lemma AccountingIff(run: seq<Sender>, ops: seq<Op>)
    requires IsSenderRun(run, ops) && Accounting(run[0])
    ensures (forall n :: 0 <= n <= |ops| ==> Accounting(run[n]))
       <==> (forall i :: 0 <= i < |ops| ==> HarmlessAt(run, ops, i))
  {
    hide Accounting, Harmless;
    if forall i :: 0 <= i < |ops| ==> HarmlessAt(run, ops, i) {
      forall n | 0 <= n <= |ops| ensures Accounting(run[n]) {
        AccountingInEveryRun(run, ops, n);
      }
    } else if forall n :: 0 <= n <= |ops| ==> Accounting(run[n]) {
      var i :| 0 <= i < |ops| && !HarmlessAt(run, ops, i);
      assert OpAt(run, ops, i) && Accounting(run[i]) && Accounting(run[i + 1]);
      AccountingStepIff(run[i], ops[i]);
      assert false;
    }
  }

  /** A resume decision is taken exactly if its counters are those of a chunk boundary, and fails
      the transfer otherwise. The first one starts the sending loop at that boundary. */
  lemma ResumeDecides(s: Sender, bytes: u64, next: u32)
    requires Position(s)
    ensures var (s', ok) := ReceiveResumeAccepted(s, bytes, next);
      && (ok <==> next <= s.meta.chunkCount && bytes == Offset(s.meta, next))
      && (!ok ==> s' == s.(failed := true))
      && (ok ==> s'.started && s'.ackedBytes == bytes && s'.pending == s.pending && s'.failed == s.failed)
      && (ok && !s.started ==> s'.chunkId == next && s'.written == bytes)
      && (ok && s.started ==> s'.chunkId == s.chunkId && s'.written == s.written)
  {
    OffsetIsTransferOffset(s.meta, next);
  }

  lemma PositionResume(s: Sender, bytes: u64, next: u32)
    requires Position(s)
    ensures Position(ReceiveResumeAccepted(s, bytes, next).0)
  {
    OffsetIsTransferOffset(s.meta, next);
  }

  lemma RetrySame(s: Sender, k: Pick, now: int)
    ensures SamePosition(s, RetryPass(s, k, now).sender)
  {
    hide Retried, Picked, FirstExhausted, Picks;
  }

  /** Nothing but sending and a resume decision moves the loop. */
  lemma OpSame(s: Sender, op: Op)
    requires OpEnabled(s, op) && !op.Send? && !op.OnResumeAccepted?
    ensures SamePosition(s, ApplyOp(s, op))
  {
    hide InsideBytes, Outside, Matched, RetryPass;
    match op {
      case OnNack(from, to, _, now) => RetrySame(s, Named(from, to), now);
      case OnScan(now) => RetrySame(ScanCommit(s, now), Expired(now, s.limits.ackTimeout), now);
      case _ =>
    }
  }

  lemma PositionStep(s: Sender, op: Op)
    requires Position(s) && OpEnabled(s, op)
    ensures Position(ApplyOp(s, op))
  {
    hide Position, ApplyAck, ApplyNack, Scan, Offset;
    match op {
      case Send(payload, now) => PositionSend(s, payload, now);
      case OnResumeAccepted(bytes, next) => PositionResume(s, bytes, next);
      case _ =>
        OpSame(s, op);
        PositionKept(s, ApplyOp(s, op));
    }
  }

  /** Whatever arrives, the sending loop stands at the start of a chunk. */
  lemma {:induction false} PositionInEveryRun(run: seq<Sender>, ops: seq<Op>, n: nat)
    requires IsSenderRun(run, ops) && Position(run[0]) && n <= |ops|
    ensures Position(run[n])
  {
    hide Position;
    if n == 0 {
    } else {
      PositionInEveryRun(run, ops, n - 1);
      assert OpAt(run, ops, n - 1);
      PositionStep(run[n - 1], ops[n - 1]);
    }
  }

  /** Against any peer a transfer counts as completed exactly from the moment at which the peer
      says so with the counters of the whole transfer; a verdict with others fails it. */
  lemma CompletedByVerdict(s: Sender, op: Op)
    requires OpEnabled(s, op)
    ensures ApplyOp(s, op).completed <==> s.completed || op == OnCompleted(s.meta.total, s.meta.chunkCount)
    ensures op.OnCompleted? && op != OnCompleted(s.meta.total, s.meta.chunkCount) ==> ApplyOp(s, op).failed
    ensures op.OnCompleted? ==>
      (ReceiveCompleted(s, op.total, op.next).1 <==> op == OnCompleted(s.meta.total, s.meta.chunkCount))
  {
    hide InsideBytes, Outside, Matched, RetryPass;
    match op {
      case OnNack(from, to, _, now) => RetryVerdict(s, Named(from, to), now);
      case OnScan(now) => RetryVerdict(ScanCommit(s, now), Expired(now, s.limits.ackTimeout), now);
      case _ =>
    }
  }

  lemma RetryVerdict(s: Sender, k: Pick, now: int)
    ensures RetryPass(s, k, now).sender.completed == s.completed
  {
    hide Retried, Picked, FirstExhausted, Picks;
  }

  // ---------------------------------------------------------------- bounded retransmission

  function RetriesLeft(p: seq<SentChunk>, limit: nat, n: nat): nat
    requires n <= |p|
  {
    if n == 0 then 0 else RetriesLeft(p, limit, n - 1) + SaturatingSub(limit, p[n - 1].retries)
  }

  /** Transmissions of `left` chunks that were not sent yet. */
  function FirstSends(left: nat, limit: nat): nat {
    if left == 0 then 0 else FirstSends(left - 1, limit) + limit + 1
  }

  lemma {:induction false} FirstSendsIsProduct(left: nat, limit: nat)
    ensures FirstSends(left, limit) == left * (limit + 1)
  {
    if left == 0 {
    } else {
      FirstSendsIsProduct(left - 1, limit);
      assert left * (limit + 1) == (left - 1) * (limit + 1) + limit + 1;
    }
  }

  lemma {:induction false} FirstSendsMonotone(left: nat, more: nat, limit: nat)
    requires left <= more
    ensures FirstSends(left, limit) <= FirstSends(more, limit)
    decreases more
  {
    if left == more {
    } else {
      FirstSendsMonotone(left, more - 1, limit);
    }
  }

  /** Transmissions a transfer may still make, first ones and repeats, of chunks and of the end
      frame. */
  function Budget(s: Sender): nat {
    FirstSends(SaturatingSub(s.meta.chunkCount, s.chunkId), s.limits.retryLimit)
    + RetriesLeft(s.pending, s.limits.retryLimit, |s.pending|)
    + SaturatingSub(s.limits.retryLimit, s.commitRetries)
    + if s.doneSending then 0 else 1
  }

  lemma {:induction false} RetriesLeftEqual(p: seq<SentChunk>, q: seq<SentChunk>, limit: nat, n: nat)
    requires n <= |p| && n <= |q|
    requires forall i :: 0 <= i < n ==> p[i] == q[i]
    ensures RetriesLeft(p, limit, n) == RetriesLeft(q, limit, n)
  {
    if n == 0 {
    } else {
      RetriesLeftEqual(p, q, limit, n - 1);
    }
  }

  lemma RetriesLeftAppend(p: seq<SentChunk>, c: SentChunk, limit: nat)
    ensures RetriesLeft(p + [c], limit, |p| + 1) == RetriesLeft(p, limit, |p|) + SaturatingSub(limit, c.retries)
  {
    RetriesLeftEqual(p, p + [c], limit, |p|);
  }

  lemma {:induction false} RetriesLeftOutside(p: seq<SentChunk>, from: u32, to: u32, limit: nat, n: nat)
    requires n <= |p|
    ensures var q := Outside(p, from, to, n); RetriesLeft(q, limit, |q|) <= RetriesLeft(p, limit, n)
  {
    if n == 0 {
    } else {
      RetriesLeftOutside(p, from, to, limit, n - 1);
      var rest := Outside(p, from, to, n - 1);
      RetriesLeftAppend(rest, p[n - 1], limit);
      assert InRange(p[n - 1], from, to) ==> Outside(p, from, to, n) == rest;
    }
  }

  /** A pass takes exactly one retry from each chunk it picks. */
  lemma {:induction false} RetriesLeftRetried(p: seq<SentChunk>, k: Pick, stop: nat, now: int, limit: nat, n: nat)
    requires n <= |p| && stop <= |p|
    requires forall i :: 0 <= i < stop && Picks(k, p[i]) ==> p[i].retries < limit
    ensures RetriesLeft(Retried(p, k, stop, now), limit, n) + |Picked(p, k, Min(stop, n))| == RetriesLeft(p, limit, n)
  {
    if n == 0 {
    } else {
      RetriesLeftRetried(p, k, stop, now, limit, n - 1);
    }
  }

  /** How many frames (data and end) an operation puts on the wire. */
  function FramesSent(s: Sender, op: Op): nat {
    match op
    case Send(_, _) => 1
    case Finish(_) => 1
    case OnNack(from, to, reason, now) => |ApplyNack(s, from, to, reason, now).resend|
    case OnScan(now) => |Scan(s, now).resend| + if Scan(s, now).resendEnd then 1 else 0
    case _ => 0
  }

  lemma BudgetRetryPass(s: Sender, k: Pick, now: int)
    ensures Budget(RetryPass(s, k, now).sender) + |RetryPass(s, k, now).resend| <= Budget(s)
  {
    var n := FirstExhausted(s.pending, k, s.limits.retryLimit, 0);
    RetriesLeftRetried(s.pending, k, n, now, s.limits.retryLimit, |s.pending|);
  }

  lemma BudgetSend(s: Sender, payload: seq<byte>, now: int)
    requires Position(s) && CanSend(s) && |payload| == ReadSize(s)
    ensures s.chunkId < s.meta.chunkCount
    ensures Budget(SendChunk(s, payload, now)) + 1 == Budget(s)
  {
    PositionSend(s, payload, now);
    RetriesLeftAppend(s.pending, SentChunk(s.chunkId, payload, now, 0), s.limits.retryLimit);
  }

  lemma BudgetNack(s: Sender, from: u32, to: u32, reason: NackReason, now: int)
    ensures var r := ApplyNack(s, from, to, reason, now); Budget(r.sender) + |r.resend| <= Budget(s)
  {
    BudgetRetryPass(s, Named(from, to), now);
  }

  lemma BudgetScan(s: Sender, now: int)
    ensures Budget(Scan(s, now).sender) + FramesSent(s, OnScan(now)) <= Budget(s)
  {
    if !Idle(s) && !ScanCommit(s, now).failed {
      BudgetRetryPass(ScanCommit(s, now), Expired(now, s.limits.ackTimeout), now);
    }
  }

  lemma BudgetResume(s: Sender, bytes: u64, next: u32)
    requires Position(s)
    ensures Budget(ReceiveResumeAccepted(s, bytes, next).0) <= Budget(s)
  {
    FirstSendsMonotone(SaturatingSub(s.meta.chunkCount, next), s.meta.chunkCount, s.limits.retryLimit);
  }

  /** Every operation pays for the frames it sends. */
  lemma BudgetPays(s: Sender, op: Op)
    requires Position(s) && OpEnabled(s, op)
    ensures Budget(ApplyOp(s, op)) + FramesSent(s, op) <= Budget(s)
  {
    hide RetriesLeft, Position, Outside;
    match op {
      case Send(payload, now) => BudgetSend(s, payload, now);
      case OnAck(a) => RetriesLeftOutside(s.pending, a.from, a.to, s.limits.retryLimit, |s.pending|);
      case OnNack(from, to, reason, now) =>
        BudgetNack(s, from, to, reason, now);
      case OnResumeAccepted(bytes, next) => BudgetResume(s, bytes, next);
      case OnScan(now) => BudgetScan(s, now);
      case _ =>
    }
  }

  function TotalSent(run: seq<Sender>, ops: seq<Op>, n: nat): nat
    requires n <= |ops| < |run|
  {
    if n == 0 then 0 else TotalSent(run, ops, n - 1) + FramesSent(run[n - 1], ops[n - 1])
  }

  lemma {:induction false} TransmissionsPaid(run: seq<Sender>, ops: seq<Op>, n: nat)
    requires IsSenderRun(run, ops) && Position(run[0]) && n <= |ops|
    ensures TotalSent(run, ops, n) + Budget(run[n]) <= Budget(run[0])
  {
    hide Position, Budget;
    if n == 0 {
    } else {
      TransmissionsPaid(run, ops, n - 1);
      PositionInEveryRun(run, ops, n - 1);
      assert OpAt(run, ops, n - 1);
      BudgetPays(run[n - 1], ops[n - 1]);
    }
  }

  lemma BudgetAtStart(s: Sender)
    requires s.pending == [] && s.chunkId <= s.meta.chunkCount
    ensures Budget(s) <= (s.meta.chunkCount - s.chunkId + 1) * (s.limits.retryLimit + 1)
  {
    FirstSendsIsProduct(s.meta.chunkCount - s.chunkId + 1, s.limits.retryLimit);
  }

  /** Against any peer and any timing, a transfer started at chunk `k` puts at most
      `(chunkCount - k + 1) * (retryLimit + 1)` frames on the wire, data and end frames, first
      ones and repeats together. */
  lemma TransmissionsBounded(run: seq<Sender>, ops: seq<Op>)
    requires IsSenderRun(run, ops) && Position(run[0]) && run[0].pending == []
    ensures TotalSent(run, ops, |ops|)
         <= (run[0].meta.chunkCount - run[0].chunkId + 1) * (run[0].limits.retryLimit + 1)
  {
    TransmissionsPaid(run, ops, |ops|);
    BudgetAtStart(run[0]);
  }

  /** A scan that finds something expired either fails the transfer or uses up a retry. */
  lemma ScanMakesProgress(s: Sender, now: int)
    requires !Idle(s)
    requires
      || CommitExpired(s, now)
      || exists i :: 0 <= i < |s.pending| && Picks(Expired(now, s.limits.ackTimeout), s.pending[i])
    ensures Scan(s, now).sender.failed || Budget(Scan(s, now).sender) < Budget(s)
  {
    var k := Expired(now, s.limits.ackTimeout);
    var s1 := ScanCommit(s, now);
    if !s1.failed {
      BudgetRetryPass(s1, k, now);
      if i :| 0 <= i < |s.pending| && Picks(k, s.pending[i]) {
        PickedNonEmpty(s.pending, k, i, |s.pending|);
      }
    }
  }

  lemma {:induction false} PickedNonEmpty(p: seq<SentChunk>, k: Pick, i: nat, n: nat)
    requires i < n <= |p| && Picks(k, p[i])
    ensures Picked(p, k, n) != []
  {
    if i < n - 1 {
      PickedNonEmpty(p, k, i, n - 1);
    }
  }

  // ---------------------------------------------------------------- deadlines

  /** The instants at which a transfer needs the monitor's attention. */
  ghost predicate LiveDeadline(s: Sender, d: int) {
    || (AwaitsCommit(s) && d == s.commitSentAt.value + s.limits.ackTimeout)
    || exists i :: 0 <= i < |s.pending| && d == s.pending[i].sentAt + s.limits.ackTimeout
  }

  /** `at` is the earliest live deadline, or there is none. */
  ghost predicate IsEarliest(s: Sender, at: Option<int>) {
    && (at.None? ==> forall d :: !LiveDeadline(s, d))
    && (at.Some? ==> LiveDeadline(s, at.value) && forall d :: LiveDeadline(s, d) ==> at.value <= d)
  }

  /** A scan leaves every deadline of an unfailed transfer in the future. */
  lemma ScanMovesDeadlines(s: Sender, now: int, d: int)
    requires !Idle(s) && s.limits.ackTimeout > 0
    requires !Scan(s, now).sender.failed && LiveDeadline(Scan(s, now).sender, d)
    ensures d > now
  {
    var s' := Scan(s, now).sender;
    if i :| 0 <= i < |s'.pending| && d == s'.pending[i].sentAt + s'.limits.ackTimeout {
      assert s'.pending[i].sentAt == now || s'.pending[i] == s.pending[i];
    }
  }

  /** All instants the transfer remembers lie between zero and `now`. */
  predicate Clocked(s: Sender, now: int) {
    && (forall i :: 0 <= i < |s.pending| ==> 0 <= s.pending[i].sentAt <= now)
    && (s.commitSentAt.Some? ==> 0 <= s.commitSentAt.value <= now)
  }

  /** The operation happens at `now`, if it looks at the clock. */
  predicate HappensAt(op: Op, now: int) {
    match op
    case Send(_, at) => at == now
    case Finish(at) => at == now
    case OnNack(_, _, _, at) => at == now
    case OnScan(at) => at == now
    case _ => true
  }

  lemma {:induction false} OutsideComesFrom(p: seq<SentChunk>, from: u32, to: u32, n: nat, i: nat) returns (j: nat)
    requires n <= |p| && i < |Outside(p, from, to, n)|
    ensures j < n && Outside(p, from, to, n)[i] == p[j]
  {
    if i < |Outside(p, from, to, n - 1)| {
      j := OutsideComesFrom(p, from, to, n - 1, i);
    } else {
      j := n - 1;
    }
  }

  /** What an operation other than sending does to one chunk of the window: nothing, or its
      instant moves on to `now`. */
  lemma ChunkComesFrom(s: Sender, op: Op, now: int, i: nat) returns (j: nat)
    requires OpEnabled(s, op) && !op.Send? && !op.Finish? && HappensAt(op, now)
    requires i < |ApplyOp(s, op).pending|
    ensures j < |s.pending|
    ensures var c := ApplyOp(s, op).pending[i]; c.sentAt == s.pending[j].sentAt || c.sentAt == now
  {
    hide RetryPass, ApplyAck;
    j := i;
    match op {
      case OnAck(a) => j := AckComesFrom(s, a, i);
      case OnNack(from, to, _, _) => RetriedInstants(s, Named(from, to), now);
      case OnScan(_) => RetriedInstants(ScanCommit(s, now), Expired(now, s.limits.ackTimeout), now);
      case _ =>
    }
  }

  lemma AckComesFrom(s: Sender, a: Ack, i: nat) returns (j: nat)
    requires i < |ApplyAck(s, a).0.pending|
    ensures j < |s.pending| && ApplyAck(s, a).0.pending[i] == s.pending[j]
  {
    hide InsideBytes, Outside, Matched;
    if ApplyAck(s, a).0.pending == s.pending {
      j := i;
    } else {
      j := OutsideComesFrom(s.pending, a.from, a.to, |s.pending|, i);
    }
  }

  lemma RetriedInstants(s: Sender, k: Pick, now: int)
    ensures var q := RetryPass(s, k, now).sender.pending;
      |q| == |s.pending| && forall i :: 0 <= i < |q| ==> q[i].sentAt == s.pending[i].sentAt || q[i].sentAt == now
  {
  }

  lemma CommitComesFrom(s: Sender, op: Op, now: int)
    requires OpEnabled(s, op) && !op.Send? && !op.Finish? && HappensAt(op, now)
    requires AwaitsCommit(ApplyOp(s, op))
    ensures AwaitsCommit(s)
    ensures ApplyOp(s, op).commitSentAt == s.commitSentAt || ApplyOp(s, op).commitSentAt == Some(now)
  {
    hide InsideBytes, Outside, FirstExhausted, Matched;
  }

  /** Nothing that arrives, and no scan, gives a transfer an earlier deadline than it had: with a
      clock that does not go back, only sending does. */
  lemma DeadlinesOnlyMoveOn(s: Sender, op: Op, now: int, d: int) returns (before: int)
    requires OpEnabled(s, op) && !op.Send? && !op.Finish? && HappensAt(op, now) && Clocked(s, now)
    requires ApplyOp(s, op).limits == s.limits && LiveDeadline(ApplyOp(s, op), d)
    ensures LiveDeadline(s, before) && before <= d
  {
    hide ApplyOp;
    var s' := ApplyOp(s, op);
    if AwaitsCommit(s') && d == s'.commitSentAt.value + s'.limits.ackTimeout {
      CommitComesFrom(s, op, now);
      before := s.commitSentAt.value + s.limits.ackTimeout;
    } else {
      var i :| 0 <= i < |s'.pending| && d == s'.pending[i].sentAt + s'.limits.ackTimeout;
      var j := ChunkComesFrom(s, op, now, i);
      before := s.pending[j].sentAt + s.limits.ackTimeout;
    }
  }

  lemma LimitsKept(s: Sender, op: Op)
    requires OpEnabled(s, op)
    ensures ApplyOp(s, op).limits == s.limits
  {
    hide ApplyAck, ApplyNack, Scan;
    if !op.Send? && !op.OnResumeAccepted? {
      OpSame(s, op);
    }
  }

  /** The clock invariant is kept by everything that happens at `now`. */
  lemma ClockedStep(s: Sender, op: Op, now: int)
    requires OpEnabled(s, op) && HappensAt(op, now) && Clocked(s, now) && now >= 0
    ensures Clocked(ApplyOp(s, op), now)
  {
    if op.Send? || op.Finish? {
    } else {
      ClockedOther(s, op, now);
    }
  }

  lemma ClockedOther(s: Sender, op: Op, now: int)
    requires OpEnabled(s, op) && !op.Send? && !op.Finish? && HappensAt(op, now) && Clocked(s, now) && now >= 0
    ensures Clocked(ApplyOp(s, op), now)
  {
    hide ApplyOp;
    var s' := ApplyOp(s, op);
    CommitInstant(s, op, now);
    forall i | 0 <= i < |s'.pending| ensures 0 <= s'.pending[i].sentAt <= now {
      var j := ChunkComesFrom(s, op, now, i);
    }
  }

  lemma CommitInstant(s: Sender, op: Op, now: int)
    requires OpEnabled(s, op) && !op.Send? && !op.Finish? && HappensAt(op, now)
    ensures ApplyOp(s, op).commitSentAt == s.commitSentAt || ApplyOp(s, op).commitSentAt == Some(now)
  {
    hide InsideBytes, Outside, Matched, RetryPass;
    match op {
      case OnNack(from, to, _, _) => RetryCommitKept(s, Named(from, to), now);
      case OnScan(_) => RetryCommitKept(ScanCommit(s, now), Expired(now, s.limits.ackTimeout), now);
      case _ =>
    }
  }

  lemma RetryCommitKept(s: Sender, k: Pick, now: int)
    ensures var s' := RetryPass(s, k, now).sender;
      s'.commitSentAt == s.commitSentAt && s'.doneSending == s.doneSending && s'.completed == s.completed
  {
    hide Retried, Picked, FirstExhausted, Picks;
  }
}
