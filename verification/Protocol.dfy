/** Sender, receiver and the network between them, as one state machine. The network is the log
    of every frame ever sent; delivery picks any entry at any time, so frames are lost,
    duplicated and reordered at will (not altered). Steps of both endpoints and of the writer
    goroutine interleave freely. */
module Protocol {
  import opened Base
  import opened Chunks
  import opened Sending
  import opened Receiving

  /** What a transfer is about; `checksum` is what `TransferBegin` announced, if anything. */
  datatype Env = Env(source: seq<byte>, meta: Meta, sha: seq<byte> -> seq<byte>, checksum: Option<seq<byte>>)

  /** `cursor` is the position of the last acknowledgement delivered, used only to say what an
      in-order run is. */
  datatype System = System(s: Sender, r: Receiver, net: seq<Msg>, cursor: nat)

  datatype Step =
    | ChunkOut(at: int)
    | EndOut(at: int)
    | Monitor(at: int)
    | SenderFails
    | ToSender(index: nat, at: int)
    | ToReceiver(index: nat, answer: bool)
    | TakeChunk
    | WriteChunk(n: nat, ok: bool)
    | CountChunk
    | WriterStops
    | Cancel
    | Commit(closeOk: bool)
    | AbortCommit
    | Advertise(bytes: nat, chunks: nat)

  predicate EnvOk(env: Env) {
    WellFormed(env.meta) && |env.source| == env.meta.total
  }

  // ---------------------------------------------------------------- steps

  predicate Enabled(env: Env, y: System, step: Step)
  {
    match step
    case ChunkOut(_) => CanSend(y.s) && y.s.chunkId < U32_SIZE && y.s.written + ReadSize(y.s) <= |env.source|
    case EndOut(_) => CanFinish(y.s)
    case ToSender(i, _) => i < |y.net|
    case ToReceiver(i, _) => i < |y.net|
    case TakeChunk => y.r.writer.Waiting? && y.r.queue != []
    case WriteChunk(n, _) => y.r.writer.Taken? && n <= |y.r.writer.chunk.payload|
    case CountChunk => y.r.writer.Wrote?
    case WriterStops => y.r.writer.Waiting? && y.r.queue == [] && !y.r.accepting
    case Commit(_) => y.r.ending && y.r.writer.Stopped? && y.r.fate == Open
    case AbortCommit => y.r.ending && y.r.fate == Open
    case _ => true
  }

  function DataMsgs(chunks: seq<SentChunk>): (msgs: seq<Msg>)
    ensures |msgs| == |chunks|
    ensures forall i :: 0 <= i < |msgs| ==> msgs[i] == Data(chunks[i].id, chunks[i].payload)
  {
    if chunks == [] then []
    else DataMsgs(chunks[..|chunks| - 1]) + [Data(chunks[|chunks| - 1].id, chunks[|chunks| - 1].payload)]
  }

  function Resent(y: System, x: Retransmission): System {
    y.(s := if x.ok then x.sender else Fail(x.sender),
       net := y.net + DataMsgs(x.resend) + if x.resendEnd then [End] else [])
  }

  function Replied(y: System, x: (Receiver, seq<Msg>)): System {
    y.(r := x.0, net := y.net + x.1)
  }

  /** `HandleFrame` on the sender's side; a frame it rejects fails the whole session. */
  function Receive(y: System, i: nat, now: int): System
    requires i < |y.net|
  {
    match y.net[i]
    case AckMsg(a) =>
      var (s', ok) := ApplyAck(y.s, a);
      y.(s := if ok then s' else Fail(s'), cursor := i)
    case NackMsg(from, to, reason) => Resent(y, ApplyNack(y.s, from, to, reason, now))
    case WindowMsg(bytes, chunks) => y.(s := ReceiveWindow(y.s, bytes, chunks))
    case CompletedMsg(received, next) => y.(s := ReceiveCompleted(y.s, received, next).0)
    case FailedMsg => y.(s := Fail(y.s))
    case _ => y
  }

  function Do(env: Env, y: System, step: Step): System
    requires Enabled(env, y, step)
  {
    match step
    case ChunkOut(now) =>
      var payload := env.source[y.s.written..y.s.written + ReadSize(y.s)];
      y.(s := SendChunk(y.s, payload, now), net := y.net + [Data(y.s.chunkId, payload)])
    case EndOut(now) => y.(s := FinishSending(y.s, now), net := y.net + [End])
    case Monitor(now) => Resent(y, Scan(y.s, now))
    case SenderFails => y.(s := Fail(y.s))
    case ToSender(i, now) => Receive(y, i, now)
    case ToReceiver(i, answer) =>
      (match y.net[i]
       case Data(id, payload) => Replied(y, OnData(y.r, id, payload, answer))
       case End => Replied(y, OnEnd(y.r, 0, answer))
       case _ => y)
    case TakeChunk => y.(r := Take(y.r))
    case WriteChunk(n, ok) => Replied(y, Write(y.r, n, ok))
    case CountChunk => Replied(y, CountWritten(y.r))
    case WriterStops => y.(r := y.r.(writer := Stopped))
    case Cancel => y.(r := Stop(y.r).(installed := false))
    case Commit(closeOk) => Replied(y, FinishEnd(y.r, closeOk, env.sha, env.checksum))
    case AbortCommit => y.(r := AbortEnd(y.r))
    case Advertise(bytes, chunks) => y.(net := y.net + [WindowMsg(bytes, chunks)])
  }

  /** A fresh transfer starts at chunk 0; a resumed one at the boundary both sides agreed on,
      with that much of the source already in the sink. */
  predicate Initial(env: Env, y: System) {
    && EnvOk(env)
    && y.s.chunkId <= env.meta.chunkCount
    && var k := y.s.chunkId;
    && y.s == Sender(env.meta, y.s.limits, [], 0, y.s.window, Offset(env.meta, k), false, false, None, 0, false,
        true, Offset(env.meta, k), k)
    && y.r.acceptedNextChunk == k
    && y.r.receivedBytes == y.r.acceptedBytes == Offset(env.meta, k)
    && var before := Prefix(env.source, env.meta, k);
    && y.r == Receiver(env.meta, y.r.capacity, y.r.receivedBytes, y.r.acceptedBytes, 0, if k > 0 then k - 1
        else 0, k, k,
                       [], true, false, false, true, Waiting, before, before, Open)
    && y.net == [] && y.cursor == 0
  }

  // ---------------------------------------------------------------- the invariant

  function AckedCount(s: Sender): nat {
    if |s.pending| <= s.chunkId then s.chunkId - |s.pending| else 0
  }

  predicate HoldsChunk(env: Env, c: SentChunk, k: nat)
    requires EnvOk(env)
  {
    c.id == k < env.meta.chunkCount && c.payload == ChunkBytes(env.source, env.meta, k)
  }

  predicate HoldsFrom(env: Env, p: seq<SentChunk>, k: nat)
    requires EnvOk(env)
  {
    forall i :: 0 <= i < |p| ==> HoldsChunk(env, p[i], k + i)
  }

  /** The window holds exactly the chunks `acked .. chunkId`, with the source's bytes. */
  predicate WindowExact(env: Env, s: Sender)
    requires EnvOk(env)
  {
    && |s.pending| <= s.chunkId <= env.meta.chunkCount
    && s.ackedBytes == Offset(env.meta, AckedCount(s))
    && HoldsFrom(env, s.pending, AckedCount(s))
  }

  predicate SenderExact(env: Env, s: Sender) {
    EnvOk(env) && s.meta == env.meta && s.started && Accounting(s) && WindowExact(env, s)
  }

  predicate NetTruthful(env: Env, sent: nat, next: nat, committed: bool, net: seq<Msg>)
    requires EnvOk(env)
  {
    forall i :: 0 <= i < |net| ==> MsgOk(env.source, env.meta, sent, next, committed, net[i])
  }

  /** sender's acknowledged count <= written <= accepted <= sent. */
  predicate Sandwich(y: System) {
    AckedCount(y.s) <= y.r.nextChunk <= y.r.acceptedNextChunk <= y.s.chunkId
  }

  predicate Inv(env: Env, y: System) {
    && SenderExact(env, y.s)
    && y.r.meta == env.meta
    && Exact(env.source, y.r)
    && Sandwich(y)
    && NetTruthful(env, y.s.chunkId, y.r.nextChunk, y.r.fate == Committed, y.net)
    && (y.s.completed ==> y.r.fate == Committed)
  }

  lemma InitialInv(env: Env, y: System)
    requires Initial(env, y)
    ensures Inv(env, y)
  {
    OffsetMonotone(env.meta, y.s.chunkId, env.meta.chunkCount);
  }

  // ---------------------------------------------------------------- the network

  /** Truthful frames stay truthful as the two sides advance. */
  lemma NetLater(env: Env, sent: nat, sent': nat, next: nat, next': nat, c: bool, c': bool, net: seq<Msg>,
      more: seq<Msg>)
    requires EnvOk(env) && sent <= sent' && next <= next' <= env.meta.chunkCount && (c ==> c')
    requires NetTruthful(env, sent, next, c, net) && NetTruthful(env, sent', next', c', more)
    ensures NetTruthful(env, sent', next', c', net + more)
  {
  }

  lemma DataMsgsTruthful(env: Env, chunks: seq<SentChunk>, sent: nat, next: nat, c: bool)
    requires EnvOk(env)
    requires forall i :: 0 <= i < |chunks| ==> chunks[i].id < sent && HoldsChunk(env, chunks[i], chunks[i].id)
    ensures NetTruthful(env, sent, next, c, DataMsgs(chunks))
  {
  }

  // ---------------------------------------------------------------- sender steps

  /** What the sending loop reads next is the next chunk of the source. */
  lemma ReadsNextChunk(env: Env, s: Sender)
    requires SenderExact(env, s) && CanSend(s)
    ensures s.chunkId < env.meta.chunkCount
    ensures s.written + ReadSize(s) <= |env.source|
    ensures env.source[s.written..s.written + ReadSize(s)] == ChunkBytes(env.source, env.meta, s.chunkId)
  {
    NextOffset(env.meta, s.chunkId);
  }

  lemma WindowGrows(env: Env, s: Sender, now: int)
    requires EnvOk(env) && WindowExact(env, s) && CanSend(s) && s.chunkId < env.meta.chunkCount
    requires |ChunkBytes(env.source, env.meta, s.chunkId)| == ReadSize(s)
    ensures WindowExact(env, SendChunk(s, ChunkBytes(env.source, env.meta, s.chunkId), now))
  {
  }

  lemma SendExact(env: Env, s: Sender, now: int)
    requires SenderExact(env, s) && CanSend(s) && s.chunkId < env.meta.chunkCount
    requires |ChunkBytes(env.source, env.meta, s.chunkId)| == ReadSize(s)
    ensures SenderExact(env, SendChunk(s, ChunkBytes(env.source, env.meta, s.chunkId), now))
  {
    var payload := ChunkBytes(env.source, env.meta, s.chunkId);
    PositionSend(s, payload, now);
    CountersSend(s, payload, now);
    WindowGrows(env, s, now);
  }

  /** A piece of the window holds as many bytes as lie between its boundaries in the source. */
  lemma {:induction false} HeldBytes(env: Env, p: seq<SentChunk>, a: nat, k: nat)
    requires EnvOk(env) && HoldsFrom(env, p, a) && k <= |p| && a <= env.meta.chunkCount
    ensures a + k <= env.meta.chunkCount
    ensures SumTo(p, k) == Offset(env.meta, a + k) - Offset(env.meta, a)
  {
    if k == 0 {
    } else {
      HeldBytes(env, p, a, k - 1);
      assert HoldsChunk(env, p[k - 1], a + (k - 1));
      PrefixExtends(env.source, env.meta, a + k - 1);
    }
  }

  /** On consecutive ids an acknowledgement of `0 .. t` takes a front piece of the window. */
  lemma {:induction false} AckDropsFront(p: seq<SentChunk>, a: nat, t: u32, n: nat)
    requires n <= |p| && a <= t + 1
    requires forall i :: 0 <= i < |p| ==> p[i].id == a + i
    ensures var k := Min(t + 1 - a, n);
      && Outside(p, 0, t, n) == p[k..n]
      && InsideBytes(p, 0, t, n) == SumTo(p, k)
      && (Matched(p, 0, t, n) <==> k > 0)
  {
    if n == 0 {
    } else {
      AckDropsFront(p, a, t, n - 1);
      assert InRange(p[n - 1], 0, t) <==> n <= t + 1 - a;
      assert InRange(p[0], 0, t) <==> a <= t;
      var k := Min(t + 1 - a, n);
      assert k < n ==> p[k..n] == p[k..n - 1] + [p[n - 1]];
    }
  }

  predicate HonestAck(m: Meta, a: Ack) {
    a.from == 0 && a.to < m.chunkCount && a.bytes == Offset(m, a.to + 1)
  }

  /** An honest acknowledgement that is not stale: what `applyAck` makes of it. */
  lemma FreshAck(env: Env, s: Sender, a: Ack)
    requires EnvOk(env) && s.meta == env.meta && WindowExact(env, s)
    requires HonestAck(env.meta, a) && AckedCount(s) <= a.to + 1 <= s.chunkId
    ensures ApplyAck(s, a).1
    ensures ApplyAck(s, a).0.pending == s.pending[a.to + 1 - AckedCount(s)..]
    ensures ApplyAck(s, a).0.ackedBytes == a.bytes
  {
    hide HoldsFrom, Offset, SumTo, Outside, InsideBytes, WellFormed;
    var k, n := AckedCount(s), |s.pending|;
    OffsetMonotone(env.meta, k, a.to + 1);
    OffsetMonotone(env.meta, a.to + 1, env.meta.chunkCount);
    IdsConsecutive(env, s.pending, k);
    AckDropsFront(s.pending, k, a.to, n);
    HeldBytes(env, s.pending, k, a.to + 1 - k);
  }

  lemma IdsConsecutive(env: Env, p: seq<SentChunk>, k: nat)
    requires EnvOk(env) && HoldsFrom(env, p, k)
    ensures forall i :: 0 <= i < |p| ==> p[i].id == k + i
  {
    assert forall i :: 0 <= i < |p| ==> HoldsChunk(env, p[i], k + i);
  }

  lemma FreshAckWindow(env: Env, s: Sender, a: Ack)
    requires EnvOk(env) && s.meta == env.meta && WindowExact(env, s)
    requires HonestAck(env.meta, a) && AckedCount(s) <= a.to + 1 <= s.chunkId
    ensures WindowExact(env, ApplyAck(s, a).0) && AckedCount(ApplyAck(s, a).0) == a.to + 1
  {
    FreshAck(env, s, a);
    HoldsTail(env, s.pending, AckedCount(s), a.to + 1 - AckedCount(s));
  }

  lemma HoldsTail(env: Env, p: seq<SentChunk>, a: nat, k: nat)
    requires EnvOk(env) && HoldsFrom(env, p, a) && k <= |p|
    ensures HoldsFrom(env, p[k..], a + k)
  {
    forall i | 0 <= i < |p| - k ensures HoldsChunk(env, p[k..][i], a + k + i) {
      assert HoldsChunk(env, p[k + i], a + (k + i));
    }
  }

  /** An honest acknowledgement is accepted exactly when it is not older than one already seen. */
  lemma HonestAckAcceptedIff(env: Env, s: Sender, a: Ack)
    requires SenderExact(env, s) && HonestAck(env.meta, a) && a.to < s.chunkId
    ensures ApplyAck(s, a).1 <==> a.bytes >= s.ackedBytes
    ensures a.bytes >= s.ackedBytes <==> AckedCount(s) <= a.to + 1
    ensures AckedCount(ApplyAck(s, a).0) == if ApplyAck(s, a).1 then a.to + 1 else AckedCount(s)
    ensures SenderExact(env, ApplyAck(s, a).0)
  {
    var k := AckedCount(s);
    if k <= a.to + 1 {
      OffsetMonotone(env.meta, k, a.to + 1);
      FreshAck(env, s, a);
      FreshAckWindow(env, s, a);
      CountersAck(s, a);
      PositionKept(s, ApplyAck(s, a).0);
    } else {
      OffsetMonotone(env.meta, a.to + 1, k);
    }
  }

  lemma RetriedHolds(env: Env, p: seq<SentChunk>, a: nat, k: Pick, n: nat, now: int)
    requires EnvOk(env) && HoldsFrom(env, p, a) && n <= |p|
    ensures HoldsFrom(env, Retried(p, k, n, now), a)
  {
    var q := Retried(p, k, n, now);
    forall i | 0 <= i < |q| ensures HoldsChunk(env, q[i], a + i) {
      assert HoldsChunk(env, p[i], a + i);
    }
  }

  lemma RetryExact(env: Env, s: Sender, k: Pick, now: int)
    requires SenderExact(env, s)
    ensures SenderExact(env, RetryPass(s, k, now).sender)
  {
    var n := FirstExhausted(s.pending, k, s.limits.retryLimit, 0);
    RetriedHolds(env, s.pending, AckedCount(s), k, n, now);
    CountersRetryPass(s, k, now);
    PositionKept(s, RetryPass(s, k, now).sender);
  }

  lemma {:induction false} PickedExact(env: Env, s: Sender, k: Pick, n: nat)
    requires SenderExact(env, s) && n <= |s.pending|
    ensures forall i :: 0 <= i < |Picked(s.pending, k, n)| ==>
      var c := Picked(s.pending, k, n)[i]; c.id < s.chunkId && HoldsChunk(env, c, c.id)
  {
    if n == 0 {
    } else {
      PickedExact(env, s, k, n - 1);
      assert HoldsChunk(env, s.pending[n - 1], AckedCount(s) + (n - 1));
    }
  }

  // ---------------------------------------------------------------- every step keeps it

  lemma ChunkOutSender(env: Env, y: System, now: int)
    requires Inv(env, y) && Enabled(env, y, ChunkOut(now))
    ensures y.s.chunkId < env.meta.chunkCount
    ensures var c := ChunkBytes(env.source, env.meta, y.s.chunkId);
      && |c| == ReadSize(y.s)
      && Do(env, y, ChunkOut(now)) == System(SendChunk(y.s, c, now), y.r, y.net + [Data(y.s.chunkId, c)], y.cursor)
      && SenderExact(env, SendChunk(y.s, c, now))
  {
    hide Exact, NetTruthful, Sandwich, SenderExact, ChunkBytes;
    assert SenderExact(env, y.s);
    ReadsNextChunk(env, y.s);
    SendExact(env, y.s, now);
  }

  lemma ChunkOutInv(env: Env, y: System, now: int)
    requires Inv(env, y) && Enabled(env, y, ChunkOut(now))
    ensures Inv(env, Do(env, y, ChunkOut(now)))
  {
    ChunkOutSender(env, y, now);
    var k := y.s.chunkId;
    NetLater(env, k, k + 1, y.r.nextChunk, y.r.nextChunk, y.r.fate == Committed, y.r.fate == Committed,
             y.net, [Data(k, ChunkBytes(env.source, env.meta, k))]);
  }

  /** Frames appended by the receiver, and its progress, keep the log truthful. */
  lemma ReplyInv(env: Env, y: System, r': Receiver, msgs: seq<Msg>)
    requires Inv(env, y) && r'.meta == env.meta && Exact(env.source, r')
    requires y.r.nextChunk <= r'.nextChunk && r'.acceptedNextChunk <= y.s.chunkId
    requires y.r.fate == Committed ==> r'.fate == Committed
    requires RepliesOk(env.source, r', y.s.chunkId, msgs)
    ensures Inv(env, Replied(y, (r', msgs)))
  {
    NetLater(env, y.s.chunkId, y.s.chunkId, y.r.nextChunk, r'.nextChunk, y.r.fate == Committed, r'.fate == Committed,
             y.net, msgs);
  }

  lemma DeliverDataInv(env: Env, y: System, id: u32, payload: seq<byte>, reserved: bool)
    requires Inv(env, y)
    requires MsgOk(env.source, env.meta, y.s.chunkId, y.r.nextChunk, y.r.fate == Committed, Data(id, payload))
    ensures Inv(env, Replied(y, OnData(y.r, id, payload, reserved)))
  {
    DataExact(env.source, y.r, id, payload, reserved, y.s.chunkId);
    var (r', msgs) := OnData(y.r, id, payload, reserved);
    ReplyInv(env, y, r', msgs);
  }

  lemma DeliverEndInv(env: Env, y: System, remembered: bool)
    requires Inv(env, y)
    ensures Inv(env, Replied(y, OnEnd(y.r, 0, remembered)))
  {
    EndExact(env.source, y.r, 0, remembered, y.s.chunkId);
    var (r', msgs) := OnEnd(y.r, 0, remembered);
    ReplyInv(env, y, r', msgs);
  }

  lemma LogEntryTruthful(env: Env, y: System, i: nat)
    requires Inv(env, y) && i < |y.net|
    ensures MsgOk(env.source, env.meta, y.s.chunkId, y.r.nextChunk, y.r.fate == Committed, y.net[i])
  {
  }

  lemma DeliverInv(env: Env, y: System, i: nat, answer: bool)
    requires Inv(env, y) && Enabled(env, y, ToReceiver(i, answer))
    ensures Inv(env, Do(env, y, ToReceiver(i, answer)))
  {
    LogEntryTruthful(env, y, i);
    match y.net[i] {
      case Data(id, payload) => DeliverDataInv(env, y, id, payload, answer);
      case End => DeliverEndInv(env, y, answer);
      case _ =>
    }
  }

  lemma WriteInv(env: Env, y: System, n: nat, ok: bool)
    requires Inv(env, y) && Enabled(env, y, WriteChunk(n, ok))
    ensures Inv(env, Replied(y, Write(y.r, n, ok)))
  {
    WriteExact(env.source, y.r, n, ok, y.s.chunkId);
    var (r', msgs) := Write(y.r, n, ok);
    ReplyInv(env, y, r', msgs);
  }

  lemma CountInv(env: Env, y: System)
    requires Inv(env, y) && Enabled(env, y, CountChunk)
    ensures Inv(env, Replied(y, CountWritten(y.r)))
  {
    CountExact(env.source, y.r, y.s.chunkId);
    var (r', msgs) := CountWritten(y.r);
    ReplyInv(env, y, r', msgs);
  }

  lemma WriterInv(env: Env, y: System, step: Step)
    requires Inv(env, y) && Enabled(env, y, step)
    requires step.TakeChunk? || step.WriterStops?
    ensures Inv(env, Do(env, y, step))
  {
    if step == TakeChunk {
      TakeExact(env.source, y.r);
      ReplyInv(env, y, Take(y.r), []);
    } else {
      StopsExact(env.source, y.r);
      ReplyInv(env, y, y.r.(writer := Stopped), []);
    }
    assert y.net + [] == y.net;
  }

  lemma CommitInv(env: Env, y: System, closeOk: bool)
    requires Inv(env, y) && Enabled(env, y, Commit(closeOk))
    ensures Inv(env, Do(env, y, Commit(closeOk)))
  {
    FinishExact(env.source, y.r, closeOk, env.sha, env.checksum, y.s.chunkId);
    var (r', msgs) := FinishEnd(y.r, closeOk, env.sha, env.checksum);
    ReplyInv(env, y, r', msgs);
  }

  lemma StopInv(env: Env, y: System, step: Step)
    requires Inv(env, y) && Enabled(env, y, step) && (step.Cancel? || step.AbortCommit?)
    ensures Inv(env, Do(env, y, step))
  {
    StoppedReceiver(env.source, y.r, step);
    hide SenderExact, NetTruthful, Exact, Stop, AbortEnd;
    ReplyInv(env, y, Do(env, y, step).r, []);
    assert y.net + [] == y.net;
  }

  lemma StoppedReceiver(source: seq<byte>, r: Receiver, step: Step)
    requires Exact(source, r) && (step.Cancel? || (step.AbortCommit? && r.fate == Open))
    ensures var r' := if step.Cancel? then Stop(r).(installed := false) else AbortEnd(r);
      && Exact(source, r') && r'.meta == r.meta && r'.nextChunk == r.nextChunk
      && r'.acceptedNextChunk == r.acceptedNextChunk && (r.fate == Committed ==> r'.fate == Committed)
      && RepliesOk(source, r', 0, [])
  {
    hide PipelineExact, SinkExact;
    StopExact(source, r);
    SinkUnmoved(source, Stop(r));
  }

  lemma SinkUnmoved(source: seq<byte>, r: Receiver)
    requires WellFormed(r.meta) && |source| == r.meta.total
    ensures SinkExact(source, r.(installed := false)) == SinkExact(source, r)
  {
  }

  /** A change of the sender that sends nothing new and acknowledges nothing unwritten. */
  lemma SenderInv(env: Env, y: System, s': Sender, more: seq<Msg>, cursor: nat)
    requires Inv(env, y) && SenderExact(env, s')
    requires s'.chunkId == y.s.chunkId && AckedCount(s') <= y.r.nextChunk
    requires s'.completed ==> y.r.fate == Committed
    requires NetTruthful(env, y.s.chunkId, y.r.nextChunk, y.r.fate == Committed, more)
    ensures Inv(env, System(s', y.r, y.net + more, cursor))
  {
    NetLater(env, y.s.chunkId, y.s.chunkId, y.r.nextChunk, y.r.nextChunk, y.r.fate == Committed,
        y.r.fate == Committed,
             y.net, more);
  }

  lemma SilentSenderInv(env: Env, y: System, s': Sender, cursor: nat)
    requires Inv(env, y) && SenderExact(env, s')
    requires s'.chunkId == y.s.chunkId && AckedCount(s') <= y.r.nextChunk
    requires s'.completed ==> y.r.fate == Committed
    ensures Inv(env, System(s', y.r, y.net, cursor))
  {
    SenderInv(env, y, s', [], cursor);
    assert y.net + [] == y.net;
  }

  lemma FailExact(env: Env, s: Sender)
    requires SenderExact(env, s)
    ensures SenderExact(env, Fail(s))
  {
  }

  /** A retransmission repeats truthful frames only. */
  lemma ResentTruthful(env: Env, y: System, x: Retransmission, k: Pick)
    requires Inv(env, y) && RepeatsOnly(y.s, x, k)
    ensures NetTruthful(env, y.s.chunkId, y.r.nextChunk, y.r.fate == Committed,
        DataMsgs(x.resend) + if x.resendEnd then [End] else [])
  {
    PickedExact(env, y.s, k, |y.s.pending|);
    DataMsgsTruthful(env, x.resend, y.s.chunkId, y.r.nextChunk, y.r.fate == Committed);
  }

  lemma ResentInv(env: Env, y: System, x: Retransmission, k: Pick)
    requires Inv(env, y) && SenderExact(env, x.sender)
    requires RepeatsOnly(y.s, x, k)
    ensures Inv(env, Resent(y, x))
  {
    ResentTruthful(env, y, x, k);
    FailExact(env, x.sender);
    var more := DataMsgs(x.resend) + if x.resendEnd then [End] else [];
    SenderInv(env, y, if x.ok then x.sender else Fail(x.sender), more, y.cursor);
    assert y.net + DataMsgs(x.resend) + (if x.resendEnd then [End] else []) == y.net + more;
  }

  lemma ScanCommitExact(env: Env, s: Sender, now: int)
    requires SenderExact(env, s)
    ensures SenderExact(env, ScanCommit(s, now))
  {
    FailExact(env, s);
  }

  /** A pass keeps position, window length and verdict, and repeats nothing or what it picked. */
  predicate RepeatsOnly(s: Sender, x: Retransmission, k: Pick) {
    && x.sender.meta == s.meta && x.sender.limits == s.limits
    && x.sender.chunkId == s.chunkId && |x.sender.pending| == |s.pending|
    && x.sender.completed == s.completed && x.sender.doneSending == s.doneSending
    && (x.resend == [] || x.resend == Picked(s.pending, k, |s.pending|))
  }

  lemma RetryShape(s: Sender, k: Pick, now: int)
    ensures RepeatsOnly(s, RetryPass(s, k, now), k) && !RetryPass(s, k, now).resendEnd
  {
  }

  lemma ScanShape(s: Sender, now: int)
    ensures RepeatsOnly(s, Scan(s, now), Expired(now, s.limits.ackTimeout))
  {
    var s1 := ScanCommit(s, now);
    assert RepeatsOnly(s, Retransmission(s1, [], false, true), Expired(now, s.limits.ackTimeout));
    if !Idle(s) && !s1.failed {
      RetryShape(s1, Expired(now, s.limits.ackTimeout), now);
    }
  }

  lemma NackShape(s: Sender, from: u32, to: u32, reason: NackReason, now: int)
    ensures RepeatsOnly(s, ApplyNack(s, from, to, reason, now), Named(from, to))
  {
    RetryShape(s, Named(from, to), now);
  }

  lemma ScanExact(env: Env, s: Sender, now: int)
    requires SenderExact(env, s)
    ensures SenderExact(env, Scan(s, now).sender)
  {
    ScanCommitExact(env, s, now);
    RetryExact(env, ScanCommit(s, now), Expired(now, s.limits.ackTimeout), now);
  }

  lemma MonitorInv(env: Env, y: System, now: int)
    requires Inv(env, y)
    ensures Inv(env, Resent(y, Scan(y.s, now)))
  {
    ScanExact(env, y.s, now);
    ScanShape(y.s, now);
    ResentInv(env, y, Scan(y.s, now), Expired(now, y.s.limits.ackTimeout));
  }

  lemma NackExact(env: Env, s: Sender, from: u32, to: u32, reason: NackReason, now: int)
    requires SenderExact(env, s)
    ensures SenderExact(env, ApplyNack(s, from, to, reason, now).sender)
  {
    hide RetryPass, EnvOk;
    FailExact(env, s);
    RetryExact(env, s, Named(from, to), now);
  }

  lemma NackInv(env: Env, y: System, from: u32, to: u32, reason: NackReason, now: int)
    requires Inv(env, y)
    ensures Inv(env, Resent(y, ApplyNack(y.s, from, to, reason, now)))
  {
    NackExact(env, y.s, from, to, reason, now);
    NackShape(y.s, from, to, reason, now);
    ResentInv(env, y, ApplyNack(y.s, from, to, reason, now), Named(from, to));
  }

  lemma AckInv(env: Env, y: System, i: nat, now: int)
    requires Inv(env, y) && i < |y.net| && y.net[i].AckMsg?
    ensures Inv(env, Receive(y, i, now))
  {
    hide SenderExact, Exact, Offset;
    LogEntryTruthful(env, y, i);
    var a := y.net[i].ack;
    HonestAckAcceptedIff(env, y.s, a);
    var (s', ok) := ApplyAck(y.s, a);
    FailExact(env, s');
    SilentSenderInv(env, y, if ok then s' else Fail(s'), i);
  }

  lemma VerdictInv(env: Env, y: System, i: nat, now: int)
    requires Inv(env, y) && i < |y.net| && (y.net[i].WindowMsg? || y.net[i].CompletedMsg? || y.net[i].FailedMsg?)
    ensures Inv(env, Receive(y, i, now))
  {
    LogEntryTruthful(env, y, i);
    SilentSenderInv(env, y, Receive(y, i, now).s, y.cursor);
  }

  lemma ReceiveInv(env: Env, y: System, i: nat, now: int)
    requires Inv(env, y) && i < |y.net|
    ensures Inv(env, Receive(y, i, now))
  {
    match y.net[i] {
      case AckMsg(_) => AckInv(env, y, i, now);
      case NackMsg(from, to, reason) => NackInv(env, y, from, to, reason, now);
      case Data(_, _) =>
      case End =>
      case _ => VerdictInv(env, y, i, now);
    }
  }

  lemma PlainStepInv(env: Env, y: System, step: Step)
    requires Inv(env, y) && Enabled(env, y, step)
    requires step.EndOut? || step.SenderFails? || step.Advertise?
    ensures Inv(env, Do(env, y, step))
  {
    hide Exact;
    match step {
      case EndOut(now) => SenderInv(env, y, FinishSending(y.s, now), [End], y.cursor);
      case SenderFails =>
        FailExact(env, y.s);
        SilentSenderInv(env, y, Fail(y.s), y.cursor);
      case Advertise(bytes, chunks) => SenderInv(env, y, y.s, [WindowMsg(bytes, chunks)], y.cursor);
    }
  }

  lemma StepInv(env: Env, y: System, step: Step)
    requires Inv(env, y) && Enabled(env, y, step)
    ensures Inv(env, Do(env, y, step))
  {
    hide Inv, OnEnd, Write, Scan, Receive;
    match step {
      case ChunkOut(now) => ChunkOutInv(env, y, now);
      case Monitor(now) => MonitorInv(env, y, now);
      case ToSender(i, now) => ReceiveInv(env, y, i, now);
      case ToReceiver(i, answer) => DeliverInv(env, y, i, answer);
      case EndOut(_) => PlainStepInv(env, y, step);
      case SenderFails => PlainStepInv(env, y, step);
      case Advertise(_, _) => PlainStepInv(env, y, step);
      case WriteChunk(n, ok) => WriteInv(env, y, n, ok);
      case CountChunk => CountInv(env, y);
      case Cancel => StopInv(env, y, step);
      case Commit(closeOk) => CommitInv(env, y, closeOk);
      case AbortCommit => StopInv(env, y, step);
      case _ => WriterInv(env, y, step);
    }
  }

  // ---------------------------------------------------------------- whole runs

  predicate StepAt(env: Env, run: seq<System>, steps: seq<Step>, i: nat)
    requires i < |steps| < |run|
  {
    Enabled(env, run[i], steps[i]) && run[i + 1] == Do(env, run[i], steps[i])
  }

  predicate IsRun(env: Env, run: seq<System>, steps: seq<Step>) {
    && |run| == |steps| + 1
    && Initial(env, run[0])
    && forall i :: 0 <= i < |steps| ==> StepAt(env, run, steps, i)
  }

  lemma {:induction false} InvInEveryRun(env: Env, run: seq<System>, steps: seq<Step>, n: nat)
    requires IsRun(env, run, steps) && n <= |steps|
    ensures Inv(env, run[n])
  {
    if n == 0 {
      InitialInv(env, run[0]);
    } else {
      InvInEveryRun(env, run, steps, n - 1);
      assert StepAt(env, run, steps, n - 1);
      StepInv(env, run[n - 1], steps[n - 1]);
    }
  }

  /** End-to-end exactness. Whatever the network loses, repeats or reorders, and however the
      writer goroutine is scheduled, the sink always holds a prefix of the source. A receiver
      that did not fail and is not between a write and its bookkeeping holds exactly the bytes
      its counters claim, which end on a chunk boundary. */
  lemma SinkIsSourcePrefix(env: Env, run: seq<System>, steps: seq<Step>, n: nat)
    requires IsRun(env, run, steps) && n <= |steps|
    ensures var r := run[n].r;
      && r.sink <= env.source
      && (!r.failed && !r.writer.Wrote? ==>
            && r.receivedBytes <= |env.source|
            && r.sink == env.source[..r.receivedBytes]
            && TransferOffsetForChunk(env.meta.total, env.meta.chunkSize, r.nextChunk) == Some(r.receivedBytes))
  {
    InvInEveryRun(env, run, steps, n);
    var r := run[n].r;
    OffsetIsTransferOffset(env.meta, r.nextChunk);
    OffsetMonotone(env.meta, r.nextChunk, env.meta.chunkCount);
    if r.writer.Taken? || r.writer.Wrote? {
      PrefixExtends(env.source, env.meta, r.writer.chunk.id);
    }
  }

  /** Every frame ever sent is truthful: data frames carry the source's bytes, an acknowledgement
      covers only chunks that were written and ends on a chunk boundary, every missing range has
      `from <= to`, and completion is announced only after the commit. */
  lemma FramesTruthful(env: Env, run: seq<System>, steps: seq<Step>, n: nat, i: nat)
    requires IsRun(env, run, steps) && n <= |steps| && i < |run[n].net|
    ensures EnvOk(env)
    ensures MsgOk(env.source, env.meta, run[n].s.chunkId, run[n].r.nextChunk, run[n].r.fate == Committed,
        run[n].net[i])
  {
    InvInEveryRun(env, run, steps, n);
    LogEntryTruthful(env, run[n], i);
  }

  /** The sender returns success only if the receiver committed exactly the whole source. */
  lemma SuccessMeansCommitted(env: Env, run: seq<System>, steps: seq<Step>, n: nat)
    requires IsRun(env, run, steps) && n <= |steps|
    requires Succeeded(run[n].s)
    ensures run[n].r.fate == Committed && run[n].r.sink == env.source
  {
    InvInEveryRun(env, run, steps, n);
  }

  /** The sandwich, in every reachable state: the sender's acknowledged count is at most what the
      receiver wrote, that at most what it accepted, that at most what was sent. The window holds
      exactly as many chunks as lie between acknowledged and sent, and the acknowledged count is
      the one chunk boundary that the byte counter stands for. */
  lemma SandwichInEveryRun(env: Env, run: seq<System>, steps: seq<Step>, n: nat)
    requires IsRun(env, run, steps) && n <= |steps|
    ensures var s := run[n].s;
      && Sandwich(run[n])
      && |s.pending| == s.chunkId - AckedCount(s)
      && AckedCount(s) <= env.meta.chunkCount && s.ackedBytes == Offset(env.meta, AckedCount(s))
      && forall k :: 0 <= k <= env.meta.chunkCount && Offset(env.meta, k) == s.ackedBytes ==> k == AckedCount(s)
  {
    InvInEveryRun(env, run, steps, n);
    var s := run[n].s;
    forall k | 0 <= k <= env.meta.chunkCount && Offset(env.meta, k) == s.ackedBytes ensures k == AckedCount(s) {
      OffsetInjective(env.meta, k, AckedCount(s));
    }
  }

  /** Retention: every chunk sent but not acknowledged is still in the window, at its place and
      with its bytes, so whatever a missing-range nack names can be repeated. */
  lemma UnackedChunksRetained(env: Env, run: seq<System>, steps: seq<Step>, n: nat, k: nat)
    requires IsRun(env, run, steps) && n <= |steps|
    requires AckedCount(run[n].s) <= k < run[n].s.chunkId
    ensures var i := k - AckedCount(run[n].s);
      && i < |run[n].s.pending|
      && k < env.meta.chunkCount && EnvOk(env)
      && run[n].s.pending[i].id == k
      && run[n].s.pending[i].payload == ChunkBytes(env.source, env.meta, k)
  {
    InvInEveryRun(env, run, steps, n);
    var s := run[n].s;
    assert HoldsChunk(env, s.pending[k - AckedCount(s)], AckedCount(s) + (k - AckedCount(s)));
  }

  lemma ConfigKept(env: Env, y: System, step: Step)
    requires Enabled(env, y, step)
    ensures var y' := Do(env, y, step); y'.s.limits == y.s.limits && y'.r.capacity == y.r.capacity
  {
    match step {
      case Monitor(now) => ScanShape(y.s, now);
      case ToSender(i, now) =>
        if y.net[i].NackMsg? {
          NackShape(y.s, y.net[i].from, y.net[i].to, y.net[i].reason, now);
        }
      case _ =>
    }
  }

  lemma {:induction false} ConfigConstant(env: Env, run: seq<System>, steps: seq<Step>, n: nat)
    requires IsRun(env, run, steps) && n <= |steps|
    ensures run[n].s.limits == run[0].s.limits && run[n].r.capacity == run[0].r.capacity
  {
    if n == 0 {
    } else {
      ConfigConstant(env, run, steps, n - 1);
      assert StepAt(env, run, steps, n - 1);
      ConfigKept(env, run[n - 1], steps[n - 1]);
    }
  }

  /** With the window clamped to the queue the peer announced in its Hello, the queue has room for
      every chunk that arrives in order: the branch that refuses a chunk because the queue is
      full is dead. `requested` is the window asked for, before the clamp. */
  lemma QueueNeverFull(env: Env, run: seq<System>, steps: seq<Step>, n: nat, i: nat, requested: nat)
    requires IsRun(env, run, steps) && n <= |steps|
    requires requested < U32_SIZE && ToU32(run[0].r.capacity) > 0
    requires run[0].s.limits.maxInFlight == ClampInFlight(requested, ToU32(run[0].r.capacity))
    requires i < |run[n].net| && run[n].net[i].Data?
    requires !run[n].r.failed && run[n].net[i].id == run[n].r.acceptedNextChunk
    ensures !QueueFull(run[n].r)
  {
    InvInEveryRun(env, run, steps, n);
    ConfigConstant(env, run, steps, n);
    ClampRespectsPeerIff(requested, ToU32(run[0].r.capacity));
    var y := run[n];
    LogEntryTruthful(env, y, i);
    assert |InFlight(y.r)| >= |y.r.queue|;
  }
}
