/** How often each frame of a transfer can be put on the wire, over every run of the protocol. */
module Transmissions {
  import opened Base
  import opened Sending
  import opened Receiving
  import opened Protocol
  import opened Repeats

  /** Data frames of chunk `k` among the first `n` entries of a log. */
  function CountTo(net: seq<Msg>, k: nat, n: nat): nat
    requires n <= |net|
  {
    if n == 0 then 0 else CountTo(net, k, n - 1) + if net[n - 1].Data? && net[n - 1].id == k then 1 else 0
  }

  function EndsTo(net: seq<Msg>, n: nat): nat
    requires n <= |net|
  {
    if n == 0 then 0 else EndsTo(net, n - 1) + if net[n - 1].End? then 1 else 0
  }

  function CountData(net: seq<Msg>, k: nat): nat {
    CountTo(net, k, |net|)
  }

  function CountEnd(net: seq<Msg>): nat {
    EndsTo(net, |net|)
  }

  lemma {:induction false} CountFront(net: seq<Msg>, more: seq<Msg>, k: nat, n: nat)
    requires n <= |net|
    ensures CountTo(net + more, k, n) == CountTo(net, k, n)
    ensures EndsTo(net + more, n) == EndsTo(net, n)
  {
    if n == 0 {
    } else {
      CountFront(net, more, k, n - 1);
    }
  }

  lemma {:induction false} CountBack(net: seq<Msg>, more: seq<Msg>, k: nat, n: nat)
    requires n <= |more|
    ensures CountTo(net + more, k, |net| + n) == CountData(net, k) + CountTo(more, k, n)
    ensures EndsTo(net + more, |net| + n) == CountEnd(net) + EndsTo(more, n)
  {
    if n == 0 {
      CountFront(net, more, k, |net|);
    } else {
      CountBack(net, more, k, n - 1);
    }
  }

  lemma CountAppend(net: seq<Msg>, more: seq<Msg>, k: nat)
    ensures CountData(net + more, k) == CountData(net, k) + CountData(more, k)
    ensures CountEnd(net + more) == CountEnd(net) + CountEnd(more)
  {
    CountBack(net, more, k, |more|);
  }

  /** What the sender's bookkeeping allows chunk `k` to have been sent so far. */
  function Allowed(s: Sender, k: nat): nat {
    if k >= s.chunkId then 0
    else if AckedCount(s) <= k && k - AckedCount(s) < |s.pending| then 1 + s.pending[k - AckedCount(s)].retries
    else 1 + s.limits.retryLimit
  }

  function AllowedEnd(s: Sender): nat {
    if s.doneSending then 1 + s.commitRetries else 0
  }

  /** Never more than allowed, and exactly that for a sender that has not failed, as far as its
      bookkeeping reaches back: to the first chunk not acknowledged. */
  predicate WithinAt(y: System, k: nat) {
    && CountData(y.net, k) <= Allowed(y.s, k)
    && (!y.s.failed && k >= AckedCount(y.s) ==> CountData(y.net, k) == Allowed(y.s, k))
  }

  /** The commit is not retried before the end frame is out. */
  predicate EndFirst(s: Sender) {
    s.doneSending || s.commitRetries == 0
  }

  ghost predicate Within(y: System) {
    && EndFirst(y.s)
    && (forall k: nat :: WithinAt(y, k))
    && CountEnd(y.net) <= AllowedEnd(y.s)
    && (!y.s.failed ==> CountEnd(y.net) == AllowedEnd(y.s))
  }

  /** What is appended is paid for by the change of the sender, chunk by chunk, and a sender that
      has not failed pays for nothing else. */
  predicate PaidAt(s: Sender, s': Sender, more: seq<Msg>, k: nat) {
    && (EndFirst(s) ==> EndFirst(s'))
    && Allowed(s, k) + CountData(more, k) <= Allowed(s', k)
    && AllowedEnd(s) + CountEnd(more) <= AllowedEnd(s')
    && (!s'.failed ==>
          && !s.failed && AllowedEnd(s) + CountEnd(more) == AllowedEnd(s')
          && AckedCount(s) <= AckedCount(s')
          && (k >= AckedCount(s') ==> Allowed(s, k) + CountData(more, k) == Allowed(s', k)))
  }

  ghost predicate Paid(s: Sender, s': Sender, more: seq<Msg>) {
    forall k: nat :: PaidAt(s, s', more, k)
  }

  lemma PaidKeeps(y: System, y': System, more: seq<Msg>)
    requires Within(y) && y'.net == y.net + more && Paid(y.s, y'.s, more)
    ensures Within(y')
  {
    forall k: nat ensures WithinAt(y', k) {
      CountAppend(y.net, more, k);
      assert WithinAt(y, k) && PaidAt(y.s, y'.s, more, k);
    }
    CountAppend(y.net, more, 0);
    assert PaidAt(y.s, y'.s, more, 0);
  }

  predicate NoSenderFrames(more: seq<Msg>) {
    forall i :: 0 <= i < |more| ==> !more[i].Data? && !more[i].End?
  }

  lemma {:induction false} RepliesCostNothing(more: seq<Msg>, k: nat, n: nat)
    requires NoSenderFrames(more) && n <= |more|
    ensures CountTo(more, k, n) == 0 && EndsTo(more, n) == 0
  {
    if n == 0 {
    } else {
      RepliesCostNothing(more, k, n - 1);
    }
  }

  /** A step that leaves the sender's bookkeeping alone and appends only replies. */
  lemma RepliesKeep(y: System, y': System, more: seq<Msg>)
    requires Within(y) && NoSenderFrames(more) && y'.net == y.net + more
    requires Paid(y.s, y'.s, [])
    ensures Within(y')
  {
    forall k: nat ensures PaidAt(y.s, y'.s, more, k) {
      RepliesCostNothing(more, k, |more|);
      RepliesCostNothing([], k, 0);
      assert PaidAt(y.s, y'.s, [], k);
    }
    PaidKeeps(y, y', more);
  }

  // ---------------------------------------------------------------- retransmission

  function CountIds(cs: seq<SentChunk>, id: nat, n: nat): nat
    requires n <= |cs|
  {
    if n == 0 then 0 else CountIds(cs, id, n - 1) + if cs[n - 1].id == id then 1 else 0
  }

  lemma {:induction false} CountIdsFront(cs: seq<SentChunk>, c: SentChunk, id: nat, n: nat)
    requires n <= |cs|
    ensures CountIds(cs + [c], id, n) == CountIds(cs, id, n)
  {
    if n == 0 {
    } else {
      CountIdsFront(cs, c, id, n - 1);
    }
  }

  lemma {:induction false} CountDataMsgs(cs: seq<SentChunk>, id: nat, n: nat)
    requires n <= |cs|
    ensures CountTo(DataMsgs(cs), id, n) == CountIds(cs, id, n) && EndsTo(DataMsgs(cs), n) == 0
  {
    if n == 0 {
    } else {
      CountDataMsgs(cs, id, n - 1);
    }
  }

  /** Among consecutive ids every picked chunk is repeated once. */
  lemma {:induction false} PickedOnce(p: seq<SentChunk>, a: nat, k: Pick, n: nat, id: nat)
    requires n <= |p| && IdsFrom(p, a)
    ensures var q := Picked(p, k, n); CountIds(q, id, |q|) == if a <= id < a + n && Picks(k, p[id - a]) then 1 else 0
  {
    if n == 0 {
    } else {
      PickedOnce(p, a, k, n - 1, id);
      var rest, c := Picked(p, k, n - 1), p[n - 1];
      CountIdsFront(rest, c, id, |rest|);
      assert Picked(p, k, n) == if Picks(k, c) then rest + [c] else rest;
    }
  }

  lemma ResendCount(s: Sender, k: Pick, now: int, id: nat)
    requires IdsFrom(s.pending, AckedCount(s))
    ensures var x := RetryPass(s, k, now);
      && CountEnd(DataMsgs(x.resend)) == 0
      && CountData(DataMsgs(x.resend), id)
         == if x.ok && 0 <= id - AckedCount(s) < |s.pending| && Picks(k, s.pending[id - AckedCount(s)]) then 1 else 0
  {
    var q := RetryPass(s, k, now).resend;
    CountDataMsgs(q, id, |q|);
    PickedOnce(s.pending, AckedCount(s), k, |s.pending|, id);
  }

  lemma RetryAllows(s: Sender, k: Pick, now: int, id: nat)
    requires |s.pending| <= s.chunkId
    ensures var x := RetryPass(s, k, now);
      && AllowedEnd(x.sender) == AllowedEnd(s) && AckedCount(x.sender) == AckedCount(s)
      && (EndFirst(s) ==> EndFirst(x.sender))
      && (x.sender.failed <==> s.failed || !x.ok)
      && var more := if x.ok && 0 <= id - AckedCount(s) < |s.pending|
           && Picks(k, s.pending[id - AckedCount(s)]) then 1 else 0;
      && Allowed(x.sender, id) >= Allowed(s, id) + more
      && (x.ok ==> Allowed(x.sender, id) == Allowed(s, id) + more)
  {
  }

  lemma RetryPaidAt(s: Sender, k: Pick, now: int, id: nat)
    requires |s.pending| <= s.chunkId && IdsFrom(s.pending, AckedCount(s))
    ensures var x := RetryPass(s, k, now); PaidAt(s, x.sender, DataMsgs(x.resend), id)
  {
    ResendCount(s, k, now, id);
    RetryAllows(s, k, now, id);
  }

  lemma CountWithEnd(msgs: seq<Msg>, end: bool, id: nat)
    ensures var more := msgs + if end then [End] else [];
      && CountData(more, id) == CountData(msgs, id)
      && CountEnd(more) == CountEnd(msgs) + if end then 1 else 0
  {
    CountAppend(msgs, [End], id);
    assert CountTo([End], id, 0) == 0 && EndsTo([End], 0) == 0;
    assert msgs + [] == msgs;
  }

  /** A scan pays for the chunks it repeats and for a repeated end frame. */
  lemma ScanPaidAt(s: Sender, now: int, id: nat)
    requires |s.pending| <= s.chunkId && IdsFrom(s.pending, AckedCount(s))
    ensures var x := Scan(s, now); PaidAt(s, x.sender, DataMsgs(x.resend) + if x.resendEnd then [End] else [], id)
  {
    var x := Scan(s, now);
    CountWithEnd(DataMsgs(x.resend), x.resendEnd, id);
    CountDataMsgs([], id, 0);
    if !Idle(s) {
      CommitAllows(s, now, id);
      RetryPaidAt(ScanCommit(s, now), Expired(now, s.limits.ackTimeout), now, id);
      hide Allowed, AllowedEnd, CountTo, EndsTo, DataMsgs, IdsFrom, ScanCommit, CommitExpired, EndFirst;
    }
  }

  /** A commit that is repeated allows one end frame more. */
  lemma CommitAllows(s: Sender, now: int, id: nat)
    requires !s.failed
    ensures var s1 := ScanCommit(s, now);
      && Allowed(s1, id) == Allowed(s, id) && AckedCount(s1) == AckedCount(s)
      && s1.pending == s.pending && s1.chunkId == s.chunkId && s1.limits == s.limits
      && AllowedEnd(s1) == AllowedEnd(s) + (if CommitExpired(s, now) && !s1.failed then 1 else 0)
      && (EndFirst(s) ==> EndFirst(s1)) && (s1.failed ==> CommitExpired(s, now))
  {
  }

  lemma NackRetried(s: Sender, from: u32, to: u32, now: int, id: nat)
    requires |s.pending| <= s.chunkId && IdsFrom(s.pending, AckedCount(s)) && from <= to
    ensures var x := RetryPass(s, Named(from, to), now);
      !x.resendEnd && PaidAt(s, if x.ok then x.sender else Fail(x.sender), DataMsgs(x.resend), id)
  {
    RetryPaidAt(s, Named(from, to), now, id);
    hide RetryPass, Allowed, AllowedEnd, CountTo, EndsTo, IdsFrom;
    RetryShape(s, Named(from, to), now);
    FailureAllows(RetryPass(s, Named(from, to), now).sender);
  }

  lemma WindowAllows(s: Sender, id: nat)
    ensures Allowed(s.(window := Window(true, 0, 0)), id) == Allowed(s, id)
  {
  }

  lemma FailureAllows(s: Sender)
    ensures forall id: nat :: Allowed(Fail(s), id) == Allowed(s, id)
    ensures AllowedEnd(Fail(s)) == AllowedEnd(s) && Fail(s).failed && AckedCount(Fail(s)) == AckedCount(s)
    ensures EndFirst(Fail(s)) == EndFirst(s)
  {
  }

  lemma NackPaidAt(s: Sender, from: u32, to: u32, reason: NackReason, now: int, id: nat)
    requires |s.pending| <= s.chunkId && IdsFrom(s.pending, AckedCount(s))
    ensures var x := ApplyNack(s, from, to, reason, now);
      !x.resendEnd && PaidAt(s, if x.ok then x.sender else Fail(x.sender), DataMsgs(x.resend), id)
  {
    hide DataMsgs, IdsFrom, Picked, RetryPass, Allowed, CountTo, EndsTo;
    CountDataMsgs([], id, 0);
    FailureAllows(s);
    if from <= to && reason == MissingChunk {
      NackRetried(s, from, to, now, id);
    } else if from <= to && reason == FlowControl {
      WindowAllows(s, id);
    }
  }

  // ---------------------------------------------------------------- every step

  lemma MonitorWithin(env: Env, y: System, now: int)
    requires Inv(env, y) && Within(y)
    ensures Within(Resent(y, Scan(y.s, now)))
  {
    IdsConsecutive(env, y.s.pending, AckedCount(y.s));
    var x := Scan(y.s, now);
    var more := DataMsgs(x.resend) + if x.resendEnd then [End] else [];
    forall id: nat ensures PaidAt(y.s, Resent(y, x).s, more, id) {
      ScanPaidAt(y.s, now, id);
    }
    assert Resent(y, x).net == y.net + more;
    PaidKeeps(y, Resent(y, x), more);
  }

  lemma NackWithin(env: Env, y: System, from: u32, to: u32, reason: NackReason, now: int)
    requires Inv(env, y) && Within(y)
    ensures Within(Resent(y, ApplyNack(y.s, from, to, reason, now)))
  {
    hide Exact, NetTruthful, ApplyNack, Within, DataMsgs;
    IdsConsecutive(env, y.s.pending, AckedCount(y.s));
    var x := ApplyNack(y.s, from, to, reason, now);
    forall id: nat ensures !x.resendEnd && PaidAt(y.s, Resent(y, x).s, DataMsgs(x.resend), id) {
      NackPaidAt(y.s, from, to, reason, now, id);
    }
    assert PaidAt(y.s, Resent(y, x).s, DataMsgs(x.resend), 0);
    PaidKeeps(y, Resent(y, x), DataMsgs(x.resend));
  }

  lemma DroppingAllows(s: Sender, s': Sender, d: nat)
    requires |s.pending| <= s.chunkId && RetriesWithin(s.pending, s.limits.retryLimit)
    requires d <= |s.pending| && s'.pending == s.pending[d..] && s'.chunkId == s.chunkId && s'.limits == s.limits
    ensures AckedCount(s') == AckedCount(s) + d
    ensures forall id: nat :: Allowed(s', id) >= Allowed(s, id)
    ensures forall id: nat :: id >= AckedCount(s') ==> Allowed(s', id) == Allowed(s, id)
  {
  }

  lemma AckAllows(env: Env, s: Sender, a: Ack)
    requires SenderExact(env, s) && HonestAck(env.meta, a) && a.to < s.chunkId
    ensures var s' := ApplyAck(s, a).0;
      && AckedCount(s) <= AckedCount(s') && (s.failed ==> s'.failed)
      && (forall id: nat :: Allowed(s', id) >= Allowed(s, id))
      && (forall id: nat :: id >= AckedCount(s') ==> Allowed(s', id) == Allowed(s, id))
  {
    HonestAckAcceptedIff(env, s, a);
    if AckedCount(s) <= a.to + 1 {
      FreshAck(env, s, a);
      DroppingAllows(s, ApplyAck(s, a).0, a.to + 1 - AckedCount(s));
    }
  }

  lemma AckEnds(s: Sender, a: Ack)
    ensures AllowedEnd(ApplyAck(s, a).0) == AllowedEnd(s) && EndFirst(ApplyAck(s, a).0) == EndFirst(s)
  {
    hide InsideBytes, Outside, Matched;
  }

  lemma AckWithin(env: Env, y: System, i: nat, now: int)
    requires Inv(env, y) && Within(y) && i < |y.net| && y.net[i].AckMsg?
    ensures Within(Receive(y, i, now))
  {
    hide SenderExact, Exact, Within, ApplyAck, Allowed, AllowedEnd, Fail;
    LogEntryTruthful(env, y, i);
    AckAllows(env, y.s, y.net[i].ack);
    assert y.net + [] == y.net;
    FailureAllows(ApplyAck(y.s, y.net[i].ack).0);
    AckEnds(y.s, y.net[i].ack);
    forall k: nat ensures PaidAt(y.s, Receive(y, i, now).s, [], k) {
      RepliesCostNothing([], k, 0);
    }
    RepliesKeep(y, Receive(y, i, now), []);
  }

  lemma ChunkOutWithin(env: Env, y: System, now: int)
    requires Inv(env, y) && Within(y) && Enabled(env, y, ChunkOut(now))
    ensures Within(Do(env, y, ChunkOut(now)))
  {
    hide Inv, ChunkBytes;
    ChunkOutSender(env, y, now);
    var c := ChunkBytes(env.source, env.meta, y.s.chunkId);
    var more := [Data(y.s.chunkId, c)];
    forall id: nat ensures PaidAt(y.s, SendChunk(y.s, c, now), more, id) {
      assert CountTo(more, id, 0) == 0 && EndsTo(more, 0) == 0;
    }
    PaidKeeps(y, Do(env, y, ChunkOut(now)), more);
  }

  lemma EndOutWithin(env: Env, y: System, now: int)
    requires Inv(env, y) && Within(y) && Enabled(env, y, EndOut(now))
    ensures Within(Do(env, y, EndOut(now)))
  {
    assert EndFirst(y.s);
    forall id: nat ensures PaidAt(y.s, FinishSending(y.s, now), [End], id) {
      CountWithEnd([], true, id);
      assert [] + [End] == [End];
    }
    PaidKeeps(y, Do(env, y, EndOut(now)), [End]);
  }

  lemma ReceiverWithin(env: Env, y: System, step: Step, x: (Receiver, seq<Msg>))
    requires Within(y) && Enabled(env, y, step) && Do(env, y, step) == Replied(y, x) && NoSenderFrames(x.1)
    ensures Within(Do(env, y, step))
  {
    forall k: nat ensures PaidAt(y.s, y.s, [], k) {
      RepliesCostNothing([], k, 0);
    }
    RepliesKeep(y, Replied(y, x), x.1);
  }

  lemma DeliverWithin(env: Env, y: System, i: nat, answer: bool)
    requires Within(y) && Enabled(env, y, ToReceiver(i, answer))
    ensures Within(Do(env, y, ToReceiver(i, answer)))
  {
    match y.net[i] {
      case Data(id, payload) => ReceiverWithin(env, y, ToReceiver(i, answer), OnData(y.r, id, payload, answer));
      case End => ReceiverWithin(env, y, ToReceiver(i, answer), OnEnd(y.r, 0, answer));
      case _ =>
    }
  }

  lemma QuietWithin(y: System, y': System)
    requires Within(y) && y'.net == y.net
    requires y'.s.chunkId == y.s.chunkId && y'.s.pending == y.s.pending && y'.s.limits == y.s.limits
    requires y'.s.doneSending == y.s.doneSending && y'.s.commitRetries == y.s.commitRetries
    requires y.s.failed ==> y'.s.failed
    ensures Within(y')
  {
    forall k: nat ensures WithinAt(y', k) {
      assert WithinAt(y, k);
    }
  }

  lemma ReceiveWithin(env: Env, y: System, i: nat, now: int)
    requires Inv(env, y) && Within(y) && i < |y.net|
    ensures Within(Receive(y, i, now))
  {
    match y.net[i] {
      case AckMsg(_) => AckWithin(env, y, i, now);
      case NackMsg(from, to, reason) => NackWithin(env, y, from, to, reason, now);
      case _ => QuietWithin(y, Receive(y, i, now));
    }
  }

  lemma StepWithin(env: Env, y: System, step: Step)
    requires Inv(env, y) && Within(y) && Enabled(env, y, step)
    ensures Within(Do(env, y, step))
  {
    hide Inv, Within, Receive;
    match step {
      case ChunkOut(now) => ChunkOutWithin(env, y, now);
      case EndOut(now) => EndOutWithin(env, y, now);
      case Monitor(now) => MonitorWithin(env, y, now);
      case ToSender(i, now) => ReceiveWithin(env, y, i, now);
      case ToReceiver(i, answer) => DeliverWithin(env, y, i, answer);
      case WriteChunk(n, ok) => ReceiverWithin(env, y, step, Write(y.r, n, ok));
      case CountChunk => ReceiverWithin(env, y, step, CountWritten(y.r));
      case Commit(closeOk) => ReceiverWithin(env, y, step, FinishEnd(y.r, closeOk, env.sha, env.checksum));
      case Advertise(bytes, chunks) => ReceiverWithin(env, y, step, (y.r, [WindowMsg(bytes, chunks)]));
      case _ => QuietWithin(y, Do(env, y, step));
    }
  }

  lemma {:induction false} WithinInEveryRun(env: Env, run: seq<System>, steps: seq<Step>, n: nat)
    requires IsRun(env, run, steps) && n <= |steps|
    ensures Inv(env, run[n]) && Within(run[n])
  {
    if n == 0 {
      InitialInv(env, run[0]);
    } else {
      WithinInEveryRun(env, run, steps, n - 1);
      assert StepAt(env, run, steps, n - 1);
      StepInv(env, run[n - 1], steps[n - 1]);
      StepWithin(env, run[n - 1], steps[n - 1]);
    }
  }

  /** Across timeouts and nacks, every chunk and the end frame go out at most `1 + retryLimit`
      times; a chunk still in the window was sent at most once more than its retry count. */
  lemma EachFrameSentBoundedly(env: Env, run: seq<System>, steps: seq<Step>, n: nat, k: nat)
    requires IsRun(env, run, steps) && n <= |steps|
    ensures CountData(run[n].net, k) <= 1 + run[n].s.limits.retryLimit
    ensures CountEnd(run[n].net) <= 1 + run[n].s.limits.retryLimit
    ensures AckedCount(run[n].s) <= k < run[n].s.chunkId && k - AckedCount(run[n].s) < |run[n].s.pending|
        ==> CountData(run[n].net, k) <= 1 + run[n].s.pending[k - AckedCount(run[n].s)].retries
  {
    WithinInEveryRun(env, run, steps, n);
    assert WithinAt(run[n], k);
  }

  /** The retry counters tell the truth: as long as the sender has not failed, a chunk in the
      window went out once and once more for each retry counted, a later one not at all, and the
      end frame once and once more for each retry of the commit. */
  lemma RetriesAreRepeats(env: Env, run: seq<System>, steps: seq<Step>, n: nat, k: nat)
    requires IsRun(env, run, steps) && n <= |steps| && !run[n].s.failed && AckedCount(run[n].s) <= k
    ensures k < run[n].s.chunkId ==> k - AckedCount(run[n].s) < |run[n].s.pending|
    ensures CountData(run[n].net, k)
         == if k < run[n].s.chunkId then 1 + run[n].s.pending[k - AckedCount(run[n].s)].retries else 0
    ensures CountEnd(run[n].net) == if run[n].s.doneSending then 1 + run[n].s.commitRetries else 0
  {
    WithinInEveryRun(env, run, steps, n);
    assert WithinAt(run[n], k);
  }
}
