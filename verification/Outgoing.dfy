/** The `outgoingTransfer` object of session.go, with the fields its methods update under the
    transfer's lock. Each method is proved against the function of module `Sending` it runs. */
module Outgoing {
  import opened Base
  import opened Chunks
  import opened Sending

  lemma CompactStart(p: seq<SentChunk>, from: u32, to: u32)
    ensures Outside(p, from, to, 0) == [] && InsideBytes(p, from, to, 0) == 0 && !Matched(p, from, to, 0)
  {
  }

  lemma SubtractTwice(a: nat, b: nat, c: nat)
    ensures SaturatingSub(a, b + c) == if SaturatingSub(a, b) >= c then SaturatingSub(a, b) - c else 0
    ensures b == 0 ==> SaturatingSub(a, b) == a
  {
  }

  /** One turn of the loop that compacts the window. */
  lemma CompactStep(p: seq<SentChunk>, from: u32, to: u32, i: nat)
    requires i < |p|
    ensures Outside(p, from, to, i + 1) == Outside(p, from, to, i) + if InRange(p[i], from, to) then [] else [p[i]]
    ensures InsideBytes(p, from, to, i + 1)
         == InsideBytes(p, from, to, i) + if InRange(p[i], from, to) then |p[i].payload| else 0
    ensures Matched(p, from, to, i + 1) <==> Matched(p, from, to, i) || InRange(p[i], from, to)
  {
  }

  class OutgoingTransfer {
    const meta: Meta
    const limits: Limits
    /** The window: the first `len` slots of a backing array. */
    var buf: array<SentChunk>
    var len: nat
    var pendingBytes: nat
    var window: Window
    var ackedBytes: nat
    var doneSending: bool
    var completed: bool
    var commitSentAt: Option<int>
    var commitRetries: nat
    var failed: bool
    var started: bool
    var written: nat
    var chunkId: nat

    predicate Valid()
      reads this
    {
      len <= buf.Length
    }

    function Pending(): seq<SentChunk>
      requires Valid()
      reads this, buf
    {
      buf[..len]
    }

    function View(): Sender
      requires Valid()
      reads this, buf
    {
      Sender(meta, limits, Pending(), pendingBytes, window, ackedBytes, doneSending, completed,
             commitSentAt, commitRetries, failed, started, written, chunkId)
    }

    /** `registerOutgoing`, with a backing array of any capacity. */
    constructor (meta: Meta, limits: Limits, flowControl: bool, resumed: bool, capacity: nat)
      ensures Valid() && fresh(buf)
      ensures View() == Sender(meta, limits, [], 0, Window(flowControl, 0, 0), 0, false, false,
                               None, 0, false, !resumed, 0, 0)
      ensures Counters(View()) && (WellFormed(meta) ==> Accounting(View()))
    {
      this.meta := meta;
      this.limits := limits;
      buf, len := new SentChunk[capacity](_ => SentChunk(0, [], 0, 0)), 0;
      pendingBytes, window, ackedBytes := 0, Window(flowControl, 0, 0), 0;
      doneSending, completed, commitSentAt, commitRetries := false, false, None, 0;
      failed, started, written, chunkId := false, !resumed, 0, 0;
    }

    /** Go's `append` of one chunk: in place if there is room, otherwise into a larger array. */
    method Append(c: SentChunk)
      requires Valid()
      modifies this`buf, this`len, buf
      ensures Valid() && (buf == old(buf) || fresh(buf))
      ensures Pending() == old(Pending()) + [c]
    {
      if len == buf.Length {
        var capacity: nat :| capacity > len;
        var bigger := new SentChunk[capacity](_ => c);
        var i := 0;
        while i < len
          modifies bigger
          invariant i <= len && bigger[..i] == buf[..i]
        {
          bigger[i] := buf[i];
          i := i + 1;
        }
        buf := bigger;
      }
      buf[len] := c;
      len := len + 1;
    }

    /** One turn of `sendTransferBody` and `sendReliableChunk`: when the window has room the chunk
        is registered and goes out, otherwise nothing changes and the caller waits. */
    method TrySend(payload: seq<byte>, now: int) returns (sent: bool)
      requires Valid() && Position(View())
      requires started && !doneSending && written < meta.total && |payload| == ReadSize(View())
      modifies this, buf
      ensures Valid() && (buf == old(buf) || fresh(buf))
      ensures sent <==> old(CanSend(View()))
      ensures Position(View()) && (old(Accounting(View())) ==> Accounting(View()))
      ensures old(chunkId) < U32_SIZE
      ensures View() == if sent then SendChunk(old(View()), payload, now) else old(View())
    {
      hide Position, Counters;
      ghost var s := View();
      LoopInRange(s);
      if failed
         || len >= limits.maxInFlight
         || pendingBytes + |payload| > limits.maxInFlightBytes
         || (window.known && (window.bytes < |payload| || window.chunks == 0))
      {
        return false;
      }
      PositionSend(s, payload, now);
      if Counters(s) {
        CountersSend(s, payload, now);
      }
      Append(SentChunk(chunkId, payload, now, 0));
      pendingBytes := pendingBytes + |payload|;
      if window.known {
        window := Window(true, window.bytes - |payload|, window.chunks - 1);
      }
      written := written + |payload|;
      chunkId := chunkId + 1;
      return true;
    }

    /** Moves the chunk at `i` to the place `dst` in the same array. */
    method KeepAt(dst: nat, i: nat)
      requires dst <= i < len <= buf.Length
      modifies buf
      ensures buf[..dst + 1] == old(buf[..dst]) + [old(buf[i])]
      ensures forall j :: i < j < len ==> buf[j] == old(buf[j])
    {
      buf[dst] := buf[i];
    }

    /** The loop of `applyAck`: one pass that compacts the window in its own backing array, writing
        behind the place it reads, and moves the bytes of every acknowledged chunk from one
        counter to the other. */
    method Compact(from: u32, to: u32) returns (matched: bool)
      requires Valid()
      modifies this`len, this`ackedBytes, this`pendingBytes, buf
      ensures Valid()
      ensures matched <==> Matched(old(Pending()), from, to, old(len))
      ensures Pending() == Outside(old(Pending()), from, to, old(len))
      ensures ackedBytes == old(ackedBytes) + InsideBytes(old(Pending()), from, to, old(len))
      ensures pendingBytes == SaturatingSub(old(pendingBytes), InsideBytes(old(Pending()), from, to, old(len)))
    {
      matched := false;
      var dst, i := 0, 0;
      ghost var p := buf[..len];
      CompactStart(p, from, to);
      SubtractTwice(pendingBytes, 0, 0);
      hide Outside, InsideBytes, Matched, InRange, Pending, View, SaturatingSub;
      while i < len
        invariant dst <= i <= len == |p|
        invariant buf[..dst] == Outside(p, from, to, i)
        invariant forall j :: i <= j < len ==> buf[j] == p[j]
        invariant matched <==> Matched(p, from, to, i)
        invariant ackedBytes == old(ackedBytes) + InsideBytes(p, from, to, i)
        invariant pendingBytes == SaturatingSub(old(pendingBytes), InsideBytes(p, from, to, i))
      {
        var chunk := buf[i];
        CompactStep(p, from, to, i);
        SubtractTwice(old(pendingBytes), InsideBytes(p, from, to, i), |chunk.payload|);
        if InRange(chunk, from, to) {
          matched := true;
          ackedBytes := ackedBytes + |chunk.payload|;
          pendingBytes := if pendingBytes >= |chunk.payload| then pendingBytes - |chunk.payload| else 0;
        } else {
          KeepAt(dst, i);
          dst := dst + 1;
        }
        i := i + 1;
      }
      len := dst;
      assert buf[..len] == Outside(p, from, to, |p|);
    }

    /** `applyAck`. */
    method HandleAck(a: Ack) returns (ok: bool)
      requires Valid()
      modifies this`len, this`ackedBytes, this`pendingBytes, this`failed, buf
      ensures Valid()
      ensures (View(), ok) == ApplyAck(old(View()), a)
    {
      if a.from > a.to || a.to >= meta.chunkCount || a.bytes < ackedBytes || a.bytes > meta.total {
        return false;
      }
      var matched := Compact(a.from, a.to);
      if matched && a.bytes != ackedBytes {
        failed := true;
        return false;
      }
      return matched || a.bytes <= ackedBytes;
    }

    /** Repeats picked chunks in window order up to `stop`, the first one without retries left. */
    method RetryUntil(k: Pick, now: int) returns (resend: seq<SentChunk>, stop: nat)
      requires Valid()
      modifies buf
      ensures stop == FirstExhausted(old(Pending()), k, limits.retryLimit, 0)
      ensures forall j :: 0 <= j < len ==> buf[j] == Retried(old(Pending()), k, stop, now)[j]
      ensures resend == Picked(old(Pending()), k, stop)
    {
      ghost var p := Pending();
      ghost var n := FirstExhausted(p, k, limits.retryLimit, 0);
      ghost var q := Retried(p, k, n, now);
      assert Picked(p, k, 0) == [];
      hide FirstExhausted, Retried, Picked, Picks, Bump;
      resend, stop := [], 0;
      while stop < len
        invariant stop <= n <= len == |p| == |q|
        invariant forall j :: 0 <= j < len ==> buf[j] == if j < stop then q[j] else p[j]
        invariant resend == Picked(p, k, stop)
      {
        var chunk := buf[stop];
        PickedStep(p, k, stop);
        if Picks(k, chunk) {
          if chunk.retries >= limits.retryLimit {
            return;
          }
          buf[stop] := Bump(chunk, now);
          resend := resend + [chunk];
        }
        stop := stop + 1;
      }
    }

    /** The loop shared by `applyNack` and `processOutgoingTimeouts`: gives up at the first picked
        chunk without retries left. */
    method RetryPicked(k: Pick, now: int) returns (resend: seq<SentChunk>, ok: bool)
      requires Valid()
      modifies this`failed, buf
      ensures var n := FirstExhausted(old(Pending()), k, limits.retryLimit, 0);
        && Pending() == Retried(old(Pending()), k, n, now)
        && ok == (n == len)
        && resend == (if ok then Picked(old(Pending()), k, n) else [])
      ensures failed == (old(failed) || !ok)
    {
      hide FirstExhausted, Retried, Picked;
      ghost var p := Pending();
      var stop;
      resend, stop := RetryUntil(k, now);
      assert Pending() == Retried(p, k, stop, now);
      ok := stop == len;
      if !ok {
        failed := true;
        resend := [];
      }
    }

    /** `applyNack`. */
    method HandleNack(from: u32, to: u32, reason: NackReason, now: int) returns (resend: seq<SentChunk>, ok: bool)
      requires Valid()
      modifies this`window, this`failed, buf
      ensures var r := ApplyNack(old(View()), from, to, reason, now);
        View() == r.sender && resend == r.resend && ok == r.ok
    {
      if from > to {
        return [], false;
      }
      match reason
      case Fatal =>
        failed := true;
        return [], true;
      case FlowControl =>
        window := Window(true, 0, 0);
        return [], true;
      case MissingChunk =>
        resend, ok := RetryWindow(Named(from, to), now);
    }

    /** `nextOutgoingDeadlineLocked`: the earliest instant this transfer needs attention. */
    method NextDeadline() returns (next: Option<int>)
      requires Valid()
      ensures IsEarliest(View(), next)
    {
      next := None;
      ghost var s := View();
      if doneSending && !completed && commitSentAt.Some? {
        next := Some(commitSentAt.value + limits.ackTimeout);
      }
      var i := 0;
      while i < len
        invariant i <= len && s == View()
        invariant next.None? ==> i == 0 && !AwaitsCommit(s)
        invariant next.Some? ==> LiveDeadline(s, next.value)
        invariant AwaitsCommit(s) ==> next.Some? && next.value <= commitSentAt.value + limits.ackTimeout
        invariant forall j :: 0 <= j < i ==> next.Some? && next.value <= s.pending[j].sentAt + limits.ackTimeout
      {
        assert buf[i] == s.pending[i];
        var deadline := buf[i].sentAt + limits.ackTimeout;
        if next.None? || deadline < next.value {
          next := Some(deadline);
        }
        i := i + 1;
      }
    }

    /** Folds this transfer's deadlines, just scanned, into the monitor's delay. */
    method Sooner(ghost before: Sender, delay: Option<int>, now: int) returns (next: Option<int>)
      requires Valid() && View() == Scan(before, now).sender && limits.ackTimeout > 0
      requires delay.Some? ==> delay.value > 0
      ensures Covers(next, now, View())
      ensures forall s :: Covers(delay, now, s) ==> Covers(next, now, s)
      ensures next.Some? ==> next.value > 0
    {
      if failed || (doneSending && len == 0 && completed) {
        return delay;
      }
      var deadline := NextDeadline();
      if deadline.None? {
        return delay;
      }
      ScanMovesDeadlines(before, now, deadline.value);
      if delay.None? || deadline.value - now < delay.value {
        return Some(deadline.value - now);
      }
      return delay;
    }

    method RetryWindow(k: Pick, now: int) returns (resend: seq<SentChunk>, ok: bool)
      requires Valid()
      modifies this`failed, buf
      ensures Retransmission(View(), resend, false, ok) == RetryPass(old(View()), k, now)
    {
      resend, ok := RetryPicked(k, now);
    }

    method RetryCommit(now: int) returns (expired: bool)
      requires Valid()
      modifies this`commitRetries, this`commitSentAt, this`failed
      ensures expired == CommitExpired(old(View()), now)
      ensures View() == ScanCommit(old(View()), now)
    {
      expired := doneSending && !completed && commitSentAt.Some? && commitSentAt.value + limits.ackTimeout - now <= 0;
      if expired {
        if commitRetries >= limits.retryLimit {
          failed := true;
        } else {
          commitRetries := commitRetries + 1;
          commitSentAt := Some(now);
        }
      }
    }

    /** One transfer's share of `processOutgoingTimeouts`. */
    method ScanTimeouts(now: int) returns (resend: seq<SentChunk>, resendEnd: bool)
      requires Valid()
      modifies this`commitRetries, this`commitSentAt, this`failed, buf
      ensures Retransmission(View(), resend, resendEnd, true) == Scan(old(View()), now)
    {
      resend, resendEnd := [], false;
      if failed || (doneSending && len == 0 && completed) {
        return;
      }
      resendEnd := RetryCommit(now);
      if failed {
        return [], false;
      }
      var ok;
      resend, ok := RetryWindow(Expired(now, limits.ackTimeout), now);
      resendEnd := resendEnd && ok;
    }
  }

  lemma LoopInRange(s: Sender)
    requires Position(s) && s.written < s.meta.total
    ensures s.chunkId < U32_SIZE && s.written <= s.meta.total
  {
  }

  /** A delay counted from `now` that comes no later than any deadline of a live transfer. */
  ghost predicate Covers(delay: Option<int>, now: int, s: Sender) {
    Idle(s) || forall d :: LiveDeadline(s, d) ==> delay.Some? && now + delay.value <= d
  }

  /** A frame that the scan puts on the wire, and the transfer it belongs to. */
  datatype Task = RepeatEnd(transfer: nat) | RepeatChunk(transfer: nat, chunk: SentChunk)

  function ChunkTasks(i: nat, chunks: seq<SentChunk>, n: nat): seq<Task>
    requires n <= |chunks|
  {
    if n == 0 then [] else ChunkTasks(i, chunks, n - 1) + [RepeatChunk(i, chunks[n - 1])]
  }

  /** The frames of one transfer: the end frame first, then the chunks in window order. */
  function TransferTasks(i: nat, resend: seq<SentChunk>, resendEnd: bool): seq<Task> {
    (if resendEnd then [RepeatEnd(i)] else []) + ChunkTasks(i, resend, |resend|)
  }

  function AllTasks(views: seq<Sender>, now: int, n: nat): seq<Task>
    requires n <= |views|
  {
    if n == 0 then []
    else AllTasks(views, now, n - 1)
         + TransferTasks(n - 1, Scan(views[n - 1], now).resend, Scan(views[n - 1], now).resendEnd)
  }

  method CollectTasks(i: nat, resend: seq<SentChunk>, resendEnd: bool) returns (tasks: seq<Task>)
    ensures tasks == TransferTasks(i, resend, resendEnd)
  {
    tasks := if resendEnd then [RepeatEnd(i)] else [];
    ghost var first := tasks;
    for j := 0 to |resend|
      invariant tasks == first + ChunkTasks(i, resend, j)
    {
      tasks := tasks + [RepeatChunk(i, resend[j])];
    }
  }

  /** Transfers that share neither object nor backing array. */
  predicate Apart(ots: seq<OutgoingTransfer>)
    reads ots
  {
    && (forall i :: 0 <= i < |ots| ==> ots[i].Valid() && ots[i].limits.ackTimeout > 0)
    && (forall i, j :: 0 <= i < j < |ots| ==> ots[i] != ots[j] && ots[i].buf != ots[j].buf)
  }

  function Views(ots: seq<OutgoingTransfer>, n: nat): (views: seq<Sender>)
    requires n <= |ots| && Apart(ots)
    reads ots, set o | o in ots :: o.buf
    ensures |views| == n && forall i :: 0 <= i < n ==> views[i] == ots[i].View()
  {
    if n == 0 then [] else Views(ots, n - 1) + [ots[n - 1].View()]
  }

  /** The transfers after the first `n` of them have been scanned. */
  function Scanned(views: seq<Sender>, now: int, n: nat): (r: seq<Sender>)
    requires n <= |views|
    ensures |r| == |views|
    ensures forall i :: 0 <= i < |r| ==> r[i] == if i < n then Scan(views[i], now).sender else views[i]
  {
    if n == 0 then views else Scanned(views, now, n - 1)[n - 1 := Scan(views[n - 1], now).sender]
  }

  /** The delay covers the first `n` transfers. */
  ghost predicate CoversAll(delay: Option<int>, now: int, views: seq<Sender>, n: nat) {
    forall i :: 0 <= i < n <= |views| ==> Covers(delay, now, views[i])
  }

  method ScanOne(ots: seq<OutgoingTransfer>, i: nat, delay: Option<int>, now: int)
    returns (next: Option<int>, tasks: seq<Task>)
    requires i < |ots| && Apart(ots)
    requires delay.Some? ==> delay.value > 0
    modifies ots[i], ots[i].buf
    ensures ots[i].buf == old(ots[i].buf) && Apart(ots)
    ensures var x := Scan(old(Views(ots, |ots|))[i], now);
      && Views(ots, |ots|) == old(Views(ots, |ots|))[i := x.sender]
      && tasks == TransferTasks(i, x.resend, x.resendEnd)
      && Covers(next, now, x.sender)
    ensures forall s :: Covers(delay, now, s) ==> Covers(next, now, s)
    ensures next.Some? ==> next.value > 0
  {
    hide Scan, Covers;
    ghost var views := Views(ots, |ots|);
    ghost var before := ots[i].View();
    var resend, resendEnd := ots[i].ScanTimeouts(now);
    tasks := CollectTasks(i, resend, resendEnd);
    next := ots[i].Sooner(before, delay, now);
    forall j | 0 <= j < |ots| && j != i ensures ots[j].View() == views[j] {
      assert ots[j] != ots[i] && ots[j].buf != ots[i].buf;
    }
    assert Views(ots, |ots|) == views[i := ots[i].View()];
  }

  /** `processOutgoingTimeouts` over all registered transfers, in whatever order the map yields
      them. It scans every transfer and repeats exactly the frames of each scan. The delay it
      returns is positive, reaches no further than the earliest deadline of any transfer that is
      still alive, and is absent only when none has one. */
  method ProcessOutgoingTimeouts(ots: seq<OutgoingTransfer>, now: int) returns (delay: Option<int>, tasks: seq<Task>)
    requires Apart(ots)
    modifies ots, set o | o in ots :: o.buf
    ensures Apart(ots)
    ensures Views(ots, |ots|) == Scanned(old(Views(ots, |ots|)), now, |ots|)
    ensures tasks == AllTasks(old(Views(ots, |ots|)), now, |ots|)
    ensures CoversAll(delay, now, Views(ots, |ots|), |ots|)
    ensures delay.Some? ==> delay.value > 0
  {
    hide *;
    delay, tasks := None, [];
    ghost var views := Views(ots, |ots|);
    ScanStart(views, now);
    var i := 0;
    while i < |ots|
      invariant i <= |ots| && Apart(ots)
      invariant forall j :: 0 <= j < |ots| ==> ots[j].buf == old(ots[j].buf)
      invariant Views(ots, |ots|) == Scanned(views, now, i)
      invariant CoversAll(delay, now, Scanned(views, now, i), i)
      invariant tasks == AllTasks(views, now, i)
      invariant delay.Some? ==> delay.value > 0
    {
      ghost var was := delay;
      var more;
      delay, more := ScanOne(ots, i, delay, now);
      ScanFurther(views, now, i, was, delay);
      tasks := tasks + more;
      i := i + 1;
    }
  }

  lemma ScanStart(views: seq<Sender>, now: int)
    ensures Scanned(views, now, 0) == views && AllTasks(views, now, 0) == [] && CoversAll(None, now, views, 0)
  {
  }

  /** One more transfer scanned. */
  lemma ScanFurther(views: seq<Sender>, now: int, n: nat, delay: Option<int>, next: Option<int>)
    requires n < |views| && CoversAll(delay, now, Scanned(views, now, n), n)
    requires forall s :: Covers(delay, now, s) ==> Covers(next, now, s)
    requires Covers(next, now, Scan(views[n], now).sender)
    ensures CoversAll(next, now, Scanned(views, now, n + 1), n + 1)
    ensures Scanned(views, now, n + 1) == Scanned(views, now, n)[n := Scan(views[n], now).sender]
    ensures AllTasks(views, now, n + 1)
         == AllTasks(views, now, n) + TransferTasks(n, Scan(views[n], now).resend, Scan(views[n], now).resendEnd)
  {
    hide Scan, Covers;
    var scanned := Scanned(views, now, n + 1);
    forall i | 0 <= i < n + 1 ensures Covers(next, now, scanned[i]) {
      assert i < n ==> Covers(delay, now, Scanned(views, now, n)[i]);
    }
  }
}
