/** The peer's flow-control window, over runs of one sender with the peer free to send anything. */
module PeerWindow {
  import opened Sending

  /** Chunks sent by the operations `i .. j - 1`. */
  function SendsIn(ops: seq<Op>, i: nat, j: nat): nat
    requires i <= j <= |ops|
    decreases j - i
  {
    if i == j then 0 else SendsIn(ops, i, j - 1) + if ops[j - 1].Send? then 1 else 0
  }

  /** Their payload bytes. */
  function BytesIn(ops: seq<Op>, i: nat, j: nat): nat
    requires i <= j <= |ops|
    decreases j - i
  {
    if i == j then 0 else BytesIn(ops, i, j - 1) + if ops[j - 1].Send? then |ops[j - 1].payload| else 0
  }

  /** A nack that asks for a pause. */
  predicate Pauses(op: Op) {
    op.OnNack? && op.reason == FlowControl && op.from <= op.to
  }

  /** Neither a new window nor a pause among the operations `i .. j - 1`. */
  predicate SameWindow(ops: seq<Op>, i: nat, j: nat)
    requires j <= |ops|
  {
    forall m :: i <= m < j ==> !ops[m].OnWindow? && !Pauses(ops[m])
  }

  lemma RetryWindow(s: Sender, k: Pick, now: int)
    ensures RetryPass(s, k, now).sender.window == s.window
  {
    hide Retried, Picked, FirstExhausted, Picks;
  }

  /** Only sending, a new window and a pause touch the window. */
  lemma WindowKept(s: Sender, op: Op)
    requires OpEnabled(s, op) && !op.Send? && !op.OnWindow? && !Pauses(op)
    ensures ApplyOp(s, op).window == s.window
  {
    hide InsideBytes, Outside, Matched, RetryPass;
    match op {
      case OnNack(from, to, _, now) => RetryWindow(s, Named(from, to), now);
      case OnScan(now) => RetryWindow(ScanCommit(s, now), Expired(now, s.limits.ackTimeout), now);
      case _ =>
    }
  }

  /** What was sent under a window and what is left of it add up to the window. */
  lemma {:induction false} WindowSpent(run: seq<Sender>, ops: seq<Op>, i: nat, j: nat)
    requires IsSenderRun(run, ops) && i <= j <= |ops| && SameWindow(ops, i, j) && run[i].window.known
    ensures run[j].window.known
    ensures SendsIn(ops, i, j) + run[j].window.chunks == run[i].window.chunks
    ensures BytesIn(ops, i, j) + run[j].window.bytes == run[i].window.bytes
    decreases j - i
  {
    if i == j {
    } else {
      WindowSpent(run, ops, i, j - 1);
      assert OpAt(run, ops, j - 1);
      if !ops[j - 1].Send? {
        WindowKept(run[j - 1], ops[j - 1]);
      }
    }
  }

  /** Between the arrival of a window of `chunks` chunks and `bytes` bytes and the next message
      about the window, at most that many chunks and bytes go out. */
  lemma PeerWindowRespected(run: seq<Sender>, ops: seq<Op>, i: nat, j: nat)
    requires IsSenderRun(run, ops) && i < j <= |ops| && ops[i].OnWindow? && SameWindow(ops, i + 1, j)
    ensures SendsIn(ops, i + 1, j) <= ops[i].chunks
    ensures BytesIn(ops, i + 1, j) <= ops[i].bytes
  {
    assert OpAt(run, ops, i);
    WindowSpent(run, ops, i + 1, j);
  }

  /** A sender that must wait for a window waits for a window. */
  lemma {:induction false} ClosedWindow(run: seq<Sender>, ops: seq<Op>, i: nat, j: nat)
    requires IsSenderRun(run, ops) && i <= j <= |ops| && run[i].window.known && run[i].window.chunks == 0
    requires forall m :: i <= m < j ==> !ops[m].OnWindow?
    ensures SendsIn(ops, i, j) == 0 && run[j].window.known && run[j].window.chunks == 0
    decreases j - i
  {
    if i == j {
    } else {
      ClosedWindow(run, ops, i, j - 1);
      assert OpAt(run, ops, j - 1);
      if !Pauses(ops[j - 1]) {
        WindowKept(run[j - 1], ops[j - 1]);
      }
    }
  }

  /** After a pause nothing new goes out before the next window. */
  lemma SilentAfterPause(run: seq<Sender>, ops: seq<Op>, i: nat, j: nat)
    requires IsSenderRun(run, ops) && i < j <= |ops| && Pauses(ops[i])
    requires forall m :: i < m < j ==> !ops[m].OnWindow?
    ensures SendsIn(ops, i + 1, j) == 0
  {
    assert OpAt(run, ops, i);
    ClosedWindow(run, ops, i + 1, j);
  }

  /** With flow control negotiated, nothing goes out before the first window. */
  lemma SilentBeforeFirstWindow(run: seq<Sender>, ops: seq<Op>, j: nat)
    requires IsSenderRun(run, ops) && j <= |ops| && run[0].window == Window(true, 0, 0)
    requires forall m :: 0 <= m < j ==> !ops[m].OnWindow?
    ensures SendsIn(ops, 0, j) == 0
  {
    ClosedWindow(run, ops, 0, j);
  }
}
