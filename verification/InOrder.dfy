/** Runs of the protocol in which acknowledgements reach the sender in the order in which they
    were sent (some may be lost or repeated). The receiver's snapshot of its counters and the
    sending of the acknowledgement are one step here. */
module InOrder {
  import opened Base
  import opened Sending
  import opened Receiving
  import opened Protocol

  predicate InOrderStep(y: System, step: Step) {
    step.ToSender? && step.index < |y.net| && y.net[step.index].AckMsg? ==> step.index >= y.cursor
  }

  predicate AckAtLeast(msg: Msg, k: int) {
    msg.AckMsg? ==> msg.ack.to >= k
  }

  /** Acknowledgements in the log never go back, and those still to come are not stale. */
  predicate AcksOrdered(y: System) {
    && (forall i, j :: 0 <= i <= j < |y.net| && y.net[i].AckMsg? ==> AckAtLeast(y.net[j], y.net[i].ack.to))
    && (forall i :: y.cursor <= i < |y.net| ==> AckAtLeast(y.net[i], AckedCount(y.s) - 1))
  }

  /** A step only appends to the log, and an acknowledgement it appends is the current one. */
  predicate NewAcksCurrent(more: seq<Msg>, next: nat) {
    forall i :: 0 <= i < |more| && more[i].AckMsg? ==> more[i].ack.to + 1 == next
  }

  lemma ReceiverAppends(y: System, x: (Receiver, seq<Msg>))
    requires NewAcksCurrent(x.1, x.0.nextChunk)
    ensures AppendsCurrent(y, Replied(y, x))
  {
  }

  lemma SenderAppends(y: System, x: Retransmission)
    ensures AppendsCurrent(y, Resent(y, x))
  {
  }

  lemma DataReplies(env: Env, y: System, id: u32, payload: seq<byte>, reserved: bool)
    requires Inv(env, y)
    ensures var x := OnData(y.r, id, payload, reserved); NewAcksCurrent(x.1, x.0.nextChunk)
  {
  }

  predicate AppendsCurrent(y: System, y': System) {
    |y'.net| >= |y.net| && y'.net[..|y.net|] == y.net && NewAcksCurrent(y'.net[|y.net|..], y'.r.nextChunk)
  }

  lemma DeliverAppends(env: Env, y: System, i: nat, answer: bool)
    requires Inv(env, y) && Enabled(env, y, ToReceiver(i, answer))
    ensures AppendsCurrent(y, Do(env, y, ToReceiver(i, answer)))
  {
    if y.net[i].Data? {
      DataReplies(env, y, y.net[i].id, y.net[i].payload, answer);
      ReceiverAppends(y, OnData(y.r, y.net[i].id, y.net[i].payload, answer));
    } else if y.net[i].End? {
      ReceiverAppends(y, OnEnd(y.r, 0, answer));
    }
  }

  lemma AppendsCurrentAcks(env: Env, y: System, step: Step)
    requires Inv(env, y) && Enabled(env, y, step)
    ensures AppendsCurrent(y, Do(env, y, step))
  {
    hide Exact, SenderExact, OnData;
    match step {
      case Monitor(now) => SenderAppends(y, Scan(y.s, now));
      case ToSender(i, now) =>
        if y.net[i].NackMsg? {
          SenderAppends(y, ApplyNack(y.s, y.net[i].from, y.net[i].to, y.net[i].reason, now));
        }
      case ToReceiver(i, answer) => DeliverAppends(env, y, i, answer);
      case WriteChunk(n, ok) => ReceiverAppends(y, Write(y.r, n, ok));
      case CountChunk =>
        CountExact(env.source, y.r, 0);
        ReceiverAppends(y, CountWritten(y.r));
      case Commit(closeOk) => ReceiverAppends(y, FinishEnd(y.r, closeOk, env.sha, env.checksum));
      case _ =>
    }
  }

  /** Appending current acknowledgements keeps the log ordered. */
  lemma OrderKept(env: Env, y: System, y': System)
    requires Inv(env, y) && Inv(env, y') && AcksOrdered(y)
    requires AppendsCurrent(y, y')
    requires y'.r.nextChunk >= y.r.nextChunk
    requires y.cursor <= y'.cursor
    requires forall i :: y'.cursor <= i < |y.net| ==> AckAtLeast(y.net[i], AckedCount(y'.s) - 1)
    ensures AcksOrdered(y')
  {
    forall i, j | 0 <= i <= j < |y'.net| && y'.net[i].AckMsg? ensures AckAtLeast(y'.net[j], y'.net[i].ack.to) {
      LogEntryTruthful(env, y', i);
      if j >= |y.net| {
        assert y'.net[j] == y'.net[|y.net|..][j - |y.net|];
      } else {
        assert y'.net[i] == y.net[i] && y'.net[j] == y.net[j];
      }
    }
    forall i | y'.cursor <= i < |y'.net| ensures AckAtLeast(y'.net[i], AckedCount(y'.s) - 1) {
      if i >= |y.net| {
        assert y'.net[i] == y'.net[|y.net|..][i - |y.net|];
      } else {
        assert y'.net[i] == y.net[i];
      }
    }
  }

  /** Delivering the acknowledgement at position `i`, in order: it is accepted. */
  lemma InOrderAckAccepted(env: Env, y: System, i: nat)
    requires Inv(env, y) && AcksOrdered(y)
    requires y.cursor <= i < |y.net| && y.net[i].AckMsg?
    ensures ApplyAck(y.s, y.net[i].ack).1
    ensures AckedCount(ApplyAck(y.s, y.net[i].ack).0) == y.net[i].ack.to + 1
  {
    LogEntryTruthful(env, y, i);
    assert AckAtLeast(y.net[i], AckedCount(y.s) - 1);
    HonestAckAcceptedIff(env, y.s, y.net[i].ack);
  }

  /** No other step changes how much the sender considers acknowledged. */
  lemma AckedUnchanged(env: Env, y: System, step: Step)
    requires |y.s.pending| <= y.s.chunkId && Enabled(env, y, step)
    requires !(step.ToSender? && y.net[step.index].AckMsg?)
    ensures AckedCount(Do(env, y, step).s) == AckedCount(y.s) && Do(env, y, step).cursor == y.cursor
  {
    hide OnData;
    match step {
      case Monitor(now) => ScanShape(y.s, now);
      case ToSender(i, now) =>
        if y.net[i].NackMsg? {
          NackShape(y.s, y.net[i].from, y.net[i].to, y.net[i].reason, now);
        }
      case _ =>
    }
  }

  lemma WrittenNeverShrinks(env: Env, y: System, step: Step)
    requires Inv(env, y) && Enabled(env, y, step)
    ensures Do(env, y, step).r.nextChunk >= y.r.nextChunk
  {
    hide Exact, SenderExact;
    if step == CountChunk {
      CountExact(env.source, y.r, 0);
    }
  }

  lemma OrderStep(env: Env, y: System, step: Step)
    requires Inv(env, y) && AcksOrdered(y) && Enabled(env, y, step) && InOrderStep(y, step)
    ensures AcksOrdered(Do(env, y, step))
  {
    var y' := Do(env, y, step);
    StepInv(env, y, step);
    AppendsCurrentAcks(env, y, step);
    WrittenNeverShrinks(env, y, step);
    if step.ToSender? && y.net[step.index].AckMsg? {
      InOrderAckAccepted(env, y, step.index);
    } else {
      AckedUnchanged(env, y, step);
    }
    OrderKept(env, y, y');
  }

  predicate InOrderAt(run: seq<System>, steps: seq<Step>, i: nat)
    requires i < |steps| < |run|
  {
    InOrderStep(run[i], steps[i])
  }

  predicate IsInOrderRun(env: Env, run: seq<System>, steps: seq<Step>) {
    IsRun(env, run, steps) && forall i :: 0 <= i < |steps| ==> InOrderAt(run, steps, i)
  }

  lemma {:induction false} OrderInEveryRun(env: Env, run: seq<System>, steps: seq<Step>, n: nat)
    requires IsInOrderRun(env, run, steps) && n <= |steps|
    ensures Inv(env, run[n]) && AcksOrdered(run[n])
  {
    if n == 0 {
      InitialInv(env, run[0]);
    } else {
      OrderInEveryRun(env, run, steps, n - 1);
      assert StepAt(env, run, steps, n - 1) && InOrderAt(run, steps, n - 1);
      StepInv(env, run[n - 1], steps[n - 1]);
      OrderStep(env, run[n - 1], steps[n - 1]);
    }
  }

  /** No acknowledgement of an honest receiver is rejected as long as they arrive in order. */
  lemma InOrderAcksNeverRejected(env: Env, run: seq<System>, steps: seq<Step>, n: nat)
    requires IsInOrderRun(env, run, steps) && n < |steps|
    requires steps[n].ToSender? && steps[n].index < |run[n].net| && run[n].net[steps[n].index].AckMsg?
    ensures ApplyAck(run[n].s, run[n].net[steps[n].index].ack).1
  {
    OrderInEveryRun(env, run, steps, n);
    assert InOrderAt(run, steps, n);
    InOrderAckAccepted(env, run[n], steps[n].index);
  }
}
