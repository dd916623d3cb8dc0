/** A transfer can always be completed: from every reachable state in which neither side has given
    up, some continuation ends with the sender's success and the whole source in the sink. */
module Progress {
  import opened Chunks
  import opened Sending
  import opened Receiving
  import opened Protocol
  import opened Transmissions
  import InOrder
  import Repeats

  // ---------------------------------------------------------------- what the log still offers

  /** A receiver that goes on can be found, the acknowledgement the sender still lacks is in the
      log, and so is the verdict. */
  predicate Logged(y: System) {
    && (y.r.fate == Open && !y.r.failed ==> y.r.installed)
    && (y.r.failed ==> !y.r.accepting)
    && (AckedCount(y.s) < y.r.nextChunk ==> CurrentAck(y.r) in y.net)
    && (y.r.fate == Committed ==> CompletedMsg(y.r.meta.total, y.r.meta.chunkCount) in y.net)
  }

  ghost predicate Sound(env: Env, y: System) {
    Inv(env, y) && Within(y) && Logged(y)
  }

  lemma AckedNeverShrinks(env: Env, y: System, step: Step)
    requires Inv(env, y) && Enabled(env, y, step)
    ensures AckedCount(Do(env, y, step).s) >= AckedCount(y.s)
  {
    if step.ToSender? && y.net[step.index].AckMsg? {
      hide Exact, SenderExact, ApplyAck;
      LogEntryTruthful(env, y, step.index);
      HonestAckAcceptedIff(env, y.s, y.net[step.index].ack);
    } else {
      InOrder.AckedUnchanged(env, y, step);
    }
  }

  /** Only counting a written chunk changes what the receiver acknowledges, and only a commit the
      verdict. */
  lemma ReceiverSays(env: Env, y: System, step: Step)
    requires Enabled(env, y, step) && !step.CountChunk? && !step.Commit?
    ensures var r' := Do(env, y, step).r;
      && CurrentAck(r') == CurrentAck(y.r) && r'.nextChunk == y.r.nextChunk && r'.meta == y.r.meta
      && (r'.fate == Committed ==> y.r.fate == Committed)
      && (r'.fate == Open && !r'.failed ==> y.r.fate == Open && !y.r.failed && r'.installed == y.r.installed)
      && (r'.failed && (y.r.failed ==> !y.r.accepting) ==> !r'.accepting)
  {
    hide Scan, SendChunk, ApplyAck, ApplyNack;
  }

  lemma LoggedStep(env: Env, y: System, step: Step)
    requires Inv(env, y) && Logged(y) && Enabled(env, y, step)
    ensures Logged(Do(env, y, step))
  {
    var y' := Do(env, y, step);
    AckedNeverShrinks(env, y, step);
    Repeats.StepGrows(env, y, step);
    hide AckedCount, Exact, SenderExact, NetTruthful;
    match step {
      case CountChunk => LoggedCount(y);
      case Commit(closeOk) => FinishExact(env.source, y.r, closeOk, env.sha, env.checksum, 0);
      case _ =>
        ReceiverSays(env, y, step);
        LoggedKept(y, y');
    }
  }

  lemma LoggedKept(y: System, y': System)
    requires Logged(y) && y.net <= y'.net && AckedCount(y.s) <= AckedCount(y'.s)
    requires CurrentAck(y'.r) == CurrentAck(y.r) && y'.r.nextChunk == y.r.nextChunk && y'.r.meta == y.r.meta
    requires y'.r.fate == Committed ==> y.r.fate == Committed
    requires y'.r.fate == Open && !y'.r.failed ==> y.r.fate == Open && !y.r.failed && y'.r.installed == y.r.installed
    requires y'.r.failed && (y.r.failed ==> !y.r.accepting) ==> !y'.r.accepting
    ensures Logged(y')
  {
    assert forall msg :: msg in y.net ==> msg in y'.net;
  }

  lemma LoggedCount(y: System)
    requires Logged(y) && y.r.writer.Wrote?
    ensures Logged(Replied(y, CountWritten(y.r)))
  {
    var x := CountWritten(y.r);
    assert forall msg :: msg in y.net ==> msg in y.net + x.1;
    assert !y.r.failed ==> x.1[0] == CurrentAck(x.0);
  }

  lemma SoundStep(env: Env, y: System, step: Step)
    requires Sound(env, y) && Enabled(env, y, step)
    ensures Sound(env, Do(env, y, step))
    ensures Do(env, y, step).s.limits == y.s.limits && Do(env, y, step).r.capacity == y.r.capacity
  {
    hide Inv, Within, Logged;
    StepInv(env, y, step);
    StepWithin(env, y, step);
    LoggedStep(env, y, step);
    ConfigKept(env, y, step);
  }

  lemma {:induction false} SoundInEveryRun(env: Env, run: seq<System>, steps: seq<Step>, n: nat)
    requires IsRun(env, run, steps) && n <= |steps|
    ensures Sound(env, run[n])
  {
    if n == 0 {
      WithinInEveryRun(env, run, steps, 0);
    } else {
      SoundInEveryRun(env, run, steps, n - 1);
      assert StepAt(env, run, steps, n - 1);
      SoundStep(env, run[n - 1], steps[n - 1]);
    }
  }

  lemma {:induction false} CountedIsLogged(net: seq<Msg>, k: nat, n: nat) returns (i: nat)
    requires n <= |net| && CountTo(net, k, n) > 0
    ensures i < n && net[i].Data? && net[i].id == k
  {
    if net[n - 1].Data? && net[n - 1].id == k {
      i := n - 1;
    } else {
      i := CountedIsLogged(net, k, n - 1);
    }
  }

  lemma {:induction false} EndIsLogged(net: seq<Msg>, n: nat) returns (i: nat)
    requires n <= |net| && EndsTo(net, n) > 0
    ensures i < n && net[i].End?
  {
    if net[n - 1].End? {
      i := n - 1;
    } else {
      i := EndIsLogged(net, n - 1);
    }
  }

  // ---------------------------------------------------------------- states worth continuing

  /** Neither side has given up. */
  predicate Healthy(y: System) {
    !y.s.failed && (y.r.fate == Committed || (y.r.fate == Open && !y.r.failed))
  }

  /** Both sides have room for one chunk at least, and the announced checksum is the source's. */
  predicate Feasible(env: Env, y: System) {
    && y.s.limits.maxInFlight > 0 && y.s.limits.maxInFlightBytes >= env.meta.chunkSize
    && y.r.capacity > 0
    && (env.checksum.Some? ==> env.checksum.value == env.sha(env.source))
  }

  ghost predicate Alive(env: Env, y: System) {
    Sound(env, y) && Healthy(y) && Feasible(env, y)
  }

  /** The steps lead from `y` to `z`. */
  predicate Leads(env: Env, y: System, steps: seq<Step>, z: System)
    decreases |steps|
  {
    if steps == [] then y == z
    else Enabled(env, y, steps[0]) && Leads(env, Do(env, y, steps[0]), steps[1..], z)
  }

  lemma LeadsFirst(env: Env, y: System, step: Step, steps: seq<Step>, z: System)
    requires Enabled(env, y, step) && Leads(env, Do(env, y, step), steps, z)
    ensures Leads(env, y, [step] + steps, z)
  {
    hide Do, Enabled;
    assert ([step] + steps)[1..] == steps;
  }

  lemma LeadsApart(env: Env, y: System, steps: seq<Step>, z: System)
    requires Leads(env, y, steps, z)
    ensures steps == [] ==> y == z
    ensures steps != [] ==> Enabled(env, y, steps[0]) && Leads(env, Do(env, y, steps[0]), steps[1..], z)
  {
    hide Do, Enabled;
  }

  lemma {:induction false} LeadsOn(env: Env, y: System, a: seq<Step>, z: System, b: seq<Step>, w: System)
    requires Leads(env, y, a, z) && Leads(env, z, b, w)
    ensures Leads(env, y, a + b, w)
    decreases |a|
  {
    hide Leads, Do, Enabled;
    LeadsApart(env, y, a, z);
    if a == [] {
      assert a + b == b;
    } else {
      LeadsOn(env, Do(env, y, a[0]), a[1..], z, b, w);
      LeadsFirst(env, y, a[0], a[1..] + b, w);
      assert [a[0]] + (a[1..] + b) == a + b;
    }
  }

  // ---------------------------------------------------------------- what is left to do

  function WriterRank(w: WriterPc): nat {
    match w
    case Waiting => 3
    case Taken(_) => 2
    case Wrote(_) => 1
    case Stopped => 0
  }

  function VerdictRank(y: System): nat {
    (if y.s.doneSending then 0 else 1) + (if y.r.ending then 0 else 1)
    + (if y.r.fate == Committed then 0 else 1) + (if y.s.completed then 0 else 1)
  }

  /** Chunks not sent, not accepted, not written; then the writer's place, chunks not
      acknowledged, and the steps of the commit. */
  datatype Left = Left(unsent: int, unaccepted: int, unwritten: int, writer: nat, unacked: int, verdict: nat)

  function LeftOf(y: System): Left {
    var n := y.s.meta.chunkCount;
    Left(n - y.s.chunkId, n - y.r.acceptedNextChunk, n - y.r.nextChunk, WriterRank(y.r.writer),
         n - AckedCount(y.s), VerdictRank(y))
  }

  /** Lexicographically smaller. */
  predicate Less(a: Left, b: Left) {
    || a.unsent < b.unsent
    || (a.unsent == b.unsent &&
        (|| a.unaccepted < b.unaccepted
         || (a.unaccepted == b.unaccepted &&
             (|| a.unwritten < b.unwritten
              || (a.unwritten == b.unwritten &&
                  (|| a.writer < b.writer
                   || (a.writer == b.writer &&
                       (|| a.unacked < b.unacked
                        || (a.unacked == b.unacked && a.verdict < b.verdict)))))))))
  }

  /** One step of a healthy transfer that leaves less to do. */
  ghost predicate Advances(env: Env, y: System, step: Step) {
    Enabled(env, y, step) && Healthy(Do(env, y, step)) && Less(LeftOf(Do(env, y, step)), LeftOf(y))
  }

  lemma AckArrives(env: Env, y: System) returns (step: Step)
    requires Alive(env, y) && AckedCount(y.s) < y.r.nextChunk
    ensures Advances(env, y, step)
  {
    hide Within, Exact, Offset, Accounting;
    var i :| 0 <= i < |y.net| && y.net[i] == CurrentAck(y.r);
    step := ToSender(i, 0);
    LogEntryTruthful(env, y, i);
    var a := y.net[i].ack;
    AckAdvances(env, y, a);
  }

  lemma AckAdvances(env: Env, y: System, a: Ack)
    requires Alive(env, y) && AckedCount(y.s) < y.r.nextChunk && AckMsg(a) == CurrentAck(y.r)
    ensures var x := ApplyAck(y.s, a);
      && x.1 && AckedCount(x.0) > AckedCount(y.s)
      && x.0 == y.s.(pending := x.0.pending, pendingBytes := x.0.pendingBytes, ackedBytes := x.0.ackedBytes)
  {
    hide Within, Logged;
    AckOk(env.source, y.r, 0);
    HonestAckAcceptedIff(env, y.s, a);
  }

  /** The writer goroutine has a chunk in hand or in the queue: it goes on. */
  lemma WriterAdvances(env: Env, y: System) returns (step: Step)
    requires Alive(env, y) && y.r.fate == Open && InFlight(y.r) != []
    ensures Advances(env, y, step)
  {
    hide Within, Logged, SenderExact, NetTruthful;
    if y.r.writer.Wrote? {
      CountAdvances(env, y);
      step := CountChunk;
    } else {
      step := if y.r.writer.Taken? then WriteChunk(|y.r.writer.chunk.payload|, true) else TakeChunk;
    }
  }

  lemma CountAdvances(env: Env, y: System)
    requires Alive(env, y) && y.r.fate == Open && y.r.writer.Wrote?
    ensures Advances(env, y, CountChunk)
  {
    hide Within, Logged, SenderExact, NetTruthful;
    CountExact(env.source, y.r, 0);
  }

  /** Everything accepted is written, and something sent is not yet accepted: it can be delivered. */
  lemma DataAdvances(env: Env, y: System) returns (step: Step)
    requires Alive(env, y) && y.r.fate == Open && InFlight(y.r) == [] && y.r.acceptedNextChunk < y.s.chunkId
    ensures Advances(env, y, step)
  {
    assert y.r.installed;
    hide Logged, Offset, Accounting;
    var k := y.r.acceptedNextChunk;
    assert WithinAt(y, k);
    var i := CountedIsLogged(y.net, k, |y.net|);
    step := ToReceiver(i, true);
    LogEntryTruthful(env, y, i);
    DataAnswers(env.source, y.r, k, y.net[i].payload, true);
  }

  /** The peer announces a window for one chunk, and the sender hears of it. */
  lemma WindowOpens(env: Env, y: System) returns (steps: seq<Step>, z: System)
    requires Alive(env, y)
    ensures Leads(env, y, steps, z) && Alive(env, z)
    ensures z.r == y.r && z.s == y.s.(window := Window(true, env.meta.total, 1))
  {
    hide Sound;
    var advertise := Advertise(env.meta.total, 1);
    var y1 := Do(env, y, advertise);
    SoundStep(env, y, advertise);
    var arrive := ToSender(|y.net|, 0);
    assert y1.net[|y.net|] == WindowMsg(env.meta.total, 1);
    z := Do(env, y1, arrive);
    SoundStep(env, y1, arrive);
    steps := [advertise] + [arrive];
    hide Do, Enabled;
    LeadsFirst(env, y1, arrive, [], z);
    LeadsFirst(env, y, advertise, [arrive], z);
  }

  /** Nothing is in flight and chunks are left: with a new window the next one goes out. */
  lemma SendAdvances(env: Env, y: System) returns (steps: seq<Step>, z: System)
    requires Alive(env, y) && y.s.pending == []
    requires y.r.acceptedNextChunk == y.s.chunkId < env.meta.chunkCount
    ensures Leads(env, y, steps, z) && Alive(env, z) && Less(LeftOf(z), LeftOf(y))
  {
    var first, y1 := WindowOpens(env, y);
    SendEnabled(env, y1);
    hide Sound;
    z := Do(env, y1, ChunkOut(0));
    SoundStep(env, y1, ChunkOut(0));
    steps := first + [ChunkOut(0)];
    assert Less(LeftOf(z), LeftOf(y));
    hide Do, Enabled, Less, LeftOf;
    LeadsFirst(env, y1, ChunkOut(0), [], z);
    LeadsOn(env, y, first, y1, [ChunkOut(0)], z);
  }

  lemma SendEnabled(env: Env, y: System)
    requires Inv(env, y) && Feasible(env, y) && !y.s.failed && y.s.pending == []
    requires y.s.window == Window(true, env.meta.total, 1) && y.s.chunkId < env.meta.chunkCount
    ensures Enabled(env, y, ChunkOut(0))
  {
    NextOffset(env.meta, y.s.chunkId);
    OffsetMonotone(env.meta, y.s.chunkId + 1, env.meta.chunkCount);
    assert SumBytes([]) == 0;
  }

  /** Everything is sent, written and acknowledged: end, commit and verdict follow one another. */
  lemma VerdictAdvances(env: Env, y: System) returns (step: Step)
    requires Alive(env, y) && InFlight(y.r) == [] && y.s.pending == [] && !Succeeded(y.s)
    requires y.s.chunkId == y.r.nextChunk == y.r.acceptedNextChunk == env.meta.chunkCount
    ensures Advances(env, y, step)
  {
    if !y.s.doneSending {
      step := EndOut(0);
    } else if y.r.fate == Open {
      step := CommitAdvances(env, y);
    } else {
      var verdict := CompletedMsg(y.r.meta.total, y.r.meta.chunkCount);
      var i :| 0 <= i < |y.net| && y.net[i] == verdict;
      step := ToSender(i, 0);
    }
  }

  lemma CommitAdvances(env: Env, y: System) returns (step: Step)
    requires Alive(env, y) && InFlight(y.r) == [] && y.s.doneSending && y.r.fate == Open
    requires y.r.acceptedNextChunk == env.meta.chunkCount
    ensures Advances(env, y, step)
  {
    assert y.r.installed;
    hide Logged, SenderExact, NetTruthful;
    if !y.r.ending {
      var i := EndIsLogged(y.net, |y.net|);
      step := ToReceiver(i, true);
      EndExact(env.source, y.r, 0, true, 0);
    } else if y.r.writer.Waiting? {
      step := WriterStops;
    } else {
      step := Commit(true);
      FinishExact(env.source, y.r, true, env.sha, env.checksum, 0);
    }
  }

  lemma StaysAlive(env: Env, y: System, step: Step)
    requires Alive(env, y) && Advances(env, y, step)
    ensures Alive(env, Do(env, y, step))
  {
    hide Sound, Healthy;
    SoundStep(env, y, step);
  }

  lemma LeftBounds(env: Env, y: System)
    requires Inv(env, y)
    ensures var l := LeftOf(y);
      0 <= l.unsent <= l.unaccepted <= l.unwritten <= l.unacked && y.s.meta == env.meta == y.r.meta
    ensures y.r.fate == Committed ==> InFlight(y.r) == [] && LeftOf(y).unwritten == 0
    ensures !y.r.failed && y.r.fate == Open ==>
      |InFlight(y.r)| == y.r.acceptedNextChunk - y.r.nextChunk
    ensures |y.s.pending| == y.s.chunkId - AckedCount(y.s)
  {
  }

  /** One or more steps that leave less to do, as long as the sender has not succeeded. */
  lemma GoesOn(env: Env, y: System) returns (steps: seq<Step>, z: System)
    requires Alive(env, y) && !Succeeded(y.s)
    ensures Leads(env, y, steps, z) && Alive(env, z) && Less(LeftOf(z), LeftOf(y))
  {
    LeftBounds(env, y);
    hide Sound, Feasible, InFlight, Enabled, Do, Less, LeftOf;
    assert Sound(env, y);
    var l := LeftOf(y);
    var step;
    if AckedCount(y.s) < y.r.nextChunk {
      step := AckArrives(env, y);
    } else if InFlight(y.r) != [] {
      step := WriterAdvances(env, y);
    } else if y.r.acceptedNextChunk < y.s.chunkId {
      step := DataAdvances(env, y);
    } else if y.s.chunkId < env.meta.chunkCount {
      steps, z := SendAdvances(env, y);
      return;
    } else {
      step := VerdictAdvances(env, y);
    }
    StaysAlive(env, y, step);
    steps, z := [step], Do(env, y, step);
    LeadsFirst(env, y, step, [], z);
    assert [step] + [] == [step];
  }

  lemma {:induction false} Completes(env: Env, y: System) returns (steps: seq<Step>, z: System)
    requires Alive(env, y)
    ensures Leads(env, y, steps, z) && Succeeded(z.s) && Sound(env, z)
    decreases LeftOf(y).unsent, LeftOf(y).unaccepted, LeftOf(y).unwritten, LeftOf(y).writer, LeftOf(y).unacked,
      LeftOf(y).verdict
  {
    if Succeeded(y.s) {
      steps, z := [], y;
    } else {
      var first, y1 := GoesOn(env, y);
      LeftBounds(env, y);
      LeftBounds(env, y1);
      hide Sound, Healthy, Feasible, LeftOf;
      var rest;
      rest, z := Completes(env, y1);
      LeadsOn(env, y, first, y1, rest, z);
      steps := first + rest;
    }
  }

  /** From every reachable state in which neither side has given up and both have room for a chunk,
      the transfer can still be brought to a success, whatever was lost, repeated or reordered
      before; and then the receiver has committed exactly the source. */
  lemma AlwaysCompletable(env: Env, run: seq<System>, steps: seq<Step>, n: nat)
      returns (more: seq<Step>, z: System)
    requires IsRun(env, run, steps) && n <= |steps| && Healthy(run[n]) && Feasible(env, run[n])
    ensures Leads(env, run[n], more, z)
    ensures Succeeded(z.s) && z.r.fate == Committed && z.r.sink == env.source
  {
    SoundInEveryRun(env, run, steps, n);
    more, z := Completes(env, run[n]);
  }

  /** Whoever has given up does not come back. */
  lemma NoRecovery(env: Env, y: System, step: Step)
    requires Enabled(env, y, step) && !Healthy(y)
    ensures !Healthy(Do(env, y, step))
  {
    hide Outside, InsideBytes, Matched, RetryPass;
    match step {
      case Monitor(now) => RetryFailed(ScanCommit(y.s, now), Expired(now, y.s.limits.ackTimeout), now);
      case ToSender(i, now) =>
        if y.net[i].NackMsg? {
          RetryFailed(y.s, Named(y.net[i].from, y.net[i].to), now);
        }
      case _ =>
    }
  }

  /** How the two sides give up: the sender on its own failure, on a failure the receiver reports, on
      a nack that is neither for missing chunks nor for flow control, and on an acknowledgement it
      cannot accept; the receiver when it is cancelled, which also makes it unknown, and when its
      commit is cut short. */
  lemma GivingUp(env: Env, y: System, step: Step)
    requires Enabled(env, y, step)
    ensures step.SenderFails? ==> Do(env, y, step).s.failed
    ensures step.ToSender? && y.net[step.index].FailedMsg? ==> Do(env, y, step).s.failed
    ensures step.ToSender? && y.net[step.index].NackMsg? && y.net[step.index].reason == Fatal
        ==> Do(env, y, step).s.failed
    ensures step.ToSender? && y.net[step.index].AckMsg? && !ApplyAck(y.s, y.net[step.index].ack).1
        ==> Do(env, y, step).s.failed
    ensures step.Cancel? ==> Do(env, y, step).r.failed && !Do(env, y, step).r.installed && !Do(env, y, step).r.accepting
    ensures step.AbortCommit? ==> Do(env, y, step).r.failed && Do(env, y, step).r.fate == Abandoned
  {
    hide Outside, InsideBytes, Matched, RetryPass, Scan, OnData, OnEnd;
  }

  lemma RetryFailed(s: Sender, k: Pick, now: int)
    ensures s.failed ==> RetryPass(s, k, now).sender.failed
  {
  }

  lemma {:induction false} NeverAgain(env: Env, y: System, steps: seq<Step>, z: System)
    requires Leads(env, y, steps, z) && !Healthy(y)
    ensures !Healthy(z)
    decreases |steps|
  {
    if steps == [] {
    } else {
      hide Healthy;
      NoRecovery(env, y, steps[0]);
      NeverAgain(env, Do(env, y, steps[0]), steps[1..], z);
    }
  }

  lemma {:induction false} SoundAfter(env: Env, y: System, steps: seq<Step>, z: System)
    requires Leads(env, y, steps, z) && Sound(env, y)
    ensures Sound(env, z)
    decreases |steps|
  {
    if steps == [] {
    } else {
      hide Sound;
      SoundStep(env, y, steps[0]);
      SoundAfter(env, Do(env, y, steps[0]), steps[1..], z);
    }
  }

  /** The steps bring the transfer to a success. */
  predicate Completing(env: Env, y: System, steps: seq<Step>, z: System) {
    Leads(env, y, steps, z) && Succeeded(z.s)
  }

  /** Giving up is the only thing that prevents success: a transfer with room for a chunk can be
      completed exactly if neither side has given up. */
  lemma CompletableIff(env: Env, run: seq<System>, steps: seq<Step>, n: nat)
    requires IsRun(env, run, steps) && n <= |steps| && Feasible(env, run[n])
    ensures Healthy(run[n]) <==> exists more, z :: Completing(env, run[n], more, z)
  {
    if Healthy(run[n]) {
      var more, z := AlwaysCompletable(env, run, steps, n);
      assert Completing(env, run[n], more, z);
    } else if more, z :| Completing(env, run[n], more, z) {
      NeverAgain(env, run[n], more, z);
      SoundInEveryRun(env, run, steps, n);
      SoundAfter(env, run[n], more, z);
    }
  }

  // ---------------------------------------------------------------- winding down

  /** Steps the writer goroutine has before it once no more data is taken. */
  function ToWindDown(r: Receiver): nat {
    4 * |r.queue| + match r.writer
    case Waiting => 1
    case Taken(_) => 3
    case Wrote(_) => 2
    case Stopped => 0
  }

  /** Once no more data is taken, the writer goroutine can always empty its queue and stop, whether
      the transfer failed or not. */
  lemma {:induction false} WindsDown(env: Env, y: System) returns (steps: seq<Step>, z: System)
    requires Sound(env, y) && !y.r.accepting
    ensures Leads(env, y, steps, z) && z.r.writer.Stopped? && z.r.queue == [] && z.s == y.s
    decreases ToWindDown(y.r)
  {
    if y.r.writer.Stopped? {
      steps, z := [], y;
    } else {
      var step := WindDownStep(env, y);
      SoundStep(env, y, step);
      var rest;
      hide Sound, Do, Enabled, ToWindDown;
      rest, z := WindsDown(env, Do(env, y, step));
      LeadsFirst(env, y, step, rest, z);
      steps := [step] + rest;
    }
  }

  lemma WindDownStep(env: Env, y: System) returns (step: Step)
    requires Sound(env, y) && !y.r.accepting && !y.r.writer.Stopped?
    ensures Enabled(env, y, step) && var z := Do(env, y, step);
      z.s == y.s && !z.r.accepting && ToWindDown(z.r) < ToWindDown(y.r) && (z.r.writer.Stopped? ==> z.r.queue == [])
  {
    hide Sound;
    step := match y.r.writer
      case Waiting => if y.r.queue == [] then WriterStops else TakeChunk
      case Taken(c) => WriteChunk(|c.payload|, true)
      case Wrote(_) => CountChunk;
  }
}
