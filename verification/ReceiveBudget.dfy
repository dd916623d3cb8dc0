/** The receive buffer that all incoming transfers of a session share (incoming.go). Every
    transfer has a handler that queues chunks under the transfer's mutex and a goroutine that
    writes them; both reserve and return bytes of one atomic counter with compare-and-swap loops.
    A step is one atomic action: one load, one compare-and-swap, one channel operation, or one
    short locked section. */
module ReceiveBudget {
  import opened Base

  /** A retained frame. `serial` tells retained frames apart. */
  datatype Frame = Frame(serial: nat, size: nat)

  /** The handler in `handleIncomingTransferData`; every state but `Idle` holds the mutex. */
  datatype Handler =
    | Idle
    | Reserving(size: nat)
    | Loaded(size: nat, seen: nat)
    | Reserved(size: nat)
    | Retained(frame: Frame)
    | Undoing(size: nat)
    | UndoLoaded(size: nat, seen: nat)

  /** The goroutine of `runIncomingTransfer` and `writeIncomingChunk`. */
  datatype Worker =
    | Ranging
    | Taken(frame: Frame)
    | Writing(frame: Frame)
    | Written(frame: Frame)
    | Returning(frame: Frame)
    | ReturnLoaded(frame: Frame, seen: nat)
    | Freeing(frame: Frame)
    | Stopped

  /** `closes` counts calls of `close(tr.queue)`. */
  datatype Transfer = Transfer(
    queue: seq<Frame>, capacity: nat, accepting: bool, closes: nat, failed: bool,
    handler: Handler, worker: Worker, retained: seq<Frame>, released: seq<Frame>)

  datatype System = System(receiveBytes: nat, limit: u64, transfers: seq<Transfer>, serial: nat)

  // ---------------------------------------------------------------- steps

  datatype Action =
    | Accept(size: nat)
    | ReserveLoad
    | ReserveSwap
    | Retain
    | Enqueue
    | UndoLoad
    | UndoSwap
    | Receive
    | RangeEnds
    | Look
    | WriteReturns(ok: bool)
    | Count
    | ReturnLoad
    | ReturnSwap
    | FreeFrame
    | Fail
    | CloseQueue

  datatype Step = Open(capacity: nat) | Act(i: nat, action: Action)

  predicate Ready(tr: Transfer, action: Action) {
    match action
    case Accept(_) => tr.handler.Idle? && !tr.failed && tr.accepting
    case ReserveLoad => tr.handler.Reserving?
    case ReserveSwap => tr.handler.Loaded?
    case Retain => tr.handler.Reserved?
    case Enqueue => tr.handler.Retained?
    case UndoLoad => tr.handler.Undoing?
    case UndoSwap => tr.handler.UndoLoaded?
    case Receive => tr.worker.Ranging? && tr.queue != []
    case RangeEnds => tr.worker.Ranging? && tr.queue == [] && tr.closes > 0
    case Look => tr.worker.Taken? && tr.handler.Idle?
    case WriteReturns(_) => tr.worker.Writing?
    case Count => tr.worker.Written? && tr.handler.Idle?
    case ReturnLoad => tr.worker.Returning?
    case ReturnSwap => tr.worker.ReturnLoaded?
    case FreeFrame => tr.worker.Freeing?
    case Fail => tr.handler.Idle?
    case CloseQueue => tr.handler.Idle?
  }

  predicate Enabled(s: System, step: Step) {
    step.Act? ==> step.i < |s.transfers| && Ready(s.transfers[step.i], step.action)
  }

  /** The limit test of `reserveReceiveBytes`. */
  predicate Refused(limit: nat, current: nat, n: nat) {
    limit > 0 && (current > limit || n > limit - current)
  }

  /** What `releaseReceiveBytes` tries to store. */
  function Returned(current: nat, n: nat): nat {
    if current > n then current - n else 0
  }

  /** What one action does to its transfer, given the counter it sees and the next serial. */
  function Move(tr: Transfer, action: Action, bytes: nat, limit: u64, serial: nat): Transfer
    requires Ready(tr, action)
  {
    match action
    case Accept(size) => tr.(handler := Reserving(size))
    case ReserveLoad =>
      var n := tr.handler.size;
      tr.(handler := if Refused(limit, bytes, n) then Idle else Loaded(n, bytes))
    case ReserveSwap =>
      var n := tr.handler.size;
      tr.(handler := if bytes == tr.handler.seen then Reserved(n) else Reserving(n))
    case Retain =>
      var frame := Frame(serial, tr.handler.size);
      tr.(handler := Retained(frame), retained := tr.retained + [frame])
    case Enqueue =>
      var frame := tr.handler.frame;
      if |tr.queue| < tr.capacity then tr.(handler := Idle, queue := tr.queue + [frame])
      else tr.(handler := Undoing(frame.size), released := tr.released + [frame])
    case UndoLoad => tr.(handler := UndoLoaded(tr.handler.size, bytes))
    case UndoSwap => tr.(handler := if bytes == tr.handler.seen then Idle else Undoing(tr.handler.size))
    case Receive => tr.(queue := tr.queue[1..], worker := Taken(tr.queue[0]))
    case RangeEnds => tr.(worker := Stopped)
    case Look => tr.(worker := if tr.failed then Returning(tr.worker.frame) else Writing(tr.worker.frame))
    case WriteReturns(ok) => tr.(worker := if ok then Written(tr.worker.frame) else Returning(tr.worker.frame))
    case Count => tr.(worker := Returning(tr.worker.frame))
    case ReturnLoad => tr.(worker := ReturnLoaded(tr.worker.frame, bytes))
    case ReturnSwap =>
      tr.(worker := if bytes == tr.worker.seen then Freeing(tr.worker.frame) else Returning(tr.worker.frame))
    case FreeFrame => tr.(worker := Ranging, released := tr.released + [tr.worker.frame])
    case Fail => tr.(failed := true)
    case CloseQueue => if tr.closes > 0 then tr else tr.(accepting := false, closes := tr.closes + 1)
  }

  /** What it does to the shared counter. */
  function MoveBytes(tr: Transfer, action: Action, bytes: nat): nat
    requires Ready(tr, action)
  {
    match action
    case ReserveSwap => if bytes == tr.handler.seen then tr.handler.seen + tr.handler.size else bytes
    case UndoSwap => if bytes == tr.handler.seen then Returned(tr.handler.seen, tr.handler.size) else bytes
    case ReturnSwap => if bytes == tr.worker.seen then Returned(tr.worker.seen, tr.worker.frame.size) else bytes
    case _ => bytes
  }

  function NewTransfer(capacity: nat): Transfer {
    Transfer([], capacity, true, 0, false, Idle, Ranging, [], [])
  }

  function Do(s: System, step: Step): System
    requires Enabled(s, step)
  {
    match step
    case Open(capacity) => s.(transfers := s.transfers + [NewTransfer(capacity)])
    case Act(i, action) =>
      var tr := s.transfers[i];
      s.(transfers := s.transfers[i := Move(tr, action, s.receiveBytes, s.limit, s.serial)],
         receiveBytes := MoveBytes(tr, action, s.receiveBytes),
         serial := if action.Retain? then s.serial + 1 else s.serial)
  }

  // ---------------------------------------------------------------- what a transfer holds

  function Sizes(queue: seq<Frame>, n: nat): nat
    requires n <= |queue|
  {
    if n == 0 then 0 else Sizes(queue, n - 1) + queue[n - 1].size
  }

  function HandlerBytes(h: Handler): nat {
    match h
    case Reserved(size) => size
    case Retained(frame) => frame.size
    case Undoing(size) => size
    case UndoLoaded(size, _) => size
    case _ => 0
  }

  function WithWorker(w: Worker, x: Frame): nat {
    if w.Ranging? || w.Stopped? then 0 else if w.frame == x then 1 else 0
  }

  function WithHandler(h: Handler, x: Frame): nat {
    if h.Retained? && h.frame == x then 1 else 0
  }

  function WorkerBytes(w: Worker): nat {
    if w.Ranging? || w.Stopped? || w.Freeing? then 0 else w.frame.size
  }

  /** Payload bytes of the chunks of a transfer that are queued, being written, or on their way
      in or out. */
  function Held(tr: Transfer): nat {
    Sizes(tr.queue, |tr.queue|) + HandlerBytes(tr.handler) + WorkerBytes(tr.worker)
  }

  function TotalHeld(transfers: seq<Transfer>, n: nat): nat
    requires n <= |transfers|
  {
    if n == 0 then 0 else TotalHeld(transfers, n - 1) + Held(transfers[n - 1])
  }

  // ---------------------------------------------------------------- invariant

  /** Every retained frame is in exactly one place: released, queued, with the handler or with
      the worker. */
  predicate FrameAt(tr: Transfer, x: Frame) {
    multiset(tr.retained)[x] ==
      multiset(tr.released)[x] + multiset(tr.queue)[x] + WithHandler(tr.handler, x) + WithWorker(tr.worker, x)
  }

  /** Serials are fresh when a frame is retained, so no frame is retained twice. */
  predicate Fresh(retained: seq<Frame>, serial: nat) {
    && (forall k :: 0 <= k < |retained| ==> retained[k].serial < serial)
    && (forall j, k :: 0 <= j < k < |retained| ==> retained[j].serial != retained[k].serial)
  }

  /** The queue is closed at most once, only together with `accepting`, and never under a handler
      that is about to send on it. */
  predicate QueueSafe(tr: Transfer) {
    && tr.closes <= 1
    && (tr.closes == 1 <==> !tr.accepting)
    && (!tr.handler.Idle? ==> tr.accepting)
    && |tr.queue| <= tr.capacity
    && (tr.worker.Stopped? ==> tr.queue == [] && tr.closes == 1)
  }

  /** A load that was not refused still fits when the swap finds the same value. */
  predicate LoadFits(tr: Transfer, limit: nat) {
    tr.handler.Loaded? ==> !Refused(limit, tr.handler.seen, tr.handler.size)
  }

  ghost predicate TransferOk(tr: Transfer, limit: nat, serial: nat) {
    QueueSafe(tr) && LoadFits(tr, limit) && Fresh(tr.retained, serial) && forall x :: FrameAt(tr, x)
  }

  ghost predicate AllOk(s: System) {
    forall i :: 0 <= i < |s.transfers| ==> TransferOk(s.transfers[i], s.limit, s.serial)
  }

  ghost predicate Inv(s: System) {
    && s.limit > 0
    && AllOk(s)
    && s.receiveBytes == TotalHeld(s.transfers, |s.transfers|)
    && s.receiveBytes <= s.limit
  }

  // ---------------------------------------------------------------- sums

  lemma {:induction false} SizesFront(s: seq<Frame>, more: seq<Frame>, n: nat)
    requires n <= |s|
    ensures Sizes(s + more, n) == Sizes(s, n)
  {
    if n == 0 {
    } else {
      SizesFront(s, more, n - 1);
    }
  }

  lemma {:induction false} SizesBack(s: seq<Frame>, n: nat)
    requires 0 < n <= |s|
    ensures Sizes(s, n) == s[0].size + Sizes(s[1..], n - 1)
  {
    if n > 1 {
      SizesBack(s, n - 1);
    }
  }

  lemma {:induction false} TotalUpdate(transfers: seq<Transfer>, i: nat, tr: Transfer, n: nat)
    requires i < |transfers| && n <= |transfers|
    ensures i < n ==> TotalHeld(transfers[i := tr], n) + Held(transfers[i]) == TotalHeld(transfers, n) + Held(tr)
    ensures i >= n ==> TotalHeld(transfers[i := tr], n) == TotalHeld(transfers, n)
  {
    if n == 0 {
    } else {
      TotalUpdate(transfers, i, tr, n - 1);
    }
  }

  lemma {:induction false} TotalFront(transfers: seq<Transfer>, more: seq<Transfer>, n: nat)
    requires n <= |transfers|
    ensures TotalHeld(transfers + more, n) == TotalHeld(transfers, n)
  {
    if n == 0 {
    } else {
      TotalFront(transfers, more, n - 1);
    }
  }

  lemma {:induction false} HeldWithin(transfers: seq<Transfer>, i: nat, n: nat)
    requires i < n <= |transfers|
    ensures Held(transfers[i]) <= TotalHeld(transfers, n)
  {
    if i < n - 1 {
      HeldWithin(transfers, i, n - 1);
    }
  }

  // ---------------------------------------------------------------- every step

  /** An action changes the counter by exactly what it changes in its transfer, because the
      saturating subtraction never saturates. */
  lemma MoveHeld(tr: Transfer, action: Action, bytes: nat, limit: u64, serial: nat)
    requires Ready(tr, action) && Held(tr) <= bytes
    ensures Held(Move(tr, action, bytes, limit, serial)) + bytes == Held(tr) + MoveBytes(tr, action, bytes)
  {
    if action.Enqueue? || action.Receive? {
      QueueHeld(tr, action, bytes, limit, serial);
    } else {
      hide Sizes;
    }
  }

  lemma QueueHeld(tr: Transfer, action: Action, bytes: nat, limit: u64, serial: nat)
    requires Ready(tr, action) && (action.Enqueue? || action.Receive?)
    ensures Held(Move(tr, action, bytes, limit, serial)) == Held(tr) && MoveBytes(tr, action, bytes) == bytes
  {
    if action.Receive? {
      SizesBack(tr.queue, |tr.queue|);
    } else if |tr.queue| < tr.capacity {
      SizesFront(tr.queue, [tr.handler.frame], |tr.queue|);
    }
  }

  lemma MoveWithin(tr: Transfer, action: Action, bytes: nat, limit: u64)
    requires Ready(tr, action) && limit > 0 && bytes <= limit && LoadFits(tr, limit)
    ensures MoveBytes(tr, action, bytes) <= limit
  {
  }

  lemma MoveQueue(tr: Transfer, action: Action, bytes: nat, limit: u64, serial: nat)
    requires Ready(tr, action) && QueueSafe(tr) && LoadFits(tr, limit)
    ensures QueueSafe(Move(tr, action, bytes, limit, serial))
        && LoadFits(Move(tr, action, bytes, limit, serial), limit)
  {
  }

  lemma AppendCopies(s: seq<Frame>, y: Frame, x: Frame)
    ensures multiset(s + [y])[x] == multiset(s)[x] + if x == y then 1 else 0
  {
  }

  lemma DropCopies(s: seq<Frame>, x: Frame)
    requires s != []
    ensures multiset(s)[x] == multiset(s[1..])[x] + if x == s[0] then 1 else 0
  {
    assert s == [s[0]] + s[1..];
  }

  predicate MovesFrame(action: Action) {
    action.Retain? || action.Enqueue? || action.Receive? || action.FreeFrame?
  }

  lemma HandlerFrames(tr: Transfer, action: Action, bytes: nat, limit: u64, serial: nat, x: Frame)
    requires Ready(tr, action) && FrameAt(tr, x) && (action.Retain? || action.Enqueue?)
    ensures FrameAt(Move(tr, action, bytes, limit, serial), x)
  {
    if action.Retain? {
      AppendCopies(tr.retained, Frame(serial, tr.handler.size), x);
    } else if |tr.queue| < tr.capacity {
      AppendCopies(tr.queue, tr.handler.frame, x);
    } else {
      AppendCopies(tr.released, tr.handler.frame, x);
    }
  }

  lemma WorkerFrames(tr: Transfer, action: Action, bytes: nat, limit: u64, serial: nat, x: Frame)
    requires Ready(tr, action) && FrameAt(tr, x) && (action.Receive? || action.FreeFrame?)
    ensures FrameAt(Move(tr, action, bytes, limit, serial), x)
  {
    if action.Receive? {
      DropCopies(tr.queue, x);
    } else {
      AppendCopies(tr.released, tr.worker.frame, x);
    }
  }

  lemma OtherFrames(tr: Transfer, action: Action, bytes: nat, limit: u64, serial: nat, x: Frame)
    requires Ready(tr, action) && !MovesFrame(action)
    ensures var tr' := Move(tr, action, bytes, limit, serial);
      && tr'.retained == tr.retained && tr'.released == tr.released && tr'.queue == tr.queue
      && WithHandler(tr'.handler, x) == WithHandler(tr.handler, x)
          && WithWorker(tr'.worker, x) == WithWorker(tr.worker, x)
  {
  }

  lemma MoveFrames(tr: Transfer, action: Action, bytes: nat, limit: u64, serial: nat, x: Frame)
    requires Ready(tr, action) && FrameAt(tr, x)
    ensures FrameAt(Move(tr, action, bytes, limit, serial), x)
  {
    if action.Retain? || action.Enqueue? {
      HandlerFrames(tr, action, bytes, limit, serial, x);
    } else if action.Receive? || action.FreeFrame? {
      WorkerFrames(tr, action, bytes, limit, serial, x);
    } else {
      OtherFrames(tr, action, bytes, limit, serial, x);
    }
  }

  lemma MoveOk(tr: Transfer, action: Action, bytes: nat, limit: u64, serial: nat)
    requires Ready(tr, action) && TransferOk(tr, limit, serial)
    ensures TransferOk(Move(tr, action, bytes, limit, serial), limit, if action.Retain? then serial + 1 else serial)
  {
    MoveQueue(tr, action, bytes, limit, serial);
    forall x ensures FrameAt(Move(tr, action, bytes, limit, serial), x) {
      assert FrameAt(tr, x);
      MoveFrames(tr, action, bytes, limit, serial, x);
    }
  }

  lemma LaterSerial(tr: Transfer, limit: nat, serial: nat, later: nat)
    requires TransferOk(tr, limit, serial) && serial <= later
    ensures TransferOk(tr, limit, later)
  {
  }

  lemma NewOk(capacity: nat, limit: nat, serial: nat)
    ensures TransferOk(NewTransfer(capacity), limit, serial) && Held(NewTransfer(capacity)) == 0
  {
  }

  lemma OpenInv(s: System, capacity: nat)
    requires Inv(s)
    ensures Inv(Do(s, Open(capacity)))
  {
    NewOk(capacity, s.limit, s.serial);
    TotalFront(s.transfers, [NewTransfer(capacity)], |s.transfers|);
  }

  lemma ActOk(s: System, i: nat, action: Action)
    requires AllOk(s) && Enabled(s, Act(i, action))
    ensures AllOk(Do(s, Act(i, action)))
  {
    var s' := Do(s, Act(i, action));
    forall j | 0 <= j < |s'.transfers| ensures TransferOk(s'.transfers[j], s'.limit, s'.serial) {
      assert TransferOk(s.transfers[j], s.limit, s.serial);
      if j == i {
        MoveOk(s.transfers[i], action, s.receiveBytes, s.limit, s.serial);
      } else {
        LaterSerial(s.transfers[j], s.limit, s.serial, s'.serial);
      }
    }
  }

  lemma ActBytes(s: System, i: nat, action: Action)
    requires Inv(s) && Enabled(s, Act(i, action))
    ensures var s' := Do(s, Act(i, action));
      s'.receiveBytes == TotalHeld(s'.transfers, |s'.transfers|) && s'.receiveBytes <= s'.limit
  {
    var tr := s.transfers[i];
    assert TransferOk(tr, s.limit, s.serial);
    HeldWithin(s.transfers, i, |s.transfers|);
    MoveHeld(tr, action, s.receiveBytes, s.limit, s.serial);
    MoveWithin(tr, action, s.receiveBytes, s.limit);
    TotalUpdate(s.transfers, i, Move(tr, action, s.receiveBytes, s.limit, s.serial), |s.transfers|);
  }

  lemma StepInv(s: System, step: Step)
    requires Inv(s) && Enabled(s, step)
    ensures Inv(Do(s, step))
  {
    match step {
      case Open(capacity) => OpenInv(s, capacity);
      case Act(i, action) =>
        ActOk(s, i, action);
        ActBytes(s, i, action);
    }
  }

  // ---------------------------------------------------------------- whole runs

  predicate StepAt(run: seq<System>, steps: seq<Step>, i: nat)
    requires i < |steps| < |run|
  {
    Enabled(run[i], steps[i]) && run[i + 1] == Do(run[i], steps[i])
  }

  predicate IsRun(run: seq<System>, steps: seq<Step>, limit: u64) {
    && |run| == |steps| + 1
    && run[0] == System(0, limit, [], 0) && limit > 0
    && forall i :: 0 <= i < |steps| ==> StepAt(run, steps, i)
  }

  lemma {:induction false} InvInEveryRun(run: seq<System>, steps: seq<Step>, limit: u64, n: nat)
    requires IsRun(run, steps, limit) && n <= |steps|
    ensures Inv(run[n]) && run[n].limit == limit
  {
    if n == 0 {
    } else {
      InvInEveryRun(run, steps, limit, n - 1);
      assert StepAt(run, steps, n - 1);
      StepInv(run[n - 1], steps[n - 1]);
    }
  }

  /** The counter is always exactly what the transfers hold and never above the limit. */
  lemma BudgetExact(run: seq<System>, steps: seq<Step>, limit: u64, n: nat)
    requires IsRun(run, steps, limit) && n <= |steps|
    ensures run[n].receiveBytes == TotalHeld(run[n].transfers, |run[n].transfers|) <= limit
  {
    InvInEveryRun(run, steps, limit, n);
  }

  /** The saturating subtraction never loses bytes: whenever a swap returns some, the counter it
      saw covers them. */
  lemma ReturnsAreExact(run: seq<System>, steps: seq<Step>, limit: u64, n: nat, i: nat)
    requires IsRun(run, steps, limit) && n < |steps|
    requires steps[n] == Act(i, ReturnSwap) || steps[n] == Act(i, UndoSwap)
    ensures i < |run[n].transfers| && Ready(run[n].transfers[i], steps[n].action)
    ensures var tr := run[n].transfers[i];
      var (seen, size) := if steps[n].action.ReturnSwap? then (tr.worker.seen, tr.worker.frame.size)
          else (tr.handler.seen, tr.handler.size);
      if seen == run[n].receiveBytes then size <= seen && run[n + 1].receiveBytes == seen - size
      else run[n + 1].receiveBytes == run[n].receiveBytes
  {
    assert StepAt(run, steps, n);
    InvInEveryRun(run, steps, limit, n);
    HeldWithin(run[n].transfers, i, |run[n].transfers|);
  }

  lemma {:induction false} FreshCopies(retained: seq<Frame>, serial: nat, x: Frame)
    requires Fresh(retained, serial)
    ensures multiset(retained)[x] <= 1
  {
    if retained == [] {
    } else {
      var last := |retained| - 1;
      assert retained == retained[..last] + [retained[last]];
      FreshCopies(retained[..last], serial, x);
      if multiset(retained[..last])[x] == 1 {
        assert x in retained[..last];
      }
    }
  }

  /** No frame is released twice, whichever way the write ends, and when the goroutine of a
      transfer has stopped and its handler is idle every retained frame has been released. */
  lemma FramesReleasedOnce(run: seq<System>, steps: seq<Step>, limit: u64, n: nat, i: nat, x: Frame)
    requires IsRun(run, steps, limit) && n <= |steps| && i < |run[n].transfers|
    ensures var tr := run[n].transfers[i];
      && multiset(tr.released)[x] <= multiset(tr.retained)[x] <= 1
      && (tr.worker.Stopped? && tr.handler.Idle? ==> multiset(tr.released)[x] == multiset(tr.retained)[x])
  {
    InvInEveryRun(run, steps, limit, n);
    var tr := run[n].transfers[i];
    assert TransferOk(tr, limit, run[n].serial) && FrameAt(tr, x);
    FreshCopies(tr.retained, run[n].serial, x);
  }

  /** Nothing is ever sent on a closed queue, and no queue is closed twice. */
  lemma NothingSentOnClosedQueue(run: seq<System>, steps: seq<Step>, limit: u64, n: nat)
    requires IsRun(run, steps, limit) && n < |steps| && steps[n].Act?
    ensures steps[n].i < |run[n].transfers| == |run[n + 1].transfers|
    ensures steps[n].action.Enqueue? ==> run[n].transfers[steps[n].i].closes == 0
    ensures run[n + 1].transfers[steps[n].i].closes <= 1
  {
    assert StepAt(run, steps, n);
    InvInEveryRun(run, steps, limit, n);
    assert TransferOk(run[n].transfers[steps[n].i], limit, run[n].serial);
  }

  predicate AtRest(tr: Transfer) {
    tr.queue == [] && tr.handler.Idle? && (tr.worker.Ranging? || tr.worker.Stopped?)
  }

  lemma {:induction false} RestHoldsNothing(transfers: seq<Transfer>, n: nat)
    requires n <= |transfers| && forall i :: 0 <= i < n ==> AtRest(transfers[i])
    ensures TotalHeld(transfers, n) == 0
  {
    if n == 0 {
    } else {
      RestHoldsNothing(transfers, n - 1);
      assert AtRest(transfers[n - 1]);
    }
  }

  /** Once every transfer is at rest the whole budget is available again. */
  lemma BudgetReturned(run: seq<System>, steps: seq<Step>, limit: u64, n: nat)
    requires IsRun(run, steps, limit) && n <= |steps|
    requires forall i :: 0 <= i < |run[n].transfers| ==> AtRest(run[n].transfers[i])
    ensures run[n].receiveBytes == 0
  {
    InvInEveryRun(run, steps, limit, n);
    RestHoldsNothing(run[n].transfers, |run[n].transfers|);
  }
}
