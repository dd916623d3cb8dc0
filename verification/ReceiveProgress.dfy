/** What the receive budget does for a chunk, from its arrival to the return of its bytes, and that
    every transfer can be wound up from every reachable state. */
module ReceiveProgress {
  import opened Base
  import opened ReceiveBudget

  /** A reservation is refused exactly if it would not fit. */
  lemma RefusedIff(limit: nat, current: nat, n: nat)
    ensures Refused(limit, current, n) <==> limit > 0 && current + n > limit
  {
  }

  // ---------------------------------------------------------------- one transfer by itself

  /** What one transfer and the shared state look like while no other transfer acts. */
  datatype Local = Local(tr: Transfer, bytes: nat, serial: nat)

  function Step1(v: Local, action: Action, limit: u64): Local
    requires Ready(v.tr, action)
  {
    Local(Move(v.tr, action, v.bytes, limit, v.serial), MoveBytes(v.tr, action, v.bytes),
          if action.Retain? then v.serial + 1 else v.serial)
  }

  /** The actions lead from `v` to `w`. */
  predicate Leads(v: Local, actions: seq<Action>, w: Local, limit: u64)
    decreases |actions|
  {
    if actions == [] then v == w
    else Ready(v.tr, actions[0]) && Leads(Step1(v, actions[0], limit), actions[1..], w, limit)
  }

  lemma LeadsFirst(v: Local, action: Action, actions: seq<Action>, w: Local, limit: u64)
    requires Ready(v.tr, action) && Leads(Step1(v, action, limit), actions, w, limit)
    ensures Leads(v, [action] + actions, w, limit)
  {
    assert ([action] + actions)[1..] == actions;
  }

  lemma {:induction false} LeadsOn(v: Local, a: seq<Action>, w: Local, b: seq<Action>, x: Local, limit: u64)
    requires Leads(v, a, w, limit) && Leads(w, b, x, limit)
    ensures Leads(v, a + b, x, limit)
    decreases |a|
  {
    if a == [] {
      assert a + b == b;
    } else {
      LeadsOn(Step1(v, a[0], limit), a[1..], w, b, x, limit);
      LeadsFirst(v, a[0], a[1..] + b, x, limit);
      assert [a[0]] + (a[1..] + b) == a + b;
    }
  }

  // ---------------------------------------------------------------- a chunk comes in

  /** A chunk that does not fit is turned away and leaves no trace. */
  lemma ChunkRefused(v: Local, size: nat, limit: u64)
    requires Ready(v.tr, Accept(size)) && limit > 0 && v.bytes + size > limit
    ensures Leads(v, [Accept(size), ReserveLoad], v, limit)
  {
    var v1 := Step1(v, Accept(size), limit);
    var v2 := Step1(v1, ReserveLoad, limit);
    LeadsFirst(v1, ReserveLoad, [], v2, limit);
    LeadsFirst(v, Accept(size), [ReserveLoad] + [], v2, limit);
    assert [Accept(size)] + ([ReserveLoad] + []) == [Accept(size), ReserveLoad];
    assert v2 == v;
  }

  /** A chunk that fits is reserved and retained as a frame of its own. */
  lemma ChunkRetained(v: Local, size: nat, limit: u64) returns (w: Local)
    requires Ready(v.tr, Accept(size)) && limit > 0 && v.bytes + size <= limit
    ensures Leads(v, [Accept(size), ReserveLoad, ReserveSwap, Retain], w, limit)
    ensures var frame := Frame(v.serial, size);
      && w.tr == v.tr.(handler := Retained(frame), retained := v.tr.retained + [frame])
      && w.bytes == v.bytes + size && w.serial == v.serial + 1
  {
    var v1 := Step1(v, Accept(size), limit);
    var v2 := Step1(v1, ReserveLoad, limit);
    var v3 := Step1(v2, ReserveSwap, limit);
    w := Step1(v3, Retain, limit);
    LeadsFirst(v3, Retain, [], w, limit);
    LeadsFirst(v2, ReserveSwap, [Retain] + [], w, limit);
    LeadsFirst(v1, ReserveLoad, [ReserveSwap] + ([Retain] + []), w, limit);
    LeadsFirst(v, Accept(size), [ReserveLoad] + ([ReserveSwap] + ([Retain] + [])), w, limit);
    assert [Accept(size)] + ([ReserveLoad] + ([ReserveSwap] + ([Retain] + [])))
        == [Accept(size), ReserveLoad, ReserveSwap, Retain];
  }

  /** With room in the queue it is queued and its bytes are taken; with a full queue it is released
      and its bytes are back. */
  lemma ChunkHandled(v: Local, size: nat, limit: u64) returns (actions: seq<Action>, w: Local)
    requires Ready(v.tr, Accept(size)) && limit > 0 && v.bytes + size <= limit
    ensures Leads(v, actions, w, limit)
    ensures var frame := Frame(v.serial, size);
      w == if |v.tr.queue| < v.tr.capacity
           then Local(v.tr.(queue := v.tr.queue + [frame], retained := v.tr.retained + [frame]),
                      v.bytes + size, v.serial + 1)
           else Local(v.tr.(retained := v.tr.retained + [frame], released := v.tr.released + [frame]),
                      v.bytes, v.serial + 1)
  {
    var first := [Accept(size), ReserveLoad, ReserveSwap, Retain];
    var v1 := ChunkRetained(v, size, limit);
    var v2 := Step1(v1, Enqueue, limit);
    var rest;
    if |v.tr.queue| < v.tr.capacity {
      rest, w := [Enqueue] + [], v2;
      LeadsFirst(v1, Enqueue, [], w, limit);
    } else {
      var v3 := Step1(v2, UndoLoad, limit);
      w := Step1(v3, UndoSwap, limit);
      LeadsFirst(v3, UndoSwap, [], w, limit);
      LeadsFirst(v2, UndoLoad, [UndoSwap] + [], w, limit);
      rest := [Enqueue] + ([UndoLoad] + ([UndoSwap] + []));
      LeadsFirst(v1, Enqueue, [UndoLoad] + ([UndoSwap] + []), w, limit);
    }
    actions := first + rest;
    LeadsOn(v, first, v1, rest, w, limit);
  }

  // ---------------------------------------------------------------- a chunk is written

  /** From the end of a write to the release of the frame. */
  lemma BytesReturned(v: Local, limit: u64) returns (w: Local)
    requires v.tr.worker.Returning? && v.tr.worker.frame.size <= v.bytes
    ensures Leads(v, [ReturnLoad, ReturnSwap, FreeFrame], w, limit)
    ensures var frame := v.tr.worker.frame;
      w == Local(v.tr.(worker := Ranging, released := v.tr.released + [frame]), v.bytes - frame.size, v.serial)
  {
    var v1 := Step1(v, ReturnLoad, limit);
    var v2 := Step1(v1, ReturnSwap, limit);
    w := Step1(v2, FreeFrame, limit);
    LeadsFirst(v2, FreeFrame, [], w, limit);
    LeadsFirst(v1, ReturnSwap, [FreeFrame] + [], w, limit);
    LeadsFirst(v, ReturnLoad, [ReturnSwap] + ([FreeFrame] + []), w, limit);
    assert [ReturnLoad] + ([ReturnSwap] + ([FreeFrame] + [])) == [ReturnLoad, ReturnSwap, FreeFrame];
  }

  /** What the worker does with a chunk in hand: a transfer that has not failed writes it, and
      counts it if the write succeeded. */
  function WriteActions(failed: bool, ok: bool): seq<Action> {
    if failed then [] else if ok then [WriteReturns(true), Count] else [WriteReturns(false)]
  }

  lemma WriteEnds(v: Local, ok: bool, limit: u64) returns (w: Local)
    requires v.tr.worker.Taken? && v.tr.handler.Idle?
    ensures Leads(v, [Look] + WriteActions(v.tr.failed, ok), w, limit)
    ensures w == v.(tr := v.tr.(worker := Returning(v.tr.worker.frame)))
  {
    var v1 := Step1(v, Look, limit);
    if v.tr.failed {
      w := v1;
    } else {
      var v2 := Step1(v1, WriteReturns(ok), limit);
      if ok {
        w := Step1(v2, Count, limit);
        LeadsFirst(v2, Count, [], w, limit);
        LeadsFirst(v1, WriteReturns(true), [Count] + [], w, limit);
        assert [WriteReturns(true)] + ([Count] + []) == WriteActions(false, true);
      } else {
        w := v2;
        LeadsFirst(v1, WriteReturns(false), [], w, limit);
        assert [WriteReturns(false)] + [] == WriteActions(false, false);
      }
    }
    LeadsFirst(v, Look, WriteActions(v.tr.failed, ok), w, limit);
  }

  /** The worker takes the oldest chunk. Whether the transfer failed, and whether or not the write
      succeeds, in the end the frame is released and its bytes are available again. */
  lemma ChunkWritten(v: Local, ok: bool, limit: u64) returns (w: Local)
    requires Ready(v.tr, Receive) && v.tr.handler.Idle? && v.tr.queue[0].size <= v.bytes
    ensures Leads(v, [Receive] + (([Look] + WriteActions(v.tr.failed, ok)) + [ReturnLoad, ReturnSwap, FreeFrame]), w,
                  limit)
    ensures var frame := v.tr.queue[0];
      w == Local(v.tr.(queue := v.tr.queue[1..], released := v.tr.released + [frame]), v.bytes - frame.size, v.serial)
  {
    var v1 := Step1(v, Receive, limit);
    var v2 := WriteEnds(v1, ok, limit);
    w := BytesReturned(v2, limit);
    hide Leads, WriteActions;
    var write, back := [Look] + WriteActions(v.tr.failed, ok), [ReturnLoad, ReturnSwap, FreeFrame];
    LeadsOn(v1, write, v2, back, w, limit);
    LeadsFirst(v, Receive, write + back, w, limit);
  }

  // ---------------------------------------------------------------- winding up

  function HandlerRank(h: Handler, bytes: nat): nat {
    match h
    case Idle => 0
    case Reserving(_) => 7
    case Loaded(_, seen) => if seen == bytes then 6 else 8
    case Reserved(_) => 5
    case Retained(_) => 4
    case Undoing(_) => 2
    case UndoLoaded(_, seen) => if seen == bytes then 1 else 3
  }

  function WorkerRank(w: Worker, bytes: nat): nat {
    match w
    case Stopped => 0
    case Ranging => 1
    case Freeing(_) => 2
    case ReturnLoaded(_, seen) => if seen == bytes then 3 else 5
    case Returning(_) => 4
    case Written(_) => 6
    case Writing(_) => 7
    case Taken(_) => 8
  }

  /** What is left to do with the handler, with the queue, and for the worker. */
  function Left(v: Local): (nat, nat, nat) {
    (HandlerRank(v.tr.handler, v.bytes), if v.tr.closes == 0 then 1 else 0,
     8 * |v.tr.queue| + WorkerRank(v.tr.worker, v.bytes))
  }

  function NextOfWorker(tr: Transfer): Action {
    match tr.worker
    case Ranging => if tr.queue == [] then RangeEnds else Receive
    case Taken(_) => Look
    case Writing(_) => WriteReturns(true)
    case Written(_) => Count
    case Returning(_) => ReturnLoad
    case ReturnLoaded(_, _) => ReturnSwap
    case _ => FreeFrame
  }

  /** Finish the chunk that is coming in, close the queue, let the worker go on. */
  function NextAction(tr: Transfer): Action {
    match tr.handler
    case Reserving(_) => ReserveLoad
    case Loaded(_, _) => ReserveSwap
    case Reserved(_) => Retain
    case Retained(_) => Enqueue
    case Undoing(_) => UndoLoad
    case UndoLoaded(_, _) => UndoSwap
    case Idle => if tr.closes == 0 then CloseQueue else NextOfWorker(tr)
  }

  predicate WoundUp(tr: Transfer) {
    tr.handler.Idle? && tr.worker.Stopped? && tr.closes > 0
  }

  lemma NextIsReady(v: Local, limit: u64)
    requires !WoundUp(v.tr)
    ensures Ready(v.tr, NextAction(v.tr))
    ensures var a, b := Left(Step1(v, NextAction(v.tr), limit)), Left(v);
      a.0 < b.0 || (a.0 == b.0 && (a.1 < b.1 || (a.1 == b.1 && a.2 < b.2)))
  {
  }

  lemma {:induction false} WindsUp(v: Local, limit: u64) returns (actions: seq<Action>, w: Local)
    ensures Leads(v, actions, w, limit) && WoundUp(w.tr)
    decreases Left(v).0, Left(v).1, Left(v).2
  {
    if WoundUp(v.tr) {
      actions, w := [], v;
    } else {
      NextIsReady(v, limit);
      hide WoundUp, Left, NextAction, Ready;
      var action := NextAction(v.tr);
      actions, w := WindsUp(Step1(v, action, limit), limit);
      LeadsFirst(v, action, actions, w, limit);
      actions := [action] + actions;
    }
  }

  // ---------------------------------------------------------------- all transfers

  /** A run goes on with actions of transfer `i`. */
  lemma {:induction false} RunGoesOn(run: seq<System>, steps: seq<Step>, limit: u64, i: nat, actions: seq<Action>,
      w: Local) returns (run': seq<System>, steps': seq<Step>)
    requires IsRun(run, steps, limit) && i < |run[|steps|].transfers| && run[|steps|].limit == limit
    requires var s := run[|steps|]; Leads(Local(s.transfers[i], s.receiveBytes, s.serial), actions, w, limit)
    ensures IsRun(run', steps', limit) && steps <= steps'
    ensures var s := run[|steps|];
      run'[|steps'|] == System(w.bytes, limit, s.transfers[i := w.tr], w.serial)
    decreases |actions|
  {
    var s := run[|steps|];
    if actions == [] {
      run', steps' := run, steps;
      assert s.transfers[i := w.tr] == s.transfers;
    } else {
      var step := Act(i, actions[0]);
      var run1, steps1 := run + [Do(s, step)], steps + [step];
      forall k | 0 <= k < |steps1| ensures StepAt(run1, steps1, k) {
        if k < |steps| {
          assert StepAt(run, steps, k);
        }
      }
      run', steps' := RunGoesOn(run1, steps1, limit, i, actions[1..], w);
      var mid := Do(s, step).transfers;
      assert mid[i := w.tr] == s.transfers[i := w.tr];
    }
  }

  /** From every reachable state the first `k` transfers can be wound up, one after the other. */
  lemma {:induction false} SomeWindUp(run: seq<System>, steps: seq<Step>, limit: u64, k: nat)
      returns (run': seq<System>, steps': seq<Step>)
    requires IsRun(run, steps, limit) && k <= |run[|steps|].transfers|
    ensures IsRun(run', steps', limit) && steps <= steps'
    ensures |run'[|steps'|].transfers| == |run[|steps|].transfers|
    ensures forall i :: 0 <= i < k ==> WoundUp(run'[|steps'|].transfers[i])
  {
    if k == 0 {
      run', steps' := run, steps;
    } else {
      var run1, steps1 := SomeWindUp(run, steps, limit, k - 1);
      InvInEveryRun(run1, steps1, limit, |steps1|);
      var s := run1[|steps1|];
      hide Inv, Leads, IsRun, WoundUp;
      var actions, w := WindsUp(Local(s.transfers[k - 1], s.receiveBytes, s.serial), limit);
      run', steps' := RunGoesOn(run1, steps1, limit, k - 1, actions, w);
    }
  }

  /** Nothing stays behind: whatever the transfers are in the middle of, they can all finish, and
      then every retained frame has been released and the whole budget is back. */
  lemma EverythingComesBack(run: seq<System>, steps: seq<Step>, limit: u64)
      returns (run': seq<System>, steps': seq<Step>)
    requires IsRun(run, steps, limit)
    ensures IsRun(run', steps', limit) && steps <= steps'
    ensures var z := run'[|steps'|];
      && |z.transfers| == |run[|steps|].transfers| && z.receiveBytes == 0
      && forall i :: 0 <= i < |z.transfers| ==>
           z.transfers[i].worker.Stopped? && multiset(z.transfers[i].released) == multiset(z.transfers[i].retained)
  {
    run', steps' := SomeWindUp(run, steps, limit, |run[|steps|].transfers|);
    var n, z := |steps'|, run'[|steps'|];
    InvInEveryRun(run', steps', limit, n);
    forall i | 0 <= i < |z.transfers|
      ensures AtRest(z.transfers[i]) && multiset(z.transfers[i].released) == multiset(z.transfers[i].retained)
    {
      assert WoundUp(z.transfers[i]) && TransferOk(z.transfers[i], limit, z.serial);
      forall x ensures multiset(z.transfers[i].released)[x] == multiset(z.transfers[i].retained)[x] {
        FramesReleasedOnce(run', steps', limit, n, i, x);
      }
    }
    BudgetReturned(run', steps', limit, n);
  }

  /** A new transfer takes data, a failed one or a closed one none. */
  lemma TakesData(s: System, capacity: nat, tr: Transfer, size: nat, bytes: nat, limit: u64, serial: nat)
    ensures var z := Do(s, Open(capacity)); var i := |s.transfers|;
      && |z.transfers| == i + 1 && z.transfers[..i] == s.transfers
      && Ready(z.transfers[i], Accept(size)) && z.transfers[i].capacity == capacity && z.transfers[i].queue == []
    ensures tr.handler.Idle? ==>
      && !Ready(Move(tr, Fail, bytes, limit, serial), Accept(size))
      && (QueueSafe(tr) ==> !Ready(Move(tr, CloseQueue, bytes, limit, serial), Accept(size)))
  {
  }
}
