/** What the session writer owes its callers: which frames it may turn away, and that the others
    reach the wire. */
module Delivery {
  import opened Base
  import opened RingQueue
  import Schedule
  import opened SessionWriter

  /** The queues have room for `size` more bytes in one more frame. */
  predicate Room(w: Writer, size: nat) {
    && (w.cfg.maxFrames > 0 ==> TotalItems(w.q, |w.q|) < w.cfg.maxFrames)
    && (w.cfg.maxBytes > 0 ==> TotalBytes(w.q, |w.q|) + size <= w.cfg.maxBytes)
  }

  /** The frame as it is queued, with its priority clamped and its stamp. */
  function Queueable(w: Writer, item: Item): Item {
    Item(w.clock, Min(item.priority, Schedule.PRIORITIES - 1), item.control, item.size)
  }

  /** The writer takes no more frames like `x`: it is closed, or closing and `x` is not critical. */
  predicate Barred(w: Writer, x: Item) {
    w.closed || (w.controlOnly && !(x.priority == 0 && x.control))
  }

  /** A frame is queued exactly if there is room for it and it is not barred, behind everything of
      its priority. It is turned away at once if it is barred and there is room, or if it is barred
      by closing on entry. Without room it waits, unless the writer is closed or the caller gives up. */
  lemma EnqueueDecides(w: Writer, item: Item, entering: bool, gaveUp: bool)
    requires Counted(w)
    ensures var w', x := Enqueue(w, item, entering, gaveUp), Queueable(w, item);
      var refused := if Room(w, x.size) then Barred(w, x)
                     else w.closed || gaveUp || (entering && Barred(w, x));
      && (Room(w, x.size) && !Barred(w, x) ==>
            && w'.q == w.q[x.priority := w.q[x.priority] + [x]]
            && w'.released == w.released && w'.submitted == w.submitted + multiset{x})
      && (refused ==>
            w'.q == w.q && w'.released == w.released + [x] && w'.submitted == w.submitted + multiset{x})
      && (!refused && !Room(w, x.size) ==> w' == w)
      && w'.wire == w.wire && w'.inFlight == w.inFlight
  {
    hide TotalItems, TotalBytes;
  }

  // ---------------------------------------------------------------- undisturbed runs

  /** Nobody closes the writer, no write fails and no caller gives up. */
  predicate Disturbs(step: Step) {
    step.StartClosing? || step.Shut? || step == Written(false) || (step.Submit? && step.gaveUp)
  }

  predicate Undisturbed(steps: seq<Step>) {
    forall i :: 0 <= i < |steps| ==> !Disturbs(steps[i])
  }

  predicate AllOnWire(w: Writer) {
    !w.closed && !w.controlOnly && w.released == w.wire
  }

  lemma AllOnWireStep(w: Writer, step: Step)
    requires AllOnWire(w) && Enabled(w, step) && !Disturbs(step)
    ensures AllOnWire(Do(w, step))
  {
    hide Schedule.Pop;
  }

  /** As long as nothing disturbs the writer, no frame is disposed of without being written. */
  lemma {:induction false} NothingDropped(run: seq<Writer>, steps: seq<Step>, n: nat)
    requires IsRun(run, steps) && n <= |steps| && Undisturbed(steps[..n])
    ensures AllOnWire(run[n])
  {
    if n == 0 {
    } else {
      assert steps[..n - 1] == steps[..n][..n - 1] && steps[..n][n - 1] == steps[n - 1];
      NothingDropped(run, steps, n - 1);
      assert StepAt(run, steps, n - 1);
      AllOnWireStep(run[n - 1], steps[n - 1]);
    }
  }

  lemma Extended(run: seq<Writer>, steps: seq<Step>, step: Step) returns (run': seq<Writer>, steps': seq<Step>)
    requires IsRun(run, steps) && Enabled(run[|steps|], step)
    ensures run' == run + [Do(run[|steps|], step)] && steps' == steps + [step] && IsRun(run', steps')
  {
    run', steps' := run + [Do(run[|steps|], step)], steps + [step];
    forall i | 0 <= i < |steps'| ensures StepAt(run', steps', i) {
      if i < |steps| {
        assert StepAt(run, steps, i);
      }
    }
  }

  /** Frames not yet on the wire, twice for those that must still be popped. */
  function WorkLeft(w: Writer): int {
    2 * w.queuedItems + if w.inFlight.Some? then 1 else 0
  }

  /** From every state of an undisturbed run, popping and writing puts every frame that was
      submitted on the wire, and nothing else. */
  lemma {:induction false} EverythingGetsWritten(run: seq<Writer>, steps: seq<Step>)
      returns (run': seq<Writer>, steps': seq<Step>)
    requires IsRun(run, steps) && Undisturbed(steps)
    ensures IsRun(run', steps') && steps <= steps' && |steps'| == |steps| + WorkLeft(run[|steps|])
    ensures forall i :: |steps| <= i < |steps'| ==> steps'[i] == Take || steps'[i] == Written(true)
    ensures multiset(run'[|steps'|].wire) == run[|steps|].submitted
    decreases WorkLeft(run[|steps|])
  {
    var w := run[|steps|];
    InvInEveryRun(run, steps, |steps|);
    if WorkLeft(w) == 0 {
      run', steps' := run, steps;
      assert steps[..|steps|] == steps;
      NothingDropped(run, steps, |steps|);
      OnWireWhenIdle(w);
    } else {
      var step := if w.inFlight.Some? then Written(true) else Take;
      if step == Take {
        PopsWhenQueued(run, steps);
      }
      var run1, steps1 := Extended(run, steps, step);
      run', steps' := EverythingGetsWritten(run1, steps1);
    }
  }

  lemma OnWireWhenIdle(w: Writer)
    requires Inv(w) && WorkLeft(w) == 0 && AllOnWire(w)
    ensures multiset(w.wire) == w.submitted
  {
    hide Ordered, ClosingRespected, Unique, TotalItems, TotalBytes, Copies;
    assert w.queuedItems == 0 && w.inFlight.None?;
    forall x ensures multiset(w.wire)[x] == w.submitted[x] {
      assert ConservedAt(w, x);
      NoItemsNoCopies(w.q, x, |w.q|);
    }
  }

  lemma PopsWhenQueued(run: seq<Writer>, steps: seq<Step>)
    requires IsRun(run, steps) && Inv(run[|steps|])
    requires run[|steps|].inFlight.None? && WorkLeft(run[|steps|]) != 0
    ensures var w := run[|steps|];
      && Enabled(w, Take) && WorkLeft(Do(w, Take)) == WorkLeft(w) - 1 && Do(w, Take).submitted == w.submitted
      && WorkLeft(w) > 0
  {
    BoundedAndLive(run, steps, |steps|);
  }

  // ---------------------------------------------------------------- weighted shares

  /** Pops among the steps `a .. b - 1`. */
  function Takes(steps: seq<Step>, a: nat, b: nat): nat
    requires a <= b <= |steps|
    decreases b - a
  {
    if a == b then 0 else Takes(steps, a, b - 1) + if steps[b - 1].Take? then 1 else 0
  }

  /** Step `i` takes a frame of priority `p`. */
  predicate Serves(run: seq<Writer>, steps: seq<Step>, p: nat, i: nat)
    requires i < |steps| < |run|
  {
    steps[i].Take? && run[i + 1].inFlight.Some? && run[i + 1].inFlight.value.priority == p
  }

  /** How often the steps `a .. b - 1` do. */
  function Served(run: seq<Writer>, steps: seq<Step>, p: nat, a: nat, b: nat): nat
    requires a <= b <= |steps| < |run|
    decreases b - a
  {
    if a == b then 0 else Served(run, steps, p, a, b - 1) + if Serves(run, steps, p, b - 1) then 1 else 0
  }

  /** Priority `p` has something queued at step `i`, if that is a pop. */
  predicate WaitsAt(run: seq<Writer>, steps: seq<Step>, p: nat, i: nat)
    requires i < |steps| < |run| && p < Schedule.PRIORITIES
  {
    steps[i].Take? ==> Schedule.Queues(run[i].q) && run[i].q[p] != []
  }

  /** A pop moves the schedule by at least one slot; `p` is served once for its own among them. */
  lemma TakeMoves(w: Writer, p: nat) returns (used: nat)
    requires Inv(w) && p < Schedule.PRIORITIES && w.q[p] != [] && w.inFlight.None?
    ensures used >= 1 && TakeNext(w).at == Schedule.Wrap(w.at + used)
    ensures TakeNext(w).inFlight.Some?
    ensures Schedule.Share(p, w.at, used) == if TakeNext(w).inFlight.value.priority == p then 1 else 0
  {
    hide Schedule.Pop, Schedule.Share;
    Schedule.PopAccount(w.q, w.at, Schedule.FullRound(), 0, p);
    Schedule.AnyRound(p, w.at);
    PopTakesHead(w.q, w.at, Schedule.FullRound(), 0);
    var r := Schedule.Pop(w.q, w.at, Schedule.FullRound(), 0);
    used := r.used;
    assert Ascending(w.q[r.from], r.from, 0, w.clock);
  }

  /** Nothing but a pop moves the schedule. */
  lemma ScheduleStays(w: Writer, step: Step)
    requires Enabled(w, step) && !step.Take?
    ensures Do(w, step).at == w.at
  {
  }

  /** After the steps `a .. b - 1` the schedule has moved on by some number of slots, at least one
      for every pop, and `p` was served once for each of its own slots among them. */
  lemma {:induction false} ServedEqualsShare(run: seq<Writer>, steps: seq<Step>, p: nat, a: nat,
      b: nat) returns (moved: nat)
    requires IsRun(run, steps) && p < Schedule.PRIORITIES && a <= b <= |steps|
    requires forall i :: a <= i < b ==> WaitsAt(run, steps, p, i)
    ensures moved >= Takes(steps, a, b) && run[a].at < Schedule.SLOTS
    ensures run[b].at == Schedule.Wrap(run[a].at + moved)
    ensures Served(run, steps, p, a, b) == Schedule.Share(p, run[a].at, moved)
    decreases b - a
  {
    hide Schedule.Wrap, Do, Enabled;
    InvInEveryRun(run, steps, a);
    if a == b {
      moved := 0;
      Schedule.WrapAdd(run[a].at, 0);
    } else {
      moved := ServedEqualsShare(run, steps, p, a, b - 1);
      assert StepAt(run, steps, b - 1) && WaitsAt(run, steps, p, b - 1);
      if steps[b - 1].Take? {
        var used := PopMoves(run, steps, p, b - 1);
        Schedule.SharePeriodic(p, run[a].at + moved, used);
        Schedule.ShareSplits(p, run[a].at, moved, used);
        Schedule.WrapAdd(run[a].at + moved, used);
        moved := moved + used;
      } else {
        ScheduleStays(run[b - 1], steps[b - 1]);
      }
    }
  }

  lemma PopMoves(run: seq<Writer>, steps: seq<Step>, p: nat, i: nat) returns (used: nat)
    requires IsRun(run, steps) && p < Schedule.PRIORITIES && i < |steps| && steps[i].Take?
    requires WaitsAt(run, steps, p, i)
    ensures used >= 1 && run[i + 1].at == Schedule.Wrap(run[i].at + used)
    ensures Schedule.Share(p, run[i].at, used) == if Serves(run, steps, p, i) then 1 else 0
  {
    InvInEveryRun(run, steps, i);
    assert StepAt(run, steps, i);
    used := TakeMoves(run[i], p);
  }

  /** Weighted share without starvation, in every run of the writer: over any stretch with at least
      16 pops, whatever is submitted meanwhile, a priority that always has something waiting is
      served at least its weight (8, 4, 2, 1 and 1 times). */
  lemma WeightedShare(run: seq<Writer>, steps: seq<Step>, p: nat, a: nat, b: nat)
    requires IsRun(run, steps) && p < Schedule.PRIORITIES && a <= b <= |steps|
    requires forall i :: a <= i < b ==> WaitsAt(run, steps, p, i)
    requires Takes(steps, a, b) >= Schedule.SLOTS
    ensures Served(run, steps, p, a, b) >= [8, 4, 2, 1, 1][p]
  {
    var moved := ServedEqualsShare(run, steps, p, a, b);
    Schedule.ShareOfLongStretch(p, run[a].at, moved);
  }

  // ---------------------------------------------------------------- closing

  /** Callers and the closing side can act in every reachable state, the goroutine whenever it has
      something to do. */
  lemma NobodyIsBlocked(run: seq<Writer>, steps: seq<Step>, n: nat, item: Item, entering: bool, gaveUp: bool)
    requires IsRun(run, steps) && n <= |steps|
    ensures Enabled(run[n], Submit(item, entering, gaveUp))
    ensures Enabled(run[n], StartClosing) && Enabled(run[n], Shut)
    ensures forall ok :: Enabled(run[n], Written(ok)) <==> run[n].inFlight.Some?
    ensures Enabled(run[n], Take) <==> run[n].inFlight.None? && TotalItems(run[n].q, |run[n].q|) > 0
  {
    hide TotalItems, TotalBytes;
    InvInEveryRun(run, steps, n);
  }

  predicate AllReleased(w: Writer) {
    Schedule.Queues(w.q) && forall p :: 0 <= p < Schedule.PRIORITIES ==> w.q[p] == []
  }

  /** What a closed writer still may have written: the frame it was just writing. */
  predicate ClosedSince(before: Writer, w: Writer) {
    && w.closed && AllReleased(w)
    && (w.inFlight.Some? ==> w.inFlight == before.inFlight && w.wire == before.wire)
    && (w.inFlight.None? ==>
          || w.wire == before.wire
          || (before.inFlight.Some? && w.wire == before.wire + [before.inFlight.value]))
  }

  lemma ClosedStep(before: Writer, w: Writer, step: Step)
    requires ClosedSince(before, w) && Counted(w) && Enabled(w, step)
    ensures ClosedSince(before, Do(w, step))
  {
    hide TotalItems, TotalBytes, Schedule.Pop;
    EmptySums(w.q, |w.q|);
  }

  /** Closing is final: from then on nothing is queued, and nothing reaches the wire but the frame
      that was being written. */
  lemma {:induction false} ClosedForGood(run: seq<Writer>, steps: seq<Step>, n: nat, m: nat)
    requires IsRun(run, steps) && n < m <= |steps| && steps[n] == Shut
    ensures ClosedSince(run[n], run[m])
    decreases m
  {
    hide Counted, ClosedSince;
    assert StepAt(run, steps, m - 1);
    InvInEveryRun(run, steps, m - 1);
    if n == m - 1 {
      ShutCloses(run[n]);
    } else {
      ClosedForGood(run, steps, n, m - 1);
      ClosedStep(run[n], run[m - 1], steps[m - 1]);
    }
  }

  lemma ShutCloses(w: Writer)
    requires Inv(w)
    ensures ClosedSince(w, Close(w))
  {
  }

  /** So is the start of closing: only critical control frames are queued from then on. */
  lemma {:induction false} ClosingForGood(run: seq<Writer>, steps: seq<Step>, n: nat, m: nat, p: nat, i: nat)
    requires IsRun(run, steps) && n < m <= |steps| && steps[n] == StartClosing
    requires p < |run[m].q| && i < |run[m].q[p]|
    ensures run[m].q[p][i].priority == 0 && run[m].q[p][i].control
  {
    InvInEveryRun(run, steps, m);
    StaysControlOnly(run, steps, n, m);
  }

  lemma {:induction false} StaysControlOnly(run: seq<Writer>, steps: seq<Step>, n: nat, m: nat)
    requires IsRun(run, steps) && n < m <= |steps| && steps[n] == StartClosing
    ensures run[m].controlOnly
    decreases m
  {
    assert StepAt(run, steps, m - 1);
    if n < m - 1 {
      StaysControlOnly(run, steps, n, m - 1);
    }
  }
}
