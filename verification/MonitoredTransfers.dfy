/** The retransmission monitor together with the transfers it watches: the deadlines of module
    `Monitor` are those of the senders of module `Sending`, and everything that happens to a
    sender happens by the clock. That a blocked sender's deadline never moves forward is a
    consequence here, not a condition. */
module MonitoredTransfers {
  import opened Base
  import opened Sending
  import M = Monitor

  /** Thread `i` of the monitor's state sends transfer `i`. */
  datatype World = World(m: M.State, transfers: seq<Sender>, now: int)

  datatype Step =
    | Tick(to: int)
    | Own(i: nat, op: Op)
    | Arrives(i: nat, op: Op, at: Option<int>)
    | Wait(i: nat, at: Option<int>)
    | Internal(step: M.Step)
    | ScanTransfer(i: nat, at: Option<int>)

  /** When the transfer next needs the monitor: never, if it has ended. */
  ghost predicate IsDue(s: Sender, at: Option<int>) {
    if Idle(s) then at.None? else IsEarliest(s, at)
  }

  /** Steps that touch no transfer: scheduling, waking up, and the monitor's own. */
  predicate IsInternal(step: M.Step) {
    !step.BeginWait? && !step.Postpone? && !step.Visit?
  }

  predicate LockFree(w: World, i: nat) {
    i < |w.m.threads| == |w.transfers| && !M.HoldsLock(w.m.threads[i])
  }

  ghost predicate Enabled(w: World, step: Step) {
    match step
    case Tick(to) => w.now <= to
    case Own(i, op) =>
      LockFree(w, i) && w.m.threads[i].Running?
      && (op.Send? || op.Finish?) && OpEnabled(w.transfers[i], op) && HappensAt(op, w.now)
    case Arrives(i, op, at) =>
      LockFree(w, i) && !op.Send? && !op.Finish? && !op.OnScan? && HappensAt(op, w.now)
      && IsDue(ApplyOp(w.transfers[i], op), at)
    case Wait(i, at) =>
      LockFree(w, i) && w.m.threads[i].Running? && !Idle(w.transfers[i]) && IsDue(w.transfers[i], at)
    case Internal(step) => IsInternal(step) && M.Enabled(w.m, step)
    case ScanTransfer(i, at) =>
      LockFree(w, i) && w.m.pc.Scanning? && i in w.m.pc.todo && IsDue(Scan(w.transfers[i], w.now).sender, at)
  }

  ghost function Do(w: World, step: Step): World
    requires Enabled(w, step)
  {
    match step
    case Tick(to) => w.(now := to)
    case Own(i, op) => w.(transfers := w.transfers[i := ApplyOp(w.transfers[i], op)])
    case Arrives(i, op, at) =>
      w.(transfers := w.transfers[i := ApplyOp(w.transfers[i], op)],
         m := if w.m.threads[i].Blocked? then M.Put(w.m, i, M.Blocked(at)) else w.m)
    case Wait(i, at) => w.(m := M.Put(w.m, i, if at.None? then M.Blocked(None) else M.Calling(at.value)))
    case Internal(step) => w.(m := M.Do(w.m, step))
    case ScanTransfer(i, at) =>
      w.(transfers := w.transfers[i := Scan(w.transfers[i], w.now).sender], m := M.Visited(w.m, i, at))
  }

  // ---------------------------------------------------------------- invariant

  /** What thread and transfer say about the deadline agrees. */
  ghost predicate Linked(t: M.Thread, s: Sender) {
    match t
    case Running => true
    case Calling(d) => IsDue(s, Some(d))
    case Loaded(d, _) => IsDue(s, Some(d))
    case Posting(d) => IsDue(s, Some(d))
    case Blocked(at) => IsDue(s, at)
  }

  predicate Timed(s: Sender, now: int) {
    Clocked(s, now) && s.limits.ackTimeout > 0
  }

  ghost predicate PairOk(w: World, i: nat)
    requires i < |w.m.threads| == |w.transfers|
  {
    Linked(w.m.threads[i], w.transfers[i]) && Timed(w.transfers[i], w.now)
  }

  ghost predicate Inv(w: World) {
    && M.Inv(w.m) && w.now >= 0
    && |w.m.threads| == |w.transfers|
    && forall i :: 0 <= i < |w.transfers| ==> PairOk(w, i)
  }

  lemma IdleStays(s: Sender, op: Op)
    requires Idle(s) && OpEnabled(s, op) && !op.Send? && !op.Finish?
    ensures Idle(ApplyOp(s, op))
  {
    hide InsideBytes, Matched;
  }

  lemma DueIsPositive(s: Sender, at: Option<int>, now: int)
    requires Timed(s, now) && IsDue(s, at) && at.Some?
    ensures at.value > 0
  {
  }

  /** Whatever happens to a transfer that its own goroutine does not do, the next instant it needs
      the monitor does not move forward. */
  lemma DueNotEarlier(s: Sender, op: Op, now: int, at: Option<int>, at': Option<int>)
    requires OpEnabled(s, op) && !op.Send? && !op.Finish? && HappensAt(op, now) && Timed(s, now)
    requires IsDue(s, at) && IsDue(ApplyOp(s, op), at')
    ensures M.NotEarlier(at, at')
  {
    hide ApplyOp, LiveDeadline, Clocked;
    if at'.Some? {
      if Idle(s) {
        IdleStays(s, op);
        assert false;
      }
      LimitsKept(s, op);
      var before := DeadlinesOnlyMoveOn(s, op, now, at'.value);
    }
  }

  lemma TimedStep(s: Sender, op: Op, now: int)
    requires OpEnabled(s, op) && HappensAt(op, now) && Timed(s, now) && now >= 0
    ensures Timed(ApplyOp(s, op), now)
  {
    hide ApplyOp, Clocked;
    ClockedStep(s, op, now);
    LimitsKept(s, op);
  }

  // ---------------------------------------------------------------- steps

  lemma OthersOk(w: World, w': World, i: nat)
    requires Inv(w) && i < |w.transfers|
    requires |w'.m.threads| == |w'.transfers| == |w.transfers| && w'.now == w.now
    requires forall k :: 0 <= k < |w.transfers| && k != i ==>
      w'.m.threads[k] == w.m.threads[k] && w'.transfers[k] == w.transfers[k]
    requires PairOk(w', i)
    ensures forall k :: 0 <= k < |w'.transfers| ==> PairOk(w', k)
  {
    hide Linked, Timed, M.Inv;
    forall k | 0 <= k < |w'.transfers| ensures PairOk(w', k) {
      assert PairOk(w, k);
    }
  }

  lemma TickInv(w: World, to: int)
    requires Inv(w) && w.now <= to
    ensures Inv(Do(w, Tick(to)))
  {
    hide Linked, M.Inv;
    forall k | 0 <= k < |w.transfers| ensures PairOk(w.(now := to), k) {
      assert PairOk(w, k);
    }
  }

  lemma OwnInv(w: World, i: nat, op: Op)
    requires Inv(w) && Enabled(w, Own(i, op))
    ensures Inv(Do(w, Own(i, op)))
  {
    hide ApplyOp, IsDue, Timed, M.Inv;
    assert PairOk(w, i);
    TimedStep(w.transfers[i], op, w.now);
    OthersOk(w, Do(w, Own(i, op)), i);
  }

  lemma ArrivesInv(w: World, i: nat, op: Op, at: Option<int>)
    requires Inv(w) && Enabled(w, Arrives(i, op, at))
    ensures Inv(Do(w, Arrives(i, op, at)))
  {
    hide ApplyOp, IsDue, Timed, M.Inv;
    var w' := Do(w, Arrives(i, op, at));
    assert PairOk(w, i);
    TimedStep(w.transfers[i], op, w.now);
    if w.m.threads[i].Blocked? {
      DueNotEarlier(w.transfers[i], op, w.now, w.m.threads[i].at, at);
      assert M.Enabled(w.m, M.Postpone(i, at)) && w'.m == M.Do(w.m, M.Postpone(i, at));
      M.StepInv(w.m, M.Postpone(i, at));
    }
    OthersOk(w, w', i);
  }

  lemma WaitInv(w: World, i: nat, at: Option<int>)
    requires Inv(w) && Enabled(w, Wait(i, at))
    ensures Inv(Do(w, Wait(i, at)))
  {
    hide IsDue, Timed, M.Inv;
    var w' := Do(w, Wait(i, at));
    assert PairOk(w, i);
    if at.Some? {
      DueIsPositive(w.transfers[i], at, w.now);
    }
    assert M.Enabled(w.m, M.BeginWait(i, at)) && w'.m == M.Do(w.m, M.BeginWait(i, at));
    M.StepInv(w.m, M.BeginWait(i, at));
    OthersOk(w, w', i);
  }

  lemma ScanInv(w: World, i: nat, at: Option<int>)
    requires Inv(w) && Enabled(w, ScanTransfer(i, at))
    ensures Inv(Do(w, ScanTransfer(i, at)))
  {
    hide Scan, IsDue, Timed, M.Inv;
    var w' := Do(w, ScanTransfer(i, at));
    var op := OnScan(w.now);
    var s := w.transfers[i];
    assert ApplyOp(s, op) == Scan(s, w.now).sender;
    assert PairOk(w, i);
    TimedStep(s, op, w.now);
    if at.Some? {
      DueIsPositive(ApplyOp(s, op), at, w.now);
    }
    if w.m.threads[i].Blocked? {
      DueNotEarlier(s, op, w.now, w.m.threads[i].at, at);
    }
    assert M.Enabled(w.m, M.Visit(i, at)) && w'.m == M.Do(w.m, M.Visit(i, at));
    M.StepInv(w.m, M.Visit(i, at));
    OthersOk(w, w', i);
  }

  /** A step of the scheduling code keeps the deadline of its thread. */
  lemma InternalLinked(m: M.State, step: M.Step, k: nat, s: Sender)
    requires IsInternal(step) && M.Enabled(m, step) && k < |m.threads| && Linked(m.threads[k], s)
    ensures k < |M.Do(m, step).threads| == |m.threads| && Linked(M.Do(m, step).threads[k], s)
  {
    hide IsDue;
  }

  lemma InternalInv(w: World, step: M.Step)
    requires Inv(w) && Enabled(w, Internal(step))
    ensures Inv(Do(w, Internal(step)))
  {
    hide Linked, Timed, M.Inv, M.Do;
    var w' := Do(w, Internal(step));
    M.StepInv(w.m, step);
    InternalCount(w.m, step);
    forall k | 0 <= k < |w'.transfers| ensures PairOk(w', k) {
      assert PairOk(w, k);
      InternalLinked(w.m, step, k, w.transfers[k]);
    }
  }

  lemma InternalCount(m: M.State, step: M.Step)
    requires IsInternal(step) && M.Enabled(m, step)
    ensures |M.Do(m, step).threads| == |m.threads|
  {
  }

  lemma StepInv(w: World, step: Step)
    requires Inv(w) && Enabled(w, step)
    ensures Inv(Do(w, step))
  {
    hide Inv, Enabled, Do;
    match step {
      case Tick(to) => TickStep(w, to);
      case Own(i, op) => OwnInv(w, i, op);
      case Arrives(i, op, at) => ArrivesInv(w, i, op, at);
      case Wait(i, at) => WaitInv(w, i, at);
      case Internal(step) => InternalInv(w, step);
      case ScanTransfer(i, at) => ScanInv(w, i, at);
    }
  }

  lemma TickStep(w: World, to: int)
    requires Inv(w) && Enabled(w, Tick(to))
    ensures Inv(Do(w, Tick(to)))
  {
    hide Inv, Do;
    TickInv(w, to);
  }

  // ---------------------------------------------------------------- whole runs

  ghost predicate StepAt(run: seq<World>, steps: seq<Step>, i: nat)
    requires i < |steps| < |run|
  {
    Enabled(run[i], steps[i]) && run[i + 1] == Do(run[i], steps[i])
  }

  predicate Initial(w: World) {
    && M.Initial(w.m) && w.now >= 0 && |w.m.threads| == |w.transfers|
    && forall i :: 0 <= i < |w.transfers| ==> Timed(w.transfers[i], w.now)
  }

  ghost predicate IsRun(run: seq<World>, steps: seq<Step>) {
    && |run| == |steps| + 1
    && Initial(run[0])
    && forall i :: 0 <= i < |steps| ==> StepAt(run, steps, i)
  }

  lemma InitialInv(w: World)
    requires Initial(w)
    ensures Inv(w)
  {
    hide Timed;
    forall k | 0 <= k < |w.transfers| ensures PairOk(w, k) {
      assert w.m.threads[k] == M.Running;
    }
  }

  lemma {:induction false} InvInEveryRun(run: seq<World>, steps: seq<Step>, n: nat)
    requires IsRun(run, steps) && n <= |steps|
    ensures Inv(run[n])
  {
    hide Inv, Initial, Do, Enabled;
    if n == 0 {
      InitialInv(run[0]);
    } else {
      InvInEveryRun(run, steps, n - 1);
      assert StepAt(run, steps, n - 1);
      StepInv(run[n - 1], steps[n - 1]);
    }
  }

  /** No lost timer, for the transfers themselves: in every interleaving of the senders, of what
      arrives for them, of the scheduling code and of the monitor, a blocked sender with an
      unacknowledged chunk or an uncommitted end has a timer armed no later than its deadline, a
      wake pending or about to be posted, or a scan still to come or about to reschedule. */
  lemma NoLostDeadline(run: seq<World>, steps: seq<Step>, n: nat, i: nat, d: int)
    requires IsRun(run, steps) && n <= |steps|
    requires i < |run[n].transfers| && i < |run[n].m.threads| && run[n].m.threads[i].Blocked?
    requires !Idle(run[n].transfers[i]) && LiveDeadline(run[n].transfers[i], d)
    ensures M.LookedAfter(run[n].m, i, d)
  {
    hide LiveDeadline, M.Inv;
    InvInEveryRun(run, steps, n);
    assert PairOk(run[n], i);
    var at := run[n].m.threads[i].at;
    assert IsEarliest(run[n].transfers[i], at);
    M.InvLooksAfter(run[n].m, i);
  }
}
