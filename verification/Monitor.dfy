/** The retransmission monitor (session.go): a lock-free cell holding the earliest deadline, a
    one-slot wake channel, and a goroutine with a timer. Any number of sending goroutines call
    `scheduleOutgoingMonitor` and block; every atomic operation is a step of its own, so loads,
    compare-and-swaps, posts, timer expiry and scans interleave freely. */
module Monitor {
  import opened Base

  /** A sending goroutine. From `Calling` to `Posting` it holds its transfer's lock; `Blocked`
      is `cond.Wait`, with the transfer's earliest deadline if it has one. */
  datatype Thread =
    | Running
    | Calling(deadline: int)
    | Loaded(deadline: int, current: int)
    | Posting(deadline: int)
    | Blocked(at: Option<int>)

  /** The monitor goroutine: in its `select`; between taking the wake and loading the cell; after
      the timer fired for `fired`; scanning, with the transfers still to visit and the earliest
      deadline found; or rescheduling itself. */
  datatype MonitorPc =
    | Select
    | Woken
    | Fired(fired: int)
    | Scanning(todo: set<nat>, found: Option<int>)
    | MCalling(goal: int)
    | MLoaded(goal: int, seen: int)
    | MPosting

  /** `next` is `outgoingNext` and `armed` the timer's target; 0 means none. */
  datatype State = State(next: int, wake: bool, armed: int, pc: MonitorPc, threads: seq<Thread>)

  datatype Step =
    | BeginWait(i: nat, at: Option<int>)
    | Load(i: nat)
    | Decide(i: nat)
    | Post(i: nat)
    | Resume(i: nat)
    | Postpone(i: nat, at: Option<int>)
    | TakeWake
    | Arm
    | Fire
    | Clear
    | Visit(i: nat, at: Option<int>)
    | EndScan
    | MLoad
    | MDecide
    | MPost

  predicate IsThread(s: State, i: nat) {
    i < |s.threads|
  }

  /** A deadline that is not earlier: a retransmission or an acknowledgement moves it on. */
  predicate NotEarlier(at: Option<int>, at': Option<int>) {
    at'.Some? ==> at.Some? && at'.value >= at.value
  }

  predicate HoldsLock(t: Thread) {
    t.Calling? || t.Loaded? || t.Posting?
  }

  predicate Enabled(s: State, step: Step) {
    match step
    case BeginWait(i, at) => IsThread(s, i) && s.threads[i].Running? && (at.Some? ==> at.value > 0)
    case Load(i) => IsThread(s, i) && s.threads[i].Calling?
    case Decide(i) => IsThread(s, i) && s.threads[i].Loaded?
    case Post(i) => IsThread(s, i) && s.threads[i].Posting?
    case Resume(i) => IsThread(s, i) && s.threads[i].Blocked?
    case Postpone(i, at) => IsThread(s, i) && s.threads[i].Blocked? && NotEarlier(s.threads[i].at, at)
    case TakeWake => s.pc.Select? && s.wake
    case Arm => s.pc.Woken?
    case Fire => s.pc.Select? && s.armed != 0
    case Clear => s.pc.Fired?
    case Visit(i, at) =>
      && s.pc.Scanning? && i in s.pc.todo && (at.Some? ==> at.value > 0)
      && (IsThread(s, i) ==> !HoldsLock(s.threads[i]) && (s.threads[i].Blocked? ==> NotEarlier(s.threads[i].at, at)))
    case EndScan => s.pc.Scanning? && s.pc.todo == {}
    case MLoad => s.pc.MCalling?
    case MDecide => s.pc.MLoaded?
    case MPost => s.pc.MPosting?
  }

  function Put(s: State, i: nat, t: Thread): State
    requires i < |s.threads|
  {
    s.(threads := s.threads[i := t])
  }

  function Sooner(a: Option<int>, b: Option<int>): Option<int> {
    if a.None? then b else if b.None? || a.value <= b.value then a else b
  }

  function AllIds(n: nat): (ids: set<nat>)
    ensures forall i: nat :: i in ids <==> i < n
  {
    if n == 0 then {} else AllIds(n - 1) + {n - 1}
  }

  /** A scan passed transfer `i`, whose earliest deadline is now `at`. */
  function Visited(s: State, i: nat, at: Option<int>): State
    requires s.pc.Scanning?
  {
    var s' := s.(pc := Scanning(s.pc.todo - {i}, Sooner(s.pc.found, at)));
    if IsThread(s, i) && s.threads[i].Blocked? then Put(s', i, Blocked(at)) else s'
  }

  function Do(s: State, step: Step): State
    requires Enabled(s, step)
  {
    match step
    case BeginWait(i, at) => Put(s, i, if at.None? then Blocked(None) else Calling(at.value))
    case Load(i) => Put(s, i, Loaded(s.threads[i].deadline, s.next))
    case Decide(i) =>
      var Loaded(d, c) := s.threads[i];
      if c != 0 && c <= d then Put(s, i, Blocked(Some(d)))
      else if s.next == c then Put(s.(next := d), i, Posting(d))
      else Put(s, i, Calling(d))
    case Post(i) => Put(s.(wake := true), i, Blocked(Some(s.threads[i].deadline)))
    case Resume(i) => Put(s, i, Running)
    case Postpone(i, at) => Put(s, i, Blocked(at))
    case TakeWake => s.(wake := false, pc := Woken)
    case Arm => s.(pc := Select, armed := if s.next == 0 then s.armed else s.next)
    case Fire => s.(pc := Fired(s.armed), armed := 0)
    case Clear => s.(next := if s.next == s.pc.fired then 0 else s.next, pc := Scanning(AllIds(|s.threads|), None))
    case Visit(i, at) => Visited(s, i, at)
    case EndScan => s.(pc := if s.pc.found.None? then Select else MCalling(s.pc.found.value))
    case MLoad => s.(pc := MLoaded(s.pc.goal, s.next))
    case MDecide =>
      if s.pc.seen != 0 && s.pc.seen <= s.pc.goal then s.(pc := Select)
      else if s.next == s.pc.seen then s.(next := s.pc.goal, pc := MPosting)
      else s.(pc := MCalling(s.pc.goal))
    case MPost => s.(wake := true, pc := Select)
  }

  predicate Initial(s: State) {
    && s.next == 0 && !s.wake && s.armed == 0 && s.pc == Select
    && forall i :: 0 <= i < |s.threads| ==> s.threads[i] == Running
  }

  // ---------------------------------------------------------------- invariant

  predicate SomePosting(s: State) {
    exists i :: 0 <= i < |s.threads| && s.threads[i].Posting?
  }

  /** Whatever the cell holds, somebody is going to act on it. */
  predicate Attended(s: State) {
    s.next != 0 ==>
      s.armed == s.next || s.wake || s.pc.Woken? || s.pc.MPosting? || s.pc == Fired(s.next) || SomePosting(s)
  }

  /** Thread `i`'s deadline `d` is looked after: by the cell, by a scan that has not passed the
      thread yet, or by the monitor's own pending reschedule. */
  predicate Covered(s: State, i: nat, d: int) {
    || 0 < s.next <= d
    || s.pc.Fired?
    || (s.pc.Scanning? && (i in s.pc.todo || (s.pc.found.Some? && s.pc.found.value <= d)))
    || (s.pc.MCalling? && s.pc.goal <= d)
    || (s.pc.MLoaded? && s.pc.goal <= d)
  }

  predicate ThreadOk(s: State, i: nat)
    requires i < |s.threads|
  {
    match s.threads[i]
    case Running => true
    case Calling(d) => d > 0
    case Loaded(d, c) => d > 0 && c >= 0 && (0 < c <= d ==> Covered(s, i, d))
    case Posting(d) => d > 0 && Covered(s, i, d)
    case Blocked(at) => at.Some? ==> Covered(s, i, at.value)
  }

  predicate MonitorOk(s: State) {
    match s.pc
    case Scanning(_, found) => found.Some? ==> found.value > 0
    case MCalling(goal) => goal > 0
    case MLoaded(goal, seen) => goal > 0 && seen >= 0 && (seen > 0 ==> 0 < s.next <= seen)
    case _ => true
  }

  predicate Inv(s: State) {
    && s.next >= 0
    && s.armed >= 0
    && Attended(s)
    && MonitorOk(s)
    && forall i :: 0 <= i < |s.threads| ==> ThreadOk(s, i)
  }

  /** A thread that posts goes on doing so while others move. */
  lemma StillPosting(s: State, s': State)
    requires |s'.threads| == |s.threads|
    requires forall k :: 0 <= k < |s.threads| && s.threads[k].Posting? ==> s'.threads[k].Posting?
    ensures SomePosting(s) ==> SomePosting(s')
  {
    if SomePosting(s) {
      var k :| 0 <= k < |s.threads| && s.threads[k].Posting?;
      assert s'.threads[k].Posting?;
    }
  }

  lemma ThreadStepInv(s: State, step: Step)
    requires Inv(s) && Enabled(s, step)
    requires step.BeginWait? || step.Load? || step.Resume? || step.Postpone?
    ensures Inv(Do(s, step))
  {
    hide SomePosting;
    var s' := Do(s, step);
    StillPosting(s, s');
    forall k | 0 <= k < |s'.threads| ensures ThreadOk(s', k) {
      assert ThreadOk(s, k);
    }
  }

  lemma DecideThreads(s: State, i: nat, k: nat)
    requires s.next >= 0 && Enabled(s, Decide(i)) && k < |s.threads| && ThreadOk(s, i) && ThreadOk(s, k)
    ensures ThreadOk(Do(s, Decide(i)), k)
  {
  }

  lemma DecideAttended(s: State, i: nat)
    requires Inv(s) && Enabled(s, Decide(i))
    ensures Attended(Do(s, Decide(i))) && MonitorOk(Do(s, Decide(i)))
  {
    hide Covered;
    assert ThreadOk(s, i);
    var s' := Do(s, Decide(i));
    StillPosting(s, s');
    if s'.threads[i].Posting? {
      assert SomePosting(s');
    }
  }

  lemma DecideInv(s: State, i: nat)
    requires Inv(s) && Enabled(s, Decide(i))
    ensures Inv(Do(s, Decide(i)))
  {
    hide Attended, MonitorOk, Covered;
    DecideAttended(s, i);
    var s' := Do(s, Decide(i));
    assert ThreadOk(s, i);
    assert s'.next >= 0 && s'.armed >= 0;
    forall k | 0 <= k < |s'.threads| ensures ThreadOk(s', k) {
      assert ThreadOk(s, k) && ThreadOk(s, i);
      DecideThreads(s, i, k);
    }
  }

  lemma PostInv(s: State, i: nat)
    requires Inv(s) && Enabled(s, Post(i))
    ensures Inv(Do(s, Post(i)))
  {
    var s' := Do(s, Post(i));
    forall k | 0 <= k < |s'.threads| ensures ThreadOk(s', k) {
      assert ThreadOk(s, k) && ThreadOk(s, i);
    }
  }

  lemma MonitorStepInv(s: State, step: Step)
    requires Inv(s) && Enabled(s, step)
    requires step.TakeWake? || step.Arm? || step.Fire? || step.Clear? || step.EndScan? || step.MLoad?
        || step.MDecide? || step.MPost?
    ensures Inv(Do(s, step))
  {
    var s' := Do(s, step);
    assert s'.threads == s.threads;
    assert SomePosting(s) ==> SomePosting(s');
    forall k | 0 <= k < |s'.threads| ensures ThreadOk(s', k) {
      assert ThreadOk(s, k);
    }
  }

  lemma VisitInv(s: State, i: nat, at: Option<int>)
    requires Inv(s) && Enabled(s, Visit(i, at))
    ensures Inv(Do(s, Visit(i, at)))
  {
    hide SomePosting;
    var s' := Do(s, Visit(i, at));
    StillPosting(s, s');
    forall k | 0 <= k < |s'.threads| ensures ThreadOk(s', k) {
      assert ThreadOk(s, k);
    }
  }

  lemma StepInv(s: State, step: Step)
    requires Inv(s) && Enabled(s, step)
    ensures Inv(Do(s, step))
  {
    match step {
      case Decide(i) => DecideInv(s, i);
      case Post(i) => PostInv(s, i);
      case Visit(i, at) => VisitInv(s, i, at);
      case BeginWait(_, _) => ThreadStepInv(s, step);
      case Load(_) => ThreadStepInv(s, step);
      case Resume(_) => ThreadStepInv(s, step);
      case Postpone(_, _) => ThreadStepInv(s, step);
      case _ => MonitorStepInv(s, step);
    }
  }

  // ---------------------------------------------------------------- whole runs

  predicate StepAt(run: seq<State>, steps: seq<Step>, i: nat)
    requires i < |steps| < |run|
  {
    Enabled(run[i], steps[i]) && run[i + 1] == Do(run[i], steps[i])
  }

  predicate IsRun(run: seq<State>, steps: seq<Step>) {
    && |run| == |steps| + 1
    && Initial(run[0])
    && forall i :: 0 <= i < |steps| ==> StepAt(run, steps, i)
  }

  lemma {:induction false} InvInEveryRun(run: seq<State>, steps: seq<Step>, n: nat)
    requires IsRun(run, steps) && n <= |steps|
    ensures Inv(run[n])
  {
    if n == 0 {
    } else {
      InvInEveryRun(run, steps, n - 1);
      assert StepAt(run, steps, n - 1);
      StepInv(run[n - 1], steps[n - 1]);
    }
  }

  /** What stands between a deadline and being forgotten. */
  predicate LookedAfter(s: State, i: nat, d: int) {
    || (0 < s.armed <= d && s.armed == s.next)
    || s.wake || s.pc.Woken?
    || SomePosting(s) || s.pc.MPosting?
    || s.pc.Fired?
    || (s.pc.Scanning? && i in s.pc.todo)
    || (s.pc.Scanning? && s.pc.found.Some? && s.pc.found.value <= d)
    || ((s.pc.MCalling? || s.pc.MLoaded?) && s.pc.goal <= d)
  }

  /** No lost timer: in every interleaving, a blocked sender with a deadline has a timer armed no
      later than that deadline, a wake pending or about to be posted, or a scan still to come
      or about to reschedule. */
  lemma NoLostTimer(run: seq<State>, steps: seq<Step>, n: nat, i: nat)
    requires IsRun(run, steps) && n <= |steps|
    requires i < |run[n].threads| && run[n].threads[i].Blocked? && run[n].threads[i].at.Some?
    ensures LookedAfter(run[n], i, run[n].threads[i].at.value)
  {
    InvInEveryRun(run, steps, n);
    InvLooksAfter(run[n], i);
  }

  lemma InvLooksAfter(s: State, i: nat)
    requires Inv(s) && i < |s.threads| && s.threads[i].Blocked? && s.threads[i].at.Some?
    ensures LookedAfter(s, i, s.threads[i].at.value)
  {
    assert ThreadOk(s, i);
  }

  /** The monitor sits in its `select` and no goroutine is inside `scheduleOutgoingMonitor`. */
  predicate Quiescent(s: State) {
    s.pc.Select? && !s.wake && forall i :: 0 <= i < |s.threads| ==> !HoldsLock(s.threads[i])
  }

  /** When nothing but time can move, the timer is armed no later than every deadline. */
  lemma QuiescentTimerArmed(run: seq<State>, steps: seq<Step>, n: nat, i: nat)
    requires IsRun(run, steps) && n <= |steps| && Quiescent(run[n])
    requires i < |run[n].threads| && run[n].threads[i].Blocked? && run[n].threads[i].at.Some?
    ensures 0 < run[n].armed <= run[n].threads[i].at.value
  {
    NoLostTimer(run, steps, n, i);
    InvInEveryRun(run, steps, n);
  }
}
