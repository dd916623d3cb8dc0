/** The retransmission monitor never gets stuck: from every reachable state it can come to rest with
    its timer armed in time, and every deadline can be brought to a scan. */
module MonitorProgress {
  import opened Base
  import opened Monitor

  // ---------------------------------------------------------------- runs go on

  lemma Extended(run: seq<State>, steps: seq<Step>, step: Step) returns (run': seq<State>, steps': seq<Step>)
    requires IsRun(run, steps) && Enabled(run[|steps|], step)
    ensures IsRun(run', steps') && steps' == steps + [step] && run'[|steps'|] == Do(run[|steps|], step)
    ensures |run'| == |steps'| + 1
  {
    hide Do, Enabled;
    run', steps' := run + [Do(run[|steps|], step)], steps + [step];
    forall i | 0 <= i < |steps'| ensures StepAt(run', steps', i) {
      if i < |steps| {
        assert StepAt(run, steps, i);
      }
    }
  }

  /** Deadlines are positive instants. */
  predicate Positive(s: State) {
    forall i :: 0 <= i < |s.threads| ==>
      && (s.threads[i].Blocked? && s.threads[i].at.Some? ==> s.threads[i].at.value > 0)
      && (HoldsLock(s.threads[i]) ==> s.threads[i].deadline > 0)
  }

  lemma {:induction false} PositiveInEveryRun(run: seq<State>, steps: seq<Step>, n: nat)
    requires IsRun(run, steps) && n <= |steps|
    ensures Positive(run[n]) && |run[n].threads| == |run[0].threads|
  {
    if n == 0 {
    } else {
      PositiveInEveryRun(run, steps, n - 1);
      assert StepAt(run, steps, n - 1);
    }
  }

  // ---------------------------------------------------------------- the callers

  /** Steps a caller of `scheduleOutgoingMonitor` has before it while nobody else moves. */
  function ThreadRank(s: State, i: nat): nat
    requires i < |s.threads|
  {
    match s.threads[i]
    case Calling(_) => 3
    case Loaded(d, c) => if c == s.next || (c != 0 && c <= d) then 2 else 4
    case Posting(_) => 1
    case _ => 0
  }

  function NextOfThread(s: State, i: nat): Step
    requires i < |s.threads|
  {
    match s.threads[i]
    case Calling(_) => Load(i)
    case Loaded(_, _) => Decide(i)
    case _ => Post(i)
  }

  /** The deadline a waiting or calling thread is about. */
  function DeadlineOf(t: Thread): Option<int> {
    match t
    case Running => None
    case Blocked(at) => at
    case _ => Some(t.deadline)
  }

  lemma ThreadAdvances(s: State, i: nat)
    requires i < |s.threads| && HoldsLock(s.threads[i])
    ensures var step := NextOfThread(s, i);
      && Enabled(s, step)
      && var z := Do(s, step);
      && |z.threads| == |s.threads| && ThreadRank(z, i) < ThreadRank(s, i) && z.pc == s.pc
      && !z.threads[i].Running? && DeadlineOf(z.threads[i]) == DeadlineOf(s.threads[i])
      && forall j :: 0 <= j < |s.threads| && j != i ==> z.threads[j] == s.threads[j]
  {
  }

  /** A caller always gets through its loop: it ends up waiting, for the deadline it called with. */
  lemma {:induction false} CallerGetsThrough(run: seq<State>, steps: seq<Step>, i: nat)
      returns (run': seq<State>, steps': seq<Step>)
    requires IsRun(run, steps) && i < |run[|steps|].threads|
    ensures IsRun(run', steps') && steps <= steps' && |run'| == |steps'| + 1
    ensures var s, z := run[|steps|], run'[|steps'|];
      && |z.threads| == |s.threads| && !HoldsLock(z.threads[i]) && z.pc == s.pc
      && z.threads[i] == (if HoldsLock(s.threads[i]) then Blocked(DeadlineOf(s.threads[i])) else s.threads[i])
      && forall j :: 0 <= j < |s.threads| && j != i ==> z.threads[j] == s.threads[j]
    decreases ThreadRank(run[|steps|], i)
  {
    var s := run[|steps|];
    if !HoldsLock(s.threads[i]) {
      run', steps' := run, steps;
    } else {
      ThreadAdvances(s, i);
      hide IsRun, Do, Enabled, ThreadRank;
      var step := NextOfThread(s, i);
      var run1, steps1 := Extended(run, steps, step);
      run', steps' := CallerGetsThrough(run1, steps1, i);
    }
  }

  /** What a thread waits for once it has got through. */
  function Settled(t: Thread): Thread {
    if HoldsLock(t) then Blocked(DeadlineOf(t)) else t
  }

  lemma {:induction false} CallersGetThrough(run: seq<State>, steps: seq<Step>, k: nat)
      returns (run': seq<State>, steps': seq<Step>)
    requires IsRun(run, steps) && k <= |run[|steps|].threads|
    ensures IsRun(run', steps') && steps <= steps' && |run'| == |steps'| + 1
    ensures var s, z := run[|steps|], run'[|steps'|];
      && |z.threads| == |s.threads| && z.pc == s.pc
      && forall j :: 0 <= j < |s.threads| ==> z.threads[j] == if j < k then Settled(s.threads[j]) else s.threads[j]
  {
    if k == 0 {
      run', steps' := run, steps;
    } else {
      hide IsRun;
      var run1, steps1 := CallersGetThrough(run, steps, k - 1);
      run', steps' := CallerGetsThrough(run1, steps1, k - 1);
    }
  }

  // ---------------------------------------------------------------- the monitor

  predicate NoLocks(s: State) {
    forall i :: 0 <= i < |s.threads| ==> !HoldsLock(s.threads[i])
  }

  /** How far the monitor is from its `select` without a wake. */
  function MonitorRank(s: State): (nat, nat) {
    match s.pc
    case Fired(_) => (6, 0)
    case Scanning(todo, _) => (5, |todo|)
    case MCalling(_) => (4, 0)
    case MLoaded(goal, seen) => if seen == s.next || (seen != 0 && seen <= goal) then (3, 0) else (4, 1)
    case MPosting => (2, 0)
    case Woken => if s.wake then (1, 2) else (0, 1)
    case Select => if s.wake then (1, 1) else (0, 0)
  }

  predicate RankLess(a: (nat, nat), b: (nat, nat)) {
    a.0 < b.0 || (a.0 == b.0 && a.1 < b.1)
  }

  /** While no thread holds a lock the monitor goes on by itself, and a scan finds the deadlines as
      they are. */
  lemma MonitorAdvances(s: State) returns (step: Step)
    requires Positive(s) && NoLocks(s) && !(s.pc.Select? && !s.wake)
    ensures Enabled(s, step) && step != Fire
    ensures Do(s, step).threads == s.threads && RankLess(MonitorRank(Do(s, step)), MonitorRank(s))
  {
    match s.pc {
      case Fired(_) => step := Clear;
      case MCalling(_) => step := MLoad;
      case MLoaded(_, _) => step := MDecide;
      case MPosting => step := MPost;
      case Woken => step := Arm;
      case Select => step := TakeWake;
      case Scanning(todo, _) =>
        if todo == {} {
          step := EndScan;
        } else {
          step := VisitAdvances(s);
        }
    }
  }

  lemma VisitAdvances(s: State) returns (step: Step)
    requires Positive(s) && NoLocks(s) && s.pc.Scanning? && s.pc.todo != {}
    ensures Enabled(s, step) && step.Visit? && Do(s, step).threads == s.threads
    ensures RankLess(MonitorRank(Do(s, step)), MonitorRank(s))
  {
    var i :| i in s.pc.todo;
    step := Visit(i, if i < |s.threads| && s.threads[i].Blocked? then s.threads[i].at else None);
    assert |s.pc.todo - {i}| < |s.pc.todo|;
  }

  lemma {:induction false} MonitorRests(run: seq<State>, steps: seq<Step>)
      returns (run': seq<State>, steps': seq<Step>)
    requires IsRun(run, steps) && NoLocks(run[|steps|])
    ensures IsRun(run', steps') && steps <= steps' && |run'| == |steps'| + 1
    ensures run'[|steps'|].threads == run[|steps|].threads
    ensures run'[|steps'|].pc.Select? && !run'[|steps'|].wake
    decreases MonitorRank(run[|steps|]).0, MonitorRank(run[|steps|]).1
  {
    var s := run[|steps|];
    if s.pc.Select? && !s.wake {
      run', steps' := run, steps;
    } else {
      PositiveInEveryRun(run, steps, |steps|);
      var step := MonitorAdvances(s);
      hide IsRun, Do, Enabled, MonitorRank;
      var run1, steps1 := Extended(run, steps, step);
      run', steps' := MonitorRests(run1, steps1);
    }
  }

  /** From every reachable state all callers can get through and the monitor can come to rest. Then
      every thread waits for the deadline it waited for or called with, and the timer is armed no
      later than any of them. */
  lemma ComesToRest(run: seq<State>, steps: seq<Step>) returns (run': seq<State>, steps': seq<Step>)
    requires IsRun(run, steps)
    ensures IsRun(run', steps') && steps <= steps' && |run'| == |steps'| + 1 && Quiescent(run'[|steps'|])
    ensures var s, z := run[|steps|], run'[|steps'|];
      && |z.threads| == |s.threads|
      && (forall i :: 0 <= i < |s.threads| ==> z.threads[i] == Settled(s.threads[i]))
      && (forall i :: 0 <= i < |s.threads| && DeadlineOf(s.threads[i]).Some? ==>
            0 < z.armed <= DeadlineOf(s.threads[i]).value)
  {
    var n := |run[|steps|].threads|;
    var run1, steps1 := CallersGetThrough(run, steps, n);
    run', steps' := MonitorRests(run1, steps1);
    var s, z := run[|steps|], run'[|steps'|];
    forall i | 0 <= i < |s.threads| && DeadlineOf(s.threads[i]).Some?
      ensures 0 < z.armed <= DeadlineOf(s.threads[i]).value
    {
      assert z.threads[i] == Settled(s.threads[i]);
      QuiescentTimerArmed(run', steps', |steps'|, i);
    }
  }

  /** From every reachable state, the deadline of every waiting thread can be brought to a scan. */
  lemma DeadlineGetsScanned(run: seq<State>, steps: seq<Step>, i: nat)
      returns (run': seq<State>, steps': seq<Step>)
    requires IsRun(run, steps) && i < |run[|steps|].threads| && DeadlineOf(run[|steps|].threads[i]).Some?
    ensures IsRun(run', steps') && steps < steps' && steps'[|steps'| - 1].Visit? && steps'[|steps'| - 1].i == i
  {
    var d := DeadlineOf(run[|steps|].threads[i]);
    run', steps' := ComesToRest(run, steps);
    assert run'[|steps'|].threads[i] == Settled(run[|steps|].threads[i]);
    var run1, steps1 := Extended(run', steps', Fire);
    var run2, steps2 := Extended(run1, steps1, Clear);
    PositiveInEveryRun(run2, steps2, |steps2|);
    run', steps' := Extended(run2, steps2, Visit(i, d));
  }

  // ---------------------------------------------------------------- no idle scans

  function Count(steps: seq<Step>, which: Step, n: nat): nat
    requires n <= |steps|
  {
    if n == 0 then 0 else Count(steps, which, n - 1) + if steps[n - 1] == which then 1 else 0
  }

  /** The timer is a one-shot: it fires at most once for each time it was armed. */
  lemma {:induction false} FiresAreArmed(run: seq<State>, steps: seq<Step>, n: nat)
    requires IsRun(run, steps) && n <= |steps|
    ensures Count(steps, Fire, n) + (if run[n].armed != 0 then 1 else 0) <= Count(steps, Arm, n)
  {
    if n == 0 {
    } else {
      FiresAreArmed(run, steps, n - 1);
      assert StepAt(run, steps, n - 1);
    }
  }

  /** A wake that finds no deadline leaves the timer alone, and a timer that fired clears the cell
      only of the deadline it fired for. */
  lemma OthersDeadlinesStay(s: State)
    ensures s.pc.Woken? && s.next == 0 ==> Do(s, Arm).armed == s.armed
    ensures s.pc.Woken? && s.next != 0 ==> Do(s, Arm).armed == s.next
    ensures s.pc.Fired? ==> Do(s, Clear).next == if s.next == s.pc.fired then 0 else s.next
  {
  }
}
