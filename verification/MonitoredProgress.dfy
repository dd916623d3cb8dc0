/** From a deadline to the frame that goes out again: whatever the senders, the scheduling code and
    the monitor are in the middle of, every overdue chunk of a waiting sender can be repeated. */
module MonitoredProgress {
  import opened Base
  import opened Sending
  import opened MonitoredTransfers
  import M = Monitor
  import P = MonitorProgress
  import Repeats

  lemma Extended(run: seq<World>, steps: seq<Step>, step: Step) returns (run': seq<World>, steps': seq<Step>)
    requires IsRun(run, steps) && Enabled(run[|steps|], step)
    ensures IsRun(run', steps') && steps' == steps + [step] && |run'| == |steps'| + 1
    ensures run'[|steps'|] == Do(run[|steps|], step) && run <= run'
  {
    hide Do, Enabled;
    run', steps' := run + [Do(run[|steps|], step)], steps + [step];
    forall i | 0 <= i < |steps'| ensures StepAt(run', steps', i) {
      if i < |steps| {
        assert StepAt(run, steps, i);
      }
    }
  }

  /** Sender `i` waits, or is about to, and its transfer is as it was. */
  predicate Waits(before: World, w: World, i: nat) {
    && |w.m.threads| == |w.transfers| == |before.transfers| && i < |w.transfers|
    && !w.m.threads[i].Running? && w.transfers[i] == before.transfers[i] && w.now == before.now
  }

  // ---------------------------------------------------------------- the callers

  lemma CallerStep(w: World, k: nat) returns (step: Step)
    requires k < |w.m.threads| == |w.transfers| && M.HoldsLock(w.m.threads[k])
    ensures Enabled(w, step)
    ensures var z := Do(w, step);
      && z.transfers == w.transfers && z.now == w.now && |z.m.threads| == |w.m.threads|
      && P.ThreadRank(z.m, k) < P.ThreadRank(w.m, k) && !z.m.threads[k].Running?
      && forall j :: 0 <= j < |w.m.threads| && j != k ==> z.m.threads[j] == w.m.threads[j]
  {
    P.ThreadAdvances(w.m, k);
    step := Internal(P.NextOfThread(w.m, k));
  }

  lemma {:induction false} CallerGetsThrough(run: seq<World>, steps: seq<Step>, k: nat)
      returns (run': seq<World>, steps': seq<Step>)
    requires IsRun(run, steps) && k < |run[|steps|].m.threads| == |run[|steps|].transfers|
    ensures IsRun(run', steps') && steps <= steps' && |run'| == |steps'| + 1
    ensures var w, z := run[|steps|], run'[|steps'|];
      && z.transfers == w.transfers && z.now == w.now && |z.m.threads| == |w.m.threads|
      && !M.HoldsLock(z.m.threads[k]) && (!w.m.threads[k].Running? ==> !z.m.threads[k].Running?)
      && forall j :: 0 <= j < |w.m.threads| && j != k ==> z.m.threads[j] == w.m.threads[j]
    decreases P.ThreadRank(run[|steps|].m, k)
  {
    var w := run[|steps|];
    if !M.HoldsLock(w.m.threads[k]) {
      run', steps' := run, steps;
    } else {
      var step := CallerStep(w, k);
      hide IsRun, Do, Enabled, P.ThreadRank;
      var run1, steps1 := Extended(run, steps, step);
      run', steps' := CallerGetsThrough(run1, steps1, k);
    }
  }

  lemma {:induction false} CallersGetThrough(run: seq<World>, steps: seq<Step>, i: nat, k: nat)
      returns (run': seq<World>, steps': seq<Step>)
    requires IsRun(run, steps) && Waits(run[|steps|], run[|steps|], i) && k <= |run[|steps|].transfers|
    ensures IsRun(run', steps') && steps <= steps' && |run'| == |steps'| + 1
    ensures Waits(run[|steps|], run'[|steps'|], i)
    ensures forall j :: 0 <= j < k ==> !M.HoldsLock(run'[|steps'|].m.threads[j])
  {
    if k == 0 {
      run', steps' := run, steps;
    } else {
      hide IsRun;
      var run1, steps1 := CallersGetThrough(run, steps, i, k - 1);
      run', steps' := CallerGetsThrough(run1, steps1, k - 1);
    }
  }

  // ---------------------------------------------------------------- the monitor

  predicate Reached(w: World, i: nat) {
    w.m.pc.Scanning? && i in w.m.pc.todo
  }

  /** Every transfer has a next deadline or none. */
  lemma DueExists(s: Sender) returns (at: Option<int>)
    ensures IsDue(s, at)
  {
    if Idle(s) {
      at := None;
    } else {
      at := Earliest(s, |s.pending|);
      assert s.pending[..|s.pending|] == s.pending;
    }
  }

  lemma {:induction false} Earliest(s: Sender, n: nat) returns (at: Option<int>)
    requires n <= |s.pending|
    ensures IsEarliest(s.(pending := s.pending[..n]), at)
  {
    if n == 0 {
      at := if AwaitsCommit(s) then Some(s.commitSentAt.value + s.limits.ackTimeout) else None;
    } else {
      at := Earliest(s, n - 1);
      var d := s.pending[n - 1].sentAt + s.limits.ackTimeout;
      EarliestGrows(s, n, at, d);
      if at.None? || d < at.value {
        at := Some(d);
      }
    }
  }

  lemma EarliestGrows(s: Sender, n: nat, at: Option<int>, d: int)
    requires 0 < n <= |s.pending| && IsEarliest(s.(pending := s.pending[..n - 1]), at)
    requires d == s.pending[n - 1].sentAt + s.limits.ackTimeout
    ensures IsEarliest(s.(pending := s.pending[..n]), if at.None? || d < at.value then Some(d) else at)
  {
    var a, b := s.(pending := s.pending[..n - 1]), s.(pending := s.pending[..n]);
    forall e ensures LiveDeadline(b, e) <==> LiveDeadline(a, e) || e == d {
      if i :| 0 <= i < n && e == b.pending[i].sentAt + b.limits.ackTimeout {
        assert i < n - 1 ==> a.pending[i] == b.pending[i];
      }
      if i :| 0 <= i < n - 1 && e == a.pending[i].sentAt + a.limits.ackTimeout {
        assert b.pending[i] == a.pending[i];
      }
      assert b.pending[n - 1] == s.pending[n - 1];
    }
  }

  /** A scan visits existing transfers only. */
  predicate TodoKnown(w: World) {
    w.m.pc.Scanning? ==> forall j :: j in w.m.pc.todo ==> j < |w.m.threads|
  }

  lemma TodoStep(w: World, step: Step)
    requires TodoKnown(w) && Enabled(w, step)
    ensures TodoKnown(Do(w, step))
  {
    hide IsDue, ApplyOp, Scan;
    match step {
      case Internal(inner) => InternalTodo(w.m, inner);
      case _ =>
    }
  }

  lemma InternalTodo(m: M.State, step: M.Step)
    requires IsInternal(step) && M.Enabled(m, step)
    requires m.pc.Scanning? ==> forall j :: j in m.pc.todo ==> j < |m.threads|
    ensures var z := M.Do(m, step); z.pc.Scanning? ==> forall j :: j in z.pc.todo ==> j < |z.threads|
  {
  }

  lemma {:induction false} TodoInEveryRun(run: seq<World>, steps: seq<Step>, n: nat)
    requires IsRun(run, steps) && n <= |steps|
    ensures TodoKnown(run[n])
  {
    hide Do, Enabled, TodoKnown;
    if n == 0 {
      NothingToDo(run[0]);
    } else {
      TodoInEveryRun(run, steps, n - 1);
      assert StepAt(run, steps, n - 1);
      TodoStep(run[n - 1], steps[n - 1]);
    }
  }

  lemma NothingToDo(w: World)
    requires Initial(w)
    ensures TodoKnown(w)
  {
  }

  lemma DeadlinesPositive(w: World)
    requires Inv(w)
    ensures P.Positive(w.m)
  {
    hide M.Inv, Timed, IsDue;
    forall k | 0 <= k < |w.m.threads|
      ensures w.m.threads[k].Blocked? && w.m.threads[k].at.Some? ==> w.m.threads[k].at.value > 0
      ensures M.HoldsLock(w.m.threads[k]) ==> w.m.threads[k].deadline > 0
    {
      assert PairOk(w, k);
      var at := P.DeadlineOf(w.m.threads[k]);
      if !w.m.threads[k].Running? && at.Some? {
        DueIsPositive(w.transfers[k], at, w.now);
      }
    }
  }

  /** The monitor goes on towards its `select`, scanning other transfers on its way if need be. */
  lemma MonitorStep(before: World, w: World, i: nat) returns (step: Step)
    requires Inv(w) && TodoKnown(w) && P.NoLocks(w.m) && Waits(before, w, i)
    requires !Reached(w, i) && !(w.m.pc.Select? && !w.m.wake)
    ensures Enabled(w, step) && Waits(before, Do(w, step), i) && P.NoLocks(Do(w, step).m)
    ensures P.RankLess(P.MonitorRank(Do(w, step).m), P.MonitorRank(w.m))
  {
    hide Inv;
    DeadlinesPositive(w);
    if w.m.pc.Scanning? && w.m.pc.todo != {} {
      step := OtherScanned(before, w, i);
    } else {
      step := PlainMonitorStep(before, w, i);
    }
  }

  lemma PlainMonitorStep(before: World, w: World, i: nat) returns (step: Step)
    requires P.Positive(w.m) && P.NoLocks(w.m) && Waits(before, w, i)
    requires !(w.m.pc.Scanning? && w.m.pc.todo != {}) && !(w.m.pc.Select? && !w.m.wake)
    ensures Enabled(w, step) && Waits(before, Do(w, step), i) && P.NoLocks(Do(w, step).m)
    ensures P.RankLess(P.MonitorRank(Do(w, step).m), P.MonitorRank(w.m))
  {
    var inner := P.MonitorAdvances(w.m);
    PlainIsInternal(w.m, inner);
    hide M.Do, M.Enabled, P.MonitorRank;
    step := Internal(inner);
  }

  lemma PlainIsInternal(m: M.State, step: M.Step)
    requires M.Enabled(m, step) && M.Do(m, step).threads == m.threads && !(m.pc.Scanning? && m.pc.todo != {})
    requires P.RankLess(P.MonitorRank(M.Do(m, step)), P.MonitorRank(m))
    ensures IsInternal(step)
  {
  }

  lemma OtherScanned(before: World, w: World, i: nat) returns (step: Step)
    requires TodoKnown(w) && P.NoLocks(w.m) && Waits(before, w, i)
    requires !Reached(w, i) && w.m.pc.Scanning? && w.m.pc.todo != {}
    ensures Enabled(w, step) && Waits(before, Do(w, step), i) && P.NoLocks(Do(w, step).m)
    ensures P.RankLess(P.MonitorRank(Do(w, step).m), P.MonitorRank(w.m))
  {
    hide IsDue, Scan;
    var j :| j in w.m.pc.todo;
    var at := DueExists(Scan(w.transfers[j], w.now).sender);
    step := ScanTransfer(j, at);
    assert |w.m.pc.todo - {j}| < |w.m.pc.todo|;
  }

  lemma {:induction false} MonitorRests(before: World, run: seq<World>, steps: seq<Step>, i: nat)
      returns (run': seq<World>, steps': seq<Step>)
    requires IsRun(run, steps) && P.NoLocks(run[|steps|].m) && Waits(before, run[|steps|], i)
    ensures IsRun(run', steps') && steps <= steps' && |run'| == |steps'| + 1
    ensures Waits(before, run'[|steps'|], i) && P.NoLocks(run'[|steps'|].m)
    ensures Reached(run'[|steps'|], i) || (run'[|steps'|].m.pc.Select? && !run'[|steps'|].m.wake)
    decreases P.MonitorRank(run[|steps|].m).0, P.MonitorRank(run[|steps|].m).1
  {
    var w := run[|steps|];
    if Reached(w, i) || (w.m.pc.Select? && !w.m.wake) {
      run', steps' := run, steps;
    } else {
      InvInEveryRun(run, steps, |steps|);
      TodoInEveryRun(run, steps, |steps|);
      var step := MonitorStep(before, w, i);
      hide IsRun, Do, Enabled, Inv, TodoKnown, P.MonitorRank, P.NoLocks;
      var run1, steps1 := Extended(run, steps, step);
      run', steps' := MonitorRests(before, run1, steps1, i);
    }
  }

  /** At rest the timer is armed; it fires and a scan of all transfers begins. */
  lemma ScanBegins(before: World, run: seq<World>, steps: seq<Step>, i: nat)
      returns (run': seq<World>, steps': seq<Step>)
    requires IsRun(run, steps) && P.NoLocks(run[|steps|].m) && Waits(before, run[|steps|], i)
    requires run[|steps|].m.pc.Select? && !run[|steps|].m.wake && Inv(run[|steps|])
    requires run[|steps|].m.threads[i].Blocked? && run[|steps|].m.threads[i].at.Some?
    ensures IsRun(run', steps') && steps <= steps' && |run'| == |steps'| + 1
    ensures Waits(before, run'[|steps'|], i) && P.NoLocks(run'[|steps'|].m) && Reached(run'[|steps'|], i)
  {
    M.InvLooksAfter(run[|steps|].m, i);
    hide IsRun, Inv;
    run', steps' := Extended(run, steps, Internal(M.Fire));
    run', steps' := Extended(run', steps', Internal(M.Clear));
  }

  /** The transfer of a sender that waits with a deadline can be brought to a scan, at any instant
      from now on and as it is now. */
  lemma ScanReaches(run: seq<World>, steps: seq<Step>, i: nat, d: int, at: int)
      returns (run': seq<World>, steps': seq<Step>)
    requires IsRun(run, steps) && i < |run[|steps|].transfers| && at >= run[|steps|].now
    requires i < |run[|steps|].m.threads| && !run[|steps|].m.threads[i].Running?
    requires !Idle(run[|steps|].transfers[i]) && LiveDeadline(run[|steps|].transfers[i], d)
    ensures IsRun(run', steps') && steps <= steps' && |run'| == |steps'| + 1
    ensures var w, z := run[|steps|], run'[|steps'|];
      && |z.m.threads| == |z.transfers| == |w.transfers| && P.NoLocks(z.m) && Reached(z, i)
      && z.transfers[i] == w.transfers[i] && z.now == at
  {
    InvInEveryRun(run, steps, |steps|);
    var run1, steps1 := Extended(run, steps, Tick(at));
    var before := run1[|steps1|];
    var run2, steps2 := CallersGetThrough(run1, steps1, i, |before.transfers|);
    var run3, steps3 := MonitorRests(before, run2, steps2, i);
    run', steps' := run3, steps3;
    if !Reached(run3[|steps3|], i) {
      InvInEveryRun(run3, steps3, |steps3|);
      BlockedWithDeadline(run3[|steps3|], i, d);
      run', steps' := ScanBegins(before, run3, steps3, i);
    }
  }

  lemma BlockedWithDeadline(w: World, i: nat, d: int)
    requires Inv(w) && i < |w.transfers| && P.NoLocks(w.m) && !w.m.threads[i].Running?
    requires !Idle(w.transfers[i]) && LiveDeadline(w.transfers[i], d)
    ensures w.m.threads[i].Blocked? && w.m.threads[i].at.Some?
  {
    hide LiveDeadline, M.Inv;
    assert PairOk(w, i);
  }

  /** Retransmission works: in every reachable state, every chunk that a waiting sender has not had
      acknowledged can be brought to a scan that repeats it, or gives the transfer up because a
      chunk or the commit has no retry left. */
  lemma OverdueChunkRepeated(run: seq<World>, steps: seq<Step>, i: nat, k: nat)
      returns (run': seq<World>, steps': seq<Step>)
    requires IsRun(run, steps) && i < |run[|steps|].transfers| && !Idle(run[|steps|].transfers[i])
    requires i < |run[|steps|].m.threads| && !run[|steps|].m.threads[i].Running?
    requires k < |run[|steps|].transfers[i].pending|
    ensures IsRun(run', steps') && steps < steps' && var n := |steps'| - 1;
      && steps'[n].ScanTransfer? && steps'[n].i == i
      && i < |run'[n].transfers| && run'[n].transfers[i] == run[|steps|].transfers[i]
      && var x := Scan(run'[n].transfers[i], run'[n].now);
      && (x.sender.failed || run[|steps|].transfers[i].pending[k] in x.resend)
  {
    var w := run[|steps|];
    var s := w.transfers[i];
    var c := s.pending[k];
    var d := c.sentAt + s.limits.ackTimeout;
    var run1, steps1 := ScanReaches(run, steps, i, d, Max(w.now, d));
    var z := run1[|steps1|];
    var at := DueExists(Scan(s, z.now).sender);
    run', steps' := Extended(run1, steps1, ScanTransfer(i, at));
    var places := Repeats.ScanRepeats(s, z.now);
    hide Scan, IsRun;
    if !Scan(s, z.now).sender.failed {
      assert k in places;
      var j :| 0 <= j < |places| && places[j] == k;
      assert Scan(s, z.now).resend[j] == c;
    }
  }
}
