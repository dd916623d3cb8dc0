/** What becomes of an attempt to open a transfer: which ids are admitted, when the transfer is
    installed, and that every attempt can be brought to an end and every slot freed. */
module OpeningProgress {
  import opened Opening

  // ---------------------------------------------------------------- ids

  /** The highest id that step `n` begins or installs, or 0. */
  function IdOf(run: seq<System>, steps: seq<Step>, n: nat): nat
    requires n < |steps| < |run|
  {
    match steps[n]
    case Open(Begin, id) => id
    case OpenerInstalls(i) =>
      if i < |run[n].attempts| && run[n].attempts[i].kind == Resume then run[n].attempts[i].id else 0
    case _ => 0
  }

  /** The highest id that was begun, or installed by a resume, before step `n`. */
  function HighestId(run: seq<System>, steps: seq<Step>, n: nat): nat
    requires n <= |steps| < |run|
  {
    if n == 0 then 0
    else
      var before, id := HighestId(run, steps, n - 1), IdOf(run, steps, n - 1);
      if id > before then id else before
  }

  lemma {:induction false} LastIncomingIsHighest(run: seq<System>, steps: seq<Step>, max: nat, n: nat)
    requires IsRun(run, steps, max) && n <= |steps|
    ensures run[n].t.lastIncoming == HighestId(run, steps, n) && run[n].t.max == max
  {
    if n == 0 {
    } else {
      LastIncomingIsHighest(run, steps, max, n - 1);
      assert StepAt(run, steps, n - 1);
    }
  }

  /** A transfer is admitted exactly if its id is not in use, a slot is free and, for a begin, the id
      is higher than every id begun or resumed before. */
  lemma AdmittedIff(run: seq<System>, steps: seq<Step>, max: nat, n: nat, kind: Kind, id: nat)
    requires IsRun(run, steps, max) && n <= |steps|
    ensures Enabled(run[n], Open(kind, id)) <==>
      && id !in run[n].t.incoming && id !in run[n].t.opening
      && |run[n].t.incoming| + |run[n].t.opening| < max
      && (kind == Begin ==> id > HighestId(run, steps, n))
  {
    LastIncomingIsHighest(run, steps, max, n);
  }

  lemma {:induction false} HighestIdGrows(run: seq<System>, steps: seq<Step>, n: nat, m: nat)
    requires n < m <= |steps| < |run|
    ensures IdOf(run, steps, n) <= HighestId(run, steps, m)
    decreases m
  {
    if n < m - 1 {
      HighestIdGrows(run, steps, n, m - 1);
    }
  }

  /** Ids of begins strictly increase, so no id is ever begun twice. */
  lemma BegunIdsIncrease(run: seq<System>, steps: seq<Step>, max: nat, n: nat, m: nat)
    requires IsRun(run, steps, max) && n < m < |steps|
    requires steps[n].Open? && steps[n].kind == Begin && steps[m].Open? && steps[m].kind == Begin
    ensures steps[n].id < steps[m].id
  {
    assert StepAt(run, steps, m);
    AdmittedIff(run, steps, max, m, Begin, steps[m].id);
    HighestIdGrows(run, steps, n, m);
  }

  // ---------------------------------------------------------------- decisions

  /** What the opener makes of a delivered result: it installs a writer that came in time, without
      an error and, for a resume, with a valid acceptance; it aborts another writer of a resume or
      one that came late; and it frees the slot of the rest. */
  lemma DecidedBy(a: Attempt, valid: bool)
    requires a.opener == Got
    ensures var opener := Move(a, OpenerDecides(0, valid), true).opener;
      var good := a.result.writer && !a.result.err && !a.ended && (a.kind == Resume ==> a.result.accepted && valid);
      && (opener == Installing <==> good)
      && (opener == Aborting <==> !good && a.result.writer && (a.kind == Resume || a.ended))
      && (opener == Releasing <==> !good && !(a.result.writer && (a.kind == Resume || a.ended)))
  {
  }

  /** Installing moves the slot to the incoming transfers; only a begin that finds the session
      stopped loses its slot instead and its writer must be aborted. */
  lemma InstalledBy(run: seq<System>, steps: seq<Step>, max: nat, n: nat)
    requires IsRun(run, steps, max) && n < |steps| && steps[n].OpenerInstalls?
    ensures steps[n].i < |run[n].attempts| == |run[n + 1].attempts|
    ensures var i := steps[n].i; var a, t := run[n].attempts[i], run[n + 1].t;
      && a.id !in t.opening
      && (if a.kind == Resume || run[n].running
          then a.id in t.incoming && t.incoming[a.id] == i && run[n + 1].attempts[i].installed == 1
          else a.id !in t.incoming && run[n + 1].attempts[i].opener == AbortingLate)
  {
    InvInEveryRun(run, steps, max, n);
    assert StepAt(run, steps, n);
    assert Shape(run[n].attempts[steps[n].i]) && SlotOf(run[n].t, run[n].attempts[steps[n].i], steps[n].i);
  }

  /** The session says whether it runs, and nothing else changes that. */
  lemma {:induction false} StoppedUntilRestarted(run: seq<System>, steps: seq<Step>, max: nat, n: nat, m: nat)
    requires IsRun(run, steps, max) && n < m <= |steps| && steps[n] == SessionState(false)
    requires forall k :: n < k < m ==> !steps[k].SessionState?
    ensures !run[m].running
    decreases m
  {
    assert StepAt(run, steps, m - 1);
    if n < m - 1 {
      StoppedUntilRestarted(run, steps, max, n, m - 1);
    }
  }

  // ---------------------------------------------------------------- runs go on

  lemma Extended(run: seq<System>, steps: seq<Step>, max: nat, step: Step)
      returns (run': seq<System>, steps': seq<Step>)
    requires IsRun(run, steps, max) && Enabled(run[|steps|], step)
    ensures IsRun(run', steps', max) && steps' == steps + [step] && run'[|steps'|] == Do(run[|steps|], step)
    ensures run <= run'
  {
    hide Do, Enabled;
    run', steps' := run + [Do(run[|steps|], step)], steps + [step];
    forall i | 0 <= i < |steps'| ensures StepAt(run', steps', i) {
      if i < |steps| {
        assert StepAt(run, steps, i);
      }
    }
  }

  /** In a running session, an admitted transfer whose callback returns a writer in time is
      installed under its id. */
  lemma GoodAttemptInstalled(run: seq<System>, steps: seq<Step>, max: nat, kind: Kind, id: nat)
      returns (run': seq<System>, steps': seq<Step>)
    requires IsRun(run, steps, max) && Enabled(run[|steps|], Open(kind, id)) && run[|steps|].running
    ensures IsRun(run', steps', max) && steps <= steps'
    ensures var t := run'[|steps'|].t; id in t.incoming && t.incoming[id] == |run[|steps|].attempts|
  {
    var i := |run[|steps|].attempts|;
    run', steps' := Extended(run, steps, max, Open(kind, id));
    run', steps' := Extended(run', steps', max, CallbackReturns(i, Result(true, false, true)));
    run', steps' := Extended(run', steps', max, Meet(i));
    run', steps' := Extended(run', steps', max, OpenerDecides(i, true));
    run', steps' := Extended(run', steps', max, OpenerInstalls(i));
  }

  // ---------------------------------------------------------------- every attempt ends

  function CallbackRank(c: Callback): nat {
    match c
    case Running => 4
    case Returned => 3
    case Leaving => 2
    case FreeingSlot => 1
    case _ => 0
  }

  function OpenerRank(o: Opener): nat {
    match o
    case Waiting => 5
    case Got => 4
    case Aborting => 3
    case Installing => 3
    case Releasing => 2
    case AbortingLate => 1
    case _ => 0
  }

  function Left(a: Attempt): nat {
    CallbackRank(a.callback) + OpenerRank(a.opener) + if a.ended then 0 else 1
  }

  /** End the context, let the callback return and both sides go on. */
  function NextStep(a: Attempt, i: nat): Step {
    match a.opener
    case Got => OpenerDecides(i, false)
    case Aborting => OpenerAborts(i)
    case Releasing => OpenerFreesSlot(i)
    case Installing => OpenerInstalls(i)
    case AbortingLate => OpenerAbortsLate(i)
    case _ =>
      if !a.ended then ContextEnds(i)
      else if a.opener == Waiting then OpenerTimesOut(i)
      else match a.callback
        case Running => CallbackReturns(i, a.result)
        case Returned => CallbackLeaves(i)
        case Leaving => CallbackAborts(i)
        case _ => CallbackFreesSlot(i)
  }

  lemma NextIsReady(a: Attempt, i: nat, running: bool)
    requires Shape(a) && !Over(a)
    ensures AttemptStep(NextStep(a, i)) && Ready(a, NextStep(a, i)) && NextStep(a, i).i == i
    ensures Left(Move(a, NextStep(a, i), running)) < Left(a)
  {
  }

  lemma {:induction false} AttemptEnds(run: seq<System>, steps: seq<Step>, max: nat, i: nat)
      returns (run': seq<System>, steps': seq<Step>)
    requires IsRun(run, steps, max) && i < |run[|steps|].attempts|
    ensures IsRun(run', steps', max) && steps <= steps'
    ensures var a, b := run[|steps|].attempts, run'[|steps'|].attempts;
      |b| == |a| && Over(b[i]) && forall j :: 0 <= j < |a| && j != i ==> b[j] == a[j]
    decreases Left(run[|steps|].attempts[i])
  {
    var s := run[|steps|];
    var a := s.attempts[i];
    if Over(a) {
      run', steps' := run, steps;
    } else {
      InvInEveryRun(run, steps, max, |steps|);
      NextIsReady(a, i, s.running);
      hide Over, Left, NextStep, Ready, IsRun;
      var step := NextStep(a, i);
      run', steps' := Extended(run, steps, max, step);
      run', steps' := AttemptEnds(run', steps', max, i);
    }
  }

  lemma {:induction false} SomeEnd(run: seq<System>, steps: seq<Step>, max: nat, k: nat)
      returns (run': seq<System>, steps': seq<Step>)
    requires IsRun(run, steps, max) && k <= |run[|steps|].attempts|
    ensures IsRun(run', steps', max) && steps <= steps'
    ensures |run'[|steps'|].attempts| == |run[|steps|].attempts|
    ensures forall i :: 0 <= i < k ==> Over(run'[|steps'|].attempts[i])
  {
    if k == 0 {
      run', steps' := run, steps;
    } else {
      hide Over;
      var run1, steps1 := SomeEnd(run, steps, max, k - 1);
      run', steps' := AttemptEnds(run1, steps1, max, k - 1);
    }
  }

  /** From every reachable state all attempts can be brought to an end, and with the transfers
      removed every slot is free again. */
  lemma EverySlotComesBack(run: seq<System>, steps: seq<Step>, max: nat)
      returns (run': seq<System>, steps': seq<Step>)
    requires IsRun(run, steps, max)
    ensures IsRun(run', steps', max) && steps <= steps'
    ensures var t := run'[|steps'|].t; t.incoming == map[] && t.opening == map[] && t.max == max
  {
    run', steps' := SomeEnd(run, steps, max, |run[|steps|].attempts|);
    NoSlotLeaks(run', steps', max, |steps'|);
    LastIncomingIsHighest(run', steps', max, |steps'|);
    run', steps' := Extended(run', steps', max, Cleanup);
  }

  /** Removing one transfer frees its id and its slot and leaves the others. */
  lemma RemovedAlone(s: System, id: nat)
    ensures var z := Do(s, Remove(id)); z.t == s.t.(incoming := s.t.incoming - {id}) && z.attempts == s.attempts
    ensures Enabled(s, Remove(id)) && Enabled(s, Cleanup) && forall r :: Enabled(s, SessionState(r))
  {
  }
}
