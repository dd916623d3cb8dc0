/** Opening incoming transfers (incoming.go): an application callback opens the sink while the
    opener waits for it with a timeout. The two meet on an unbuffered channel or give up when the
    context ends, and whichever of them is left holding the transfer's slot and its sink must
    dispose of both. The operations on the session's maps are the locked sections of the code;
    a run interleaves them in any order. */
module Opening {
  datatype Kind = Begin | Resume

  /** `incoming` maps a transfer id to the attempt that opened it, `opening` to the attempt that
      reserved it. */
  datatype Table = Table(incoming: map<nat, nat>, opening: map<nat, nat>, lastIncoming: nat, max: nat)

  // ---------------------------------------------------------------- the locked sections

  predicate Free(t: Table, id: nat) {
    id !in t.incoming && id !in t.opening && |t.incoming| + |t.opening| < t.max
  }

  /** The slot test of `handleIncomingTransferBegin` and `handleIncomingTransferResume`. */
  predicate Admits(t: Table, kind: Kind, id: nat) {
    Free(t, id) && (kind == Begin ==> id > t.lastIncoming)
  }

  function Reserve(t: Table, kind: Kind, id: nat, attempt: nat): Table {
    t.(opening := t.opening[id := attempt], lastIncoming := if kind == Begin then id else t.lastIncoming)
  }

  function RemoveOpening(t: Table, id: nat): Table {
    t.(opening := t.opening - {id})
  }

  /** A begin is installed only while the session still runs; a resume always. */
  function Install(t: Table, kind: Kind, id: nat, attempt: nat, running: bool): Table {
    var t' := RemoveOpening(t, id);
    match kind
    case Begin => if running then t'.(incoming := t'.incoming[id := attempt]) else t'
    case Resume =>
      t'.(incoming := t'.incoming[id := attempt], lastIncoming := if id > t.lastIncoming then id else t.lastIncoming)
  }

  function RemoveIncoming(t: Table, id: nat): Table {
    t.(incoming := t.incoming - {id})
  }

  function CleanupIncoming(t: Table): Table {
    t.(incoming := map[])
  }

  /** The maps of a session, updated in place. */
  class SessionTransfers {
    var incoming: map<nat, nat>
    var opening: map<nat, nat>
    var lastIncoming: nat
    const max: nat

    ghost function View(): Table
      reads this
    {
      Table(incoming, opening, lastIncoming, max)
    }

    constructor (max: nat)
      ensures View() == Table(map[], map[], 0, max)
    {
      incoming, opening, lastIncoming, this.max := map[], map[], 0, max;
    }

    method ReserveBegin(id: nat, attempt: nat) returns (ok: bool)
      modifies this
      ensures ok <==> Admits(old(View()), Begin, id)
      ensures View() == if ok then Reserve(old(View()), Begin, id, attempt) else old(View())
    {
      if id <= lastIncoming || |incoming| + |opening| >= max || id in incoming || id in opening {
        return false;
      }
      lastIncoming := id;
      opening := opening[id := attempt];
      return true;
    }

    method ReserveResume(id: nat, attempt: nat) returns (ok: bool)
      modifies this
      ensures ok <==> Admits(old(View()), Resume, id)
      ensures View() == if ok then Reserve(old(View()), Resume, id, attempt) else old(View())
    {
      if id in incoming || id in opening {
        return false;
      }
      if |incoming| + |opening| >= max {
        return false;
      }
      opening := opening[id := attempt];
      return true;
    }

    method InstallBegin(id: nat, attempt: nat, running: bool) returns (ok: bool)
      modifies this
      ensures View() == Install(old(View()), Begin, id, attempt, running) && ok == running
    {
      opening := opening - {id};
      if !running {
        return false;
      }
      incoming := incoming[id := attempt];
      return true;
    }

    method InstallResume(id: nat, attempt: nat)
      modifies this
      ensures View() == Install(old(View()), Resume, id, attempt, true)
    {
      opening := opening - {id};
      if id > lastIncoming {
        lastIncoming := id;
      }
      incoming := incoming[id := attempt];
    }
  }

  // ---------------------------------------------------------------- one attempt

  /** What the callback returned. `accepted` is the decision of a resume store. */
  datatype Result = Result(writer: bool, err: bool, accepted: bool)

  datatype Callback = Running | Returned | Delivered | Leaving | FreeingSlot | Finished

  datatype Opener = Waiting | Got | Aborting | Releasing | Installing | AbortingLate | TimedOut | Gone

  /** `late` is what the opener read from the context after a delivery and `valid` whether a
      resume decision passed its metadata checks. `installed` and `aborted` count what happened
      to the writer. */
  datatype Attempt = Attempt(
    kind: Kind, id: nat, ended: bool, opener: Opener, callback: Callback, result: Result,
    late: bool, valid: bool, installed: nat, aborted: nat)

  function NewAttempt(kind: Kind, id: nat): Attempt {
    Attempt(kind, id, false, Waiting, Running, Result(false, false, false), false, false, 0, 0)
  }

  predicate Installs(a: Attempt) {
    && !a.late && a.result.writer && !a.result.err
    && (a.kind == Resume ==> a.result.accepted && a.valid)
  }

  /** What the opener does about a writer it will not install. A begin whose callback returned
      an error in time leaves the writer alone. */
  predicate AbortsDelivered(a: Attempt) {
    a.result.writer && !Installs(a) && (a.kind == Begin ==> a.late)
  }

  function Decide(a: Attempt, valid: bool): Attempt {
    var a := a.(late := a.ended, valid := valid);
    if Installs(a) then a.(opener := Installing)
    else if AbortsDelivered(a) then a.(opener := Aborting)
    else a.(opener := Releasing)
  }

  // ---------------------------------------------------------------- steps

  datatype System = System(t: Table, attempts: seq<Attempt>, running: bool)

  datatype Step =
    | Open(kind: Kind, id: nat)
    | ContextEnds(i: nat)
    | CallbackReturns(i: nat, result: Result)
    | Meet(i: nat)
    | OpenerTimesOut(i: nat)
    | CallbackLeaves(i: nat)
    | CallbackAborts(i: nat)
    | CallbackFreesSlot(i: nat)
    | OpenerDecides(i: nat, valid: bool)
    | OpenerAborts(i: nat)
    | OpenerFreesSlot(i: nat)
    | OpenerInstalls(i: nat)
    | OpenerAbortsLate(i: nat)
    | Remove(id: nat)
    | Cleanup
    | SessionState(running: bool)

  predicate AttemptStep(step: Step) {
    !step.Open? && !step.Remove? && !step.Cleanup? && !step.SessionState?
  }

  predicate Ready(a: Attempt, step: Step)
    requires AttemptStep(step)
  {
    match step
    case ContextEnds(_) => true
    case CallbackReturns(_, _) => a.callback == Running
    case Meet(_) => a.callback == Returned && a.opener == Waiting
    case OpenerTimesOut(_) => a.opener == Waiting && a.ended
    case CallbackLeaves(_) => a.callback == Returned && a.ended
    case CallbackAborts(_) => a.callback == Leaving
    case CallbackFreesSlot(_) => a.callback == FreeingSlot
    case OpenerDecides(_, _) => a.opener == Got
    case OpenerAborts(_) => a.opener == Aborting
    case OpenerFreesSlot(_) => a.opener == Releasing
    case OpenerInstalls(_) => a.opener == Installing
    case OpenerAbortsLate(_) => a.opener == AbortingLate
  }

  predicate Enabled(s: System, step: Step) {
    match step
    case Open(kind, id) => Admits(s.t, kind, id)
    case Remove(_) => true
    case Cleanup => true
    case SessionState(_) => true
    case _ => step.i < |s.attempts| && Ready(s.attempts[step.i], step)
  }

  /** What a step does to its own attempt. */
  function Move(a: Attempt, step: Step, running: bool): Attempt
    requires AttemptStep(step) && Ready(a, step)
  {
    match step
    case ContextEnds(_) => a.(ended := true)
    case CallbackReturns(_, result) => a.(callback := Returned, result := result)
    case Meet(_) => a.(callback := Delivered, opener := Got)
    case OpenerTimesOut(_) => a.(opener := TimedOut)
    case CallbackLeaves(_) => a.(callback := if a.result.writer then Leaving else FreeingSlot)
    case CallbackAborts(_) => a.(callback := FreeingSlot, aborted := a.aborted + 1)
    case CallbackFreesSlot(_) => a.(callback := Finished)
    case OpenerDecides(_, valid) => Decide(a, valid)
    case OpenerAborts(_) => a.(opener := Releasing, aborted := a.aborted + 1)
    case OpenerFreesSlot(_) => a.(opener := Gone)
    case OpenerInstalls(_) =>
      if a.kind == Begin && !running then a.(opener := AbortingLate)
      else a.(opener := Gone, installed := a.installed + 1)
    case OpenerAbortsLate(_) => a.(opener := Gone, aborted := a.aborted + 1)
  }

  function MoveTable(t: Table, a: Attempt, step: Step, running: bool): Table
    requires AttemptStep(step)
  {
    match step
    case CallbackFreesSlot(_) => RemoveOpening(t, a.id)
    case OpenerFreesSlot(_) => RemoveOpening(t, a.id)
    case OpenerInstalls(i) => Install(t, a.kind, a.id, i, running)
    case _ => t
  }

  function Do(s: System, step: Step): System
    requires Enabled(s, step)
  {
    match step
    case Open(kind, id) => s.(t := Reserve(s.t, kind, id, |s.attempts|),
        attempts := s.attempts + [NewAttempt(kind, id)])
    case Remove(id) => s.(t := RemoveIncoming(s.t, id))
    case Cleanup => s.(t := CleanupIncoming(s.t))
    case SessionState(running) => s.(running := running)
    case _ =>
      var a := s.attempts[step.i];
      s.(t := MoveTable(s.t, a, step, s.running), attempts := s.attempts[step.i := Move(a, step, s.running)])
  }

  // ---------------------------------------------------------------- invariant

  /** The attempt still holds its slot in `opening`. */
  predicate Owns(a: Attempt) {
    if a.callback == Delivered then a.opener.Got? || a.opener.Aborting? || a.opener.Releasing? || a.opener.Installing?
    else a.callback != Finished
  }

  predicate Over(a: Attempt) {
    (a.opener == Gone || a.opener == TimedOut) && (a.callback == Delivered || a.callback == Finished)
  }

  /** The program counters of the two goroutines fit together. */
  predicate Paired(a: Attempt) {
    && (a.callback == Delivered <==> !(a.opener.Waiting? || a.opener.TimedOut?))
    && (a.opener == TimedOut ==> a.ended)
    && ((a.callback.Leaving? || a.callback.FreeingSlot? || a.callback.Finished?) ==> a.ended)
    && (a.callback == Leaving ==> a.result.writer)
    && ((a.opener.Installing? || a.opener.AbortingLate?) ==> Installs(a))
    && (a.opener == Aborting ==> AbortsDelivered(a))
    && (a.opener.Releasing? ==> !Installs(a))
    && (a.late ==> a.ended)
  }

  /** How often the writer has been dealt with so far. */
  predicate Disposed(a: Attempt) {
    && ((a.callback.Running? || a.callback.Returned? || a.callback.Leaving?) ==> a.installed == a.aborted == 0)
    && ((a.callback.FreeingSlot? || a.callback.Finished?) ==>
          a.installed == 0 && a.aborted == if a.result.writer then 1 else 0)
    && ((a.opener.Got? || a.opener.Aborting? || a.opener.Installing? || a.opener.AbortingLate?) ==>
          a.installed == a.aborted == 0)
    && (a.opener == Releasing ==> a.installed == 0 && a.aborted == if AbortsDelivered(a) then 1 else 0)
    && (a.opener == Gone ==>
          if Installs(a) then a.installed + a.aborted == 1
          else a.installed == 0 && a.aborted == if AbortsDelivered(a) then 1 else 0)
  }

  predicate Shape(a: Attempt) {
    Paired(a) && Disposed(a)
  }

  predicate AllShaped(attempts: seq<Attempt>) {
    forall i :: 0 <= i < |attempts| ==> Shape(attempts[i])
  }

  predicate Holds(attempts: seq<Attempt>, i: nat, id: nat) {
    i < |attempts| && Owns(attempts[i]) && attempts[i].id == id
  }

  predicate SlotOf(t: Table, a: Attempt, i: nat) {
    Owns(a) ==> a.id in t.opening && t.opening[a.id] == i
  }

  /** Slots in `opening` and attempts that hold one correspond one to one. */
  predicate SlotsHeld(t: Table, attempts: seq<Attempt>) {
    && (forall id :: id in t.opening ==> Holds(attempts, t.opening[id], id))
    && (forall i :: 0 <= i < |attempts| ==> SlotOf(t, attempts[i], i))
  }

  predicate InstalledFrom(attempts: seq<Attempt>, i: nat, id: nat) {
    i < |attempts| && attempts[i].id == id && attempts[i].installed == 1
  }

  predicate Bounded(t: Table) {
    && (forall id :: id in t.opening ==> id !in t.incoming)
    && |t.incoming| + |t.opening| <= t.max
  }

  predicate IncomingOk(t: Table, attempts: seq<Attempt>) {
    forall id :: id in t.incoming ==> InstalledFrom(attempts, t.incoming[id], id)
  }

  predicate Inv(s: System) {
    AllShaped(s.attempts) && SlotsHeld(s.t, s.attempts) && Bounded(s.t) && IncomingOk(s.t, s.attempts)
  }

  lemma MovePaired(a: Attempt, step: Step, running: bool)
    requires AttemptStep(step) && Ready(a, step) && Paired(a)
    ensures Paired(Move(a, step, running))
  {
  }

  lemma MoveDisposed(a: Attempt, step: Step, running: bool)
    requires AttemptStep(step) && Ready(a, step) && Shape(a)
    ensures Disposed(Move(a, step, running))
  {
  }

  lemma MoveShape(a: Attempt, step: Step, running: bool)
    requires AttemptStep(step) && Ready(a, step) && Shape(a)
    ensures Shape(Move(a, step, running)) && Move(a, step, running).id == a.id
  {
    MovePaired(a, step, running);
    MoveDisposed(a, step, running);
    hide Paired, Disposed, Installs, AbortsDelivered;
  }

  /** A step keeps the slot, or it is one of the three that give it up. */
  lemma MoveOwns(a: Attempt, step: Step, running: bool)
    requires AttemptStep(step) && Ready(a, step) && Shape(a)
    ensures step.CallbackFreesSlot? || step.OpenerFreesSlot? || step.OpenerInstalls? ==>
      Owns(a) && !Owns(Move(a, step, running))
    ensures !(step.CallbackFreesSlot? || step.OpenerFreesSlot? || step.OpenerInstalls?) ==>
      Owns(Move(a, step, running)) == Owns(a)
  {
  }

  lemma SlotsKept(t: Table, t': Table, attempts: seq<Attempt>, i: nat, a: Attempt)
    requires SlotsHeld(t, attempts) && i < |attempts| && a.id == attempts[i].id
    requires if Owns(a) then Owns(attempts[i]) && t'.opening == t.opening
             else if Owns(attempts[i]) then t'.opening == t.opening - {a.id}
             else t'.opening == t.opening
    ensures SlotsHeld(t', attempts[i := a])
    ensures Owns(attempts[i]) ==> a.id in t.opening
  {
    assert SlotOf(t, attempts[i], i);
    var updated := attempts[i := a];
    forall id | id in t'.opening ensures Holds(updated, t'.opening[id], id) {
      assert Holds(attempts, t.opening[id], id);
    }
    forall j | 0 <= j < |updated| ensures SlotOf(t', updated[j], j) {
      assert SlotOf(t, attempts[j], j);
    }
  }

  lemma SlotReserved(t: Table, attempts: seq<Attempt>, kind: Kind, id: nat)
    requires SlotsHeld(t, attempts) && id !in t.opening
    ensures SlotsHeld(Reserve(t, kind, id, |attempts|), attempts + [NewAttempt(kind, id)])
  {
    var more := attempts + [NewAttempt(kind, id)];
    var t' := Reserve(t, kind, id, |attempts|);
    forall x | x in t'.opening ensures Holds(more, t'.opening[x], x) {
      assert x != id ==> Holds(attempts, t.opening[x], x);
    }
    forall j | 0 <= j < |attempts| ensures SlotOf(t', more[j], j) {
      assert SlotOf(t, attempts[j], j);
    }
  }

  lemma RemovalCount(m: map<nat, nat>, id: nat)
    ensures |m - {id}| == |m| - if id in m then 1 else 0
  {
    if id in m {
      assert m.Keys == (m - {id}).Keys + {id};
    } else {
      assert m - {id} == m;
    }
  }

  lemma InsertionCount(m: map<nat, nat>, id: nat, x: nat)
    requires id !in m
    ensures |m[id := x]| == |m| + 1
  {
    assert m[id := x].Keys == m.Keys + {id};
  }

  lemma InstallBounded(t: Table, kind: Kind, id: nat, attempt: nat, running: bool)
    requires Bounded(t) && id in t.opening
    ensures Bounded(Install(t, kind, id, attempt, running)) && Bounded(RemoveOpening(t, id))
  {
    RemovalCount(t.opening, id);
    InsertionCount(t.incoming, id, attempt);
  }

  lemma IncomingKept(t: Table, t': Table, attempts: seq<Attempt>, i: nat, a: Attempt)
    requires IncomingOk(t, attempts) && i < |attempts| && a.id == attempts[i].id
    requires attempts[i].installed == 1 ==> a.installed == 1
    requires t'.incoming == t.incoming || (t'.incoming == t.incoming[a.id := i] && a.installed == 1)
    ensures IncomingOk(t', attempts[i := a])
  {
    forall id | id in t'.incoming ensures InstalledFrom(attempts[i := a], t'.incoming[id], id) {
      if id in t.incoming {
        assert InstalledFrom(attempts, t.incoming[id], id);
      }
    }
  }

  /** A writer is installed by its own step and never counted out again. */
  lemma MoveInstalled(a: Attempt, step: Step, running: bool)
    requires AttemptStep(step) && Ready(a, step) && Shape(a)
    ensures a.installed == 1 ==> Move(a, step, running).installed == 1
    ensures step.OpenerInstalls? && (a.kind == Resume || running) ==> Move(a, step, running).installed == 1
  {
  }

  lemma AttemptStepShapes(s: System, step: Step)
    requires AllShaped(s.attempts) && AttemptStep(step) && Enabled(s, step)
    ensures AllShaped(Do(s, step).attempts)
  {
    hide Shape, MoveTable;
    assert Shape(s.attempts[step.i]);
    MoveShape(s.attempts[step.i], step, s.running);
  }

  lemma AttemptStepTable(s: System, step: Step)
    requires Inv(s) && AttemptStep(step) && Enabled(s, step)
    ensures var s' := Do(s, step); SlotsHeld(s'.t, s'.attempts) && Bounded(s'.t) && IncomingOk(s'.t, s'.attempts)
  {
    hide Owns, Bounded, IncomingOk, InstalledFrom;
    var i := step.i;
    var a := s.attempts[i];
    var a' := Move(a, step, s.running);
    assert Shape(a);
    MoveShape(a, step, s.running);
    MoveOwns(a, step, s.running);
    MoveInstalled(a, step, s.running);
    var t' := MoveTable(s.t, a, step, s.running);
    IncomingKept(s.t, t', s.attempts, i, a');
    SlotsKept(s.t, t', s.attempts, i, a');
    if step.CallbackFreesSlot? || step.OpenerFreesSlot? || step.OpenerInstalls? {
      InstallBounded(s.t, a.kind, a.id, i, s.running);
    }
  }

  lemma AttemptStepInv(s: System, step: Step)
    requires Inv(s) && AttemptStep(step) && Enabled(s, step)
    ensures Inv(Do(s, step))
  {
    hide AllShaped, SlotsHeld, Bounded, IncomingOk, Do;
    AttemptStepShapes(s, step);
    AttemptStepTable(s, step);
  }

  lemma OpenInv(s: System, kind: Kind, id: nat)
    requires Inv(s) && Admits(s.t, kind, id)
    ensures Inv(Do(s, Open(kind, id)))
  {
    hide SlotsHeld, Holds;
    var s' := Do(s, Open(kind, id));
    SlotReserved(s.t, s.attempts, kind, id);
    InsertionCount(s.t.opening, id, |s.attempts|);
    forall x | x in s'.t.incoming ensures InstalledFrom(s'.attempts, s'.t.incoming[x], x) {
      assert InstalledFrom(s.attempts, s.t.incoming[x], x);
    }
  }

  lemma RemovalOk(t: Table, attempts: seq<Attempt>, id: nat)
    requires Bounded(t) && IncomingOk(t, attempts)
    ensures Bounded(RemoveIncoming(t, id)) && IncomingOk(RemoveIncoming(t, id), attempts)
  {
    RemovalCount(t.incoming, id);
    var t' := RemoveIncoming(t, id);
    forall x | x in t'.incoming ensures InstalledFrom(attempts, t'.incoming[x], x) {
      assert InstalledFrom(attempts, t.incoming[x], x);
    }
  }

  lemma SlotsUntouched(t: Table, t': Table, attempts: seq<Attempt>)
    requires SlotsHeld(t, attempts) && t'.opening == t.opening
    ensures SlotsHeld(t', attempts)
  {
    forall i | 0 <= i < |attempts| ensures SlotOf(t', attempts[i], i) {
      assert SlotOf(t, attempts[i], i);
    }
  }

  lemma StepInv(s: System, step: Step)
    requires Inv(s) && Enabled(s, step)
    ensures Inv(Do(s, step))
  {
    hide Shape, Move, MoveTable, SlotOf, Holds;
    if AttemptStep(step) {
      AttemptStepInv(s, step);
    } else {
      match step {
        case Open(kind, id) => OpenInv(s, kind, id);
        case Remove(id) =>
          RemovalOk(s.t, s.attempts, id);
          SlotsUntouched(s.t, RemoveIncoming(s.t, id), s.attempts);
        case Cleanup => SlotsUntouched(s.t, CleanupIncoming(s.t), s.attempts);
        case SessionState(_) =>
      }
    }
  }

  // ---------------------------------------------------------------- whole runs

  predicate StepAt(run: seq<System>, steps: seq<Step>, i: nat)
    requires i < |steps| < |run|
  {
    Enabled(run[i], steps[i]) && run[i + 1] == Do(run[i], steps[i])
  }

  predicate IsRun(run: seq<System>, steps: seq<Step>, max: nat) {
    && |run| == |steps| + 1
    && run[0].t == Table(map[], map[], 0, max) && run[0].attempts == []
    && forall i :: 0 <= i < |steps| ==> StepAt(run, steps, i)
  }

  lemma {:induction false} InvInEveryRun(run: seq<System>, steps: seq<Step>, max: nat, n: nat)
    requires IsRun(run, steps, max) && n <= |steps|
    ensures Inv(run[n]) && run[n].t.max == max
  {
    hide Enabled;
    if n == 0 {
      assert Inv(run[0]);
    } else {
      InvInEveryRun(run, steps, max, n - 1);
      assert StepAt(run, steps, n - 1);
      StepInv(run[n - 1], steps[n - 1]);
      MaxKept(run[n - 1], steps[n - 1]);
    }
  }

  lemma MaxKept(s: System, step: Step)
    requires Enabled(s, step)
    ensures Do(s, step).t.max == s.t.max
  {
  }

  /** Transfers being opened and transfers being received never exceed the configured number. */
  lemma SlotsNeverExceeded(run: seq<System>, steps: seq<Step>, max: nat, n: nat)
    requires IsRun(run, steps, max) && n <= |steps|
    ensures |run[n].t.incoming| + |run[n].t.opening| <= max
    ensures run[n].t.incoming.Keys !! run[n].t.opening.Keys
  {
    InvInEveryRun(run, steps, max, n);
  }

  /** A callback that is still running keeps its slot, even after its opener has timed out, and
      no other attempt can use the same id meanwhile. */
  lemma RunningCallbackKeepsSlot(run: seq<System>, steps: seq<Step>, max: nat, n: nat, i: nat)
    requires IsRun(run, steps, max) && n <= |steps|
    requires i < |run[n].attempts| && run[n].attempts[i].callback == Running
    ensures run[n].attempts[i].id in run[n].t.opening
    ensures !Enabled(run[n], Open(Begin, run[n].attempts[i].id))
    ensures !Enabled(run[n], Open(Resume, run[n].attempts[i].id))
  {
    InvInEveryRun(run, steps, max, n);
    assert SlotOf(run[n].t, run[n].attempts[i], i);
  }

  /** No slot leaks: when every attempt is over no slot is left. */
  lemma NoSlotLeaks(run: seq<System>, steps: seq<Step>, max: nat, n: nat)
    requires IsRun(run, steps, max) && n <= |steps|
    requires forall i :: 0 <= i < |run[n].attempts| ==> Over(run[n].attempts[i])
    ensures run[n].t.opening == map[]
  {
    InvInEveryRun(run, steps, max, n);
  }

  /** A writer returned without an error is never installed or aborted twice, and once both
      goroutines are done with it exactly one of the two has happened. */
  lemma WriterDisposedOnce(run: seq<System>, steps: seq<Step>, max: nat, n: nat, i: nat)
    requires IsRun(run, steps, max) && n <= |steps| && i < |run[n].attempts|
    ensures run[n].attempts[i].installed + run[n].attempts[i].aborted <= 1
    ensures var a := run[n].attempts[i];
      Over(a) && a.result.writer && !a.result.err ==> a.installed + a.aborted == 1
  {
    InvInEveryRun(run, steps, max, n);
    assert Shape(run[n].attempts[i]);
  }

  /** A writer returned together with an error is aborted too, except by a begin that met its
      callback before the context ended: that one neither installs nor aborts it. */
  lemma WriterWithErrorDisposedIff(run: seq<System>, steps: seq<Step>, max: nat, n: nat, i: nat)
    requires IsRun(run, steps, max) && n <= |steps| && i < |run[n].attempts|
    requires Over(run[n].attempts[i]) && run[n].attempts[i].result.writer && run[n].attempts[i].result.err
    ensures run[n].attempts[i].installed == 0
    ensures var a := run[n].attempts[i];
      a.aborted == 1 <==> a.kind == Resume || a.callback == Finished || a.late
  {
    InvInEveryRun(run, steps, max, n);
    assert Shape(run[n].attempts[i]);
  }

  /** The one attempt of a run in which a begin's callback returns a writer and an error in time. */
  function LeakingAttempt(i: nat): Attempt {
    var a0 := NewAttempt(Begin, 1);
    var a1 := a0.(callback := Returned, result := Result(true, true, false));
    var a2 := a1.(callback := Delivered, opener := Got);
    match i
    case 1 => a0
    case 2 => a1
    case 3 => a2
    case 4 => a2.(opener := Releasing)
    case _ => a2.(opener := Gone)
  }

  function LeakingState(i: nat): System {
    if i == 0 then System(Table(map[], map[], 0, 1), [], true)
    else System(Table(map[], if i < 5 then map[1 := 0] else map[], 1, 1), [LeakingAttempt(i)], true)
  }

  function LeakingStep(i: nat): Step {
    match i
    case 0 => Open(Begin, 1)
    case 1 => CallbackReturns(0, Result(true, true, false))
    case 2 => Meet(0)
    case 3 => OpenerDecides(0, false)
    case _ => OpenerFreesSlot(0)
  }

  lemma LeakingMove(i: nat)
    requires i < 5
    ensures Enabled(LeakingState(i), LeakingStep(i)) && LeakingState(i + 1) == Do(LeakingState(i), LeakingStep(i))
  {
    hide *;
    if i == 0 {
      LeakingReserve();
    } else if i == 4 {
      LeakingRelease();
    } else {
      LeakingReturn(i);
    }
  }

  lemma LeakingReserve()
    ensures Enabled(LeakingState(0), LeakingStep(0)) && LeakingState(1) == Do(LeakingState(0), LeakingStep(0))
  {
    assert map[][1 := 0] == map[1 := 0];
  }

  lemma LeakingReturn(i: nat)
    requires 1 <= i <= 3
    ensures Enabled(LeakingState(i), LeakingStep(i)) && LeakingState(i + 1) == Do(LeakingState(i), LeakingStep(i))
  {
  }

  lemma LeakingRelease()
    ensures Enabled(LeakingState(4), LeakingStep(4)) && LeakingState(5) == Do(LeakingState(4), LeakingStep(4))
  {
    assert map[1 := 0] - {1} == map[];
  }

  /** In that run the attempt ends and nobody has dealt with the writer. */
  lemma LeakedWriterCounterexample() returns (run: seq<System>, steps: seq<Step>)
    ensures IsRun(run, steps, 1) && |steps| == 5 && |run[5].attempts| == 1
    ensures var a := run[5].attempts[0];
      Over(a) && a.result == Result(true, true, false) && a.installed == a.aborted == 0
  {
    hide Do, Enabled;
    run := [LeakingState(0), LeakingState(1), LeakingState(2), LeakingState(3), LeakingState(4), LeakingState(5)];
    steps := [LeakingStep(0), LeakingStep(1), LeakingStep(2), LeakingStep(3), LeakingStep(4)];
    forall i | 0 <= i < 5 ensures StepAt(run, steps, i) {
      LeakingMove(i);
      assert run[i] == LeakingState(i) && run[i + 1] == LeakingState(i + 1) && steps[i] == LeakingStep(i);
    }
  }

  /** Every transfer that can receive data was opened by an attempt that installed its writer and
      did not abort it. */
  lemma IncomingHasWriter(run: seq<System>, steps: seq<Step>, max: nat, n: nat, id: nat)
    requires IsRun(run, steps, max) && n <= |steps| && id in run[n].t.incoming
    ensures var i := run[n].t.incoming[id];
      i < |run[n].attempts| && run[n].attempts[i].id == id && run[n].attempts[i].result.writer
          && run[n].attempts[i].aborted == 0
  {
    InvInEveryRun(run, steps, max, n);
    assert InstalledFrom(run[n].attempts, run[n].t.incoming[id], id);
    assert Shape(run[n].attempts[run[n].t.incoming[id]]);
  }
}
