/** The `sessionWriter` object (writer.go) over its five ring buffers. Every method is proved
    against the function of module `SessionWriter` that it runs under the writer's lock. */
module WriterObject {
  import opened Base
  import opened RingQueue
  import opened Schedule
  import opened SessionWriter

  /** What `enqueue` does once its outcome is known, for a frame that carries the next stamp. */
  lemma ClampedOutcome(w: Writer, item: Item, entering: bool, gaveUp: bool)
    requires Queues(w.q) && item.stamp == w.clock
    ensures var x := if item.priority > 4 then item.(priority := 4) else item;
      var outcome := EnqueueOutcome(w, x, entering, gaveUp);
      && x.priority < PRIORITIES && x.stamp == w.clock
      && outcome == EnqueueOutcome(w, item, entering, gaveUp)
      && Enqueue(w, item, entering, gaveUp) ==
         match outcome
         case Waits => w
         case Released =>
           w.(clock := w.clock + 1, submitted := w.submitted + multiset{x}, released := w.released + [x])
         case Accepted =>
           w.(q := w.q[x.priority := w.q[x.priority] + [x]], queuedItems := w.queuedItems + 1,
              queuedBytes := w.queuedBytes + x.size, clock := w.clock + 1, submitted := w.submitted + multiset{x})
  {
    var x := if item.priority > 4 then item.(priority := 4) else item;
    assert x == Clamp(item) == Clamp(x) == Clamp(item).(stamp := w.clock);
  }

  /** What the pop does to the writer. */
  lemma TakeFound(w: Writer)
    requires Queues(w.q) && w.at < SLOTS
    ensures var r := Pop(w.q, w.at, FullRound(), 0);
      TakeNext(w) ==
      if r.Nothing? then w.(at := r.at)
      else w.(q := r.q, at := r.at, queuedItems := w.queuedItems - 1,
              queuedBytes := if w.queuedBytes >= r.item.size then w.queuedBytes - r.item.size else 0,
              inFlight := Some(r.item))
  {
    hide Pop;
  }

  /** Ring buffers that are in order and share nothing. */
  predicate Apart(queues: seq<SendItemQueue>)
    reads queues
  {
    && |queues| == PRIORITIES
    && (forall i, j :: 0 <= i < j < |queues| ==> queues[i] != queues[j] && queues[i].items != queues[j].items)
  }

  ghost predicate Holds(queue: SendItemQueue, s: seq<Item>)
    reads queue, queue.items
  {
    queue.Valid() && queue.contents == s
  }

  method NewQueues() returns (queues: seq<SendItemQueue>)
    ensures Apart(queues) && fresh(queues)
    ensures forall i :: 0 <= i < |queues| ==> fresh(queues[i].items) && Holds(queues[i], [])
  {
    queues := [];
    while |queues| < PRIORITIES
      invariant |queues| <= PRIORITIES && fresh(queues)
      invariant forall i :: 0 <= i < |queues| ==> fresh(queues[i].items) && Holds(queues[i], [])
      invariant forall i, j :: 0 <= i < j < |queues| ==> queues[i] != queues[j] && queues[i].items != queues[j].items
    {
      var queue := new SendItemQueue(64);
      queues := queues + [queue];
    }
  }

  class FrameWriter {
    const cfg: Config
    const queues: seq<SendItemQueue>
    /** What the ring buffers hold. */
    ghost var q: seq<seq<Item>>
    var queuedItems: int
    var queuedBytes: nat
    var at: nat
    var controlOnly: bool
    var closed: bool
    var inFlight: Option<Item>
    ghost var clock: nat
    ghost var submitted: multiset<Item>
    ghost var wire: seq<Item>
    ghost var released: seq<Item>

    ghost predicate Valid()
      reads this`q, queues, set o | o in queues :: o.items
    {
      && Apart(queues) && Queues(q)
      && forall i :: 0 <= i < PRIORITIES ==> Holds(queues[i], q[i])
    }

    ghost function View(): Writer
      reads this
    {
      Writer(cfg, q, queuedItems, queuedBytes, at, controlOnly, closed, inFlight, clock, submitted, wire, released)
    }

    constructor (cfg: Config)
      ensures Valid() && Initial(View()) && this.cfg == cfg
      ensures fresh(queues) && forall i :: 0 <= i < |queues| ==> fresh(queues[i].items)
    {
      hide Holds;
      var rings := NewQueues();
      this.cfg, queues := cfg, rings;
      q, queuedItems, queuedBytes, at := [[], [], [], [], []], 0, 0, 0;
      controlOnly, closed, inFlight := false, false, None;
      clock, submitted, wire, released := 0, multiset{}, [], [];
    }

    lemma ViewFields()
      ensures var w := View();
        w.cfg == cfg && w.q == q && w.queuedItems == queuedItems && w.queuedBytes == queuedBytes && w.clock == clock
        && w.submitted == submitted && w.released == released
      ensures Valid() ==> Queues(q) && |queues| == |q| == PRIORITIES
    {
    }

    /** The pop of one ring buffer; the others keep what they hold. */
    method PopAt(p: nat) returns (item: Item, ok: bool)
      requires Valid() && p < PRIORITIES
      modifies this`q, queues[p], queues[p].items
      ensures Valid() && queues[p].items == old(queues[p].items)
      ensures ok <==> old(q)[p] != []
      ensures q == if ok then old(q)[p := old(q)[p][1..]] else old(q)
      ensures ok ==> item == old(q)[p][0]
    {
      assert Holds(queues[p], q[p]);
      item, ok := queues[p].Pop();
      if ok {
        q := q[p := q[p][1..]];
      }
      forall i | 0 <= i < PRIORITIES && i != p ensures Holds(queues[i], q[i]) {
        assert old(Holds(queues[i], q[i])) && queues[i] != queues[p] && queues[i].items != queues[p].items;
      }
    }

    method PushAt(p: nat, x: Item)
      requires Valid() && p < PRIORITIES
      modifies this`q, queues[p], queues[p].items
      ensures Valid() && (queues[p].items == old(queues[p].items) || fresh(queues[p].items))
      ensures q == old(q)[p := old(q)[p] + [x]]
    {
      assert Holds(queues[p], q[p]);
      queues[p].Push(x);
      q := q[p := q[p] + [x]];
      forall i | 0 <= i < PRIORITIES && i != p ensures Holds(queues[i], q[i]) {
        assert old(Holds(queues[i], q[i])) && queues[i] != queues[p] && queues[i].items != old(queues[p].items);
      }
    }

    /** `releaseItem`, ending the `enqueue` call of a frame that was not accepted. */
    method ReleaseItem(x: Item)
      modifies this`clock, this`submitted, this`released
      ensures View() == old(View()).(clock := old(clock) + 1, submitted := old(submitted) + multiset{x},
                                     released := old(released) + [x])
    {
      clock := clock + 1;
      released := released + [x];
      submitted := submitted + multiset{x};
    }

    method Push(x: Item)
      requires Valid() && x.priority < PRIORITIES && x.stamp == clock
      modifies this`q, this`queuedItems, this`queuedBytes, this`clock, this`submitted
      modifies queues[x.priority], queues[x.priority].items
      ensures Valid()
      ensures View() == old(View()).(
        q := old(q)[x.priority := old(q)[x.priority] + [x]],
        queuedItems := old(queuedItems) + 1, queuedBytes := old(queuedBytes) + x.size,
        clock := old(clock) + 1, submitted := old(submitted) + multiset{x})
      ensures forall i :: 0 <= i < |queues| ==> queues[i].items == old(queues[i].items) || fresh(queues[i].items)
    {
      PushAt(x.priority, x);
      queuedItems := queuedItems + 1;
      queuedBytes := queuedBytes + x.size;
      clock := clock + 1;
      submitted := submitted + multiset{x};
    }

    /** The tests of `enqueue`, in order; `x` is the frame with its priority clamped. */
    method Decide(x: Item, entering: bool, gaveUp: bool) returns (outcome: Outcome)
      requires x.priority <= 4
      ensures outcome == EnqueueOutcome(View(), x, entering, gaveUp)
    {
      var control := x.priority == 0 && x.control;
      if entering && controlOnly && !control {
        return Released;
      }
      var room := (cfg.maxFrames <= 0 || queuedItems < cfg.maxFrames)
               && (cfg.maxBytes == 0 || queuedBytes + x.size <= cfg.maxBytes);
      if !room {
        return if closed || gaveUp then Released else Waits;
      }
      if closed || (controlOnly && !control) {
        return Released;
      }
      return Accepted;
    }

    /** `enqueue` up to its first wait, or from a wake-up to the next wait. The frame's stamp is
        the number of calls that have ended before. */
    method TryEnqueue(item: Item, entering: bool, gaveUp: bool) returns (outcome: Outcome)
      requires Valid() && item.stamp == clock
      modifies this, queues, set o | o in queues :: o.items
      ensures Valid()
      ensures outcome == EnqueueOutcome(old(View()), item, entering, gaveUp)
      ensures View() == Enqueue(old(View()), item, entering, gaveUp)
      ensures forall i :: 0 <= i < |queues| ==> queues[i].items == old(queues[i].items) || fresh(queues[i].items)
    {
      hide *;
      var x := if item.priority > 4 then item.(priority := 4) else item;
      ghost var w := View();
      ViewFields();
      ClampedOutcome(w, item, entering, gaveUp);
      outcome := Decide(x, entering, gaveUp);
      match outcome {
        case Waits =>
        case Released => ReleaseItem(x);
        case Accepted => Push(x);
      }
    }

    /** What `popLocked` and `run` do once a frame was found. */
    method Found(item: Item)
      modifies this`queuedItems, this`queuedBytes, this`inFlight
      ensures queuedItems == old(queuedItems) - 1
      ensures queuedBytes == (if old(queuedBytes) >= item.size then old(queuedBytes) - item.size else 0)
      ensures inFlight == Some(item)
    {
      queuedItems := queuedItems - 1;
      queuedBytes := if queuedBytes >= item.size then queuedBytes - item.size else 0;
      inFlight := Some(item);
    }

    /** The loop of `popLocked`: walks the schedule from where it stands, at most once around. */
    method FindNext() returns (item: Item, ok: bool)
      requires Valid() && at < SLOTS
      modifies this`q, this`at, queues, set o | o in queues :: o.items
      ensures Valid()
      ensures var r := Pop(old(q), old(at), FullRound(), 0);
        ok == r.Popped? && at == r.at && q == (if ok then r.q else old(q)) && (ok ==> item == r.item)
      ensures forall i :: 0 <= i < |queues| ==> queues[i].items == old(queues[i].items)
    {
      ViewFields();
      hide Pop, Wrap, PriorityAt, Holds, Apart;
      var i := 0;
      item := NO_ITEM;
      while i < |SCHEDULE|
        invariant i <= FullRound() && at < SLOTS && Valid() && q == old(q) && |queues| == |q| == PRIORITIES
        invariant forall j :: 0 <= j < |queues| ==> queues[j].items == old(queues[j].items)
        invariant Pop(q, old(at), FullRound(), 0) == Pop(q, at, FullRound() - i, i)
      {
        ScheduleIsTable(at);
        ViewFields();
        PopStep(q, at, FullRound() - i, i);
        var priority := SCHEDULE[at];
        at := Wrap(at + 1);
        item, ok := PopAt(priority);
        if ok {
          return;
        }
        i := i + 1;
      }
      PopEnds(q, at, i);
      ok := false;
    }

    /** `popLocked`. */
    method PopLocked() returns (ok: bool)
      requires Valid() && at < SLOTS
      modifies this`q, this`at, this`queuedItems, this`queuedBytes, this`inFlight
      modifies queues, set o | o in queues :: o.items
      ensures Valid() && View() == TakeNext(old(View()))
      ensures ok <==> Pop(old(q), old(at), FullRound(), 0).Popped?
      ensures forall i :: 0 <= i < |queues| ==> queues[i].items == old(queues[i].items)
    {
      hide Pop, Holds, Apart;
      TakeFound(View());
      var item;
      item, ok := FindNext();
      if ok {
        Found(item);
      }
    }

    /** Empties one ring buffer. */
    method ReleaseOne(p: nat)
      requires Valid() && p < PRIORITIES
      modifies this`q, this`released, queues[p], queues[p].items
      ensures Valid() && queues[p].items == old(queues[p].items)
      ensures q == old(q)[p := []] && released == old(released) + old(q)[p]
    {
      assert Holds(queues[p], q[p]);
      while queues[p].size > 0
        invariant Valid() && Holds(queues[p], q[p]) && queues[p].items == old(queues[p].items)
        invariant q == old(q)[p := q[p]] && released + q[p] == old(released) + old(q)[p]
        decreases |q[p]|
      {
        var item, _ := PopAt(p);
        released := released + [item];
        assert Holds(queues[p], q[p]);
      }
      assert q[p] == [];
    }

    /** The loop of `releaseQueuedLocked`: every ring buffer, priority by priority. */
    method ReleaseEach()
      requires Valid()
      modifies this`q, this`released, queues, set o | o in queues :: o.items
      ensures Valid() && q == [[], [], [], [], []] && released == old(released) + Queued(old(q), |old(q)|)
      ensures forall i :: 0 <= i < |queues| ==> queues[i].items == old(queues[i].items)
    {
      hide Holds, Apart;
      ViewFields();
      var p := 0;
      while p < 5
        invariant p <= 5 && Valid() && |queues| == |q| == PRIORITIES
        invariant forall i :: 0 <= i < 5 ==> q[i] == if i < p then [] else old(q)[i]
        invariant released == old(released) + Queued(old(q), p)
        invariant forall i :: 0 <= i < |queues| ==> queues[i].items == old(queues[i].items)
      {
        ReleaseOne(p);
        assert released == old(released) + (Queued(old(q), p) + old(q)[p]);
        p := p + 1;
      }
      assert q == [[], [], [], [], []];
    }

    method ReleaseAll()
      requires Valid()
      modifies this`q, this`queuedItems, this`queuedBytes, this`released
      modifies queues, set o | o in queues :: o.items
      ensures Valid() && View() == ReleaseQueued(old(View()))
      ensures forall i :: 0 <= i < |queues| ==> queues[i].items == old(queues[i].items)
    {
      hide Holds, Apart;
      ReleaseEach();
      queuedItems, queuedBytes := 0, 0;
    }

    method StartClosing()
      requires Valid()
      modifies this, queues, set o | o in queues :: o.items
      ensures Valid() && View() == BeginClosing(old(View()))
    {
      hide Holds;
      controlOnly := true;
      ReleaseAll();
    }

    method Shut()
      requires Valid()
      modifies this, queues, set o | o in queues :: o.items
      ensures Valid() && View() == Close(old(View()))
    {
      hide Holds;
      if !closed {
        closed := true;
        ReleaseAll();
      }
    }

    /** The second half of `run`'s loop body. */
    method WriteReturned(ok: bool)
      requires Valid() && inFlight.Some?
      modifies this, queues, set o | o in queues :: o.items
      ensures Valid() && View() == Finish(old(View()), ok)
    {
      hide Holds;
      released := released + [inFlight.value];
      if ok {
        wire := wire + [inFlight.value];
        inFlight := None;
      } else {
        inFlight := None;
        closed := true;
        ReleaseAll();
      }
    }
  }
}
