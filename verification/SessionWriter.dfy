/** The session writer (`sessionWriter`, writer.go): bounded priority queues drained by one
    goroutine, with two ways of closing. What the code does under the writer's lock is one step;
    the write to the transport happens between two of them. */
module SessionWriter {
  import opened Base
  import opened RingQueue
  import opened Schedule

  /** Zero means unlimited. */
  datatype Config = Config(maxFrames: int, maxBytes: nat)

  /** `clock` counts frames whose `enqueue` call has ended and gives each its stamp. `submitted` are the frames whose
      `enqueue` call has ended, `wire` those written to the transport in order, and `released`
      those whose buffer was returned and whose `done` channel was signalled. */
  datatype Writer = Writer(
    cfg: Config, q: seq<seq<Item>>, queuedItems: int, queuedBytes: nat, at: nat,
    controlOnly: bool, closed: bool, inFlight: Option<Item>,
    clock: nat, submitted: multiset<Item>, wire: seq<Item>, released: seq<Item>)

  // ---------------------------------------------------------------- steps

  predicate CanEnqueue(w: Writer, size: nat) {
    && (w.cfg.maxFrames > 0 ==> w.queuedItems < w.cfg.maxFrames)
    && (w.cfg.maxBytes > 0 ==> w.queuedBytes + size <= w.cfg.maxBytes)
  }

  predicate CriticalControl(item: Item) {
    item.priority == 0 && item.control
  }

  function Clamp(item: Item): Item {
    if item.priority > 4 then item.(priority := 4) else item
  }

  datatype Outcome = Accepted | Released | Waits

  /** `enqueue`, from entry or after a wait. `gaveUp` is a cancelled context or a passed deadline. */
  function EnqueueOutcome(w: Writer, item: Item, entering: bool, gaveUp: bool): Outcome {
    var item := Clamp(item);
    if entering && w.controlOnly && !CriticalControl(item) then Released
    else if !CanEnqueue(w, item.size) then
      if w.closed || gaveUp then Released else Waits
    else if w.closed then Released
    else if w.controlOnly && !CriticalControl(item) then Released
    else Accepted
  }

  function Enqueue(w: Writer, item: Item, entering: bool, gaveUp: bool): Writer
    requires Queues(w.q)
  {
    match EnqueueOutcome(w, item, entering, gaveUp)
    case Waits => w
    case Released =>
      var x := Clamp(item).(stamp := w.clock);
      w.(clock := w.clock + 1, submitted := w.submitted + multiset{x}, released := w.released + [x])
    case Accepted =>
      var x := Clamp(item).(stamp := w.clock);
      w.(q := w.q[x.priority := w.q[x.priority] + [x]],
         queuedItems := w.queuedItems + 1,
         queuedBytes := w.queuedBytes + x.size,
         clock := w.clock + 1,
         submitted := w.submitted + multiset{x})
  }

  /** The pop in `run`. */
  function TakeNext(w: Writer): Writer
    requires Queues(w.q) && w.at < SLOTS
  {
    match Pop(w.q, w.at, FullRound(), 0)
    case Nothing(at) => w.(at := at)
    case Popped(item, _, _, q, at) =>
      w.(q := q, at := at,
         queuedItems := w.queuedItems - 1,
         queuedBytes := if w.queuedBytes >= item.size then w.queuedBytes - item.size else 0,
         inFlight := Some(item))
  }

  function Queued(q: seq<seq<Item>>, n: nat): seq<Item>
    requires n <= |q|
  {
    if n == 0 then [] else Queued(q, n - 1) + q[n - 1]
  }

  /** `releaseQueuedLocked`, priority by priority. */
  function ReleaseQueued(w: Writer): Writer {
    w.(q := [[], [], [], [], []], queuedItems := 0, queuedBytes := 0,
       released := w.released + Queued(w.q, |w.q|))
  }

  /** The second half of `run`, after the write returned. */
  function Finish(w: Writer, ok: bool): Writer
    requires w.inFlight.Some?
  {
    var item := w.inFlight.value;
    var w' := w.(inFlight := None, released := w.released + [item]);
    if ok then w'.(wire := w'.wire + [item]) else ReleaseQueued(w'.(closed := true))
  }

  function BeginClosing(w: Writer): Writer {
    ReleaseQueued(w.(controlOnly := true))
  }

  function Close(w: Writer): Writer {
    if w.closed then w else ReleaseQueued(w.(closed := true))
  }

  datatype Step = Submit(item: Item, entering: bool, gaveUp: bool) | Take | Written(ok: bool) | StartClosing | Shut

  predicate Enabled(w: Writer, step: Step) {
    && Queues(w.q) && w.at < SLOTS
    && match step
       case Take => w.inFlight.None? && w.queuedItems > 0
       case Written(_) => w.inFlight.Some?
       case _ => true
  }

  function Do(w: Writer, step: Step): Writer
    requires Enabled(w, step)
  {
    match step
    case Submit(item, entering, gaveUp) => Enqueue(w, item, entering, gaveUp)
    case Take => TakeNext(w)
    case Written(ok) => Finish(w, ok)
    case StartClosing => BeginClosing(w)
    case Shut => Close(w)
  }

  // ---------------------------------------------------------------- sums over the queues

  function Bytes(s: seq<Item>, n: nat): nat
    requires n <= |s|
  {
    if n == 0 then 0 else Bytes(s, n - 1) + s[n - 1].size
  }

  function TotalItems(q: seq<seq<Item>>, n: nat): nat
    requires n <= |q|
  {
    if n == 0 then 0 else TotalItems(q, n - 1) + |q[n - 1]|
  }

  function TotalBytes(q: seq<seq<Item>>, n: nat): nat
    requires n <= |q|
  {
    if n == 0 then 0 else TotalBytes(q, n - 1) + Bytes(q[n - 1], |q[n - 1]|)
  }

  function Copies(q: seq<seq<Item>>, x: Item, n: nat): nat
    requires n <= |q|
  {
    if n == 0 then 0 else Copies(q, x, n - 1) + multiset(q[n - 1])[x]
  }

  /** Replacing one queue changes each sum by the difference of that queue. */
  lemma {:induction false} SumsUpdate(q: seq<seq<Item>>, p: nat, s: seq<Item>, n: nat)
    requires p < |q| && n <= |q|
    ensures TotalItems(q[p := s], n) == TotalItems(q, n) + if p < n then |s| - |q[p]| else 0
    ensures TotalBytes(q[p := s], n) == TotalBytes(q, n) + if p < n then Bytes(s, |s|) - Bytes(q[p], |q[p]|) else 0
  {
    if n == 0 {
    } else {
      SumsUpdate(q, p, s, n - 1);
    }
  }

  lemma {:induction false} CopiesUpdate(q: seq<seq<Item>>, p: nat, s: seq<Item>, x: Item, n: nat)
    requires p < |q| && n <= |q|
    ensures p < n ==> Copies(q[p := s], x, n) + multiset(q[p])[x] == Copies(q, x, n) + multiset(s)[x]
    ensures p >= n ==> Copies(q[p := s], x, n) == Copies(q, x, n)
  {
    if n == 0 {
    } else {
      CopiesUpdate(q, p, s, x, n - 1);
    }
  }

  lemma CopiesOfOne(s: seq<Item>, y: Item, x: Item)
    ensures multiset(s + [y])[x] == multiset(s)[x] + if x == y then 1 else 0
    ensures multiset([y] + s)[x] == multiset(s)[x] + if x == y then 1 else 0
  {
  }

  lemma {:induction false} BytesFront(s: seq<Item>, more: seq<Item>, n: nat)
    requires n <= |s|
    ensures Bytes(s + more, n) == Bytes(s, n)
  {
    if n == 0 {
    } else {
      BytesFront(s, more, n - 1);
    }
  }

  lemma {:induction false} BytesBack(s: seq<Item>, n: nat)
    requires 0 < n <= |s|
    ensures Bytes(s, n) == s[0].size + Bytes(s[1..], n - 1)
  {
    if n > 1 {
      BytesBack(s, n - 1);
    }
  }

  lemma {:induction false} QueuedCopies(q: seq<seq<Item>>, x: Item, n: nat)
    requires n <= |q|
    ensures multiset(Queued(q, n))[x] == Copies(q, x, n)
  {
    if n == 0 {
    } else {
      QueuedCopies(q, x, n - 1);
    }
  }

  lemma {:induction false} EmptySums(q: seq<seq<Item>>, n: nat)
    requires n <= |q| && forall p :: 0 <= p < n ==> q[p] == []
    ensures TotalItems(q, n) == 0 && TotalBytes(q, n) == 0
  {
    if n == 0 {
    } else {
      EmptySums(q, n - 1);
    }
  }

  lemma {:induction false} NoItemsNoCopies(q: seq<seq<Item>>, x: Item, n: nat)
    requires n <= |q| && TotalItems(q, n) == 0
    ensures Copies(q, x, n) == 0
  {
    if n == 0 {
    } else {
      NoItemsNoCopies(q, x, n - 1);
      assert q[n - 1] == [];
    }
  }

  // ---------------------------------------------------------------- invariant

  /** The counters equal the contents and respect the limits. */
  predicate Counted(w: Writer) {
    && Queues(w.q) && w.at < SLOTS
    && w.queuedItems == TotalItems(w.q, |w.q|)
    && w.queuedBytes == TotalBytes(w.q, |w.q|)
    && (w.cfg.maxFrames > 0 ==> w.queuedItems <= w.cfg.maxFrames)
    && (w.cfg.maxBytes > 0 ==> w.queuedBytes <= w.cfg.maxBytes)
  }

  /** Where the copies of `x` are: queued, being written, or released. */
  predicate ConservedAt(w: Writer, x: Item) {
    w.submitted[x] == Copies(w.q, x, |w.q|) + (if w.inFlight == Some(x) then 1 else 0) + multiset(w.released)[x]
  }

  /** Every submitted frame is in exactly one place. */
  ghost predicate Conserved(w: Writer) {
    Queues(w.q) && forall x :: ConservedAt(w, x)
  }

  /** Every submission is a frame of its own: stamps are fresh. */
  ghost predicate Unique(w: Writer) {
    forall x :: w.submitted[x] <= 1 && (w.submitted[x] == 1 ==> x.stamp < w.clock)
  }

  /** Stamps of one queue ascend from at least `low` and stay below `high`. */
  predicate Ascending(s: seq<Item>, p: nat, low: nat, high: nat) {
    && (forall i :: 0 <= i < |s| ==> low <= s[i].stamp < high && s[i].priority == p)
    && (forall i, j :: 0 <= i < j < |s| ==> s[i].stamp < s[j].stamp)
  }

  /** Frames already taken, in order. */
  function Taken(w: Writer): seq<Item> {
    w.wire + if w.inFlight.Some? then [w.inFlight.value] else []
  }

  /** Same-priority frames are taken in the order in which they were accepted. */
  predicate InOrder(taken: seq<Item>) {
    forall i, j :: 0 <= i < j < |taken| && taken[i].priority == taken[j].priority ==> taken[i].stamp < taken[j].stamp
  }

  predicate Behind(taken: seq<Item>, s: seq<Item>, p: nat) {
    forall i, j :: 0 <= i < |taken| && 0 <= j < |s| && taken[i].priority == p ==> taken[i].stamp < s[j].stamp
  }

  predicate Ordered(w: Writer) {
    && Queues(w.q)
    && InOrder(Taken(w))
    && (forall i :: 0 <= i < |Taken(w)| ==> Taken(w)[i].stamp < w.clock)
    && (forall p :: 0 <= p < PRIORITIES ==> Ascending(w.q[p], p, 0, w.clock) && Behind(Taken(w), w.q[p], p))
  }

  /** Once closing has begun only critical control frames are queued; once closed, none. */
  predicate ClosingRespected(w: Writer) {
    && Queues(w.q)
    && (w.closed ==> forall p :: 0 <= p < PRIORITIES ==> w.q[p] == [])
    && (w.controlOnly ==> forall p, i :: 0 <= p < PRIORITIES && 0 <= i < |w.q[p]| ==> CriticalControl(w.q[p][i]))
  }

  ghost predicate Inv(w: Writer) {
    Counted(w) && Conserved(w) && Unique(w) && Ordered(w) && ClosingRespected(w)
  }

  // ---------------------------------------------------------------- enqueue

  lemma EnqueueCounted(w: Writer, item: Item, entering: bool, gaveUp: bool)
    requires Counted(w)
    ensures Counted(Enqueue(w, item, entering, gaveUp))
  {
    if EnqueueOutcome(w, item, entering, gaveUp) == Accepted {
      var x := Clamp(item).(stamp := w.clock);
      var s := w.q[x.priority];
      SumsUpdate(w.q, x.priority, s + [x], |w.q|);
      BytesFront(s, [x], |s|);
    }
  }

  lemma EnqueueConserved(w: Writer, item: Item, entering: bool, gaveUp: bool, x: Item)
    requires Queues(w.q) && ConservedAt(w, x)
    ensures ConservedAt(Enqueue(w, item, entering, gaveUp), x)
  {
    match EnqueueOutcome(w, item, entering, gaveUp) {
      case Accepted =>
        var y := Clamp(item).(stamp := w.clock);
        CopiesUpdate(w.q, y.priority, w.q[y.priority] + [y], x, |w.q|);
        CopiesOfOne(w.q[y.priority], y, x);
      case Released => CopiesOfOne(w.released, Clamp(item).(stamp := w.clock), x);
      case Waits =>
    }
  }

  lemma AppendOrdered(taken: seq<Item>, s: seq<Item>, p: nat, clock: nat, x: Item)
    requires Ascending(s, p, 0, clock) && Behind(taken, s, p) && x.stamp == clock && x.priority == p
    requires forall i :: 0 <= i < |taken| ==> taken[i].stamp < clock
    ensures Ascending(s + [x], p, 0, clock + 1) && Behind(taken, s + [x], p)
  {
  }

  lemma EnqueueOrdered(w: Writer, item: Item, entering: bool, gaveUp: bool)
    requires Ordered(w)
    ensures Ordered(Enqueue(w, item, entering, gaveUp))
  {
    var w' := Enqueue(w, item, entering, gaveUp);
    assert Taken(w') == Taken(w);
    if EnqueueOutcome(w, item, entering, gaveUp) == Accepted {
      var x := Clamp(item).(stamp := w.clock);
      forall p | 0 <= p < PRIORITIES ensures Ascending(w'.q[p], p, 0, w'.clock) && Behind(Taken(w'), w'.q[p], p) {
        assert Ascending(w.q[p], p, 0, w.clock) && Behind(Taken(w), w.q[p], p);
        if p == x.priority {
          AppendOrdered(Taken(w), w.q[p], p, w.clock, x);
        }
      }
    }
  }

  lemma EnqueueUnique(w: Writer, item: Item, entering: bool, gaveUp: bool)
    requires Unique(w) && Queues(w.q)
    ensures Unique(Enqueue(w, item, entering, gaveUp))
  {
    var w' := Enqueue(w, item, entering, gaveUp);
    forall x ensures w'.submitted[x] <= 1 && (w'.submitted[x] == 1 ==> x.stamp < w'.clock) {
      assert w.submitted[x] <= 1 && (w.submitted[x] == 1 ==> x.stamp < w.clock);
    }
  }

  lemma EnqueueClosing(w: Writer, item: Item, entering: bool, gaveUp: bool)
    requires ClosingRespected(w)
    ensures ClosingRespected(Enqueue(w, item, entering, gaveUp))
  {
  }

  // ---------------------------------------------------------------- pop

  /** What a successful pop does to the queues: it takes the head of one of them. */
  lemma {:induction false} PopTakesHead(q: seq<seq<Item>>, at: nat, tries: nat, used: nat)
    requires Queues(q) && at < SLOTS
    ensures Pop(q, at, tries, used).at < SLOTS
    ensures var r := Pop(q, at, tries, used); r.Popped? ==>
      && r.from < PRIORITIES && q[r.from] != [] && r.item == q[r.from][0]
      && r.q == q[r.from := q[r.from][1..]]
    decreases tries
  {
    if tries > 0 && q[PriorityAt(at)] == [] {
      PopTakesHead(q, Wrap(at + 1), tries - 1, used + 1);
    }
  }

  lemma TakeCounted(w: Writer)
    requires Counted(w)
    ensures Counted(TakeNext(w))
  {
    PopTakesHead(w.q, w.at, FullRound(), 0);
    var r := Pop(w.q, w.at, FullRound(), 0);
    if r.Popped? {
      var s := w.q[r.from];
      SumsUpdate(w.q, r.from, s[1..], |w.q|);
      BytesBack(s, |s|);
      HeadCounted(w.q, r.from, |w.q|);
    }
  }

  lemma {:induction false} HeadCounted(q: seq<seq<Item>>, p: nat, n: nat)
    requires p < n <= |q|
    ensures TotalItems(q, n) >= |q[p]| && TotalBytes(q, n) >= Bytes(q[p], |q[p]|)
  {
    if p < n - 1 {
      HeadCounted(q, p, n - 1);
    }
  }

  lemma TakeConserved(w: Writer, x: Item)
    requires Queues(w.q) && w.at < SLOTS && w.inFlight.None? && ConservedAt(w, x)
    ensures ConservedAt(TakeNext(w), x)
  {
    PopTakesHead(w.q, w.at, FullRound(), 0);
    var r := Pop(w.q, w.at, FullRound(), 0);
    if r.Popped? {
      var s := w.q[r.from];
      assert s == [s[0]] + s[1..];
      CopiesOfOne(s[1..], s[0], x);
      CopiesUpdate(w.q, r.from, s[1..], x, |w.q|);
    }
  }

  lemma TakeHeadOrdered(taken: seq<Item>, s: seq<Item>, p: nat, clock: nat)
    requires s != [] && Ascending(s, p, 0, clock) && Behind(taken, s, p) && InOrder(taken)
    ensures Ascending(s[1..], p, 0, clock) && Behind(taken + [s[0]], s[1..], p) && InOrder(taken + [s[0]])
  {
  }

  lemma OtherBehind(taken: seq<Item>, x: Item, s: seq<Item>, p: nat)
    requires Behind(taken, s, p) && x.priority != p
    ensures Behind(taken + [x], s, p)
  {
  }

  lemma TakeOrdered(w: Writer)
    requires Ordered(w) && w.at < SLOTS && w.inFlight.None?
    ensures Ordered(TakeNext(w))
  {
    PopTakesHead(w.q, w.at, FullRound(), 0);
    var r := Pop(w.q, w.at, FullRound(), 0);
    var w' := TakeNext(w);
    if r.Popped? {
      assert Ascending(w.q[r.from], r.from, 0, w.clock) && Behind(Taken(w), w.q[r.from], r.from);
      assert Taken(w') == Taken(w) + [r.item];
      TakeHeadOrdered(Taken(w), w.q[r.from], r.from, w.clock);
      forall p | 0 <= p < PRIORITIES ensures Ascending(w'.q[p], p, 0, w'.clock) && Behind(Taken(w'), w'.q[p], p) {
        assert Ascending(w.q[p], p, 0, w.clock) && Behind(Taken(w), w.q[p], p);
        if p != r.from {
          OtherBehind(Taken(w), r.item, w.q[p], p);
        }
      }
    } else {
      assert Taken(w') == Taken(w);
    }
  }

  lemma TakeClosing(w: Writer)
    requires ClosingRespected(w) && w.at < SLOTS
    ensures ClosingRespected(TakeNext(w))
  {
    PopTakesHead(w.q, w.at, FullRound(), 0);
  }

  // ---------------------------------------------------------------- release

  lemma ReleaseConserved(w: Writer, x: Item)
    requires Queues(w.q) && ConservedAt(w, x)
    ensures ConservedAt(ReleaseQueued(w), x)
  {
    var w' := ReleaseQueued(w);
    QueuedCopies(w.q, x, |w.q|);
    EmptySums(w'.q, |w'.q|);
    NoItemsNoCopies(w'.q, x, |w'.q|);
  }

  lemma ReleaseOrdered(w: Writer)
    requires Ordered(w)
    ensures Ordered(ReleaseQueued(w))
  {
    assert Taken(ReleaseQueued(w)) == Taken(w);
  }

  lemma ReleaseInv(w: Writer)
    requires Counted(w) && Conserved(w) && Unique(w) && Ordered(w)
    ensures Inv(ReleaseQueued(w))
  {
    var w' := ReleaseQueued(w);
    EmptySums(w'.q, |w'.q|);
    ReleaseOrdered(w);
    forall x ensures ConservedAt(w', x) {
      assert ConservedAt(w, x);
      ReleaseConserved(w, x);
    }
  }

  lemma ReturnedConserved(w: Writer, x: Item)
    requires ConservedAt(w, x) && w.inFlight.Some?
    ensures ConservedAt(w.(inFlight := None, released := w.released + [w.inFlight.value]), x)
  {
    CopiesOfOne(w.released, w.inFlight.value, x);
  }

  lemma ReturnedOrdered(w: Writer)
    requires Ordered(w) && w.inFlight.Some?
    ensures Ordered(w.(inFlight := None)) && Ordered(w.(inFlight := None, wire := w.wire + [w.inFlight.value]))
  {
    assert Taken(w.(inFlight := None)) == Taken(w)[..|w.wire|];
    assert Taken(w.(inFlight := None, wire := w.wire + [w.inFlight.value])) == Taken(w);
  }

  lemma WrittenInv(w: Writer, ok: bool)
    requires Inv(w) && w.inFlight.Some?
    ensures Inv(Finish(w, ok))
  {
    var item := w.inFlight.value;
    var w1 := w.(inFlight := None, released := w.released + [item]);
    ReturnedOrdered(w);
    forall x ensures ConservedAt(w1, x) {
      assert ConservedAt(w, x);
      ReturnedConserved(w, x);
    }
    if ok {
      assert Finish(w, ok) == w1.(wire := w1.wire + [item]);
      assert Ordered(Finish(w, ok)) by {
        assert Taken(Finish(w, ok)) == Taken(w);
      }
      forall x ensures ConservedAt(Finish(w, ok), x) {
        assert ConservedAt(w1, x);
      }
    } else {
      assert Ordered(w1.(closed := true)) by {
        assert Taken(w1.(closed := true)) == Taken(w.(inFlight := None));
      }
      forall x ensures ConservedAt(w1.(closed := true), x) {
        assert ConservedAt(w1, x);
      }
      ReleaseInv(w1.(closed := true));
    }
  }

  lemma ClosingInv(w: Writer, w1: Writer)
    requires Inv(w) && w1 == w.(controlOnly := w1.controlOnly, closed := w1.closed)
    ensures Inv(ReleaseQueued(w1))
  {
    assert Taken(w1) == Taken(w);
    forall x ensures ConservedAt(w1, x) {
      assert ConservedAt(w, x);
    }
    ReleaseInv(w1);
  }

  lemma SubmitInv(w: Writer, item: Item, entering: bool, gaveUp: bool)
    requires Inv(w)
    ensures Inv(Enqueue(w, item, entering, gaveUp))
  {
    EnqueueCounted(w, item, entering, gaveUp);
    EnqueueOrdered(w, item, entering, gaveUp);
    EnqueueClosing(w, item, entering, gaveUp);
    EnqueueUnique(w, item, entering, gaveUp);
    forall x ensures ConservedAt(Enqueue(w, item, entering, gaveUp), x) {
      assert ConservedAt(w, x);
      EnqueueConserved(w, item, entering, gaveUp, x);
    }
  }

  lemma TakeInv(w: Writer)
    requires Inv(w) && w.inFlight.None?
    ensures Inv(TakeNext(w))
  {
    TakeCounted(w);
    TakeOrdered(w);
    TakeClosing(w);
    forall x ensures ConservedAt(TakeNext(w), x) {
      assert ConservedAt(w, x);
      TakeConserved(w, x);
    }
  }

  lemma StepInv(w: Writer, step: Step)
    requires Inv(w) && Enabled(w, step)
    ensures Inv(Do(w, step))
  {
    match step {
      case Submit(item, entering, gaveUp) => SubmitInv(w, item, entering, gaveUp);
      case Take => TakeInv(w);
      case Written(ok) => WrittenInv(w, ok);
      case StartClosing => ClosingInv(w, w.(controlOnly := true));
      case Shut => ClosingInv(w, w.(closed := true));
    }
  }

  // ---------------------------------------------------------------- whole runs

  predicate Initial(w: Writer) {
    && w.q == [[], [], [], [], []] && w.queuedItems == 0 && w.queuedBytes == 0 && w.at == 0
    && !w.controlOnly && !w.closed && w.inFlight == None
    && w.clock == 0 && w.submitted == multiset{} && w.wire == [] && w.released == []
  }

  predicate StepAt(run: seq<Writer>, steps: seq<Step>, i: nat)
    requires i < |steps| < |run|
  {
    Enabled(run[i], steps[i]) && run[i + 1] == Do(run[i], steps[i])
  }

  predicate IsRun(run: seq<Writer>, steps: seq<Step>) {
    && |run| == |steps| + 1
    && Initial(run[0])
    && forall i :: 0 <= i < |steps| ==> StepAt(run, steps, i)
  }

  lemma InitialInv(w: Writer)
    requires Initial(w)
    ensures Inv(w)
  {
    hide TotalItems, TotalBytes, Copies;
    EmptySums(w.q, |w.q|);
    forall x ensures ConservedAt(w, x) {
      NoItemsNoCopies(w.q, x, |w.q|);
    }
  }

  lemma {:induction false} InvInEveryRun(run: seq<Writer>, steps: seq<Step>, n: nat)
    requires IsRun(run, steps) && n <= |steps|
    ensures Inv(run[n])
  {
    if n == 0 {
      InitialInv(run[0]);
    } else {
      InvInEveryRun(run, steps, n - 1);
      assert StepAt(run, steps, n - 1);
      StepInv(run[n - 1], steps[n - 1]);
    }
  }

  /** Exactly-once disposal: no frame is released twice, and when the writer is idle every
      submitted frame has been released, across writes, write failures and both ways of closing. */
  lemma EveryFrameReleasedOnce(run: seq<Writer>, steps: seq<Step>, n: nat, item: Item)
    requires IsRun(run, steps) && n <= |steps|
    ensures multiset(run[n].released)[item] <= run[n].submitted[item] <= 1
    ensures run[n].inFlight.None? && run[n].queuedItems == 0 ==>
      multiset(run[n].released)[item] == run[n].submitted[item]
  {
    InvInEveryRun(run, steps, n);
    assert ConservedAt(run[n], item);
    assert run[n].submitted[item] <= 1;
    if run[n].queuedItems == 0 {
      NoItemsNoCopies(run[n].q, item, |run[n].q|);
    }
  }

  /** Frames of one priority reach the wire in the order in which they were accepted. */
  lemma WireOrder(run: seq<Writer>, steps: seq<Step>, n: nat, i: nat, j: nat)
    requires IsRun(run, steps) && n <= |steps|
    requires i < j < |run[n].wire| && run[n].wire[i].priority == run[n].wire[j].priority
    ensures run[n].wire[i].stamp < run[n].wire[j].stamp
  {
    InvInEveryRun(run, steps, n);
    assert Taken(run[n])[i] == run[n].wire[i] && Taken(run[n])[j] == run[n].wire[j];
  }

  /** After `beginClosing` only critical control frames are popped. */
  lemma OnlyControlAfterClosing(run: seq<Writer>, steps: seq<Step>, n: nat)
    requires IsRun(run, steps) && n < |steps| && steps[n] == Take && run[n].controlOnly
    requires run[n + 1].inFlight.Some?
    ensures CriticalControl(run[n + 1].inFlight.value)
  {
    InvInEveryRun(run, steps, n);
    assert StepAt(run, steps, n);
    PopTakesHead(run[n].q, run[n].at, FullRound(), 0);
  }

  /** The queues never exceed their limits, and a pop succeeds whenever something is queued. */
  lemma BoundedAndLive(run: seq<Writer>, steps: seq<Step>, n: nat)
    requires IsRun(run, steps) && n <= |steps|
    ensures run[n].cfg.maxFrames > 0 ==> TotalItems(run[n].q, |run[n].q|) <= run[n].cfg.maxFrames
    ensures run[n].cfg.maxBytes > 0 ==> TotalBytes(run[n].q, |run[n].q|) <= run[n].cfg.maxBytes
    ensures run[n].at < SLOTS && Queues(run[n].q)
    ensures Pop(run[n].q, run[n].at, FullRound(), 0).Popped? <==> run[n].queuedItems > 0
  {
    InvInEveryRun(run, steps, n);
    PopSucceedsIff(run[n].q, run[n].at);
    if AllEmpty(run[n].q) {
      EmptySums(run[n].q, |run[n].q|);
    } else {
      var p :| 0 <= p < PRIORITIES && run[n].q[p] != [];
      HeadCounted(run[n].q, p, |run[n].q|);
    }
  }
}
