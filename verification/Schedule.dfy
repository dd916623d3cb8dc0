/** The 16-slot weighted priority schedule of the session writer (writer.go) and the share of
    the wire it guarantees to each priority. */
module Schedule {
  import opened RingQueue

  const PRIORITIES := 5
  const SLOTS := 16

  /** A position of the schedule that runs on past the end of the table, as a table index. */
  function Wrap(pos: nat): nat
    ensures Wrap(pos) < SLOTS
  {
    pos % 16
  }

  lemma WrapAdd(pos: nat, k: nat)
    ensures Wrap(Wrap(pos) + k) == Wrap(pos + k)
    ensures Wrap(pos + SLOTS) == Wrap(pos)
    ensures pos < SLOTS ==> Wrap(pos) == pos
  {
    var rest := pos % 16 + k;
    assert pos == 16 * (pos / 16) + pos % 16;
    assert rest == 16 * (rest / 16) + rest % 16;
    assert pos + k == 16 * (pos / 16 + rest / 16) + rest % 16;
  }

  /** `writerPrioritySchedule`. */
  const SCHEDULE: seq<nat> := [0, 0, 0, 0, 0, 0, 0, 0, 1, 1, 1, 1, 2, 2, 3, 4]

  /** One look at every slot. */
  function FullRound(): (n: nat)
    ensures n == SLOTS
  {
    |SCHEDULE|
  }

  lemma ScheduleIsTable(slot: nat)
    requires slot < SLOTS
    ensures SCHEDULE[slot] == PriorityAt(slot)
  {
  }

  /** The entries of the schedule, run by run. */
  function PriorityAt(slot: nat): nat
    requires slot < SLOTS
    ensures PriorityAt(slot) < PRIORITIES
  {
    if slot < 8 then 0 else if slot < 12 then 1 else if slot < 14 then 2 else if slot == 14 then 3 else 4
  }

  function Weight(p: nat): nat {
    match p
    case 0 => 8
    case 1 => 4
    case 2 => 2
    case _ => 1
  }

  predicate Queues(q: seq<seq<Item>>) {
    |q| == PRIORITIES
  }

  /** `from` is the priority served and `used` the number of slots passed to find it. */
  datatype Popped = Popped(item: Item, from: nat, used: nat, q: seq<seq<Item>>, at: nat) | Nothing(at: nat)

  /** `popLocked`, with `tries` slots left to look at and `used` already passed. */
  function Pop(q: seq<seq<Item>>, at: nat, tries: nat, used: nat): Popped
    requires Queues(q) && at < SLOTS
    decreases tries
  {
    if tries == 0 then Nothing(at)
    else
      var p := PriorityAt(at);
      var next := Wrap(at + 1);
      if q[p] != [] then Popped(q[p][0], p, used + 1, q[p := q[p][1..]], next)
      else Pop(q, next, tries - 1, used + 1)
  }

  /** One look at one slot. */
  lemma PopStep(q: seq<seq<Item>>, at: nat, tries: nat, used: nat)
    requires Queues(q) && at < SLOTS && tries > 0
    ensures var p := PriorityAt(at);
      Pop(q, at, tries, used) ==
      if q[p] != [] then Popped(q[p][0], p, used + 1, q[p := q[p][1..]], Wrap(at + 1))
      else Pop(q, Wrap(at + 1), tries - 1, used + 1)
  {
  }

  lemma PopEnds(q: seq<seq<Item>>, at: nat, used: nat)
    requires Queues(q) && at < SLOTS
    ensures Pop(q, at, 0, used) == Nothing(at)
  {
  }

  /** How many of the `n` slots from position `from` on belong to priority `p`; positions run
      on past the end of the table. */
  function Share(p: nat, from: nat, n: nat): nat {
    if n == 0 then 0 else Share(p, from, n - 1) + if PriorityAt(Wrap(from + n - 1)) == p then 1 else 0
  }

  lemma {:induction false} ShareFromFront(p: nat, from: nat, n: nat)
    ensures Share(p, from, n + 1) == Share(p, from + 1, n) + if PriorityAt(Wrap(from)) == p then 1 else 0
  {
    if n > 0 {
      ShareFromFront(p, from, n - 1);
    } else {
      assert Share(p, from, 1) == Share(p, from, 0) + if PriorityAt(Wrap(from)) == p then 1 else 0;
    }
  }

  lemma {:induction false} ShareSplits(p: nat, from: nat, m: nat, n: nat)
    ensures Share(p, from, m + n) == Share(p, from, m) + Share(p, from + m, n)
  {
    if n == 0 {
    } else {
      ShareSplits(p, from, m, n - 1);
    }
  }

  lemma FirstRound(p: nat)
    requires p < PRIORITIES
    ensures Share(p, 0, SLOTS) == Weight(p)
  {
    assert Share(p, 0, 4) == if p == 0 then 4 else 0;
    assert Share(p, 0, 8) == if p == 0 then 8 else 0;
    assert Share(p, 0, 12) == if p == 0 then 8 else if p == 1 then 4 else 0;
    assert Share(p, 0, 14) == if p == 0 then 8 else if p == 1 then 4 else if p == 2 then 2 else 0;
  }

  /** Wherever a round of 16 slots starts, each priority owns exactly its weight in it. */
  lemma {:induction false} AnyRound(p: nat, from: nat)
    requires p < PRIORITIES
    ensures Share(p, from, SLOTS) == Weight(p)
  {
    if from == 0 {
      FirstRound(p);
    } else {
      AnyRound(p, from - 1);
      ShareFromFront(p, from - 1, SLOTS - 1);
      WrapAdd(from - 1, 0);
    }
  }

  lemma ShareOfLongStretch(p: nat, from: nat, n: nat)
    requires p < PRIORITIES && n >= SLOTS
    ensures Share(p, from, n) >= Weight(p)
  {
    AnyRound(p, from);
    ShareSplits(p, from, SLOTS, n - SLOTS);
  }

  /** Passing one slot of the table. */
  lemma ShareStep(p: nat, at: nat, n: nat)
    requires at < SLOTS
    ensures Share(p, at, n + 1) == Share(p, Wrap(at + 1), n) + if PriorityAt(at) == p then 1 else 0
    ensures Wrap(Wrap(at + 1) + n) == Wrap(at + (n + 1))
  {
    ShareFromFront(p, at, n);
    SharePeriodic(p, at + 1, n);
    WrapAdd(at, 0);
    WrapAdd(at + 1, n);
  }

  /** Of the slots a pop passes while queue `p` waits, those of `p` number one if `p` was served
      and none otherwise. */
  lemma {:induction false} PopAccount(q: seq<seq<Item>>, at: nat, tries: nat, used: nat, p: nat)
    requires Queues(q) && at < SLOTS && p < PRIORITIES && q[p] != []
    ensures var r := Pop(q, at, tries, used);
      && (r.Popped? ==>
            && used < r.used <= used + tries && r.from < PRIORITIES
            && Share(p, at, r.used - used) == (if r.from == p then 1 else 0)
            && r.at == Wrap(at + (r.used - used)))
      && (r.Nothing? ==> Share(p, at, tries) == 0)
    decreases tries
  {
    if tries == 0 {
    } else {
      var next := Wrap(at + 1);
      if q[PriorityAt(at)] == [] {
        hide Wrap, PriorityAt;
        PopAccount(q, next, tries - 1, used + 1, p);
        var r := Pop(q, at, tries, used);
        ShareStep(p, at, if r.Popped? then r.used - used - 1 else tries - 1);
      } else {
        ShareStep(p, at, 0);
      }
    }
  }

  lemma {:induction false} SharePeriodic(p: nat, from: nat, n: nat)
    ensures Share(p, Wrap(from), n) == Share(p, from, n)
  {
    if n == 0 {
    } else {
      SharePeriodic(p, from, n - 1);
      WrapAdd(from, n - 1);
    }
  }

  predicate AllEmpty(q: seq<seq<Item>>)
    requires Queues(q)
  {
    forall p :: 0 <= p < PRIORITIES ==> q[p] == []
  }

  lemma {:induction false} PopOfNothing(q: seq<seq<Item>>, at: nat, tries: nat, used: nat)
    requires Queues(q) && at < SLOTS && AllEmpty(q)
    ensures Pop(q, at, tries, used).Nothing?
    decreases tries
  {
    if tries == 0 {
    } else {
      PopOfNothing(q, Wrap(at + 1), tries - 1, used + 1);
    }
  }

  /** A pop comes back empty-handed exactly when every queue is empty. */
  lemma PopSucceedsIff(q: seq<seq<Item>>, at: nat)
    requires Queues(q) && at < SLOTS
    ensures Pop(q, at, FullRound(), 0).Popped? <==> !AllEmpty(q)
  {
    if AllEmpty(q) {
      PopOfNothing(q, at, FullRound(), 0);
    } else {
      var p :| 0 <= p < PRIORITIES && q[p] != [];
      PopAccount(q, at, FullRound(), 0, p);
      AnyRound(p, at);
    }
  }
}
