/** The rate limiter of a session (incoming.go): counters that restart with a window of one second
    at the first frame that finds the old window over. */
module RateLimit {
  import opened Base

  /** One second, in the nanoseconds of the clock. */
  const SECOND: int := 1_000_000_000

  /** Every frame counts with at least its header. */
  const HEADER: nat := 40

  /** Zero or less means unlimited. */
  datatype Config = Config(maxFrames: int, maxBytes: nat)

  datatype Limiter = Limiter(start: Option<int>, frames: nat, bytes: nat)

  const FRESH := Limiter(None, 0, 0)

  datatype Arrival = Arrival(now: int, payload: nat)

  function Cost(a: Arrival): nat {
    HEADER + a.payload
  }

  predicate Restarts(l: Limiter, now: int) {
    l.start.None? || now - l.start.value >= SECOND
  }

  function Count(l: Limiter, a: Arrival): Limiter {
    var l := if Restarts(l, a.now) then Limiter(Some(a.now), 0, 0) else l;
    l.(frames := l.frames + 1, bytes := l.bytes + Cost(a))
  }

  predicate Accepts(c: Config, l: Limiter) {
    && (c.maxFrames > 0 ==> l.frames <= c.maxFrames)
    && (c.maxBytes > 0 ==> l.bytes <= c.maxBytes)
  }

  class RateLimiter {
    const cfg: Config
    var windowStart: Option<int>
    var frames: nat
    var bytes: nat

    ghost function View(): Limiter
      reads this
    {
      Limiter(windowStart, frames, bytes)
    }

    constructor (cfg: Config)
      ensures View() == FRESH && this.cfg == cfg
    {
      this.cfg := cfg;
      windowStart, frames, bytes := None, 0, 0;
    }

    /** `checkRateLimit`. */
    method Check(a: Arrival) returns (ok: bool)
      modifies this
      ensures View() == Count(old(View()), a) && ok == Accepts(cfg, View())
    {
      if windowStart.None? || a.now - windowStart.value >= SECOND {
        windowStart := Some(a.now);
        frames := 0;
        bytes := 0;
      }
      frames := frames + 1;
      bytes := bytes + 40 + a.payload;
      if cfg.maxFrames > 0 && frames > cfg.maxFrames {
        return false;
      }
      if cfg.maxBytes > 0 && bytes > cfg.maxBytes {
        return false;
      }
      return true;
    }
  }

  // ---------------------------------------------------------------- runs

  /** The limiter after the first `n` arrivals. */
  function After(run: seq<Arrival>, n: nat): Limiter
    requires n <= |run|
  {
    if n == 0 then FRESH else Count(After(run, n - 1), run[n - 1])
  }

  predicate AcceptedAt(c: Config, run: seq<Arrival>, i: nat)
    requires i < |run|
  {
    Accepts(c, After(run, i + 1))
  }

  predicate Ordered(run: seq<Arrival>) {
    forall i, j :: 0 <= i < j < |run| ==> run[i].now <= run[j].now
  }

  predicate Within(from: int, now: int) {
    from <= now < from + SECOND
  }

  /** Frames accepted in the second that starts at `from`, and their bytes. */
  function FramesIn(c: Config, run: seq<Arrival>, from: int, n: nat): nat
    requires n <= |run|
  {
    if n == 0 then 0
    else FramesIn(c, run, from, n - 1) + if Within(from, run[n - 1].now) && AcceptedAt(c, run, n - 1) then 1 else 0
  }

  function BytesIn(c: Config, run: seq<Arrival>, from: int, n: nat): nat
    requires n <= |run|
  {
    if n == 0 then 0
    else BytesIn(c, run, from, n - 1) + if Within(from, run[n - 1].now) && AcceptedAt(c, run, n - 1)
        then Cost(run[n - 1]) else 0
  }

  /** What a window that opened before the second can have left in it: the opening frame, which
      lies outside, has used up `first` of `max`. */
  function Leftover(max: nat, first: nat): nat {
    if max >= first then max - first else 0
  }

  /** How much can have been accepted so far (`got`), given where the current window starts and
      how much it has counted. */
  predicate Tally(start: Option<int>, from: int, got: nat, counted: nat, max: nat, first: nat) {
    match start
    case None => got == 0
    case Some(w) =>
      if w < from then got + first <= counted && (got == 0 || got + first <= max)
      else if w < from + SECOND then got <= Leftover(max, first) + Min(counted, max)
      else got <= Leftover(max, first) + max
  }

  /** Nothing from the second has arrived while the clock has not reached it. */
  predicate TallyInv(c: Config, run: seq<Arrival>, from: int, n: nat)
    requires n <= |run|
  {
    var l := After(run, n);
    && (n > 0 && run[n - 1].now < from ==> FramesIn(c, run, from, n) == 0 && BytesIn(c, run, from, n) == 0)
    && (l.start.Some? ==> n > 0 && l.start.value <= run[n - 1].now < l.start.value + SECOND)
    && (l.start.None? ==> n == 0)
    && (c.maxFrames > 0 ==> Tally(l.start, from, FramesIn(c, run, from, n), l.frames, c.maxFrames, 1))
    && (c.maxBytes > 0 ==> Tally(l.start, from, BytesIn(c, run, from, n), l.bytes, c.maxBytes, HEADER))
  }

  /** One arrival of cost `cost`. */
  lemma TallyStep(start: Option<int>, from: int, got: nat, counted: nat, max: nat, first: nat, now: int,
      cost: nat, accepted: bool)
    requires Tally(start, from, got, counted, max, first) && cost >= first && max > 0
    requires start.Some? ==> start.value <= now
    requires now < from ==> got == 0
    ensures var restart := start.None? || now - start.value >= SECOND;
      var counted' := if restart then cost else counted + cost;
      var got' := got + if Within(from, now) && accepted && counted' <= max then cost else 0;
      Tally(if restart then Some(now) else start, from, got', counted', max, first)
  {
  }

  lemma {:induction false} TallyHolds(c: Config, run: seq<Arrival>, from: int, n: nat)
    requires Ordered(run) && n <= |run|
    ensures TallyInv(c, run, from, n)
  {
    if n == 0 {
    } else {
      TallyHolds(c, run, from, n - 1);
      NothingBefore(c, run, from, n);
      if c.maxFrames > 0 {
        FramesStep(c, run, from, n);
      }
      if c.maxBytes > 0 {
        BytesStep(c, run, from, n);
      }
    }
  }

  lemma NothingBefore(c: Config, run: seq<Arrival>, from: int, n: nat)
    requires Ordered(run) && 0 < n <= |run| && TallyInv(c, run, from, n - 1)
    ensures run[n - 1].now < from ==> FramesIn(c, run, from, n) == 0 && BytesIn(c, run, from, n) == 0
    ensures var l := After(run, n); l.start.Some? && l.start.value <= run[n - 1].now < l.start.value + SECOND
  {
    hide Tally, Accepts;
    assert n > 1 ==> run[n - 2].now <= run[n - 1].now;
  }

  lemma FramesStep(c: Config, run: seq<Arrival>, from: int, n: nat)
    requires Ordered(run) && 0 < n <= |run| && TallyInv(c, run, from, n - 1) && c.maxFrames > 0
    ensures Tally(After(run, n).start, from, FramesIn(c, run, from, n), After(run, n).frames, c.maxFrames, 1)
  {
    hide Tally;
    assert n > 1 ==> run[n - 2].now <= run[n - 1].now;
    var l := After(run, n - 1);
    TallyStep(l.start, from, FramesIn(c, run, from, n - 1), l.frames, c.maxFrames, 1, run[n - 1].now, 1,
              AcceptedAt(c, run, n - 1));
  }

  lemma BytesStep(c: Config, run: seq<Arrival>, from: int, n: nat)
    requires Ordered(run) && 0 < n <= |run| && TallyInv(c, run, from, n - 1) && c.maxBytes > 0
    ensures Tally(After(run, n).start, from, BytesIn(c, run, from, n), After(run, n).bytes, c.maxBytes, HEADER)
  {
    hide Tally;
    assert n > 1 ==> run[n - 2].now <= run[n - 1].now;
    var l := After(run, n - 1);
    TallyStep(l.start, from, BytesIn(c, run, from, n - 1), l.bytes, c.maxBytes, HEADER, run[n - 1].now,
              Cost(run[n - 1]), AcceptedAt(c, run, n - 1));
  }

  /** The real bound: a second can overlap two windows, but only one of them can have opened in
      it, so the opening frame of the other is not counted twice. */
  lemma RateBound(c: Config, run: seq<Arrival>, from: int)
    requires Ordered(run)
    ensures c.maxFrames > 0 ==> FramesIn(c, run, from, |run|) <= 2 * c.maxFrames - 1
    ensures c.maxBytes > 0 ==> BytesIn(c, run, from, |run|) <= 2 * c.maxBytes
    ensures c.maxBytes >= HEADER ==> BytesIn(c, run, from, |run|) <= 2 * c.maxBytes - HEADER
  {
    TallyHolds(c, run, from, |run|);
  }

  // ---------------------------------------------------------------- the bound is exact

  /** One frame opens a window; the rest of its allowance comes at the end of the window, and the
      next window's whole allowance right after it. */
  function Burst(max: nat, n: nat): (run: seq<Arrival>)
    ensures |run| == n
    ensures forall i :: 0 <= i < n ==> run[i] == Arrival(if i == 0 then 0 else if i < max then SECOND - 1
        else SECOND, 0)
  {
    if n == 0 then []
    else Burst(max, n - 1) + [Arrival(if n == 1 then 0 else if n - 1 < max then SECOND - 1 else SECOND, 0)]
  }

  lemma {:induction false} BurstCounts(max: nat, run: seq<Arrival>, n: nat)
    requires max > 0 && run == Burst(max, 2 * max) && n <= 2 * max
    ensures 0 < n <= max ==> After(run, n).start == Some(0) && After(run, n).frames == n
    ensures n > max ==> After(run, n).start == Some(SECOND) && After(run, n).frames == n - max
    ensures FramesIn(Config(max, 0), run, SECOND - 1, n) == if n == 0 then 0 else n - 1
  {
    if n == 0 {
    } else {
      BurstCounts(max, run, n - 1);
    }
  }

  /** For every limit there is a run that reaches the bound. */
  lemma RateBoundIsTight(max: nat)
    requires max > 0
    ensures Ordered(Burst(max, 2 * max))
    ensures FramesIn(Config(max, 0), Burst(max, 2 * max), SECOND - 1, 2 * max) == 2 * max - 1
  {
    BurstCounts(max, Burst(max, 2 * max), 2 * max);
  }

  // ---------------------------------------------------------------- exactly which frames pass

  /** The arrival that opened the window in which arrival `i` falls. */
  function OpenerOf(run: seq<Arrival>, i: nat): (w: nat)
    requires i < |run|
    ensures w <= i
  {
    if i == 0 then 0
    else
      var w := OpenerOf(run, i - 1);
      if run[i].now - run[w].now >= SECOND then i else w
  }

  /** Bytes of the arrivals `a .. b - 1`, headers included. */
  function BytesOf(run: seq<Arrival>, a: nat, b: nat): nat
    requires a <= b <= |run|
    decreases b - a
  {
    if a == b then 0 else BytesOf(run, a, b - 1) + 40 + run[b - 1].payload
  }

  lemma {:induction false} CountersOf(run: seq<Arrival>, i: nat)
    requires i < |run|
    ensures var w := OpenerOf(run, i);
      After(run, i + 1) == Limiter(Some(run[w].now), i - w + 1, BytesOf(run, w, i + 1))
  {
    if i == 0 {
      assert After(run, 0) == FRESH && BytesOf(run, 0, 0) == 0;
    } else {
      CountersOf(run, i - 1);
      assert BytesOf(run, i, i) == 0;
    }
  }

  /** A frame passes exactly if the frames of its window up to it, passed or not, are within both
      limits, a limit of zero being none. */
  lemma AcceptedIff(c: Config, run: seq<Arrival>, i: nat)
    requires i < |run|
    ensures var w := OpenerOf(run, i);
      AcceptedAt(c, run, i) <==>
        && (c.maxFrames <= 0 || i - w + 1 <= c.maxFrames)
        && (c.maxBytes == 0 || BytesOf(run, w, i + 1) <= c.maxBytes)
  {
    CountersOf(run, i);
  }
}
