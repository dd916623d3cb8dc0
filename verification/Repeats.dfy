/** What exactly a nack and a timeout scan put on the wire again, said in terms of chunk numbers,
    instants and retry counts. */
module Repeats {
  import opened Base
  import opened Sending
  import opened Receiving
  import opened Protocol

  /** `at` are places of `p`, in order, and `q` are the chunks that stand there. */
  predicate TakenFrom(q: seq<SentChunk>, p: seq<SentChunk>, at: seq<nat>) {
    && |at| == |q|
    && (forall j :: 0 <= j < |at| ==> at[j] < |p| && q[j] == p[at[j]])
    && (forall i, j :: 0 <= i < j < |at| ==> at[i] < at[j])
  }

  /** All places lie below `n`. */
  predicate Below(at: seq<nat>, n: nat) {
    forall j :: 0 <= j < |at| ==> at[j] < n
  }

  /** Exactly the places below `n` that a pass picks. */
  ghost predicate PicksExactly(p: seq<SentChunk>, k: Pick, n: nat, at: seq<nat>)
    requires n <= |p|
  {
    forall i: nat :: i in at <==> i < n && Picks(k, p[i])
  }

  lemma TakenMore(q: seq<SentChunk>, p: seq<SentChunk>, at: seq<nat>, n: nat)
    requires TakenFrom(q, p, at) && Below(at, n) && n < |p|
    ensures TakenFrom(q + [p[n]], p, at + [n]) && Below(at + [n], n + 1) && Below(at, n + 1)
  {
  }

  lemma PicksMore(p: seq<SentChunk>, k: Pick, n: nat, at: seq<nat>)
    requires n < |p| && PicksExactly(p, k, n, at)
    ensures PicksExactly(p, k, n + 1, if Picks(k, p[n]) then at + [n] else at)
  {
    hide Picks;
    var at' := if Picks(k, p[n]) then at + [n] else at;
    forall i: nat ensures i in at' <==> i < n + 1 && Picks(k, p[i]) {
      assert i in at + [n] <==> i in at || i == n;
    }
  }

  /** `at` tells where the chunks of a pass come from. */
  ghost predicate PlacesOf(p: seq<SentChunk>, k: Pick, n: nat, at: seq<nat>)
    requires n <= |p|
  {
    TakenFrom(Picked(p, k, n), p, at) && Below(at, n) && PicksExactly(p, k, n, at)
  }

  lemma NoPlaces(p: seq<SentChunk>, k: Pick)
    ensures PlacesOf(p, k, 0, [])
  {
    hide Picks;
    assert Picked(p, k, 0) == [];
  }

  lemma PlacesMore(p: seq<SentChunk>, k: Pick, n: nat, at: seq<nat>)
    requires n < |p| && PlacesOf(p, k, n, at)
    ensures PlacesOf(p, k, n + 1, if Picks(k, p[n]) then at + [n] else at)
  {
    PickedStep(p, k, n);
    TakenMore(Picked(p, k, n), p, at, n);
    PicksMore(p, k, n, at);
    hide TakenFrom, Below, PicksExactly, Picks, Picked;
  }

  lemma {:induction false} PickedFrom(p: seq<SentChunk>, k: Pick, n: nat) returns (at: seq<nat>)
    requires n <= |p|
    ensures PlacesOf(p, k, n, at)
  {
    hide PlacesOf, Picks;
    if n == 0 {
      at := [];
      NoPlaces(p, k);
    } else {
      at := PickedFrom(p, k, n - 1);
      PlacesMore(p, k, n - 1, at);
      at := if Picks(k, p[n - 1]) then at + [n - 1] else at;
    }
  }

  /** What a pass does to the window and puts on the wire, picked chunk by picked chunk. */
  lemma RetryRepeats(s: Sender, k: Pick, now: int) returns (at: seq<nat>)
    ensures var x := RetryPass(s, k, now);
      && (x.ok <==> forall i :: 0 <= i < |s.pending| && Picks(k, s.pending[i]) ==>
            s.pending[i].retries < s.limits.retryLimit)
      && !x.resendEnd
      && (!x.ok ==> x.resend == [] && x.sender.failed)
      && (x.ok ==>
            && TakenFrom(x.resend, s.pending, at) && PicksExactly(s.pending, k, |s.pending|, at)
            && |x.sender.pending| == |s.pending|
            && (forall i :: 0 <= i < |s.pending| ==> var c := s.pending[i];
                  x.sender.pending[i] == if Picks(k, c) then SentChunk(c.id, c.payload, now, c.retries + 1) else c)
            && x.sender == s.(pending := x.sender.pending))
  {
    at := PickedFrom(s.pending, k, |s.pending|);
    hide Picks, Picked, TakenFrom, PicksExactly;
  }

  /** A nack for missing chunks goes through exactly if every named chunk of the window has a retry
      left. Then it repeats the named chunks, in window order and unchanged, and no other frame;
      each of them is stamped anew and has used up one retry. Otherwise nothing goes out and the
      transfer fails. */
  lemma NackRepeats(s: Sender, from: u32, to: u32, now: int) returns (at: seq<nat>)
    requires from <= to
    ensures var x := ApplyNack(s, from, to, MissingChunk, now);
      && (x.ok <==> forall i :: 0 <= i < |s.pending| && from <= s.pending[i].id <= to ==>
            s.pending[i].retries < s.limits.retryLimit)
      && !x.resendEnd
      && (!x.ok ==> x.resend == [] && x.sender.failed)
      && (x.ok ==>
            && TakenFrom(x.resend, s.pending, at)
            && (forall i :: 0 <= i < |s.pending| ==> (i in at <==> from <= s.pending[i].id <= to))
            && |x.sender.pending| == |s.pending|
            && (forall i :: 0 <= i < |s.pending| ==> var c := s.pending[i];
                  x.sender.pending[i] == if from <= c.id <= to
                                         then SentChunk(c.id, c.payload, now, c.retries + 1) else c)
            && x.sender == s.(pending := x.sender.pending))
  {
    at := RetryRepeats(s, Named(from, to), now);
    hide RetryPass, TakenFrom;
  }

  /** The other reasons repeat nothing: flow control closes the peer's window until it announces a
      new one, anything else ends the transfer, and a reversed range is an error. */
  lemma OtherNacks(s: Sender, from: u32, to: u32, reason: NackReason, now: int)
    requires from > to || reason != MissingChunk
    ensures var x := ApplyNack(s, from, to, reason, now);
      && x.resend == [] && !x.resendEnd
      && (x.ok <==> from <= to)
      && (from > to ==> x.sender == s)
      && (from <= to && reason == FlowControl ==> x.sender == s.(window := Window(true, 0, 0)))
      && (from <= to && reason == Fatal ==> x.sender == s.(failed := true))
  {
  }

  /** A scan of a live transfer fails it exactly if an expired commit or an expired chunk has no
      retry left, and then sends nothing. Otherwise the end frame goes out exactly if its answer
      is overdue, a chunk exactly if its acknowledgement is, and each of them is stamped anew and
      has used up one retry. */
  lemma ScanRepeats(s: Sender, now: int) returns (at: seq<nat>)
    requires !s.failed && !(s.doneSending && s.pending == [] && s.completed)
    ensures var x := Scan(s, now); var t := s.limits.ackTimeout;
      var overdue := s.doneSending && !s.completed && s.commitSentAt.Some? && s.commitSentAt.value + t <= now;
      && x.ok
      && (x.sender.failed <==>
            || (overdue && s.commitRetries >= s.limits.retryLimit)
            || exists i :: 0 <= i < |s.pending| && s.pending[i].sentAt + t <= now
                 && s.pending[i].retries >= s.limits.retryLimit)
      && (x.sender.failed ==> x.resend == [] && !x.resendEnd)
      && (!x.sender.failed ==>
            && (x.resendEnd <==> overdue)
            && TakenFrom(x.resend, s.pending, at)
            && (forall i :: 0 <= i < |s.pending| ==> (i in at <==> s.pending[i].sentAt + t <= now))
            && |x.sender.pending| == |s.pending|
            && (forall i :: 0 <= i < |s.pending| ==> var c := s.pending[i];
                  x.sender.pending[i] == if c.sentAt + t <= now
                                         then SentChunk(c.id, c.payload, now, c.retries + 1) else c)
            && x.sender == s.(pending := x.sender.pending,
                              commitRetries := if overdue then s.commitRetries + 1 else s.commitRetries,
                              commitSentAt := if overdue then Some(now) else s.commitSentAt))
  {
    at := RetryRepeats(ScanCommit(s, now), Expired(now, s.limits.ackTimeout), now);
    hide RetryPass, TakenFrom;
  }

  /** A transfer that failed or is finished is left alone. */
  lemma ScanLeavesAlone(s: Sender, now: int)
    requires s.failed || (s.doneSending && s.pending == [] && s.completed)
    ensures Scan(s, now) == Retransmission(s, [], false, true)
  {
  }

  // ---------------------------------------------------------------- in a run

  /** The data frames of chunks `lo .. hi - 1`. */
  function DataOf(env: Env, lo: nat, hi: nat): (msgs: seq<Msg>)
    requires EnvOk(env) && lo <= hi <= env.meta.chunkCount
    ensures |msgs| == hi - lo
    ensures forall j :: 0 <= j < hi - lo ==> msgs[j] == Data(lo + j, ChunkBytes(env.source, env.meta, lo + j))
  {
    seq(hi - lo, j requires 0 <= j < hi - lo => Data(lo + j, ChunkBytes(env.source, env.meta, lo + j)))
  }

  predicate IdsFrom(p: seq<SentChunk>, a: nat) {
    forall i :: 0 <= i < |p| ==> p[i].id == a + i
  }

  /** If a pass picks exactly the places `lo .. hi - 1`, it repeats that stretch of the window. */
  lemma {:induction false} PickedStretch(p: seq<SentChunk>, k: Pick, lo: nat, hi: nat, n: nat)
    requires lo <= hi <= |p| && n <= |p|
    requires forall i :: 0 <= i < |p| ==> (Picks(k, p[i]) <==> lo <= i < hi)
    ensures Picked(p, k, n) == if n <= lo then [] else if n <= hi then p[lo..n] else p[lo..hi]
  {
    hide Picks, Picked;
    if n == 0 {
      PickedNone(p, k);
    } else {
      PickedStretch(p, k, lo, hi, n - 1);
      PickedStep(p, k, n - 1);
      if lo < n <= hi {
        StretchGrows(p, lo, n - 1);
      }
    }
  }

  lemma PickedNone(p: seq<SentChunk>, k: Pick)
    ensures Picked(p, k, 0) == []
  {
  }

  lemma StretchGrows(p: seq<SentChunk>, lo: nat, n: nat)
    requires lo <= n < |p|
    ensures p[lo..n + 1] == p[lo..n] + [p[n]]
  {
  }

  /** In a run: a nack for missing chunks that does not fail the sender appends exactly the data
      frames of the named chunks that were sent and are not yet acknowledged. */
  lemma NackAnswered(env: Env, run: seq<System>, steps: seq<Step>, n: nat)
    requires IsRun(env, run, steps) && n < |steps| && steps[n].ToSender?
    requires steps[n].index < |run[n].net| && run[n].net[steps[n].index].NackMsg?
    requires run[n].net[steps[n].index].reason == MissingChunk && !run[n + 1].s.failed
    ensures EnvOk(env) && run[n].s.chunkId <= env.meta.chunkCount
    ensures var nack := run[n].net[steps[n].index];
      var lo, hi := Max(nack.from, AckedCount(run[n].s)), Min(nack.to + 1, run[n].s.chunkId);
      run[n + 1].net == run[n].net + if lo < hi then DataOf(env, lo, hi) else []
  {
    InvInEveryRun(env, run, steps, n);
    assert StepAt(env, run, steps, n);
    LogEntryTruthful(env, run[n], steps[n].index);
    hide *;
    var nack := run[n].net[steps[n].index];
    NackStep(env, run[n], steps[n].index, steps[n].at);
    NackResends(env, run[n], nack.from, nack.to, steps[n].at);
  }

  lemma NackStep(env: Env, y: System, i: nat, now: int)
    requires i < |y.net| && y.net[i].NackMsg?
    ensures Enabled(env, y, ToSender(i, now)) && Do(env, y, ToSender(i, now))
         == Resent(y, ApplyNack(y.s, y.net[i].from, y.net[i].to, y.net[i].reason, now))
  {
    hide Resent, ApplyNack;
  }

  /** Something of the window that the step would repeat has no retry left. */
  predicate Exhausted(s: Sender, step: Step, net: seq<Msg>) {
    match step
    case Monitor(now) =>
      || (CommitExpired(s, now) && s.commitRetries >= s.limits.retryLimit)
      || exists i :: 0 <= i < |s.pending| && s.pending[i].sentAt + s.limits.ackTimeout <= now
           && s.pending[i].retries >= s.limits.retryLimit
    case ToSender(k, _) =>
      k < |net| && net[k].NackMsg? && net[k].reason == MissingChunk
      && exists i :: 0 <= i < |s.pending| && net[k].from <= s.pending[i].id <= net[k].to
           && s.pending[i].retries >= s.limits.retryLimit
    case _ => false
  }

  /** In a run: neither a scan nor a nack for missing chunks makes a live sender give up, unless
      something it would repeat has no retry left. */
  lemma GivesUpOnlyExhausted(env: Env, run: seq<System>, steps: seq<Step>, n: nat)
    requires IsRun(env, run, steps) && n < |steps| && !Idle(run[n].s)
    requires steps[n].Monitor? || (steps[n].ToSender? && steps[n].index < |run[n].net|
      && run[n].net[steps[n].index].NackMsg? && run[n].net[steps[n].index].reason == MissingChunk)
    ensures run[n + 1].s.failed <==> Exhausted(run[n].s, steps[n], run[n].net)
  {
    InvInEveryRun(env, run, steps, n);
    assert StepAt(env, run, steps, n);
    if steps[n].Monitor? {
      ScanExhausted(run[n].s, steps[n].at);
    } else {
      LogEntryTruthful(env, run[n], steps[n].index);
      var nack := run[n].net[steps[n].index];
      var at := NackRepeats(run[n].s, nack.from, nack.to, steps[n].at);
      hide Inv, ApplyNack;
    }
  }

  lemma ScanExhausted(s: Sender, now: int)
    requires !Idle(s)
    ensures Scan(s, now).ok && (Scan(s, now).sender.failed <==> Exhausted(s, Monitor(now), []))
  {
    var at := ScanRepeats(s, now);
    hide Scan;
  }

  lemma NackResends(env: Env, y: System, from: u32, to: u32, now: int)
    requires Inv(env, y) && from <= to && !Resent(y, ApplyNack(y.s, from, to, MissingChunk, now)).s.failed
    ensures EnvOk(env) && y.s.chunkId <= env.meta.chunkCount
    ensures var lo, hi := Max(from, AckedCount(y.s)), Min(to + 1, y.s.chunkId);
      Resent(y, ApplyNack(y.s, from, to, MissingChunk, now)).net
      == y.net + if lo < hi then DataOf(env, lo, hi) else []
  {
    NackPasses(y.s, from, to, now);
    hide ApplyNack, Exact, NetTruthful, Accounting, HoldsFrom, DataOf, Picked, DataMsgs, Min, Max;
    NamedFrames(env, y.s, from, to);
    var x := ApplyNack(y.s, from, to, MissingChunk, now);
    assert Resent(y, x).net == y.net + DataMsgs(x.resend);
  }

  lemma NamedFrames(env: Env, s: Sender, from: u32, to: u32)
    requires EnvOk(env) && WindowExact(env, s) && from <= to
    ensures var lo, hi := Max(from, AckedCount(s)), Min(to + 1, s.chunkId);
      DataMsgs(Picked(s.pending, Named(from, to), |s.pending|)) == if lo < hi then DataOf(env, lo, hi) else []
  {
    hide *;
    var a, p := AckedCount(s), s.pending;
    WindowIds(env, s);
    if Max(from, a) < Min(to + 1, a + |p|) {
      var l, h := NamedPlaces(p, a, from, to);
      StretchData(env, p, a, l, h);
    } else {
      NothingNamed(p, a, from, to);
      assert DataMsgs([]) == [];
    }
  }

  lemma WindowIds(env: Env, s: Sender)
    requires EnvOk(env) && WindowExact(env, s)
    ensures IdsFrom(s.pending, AckedCount(s)) && AckedCount(s) + |s.pending| == s.chunkId <= env.meta.chunkCount
    ensures HoldsFrom(env, s.pending, AckedCount(s))
  {
    IdsConsecutive(env, s.pending, AckedCount(s));
  }

  lemma NamedPlaces(p: seq<SentChunk>, a: nat, from: u32, to: u32) returns (l: nat, h: nat)
    requires IdsFrom(p, a) && Max(from, a) < Min(to + 1, a + |p|)
    ensures l < h <= |p| && a + l == Max(from, a) && a + h == Min(to + 1, a + |p|)
    ensures Picked(p, Named(from, to), |p|) == p[l..h]
  {
    l, h := Max(from, a) - a, Min(to + 1, a + |p|) - a;
    forall i | 0 <= i < |p| ensures Picks(Named(from, to), p[i]) <==> l <= i < h {
      assert p[i].id == a + i;
    }
    hide *;
    PickedStretch(p, Named(from, to), l, h, |p|);
    assert h == |p| ==> p[l..h] == p[l..|p|];
  }

  lemma NothingNamed(p: seq<SentChunk>, a: nat, from: u32, to: u32)
    requires IdsFrom(p, a) && Max(from, a) >= Min(to + 1, a + |p|) && from <= to
    ensures Picked(p, Named(from, to), |p|) == []
  {
    forall i | 0 <= i < |p| ensures !Picks(Named(from, to), p[i]) {
      assert p[i].id == a + i;
    }
    hide Picks, Max, Min;
    PickedStretch(p, Named(from, to), 0, 0, |p|);
  }

  lemma NackPasses(s: Sender, from: u32, to: u32, now: int)
    requires from <= to
    ensures var x := ApplyNack(s, from, to, MissingChunk, now);
      !x.resendEnd && (x.ok ==> x.resend == Picked(s.pending, Named(from, to), |s.pending|))
  {
  }

  lemma StretchData(env: Env, p: seq<SentChunk>, a: nat, l: nat, h: nat)
    requires EnvOk(env) && HoldsFrom(env, p, a) && l < h <= |p|
    ensures a + h <= env.meta.chunkCount && DataMsgs(p[l..h]) == DataOf(env, a + l, a + h)
  {
    assert HoldsChunk(env, p[h - 1], a + (h - 1));
    var msgs := DataMsgs(p[l..h]);
    forall j | 0 <= j < h - l ensures msgs[j] == Data(a + l + j, ChunkBytes(env.source, env.meta, a + l + j)) {
      assert HoldsChunk(env, p[l + j], a + (l + j));
    }
  }

  /** The log only grows, and so does the number of chunks sent. */
  lemma StepGrows(env: Env, y: System, step: Step)
    requires Enabled(env, y, step)
    ensures y.net <= Do(env, y, step).net && y.s.chunkId <= Do(env, y, step).s.chunkId
  {
    hide OnData, OnEnd, Write, CountWritten, FinishEnd, Scan, ApplyNack, ApplyAck;
    match step {
      case Monitor(now) => ScanShape(y.s, now);
      case ToSender(i, now) => ReceiveGrows(y, i, now);
      case _ =>
    }
  }

  lemma ReceiveGrows(y: System, i: nat, now: int)
    requires i < |y.net|
    ensures y.net <= Receive(y, i, now).net && y.s.chunkId == Receive(y, i, now).s.chunkId
  {
    hide ApplyNack, InsideBytes, Outside, Matched;
    if y.net[i].NackMsg? {
      NackShape(y.s, y.net[i].from, y.net[i].to, y.net[i].reason, now);
    }
  }

  lemma {:induction false} RunGrows(env: Env, run: seq<System>, steps: seq<Step>, n: nat, m: nat)
    requires IsRun(env, run, steps) && n <= m <= |steps|
    ensures run[n].net <= run[m].net && run[n].s.chunkId <= run[m].s.chunkId
    decreases m - n
  {
    if n == m {
    } else {
      RunGrows(env, run, steps, n, m - 1);
      assert StepAt(env, run, steps, m - 1);
      StepGrows(env, run[m - 1], steps[m - 1]);
    }
  }

  /** Both sides together: a data frame that skips chunk `k` is answered with a nack, and when the
      nack reaches the sender, chunk `k` goes out again unless it was acknowledged meanwhile or
      the sender gives up. */
  lemma GapRepaired(env: Env, run: seq<System>, steps: seq<Step>, n: nat, m: nat, k: nat)
    requires IsRun(env, run, steps) && n < m < |steps|
    requires steps[n].ToReceiver? && steps[n].index < |run[n].net| && run[n].net[steps[n].index].Data?
    requires Live(run[n].r) && run[n].r.acceptedNextChunk <= k < run[n].net[steps[n].index].id
    requires steps[m].ToSender? && steps[m].index == |run[n].net|
    requires AckedCount(run[m].s) <= k && !run[m + 1].s.failed
    ensures EnvOk(env) && k < env.meta.chunkCount && |run[m].net| <= |run[m + 1].net|
    ensures Data(k, ChunkBytes(env.source, env.meta, k)) in run[m + 1].net[|run[m].net|..]
  {
    var nack := GapAnswered(env, run, steps, n);
    RunGrows(env, run, steps, n, m);
    RunGrows(env, run, steps, n + 1, m);
    assert run[m].net[|run[n].net|] == nack;
    assert AsksFor(nack, k);
    NackAnswered(env, run, steps, m);
    var lo, hi := Max(nack.from, AckedCount(run[m].s)), Min(nack.to + 1, run[m].s.chunkId);
    assert lo <= k < hi;
    assert run[m + 1].net[|run[m].net|..] == DataOf(env, lo, hi);
    assert DataOf(env, lo, hi)[k - lo] == Data(k, ChunkBytes(env.source, env.meta, k));
  }

  lemma GapAnswered(env: Env, run: seq<System>, steps: seq<Step>, n: nat) returns (nack: Msg)
    requires IsRun(env, run, steps) && n < |steps|
    requires steps[n].ToReceiver? && steps[n].index < |run[n].net| && run[n].net[steps[n].index].Data?
    requires Live(run[n].r) && run[n].r.acceptedNextChunk < run[n].net[steps[n].index].id
    ensures run[n + 1].net == run[n].net + [nack] && nack.NackMsg? && nack.reason == MissingChunk
    ensures NamesExactly(nack, run[n].r.acceptedNextChunk, run[n].net[steps[n].index].id)
    ensures run[n].net[steps[n].index].id < run[n].s.chunkId
  {
    InvInEveryRun(env, run, steps, n);
    assert StepAt(env, run, steps, n);
    var y, msg := run[n], run[n].net[steps[n].index];
    LogEntryTruthful(env, y, steps[n].index);
    DataExact(env.source, y.r, msg.id, msg.payload, steps[n].answer, y.s.chunkId);
    nack := OnData(y.r, msg.id, msg.payload, steps[n].answer).1[0];
    assert AsksFor(nack, y.r.acceptedNextChunk);
  }
}
