/** A run of module `Protocol` in which an honest acknowledgement is rejected: a transfer of two
    one-byte chunks whose two acknowledgements overtake each other. */
module StaleAck {
  import opened Base
  import opened Chunks
  import opened Sending
  import opened Receiving
  import opened Protocol

  const META := Meta(2, 1, 2)
  const NO_WINDOW := Window(false, 0, 0)
  const CHUNK0 := SentChunk(0, [0], 0, 0)
  const CHUNK1 := SentChunk(1, [0], 0, 0)

  function TwoBytes(sha: seq<byte> -> seq<byte>): Env {
    Env([0, 0], META, sha, None)
  }

  function SenderAt(i: nat): Sender {
    var (pending, acked, sent) :=
      if i < 1 then ([], 0, 0)
      else if i < 6 then ([CHUNK0], 0, 1)
      else if i < 11 then ([CHUNK0, CHUNK1], 0, 2)
      else ([], 2, 2);
    Sender(META, Limits(1, 0, 2, 2), pending, |pending|, NO_WINDOW, acked, false, false, None, 0, false, true,
        sent, sent)
  }

  /** The receiver with `written` chunks counted, `accepted` accepted and `sunk` bytes in the sink. */
  function ReceiverWith(written: u32, accepted: u32, queue: seq<Chunk>, writer: WriterPc, sunk: seq<byte>,
      hashed: seq<byte>)
    : Receiver
  {
    Receiver(META, 2, written, accepted, 0, if written > 0 then written - 1 else 0, written, accepted,
             queue, true, false, false, true, writer, sunk, hashed, Open)
  }

  function ReceiverAt(i: nat): Receiver {
    var c0, c1 := Chunk(0, [0]), Chunk(1, [0]);
    if i < 2 then ReceiverWith(0, 0, [], Waiting, [], [])
    else if i == 2 then ReceiverWith(0, 1, [c0], Waiting, [], [])
    else if i == 3 then ReceiverWith(0, 1, [], Taken(c0), [], [])
    else if i == 4 then ReceiverWith(0, 1, [], Wrote(c0), [0], [])
    else if i < 7 then ReceiverWith(1, 1, [], Waiting, [0], [0])
    else if i == 7 then ReceiverWith(1, 2, [c1], Waiting, [0], [0])
    else if i == 8 then ReceiverWith(1, 2, [], Taken(c1), [0], [0])
    else if i == 9 then ReceiverWith(1, 2, [], Wrote(c1), [0, 0], [0])
    else ReceiverWith(2, 2, [], Waiting, [0, 0], [0, 0])
  }

  function NetAt(i: nat): seq<Msg> {
    var data0, ack0, data1, ack1 := Data(0, [0]), AckMsg(Ack(0, 0, 1)), Data(1, [0]), AckMsg(Ack(0, 1, 2));
    if i < 1 then []
    else if i < 5 then [data0]
    else if i < 6 then [data0, ack0]
    else if i < 10 then [data0, ack0, data1]
    else [data0, ack0, data1, ack1]
  }

  function StateAt(i: nat): System {
    System(SenderAt(i), ReceiverAt(i), NetAt(i), if i < 11 then 0 else 3)
  }

  function MoveAt(i: nat): Step {
    if i == 0 || i == 5 then ChunkOut(0)
    else if i == 1 then ToReceiver(0, true)
    else if i == 6 then ToReceiver(2, true)
    else if i == 2 || i == 7 then TakeChunk
    else if i == 3 || i == 8 then WriteChunk(1, true)
    else if i == 4 || i == 9 then CountChunk
    else ToSender(3, 0)
  }

  lemma Layout()
    ensures WellFormed(META) && Offset(META, 0) == 0
  {
    assert Times(1, 1) == Times(0, 1) + 1;
    assert Times(2, 1) == Times(1, 1) + 1;
  }

  predicate Moves(env: Env, i: nat) {
    Enabled(env, StateAt(i), MoveAt(i)) && StateAt(i + 1) == Do(env, StateAt(i), MoveAt(i))
  }

  lemma SenderMoves(env: Env, i: nat)
    requires env == TwoBytes(env.sha) && (i == 0 || i == 5)
    ensures Moves(env, i)
  {
    assert env.source[0..1] == [0] && env.source[1..2] == [0];
  }

  lemma ReaderMoves(env: Env, i: nat)
    requires env == TwoBytes(env.sha) && (i == 1 || i == 6)
    ensures Moves(env, i)
  {
  }

  lemma WriterMoves(env: Env, i: nat)
    requires env == TwoBytes(env.sha) && (2 <= i <= 4 || 7 <= i <= 9)
    ensures Moves(env, i)
  {
  }

  lemma AckMoves(env: Env)
    requires env == TwoBytes(env.sha)
    ensures Moves(env, 10)
  {
  }

  lemma Starts(env: Env)
    requires env == TwoBytes(env.sha)
    ensures Initial(env, StateAt(0))
  {
    Layout();
  }

  lemma EveryMove(env: Env, i: nat)
    requires env == TwoBytes(env.sha) && i < 11
    ensures Moves(env, i)
  {
    hide Moves;
    if i == 0 || i == 5 {
      SenderMoves(env, i);
    } else if i == 1 || i == 6 {
      ReaderMoves(env, i);
    } else if i == 10 {
      AckMoves(env);
    } else {
      WriterMoves(env, i);
    }
  }

  function States(n: nat): (run: seq<System>)
    ensures |run| == n && forall i :: 0 <= i < n ==> run[i] == StateAt(i)
  {
    if n == 0 then [] else States(n - 1) + [StateAt(n - 1)]
  }

  function MovesUpTo(n: nat): (steps: seq<Step>)
    ensures |steps| == n && forall i :: 0 <= i < n ==> steps[i] == MoveAt(i)
  {
    if n == 0 then [] else MovesUpTo(n - 1) + [MoveAt(n - 1)]
  }

  lemma FirstMoves(env: Env, n: nat)
    requires env == TwoBytes(env.sha) && n <= 11
    ensures IsRun(env, States(n + 1), MovesUpTo(n))
  {
    hide Do, Enabled, Initial, StateAt, MoveAt;
    Starts(env);
    var run, steps := States(n + 1), MovesUpTo(n);
    forall i | 0 <= i < n ensures StepAt(env, run, steps, i) {
      EveryMove(env, i);
    }
  }

  lemma LastState()
    ensures |StateAt(11).net| == 4 && StateAt(11).net[1] == AckMsg(Ack(0, 0, 1))
    ensures !ApplyAck(StateAt(11).s, Ack(0, 0, 1)).1
  {
  }

  /** After the second acknowledgement has arrived, the first one, which the same receiver sent and
      the network may still deliver, is rejected. */
  lemma StaleAckCounterexample(sha: seq<byte> -> seq<byte>) returns (run: seq<System>, steps: seq<Step>)
    ensures IsRun(TwoBytes(sha), run, steps) && |steps| == 11
    ensures |run[11].net| == 4 && run[11].net[1] == AckMsg(Ack(0, 0, 1))
    ensures !ApplyAck(run[11].s, Ack(0, 0, 1)).1
  {
    hide States, MovesUpTo, IsRun, StateAt;
    run, steps := States(12), MovesUpTo(11);
    FirstMoves(TwoBytes(sha), 11);
    LastState();
  }
}
