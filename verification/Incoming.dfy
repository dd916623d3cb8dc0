/** The `incomingTransfer` object of incoming.go. Each method is the code between one lock and the
    matching unlock, proved against the function of module `Receiving` it runs; what it sends
    is its result. */
module Incoming {
  import opened Base
  import opened Chunks
  import opened Sending
  import opened Receiving

  class IncomingTransfer {
    const meta: Meta
    const capacity: nat
    var receivedBytes: u64
    var acceptedBytes: u64
    var firstChunk: u32
    var lastChunk: u32
    var nextChunk: u32
    var acceptedNextChunk: u32
    var queue: seq<Chunk>
    var accepting: bool
    var ending: bool
    var failed: bool
    var installed: bool
    var writer: WriterPc
    var sink: seq<byte>
    var hashed: seq<byte>
    var fate: Fate

    function View(): Receiver
      reads this
    {
      Receiver(meta, capacity, receivedBytes, acceptedBytes, firstChunk, lastChunk, nextChunk, acceptedNextChunk,
               queue, accepting, ending, failed, installed, writer, sink, hashed, fate)
    }

    /** `newIncomingTransfer`: the queue holds `MaxInFlightChunks` chunks, at least one. */
    constructor (meta: Meta, maxInFlightChunks: int)
      ensures WellFormed(meta) ==> forall source: seq<byte> :: |source| == meta.total ==> Exact(source, View())
      ensures capacity == if maxInFlightChunks <= 0 then 1 else maxInFlightChunks
      ensures View() == Receiver(meta, capacity, 0, 0, 0, 0, 0, 0, [], true, false, false, true, Waiting, [], [],
          Open)
    {
      this.meta := meta;
      capacity := if maxInFlightChunks <= 0 then 1 else maxInFlightChunks;
      receivedBytes, acceptedBytes, firstChunk, lastChunk, nextChunk, acceptedNextChunk := 0, 0, 0, 0, 0, 0;
      queue, accepting, ending, failed, installed := [], true, false, false, true;
      writer, sink, hashed, fate := Waiting, [], [], Open;
    }

    /** `handleIncomingTransferData`. */
    method HandleData(id: u32, payload: seq<byte>, reserved: bool) returns (replies: seq<Msg>)
      modifies this`queue, this`acceptedBytes, this`acceptedNextChunk
      ensures (View(), replies) == OnData(old(View()), id, payload, reserved)
    {
      if |payload| == 0 || !installed {
        return [NackMsg(id, id, Fatal)];
      }
      if failed {
        return [];
      }
      if !accepting {
        return [NackMsg(id, id, Fatal)];
      }
      if id < nextChunk {
        return [AckMsg(Ack(firstChunk, lastChunk, receivedBytes))];
      }
      if id < acceptedNextChunk {
        return [];
      }
      if id > acceptedNextChunk {
        return [NackMsg(acceptedNextChunk, id - 1, MissingChunk)];
      }
      if id >= meta.chunkCount || |payload| > meta.chunkSize {
        return [NackMsg(id, id, Fatal)];
      }
      var expected := meta.chunkSize;
      if id + 1 == meta.chunkCount {
        expected := ToU32(SubU64(meta.total, id * meta.chunkSize));
      }
      if |payload| != expected {
        return [NackMsg(id, id, Fatal)];
      }
      if !reserved || |queue| >= capacity {
        return [NackMsg(id, id, FlowControl)];
      }
      queue := queue + [Chunk(id, payload)];
      acceptedBytes := AddU64(acceptedBytes, |payload|);
      acceptedNextChunk := acceptedNextChunk + 1;
      return [];
    }

    /** The locked tail of `writeIncomingChunk`. */
    method CountChunk() returns (replies: seq<Msg>)
      requires writer.Wrote?
      modifies this`writer, this`hashed, this`firstChunk, this`lastChunk, this`nextChunk, this`receivedBytes
      ensures (View(), replies) == CountWritten(old(View()))
    {
      var chunk := writer.chunk;
      writer := Waiting;
      if failed {
        return [];
      }
      hashed := hashed + chunk.payload;
      if receivedBytes == 0 {
        firstChunk := chunk.id;
      }
      lastChunk := chunk.id;
      nextChunk := ToU32(chunk.id + 1);
      receivedBytes := AddU64(receivedBytes, |chunk.payload|);
      return [AckMsg(Ack(firstChunk, lastChunk, receivedBytes))];
    }

    /** `handleIncomingTransferEnd` up to its wait. */
    method HandleEnd(chunk: u32, remembered: bool) returns (replies: seq<Msg>)
      modifies this`ending, this`accepting
      ensures (View(), replies) == OnEnd(old(View()), chunk, remembered)
    {
      var complete := acceptedBytes == meta.total && acceptedNextChunk == meta.chunkCount;
      if installed && !complete {
        return [NackMsg(acceptedNextChunk, ToU32(meta.chunkCount + MAX_U32), MissingChunk)];
      }
      if installed && !ending {
        ending := true;
        accepting := false;
        return [];
      }
      if installed && fate == Open {
        return [];
      }
      if remembered && fate == Committed {
        return [CompletedMsg(receivedBytes, nextChunk)];
      }
      if remembered && fate == Abandoned {
        return [FailedMsg];
      }
      if installed {
        return [NackMsg(firstChunk, lastChunk, Fatal)];
      }
      return [NackMsg(chunk, chunk, Fatal)];
    }
  }
}
