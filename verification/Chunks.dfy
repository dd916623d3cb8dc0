/** Chunk arithmetic of a transfer (incoming.go): how many chunks a transfer has, at which
    byte each one starts, and how long the receiver demands each one to be. */
module Chunks {
  import opened Base

  /** The part of `TransferBegin` that fixes the chunk layout. */
  datatype Meta = Meta(total: u64, chunkSize: u32, chunkCount: u32)

  // ---------------------------------------------------------------- the code's formulas

  function ChunkCountFor(total: u64, chunkSize: u32): u32
    requires total == 0 || chunkSize > 0
  {
    if total == 0 then 0
    else
      var chunks := 1 + (total - 1) / chunkSize;
      if chunks > MAX_U32 then MAX_U32 else chunks
  }

  function TransferOffsetForChunk(total: u64, chunkSize: u32, nextChunk: u32): Option<u64> {
    if chunkSize == 0 then None
    else
      var chunkCount := ChunkCountFor(total, chunkSize);
      if nextChunk > chunkCount then None
      else if nextChunk == chunkCount then Some(total)
      else
        var offset := nextChunk * chunkSize % U64_SIZE;
        if offset >= total then None else Some(offset)
  }

  /** The payload length the receiver demands for chunk `k`, with Go's wrap-around and `uint32`
      conversion. */
  function ExpectedSize(m: Meta, k: u32): nat
    requires k < m.chunkCount
  {
    if k + 1 == m.chunkCount then ToU32(SubU64(m.total, k * m.chunkSize)) else m.chunkSize
  }

  // ---------------------------------------------------------------- the layout they describe

  /** `k` pieces of `size` bytes, by repeated addition. */
  function Times(k: nat, size: nat): nat {
    if k == 0 then 0 else Times(k - 1, size) + size
  }

  /** The least number of chunks that holds the whole source, below the saturation value. */
  predicate WellFormed(m: Meta) {
    && m.chunkSize > 0
    && m.chunkCount < MAX_U32
    && (m.total == 0 <==> m.chunkCount == 0)
    && (m.total > 0 ==> Times(m.chunkCount - 1, m.chunkSize) < m.total <= Times(m.chunkCount, m.chunkSize))
  }

  /** Where chunk `k` starts; the end of the last chunk is the end of the source. */
  function Offset(m: Meta, k: nat): nat
    requires k <= m.chunkCount
  {
    if k == m.chunkCount then m.total else Times(k, m.chunkSize)
  }

  lemma {:induction false} TimesIsProduct(k: nat, size: nat)
    ensures Times(k, size) == k * size
  {
    if k == 0 {
    } else {
      TimesIsProduct(k - 1, size);
      assert k * size == (k - 1) * size + size;
    }
  }

  lemma {:induction false} TimesMonotone(i: nat, j: nat, size: nat)
    requires i <= j
    ensures Times(i, size) <= Times(j, size)
    decreases j - i
  {
    if i < j {
      TimesMonotone(i, j - 1, size);
    }
  }

  lemma DivBounds(x: nat, d: nat)
    requires d > 0
    ensures (x / d) * d <= x < (x / d) * d + d
  {
    assert x == (x / d) * d + x % d;
  }

  lemma DivIsLeastCount(total: nat, size: nat)
    requires total > 0 && size > 0
    ensures var q := (total - 1) / size; q >= 0 && Times(q, size) < total <= Times(q + 1, size)
  {
    var q := (total - 1) / size;
    DivBounds(total - 1, size);
    TimesIsProduct(q, size);
  }

  /** `chunkCountFor` computes that least number exactly when it does not saturate. */
  lemma WellFormedIff(m: Meta)
    requires m.chunkSize > 0
    ensures WellFormed(m) <==> m.chunkCount == ChunkCountFor(m.total, m.chunkSize) && m.chunkCount < MAX_U32
  {
    if m.total > 0 {
      var q := (m.total - 1) / m.chunkSize;
      DivIsLeastCount(m.total, m.chunkSize);
      if m.chunkCount < q + 1 {
        TimesMonotone(m.chunkCount, q, m.chunkSize);
      } else if m.chunkCount > q + 1 {
        TimesMonotone(q + 1, m.chunkCount - 1, m.chunkSize);
      }
    }
  }

  /** Offsets are strictly increasing, consecutive ones differ by exactly the length the receiver
      demands, and that length is never zero, never above the chunk size, never cut by the cast,
      and what the sender's loop reads. */
  lemma OffsetStep(m: Meta, k: u32)
    requires WellFormed(m) && k < m.chunkCount
    ensures k * m.chunkSize <= m.total
    ensures Offset(m, k + 1) == Offset(m, k) + ExpectedSize(m, k) <= m.total
    ensures 0 < ExpectedSize(m, k) <= m.chunkSize
    ensures ExpectedSize(m, k) == Min(m.chunkSize, m.total - Offset(m, k))
  {
    TimesIsProduct(k, m.chunkSize);
    TimesMonotone(k, m.chunkCount - 1, m.chunkSize);
    if k + 1 < m.chunkCount {
      TimesMonotone(k + 1, m.chunkCount - 1, m.chunkSize);
    }
  }

  lemma NextOffset(m: Meta, k: u32)
    requires WellFormed(m) && k < m.chunkCount
    ensures Offset(m, k) < Offset(m, k + 1) <= m.total
    ensures Offset(m, k + 1) == Offset(m, k) + Min(m.chunkSize, m.total - Offset(m, k))
  {
    OffsetStep(m, k);
  }

  lemma {:induction false} OffsetMonotone(m: Meta, i: nat, j: nat)
    requires WellFormed(m) && i <= j <= m.chunkCount
    ensures Offset(m, i) <= Offset(m, j) <= m.total
    ensures i < j ==> Offset(m, i) < Offset(m, j)
    decreases j - i
  {
    if i < j {
      OffsetMonotone(m, i, j - 1);
      NextOffset(m, j - 1);
    } else if j < m.chunkCount {
      NextOffset(m, j);
    }
  }

  /** A byte counter determines the chunk boundary it stands for. */
  lemma OffsetInjective(m: Meta, i: nat, j: nat)
    requires WellFormed(m) && i <= m.chunkCount && j <= m.chunkCount
    requires Offset(m, i) == Offset(m, j)
    ensures i == j
  {
    if i < j {
      OffsetMonotone(m, i, j);
    } else if j < i {
      OffsetMonotone(m, j, i);
    }
  }

  /** `transferOffsetForChunk` gives the start of every chunk up to the count, and of no other. */
  lemma OffsetIsTransferOffset(m: Meta, k: u32)
    requires WellFormed(m)
    ensures TransferOffsetForChunk(m.total, m.chunkSize, k)
         == if k <= m.chunkCount then Some(Offset(m, k)) else None
  {
    hide Times, ChunkCountFor;
    WellFormedIff(m);
    if k < m.chunkCount {
      OffsetStep(m, k);
      TimesIsProduct(k, m.chunkSize);
    }
  }

  /** The lengths the receiver demands for the first `k` chunks, added up. */
  ghost function DemandedBytes(m: Meta, k: nat): nat
    requires WellFormed(m) && k <= m.chunkCount
  {
    if k == 0 then 0
    else
      OffsetStep(m, k - 1);
      DemandedBytes(m, k - 1) + ExpectedSize(m, k - 1)
  }

  /** They fill the source without a gap: the first `k` of them end where chunk `k` starts. */
  lemma {:induction false} DemandedBytesIsOffset(m: Meta, k: nat)
    requires WellFormed(m) && k <= m.chunkCount
    ensures DemandedBytes(m, k) == Offset(m, k)
    ensures k == m.chunkCount ==> DemandedBytes(m, k) == m.total
  {
    if k == 0 {
    } else {
      DemandedBytesIsOffset(m, k - 1);
      OffsetStep(m, k - 1);
    }
  }

  /** Saturation is exactly where the layout breaks: the bytes left for the last chunk fit into
      one chunk if and only if the true count does not exceed `MAX_U32`. */
  lemma LastChunkFitsIffNotSaturated(total: u64, chunkSize: u32)
    requires total > 0 && chunkSize > 0
    ensures total - (ChunkCountFor(total, chunkSize) - 1) * chunkSize <= chunkSize
       <==> 1 + (total - 1) / chunkSize <= MAX_U32
  {
    var q := (total - 1) / chunkSize;
    DivBounds(total - 1, chunkSize);
    var n := ChunkCountFor(total, chunkSize);
    assert (n - 1) * chunkSize + chunkSize == n * chunkSize;
    if q + 1 > MAX_U32 {
      TimesMonotone(n, q, chunkSize);
      TimesIsProduct(n, chunkSize);
      TimesIsProduct(q, chunkSize);
    }
  }

  /** 2^32 chunks of one byte: the count stops at 2^32 - 1, and two bytes are left for the last
      chunk. */
  lemma SaturationCounterexample()
    ensures ChunkCountFor(U32_SIZE, 1) == MAX_U32
    ensures U32_SIZE - (ChunkCountFor(U32_SIZE, 1) - 1) * 1 == 2
    ensures !WellFormed(Meta(U32_SIZE, 1, ChunkCountFor(U32_SIZE, 1)))
  {
  }
}
