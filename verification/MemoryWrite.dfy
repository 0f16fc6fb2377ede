/** The chunks esp_sip_write_mem cuts a memory block into, and what they amount to. */
module MemoryWrite {
  import opened Words
  import opened SipFormat
  import opened SdioTransfers
  import opened TargetRom

  const CHUNK := 236  // SIP_BOOT_BUF_SIZE - WRITE_HDR_LEN

  function ChunkCount(len: nat): nat {
    (len + (CHUNK - 1)) / CHUNK
  }

  // The payload length of chunk `k`: full, or the rest rounded up to four.
  function ChunkLen(len: nat, k: nat): (n: nat)
    requires k < ChunkCount(len)
    ensures 0 < n <= CHUNK && n % 4 == 0
  {
    if len - CHUNK * k < CHUNK then RoundUp4(len - CHUNK * k) else CHUNK
  }

  lemma CountBounds(len: nat)
    ensures CHUNK * ChunkCount(len) - CHUNK < len <= CHUNK * ChunkCount(len) || len == ChunkCount(len) == 0
  {
  }

  lemma RoundUpShift(len: nat, k: nat)
    requires CHUNK * k <= len
    ensures CHUNK * k + RoundUp4(len - CHUNK * k) == RoundUp4(len)
  {
    assert len + 3 == 4 * (59 * k) + (len - CHUNK * k + 3);
  }

  lemma ChunkFits(len: nat, k: nat)
    requires k < ChunkCount(len)
    ensures CHUNK * k < len
    ensures CHUNK * k + ChunkLen(len, k) <= RoundUp4(len)
    ensures k + 1 == ChunkCount(len) ==> CHUNK * k + ChunkLen(len, k) == RoundUp4(len)
    ensures k + 1 < ChunkCount(len) ==> ChunkLen(len, k) == CHUNK
  {
    CountBounds(len);
    RoundUpShift(len, k);
    var rest := len - CHUNK * k;
    assert k + 1 < ChunkCount(len) <==> CHUNK < rest;
    assert rest == CHUNK ==> RoundUp4(rest) == CHUNK;
  }

  function ChunkData(src: seq<Byte>, len: nat, k: nat): (data: seq<Byte>)
    requires RoundUp4(len) <= |src| && k < ChunkCount(len)
    ensures |data| == ChunkLen(len, k)
  {
    ChunkFits(len, k);
    src[CHUNK * k..CHUNK * k + ChunkLen(len, k)]
  }

  /** The transfer for chunk `k` of a block of `len` bytes at `addr`. */
  function Chunk(fc0: Byte, fc1: Byte, txseq: U32, addr: U32, src: seq<Byte>, len: nat, k: nat): Cmd53
    requires RoundUp4(len) <= |src| && k < ChunkCount(len)
  {
    WriteTransfer(fc0, fc1, Wrap32(txseq + k), Wrap32(addr + CHUNK * k), ChunkData(src, len, k))
  }

  // The first `n` chunks.
  function Chunks(fc0: Byte, fc1: Byte, txseq: U32, addr: U32, src: seq<Byte>, len: nat, n: nat): (r: seq<Cmd53>)
    requires RoundUp4(len) <= |src| && n <= ChunkCount(len)
    ensures |r| == n
  {
    if n == 0 then []
    else Chunks(fc0, fc1, txseq, addr, src, len, n - 1) + [Chunk(fc0, fc1, txseq, addr, src, len, n - 1)]
  }

  lemma {:induction false} ChunksAt(fc0: Byte, fc1: Byte, txseq: U32, addr: U32, src: seq<Byte>, len: nat, n: nat,
                                    k: nat)
    requires RoundUp4(len) <= |src| && k < n <= ChunkCount(len)
    ensures Chunks(fc0, fc1, txseq, addr, src, len, n)[k] == Chunk(fc0, fc1, txseq, addr, src, len, k)
  {
    if k < n - 1 {
      ChunksAt(fc0, fc1, txseq, addr, src, len, n - 1, k);
    }
  }

  // Every command as the target decodes it: it fits the boot buffer, is a multiple
  // of four, ends at the end address, carries the next sequence number and writes the
  // stretch that follows the one before.
  lemma ChunkDecoded(fc0: Byte, fc1: Byte, txseq: U32, addr: U32, src: seq<Byte>, len: nat, k: nat)
    requires RoundUp4(len) <= |src| && k < ChunkCount(len) && GetType(fc0) == SIP_CTRL
    ensures var c := Chunk(fc0, fc1, txseq, addr, src, len, k);
            && IsWriteMemory(c)
            && |c.data| <= 256 && |c.data| % 4 == 0 && c.addr + |c.data| == CMD53_END_ADDR
            && DecodeHdr(c.data, 0).seqno == Wrap32(txseq + k)
            && U32At(c.data, 12) == Wrap32(addr + CHUNK * k)
            && (k + 1 < ChunkCount(len) ==> U32At(c.data, 16) == CHUNK)
            && (k + 1 == ChunkCount(len) ==> CHUNK * k + U32At(c.data, 16) == RoundUp4(len))
  {
    ChunkFits(len, k);
    WriteCmdDecodes(fc0, fc1, Wrap32(txseq + k), Wrap32(addr + CHUNK * k), ChunkData(src, len, k));
  }

  // How far the first `n` chunks reach.
  function Reach(len: nat, n: nat): nat
    requires n <= ChunkCount(len)
  {
    if n == ChunkCount(len) then RoundUp4(len) else CHUNK * n
  }

  // All chunks together have the effect of one write of the whole block, padding included.
  lemma {:induction false} ChunksWriteBlock(log: seq<Cmd53>, fc0: Byte, fc1: Byte, txseq: U32, addr: U32,
                                            src: seq<Byte>, len: nat, n: nat, a: int, before: Byte)
    requires RoundUp4(len) <= |src| && n <= ChunkCount(len) && GetType(fc0) == SIP_CTRL
    requires addr + RoundUp4(len) <= TWO32
    ensures Reach(len, n) <= |src|
    ensures Stored(log + Chunks(fc0, fc1, txseq, addr, src, len, n), a, before) ==
            if addr <= a < addr + Reach(len, n) then src[a - addr] else Stored(log, a, before)
  {
    if n == 0 {
      assert log + [] == log;
      assert Reach(len, 0) == 0;
    } else {
      ChunksWriteBlock(log, fc0, fc1, txseq, addr, src, len, n - 1, a, before);
      ChunkStores(log, fc0, fc1, txseq, addr, src, len, n - 1, a, before);
    }
  }

  lemma {:induction false} ChunkStores(log: seq<Cmd53>, fc0: Byte, fc1: Byte, txseq: U32, addr: U32,
                    src: seq<Byte>, len: nat, k: nat, a: int, before: Byte)
    requires RoundUp4(len) <= |src| && k < ChunkCount(len) && GetType(fc0) == SIP_CTRL
    requires addr + RoundUp4(len) <= TWO32
    ensures Reach(len, k) <= Reach(len, k + 1) <= |src|
    ensures Stored(log + Chunks(fc0, fc1, txseq, addr, src, len, k + 1), a, before) ==
            if addr + Reach(len, k) <= a < addr + Reach(len, k + 1) then src[a - addr]
            else Stored(log + Chunks(fc0, fc1, txseq, addr, src, len, k), a, before)
  {
    var done := log + Chunks(fc0, fc1, txseq, addr, src, len, k);
    ReachGrows(src, len, k);
    ChunksSnoc(log, fc0, fc1, txseq, addr, src, len, k);
    var base, data := addr + CHUNK * k, ChunkData(src, len, k);
    WriteStores(done, fc0, fc1, Wrap32(txseq + k), base, data, a, before);
    if base <= a < base + |data| {
      var i := a - addr;
      assert data[i - CHUNK * k] == src[i];
    }
  }

  lemma ChunksSnoc(log: seq<Cmd53>, fc0: Byte, fc1: Byte, txseq: U32, addr: U32, src: seq<Byte>, len: nat, k: nat)
    requires RoundUp4(len) <= |src| && k < ChunkCount(len) && addr + RoundUp4(len) <= TWO32
    ensures addr + CHUNK * k < TWO32
    ensures log + Chunks(fc0, fc1, txseq, addr, src, len, k + 1) ==
            (log + Chunks(fc0, fc1, txseq, addr, src, len, k)) +
            [WriteTransfer(fc0, fc1, Wrap32(txseq + k), addr + CHUNK * k, ChunkData(src, len, k))]
  {
    NoWrap(addr, len, k);
  }

  lemma ReachGrows(src: seq<Byte>, len: nat, k: nat)
    requires RoundUp4(len) <= |src| && k < ChunkCount(len)
    ensures Reach(len, k) == CHUNK * k && Reach(len, k + 1) == CHUNK * k + ChunkLen(len, k) <= |src|
    ensures forall i :: CHUNK * k <= i < Reach(len, k + 1) ==> ChunkData(src, len, k)[i - CHUNK * k] == src[i]
  {
    ChunkFits(len, k);
  }

  lemma NoWrap(addr: U32, len: nat, k: nat)
    requires k < ChunkCount(len) && addr + RoundUp4(len) <= TWO32
    ensures Wrap32(addr + CHUNK * k) == addr + CHUNK * k < TWO32
  {
    ChunkFits(len, k);
  }
}
