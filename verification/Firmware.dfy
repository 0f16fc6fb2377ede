/** The firmware download: the walk over the image, and the order of the boot steps. */
module Firmware {
  import opened Words
  import opened SipFormat
  import opened SdioTransfers
  import opened SdioLink
  import opened TargetRom
  import opened MemoryWrite
  import opened SipLayer

  const MAGIC_HEADER := 0xE9
  const PREFIX_LEN := 24  // sizeof(struct esp_fw_hdr) + 16
  const BLK_HDR_LEN := 8  // struct esp_fw_blk_hdr { load_addr, data_len }

  /** What one block of an image writes: its data and what follows up to a multiple of four. */
  datatype Piece = Piece(addr: U32, data: seq<Byte>)

  function DataLen(fw: seq<Byte>, offset: nat): U32
    requires offset + BLK_HDR_LEN <= |fw|
  {
    U32At(fw, offset + 4)
  }

  // A block header at `offset` and its data, rounded up, lie within the image.
  predicate InBounds(fw: seq<Byte>, offset: nat) {
    && offset + BLK_HDR_LEN <= |fw|
    && offset + BLK_HDR_LEN + RoundUp4(DataLen(fw, offset)) <= |fw|
  }

  function NextOffset(fw: seq<Byte>, offset: nat): nat {
    if InBounds(fw, offset) then offset + BLK_HDR_LEN + DataLen(fw, offset) else offset
  }

  // Where the walk stands after `k` blocks.
  function OffsetAfter(fw: seq<Byte>, k: nat): nat {
    if k == 0 then PREFIX_LEN else NextOffset(fw, OffsetAfter(fw, k - 1))
  }

  // The first `n` blocks lie within the image.
  predicate Walkable(fw: seq<Byte>, n: nat) {
    n == 0 || (Walkable(fw, n - 1) && InBounds(fw, OffsetAfter(fw, n - 1)))
  }

  lemma {:induction false} WalkableAt(fw: seq<Byte>, n: nat, k: nat)
    requires Walkable(fw, n) && k < n
    ensures Walkable(fw, k + 1)
  {
    if k < n - 1 {
      WalkableAt(fw, n - 1, k);
    }
  }

  function PieceAt(fw: seq<Byte>, offset: nat): Piece
    requires InBounds(fw, offset)
  {
    var start := offset + BLK_HDR_LEN;
    Piece(U32At(fw, offset), fw[start..start + RoundUp4(DataLen(fw, offset))])
  }

  function Pieces(fw: seq<Byte>, n: nat): (ps: seq<Piece>)
    requires Walkable(fw, n)
    ensures |ps| == n
  {
    if n == 0 then [] else Pieces(fw, n - 1) + [PieceAt(fw, OffsetAfter(fw, n - 1))]
  }

  predicate Touches(p: Piece, a: int) {
    p.addr <= a < p.addr + |p.data|
  }

  // The byte at `a` after the pieces were written one after the other.
  function Loaded(ps: seq<Piece>, a: int, before: Byte): Byte {
    if ps == [] then before
    else
      var p := ps[|ps| - 1];
      if Touches(p, a) then p.data[a - p.addr] else Loaded(ps[..|ps| - 1], a, before)
  }

  predicate FitsAddressSpace(p: Piece) {
    p.addr + |p.data| <= TWO32
  }

  // From `log0` to `log` address `a`, which held `before` at first, changed as if the
  // pieces had been stored.
  ghost predicate Holds(log0: seq<Cmd53>, log: seq<Cmd53>, ps: seq<Piece>, a: int, before: Byte) {
    Stored(log, a, before) == Loaded(ps, a, Stored(log0, a, before))
  }

  predicate AllFit(ps: seq<Piece>) {
    forall p :: p in ps ==> FitsAddressSpace(p)
  }

  // The whole memory changed as if the pieces had been stored.
  ghost predicate Loads(log0: seq<Cmd53>, log: seq<Cmd53>, ps: seq<Piece>) {
    AllFit(ps) ==> forall a: int, before: Byte :: Holds(log0, log, ps, a, before)
  }

  // Nothing but memory writes was sent in between.
  ghost predicate OnlyWrites(log0: seq<Cmd53>, log: seq<Cmd53>) {
    |log0| <= |log| && log[..|log0|] == log0 && forall i :: |log0| <= i < |log| ==> IsWriteMemory(log[i])
  }

  lemma {:induction false} PieceWritten(log0: seq<Cmd53>, log: seq<Cmd53>, ps: seq<Piece>, fc0: Byte, fc1: Byte,
                                        txseq: U32, p: Piece, src: seq<Byte>, len: nat, a: int, before: Byte)
    requires Holds(log0, log, ps, a, before) && FitsAddressSpace(p)
    requires GetType(fc0) == SIP_CTRL && RoundUp4(len) <= |src| && p.data == src[..RoundUp4(len)]
    ensures Holds(log0, log + Chunks(fc0, fc1, txseq, p.addr, src, len, ChunkCount(len)), ps + [p], a, before)
  {
    ChunksWriteBlock(log, fc0, fc1, txseq, p.addr, src, len, ChunkCount(len), a, before);
    LoadedSnoc(ps, p, a, Stored(log0, a, before));
  }

  lemma {:induction false} PieceLoads(log0: seq<Cmd53>, log: seq<Cmd53>, ps: seq<Piece>, fc0: Byte, fc1: Byte,
                                      txseq: U32, p: Piece, src: seq<Byte>, len: nat)
    requires Loads(log0, log, ps)
    requires GetType(fc0) == SIP_CTRL && RoundUp4(len) <= |src| && p.data == src[..RoundUp4(len)]
    ensures Loads(log0, log + Chunks(fc0, fc1, txseq, p.addr, src, len, ChunkCount(len)), ps + [p])
  {
    if AllFit(ps + [p]) {
      assert p in ps + [p] && forall q :: q in ps ==> q in ps + [p];
      forall a: int, before: Byte
        ensures Holds(log0, log + Chunks(fc0, fc1, txseq, p.addr, src, len, ChunkCount(len)), ps + [p], a, before)
      {
        assert Holds(log0, log, ps, a, before);
        PieceWritten(log0, log, ps, fc0, fc1, txseq, p, src, len, a, before);
      }
    }
  }

  lemma {:induction false} LoadedSnoc(ps: seq<Piece>, p: Piece, a: int, before: Byte)
    ensures Loaded(ps + [p], a, before) == if Touches(p, a) then p.data[a - p.addr] else Loaded(ps, a, before)
  {
    assert (ps + [p])[..|ps|] == ps;
  }

  lemma {:induction false} WritesOnly(log0: seq<Cmd53>, log: seq<Cmd53>, fc0: Byte, fc1: Byte, txseq: U32,
                                      addr: U32, src: seq<Byte>, len: nat, n: nat)
    requires OnlyWrites(log0, log) && GetType(fc0) == SIP_CTRL && RoundUp4(len) <= |src| && n <= ChunkCount(len)
    ensures OnlyWrites(log0, log + Chunks(fc0, fc1, txseq, addr, src, len, n))
  {
    forall k | 0 <= k < n
      ensures IsWriteMemory(Chunks(fc0, fc1, txseq, addr, src, len, n)[k])
    {
      ChunksAt(fc0, fc1, txseq, addr, src, len, n, k);
      ChunkDecoded(fc0, fc1, txseq, addr, src, len, k);
    }
  }

  // An error has a cause: one access that failed, or no memory for the boot buffer.
  predicate Accounted(err: Status, heapOk: bool, failed: nat, failed': nat) {
    && (err == OK || err == FAIL || err == NO_MEM) && (err == NO_MEM ==> !heapOk)
    && failed' == failed + if err == FAIL then 1 else 0
  }

  // One block of the image.
  method DownloadBlock(sip: EspSip, fw: seq<Byte>, offset: nat, heapOk: bool, ghost log0: seq<Cmd53>,
                       ghost done: seq<Piece>)
    returns (err: Status)
    requires sip.Valid() && InBounds(fw, offset)
    requires OnlyWrites(log0, sip.host.card.log)
    requires Loads(log0, sip.host.card.log, done)
    modifies sip`txseq, sip`rawbuf, sip.rawbuf
    modifies sip.host.card`produced, sip.host.card`granted, sip.host.card`failed, sip.host.card`log
    ensures sip.Valid() && (sip.rawbuf == old(sip.rawbuf) || fresh(sip.rawbuf))
    ensures OnlyWrites(log0, sip.host.card.log)
    ensures Accounted(err, heapOk, old(sip.host.card.failed), sip.host.card.failed)
    ensures err == OK ==> Loads(log0, sip.host.card.log, done + [PieceAt(fw, offset)])
  {
    var start, len := offset + BLK_HDR_LEN, DataLen(fw, offset);
    ghost var sent, log, seq0 := 0, sip.host.card.log, sip.txseq;
    err, sent := sip.WriteMem(U32At(fw, offset), fw[start..], len, heapOk);
    if err != NO_MEM {
      WritesOnly(log0, log, sip.rawbuf[0], sip.rawbuf[1], seq0, U32At(fw, offset), fw[start..], len, sent);
    }
    if err == OK {
      ghost var p := PieceAt(fw, offset);
      assert fw[start..][..RoundUp4(len)] == p.data;
      PieceLoads(log0, log, done, sip.rawbuf[0], sip.rawbuf[1], seq0, p, fw[start..], len);
    }
  }

  // The loop over the blocks of the image.
  method DownloadBlocks(sip: EspSip, fw: seq<Byte>, n: nat, heapOk: bool, ghost log0: seq<Cmd53>)
    returns (err: Status, end: nat)
    requires sip.Valid() && Walkable(fw, n) && log0 == sip.host.card.log
    modifies sip`txseq, sip`rawbuf, sip.rawbuf
    modifies sip.host.card`produced, sip.host.card`granted, sip.host.card`failed, sip.host.card`log
    ensures sip.Valid() && OnlyWrites(log0, sip.host.card.log)
    ensures Accounted(err, heapOk, old(sip.host.card.failed), sip.host.card.failed)
    ensures err == OK ==> end == OffsetAfter(fw, n)
    ensures err == OK ==> Loads(log0, sip.host.card.log, Pieces(fw, n))
  {
    var blocks: nat := n;
    ghost var k: nat := 0;
    err, end := OK, PREFIX_LEN;
    while blocks != 0
      invariant sip.Valid() && k + blocks == n && Walkable(fw, k) && end == OffsetAfter(fw, k)
      invariant sip.rawbuf == old(sip.rawbuf) || fresh(sip.rawbuf)
      invariant OnlyWrites(log0, sip.host.card.log)
      invariant Loads(log0, sip.host.card.log, Pieces(fw, k))
      invariant err == OK && sip.host.card.failed == old(sip.host.card.failed)
      decreases blocks
    {
      WalkableAt(fw, n, k);
      err := DownloadBlock(sip, fw, end, heapOk, log0, Pieces(fw, k));
      if err != OK {
        return;
      }
      blocks := blocks - 1;
      end := end + BLK_HDR_LEN + DataLen(fw, end);
      k := k + 1;
    }
  }

  method FwDownload(sip: EspSip, fw: seq<Byte>, heapOk: bool)
    returns (err: Status, end: nat)
    requires sip.Valid() && 2 <= |fw| < TWO32
    requires fw[0] == MAGIC_HEADER ==> Walkable(fw, fw[1])
    modifies sip`txseq, sip`rawbuf, sip.rawbuf
    modifies sip.host.card`produced, sip.host.card`granted, sip.host.card`failed, sip.host.card`log
    ensures sip.Valid()
    ensures OnlyWrites(old(sip.host.card.log), sip.host.card.log)
    ensures fw[0] != MAGIC_HEADER ==>
              && err == FAIL && sip.host.card.log == old(sip.host.card.log)
              && sip.host.card.failed == old(sip.host.card.failed)
    ensures fw[0] == MAGIC_HEADER ==> Accounted(err, heapOk, old(sip.host.card.failed), sip.host.card.failed)
    ensures err == OK ==>
              && fw[0] == MAGIC_HEADER && end == OffsetAfter(fw, fw[1])
              && Loads(old(sip.host.card.log), sip.host.card.log, Pieces(fw, fw[1]))
  {
    end := 0;
    if fw[0] != MAGIC_HEADER {
      return FAIL, 0;
    }
    err, end := DownloadBlocks(sip, fw, fw[1], heapOk, sip.host.card.log);
  }

  // struct sip_cmd_bootup { boot_addr, discard_link = 1 }
  function BootArgs(entryAddr: U32): (s: seq<Byte>)
    ensures |s| == 8 && SmallCmd(s)
  {
    Le32(entryAddr) + Le32(1)
  }

  // esp_sip_bootup up to its answer, with the arguments in `args`; `acked` is the
  // outcome of the ten-second wait.
  method Bootup(sip: EspSip, args: seq<Byte>, heapOk: bool, acked: bool) returns (err: Status)
    requires sip.Valid() && SmallCmd(args)
    modifies sip`state, sip`rxseq, sip`txseq
    modifies sip.host`totalTx, sip.host`Used, sip.host.card`produced, sip.host.card`granted, sip.host.card`failed,
      sip.host.card`log
    ensures sip.Valid() && (err == OK || err == TIMEOUT || err == FAIL)
    ensures err != FAIL ==> sip.host.card.log == old(sip.host.card.log) + [CmdTransfer(CMD_BOOTUP, args)]
    ensures err != FAIL ==> sip.state == PrepareBoot && sip.rxseq == 0 && sip.txseq == 0
    ensures err == FAIL ==> sip.state == old(sip.state)
    ensures !heapOk ==> err == FAIL
    ensures sip.host.card.failed == old(sip.host.card.failed) + if err == FAIL && heapOk then 1 else 0
    ensures err != FAIL ==> (err == OK <==> acked)
  {
    var sent := sip.SendSmall(CMD_BOOTUP, args, heapOk);
    if sent != OK {
      return FAIL;
    }
    sip.SetState(PrepareBoot);
    err := if acked then OK else TIMEOUT;
  }

  // esp_extconn_fw_init. `recvOk` is the outcome of starting the receive task, `booted`
  // tells whether the boot command was attempted, and `mid` is the log at that moment.
  method FwInit(host: SdioHost, fw: seq<Byte>, heapOk: bool, recvOk: bool, acked: bool)
    returns (err: Status, ghost booted: bool, ghost mid: seq<Cmd53>)
    requires host.Valid() && 8 <= |fw| < TWO32
    requires fw[0] == MAGIC_HEADER ==> Walkable(fw, fw[1])
    modifies host`totalTx, host`Used, host.card`produced, host.card`granted, host.card`failed, host.card`log
    ensures OnlyWrites(old(host.card.log), mid)
    ensures !booted ==> err != OK && host.card.log == mid
    ensures err == OK ==> booted && acked
    ensures booted && err != FAIL ==> (err == OK <==> acked) && (err == OK || err == TIMEOUT)
    ensures err != OK && err != TIMEOUT ==>
              fw[0] != MAGIC_HEADER || !recvOk || !heapOk || host.card.failed > old(host.card.failed)
    ensures err == TIMEOUT ==> booted && !acked
    ensures booted ==>
              && fw[0] == MAGIC_HEADER && recvOk
              && Loads(old(host.card.log), mid, Pieces(fw, fw[1]))
    ensures booted && err != FAIL ==>
              host.card.log == mid + [CmdTransfer(CMD_BOOTUP, BootArgs(U32At(fw, 4)))]
  {
    booted, mid := false, host.card.log;
    var sip := new EspSip(host);
    var end;
    err, end := FwDownload(sip, fw, heapOk);
    mid := host.card.log;
    if err != OK {
      return;
    }
    if !recvOk {
      err := FAIL;
      return;
    }
    booted := true;
    err := Bootup(sip, BootArgs(U32At(fw, 4)), heapOk, acked);
  }

  // The boot command on the wire: number 0, the entry address, and the link discarded.
  lemma BootOnWire(fc1: Byte, cid: U32, entryAddr: U32, p: seq<Byte>)
    ensures p == CommandPacket(fc1, cid, BootArgs(entryAddr)) ==>
              && |p| == 20 && DecodeHdr(p, 0).info == cid && DecodeHdr(p, 0).seqno == 0
              && U32At(p, 12) == entryAddr && U32At(p, 16) == 1
  {
    if p == CommandPacket(fc1, cid, BootArgs(entryAddr)) {
      CommandReadBack(fc1, cid, BootArgs(entryAddr), p);
      TwoWords(p, BootArgs(entryAddr), entryAddr, 1);
    }
  }

  lemma TwoWords(p: seq<Byte>, args: seq<Byte>, x: U32, y: U32)
    requires |p| == 20 && p[12..] == args && args == Le32(x) + Le32(y)
    ensures U32At(p, 12) == x && U32At(p, 16) == y
  {
    assert p[12..16] == p[12..][..4] == Le32(x) && p[16..20] == p[12..][4..] == Le32(y);
    Le32RoundTrip(x, p, 12);
    Le32RoundTrip(y, p, 16);
  }

  // The data of a boot command is no memory write, so the order above is visible in the log.
  lemma BootIsNoWrite(entryAddr: U32)
    ensures !IsWriteMemory(CmdTransfer(CMD_BOOTUP, BootArgs(entryAddr)))
  {
    var h := CommandHdr(SetSync(0), CMD_BOOTUP, 8);
    var p := CommandPacket(SetSync(0), CMD_BOOTUP, BootArgs(entryAddr));
    assert p[0..HDR_LEN] == EncodeHdr(h);
    HdrRoundTrip(h, p, 0);
  }
}
