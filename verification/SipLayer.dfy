/** The SIP layer: memory writes in the boot phase, commands, and the events of the target. */
module SipLayer {
  import opened Words
  import opened SipFormat
  import opened SdioTransfers
  import opened SdioLink
  import opened TargetRom
  import opened MemoryWrite

  const BOOT_BUF_SIZE := 256

  const BOOTUP_READ := 14    // how much of struct sip_evt_bootup2 is read

  datatype SipState = Init | PrepareBoot | Boot | SendInit | WaitBootup | Run | Suspend | Stop

  /** What esp_sip_post_init takes from a bootup event. */
  datatype BootInfo = BootInfo(txBlksz: U16, rxBlksz: U16, creditToReserve: U32, noiseFloor: U32, wifiAddr: seq<Byte>)

  /** The arguments of coex_schm_status_set. */
  datatype Coex = Coex(wifi: U16, ble: U16, bt: U16)

  // A signed 16-bit value stored in an unsigned 32-bit field.
  function SignExtend(x: U16): U32 {
    if x < 0x8000 then x else x + 0xFFFF_0000
  }

  // The bootup event behind a header at `at`.
  function BootupInfo(mem: seq<Byte>, at: nat): BootInfo
    requires at + HDR_LEN + BOOTUP_READ <= |mem|
  {
    var e := at + HDR_LEN;
    BootInfo(U16At(mem, e), U16At(mem, e + 8), mem[e + 10], SignExtend(U16At(mem, e + 12)), mem[e + 2..e + 8])
  }

  function CoexInfo(mem: seq<Byte>, at: nat): Coex
    requires at + HDR_LEN + BOOTUP_READ <= |mem|
  {
    Coex(U16At(mem, at + 12), U16At(mem, at + 14), U16At(mem, at + 16))
  }

  datatype Status = OK | NO_MEM | FAIL | TIMEOUT

  // The bytes a transfer of a command takes from memory: the command as esp_sip_send_cmd
  // lays it out, always with number 0, and `beyond`, what lies behind its buffer up to a
  // multiple of four.
  function CmdWire(cid: U32, cmd: seq<Byte>, beyond: seq<Byte>): (s: seq<Byte>)
    requires Behind(cmd, beyond)
    ensures |s| == RoundUp4(HDR_LEN + |cmd|)
  {
    CommandPacket(SetSync(0), cid, cmd) + beyond
  }

  predicate Behind(cmd: seq<Byte>, beyond: seq<Byte>) {
    HDR_LEN + |cmd| < TWO16 && HDR_LEN + |cmd| + |beyond| == RoundUp4(HDR_LEN + |cmd|)
  }

  // The transfer that carries a small command of a whole number of words; the two sent
  // this way, BOOTUP and INIT, have 8 and 144 bytes of arguments.
  function CmdTransfer(cid: U32, cmd: seq<Byte>): Cmd53
    requires SmallCmd(cmd)
  {
    Cmd53(true, FUNC_WIFI, CMD53_END_ADDR - (HDR_LEN + |cmd|), false, true, CommandPacket(SetSync(0), cid, cmd))
  }

  lemma CmdIsOneTransfer(cid: U32, cmd: seq<Byte>)
    requires SmallCmd(cmd)
    ensures Behind(cmd, [])
    ensures Transfers(true, FUNC_WIFI, true, CmdWire(cid, cmd, []), HDR_LEN + |cmd|) == [CmdTransfer(cid, cmd)]
  {
    RoundUp4Bounds(HDR_LEN + |cmd|);
    var packet := CommandPacket(SetSync(0), cid, cmd);
    assert packet + [] == packet;
    SmallPacket(true, true, packet);
  }

  // The arguments of INIT: struct sip_cmd_init and the fifteen bytes behind it that the
  // length of the table passed for it takes along.
  function InitArgs(open: Byte, phyTable: seq<Byte>, beyond: seq<Byte>): (s: seq<Byte>)
    requires |phyTable| == 144 && |beyond| == 15
    ensures |s| == 144 && SmallCmd(s)
  {
    [open] + phyTable[8..136] + beyond
  }

  // INIT on the wire: number 0, the open flag, and bytes 8 to 135 of the table.
  lemma InitOnWire(fc1: Byte, cid: U32, open: Byte, phyTable: seq<Byte>, beyond: seq<Byte>, p: seq<Byte>)
    requires |phyTable| == 144 && |beyond| == 15 && p == CommandPacket(fc1, cid, InitArgs(open, phyTable, beyond))
    ensures |p| == 156 && DecodeHdr(p, 0).info == cid && DecodeHdr(p, 0).seqno == 0
    ensures p[12] == open && p[13..141] == phyTable[8..136] && p[141..] == beyond
  {
    var args := InitArgs(open, phyTable, beyond);
    CommandReadBack(fc1, cid, args, p);
    assert args == [open] + phyTable[8..136] + beyond;
    BehindHeader(p, args);
  }

  lemma BehindHeader(p: seq<Byte>, args: seq<Byte>)
    requires |p| == 156 && |args| == 144 && p[12..] == args
    ensures p[12] == args[0] && p[13..141] == args[1..129] && p[141..] == args[129..]
  {
    assert p[13..141] == p[12..][1..129] && p[141..] == p[12..][129..];
  }

  /** A call of esp_sip_parse_events: the memory it is given and where the packet starts. */
  datatype EventCall = EventCall(mem: seq<Byte>, at: nat)

  /** What events act on: the state, what bootup reported, whether the boot buffer is there, how
      often the boot semaphore was given, coexistence reports, transfers, failed accesses, and the
      calls so far. */
  datatype SipView = SipView(state: SipState, info: BootInfo, raw: bool, gives: nat, coex: seq<Coex>,
                             log: seq<Cmd53>, failed: nat, calls: seq<EventCall>)

  /** What handling an event depends on besides the packet: whether Wi-Fi is built in, the
      arguments of INIT, and whether there is memory for it. */
  datatype Env = Env(wifi: bool, initData: seq<Byte>, heapOk: bool)

  // What one event does. INIT does not go out if there is no memory for it or its transfer
  // fails, which leaves the state at SEND_INIT.
  ghost predicate EventHandled(v: SipView, mem: seq<Byte>, at: nat, e: Env, v': SipView)
    requires at + HDR_LEN + BOOTUP_READ <= |mem| && SmallCmd(e.initData)
  {
    var w := v.(calls := v.calls + [EventCall(mem, at)]);
    if Answers(v.state, mem[at + 1]) then
      if !e.heapOk then v' == w.(state := SendInit)
      else
        || v' == w.(state := WaitBootup, log := v.log + [CmdTransfer(CMD_INIT, e.initData)])
        || v' == w.(state := SendInit, failed := v.failed + 1)
    else if mem[at + 1] == EVT_BOOTUP then
      v' == w.(state := Run, info := BootupInfo(mem, at), raw := false, gives := v.gives + 1)
    else if e.wifi && mem[at + 1] == EVT_COEX_STATE then v' == w.(coex := v.coex + [CoexInfo(mem, at)])
    else v' == w
  }

  // Only TARGET_ON is answered, and only in the two states before INIT.
  lemma AnswersTable(state: SipState, evt: nat)
    ensures Answers(state, evt) <==> evt == 0 && (state.PrepareBoot? || state.Boot?)
  {
  }

  // struct sip_evt_bootup2 as the target lays it out.
  function BootupBytes(tx: U16, mac: seq<Byte>, rx: U16, credit: Byte, options: Byte, noise: int): (s: seq<Byte>)
    requires |mac| == 6
    ensures |s| == BOOTUP_READ
  {
    Le16(tx) + mac + Le16(rx) + [credit, options] + Le16(noise % TWO16)
  }

  // The host takes over what the target reports; the noise floor keeps its sign.
  lemma BootupRoundTrip(mem: seq<Byte>, at: nat, tx: U16, mac: seq<Byte>, rx: U16, credit: Byte, options: Byte,
                        noise: int)
    requires |mac| == 6 && -0x8000 <= noise < 0x8000 && at + HDR_LEN + BOOTUP_READ <= |mem|
    requires mem[at + HDR_LEN..at + HDR_LEN + BOOTUP_READ] == BootupBytes(tx, mac, rx, credit, options, noise)
    ensures BootupInfo(mem, at) == BootInfo(tx, rx, credit, Wrap32(noise), mac)
  {
    var e, s := at + HDR_LEN, BootupBytes(tx, mac, rx, credit, options, noise);
    assert s[0..2] == Le16(tx) && s[2..8] == mac && s[8..10] == Le16(rx) && s[12..14] == Le16(noise % TWO16);
    SliceOfSlice(mem, e, e + BOOTUP_READ, 0, 2);
    SliceOfSlice(mem, e, e + BOOTUP_READ, 2, 8);
    SliceOfSlice(mem, e, e + BOOTUP_READ, 8, 10);
    SliceOfSlice(mem, e, e + BOOTUP_READ, 12, 14);
    Le16RoundTrip(tx, mem, e);
    Le16RoundTrip(rx, mem, e + 8);
    Le16RoundTrip(noise % TWO16, mem, e + 12);
    assert mem[e + 10] == s[10];
    SignKept(noise);
  }

  lemma SignKept(noise: int)
    requires -0x8000 <= noise < 0x8000
    ensures SignExtend(noise % TWO16) == Wrap32(noise)
  {
  }

  // struct sip_evt_coex_state as the target lays it out.
  lemma CoexRoundTrip(mem: seq<Byte>, at: nat, wifi: U16, ble: U16, bt: U16)
    requires at + HDR_LEN + BOOTUP_READ <= |mem|
    requires mem[at + HDR_LEN..at + HDR_LEN + 6] == Le16(wifi) + Le16(ble) + Le16(bt)
    ensures CoexInfo(mem, at) == Coex(wifi, ble, bt)
  {
    var e, s := at + HDR_LEN, Le16(wifi) + Le16(ble) + Le16(bt);
    assert s[0..2] == Le16(wifi) && s[2..4] == Le16(ble) && s[4..6] == Le16(bt);
    SliceOfSlice(mem, e, e + 6, 0, 2);
    SliceOfSlice(mem, e, e + 6, 2, 4);
    SliceOfSlice(mem, e, e + 6, 4, 6);
    Le16RoundTrip(wifi, mem, e);
    Le16RoundTrip(ble, mem, e + 2);
    Le16RoundTrip(bt, mem, e + 4);
  }

  predicate SmallCmd(cmd: seq<Byte>) {
    HDR_LEN + |cmd| < BLOCK_SIZE && |cmd| % 4 == 0
  }

  // Only a target that was told to boot is answered when it reports being on.
  predicate Answers(state: SipState, evt: nat) {
    evt == EVT_TARGET_ON && (state == PrepareBoot || state == Boot)
  }

  method FillZero(dst: array<Byte>, at: nat, n: nat)
    requires at + n <= dst.Length
    modifies dst
    ensures forall k :: 0 <= k < at || at + n <= k < dst.Length ==> dst[k] == old(dst[k])
    ensures forall k :: at <= k < at + n ==> dst[k] == 0
  {
    for i := 0 to n
      invariant forall k :: at <= k < at + i ==> dst[k] == 0
      invariant forall k :: 0 <= k < at || at + n <= k < dst.Length ==> dst[k] == old(dst[k])
    {
      dst[at + i] := 0;
    }
  }

  // The pieces of a command buffer are the command.
  lemma CommandPieces(s: seq<Byte>, seqno: U32, addr: U32, data: seq<Byte>)
    requires |data| <= CHUNK && WRITE_HDR_LEN + |data| <= |s|
    requires s[2..4] == Le16(WRITE_HDR_LEN + |data|) && s[4..8] == Le32(CMD_WRITE_MEMORY)
    requires s[8..12] == Le32(seqno) && s[12..16] == Le32(addr) && s[16..20] == Le32(|data|)
    requires s[20..20 + |data|] == data
    ensures s[..20 + |data|] == WriteCmd(s[0], s[1], seqno, addr, data)
  {
    assert s[..20 + |data|] ==
           [s[0], s[1]] + s[2..4] + s[4..8] + s[8..12] + s[12..16] + s[16..20] + s[20..20 + |data|];
  }

  lemma PacketPieces(s: seq<Byte>, h: seq<Byte>, cid: U32, cmd: seq<Byte>, beyond: seq<Byte>)
    requires Behind(cmd, beyond) && |s| == HDR_LEN + |cmd| + |beyond|
    requires h == EncodeHdr(CommandHdr(SetSync(0), cid, |cmd|)) && s[0..HDR_LEN] == h
    requires s[HDR_LEN..HDR_LEN + |cmd|] == cmd && s[HDR_LEN + |cmd|..HDR_LEN + |cmd| + |beyond|] == beyond
    ensures s == CmdWire(cid, cmd, beyond)
  {
    ThreePieces(s, h, cmd, beyond);
  }

  lemma ThreePieces(s: seq<Byte>, a: seq<Byte>, b: seq<Byte>, c: seq<Byte>)
    requires |s| == |a| + |b| + |c| && s[0..|a|] == a && s[|a|..|a| + |b|] == b && s[|a| + |b|..|a| + |b| + |c|] == c
    ensures s == a + b + c
  {
    assert s == s[0..|a|] + s[|a|..|a| + |b|] + s[|a| + |b|..|a| + |b| + |c|];
  }

  // Fills in one write command; the first two bytes and the command id are in place.
  method FillCommand(rawbuf: array<Byte>, seqno: U32, addr: U32, data: seq<Byte>)
    requires rawbuf.Length == BOOT_BUF_SIZE && |data| <= CHUNK
    requires rawbuf[4..8] == Le32(CMD_WRITE_MEMORY)
    modifies rawbuf
    ensures rawbuf[0] == old(rawbuf[0]) && rawbuf[1] == old(rawbuf[1]) && rawbuf[4..8] == Le32(CMD_WRITE_MEMORY)
    ensures rawbuf[..WRITE_HDR_LEN + |data|] == WriteCmd(rawbuf[0], rawbuf[1], seqno, addr, data)
  {
    CopyInto(rawbuf, 2, Le16(|data| + WRITE_HDR_LEN));
    CopyInto(rawbuf, 8, Le32(seqno));
    CopyInto(rawbuf, 16, Le32(|data|));
    CopyInto(rawbuf, 12, Le32(addr));
    CopyInto(rawbuf, WRITE_HDR_LEN, data);
    CommandPieces(rawbuf[..], seqno, addr, data);
  }

  // The array stands for the allocation and the bytes behind it.
  method BuildCmd(cid: U32, cmd: seq<Byte>, beyond: seq<Byte>) returns (buffer: array<Byte>)
    requires Behind(cmd, beyond)
    ensures fresh(buffer) && buffer[..] == CmdWire(cid, cmd, beyond)
  {
    buffer := new Byte[HDR_LEN + |cmd| + |beyond|];
    var h := EncodeHdr(CommandHdr(SetSync(0), cid, |cmd|));
    CopyInto(buffer, 0, h);
    CopyInto(buffer, HDR_LEN, cmd);
    CopyInto(buffer, HDR_LEN + |cmd|, beyond);
    PacketPieces(buffer[..], h, cid, cmd, beyond);
  }

  class EspSip {
    const host: SdioHost
    var state: SipState
    var rxseq: U32
    var txseq: U32
    var rawbuf: array?<Byte>
    var txBlksz: U16
    var rxBlksz: U16
    var creditToReserve: U32
    var noiseFloor: U32
    var wifiAddr: seq<Byte>
    var coexCalls: seq<Coex>  // every call of coex_schm_status_set, oldest first
    var gives: nat            // how often the boot semaphore was given
    ghost var calls: seq<EventCall>  // every call of ParseEvents, oldest first

    ghost function View(): SipView
      reads this, host, host.card
    {
      SipView(state, Info(), rawbuf != null, gives, coexCalls, host.card.log, host.card.failed, calls)
    }

    ghost function Info(): BootInfo
      reads this
    {
      BootInfo(txBlksz, rxBlksz, creditToReserve, noiseFloor, wifiAddr)
    }

    ghost predicate Valid()
      reads this, host, host.card
    {
      host.Valid() && (rawbuf != null ==> rawbuf.Length == BOOT_BUF_SIZE)
    }

    // esp_sip_init
    constructor (host: SdioHost)
      requires host.Valid()
      ensures Valid() && this.host == host && state == Init
      ensures rxseq == 0 && txseq == 0
      ensures View() == SipView(Init, BootInfo(0, 0, 0, 0, [0, 0, 0, 0, 0, 0]), false, 0, [],
                                host.card.log, host.card.failed, [])
    {
      this.host := host;
      state, rxseq, txseq, rawbuf, txBlksz, rxBlksz := Init, 0, 0, null, 0, 0;
      creditToReserve, noiseFloor, wifiAddr, coexCalls := 0, 0, [0, 0, 0, 0, 0, 0], [];
      gives, calls := 0, [];
    }

    // Sends the first `n` bytes of the boot buffer so that they end at the end address.
    method SendRaw(n: nat) returns (err: Status)
      requires Valid() && rawbuf != null && 0 < n <= BOOT_BUF_SIZE && n % 4 == 0
      modifies host.card`produced, host.card`granted, host.card`failed, host.card`log
      ensures Valid() && (err == OK || err == FAIL)
      ensures host.card.failed == old(host.card.failed) + if err == FAIL then 1 else 0
      ensures host.card.log == old(host.card.log) +
                if err == OK then [Cmd53(true, FUNC_WIFI, CMD53_END_ADDR - n, false, true, rawbuf[..n])] else []
    {
      ByteTransfersAligned(true, FUNC_WIFI, CMD53_END_ADDR - n, rawbuf[0..n]);
      var e := host.WriteBytes(FUNC_WIFI, CMD53_END_ADDR - n, rawbuf, 0, RoundUp4(n));
      err := if e == Ok then OK else FAIL;
    }

    // The body of the chunking loop: chunk `k`, with `remains` bytes to go.
    method WriteChunk(addr: U32, buf: seq<Byte>, len: U32, remains: nat, ghost k: nat)
      returns (err: Status, remains': nat)
      requires Valid() && rawbuf != null && rawbuf[4..8] == Le32(CMD_WRITE_MEMORY)
      requires RoundUp4(len) <= |buf| && k < ChunkCount(len) && remains == len - CHUNK * k
      modifies this`txseq, rawbuf, host.card`produced, host.card`granted, host.card`failed, host.card`log
      ensures Valid() && txseq == Wrap32(old(txseq) + 1)
      ensures rawbuf[0] == old(rawbuf[0]) && rawbuf[1] == old(rawbuf[1]) && rawbuf[4..8] == Le32(CMD_WRITE_MEMORY)
      ensures remains' == if k + 1 == ChunkCount(len) then 0 else len - CHUNK * (k + 1)
      ensures err == OK || err == FAIL
      ensures host.card.failed == old(host.card.failed) + if err == FAIL then 1 else 0
      ensures host.card.log == old(host.card.log) +
                if err == OK
                then [WriteTransfer(rawbuf[0], rawbuf[1], old(txseq), Wrap32(addr + CHUNK * k), ChunkData(buf, len, k))]
                else []
    {
      var off := len - remains;
      var loadaddr := Wrap32(addr + off);
      var bufsize;
      bufsize, remains' := CutChunk(len, remains, k);
      FillCommand(rawbuf, txseq, loadaddr, buf[off..off + bufsize]);
      txseq := Wrap32(txseq + 1);
      err := SendRaw(WRITE_HDR_LEN + bufsize);
    }

    // How much goes into this chunk; the place of a short one is zeroed first.
    method CutChunk(len: U32, remains: nat, ghost k: nat) returns (bufsize: nat, remains': nat)
      requires rawbuf != null && rawbuf.Length == BOOT_BUF_SIZE
      requires k < ChunkCount(len) && remains == len - CHUNK * k
      modifies rawbuf
      ensures bufsize == ChunkLen(len, k) && CHUNK * k + bufsize <= RoundUp4(len)
      ensures remains' == if k + 1 == ChunkCount(len) then 0 else len - CHUNK * (k + 1)
      ensures forall j :: 0 <= j < WRITE_HDR_LEN ==> rawbuf[j] == old(rawbuf[j])
    {
      ChunkCut(len, k);
      if remains < BOOT_BUF_SIZE - WRITE_HDR_LEN {
        bufsize := RoundUp4(remains);
        FillZero(rawbuf, WRITE_HDR_LEN, bufsize);
        remains' := 0;
      } else {
        bufsize := BOOT_BUF_SIZE - WRITE_HDR_LEN;
        remains' := remains - bufsize;
      }
    }

    // Allocates the boot buffer on first use and stamps the parts all chunks share.
    method PrepareRaw(heapOk: bool) returns (ok: bool)
      requires Valid()
      modifies this`rawbuf, rawbuf
      ensures Valid() && (rawbuf == old(rawbuf) || fresh(rawbuf))
      ensures ok <==> old(rawbuf) != null || heapOk
      ensures ok ==> rawbuf != null && rawbuf[4..8] == Le32(CMD_WRITE_MEMORY) && GetType(rawbuf[0]) == SIP_CTRL
    {
      if rawbuf == null {
        if !heapOk {
          return false;
        }
        rawbuf := new Byte[BOOT_BUF_SIZE];
      }
      TypeSet(rawbuf[0], SIP_CTRL);
      rawbuf[0] := SetType(rawbuf[0], SIP_CTRL);
      CopyInto(rawbuf, 4, Le32(CMD_WRITE_MEMORY));
      ok := true;
    }

    // The chunking loop. `sent` counts the commands the target accepted.
    method WriteAll(addr: U32, buf: seq<Byte>, len: U32) returns (err: Status, ghost sent: nat)
      requires Valid() && RoundUp4(len) <= |buf|
      requires rawbuf != null && rawbuf[4..8] == Le32(CMD_WRITE_MEMORY)
      modifies this`txseq, rawbuf, host.card`produced, host.card`granted, host.card`failed, host.card`log
      ensures Valid() && rawbuf[0] == old(rawbuf[0]) && rawbuf[1] == old(rawbuf[1])
      ensures host.card.failed == old(host.card.failed) + if err == FAIL then 1 else 0
      ensures (err == OK || err == FAIL) && sent <= ChunkCount(len) && (err == OK <==> sent == ChunkCount(len))
      ensures txseq == Wrap32(old(txseq) + sent + (if err == OK then 0 else 1))
      ensures host.card.log == old(host.card.log) + Chunks(rawbuf[0], rawbuf[1], old(txseq), addr, buf, len, sent)
    {
      sent := 0;
      var remains: nat := len;
      CountBounds(len);
      ghost var fc0, fc1, seq0, log := rawbuf[0], rawbuf[1], txseq, host.card.log;
      while remains != 0
        invariant Valid() && rawbuf[0] == fc0 && rawbuf[1] == fc1 && rawbuf[4..8] == Le32(CMD_WRITE_MEMORY)
        invariant sent <= ChunkCount(len) && remains == if sent == ChunkCount(len) then 0 else len - CHUNK * sent
        invariant txseq == Wrap32(seq0 + sent) && host.card.failed == old(host.card.failed)
        invariant host.card.log == log + Chunks(fc0, fc1, seq0, addr, buf, len, sent)
        decreases remains
      {
        WrapAdds(seq0 + sent, 1);
        ChunkFits(len, sent);
        err, remains := WriteChunk(addr, buf, len, remains, sent);
        if err != OK {
          return;
        }
        sent := sent + 1;
      }
      err := OK;
    }

    method SendCmd(cid: U32, cmd: seq<Byte>, beyond: seq<Byte>, heapOk: bool) returns (err: Status)
      requires Valid() && Behind(cmd, beyond)
      modifies this`rxseq, this`txseq, host`totalTx, host`Used, host.card`produced, host.card`granted,
        host.card`failed, host.card`log
      ensures Valid()
      ensures (err == OK || err == FAIL || err == NO_MEM) && (err == NO_MEM <==> !heapOk)
      ensures host.card.failed == old(host.card.failed) + if err == FAIL then 1 else 0
      ensures err == OK ==>
                host.card.log == old(host.card.log) +
                Transfers(true, FUNC_WIFI, true, CmdWire(cid, cmd, beyond), HDR_LEN + |cmd|)
      ensures err != OK && HDR_LEN + |cmd| < BLOCK_SIZE ==> host.card.log == old(host.card.log)
      ensures rxseq == if heapOk && cid == CMD_BOOTUP then 0 else old(rxseq)
      ensures txseq == if !heapOk then old(txseq)
                       else if cid == CMD_BOOTUP then 0
                       else if cid == CMD_INIT then Wrap32(old(txseq) + 1) else old(txseq)
    {
      if !heapOk {
        return NO_MEM;
      }
      CountCmd(cid);
      var buffer := BuildCmd(cid, cmd, beyond);
      err := SendBuilt(buffer, HDR_LEN + |cmd|);
    }

    // A command that is one transfer.
    method SendSmall(cid: U32, cmd: seq<Byte>, heapOk: bool) returns (err: Status)
      requires Valid() && SmallCmd(cmd)
      modifies this`rxseq, this`txseq, host`totalTx, host`Used, host.card`produced, host.card`granted,
        host.card`failed, host.card`log
      ensures Valid()
      ensures (err == OK || err == FAIL || err == NO_MEM) && (err == NO_MEM <==> !heapOk)
      ensures host.card.failed == old(host.card.failed) + if err == FAIL then 1 else 0
      ensures host.card.log == old(host.card.log) + if err == OK then [CmdTransfer(cid, cmd)] else []
      ensures rxseq == if heapOk && cid == CMD_BOOTUP then 0 else old(rxseq)
      ensures txseq == if !heapOk then old(txseq)
                       else if cid == CMD_BOOTUP then 0
                       else if cid == CMD_INIT then Wrap32(old(txseq) + 1) else old(txseq)
    {
      CmdIsOneTransfer(cid, cmd);
      err := SendCmd(cid, cmd, [], heapOk);
    }

    // What a command does to the sequence counters, whether or not it can be sent.
    method CountCmd(cid: U32)
      requires Valid()
      modifies this`rxseq, this`txseq
      ensures Valid()
      ensures rxseq == if cid == CMD_BOOTUP then 0 else old(rxseq)
      ensures txseq == if cid == CMD_BOOTUP then 0 else if cid == CMD_INIT then Wrap32(old(txseq) + 1) else old(txseq)
    {
      if cid == CMD_BOOTUP {
        rxseq := 0;
        txseq := 0;
      } else if cid == CMD_INIT {
        txseq := Wrap32(txseq + 1);
      }
    }

    method SendBuilt(buffer: array<Byte>, len: U16) returns (err: Status)
      requires Valid() && buffer.Length == RoundUp4(len)
      modifies host`totalTx, host`Used, host.card`produced, host.card`granted, host.card`failed, host.card`log
      ensures Valid() && (err == OK || err == FAIL)
      ensures err == OK ==>
                host.card.log == old(host.card.log) + Transfers(true, FUNC_WIFI, true, buffer[..], len)
      ensures err != OK && len < BLOCK_SIZE ==> host.card.log == old(host.card.log)
      ensures host.card.failed == old(host.card.failed) + if err == FAIL then 1 else 0
    {
      assert buffer[..RoundUp4(len)] == buffer[..];
      var e := host.SendPacket(FUNC_WIFI, buffer, len);
      err := if e == Ok then OK else FAIL;
    }

    method SetState(s: SipState)
      requires Valid()
      modifies this`state
      ensures Valid() && state == s
    {
      state := s;
    }

    method AnswerTargetOn(cid: U32, initData: seq<Byte>, heapOk: bool) returns (err: Status)
      requires Valid() && cid != CMD_BOOTUP && SmallCmd(initData)
      modifies this`state, this`rxseq, this`txseq
      modifies host`totalTx, host`Used, host.card`produced, host.card`granted, host.card`failed, host.card`log
      ensures Valid() && rxseq == old(rxseq)
      ensures state == if err == OK then WaitBootup else SendInit
      ensures txseq == if heapOk && cid == CMD_INIT then Wrap32(old(txseq) + 1) else old(txseq)
      ensures (err == OK || err == FAIL || err == NO_MEM) && (err == NO_MEM <==> !heapOk)
      ensures host.card.failed == old(host.card.failed) + if err == FAIL then 1 else 0
      ensures host.card.log == old(host.card.log) + if err == OK then [CmdTransfer(cid, initData)] else []
      ensures View() == old(View()).(state := state, log := host.card.log, failed := host.card.failed)
    {
      SetState(SendInit);
      err := SendSmall(cid, initData, heapOk);
      if err == OK {
        SetState(WaitBootup);
      }
    }

    // esp_sip_post_init
    method PostInit(mem: seq<Byte>, at: nat)
      requires Valid() && at + HDR_LEN + BOOTUP_READ <= |mem|
      modifies this`txBlksz, this`rxBlksz, this`creditToReserve, this`noiseFloor, this`wifiAddr
      ensures Valid() && Info() == BootupInfo(mem, at)
    {
      var e := at + HDR_LEN;
      txBlksz, rxBlksz := U16At(mem, e), U16At(mem, e + 8);
      creditToReserve, noiseFloor := mem[e + 10], SignExtend(U16At(mem, e + 12));
      wifiAddr := mem[e + 2..e + 8];
    }

    // The bootup event; the last step gives the semaphore.
    method FinishBoot(mem: seq<Byte>, at: nat)
      requires Valid() && at + HDR_LEN + BOOTUP_READ <= |mem|
      modifies this`state, this`rawbuf, this`gives
      modifies this`txBlksz, this`rxBlksz, this`creditToReserve, this`noiseFloor, this`wifiAddr
      ensures Valid() && state == Run && rawbuf == null && Info() == BootupInfo(mem, at) && gives == old(gives) + 1
      ensures View() == old(View()).(state := Run, info := BootupInfo(mem, at), raw := false, gives := gives)
    {
      rawbuf := null;
      PostInit(mem, at);
      state := Run;
      gives := gives + 1;
    }

    // `mem` holds a control packet at `at`; `gave` says whether the boot semaphore was given.
    method ParseEvents(mem: seq<Byte>, at: nat, wifi: bool, initData: seq<Byte>, heapOk: bool)
      returns (err: Status, gave: bool)
      requires Valid() && SmallCmd(initData)
      requires at + HDR_LEN + BOOTUP_READ <= |mem|
      modifies this
      modifies host`totalTx, host`Used, host.card`produced, host.card`granted, host.card`failed, host.card`log
      ensures Valid() && rxseq == old(rxseq)
      ensures EventHandled(old(View()), mem, at, Env(wifi, initData, heapOk), View())
      ensures gave <==> mem[at + 1] == EVT_BOOTUP
      ensures state == if Answers(old(state), mem[at + 1]) then (if err == OK then WaitBootup else SendInit)
                       else if gave then Run else old(state)
      ensures txseq == if Answers(old(state), mem[at + 1]) && heapOk then Wrap32(old(txseq) + 1) else old(txseq)
      ensures host.card.failed == old(host.card.failed) + if err == FAIL then 1 else 0
      ensures err == NO_MEM <==> Answers(old(state), mem[at + 1]) && !heapOk
      ensures host.card.log == old(host.card.log) +
                if Answers(old(state), mem[at + 1]) && err == OK then [CmdTransfer(CMD_INIT, initData)] else []
      ensures !Answers(old(state), mem[at + 1]) ==> err == OK && host.Used == old(host.Used)
      ensures rawbuf == if gave then null else old(rawbuf)
      ensures Info() == if gave then BootupInfo(mem, at) else old(Info())
      ensures coexCalls == old(coexCalls) + if wifi && mem[at + 1] == EVT_COEX_STATE then [CoexInfo(mem, at)] else []
    {
      err, gave := OK, false;
      calls := calls + [EventCall(mem, at)];
      ghost var w := View();
      var evt := mem[at + 1];
      if evt == EVT_TARGET_ON {
        if state == PrepareBoot || state == Boot {
          err := AnswerTargetOn(CMD_INIT, initData, heapOk);
        }
      } else if evt == EVT_BOOTUP {
        FinishBoot(mem, at);
        gave := true;
      } else if wifi && evt == EVT_COEX_STATE {
        coexCalls := coexCalls + [CoexInfo(mem, at)];
        assert View() == w.(coex := w.coex + [CoexInfo(mem, at)]);
      }
    }

    // `buf` is the source from its address on; the last memcpy reads up to the rounded length.
    method WriteMem(addr: U32, buf: seq<Byte>, len: U32, heapOk: bool) returns (err: Status, ghost sent: nat)
      requires Valid() && RoundUp4(len) <= |buf|
      modifies this`txseq, this`rawbuf, rawbuf, host.card`produced, host.card`granted, host.card`failed, host.card`log
      ensures Valid() && (rawbuf == old(rawbuf) || fresh(rawbuf))
      ensures err == OK || err == FAIL || err == NO_MEM
      ensures err == NO_MEM <==> old(rawbuf) == null && !heapOk
      ensures host.card.failed == old(host.card.failed) + if err == FAIL then 1 else 0
      ensures err == NO_MEM ==> host.card.log == old(host.card.log) && txseq == old(txseq)
      ensures err != NO_MEM ==>
                && rawbuf != null && GetType(rawbuf[0]) == SIP_CTRL
                && sent <= ChunkCount(len) && (err == OK <==> sent == ChunkCount(len))
                && txseq == Wrap32(old(txseq) + sent + (if err == OK then 0 else 1))
                && host.card.log == old(host.card.log) + Chunks(rawbuf[0], rawbuf[1], old(txseq), addr, buf, len, sent)
    {
      var ok := PrepareRaw(heapOk);
      if !ok {
        return NO_MEM, 0;
      }
      err, sent := WriteAll(addr, buf, len);
    }
  }

  // Where the loop cuts agrees with the chunk table.
  lemma ChunkCut(len: nat, k: nat)
    requires k < ChunkCount(len)
    ensures CHUNK * k < len && CHUNK * k + ChunkLen(len, k) <= RoundUp4(len)
    ensures len - CHUNK * k < CHUNK ==> ChunkLen(len, k) == RoundUp4(len - CHUNK * k) && k + 1 == ChunkCount(len)
    ensures len - CHUNK * k >= CHUNK ==> ChunkLen(len, k) == CHUNK
    ensures k + 1 == ChunkCount(len) <==> len - CHUNK * k <= CHUNK
  {
    ChunkFits(len, k);
    CountBounds(len);
  }
}
