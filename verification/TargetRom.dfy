/**
 The boot ROM of the target as far as the download relies on it: a command packet
 that ends at the end address and carries SIP_CMD_WRITE_MEMORY stores its payload.
 The target's memory is a function of the transfers that reached it.
 */
module TargetRom {
  import opened Words
  import opened SipFormat
  import opened SdioTransfers

  // header plus struct sip_cmd_write_memory { addr, len }
  const WRITE_HDR_LEN := 20

  function WriteCmd(fc0: Byte, fc1: Byte, seqno: U32, addr: U32, data: seq<Byte>): (s: seq<Byte>)
    requires |data| < 0x1_0000 - WRITE_HDR_LEN
    ensures |s| == WRITE_HDR_LEN + |data|
  {
    EncodeHdr(SipHdr(fc0, fc1, WRITE_HDR_LEN + |data|, CMD_WRITE_MEMORY, seqno)) + Le32(addr) + Le32(|data|) + data
  }

  // The transfer that carries it, placed so that it ends at the end address.
  function WriteTransfer(fc0: Byte, fc1: Byte, seqno: U32, addr: U32, data: seq<Byte>): Cmd53
    requires |data| <= 236
  {
    var cmd := WriteCmd(fc0, fc1, seqno, addr, data);
    Cmd53(true, FUNC_WIFI, CMD53_END_ADDR - |cmd|, false, true, cmd)
  }

  predicate IsWriteMemory(c: Cmd53) {
    && c.write && c.func == FUNC_WIFI && c.addr + |c.data| == CMD53_END_ADDR
    && WRITE_HDR_LEN <= |c.data|
    && GetType(c.data[0]) == SIP_CTRL
    && DecodeHdr(c.data, 0).info == CMD_WRITE_MEMORY
    && DecodeHdr(c.data, 0).len == |c.data|
    && U32At(c.data, 16) == |c.data| - WRITE_HDR_LEN
  }

  function Base(c: Cmd53): U32
    requires IsWriteMemory(c)
  {
    U32At(c.data, 12)
  }

  predicate Covers(c: Cmd53, a: int) {
    IsWriteMemory(c) && Base(c) <= a < Base(c) + |c.data| - WRITE_HDR_LEN
  }

  // The byte at address `a` after the transfers of `log`; it was `before` at first.
  function Stored(log: seq<Cmd53>, a: int, before: Byte): Byte {
    if log == [] then before
    else
      var c := log[|log| - 1];
      if Covers(c, a) then c.data[WRITE_HDR_LEN + (a - Base(c))] else Stored(log[..|log| - 1], a, before)
  }

  lemma {:induction false} StoredSnoc(log: seq<Cmd53>, c: Cmd53, a: int, before: Byte)
    ensures Stored(log + [c], a, before) ==
            if Covers(c, a) then c.data[WRITE_HDR_LEN + (a - Base(c))] else Stored(log, a, before)
  {
    assert (log + [c])[..|log|] == log;
  }

  // The target decodes exactly what the host encoded.
  lemma WriteCmdDecodes(fc0: Byte, fc1: Byte, seqno: U32, addr: U32, data: seq<Byte>)
    requires |data| < 0x1_0000 - WRITE_HDR_LEN && GetType(fc0) == SIP_CTRL
    ensures var s := WriteCmd(fc0, fc1, seqno, addr, data);
            && DecodeHdr(s, 0) == SipHdr(fc0, fc1, |s|, CMD_WRITE_MEMORY, seqno)
            && s[0] == fc0
            && U32At(s, 12) == addr && U32At(s, 16) == |data| && s[WRITE_HDR_LEN..] == data
  {
    var s := WriteCmd(fc0, fc1, seqno, addr, data);
    var h := SipHdr(fc0, fc1, WRITE_HDR_LEN + |data|, CMD_WRITE_MEMORY, seqno);
    assert s[0..HDR_LEN] == EncodeHdr(h);
    HdrRoundTrip(h, s, 0);
    assert s[12..16] == Le32(addr) && s[16..20] == Le32(|data|);
    Le32RoundTrip(addr, s, 12);
    Le32RoundTrip(|data|, s, 16);
  }

  // One such transfer stores its payload and nothing else.
  lemma {:induction false} WriteStores(log: seq<Cmd53>, fc0: Byte, fc1: Byte, seqno: U32, addr: U32, data: seq<Byte>,
                                       a: int, before: Byte)
    requires |data| <= 236 && GetType(fc0) == SIP_CTRL
    ensures Stored(log + [WriteTransfer(fc0, fc1, seqno, addr, data)], a, before) ==
            if addr <= a < addr + |data| then data[a - addr] else Stored(log, a, before)
  {
    var c := WriteTransfer(fc0, fc1, seqno, addr, data);
    WriteCmdDecodes(fc0, fc1, seqno, addr, data);
    StoredSnoc(log, c, a, before);
    assert addr <= a < addr + |data| ==> c.data[WRITE_HDR_LEN..][a - addr] == data[a - addr];
  }
}
