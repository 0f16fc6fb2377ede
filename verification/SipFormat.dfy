/** The SIP packet header: 12 bytes, little-endian, and the macros over its first byte. */
module SipFormat {
  import opened Words

  const HDR_LEN := 12

  // SIP_TYPE
  const SIP_CTRL := 0
  const SIP_DATA := 1
  const SIP_DATA_AMPDU := 2

  // enum sip_cmd_id, the commands used here
  const CMD_WRITE_MEMORY := 1
  const CMD_WRITE_REG := 3
  const CMD_BOOTUP := 5
  const CMD_INIT := 7
  const CMD_CONFIG := 10
  const CMD_LOOPBACK := 12
  const CMD_SETSTA := 23
  const CMD_TEST := 29

  // event identifiers
  const EVT_TARGET_ON := 0
  const EVT_BOOTUP := 1
  const EVT_COEX_STATE := 24

  /** `info` is the union of recycled_credits, cmdid and the data info bytes;
      `fc1` doubles as the event identifier of a control packet. */
  datatype SipHdr = SipHdr(fc0: Byte, fc1: Byte, len: U16, info: U32, seqno: U32)

  function EncodeHdr(h: SipHdr): (s: seq<Byte>)
    ensures |s| == HDR_LEN
  {
    [h.fc0, h.fc1] + Le16(h.len) + Le32(h.info) + Le32(h.seqno)
  }

  function DecodeHdr(s: seq<Byte>, at: nat): SipHdr
    requires at + HDR_LEN <= |s|
  {
    SipHdr(s[at], s[at + 1], U16At(s, at + 2), U32At(s, at + 4), U32At(s, at + 8))
  }

  lemma HdrRoundTrip(h: SipHdr, s: seq<Byte>, at: nat)
    requires at + HDR_LEN <= |s| && s[at..at + HDR_LEN] == EncodeHdr(h)
    ensures DecodeHdr(s, at) == h
  {
    var t := s[at..at + HDR_LEN];
    assert s[at] == t[0] && s[at + 1] == t[1];
    assert t[2..4] == Le16(h.len) && t[4..8] == Le32(h.info) && t[8..12] == Le32(h.seqno);
    SliceOfSlice(s, at, at + HDR_LEN, 2, 4);
    SliceOfSlice(s, at, at + HDR_LEN, 4, 8);
    SliceOfSlice(s, at, at + HDR_LEN, 8, 12);
    Le16RoundTrip(h.len, s, at + 2);
    Le32RoundTrip(h.info, s, at + 4);
    Le32RoundTrip(h.seqno, s, at + 8);
  }

  lemma HdrExact(s: seq<Byte>, at: nat)
    requires at + HDR_LEN <= |s|
    ensures EncodeHdr(DecodeHdr(s, at)) == s[at..at + HDR_LEN]
  {
    var h := DecodeHdr(s, at);
    Le32Exact(s, at + 4);
    Le32Exact(s, at + 8);
    assert Le16(h.len) == s[at + 2..at + 4];
    assert s[at..at + HDR_LEN] == [s[at], s[at + 1]] + s[at + 2..at + 4] + s[at + 4..at + 8] + s[at + 8..at + 12];
  }

  // The header and the packet of a command as they are first laid out, number 0.
  function CommandHdr(fc1: Byte, cid: U32, arglen: nat): SipHdr
    requires HDR_LEN + arglen < TWO16
  {
    SipHdr(SetType(0, SIP_CTRL), fc1, HDR_LEN + arglen, cid, 0)
  }

  function CommandPacket(fc1: Byte, cid: U32, args: seq<Byte>): (p: seq<Byte>)
    requires HDR_LEN + |args| < TWO16
    ensures |p| == HDR_LEN + |args|
  {
    EncodeHdr(CommandHdr(fc1, cid, |args|)) + args
  }

  // What is read back from a command: its id, its length, number 0, and its arguments.
  lemma CommandReadBack(fc1: Byte, cid: U32, args: seq<Byte>, p: seq<Byte>)
    requires HDR_LEN + |args| < TWO16 && p == CommandPacket(fc1, cid, args)
    ensures var h := DecodeHdr(p, 0);
            && GetType(h.fc0) == SIP_CTRL && h.fc1 == fc1 && h.len == |p| && h.info == cid && h.seqno == 0
    ensures p[HDR_LEN..] == args
  {
    var h := CommandHdr(fc1, cid, |args|);
    assert p[0..HDR_LEN] == EncodeHdr(h);
    HdrRoundTrip(h, p, 0);
    TypeSet(0, SIP_CTRL);
  }

  function GetType(fc0: Byte): Byte { fc0 % 16 }

  function GetIfidx(fc0: Byte): Byte { fc0 / 16 }

  function SetType(fc0: Byte, t: nat): Byte {
    fc0 / 16 * 16 + t % 16
  }

  lemma TypeSet(fc0: Byte, t: nat)
    ensures GetType(SetType(fc0, t)) == t % 16 && GetIfidx(SetType(fc0, t)) == GetIfidx(fc0)
  {
  }

  // fc[1] |= SIP_HDR_F_SYNC, the bit of weight 4
  function SetSync(fc1: Byte): Byte {
    if fc1 / 4 % 2 == 1 then fc1 else fc1 + 4
  }

  lemma SyncSet(fc1: Byte)
    ensures SetSync(fc1) / 4 % 2 == 1
    ensures SetSync(fc1) / 8 == fc1 / 8 && SetSync(fc1) % 4 == fc1 % 4
  {
  }
}
