/** What the Wi-Fi send task makes of one buffer: the frame it builds in place, the credit it
    waits for, the number it gives it, and the transfer. */
module WifiSend {
  import opened Words
  import opened SipFormat
  import opened Roundup
  import opened SdioCounters
  import opened SdioTransfers
  import opened SdioLink
  import opened SipLayer

  const WIFI_SEND_BUFFER_LEN := 2048

  /** A buffer as the send task reads it: a command that already has its header, or a data
      frame with the descriptor fields that go into the header. */
  datatype Frame =
    | Command(packet: seq<Byte>)
    | Data(ampdu: bool, payload: seq<Byte>, tid: Byte, ac: Byte, crypto: Byte, kid: Byte)

  // The data info bytes: p2p is the low bit of its byte, the encryption flag the other seven.
  function DataInfo(f: Frame): (s: seq<Byte>)
    requires f.Data?
    ensures |s| == 4
  {
    [f.tid, f.ac, f.crypto % 128 * 2, f.kid]
  }

  // Length on the wire, before rounding.
  function FrameLen(f: Frame): nat {
    match f
    case Command(packet) => |packet|
    case Data(_, payload, _, _, _, _) => HDR_LEN + |payload|
  }

  // The frame must fit the buffer it is built in; the source copies before it looks.
  predicate Fits(f: Frame, size: nat) {
    HDR_LEN <= FrameLen(f) <= size && FrameLen(f) < TWO16
  }

  // The header up to the sequence number, and what follows it.
  function FrontPart(f: Frame): (s: seq<Byte>)
    requires HDR_LEN <= FrameLen(f) < TWO16
    ensures |s| == 8
  {
    match f
    case Command(packet) => [SetType(packet[0], SIP_CTRL), SetSync(packet[1])] + packet[2..8]
    case Data(ampdu, _, _, _, _, _) =>
      [SetType(0, if ampdu then SIP_DATA_AMPDU else SIP_DATA), SetSync(0)] + Le16(FrameLen(f)) + DataInfo(f)
  }

  function RestPart(f: Frame): (s: seq<Byte>)
    requires HDR_LEN <= FrameLen(f)
    ensures HDR_LEN + |s| == FrameLen(f)
  {
    match f
    case Command(packet) => packet[HDR_LEN..]
    case Data(_, payload, _, _, _, _) => payload
  }

  // The frame as it goes out under a sequence number.
  function Wire(f: Frame, seqno: U32): (s: seq<Byte>)
    requires HDR_LEN <= FrameLen(f) < TWO16
    ensures |s| == FrameLen(f)
  {
    FrontPart(f) + Le32(seqno) + RestPart(f)
  }

  lemma WireHdr(f: Frame, seqno: U32, h: SipHdr)
    requires HDR_LEN <= FrameLen(f) < TWO16
    requires FrontPart(f) == [h.fc0, h.fc1] + Le16(h.len) + Le32(h.info) && h.seqno == seqno
    ensures DecodeHdr(Wire(f, seqno), 0) == h && Wire(f, seqno)[HDR_LEN..] == RestPart(f)
  {
    assert Wire(f, seqno)[0..HDR_LEN] == EncodeHdr(h);
    HdrRoundTrip(h, Wire(f, seqno), 0);
  }

  // Stamping a packet changes its type, its SYNC flag and its number, and nothing else.
  lemma Stamped(g: SipHdr, args: seq<Byte>, seqno: U32)
    requires HDR_LEN + |args| < TWO16
    ensures var w := Wire(Command(EncodeHdr(g) + args), seqno);
            && DecodeHdr(w, 0) == g.(fc0 := SetType(g.fc0, SIP_CTRL), fc1 := SetSync(g.fc1), seqno := seqno)
            && w[HDR_LEN..] == args
  {
    var p := EncodeHdr(g) + args;
    assert p[0] == g.fc0 && p[1] == g.fc1 && p[2..8] == Le16(g.len) + Le32(g.info) && p[HDR_LEN..] == args;
    WireHdr(Command(p), seqno, g.(fc0 := SetType(g.fc0, SIP_CTRL), fc1 := SetSync(g.fc1), seqno := seqno));
  }

  // What the target reads of a command: its id, its length, its arguments, the SYNC flag,
  // and the number the send task gave it.
  lemma CommandOnWire(cid: U32, args: seq<Byte>, seqno: U32, g: SipHdr)
    requires HDR_LEN + |args| < TWO16 && g == CommandHdr(0, cid, |args|)
    ensures CommandPacket(0, cid, args) == EncodeHdr(g) + args
    ensures var w := Wire(Command(EncodeHdr(g) + args), seqno);
            && DecodeHdr(w, 0) == g.(fc0 := SetType(g.fc0, SIP_CTRL), fc1 := SetSync(g.fc1), seqno := seqno)
            && g.len == |w| && g.info == cid && w[HDR_LEN..] == args
  {
    Stamped(g, args, seqno);
  }

  // What the target reads of a data frame.
  lemma DataOnWire(f: Frame, seqno: U32)
    requires f.Data? && FrameLen(f) < TWO16
    ensures var w := Wire(f, seqno);
            && var h := DecodeHdr(w, 0);
            && GetType(h.fc0) == (if f.ampdu then SIP_DATA_AMPDU else SIP_DATA) && GetIfidx(h.fc0) == 0
            && h.fc1 == SetSync(0) && h.len == |w| && h.seqno == seqno
            && w[4] == f.tid && w[5] == f.ac && w[6] == f.crypto % 128 * 2 && w[7] == f.kid
            && w[HDR_LEN..] == f.payload
  {
    var info := U32At(DataInfo(f), 0);
    TypeSet(0, if f.ampdu then SIP_DATA_AMPDU else SIP_DATA);
    Le32Exact(DataInfo(f), 0);
    var fc0 := SetType(0, if f.ampdu then SIP_DATA_AMPDU else SIP_DATA);
    WireHdr(f, seqno, SipHdr(fc0, SetSync(0), FrameLen(f), info, seqno));
  }

  lemma DataPieces(s: seq<Byte>, f: Frame, seqno: U32)
    requires f.Data? && Fits(f, |s|)
    requires s[0] == SetType(0, if f.ampdu then SIP_DATA_AMPDU else SIP_DATA) && s[1] == SetSync(0)
    requires s[2..4] == Le16(FrameLen(f)) && s[4..8] == DataInfo(f) && s[HDR_LEN..FrameLen(f)] == f.payload
    requires s[8..12] == Le32(seqno)
    ensures s[..FrameLen(f)] == Wire(f, seqno)
  {
    assert s[..FrameLen(f)] == [s[0], s[1]] + s[2..4] + s[4..8] + s[8..12] + s[12..FrameLen(f)];
  }

  lemma Renumbered(was: seq<Byte>, now: seq<Byte>, f: Frame, before: U32, seqno: U32)
    requires Fits(f, |was|) && |now| == |was| && was[..FrameLen(f)] == Wire(f, before)
    requires now[8..12] == Le32(seqno)
    requires forall k :: 0 <= k < 8 || 12 <= k < |was| ==> now[k] == was[k]
    ensures now[..FrameLen(f)] == Wire(f, seqno)
  {
    var n, w := FrameLen(f), Wire(f, before);
    Spliced(was, now, n);
    assert was[..8] == was[..n][..8] == w[..8] == FrontPart(f);
    assert was[12..n] == was[..n][12..] == w[12..] == RestPart(f);
  }

  lemma Spliced(was: seq<Byte>, now: seq<Byte>, n: nat)
    requires HDR_LEN <= n <= |was| == |now|
    requires forall k :: 0 <= k < 8 || 12 <= k < |was| ==> now[k] == was[k]
    ensures now[..n] == was[..8] + now[8..12] + was[12..n]
  {
    assert now[..n] == now[..8] + now[8..12] + now[12..n];
  }

  // The bytes the transfers of a rounded frame take.
  predicate Rounded(f: Frame, blks: U16, data: seq<Byte>)
    requires HDR_LEN <= FrameLen(f) < TWO16
  {
    0 <= Mask(FrameLen(f), blks) < TWO32 && |data| == RoundUp4(Mask(FrameLen(f), blks))
  }

  ghost predicate ExactFrame(f: Frame, blks: U16, data: seq<Byte>)
    requires HDR_LEN <= FrameLen(f) < TWO16 && Rounded(f, blks, data)
  {
    var n := Mask(FrameLen(f), blks);
    WindowsExact(Transfers(true, FUNC_WIFI, true, data, n), n)
  }

  // For which block sizes of the target every frame ends at the end address in each of its
  // transfers: exactly the multiples of 512, 0 included, which makes every frame empty.
  lemma {:induction false} FrameWindowsIff(blks: U16)
    ensures (forall f: Frame, data: seq<Byte> :: HDR_LEN <= FrameLen(f) < TWO16 && Rounded(f, blks, data) ==>
                ExactFrame(f, blks, data))
            <==> blks % BLOCK_SIZE == 0
  {
    if blks % BLOCK_SIZE == 0 {
      forall f: Frame, data: seq<Byte> | HDR_LEN <= FrameLen(f) < TWO16 && Rounded(f, blks, data)
        ensures ExactFrame(f, blks, data)
      {
        GoodFrame(f, blks, data);
      }
    } else {
      var n := OddBlock(blks);
      var f, data := InexactOf(n, blks, Mask(n, blks));
    }
  }

  lemma GoodFrame(f: Frame, blks: U16, data: seq<Byte>)
    requires HDR_LEN <= FrameLen(f) < TWO16 && Rounded(f, blks, data) && blks % BLOCK_SIZE == 0
    ensures ExactFrame(f, blks, data)
  {
    if blks == 0 {
      MaskCovers(FrameLen(f), 0);
    } else {
      BlockMultiple(FrameLen(f), blks);
    }
    WindowsExactIff(true, true, data, Mask(FrameLen(f), blks));
  }

  // A data frame of a length that is rounded to more than a block but no whole number of them.
  lemma {:induction false} InexactOf(n: nat, blks: U16, r: nat) returns (f: Frame, data: seq<Byte>)
    requires HDR_LEN <= n < TWO16 && Mask(n, blks) == r && BLOCK_SIZE <= r < TWO32 && r % BLOCK_SIZE != 0
    ensures f.Data? && FrameLen(f) == n && Rounded(f, blks, data) && !ExactFrame(f, blks, data)
  {
    f := Data(false, seq(n - HDR_LEN, _ => 0), 0, 0, 0, 0);
    data := seq(RoundUp4(r), _ => 0);
    WindowsExactIff(true, true, data, r);
  }

  // The same for the frames that are not given up for their length, and block sizes that are
  // powers of two: a data frame with 501 bytes of payload shows that the others fail.
  lemma {:induction false} SentWindowsIff(blks: U16, size: nat)
    requires 0 < blks && And(blks, blks - 1) == 0 && WIFI_SEND_BUFFER_LEN <= size < TWO16
    ensures (forall f: Frame, data: seq<Byte> ::
                Fits(f, size) && Rounded(f, blks, data) && Mask(FrameLen(f), blks) <= size ==>
                  ExactFrame(f, blks, data))
            <==> BLOCK_SIZE <= blks
  {
    if BLOCK_SIZE <= blks {
      BlocksOf512(blks);
      forall f: Frame, data: seq<Byte> | Fits(f, size) && Rounded(f, blks, data) && Mask(FrameLen(f), blks) <= size
        ensures ExactFrame(f, blks, data)
      {
        GoodFrame(f, blks, data);
      }
    } else {
      var f, data := ShortFrame(blks);
      assert Fits(f, size) && Mask(FrameLen(f), blks) <= size;
    }
  }

  lemma {:induction false} ShortFrame(blks: U16) returns (f: Frame, data: seq<Byte>)
    requires 0 < blks < BLOCK_SIZE && And(blks, blks - 1) == 0
    ensures FrameLen(f) == 513 && Rounded(f, blks, data) && Mask(FrameLen(f), blks) <= 1024 &&
            !ExactFrame(f, blks, data)
  {
    SmallBlockSize(blks);
    f, data := InexactOf(513, blks, 512 + blks);
  }

  // The condition of the send task on the command id, as it is written.
  predicate TakesNumber(cmdid: U32) {
    cmdid != CMD_WRITE_MEMORY || cmdid != CMD_BOOTUP || cmdid != CMD_WRITE_REG || cmdid != CMD_LOOPBACK
  }

  lemma EveryIdTakesNumber(cmdid: U32)
    ensures TakesNumber(cmdid)
  {
  }

  // The credit as the counters can show it.
  function CreditOf(granted: nat, used: nat): nat {
    (granted - used) % TX_BUFFER_MAX
  }

  // What a poll sees: that credit, or 0 if the read failed.
  predicate IsCredit(num: U32, granted: nat, used: nat, failed: nat, failed': nat) {
    num == CreditOf(granted, used) || (num == 0 && failed < failed')
  }

  datatype Outcome = Aborted | StillWaiting | SendFailed | Sent

  class WifiSender {
    const sip: EspSip
    const sendBuf: array<Byte>

    ghost predicate Valid()
      reads this, sip, sip.host, sip.host.card
    {
      && sip.Valid() && sip.rawbuf != sendBuf
      && WIFI_SEND_BUFFER_LEN <= sendBuf.Length < TWO16 && sendBuf.Length % 4 == 0
    }

    constructor (sip: EspSip)
      requires sip.Valid()
      ensures Valid() && this.sip == sip && fresh(sendBuf)
    {
      this.sip := sip;
      sendBuf := new Byte[WIFI_SEND_BUFFER_LEN];
    }

    // A command arrives with its header and gets type and flag written over it.
    method BuildCommand(packet: seq<Byte>)
      requires Fits(Command(packet), sendBuf.Length)
      modifies sendBuf
      ensures sendBuf[..|packet|] == Wire(Command(packet), U32At(packet, 8))
    {
      CopyInto(sendBuf, 0, packet);
      sendBuf[0] := SetType(sendBuf[0], SIP_CTRL);
      sendBuf[1] := SetSync(sendBuf[1]);
      Le32Exact(packet, 8);
      assert sendBuf[..|packet|] == [sendBuf[0], sendBuf[1]] + packet[2..8] + packet[8..12] + packet[12..];
    }

    // A data frame gets its header field by field; the number keeps the zero of the cleared header.
    method BuildData(f: Frame, ghost before: U32)
      requires f.Data? && Fits(f, sendBuf.Length)
      requires sendBuf[0] == 0 && sendBuf[1] == 0 && sendBuf[8..12] == Le32(before)
      modifies sendBuf
      ensures sendBuf[..FrameLen(f)] == Wire(f, before)
    {
      sendBuf[0] := SetType(sendBuf[0], if f.ampdu then SIP_DATA_AMPDU else SIP_DATA);
      sendBuf[1] := SetSync(sendBuf[1]);
      CopyInto(sendBuf, 2, Le16(FrameLen(f)));
      CopyInto(sendBuf, 4, DataInfo(f));
      CopyInto(sendBuf, HDR_LEN, f.payload);
      ghost var s := sendBuf[..];
      assert s[2..4] == Le16(FrameLen(f));
      assert s[4..8] == DataInfo(f);
      assert s[8..12] == Le32(before);
      DataPieces(s, f, before);
    }

    // Builds the frame in place; `before` is the number it carries for now.
    method BuildFrame(f: Frame) returns (sendLen: U32, ghost before: U32)
      requires Valid() && Fits(f, sendBuf.Length)
      modifies sendBuf
      ensures sendLen == Mask(FrameLen(f), sip.txBlksz)
      ensures sendBuf[..FrameLen(f)] == Wire(f, before)
    {
      FillZero(sendBuf, 0, HDR_LEN);
      MaskCovers(FrameLen(f), sip.txBlksz);
      sendLen := Mask(FrameLen(f), sip.txBlksz);
      match f
      case Command(packet) =>
        BuildCommand(packet);
        before := U32At(packet, 8);
      case Data(_, _, _, _, _, _) =>
        before := 0;
        assert sendBuf[8..12] == Le32(before);
        BuildData(f, before);
    }

    // Polls until the grants cover the frame; `patience` bounds the polls, `polls` counts them,
    // and `num` is the credit the last one saw.
    method WaitForCredit(sendLen: U32, patience: nat) returns (enough: bool, ghost polls: nat, ghost num: U32)
      requires Valid() && sip.host.Used <= sip.host.card.granted
      modifies sip.host.card`produced, sip.host.card`granted, sip.host.card`failed
      ensures Valid() && sip.host.card.Grown()
      ensures if enough then 0 < polls <= patience else polls == patience
      ensures 0 < polls ==> (enough <==> FitsBuffers(sendLen, num))
      ensures 0 < polls ==>
                IsCredit(num, sip.host.card.granted, sip.host.Used, old(sip.host.card.failed), sip.host.card.failed)
      ensures enough ==> FitsBuffers(sendLen, sip.host.card.granted - sip.host.Used)
      ensures enough && 0 < sendLen ==> sip.host.Used + BuffersFor(sendLen) <= sip.host.card.granted
    {
      var left := patience;
      polls, num := 0, 0;
      while left > 0
        invariant Valid() && sip.host.card.Grown()
        invariant polls + left == patience && (0 < polls ==> !FitsBuffers(sendLen, num))
        invariant 0 < polls ==>
                    IsCredit(num, sip.host.card.granted, sip.host.Used, old(sip.host.card.failed), sip.host.card.failed)
      {
        enough, num := CheckCredit(sendLen);
        polls := polls + 1;
        if enough {
          return;
        }
        left := left - 1;
      }
      enough := false;
    }

    // One poll: it reads the credit, 0 if the read fails, and the frame passes exactly when
    // that covers it.
    method CheckCredit(sendLen: U32) returns (enough: bool, ghost num: U32)
      requires Valid() && sip.host.Used <= sip.host.card.granted
      modifies sip.host.card`produced, sip.host.card`granted, sip.host.card`failed
      ensures Valid() && sip.host.card.Grown()
      ensures IsCredit(num, sip.host.card.granted, sip.host.Used, old(sip.host.card.failed), sip.host.card.failed)
      ensures num == if sip.host.card.failed == old(sip.host.card.failed)
                     then (sip.host.card.granted - sip.host.Used) % TX_BUFFER_MAX else 0
      ensures enough <==> FitsBuffers(sendLen, num)
      ensures enough ==> FitsBuffers(sendLen, sip.host.card.granted - sip.host.Used)
      ensures enough && 0 < sendLen ==> sip.host.Used + BuffersFor(sendLen) <= sip.host.card.granted
    {
      var err, credits := sip.host.GetBufferSize();
      num := credits;
      CheckPassesIff(credits, sendLen);
      enough := CheckPasses(credits, sendLen);
      CreditInBytes(sip.host.card.granted, sip.host.Used, credits, sendLen);
    }

    // The condition lets every packet take a number.
    method NumberFrame(f: Frame, ghost before: U32)
      requires Valid() && Fits(f, sendBuf.Length) && sendBuf[..FrameLen(f)] == Wire(f, before)
      modifies sendBuf, sip`txseq
      ensures Valid() && sip.txseq == Wrap32(old(sip.txseq) + 1)
      ensures sendBuf[..FrameLen(f)] == Wire(f, old(sip.txseq))
    {
      var cmdid := U32At(sendBuf[4..8], 0);
      EveryIdTakesNumber(cmdid);
      if TakesNumber(cmdid) {
        var seqno := sip.txseq;
        sip.txseq := Wrap32(sip.txseq + 1);
        ghost var was := sendBuf[..];
        CopyInto(sendBuf, 8, Le32(seqno));
        Renumbered(was, sendBuf[..], f, before, seqno);
      }
    }

    // The number and the transfer; the number is spent even if the transfer fails.
    method Transmit(f: Frame, sendLen: U32, ghost before: U32) returns (ok: bool)
      requires Valid() && Fits(f, sendBuf.Length) && sendBuf[..FrameLen(f)] == Wire(f, before)
      requires sendLen <= sendBuf.Length
      modifies sendBuf, sip`txseq, sip.host`totalTx, sip.host`Used
      modifies sip.host.card`produced, sip.host.card`granted, sip.host.card`failed, sip.host.card`log
      ensures Valid() && sip.host.card.Grown()
      ensures sip.host.card.failed == old(sip.host.card.failed) + if ok then 0 else 1
      ensures sip.txseq == Wrap32(old(sip.txseq) + 1) && sendBuf[..FrameLen(f)] == Wire(f, old(sip.txseq))
      ensures ok ==>
                RoundUp4(sendLen) <= sendBuf.Length &&
                sip.host.card.log == old(sip.host.card.log) +
                  Transfers(true, FUNC_WIFI, true, sendBuf[..RoundUp4(sendLen)], sendLen)
      ensures sip.host.Used == old(sip.host.Used) + (if ok then BuffersFor(sendLen) else 0)
    {
      NumberFrame(f, before);
      RoundedFits(sendLen, sendBuf.Length);
      var err := sip.host.SendPacket(FUNC_WIFI, sendBuf, sendLen);
      ok := err == Ok;
    }

    // One turn of the send loop, from the dequeued buffer to the transfer.
    method SendFrame(f: Frame, patience: nat) returns (out: Outcome, ghost sendLen: U32, ghost num: U32)
      requires Valid() && Fits(f, sendBuf.Length) && sip.host.Used <= sip.host.card.granted
      modifies sendBuf, sip`txseq, sip.host`totalTx, sip.host`Used
      modifies sip.host.card`produced, sip.host.card`granted, sip.host.card`failed, sip.host.card`log
      ensures Valid() && sip.host.Used <= sip.host.card.granted
      ensures sendLen == Mask(FrameLen(f), sip.txBlksz) && (out == Aborted <==> sendLen > sendBuf.Length)
      ensures out == StillWaiting && 0 < patience ==>
                !FitsBuffers(sendLen, num) &&
                IsCredit(num, sip.host.card.granted, sip.host.Used, old(sip.host.card.failed), sip.host.card.failed)
      ensures out == Aborted || out == StillWaiting ==>
                sip.txseq == old(sip.txseq) && sip.host.card.log == old(sip.host.card.log)
      ensures out == SendFailed ==> sip.host.card.failed > old(sip.host.card.failed)
      ensures out == SendFailed || out == Sent ==>
                sip.txseq == Wrap32(old(sip.txseq) + 1) && sendBuf[..FrameLen(f)] == Wire(f, old(sip.txseq))
      ensures out == Sent ==>
                RoundUp4(sendLen) <= sendBuf.Length &&
                sip.host.card.log == old(sip.host.card.log) +
                  Transfers(true, FUNC_WIFI, true, sendBuf[..RoundUp4(sendLen)], sendLen)
      ensures sip.host.Used == old(sip.host.Used) + (if out == Sent then BuffersFor(sendLen) else 0)
    {
      var len, before := BuildFrame(f);
      sendLen := len;
      if len > sendBuf.Length {
        return Aborted, sendLen, 0;
      }
      out, num := WaitAndSend(f, len, before, patience);
    }

    // The built frame waits for credit and goes out.
    method WaitAndSend(f: Frame, sendLen: U32, ghost before: U32, patience: nat)
      returns (out: Outcome, ghost num: U32)
      requires Valid() && Fits(f, sendBuf.Length) && sip.host.Used <= sip.host.card.granted
      requires sendBuf[..FrameLen(f)] == Wire(f, before) && sendLen <= sendBuf.Length
      modifies sendBuf, sip`txseq, sip.host`totalTx, sip.host`Used
      modifies sip.host.card`produced, sip.host.card`granted, sip.host.card`failed, sip.host.card`log
      ensures Valid() && sip.host.Used <= sip.host.card.granted && out != Aborted
      ensures out == StillWaiting && 0 < patience ==>
                !FitsBuffers(sendLen, num) &&
                IsCredit(num, sip.host.card.granted, sip.host.Used, old(sip.host.card.failed), sip.host.card.failed)
      ensures out == StillWaiting ==> sip.txseq == old(sip.txseq) && sip.host.card.log == old(sip.host.card.log)
      ensures out == SendFailed ==> sip.host.card.failed > old(sip.host.card.failed)
      ensures out == SendFailed || out == Sent ==>
                sip.txseq == Wrap32(old(sip.txseq) + 1) && sendBuf[..FrameLen(f)] == Wire(f, old(sip.txseq))
      ensures out == Sent ==>
                RoundUp4(sendLen) <= sendBuf.Length &&
                sip.host.card.log == old(sip.host.card.log) +
                  Transfers(true, FUNC_WIFI, true, sendBuf[..RoundUp4(sendLen)], sendLen)
      ensures sip.host.Used == old(sip.host.Used) + (if out == Sent then BuffersFor(sendLen) else 0)
    {
      var enough;
      ghost var polls;
      enough, polls, num := WaitForCredit(sendLen, patience);
      if !enough {
        return StillWaiting, num;
      }
      var ok := Transmit(f, sendLen, before);
      out := if ok then Sent else SendFailed;
    }
  }

  // Credit that was seen is no more than there is.
  lemma CreditInBytes(granted: nat, used: nat, num: U32, length: U32)
    requires used <= granted && (num == 0 || num == (granted - used) % TX_BUFFER_MAX)
    ensures FitsBuffers(length, num) ==> FitsBuffers(length, granted - used)
    ensures FitsBuffers(length, num) && 0 < length ==> used + BuffersFor(length) <= granted
  {
    var d := granted - used;
    assert d == TX_BUFFER_MAX * (d / TX_BUFFER_MAX) + d % TX_BUFFER_MAX;
    if FitsBuffers(length, num) {
      BuffersCover(length, num);
    }
  }

  lemma RoundedFits(n: nat, size: nat)
    requires n <= size && size % 4 == 0
    ensures RoundUp4(n) <= size
  {
  }
}
