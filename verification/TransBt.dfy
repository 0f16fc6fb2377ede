/** One message of the Bluetooth send task: the header it gets and the packet it becomes. */
module TransBt {
  import opened Words
  import opened SdioTransfers
  import opened SdioLink

  const SBP_HDR_LEN := 8  // sbp_hdr_t: 24-bit length, type and subtype 0, sequence number

  datatype Outcome = Skipped | Dropped | Submitted(ok: bool)

  function SbpPacket(seqno: U32, payload: seq<Byte>): (p: seq<Byte>)
    requires |payload| < TWO16
    ensures |p| == SBP_HDR_LEN + |payload|
  {
    Le32(SBP_HDR_LEN + |payload|) + Le32(seqno) + payload
  }

  // What the other side reads: its own length, the number, and the payload that
  // esp_extconn_trans_bt_recv passes on, everything after the first eight bytes.
  lemma SbpRoundTrip(seqno: U32, payload: seq<Byte>)
    requires |payload| < TWO16
    ensures var p := SbpPacket(seqno, payload);
            && U32At(p, 0) % 0x100_0000 == |p| && U32At(p, 0) / 0x100_0000 == 0
            && U32At(p, 4) == seqno && p[SBP_HDR_LEN..] == payload
  {
    var p := SbpPacket(seqno, payload);
    assert p[0..4] == Le32(SBP_HDR_LEN + |payload|) && p[4..8] == Le32(seqno);
    Le32RoundTrip(SBP_HDR_LEN + |payload|, p, 0);
    Le32RoundTrip(seqno, p, 4);
  }

  class BtTx {
    const host: SdioHost
    var txSeq: U32

    constructor (host: SdioHost)
      ensures this.host == host && txSeq == 0
    {
      this.host := host;
      txSeq := 0;
    }

    // The message part of bt_tx_task. The allocation is as long as the packet; the last
    // transfer takes up to three bytes more, which are `beyond`.
    method HandleMessage(hasData: bool, payload: seq<Byte>, beyond: seq<Byte>, mallocOk: bool)
      returns (out: Outcome, ghost sent: seq<Byte>)
      requires host.Valid() && |payload| < TWO16
      requires SBP_HDR_LEN + |payload| + |beyond| == RoundUp4(SBP_HDR_LEN + |payload|)
      modifies this`txSeq, host`totalTx, host`Used, host.card`produced, host.card`granted, host.card`failed,
        host.card`log
      ensures host.Valid() && host.totalTx == old(host.totalTx) && host.Used == old(host.Used)
      ensures out == Skipped <==> !hasData || payload == []
      ensures out == Dropped <==> hasData && payload != [] && !mallocOk
      ensures host.card.failed == old(host.card.failed) + if out == Submitted(false) then 1 else 0
      ensures !out.Submitted? ==> txSeq == old(txSeq) && host.card.log == old(host.card.log)
      ensures out.Submitted? ==>
                && txSeq == Wrap32(old(txSeq) + 1)
                && sent == SbpPacket(old(txSeq), payload) + beyond
      ensures out == Submitted(true) ==>
                |sent| == RoundUp4(SBP_HDR_LEN + |payload|) &&
                host.card.log == old(host.card.log) + Transfers(true, FUNC_BT, true, sent, SBP_HDR_LEN + |payload|)
    {
      sent := [];
      if !hasData || payload == [] {
        return Skipped, sent;
      }
      if !mallocOk {
        return Dropped, sent;
      }
      var len := SBP_HDR_LEN + |payload|;
      var hdr := new Byte[len + |beyond|];
      var seqno := txSeq;
      txSeq := Wrap32(txSeq + 1);
      Fill(hdr, seqno, payload, beyond);
      sent := hdr[..];
      assert hdr[..RoundUp4(len)] == sent;
      var err := host.SendPacket(FUNC_BT, hdr, len);
      out := Submitted(err == Ok);
    }
  }

  // The packet in its allocation, and the bytes behind it.
  method Fill(hdr: array<Byte>, seqno: U32, payload: seq<Byte>, beyond: seq<Byte>)
    requires |payload| < TWO16 && SBP_HDR_LEN + |payload| + |beyond| == hdr.Length
    modifies hdr
    ensures hdr[..] == SbpPacket(seqno, payload) + beyond
  {
    var n := SBP_HDR_LEN + |payload|;
    CopyInto(hdr, 0, Le32(n));
    CopyInto(hdr, 4, Le32(seqno));
    CopyInto(hdr, SBP_HDR_LEN, payload);
    CopyInto(hdr, n, beyond);
    FillPieces(hdr[..], seqno, payload, beyond);
  }

  lemma FillPieces(s: seq<Byte>, seqno: U32, payload: seq<Byte>, beyond: seq<Byte>)
    requires |payload| < TWO16 && |s| == SBP_HDR_LEN + |payload| + |beyond|
    requires s[0..4] == Le32(SBP_HDR_LEN + |payload|) && s[4..8] == Le32(seqno)
    requires s[SBP_HDR_LEN..SBP_HDR_LEN + |payload|] == payload && s[SBP_HDR_LEN + |payload|..] == beyond
    ensures s == SbpPacket(seqno, payload) + beyond
  {
    assert s == s[0..4] + s[4..8] + s[SBP_HDR_LEN..SBP_HDR_LEN + |payload|] + s[SBP_HDR_LEN + |payload|..];
  }
}
