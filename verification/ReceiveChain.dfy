/** What the chain loop promises: round trips, numbering over whole runs, and what
    happens after a packet has been lost. */
module ReceiveChain {
  import opened Words
  import opened SipFormat
  import opened TransRecv

  type Packet = seq<Byte>

  function Concat(ps: seq<Packet>): seq<Byte> {
    if ps == [] then [] else ps[0] + Concat(ps[1..])
  }

  // A packet as the target sends it: whole, padded to four bytes, carrying its number.
  predicate Sound(p: Packet, seqno: U32) {
    && HDR_LEN <= |p| && |p| % 4 == 0
    && DecodeHdr(p, 0).len == |p| && DecodeHdr(p, 0).seqno == seqno
  }

  ghost predicate Chained(ps: seq<Packet>, rxseq: U32) {
    ps != [] ==> Sound(ps[0], rxseq) && Chained(ps[1..], Wrap32(rxseq + 1))
  }

  // Every header that announces the right length makes such a packet.
  lemma EncodedIsSound(h: SipHdr, body: seq<Byte>)
    requires h.len == HDR_LEN + |body| && h.len % 4 == 0
    ensures Sound(EncodeHdr(h) + body, h.seqno) && DecodeHdr(EncodeHdr(h) + body, 0) == h
  {
    var p := EncodeHdr(h) + body;
    assert p[0..HDR_LEN] == EncodeHdr(h);
    HdrRoundTrip(h, p, 0);
  }

  // A delivery of a packet: to the handler its type selects, under its number, its very bytes.
  ghost predicate Delivers(mem: seq<Byte>, wifi: bool, d: Dispatch, p: Packet) {
    && HDR_LEN <= |p|
    && d.handler == HandlerOf(p[0], wifi)
    && d.len == |p| && d.seqno == DecodeHdr(p, 0).seqno
    && d.at + d.len <= |mem| && mem[d.at..d.at + d.len] == p
  }

  ghost predicate DeliversAll(mem: seq<Byte>, wifi: bool, items: seq<Dispatch>, ps: seq<Packet>) {
    |items| == |ps| &&
    (ps != [] ==> Delivers(mem, wifi, items[0], ps[0]) && DeliversAll(mem, wifi, items[1..], ps[1..]))
  }

  lemma {:induction false} DeliversEach(mem: seq<Byte>, wifi: bool, items: seq<Dispatch>, ps: seq<Packet>, i: nat)
    requires DeliversAll(mem, wifi, items, ps) && i < |ps|
    ensures Delivers(mem, wifi, items[i], ps[i])
  {
    if i > 0 {
      DeliversEach(mem, wifi, items[1..], ps[1..], i - 1);
    }
  }

  // Any non-empty chain of well-formed packets comes out packet by packet.
  lemma {:induction false} ChainRoundTrip(mem: seq<Byte>, wifi: bool, at: nat, ps: seq<Packet>, rxseq: U32)
    requires ps != [] && Chained(ps, rxseq)
    requires at + |Concat(ps)| + OVERREAD <= |mem| && mem[at..at + |Concat(ps)|] == Concat(ps)
    ensures var p := Parse(mem, wifi, at, |Concat(ps)|, rxseq);
            && p.ok && p.numbered == |ps| == |p.items|
            && forall i :: 0 <= i < |ps| ==> Delivers(mem, wifi, p.items[i], ps[i])
  {
    ChainSteps(mem, wifi, at, |Concat(ps)|, ps, rxseq);
    var items := Parse(mem, wifi, at, |Concat(ps)|, rxseq).items;
    forall i | 0 <= i < |ps|
      ensures Delivers(mem, wifi, items[i], ps[i])
    {
      DeliversEach(mem, wifi, items, ps, i);
    }
  }

  lemma {:induction false} ChainSteps(mem: seq<Byte>, wifi: bool, at: nat, rlen: nat, ps: seq<Packet>, rxseq: U32)
    requires ps != [] && Chained(ps, rxseq) && rlen == |Concat(ps)|
    requires at + rlen + OVERREAD <= |mem| && mem[at..at + rlen] == Concat(ps)
    ensures AllDelivered(mem, wifi, Parse(mem, wifi, at, rlen, rxseq), ps)
    decreases |ps|
  {
    var p, tail := ps[0], ps[1..];
    assert ps == [p] + tail && Concat(ps) == p + Concat(tail);
    FirstOfChain(mem, wifi, at, p, tail, rxseq);
    if tail == [] {
      assert rlen == |p|;
      LastOne(mem, wifi, at, rlen, p, rxseq);
    } else {
      var at1, rlen1, r1 := at + |p|, rlen - |p|, Wrap32(rxseq + 1);
      assert rlen1 == |Concat(tail)|;
      ConcatNonEmpty(tail, r1);
      ChainSteps(mem, wifi, at1, rlen1, tail, r1);
      FirstAndRest(mem, wifi, at, rlen, p, tail, rxseq, at1, rlen1, r1,
                   Parse(mem, wifi, at, rlen, rxseq), Parse(mem, wifi, at1, rlen1, r1));
    }
  }

  lemma {:induction false} LastOne(mem: seq<Byte>, wifi: bool, at: nat, rlen: nat, p: Packet, rxseq: U32)
    requires 0 < rlen && at + rlen + OVERREAD <= |mem|
    requires var h := DecodeHdr(mem, at); h.seqno == rxseq && LengthOk(h) && h.len == rlen == |p|
    requires Delivers(mem, wifi, DispatchAt(mem, wifi, at, rxseq), p)
    ensures AllDelivered(mem, wifi, Parse(mem, wifi, at, rlen, rxseq), [p])
  {
    ParseStops(mem, wifi, at, rlen, rxseq, Parse(mem, wifi, at, rlen, rxseq), DecodeHdr(mem, at));
  }

  ghost predicate AllDelivered(mem: seq<Byte>, wifi: bool, p: Parsed, ps: seq<Packet>) {
    match p
    case Parsed(items, numbered, ok) => ok && numbered == |ps| && DeliversAll(mem, wifi, items, ps)
  }

  lemma {:induction false} FirstAndRest(mem: seq<Byte>, wifi: bool, at: nat, rlen: nat, p: Packet, tail: seq<Packet>,
                                        rxseq: U32, at1: nat, rlen1: nat, r1: U32, whole: Parsed, rest: Parsed)
    requires 0 < rlen1 && at + rlen + OVERREAD <= |mem|
    requires at1 == at + |p| && rlen1 == rlen - |p| && r1 == Wrap32(rxseq + 1)
    requires var h := DecodeHdr(mem, at); h.seqno == rxseq && LengthOk(h) && h.len == |p|
    requires Delivers(mem, wifi, DispatchAt(mem, wifi, at, rxseq), p)
    requires whole == Parse(mem, wifi, at, rlen, rxseq) && rest == Parse(mem, wifi, at1, rlen1, r1)
    requires AllDelivered(mem, wifi, rest, tail)
    ensures AllDelivered(mem, wifi, whole, [p] + tail)
  {
    ParseGoesOn(mem, wifi, at, rlen, rxseq, whole, DecodeHdr(mem, at), at1, rlen1, r1, rest);
    FrontDelivered(mem, wifi, DispatchAt(mem, wifi, at, rxseq), rest, p, tail);
  }

  lemma FrontDelivered(mem: seq<Byte>, wifi: bool, d: Dispatch, rest: Parsed, p: Packet, tail: seq<Packet>)
    requires Delivers(mem, wifi, d, p) && AllDelivered(mem, wifi, rest, tail)
    ensures AllDelivered(mem, wifi, Parsed([d] + rest.items, 1 + rest.numbered, rest.ok), [p] + tail)
  {
    assert ([p] + tail)[1..] == tail && ([d] + rest.items)[1..] == rest.items;
  }

  // The first packet of a chain is found under its header; the others follow it.
  lemma {:induction false} FirstOfChain(mem: seq<Byte>, wifi: bool, at: nat, p: Packet, tail: seq<Packet>, rxseq: U32)
    requires Sound(p, rxseq)
    requires at + |p + Concat(tail)| <= |mem| && mem[at..at + |p + Concat(tail)|] == p + Concat(tail)
    ensures var h := DecodeHdr(mem, at);
            && h.seqno == rxseq && LengthOk(h) && h.len == |p|
            && Delivers(mem, wifi, DispatchAt(mem, wifi, at, rxseq), p)
            && mem[at + |p|..at + |p| + |Concat(tail)|] == Concat(tail)
  {
    Splits(mem, at, p, Concat(tail));
    HdrOfSlice(mem, at, p);
  }

  lemma HdrOfSlice(mem: seq<Byte>, at: nat, p: seq<Byte>)
    requires at + |p| <= |mem| && mem[at..at + |p|] == p && HDR_LEN <= |p|
    ensures DecodeHdr(mem, at) == DecodeHdr(p, 0) && mem[at] == p[0]
  {
    assert forall k :: 0 <= k < |p| ==> mem[at + k] == p[k];
  }

  lemma Splits(mem: seq<Byte>, at: nat, a: seq<Byte>, b: seq<Byte>)
    requires at + |a + b| <= |mem| && mem[at..at + |a + b|] == a + b
    ensures mem[at..at + |a|] == a && mem[at + |a|..at + |a| + |b|] == b
  {
    var ab := a + b;
    SliceOfSlice(mem, at, at + |ab|, 0, |a|);
    SliceOfSlice(mem, at, at + |ab|, |a|, |ab|);
    assert ab[0..|a|] == a && ab[|a|..|ab|] == b;
  }

  lemma {:induction false} ConcatNonEmpty(ps: seq<Packet>, rxseq: U32)
    requires ps != [] && Chained(ps, rxseq)
    ensures |Concat(ps)| > 0
  {
  }

  ghost predicate NumberedFrom(items: seq<Dispatch>, rxseq: U32) {
    items != [] ==> items[0].seqno == rxseq && NumberedFrom(items[1..], Wrap32(rxseq + 1))
  }

  lemma {:induction false} NumberedAt(items: seq<Dispatch>, rxseq: U32, i: nat)
    requires NumberedFrom(items, rxseq) && i < |items|
    ensures items[i].seqno == Wrap32(rxseq + i)
  {
    if i > 0 {
      NumberedAt(items[1..], Wrap32(rxseq + 1), i - 1);
      WrapAdds(rxseq + 1, i - 1);
    }
  }

  // Whatever the bytes: deliveries carry consecutive numbers from `rxseq`, and at most
  // one further number is taken, by a mismatch.
  lemma {:induction false} ParseNumbers(mem: seq<Byte>, wifi: bool, at: nat, rlen: nat, rxseq: U32)
    requires at + rlen + OVERREAD <= |mem|
    ensures var p := Parse(mem, wifi, at, rlen, rxseq);
            && |p.items| <= p.numbered <= |p.items| + 1
            && (p.ok ==> p.numbered == |p.items|)
            && NumberedFrom(p.items, rxseq)
    decreases rlen
  {
    if rlen > 0 {
      var h := DecodeHdr(mem, at);
      if LengthOk(h) && h.seqno == rxseq && h.len < rlen {
        var p, rest := Parse(mem, wifi, at, rlen, rxseq), Parse(mem, wifi, at + h.len, rlen - h.len, Wrap32(rxseq + 1));
        ParseNumbers(mem, wifi, at + h.len, rlen - h.len, Wrap32(rxseq + 1));
        assert p.items[1..] == rest.items;
      }
    }
  }

  // Whatever the bytes: the deliveries tile the data from `at` on without gap or overlap,
  // each under a header of acceptable length, and the parse succeeds exactly when they
  // reach the end of the data.
  lemma {:induction false} ParseTiles(mem: seq<Byte>, wifi: bool, at: nat, rlen: nat, rxseq: U32)
    requires at + rlen + OVERREAD <= |mem|
    ensures var p := Parse(mem, wifi, at, rlen, rxseq);
            && TilesFrom(mem, wifi, p.items, at, at + rlen)
            && (p.ok <==> TilesUpTo(p.items, at) >= at + rlen)
    decreases rlen
  {
    if rlen > 0 {
      var h := DecodeHdr(mem, at);
      if LengthOk(h) && h.seqno == rxseq && h.len < rlen {
        var items := Parse(mem, wifi, at, rlen, rxseq).items;
        var rest := Parse(mem, wifi, at + h.len, rlen - h.len, Wrap32(rxseq + 1)).items;
        ParseTiles(mem, wifi, at + h.len, rlen - h.len, Wrap32(rxseq + 1));
        assert items[1..] == rest;
      }
    }
  }

  // Why the loop fails, and exactly when: where the deliveries end stands a header whose
  // length is 0 or no multiple of four, and then no further number is taken, or one that does
  // not carry the next number, and then one is.
  lemma {:induction false} ParseFailsIff(mem: seq<Byte>, wifi: bool, at: nat, rlen: nat, rxseq: U32, p: Parsed)
    requires at + rlen + OVERREAD <= |mem| && p == Parse(mem, wifi, at, rlen, rxseq)
    ensures !p.ok <==> TilesUpTo(p.items, at) < at + rlen
    ensures !p.ok ==>
              var q := TilesUpTo(p.items, at);
              && var h := DecodeHdr(mem, q);
              && (h.len == 0 || h.len % 4 != 0 || h.seqno != Wrap32(rxseq + |p.items|))
              && (p.numbered == |p.items| <==> h.len == 0 || h.len % 4 != 0)
    decreases rlen
  {
    if rlen > 0 {
      var h := DecodeHdr(mem, at);
      if LengthOk(h) && h.seqno == rxseq && h.len < rlen {
        var at1, rlen1, r1 := at + h.len, rlen - h.len, Wrap32(rxseq + 1);
        var rest := Parse(mem, wifi, at1, rlen1, r1);
        ParseFailsIff(mem, wifi, at1, rlen1, r1, rest);
        ParseGoesOn(mem, wifi, at, rlen, rxseq, p, h, at1, rlen1, r1, rest);
        WrapAdds(rxseq + 1, |rest.items|);
        assert p.items[1..] == rest.items;
      } else {
        ParseStops(mem, wifi, at, rlen, rxseq, p, h);
      }
    }
  }

  // Each item starts where the one before it ended, before the end of the data.
  ghost predicate TilesFrom(mem: seq<Byte>, wifi: bool, items: seq<Dispatch>, at: nat, limit: nat) {
    items == [] ||
    (items[0].at == at < limit && HeadedAt(mem, items[0], wifi) &&
     TilesFrom(mem, wifi, items[1..], End(items[0]), limit))
  }

  function TilesUpTo(items: seq<Dispatch>, at: nat): nat {
    if items == [] then at else TilesUpTo(items[1..], End(items[0]))
  }

  function End(d: Dispatch): nat {
    d.at + d.len
  }

  ghost predicate HeadedAt(mem: seq<Byte>, d: Dispatch, wifi: bool) {
    && d.at + HDR_LEN <= |mem|
    && var h := DecodeHdr(mem, d.at);
       LengthOk(h) && d.len == h.len && d.seqno == h.seqno && d.handler == HandlerOf(h.fc0, wifi)
  }

  /** One read: `rlen` bytes at the start of `mem`. */
  datatype Batch = Batch(mem: seq<Byte>, rlen: nat)

  predicate Readable(b: Batch) {
    b.rlen + OVERREAD <= |b.mem|
  }

  /** A delivery together with the number it took, unwrapped. */
  datatype Delivery = Delivery(number: nat, item: Dispatch)

  function Outcome(b: Batch, wifi: bool, total: nat): Parsed
    requires Readable(b)
  {
    Parse(b.mem, wifi, 0, b.rlen, Wrap32(total))
  }

  // `total` numbers have been taken since the last reset; how many after these batches.
  function TotalAfter(bs: seq<Batch>, wifi: bool, total: nat): nat
    requires forall b :: b in bs ==> Readable(b)
  {
    if bs == [] then total
    else
      var t := TotalAfter(bs[..|bs| - 1], wifi, total);
      t + Outcome(bs[|bs| - 1], wifi, t).numbered
  }

  function Deliveries(bs: seq<Batch>, wifi: bool, total: nat): seq<Delivery>
    requires forall b :: b in bs ==> Readable(b)
  {
    if bs == [] then []
    else
      var t := TotalAfter(bs[..|bs| - 1], wifi, total);
      var items := Outcome(bs[|bs| - 1], wifi, t).items;
      Deliveries(bs[..|bs| - 1], wifi, total) + Tagged(items, t)
  }

  function Tagged(items: seq<Dispatch>, t: nat): (ds: seq<Delivery>)
    ensures |ds| == |items|
    ensures forall i :: 0 <= i < |items| ==> ds[i] == Delivery(t + i, items[i])
  {
    seq(|items|, i requires 0 <= i < |items| => Delivery(t + i, items[i]))
  }

  function Mismatches(bs: seq<Batch>, wifi: bool, total: nat): int
    requires forall b :: b in bs ==> Readable(b)
  {
    if bs == [] then 0
    else
      var t := TotalAfter(bs[..|bs| - 1], wifi, total);
      var p := Outcome(bs[|bs| - 1], wifi, t);
      Mismatches(bs[..|bs| - 1], wifi, total) + (p.numbered - |p.items|)
  }

  // Between boot resets no packet is delivered twice or out of order, over any run of
  // batches, malformed and out-of-sequence ones included; every number taken was
  // either delivered or a mismatch, at most one mismatch per batch.
  lemma {:induction false} NoDuplicateOrReorder(bs: seq<Batch>, wifi: bool, total: nat)
    requires forall b :: b in bs ==> Readable(b)
    ensures var ds, t := Deliveries(bs, wifi, total), TotalAfter(bs, wifi, total);
            && (forall i :: 0 <= i < |ds| ==> total <= ds[i].number < t && ds[i].item.seqno == Wrap32(ds[i].number))
            && (forall i, j :: 0 <= i < j < |ds| ==> ds[i].number < ds[j].number)
            && t == total + |ds| + Mismatches(bs, wifi, total)
            && 0 <= Mismatches(bs, wifi, total) <= |bs|
  {
    if bs != [] {
      var init, b := bs[..|bs| - 1], bs[|bs| - 1];
      NoDuplicateOrReorder(init, wifi, total);
      var t := TotalAfter(init, wifi, total);
      assert b in bs;
      BatchNumbers(b, wifi, t);
    }
  }

  lemma BatchNumbers(b: Batch, wifi: bool, t: nat)
    requires Readable(b)
    ensures var p := Outcome(b, wifi, t);
            && |p.items| <= p.numbered <= |p.items| + 1
            && forall i :: 0 <= i < |p.items| ==>
                 Tagged(p.items, t)[i].item.seqno == Wrap32(Tagged(p.items, t)[i].number)
  {
    ParseNumbers(b.mem, wifi, 0, b.rlen, Wrap32(t));
    var items := Outcome(b, wifi, t).items;
    forall i | 0 <= i < |items|
      ensures items[i].seqno == Wrap32(t + i)
    {
      NumberedAt(items, Wrap32(t), i);
      WrapAdds(t, i);
    }
  }

  // The target numbers its packets consecutively: `sent` packets before the first batch,
  // `counts[i]` of them in batch i.
  function SentAfter(sent: nat, counts: seq<nat>): nat {
    if counts == [] then sent else SentAfter(sent, counts[..|counts| - 1]) + counts[|counts| - 1]
  }

  ghost predicate TargetNumbers(bs: seq<Batch>, sent: nat, counts: seq<nat>)
    requires forall b :: b in bs ==> Readable(b)
  {
    && |counts| == |bs|
    && (bs != [] ==>
          var n := |bs| - 1;
          && counts[n] > 0 && Leads(bs[n], SentAfter(sent, counts[..n]))
          && TargetNumbers(bs[..n], sent, counts[..n]))
  }

  // The batch is not empty and its first packet is number `number` of the target.
  predicate Leads(b: Batch, number: nat)
    requires Readable(b)
  {
    b.rlen > 0 && DecodeHdr(b.mem, 0).seqno == Wrap32(number)
  }

  // In particular a host that is behind never catches up while its lag is below 2^32: it
  // takes at most one number per batch, and the lag does not shrink.
  lemma {:induction false} LossIsPermanent(bs: seq<Batch>, wifi: bool, total: nat, sent: nat, counts: seq<nat>)
    requires forall b :: b in bs ==> Readable(b)
    requires TargetNumbers(bs, sent, counts)
    requires total < sent && SentAfter(sent, counts) <= total + TWO32
    ensures Deliveries(bs, wifi, total) == []
    ensures SentAfter(sent, counts) - TotalAfter(bs, wifi, total) >= sent - total
    ensures total <= TotalAfter(bs, wifi, total)
  {
    if bs != [] {
      var n := |bs| - 1;
      LossIsPermanent(bs[..n], wifi, total, sent, counts[..n]);
      BehindStays(bs[n], wifi, TotalAfter(bs[..n], wifi, total), SentAfter(sent, counts[..n]));
      NothingAdded(bs, wifi, total);
    }
  }

  lemma {:induction false} NothingAdded(bs: seq<Batch>, wifi: bool, total: nat)
    requires bs != [] && forall b :: b in bs ==> Readable(b)
    requires var t, n := TotalAfter(bs[..|bs| - 1], wifi, total), |bs| - 1;
             && Deliveries(bs[..n], wifi, total) == []
             && Outcome(bs[n], wifi, t).items == [] && Outcome(bs[n], wifi, t).numbered <= 1
    ensures Deliveries(bs, wifi, total) == []
    ensures var t := TotalAfter(bs[..|bs| - 1], wifi, total); t <= TotalAfter(bs, wifi, total) <= t + 1
  {
  }

  // A host that expects an earlier number delivers nothing of the batch.
  lemma BehindStays(b: Batch, wifi: bool, t: nat, s: nat)
    requires Readable(b) && Leads(b, s) && t < s < t + TWO32
    ensures Outcome(b, wifi, t).items == [] && Outcome(b, wifi, t).numbered <= 1
  {
    SameWrap(s, t);
  }

  lemma SameWrap(s: int, t: int)
    ensures Wrap32(s) == Wrap32(t) <==> (s - t) % TWO32 == 0
  {
    var q := s / TWO32 - t / TWO32;
    assert s - t == Wrap32(s) - Wrap32(t) + TWO32 * q;
  }

  // The lag is a multiple of 2^32.
  predicate InStep(s: nat, t: nat) {
    (s - t) % TWO32 == 0
  }

  // A batch delivers something if and only if its first length is acceptable and the host
  // lags by a multiple of 2^32, zero included.
  lemma BatchDeliversIff(b: Batch, wifi: bool, t: nat, s: nat)
    requires Readable(b) && Leads(b, s)
    ensures Outcome(b, wifi, t).items != [] <==> Counts(b) && InStep(s, t)
    ensures Outcome(b, wifi, t).items == [] ==> Outcome(b, wifi, t).numbered == if Counts(b) then 1 else 0
  {
    SameWrap(s, t);
  }

  // The first header of the batch takes a number.
  predicate Counts(b: Batch)
    requires Readable(b)
  {
    LengthOk(DecodeHdr(b.mem, 0))
  }

  // How many numbers a host that delivers nothing takes.
  function Attempts(bs: seq<Batch>): nat
    requires forall b :: b in bs ==> Readable(b)
  {
    if bs == [] then 0
    else
      assert bs[|bs| - 1] in bs;
      Attempts(bs[..|bs| - 1]) + if Counts(bs[|bs| - 1]) then 1 else 0
  }

  // No batch with an acceptable first length meets a host that lags by a multiple of 2^32;
  // a condition on what the target sends and on the lag at the start.
  ghost predicate NeverInStep(bs: seq<Batch>, total: nat, sent: nat, counts: seq<nat>)
    requires |counts| == |bs| && forall b :: b in bs ==> Readable(b)
  {
    bs != [] ==>
      var n := |bs| - 1;
      assert bs[n] in bs;
      && NeverInStep(bs[..n], total, sent, counts[..n])
      && !(Counts(bs[n]) && InStep(SentAfter(sent, counts[..n]), total + Attempts(bs[..n])))
  }

  // The exact condition: over any run of batches the host delivers nothing if and only if
  // it is never in step with the target.
  lemma {:induction false} NothingDeliveredIff(bs: seq<Batch>, wifi: bool, total: nat, sent: nat, counts: seq<nat>)
    requires forall b :: b in bs ==> Readable(b)
    requires TargetNumbers(bs, sent, counts)
    ensures Deliveries(bs, wifi, total) == [] <==> NeverInStep(bs, total, sent, counts)
    ensures Deliveries(bs, wifi, total) == [] ==> TotalAfter(bs, wifi, total) == total + Attempts(bs)
  {
    if bs != [] {
      var n := |bs| - 1;
      NothingDeliveredIff(bs[..n], wifi, total, sent, counts[..n]);
      OneMoreBatch(bs, wifi, total, sent, counts, n, bs[n], TotalAfter(bs[..n], wifi, total),
                   SentAfter(sent, counts[..n]));
    }
  }

  lemma {:induction false} OneMoreBatch(bs: seq<Batch>, wifi: bool, total: nat, sent: nat, counts: seq<nat>,
                                        n: nat, b: Batch, t: nat, s: nat)
    requires |bs| == n + 1 == |counts| && b == bs[n] && forall x :: x in bs ==> Readable(x)
    requires t == TotalAfter(bs[..n], wifi, total) && s == SentAfter(sent, counts[..n]) && Leads(b, s)
    requires Deliveries(bs[..n], wifi, total) == [] <==> NeverInStep(bs[..n], total, sent, counts[..n])
    requires Deliveries(bs[..n], wifi, total) == [] ==> t == total + Attempts(bs[..n])
    ensures Deliveries(bs, wifi, total) == [] <==> NeverInStep(bs, total, sent, counts)
    ensures Deliveries(bs, wifi, total) == [] ==> TotalAfter(bs, wifi, total) == total + Attempts(bs)
  {
    BatchEffect(bs, wifi, total, n, b, t, s);
    var a0 := total + Attempts(bs[..n]);
    Unfolded(bs, total, sent, counts, n, b, s, a0);
  }

  lemma {:induction false} BatchEffect(bs: seq<Batch>, wifi: bool, total: nat, n: nat, b: Batch, t: nat, s: nat)
    requires |bs| == n + 1 && b == bs[n] && forall x :: x in bs ==> Readable(x)
    requires t == TotalAfter(bs[..n], wifi, total) && Leads(b, s)
    ensures Deliveries(bs, wifi, total) == [] <==>
            Deliveries(bs[..n], wifi, total) == [] && !(Counts(b) && InStep(s, t))
    ensures Deliveries(bs, wifi, total) == [] ==> TotalAfter(bs, wifi, total) == t + if Counts(b) then 1 else 0
  {
    DeliveredLast(bs, wifi, total);
    BatchDeliversIff(b, wifi, t, s);
  }

  lemma {:induction false} Unfolded(bs: seq<Batch>, total: nat, sent: nat, counts: seq<nat>, n: nat, b: Batch,
                                    s: nat, a0: nat)
    requires |bs| == n + 1 == |counts| && b == bs[n] && forall x :: x in bs ==> Readable(x)
    requires s == SentAfter(sent, counts[..n]) && a0 == total + Attempts(bs[..n])
    ensures total + Attempts(bs) == a0 + if Counts(b) then 1 else 0
    ensures NeverInStep(bs, total, sent, counts) <==>
            NeverInStep(bs[..n], total, sent, counts[..n]) && !(Counts(b) && InStep(s, a0))
  {
  }

  lemma {:induction false} DeliveredLast(bs: seq<Batch>, wifi: bool, total: nat)
    requires bs != [] && forall b :: b in bs ==> Readable(b)
    ensures var n := |bs| - 1; var t := TotalAfter(bs[..n], wifi, total);
            && (Deliveries(bs, wifi, total) == [] <==>
                  Deliveries(bs[..n], wifi, total) == [] && Outcome(bs[n], wifi, t).items == [])
            && TotalAfter(bs, wifi, total) == t + Outcome(bs[n], wifi, t).numbered
  {
  }

  // A batch with the given first header.
  lemma BatchOf(h: SipHdr, rlen: nat) returns (b: Batch)
    requires HDR_LEN <= rlen
    ensures Readable(b) && b.rlen == rlen && DecodeHdr(b.mem, 0) == h
  {
    var mem := EncodeHdr(h) + seq(rlen + OVERREAD, _ => 0);
    assert mem[0..HDR_LEN] == EncodeHdr(h);
    HdrRoundTrip(h, mem, 0);
    b := Batch(mem, rlen);
  }

  // A run that gets there: packet 0 is refused for its length, so packet 1 finds a host that
  // still expects 0, and so does every later one.
  lemma LossHappens(wifi: bool, first: SipHdr, second: SipHdr) returns (bs: seq<Batch>, counts: seq<nat>)
    requires first.len == 13 && first.seqno == 0 && second.len == HDR_LEN && second.seqno == 1
    ensures |bs| == 2 && (forall b :: b in bs ==> Readable(b)) && TargetNumbers(bs, 0, counts)
    ensures bs[0] in bs && bs[1] in bs && DecodeHdr(bs[0].mem, 0) == first && DecodeHdr(bs[1].mem, 0) == second
    ensures Deliveries(bs, wifi, 0) == [] && TotalAfter(bs, wifi, 0) == 1 && SentAfter(0, counts) == 2
  {
    var b1 := BatchOf(first, 13);
    var b2 := BatchOf(second, HDR_LEN);
    bs, counts := [b1, b2], [1, 1];
    assert bs[..1] == [b1] && bs[..1][..0] == [] && counts[..1] == [1] && counts[..1][..0] == [];
    assert SentAfter(0, counts[..1]) == 1;
    assert b1 in bs && b2 in bs && Leads(b1, 0) && Leads(b2, 1);
    assert TargetNumbers([b1], 0, [1]);
    assert !Counts(b1) && Counts(b2) && Attempts(bs[..1]) == 0;
    assert NeverInStep(bs[..1], 0, 0, counts[..1]);
    NothingDeliveredIff(bs, wifi, 0, 0, counts);
  }
}
