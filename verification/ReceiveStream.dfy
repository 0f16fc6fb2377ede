/** The receive path over whole runs of reads: chains that arrive one per read, and reads that
    cut the target's stream of packets anywhere. */
module ReceiveStream {
  import opened Words
  import opened SipFormat
  import opened TransRecv
  import opened ReceiveChain

  // ----- one chain per read

  function Count(chains: seq<seq<Packet>>): nat {
    if chains == [] then 0 else Count(chains[..|chains| - 1]) + |chains[|chains| - 1]|
  }

  // The batch is a chain numbered on from `total`.
  ghost predicate Carries(b: Batch, ps: seq<Packet>, total: nat) {
    && ps != [] && Chained(ps, Wrap32(total))
    && Readable(b) && b.rlen == |Concat(ps)| && b.mem[0..b.rlen] == Concat(ps)
  }

  ghost predicate CarriesAll(bs: seq<Batch>, chains: seq<seq<Packet>>, total: nat) {
    && |chains| == |bs|
    && (bs != [] ==>
          var n := |bs| - 1;
          Carries(bs[n], chains[n], total + Count(chains[..n])) && CarriesAll(bs[..n], chains[..n], total))
  }

  ghost predicate DeliversChain(b: Batch, wifi: bool, t: nat, ps: seq<Packet>)
    requires Readable(b)
  {
    var p := Outcome(b, wifi, t);
    p.ok && p.numbered == |ps| == |p.items| && forall i :: 0 <= i < |ps| ==> Delivers(b.mem, wifi, p.items[i], ps[i])
  }

  ghost predicate DeliversRun(bs: seq<Batch>, chains: seq<seq<Packet>>, wifi: bool, total: nat)
    requires |chains| == |bs| && forall b :: b in bs ==> Readable(b)
  {
    bs != [] ==>
      var n := |bs| - 1;
      assert bs[n] in bs;
      && DeliversChain(bs[n], wifi, total + Count(chains[..n]), chains[n])
      && DeliversRun(bs[..n], chains[..n], wifi, total)
  }

  // The round trip over runs: one delivery per packet, in order, with its bytes and its number.
  lemma {:induction false} RunRoundTrip(bs: seq<Batch>, chains: seq<seq<Packet>>, wifi: bool, total: nat)
    requires forall b :: b in bs ==> Readable(b)
    requires CarriesAll(bs, chains, total)
    ensures TotalAfter(bs, wifi, total) == total + Count(chains)
    ensures |Deliveries(bs, wifi, total)| == Count(chains)
    ensures DeliversRun(bs, chains, wifi, total)
  {
    if bs != [] {
      var n := |bs| - 1;
      assert bs[n] in bs;
      RunRoundTrip(bs[..n], chains[..n], wifi, total);
      var t := total + Count(chains[..n]);
      CarriedChain(bs[n], wifi, t, chains[n]);
      OneMoreChain(bs, wifi, total, n, bs[n], t, |chains[n]|);
    }
  }

  lemma {:induction false} CarriedChain(b: Batch, wifi: bool, t: nat, ps: seq<Packet>)
    requires Carries(b, ps, t)
    ensures DeliversChain(b, wifi, t, ps)
  {
    ChainRoundTrip(b.mem, wifi, 0, ps, Wrap32(t));
  }

  lemma {:induction false} OneMoreChain(bs: seq<Batch>, wifi: bool, total: nat, n: nat, b: Batch, t: nat, k: nat)
    requires |bs| == n + 1 && b == bs[n] && forall x :: x in bs ==> Readable(x)
    requires t == TotalAfter(bs[..n], wifi, total)
    requires Readable(b) && Outcome(b, wifi, t).numbered == k == |Outcome(b, wifi, t).items|
    ensures TotalAfter(bs, wifi, total) == t + k
    ensures |Deliveries(bs, wifi, total)| == |Deliveries(bs[..n], wifi, total)| + k
  {
  }

  // ----- reads that cut the stream anywhere

  // The first `r` bytes of the stream are whole packets.
  ghost predicate AtBoundary(ps: seq<Packet>, r: nat) {
    r == 0 || (ps != [] && |ps[0]| <= r && AtBoundary(ps[1..], r - |ps[0]|))
  }

  // How many packets they are.
  function Taken(ps: seq<Packet>, r: nat): (k: nat)
    ensures k <= |ps|
  {
    if r == 0 || ps == [] || r < |ps[0]| then 0 else 1 + Taken(ps[1..], r - |ps[0]|)
  }

  // No delivery reaches beyond the data that was read.
  ghost predicate Within(items: seq<Dispatch>, limit: nat) {
    items != [] ==> End(items[0]) <= limit && Within(items[1..], limit)
  }

  // The chain loop succeeds and hands out nothing but what was read.
  ghost predicate ExactParse(p: Parsed, limit: nat) {
    match p
    case Parsed(items, _, ok) => ok && Within(items, limit)
  }

  // A read that starts with a packet in step hands out exactly what was read if and only if
  // it ends with a packet.
  lemma {:induction false} ReadExactIff(mem: seq<Byte>, wifi: bool, at: nat, rlen: nat, ps: seq<Packet>, rxseq: U32,
                                        limit: nat)
    requires limit == at + rlen && Chained(ps, rxseq) && 0 < rlen <= |Concat(ps)|
    requires at + rlen + OVERREAD <= |mem| && mem[at..at + rlen] == Concat(ps)[..rlen]
    ensures ExactParse(Parse(mem, wifi, at, rlen, rxseq), limit) <==> AtBoundary(ps, rlen)
    decreases |ps|
  {
    var p, tail := ps[0], ps[1..];
    var rest := Concat(tail);
    assert ps == [p] + tail && Concat(ps) == p + rest;
    if rlen < |p| {
      CutPacket(mem, wifi, at, rlen, p, rest, rxseq);
    } else {
      var at1, rlen1, r1 := at + |p|, rlen - |p|, Wrap32(rxseq + 1);
      WholeFirst(mem, at, rlen, p, rest, rxseq, at1, rlen1);
      if rlen1 > 0 {
        ReadExactIff(mem, wifi, at1, rlen1, tail, r1, limit);
      }
      RestDecides(mem, wifi, at, rlen, ps, p, tail, rxseq, at1, rlen1, r1, limit);
    }
  }

  lemma {:induction false} RestDecides(mem: seq<Byte>, wifi: bool, at: nat, rlen: nat, ps: seq<Packet>, p: Packet,
                                       tail: seq<Packet>, rxseq: U32, at1: nat, rlen1: nat, r1: U32, limit: nat)
    requires ps == [p] + tail && Sound(p, rxseq) && 0 < rlen && at + rlen + OVERREAD <= |mem|
    requires DecodeHdr(mem, at) == DecodeHdr(p, 0)
    requires at1 == at + |p| <= limit && rlen == |p| + rlen1 && r1 == Wrap32(rxseq + 1) && limit == at + rlen
    requires rlen1 > 0 ==> (ExactParse(Parse(mem, wifi, at1, rlen1, r1), limit) <==> AtBoundary(tail, rlen1))
    ensures ExactParse(Parse(mem, wifi, at, rlen, rxseq), limit) <==> AtBoundary(ps, rlen)
  {
    FirstAccepted(mem, wifi, at, rlen, p, rxseq, at1, rlen1, r1, limit);
    BoundaryMoves(ps, p, tail, rlen, rlen1);
  }

  lemma {:induction false} BoundaryMoves(ps: seq<Packet>, p: Packet, tail: seq<Packet>, r: nat, r1: nat)
    requires ps == [p] + tail && r == |p| + r1 && r > 0
    ensures AtBoundary(ps, r) <==> AtBoundary(tail, r1)
  {
    assert ps[1..] == tail;
  }

  // The first packet is there in full: its header is found, and the rest follows.
  lemma {:induction false} WholeFirst(mem: seq<Byte>, at: nat, rlen: nat, p: Packet, rest: seq<Byte>, rxseq: U32,
                                      at1: nat, rlen1: nat)
    requires Sound(p, rxseq) && |p| <= rlen <= |p| + |rest| && at1 == at + |p| && rlen1 == rlen - |p|
    requires at + rlen <= |mem| && mem[at..at + rlen] == (p + rest)[..rlen]
    ensures DecodeHdr(mem, at) == DecodeHdr(p, 0)
    ensures at1 + rlen1 == at + rlen && mem[at1..at1 + rlen1] == rest[..rlen1]
  {
    var whole := mem[at..at + rlen];
    assert whole[..|p|] == p && whole[|p|..] == rest[..rlen1];
    SliceOfSlice(mem, at, at + rlen, 0, |p|);
    SliceOfSlice(mem, at, at + rlen, |p|, rlen);
    assert whole[0..|p|] == p && whole[|p|..rlen] == rest[..rlen1];
    HdrOfSlice(mem, at, p);
  }

  // An accepted first packet leaves the question to the rest.
  lemma {:induction false} FirstAccepted(mem: seq<Byte>, wifi: bool, at: nat, rlen: nat, p: Packet, rxseq: U32,
                                         at1: nat, rlen1: nat, r1: U32, limit: nat)
    requires Sound(p, rxseq) && 0 < rlen && at + rlen + OVERREAD <= |mem| && DecodeHdr(mem, at) == DecodeHdr(p, 0)
    requires at1 == at + |p| <= limit && rlen1 == rlen - |p| && r1 == Wrap32(rxseq + 1) && limit == at + rlen
    ensures rlen1 == 0 ==> ExactParse(Parse(mem, wifi, at, rlen, rxseq), limit)
    ensures rlen1 > 0 ==>
              (ExactParse(Parse(mem, wifi, at, rlen, rxseq), limit) <==>
                ExactParse(Parse(mem, wifi, at1, rlen1, r1), limit))
  {
    var whole, h := Parse(mem, wifi, at, rlen, rxseq), DecodeHdr(mem, at);
    if rlen1 == 0 {
      ParseStops(mem, wifi, at, rlen, rxseq, whole, h);
    } else {
      var rest := Parse(mem, wifi, at1, rlen1, r1);
      ParseGoesOn(mem, wifi, at, rlen, rxseq, whole, h, at1, rlen1, r1, rest);
      assert ([DispatchAt(mem, wifi, at, rxseq)] + rest.items)[1..] == rest.items;
    }
  }

  // A packet that is cut is refused, or handed out with a length beyond the data.
  lemma {:induction false} CutPacket(mem: seq<Byte>, wifi: bool, at: nat, rlen: nat, p: Packet, rest: seq<Byte>,
                                     rxseq: U32)
    requires Sound(p, rxseq) && 0 < rlen < |p|
    requires at + rlen + OVERREAD <= |mem| && mem[at..at + rlen] == (p + rest)[..rlen]
    ensures !ExactParse(Parse(mem, wifi, at, rlen, rxseq), at + rlen)
  {
    var h := DecodeHdr(mem, at);
    if rlen >= 4 {
      LengthSeen(mem, at, rlen, p, rest);
    }
    assert LengthOk(h) ==> h.len > rlen;
    ParseStops(mem, wifi, at, rlen, rxseq, Parse(mem, wifi, at, rlen, rxseq), h);
  }

  // Four bytes of a packet are enough to see its length.
  lemma LengthSeen(mem: seq<Byte>, at: nat, rlen: nat, p: Packet, rest: seq<Byte>)
    requires HDR_LEN <= |p| && 4 <= rlen < |p| && DecodeHdr(p, 0).len == |p|
    requires at + rlen + OVERREAD <= |mem| && mem[at..at + rlen] == (p + rest)[..rlen]
    ensures DecodeHdr(mem, at).len == |p|
  {
    var s := mem[at..at + rlen];
    assert s[2] == mem[at + 2] && s[3] == mem[at + 3] && s[2] == p[2] && s[3] == p[3];
  }

  // With the whole header in the data the cut packet is handed out, and the read succeeds.
  lemma {:induction false} CutPacketDelivered(mem: seq<Byte>, wifi: bool, at: nat, rlen: nat, p: Packet, rxseq: U32)
    requires Sound(p, rxseq) && HDR_LEN <= rlen < |p|
    requires at + rlen + OVERREAD <= |mem| && mem[at..at + rlen] == p[..rlen]
    ensures var q := Parse(mem, wifi, at, rlen, rxseq);
            q.ok && |q.items| == 1 && q.items[0].at == at && q.items[0].len == |p| > rlen
  {
    var head := p[..rlen];
    HdrOfSlice(mem, at, head);
    HdrOfSlice(p, 0, head);
    ParseStops(mem, wifi, at, rlen, rxseq, Parse(mem, wifi, at, rlen, rxseq), DecodeHdr(mem, at));
  }

  // Reads of the stream `s`, each going on where the one before it ended.
  ghost predicate StreamReads(bs: seq<Batch>, s: seq<Byte>) {
    bs != [] ==>
      && Readable(bs[0]) && 0 < bs[0].rlen <= |s| && bs[0].mem[0..bs[0].rlen] == s[..bs[0].rlen]
      && StreamReads(bs[1..], s[bs[0].rlen..])
  }

  // The read is long enough to be looked at, and hands out exactly what was read.
  ghost predicate Exact(b: Batch, wifi: bool, t: nat)
    requires Readable(b)
  {
    HDR_LEN <= b.rlen && ExactParse(Outcome(b, wifi, t), b.rlen)
  }

  ghost predicate AllExact(bs: seq<Batch>, wifi: bool, t: nat)
    requires forall b :: b in bs ==> Readable(b)
  {
    bs != [] ==>
      assert bs[0] in bs;
      Exact(bs[0], wifi, t) && AllExact(bs[1..], wifi, t + Outcome(bs[0], wifi, t).numbered)
  }

  ghost predicate AllAtBoundaries(bs: seq<Batch>, ps: seq<Packet>) {
    bs != [] ==> AtBoundary(ps, bs[0].rlen) && AllAtBoundaries(bs[1..], ps[Taken(ps, bs[0].rlen)..])
  }

  // Every read hands out the next packets of the target, all of them and nothing else.
  ghost predicate DispatchesPackets(bs: seq<Batch>, ps: seq<Packet>, wifi: bool, t: nat)
    requires forall b :: b in bs ==> Readable(b)
  {
    bs != [] ==>
      var k := Taken(ps, bs[0].rlen);
      assert bs[0] in bs;
      DeliversChain(bs[0], wifi, t, ps[..k]) && DispatchesPackets(bs[1..], ps[k..], wifi, t + k)
  }

  // What a boundary splits off.
  lemma {:induction false} BoundarySplit(ps: seq<Packet>, r: nat, rxseq: U32, k: nat)
    requires Chained(ps, rxseq) && AtBoundary(ps, r) && k == Taken(ps, r)
    ensures r <= |Concat(ps)| && Concat(ps[..k]) == Concat(ps)[..r] && Concat(ps[k..]) == Concat(ps)[r..]
    ensures Chained(ps[..k], rxseq) && Chained(ps[k..], Wrap32(rxseq + k))
    ensures r > 0 ==> k > 0 && HDR_LEN <= r
  {
    if r == 0 {
      assert ps[..0] == [] && ps[0..] == ps && Wrap32(rxseq + 0) == rxseq;
      assert Concat(ps)[..0] == [] && Concat(ps)[0..] == Concat(ps);
    } else {
      var p, tail, r1, k1, n1 := ps[0], ps[1..], r - |ps[0]|, k - 1, Wrap32(rxseq + 1);
      BoundarySplit(tail, r1, n1, k1);
      JoinSplit(ps, p, tail, tail[..k1], tail[k1..], r, r1, rxseq, n1, k, k1);
    }
  }

  lemma {:induction false} JoinSplit(ps: seq<Packet>, p: Packet, tail: seq<Packet>, front: seq<Packet>,
                                     back: seq<Packet>, r: nat, r1: nat, rxseq: U32, n1: U32, k: nat, k1: nat)
    requires ps == [p] + tail && k == k1 + 1 <= |ps| && front == tail[..k1] && back == tail[k1..]
    requires r == |p| + r1 && r1 <= |Concat(tail)| && Concat(front) == Concat(tail)[..r1] &&
             Concat(back) == Concat(tail)[r1..]
    requires Sound(p, rxseq) && n1 == Wrap32(rxseq + 1) && Chained(front, n1) && Chained(back, Wrap32(n1 + k1))
    ensures r <= |Concat(ps)| && Concat(ps[..k]) == Concat(ps)[..r] && Concat(ps[k..]) == Concat(ps)[r..]
    ensures Chained(ps[..k], rxseq) && Chained(ps[k..], Wrap32(rxseq + k))
  {
    WrapAdds(rxseq + 1, k1);
    assert ps[..k] == [p] + front && ps[k..] == back && ps[1..] == tail;
    FrontChain(p, front, rxseq, n1);
    SplitBehind(p, Concat(tail), r1);
  }

  lemma {:induction false} FrontChain(p: Packet, qs: seq<Packet>, rxseq: U32, n1: U32)
    requires Sound(p, rxseq) && n1 == Wrap32(rxseq + 1) && Chained(qs, n1)
    ensures Chained([p] + qs, rxseq) && Concat([p] + qs) == p + Concat(qs)
  {
    assert ([p] + qs)[1..] == qs;
  }

  lemma SplitBehind(p: seq<Byte>, rest: seq<Byte>, r: nat)
    requires r <= |rest|
    ensures (p + rest)[..|p| + r] == p + rest[..r] && (p + rest)[|p| + r..] == rest[r..]
  {
  }

  // Over any run of reads of the target's packets: every read hands out exactly what it read
  // if and only if every read ends with a packet, and then the packets of the target are
  // dispatched one by one.
  lemma {:induction false} RunExactIff(bs: seq<Batch>, wifi: bool, ps: seq<Packet>, t: nat)
    requires forall b :: b in bs ==> Readable(b)
    requires Chained(ps, Wrap32(t)) && StreamReads(bs, Concat(ps))
    ensures AllExact(bs, wifi, t) <==> AllAtBoundaries(bs, ps)
    ensures AllAtBoundaries(bs, ps) ==> DispatchesPackets(bs, ps, wifi, t)
    decreases |bs|
  {
    if bs != [] {
      var b, k := bs[0], Taken(ps, bs[0].rlen);
      assert b in bs;
      FirstReadIff(b, wifi, ps, t);
      if AtBoundary(ps, b.rlen) {
        FirstReadDelivers(b, wifi, ps, t, k);
        RunExactIff(bs[1..], wifi, ps[k..], t + k);
      }
    }
  }

  lemma {:induction false} FirstReadIff(b: Batch, wifi: bool, ps: seq<Packet>, t: nat)
    requires Readable(b) && Chained(ps, Wrap32(t)) && 0 < b.rlen <= |Concat(ps)|
    requires b.mem[0..b.rlen] == Concat(ps)[..b.rlen]
    ensures Exact(b, wifi, t) <==> AtBoundary(ps, b.rlen)
  {
    ReadExactIff(b.mem, wifi, 0, b.rlen, ps, Wrap32(t), b.rlen);
    if AtBoundary(ps, b.rlen) {
      BoundarySplit(ps, b.rlen, Wrap32(t), Taken(ps, b.rlen));
    }
  }

  lemma {:induction false} FirstReadDelivers(b: Batch, wifi: bool, ps: seq<Packet>, t: nat, k: nat)
    requires Readable(b) && Chained(ps, Wrap32(t)) && 0 < b.rlen <= |Concat(ps)|
    requires b.mem[0..b.rlen] == Concat(ps)[..b.rlen] && AtBoundary(ps, b.rlen) && k == Taken(ps, b.rlen)
    ensures DeliversChain(b, wifi, t, ps[..k]) && Outcome(b, wifi, t).numbered == k
    ensures Chained(ps[k..], Wrap32(t + k)) && Concat(ps[k..]) == Concat(ps)[b.rlen..]
  {
    BoundarySplit(ps, b.rlen, Wrap32(t), k);
    WrapAdds(t, k);
    CarriedChain(b, wifi, t, ps[..k]);
  }
}
