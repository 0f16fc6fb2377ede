/** The receive task: one read may carry a chain of SIP packets, which are checked, numbered
    and handed to their handlers one after the other. */
module TransRecv {
  import opened Words
  import opened SipFormat
  import opened SdioTransfers
  import opened SipLayer
  import Link = SdioLink
  import Counters = SdioCounters

  const RECV_BUF_LEN := 32768
  // A header, and the part of an event that is read, may reach this far past the data.
  const OVERREAD := 25

  datatype Handler = Events | WifiRx | Unknown

  /** One packet handed to a handler: where it starts, its length and number. */
  datatype Dispatch = Dispatch(handler: Handler, at: nat, len: U16, seqno: U32)

  /** `numbered` counts the sequence numbers taken, including the one of a mismatch. */
  datatype Parsed = Parsed(items: seq<Dispatch>, numbered: nat, ok: bool)

  function HandlerOf(fc0: Byte, wifi: bool): Handler {
    if GetType(fc0) == SIP_CTRL then Events
    else if wifi && (GetType(fc0) == SIP_DATA || GetType(fc0) == SIP_DATA_AMPDU) then WifiRx
    else Unknown
  }

  // The handlers, type by type: 0 are events, 1 and 2 data and AMPDU for Wi-Fi if it is built
  // in, anything else has none.
  lemma HandlerTable(fc0: Byte, wifi: bool)
    ensures HandlerOf(fc0, wifi) == Events <==> fc0 % 16 == 0
    ensures HandlerOf(fc0, wifi) == WifiRx <==> wifi && (fc0 % 16 == 1 || fc0 % 16 == 2)
  {
  }

  predicate LengthOk(h: SipHdr) {
    h.len > 0 && h.len % 4 == 0
  }

  // What the chain loop does with `rlen` bytes at `at` when it expects `rxseq`.
  function Parse(mem: seq<Byte>, wifi: bool, at: nat, rlen: nat, rxseq: U32): (p: Parsed)
    requires at + rlen + OVERREAD <= |mem|
    decreases rlen
  {
    if rlen == 0 then Parsed([], 0, true)
    else
      var h := DecodeHdr(mem, at);
      if !LengthOk(h) then Parsed([], 0, false)
      else if h.seqno != rxseq then Parsed([], 1, false)
      else
        var d := Dispatch(HandlerOf(h.fc0, wifi), at, h.len, rxseq);
        if h.len < rlen then
          var rest := Parse(mem, wifi, at + h.len, rlen - h.len, Wrap32(rxseq + 1));
          Parsed([d] + rest.items, 1 + rest.numbered, rest.ok)
        else Parsed([d], 1, true)
  }

  // What the packet at `at` is dispatched as when it carries the number expected.
  function DispatchAt(mem: seq<Byte>, wifi: bool, at: nat, rxseq: U32): Dispatch
    requires at + HDR_LEN <= |mem|
  {
    Dispatch(HandlerOf(mem[at], wifi), at, DecodeHdr(mem, at).len, rxseq)
  }

  // One round of the chain loop: it stops here with the outcome `p`, or goes on with what
  // is left and the next number.
  lemma {:induction false} ParseStops(mem: seq<Byte>, wifi: bool, at: nat, left: nat, rxseq: U32, p: Parsed, h: SipHdr)
    requires 0 < left && at + left + OVERREAD <= |mem| && h == DecodeHdr(mem, at)
    requires p == Parse(mem, wifi, at, left, rxseq)
    ensures !LengthOk(h) ==> p == Parsed([], 0, false)
    ensures LengthOk(h) && h.seqno != rxseq ==> p == Parsed([], 1, false)
    ensures LengthOk(h) && h.seqno == rxseq && left <= h.len ==>
            p == Parsed([DispatchAt(mem, wifi, at, rxseq)], 1, true)
  {
  }

  lemma {:induction false} ParseGoesOn(mem: seq<Byte>, wifi: bool, at: nat, left: nat, rxseq: U32, p: Parsed, h: SipHdr,
                    at1: nat, left1: nat, r1: U32, rest: Parsed)
    requires 0 < left && at + left + OVERREAD <= |mem| && h == DecodeHdr(mem, at)
    requires p == Parse(mem, wifi, at, left, rxseq)
    requires LengthOk(h) && h.seqno == rxseq && h.len < left
    requires at1 == at + h.len && left1 == left - h.len && r1 == Wrap32(rxseq + 1)
    requires rest == Parse(mem, wifi, at1, left1, r1)
    ensures p == Parsed([DispatchAt(mem, wifi, at, rxseq)] + rest.items, 1 + rest.numbered, rest.ok)
  {
  }

  // What one round hands out and how many numbers it takes.
  predicate Passes(mem: seq<Byte>, at: nat, rxseq: U32)
    requires at + HDR_LEN <= |mem|
  {
    LengthOk(DecodeHdr(mem, at)) && DecodeHdr(mem, at).seqno == rxseq
  }

  function Now(mem: seq<Byte>, wifi: bool, at: nat, rxseq: U32): seq<Dispatch>
    requires at + HDR_LEN <= |mem|
  {
    if Passes(mem, at, rxseq) then [DispatchAt(mem, wifi, at, rxseq)] else []
  }

  function Taken(mem: seq<Byte>, at: nat): nat
    requires at + HDR_LEN <= |mem|
  {
    if LengthOk(DecodeHdr(mem, at)) then 1 else 0
  }

  // What was done before and what `p` says is to come.
  function Joined(done: seq<Dispatch>, n: nat, p: Parsed): Parsed {
    Parsed(done + p.items, n + p.numbered, p.ok)
  }

  lemma Begins(whole: Parsed)
    ensures Joined([], 0, whole) == whole
  {
    assert [] + whole.items == whole.items;
  }

  lemma Ends(done: seq<Dispatch>, n: nat, p: Parsed, whole: Parsed)
    requires p == Parsed([], 0, true) && whole == Joined(done, n, p)
    ensures whole == Parsed(done, n, true)
  {
  }

  lemma {:induction false} StopsHere(mem: seq<Byte>, wifi: bool, at: nat, left: nat, rxseq: U32, p: Parsed,
                                     done: seq<Dispatch>, n: nat, done': seq<Dispatch>, n': nat, whole: Parsed)
    requires 0 < left && at + left + OVERREAD <= |mem|
    requires p == Parse(mem, wifi, at, left, rxseq) && whole == Joined(done, n, p)
    requires !Passes(mem, at, rxseq) || left <= DecodeHdr(mem, at).len
    requires done' == done + Now(mem, wifi, at, rxseq) && n' == n + Taken(mem, at)
    ensures whole == Parsed(done', n', Passes(mem, at, rxseq))
  {
    ParseStops(mem, wifi, at, left, rxseq, p, DecodeHdr(mem, at));
  }

  lemma {:induction false} GoesOn(mem: seq<Byte>, wifi: bool, at: nat, left: nat, rxseq: U32, p: Parsed,
                                  at1: nat, left1: nat, r1: U32, rest: Parsed,
                                  done: seq<Dispatch>, n: nat, done': seq<Dispatch>, n': nat, whole: Parsed)
    requires 0 < left && at + left + OVERREAD <= |mem|
    requires p == Parse(mem, wifi, at, left, rxseq) && whole == Joined(done, n, p)
    requires Passes(mem, at, rxseq) && DecodeHdr(mem, at).len < left
    requires at1 == at + DecodeHdr(mem, at).len && left1 == left - DecodeHdr(mem, at).len && r1 == Wrap32(rxseq + 1)
    requires rest == Parse(mem, wifi, at1, left1, r1)
    requires done' == done + Now(mem, wifi, at, rxseq) && n' == n + Taken(mem, at)
    ensures whole == Joined(done', n', rest)
  {
    ParseGoesOn(mem, wifi, at, left, rxseq, p, DecodeHdr(mem, at), at1, left1, r1, rest);
    Reassociated(done, DispatchAt(mem, wifi, at, rxseq), rest.items);
  }

  lemma Reassociated<T>(s: seq<T>, x: T, t: seq<T>)
    ensures s + [x] + t == s + ([x] + t)
  {
  }

  /** A call of sip_rx_process. */
  datatype RxCall = RxCall(mem: seq<Byte>, at: nat, len: nat)

  /** The SIP layer and the calls of sip_rx_process so far. */
  datatype RecvView = RecvView(sip: SipView, rx: seq<RxCall>)

  // A read takes what is there, up to the size of the buffer; it comes back empty when an
  // access fails or nothing was there at the last look.
  predicate TakesAll(seen: nat, produced: nat, taken: nat, rlen: nat) {
    produced <= seen && rlen == Min((seen - taken) % Counters.RX_BYTE_MAX, RECV_BUF_LEN)
  }

  predicate EmptyRead(seen: nat, produced: nat, taken: nat, failed: nat, failed': nat) {
    failed < failed' || (produced <= seen && (seen - taken) % Counters.RX_BYTE_MAX == 0)
  }

  function AfterRead(v: RecvView, log: seq<Cmd53>, failed: nat): RecvView {
    v.(sip := v.sip.(log := log, failed := failed))
  }

  // What handing out one packet does.
  ghost predicate Handled(v: RecvView, mem: seq<Byte>, d: Dispatch, e: Env, v': RecvView)
    requires SmallCmd(e.initData)
  {
    match d.handler
    case Events =>
      && d.at + HDR_LEN + BOOTUP_READ <= |mem| && v'.rx == v.rx
      && EventHandled(v.sip, mem, d.at, e, v'.sip)
    case WifiRx => v' == v.(rx := v.rx + [RxCall(mem, d.at, d.len)])
    case Unknown => v' == v
  }

  // What handing out packets one after the other does.
  ghost predicate HandledAll(v: RecvView, mem: seq<Byte>, items: seq<Dispatch>, e: Env, v': RecvView)
    requires SmallCmd(e.initData)
  {
    if items == [] then v' == v
    else
      var n := |items| - 1;
      exists u :: HandledAll(v, mem, items[..n], e, u) && Handled(u, mem, items[n], e, v')
  }

  lemma {:induction false} HandledOneMore(v: RecvView, mem: seq<Byte>, items: seq<Dispatch>, d: Dispatch, e: Env,
                                          u: RecvView, v': RecvView)
    requires SmallCmd(e.initData)
    requires HandledAll(v, mem, items, e, u) && Handled(u, mem, d, e, v')
    ensures HandledAll(v, mem, items + [d], e, v')
  {
    assert (items + [d])[..|items|] == items;
  }

  class TransRecv {
    const sip: EspSip
    const wifi: bool              // CONFIG_ESP_EXT_CONN_WIFI_ENABLE
    const recvBuf: array<Byte>
    const initData: seq<Byte>
    var dispatched: seq<Dispatch>  // every packet handed to a handler, oldest first
    var rxCalls: seq<RxCall>       // every call of sip_rx_process, oldest first

    ghost function View(): RecvView
      reads this, sip, sip.host, sip.host.card
    {
      RecvView(sip.View(), rxCalls)
    }

    function Around(heapOk: bool): Env {
      Env(wifi, initData, heapOk)
    }

    ghost predicate Valid()
      reads this, sip, sip.host, sip.host.card
    {
      sip.Valid() && recvBuf.Length == RECV_BUF_LEN + OVERREAD && SmallCmd(initData)
    }

    constructor (sip: EspSip, wifi: bool, open: Byte, phyTable: seq<Byte>, behindInit: seq<Byte>)
      requires sip.Valid() && |phyTable| == 144 && |behindInit| == 15
      ensures Valid() && this.sip == sip && this.wifi == wifi && dispatched == []
    {
      this.sip, this.wifi, this.initData := sip, wifi, InitArgs(open, phyTable, behindInit);
      recvBuf := new Byte[RECV_BUF_LEN + OVERREAD];
      dispatched, rxCalls := [], [];
    }

    // What the chain loop has done since the state `v`, `d0` and `x0`: `items` are handed
    // out, in order, and `n` numbers are taken.
    ghost predicate Progress(mem: seq<Byte>, heapOk: bool, v: RecvView, d0: seq<Dispatch>, x0: U32, n: nat,
                             items: seq<Dispatch>)
      requires SmallCmd(initData)
      reads this, sip, sip.host, sip.host.card
    {
      && dispatched == d0 + items && sip.rxseq == Wrap32(x0 + n)
      && HandledAll(v, mem, items, Around(heapOk), View())
    }

    // The chain loop over `rlen` bytes of `mem`, the receive buffer.
    method ParseReceived(mem: seq<Byte>, rlen: nat, heapOk: bool) returns (ok: bool)
      requires Valid() && rlen + OVERREAD <= |mem|
      modifies this`dispatched, this`rxCalls
      modifies sip, sip.host, sip.host.card
      ensures Valid()
      ensures var p := Parse(mem, wifi, 0, rlen, old(sip.rxseq));
              ok == p.ok && Progress(mem, heapOk, old(View()), old(dispatched), old(sip.rxseq), p.numbered, p.items)
    {
      var at: nat, left: nat := 0, rlen;
      ghost var whole, v, d0, x0 := Parse(mem, wifi, 0, rlen, sip.rxseq), View(), dispatched, sip.rxseq;
      ghost var n: nat, done, p := 0, [], whole;
      Begins(whole);
      while left != 0
        invariant Valid() && at + left == rlen && p == Parse(mem, wifi, at, left, sip.rxseq)
        invariant whole == Joined(done, n, p) && Progress(mem, heapOk, v, d0, x0, n, done)
        decreases left
      {
        var stop;
        stop, ok, at, left, n, done, p := ParseRound(mem, at, left, heapOk, v, d0, x0, n, done, p, whole);
        if stop {
          return;
        }
      }
      ok := true;
      Ends(done, n, p, whole);
    }

    // The body of the loop: either the chain stops here, or `rest` is still to come.
    method ParseRound(mem: seq<Byte>, at: nat, left: nat, heapOk: bool, ghost v: RecvView, ghost d0: seq<Dispatch>,
                      ghost x0: U32, ghost n: nat, ghost done: seq<Dispatch>, ghost p: Parsed, ghost whole: Parsed)
      returns (stop: bool, ok: bool, at': nat, left': nat, ghost n': nat, ghost done': seq<Dispatch>,
        ghost rest: Parsed)
      requires Valid() && 0 < left && at + left + OVERREAD <= |mem|
      requires p == Parse(mem, wifi, at, left, sip.rxseq)
      requires whole == Joined(done, n, p) && Progress(mem, heapOk, v, d0, x0, n, done)
      modifies this`dispatched, this`rxCalls
      modifies sip, sip.host, sip.host.card
      ensures Valid()
      ensures stop ==> ok == whole.ok && Progress(mem, heapOk, v, d0, x0, whole.numbered, whole.items)
      ensures !stop ==>
                && at' + left' == at + left && left' < left && rest == Parse(mem, wifi, at', left', sip.rxseq)
                && whole == Joined(done', n', rest) && Progress(mem, heapOk, v, d0, x0, n', done')
    {
      ghost var r0 := sip.rxseq;
      var len;
      ok, len, n', done' := ParseNext(mem, at, heapOk, v, d0, x0, n, done);
      at', left', rest := at, left, p;
      stop := !ok || len >= left;
      if stop {
        StopsHere(mem, wifi, at, left, r0, p, done, n, done', n', whole);
        return;
      }
      at', left' := at + len, left - len;
      rest := Parse(mem, wifi, at', left', sip.rxseq);
      GoesOn(mem, wifi, at, left, r0, p, at', left', sip.rxseq, rest, done, n, done', n', whole);
    }

    // One packet, and what it adds to what is done.
    method ParseNext(mem: seq<Byte>, at: nat, heapOk: bool, ghost v: RecvView, ghost d0: seq<Dispatch>,
                     ghost x0: U32, ghost n: nat, ghost done: seq<Dispatch>)
      returns (go: bool, len: U16, ghost n': nat, ghost done': seq<Dispatch>)
      requires Valid() && at + HDR_LEN + BOOTUP_READ <= |mem| && Progress(mem, heapOk, v, d0, x0, n, done)
      modifies this`dispatched, this`rxCalls
      modifies sip, sip.host, sip.host.card
      ensures Valid() && len == DecodeHdr(mem, at).len
      ensures go == Passes(mem, at, old(sip.rxseq))
      ensures go ==> sip.rxseq == Wrap32(old(sip.rxseq) + 1)
      ensures done' == done + Now(mem, wifi, at, old(sip.rxseq)) && n' == n + Taken(mem, at)
      ensures Progress(mem, heapOk, v, d0, x0, n', done')
    {
      ghost var u, d := View(), DispatchAt(mem, wifi, at, sip.rxseq);
      WrapAdds(x0 + n, 1);
      done' := done + Now(mem, wifi, at, sip.rxseq);
      n' := n + Taken(mem, at);
      go, len := ParseOne(mem, at, heapOk);
      if go {
        HandledOneMore(v, mem, done, d, Around(heapOk), u, View());
        assert d0 + done' == d0 + done + [d];
      } else {
        assert done' == done;
      }
    }

    // The checks of one round: length first, then the number, which is taken either way.
    method ParseOne(mem: seq<Byte>, at: nat, heapOk: bool) returns (go: bool, len: U16)
      requires Valid() && at + HDR_LEN + BOOTUP_READ <= |mem|
      modifies this`dispatched, this`rxCalls
      modifies sip, sip.host, sip.host.card
      ensures Valid()
      ensures var h := DecodeHdr(mem, at);
              && len == h.len
              && go == (LengthOk(h) && h.seqno == old(sip.rxseq))
              && sip.rxseq == (if LengthOk(h) then Wrap32(old(sip.rxseq) + 1) else old(sip.rxseq))
              && dispatched == old(dispatched) +
                   (if go then [DispatchAt(mem, wifi, at, old(sip.rxseq))] else [])
      ensures if go then Handled(old(View()), mem, DispatchAt(mem, wifi, at, old(sip.rxseq)), Around(heapOk), View())
              else View() == old(View())
    {
      var h := DecodeHdr(mem, at);
      len := h.len;
      if !LengthOk(h) {
        return false, len;
      }
      var rxseq := sip.rxseq;
      sip.rxseq := Wrap32(sip.rxseq + 1);  // esp_sip_increase_rxseq
      if h.seqno != rxseq {
        return false, len;
      }
      Deliver(mem, at, h, heapOk);
      go := true;
    }

    // Hands one packet to its handler.
    method Deliver(mem: seq<Byte>, at: nat, h: SipHdr, heapOk: bool)
      requires Valid() && at + HDR_LEN + BOOTUP_READ <= |mem| && h == DecodeHdr(mem, at)
      modifies this`dispatched, this`rxCalls
      modifies sip, sip.host, sip.host.card
      ensures Valid() && sip.rxseq == old(sip.rxseq)
      ensures dispatched == old(dispatched) + [DispatchAt(mem, wifi, at, h.seqno)]
      ensures Handled(old(View()), mem, DispatchAt(mem, wifi, at, h.seqno), Around(heapOk), View())
    {
      dispatched := dispatched + [DispatchAt(mem, wifi, at, h.seqno)];
      if GetType(h.fc0) == SIP_CTRL {
        var _, _ := sip.ParseEvents(mem, at, wifi, initData, heapOk);
      } else if wifi && GetType(h.fc0) == SIP_DATA {
        RxProcess(mem, at, h.len);
      } else if wifi && GetType(h.fc0) == SIP_DATA_AMPDU {
        RxProcess(mem, at, h.len);
      }
    }

    // sip_rx_process, of which nothing is modelled but that it is called.
    method RxProcess(mem: seq<Byte>, at: nat, len: U16)
      modifies this`rxCalls
      ensures rxCalls == old(rxCalls) + [RxCall(mem, at, len)]
    {
      rxCalls := rxCalls + [RxCall(mem, at, len)];
    }

    // handle_intr0: one read from function 1, whose own result is not looked at. `readLog` is
    // the list of transfers after the read, `seen` what the target had produced when the
    // length was read.
    method HandleIntr0(waitMs: nat, heapOk: bool)
      returns (ok: bool, ghost rlen: nat, ghost seen: nat, ghost readLog: seq<Cmd53>)
      requires Valid()
      modifies this`dispatched, this`rxCalls, recvBuf
      modifies sip, sip.host, sip.host.card
      ensures rlen <= RECV_BUF_LEN && (rlen > 0 ==> Valid())
      ensures rlen < HDR_LEN ==>
                && !ok && dispatched == old(dispatched) && sip.rxseq == old(sip.rxseq)
                && View() == AfterRead(old(View()), readLog, sip.host.card.failed)
      ensures rlen == 0 ==> EmptyRead(seen, old(sip.host.card.produced), old(sip.host.card.taken),
                                      old(sip.host.card.failed), sip.host.card.failed)
      ensures rlen >= HDR_LEN ==>
                var p := Parse(recvBuf[..], wifi, 0, rlen, old(sip.rxseq));
                && ok == p.ok
                && Progress(recvBuf[..], heapOk, AfterRead(old(View()), readLog, old(sip.host.card.failed)),
                            old(dispatched), old(sip.rxseq), p.numbered, p.items)
      ensures rlen > 0 ==>
                && recvBuf[..rlen] == Link.Slice(sip.host.card.stream, old(sip.host.card.taken), rlen)
                && TakesAll(seen, old(sip.host.card.produced), old(sip.host.card.taken), rlen)
                && readLog == old(sip.host.card.log) +
                     Transfers(false, FUNC_WIFI, false, recvBuf[..RoundUp4(rlen)], rlen)
    {
      ok := false;
      var n;
      n, seen := Receive(waitMs);
      rlen, readLog := n, sip.host.card.log;
      if n < HDR_LEN {
        return;
      }
      ok := ParseReceived(recvBuf[..], n, heapOk);
    }

    method Receive(waitMs: nat) returns (rlen: nat, ghost seen: nat)
      requires Valid()
      modifies recvBuf, sip.host, sip.host.card
      ensures rlen <= RECV_BUF_LEN
      ensures View() == AfterRead(old(View()), sip.host.card.log, sip.host.card.failed)
      ensures rlen == 0 ==> EmptyRead(seen, old(sip.host.card.produced), old(sip.host.card.taken),
                                      old(sip.host.card.failed), sip.host.card.failed)
      ensures rlen > 0 ==>
                && Valid() && recvBuf[..rlen] == Link.Slice(sip.host.card.stream, old(sip.host.card.taken), rlen)
                && sip.host.card.failed == old(sip.host.card.failed)
                && TakesAll(seen, old(sip.host.card.produced), old(sip.host.card.taken), rlen)
                && sip.host.card.log == old(sip.host.card.log) +
                     Transfers(false, FUNC_WIFI, false, recvBuf[..RoundUp4(rlen)], rlen)
    {
      var err;
      ghost var reg;
      err, rlen, seen, reg := sip.host.GetPacket(FUNC_WIFI, recvBuf, RECV_BUF_LEN, waitMs);
    }
  }
}
