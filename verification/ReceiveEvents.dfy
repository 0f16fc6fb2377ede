/** What one read leaves behind: the calls of the two handlers, and the SIP layer after the
    events of a chain. */
module ReceiveEvents {
  import opened Words
  import opened SipFormat
  import opened SdioTransfers
  import opened SipLayer
  import opened TransRecv
  import opened ReceiveChain

  // Packets by their bytes: control packets have type 0, data and AMPDU packets 1 and 2.
  predicate IsControl(p: Packet) {
    p != [] && p[0] % 16 == 0
  }

  predicate IsData(p: Packet) {
    p != [] && (p[0] % 16 == 1 || p[0] % 16 == 2)
  }

  predicate IsEvent(p: Packet, evt: nat) {
    IsControl(p) && 1 < |p| && p[1] == evt
  }

  // The control packets of a chain that starts at `at`, each where it starts.
  function EventsAt(mem: seq<Byte>, ps: seq<Packet>, at: nat): seq<EventCall> {
    if ps == [] then []
    else (if IsControl(ps[0]) then [EventCall(mem, at)] else []) + EventsAt(mem, ps[1..], at + |ps[0]|)
  }

  // Its data packets, each where it starts and with its length.
  function DataAt(mem: seq<Byte>, ps: seq<Packet>, at: nat, wifi: bool): seq<RxCall> {
    if ps == [] then []
    else
      (if wifi && IsData(ps[0]) then [RxCall(mem, at, |ps[0]|)] else []) + DataAt(mem, ps[1..], at + |ps[0]|, wifi)
  }

  /** A read of a chain: the SIP layer `v` before its packets, `v'` after them. */
  ghost predicate ChainRead(mem: seq<Byte>, e: Env, ps: seq<Packet>, rxseq: U32,
                            v: RecvView, v': RecvView)
  {
    && ps != [] && Chained(ps, rxseq) && SmallCmd(e.initData)
    && |Concat(ps)| + OVERREAD <= |mem| && mem[..|Concat(ps)|] == Concat(ps)
    && HandledAll(v, mem, Parse(mem, e.wifi, 0, |Concat(ps)|, rxseq).items, e, v')
  }

  // The calls a list of deliveries makes.
  function EventCalls(mem: seq<Byte>, items: seq<Dispatch>): seq<EventCall> {
    if items == [] then []
    else (if items[0].handler == Events then [EventCall(mem, items[0].at)] else []) + EventCalls(mem, items[1..])
  }

  function RxCalls(mem: seq<Byte>, items: seq<Dispatch>): seq<RxCall> {
    if items == [] then []
    else
      (if items[0].handler == WifiRx then [RxCall(mem, items[0].at, items[0].len)] else []) + RxCalls(mem, items[1..])
  }

  lemma {:induction false} CallsPlus(mem: seq<Byte>, first: Dispatch, rest: seq<Dispatch>)
    ensures EventCalls(mem, [first] + rest) == EventCalls(mem, [first]) + EventCalls(mem, rest)
    ensures RxCalls(mem, [first] + rest) == RxCalls(mem, [first]) + RxCalls(mem, rest)
  {
    assert ([first] + rest)[1..] == rest;
  }

  lemma {:induction false} CallsOneMore(mem: seq<Byte>, items: seq<Dispatch>, d: Dispatch)
    ensures EventCalls(mem, items + [d]) == EventCalls(mem, items) + EventCalls(mem, [d])
    ensures RxCalls(mem, items + [d]) == RxCalls(mem, items) + RxCalls(mem, [d])
  {
    if items == [] {
      assert items + [d] == [d];
    } else {
      var first, rest := items[0], items[1..];
      assert items + [d] == [first] + (rest + [d]) && items == [first] + rest;
      CallsOneMore(mem, rest, d);
      CallsPlus(mem, first, rest);
      CallsPlus(mem, first, rest + [d]);
    }
  }

  lemma {:induction false} CallsOfOne(mem: seq<Byte>, d: Dispatch)
    ensures EventCalls(mem, [d]) == if d.handler == Events then [EventCall(mem, d.at)] else []
    ensures RxCalls(mem, [d]) == if d.handler == WifiRx then [RxCall(mem, d.at, d.len)] else []
  {
  }

  // The last delivery and what came before it.
  lemma LastHandled(v: RecvView, mem: seq<Byte>, items: seq<Dispatch>, e: Env, v': RecvView)
    returns (before: seq<Dispatch>, d: Dispatch, u: RecvView)
    requires SmallCmd(e.initData) && items != [] && HandledAll(v, mem, items, e, v')
    ensures items == before + [d] && HandledAll(v, mem, before, e, u)
    ensures Handled(u, mem, d, e, v')
  {
    var n := |items| - 1;
    before, d := items[..n], items[n];
    u :| HandledAll(v, mem, items[..n], e, u) && Handled(u, mem, items[n], e, v');
  }

  lemma {:induction false} HandlersCalled(v: RecvView, mem: seq<Byte>, items: seq<Dispatch>, e: Env, v': RecvView)
    requires SmallCmd(e.initData) && HandledAll(v, mem, items, e, v')
    ensures v'.sip.calls == v.sip.calls + EventCalls(mem, items)
    ensures v'.rx == v.rx + RxCalls(mem, items)
    decreases |items|
  {
    if items != [] {
      var before, d, u := LastHandled(v, mem, items, e, v');
      HandlersCalled(v, mem, before, e, u);
      CallsOneMore(mem, before, d);
      CallsOfOne(mem, d);
      OneCalled(u, mem, d, e, v');
      Appended(v.sip.calls, EventCalls(mem, before), EventCalls(mem, [d]));
      Appended(v.rx, RxCalls(mem, before), RxCalls(mem, [d]));
    }
  }

  lemma Appended<T>(a: seq<T>, b: seq<T>, c: seq<T>)
    ensures a + b + c == a + (b + c)
  {
  }

  lemma OneCalled(u: RecvView, mem: seq<Byte>, d: Dispatch, e: Env, v': RecvView)
    requires SmallCmd(e.initData) && Handled(u, mem, d, e, v')
    ensures v'.sip.calls == u.sip.calls + if d.handler == Events then [EventCall(mem, d.at)] else []
    ensures v'.rx == u.rx + if d.handler == WifiRx then [RxCall(mem, d.at, d.len)] else []
  {
  }

  ghost predicate CallsMatch(mem: seq<Byte>, wifi: bool, p: Parsed, ps: seq<Packet>, at: nat) {
    match p
    case Parsed(items, _, _) =>
      EventCalls(mem, items) == EventsAt(mem, ps, at) && RxCalls(mem, items) == DataAt(mem, ps, at, wifi)
  }

  lemma CallsFirst(mem: seq<Byte>, wifi: bool, d: Dispatch, rest: Parsed, p: Packet, tail: seq<Packet>, at: nat)
    requires Delivers(mem, wifi, d, p) && d.at == at && CallsMatch(mem, wifi, rest, tail, at + |p|)
    ensures CallsMatch(mem, wifi, Parsed([d] + rest.items, 1 + rest.numbered, rest.ok), [p] + tail, at)
  {
    HandlerTable(p[0], wifi);
    assert ([d] + rest.items)[1..] == rest.items && ([p] + tail)[1..] == tail;
  }

  // The deliveries of a chain make exactly the calls its packets ask for.
  lemma {:induction false} ChainCalls(mem: seq<Byte>, wifi: bool, at: nat, rlen: nat, ps: seq<Packet>, rxseq: U32)
    requires ps != [] && Chained(ps, rxseq) && rlen == |Concat(ps)|
    requires at + rlen + OVERREAD <= |mem| && mem[at..at + rlen] == Concat(ps)
    ensures CallsMatch(mem, wifi, Parse(mem, wifi, at, rlen, rxseq), ps, at)
    decreases |ps|
  {
    var p, tail, d := ps[0], ps[1..], DispatchAt(mem, wifi, at, rxseq);
    assert ps == [p] + tail && Concat(ps) == p + Concat(tail);
    FirstOfChain(mem, wifi, at, p, tail, rxseq);
    if tail == [] {
      assert rlen == |p|;
      LastCalls(mem, wifi, at, rlen, p, rxseq);
    } else {
      var at1, rlen1, r1 := at + |p|, rlen - |p|, Wrap32(rxseq + 1);
      assert rlen1 == |Concat(tail)|;
      ConcatNonEmpty(tail, r1);
      ChainCalls(mem, wifi, at1, rlen1, tail, r1);
      FirstAndRestCalls(mem, wifi, at, rlen, p, tail, rxseq, at1, rlen1, r1,
                        Parse(mem, wifi, at, rlen, rxseq), Parse(mem, wifi, at1, rlen1, r1));
    }
  }

  lemma {:induction false} LastCalls(mem: seq<Byte>, wifi: bool, at: nat, rlen: nat, p: Packet, rxseq: U32)
    requires 0 < rlen && at + rlen + OVERREAD <= |mem|
    requires var h := DecodeHdr(mem, at); h.seqno == rxseq && LengthOk(h) && h.len == rlen == |p|
    requires Delivers(mem, wifi, DispatchAt(mem, wifi, at, rxseq), p)
    ensures CallsMatch(mem, wifi, Parse(mem, wifi, at, rlen, rxseq), [p], at)
  {
    var d := DispatchAt(mem, wifi, at, rxseq);
    ParseStops(mem, wifi, at, rlen, rxseq, Parse(mem, wifi, at, rlen, rxseq), DecodeHdr(mem, at));
    CallsFirst(mem, wifi, d, Parsed([], 0, true), p, [], at);
    assert [d] + [] == [d] && [p] + [] == [p];
  }

  lemma {:induction false} FirstAndRestCalls(mem: seq<Byte>, wifi: bool, at: nat, rlen: nat, p: Packet,
                                             tail: seq<Packet>, rxseq: U32, at1: nat, rlen1: nat, r1: U32,
                                             whole: Parsed, rest: Parsed)
    requires 0 < rlen1 && at + rlen + OVERREAD <= |mem|
    requires at1 == at + |p| && rlen1 == rlen - |p| && r1 == Wrap32(rxseq + 1)
    requires var h := DecodeHdr(mem, at); h.seqno == rxseq && LengthOk(h) && h.len == |p|
    requires Delivers(mem, wifi, DispatchAt(mem, wifi, at, rxseq), p)
    requires whole == Parse(mem, wifi, at, rlen, rxseq) && rest == Parse(mem, wifi, at1, rlen1, r1)
    ensures CallsMatch(mem, wifi, rest, tail, at1) ==> CallsMatch(mem, wifi, whole, [p] + tail, at)
  {
    ParseGoesOn(mem, wifi, at, rlen, rxseq, whole, DecodeHdr(mem, at), at1, rlen1, r1, rest);
    if CallsMatch(mem, wifi, rest, tail, at1) {
      CallsFirst(mem, wifi, DispatchAt(mem, wifi, at, rxseq), rest, p, tail, at);
    }
  }

  // Every control packet of a chain reaches esp_sip_parse_events where it starts, every data
  // packet sip_rx_process where it starts and with its length, in order, and nothing else does.
  lemma {:induction false} CallsOfChain(mem: seq<Byte>, e: Env, ps: seq<Packet>, rxseq: U32,
                     v: RecvView, v': RecvView)
    requires ChainRead(mem, e, ps, rxseq, v, v')
    ensures v'.sip.calls == v.sip.calls + EventsAt(mem, ps, 0)
    ensures v'.rx == v.rx + DataAt(mem, ps, 0, e.wifi)
  {
    var p := Parse(mem, e.wifi, 0, |Concat(ps)|, rxseq);
    ChainCalls(mem, e.wifi, 0, |Concat(ps)|, ps, rxseq);
    HandlersCalled(v, mem, p.items, e, v');
  }

  /** One read of a run: what it read, the next number at the time, and the states around it. */
  datatype Read = Read(mem: seq<Byte>, ps: seq<Packet>, rxseq: U32, e: Env, v: RecvView, v': RecvView) {
    function Events(): seq<EventCall> {
      EventsAt(mem, ps, 0)
    }

    function Data(): seq<RxCall> {
      DataAt(mem, ps, 0, e.wifi)
    }
  }

  // Reads one after the other, from `w` to `w'`: in between, nobody else calls the two handlers.
  ghost predicate Reads(w: RecvView, rs: seq<Read>, w': RecvView) {
    if rs == [] then w' == w
    else
      var n := |rs| - 1;
      exists u :: Reads(w, rs[..n], u) && Follows(u, rs[n], w')
  }

  ghost predicate Follows(u: RecvView, r: Read, w': RecvView) {
    match r
    case Read(mem, ps, rxseq, e, v, v') =>
      ChainRead(mem, e, ps, rxseq, v, v') && v.sip.calls == u.sip.calls && v.rx == u.rx && w' == v'
  }

  function AllEvents(rs: seq<Read>): seq<EventCall> {
    if rs == [] then [] else AllEvents(rs[..|rs| - 1]) + rs[|rs| - 1].Events()
  }

  function AllData(rs: seq<Read>): seq<RxCall> {
    if rs == [] then [] else AllData(rs[..|rs| - 1]) + rs[|rs| - 1].Data()
  }

  // The same over a run of reads.
  lemma {:induction false} CallsOfRun(w: RecvView, rs: seq<Read>, w': RecvView)
    requires Reads(w, rs, w')
    ensures w'.sip.calls == w.sip.calls + AllEvents(rs)
    ensures w'.rx == w.rx + AllData(rs)
    decreases |rs|
  {
    if rs != [] {
      var n := |rs| - 1;
      var before, r := rs[..n], rs[n];
      var u :| Reads(w, before, u) && Follows(u, r, w');
      CallsOfRun(w, before, u);
      OneRead(u, r, w');
      Appended(w.sip.calls, AllEvents(before), r.Events());
      Appended(w.rx, AllData(before), r.Data());
    }
  }

  lemma OneRead(u: RecvView, r: Read, w': RecvView)
    requires Follows(u, r, w')
    ensures w'.sip.calls == u.sip.calls + r.Events() && w'.rx == u.rx + r.Data()
  {
    CallsOfChain(r.mem, r.e, r.ps, r.rxseq, r.v, r.v');
  }

  // An event among deliveries.
  predicate Reports(mem: seq<Byte>, d: Dispatch, evt: nat) {
    d.handler == Events && d.at + 1 < |mem| && mem[d.at + 1] == evt
  }

  predicate None(mem: seq<Byte>, items: seq<Dispatch>, evt: nat) {
    forall i :: 0 <= i < |items| ==> !Reports(mem, items[i], evt)
  }

  lemma NoneBefore(mem: seq<Byte>, items: seq<Dispatch>, before: seq<Dispatch>, d: Dispatch, evt: nat)
    requires items == before + [d]
    ensures None(mem, items, evt) <==> None(mem, before, evt) && !Reports(mem, d, evt)
  {
    if None(mem, items, evt) {
      assert forall i :: 0 <= i < |before| ==> before[i] == items[i];
      assert d == items[|before|];
    }
  }

  // Without an event nothing in the SIP layer changes.
  lemma {:induction false} NoEventNoChange(v: RecvView, mem: seq<Byte>, items: seq<Dispatch>, e: Env, v': RecvView)
    requires SmallCmd(e.initData) && HandledAll(v, mem, items, e, v')
    requires forall i :: 0 <= i < |items| ==> items[i].handler != Events
    ensures v'.sip == v.sip
    decreases |items|
  {
    if items != [] {
      var before, d, u := LastHandled(v, mem, items, e, v');
      assert d == items[|before|] && forall i :: 0 <= i < |before| ==> before[i] == items[i];
      NoEventNoChange(v, mem, before, e, u);
    }
  }

  // The last bootup event decides: what it reports is taken over, and what follows it is
  // no longer answered.
  ghost predicate BootedBy(mem: seq<Byte>, at: nat, w: SipView) {
    at + HDR_LEN + BOOTUP_READ <= |mem| && w.state == Run && !w.raw && w.info == BootupInfo(mem, at)
  }

  lemma {:induction false} LastBootup(v: RecvView, mem: seq<Byte>, items: seq<Dispatch>, k: nat, e: Env, v': RecvView)
    requires SmallCmd(e.initData) && HandledAll(v, mem, items, e, v')
    requires k < |items| && Reports(mem, items[k], EVT_BOOTUP)
    requires forall j :: k < j < |items| ==> !Reports(mem, items[j], EVT_BOOTUP)
    ensures BootedBy(mem, items[k].at, v'.sip)
    decreases |items|
  {
    var before, d, u := LastHandled(v, mem, items, e, v');
    if k == |before| {
      BootupHandled(u, mem, d, e, v');
    } else {
      assert forall i :: 0 <= i < |before| ==> before[i] == items[i];
      LastBootup(v, mem, before, k, e, u);
      assert d == items[|before|];
      StaysBooted(u, mem, d, e, v', items[k].at);
    }
  }

  lemma BootupHandled(u: RecvView, mem: seq<Byte>, d: Dispatch, e: Env, v': RecvView)
    requires SmallCmd(e.initData) && Handled(u, mem, d, e, v') && Reports(mem, d, EVT_BOOTUP)
    ensures BootedBy(mem, d.at, v'.sip)
  {
    assert !Answers(u.sip.state, mem[d.at + 1]);
  }

  lemma StaysBooted(u: RecvView, mem: seq<Byte>, d: Dispatch, e: Env, v': RecvView, at: nat)
    requires SmallCmd(e.initData) && Handled(u, mem, d, e, v') && !Reports(mem, d, EVT_BOOTUP)
    requires BootedBy(mem, at, u.sip)
    ensures BootedBy(mem, at, v'.sip)
  {
  }

  // How TARGET_ON leaves the SIP layer when it is answered: INIT has gone out, or could not.
  predicate Answered(w: SipView, w': SipView, e: Env)
    requires SmallCmd(e.initData)
  {
    || (w'.state == WaitBootup && e.heapOk && w'.log == w.log + [CmdTransfer(CMD_INIT, e.initData)])
    || (w'.state == SendInit && (!e.heapOk || w'.failed > w.failed) && w'.log == w.log)
  }

  // Without a bootup event, the first TARGET_ON in the two states that wait for it is
  // answered, once; without a TARGET_ON, and in every other state, none is.
  lemma {:induction false} TargetOnIff(v: RecvView, mem: seq<Byte>, items: seq<Dispatch>, e: Env, v': RecvView)
    requires SmallCmd(e.initData) && HandledAll(v, mem, items, e, v')
    requires None(mem, items, EVT_BOOTUP)
    ensures if (v.sip.state == PrepareBoot || v.sip.state == Boot) && !None(mem, items, EVT_TARGET_ON)
            then Answered(v.sip, v'.sip, e)
            else v'.sip.state == v.sip.state && v'.sip.log == v.sip.log && v'.sip.failed == v.sip.failed
    ensures v'.sip.info == v.sip.info && v'.sip.gives == v.sip.gives && v'.sip.raw == v.sip.raw
    decreases |items|
  {
    if items != [] {
      var before, d, u := LastHandled(v, mem, items, e, v');
      NoneBefore(mem, items, before, d, EVT_BOOTUP);
      NoneBefore(mem, items, before, d, EVT_TARGET_ON);
      TargetOnIff(v, mem, before, e, u);
      TargetOnStep(u, mem, d, e, v');
    }
  }

  lemma TargetOnStep(u: RecvView, mem: seq<Byte>, d: Dispatch, e: Env, v': RecvView)
    requires SmallCmd(e.initData) && Handled(u, mem, d, e, v') && !Reports(mem, d, EVT_BOOTUP)
    ensures if (u.sip.state == PrepareBoot || u.sip.state == Boot) && Reports(mem, d, EVT_TARGET_ON)
            then Answered(u.sip, v'.sip, e)
            else v'.sip.state == u.sip.state && v'.sip.log == u.sip.log && v'.sip.failed == u.sip.failed
    ensures v'.sip.info == u.sip.info && v'.sip.gives == u.sip.gives && v'.sip.raw == u.sip.raw
  {
  }

  // A delivery reports what its packet says.
  lemma ReportsWhatItIs(mem: seq<Byte>, wifi: bool, d: Dispatch, p: Packet, evt: nat)
    requires Delivers(mem, wifi, d, p)
    ensures Reports(mem, d, evt) <==> IsEvent(p, evt)
    ensures d.handler == Events <==> IsControl(p)
  {
    HandlerTable(p[0], wifi);
    assert mem[d.at + 1] == mem[d.at..d.at + d.len][1];
  }

  lemma ChainReports(mem: seq<Byte>, e: Env, ps: seq<Packet>, rxseq: U32,
                     v: RecvView, v': RecvView) returns (items: seq<Dispatch>)
    requires ChainRead(mem, e, ps, rxseq, v, v')
    ensures HandledAll(v, mem, items, e, v') && |items| == |ps|
    ensures forall i :: 0 <= i < |ps| ==> Delivers(mem, e.wifi, items[i], ps[i])
    ensures forall i, evt :: 0 <= i < |ps| ==> (Reports(mem, items[i], evt) <==> IsEvent(ps[i], evt))
  {
    items := Parse(mem, e.wifi, 0, |Concat(ps)|, rxseq).items;
    ChainRoundTrip(mem, e.wifi, 0, ps, rxseq);
    forall i, evt | 0 <= i < |ps|
      ensures Reports(mem, items[i], evt) <==> IsEvent(ps[i], evt)
    {
      ReportsWhatItIs(mem, e.wifi, items[i], ps[i], evt);
    }
  }

  // A chain of data packets changes nothing in the SIP layer.
  lemma DataChangesNothing(mem: seq<Byte>, e: Env, ps: seq<Packet>, rxseq: U32,
                           v: RecvView, v': RecvView)
    requires ChainRead(mem, e, ps, rxseq, v, v')
    requires forall i :: 0 <= i < |ps| ==> !IsControl(ps[i])
    ensures v'.sip == v.sip
  {
    var items := ChainReports(mem, e, ps, rxseq, v, v');
    forall i | 0 <= i < |items|
      ensures items[i].handler != Events
    {
      ReportsWhatItIs(mem, e.wifi, items[i], ps[i], 0);
    }
    NoEventNoChange(v, mem, items, e, v');
  }

  // The last bootup event of a chain, whatever comes before and after it, leaves the state at
  // SIP_RUN, the boot buffer freed, and the SIP layer with what the target put into it.
  lemma ChainBoots(mem: seq<Byte>, e: Env, ps: seq<Packet>, rxseq: U32,
                   v: RecvView, v': RecvView, k: nat,
                   tx: U16, mac: seq<Byte>, rx: U16, credit: Byte, options: Byte, noise: int)
    requires ChainRead(mem, e, ps, rxseq, v, v')
    requires |mac| == 6 && -0x8000 <= noise < 0x8000
    requires k < |ps| && HDR_LEN + BOOTUP_READ <= |ps[k]| && IsEvent(ps[k], EVT_BOOTUP)
    requires ps[k][HDR_LEN..HDR_LEN + BOOTUP_READ] == BootupBytes(tx, mac, rx, credit, options, noise)
    requires forall j :: k < j < |ps| ==> !IsEvent(ps[j], EVT_BOOTUP)
    ensures v'.sip.state == Run && !v'.sip.raw && v'.sip.info == BootInfo(tx, rx, credit, Wrap32(noise), mac)
  {
    var items := ChainReports(mem, e, ps, rxseq, v, v');
    LastBootup(v, mem, items, k, e, v');
    var d, p := items[k], ps[k];
    InfoOfPacket(mem, d.at, p, tx, mac, rx, credit, options, noise, BootupBytes(tx, mac, rx, credit, options, noise));
  }

  lemma InfoOfPacket(mem: seq<Byte>, at: nat, p: Packet, tx: U16, mac: seq<Byte>, rx: U16, credit: Byte, options: Byte,
                     noise: int, s: seq<Byte>)
    requires |mac| == 6 && -0x8000 <= noise < 0x8000 && s == BootupBytes(tx, mac, rx, credit, options, noise)
    requires HDR_LEN + BOOTUP_READ <= |p| && p[HDR_LEN..HDR_LEN + BOOTUP_READ] == s
    requires at + |p| <= |mem| && mem[at..at + |p|] == p
    ensures BootupInfo(mem, at) == BootInfo(tx, rx, credit, Wrap32(noise), mac)
  {
    SliceOfSlice(mem, at, at + |p|, HDR_LEN, HDR_LEN + BOOTUP_READ);
    BootupRoundTrip(mem, at, tx, mac, rx, credit, options, noise);
  }

  // A chain without bootup event: a TARGET_ON in it is answered exactly in the two states that
  // wait for it, by INIT and SIP_WAIT_BOOTUP, or by SIP_SEND_INIT if INIT could not be sent.
  lemma ChainAnswersIff(mem: seq<Byte>, e: Env, ps: seq<Packet>, rxseq: U32, v: RecvView, v': RecvView)
    requires ChainRead(mem, e, ps, rxseq, v, v')
    requires forall i :: 0 <= i < |ps| ==> !IsEvent(ps[i], EVT_BOOTUP)
    ensures var waits := v.sip.state == PrepareBoot || v.sip.state == Boot;
            if waits && exists i :: 0 <= i < |ps| && IsEvent(ps[i], EVT_TARGET_ON)
            then
              || (v'.sip.state == WaitBootup && e.heapOk &&
                  v'.sip.log == v.sip.log + [CmdTransfer(CMD_INIT, e.initData)])
              || (v'.sip.state == SendInit && (!e.heapOk || v'.sip.failed > v.sip.failed) && v'.sip.log == v.sip.log)
            else v'.sip.state == v.sip.state && v'.sip.log == v.sip.log && v'.sip.failed == v.sip.failed
    ensures v'.sip.info == v.sip.info && v'.sip.gives == v.sip.gives && v'.sip.raw == v.sip.raw
  {
    var items := ChainReports(mem, e, ps, rxseq, v, v');
    TargetOnIff(v, mem, items, e, v');
    if i :| 0 <= i < |ps| && IsEvent(ps[i], EVT_TARGET_ON) {
      assert Reports(mem, items[i], EVT_TARGET_ON);
    } else {
      assert None(mem, items, EVT_TARGET_ON);
    }
  }
}
