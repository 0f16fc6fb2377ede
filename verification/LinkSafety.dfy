/** Invariants of the transition system and what they mean for every run. */
module LinkSafety {
  import opened Words
  import opened SdioCounters
  import opened Partition
  import opened SipLayer
  import opened LinkSystem
  import opened LinkSteps

  // Each mutex is owned by exactly the task whose program counter is inside.
  ghost predicate SdioInv(s: Sys) {
    && (InSdio(s, BootTask) <==> s.sdio == Some(BootTask))
    && (InSdio(s, RecvTask) <==> s.sdio == Some(RecvTask))
    && (InSdio(s, WifiTask) <==> s.sdio == Some(WifiTask))
    && (InSdio(s, BtTask) <==> s.sdio == Some(BtTask))
    && !(s.sdio.Some? && s.sdio.value.Producer?)
  }

  ghost predicate ListInv(s: Sys) {
    && (InList(s, WifiTask) <==> s.list == Some(WifiTask))
    && (forall id :: InList(s, Producer(id)) <==> s.list == Some(Producer(id)))
    && s.list != Some(BootTask) && s.list != Some(RecvTask) && s.list != Some(BtTask)
  }

  // ----- the boot protocol

  predicate BeforePrepare(b: BootPc) {
    b.BStart? || b.BLock? || b.BSend? || b.BUnlock? || b.BSetState?
  }

  // The boot command never went out.
  predicate NeverSent(b: BootPc) {
    b == BDelete(NotSent) || b == BDone(NotSent)
  }

  ghost predicate BootInv(s: Sys) {
    // the state tells how far boot and its answer have come
    && (s.state == SipState.Init <==> BeforePrepare(s.boot) || NeverSent(s.boot))
    && (s.answered <==> s.state != SipState.Init && s.state != PrepareBoot)
    && s.state != SipState.Boot && s.state != Suspend && s.state != Stop
    // INIT is counted at most once, for the TARGET_ON that was answered
    && s.inits <= 1 && (s.initOnAir ==> s.inits == 1)
    && (!s.answered ==> s.inits == 0 && !InitPhase(s.recv))
    && (InitPhase(s.recv) ==> s.state == SendInit)
    && (s.recv.RCount? ==> s.inits == 0)
    && (s.recv.RInitLock? || s.recv.RInitSend? || s.recv.RInitUnlock? ==> s.inits == 1)
    // the target reports bootup only after INIT
    && (Bootup in Pending(s.recv) ==> s.initOnAir)
    && (s.state == Run ==> s.initOnAir)
    && (s.recv.RGive? ==> s.state == Run)
    // the semaphore
    && (s.bootSem.Live? <==> s.boot.BWait? || s.boot == BDelete(Booted) || s.boot == BDelete(TimedOut))
    && (s.bootSem.Live? && s.bootSem.count > 0 ==> s.state == Run)
    && (s.boot == BDelete(Booted) || s.boot == BDone(Booted) ==> s.state == Run)
    && (s.wifi != WOff || s.bt != TOff ==> s.boot == BDone(Booted))
  }

  // ----- numbering

  ghost predicate SeqInv(s: Sys) {
    && (s.wifi == WOff ==> s.log == [])
    && (s.boot != BStart && !NeverSent(s.boot) ==> s.txseq == Wrap32(s.inits + |s.log| + Unlogged(s.wifi)))
    && (s.wifi.WSendLock? || s.wifi.WSend? ==> s.wifi.number == Wrap32(1 + |s.log|))
    && (forall i :: 0 <= i < |s.log| ==> s.log[i].number == Wrap32(1 + i))
  }

  // ----- transmit credit

  // The packet fits what is granted and not used, in bytes and in buffers.
  predicate Covered(length: U32, used: nat, granted: nat) {
    FitsBuffers(length, granted - used) && used + BuffersFor(length) <= granted
  }

  ghost predicate CreditInv(s: Sys, c: Frames) {
    && s.totalTx % TX_BUFFER_MAX == s.used % TX_BUFFER_MAX
    && (s.wifi != WOff ==> s.used <= s.granted)
    && (s.wifi.WCheckUnlock? || s.wifi.WDecide? ==> s.used + s.wifi.num <= s.granted && s.wifi.num < TX_BUFFER_MAX)
    && (s.wifi.WNumber? || s.wifi.WSendLock? || s.wifi.WSend? ==>
          Covered(c.sendLen(s.wifi.eb), s.used, s.granted))
    && (forall i :: 0 <= i < |s.log| ==>
          && Covered(c.sendLen(s.log[i].eb), s.log[i].usedBefore, s.log[i].granted)
          && s.log[i].usedAfter == s.log[i].usedBefore + BuffersFor(c.sendLen(s.log[i].eb)))
  }

  // ----- buffers

  // Every place a buffer can be in.
  function Places(s: Sys): multiset<nat> {
    Gather(s.queue, Held(s.wifi), s.txDone, s.recycled, s.lost)
  }

  function Gather(queue: seq<nat>, held: seq<nat>, txDone: seq<nat>, recycled: seq<nat>,
                  lost: seq<nat>): multiset<nat> {
    multiset(queue) + multiset(held) + multiset(txDone) + multiset(recycled) + multiset(lost)
  }

  predicate Submitting(p: ProdPc) {
    p.PClearLock? || p.PClear? || p.PClearUnlock? || p.PInsertLock? || p.PInsert?
  }

  ghost predicate BufInv(s: Sys) {
    && Places(s) == multiset(s.inserted)
    && s.inserted <= s.known
    && (s.lost != [] ==> s.wifi == WHalted || s.wifi == WAborted)
    && (forall id :: id in s.prods && Submitting(s.prods[id]) ==>
          s.prods[id].eb in s.known && s.prods[id].eb !in s.inserted)
    && (forall i, j :: i in s.prods && j in s.prods && i != j && Submitting(s.prods[i]) && Submitting(s.prods[j]) ==>
          s.prods[i].eb != s.prods[j].eb)
  }

  // ----- wakeup

  predicate AboutToWake(s: Sys) {
    s.list.Some? && s.list.value.Producer? && s.list.value.id in s.prods && s.prods[s.list.value.id].PSetBit?
  }

  ghost predicate WakeInv(s: Sys) {
    && (s.queue != [] && !s.needSend ==> AboutToWake(s))
    && (s.wifi.WClearBit? ==> s.queue == [])
  }

  ghost predicate Inv(s: Sys, c: Frames) {
    match c
    case Frames(_, _, _, _) =>
      SdioInv(s) && ListInv(s) && BootInv(s) && SeqInv(s) && CreditInv(s, c) && BufInv(s) && WakeInv(s)
  }

  lemma InitialInv(s: Sys, c: Frames)
    requires Initial(s)
    ensures Inv(s, c)
  {
  }

  // ----- every step of every task keeps every invariant

  // A mutex that changes hands only at the entry and exit of one task stays owned by
  // exactly the task that is inside.
  lemma BootSdio(s: Sys, s': Sys)
    requires SdioInv(s) && BootOnly(s, s')
    ensures SdioInv(s')
  {
  }

  lemma RecvSdio(s: Sys, s': Sys)
    requires SdioInv(s) && RecvOnly(s, s')
    ensures SdioInv(s')
  {
  }

  lemma WifiSdio(s: Sys, s': Sys)
    requires SdioInv(s) && WifiOnly(s, s')
    ensures SdioInv(s')
  {
  }

  lemma WifiList(s: Sys, s': Sys)
    requires ListInv(s) && WifiOnly(s, s')
    ensures ListInv(s')
  {
  }

  lemma ProdList(s: Sys, c: Frames, id: nat)
    requires ListInv(s) && ProdEnabled(s, id)
    ensures ListInv(ProdApply(s, c, id))
  {
    var s' := ProdApply(s, c, id);
    assert InList(s, Producer(id)) <==> s.list == Some(Producer(id));
    forall j: nat
      ensures InList(s', Producer(j)) <==> s'.list == Some(Producer(j))
    {
      assert InList(s, Producer(j)) <==> s.list == Some(Producer(j));
    }
  }

  lemma BootBoot(s: Sys, ok: bool)
    requires BootInv(s) && BootEnabled(s, ok)
    ensures BootInv(BootApply(s, ok))
  {
  }

  lemma RecvBoot(s: Sys, packet: bool, w: Work, ok: bool)
    requires BootInv(s) && RecvEnabled(s, w)
    ensures BootInv(RecvApply(s, packet, w, ok))
  {
    if s.recv.RParse? {
      ParseBoot(s, packet, w, ok);
    } else if InitPhase(s.recv) {
      InitPhaseBoot(s, packet, w, ok);
    } else if s.recv.RPacket? || s.recv.RPacketUnlock? || s.recv.RGive? {
      PacketBoot(s, packet, w, ok);
    } else {
      RecvChanges(s, packet, w, ok);
      IdleBoot(s, RecvApply(s, packet, w, ok));
    }
  }

  lemma InitPhaseBoot(s: Sys, packet: bool, w: Work, ok: bool)
    requires BootInv(s) && RecvEnabled(s, w) && InitPhase(s.recv)
    ensures BootInv(RecvApply(s, packet, w, ok))
  {
  }

  lemma PacketBoot(s: Sys, packet: bool, w: Work, ok: bool)
    requires BootInv(s) && RecvEnabled(s, w) && (s.recv.RPacket? || s.recv.RPacketUnlock? || s.recv.RGive?)
    ensures BootInv(RecvApply(s, packet, w, ok))
  {
  }

  // Everywhere else only the program counter and the mutex change.
  lemma IdleBoot(s: Sys, s': Sys)
    requires BootInv(s) && RecvOnly(s, s') && !WithEvents(s.recv)
    ensures BootInv(s')
  {
  }

  lemma ParseBoot(s: Sys, packet: bool, w: Work, ok: bool)
    requires BootInv(s) && s.recv.RParse?
    ensures BootInv(RecvApply(s, packet, w, ok))
  {
    ParseShape(s, packet, w, ok);
    ParsedBoot(s, RecvApply(s, packet, w, ok), RecvApply(s, packet, w, ok).recv);
  }

  lemma ParsedBoot(s: Sys, s': Sys, r: RecvPc)
    requires BootInv(s) && s.recv.RParse? && Parsed(s, s', r)
    ensures BootInv(s')
  {
    var events := s.recv.w.events;
    if events != [] {
      assert events[0] in events && forall e :: e in events[1..] ==> e in events;
    }
  }

  // ----- numbering

  lemma BootSeq(s: Sys, ok: bool)
    requires BootInv(s) && SeqInv(s) && BootEnabled(s, ok)
    ensures SeqInv(BootApply(s, ok))
  {
  }

  lemma RecvSeq(s: Sys, packet: bool, w: Work, ok: bool)
    requires BootInv(s) && SeqInv(s) && RecvEnabled(s, w)
    ensures SeqInv(RecvApply(s, packet, w, ok))
  {
    var s' := RecvApply(s, packet, w, ok);
    RecvChanges(s, packet, w, ok);
    if s.recv.RCount? {
      WrapAdds(s.inits + |s.log| + Unlogged(s.wifi), 1);
      assert s'.wifi == s.wifi && s'.log == s.log && s'.boot == s.boot;
    } else {
      SameNumbers(s, s');
    }
  }

  lemma SameNumbers(s: Sys, s': Sys)
    requires SeqInv(s) && s'.txseq == s.txseq && s'.inits == s.inits && s'.log == s.log && s'.boot == s.boot
    requires Unlogged(s'.wifi) == Unlogged(s.wifi) && NumberCarried(s.wifi, s'.wifi) &&
             (s.wifi == WOff <==> s'.wifi == WOff)
    ensures SeqInv(s')
  {
  }

  lemma WifiSeq(s: Sys, c: Frames, ok: bool, token: U32)
    requires BootInv(s) && SeqInv(s) && WifiEnabled(s, ok, token)
    ensures SeqInv(WifiApply(s, c, ok, token))
  {
    if s.wifi.WNumber? {
      WrapAdds(1 + |s.log|, 1);
    } else if s.wifi.WSend? {
      WifiLogs(s, c, ok, token);
    } else {
      WifiChanges(s, c, ok, token);
      SameNumbers(s, WifiApply(s, c, ok, token));
    }
  }

  lemma WifiLogs(s: Sys, c: Frames, ok: bool, token: U32)
    requires SeqInv(s) && s.wifi.WSend?
    ensures SeqInv(WifiApply(s, c, ok, token))
  {
  }

  // ----- credit

  lemma ChargeKeepsResidue(s: Sys, length: U32)
    requires s.totalTx % TX_BUFFER_MAX == s.used % TX_BUFFER_MAX
    ensures Charge(s, length).totalTx % TX_BUFFER_MAX == Charge(s, length).used % TX_BUFFER_MAX
  {
    AdvanceKeepsResidue(s.totalTx, BuffersFor(length));
    ResidueOfSum(s.totalTx, s.used, BuffersFor(length));
  }

  lemma BootCredit(s: Sys, c: Frames, ok: bool)
    requires BootInv(s) && CreditInv(s, c) && BootEnabled(s, ok)
    ensures CreditInv(BootApply(s, ok), c)
  {
    var s' := BootApply(s, ok);
    BootChanges(s, ok);
    if s.boot.BSend? {
      ChargeKeepsResidue(s, 20);
      assert s'.wifi == WOff && s'.log == s.log;
    } else {
      SameCredit(s, s', c);
    }
  }

  lemma RecvCredit(s: Sys, c: Frames, packet: bool, w: Work, ok: bool)
    requires BootInv(s) && CreditInv(s, c) && RecvEnabled(s, w)
    ensures CreditInv(RecvApply(s, packet, w, ok), c)
  {
    var s' := RecvApply(s, packet, w, ok);
    RecvChanges(s, packet, w, ok);
    if s.recv.RInitSend? {
      ChargeKeepsResidue(s, 156);
      assert s'.wifi == WOff && s'.log == s.log;
    } else {
      SameCredit(s, s', c);
    }
  }

  lemma SameCredit(s: Sys, s': Sys, c: Frames)
    requires CreditInv(s, c) && CreditCarried(s.wifi, s'.wifi) && (s.wifi == WOff <==> s'.wifi == WOff) &&
             s'.log == s.log
    requires s'.used == s.used && s'.totalTx == s.totalTx && s'.granted == s.granted
    ensures CreditInv(s', c)
  {
  }

  // What the check saw cannot shrink before the send: only this task uses credit, and
  // the target only grants more.
  lemma WifiCredit(s: Sys, c: Frames, ok: bool, token: U32)
    requires BootInv(s) && CreditInv(s, c) && WifiEnabled(s, ok, token)
    ensures CreditInv(WifiApply(s, c, ok, token), c)
  {
    if s.wifi.WCheck? {
      if ok {
        SeenIsCovered(s, token);
      }
    } else if s.wifi.WDecide? {
      if CheckPasses(s.wifi.num, c.sendLen(s.wifi.eb)) {
        PassingIsCovered(s, c, s.wifi.eb, s.wifi.num);
      }
    } else if s.wifi.WSend? {
      SendCredit(s, c, ok, token);
    } else {
      WifiChanges(s, c, ok, token);
      SameCredit(s, WifiApply(s, c, ok, token), c);
    }
  }

  lemma SendCredit(s: Sys, c: Frames, ok: bool, token: U32)
    requires CreditInv(s, c) && s.wifi.WSend?
    ensures CreditInv(WifiApply(s, c, ok, token), c)
  {
    ChargeKeepsResidue(s, c.sendLen(s.wifi.eb));
  }

  lemma SeenIsCovered(s: Sys, token: U32)
    requires ShowsGrants(token, s.granted) && s.totalTx % TX_BUFFER_MAX == s.used % TX_BUFFER_MAX && s.used <= s.granted
    ensures s.used + CreditsSeen(token, s.totalTx) <= s.granted && CreditsSeen(token, s.totalTx) < TX_BUFFER_MAX
  {
    CreditsExact(token, s.totalTx, s.granted, s.used);
    var d := s.granted - s.used;
    assert d == TX_BUFFER_MAX * (d / TX_BUFFER_MAX) + d % TX_BUFFER_MAX;
  }

  lemma PassingIsCovered(s: Sys, c: Frames, eb: nat, num: U32)
    requires s.used + num <= s.granted && num < TX_BUFFER_MAX && CheckPasses(num, c.sendLen(eb))
    ensures Covered(c.sendLen(eb), s.used, s.granted)
  {
    CheckPassesIff(num, c.sendLen(eb));
    BuffersCover(c.sendLen(eb), num);
  }

  // ----- buffers

  // A step that moves no buffer.
  lemma SameBuffers(s: Sys, s': Sys)
    requires BufInv(s)
    requires s'.queue == s.queue && Held(s'.wifi) == Held(s.wifi)
    requires s'.txDone == s.txDone && s'.recycled == s.recycled && s'.lost == s.lost
    requires s'.inserted == s.inserted && s'.known == s.known && s'.prods == s.prods
    requires s.lost != [] ==> s'.wifi == s.wifi
    ensures BufInv(s')
  {
  }

  lemma WifiBuf(s: Sys, c: Frames, ok: bool, token: U32)
    requires BufInv(s) && WifiEnabled(s, ok, token)
    ensures BufInv(WifiApply(s, c, ok, token))
  {
    if MovesBuffer(s.wifi) {
      MoveBuf(s, c, ok, token);
    } else {
      WifiChanges(s, c, ok, token);
      SameBuffers(s, WifiApply(s, c, ok, token));
    }
  }

  lemma MoveBuf(s: Sys, c: Frames, ok: bool, token: U32)
    requires BufInv(s) && MovesBuffer(s.wifi)
    ensures BufInv(WifiApply(s, c, ok, token))
  {
    var s' := WifiApply(s, c, ok, token);
    MoveShape(s, c, ok, token);
    if s.wifi.WRemove? {
      TakeBuf(s, s');
    } else if s'.lost != s.lost {
      LoseBuf(s, s', s.wifi.eb);
    } else {
      LetGoBuf(s, s', s.wifi.eb);
    }
  }

  // How the buffer moves: taken from the front, kept in hand, or put in one final place.
  predicate Taken(s: Sys, s': Sys) {
    if s.queue == [] then s' == s.(wifi := WClearBit)
    else s' == s.(queue := s.queue[1..], wifi := WRemoveUnlock(Some(s.queue[0])))
  }

  predicate LetGo(s: Sys, s': Sys, eb: nat) {
    || Lost(s, s', eb)
    || s' == s.(wifi := WCheckLock(eb))
    || s' == s.(wifi := WWait, txDone := s.txDone + [eb])
    || s' == s.(wifi := WWait, recycled := s.recycled + [eb])
  }

  predicate Lost(s: Sys, s': Sys, eb: nat) {
    || s' == s.(wifi := WAborted, lost := s.lost + [eb])
    || s' == s.(wifi := WHalted, lost := s.lost + [eb])
  }

  lemma MoveShape(s: Sys, c: Frames, ok: bool, token: U32)
    requires MovesBuffer(s.wifi)
    ensures s.wifi.WRemove? ==> Taken(s, WifiApply(s, c, ok, token))
    ensures !s.wifi.WRemove? ==> LetGo(s, WifiApply(s, c, ok, token), s.wifi.eb)
  {
  }

  lemma TakeBuf(s: Sys, s': Sys)
    requires BufInv(s) && s.wifi == WRemove && Taken(s, s')
    ensures BufInv(s')
  {
    if s.queue != [] {
      FrontTaken(s.queue, s.txDone, s.recycled, s.lost);
      assert Held(s'.wifi) == [s.queue[0]];
    }
    SamePlaces(s, s');
  }

  lemma LetGoBuf(s: Sys, s': Sys, eb: nat)
    requires BufInv(s) && Held(s.wifi) == [eb] && s.lost == [] && LetGo(s, s', eb) && s'.lost == s.lost
    ensures BufInv(s')
  {
    LastAdded(s.queue, eb, s.txDone, s.recycled, s.lost);
    if s'.wifi == WWait {
      assert Held(s'.wifi) == [];
    } else {
      assert Held(s'.wifi) == [eb];
    }
    SamePlaces(s, s');
  }

  lemma LoseBuf(s: Sys, s': Sys, eb: nat)
    requires BufInv(s) && Held(s.wifi) == [eb] && Lost(s, s', eb)
    ensures BufInv(s')
  {
    LastAdded(s.queue, eb, s.txDone, s.recycled, s.lost);
    assert Held(s'.wifi) == [];
    assert Places(s') == Places(s);
    SamePlaces(s, s');
  }

  lemma FrontTaken(q: seq<nat>, t: seq<nat>, r: seq<nat>, l: seq<nat>)
    requires q != []
    ensures Gather(q[1..], [q[0]], t, r, l) == Gather(q, [], t, r, l)
  {
    assert q == [q[0]] + q[1..];
  }

  // Moving the held buffer to any of its three destinations changes no count.
  lemma LastAdded(q: seq<nat>, x: nat, t: seq<nat>, r: seq<nat>, l: seq<nat>)
    ensures Gather(q, [], t + [x], r, l) == Gather(q, [x], t, r, l)
    ensures Gather(q, [], t, r + [x], l) == Gather(q, [x], t, r, l)
    ensures Gather(q, [], t, r, l + [x]) == Gather(q, [x], t, r, l)
  {
  }

  lemma SamePlaces(s: Sys, s': Sys)
    requires BufInv(s) && Places(s') == Places(s)
    requires s'.inserted == s.inserted && s'.known == s.known && s'.prods == s.prods
    requires s'.lost != [] ==> s'.wifi == WHalted || s'.wifi == WAborted
    ensures BufInv(s')
  {
  }

  lemma ProdBuf(s: Sys, c: Frames, id: nat)
    requires BufInv(s) && ProdEnabled(s, id)
    ensures BufInv(ProdApply(s, c, id))
  {
    if s.prods[id].PClear? {
      ClearBuf(s, c, id);
    } else if s.prods[id].PInsert? {
      InsertBuf(s, c, id);
    } else {
      ProdKeeps(s, c, id);
      OneProducer(s, ProdApply(s, c, id), id);
    }
  }

  // Every other producer step moves no buffer and goes on with the one it has.
  predicate ProducerOnly(s: Sys, s': Sys, id: nat)
    requires id in s.prods
  {
    && id in s'.prods && s' == s.(list := s'.list, needSend := s'.needSend, prods := s.prods[id := s'.prods[id]])
    && (Submitting(s'.prods[id]) ==> Submitting(s.prods[id]) && s'.prods[id].eb == s.prods[id].eb)
  }

  lemma ProdKeeps(s: Sys, c: Frames, id: nat)
    requires ProdEnabled(s, id) && !s.prods[id].PClear? && !s.prods[id].PInsert?
    ensures ProducerOnly(s, ProdApply(s, c, id), id)
  {
  }

  lemma OneProducer(s: Sys, s': Sys, id: nat)
    requires BufInv(s) && id in s.prods && ProducerOnly(s, s', id)
    ensures BufInv(s')
  {
    assert Places(s') == Places(s);
  }

  lemma ClearBuf(s: Sys, c: Frames, id: nat)
    requires BufInv(s) && id in s.prods && s.prods[id].PClear?
    ensures BufInv(ProdApply(s, c, id))
  {
    PartitionIsExact(c.discard, s.queue);
    assert Places(ProdApply(s, c, id)) == Places(s);
  }

  lemma InsertBuf(s: Sys, c: Frames, id: nat)
    requires BufInv(s) && id in s.prods && s.prods[id].PInsert?
    ensures BufInv(ProdApply(s, c, id))
  {
    var s', eb := ProdApply(s, c, id), s.prods[id].eb;
    assert multiset(s'.queue) == multiset(s.queue) + multiset{eb};
    assert multiset(s'.inserted) == multiset(s.inserted) + multiset{eb};
    assert Places(s') == Places(s) + multiset{eb};
  }

  lemma SubmitBuf(s: Sys, id: nat, eb: nat, clear: bool, head: bool)
    requires BufInv(s) && SubmitEnabled(s, id, eb)
    ensures BufInv(SubmitApply(s, id, eb, clear, head))
  {
    assert Places(SubmitApply(s, id, eb, clear, head)) == Places(s);
  }

  // ----- wakeup

  lemma WifiWake(s: Sys, s': Sys)
    requires ListInv(s) && WakeInv(s) && WifiOnly(s, s')
    ensures WakeInv(s')
  {
  }

  lemma ProdWake(s: Sys, c: Frames, id: nat)
    requires ListInv(s) && WakeInv(s) && ProdEnabled(s, id)
    ensures WakeInv(ProdApply(s, c, id))
  {
    assert InList(s, Producer(id)) <==> s.list == Some(Producer(id));
    if s.prods[id].PClear? {
      assert |Keep(c.discard, s.queue)| <= |s.queue|;
    }
  }

  // ----- any step, any run

  lemma QueueSideKept(s: Sys, s': Sys)
    requires QueuePart(s') == QueuePart(s) && ListInv(s) && BufInv(s) && WakeInv(s)
    ensures ListInv(s') && BufInv(s') && WakeInv(s')
  {
    SameBuffers(s, s');
  }

  lemma LinkSideKept(s: Sys, s': Sys, c: Frames)
    requires LinkPart(s') == LinkPart(s) && SdioInv(s) && BootInv(s) && SeqInv(s) && CreditInv(s, c)
    ensures SdioInv(s') && BootInv(s') && SeqInv(s') && CreditInv(s', c)
  {
  }

  lemma StepInv(s: Sys, c: Frames, a: Action)
    requires Inv(s, c) && Enabled(s, a)
    ensures Inv(Apply(s, c, a), c)
  {
    match a
    case BootStep(ok) => BootStepInv(s, c, ok);
    case RecvStep(packet, w, ok) => RecvStepInv(s, c, packet, w, ok);
    case WifiStep(ok, token) => WifiStepInv(s, c, ok, token);
    case ProdStep(id) => ProdStepInv(s, c, id);
    case Submit(id, eb, clear, head) => SubmitStepInv(s, c, id, eb, clear, head);
    case BtStart => BtStartInv(s, Apply(s, c, a), c);
    case BtStep => BtStepInv(s, c);
    case Grant(n) => GrantInv(s, Apply(s, c, a), c, n);
    case Interrupt => InterruptInv(s, Apply(s, c, a), c);
    case WifiStart => StartInv(s, Apply(s, c, a), c);
  }

  lemma BootStepInv(s: Sys, c: Frames, ok: bool)
    requires Inv(s, c) && BootEnabled(s, ok)
    ensures Inv(BootApply(s, ok), c)
  {
    var s' := BootApply(s, ok);
    BootChanges(s, ok);
    BootSdio(s, s');
    BootBoot(s, ok);
    BootSeq(s, ok);
    BootCredit(s, c, ok);
    QueueSideKept(s, s');
  }

  lemma RecvStepInv(s: Sys, c: Frames, packet: bool, w: Work, ok: bool)
    requires Inv(s, c) && RecvEnabled(s, w)
    ensures Inv(RecvApply(s, packet, w, ok), c)
  {
    var s' := RecvApply(s, packet, w, ok);
    RecvChanges(s, packet, w, ok);
    RecvSdio(s, s');
    RecvBoot(s, packet, w, ok);
    RecvSeq(s, packet, w, ok);
    RecvCredit(s, c, packet, w, ok);
    QueueSideKept(s, s');
  }

  lemma WifiStepInv(s: Sys, c: Frames, ok: bool, token: U32)
    requires Inv(s, c) && WifiEnabled(s, ok, token)
    ensures Inv(WifiApply(s, c, ok, token), c)
  {
    var s' := WifiApply(s, c, ok, token);
    WifiChanges(s, c, ok, token);
    WifiSdio(s, s');
    WifiList(s, s');
    WifiBoot(s, s');
    WifiSeq(s, c, ok, token);
    WifiCredit(s, c, ok, token);
    WifiBuf(s, c, ok, token);
    WifiWake(s, s');
  }

  lemma WifiBoot(s: Sys, s': Sys)
    requires BootInv(s) && WifiOnly(s, s')
    ensures BootInv(s')
  {
  }

  lemma ProdStepInv(s: Sys, c: Frames, id: nat)
    requires Inv(s, c) && ProdEnabled(s, id)
    ensures Inv(ProdApply(s, c, id), c)
  {
    ProdLeaves(s, c, id);
    LinkSideKept(s, ProdApply(s, c, id), c);
    ProdList(s, c, id);
    ProdBuf(s, c, id);
    ProdWake(s, c, id);
  }

  lemma ProdLeaves(s: Sys, c: Frames, id: nat)
    requires ProdEnabled(s, id)
    ensures LinkPart(ProdApply(s, c, id)) == LinkPart(s)
  {
  }

  lemma SubmitStepInv(s: Sys, c: Frames, id: nat, eb: nat, clear: bool, head: bool)
    requires Inv(s, c) && SubmitEnabled(s, id, eb)
    ensures Inv(SubmitApply(s, id, eb, clear, head), c)
  {
    var s' := SubmitApply(s, id, eb, clear, head);
    LinkSideKept(s, s', c);
    SubmitBuf(s, id, eb, clear, head);
    SubmitList(s, id, eb, clear, head);
  }

  lemma SubmitList(s: Sys, id: nat, eb: nat, clear: bool, head: bool)
    requires ListInv(s) && WakeInv(s) && SubmitEnabled(s, id, eb)
    ensures ListInv(SubmitApply(s, id, eb, clear, head)) && WakeInv(SubmitApply(s, id, eb, clear, head))
  {
    var s' := SubmitApply(s, id, eb, clear, head);
    forall j: nat
      ensures InList(s', Producer(j)) <==> s'.list == Some(Producer(j))
    {
      assert InList(s, Producer(j)) <==> s.list == Some(Producer(j));
    }
  }

  lemma GrantInv(s: Sys, s': Sys, c: Frames, n: nat)
    requires Inv(s, c) && s' == s.(granted := s.granted + n)
    ensures Inv(s', c)
  {
    QueueSideKept(s, s');
    GrantLink(s, s', c, n);
  }

  lemma GrantLink(s: Sys, s': Sys, c: Frames, n: nat)
    requires SdioInv(s) && BootInv(s) && SeqInv(s) && CreditInv(s, c) && s' == s.(granted := s.granted + n)
    ensures SdioInv(s') && BootInv(s') && SeqInv(s') && CreditInv(s', c)
  {
  }

  lemma InterruptInv(s: Sys, s': Sys, c: Frames)
    requires Inv(s, c) && s.recv == RIdle && s' == s.(recv := RIntrLock)
    ensures Inv(s', c)
  {
    QueueSideKept(s, s');
    InterruptLink(s, s', c);
  }

  lemma InterruptLink(s: Sys, s': Sys, c: Frames)
    requires SdioInv(s) && BootInv(s) && SeqInv(s) && CreditInv(s, c)
    requires s.recv == RIdle && s' == s.(recv := RIntrLock)
    ensures SdioInv(s') && BootInv(s') && SeqInv(s') && CreditInv(s', c)
  {
  }

  lemma BtStartInv(s: Sys, s': Sys, c: Frames)
    requires Inv(s, c) && s.bt == TOff && s.boot == BDone(Booted) && s' == s.(bt := TIdle)
    ensures Inv(s', c)
  {
    QueueSideKept(s, s');
  }

  lemma StartInv(s: Sys, s': Sys, c: Frames)
    requires Inv(s, c) && WifiStartEnabled(s) && s' == s.(wifi := WWait)
    ensures Inv(s', c)
  {
    SameBuffers(s, s');
    StartLink(s, s', c);
  }

  lemma StartLink(s: Sys, s': Sys, c: Frames)
    requires SdioInv(s) && ListInv(s) && BootInv(s) && SeqInv(s) && CreditInv(s, c) && WakeInv(s)
    requires WifiStartEnabled(s) && s' == s.(wifi := WWait)
    ensures SdioInv(s') && ListInv(s') && BootInv(s') && SeqInv(s') && CreditInv(s', c) && WakeInv(s')
  {
  }

  lemma BtStepInv(s: Sys, c: Frames)
    requires Inv(s, c) && BtEnabled(s)
    ensures Inv(BtApply(s), c)
  {
    var s' := BtApply(s);
    BtLink(s, c);
    QueueSideKept(s, s');
  }

  lemma BtLink(s: Sys, c: Frames)
    requires SdioInv(s) && BootInv(s) && SeqInv(s) && CreditInv(s, c) && BtEnabled(s)
    ensures SdioInv(BtApply(s)) && BootInv(BtApply(s)) && SeqInv(BtApply(s)) && CreditInv(BtApply(s), c)
    ensures QueuePart(BtApply(s)) == QueuePart(s)
  {
    var s' := BtApply(s);
    assert s' == s.(sdio := s'.sdio, bt := s'.bt);
  }

  // Every state of every run satisfies every invariant.
  lemma {:induction false} RunInv(c: Frames, run: seq<Sys>, acts: seq<Action>, i: nat)
    requires IsRun(c, run, acts) && i < |run|
    ensures Inv(run[i], c)
  {
    if i == 0 {
      InitialInv(run[0], c);
    } else {
      RunInv(c, run, acts, i - 1);
      StepInv(run[i - 1], c, acts[i - 1]);
    }
  }
}
