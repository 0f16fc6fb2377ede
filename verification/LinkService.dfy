/** What an interrupt asks of the receive task is done, nothing else is, and the send task
    goes to the queue only when it was woken. */
module LinkService {
  import opened Words
  import opened LinkSystem
  import opened LinkSteps
  import opened LinkSafety

  /** What an interrupt may ask for: a packet of function 1, one of function 2, and the signal
      that the target has a free Bluetooth buffer. */
  datatype Kind = Packet | BtPacket | BtCredit

  datatype Duties = Duties(packet: bool, btPacket: bool, btCredit: bool) {
    predicate Has(k: Kind) {
      match k
      case Packet => packet
      case BtPacket => btPacket
      case BtCredit => btCredit
    }

    function Without(d: Duties): Duties {
      Duties(packet && !d.packet, btPacket && !d.btPacket, btCredit && !d.btCredit)
    }
  }

  function Asked(packet: bool, w: Work): Duties {
    Duties(packet, w.btPacket, w.btCredit)
  }

  // What is still to be done.
  function Owed(r: RecvPc): Duties {
    match r
    case RIntrUnlock(p, w) => Asked(p, w)
    case RPacketLock(w) => Asked(true, w)
    case RPacket(w) => Asked(true, w)
    case RPacketUnlock(w) => Asked(false, w)
    case RParse(w) => Asked(false, w)
    case RCount(w) => Asked(false, w)
    case RInitLock(w) => Asked(false, w)
    case RInitSend(w) => Asked(false, w)
    case RInitUnlock(w, _) => Asked(false, w)
    case RInitState(w, _) => Asked(false, w)
    case RGive(w) => Asked(false, w)
    case RBtLock(w) => Duties(false, true, w.btCredit)
    case RBt(w) => Duties(false, true, w.btCredit)
    case RBtUnlock(w) => Duties(false, false, w.btCredit)
    case RCreditLock => Duties(false, false, true)
    case RCredit => Duties(false, false, true)
    case _ => Duties(false, false, false)
  }

  // What the step from here does.
  function Done(r: RecvPc): Duties {
    Duties(r.RPacket?, r.RBt?, r.RCredit?)
  }

  // From `r` to `r'` exactly what is owed is done, nothing else of it is forgotten, and the
  // events of a packet are handled one by one, in order, all of them.
  ghost predicate Serves(r: RecvPc, packet: bool, w: Work, ok: bool, r': RecvPc) {
    match r
    case RIntr => Pending(r') == [] && Owed(r') == Asked(packet, w)
    case RPacket(_) => Pending(r') == (if ok then w.events else []) && Carries(r, r')
    case RParse(v) => Pending(r') == (if v.events == [] then [] else v.events[1..]) && Carries(r, r')
    case _ => Pending(r') == Pending(r) && Carries(r, r')
  }

  predicate Carries(r: RecvPc, r': RecvPc) {
    && Owed(r') == Owed(r).Without(Done(r))
    && Done(r) == Duties(Done(r).packet && Owed(r).packet, Done(r).btPacket && Owed(r).btPacket,
                         Done(r).btCredit && Owed(r).btCredit)
  }

  // Where the receive task goes, but for an event in hand.
  function NextPc(s: Sys, packet: bool, w: Work, ok: bool): RecvPc
    requires !s.recv.RParse?
  {
    match s.recv
    case RIdle => RIdle
    case RIntrLock => RIntr
    case RIntr => RIntrUnlock(packet, w.(events := []))
    case RIntrUnlock(p, v) => if p then RPacketLock(v) else AfterChain(v)
    case RPacketLock(v) => RPacket(v)
    case RPacket(v) => RPacketUnlock(v.(events := if ok then w.events else []))
    case RPacketUnlock(v) => RParse(v)
    case RCount(v) => if ok then RInitLock(v) else RInitState(v, false)
    case RInitLock(v) => RInitSend(v)
    case RInitSend(v) => RInitUnlock(v, ok)
    case RInitUnlock(v, sent) => RInitState(v, sent)
    case RInitState(v, _) => RParse(v)
    case RGive(v) => RParse(v)
    case RBtLock(v) => RBt(v)
    case RBt(v) => RBtUnlock(v)
    case RBtUnlock(v) => AfterBt(v)
    case RCreditLock => RCredit
    case RCredit => RCreditUnlock
    case RCreditUnlock => RIdle
  }

  lemma GoesTo(s: Sys, packet: bool, w: Work, ok: bool)
    requires RecvEnabled(s, w) && !s.recv.RParse?
    ensures RecvApply(s, packet, w, ok).recv == NextPc(s, packet, w, ok)
  {
    if InitPhase(s.recv) {
      InitGoesTo(s, packet, w, ok);
    }
  }

  lemma InitGoesTo(s: Sys, packet: bool, w: Work, ok: bool)
    requires RecvEnabled(s, w) && InitPhase(s.recv)
    ensures RecvApply(s, packet, w, ok).recv == NextPc(s, packet, w, ok)
  {
  }

  lemma ServeStep(s: Sys, packet: bool, w: Work, ok: bool)
    requires RecvEnabled(s, w)
    ensures Serves(s.recv, packet, w, ok, RecvApply(s, packet, w, ok).recv)
  {
    if s.recv.RParse? {
      ParseServes(s, packet, w, ok);
    } else {
      GoesTo(s, packet, w, ok);
      NextServes(s, packet, w, ok, NextPc(s, packet, w, ok));
    }
  }

  lemma NextServes(s: Sys, packet: bool, w: Work, ok: bool, r: RecvPc)
    requires !s.recv.RParse? && r == NextPc(s, packet, w, ok)
    ensures Serves(s.recv, packet, w, ok, r)
  {
    if WithEvents(s.recv) {
      EventsServe(s, packet, w, ok, r);
    }
  }

  lemma EventsServe(s: Sys, packet: bool, w: Work, ok: bool, r: RecvPc)
    requires WithEvents(s.recv) && !s.recv.RParse? && r == NextPc(s, packet, w, ok)
    ensures Serves(s.recv, packet, w, ok, r)
  {
  }

  lemma ParseServes(s: Sys, packet: bool, w: Work, ok: bool)
    requires s.recv.RParse?
    ensures Serves(s.recv, packet, w, ok, RecvApply(s, packet, w, ok).recv)
  {
    ParseShape(s, packet, w, ok);
    ParsedServes(s, RecvApply(s, packet, w, ok), RecvApply(s, packet, w, ok).recv);
  }

  lemma ParsedServes(s: Sys, s': Sys, r: RecvPc)
    requires s.recv.RParse? && Parsed(s, s', r)
    ensures Carries(s.recv, r)
    ensures Pending(r) == if s.recv.w.events == [] then [] else s.recv.w.events[1..]
  {
  }

  lemma OthersServeNothing(s: Sys, c: Frames, a: Action)
    requires Enabled(s, a) && !a.RecvStep?
    ensures Apply(s, c, a).recv == if a.Interrupt? then RIntrLock else s.recv
  {
    match a
    case BootStep(ok) => BootChanges(s, ok);
    case WifiStep(ok, token) => WifiChanges(s, c, ok, token);
    case ProdStep(id) => ProdLeaves(s, c, id);
    case BtStep =>
      var s' := BtApply(s);
      assert s' == s.(sdio := s'.sdio, bt := s'.bt);
    case _ =>
  }

  // Where a property is lost.
  lemma {:induction false} Lost(bs: seq<bool>, i: nat, j: nat) returns (m: nat)
    requires i <= j < |bs| && bs[i] && !bs[j]
    ensures i <= m < j && bs[m] && !bs[m + 1]
    decreases j - i
  {
    m := i;
    if bs[i + 1] {
      m := Lost(bs, i + 1, j);
    }
  }

  // What is owed at one time and no longer at a later one was done in between.
  lemma Served(c: Frames, run: seq<Sys>, acts: seq<Action>, i: nat, j: nat, k: Kind) returns (m: nat)
    requires IsRun(c, run, acts) && i <= j < |run| && Owed(run[i].recv).Has(k) && !Owed(run[j].recv).Has(k)
    ensures i <= m < j && acts[m].RecvStep? && Done(run[m].recv).Has(k)
  {
    var bs := seq(|run|, x requires 0 <= x < |run| => Owed(run[x].recv).Has(k));
    m := Lost(bs, i, j);
    ServedAt(c, run, acts, m, k);
  }

  lemma ServedAt(c: Frames, run: seq<Sys>, acts: seq<Action>, i: nat, k: Kind)
    requires IsRun(c, run, acts) && i < |acts|
    ensures Owed(run[i].recv).Has(k) && !Owed(run[i + 1].recv).Has(k) ==> acts[i].RecvStep? && Done(run[i].recv).Has(k)
  {
    ServedNow(run[i], c, acts[i], run[i + 1], k);
  }

  lemma CarriesOn(r: RecvPc, packet: bool, w: Work, ok: bool, r': RecvPc)
    requires Serves(r, packet, w, ok, r') && r != RIntr
    ensures Carries(r, r')
  {
  }

  lemma CarriedDuty(r: RecvPc, r': RecvPc, k: Kind)
    requires Carries(r, r')
    ensures Owed(r').Has(k) ==> Owed(r).Has(k)
    ensures Owed(r).Has(k) && !Owed(r').Has(k) ==> Done(r).Has(k)
  {
    var d, e := Owed(r), Done(r);
    DutyLeft(d, e, k);
  }

  lemma DutyLeft(d: Duties, e: Duties, k: Kind)
    ensures d.Without(e).Has(k) <==> d.Has(k) && !e.Has(k)
  {
  }

  lemma ServedNow(s: Sys, c: Frames, a: Action, s': Sys, k: Kind)
    requires Enabled(s, a) && s' == Apply(s, c, a)
    ensures Owed(s.recv).Has(k) && !Owed(s'.recv).Has(k) ==> a.RecvStep? && Done(s.recv).Has(k)
  {
    if a.RecvStep? {
      ServeStep(s, a.packet, a.w, a.ok);
      if s.recv != RIntr {
        CarriesOn(s.recv, a.packet, a.w, a.ok, s'.recv);
        CarriedDuty(s.recv, s'.recv, k);
      }
    } else {
      OthersServeNothing(s, c, a);
    }
  }

  // Every interrupt is served: when the receive task is back to waiting, it has done each thing
  // the interrupt asked for.
  lemma InterruptServed(c: Frames, run: seq<Sys>, acts: seq<Action>, i: nat, j: nat, k: Kind) returns (m: nat)
    requires IsRun(c, run, acts) && i < j < |run| && acts[i].RecvStep? && run[i].recv == RIntr
    requires Asked(acts[i].packet, acts[i].w).Has(k) && run[j].recv == RIdle
    ensures i < m < j && acts[m].RecvStep? && Done(run[m].recv).Has(k)
  {
    ServeStep(run[i], acts[i].packet, acts[i].w, acts[i].ok);
    m := Served(c, run, acts, i + 1, j, k);
  }

  // And nothing is done that no interrupt asked for.
  lemma {:induction false} OnlyWhatIsAsked(c: Frames, run: seq<Sys>, acts: seq<Action>, m: nat, k: Kind)
    returns (i: nat)
    requires IsRun(c, run, acts) && m < |run| && Owed(run[m].recv).Has(k)
    ensures i < m && acts[i].RecvStep? && run[i].recv == RIntr && Asked(acts[i].packet, acts[i].w).Has(k)
    ensures forall j :: i < j <= m ==> Owed(run[j].recv).Has(k)
    decreases m
  {
    var s, a := run[m - 1], acts[m - 1];
    if a.RecvStep? && s.recv == RIntr {
      ServeStep(s, a.packet, a.w, a.ok);
      i := m - 1;
    } else {
      OwedBefore(s, c, a, run[m], k);
      i := OnlyWhatIsAsked(c, run, acts, m - 1, k);
    }
  }

  lemma OwedBefore(s: Sys, c: Frames, a: Action, s': Sys, k: Kind)
    requires Enabled(s, a) && s' == Apply(s, c, a) && Owed(s'.recv).Has(k) && !(a.RecvStep? && s.recv == RIntr)
    ensures Owed(s.recv).Has(k)
  {
    if a.RecvStep? {
      ServeStep(s, a.packet, a.w, a.ok);
      CarriesOn(s.recv, a.packet, a.w, a.ok, s'.recv);
      CarriedDuty(s.recv, s'.recv, k);
    } else {
      OthersServeNothing(s, c, a);
    }
  }

  // The send task goes to the queue only from its wait, and only when its bit is set; while it
  // is not, it has no step.
  lemma WokenByBit(c: Frames, run: seq<Sys>, acts: seq<Action>, i: nat, ok: bool, token: U32)
    requires IsRun(c, run, acts) && i < |acts|
    ensures run[i].wifi == WWait ==> (WifiEnabled(run[i], ok, token) <==> run[i].needSend)
    ensures run[i + 1].wifi == WRemoveLock && run[i].wifi != WRemoveLock ==> run[i].wifi == WWait && run[i].needSend
  {
    var s, a := run[i], acts[i];
    assert run[i + 1] == Apply(s, c, a);
    WokenStep(s, c, a);
  }

  lemma WokenStep(s: Sys, c: Frames, a: Action)
    requires Enabled(s, a)
    ensures Apply(s, c, a).wifi == WRemoveLock && s.wifi != WRemoveLock ==> s.wifi == WWait && s.needSend
  {
    match a
    case BootStep(ok) => BootChanges(s, ok);
    case RecvStep(packet, w, ok) => RecvChanges(s, packet, w, ok);
    case ProdStep(id) => ProdLeaves(s, c, id);
    case WifiStep(ok, token) => WokenWifi(s, c, ok, token);
    case BtStep =>
      var s' := BtApply(s);
      assert s' == s.(sdio := s'.sdio, bt := s'.bt);
    case _ =>
  }

  lemma WokenWifi(s: Sys, c: Frames, ok: bool, token: U32)
    requires WifiEnabled(s, ok, token)
    ensures WifiApply(s, c, ok, token).wifi == WRemoveLock ==> s.wifi == WWait && s.needSend
  {
    if WifiHolds(s.wifi) {
      InsideNotWoken(s, c, ok, token);
    } else if WifiHoldsList(s.wifi) {
      InListNotWoken(s, c, ok, token);
    }
  }

  lemma InsideNotWoken(s: Sys, c: Frames, ok: bool, token: U32)
    requires WifiEnabled(s, ok, token) && WifiHolds(s.wifi)
    ensures WifiApply(s, c, ok, token).wifi != WRemoveLock
  {
  }

  lemma InListNotWoken(s: Sys, c: Frames, ok: bool, token: U32)
    requires WifiHoldsList(s.wifi)
    ensures WifiApply(s, c, ok, token).wifi != WRemoveLock
  {
  }

  // Only a producer sets the bit, inside the list lock.
  ghost predicate SleepInv(s: Sys) {
    s.wifi == WRemoveUnlock(None) ==> !s.needSend
  }

  lemma StepSleep(s: Sys, c: Frames, a: Action)
    requires ListInv(s) && SleepInv(s) && Enabled(s, a)
    ensures SleepInv(Apply(s, c, a))
  {
    match a
    case BootStep(ok) => BootChanges(s, ok);
    case RecvStep(packet, w, ok) => RecvChanges(s, packet, w, ok);
    case WifiStep(ok, token) => WifiSleep(s, c, ok, token);
    case ProdStep(id) => ProdSleep(s, c, id);
    case BtStep =>
      var s' := BtApply(s);
      assert s' == s.(sdio := s'.sdio, bt := s'.bt);
    case _ =>
  }

  lemma WifiSleep(s: Sys, c: Frames, ok: bool, token: U32)
    requires SleepInv(s) && WifiEnabled(s, ok, token)
    ensures SleepInv(WifiApply(s, c, ok, token))
  {
    if s.wifi.WRemove? || s.wifi.WClearBit? {
      ClearedSleep(s, c, ok, token);
    } else {
      NotEmptyHanded(s, c, ok, token);
    }
  }

  lemma ClearedSleep(s: Sys, c: Frames, ok: bool, token: U32)
    requires s.wifi.WRemove? || s.wifi.WClearBit?
    ensures SleepInv(WifiApply(s, c, ok, token))
  {
  }

  lemma NotEmptyHanded(s: Sys, c: Frames, ok: bool, token: U32)
    requires WifiEnabled(s, ok, token) && !s.wifi.WRemove? && !s.wifi.WClearBit?
    ensures !WifiApply(s, c, ok, token).wifi.WRemoveUnlock?
  {
    if WifiHolds(s.wifi) || s.wifi.WRemoveUnlock? {
      InsideNotBack(s, c, ok, token);
    }
  }

  lemma InsideNotBack(s: Sys, c: Frames, ok: bool, token: U32)
    requires WifiEnabled(s, ok, token) && (WifiHolds(s.wifi) || s.wifi.WRemoveUnlock?)
    ensures !WifiApply(s, c, ok, token).wifi.WRemoveUnlock?
  {
  }

  lemma ProdSleep(s: Sys, c: Frames, id: nat)
    requires ListInv(s) && SleepInv(s) && ProdEnabled(s, id)
    ensures SleepInv(ProdApply(s, c, id))
  {
    assert InList(s, Producer(id)) <==> s.list == Some(Producer(id));
  }

  // A removal that finds nothing leaves the bit cleared, so the task sleeps until a producer
  // wakes it.
  lemma {:induction false} SleepsWhenEmpty(c: Frames, run: seq<Sys>, acts: seq<Action>, i: nat)
    requires IsRun(c, run, acts) && i < |run|
    ensures run[i].wifi == WRemoveUnlock(None) ==> !run[i].needSend
  {
    if i > 0 {
      SleepsWhenEmpty(c, run, acts, i - 1);
      RunInv(c, run, acts, i - 1);
      StepSleep(run[i - 1], c, acts[i - 1]);
    }
  }
}
