/** What one step of a task changes and what it leaves alone, task by task. */
module LinkSteps {
  import opened Words
  import opened SipLayer
  import opened LinkSystem

  // ----- who is inside which critical section, by program counter

  predicate BootHolds(b: BootPc) {
    b.BSend? || b.BUnlock?
  }

  predicate RecvHolds(r: RecvPc) {
    || r.RIntr? || r.RIntrUnlock? || r.RPacket? || r.RPacketUnlock?
    || r.RInitSend? || r.RInitUnlock? || r.RBt? || r.RBtUnlock? || r.RCredit? || r.RCreditUnlock?
  }

  predicate WifiHolds(w: WifiPc) {
    w.WCheck? || w.WCheckUnlock? || w.WSend? || w.WSendUnlock?
  }

  predicate WifiHoldsList(w: WifiPc) {
    w.WRemove? || w.WClearBit? || w.WRemoveUnlock?
  }

  predicate ProducerHoldsList(p: ProdPc) {
    p.PClear? || p.PClearUnlock? || p.PInsert? || p.PSetBit? || p.PUnlock?
  }

  predicate InSdio(s: Sys, t: Task) {
    match t
    case BootTask => BootHolds(s.boot)
    case RecvTask => RecvHolds(s.recv)
    case WifiTask => WifiHolds(s.wifi)
    case BtTask => s.bt.TSend? || s.bt.TUnlock?
    case Producer(_) => false
  }

  predicate InList(s: Sys, t: Task) {
    match t
    case WifiTask => WifiHoldsList(s.wifi)
    case Producer(id) => id in s.prods && ProducerHoldsList(s.prods[id])
    case _ => false
  }

  // A mutex changes hands only where the task enters or leaves.
  predicate Handover(t: Task, was: bool, isIn: bool, owner: Opt<Task>, owner': Opt<Task>) {
    if was == isIn then owner' == owner
    else if isIn then owner == None && owner' == Some(t)
    else owner' == None
  }

  /** The part of the state that belongs to the queue, and the part that belongs to the link. */
  datatype QueueSide = QueueSide(
    list: Opt<Task>, wifi: WifiPc, prods: map<nat, ProdPc>, queue: seq<nat>, needSend: bool,
    known: set<nat>, inserted: set<nat>, txDone: seq<nat>, recycled: seq<nat>, lost: seq<nat>)

  datatype LinkSide = LinkSide(
    granted: nat, used: nat, totalTx: U32, txseq: U32, state: SipState, bootSem: Sem,
    answered: bool, inits: nat, initOnAir: bool,
    sdio: Opt<Task>, boot: BootPc, recv: RecvPc, bt: BtPc, wifi: WifiPc, log: seq<Sent>)

  function QueuePart(s: Sys): QueueSide {
    QueueSide(s.list, s.wifi, s.prods, s.queue, s.needSend, s.known, s.inserted, s.txDone, s.recycled, s.lost)
  }

  function LinkPart(s: Sys): LinkSide {
    LinkSide(s.granted, s.used, s.totalTx, s.txseq, s.state, s.bootSem, s.answered, s.inits, s.initOnAir,
             s.sdio, s.boot, s.recv, s.bt, s.wifi, s.log)
  }

  /** The boot protocol as far as the boot and receive tasks share it. */
  predicate SameBoot(s: Sys, s': Sys) {
    && s'.state == s.state && s'.bootSem == s.bootSem && s'.answered == s.answered
    && s'.inits == s.inits && s'.initOnAir == s.initOnAir
  }

  // ----- the boot task

  predicate BootOnly(s: Sys, s': Sys) {
    && s' == s.(sdio := s'.sdio, boot := s'.boot, txseq := s'.txseq, state := s'.state, bootSem := s'.bootSem,
                used := s'.used, totalTx := s'.totalTx, badDeletes := s'.badDeletes)
    && Handover(BootTask, BootHolds(s.boot), BootHolds(s'.boot), s.sdio, s'.sdio)
    && (!s.boot.BSend? ==> s'.used == s.used && s'.totalTx == s.totalTx)
  }

  lemma BootChanges(s: Sys, ok: bool)
    requires BootEnabled(s, ok)
    ensures BootOnly(s, BootApply(s, ok))
  {
  }

  // ----- the receive task

  predicate InitPhase(r: RecvPc) {
    r.RCount? || r.RInitLock? || r.RInitSend? || r.RInitUnlock? || r.RInitState?
  }

  // The events still to be handled.
  function Pending(r: RecvPc): seq<Event> {
    match r
    case RPacketUnlock(w) => w.events
    case RParse(w) => w.events
    case RCount(w) => w.events
    case RInitLock(w) => w.events
    case RInitSend(w) => w.events
    case RInitUnlock(w, _) => w.events
    case RInitState(w, _) => w.events
    case RGive(w) => w.events
    case _ => []
  }

  // At work on the events of a chain, or with one in hand.
  predicate WithEvents(r: RecvPc) {
    r.RParse? || InitPhase(r) || r.RPacket? || r.RPacketUnlock? || r.RGive?
  }

  predicate RecvOnly(s: Sys, s': Sys) {
    && s' == s.(sdio := s'.sdio, recv := s'.recv, state := s'.state, answered := s'.answered, txseq := s'.txseq,
                inits := s'.inits, initOnAir := s'.initOnAir, used := s'.used, totalTx := s'.totalTx,
                bootSem := s'.bootSem, badGives := s'.badGives)
    && Handover(RecvTask, RecvHolds(s.recv), RecvHolds(s'.recv), s.sdio, s'.sdio)
    && (!s.recv.RCount? ==> s'.txseq == s.txseq && s'.inits == s.inits)
    && (!s.recv.RInitSend? ==> s'.used == s.used && s'.totalTx == s.totalTx)
    && (!WithEvents(s.recv) ==> SameBoot(s, s') && Pending(s'.recv) == [] && !InitPhase(s'.recv) && !s'.recv.RGive?)
  }

  lemma RecvChanges(s: Sys, packet: bool, w: Work, ok: bool)
    requires RecvEnabled(s, w)
    ensures RecvOnly(s, RecvApply(s, packet, w, ok))
  {
    match s.recv
    case RParse(_) => RecvParse(s, packet, w, ok);
    case RInitSend(_) => RecvInitSend(s, packet, w, ok);
    case _ =>
      if InitPhase(s.recv) {
        RecvInit(s, packet, w, ok);
      } else if WithEvents(s.recv) {
        RecvPacket(s, packet, w, ok);
      } else if RecvHolds(s.recv) {
        RecvInside(s, packet, w, ok);
      } else {
        RecvOutside(s, packet, w, ok);
      }
  }

  lemma RecvParse(s: Sys, packet: bool, w: Work, ok: bool)
    requires RecvEnabled(s, w) && s.recv.RParse?
    ensures RecvOnly(s, RecvApply(s, packet, w, ok))
  {
    var s' := RecvApply(s, packet, w, ok);
    ParseShape(s, packet, w, ok);
    ParseOnly(s, s', s'.recv);
  }

  // What handling one event does.
  predicate Parsed(s: Sys, s': Sys, r: RecvPc)
    requires s.recv.RParse?
  {
    var v := s.recv.w;
    if v.events == [] then r == AfterChain(v) && s' == s.(recv := r)
    else
      var rest := v.(events := v.events[1..]);
      if v.events[0] == TargetOn && (s.state == PrepareBoot || s.state == SipState.Boot) then
        r == RCount(rest) && s' == s.(state := SendInit, answered := true, recv := r)
      else if v.events[0] == Bootup then r == RGive(rest) && s' == s.(state := Run, recv := r)
      else r == RParse(rest) && s' == s.(recv := r)
  }

  lemma ParseShape(s: Sys, packet: bool, w: Work, ok: bool)
    requires s.recv.RParse?
    ensures Parsed(s, RecvApply(s, packet, w, ok), RecvApply(s, packet, w, ok).recv)
  {
  }

  lemma ParseOnly(s: Sys, s': Sys, r: RecvPc)
    requires s.recv.RParse? && Parsed(s, s', r)
    ensures RecvOnly(s, s')
  {
    var v := s.recv.w;
    if v.events == [] {
      ParseEnds(s, s', v);
    } else {
      ParseMoves(s, s', r);
    }
  }

  lemma ParseEnds(s: Sys, s': Sys, v: Work)
    requires s.recv == RParse(v) && s' == s.(recv := AfterChain(v))
    ensures RecvOnly(s, s')
  {
  }

  lemma ParseMoves(s: Sys, s': Sys, r: RecvPc)
    requires s.recv.RParse? && (r.RParse? || r.RGive? || r.RCount?)
    requires s' == s.(state := s'.state, answered := s'.answered, recv := r)
    ensures RecvOnly(s, s')
  {
  }

  lemma RecvInitSend(s: Sys, packet: bool, w: Work, ok: bool)
    requires RecvEnabled(s, w) && s.recv.RInitSend?
    ensures RecvOnly(s, RecvApply(s, packet, w, ok))
  {
  }

  lemma RecvInit(s: Sys, packet: bool, w: Work, ok: bool)
    requires RecvEnabled(s, w) && InitPhase(s.recv) && !s.recv.RInitSend?
    ensures RecvOnly(s, RecvApply(s, packet, w, ok))
  {
  }

  // The program counter moves on, and the mutex with it; a give may also change the semaphore.
  lemma RecvSteps(s: Sys, s': Sys, r: RecvPc)
    requires s.recv.RGive? || (s'.bootSem == s.bootSem && s'.badGives == s.badGives)
    requires s' == s.(sdio := s'.sdio, recv := r, bootSem := s'.bootSem, badGives := s'.badGives)
    requires Handover(RecvTask, RecvHolds(s.recv), RecvHolds(r), s.sdio, s'.sdio)
    requires !WithEvents(s.recv) ==> Pending(r) == [] && !InitPhase(r) && !r.RGive?
    ensures RecvOnly(s, s')
  {
  }

  lemma RecvPacket(s: Sys, packet: bool, w: Work, ok: bool)
    requires RecvEnabled(s, w) && (s.recv.RPacket? || s.recv.RPacketUnlock? || s.recv.RGive?)
    ensures RecvOnly(s, RecvApply(s, packet, w, ok))
  {
    var s' := RecvApply(s, packet, w, ok);
    RecvSteps(s, s', s'.recv);
  }

  lemma RecvInside(s: Sys, packet: bool, w: Work, ok: bool)
    requires RecvEnabled(s, w) && !WithEvents(s.recv) && RecvHolds(s.recv)
    ensures RecvOnly(s, RecvApply(s, packet, w, ok))
  {
    var s' := RecvApply(s, packet, w, ok);
    RecvSteps(s, s', s'.recv);
  }

  lemma RecvOutside(s: Sys, packet: bool, w: Work, ok: bool)
    requires RecvEnabled(s, w) && !WithEvents(s.recv) && !RecvHolds(s.recv)
    ensures RecvOnly(s, RecvApply(s, packet, w, ok))
  {
    var s' := RecvApply(s, packet, w, ok);
    RecvSteps(s, s', s'.recv);
  }

  // ----- the Wi-Fi send task

  // A number taken for a packet that is not in the log, or never will be.
  function Unlogged(w: WifiPc): nat {
    match w
    case WSendLock(_, _) => 1
    case WSend(_, _) => 1
    case WSendUnlock(_, ok) => if ok then 0 else 1
    case WDispose(_, ok) => if ok then 0 else 1
    case WHalted => 1
    case _ => 0
  }

  function Held(w: WifiPc): seq<nat> {
    match w
    case WRemoveUnlock(got) => if got.Some? then [got.value] else []
    case WBuild(eb) => [eb]
    case WCheckLock(eb) => [eb]
    case WCheck(eb) => [eb]
    case WCheckUnlock(eb, _) => [eb]
    case WDecide(eb, _) => [eb]
    case WNumber(eb) => [eb]
    case WSendLock(eb, _) => [eb]
    case WSend(eb, _) => [eb]
    case WSendUnlock(eb, _) => [eb]
    case WDispose(eb, _) => [eb]
    case _ => []
  }

  predicate MovesBuffer(w: WifiPc) {
    w.WRemove? || w.WBuild? || w.WDispose?
  }

  // A number in hand stays the same.
  predicate NumberCarried(w: WifiPc, w': WifiPc) {
    w'.WSendLock? || w'.WSend? ==> (w.WSendLock? || w.WSend?) && w'.number == w.number
  }

  // What a check saw, and that a check was passed, stays with the frame.
  predicate CreditCarried(w: WifiPc, w': WifiPc) {
    && (w'.WCheckUnlock? || w'.WDecide? ==> (w.WCheckUnlock? || w.WDecide?) && w'.num == w.num)
    && (w'.WNumber? || w'.WSendLock? || w'.WSend? ==> (w.WNumber? || w.WSendLock? || w.WSend?) && w'.eb == w.eb)
  }

  predicate SameQueue(s: Sys, s': Sys) {
    && s'.queue == s.queue && Held(s'.wifi) == Held(s.wifi)
    && s'.txDone == s.txDone && s'.recycled == s.recycled && s'.lost == s.lost
  }

  predicate WifiOnly(s: Sys, s': Sys) {
    && s' == s.(sdio := s'.sdio, list := s'.list, wifi := s'.wifi, txseq := s'.txseq, queue := s'.queue,
                needSend := s'.needSend, txDone := s'.txDone, recycled := s'.recycled, lost := s'.lost,
                used := s'.used, totalTx := s'.totalTx, log := s'.log)
    && (s.wifi == WOff <==> s'.wifi == WOff)
    && Handover(WifiTask, WifiHolds(s.wifi), WifiHolds(s'.wifi), s.sdio, s'.sdio)
    && Handover(WifiTask, WifiHoldsList(s.wifi), WifiHoldsList(s'.wifi), s.list, s'.list)
    && (!s.wifi.WNumber? ==> s'.txseq == s.txseq && NumberCarried(s.wifi, s'.wifi))
    && (!s.wifi.WSend? ==> s'.log == s.log && s'.used == s.used && s'.totalTx == s.totalTx)
    && (!s.wifi.WNumber? && !s.wifi.WSend? ==> Unlogged(s'.wifi) == Unlogged(s.wifi))
    && (!s.wifi.WCheck? && !s.wifi.WDecide? ==> CreditCarried(s.wifi, s'.wifi))
    && (!MovesBuffer(s.wifi) ==> SameQueue(s, s'))
    && (s'.queue != [] ==> s.queue != [])
    && (s'.wifi.WClearBit? ==> s'.queue == [])
    && (!s.wifi.WClearBit? ==> s'.needSend == s.needSend)
  }

  lemma WifiChanges(s: Sys, c: Frames, ok: bool, token: U32)
    requires WifiEnabled(s, ok, token)
    ensures WifiOnly(s, WifiApply(s, c, ok, token))
  {
    match s.wifi
    case WBuild(_) => WifiBuild(s, c, ok, token);
    case WDispose(_, _) => WifiDispose(s, c, ok, token);
    case WSend(_, _) => WifiSend(s, c, ok, token);
    case WCheckLock(_) => WifiLock(s, c, ok, token);
    case WSendLock(_, _) => WifiLock(s, c, ok, token);
    case WRemoveLock => WifiLock(s, c, ok, token);
    case _ =>
      if WifiHolds(s.wifi) {
        WifiInside(s, c, ok, token);
      } else if WifiHoldsList(s.wifi) {
        WifiInList(s, c, ok, token);
      } else {
        WifiOutside(s, c, ok, token);
      }
  }

  lemma WifiBuild(s: Sys, c: Frames, ok: bool, token: U32)
    requires s.wifi.WBuild?
    ensures WifiOnly(s, WifiApply(s, c, ok, token))
  {
    var s' := WifiApply(s, c, ok, token);
    WifiLetsGo(s, s', s'.wifi);
  }

  lemma WifiDispose(s: Sys, c: Frames, ok: bool, token: U32)
    requires s.wifi.WDispose?
    ensures WifiOnly(s, WifiApply(s, c, ok, token))
  {
    var s' := WifiApply(s, c, ok, token);
    WifiLetsGo(s, s', s'.wifi);
  }

  // The buffer in hand goes to a final place, or on to the credit check.
  lemma WifiLetsGo(s: Sys, s': Sys, w: WifiPc)
    requires s.wifi.WBuild? || s.wifi.WDispose?
    requires s' == s.(wifi := w, lost := s'.lost, txDone := s'.txDone, recycled := s'.recycled)
    requires w == WAborted || w == WHalted || w == WWait || w.WCheckLock?
    requires Unlogged(w) == Unlogged(s.wifi)
    ensures WifiOnly(s, s')
  {
  }

  lemma WifiSend(s: Sys, c: Frames, ok: bool, token: U32)
    requires WifiEnabled(s, ok, token) && s.wifi.WSend?
    ensures WifiOnly(s, WifiApply(s, c, ok, token))
  {
  }

  // Only the program counter moves on, and a mutex with it.
  lemma WifiSteps(s: Sys, s': Sys, w: WifiPc)
    requires s' == s.(sdio := s'.sdio, list := s'.list, wifi := w)
    requires !WifiHoldsList(s.wifi) && !MovesBuffer(s.wifi) && !s.wifi.WNumber? && !s.wifi.WSend? && !w.WClearBit?
    requires Handover(WifiTask, WifiHolds(s.wifi), WifiHolds(w), s.sdio, s'.sdio)
    requires Handover(WifiTask, false, WifiHoldsList(w), s.list, s'.list)
    requires (s.wifi == WOff <==> w == WOff) && Held(w) == Held(s.wifi) && Unlogged(w) == Unlogged(s.wifi)
    requires NumberCarried(s.wifi, w) && (s.wifi.WCheck? || s.wifi.WDecide? || CreditCarried(s.wifi, w))
    ensures WifiOnly(s, s')
  {
  }

  lemma WifiLock(s: Sys, c: Frames, ok: bool, token: U32)
    requires WifiEnabled(s, ok, token) && (s.wifi.WCheckLock? || s.wifi.WSendLock? || s.wifi.WRemoveLock?)
    ensures WifiOnly(s, WifiApply(s, c, ok, token))
  {
    var s' := WifiApply(s, c, ok, token);
    WifiSteps(s, s', s'.wifi);
  }

  lemma WifiInside(s: Sys, c: Frames, ok: bool, token: U32)
    requires WifiEnabled(s, ok, token) && WifiHolds(s.wifi) && !s.wifi.WSend?
    ensures WifiOnly(s, WifiApply(s, c, ok, token))
  {
    var s' := WifiApply(s, c, ok, token);
    WifiSteps(s, s', s'.wifi);
  }

  lemma WifiInList(s: Sys, c: Frames, ok: bool, token: U32)
    requires WifiEnabled(s, ok, token) && WifiHoldsList(s.wifi)
    ensures WifiOnly(s, WifiApply(s, c, ok, token))
  {
  }

  lemma WifiOutside(s: Sys, c: Frames, ok: bool, token: U32)
    requires WifiEnabled(s, ok, token) && (s.wifi.WWait? || s.wifi.WDecide? || s.wifi.WNumber?)
    ensures WifiOnly(s, WifiApply(s, c, ok, token))
  {
  }
}
