/**
 The tasks of the host and the target as one transition system: the boot code, the
 receive task, the Wi-Fi send task, the Bluetooth send task and any number of
 producers, interleaved at every lock operation and every access to shared state.
 The counters, the credit check and the queue operations are the functions that the
 adapter and the queue are proved against.
 */
module LinkSystem {
  import opened Words
  import opened SdioCounters
  import opened Partition
  import opened SipLayer

  datatype Opt<T> = None | Some(value: T)

  datatype Task = BootTask | RecvTask | WifiTask | BtTask | Producer(id: nat)

  /** How esp_sip_bootup ends: the semaphore was given, the wait timed out, or the command
      could not be sent. */
  datatype BootEnd = Booted | TimedOut | NotSent

  // esp_sip_bootup, statement by statement
  datatype BootPc =
    | BStart            // allocate the command, reset the sequence counters
    | BLock             // request the SDIO mutex
    | BSend             // send the boot command
    | BUnlock(sent: bool)
    | BSetState         // state = SIP_PREPARE_BOOT
    | BCreateSem
    | BWait             // take the boot semaphore, or time out
    | BDelete(end: BootEnd)
    | BDone(end: BootEnd)

  datatype Event = TargetOn | Bootup | Other

  /** What one interrupt leaves the receive task to do: events of the chain still to be
      handled, then the two parts of handle_intr1. */
  datatype Work = Work(events: seq<Event>, btPacket: bool, btCredit: bool)

  datatype RecvPc =
    | RIdle
    | RIntrLock | RIntr | RIntrUnlock(packet: bool, w: Work)
    | RPacketLock(w: Work) | RPacket(w: Work) | RPacketUnlock(w: Work)
    | RParse(w: Work)
    | RCount(w: Work)      // allocate INIT, txseq++
    | RInitLock(w: Work) | RInitSend(w: Work) | RInitUnlock(w: Work, sent: bool)
    | RInitState(w: Work, sent: bool)
    | RGive(w: Work)       // give the boot semaphore
    | RBtLock(w: Work) | RBt(w: Work) | RBtUnlock(w: Work)
    | RCreditLock | RCredit | RCreditUnlock

  datatype WifiPc =
    | WOff
    | WWait
    | WRemoveLock | WRemove | WClearBit | WRemoveUnlock(got: Opt<nat>)
    | WBuild(eb: nat)
    | WCheckLock(eb: nat) | WCheck(eb: nat) | WCheckUnlock(eb: nat, num: U32) | WDecide(eb: nat, num: U32)
    | WNumber(eb: nat)
    | WSendLock(eb: nat, number: U32) | WSend(eb: nat, number: U32) | WSendUnlock(eb: nat, ok: bool)
    | WDispose(eb: nat, ok: bool)
    | WHalted | WAborted

  datatype BtPc = TOff | TIdle | TLock | TSend | TUnlock

  /** A producer submits `eb`, at the head for a test command, after a clear for a disconnect. */
  datatype ProdPc =
    | PClearLock(eb: nat, head: bool) | PClear(eb: nat, head: bool) | PClearUnlock(eb: nat, head: bool)
    | PInsertLock(eb: nat, head: bool) | PInsert(eb: nat, head: bool) | PSetBit | PUnlock | PDone

  datatype Sem = NotCreated | Live(count: nat) | Deleted

  /** A packet of the Wi-Fi task that went out, with the totals around that moment. */
  datatype Sent = Sent(eb: nat, number: U32, usedBefore: nat, usedAfter: nat, granted: nat)

  /** What the environment decides about buffers: whether list_clear drops them, how many
      bytes they make on the wire, whether transmission is reported back. */
  datatype Frames = Frames(discard: nat -> bool, sendLen: nat -> U32, callback: nat -> bool, bufSize: nat)

  datatype Sys = Sys(
    granted: nat, used: nat, totalTx: U32,
    txseq: U32, state: SipState, bootSem: Sem,
    answered: bool,      // a TARGET_ON was answered
    inits: nat,          // how often INIT was counted
    initOnAir: bool,     // INIT reached the target
    badGives: nat,       // gives of the boot semaphore while there was none
    badDeletes: nat,     // deletions of it while there was none
    sdio: Opt<Task>, list: Opt<Task>,
    boot: BootPc, recv: RecvPc, wifi: WifiPc, bt: BtPc, prods: map<nat, ProdPc>,
    queue: seq<nat>, needSend: bool,
    known: set<nat>, inserted: set<nat>,
    txDone: seq<nat>, recycled: seq<nat>, lost: seq<nat>,
    log: seq<Sent>)

  /** Choices of the environment. Any transfer may fail, and the target may grant at any time. */
  datatype Action =
    | Grant(n: nat)
    | BootStep(ok: bool)
    | Interrupt
    | RecvStep(packet: bool, w: Work, ok: bool)
    | WifiStart
    | WifiStep(ok: bool, token: U32)
    | BtStart
    | BtStep
    | Submit(id: nat, eb: nat, clear: bool, head: bool)
    | ProdStep(id: nat)

  // The moment the receive task starts: the image is in place, nothing else runs.
  predicate Initial(s: Sys) {
    && s.totalTx % TX_BUFFER_MAX == s.used % TX_BUFFER_MAX
    && s.state == SipState.Init && s.bootSem == NotCreated && !s.answered && s.inits == 0 && !s.initOnAir
    && s.badGives == 0 && s.badDeletes == 0
    && s.sdio == None && s.list == None
    && s.boot == BStart && s.recv == RIdle && s.wifi == WOff && s.bt == TOff && s.prods == map[]
    && s.queue == [] && !s.needSend && s.known == {} && s.inserted == {}
    && s.txDone == [] && s.recycled == [] && s.lost == [] && s.log == []
  }

  function Charge(s: Sys, length: U32): Sys {
    s.(used := s.used + BuffersFor(length), totalTx := TxAdvance(s.totalTx, BuffersFor(length)))
  }

  // ----- the boot task

  predicate BootEnabled(s: Sys, ok: bool) {
    match s.boot
    case BLock => s.sdio == None
    case BWait => ok ==> s.bootSem.Live? && s.bootSem.count > 0
    case BDone(_) => false
    case _ => true
  }

  function BootApply(s: Sys, ok: bool): Sys
    requires BootEnabled(s, ok)
  {
    match s.boot
    case BStart => if ok then s.(txseq := 0, boot := BLock) else s.(boot := BDelete(NotSent))
    case BLock => s.(sdio := Some(BootTask), boot := BSend)
    case BSend => (if ok then Charge(s, 20) else s).(boot := BUnlock(ok))
    case BUnlock(sent) => s.(sdio := None, boot := if sent then BSetState else BDelete(NotSent))
    case BSetState => s.(state := PrepareBoot, boot := BCreateSem)
    case BCreateSem => s.(bootSem := Live(0), boot := BWait)
    case BWait =>
      if ok then s.(bootSem := Live(s.bootSem.count - 1), boot := BDelete(Booted))
      else s.(boot := BDelete(TimedOut))
    case BDelete(end) =>
      if s.bootSem.Live? then s.(bootSem := Deleted, boot := BDone(end))
      else s.(badDeletes := s.badDeletes + 1, boot := BDone(end))
    case BDone(_) => s
  }

  // ----- the receive task

  function AfterChain(w: Work): RecvPc {
    if w.btPacket then RBtLock(w) else if w.btCredit then RCreditLock else RIdle
  }

  function AfterBt(w: Work): RecvPc {
    if w.btCredit then RCreditLock else RIdle
  }

  predicate RecvEnabled(s: Sys, w: Work) {
    match s.recv
    case RIdle => false
    case RIntrLock => s.sdio == None
    case RPacketLock(_) => s.sdio == None
    case RInitLock(_) => s.sdio == None
    case RBtLock(_) => s.sdio == None
    case RCreditLock => s.sdio == None
    case RPacket(_) => Bootup in w.events ==> s.initOnAir  // the target reports bootup only after INIT
    case _ => true
  }

  function RecvApply(s: Sys, packet: bool, w: Work, ok: bool): Sys
    requires RecvEnabled(s, w)
  {
    match s.recv
    case RIdle => s
    case RIntrLock => s.(sdio := Some(RecvTask), recv := RIntr)
    case RIntr => s.(recv := RIntrUnlock(packet, w.(events := [])))
    case RIntrUnlock(p, v) => s.(sdio := None, recv := if p then RPacketLock(v) else AfterChain(v))
    case RPacketLock(v) => s.(sdio := Some(RecvTask), recv := RPacket(v))
    case RPacket(v) => s.(recv := RPacketUnlock(v.(events := if ok then w.events else [])))
    case RPacketUnlock(v) => s.(sdio := None, recv := RParse(v))
    case RParse(v) =>
      if v.events == [] then s.(recv := AfterChain(v))
      else
        var rest := v.(events := v.events[1..]);
        (match v.events[0]
         case TargetOn =>
           if s.state == PrepareBoot || s.state == SipState.Boot
           then s.(state := SendInit, answered := true, recv := RCount(rest))
           else s.(recv := RParse(rest))
         case Bootup => s.(state := Run, recv := RGive(rest))
         case Other => s.(recv := RParse(rest)))
    case RCount(v) =>
      if ok then s.(txseq := Wrap32(s.txseq + 1), inits := s.inits + 1, recv := RInitLock(v))
      else s.(recv := RInitState(v, false))
    case RInitLock(v) => s.(sdio := Some(RecvTask), recv := RInitSend(v))
    case RInitSend(v) =>
      (if ok then Charge(s, 156).(initOnAir := true) else s).(recv := RInitUnlock(v, ok))
    case RInitUnlock(v, sent) => s.(sdio := None, recv := RInitState(v, sent))
    case RInitState(v, sent) => s.(state := if sent then WaitBootup else s.state, recv := RParse(v))
    case RGive(v) =>
      if s.bootSem.Live? then s.(bootSem := Live(1), recv := RParse(v))
      else s.(badGives := s.badGives + 1, recv := RParse(v))
    case RBtLock(v) => s.(sdio := Some(RecvTask), recv := RBt(v))
    case RBt(v) => s.(recv := RBtUnlock(v))
    case RBtUnlock(v) => s.(sdio := None, recv := AfterBt(v))
    case RCreditLock => s.(sdio := Some(RecvTask), recv := RCredit)
    case RCredit => s.(recv := RCreditUnlock)
    case RCreditUnlock => s.(sdio := None, recv := RIdle)
  }

  // ----- the Wi-Fi send task

  // It is created after a successful boot. That the grants cover what boot has used is
  // the one assumption on the target's accounting.
  predicate WifiStartEnabled(s: Sys) {
    s.wifi == WOff && s.boot == BDone(Booted) && s.used <= s.granted
  }

  predicate WifiEnabled(s: Sys, ok: bool, token: U32) {
    match s.wifi
    case WOff => false
    case WWait => s.needSend
    case WRemoveLock => s.list == None
    case WCheckLock(_) => s.sdio == None
    case WCheck(_) => ok ==> ShowsGrants(token, s.granted)
    case WSendLock(_, _) => s.sdio == None
    case WHalted => false
    case WAborted => false
    case _ => true
  }

  function WifiApply(s: Sys, c: Frames, ok: bool, token: U32): Sys
    requires WifiEnabled(s, ok, token)
  {
    match s.wifi
    case WOff => s
    case WWait => s.(wifi := WRemoveLock)
    case WRemoveLock => s.(list := Some(WifiTask), wifi := WRemove)
    case WRemove =>
      if s.queue == [] then s.(wifi := WClearBit)
      else s.(queue := s.queue[1..], wifi := WRemoveUnlock(Some(s.queue[0])))
    case WClearBit => s.(needSend := false, wifi := WRemoveUnlock(None))
    case WRemoveUnlock(got) => s.(list := None, wifi := if got.Some? then WBuild(got.value) else WWait)
    case WBuild(eb) =>
      if c.sendLen(eb) > c.bufSize then s.(wifi := WAborted, lost := s.lost + [eb]) else s.(wifi := WCheckLock(eb))
    case WCheckLock(eb) => s.(sdio := Some(WifiTask), wifi := WCheck(eb))
    case WCheck(eb) => s.(wifi := WCheckUnlock(eb, if ok then CreditsSeen(token, s.totalTx) else 0))
    case WCheckUnlock(eb, num) => s.(sdio := None, wifi := WDecide(eb, num))
    case WDecide(eb, num) => s.(wifi := if CheckPasses(num, c.sendLen(eb)) then WNumber(eb) else WCheckLock(eb))
    case WNumber(eb) => s.(txseq := Wrap32(s.txseq + 1), wifi := WSendLock(eb, s.txseq))
    case WSendLock(eb, n) => s.(sdio := Some(WifiTask), wifi := WSend(eb, n))
    case WSend(eb, n) =>
      if !ok then s.(wifi := WSendUnlock(eb, false))
      else
        var t := Charge(s, c.sendLen(eb));
        t.(wifi := WSendUnlock(eb, true), log := s.log + [Sent(eb, n, s.used, t.used, s.granted)])
    case WSendUnlock(eb, sent) => s.(sdio := None, wifi := WDispose(eb, sent))
    case WDispose(eb, sent) =>
      if !sent then s.(wifi := WHalted, lost := s.lost + [eb])
      else if c.callback(eb) then s.(wifi := WWait, txDone := s.txDone + [eb])
      else s.(wifi := WWait, recycled := s.recycled + [eb])
    case WHalted => s
    case WAborted => s
  }

  // ----- the Bluetooth send task, as far as it touches the link

  predicate BtEnabled(s: Sys) {
    match s.bt
    case TOff => false
    case TLock => s.sdio == None
    case _ => true
  }

  function BtApply(s: Sys): Sys
    requires BtEnabled(s)
  {
    match s.bt
    case TOff => s
    case TIdle => s.(bt := TLock)
    case TLock => s.(sdio := Some(BtTask), bt := TSend)
    case TSend => s.(bt := TUnlock)  // function 2: no transmit credit is involved
    case TUnlock => s.(sdio := None, bt := TIdle)
  }

  // ----- the producers, which may start before the send task does

  predicate SubmitEnabled(s: Sys, id: nat, eb: nat) {
    (id in s.prods ==> s.prods[id] == PDone) && eb !in s.known
  }

  function SubmitApply(s: Sys, id: nat, eb: nat, clear: bool, head: bool): Sys {
    s.(known := s.known + {eb},
       prods := s.prods[id := if clear then PClearLock(eb, head) else PInsertLock(eb, head)])
  }

  predicate ProdEnabled(s: Sys, id: nat) {
    id in s.prods &&
    match s.prods[id]
    case PClearLock(_, _) => s.list == None
    case PInsertLock(_, _) => s.list == None
    case PDone => false
    case _ => true
  }

  function ProdApply(s: Sys, c: Frames, id: nat): Sys
    requires ProdEnabled(s, id)
  {
    match s.prods[id]
    case PClearLock(eb, head) => s.(list := Some(Producer(id)), prods := s.prods[id := PClear(eb, head)])
    case PClear(eb, head) =>
      s.(queue := Keep(c.discard, s.queue), recycled := s.recycled + Dropped(c.discard, s.queue),
         prods := s.prods[id := PClearUnlock(eb, head)])
    case PClearUnlock(eb, head) => s.(list := None, prods := s.prods[id := PInsertLock(eb, head)])
    case PInsertLock(eb, head) => s.(list := Some(Producer(id)), prods := s.prods[id := PInsert(eb, head)])
    case PInsert(eb, head) =>
      s.(queue := if head then [eb] + s.queue else s.queue + [eb], inserted := s.inserted + {eb},
         prods := s.prods[id := PSetBit])
    case PSetBit => s.(needSend := true, prods := s.prods[id := PUnlock])
    case PUnlock => s.(list := None, prods := s.prods[id := PDone])
    case PDone => s
  }

  // ----- the whole system

  predicate Enabled(s: Sys, a: Action) {
    match a
    case Grant(_) => true
    case BootStep(ok) => BootEnabled(s, ok)
    case Interrupt => s.recv == RIdle
    case RecvStep(_, w, _) => RecvEnabled(s, w)
    case WifiStart => WifiStartEnabled(s)
    case WifiStep(ok, token) => WifiEnabled(s, ok, token)
    case BtStart => s.bt == TOff && s.boot == BDone(Booted)
    case BtStep => BtEnabled(s)
    case Submit(id, eb, _, _) => s.boot == BDone(Booted) && SubmitEnabled(s, id, eb)
    case ProdStep(id) => ProdEnabled(s, id)
  }

  function Apply(s: Sys, c: Frames, a: Action): Sys
    requires Enabled(s, a)
  {
    match a
    case Grant(n) => s.(granted := s.granted + n)
    case BootStep(ok) => BootApply(s, ok)
    case Interrupt => s.(recv := RIntrLock)
    case RecvStep(packet, w, ok) => RecvApply(s, packet, w, ok)
    case WifiStart => s.(wifi := WWait)
    case WifiStep(ok, token) => WifiApply(s, c, ok, token)
    case BtStart => s.(bt := TIdle)
    case BtStep => BtApply(s)
    case Submit(id, eb, clear, head) => SubmitApply(s, id, eb, clear, head)
    case ProdStep(id) => ProdApply(s, c, id)
  }

  ghost predicate IsRun(c: Frames, run: seq<Sys>, acts: seq<Action>) {
    && |run| == |acts| + 1
    && Initial(run[0])
    && forall i :: 0 <= i < |acts| ==> Enabled(run[i], acts[i]) && run[i + 1] == Apply(run[i], c, acts[i])
  }
}
