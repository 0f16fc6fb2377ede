/** What the credit check decides, and what the counters of the link tell, over every run. */
module LinkCredit {
  import opened Words
  import opened SdioCounters
  import opened SipLayer
  import opened LinkSystem
  import opened LinkSteps
  import opened LinkSafety

  // The boot command has gone out.
  predicate CommandOut(b: BootPc) {
    b == BUnlock(true) || b.BSetState? || b.BCreateSem? || b.BWait?
    || b == BDelete(Booted) || b == BDelete(TimedOut) || b == BDone(Booted) || b == BDone(TimedOut)
  }

  // The buffers the packets of the Wi-Fi task needed.
  function Needed(c: Frames, log: seq<Sent>): nat {
    if log == [] then 0 else Needed(c, log[..|log| - 1]) + BuffersFor(c.sendLen(log[|log| - 1].eb))
  }

  // INIT is about to go out, and did or did not.
  predicate BeforeInit(r: RecvPc) {
    || r.RCount? || r.RInitLock? || r.RInitSend?
    || (r.RInitUnlock? && !r.sent) || (r.RInitState? && !r.sent)
  }

  predicate AfterInit(r: RecvPc) {
    (r.RInitUnlock? && r.sent) || (r.RInitState? && r.sent)
  }

  // Every buffer used is accounted for: one for each of the two commands of boot, and those
  // of the packets in the log. The state knows whether INIT went out.
  ghost predicate LedgerInv(s: Sys, c: Frames, used0: nat) {
    match c
    case Frames(_, _, _, _) =>
      && s.used == used0 + (if CommandOut(s.boot) then 1 else 0) + (if s.initOnAir then 1 else 0) + Needed(c, s.log)
      && (BeforeInit(s.recv) ==> !s.initOnAir) && (AfterInit(s.recv) ==> s.initOnAir)
      && (s.answered && !InitPhase(s.recv) ==> (s.initOnAir <==> s.state != SendInit))
  }

  predicate LedgerKept(s: Sys, s': Sys) {
    && s'.used == s.used && s'.log == s.log && SameBoot(s, s')
    && CommandOut(s'.boot) == CommandOut(s.boot) && s'.recv == s.recv
  }

  lemma SameLedger(s: Sys, s': Sys, c: Frames, used0: nat)
    requires LedgerInv(s, c, used0) && LedgerKept(s, s')
    ensures LedgerInv(s', c, used0)
  {
  }

  lemma BootLedger(s: Sys, c: Frames, ok: bool, used0: nat)
    requires BootInv(s) && LedgerInv(s, c, used0) && BootEnabled(s, ok)
    ensures LedgerInv(BootApply(s, ok), c, used0)
  {
  }

  lemma RecvLedger(s: Sys, c: Frames, packet: bool, w: Work, ok: bool, used0: nat)
    requires BootInv(s) && LedgerInv(s, c, used0) && RecvEnabled(s, w)
    ensures LedgerInv(RecvApply(s, packet, w, ok), c, used0)
  {
    var s' := RecvApply(s, packet, w, ok);
    if s.recv.RParse? {
      ParseShape(s, packet, w, ok);
      ParsedLedger(s, s', s'.recv, c, used0);
    } else if InitPhase(s.recv) {
      InitLedger(s, c, packet, w, ok, used0);
    } else if WithEvents(s.recv) {
      PacketLedger(s, c, packet, w, ok, used0);
    } else {
      RecvChanges(s, packet, w, ok);
      IdleLedger(s, s', c, used0);
    }
  }

  lemma ParsedLedger(s: Sys, s': Sys, r: RecvPc, c: Frames, used0: nat)
    requires BootInv(s) && LedgerInv(s, c, used0) && s.recv.RParse? && Parsed(s, s', r)
    ensures LedgerInv(s', c, used0)
  {
    var events := s.recv.w.events;
    if events != [] {
      assert events[0] in events;
    }
  }

  lemma InitLedger(s: Sys, c: Frames, packet: bool, w: Work, ok: bool, used0: nat)
    requires BootInv(s) && LedgerInv(s, c, used0) && RecvEnabled(s, w) && InitPhase(s.recv)
    ensures LedgerInv(RecvApply(s, packet, w, ok), c, used0)
  {
  }

  lemma PacketLedger(s: Sys, c: Frames, packet: bool, w: Work, ok: bool, used0: nat)
    requires LedgerInv(s, c, used0) && RecvEnabled(s, w) && (s.recv.RPacket? || s.recv.RPacketUnlock? || s.recv.RGive?)
    ensures LedgerInv(RecvApply(s, packet, w, ok), c, used0)
  {
  }

  lemma IdleLedger(s: Sys, s': Sys, c: Frames, used0: nat)
    requires LedgerInv(s, c, used0) && RecvOnly(s, s') && !WithEvents(s.recv)
    ensures LedgerInv(s', c, used0)
  {
  }

  lemma WifiLedger(s: Sys, c: Frames, ok: bool, token: U32, used0: nat)
    requires LedgerInv(s, c, used0) && WifiEnabled(s, ok, token)
    ensures LedgerInv(WifiApply(s, c, ok, token), c, used0)
  {
    var s' := WifiApply(s, c, ok, token);
    if s.wifi.WSend? {
      if ok {
        assert s'.log[..|s.log|] == s.log;
      }
    } else {
      WifiChanges(s, c, ok, token);
      SameLedger(s, s', c, used0);
    }
  }

  lemma StepLedger(s: Sys, c: Frames, a: Action, used0: nat)
    requires Inv(s, c) && LedgerInv(s, c, used0) && Enabled(s, a)
    ensures LedgerInv(Apply(s, c, a), c, used0)
  {
    match a
    case BootStep(ok) => BootLedger(s, c, ok, used0);
    case RecvStep(packet, w, ok) => RecvLedger(s, c, packet, w, ok, used0);
    case WifiStep(ok, token) => WifiLedger(s, c, ok, token, used0);
    case ProdStep(id) =>
      ProdLeaves(s, c, id);
      SameLedger(s, ProdApply(s, c, id), c, used0);
    case BtStep =>
      var s' := BtApply(s);
      assert s' == s.(sdio := s'.sdio, bt := s'.bt);
      SameLedger(s, s', c, used0);
    case _ => PlainLedger(s, c, a, used0);
  }

  lemma PlainLedger(s: Sys, c: Frames, a: Action, used0: nat)
    requires LedgerInv(s, c, used0) && Enabled(s, a)
    requires a.Grant? || a.Interrupt? || a.WifiStart? || a.BtStart? || a.Submit?
    ensures LedgerInv(Apply(s, c, a), c, used0)
  {
  }

  lemma {:induction false} RunLedger(c: Frames, run: seq<Sys>, acts: seq<Action>, i: nat)
    requires IsRun(c, run, acts) && i < |run|
    ensures LedgerInv(run[i], c, run[0].used)
  {
    if i > 0 {
      RunLedger(c, run, acts, i - 1);
      RunInv(c, run, acts, i - 1);
      StepLedger(run[i - 1], c, acts[i - 1], run[0].used);
    }
  }

  // The ledger of transmit buffers: what the host has used since the start is one buffer for
  // the boot command if it went out, one for INIT if it did, and what the packets of the
  // Wi-Fi task needed; nothing else is charged.
  lemma {:induction false} UsedExactly(c: Frames, run: seq<Sys>, acts: seq<Action>, i: nat)
    requires IsRun(c, run, acts) && i < |run|
    ensures run[i].used == run[0].used + (if CommandOut(run[i].boot) then 1 else 0)
                           + (if run[i].initOnAir then 1 else 0) + Needed(c, run[i].log)
  {
    RunLedger(c, run, acts, i);
  }

  // Once a TARGET_ON has been answered and dealt with, the state tells whether INIT went out.
  lemma StateTells(c: Frames, run: seq<Sys>, acts: seq<Action>, i: nat)
    requires IsRun(c, run, acts) && i < |run| && run[i].answered && !InitPhase(run[i].recv)
    ensures run[i].state == SendInit || run[i].state == WaitBootup || run[i].state == Run
    ensures run[i].initOnAir <==> run[i].state != SendInit
  {
    RunLedger(c, run, acts, i);
    RunInv(c, run, acts, i);
  }

  // One round of the check: what it reads is the credit at that moment, unless the read
  // fails or the credit has reached the range of the counter; and the packet is let through
  // exactly if it fits what was read.
  lemma CheckDecides(c: Frames, run: seq<Sys>, acts: seq<Action>, i: nat, eb: nat)
    requires IsRun(c, run, acts) && i < |acts| && acts[i].WifiStep?
    ensures run[i].wifi == WCheck(eb) && acts[i].ok && run[i].granted - run[i].used < TX_BUFFER_MAX ==>
              var w := run[i + 1].wifi;
              w.WCheckUnlock? && w.eb == eb && w.num == run[i].granted - run[i].used
    ensures run[i].wifi == WCheck(eb) && !acts[i].ok ==> run[i + 1].wifi == WCheckUnlock(eb, 0)
    ensures forall num: U32 :: run[i].wifi == WDecide(eb, num) ==>
              run[i + 1].wifi == if c.sendLen(eb) <= 512 * num then WNumber(eb) else WCheckLock(eb)
  {
    RunInv(c, run, acts, i);
    var s := run[i];
    assert run[i + 1] == Apply(s, c, acts[i]);
    if s.wifi == WCheck(eb) && acts[i].ok {
      CreditsExact(acts[i].token, s.totalTx, s.granted, s.used);
    } else if s.wifi.WDecide? {
      CheckPassesIff(s.wifi.num, c.sendLen(s.wifi.eb));
    }
  }

  // Only frames that fit the buffer they are built in are sent.
  lemma {:induction false} SentFit(c: Frames, run: seq<Sys>, acts: seq<Action>, i: nat)
    requires IsRun(c, run, acts) && i < |run|
    ensures forall k :: 0 <= k < |run[i].log| ==> c.sendLen(run[i].log[k].eb) <= c.bufSize
    ensures run[i].wifi == WAborted ==> run[i].lost != [] && c.sendLen(run[i].lost[|run[i].lost| - 1]) > c.bufSize
  {
    RunFits(c, run, acts, i);
  }

  // A frame on its way has passed the test of its length.
  ghost predicate FitInv(s: Sys, c: Frames) {
    match c
    case Frames(_, sendLen, _, bufSize) =>
      && (forall k :: 0 <= k < |s.log| ==> sendLen(s.log[k].eb) <= bufSize)
      && (Held(s.wifi) != [] && !s.wifi.WRemoveUnlock? && !s.wifi.WBuild? ==> sendLen(Held(s.wifi)[0]) <= bufSize)
      && (s.wifi == WAborted ==> s.lost != [] && sendLen(s.lost[|s.lost| - 1]) > bufSize)
  }

  lemma StepFits(s: Sys, c: Frames, a: Action)
    requires FitInv(s, c) && Enabled(s, a)
    ensures FitInv(Apply(s, c, a), c)
  {
    match a
    case WifiStep(ok, token) => WifiFits(s, c, ok, token);
    case BootStep(ok) => BootChanges(s, ok);
    case RecvStep(packet, w, ok) => RecvChanges(s, packet, w, ok);
    case BtStep =>
      var s' := BtApply(s);
      assert s' == s.(sdio := s'.sdio, bt := s'.bt);
    case ProdStep(id) =>
      ProdLeaves(s, c, id);
      ProdLost(s, c, id);
    case _ =>
  }

  lemma ProdLost(s: Sys, c: Frames, id: nat)
    requires ProdEnabled(s, id)
    ensures ProdApply(s, c, id).lost == s.lost
  {
  }

  lemma WifiFits(s: Sys, c: Frames, ok: bool, token: U32)
    requires FitInv(s, c) && WifiEnabled(s, ok, token)
    ensures FitInv(WifiApply(s, c, ok, token), c)
  {
    if MovesBuffer(s.wifi) {
      MovingFits(s, c, ok, token);
    } else if s.wifi.WSend? {
      SendingFits(s, c, ok, token);
    }
  }

  lemma MovingFits(s: Sys, c: Frames, ok: bool, token: U32)
    requires FitInv(s, c) && MovesBuffer(s.wifi)
    ensures FitInv(WifiApply(s, c, ok, token), c)
  {
  }

  lemma SendingFits(s: Sys, c: Frames, ok: bool, token: U32)
    requires FitInv(s, c) && s.wifi.WSend?
    ensures FitInv(WifiApply(s, c, ok, token), c)
  {
  }

  lemma {:induction false} RunFits(c: Frames, run: seq<Sys>, acts: seq<Action>, i: nat)
    requires IsRun(c, run, acts) && i < |run|
    ensures FitInv(run[i], c)
  {
    if i > 0 {
      RunFits(c, run, acts, i - 1);
      StepFits(run[i - 1], c, acts[i - 1]);
    }
  }
}
