/** What the invariants mean for every run of the system. */
module LinkTheorems {
  import opened Words
  import opened SdioCounters
  import opened SipLayer
  import opened LinkSystem
  import opened LinkSteps
  import opened LinkSafety

  // Credit safety: whatever the interleaving, a packet of the Wi-Fi task fits the 512-byte
  // buffers that are granted and not used before it, although the mutex is free between the
  // check and the send.
  lemma CreditSafety(c: Frames, run: seq<Sys>, acts: seq<Action>, i: nat)
    requires IsRun(c, run, acts) && i < |run|
    ensures forall k :: 0 <= k < |run[i].log| ==>
                          var p := run[i].log[k];
                          c.sendLen(p.eb) <= 512 * (p.granted - p.usedBefore) && p.usedAfter <= p.granted
    ensures run[i].wifi != WOff ==> run[i].used <= run[i].granted
    ensures run[i].wifi.WSend? ==>
              && c.sendLen(run[i].wifi.eb) <= 512 * (run[i].granted - run[i].used)
              && run[i].used + BuffersFor(c.sendLen(run[i].wifi.eb)) <= run[i].granted
    ensures run[i].totalTx % TX_BUFFER_MAX == run[i].used % TX_BUFFER_MAX
  {
    RunInv(c, run, acts, i);
  }

  // Numbering: INIT is sent at most once and before any Wi-Fi packet, and the packets of
  // the Wi-Fi task carry 1, 2, 3, ... without gap or repeat.
  lemma GaplessNumbers(c: Frames, run: seq<Sys>, acts: seq<Action>, i: nat)
    requires IsRun(c, run, acts) && i < |run|
    ensures run[i].inits <= 1
    ensures run[i].wifi != WOff ==> run[i].initOnAir
    ensures forall k :: 0 <= k < |run[i].log| ==> run[i].log[k].number == Wrap32(1 + k)
  {
    RunInv(c, run, acts, i);
  }

  // Which task an action lets touch the card.
  function TransferBy(s: Sys, a: Action): Opt<Task> {
    match a
    case BootStep(_) => if s.boot.BSend? then Some(BootTask) else None
    case RecvStep(_, _, _) =>
      if s.recv.RIntr? || s.recv.RPacket? || s.recv.RInitSend? || s.recv.RBt? || s.recv.RCredit?
      then Some(RecvTask) else None
    case WifiStep(_, _) => if s.wifi.WCheck? || s.wifi.WSend? then Some(WifiTask) else None
    case BtStep => if s.bt.TSend? then Some(BtTask) else None
    case _ => None
  }

  // Which tasks are about to take the SDIO mutex.
  predicate Requests(s: Sys, t: Task) {
    match t
    case BootTask => s.boot.BLock?
    case RecvTask =>
      || s.recv.RIntrLock? || s.recv.RPacketLock? || s.recv.RInitLock? || s.recv.RBtLock? || s.recv.RCreditLock?
    case WifiTask => s.wifi.WCheckLock? || s.wifi.WSendLock?
    case BtTask => s.bt.TLock?
    case Producer(_) => false
  }

  // Lock discipline: every transfer happens under the SDIO mutex, no task asks for it
  // while holding it, the receive path that answers TARGET_ON included, each mutex is owned
  // by exactly the task inside its critical section, and nobody owns both.
  lemma LockDiscipline(c: Frames, run: seq<Sys>, acts: seq<Action>, i: nat)
    requires IsRun(c, run, acts) && i < |run|
    ensures i < |acts| && TransferBy(run[i], acts[i]).Some? ==> run[i].sdio == TransferBy(run[i], acts[i])
    ensures forall t: Task :: Requests(run[i], t) ==> run[i].sdio != Some(t)
    ensures forall t: Task :: InSdio(run[i], t) <==> run[i].sdio == Some(t)
    ensures forall t: Task :: InList(run[i], t) <==> run[i].list == Some(t)
    ensures forall t: Task :: !(run[i].sdio == Some(t) && run[i].list == Some(t))
  {
    RunInv(c, run, acts, i);
    forall t: Task
      ensures Requests(run[i], t) ==> run[i].sdio != Some(t)
      ensures InSdio(run[i], t) <==> run[i].sdio == Some(t)
      ensures InList(run[i], t) <==> run[i].list == Some(t)
      ensures !(run[i].sdio == Some(t) && run[i].list == Some(t))
    {
      Ownership(run[i], t);
    }
  }

  lemma Ownership(s: Sys, t: Task)
    requires SdioInv(s) && ListInv(s)
    ensures Requests(s, t) ==> s.sdio != Some(t)
    ensures InSdio(s, t) <==> s.sdio == Some(t)
    ensures InList(s, t) <==> s.list == Some(t)
    ensures !(s.sdio == Some(t) && s.list == Some(t))
  {
    match t
    case BootTask =>
    case RecvTask =>
    case WifiTask =>
    case BtTask =>
    case Producer(id) =>
  }

  // Conservation: every inserted buffer is in exactly one place, once, nothing else is in
  // any of them, and a buffer is lost only when the send task has stopped.
  lemma BufferConservation(c: Frames, run: seq<Sys>, acts: seq<Action>, i: nat, eb: nat)
    requires IsRun(c, run, acts) && i < |run|
    ensures Places(run[i])[eb] == if eb in run[i].inserted then 1 else 0
    ensures run[i].lost != [] ==> run[i].wifi == WHalted || run[i].wifi == WAborted
  {
    RunInv(c, run, acts, i);
  }

  // No lost wakeup: while nobody is inside the list lock, a non-empty queue has its bit
  // set, so the send task can only wait on an empty queue.
  lemma NoLostWakeup(c: Frames, run: seq<Sys>, acts: seq<Action>, i: nat)
    requires IsRun(c, run, acts) && i < |run|
    ensures run[i].list == None && run[i].queue != [] ==> run[i].needSend
    ensures run[i].list == None && run[i].wifi == WWait && !run[i].needSend ==> run[i].queue == []
  {
    RunInv(c, run, acts, i);
  }

  // The boot semaphore is missing when it is given exactly if the boot task has set the
  // state but not created it yet, or has given up waiting and deleted it.
  lemma GiveFailsIff(c: Frames, run: seq<Sys>, acts: seq<Action>, i: nat)
    requires IsRun(c, run, acts) && i < |acts| && acts[i].RecvStep? && run[i].recv.RGive?
    ensures run[i + 1].badGives > run[i].badGives <==> run[i].boot.BCreateSem? || run[i].boot.BDone?
  {
    RunInv(c, run, acts, i);
    SemMissing(run[i]);
    assert run[i + 1] == Apply(run[i], c, acts[i]);
  }

  lemma SemMissing(s: Sys)
    requires BootInv(s) && s.recv.RGive?
    ensures s.bootSem.Live? <==> !(s.boot.BCreateSem? || s.boot.BDone?)
  {
    if s.boot.BDelete? {
      assert s.boot == BDelete(s.boot.end);
      match s.boot.end
      case Booted =>
      case TimedOut =>
      case NotSent =>
    }
  }

  // A give ends the wait of the boot task: it can go on at once, and still can until it does.
  lemma GiveEndsWait(c: Frames, run: seq<Sys>, acts: seq<Action>, i: nat)
    requires IsRun(c, run, acts) && i < |acts| && run[i].boot.BWait?
    ensures acts[i].RecvStep? && run[i].recv.RGive? ==> BootEnabled(run[i + 1], true)
    ensures BootEnabled(run[i], true) && !acts[i].BootStep? ==> BootEnabled(run[i + 1], true)
  {
    RunInv(c, run, acts, i);
    assert run[i + 1] == Apply(run[i], c, acts[i]);
    WaitEnds(run[i], c, acts[i]);
  }

  lemma WaitEnds(s: Sys, c: Frames, a: Action)
    requires BootInv(s) && Enabled(s, a) && s.boot.BWait?
    ensures a.RecvStep? && s.recv.RGive? ==> BootEnabled(Apply(s, c, a), true)
    ensures BootEnabled(s, true) && !a.BootStep? ==> BootEnabled(Apply(s, c, a), true)
  {
    match a
    case RecvStep(packet, w, ok) =>
      RecvChanges(s, packet, w, ok);
      SemKept(s, packet, w, ok);
    case WifiStep(ok, token) => WifiChanges(s, c, ok, token);
    case ProdStep(id) => ProdLeaves(s, c, id);
    case _ =>
  }

  lemma SemKept(s: Sys, packet: bool, w: Work, ok: bool)
    requires RecvEnabled(s, w) && s.bootSem.Live?
    ensures RecvApply(s, packet, w, ok).bootSem == if s.recv.RGive? then Live(1) else s.bootSem
  {
    if s.recv.RParse? {
      ParseShape(s, packet, w, ok);
    } else if InitPhase(s.recv) {
      InitKeepsSem(s, packet, w, ok);
    } else {
      RecvChanges(s, packet, w, ok);
    }
  }

  lemma InitKeepsSem(s: Sys, packet: bool, w: Work, ok: bool)
    requires RecvEnabled(s, w) && InitPhase(s.recv)
    ensures RecvApply(s, packet, w, ok).bootSem == s.bootSem
  {
  }

  // The boot task deletes a semaphore that was never created exactly if the boot command
  // could not be sent.
  lemma DeleteFailsIff(c: Frames, run: seq<Sys>, acts: seq<Action>, i: nat)
    requires IsRun(c, run, acts) && i < |acts| && acts[i].BootStep? && run[i].boot.BDelete?
    ensures run[i + 1].badDeletes > run[i].badDeletes <==> run[i].boot.end == NotSent
  {
    RunInv(c, run, acts, i);
    var s := run[i];
    assert s.boot == BDelete(s.boot.end);
    assert run[i + 1] == Apply(s, c, acts[i]);
  }

  // A report that the target is on is answered if and only if the boot task has set the
  // state and no report has been answered before; earlier ones are ignored.
  lemma AnsweredIff(c: Frames, run: seq<Sys>, acts: seq<Action>, i: nat)
    requires IsRun(c, run, acts) && i < |acts| && acts[i].RecvStep? && run[i].recv.RParse?
    requires run[i].recv.w.events != [] && run[i].recv.w.events[0] == TargetOn
    ensures run[i + 1].recv.RCount? <==> !run[i].answered && !BeforePrepare(run[i].boot) && !NeverSent(run[i].boot)
    ensures run[i + 1].answered <==> run[i].answered || run[i + 1].recv.RCount?
  {
    RunInv(c, run, acts, i);
  }

  // ----- runs in which the target is too fast for the boot task

  lemma Extend(c: Frames, run: seq<Sys>, acts: seq<Action>, a: Action) returns (run': seq<Sys>, acts': seq<Action>)
    requires IsRun(c, run, acts) && Enabled(run[|acts|], a)
    ensures IsRun(c, run', acts') && |acts'| == |acts| + 1 && run'[..|run|] == run
    ensures run'[0] == run[0] && run'[|acts'|] == Apply(run[|acts|], c, a)
  {
    var s' := Apply(run[|acts|], c, a);
    run', acts' := run + [s'], acts + [a];
    forall i | 0 <= i < |acts'|
      ensures Enabled(run'[i], acts'[i]) && run'[i + 1] == Apply(run'[i], c, acts'[i])
    {
      if i < |acts| {
        assert run'[i] == run[i] && run'[i + 1] == run[i + 1] && acts'[i] == acts[i];
      } else {
        assert run'[i] == run[i] && run'[i + 1] == s' && acts'[i] == a;
      }
    }
  }

  // One receive step with the choices given.
  lemma Recv(c: Frames, run: seq<Sys>, acts: seq<Action>, packet: bool, w: Work)
    returns (run': seq<Sys>, acts': seq<Action>)
    requires IsRun(c, run, acts) && RecvEnabled(run[|acts|], w)
    ensures IsRun(c, run', acts') && |acts'| == |acts| + 1 && run'[0] == run[0]
    ensures run'[|acts'|] == RecvApply(run[|acts|], packet, w, true)
  {
    run', acts' := Extend(c, run, acts, RecvStep(packet, w, true));
  }

  // An interrupt, and a read that brings one event.
  lemma ReadEvent(c: Frames, run: seq<Sys>, acts: seq<Action>, e: Event) returns (run': seq<Sys>, acts': seq<Action>)
    requires IsRun(c, run, acts)
    requires var s := run[|acts|]; s.recv == RIdle && s.sdio == None && (e == Bootup ==> s.initOnAir)
    ensures IsRun(c, run', acts') && run'[0] == run[0]
    ensures run'[|acts'|] == run[|acts|].(recv := RParse(Work([e], false, false)))
  {
    var s, none, one := run[|acts|], Work([], false, false), Work([e], false, false);
    run', acts' := Extend(c, run, acts, Interrupt);
    run', acts' := Recv(c, run', acts', false, none);
    assert run'[|acts'|] == s.(sdio := Some(RecvTask), recv := RIntr);
    run', acts' := Recv(c, run', acts', true, none);
    run', acts' := Recv(c, run', acts', true, none);
    assert run'[|acts'|] == s.(recv := RPacketLock(none));
    run', acts' := Recv(c, run', acts', false, none);
    assert run'[|acts'|] == s.(sdio := Some(RecvTask), recv := RPacket(none));
    run', acts' := Recv(c, run', acts', false, one);
    run', acts' := Recv(c, run', acts', false, none);
  }

  // The answer to TARGET_ON, up to INIT reaching the target.
  lemma SendInitCmd(c: Frames, run: seq<Sys>, acts: seq<Action>) returns (run': seq<Sys>, acts': seq<Action>)
    requires IsRun(c, run, acts)
    requires var s := run[|acts|];
             s.recv == RParse(Work([TargetOn], false, false)) && s.sdio == None && s.state == PrepareBoot
    ensures IsRun(c, run', acts') && run'[0] == run[0]
    ensures var s, s' := run[|acts|], run'[|acts'|];
            && s'.recv == RInitUnlock(Work([], false, false), true) && s'.initOnAir
            && s'.boot == s.boot && s'.bootSem == s.bootSem && s'.badGives == s.badGives
  {
    var s, none := run[|acts|], Work([], false, false);
    assert [TargetOn][1..] == [];
    run', acts' := Recv(c, run, acts, false, none);
    assert run'[|acts'|] == s.(state := SendInit, answered := true, recv := RCount(none));
    run', acts' := Recv(c, run', acts', false, none);
    run', acts' := Recv(c, run', acts', false, none);
    var t := run'[|acts'|];
    assert t.recv == RInitSend(none) && t.boot == s.boot && t.bootSem == s.bootSem && t.badGives == s.badGives;
    run', acts' := Recv(c, run', acts', false, none);
  }

  // The whole answer, up to the end of the batch.
  lemma AnswerTargetOn(c: Frames, run: seq<Sys>, acts: seq<Action>) returns (run': seq<Sys>, acts': seq<Action>)
    requires IsRun(c, run, acts)
    requires var s := run[|acts|];
             s.recv == RParse(Work([TargetOn], false, false)) && s.sdio == None && s.state == PrepareBoot
    ensures IsRun(c, run', acts') && run'[0] == run[0]
    ensures var s, s' := run[|acts|], run'[|acts'|];
            && s'.recv == RIdle && s'.sdio == None && s'.initOnAir && s'.state == WaitBootup
            && s'.boot == s.boot && s'.bootSem == s.bootSem && s'.badGives == s.badGives
  {
    var none := Work([], false, false);
    run', acts' := SendInitCmd(c, run, acts);
    run', acts' := Recv(c, run', acts', false, none);
    run', acts' := Recv(c, run', acts', false, none);
    run', acts' := Recv(c, run', acts', false, none);
  }

  // The boot task up to the point where the command is out and the state is not set.
  lemma BootUpToSend(c: Frames, s0: Sys) returns (run: seq<Sys>, acts: seq<Action>)
    requires Initial(s0)
    ensures IsRun(c, run, acts) && run[0] == s0
    ensures var s := run[|acts|];
            && s.boot == BSetState && s.bootSem == NotCreated && s.state == SipState.Init && !s.answered
            && s.recv == RIdle && s.sdio == None && s.badGives == 0
  {
    run, acts := [s0], [];
    run, acts := Extend(c, run, acts, BootStep(true));
    run, acts := Extend(c, run, acts, BootStep(true));
    assert run[|acts|] == s0.(txseq := 0, sdio := Some(BootTask), boot := BSend);
    run, acts := Extend(c, run, acts, BootStep(true));
    run, acts := Extend(c, run, acts, BootStep(true));
  }

  // The boot task waits for nothing: the semaphore is empty, so only the timeout is left.
  lemma WaitInVain(c: Frames, run: seq<Sys>, acts: seq<Action>) returns (run': seq<Sys>, acts': seq<Action>)
    requires IsRun(c, run, acts)
    requires run[|acts|].boot == BCreateSem
    ensures IsRun(c, run', acts') && run'[0] == run[0] && |acts'| == |acts| + 3
    ensures run'[|acts| + 1].boot == BWait && !BootEnabled(run'[|acts| + 1], true)
    ensures var s, s' := run[|acts|], run'[|acts'|];
            && s'.boot == BDone(TimedOut) && s'.bootSem == Deleted
            && s'.state == s.state && s'.answered == s.answered && s'.badGives == s.badGives && s'.recv == s.recv
  {
    var n := |acts| + 1;
    var r1, a1 := Extend(c, run, acts, BootStep(true));
    var r2, a2 := Extend(c, r1, a1, BootStep(false));
    run', acts' := Extend(c, r2, a2, BootStep(true));
    assert run'[n] == run'[..|r2|][n] == r2[n] == r2[..|r1|][n] == r1[n];
  }

  // A target that reports being on before the state is set is not answered: no INIT is
  // ever sent, and boot times out.
  lemma LostTargetOn(c: Frames, s0: Sys) returns (run: seq<Sys>, acts: seq<Action>)
    requires Initial(s0)
    ensures IsRun(c, run, acts) && run[0] == s0
    ensures run[|acts|].boot == BDone(TimedOut) && run[|acts|].state == PrepareBoot && !run[|acts|].answered
  {
    run, acts := BootUpToSend(c, s0);
    run, acts := ReadEvent(c, run, acts, TargetOn);
    var s, none := run[|acts|], Work([], false, false);
    assert [TargetOn][1..] == [];
    run, acts := Recv(c, run, acts, false, none);
    assert run[|acts|] == s.(recv := RParse(none));
    run, acts := Recv(c, run, acts, false, none);
    run, acts := Extend(c, run, acts, BootStep(true));
    run, acts := WaitInVain(c, run, acts);
  }

  // A target that is fast enough reports bootup before the boot task has created the
  // semaphore it waits on; the report is lost, and boot times out although the state is Run.
  lemma EarlyBootup(c: Frames, s0: Sys) returns (run: seq<Sys>, acts: seq<Action>)
    requires Initial(s0)
    ensures IsRun(c, run, acts) && run[0] == s0
    ensures run[|acts|].badGives == 1 && run[|acts|].boot == BDone(TimedOut) && run[|acts|].state == Run
  {
    run, acts := BootUpToSend(c, s0);
    run, acts := Extend(c, run, acts, BootStep(true));
    run, acts := ReadEvent(c, run, acts, TargetOn);
    run, acts := AnswerTargetOn(c, run, acts);
    run, acts := ReadEvent(c, run, acts, Bootup);
    var none := Work([], false, false);
    run, acts := Recv(c, run, acts, false, none);
    run, acts := Recv(c, run, acts, false, none);
    run, acts := WaitInVain(c, run, acts);
  }
}
