/** Every mutex is released: its owner can always go on, and is out after a few steps of its own. */
module LinkRelease {
  import opened Words
  import opened LinkSystem
  import opened LinkSteps
  import opened LinkSafety
  import opened LinkTheorems

  // Whose step an action is.
  predicate By(a: Action, t: Task) {
    match a
    case BootStep(_) => t == BootTask
    case RecvStep(_, _, _) => t == RecvTask
    case WifiStep(_, _) => t == WifiTask
    case BtStep => t == BtTask
    case ProdStep(id) => t == Producer(id)
    case _ => false
  }

  // How many steps of its own a task takes until it has left the critical section it is in.
  function StepsLeft(s: Sys, t: Task): nat {
    match t
    case BootTask => if s.boot.BSend? then 2 else if s.boot.BUnlock? then 1 else 0
    case RecvTask =>
      if s.recv.RIntr? || s.recv.RPacket? || s.recv.RInitSend? || s.recv.RBt? || s.recv.RCredit? then 2
      else if InSdio(s, RecvTask) then 1 else 0
    case WifiTask =>
      if s.wifi.WRemove? then 3
      else if s.wifi.WClearBit? || s.wifi.WCheck? || s.wifi.WSend? then 2
      else if InSdio(s, WifiTask) || s.wifi.WRemoveUnlock? then 1 else 0
    case BtTask => if s.bt.TSend? then 2 else if s.bt.TUnlock? then 1 else 0
    case Producer(id) => if id in s.prods then ProdSteps(s.prods[id]) else 0
  }

  function ProdSteps(p: ProdPc): nat {
    if p.PInsert? then 3 else if p.PClear? || p.PSetBit? then 2 else if p.PClearUnlock? || p.PUnlock? then 1 else 0
  }

  lemma InsideHasSteps(s: Sys, t: Task)
    ensures StepsLeft(s, t) > 0 <==> InSdio(s, t) || InList(s, t)
    ensures StepsLeft(s, t) <= 3
  {
  }

  // A step the task can take whatever the card does; a transfer may always fail.
  function OwnStep(t: Task): Action {
    match t
    case BootTask => BootStep(false)
    case RecvTask => RecvStep(false, Work([], false, false), false)
    case WifiTask => WifiStep(false, 0)
    case BtTask => BtStep
    case Producer(id) => ProdStep(id)
  }

  lemma CanGoOn(s: Sys, t: Task)
    requires StepsLeft(s, t) > 0
    ensures By(OwnStep(t), t) && Enabled(s, OwnStep(t))
  {
  }

  lemma OwnStepsCount(s: Sys, c: Frames, a: Action, t: Task)
    requires Enabled(s, a) && By(a, t) && StepsLeft(s, t) > 0
    ensures StepsLeft(Apply(s, c, a), t) < StepsLeft(s, t)
  {
    match a
    case BootStep(_) =>
    case RecvStep(packet, w, ok) => RecvCounts(s, packet, w, ok);
    case WifiStep(ok, token) => WifiCounts(s, c, ok, token);
    case BtStep =>
    case ProdStep(_) =>
  }

  lemma RecvCounts(s: Sys, packet: bool, w: Work, ok: bool)
    requires RecvEnabled(s, w) && StepsLeft(s, RecvTask) > 0
    ensures StepsLeft(RecvApply(s, packet, w, ok), RecvTask) < StepsLeft(s, RecvTask)
  {
    if StepsLeft(s, RecvTask) == 2 {
      RecvWorks(s, packet, w, ok);
    } else {
      RecvLeaves(s, packet, w, ok);
    }
  }

  lemma RecvWorks(s: Sys, packet: bool, w: Work, ok: bool)
    requires RecvEnabled(s, w) && StepsLeft(s, RecvTask) == 2
    ensures StepsLeft(RecvApply(s, packet, w, ok), RecvTask) == 1
  {
  }

  lemma RecvLeaves(s: Sys, packet: bool, w: Work, ok: bool)
    requires RecvEnabled(s, w) && StepsLeft(s, RecvTask) == 1
    ensures StepsLeft(RecvApply(s, packet, w, ok), RecvTask) == 0
  {
  }

  lemma WifiCounts(s: Sys, c: Frames, ok: bool, token: U32)
    requires WifiEnabled(s, ok, token) && StepsLeft(s, WifiTask) > 0
    ensures StepsLeft(WifiApply(s, c, ok, token), WifiTask) < StepsLeft(s, WifiTask)
  {
  }

  lemma OthersDoNot(s: Sys, c: Frames, a: Action, t: Task)
    requires Enabled(s, a) && !By(a, t) && StepsLeft(s, t) > 0
    ensures StepsLeft(Apply(s, c, a), t) == StepsLeft(s, t)
  {
    match a
    case BootStep(ok) => BootDoesNot(s, ok, t);
    case RecvStep(packet, w, ok) => RecvDoesNot(s, packet, w, ok, t);
    case WifiStep(ok, token) => WifiDoesNot(s, c, ok, token, t);
    case ProdStep(id) => ProdDoesNot(s, c, id, t);
    case BtStep => SamePcs(s, BtApply(s), BtTask, t);
    case Submit(id, eb, clear, head) => SubmitKeeps(s, id, eb, clear, head, t);
    case _ => SmallSteps(s, c, a, t);
  }

  lemma BootDoesNot(s: Sys, ok: bool, t: Task)
    requires BootEnabled(s, ok) && t != BootTask
    ensures StepsLeft(BootApply(s, ok), t) == StepsLeft(s, t)
  {
    BootChanges(s, ok);
    SamePcs(s, BootApply(s, ok), BootTask, t);
  }

  lemma RecvDoesNot(s: Sys, packet: bool, w: Work, ok: bool, t: Task)
    requires RecvEnabled(s, w) && t != RecvTask
    ensures StepsLeft(RecvApply(s, packet, w, ok), t) == StepsLeft(s, t)
  {
    RecvChanges(s, packet, w, ok);
    SamePcs(s, RecvApply(s, packet, w, ok), RecvTask, t);
  }

  lemma WifiDoesNot(s: Sys, c: Frames, ok: bool, token: U32, t: Task)
    requires WifiEnabled(s, ok, token) && t != WifiTask
    ensures StepsLeft(WifiApply(s, c, ok, token), t) == StepsLeft(s, t)
  {
    WifiChanges(s, c, ok, token);
    SamePcs(s, WifiApply(s, c, ok, token), WifiTask, t);
  }

  lemma ProdDoesNot(s: Sys, c: Frames, id: nat, t: Task)
    requires ProdEnabled(s, id) && t != Producer(id)
    ensures StepsLeft(ProdApply(s, c, id), t) == StepsLeft(s, t)
  {
    ProdChanges(s, c, id);
  }

  lemma SubmitKeeps(s: Sys, id: nat, eb: nat, clear: bool, head: bool, t: Task)
    requires SubmitEnabled(s, id, eb) && StepsLeft(s, t) > 0
    ensures StepsLeft(SubmitApply(s, id, eb, clear, head), t) == StepsLeft(s, t)
  {
  }

  // `mover` went on; everyone else stands where it stood.
  lemma SamePcs(s: Sys, s': Sys, mover: Task, t: Task)
    requires mover != t && s'.prods == s.prods
    requires mover == BtTask || s'.bt == s.bt
    requires mover == BootTask || s'.boot == s.boot
    requires mover == RecvTask || s'.recv == s.recv
    requires mover == WifiTask || s'.wifi == s.wifi
    ensures StepsLeft(s', t) == StepsLeft(s, t)
  {
  }

  lemma SmallSteps(s: Sys, c: Frames, a: Action, t: Task)
    requires Enabled(s, a) && !By(a, t) && StepsLeft(s, t) > 0
    requires a.Grant? || a.Interrupt? || a.WifiStart? || a.BtStart?
    ensures StepsLeft(Apply(s, c, a), t) == StepsLeft(s, t)
  {
  }

  lemma ProdChanges(s: Sys, c: Frames, id: nat)
    requires ProdEnabled(s, id)
    ensures var s' := ProdApply(s, c, id);
            && s'.boot == s.boot && s'.recv == s.recv && s'.wifi == s.wifi && s'.bt == s.bt
            && forall j :: j != id ==> (j in s'.prods <==> j in s.prods) && (j in s.prods ==> s'.prods[j] == s.prods[j])
  {
  }

  // In every reachable state the owner of a mutex has a step it can take, at most three
  // steps of its own remain, each of them brings it nearer to the release, and no step of
  // anyone else sets it back.
  lemma OwnersRelease(c: Frames, run: seq<Sys>, acts: seq<Action>, i: nat, t: Task)
    requires IsRun(c, run, acts) && i < |run| && (run[i].sdio == Some(t) || run[i].list == Some(t))
    ensures 0 < StepsLeft(run[i], t) <= 3
    ensures By(OwnStep(t), t) && Enabled(run[i], OwnStep(t))
    ensures forall a: Action :: Enabled(run[i], a) && By(a, t) ==>
            StepsLeft(Apply(run[i], c, a), t) < StepsLeft(run[i], t)
    ensures forall a: Action :: Enabled(run[i], a) && !By(a, t) ==>
            StepsLeft(Apply(run[i], c, a), t) == StepsLeft(run[i], t)
  {
    RunInv(c, run, acts, i);
    Ownership(run[i], t);
    InsideHasSteps(run[i], t);
    CanGoOn(run[i], t);
    forall a: Action | Enabled(run[i], a)
      ensures By(a, t) ==> StepsLeft(Apply(run[i], c, a), t) < StepsLeft(run[i], t)
      ensures !By(a, t) ==> StepsLeft(Apply(run[i], c, a), t) == StepsLeft(run[i], t)
    {
      if By(a, t) {
        OwnStepsCount(run[i], c, a, t);
      } else {
        OthersDoNot(run[i], c, a, t);
      }
    }
  }

  // In every reachable state a task that has no steps left owns neither mutex.
  lemma OutOwnsNothing(c: Frames, run: seq<Sys>, acts: seq<Action>, i: nat, t: Task)
    requires IsRun(c, run, acts) && i < |run| && StepsLeft(run[i], t) == 0
    ensures run[i].sdio != Some(t) && run[i].list != Some(t)
  {
    RunInv(c, run, acts, i);
    Ownership(run[i], t);
    InsideHasSteps(run[i], t);
  }
}
