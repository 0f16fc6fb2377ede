/**
 The Bluetooth send gate: a one-slot semaphore the target refills, a bounded queue, and
 a task that spends one token per message it takes, whether or not a packet comes of it.
 */
module BluetoothGate {
  import opened Words
  import opened Partition

  const QUEUE_LEN := 25

  /** A queued message; `hasData` says whether its buffer pointer is set. */
  datatype Msg = Msg(hasData: bool, payload: seq<Byte>)

  /** `mallocOk` says whether there was memory for the packet. */
  datatype Handled = Handled(msg: Msg, mallocOk: bool, sent: bool)

  // A message becomes a packet if it carries data and there is memory for one.
  predicate Sends(m: Msg, mallocOk: bool) {
    m.hasData && m.payload != [] && mallocOk
  }

  /** A packet handed to the SDIO layer. */
  datatype Submitted = Submitted(seqno: U32, payload: seq<Byte>)

  datatype Pc = TakeToken | TakeMessage | Prepare(msg: Msg) | Submit(msg: Msg, seqno: U32)

  datatype Gate = Gate(
    sem: nat,                    // 0 or 1
    queue: seq<Msg>, pc: Pc, txSeq: U32,
    accepted: nat,               // gives that found the slot empty
    wasted: nat,                 // tokens spent without a message
    arrived: seq<Msg>,           // messages the queue has accepted
    handled: seq<Handled>,       // messages the task is done with
    submitted: seq<Submitted>)

  datatype Action =
    | Give                       // the target signals a free buffer
    | Arrive(msg: Msg)           // bt_send_data; a full queue drops the message
    | Take
    | Receive(ok: bool)
    | Build(mallocOk: bool)
    | Send                       // its result is only logged

  predicate Initial(g: Gate) {
    && g.sem == 1 && g.queue == [] && g.pc == TakeToken && g.txSeq == 0
    && g.accepted == 0 && g.wasted == 0 && g.arrived == [] && g.handled == [] && g.submitted == []
  }

  predicate Enabled(g: Gate, a: Action) {
    match a
    case Give => true
    case Arrive(_) => true
    case Take => g.pc == TakeToken && g.sem > 0
    case Receive(ok) => g.pc == TakeMessage && (ok ==> g.queue != [])
    case Build(_) => g.pc.Prepare?
    case Send => g.pc.Submit?
  }

  function Apply(g: Gate, a: Action): Gate
    requires Enabled(g, a)
  {
    match a
    case Give => if g.sem < 1 then g.(sem := g.sem + 1, accepted := g.accepted + 1) else g
    case Arrive(m) => if |g.queue| < QUEUE_LEN then g.(queue := g.queue + [m], arrived := g.arrived + [m]) else g
    case Take => g.(sem := g.sem - 1, pc := TakeMessage)
    case Receive(ok) =>
      if ok then g.(queue := g.queue[1..], pc := Prepare(g.queue[0]))
      else g.(wasted := g.wasted + 1, pc := TakeToken)
    case Build(mallocOk) =>
      if Sends(g.pc.msg, mallocOk)
      then g.(txSeq := Wrap32(g.txSeq + 1), pc := Submit(g.pc.msg, g.txSeq))
      else g.(handled := g.handled + [Handled(g.pc.msg, mallocOk, false)], pc := TakeToken)
    case Send =>
      g.(handled := g.handled + [Handled(g.pc.msg, true, true)],
         submitted := g.submitted + [Submitted(g.pc.seqno, g.pc.msg.payload)], pc := TakeToken)
  }

  function HeldTokens(g: Gate): nat {
    if g.pc == TakeToken then 0 else 1
  }

  function InHand(g: Gate): seq<Msg> {
    match g.pc
    case Prepare(m) => [m]
    case Submit(m, _) => [m]
    case _ => []
  }

  function NotSent(): Handled -> bool {
    (h: Handled) => !h.sent
  }

  function Messages(hs: seq<Handled>): (ms: seq<Msg>)
    ensures |ms| == |hs|
  {
    if hs == [] then [] else Messages(hs[..|hs| - 1]) + [hs[|hs| - 1].msg]
  }

  // Tokens: the slot, the one in hand, and every one spent, on a packet or not.
  ghost predicate TokenInv(g: Gate) {
    && g.sem <= 1
    && g.sem + HeldTokens(g) + |g.handled| + g.wasted == 1 + g.accepted
  }

  // Messages: done, in hand, or queued, in the order of arrival.
  ghost predicate OrderInv(g: Gate) {
    g.arrived == Messages(g.handled) + InHand(g) + g.queue && |g.queue| <= QUEUE_LEN
  }

  // Packets: exactly the messages that were sent, in that order, numbered from 0.
  ghost predicate PacketInv(g: Gate) {
    && SamePayloads(g.submitted, Keep(NotSent(), g.handled))
    && (forall i :: 0 <= i < |g.submitted| ==> g.submitted[i].seqno == Wrap32(i))
    && g.txSeq == Wrap32(|g.submitted| + if g.pc.Submit? then 1 else 0)
    && (g.pc.Submit? ==> g.pc.seqno == Wrap32(|g.submitted|))
  }

  // Which messages become packets.
  ghost predicate DropInv(g: Gate) {
    && (forall i :: 0 <= i < |g.handled| ==> g.handled[i].sent == Sends(g.handled[i].msg, g.handled[i].mallocOk))
    && (g.pc.Submit? ==> Sends(g.pc.msg, true))
  }

  ghost predicate SamePayloads(ps: seq<Submitted>, hs: seq<Handled>) {
    |ps| == |hs| && forall i :: 0 <= i < |ps| ==> ps[i].payload == hs[i].msg.payload
  }

  ghost predicate Inv(g: Gate) {
    TokenInv(g) && OrderInv(g) && PacketInv(g) && DropInv(g)
  }

  lemma TokenStep(g: Gate, a: Action)
    requires TokenInv(g) && Enabled(g, a)
    ensures TokenInv(Apply(g, a))
  {
  }

  lemma DropStep(g: Gate, a: Action)
    requires DropInv(g) && Enabled(g, a)
    ensures DropInv(Apply(g, a))
  {
  }

  lemma {:induction false} MessagesSnoc(hs: seq<Handled>, h: Handled)
    ensures Messages(hs + [h]) == Messages(hs) + [h.msg]
  {
    assert (hs + [h])[..|hs|] == hs;
  }

  lemma OrderStep(g: Gate, a: Action)
    requires OrderInv(g) && Enabled(g, a)
    ensures OrderInv(Apply(g, a))
  {
    var g' := Apply(g, a);
    if g'.handled != g.handled {
      FinishOrder(g, g', g'.handled[|g.handled|]);
    } else if g'.queue != g.queue && a.Arrive? {
      ArriveOrder(g, g', a.msg);
    } else if g'.queue != g.queue {
      HandOrder(g, g');
    } else {
      assert InHand(g') == InHand(g);
    }
  }

  lemma FinishOrder(g: Gate, g': Gate, h: Handled)
    requires OrderInv(g) && (g.pc.Prepare? || g.pc.Submit?) && h.msg == g.pc.msg
    requires g'.handled == g.handled + [h] && g'.pc == TakeToken
    requires g'.arrived == g.arrived && g'.queue == g.queue
    ensures OrderInv(g')
  {
    MessagesSnoc(g.handled, h);
  }

  lemma ArriveOrder(g: Gate, g': Gate, m: Msg)
    requires OrderInv(g) && |g.queue| < QUEUE_LEN
    requires g'.arrived == g.arrived + [m] && g'.queue == g.queue + [m]
    requires g'.handled == g.handled && g'.pc == g.pc
    ensures OrderInv(g')
  {
  }

  lemma HandOrder(g: Gate, g': Gate)
    requires OrderInv(g) && g.queue != [] && InHand(g) == []
    requires g'.queue == g.queue[1..] && g'.pc == Prepare(g.queue[0])
    requires g'.handled == g.handled && g'.arrived == g.arrived
    ensures OrderInv(g')
  {
    assert g.queue == [g.queue[0]] + g.queue[1..];
  }

  lemma PacketStep(g: Gate, a: Action)
    requires PacketInv(g) && Enabled(g, a)
    ensures PacketInv(Apply(g, a))
  {
    if a.Build? {
      BuildPacketStep(g, a.mallocOk);
    } else if a.Send? {
      SendPacketStep(g);
    } else {
      OtherKeepsPackets(g, a);
    }
  }

  lemma OtherKeepsPackets(g: Gate, a: Action)
    requires PacketInv(g) && Enabled(g, a) && !a.Build? && !a.Send?
    ensures PacketInv(Apply(g, a))
  {
    var g' := Apply(g, a);
    assert g'.submitted == g.submitted && g'.handled == g.handled && g'.txSeq == g.txSeq;
    assert g'.pc.Submit? == g.pc.Submit? && (g.pc.Submit? ==> g'.pc == g.pc);
  }

  lemma BuildPacketStep(g: Gate, mallocOk: bool)
    requires PacketInv(g) && g.pc.Prepare?
    ensures PacketInv(Apply(g, Build(mallocOk)))
  {
    if Sends(g.pc.msg, mallocOk) {
      WrapAdds(|g.submitted|, 1);
    } else {
      KeepSnoc(NotSent(), g.handled, Handled(g.pc.msg, mallocOk, false));
    }
  }

  lemma SendPacketStep(g: Gate)
    requires PacketInv(g) && g.pc.Submit?
    ensures PacketInv(Apply(g, Send))
  {
    var h := Handled(g.pc.msg, true, true);
    KeepSnoc(NotSent(), g.handled, h);
    var g' := Apply(g, Send);
    assert Keep(NotSent(), g'.handled) == Keep(NotSent(), g.handled) + [h];
  }

  ghost predicate IsRun(run: seq<Gate>, acts: seq<Action>) {
    && |run| == |acts| + 1 && Initial(run[0])
    && forall i :: 0 <= i < |acts| ==> Enabled(run[i], acts[i]) && run[i + 1] == Apply(run[i], acts[i])
  }

  lemma {:induction false} RunInv(run: seq<Gate>, acts: seq<Action>, i: nat)
    requires IsRun(run, acts) && i < |run|
    ensures Inv(run[i])
  {
    if i > 0 {
      RunInv(run, acts, i - 1);
      TokenStep(run[i - 1], acts[i - 1]);
      OrderStep(run[i - 1], acts[i - 1]);
      PacketStep(run[i - 1], acts[i - 1]);
      DropStep(run[i - 1], acts[i - 1]);
    }
  }

  // The gives that found the slot empty, among the first `i` actions.
  function GivesTaken(run: seq<Gate>, acts: seq<Action>, i: nat): nat
    requires i <= |acts| && i < |run|
  {
    if i == 0 then 0
    else GivesTaken(run, acts, i - 1) + if acts[i - 1].Give? && run[i - 1].sem == 0 then 1 else 0
  }

  // The messages that found room in the queue, in the order of their arrival.
  function Offered(run: seq<Gate>, acts: seq<Action>, i: nat): seq<Msg>
    requires i <= |acts| && i < |run|
  {
    if i == 0 then []
    else Offered(run, acts, i - 1) +
         if acts[i - 1].Arrive? && |run[i - 1].queue| < QUEUE_LEN then [acts[i - 1].msg] else []
  }

  // The counts are those of the target's gives and of the messages offered: a give is lost
  // exactly when the slot is full, a message exactly when the queue is.
  lemma {:induction false} CountsAreTrue(run: seq<Gate>, acts: seq<Action>, i: nat)
    requires IsRun(run, acts) && i < |run|
    ensures run[i].accepted == GivesTaken(run, acts, i)
    ensures run[i].arrived == Offered(run, acts, i)
  {
    if i > 0 {
      CountsAreTrue(run, acts, i - 1);
      RunInv(run, acts, i - 1);
      CountsStep(run[i - 1], acts[i - 1], run[i]);
    }
  }

  lemma CountsStep(g: Gate, a: Action, g': Gate)
    requires g.sem <= 1 && Enabled(g, a) && g' == Apply(g, a)
    ensures g'.accepted == g.accepted + if a.Give? && g.sem == 0 then 1 else 0
    ensures g'.arrived == g.arrived + if a.Arrive? && |g.queue| < QUEUE_LEN then [a.msg] else []
  {
  }

  // In every run the tokens balance, so the packets never exceed one plus the gives that
  // were accepted.
  lemma TokensBalance(run: seq<Gate>, acts: seq<Action>, i: nat)
    requires IsRun(run, acts) && i < |run|
    ensures var g := run[i];
            && g.sem + HeldTokens(g) + |g.submitted| + |Dropped(NotSent(), g.handled)| + g.wasted == 1 + g.accepted
            && |g.submitted| <= 1 + g.accepted
  {
    RunInv(run, acts, i);
    PartsAddUp(NotSent(), run[i].handled);
  }

  // In every run the packets are the messages that were not dropped, in the order the
  // queue accepted them, numbered 0, 1, 2, ...: the k-th is the message that k of those
  // sent came before. Dropped is what has no data or finds no memory.
  lemma PacketsInOrder(run: seq<Gate>, acts: seq<Action>, i: nat)
    requires IsRun(run, acts) && i < |run|
    ensures var g := run[i];
            && Messages(g.handled) <= g.arrived && |g.submitted| == |Keep(NotSent(), g.handled)|
            && forall k :: 0 <= k < |g.submitted| ==> g.submitted[k].seqno == Wrap32(k)
    ensures forall j :: 0 <= j < |run[i].handled| ==>
              var h := run[i].handled[j];
              h.sent <==> h.msg.hasData && |h.msg.payload| > 0 && h.mallocOk
    ensures forall j :: 0 <= j < |run[i].handled| ==>
              |Keep(NotSent(), run[i].handled[..j])| <= |run[i].submitted| && run[i].handled[j].msg == run[i].arrived[j]
              && (run[i].handled[j].sent ==>
                    var k := |Keep(NotSent(), run[i].handled[..j])|;
                    k < |run[i].submitted| && run[i].submitted[k].payload == run[i].arrived[j].payload)
  {
    RunInv(run, acts, i);
    var g := run[i];
    forall j | 0 <= j < |g.handled|
      ensures |Keep(NotSent(), g.handled[..j])| <= |g.submitted| && g.handled[j].msg == g.arrived[j]
      ensures g.handled[j].sent ==>
                var k := |Keep(NotSent(), g.handled[..j])|;
                k < |g.submitted| && g.submitted[k].payload == g.arrived[j].payload
    {
      KeepIsStable(NotSent(), g.handled, j);
      MessageAt(g.handled, j);
    }
  }

  lemma {:induction false} MessageAt(hs: seq<Handled>, j: nat)
    requires j < |hs|
    ensures Messages(hs)[j] == hs[j].msg
  {
    if j < |hs| - 1 {
      MessageAt(hs[..|hs| - 1], j);
    }
  }
}
