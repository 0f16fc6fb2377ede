/** The order of buffers over every run, and where they end up. */
module LinkOrder {
  import opened Words
  import opened Order
  import opened Partition
  import opened LinkSystem
  import opened LinkSteps
  import opened LinkSafety

  // The buffers that went out, oldest first.
  function Ebs(log: seq<Sent>): (s: seq<nat>)
    ensures |s| == |log|
  {
    seq(|log|, i requires 0 <= i < |log| => log[i].eb)
  }

  lemma EbsOneMore(log: seq<Sent>, p: Sent)
    ensures Ebs(log + [p]) == Ebs(log) + [p.eb]
  {
  }

  // The buffer the send task holds and has not sent; and the one it has.
  function InHand(w: WifiPc): seq<nat> {
    match w
    case WSendUnlock(eb, ok) => if ok then [] else [eb]
    case WDispose(eb, ok) => if ok then [] else [eb]
    case _ => Held(w)
  }

  function JustSent(w: WifiPc): seq<nat> {
    match w
    case WSendUnlock(eb, ok) => if ok then [eb] else []
    case WDispose(eb, ok) => if ok then [eb] else []
    case _ => []
  }

  // All of them in one line: those sent, the one in hand, those queued.
  function Line(s: Sys): seq<nat> {
    Ebs(s.log) + InHand(s.wifi) + s.queue
  }

  /** The line, the part of it that is sent, and all buffers inserted so far. */
  datatype View = View(line: seq<nat>, sent: seq<nat>, inserted: set<nat>)

  function ViewOf(s: Sys): View {
    View(Line(s), Ebs(s.log), s.inserted)
  }

  ghost predicate LineInv(v: View) {
    match v
    case View(line, _, inserted) => Once(line) && forall x :: x in line ==> x in inserted
  }

  // What may happen to the line: nobody changes places, nobody who left comes back, and the
  // log only grows.
  ghost predicate Moves(v: View, v': View) {
    match v
    case View(line, sent, inserted) =>
      && SameOrder(line, v'.line) && inserted <= v'.inserted && sent <= v'.sent
      && forall x :: x in v'.line && x in inserted ==> x in line
  }

  ghost predicate LineStep(v: View, v': View) {
    LineInv(v') && Moves(v, v')
  }

  lemma MovesOn(u: View, v: View, w: View)
    requires LineInv(u) && Moves(u, v) && Moves(v, w)
    ensures Moves(u, w)
  {
    forall x, y | Before(u.line, x, y) && x in w.line && y in w.line
      ensures Before(w.line, x, y)
    {
      BeforeMembers(u.line, x, y);
    }
  }

  lemma NoMove(v: View)
    requires LineInv(v)
    ensures LineStep(v, v)
  {
  }

  // ----- one step

  predicate LineKept(s: Sys, s': Sys) {
    s'.log == s.log && InHand(s'.wifi) == InHand(s.wifi) && s'.queue == s.queue && s'.inserted == s.inserted
  }

  predicate SamePlace(s: Sys, s': Sys) {
    && LineKept(s, s') && JustSent(s'.wifi) == JustSent(s.wifi)
    && s'.txDone == s.txDone && s'.recycled == s.recycled && s'.lost == s.lost
  }

  lemma KeptMoves(s: Sys, s': Sys)
    requires LineInv(ViewOf(s)) && LineKept(s, s')
    ensures LineStep(ViewOf(s), ViewOf(s'))
  {
    assert ViewOf(s') == ViewOf(s);
    NoMove(ViewOf(s));
  }

  // The front of the queue is taken in hand, or what is in hand is sent.
  lemma SameLine(v: View, v': View)
    requires LineInv(v) && v'.line == v.line && v'.inserted == v.inserted && v.sent <= v'.sent
    ensures LineStep(v, v')
  {
  }

  lemma TakeMoves(s: Sys, s': Sys)
    requires LineInv(ViewOf(s)) && s.wifi == WRemove && Taken(s, s')
    ensures LineStep(ViewOf(s), ViewOf(s'))
  {
    if s.queue == [] {
      KeptMoves(s, s');
    } else {
      assert s.queue == [s.queue[0]] + s.queue[1..];
      assert InHand(s.wifi) == [] && InHand(s'.wifi) == [s.queue[0]];
      assert Line(s') == Line(s);
      SameLine(ViewOf(s), ViewOf(s'));
    }
  }

  lemma SendMoves(s: Sys, s': Sys, eb: nat, p: Sent)
    requires LineInv(ViewOf(s)) && InHand(s.wifi) == [eb] && InHand(s'.wifi) == []
    requires p.eb == eb && s'.log == s.log + [p] && s'.queue == s.queue && s'.inserted == s.inserted
    ensures LineStep(ViewOf(s), ViewOf(s'))
  {
    EbsOneMore(s.log, p);
    assert Line(s') == Line(s);
    SameLine(ViewOf(s), ViewOf(s'));
  }

  // One leaves, some are dropped, one comes in.
  lemma LoseView(a: seq<nat>, eb: nat, q: seq<nat>, sent: seq<nat>, inserted: set<nat>)
    requires LineInv(View(a + [eb] + q, sent, inserted))
    ensures LineStep(View(a + [eb] + q, sent, inserted), View(a + q, sent, inserted))
  {
    TakenOut(a, eb, q);
  }

  lemma {:induction false} ClearView(drop: nat -> bool, a: seq<nat>, q: seq<nat>, sent: seq<nat>, inserted: set<nat>)
    requires LineInv(View(a + q, sent, inserted))
    ensures LineStep(View(a + q, sent, inserted), View(a + Keep(drop, q), sent, inserted))
  {
    SomeDropped(drop, a, q);
    KeepOnlyKept(drop, q);
  }

  lemma InsertView(a: seq<nat>, eb: nat, q: seq<nat>, sent: seq<nat>, inserted: set<nat>)
    requires LineInv(View(a + q, sent, inserted)) && eb !in inserted
    ensures LineStep(View(a + q, sent, inserted), View(a + [eb] + q, sent, inserted + {eb}))
  {
    PutIn(a, eb, q);
  }

  // What is in hand is given up.
  lemma LoseMoves(s: Sys, s': Sys, eb: nat)
    requires LineInv(ViewOf(s)) && InHand(s.wifi) == [eb] && InHand(s'.wifi) == []
    requires s'.log == s.log && s'.queue == s.queue && s'.inserted == s.inserted
    ensures LineStep(ViewOf(s), ViewOf(s'))
  {
    LoseView(Ebs(s.log), eb, s.queue, Ebs(s.log), s.inserted);
    assert Line(s) == Ebs(s.log) + [eb] + s.queue && Line(s') == Ebs(s.log) + s.queue;
  }

  lemma ClearMoves(s: Sys, s': Sys, drop: nat -> bool)
    requires LineInv(ViewOf(s)) && s'.log == s.log && s'.wifi == s.wifi && s'.inserted == s.inserted
    requires s'.queue == Keep(drop, s.queue)
    ensures LineStep(ViewOf(s), ViewOf(s'))
  {
    ClearView(drop, Ebs(s.log) + InHand(s.wifi), s.queue, Ebs(s.log), s.inserted);
  }

  lemma InsertMoves(s: Sys, s': Sys, eb: nat, head: bool)
    requires LineInv(ViewOf(s)) && eb !in s.inserted && s'.inserted == s.inserted + {eb}
    requires s'.log == s.log && s'.wifi == s.wifi && s'.queue == if head then [eb] + s.queue else s.queue + [eb]
    ensures LineStep(ViewOf(s), ViewOf(s'))
  {
    var a, q, sent := Ebs(s.log) + InHand(s.wifi), s.queue, Ebs(s.log);
    if head {
      InsertView(a, eb, q, sent, s.inserted);
      Regroup(a, [eb], q);
    } else {
      InsertLast(a, eb, q, sent, s.inserted);
    }
  }

  lemma InsertLast(a: seq<nat>, eb: nat, q: seq<nat>, sent: seq<nat>, inserted: set<nat>)
    requires LineInv(View(a + q, sent, inserted)) && eb !in inserted
    ensures LineStep(View(a + q, sent, inserted), View(a + (q + [eb]), sent, inserted + {eb}))
  {
    assert a + q + [] == a + q && a + q + [eb] + [] == a + (q + [eb]);
    InsertView(a + q, eb, [], sent, inserted);
  }

  lemma Regroup(a: seq<nat>, b: seq<nat>, q: seq<nat>)
    ensures a + b + q == a + (b + q)
  {
  }

  lemma WifiMoves(s: Sys, c: Frames, ok: bool, token: U32)
    requires LineInv(ViewOf(s)) && WifiEnabled(s, ok, token)
    ensures LineStep(ViewOf(s), ViewOf(WifiApply(s, c, ok, token)))
  {
    var s' := WifiApply(s, c, ok, token);
    match s.wifi
    case WRemove =>
      MoveShape(s, c, ok, token);
      TakeMoves(s, s');
    case WBuild(eb) => BuildMoves(s, c, ok, token);
    case WDispose(eb, sent) => DisposeMoves(s, c, ok, token);
    case WSend(eb, n) => SentMoves(s, c, ok, token);
    case _ =>
      OtherWifi(s, c, ok, token);
      KeptMoves(s, s');
  }

  lemma OtherWifi(s: Sys, c: Frames, ok: bool, token: U32)
    requires WifiEnabled(s, ok, token) && !MovesBuffer(s.wifi) && !s.wifi.WSend?
    ensures SamePlace(s, WifiApply(s, c, ok, token))
  {
    if WifiHolds(s.wifi) {
      HoldingWifi(s, c, ok, token);
    }
  }

  lemma HoldingWifi(s: Sys, c: Frames, ok: bool, token: U32)
    requires WifiEnabled(s, ok, token) && WifiHolds(s.wifi) && !s.wifi.WSend?
    ensures SamePlace(s, WifiApply(s, c, ok, token))
  {
  }

  lemma BuildMoves(s: Sys, c: Frames, ok: bool, token: U32)
    requires LineInv(ViewOf(s)) && s.wifi.WBuild?
    ensures LineStep(ViewOf(s), ViewOf(WifiApply(s, c, ok, token)))
  {
    var s' := WifiApply(s, c, ok, token);
    if s'.wifi == WAborted {
      LoseMoves(s, s', s.wifi.eb);
    } else {
      KeptMoves(s, s');
    }
  }

  lemma DisposeMoves(s: Sys, c: Frames, ok: bool, token: U32)
    requires LineInv(ViewOf(s)) && s.wifi.WDispose?
    ensures LineStep(ViewOf(s), ViewOf(WifiApply(s, c, ok, token)))
  {
    var s' := WifiApply(s, c, ok, token);
    if s.wifi.ok {
      KeptMoves(s, s');
    } else {
      LoseMoves(s, s', s.wifi.eb);
    }
  }

  lemma SentMoves(s: Sys, c: Frames, ok: bool, token: U32)
    requires LineInv(ViewOf(s)) && s.wifi.WSend?
    ensures LineStep(ViewOf(s), ViewOf(WifiApply(s, c, ok, token)))
  {
    var s' := WifiApply(s, c, ok, token);
    if ok {
      SendMoves(s, s', s.wifi.eb, s'.log[|s.log|]);
    } else {
      KeptMoves(s, s');
    }
  }

  lemma ProdMoves(s: Sys, c: Frames, id: nat)
    requires LineInv(ViewOf(s)) && BufInv(s) && ProdEnabled(s, id)
    ensures LineStep(ViewOf(s), ViewOf(ProdApply(s, c, id)))
  {
    var s' := ProdApply(s, c, id);
    match s.prods[id]
    case PClear(_, _) => ClearMoves(s, s', c.discard);
    case PInsert(eb, head) => InsertMoves(s, s', eb, head);
    case _ =>
      ProdKeeps(s, c, id);
      KeptMoves(s, s');
  }

  lemma StepMoves(s: Sys, c: Frames, a: Action)
    requires Inv(s, c) && LineInv(ViewOf(s)) && Enabled(s, a)
    ensures LineStep(ViewOf(s), ViewOf(Apply(s, c, a)))
  {
    match a
    case WifiStep(ok, token) => WifiMoves(s, c, ok, token);
    case ProdStep(id) => ProdMoves(s, c, id);
    case _ =>
      OtherStep(s, c, a);
      KeptMoves(s, Apply(s, c, a));
  }

  lemma OtherStep(s: Sys, c: Frames, a: Action)
    requires Enabled(s, a) && !a.WifiStep? && !a.ProdStep?
    ensures SamePlace(s, Apply(s, c, a))
  {
    match a
    case BootStep(ok) => BootChanges(s, ok);
    case RecvStep(packet, w, ok) => RecvChanges(s, packet, w, ok);
    case BtStep =>
      var s' := BtApply(s);
      assert s' == s.(sdio := s'.sdio, bt := s'.bt);
    case _ =>
  }

  // ----- any run

  lemma {:induction false} RunLine(c: Frames, run: seq<Sys>, acts: seq<Action>, i: nat)
    requires IsRun(c, run, acts) && i < |run|
    ensures LineInv(ViewOf(run[i]))
  {
    if i == 0 {
      assert Line(run[0]) == [];
    } else {
      RunLine(c, run, acts, i - 1);
      RunInv(c, run, acts, i - 1);
      StepMoves(run[i - 1], c, acts[i - 1]);
    }
  }

  lemma RunStep(c: Frames, run: seq<Sys>, acts: seq<Action>, i: nat, s: Sys, s': Sys)
    requires IsRun(c, run, acts) && i < |acts| && s == run[i] && s' == run[i + 1]
    ensures LineInv(ViewOf(s)) && LineStep(ViewOf(s), ViewOf(s'))
  {
    RunInv(c, run, acts, i);
    RunLine(c, run, acts, i);
    StepMoves(s, c, acts[i]);
  }

  // What a step may do to the line is all that any number of steps do.
  ghost predicate Steps(vs: seq<View>) {
    && (forall i :: 0 <= i < |vs| ==> LineInv(vs[i]))
    && (forall i :: 0 < i < |vs| ==> Moves(vs[i - 1], vs[i]))
  }

  lemma {:induction false} StepsMove(vs: seq<View>, i: nat, j: nat)
    requires Steps(vs) && i <= j < |vs|
    ensures Moves(vs[i], vs[j])
    decreases j
  {
    if i == j {
      NoMove(vs[i]);
    } else {
      StepsMove(vs, i, j - 1);
      MovesOn(vs[i], vs[j - 1], vs[j]);
    }
  }

  lemma RunMoves(c: Frames, run: seq<Sys>, acts: seq<Action>, i: nat, j: nat, s: Sys, t: Sys)
    requires IsRun(c, run, acts) && i <= j < |run| && s == run[i] && t == run[j]
    ensures LineInv(ViewOf(s)) && LineInv(ViewOf(t)) && Moves(ViewOf(s), ViewOf(t))
  {
    var vs := seq(|run|, k requires 0 <= k < |run| => ViewOf(run[k]));
    forall k | 0 <= k < |run|
      ensures LineInv(vs[k])
    {
      RunLine(c, run, acts, k);
    }
    forall k | 0 < k < |run|
      ensures Moves(vs[k - 1], vs[k])
    {
      RunStep(c, run, acts, k - 1, run[k - 1], run[k]);
    }
    StepsMove(vs, i, j);
  }

  // ----- where buffers end up

  ghost predicate PlaceInv(s: Sys, c: Frames) {
    match c
    case Frames(discard, _, callback, _) =>
      && (forall x :: x in s.txDone ==> callback(x) && x in Ebs(s.log))
      && (forall x :: x in s.recycled ==> if x in Ebs(s.log) then !callback(x) else discard(x))
      && (forall x :: x in s.lost ==> x !in Ebs(s.log))
      && (forall x :: x in JustSent(s.wifi) ==> x in Ebs(s.log))
      && (forall x :: x in Ebs(s.log) ==> x in s.txDone || x in s.recycled || x in JustSent(s.wifi))
  }

  lemma SamePlaceKept(s: Sys, s': Sys, c: Frames)
    requires PlaceInv(s, c) && SamePlace(s, s')
    ensures PlaceInv(s', c)
  {
  }

  // No buffer is in two places.
  lemma OnePlace(s: Sys, x: nat)
    requires BufInv(s)
    ensures x in s.queue || x in Held(s.wifi) ==> x !in s.txDone && x !in s.recycled && x !in s.lost
    ensures x in s.inserted ==> x in s.queue || x in Held(s.wifi) || x in s.txDone || x in s.recycled || x in s.lost
  {
    assert Places(s)[x] <= 1;
    assert x in s.inserted ==> Places(s)[x] == 1;
  }

  lemma NotSentYet(s: Sys, x: nat)
    requires LineInv(ViewOf(s)) && (x in s.queue || x in InHand(s.wifi))
    ensures x !in Ebs(s.log)
  {
    OncePart(Ebs(s.log) + InHand(s.wifi), s.queue);
    OncePart(Ebs(s.log), InHand(s.wifi));
  }

  lemma WifiPlace(s: Sys, c: Frames, ok: bool, token: U32)
    requires BufInv(s) && LineInv(ViewOf(s)) && PlaceInv(s, c) && WifiEnabled(s, ok, token)
    ensures PlaceInv(WifiApply(s, c, ok, token), c)
  {
    var s' := WifiApply(s, c, ok, token);
    match s.wifi
    case WRemove =>
      MoveShape(s, c, ok, token);
      TakePlace(s, s', c);
    case WBuild(eb) =>
      MoveShape(s, c, ok, token);
      LetGoPlace(s, s', c, eb);
    case WDispose(eb, sent) =>
      DisposePlace(s, c, ok, token);
    case WSend(eb, n) =>
      SendPlace(s, c, ok, token);
    case _ =>
      OtherWifi(s, c, ok, token);
      SamePlaceKept(s, s', c);
  }

  lemma TakePlace(s: Sys, s': Sys, c: Frames)
    requires PlaceInv(s, c) && s.wifi == WRemove && Taken(s, s')
    ensures PlaceInv(s', c)
  {
  }

  lemma LetGoPlace(s: Sys, s': Sys, c: Frames, eb: nat)
    requires LineInv(ViewOf(s)) && PlaceInv(s, c) && s.wifi == WBuild(eb)
    requires s' == s.(wifi := WAborted, lost := s.lost + [eb]) || s' == s.(wifi := WCheckLock(eb))
    ensures PlaceInv(s', c)
  {
    NotSentYet(s, eb);
  }

  lemma DisposePlace(s: Sys, c: Frames, ok: bool, token: U32)
    requires LineInv(ViewOf(s)) && PlaceInv(s, c) && s.wifi.WDispose?
    ensures PlaceInv(WifiApply(s, c, ok, token), c)
  {
    var s', eb := WifiApply(s, c, ok, token), s.wifi.eb;
    if s.wifi.ok {
      assert JustSent(s.wifi) == [eb] && JustSent(s'.wifi) == [];
      if c.callback(eb) {
        DonePlace(s, s', c, eb);
      } else {
        RecycledPlace(s, s', c, eb);
      }
    } else {
      assert InHand(s.wifi) == [eb];
      NotSentYet(s, eb);
      LostPlace(s, s', c, eb);
    }
  }

  lemma DonePlace(s: Sys, s': Sys, c: Frames, eb: nat)
    requires PlaceInv(s, c) && JustSent(s.wifi) == [eb] && c.callback(eb)
    requires s' == s.(wifi := WWait, txDone := s.txDone + [eb])
    ensures PlaceInv(s', c)
  {
  }

  lemma RecycledPlace(s: Sys, s': Sys, c: Frames, eb: nat)
    requires PlaceInv(s, c) && JustSent(s.wifi) == [eb] && !c.callback(eb)
    requires s' == s.(wifi := WWait, recycled := s.recycled + [eb])
    ensures PlaceInv(s', c)
  {
  }

  lemma LostPlace(s: Sys, s': Sys, c: Frames, eb: nat)
    requires PlaceInv(s, c) && JustSent(s.wifi) == [] && eb !in Ebs(s.log)
    requires s' == s.(wifi := WHalted, lost := s.lost + [eb])
    ensures PlaceInv(s', c)
  {
  }

  lemma SendPlace(s: Sys, c: Frames, ok: bool, token: U32)
    requires BufInv(s) && PlaceInv(s, c) && s.wifi.WSend?
    ensures PlaceInv(WifiApply(s, c, ok, token), c)
  {
    var s', eb := WifiApply(s, c, ok, token), s.wifi.eb;
    assert Held(s.wifi) == [eb];
    OnePlace(s, eb);
    if ok {
      EbsOneMore(s.log, s'.log[|s.log|]);
    }
  }

  lemma ProdPlace(s: Sys, c: Frames, id: nat)
    requires BufInv(s) && LineInv(ViewOf(s)) && PlaceInv(s, c) && ProdEnabled(s, id)
    ensures PlaceInv(ProdApply(s, c, id), c)
  {
    var s' := ProdApply(s, c, id);
    match s.prods[id]
    case PClear(_, _) =>
      KeepOnlyKept(Not(c.discard), s.queue);
      forall x | x in Dropped(c.discard, s.queue)
        ensures c.discard(x) && x !in Ebs(s.log)
      {
        NotSentYet(s, x);
      }
    case PInsert(_, _) =>
    case _ =>
      ProdKeeps(s, c, id);
      SamePlaceKept(s, s', c);
  }

  lemma {:induction false} RunPlaces(c: Frames, run: seq<Sys>, acts: seq<Action>, i: nat)
    requires IsRun(c, run, acts) && i < |run|
    ensures PlaceInv(run[i], c)
  {
    if i > 0 {
      RunPlaces(c, run, acts, i - 1);
      RunInv(c, run, acts, i - 1);
      RunLine(c, run, acts, i - 1);
      StepPlaces(run[i - 1], c, acts[i - 1]);
    }
  }

  lemma StepPlaces(s: Sys, c: Frames, a: Action)
    requires Inv(s, c) && LineInv(ViewOf(s)) && PlaceInv(s, c) && Enabled(s, a)
    ensures PlaceInv(Apply(s, c, a), c)
  {
    match a
    case WifiStep(ok, token) => WifiPlace(s, c, ok, token);
    case ProdStep(id) => ProdPlace(s, c, id);
    case _ =>
      OtherStep(s, c, a);
      SamePlaceKept(s, Apply(s, c, a), c);
  }

  // ----- the theorems

  lemma PartsInOrder(sent: seq<nat>, hand: seq<nat>, queue: seq<nat>, x: nat, y: nat)
    requires Once(sent + hand + queue)
    ensures Before(queue, x, y) ==> Before(sent + hand + queue, x, y)
    ensures Before(sent + hand + queue, x, y) ==>
              && (x in queue && y in queue ==> Before(queue, x, y))
              && (x in sent && y in sent ==> Before(sent, x, y))
              && (x in queue ==> y !in sent && y !in hand)
  {
    BeforeJoined(sent + hand, queue, x, y);
    BeforeJoined(sent, hand, x, y);
    OncePart(sent + hand, queue);
    OncePart(sent, hand);
    if Before(sent + hand, x, y) {
      BeforeMembers(sent + hand, x, y);
    }
    if Before(queue, x, y) {
      BeforeMembers(queue, x, y);
    }
    if Before(hand, x, y) {
      BeforeMembers(hand, x, y);
    }
  }

  // Queue order: of two buffers, the one that stands in front keeps standing in front as long
  // as both are queued, is sent first if both are, and is not overtaken: while it is still
  // queued the other one is not in hand, and not sent.
  lemma QueueOrder(c: Frames, run: seq<Sys>, acts: seq<Action>, i: nat, j: nat, x: nat, y: nat)
    requires IsRun(c, run, acts) && i <= j < |run| && Before(run[i].queue, x, y)
    ensures x in run[j].queue && y in run[j].queue ==> Before(run[j].queue, x, y)
    ensures x in Ebs(run[j].log) && y in Ebs(run[j].log) ==> Before(Ebs(run[j].log), x, y)
    ensures x in run[j].queue ==> y !in Ebs(run[j].log) && y !in Held(run[j].wifi)
  {
    var s, t := run[i], run[j];
    RunMoves(c, run, acts, i, j, s, t);
    RunPlaces(c, run, acts, j);
    LaterOrder(s, t, c, x, y);
  }

  lemma LaterOrder(s: Sys, t: Sys, c: Frames, x: nat, y: nat)
    requires LineInv(ViewOf(s)) && LineInv(ViewOf(t)) && Moves(ViewOf(s), ViewOf(t)) && PlaceInv(t, c)
    requires Before(s.queue, x, y)
    ensures x in t.queue && y in t.queue ==> Before(t.queue, x, y)
    ensures x in Ebs(t.log) && y in Ebs(t.log) ==> Before(Ebs(t.log), x, y)
    ensures x in t.queue ==> y !in Ebs(t.log) && y !in Held(t.wifi)
  {
    PartsInOrder(Ebs(s.log), InHand(s.wifi), s.queue, x, y);
    PartsInOrder(Ebs(t.log), InHand(t.wifi), t.queue, x, y);
    assert y in Held(t.wifi) ==> y in InHand(t.wifi) || y in JustSent(t.wifi);
  }

  // Final places: what is reported done was sent and has a callback, what is recycled was
  // sent without one or may be discarded and was never sent, what is lost was not sent; a
  // buffer that was sent gets to one of the two as soon as the send task lets go of it; and
  // one that may not be discarded is in the line, in its final place, or lost.
  lemma FinalPlaces(c: Frames, run: seq<Sys>, acts: seq<Action>, i: nat, x: nat)
    requires IsRun(c, run, acts) && i < |run|
    ensures x in run[i].txDone ==> c.callback(x) && x in Ebs(run[i].log)
    ensures x in run[i].recycled ==> if x in Ebs(run[i].log) then !c.callback(x) else c.discard(x)
    ensures x in run[i].lost ==> x !in Ebs(run[i].log)
    ensures x in Ebs(run[i].log) && x !in Held(run[i].wifi) ==>
              if c.callback(x) then x in run[i].txDone else x in run[i].recycled
    ensures x in run[i].inserted && !c.discard(x) ==>
              x in run[i].queue || x in Held(run[i].wifi) || x in Ebs(run[i].log) || x in run[i].lost
  {
    var s := run[i];
    RunInv(c, run, acts, i);
    RunPlaces(c, run, acts, i);
    OnePlace(s, x);
    assert x in JustSent(s.wifi) ==> x in Held(s.wifi);
  }

  // ----- where a submitted buffer goes

  // Producer `id` is on its way to insert `eb`.
  predicate Awaits(s: Sys, id: nat, eb: nat, head: bool) {
    id in s.prods && Submitting(s.prods[id]) && s.prods[id].eb == eb && s.prods[id].head == head
  }

  lemma NoProducer(s: Sys, c: Frames, a: Action)
    requires Enabled(s, a) && !a.ProdStep? && !a.Submit?
    ensures Apply(s, c, a).prods == s.prods
  {
    match a
    case WifiStep(ok, token) => WifiChanges(s, c, ok, token);
    case BootStep(ok) => BootChanges(s, ok);
    case RecvStep(packet, w, ok) => RecvChanges(s, packet, w, ok);
    case BtStep =>
      var s' := BtApply(s);
      assert s' == s.(sdio := s'.sdio, bt := s'.bt);
    case _ =>
  }

  lemma StillAwaits(s: Sys, c: Frames, a: Action, id: nat, eb: nat, head: bool)
    requires Enabled(s, a) && Awaits(s, id, eb, head)
    ensures Awaits(Apply(s, c, a), id, eb, head) || eb in Apply(s, c, a).inserted
  {
    match a
    case ProdStep(i) => ProducerGoesOn(s, c, i, id);
    case Submit(_, _, _, _) =>
    case _ => NoProducer(s, c, a);
  }

  // A producer keeps what it has to insert until it is inserted, and others leave it alone.
  lemma ProducerGoesOn(s: Sys, c: Frames, i: nat, id: nat)
    requires ProdEnabled(s, i) && id in s.prods && Submitting(s.prods[id])
    ensures var s' := ProdApply(s, c, i);
            && id in s'.prods
            && (s.prods[id].eb in s'.inserted || Goes(s.prods[id], s'.prods[id]))
  {
    if s.prods[i].PInsert? {
    } else if i != id {
      assert ProdApply(s, c, i).prods[id] == s.prods[id];
    }
  }

  predicate Goes(p: ProdPc, p': ProdPc)
    requires Submitting(p)
  {
    Submitting(p') && p'.eb == p.eb && p'.head == p.head
  }

  // Whoever comes into the queue is put there by the producer that holds it, and was never there.
  lemma Entering(s: Sys, c: Frames, a: Action, eb: nat)
    requires Inv(s, c) && Enabled(s, a)
    ensures eb !in s.queue && eb in Apply(s, c, a).queue ==>
              eb !in s.inserted && a.ProdStep? && s.prods[a.id].PInsert? && s.prods[a.id].eb == eb
  {
    match a
    case ProdStep(id) => EnteringProd(s, c, id, eb);
    case WifiStep(ok, token) => NotEntering(s, c, ok, token, eb);
    case _ => OtherStep(s, c, a);
  }

  lemma EnteringProd(s: Sys, c: Frames, id: nat, eb: nat)
    requires BufInv(s) && ProdEnabled(s, id)
    ensures eb !in s.queue && eb in ProdApply(s, c, id).queue ==>
              eb !in s.inserted && s.prods[id].PInsert? && s.prods[id].eb == eb
  {
    KeepOnlyKept(c.discard, s.queue);
    if !s.prods[id].PClear? && !s.prods[id].PInsert? {
      ProdKeeps(s, c, id);
    }
  }

  lemma NotEntering(s: Sys, c: Frames, ok: bool, token: U32, eb: nat)
    requires WifiEnabled(s, ok, token)
    ensures eb in WifiApply(s, c, ok, token).queue ==> eb in s.queue
  {
    if MovesBuffer(s.wifi) {
      MoveShape(s, c, ok, token);
    } else {
      WifiChanges(s, c, ok, token);
    }
  }

  lemma {:induction false} AwaitsSince(c: Frames, run: seq<Sys>, acts: seq<Action>, k: nat, j: nat, s': Sys,
                                       id: nat, eb: nat, clear: bool, head: bool)
    requires IsRun(c, run, acts) && k < j < |run| && s' == run[j] && acts[k] == Submit(id, eb, clear, head)
    ensures Awaits(s', id, eb, head) || eb in s'.inserted
    decreases j
  {
    var s, a := run[j - 1], acts[j - 1];
    assert Enabled(s, a) && s' == Apply(s, c, a);
    if j - 1 > k {
      AwaitsSince(c, run, acts, k, j - 1, s, id, eb, clear, head);
      if eb in s.inserted {
        RunStep(c, run, acts, j - 1, s, s');
      } else {
        StillAwaits(s, c, a, id, eb, head);
      }
    }
  }

  // The step at which a submitted buffer enters the queue is its producer's.
  lemma EntersOnce(c: Frames, run: seq<Sys>, acts: seq<Action>, k: nat, j: nat, id: nat, eb: nat, clear: bool,
                   head: bool)
    requires IsRun(c, run, acts) && k <= j < |acts| && acts[k] == Submit(id, eb, clear, head)
    requires eb !in run[j].queue && eb in run[j + 1].queue
    ensures k < j && acts[j] == ProdStep(id) && id in run[j].prods && run[j].prods[id] == PInsert(eb, head)
  {
    var s := run[j];
    RunInv(c, run, acts, j);
    Entering(s, c, acts[j], eb);
    AwaitsSince(c, run, acts, k, j, s, id, eb, clear, head);
    assert acts[j].id == id;
  }

  // A test command is put before everything queued, everything else behind it.
  lemma InsertPlace(c: Frames, run: seq<Sys>, acts: seq<Action>, k: nat, j: nat, id: nat, eb: nat, clear: bool,
                    head: bool, x: nat)
    requires IsRun(c, run, acts) && k <= j < |acts| && acts[k] == Submit(id, eb, clear, head)
    requires eb !in run[j].queue && eb in run[j + 1].queue && x in run[j].queue
    ensures if head then Before(run[j + 1].queue, eb, x) else Before(run[j + 1].queue, x, eb)
  {
    EntersOnce(c, run, acts, k, j, id, eb, clear, head);
    var q := run[j].queue;
    assert run[j + 1] == Apply(run[j], c, acts[j]);
    BeforeJoined([eb], q, eb, x);
    BeforeJoined(q, [eb], x, eb);
  }

  // ----- what a clear drops

  lemma StaysOut(s: Sys, c: Frames, a: Action, x: nat)
    requires Inv(s, c) && Enabled(s, a) && x in s.inserted && x !in s.queue
    ensures x !in Apply(s, c, a).queue
  {
    if x in Apply(s, c, a).queue {
      Entering(s, c, a, x);
    }
  }

  // Before its clear, a producer that clears waits or is about to; after it, `x` is gone.
  predicate ClearsFirst(s: Sys, id: nat, eb: nat, x: nat) {
    || eb in s.inserted || x !in s.queue
    || (id in s.prods && (s.prods[id].PClearLock? || s.prods[id].PClear?) && s.prods[id].eb == eb)
  }

  lemma StillClears(s: Sys, c: Frames, a: Action, id: nat, eb: nat, x: nat)
    requires Inv(s, c) && Enabled(s, a) && ClearsFirst(s, id, eb, x) && x in s.inserted && c.discard(x) &&
             eb !in s.inserted
    ensures ClearsFirst(Apply(s, c, a), id, eb, x)
  {
    if x !in s.queue {
      StaysOut(s, c, a, x);
    } else {
      match a
      case ProdStep(i) => ProducerClears(s, c, i, id, x);
      case Submit(_, _, _, _) =>
      case _ => NoProducer(s, c, a);
    }
  }

  lemma ProducerClears(s: Sys, c: Frames, i: nat, id: nat, x: nat)
    requires ProdEnabled(s, i) && c.discard(x) && id in s.prods && (s.prods[id].PClearLock? || s.prods[id].PClear?)
    ensures var s' := ProdApply(s, c, i);
            || x !in s'.queue
            || (id in s'.prods && (s'.prods[id].PClearLock? || s'.prods[id].PClear?) &&
                s'.prods[id].eb == s.prods[id].eb)
  {
    KeepOnlyKept(c.discard, s.queue);
    if i != id {
      assert ProdApply(s, c, i).prods[id] == s.prods[id];
    }
  }

  lemma {:induction false} ClearsSince(c: Frames, run: seq<Sys>, acts: seq<Action>, k: nat, j: nat,
                                       id: nat, eb: nat, head: bool, x: nat)
    requires IsRun(c, run, acts) && k < j < |run| && acts[k] == Submit(id, eb, true, head)
    requires x in run[k].queue && c.discard(x)
    ensures Clearing(run[j], id, eb, x)
    decreases j
  {
    if j - 1 == k {
      ClearsNext(c, run, acts, k, run[k], run[j], id, eb, head, x);
    } else {
      ClearsSince(c, run, acts, k, j - 1, id, eb, head, x);
      ClearsOn(c, run, acts, j - 1, run[j - 1], run[j], id, eb, x);
    }
  }

  ghost predicate Clearing(s: Sys, id: nat, eb: nat, x: nat) {
    x in s.inserted && ClearsFirst(s, id, eb, x)
  }

  lemma ClearsNext(c: Frames, run: seq<Sys>, acts: seq<Action>, k: nat, s: Sys, s': Sys,
                   id: nat, eb: nat, head: bool, x: nat)
    requires IsRun(c, run, acts) && k < |acts| && s == run[k] && s' == run[k + 1] &&
             acts[k] == Submit(id, eb, true, head)
    requires x in s.queue
    ensures Clearing(s', id, eb, x)
  {
    RunStep(c, run, acts, k, s, s');
    QueuedIsInserted(s, x);
    InsertedStays(s, s');
    ClearBegins(s, c, acts[k], s', id, eb, head, x);
  }

  lemma ClearsOn(c: Frames, run: seq<Sys>, acts: seq<Action>, j: nat, s: Sys, s': Sys, id: nat, eb: nat, x: nat)
    requires IsRun(c, run, acts) && j < |acts| && s == run[j] && s' == run[j + 1]
    requires Clearing(s, id, eb, x) && c.discard(x)
    ensures Clearing(s', id, eb, x)
  {
    RunInv(c, run, acts, j);
    RunStep(c, run, acts, j, s, s');
    InsertedStays(s, s');
    ClearGoesOn(s, c, acts[j], s', id, eb, x);
  }

  lemma ClearBegins(s: Sys, c: Frames, a: Action, s': Sys, id: nat, eb: nat, head: bool, x: nat)
    requires Enabled(s, a) && s' == Apply(s, c, a) && a == Submit(id, eb, true, head)
    ensures ClearsFirst(s', id, eb, x)
  {
  }

  lemma ClearGoesOn(s: Sys, c: Frames, a: Action, s': Sys, id: nat, eb: nat, x: nat)
    requires Inv(s, c) && Enabled(s, a) && s' == Apply(s, c, a) && s.inserted <= s'.inserted
    requires x in s.inserted && c.discard(x)
    ensures ClearsFirst(s, id, eb, x) ==> ClearsFirst(s', id, eb, x)
  {
    if ClearsFirst(s, id, eb, x) && eb !in s.inserted {
      StillClears(s, c, a, id, eb, x);
    }
  }

  lemma QueuedIsInserted(s: Sys, x: nat)
    requires LineInv(ViewOf(s)) && x in s.queue
    ensures x in s.inserted
  {
    assert x in Line(s);
  }

  lemma InsertedStays(s: Sys, s': Sys)
    requires LineStep(ViewOf(s), ViewOf(s'))
    ensures s.inserted <= s'.inserted
  {
  }

  // A buffer submitted with a clear finds none of those queued at its submission that may be
  // discarded.
  lemma ClearTakesEffect(c: Frames, run: seq<Sys>, acts: seq<Action>, k: nat, j: nat, id: nat, eb: nat, head: bool,
                         x: nat)
    requires IsRun(c, run, acts) && k <= j < |acts| && acts[k] == Submit(id, eb, true, head)
    requires eb !in run[j].queue && eb in run[j + 1].queue
    requires x in run[k].queue && c.discard(x)
    ensures x !in run[j].queue && x !in run[j + 1].queue
  {
    EntersOnce(c, run, acts, k, j, id, eb, true, head);
    ClearsSince(c, run, acts, k, j, id, eb, head, x);
    RunInv(c, run, acts, j);
    Entering(run[j], c, acts[j], eb);
    StaysOut(run[j], c, acts[j], x);
  }

  lemma {:induction false} ClearWasAsked(c: Frames, run: seq<Sys>, acts: seq<Action>, m: nat, id: nat) returns (k: nat)
    requires IsRun(c, run, acts) && m < |run| && id in run[m].prods
    requires run[m].prods[id].PClearLock? || run[m].prods[id].PClear?
    ensures k < m && acts[k] == Submit(id, run[m].prods[id].eb, true, run[m].prods[id].head)
    decreases m
  {
    var s, a := run[m - 1], acts[m - 1];
    assert run[m] == Apply(s, c, a);
    if a.Submit? && a.id == id {
      k := m - 1;
    } else {
      CameFrom(s, c, a, id);
      k := ClearWasAsked(c, run, acts, m - 1, id);
    }
  }

  lemma CameFrom(s: Sys, c: Frames, a: Action, id: nat)
    requires Enabled(s, a) && id in Apply(s, c, a).prods && !(a.Submit? && a.id == id)
    requires var p := Apply(s, c, a).prods[id]; p.PClearLock? || p.PClear?
    ensures id in s.prods && (s.prods[id].PClearLock? || s.prods[id].PClear?)
    ensures var p := Apply(s, c, a).prods[id]; s.prods[id].eb == p.eb && s.prods[id].head == p.head
  {
    match a
    case ProdStep(i) => ClearerBefore(s, c, i, id);
    case Submit(_, _, _, _) =>
    case _ => NoProducer(s, c, a);
  }

  lemma ClearerBefore(s: Sys, c: Frames, i: nat, id: nat)
    requires ProdEnabled(s, i) && id in ProdApply(s, c, i).prods
    requires var p := ProdApply(s, c, i).prods[id]; p.PClearLock? || p.PClear?
    ensures id in s.prods && (s.prods[id].PClearLock? || s.prods[id].PClear?)
    ensures var p := ProdApply(s, c, i).prods[id]; s.prods[id].eb == p.eb && s.prods[id].head == p.head
  {
    if i != id {
      assert ProdApply(s, c, i).prods[id] == s.prods[id];
    }
  }

  // What is recycled without having been sent was dropped by a clear that somebody asked for.
  lemma {:induction false} DroppedByClear(c: Frames, run: seq<Sys>, acts: seq<Action>, i: nat, x: nat)
    returns (k: nat, m: nat, id: nat, eb: nat, head: bool)
    requires IsRun(c, run, acts) && i < |run| && x in run[i].recycled && x !in Ebs(run[i].log)
    ensures k < m < i && acts[k] == Submit(id, eb, true, head) && acts[m] == ProdStep(id)
    ensures x in run[m].queue && x !in run[m + 1].queue && c.discard(x)
    decreases i
  {
    var s, a := run[i - 1], acts[i - 1];
    assert run[i] == Apply(s, c, a);
    RunStep(c, run, acts, i - 1, s, run[i]);
    if x in s.recycled {
      assert x !in Ebs(s.log);
      k, m, id, eb, head := DroppedByClear(c, run, acts, i - 1, x);
    } else {
      RunPlaces(c, run, acts, i - 1);
      RecycledNow(s, c, a, x);
      m, id := i - 1, a.id;
      eb, head := s.prods[id].eb, s.prods[id].head;
      k := ClearWasAsked(c, run, acts, m, id);
    }
  }

  lemma RecycledNow(s: Sys, c: Frames, a: Action, x: nat)
    requires PlaceInv(s, c) && Enabled(s, a)
    requires x !in s.recycled && x in Apply(s, c, a).recycled && x !in Ebs(Apply(s, c, a).log)
    ensures a.ProdStep? && s.prods[a.id].PClear? && x in s.queue && x !in Apply(s, c, a).queue && c.discard(x)
  {
    match a
    case ProdStep(id) => RecycledByClear(s, c, id, x);
    case WifiStep(ok, token) => RecycledBySend(s, c, ok, token, x);
    case _ => OtherStep(s, c, a);
  }

  lemma RecycledByClear(s: Sys, c: Frames, id: nat, x: nat)
    requires ProdEnabled(s, id) && x !in s.recycled && x in ProdApply(s, c, id).recycled
    ensures s.prods[id].PClear? && x in s.queue && x !in ProdApply(s, c, id).queue && c.discard(x)
  {
    KeepOnlyKept(c.discard, s.queue);
    KeepOnlyKept(Not(c.discard), s.queue);
    if !s.prods[id].PClear? && !s.prods[id].PInsert? {
      ProdKeeps(s, c, id);
    }
  }

  lemma RecycledBySend(s: Sys, c: Frames, ok: bool, token: U32, x: nat)
    requires PlaceInv(s, c) && WifiEnabled(s, ok, token)
    ensures x in WifiApply(s, c, ok, token).recycled ==> x in s.recycled || x in Ebs(s.log)
    ensures Ebs(s.log) <= Ebs(WifiApply(s, c, ok, token).log)
  {
    WasSent(s, c);
    if MovesBuffer(s.wifi) {
      MoveShape(s, c, ok, token);
    } else {
      WifiChanges(s, c, ok, token);
    }
  }

  lemma WasSent(s: Sys, c: Frames)
    requires PlaceInv(s, c)
    ensures s.wifi.WDispose? && s.wifi.ok ==> s.wifi.eb in Ebs(s.log)
  {
    assert s.wifi.WDispose? && s.wifi.ok ==> s.wifi.eb in JustSent(s.wifi);
  }
}
