/**
 The Wi-Fi transmit queue: an intrusive singly linked list with head and tail
 pointers and a wake-up bit. Every method is the body of one critical section
 of the list lock.
 */
module WifiQueue {
  import opened Partition
  import SipFormat

  // esf_buf_type_t, the values list_clear looks at
  const TYPE_TX_PB := 1
  const TYPE_MGMT_LBUF := 2
  const TYPE_MGMT_SBUF := 3
  const TYPE_TX_SIP := 5
  const TYPE_TX_SIP_TEST := 10

  // 1 << PP_TXCB_SCAN_PROBEREQ_ID
  const SCAN_PROBEREQ_MAP := 2

  datatype Err = Ok | InvalidArg | Fail

  /** A frame buffer. `cmdid` is the command of the SIP header stored in the buffer. */
  class EsfBuf {
    var next: EsfBuf?
    const kind: nat
    const cmdid: nat
    const compCbMap: nat

    constructor (kind: nat, cmdid: nat, compCbMap: nat)
      ensures next == null
      ensures this.kind == kind && this.cmdid == cmdid && this.compCbMap == compCbMap
    {
      this.next := null;
      this.kind, this.cmdid, this.compCbMap := kind, cmdid, compCbMap;
    }

    predicate Discardable() {
      || kind == TYPE_TX_PB
      || (kind == TYPE_TX_SIP && cmdid == SipFormat.CMD_CONFIG)
      || ((kind == TYPE_MGMT_SBUF || kind == TYPE_MGMT_LBUF) && compCbMap == SCAN_PROBEREQ_MAP)
    }
  }

  function Discards(): EsfBuf -> bool {
    (b: EsfBuf) => b.Discardable()
  }

  // Which buffers a clear discards, kind by kind: every data frame from the packet pool, of
  // the commands only CONFIG, of the management frames only scan probe requests, of anything
  // else none.
  lemma DiscardTable(b: EsfBuf)
    ensures b.kind == TYPE_TX_PB ==> b.Discardable()
    ensures b.kind == TYPE_TX_SIP ==> (b.Discardable() <==> b.cmdid == SipFormat.CMD_CONFIG)
    ensures b.kind == TYPE_MGMT_SBUF || b.kind == TYPE_MGMT_LBUF ==>
              (b.Discardable() <==> b.compCbMap == SCAN_PROBEREQ_MAP)
    ensures b.kind !in {TYPE_TX_PB, TYPE_TX_SIP, TYPE_MGMT_SBUF, TYPE_MGMT_LBUF} ==> !b.Discardable()
  {
  }

  // Two commands in a row: a SETSTA command with `set` 0 recycles a CONFIG command queued
  // before it, and no other command.
  method CommandThenDisconnect(tx: WifiTx, cid: nat, setField: nat) returns (eb: EsfBuf, last: EsfBuf)
    requires tx.Valid() && cid != SipFormat.CMD_SETSTA
    modifies tx, tx.Chain
    ensures tx.Valid() && eb.cmdid == cid && last.cmdid == SipFormat.CMD_SETSTA
    ensures cid == SipFormat.CMD_CONFIG ==> eb in tx.Recycled && eb !in tx.Chain
    ensures cid != SipFormat.CMD_CONFIG ==> eb in tx.Chain
    ensures tx.Chain != [] && last == tx.Chain[|tx.Chain| - 1]
  {
    var err, first := tx.WifiSendCmd(cid, setField, true);
    eb := first;
    ghost var queued := tx.Chain;
    assert eb in queued;
    var second;
    err, second := tx.WifiSendCmd(SipFormat.CMD_SETSTA, 0, true);
    last := second;
    KeepOnlyKept(Discards(), queued);
    KeepOnlyKept(Not(Discards()), queued);
    DiscardTable(eb);
  }

  /** Following `next` from `head` visits exactly `nodes`, without a cycle. */
  ghost predicate Linked(nodes: seq<EsfBuf>, head: EsfBuf?)
    reads nodes
  {
    && (forall i, j :: 0 <= i < j < |nodes| ==> nodes[i] != nodes[j])
    && (nodes == [] <==> head == null)
    && (nodes != [] ==> head == nodes[0] && nodes[|nodes| - 1].next == null)
    && (forall i :: 0 <= i < |nodes| - 1 ==> nodes[i].next == nodes[i + 1])
  }

  // The node taken from the front leaves a well-linked rest that does not contain it.
  lemma SplitFront(nodes: seq<EsfBuf>)
    requires nodes != [] && Linked(nodes, nodes[0])
    ensures nodes == [nodes[0]] + nodes[1..]
    ensures nodes[0] !in nodes[1..] && Linked(nodes[1..], nodes[0].next)
  {
    if |nodes| > 1 {
      assert nodes[0].next == nodes[1];
    }
  }

  /** The heap in the middle of a clear: `rest` is still to be looked at, `kept` is
      already re-linked from `ebHead` to `ebEnd`, `gone` is unlinked. */
  ghost predicate Sifting(nodes: set<EsfBuf>, rest: seq<EsfBuf>, kept: seq<EsfBuf>, gone: seq<EsfBuf>,
                          head: EsfBuf?, ebHead: EsfBuf?, ebEnd: EsfBuf?)
    reads nodes, rest, kept, gone
  {
    && Linked(rest, head)
    && Linked(kept, ebHead)
    && (if kept == [] then ebEnd == null else ebEnd == kept[|kept| - 1])
    && (forall b :: b in rest ==> b in nodes && b !in kept && b !in gone)
    && (forall b :: b in kept ==> b in nodes && b !in gone)
    && (forall b :: b in gone ==> b in nodes && b.next == null)
  }

  ghost predicate Sorting(all: seq<EsfBuf>, rest: seq<EsfBuf>, kept: seq<EsfBuf>, gone: seq<EsfBuf>) {
    && kept + Keep(Discards(), rest) == Keep(Discards(), all)
    && gone + Dropped(Discards(), rest) == Dropped(Discards(), all)
  }

  lemma SortedOne(all: seq<EsfBuf>, rest: seq<EsfBuf>, kept: seq<EsfBuf>, gone: seq<EsfBuf>)
    requires rest != [] && Sorting(all, rest, kept, gone)
    ensures rest[0].Discardable() ==> Sorting(all, rest[1..], kept, gone + [rest[0]])
    ensures !rest[0].Discardable() ==> Sorting(all, rest[1..], kept + [rest[0]], gone)
  {
    KeepFront(Discards(), rest);
    KeepFront(Not(Discards()), rest);
  }

  lemma {:induction false} AllSorted(all: seq<EsfBuf>, kept: seq<EsfBuf>, gone: seq<EsfBuf>)
    requires Sorting(all, [], kept, gone)
    ensures kept == Keep(Discards(), all) && gone == Dropped(Discards(), all)
  {
  }

  // Links `eb` behind the list that list_clear is rebuilding.
  method LinkLast(ghost nodes: seq<EsfBuf>, head: EsfBuf?, last: EsfBuf?, eb: EsfBuf)
    returns (head': EsfBuf?, last': EsfBuf?)
    requires Linked(nodes, head) && eb !in nodes
    requires if nodes == [] then last == null else last == nodes[|nodes| - 1]
    modifies (if last == null then {} else {last}) + {eb}
    ensures Linked(nodes + [eb], head') && last' == eb
  {
    head', last' := head, last;
    if last' == null {
      head' := eb;
      head'.next := null;
      last' := eb;
    } else {
      last'.next := eb;
      eb.next := null;
      last' := eb;
    }
  }

  class WifiTx {
    var txHead: EsfBuf?
    var txTail: EsfBuf?
    var needSend: bool  // the WIFI_NEED_SEND event bit

    ghost var Chain: seq<EsfBuf>     // the queued buffers, front first
    ghost var Recycled: seq<EsfBuf>  // every buffer list_clear has recycled

    // The tail means something only while the queue is non-empty; a non-empty
    // queue always has the wake-up bit set.
    ghost predicate Valid()
      reads this, Chain
    {
      && Linked(Chain, txHead)
      && (Chain != [] ==> txTail == Chain[|Chain| - 1] && needSend)
    }

    constructor ()
      ensures Valid() && Chain == [] && Recycled == [] && !needSend
    {
      txHead, txTail, needSend := null, null, false;
      Chain, Recycled := [], [];
    }

    method ListRemove() returns (eb: EsfBuf?)
      requires Valid()
      modifies this, txHead
      ensures Valid() && Recycled == old(Recycled)
      ensures old(Chain) == [] ==> eb == null && Chain == [] && !needSend
      ensures old(Chain) != [] ==> eb == old(Chain)[0] && Chain == old(Chain)[1..]
      ensures old(Chain) != [] ==> eb.next == null && needSend
    {
      eb := null;
      if txHead != null {
        eb := txHead;
        assert |Chain| > 1 ==> eb.next == Chain[1];
        txHead := txHead.next;
        eb.next := null;
        Chain := Chain[1..];
      } else {
        txTail := null;
      }
      if eb == null {
        needSend := false;
      }
    }

    method ListInsert(eb: EsfBuf?) returns (err: Err)
      requires Valid() && eb !in Chain
      modifies this, if txHead == null then {} else {txTail}, eb
      ensures Valid() && Recycled == old(Recycled)
      ensures eb == null ==> err == InvalidArg && Chain == old(Chain) && needSend == old(needSend)
      ensures eb != null ==> err == Ok && Chain == old(Chain) + [eb] && needSend
    {
      if eb == null {
        return InvalidArg;
      }
      if txHead == null {
        txHead := eb;
        txHead.next := null;
        txTail := txHead;
      } else {
        txTail.next := eb;
        eb.next := null;
        txTail := txTail.next;
      }
      needSend := true;
      Chain := Chain + [eb];
      err := Ok;
    }

    method ListHeadInsert(eb: EsfBuf?) returns (err: Err)
      requires Valid() && eb !in Chain
      modifies this, eb
      ensures Valid() && Recycled == old(Recycled)
      ensures eb == null ==> err == InvalidArg && Chain == old(Chain) && needSend == old(needSend)
      ensures eb != null ==> err == Ok && Chain == [eb] + old(Chain) && needSend
    {
      if eb == null {
        return InvalidArg;
      }
      if txHead == null {
        txHead := eb;
        txHead.next := null;
        txTail := txHead;
      } else {
        eb.next := txHead;
        txHead := eb;
      }
      needSend := true;
      Chain := [eb] + Chain;
      err := Ok;
    }

    // The body of the clearing loop: the front buffer is recycled or re-linked.
    method Sift(ghost nodes: set<EsfBuf>, ghost rest: seq<EsfBuf>, ghost kept: seq<EsfBuf>, ghost gone: seq<EsfBuf>,
                ebHead: EsfBuf?, ebEnd: EsfBuf?)
      returns (ebHead': EsfBuf?, ebEnd': EsfBuf?, ghost kept': seq<EsfBuf>, ghost gone': seq<EsfBuf>)
      requires rest != [] && Sifting(nodes, rest, kept, gone, txHead, ebHead, ebEnd)
      modifies this`txHead, this`txTail, this`Recycled, nodes
      ensures Sifting(nodes, rest[1..], kept', gone', txHead, ebHead', ebEnd')
      ensures rest[0].Discardable() ==> kept' == kept && gone' == gone + [rest[0]]
      ensures !rest[0].Discardable() ==> kept' == kept + [rest[0]] && gone' == gone
      ensures Recycled == old(Recycled) + gone'[|gone|..]
    {
      var eb := txHead;
      SplitFront(rest);
      txHead := eb.next;
      eb.next := null;
      ebHead', ebEnd', kept', gone' := ebHead, ebEnd, kept, gone;
      if eb.Discardable() {
        Recycled := Recycled + [eb];  // esf_buf_recycle(eb)
        gone' := gone + [eb];
      } else {
        assert ebEnd != null ==> ebEnd in kept;
        ebHead', ebEnd' := LinkLast(kept, ebHead, ebEnd, eb);
        kept' := kept + [eb];
      }
      if txHead == null {
        txTail := null;  // and the loop of ListClear ends
      }
    }

    // The clearing loop, up to the point where the rebuilt list becomes the queue.
    method Rebuild(ghost all: seq<EsfBuf>)
      returns (ebHead: EsfBuf?, ebEnd: EsfBuf?, ghost kept: seq<EsfBuf>, ghost gone: seq<EsfBuf>)
      requires Linked(all, txHead)
      modifies this`txHead, this`txTail, this`Recycled, all
      ensures Sifting(set b | b in all, [], kept, gone, txHead, ebHead, ebEnd)
      ensures Sorting(all, [], kept, gone)
      ensures Recycled == old(Recycled) + gone
    {
      ebHead, ebEnd, kept, gone := null, null, [], [];
      ghost var nodes, rest := (set b | b in all), all;
      while txHead != null
        invariant Sifting(nodes, rest, kept, gone, txHead, ebHead, ebEnd)
        invariant Sorting(all, rest, kept, gone)
        invariant Recycled == old(Recycled) + gone
        decreases |rest|
      {
        SortedOne(all, rest, kept, gone);
        ebHead, ebEnd, kept, gone := Sift(nodes, rest, kept, gone, ebHead, ebEnd);
        rest := rest[1..];
      }
      assert rest == [];
    }

    method ListClear()
      requires Valid()
      modifies this, Chain
      ensures Valid() && needSend == old(needSend)
      ensures Chain == Keep(Discards(), old(Chain))
      ensures Recycled == old(Recycled) + Dropped(Discards(), old(Chain))
      ensures forall b :: b in Dropped(Discards(), old(Chain)) ==> b.next == null
      ensures forall b :: b in Chain ==> b in old(Chain)
      ensures Chain == [] ==> txTail == null
    {
      var ebHead, ebEnd;
      ghost var kept, gone;
      ebHead, ebEnd, kept, gone := Rebuild(Chain);
      AllSorted(Chain, kept, gone);
      txHead := ebHead;
      txTail := ebEnd;
      Chain := kept;
    }

    // wifi_send_cmd; `setField` is the `set` member of a SETSTA command, and
    // `allocOk` says whether esf_buf_alloc found memory.
    method WifiSendCmd(cid: nat, setField: nat, allocOk: bool) returns (err: Err, eb: EsfBuf?)
      requires Valid()
      modifies this, Chain
      ensures Valid()
      ensures !allocOk ==> err == Fail && eb == null && Chain == old(Chain) && Recycled == old(Recycled)
      ensures allocOk ==> err == Ok && eb != null && fresh(eb) && eb.cmdid == cid
      ensures allocOk ==> eb.kind == if cid == SipFormat.CMD_TEST then TYPE_TX_SIP_TEST else TYPE_TX_SIP
      ensures allocOk ==>
                var clears := cid == SipFormat.CMD_SETSTA && setField == 0;
                var left := if clears then Keep(Discards(), old(Chain)) else old(Chain);
                && Chain == (if cid == SipFormat.CMD_TEST then [eb] + left else left + [eb])
                && Recycled == old(Recycled) + (if clears then Dropped(Discards(), old(Chain)) else [])
    {
      err, eb := Fail, null;
      if !allocOk {
        return;
      }
      if cid == SipFormat.CMD_TEST {
        eb := new EsfBuf(TYPE_TX_SIP_TEST, cid, 0);
      } else {
        eb := new EsfBuf(TYPE_TX_SIP, cid, 0);
      }
      if cid == SipFormat.CMD_SETSTA && setField == 0 {
        ListClear();
      }
      assert Chain != [] ==> txTail in Chain && txTail in old(Chain);
      if cid == SipFormat.CMD_TEST {
        err := ListHeadInsert(eb);
      } else {
        err := ListInsert(eb);
      }
    }

    method WifiSendData(eb: EsfBuf?) returns (err: Err)
      requires Valid() && eb !in Chain
      modifies this, if txHead == null then {} else {txTail}, eb
      ensures Valid() && Recycled == old(Recycled)
      ensures eb == null ==> err == Fail && Chain == old(Chain)
      ensures eb != null ==> err == Ok && Chain == old(Chain) + [eb]
    {
      if eb == null {
        return Fail;
      }
      var _ := ListInsert(eb);
      err := Ok;
    }
  }
}
