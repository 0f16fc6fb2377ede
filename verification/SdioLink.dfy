/** The SDIO adapter at work on a card: polling, splitting, moving bytes, counting. */
module SdioLink {
  import opened Words
  import opened SdioCounters
  import opened SdioTransfers

  datatype Err = Ok | InvalidArg | Timeout | IoError | NotFinished

  function Slice(stream: nat -> Byte, from: nat, n: nat): (s: seq<Byte>)
    ensures |s| == n && forall k :: 0 <= k < n ==> s[k] == stream(from + k)
  {
    seq(n, k requires 0 <= k < n => stream(from + k))
  }

  /** The receive side of function 1: what the target has produced, what was
      delivered, and the host's counter. */
  datatype RxLink = RxLink(produced: nat, taken: nat, totalRx: U32)

  // One successful get_packet of at most `size` bytes that saw `seen` bytes produced.
  ghost predicate GotPacket(stream: nat -> Byte, s: RxLink, size: nat, seen: nat, out: seq<Byte>, s': RxLink) {
    && s.produced <= seen <= s'.produced
    && |out| == Min((seen - s.taken) % RX_BYTE_MAX, size)
    && s'.taken == s.taken + |out| <= s'.produced
    && out == Slice(stream, s.taken, |out|)
    && s'.totalRx == Wrap32(s.totalRx + |out|)
  }

  // While the backlog is below the register's range a call returns min(available, size)
  // bytes, and the backlog falls by exactly that much, new arrivals aside.
  lemma PacketTakesAvailable(stream: nat -> Byte, s: RxLink, size: nat, seen: nat, out: seq<Byte>, s': RxLink)
    requires GotPacket(stream, s, size, seen, out, s') && s.taken <= s.produced
    ensures |out| == Min(seen - s.taken, size) <==>
            seen - s.taken < RX_BYTE_MAX || size <= (seen - s.taken) % RX_BYTE_MAX
    ensures s'.produced - s'.taken == (s.produced - s.taken) - |out| + (s'.produced - s.produced)
  {
    var a := seen - s.taken;
    assert a == a / RX_BYTE_MAX * RX_BYTE_MAX + a % RX_BYTE_MAX;
  }

  // Arrivals before the length is read do not matter.
  lemma EarlierStart(stream: nat -> Byte, s0: RxLink, s: RxLink, size: nat, seen: nat, out: seq<Byte>, s': RxLink)
    requires GotPacket(stream, s, size, seen, out, s')
    requires s0.produced <= s.produced && s0.taken == s.taken && s0.totalRx == s.totalRx
    ensures GotPacket(stream, s0, size, seen, out, s')
  {
  }

  datatype RxStep = Arrivals | Packet(size: nat, seen: nat, out: seq<Byte>)

  ghost predicate RxNext(stream: nat -> Byte, s: RxLink, step: RxStep, s': RxLink) {
    match step
    case Arrivals => s.produced <= s'.produced && s' == s.(produced := s'.produced)
    case Packet(size, seen, out) => GotPacket(stream, s, size, seen, out, s')
  }

  ghost predicate RxRun(stream: nat -> Byte, states: seq<RxLink>, steps: seq<RxStep>) {
    && |states| == |steps| + 1
    && states[0].taken <= states[0].produced && states[0].totalRx == states[0].taken % TWO32
    && forall i :: 0 <= i < |steps| ==> RxNext(stream, states[i], steps[i], states[i + 1])
  }

  function Received(steps: seq<RxStep>): seq<Byte> {
    if steps == [] then []
    else
      var last := steps[|steps| - 1];
      Received(steps[..|steps| - 1]) + if last.Packet? then last.out else []
  }

  // Over any run of receptions, of any sizes and with arrivals anywhere, the buffers
  // returned are the target's stream, nothing lost, repeated or reordered.
  lemma {:induction false} StreamReconstruction(stream: nat -> Byte, states: seq<RxLink>, steps: seq<RxStep>)
    requires RxRun(stream, states, steps)
    ensures var s, s' := states[0], states[|steps|];
            && s.taken <= s'.taken <= s'.produced
            && s'.totalRx == s'.taken % TWO32
            && Received(steps) == Slice(stream, s.taken, s'.taken - s.taken)
  {
    if steps != [] {
      var n := |steps| - 1;
      StreamReconstruction(stream, states[..n + 1], steps[..n]);
      assert RxNext(stream, states[n], steps[n], states[n + 1]);
      NextReceived(stream, states[0], states[n], steps[n], states[n + 1], Received(steps[..n]));
    }
  }

  // One more step extends the part of the stream that was received since `s0`.
  lemma NextReceived(stream: nat -> Byte, s0: RxLink, s: RxLink, step: RxStep, s': RxLink, before: seq<Byte>)
    requires RxNext(stream, s, step, s') && s0.taken <= s.taken <= s.produced && s.totalRx == s.taken % TWO32
    requires before == Slice(stream, s0.taken, s.taken - s0.taken)
    ensures s0.taken <= s'.taken <= s'.produced && s'.totalRx == s'.taken % TWO32
    ensures before + (if step.Packet? then step.out else []) == Slice(stream, s0.taken, s'.taken - s0.taken)
  {
    if step.Packet? {
      WrapAdds(s.taken, |step.out|);
      SliceJoins(stream, s0.taken, s.taken - s0.taken, |step.out|);
    }
  }

  lemma SliceJoins(stream: nat -> Byte, from: nat, n: nat, m: nat)
    ensures Slice(stream, from, n) + Slice(stream, from + n, m) == Slice(stream, from, n + m)
  {
  }

  lemma Counted(taken: nat, len: nat, out: seq<Byte>)
    requires |out| == len
    ensures Wrap32(taken % TWO32 + len) == (taken + len) % TWO32
    ensures forall stream: nat -> Byte :: (forall i :: 0 <= i < len ==> out[i] == stream(i + taken)) ==>
            out == Slice(stream, taken, len)
  {
    WrapAdds(taken, len);
  }

  lemma FitsAvailable(produced: nat, taken: nat, len: nat)
    requires taken <= produced && len <= (produced - taken) % RX_BYTE_MAX
    ensures taken + len <= produced
  {
  }

  lemma RoundUp4Grows(n: nat, m: nat)
    requires n <= m
    ensures RoundUp4(n) <= RoundUp4(m)
  {
  }

  // How many bytes of the stream a read at this address can deliver.
  function Window(addr: U32): nat {
    if addr <= CMD53_END_ADDR then CMD53_END_ADDR - addr else 0
  }

  lemma {:induction false} ZeroBytes(n: nat)
    ensures exists s: seq<Byte> :: |s| == n
  {
    if n == 0 {
      var none: seq<Byte> := [];
      assert |none| == n;
    } else {
      ZeroBytes(n - 1);
      var s: seq<Byte> :| |s| == n - 1;
      assert |s + [0]| == n;
    }
  }

  // The finite counters stand for the unbounded totals.
  predicate CountersAgree(totalTx: U32, used: nat, totalRx: U32, taken: nat, produced: nat) {
    totalTx % TX_BUFFER_MAX == used % TX_BUFFER_MAX && totalRx == taken % TWO32 && taken <= produced
  }

  // The last three bytes of the register as it lies in memory are the length, high byte first.
  predicate IsBtLength(reg: U32, len: U32) {
    len < 0x100_0000 && Le32(reg)[1..4] == [len / 0x1_0000, len / 256 % 256, len % 256]
  }

  ghost predicate IsBtPacket(reg: U32, size: nat, n: nat) {
    exists len: U32 :: IsBtLength(reg, len) && n == Min(len, size)
  }

  lemma BtPacketLength(func: nat, reg: U32, len: U32, size: nat, n: nat)
    requires n == Min(len, size) && (func == FUNC_BT ==> IsBtLength(reg, len))
    ensures func == FUNC_BT ==> IsBtPacket(reg, size, n)
  {
  }

  lemma ThreeBytes(a: Byte, b: Byte, c: Byte, n: nat)
    requires n == a * 0x1_0000 + b * 256 + c
    ensures n < 0x100_0000 && n / 0x1_0000 == a && n / 256 % 256 == b && n % 256 == c
  {
    assert n / 256 == a * 256 + b;
  }

  /** The card and the target behind it. The target may produce bytes and grant
      buffers before any access, and any transfer may fail. */
  class Card {
    const stream: nat -> Byte  // function 1, byte by byte
    var produced: nat          // how much of the stream the target has produced
    var taken: nat             // how much of it has been delivered
    var granted: nat           // transmit buffers granted in total
    var log: seq<Cmd53>        // data transfers that succeeded, register reads aside
    var failed: nat            // accesses of any kind that did not

    constructor (stream: nat -> Byte)
      ensures this.stream == stream && produced == 0 && taken == 0 && granted == 0 && log == []
      ensures failed == 0
    {
      this.stream := stream;
      produced, taken, granted, log, failed := 0, 0, 0, [], 0;
    }

    twostate predicate Grown()
      reads this
    {
      old(produced) <= produced && old(granted) <= granted && old(failed) <= failed
    }

    method Arrive()
      modifies this`produced, this`granted
      ensures Grown()
    {
      var more: nat :| 0 <= more;
      var grant: nat :| 0 <= grant;
      produced := produced + more;
      granted := granted + grant;
    }

    // Any access may fail.
    method Attempt() returns (ok: bool)
      modifies this`failed
      ensures failed == old(failed) + if ok then 0 else 1
    {
      ok := *;
      failed := failed + if ok then 0 else 1;
    }

    method ReadTokenReg() returns (ok: bool, token: U32)
      modifies this`produced, this`granted, this`failed
      ensures Grown() && failed == old(failed) + if ok then 0 else 1
      ensures ok ==> ShowsGrants(token, granted)
    {
      Arrive();
      ok := Attempt();
      var low: U16 :| 0 <= low;
      var hi: Byte :| 0 <= hi;
      token := hi % 16 * 0x1000_0000 + granted % TX_BUFFER_MAX * 0x1_0000 + low;
    }

    method ReadPktLenReg() returns (ok: bool, pktLen: U32)
      modifies this`produced, this`granted, this`failed
      ensures Grown() && failed == old(failed) + if ok then 0 else 1
      ensures ok ==> ShowsProduced(pktLen, produced)
    {
      Arrive();
      ok := Attempt();
      var hi: U16 :| 0 <= hi;
      pktLen := hi % 0x1000 * RX_BYTE_MAX + produced % RX_BYTE_MAX;
    }

    // The Bluetooth length register; its contents are the target's business.
    method ReadHostPfReg() returns (ok: bool, pf: U32)
      modifies this`produced, this`granted, this`failed
      ensures Grown() && failed == old(failed) + if ok then 0 else 1
    {
      Arrive();
      ok := Attempt();
      pf :| 0 <= pf;
    }

    // A data read. On function 1 an address END - m delivers at most m bytes of
    // the stream; anything read beyond that is filler.
    method ReadFifo(func: nat, addr: U32, blockMode: bool, n: nat) returns (ok: bool, data: seq<Byte>)
      requires func == FUNC_WIFI ==> taken + Min(n, Window(addr)) <= produced
      modifies this`produced, this`granted, this`failed, this`taken, this`log
      ensures Grown() && failed == old(failed) + if ok then 0 else 1
      ensures |data| == n
      ensures log == if ok then old(log) + [Cmd53(false, func, addr, blockMode, func == FUNC_WIFI, data)] else old(log)
      ensures taken == old(taken) + (if ok && func == FUNC_WIFI then Min(n, Window(addr)) else 0)
      ensures func == FUNC_WIFI ==> forall k :: 0 <= k < Min(n, Window(addr)) ==> data[k] == stream(old(taken) + k)
    {
      ok := Attempt();
      ZeroBytes(n);
      data :| |data| == n;
      if func == FUNC_WIFI {
        var m := Min(n, Window(addr));
        data := Slice(stream, taken, m) + data[m..];
        taken := taken + if ok then m else 0;
      }
      if ok {
        log := log + [Cmd53(false, func, addr, blockMode, func == FUNC_WIFI, data)];
      }
      Arrive();
    }

    method WriteFifo(func: nat, addr: U32, blockMode: bool, data: seq<Byte>) returns (ok: bool)
      modifies this`produced, this`granted, this`failed, this`log
      ensures Grown() && failed == old(failed) + if ok then 0 else 1
      ensures log == if ok then old(log) + [Cmd53(true, func, addr, blockMode, func == FUNC_WIFI, data)] else old(log)
    {
      ok := Attempt();
      if ok {
        log := log + [Cmd53(true, func, addr, blockMode, func == FUNC_WIFI, data)];
      }
      Arrive();
    }
  }

  // A packet addressed from its start gets exactly its own bytes; one longer than
  // the window would be addressed outside it and get none.
  lemma WindowOfStart(remaining: nat)
    requires remaining < 0x1000_0000
    ensures Window(StartAddr(FUNC_WIFI, remaining)) == if remaining <= CMD53_END_ADDR then remaining else 0
    ensures remaining <= CMD53_END_ADDR ==> StartAddr(FUNC_WIFI, remaining) <= CMD53_END_ADDR
  {
  }

  // How much of the stream the transfers up to position `pos` of a packet deliver. The
  // blocks of a packet that does not fit the window deliver nothing; its tail does.
  function Reached(len: nat, pos: nat): (r: nat)
    ensures r <= pos
  {
    if len <= CMD53_END_ADDR then pos
    else if pos <= BlockPart(len) then 0 else pos - BlockPart(len)
  }

  lemma ReachedGrows(len: nat, pos: nat)
    requires PassStart(len, pos) && pos < len
    ensures Reached(len, pos + PassLength(len, pos)) ==
            Reached(len, pos) + if len - pos <= CMD53_END_ADDR then PassLength(len, pos) else 0
  {
    BlockPartAligned(len);
    if (len - pos) / BLOCK_SIZE != 0 {
      BlockPass(len, pos);
    } else {
      BytePass(len, pos);
    }
  }

  // The host counts what it asked for; that is what it got only inside the window.
  lemma CountedWrong(taken: nat, len: nat)
    requires CMD53_END_ADDR < len < 0x1000_0000
    ensures Wrap32(taken % TWO32 + len) != (taken + Reached(len, len)) % TWO32
  {
    WrapAdds(taken, len);
    BlockPartAligned(len);
    WrapSeparates(taken + Reached(len, len), BlockPart(len));
  }

  lemma WindowMoves(addr: U32, pos: nat, n: nat)
    requires addr + pos < TWO32
    ensures Wrap32(addr + pos) == addr + pos
    ensures var d := Min(n, Window(addr + pos));
            && Min(pos + n, Window(addr)) == Min(pos, Window(addr)) + d
            && (d > 0 ==> Min(pos, Window(addr)) == pos)
  {
  }

  // A read that fills `n` more bytes of a destination extends the list of transfers.
  lemma LogGrows(func: nat, addr: U32, was: seq<Byte>, now: seq<Byte>, off: nat, size: nat, pos: nat, n: nat)
    requires |was| == |now| && off + size <= |now| && pos < size && (pos == 0 || pos == size / 4 * 4)
    requires n == ByteStep(size, pos)
    requires forall k :: off <= k < off + pos ==> was[k] == now[k]
    ensures ByteTransfers(false, func, addr, now[off..off + pos + n]) ==
            ByteTransfers(false, func, addr, was[off..off + pos]) +
            [Cmd53(false, func, Wrap32(addr + pos), false, func == FUNC_WIFI, now[off + pos..off + pos + n])]
  {
    var data := now[off..off + size];
    assert was[off..off + pos] == data[..pos];
    SliceOfSlice(now, off, off + size, 0, pos + n);
    SliceOfSlice(now, off, off + size, pos, pos + n);
    ByteTransfersStep(false, func, addr, data, pos, n);
  }

  // A receive pass keeps what the earlier pass stored and extends the list of transfers.
  lemma ReceiveGrows(func: nat, was: seq<Byte>, now: seq<Byte>, len: nat, pos: nat)
    requires |was| == |now| && RoundUp4(len) <= |now| && PassStart(len, pos) && pos < len
    requires forall k :: 0 <= k < pos ==> was[k] == now[k]
    ensures PassStart(len, pos + PassLength(len, pos))
    ensures var r, n, addr := RoundUp4(len), PassLength(len, pos), StartAddr(func, len - pos);
            Before(false, func, false, now[..r], len, pos + n) ==
            Before(false, func, false, was[..r], len, pos) +
            if (len - pos) / BLOCK_SIZE != 0
            then [Cmd53(false, func, addr, true, func == FUNC_WIFI, now[pos..pos + n])]
            else ByteTransfers(false, func, addr, now[pos..r])
  {
    var r := RoundUp4(len);
    PassGrows(false, func, false, now[..r], len, pos);
    if pos > 0 {
      assert now[..r][..pos] == was[..r][..pos];
    }
    SliceOfSlice(now, 0, r, pos, pos + PassLength(len, pos));
    assert now[..r][pos..] == now[pos..r];
  }

  class SdioHost {
    const card: Card
    var totalTx: U32
    var totalRx: U32
    ghost var Used: nat  // buffers used by all packets sent, unbounded

    // Both counters agree with the unbounded totals they stand for.
    ghost predicate Valid()
      reads this, card
    {
      CountersAgree(totalTx, Used, totalRx, card.taken, card.produced)
    }

    constructor (card: Card)
      requires card.taken == 0
      ensures Valid() && this.card == card && totalTx == 0 && totalRx == 0 && Used == 0
    {
      this.card := card;
      totalTx, totalRx, Used := 0, 0, 0;
    }

    method WriteBytes(func: nat, addr: U32, src: array<Byte>, off: nat, size: nat) returns (err: Err)
      requires off + size <= src.Length
      modifies card`produced, card`granted, card`failed, card`log
      ensures card.failed == old(card.failed) + if err == IoError then 1 else 0
      ensures card.Grown() && (err == Ok || err == IoError)
      ensures err == Ok ==> card.log == old(card.log) + ByteTransfers(true, func, addr, src[off..off + size])
      ensures err != Ok && size % 4 == 0 ==> card.log == old(card.log)
    {
      var pos := 0;
      ghost var data := src[off..off + size];
      while pos < size
        invariant card.failed == old(card.failed)
        invariant card.Grown()
        invariant pos == 0 || pos == size / 4 * 4 || pos == size
        invariant card.log == old(card.log) + ByteTransfers(true, func, addr, data[..pos])
      {
        var n := ByteStep(size, pos);
        ByteTransfersStep(true, func, addr, data, pos, n);
        SliceOfSlice(src[..], off, off + size, pos, pos + n);
        var ok := card.WriteFifo(func, Wrap32(addr + pos), false, src[off + pos..off + pos + n]);
        if !ok {
          return IoError;
        }
        pos := pos + n;
      }
      assert data[..size] == data;
      err := Ok;
    }

    method WriteBlocks(func: nat, addr: U32, src: array<Byte>, off: nat, size: nat) returns (err: Err)
      requires off + size <= src.Length
      modifies card`produced, card`granted, card`failed, card`log
      ensures card.failed == old(card.failed) + if err == IoError then 1 else 0
      ensures card.Grown() && (size % 4 != 0 <==> err == InvalidArg)
      ensures err == Ok || err == InvalidArg || err == IoError
      ensures card.log == old(card.log) +
                if err == Ok then [Cmd53(true, func, addr, true, func == FUNC_WIFI, src[off..off + size])] else []
    {
      if size % 4 != 0 {
        return InvalidArg;
      }
      var ok := card.WriteFifo(func, addr, true, src[off..off + size]);
      err := if ok then Ok else IoError;
    }

    // The body of the send loop: one transfer, from position `pos`.
    method SendPass(func: nat, addr: U32, start: array<Byte>, length: nat, pos: nat) returns (err: Err, n: nat)
      requires RoundUp4(length) <= start.Length && PassStart(length, pos) && pos <= length
      requires length > 0 ==> pos < length
      requires addr == StartAddr(func, length)
      modifies card`produced, card`granted, card`failed, card`log
      ensures err == Ok || err == IoError
      ensures card.failed == old(card.failed) + if err == IoError then 1 else 0
      ensures card.Grown() && n == PassLength(length, pos)
      ensures err == Ok ==>
                card.log == old(card.log) + PassTransfers(true, func, true, start[..RoundUp4(length)], length, pos)
      ensures err != Ok ==> card.log == old(card.log)
    {
      var blocks := (length - pos) / BLOCK_SIZE;
      ghost var data := start[..RoundUp4(length)];
      if blocks != 0 {
        n := blocks * BLOCK_SIZE;
        BlockPartAligned(length - pos);
        assert n == BlockPart(length - pos);
        assert start[pos..pos + n] == data[pos..pos + n];
        err := WriteBlocks(func, addr, start, pos, n);
      } else {
        n := length - pos;
        BytePass(length, pos);
        assert start[pos..pos + RoundUp4(n)] == data[pos..];
        err := WriteBytes(func, addr, start, pos, RoundUp4(n));
      }
    }

    method SendPacket(func: nat, start: array<Byte>, length: U32) returns (err: Err)
      requires Valid() && RoundUp4(length) <= start.Length
      modifies this`totalTx, this`Used, card`produced, card`granted, card`failed, card`log
      ensures err == Ok || err == IoError
      ensures card.failed == old(card.failed) + if err == IoError then 1 else 0
      ensures card.Grown() && Valid()
      ensures err == Ok ==>
                card.log == old(card.log) + Transfers(true, func, true, start[..RoundUp4(length)], length)
      ensures err != Ok ==>
                || card.log == old(card.log)
                || (BLOCK_SIZE <= length &&
                    card.log == old(card.log) + Head(true, func, start[..RoundUp4(length)], length))
      ensures totalTx ==
                if err == Ok && func != FUNC_BT then TxAdvance(old(totalTx), BuffersFor(length)) else old(totalTx)
      ensures Used == if err == Ok && func != FUNC_BT then old(Used) + BuffersFor(length) else old(Used)
    {
      var pos, first := 0, true;
      var addr := StartAddr(func, length);
      ghost var data := start[..RoundUp4(length)];
      while first || pos < length
        invariant card.failed == old(card.failed)
        invariant card.Grown() && pos <= length && PassStart(length, pos)
        invariant first ==> pos == 0
        invariant totalTx == old(totalTx) && Used == old(Used)
        invariant card.log == old(card.log) + Before(true, func, true, data, length, pos)
        decreases length - pos, first
      {
        var n;
        PassGrows(true, func, true, data, length, pos);
        err, n := SendPass(func, addr, start, length, pos);
        if err != Ok {
          BlockPartAligned(length);
          return;
        }
        pos, first := pos + n, false;
      }
      if func != FUNC_BT {
        CountSent(BuffersFor(length));
      }
      err := Ok;
    }

    method CountSent(used: U32)
      requires Valid()
      modifies this`totalTx, this`Used
      ensures Valid() && totalTx == TxAdvance(old(totalTx), used) && Used == old(Used) + used
    {
      WrapKeepsResidues(totalTx as int + used);
      ResidueOfSum(totalTx, Used, used);
      totalTx := TxAdvance(totalTx, used);
      Used := Used + used;
    }

    method GetBufferSize() returns (err: Err, credits: U32)
      requires Valid()
      modifies card`produced, card`granted, card`failed
      ensures card.failed == old(card.failed) + if err == IoError then 1 else 0
      ensures card.Grown() && Valid()
      ensures err == Ok || (err == IoError && credits == 0)
      ensures err == Ok ==> credits == (card.granted - Used) % TX_BUFFER_MAX
    {
      var ok, token := card.ReadTokenReg();
      if !ok {
        return IoError, 0;
      }
      CreditsExact(token, totalTx, card.granted, Used);
      err, credits := Ok, CreditsSeen(token, totalTx);
    }

    // Byte `i` of the destination is byte `i + shift` of the stream, for `m` bytes from `off` on.
    ghost predicate Delivered(dst: array<Byte>, off: nat, m: nat, shift: int)
      requires off + m <= dst.Length && 0 <= off + shift
      reads dst
    {
      forall i :: off <= i < off + m ==> dst[i] == card.stream(i + shift)
    }

    // One transfer of extconn_sdio_read_bytes or extconn_sdio_read_blocks.
    method ReadChunk(func: nat, addr: U32, blockMode: bool, dst: array<Byte>, at: nat, n: nat) returns (err: Err)
      requires at + n <= dst.Length
      requires func == FUNC_WIFI ==> card.taken + Min(n, Window(addr)) <= card.produced
      modifies card`produced, card`granted, card`failed, card`taken, card`log, dst
      ensures card.failed == old(card.failed) + if err == IoError then 1 else 0
      ensures card.Grown() && (err == Ok || err == IoError)
      ensures forall k :: 0 <= k < at || at + n <= k < dst.Length ==> dst[k] == old(dst[k])
      ensures err == Ok ==>
                card.log == old(card.log) + [Cmd53(false, func, addr, blockMode, func == FUNC_WIFI, dst[at..at + n])]
      ensures card.taken == old(card.taken) + (if err == Ok && func == FUNC_WIFI then Min(n, Window(addr)) else 0)
      ensures err == Ok && func == FUNC_WIFI ==>
                Delivered(dst, at, Min(n, Window(addr)), old(card.taken) - at)
    {
      var ok, data := card.ReadFifo(func, addr, blockMode, n);
      if !ok {
        return IoError;
      }
      CopyInto(dst, at, data);
      assert forall i :: at <= i < at + n ==> dst[i] == dst[at..at + n][i - at] == data[i - at];
      err := Ok;
    }

    // A transfer of `n` bytes from position `pos`, with `rest` bytes still to come, extends
    // the part of the stream that began at `from`.
    method ReadStep(func: nat, addr: U32, dst: array<Byte>, off: nat, pos: nat, n: nat, rest: nat, ghost from: nat)
      returns (err: Err)
      requires off + pos + n <= dst.Length && addr + pos + n + rest < TWO32
      requires func == FUNC_WIFI ==> card.taken == from + Min(pos, Window(addr))
      requires func == FUNC_WIFI ==> from + Min(pos + n + rest, Window(addr)) <= card.produced
      requires func == FUNC_WIFI ==> Delivered(dst, off, Min(pos, Window(addr)), from - off)
      modifies card`produced, card`granted, card`failed, card`taken, card`log, dst
      ensures card.failed == old(card.failed) + if err == IoError then 1 else 0
      ensures card.Grown() && (err == Ok || err == IoError)
      ensures forall k :: 0 <= k < off + pos || off + pos + n <= k < dst.Length ==> dst[k] == old(dst[k])
      ensures err == Ok ==>
                card.log == old(card.log) +
                [Cmd53(false, func, Wrap32(addr + pos), false, func == FUNC_WIFI, dst[off + pos..off + pos + n])]
      ensures err == Ok && func == FUNC_WIFI ==>
                && card.taken == from + Min(pos + n, Window(addr))
                && Delivered(dst, off, Min(pos + n, Window(addr)), from - off)
      ensures func != FUNC_WIFI ==> card.taken == old(card.taken)
    {
      WindowMoves(addr, pos, n);
      WindowMoves(addr, pos + n, rest);
      err := ReadChunk(func, Wrap32(addr + pos), false, dst, off + pos, n);
    }

    // What a byte-mode read that began in state `log`, `from` has done up to position `pos`.
    ghost predicate ReadSoFar(func: nat, addr: U32, dst: array<Byte>, off: nat, pos: nat, log: seq<Cmd53>, from: nat)
      requires off + pos <= dst.Length
      reads dst, card
    {
      && card.log == log + ByteTransfers(false, func, addr, dst[off..off + pos])
      && (func == FUNC_WIFI ==>
            && card.taken == from + Min(pos, Window(addr))
            && Delivered(dst, off, Min(pos, Window(addr)), from - off))
    }

    // The body of the loop below: one transfer from position `pos` to `pos'`.
    method ReadPass(func: nat, addr: U32, dst: array<Byte>, off: nat, size: nat, pos: nat,
                    ghost log: seq<Cmd53>, ghost from: nat)
      returns (err: Err, pos': nat)
      requires off + size <= dst.Length && addr + size < TWO32
      requires pos < size && (pos == 0 || pos == size / 4 * 4)
      requires ReadSoFar(func, addr, dst, off, pos, log, from)
      requires func == FUNC_WIFI ==> from + Min(size, Window(addr)) <= card.produced
      modifies card`produced, card`granted, card`failed, card`taken, card`log, dst
      ensures card.failed == old(card.failed) + if err == IoError then 1 else 0
      ensures card.Grown() && (err == Ok || err == IoError)
      ensures forall k :: 0 <= k < off || off + size <= k < dst.Length ==> dst[k] == old(dst[k])
      ensures pos < pos' <= size && (pos' == size / 4 * 4 || pos' == size)
      ensures err == Ok ==> ReadSoFar(func, addr, dst, off, pos', log, from)
      ensures func != FUNC_WIFI ==> card.taken == old(card.taken)
    {
      var n := ByteStep(size, pos);
      pos' := pos + n;
      ghost var was := dst[..];
      err := ReadStep(func, addr, dst, off, pos, n, size - pos', from);
      LogGrows(func, addr, was, dst[..], off, size, pos, n);
    }

    // extconn_sdio_read_bytes: what the window at `addr` holds is the stream, the
    // rest of the destination is filler.
    method ReadBytes(func: nat, addr: U32, dst: array<Byte>, off: nat, size: nat) returns (err: Err)
      requires off + size <= dst.Length && addr + size < TWO32
      requires func == FUNC_WIFI ==> card.taken + Min(size, Window(addr)) <= card.produced
      modifies card`produced, card`granted, card`failed, card`taken, card`log, dst
      ensures card.failed == old(card.failed) + if err == IoError then 1 else 0
      ensures card.Grown() && (err == Ok || err == IoError)
      ensures forall k :: 0 <= k < off || off + size <= k < dst.Length ==> dst[k] == old(dst[k])
      ensures err == Ok ==> ReadSoFar(func, addr, dst, off, size, old(card.log), old(card.taken))
      ensures func != FUNC_WIFI ==> card.taken == old(card.taken)
    {
      var pos := 0;
      ghost var log, from := card.log, card.taken;
      while pos < size
        invariant pos <= size && (pos == 0 || pos == size / 4 * 4 || pos == size)
        invariant card.failed == old(card.failed)
        invariant card.Grown() && ReadSoFar(func, addr, dst, off, pos, log, from)
        invariant forall k :: 0 <= k < off || off + size <= k < dst.Length ==> dst[k] == old(dst[k])
        invariant func == FUNC_WIFI ==> from + Min(size, Window(addr)) <= card.produced
        invariant func != FUNC_WIFI ==> card.taken == from
      {
        err, pos := ReadPass(func, addr, dst, off, size, pos, log, from);
        if err != Ok {
          return;
        }
      }
      err := Ok;
    }

    // `reg` is what the length register of function 2 showed.
    method GetRxDataSize(func: nat) returns (err: Err, len: U32, ghost reg: U32)
      requires Valid()
      modifies card`produced, card`granted, card`failed
      ensures card.failed == old(card.failed) + if err == IoError then 1 else 0
      ensures card.Grown() && (err == Ok || err == IoError)
      ensures err == Ok && func != FUNC_BT ==> len == (card.produced - card.taken) % RX_BYTE_MAX
      ensures err == Ok && func == FUNC_BT ==> IsBtLength(reg, len)
    {
      if func == FUNC_BT {
        var ok, pf := card.ReadHostPfReg();
        reg := pf;
        if !ok {
          return IoError, 0, reg;
        }
        // (pf[1] << 16 | pf[2] << 8 | pf[3]) & 0xffffff
        len := pf / 256 % 256 * 0x1_0000 + pf / 256 / 256 % 256 * 256 + pf / 256 / 256 / 256;
        ThreeBytes(pf / 256 % 256, pf / 256 / 256 % 256, pf / 256 / 256 / 256, len);
      } else {
        var ok, pktLen := card.ReadPktLenReg();
        reg := pktLen;
        if !ok {
          return IoError, 0, reg;
        }
        RxExact(pktLen, totalRx, card.produced, card.taken);
        len := RxAvailable(pktLen, totalRx);
      }
      err := Ok;
    }

    // The polling loop of get_packet; `polls` counts the reads of the length register, `seen`
    // is what the target had produced at the last of them, `reg` what function 2 showed.
    method PollLength(func: nat, waitMs: nat)
      returns (err: Err, len: U32, ghost polls: nat, ghost seen: nat, ghost reg: U32)
      requires Valid()
      modifies card`produced, card`granted, card`failed
      ensures card.failed == old(card.failed) + if err == IoError then 1 else 0
      ensures card.Grown() && (err == Ok || err == IoError || err == Timeout)
      ensures err == Ok ==> 0 < len
      ensures 0 < polls <= waitMs || polls == 1
      ensures err == Timeout ==> polls >= waitMs && len == 0
      ensures err == Ok ==> seen == card.produced
      ensures err == Ok || err == Timeout ==> old(card.produced) <= seen <= card.produced
      ensures (err == Ok || err == Timeout) && func != FUNC_BT ==> len == (seen - card.taken) % RX_BYTE_MAX
      ensures (err == Ok || err == Timeout) && func == FUNC_BT ==> IsBtLength(reg, len)
    {
      var waitTime := 0;
      polls := 0;
      while true
        invariant card.failed == old(card.failed)
        invariant card.Grown() && Valid()
        invariant polls == waitTime && (waitTime == 0 || waitTime < waitMs)
        decreases waitMs - waitTime
      {
        err, len, reg := GetRxDataSize(func);
        seen := card.produced;
        polls := polls + 1;
        if err == Ok && len > 0 {
          return;
        }
        if err != Ok {
          return;
        }
        waitTime := waitTime + 1;
        if waitTime >= waitMs {
          return Timeout, 0, polls, seen, reg;
        }
        card.Arrive();
      }
    }

    // The body of the receive loop: one transfer, from position `pos`.
    method FetchPass(func: nat, outBuf: array<Byte>, len: nat, pos: nat) returns (err: Err, n: nat)
      requires RoundUp4(len) <= outBuf.Length && PassStart(len, pos) && pos < len < 0x1000_0000
      requires func == FUNC_WIFI ==> card.taken + (len - pos) <= card.produced
      modifies card`produced, card`granted, card`failed, card`taken, card`log, outBuf
      ensures err == Ok || err == IoError
      ensures card.failed == old(card.failed) + if err == IoError then 1 else 0
      ensures card.Grown() && n == PassLength(len, pos)
      ensures forall k :: 0 <= k < pos || RoundUp4(len) <= k < outBuf.Length ==> outBuf[k] == old(outBuf[k])
      ensures err == Ok ==>
                card.log == old(card.log) +
                if (len - pos) / BLOCK_SIZE != 0
                then [Cmd53(false, func, StartAddr(func, len - pos), true, func == FUNC_WIFI, outBuf[pos..pos + n])]
                else ByteTransfers(false, func, StartAddr(func, len - pos), outBuf[pos..RoundUp4(len)])
      ensures err == Ok && func == FUNC_WIFI ==>
                card.taken == old(card.taken) + if len - pos <= CMD53_END_ADDR then n else 0
      ensures err == Ok && func == FUNC_WIFI && len - pos <= CMD53_END_ADDR ==>
                Delivered(outBuf, pos, n, old(card.taken) - pos)
      ensures func != FUNC_WIFI ==> card.taken == old(card.taken)
    {
      var blocks := (len - pos) / BLOCK_SIZE;
      if blocks != 0 {
        BlockPass(len, pos);
        n := blocks * BLOCK_SIZE;
        err := FetchBlocks(func, outBuf, len, pos, n);
      } else {
        BytePass(len, pos);
        n := len - pos;
        err := FetchTail(func, outBuf, pos, n, RoundUp4(len));
      }
    }

    // The block part: `n` bytes from the start of the buffer.
    method FetchBlocks(func: nat, outBuf: array<Byte>, len: nat, pos: nat, n: nat) returns (err: Err)
      requires pos == 0 && n <= len < 0x1000_0000 && n <= outBuf.Length
      requires func == FUNC_WIFI ==> card.taken + len <= card.produced
      modifies card`produced, card`granted, card`failed, card`taken, card`log, outBuf
      ensures card.failed == old(card.failed) + if err == IoError then 1 else 0
      ensures (err == Ok || err == IoError) && card.Grown()
      ensures forall k :: 0 <= k < pos || pos + n <= k < outBuf.Length ==> outBuf[k] == old(outBuf[k])
      ensures err == Ok ==>
                card.log == old(card.log) +
                [Cmd53(false, func, StartAddr(func, len - pos), true, func == FUNC_WIFI, outBuf[pos..pos + n])]
      ensures err == Ok && func == FUNC_WIFI ==>
                card.taken == old(card.taken) + if len - pos <= CMD53_END_ADDR then n else 0
      ensures err == Ok && func == FUNC_WIFI && len - pos <= CMD53_END_ADDR ==>
                Delivered(outBuf, pos, n, old(card.taken) - pos)
      ensures func != FUNC_WIFI ==> card.taken == old(card.taken)
    {
      WindowOfStart(len - pos);
      err := ReadChunk(func, StartAddr(func, len - pos), true, outBuf, pos, n);
    }

    // The tail: `n` bytes from `pos` on, rounded up so that they end at `end`.
    method FetchTail(func: nat, outBuf: array<Byte>, pos: nat, n: nat, end: nat) returns (err: Err)
      requires n < BLOCK_SIZE && pos + RoundUp4(n) == end <= outBuf.Length
      requires func == FUNC_WIFI ==> card.taken + n <= card.produced
      modifies card`produced, card`granted, card`failed, card`taken, card`log, outBuf
      ensures card.failed == old(card.failed) + if err == IoError then 1 else 0
      ensures (err == Ok || err == IoError) && card.Grown()
      ensures forall k :: 0 <= k < pos || end <= k < outBuf.Length ==> outBuf[k] == old(outBuf[k])
      ensures err == Ok ==> card.log == old(card.log) + ByteTransfers(false, func, StartAddr(func, n), outBuf[pos..end])
      ensures err == Ok && func == FUNC_WIFI ==>
                card.taken == old(card.taken) + n && Delivered(outBuf, pos, n, old(card.taken) - pos)
      ensures func != FUNC_WIFI ==> card.taken == old(card.taken)
    {
      WindowOfStart(n);
      RoundUp4Bounds(n);
      err := ReadBytes(func, StartAddr(func, n), outBuf, pos, end - pos);
    }

    // The same pass as a step of the whole packet, which began in state `log`, `from`.
    method ReceivePass(func: nat, outBuf: array<Byte>, len: nat, pos: nat, ghost log: seq<Cmd53>, ghost from: nat)
      returns (err: Err, n: nat)
      requires RoundUp4(len) <= outBuf.Length && PassStart(len, pos) && pos < len < 0x1000_0000
      requires card.log == log + Before(false, func, false, outBuf[..RoundUp4(len)], len, pos)
      requires func == FUNC_WIFI ==> from + len <= card.produced && card.taken == from + Reached(len, pos)
      requires func == FUNC_WIFI && len <= CMD53_END_ADDR ==> Delivered(outBuf, 0, pos, from)
      modifies card`produced, card`granted, card`failed, card`taken, card`log, outBuf
      ensures err == Ok || err == IoError
      ensures card.failed == old(card.failed) + if err == IoError then 1 else 0
      ensures card.Grown() && n == PassLength(len, pos) && PassStart(len, pos + n)
      ensures forall k :: RoundUp4(len) <= k < outBuf.Length ==> outBuf[k] == old(outBuf[k])
      ensures err == Ok ==> card.log == log + Before(false, func, false, outBuf[..RoundUp4(len)], len, pos + n)
      ensures err == Ok && func == FUNC_WIFI ==> card.taken == from + Reached(len, pos + n)
      ensures err == Ok && func == FUNC_WIFI && len <= CMD53_END_ADDR ==> Delivered(outBuf, 0, pos + n, from)
      ensures func != FUNC_WIFI ==> card.taken == old(card.taken)
    {
      ghost var was := outBuf[..];
      ReachedGrows(len, pos);
      err, n := FetchPass(func, outBuf, len, pos);
      ReceiveGrows(func, was, outBuf[..], len, pos);
    }

    // The loop over the transfers. `err0` is what the caller has in `err`; as there is at
    // least one transfer, it is always overwritten.
    method ReceivePacket(func: nat, outBuf: array<Byte>, len: nat, err0: Err) returns (err: Err)
      requires RoundUp4(len) <= outBuf.Length && 0 < len < 0x1000_0000
      requires func == FUNC_WIFI ==> card.taken + len <= card.produced
      modifies card`produced, card`granted, card`failed, card`taken, card`log, outBuf
      ensures err == Ok || err == IoError
      ensures card.failed == old(card.failed) + if err == IoError then 1 else 0
      ensures card.Grown()
      ensures forall k :: RoundUp4(len) <= k < outBuf.Length ==> outBuf[k] == old(outBuf[k])
      ensures err == Ok ==> card.log == old(card.log) + Transfers(false, func, false, outBuf[..RoundUp4(len)], len)
      ensures err == Ok && func == FUNC_WIFI ==> card.taken == old(card.taken) + Reached(len, len)
      ensures err == Ok && func == FUNC_WIFI && len <= CMD53_END_ADDR ==> Delivered(outBuf, 0, len, old(card.taken))
      ensures func != FUNC_WIFI ==> card.taken == old(card.taken)
    {
      var pos := 0;
      err := err0;
      while pos < len
        invariant card.failed == old(card.failed)
        invariant card.Grown() && pos <= len && PassStart(len, pos)
        invariant pos > 0 ==> err == Ok
        invariant forall k :: RoundUp4(len) <= k < outBuf.Length ==> outBuf[k] == old(outBuf[k])
        invariant card.log == old(card.log) + Before(false, func, false, outBuf[..RoundUp4(len)], len, pos)
        invariant func == FUNC_WIFI ==>
                    old(card.taken) + len <= card.produced && card.taken == old(card.taken) + Reached(len, pos)
        invariant func == FUNC_WIFI && len <= CMD53_END_ADDR ==> Delivered(outBuf, 0, pos, old(card.taken))
        invariant func != FUNC_WIFI ==> card.taken == old(card.taken)
      {
        var n;
        err, n := ReceivePass(func, outBuf, len, pos, old(card.log), old(card.taken));
        if err != Ok {
          return;
        }
        pos := pos + n;
      }
    }

    // The transfers of a packet of known length, and the count. The counters stay true if
    // and only if the packet fits the window.
    method TakePacket(func: nat, outBuf: array<Byte>, size: nat, len: nat, err0: Err) returns (err: Err)
      requires Valid() && 0 < len <= size && len < 0x1000_0000 && RoundUp4(len) <= outBuf.Length
      requires func == FUNC_WIFI || func == FUNC_BT
      requires func == FUNC_WIFI ==> len == Min((card.produced - card.taken) % RX_BYTE_MAX, size)
      modifies this`totalRx, card`produced, card`granted, card`failed, card`taken, card`log, outBuf
      ensures card.failed == old(card.failed) + if err == IoError then 1 else 0
      ensures card.Grown() && (err == Ok || err == IoError)
      ensures totalRx == if err == Ok && func != FUNC_BT then Wrap32(old(totalRx) + len) else old(totalRx)
      ensures err == Ok ==> card.log == old(card.log) + Transfers(false, func, false, outBuf[..RoundUp4(len)], len)
      ensures err == Ok && func == FUNC_WIFI ==> card.taken == old(card.taken) + Reached(len, len)
      ensures err == Ok && func == FUNC_WIFI ==> (Valid() <==> len <= CMD53_END_ADDR)
      ensures err == Ok && func == FUNC_WIFI && len <= CMD53_END_ADDR ==>
                GotPacket(card.stream, old(Rx()), size, old(card.produced), outBuf[..len], Rx())
    {
      if func == FUNC_WIFI {
        FitsAvailable(card.produced, card.taken, len);
      }
      err := ReceivePacket(func, outBuf, len, err0);
      if err == Ok && func != FUNC_BT {
        totalRx := Wrap32(totalRx + len);
        Counted(old(card.taken), len, outBuf[..len]);
        if len > CMD53_END_ADDR {
          CountedWrong(old(card.taken), len);
        }
      }
    }

    // `seen` is what the target had produced when the length was last read, and `reg` what
    // function 2 showed. The buffer must take the last transfer, which is rounded up to four
    // bytes. A packet longer than the buffer is cut to its size, and the call still succeeds.
    method GetPacket(func: nat, outBuf: array<Byte>, size: nat, waitMs: nat)
      returns (err: Err, outLength: nat, ghost seen: nat, ghost reg: U32)
      requires Valid() && RoundUp4(size) <= outBuf.Length && (func == FUNC_WIFI || func == FUNC_BT)
      modifies this`totalRx, card`produced, card`granted, card`failed, card`taken, card`log, outBuf
      ensures card.failed == old(card.failed) + if err == IoError then 1 else 0
      ensures card.Grown()
      ensures size == 0 <==> err == InvalidArg
      ensures err != NotFinished
      ensures totalRx == if err == Ok && func != FUNC_BT then Wrap32(old(totalRx) + outLength) else old(totalRx)
      ensures err == Timeout ==> Valid() && card.log == old(card.log) && card.taken == old(card.taken)
      ensures err == Timeout && func == FUNC_WIFI ==>
                seen >= old(card.produced) && (seen - card.taken) % RX_BYTE_MAX == 0
      ensures err == Ok && func == FUNC_BT ==> IsBtPacket(reg, size, outLength)
      ensures if err == Ok then 0 < outLength <= size else outLength == 0
      ensures err == Ok ==>
                card.log == old(card.log) + Transfers(false, func, false, outBuf[..RoundUp4(outLength)], outLength)
      ensures err == Ok && func == FUNC_WIFI ==> card.taken == old(card.taken) + Reached(outLength, outLength)
      ensures err == Ok && func == FUNC_WIFI ==> (Valid() <==> outLength <= CMD53_END_ADDR)
      ensures err == Ok && func == FUNC_WIFI && outLength <= CMD53_END_ADDR ==>
                GotPacket(card.stream, old(Rx()), size, seen, outBuf[..outLength], Rx())
    {
      outLength, seen, reg := 0, 0, 0;
      if size == 0 {
        return InvalidArg, 0, 0, 0;
      }
      var len;
      ghost var polls;
      err, len, polls, seen, reg := PollLength(func, waitMs);
      if err != Ok {
        return;
      }
      ghost var mid := Rx();
      err, outLength := TakeShown(func, outBuf, size, len);
      if err == Ok {
        BtPacketLength(func, reg, len, size, outLength);
        if func == FUNC_WIFI && outLength <= CMD53_END_ADDR {
          EarlierStart(card.stream, old(Rx()), mid, size, seen, outBuf[..outLength], Rx());
        }
      }
    }

    // A packet of which `shown` bytes are announced, cut to the size of the buffer.
    method TakeShown(func: nat, outBuf: array<Byte>, size: nat, shown: U32) returns (err: Err, outLength: nat)
      requires Valid() && 0 < shown && 0 < size && shown < 0x100_0000 && RoundUp4(size) <= outBuf.Length
      requires func == FUNC_WIFI || func == FUNC_BT
      requires func == FUNC_WIFI ==> shown == (card.produced - card.taken) % RX_BYTE_MAX
      modifies this`totalRx, card`produced, card`granted, card`failed, card`taken, card`log, outBuf
      ensures card.failed == old(card.failed) + if err == IoError then 1 else 0
      ensures card.Grown() && (err == Ok || err == IoError)
      ensures if err == Ok then 0 < outLength <= size else outLength == 0
      ensures err == Ok ==> outLength == Min(shown, size)
      ensures totalRx == if err == Ok && func != FUNC_BT then Wrap32(old(totalRx) + outLength) else old(totalRx)
      ensures err == Ok ==>
                card.log == old(card.log) + Transfers(false, func, false, outBuf[..RoundUp4(outLength)], outLength)
      ensures err == Ok && func == FUNC_WIFI ==> card.taken == old(card.taken) + Reached(outLength, outLength)
      ensures err == Ok && func == FUNC_WIFI ==> (Valid() <==> outLength <= CMD53_END_ADDR)
      ensures err == Ok && func == FUNC_WIFI && outLength <= CMD53_END_ADDR ==>
                GotPacket(card.stream, old(Rx()), size, old(card.produced), outBuf[..outLength], Rx())
    {
      outLength := 0;
      var len := shown;
      err := Ok;
      if len > size {
        len := size;
        err := NotFinished;
      }
      RoundUp4Grows(len, size);
      err := TakePacket(func, outBuf, size, len, err);
      if err == Ok {
        outLength := len;
      }
    }

    ghost function Rx(): RxLink
      reads this, card
    {
      RxLink(card.produced, card.taken, totalRx)
    }
  }

  method CopyInto(dst: array<Byte>, at: nat, data: seq<Byte>)
    requires at + |data| <= dst.Length
    modifies dst
    ensures dst[at..at + |data|] == data
    ensures forall k :: 0 <= k < at || at + |data| <= k < dst.Length ==> dst[k] == old(dst[k])
  {
    for i := 0 to |data|
      invariant forall k :: 0 <= k < at || at + |data| <= k < dst.Length ==> dst[k] == old(dst[k])
      invariant forall k :: 0 <= k < i ==> dst[at + k] == data[k]
    {
      dst[at + i] := data[i];
    }
  }
}
