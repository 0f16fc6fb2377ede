/**
 How the SDIO adapter cuts a packet into CMD53 transfers (IO_RW_EXTENDED,
 section 5.3 of the SDIO Simplified Specification 3.00): one block-mode transfer
 for the full 512-byte blocks and one byte-mode transfer, rounded up to four
 bytes, for the rest.
 */
module SdioTransfers {
  import opened Words

  const CMD53_END_ADDR := 0x1_f800
  const BLOCK_SIZE := 512
  const FUNC_WIFI := 1
  const FUNC_BT := 2

  datatype Cmd53 = Cmd53(write: bool, func: nat, addr: U32, blockMode: bool, increment: bool, data: seq<Byte>)

  // Function 1 is addressed backwards from the end of its window.
  function StartAddr(func: nat, remaining: nat): U32 {
    if func == FUNC_WIFI then Wrap32(CMD53_END_ADDR - remaining) else 0
  }

  function BlockPart(len: nat): (b: nat)
    ensures b <= len < b + BLOCK_SIZE
  {
    len / BLOCK_SIZE * BLOCK_SIZE
  }

  lemma BlockPartAligned(len: nat)
    ensures BlockPart(len) == 512 * (len / 512)
    ensures BlockPart(len) % BLOCK_SIZE == 0 && BlockPart(len) % 4 == 0
    ensures BlockPart(len) <= RoundUp4(len)
    ensures (BlockPart(len) == len) == (len % BLOCK_SIZE == 0)
    ensures BlockPart(len) == 0 <==> len < BLOCK_SIZE
  {
    var q := len / 512;
    assert len == 512 * q + len % 512;
    assert 512 * q == 4 * (128 * q);
    assert (512 * q) % 512 == 0;
  }

  // Rounding to four commutes with taking off a multiple of four.
  lemma RoundUp4Shift(n: nat, k: nat)
    requires k % 4 == 0 && k <= n
    ensures RoundUp4(n) - k == RoundUp4(n - k)
  {
    var j := k / 4;
    assert n + 3 == 4 * j + (n - k + 3);
  }

  lemma RoundUp4Bounds(n: nat)
    ensures n <= RoundUp4(n) <= n + 3 && RoundUp4(n) % 4 == 0
    ensures n % 4 == 0 <==> RoundUp4(n) == n
  {
    var q := (n + 3) / 4;
    assert n + 3 == 4 * q + (n + 3) % 4;
  }

  function Head(write: bool, func: nat, data: seq<Byte>, len: nat): (r: seq<Cmd53>)
    requires |data| == RoundUp4(len)
  {
    var b := BlockPart(len);
    if b == 0 then []
    else [Cmd53(write, func, StartAddr(func, len), true, func == FUNC_WIFI, data[..b])]
  }

  /** The transfers of one packet of `len` bytes. `sticky` tells whether the tail
      re-uses the start address of the packet (send) or moves on (receive). */
  function Transfers(write: bool, func: nat, sticky: bool, data: seq<Byte>, len: nat): seq<Cmd53>
    requires |data| == RoundUp4(len)
  {
    var b := BlockPart(len);
    Head(write, func, data, len) +
    if b == len then []
    else [Cmd53(write, func, StartAddr(func, if sticky then len else len - b), false, func == FUNC_WIFI, data[b..])]
  }

  // What the byte-mode helpers issue for any size: the multiple of four, then the rest.
  function ByteTransfers(write: bool, func: nat, addr: U32, data: seq<Byte>): seq<Cmd53> {
    var a := |data| / 4 * 4;
    (if a == 0 then [] else [Cmd53(write, func, addr, false, func == FUNC_WIFI, data[..a])]) +
    (if a == |data| then [] else [Cmd53(write, func, Wrap32(addr + a), false, func == FUNC_WIFI, data[a..])])
  }

  lemma ByteTransfersAligned(write: bool, func: nat, addr: U32, data: seq<Byte>)
    requires |data| % 4 == 0
    ensures ByteTransfers(write, func, addr, data) ==
            if data == [] then [] else [Cmd53(write, func, addr, false, func == FUNC_WIFI, data)]
  {
    assert data[..|data|] == data;
  }

  // The size of one transfer of the byte-mode loops, at position `pos` of `size`.
  function ByteStep(size: nat, pos: nat): (n: nat)
    requires pos < size && (pos == 0 || pos == size / 4 * 4)
    ensures 0 < n && (pos + n == size / 4 * 4 || pos + n == size) && pos + n <= size
  {
    var aligned := (size - pos) / 4 * 4;
    if aligned > 0 then aligned else size - pos
  }

  // One round of the byte-mode loops, `n` bytes from position `pos`.
  lemma ByteTransfersStep(write: bool, func: nat, addr: U32, data: seq<Byte>, pos: nat, n: nat)
    requires pos < |data| && (pos == 0 || pos == |data| / 4 * 4) && n == ByteStep(|data|, pos)
    ensures ByteTransfers(write, func, addr, data[..pos + n]) ==
            ByteTransfers(write, func, addr, data[..pos]) +
            [Cmd53(write, func, Wrap32(addr + pos), false, func == FUNC_WIFI, data[pos..pos + n])]
  {
    var a := |data| / 4 * 4;
    if pos == 0 {
      assert data[..0] == [] && data[..n] == data[0..n];
      assert a > 0 ==> n == a && data[..a][..a] == data[..a];
      assert a == 0 ==> data[..n][0..] == data[..n];
    } else {
      assert n == |data| - a && data[..pos + n] == data;
      assert data[..a][..a] == data[..a] && data[a..pos + n] == data[a..];
    }
  }

  function Payload(ts: seq<Cmd53>): seq<Byte> {
    if ts == [] then [] else ts[0].data + Payload(ts[1..])
  }

  // The bytes one pass of the packet loops moves from position `pos`.
  function PassLength(len: nat, pos: nat): (n: nat)
    requires pos <= len
    ensures pos + n <= len
  {
    if (len - pos) / BLOCK_SIZE != 0 then BlockPart(len - pos) else len - pos
  }

  // The transfers of the passes before position `pos`.
  function Before(write: bool, func: nat, sticky: bool, data: seq<Byte>, len: nat, pos: nat): seq<Cmd53>
    requires |data| == RoundUp4(len)
  {
    if pos == len then Transfers(write, func, sticky, data, len)
    else if pos == 0 then [] else Head(write, func, data, len)
  }

  ghost predicate PassStart(len: nat, pos: nat) {
    pos == 0 || pos == len || pos == BlockPart(len)
  }

  // What the pass from position `pos` issues.
  function PassTransfers(write: bool, func: nat, sticky: bool, data: seq<Byte>, len: nat, pos: nat): seq<Cmd53>
    requires |data| == RoundUp4(len) && pos <= len
  {
    var addr := StartAddr(func, if sticky then len else len - pos);
    if (len - pos) / BLOCK_SIZE != 0
    then [Cmd53(write, func, addr, true, func == FUNC_WIFI, data[pos..pos + PassLength(len, pos)])]
    else ByteTransfers(write, func, addr, data[pos..])
  }

  lemma BlockPass(len: nat, pos: nat)
    requires PassStart(len, pos) && pos <= len && (len - pos) / BLOCK_SIZE != 0
    ensures pos == 0 && PassLength(len, pos) == BlockPart(len) > 0
  {
    BlockPartAligned(len);
  }

  lemma BytePass(len: nat, pos: nat)
    requires PassStart(len, pos) && pos <= len && (len - pos) / BLOCK_SIZE == 0
    requires len > 0 ==> pos < len
    ensures pos == BlockPart(len) && PassLength(len, pos) == len - pos
    ensures RoundUp4(len) - pos == RoundUp4(len - pos) && (RoundUp4(len) - pos) % 4 == 0
    ensures len - pos == 0 <==> RoundUp4(len) - pos == 0
  {
    BlockPartAligned(len);
    RoundUp4Shift(len, pos);
    RoundUp4Bounds(len - pos);
  }

  lemma PassGrows(write: bool, func: nat, sticky: bool, data: seq<Byte>, len: nat, pos: nat)
    requires |data| == RoundUp4(len)
    requires PassStart(len, pos) && pos <= len && (len > 0 ==> pos < len)
    ensures PassStart(len, pos + PassLength(len, pos))
    ensures Before(write, func, sticky, data, len, pos + PassLength(len, pos)) ==
            Before(write, func, sticky, data, len, pos) + PassTransfers(write, func, sticky, data, len, pos)
  {
    if (len - pos) / BLOCK_SIZE != 0 {
      BlockPass(len, pos);
      assert data[0..BlockPart(len)] == data[..BlockPart(len)];
    } else {
      BytePass(len, pos);
      ByteTransfersAligned(write, func, StartAddr(func, if sticky then len else len - pos), data[pos..]);
    }
  }

  // Coverage: at most two transfers carry the buffer in order, without gap or
  // overlap, and at most three bytes beyond it.
  lemma TransfersCover(write: bool, func: nat, sticky: bool, data: seq<Byte>, len: nat)
    requires |data| == RoundUp4(len)
    ensures |Transfers(write, func, sticky, data, len)| <= 2
    ensures Payload(Transfers(write, func, sticky, data, len)) == data
    ensures len <= |data| <= len + 3
  {
    BlockPartAligned(len);
    RoundUp4Bounds(len);
    var ts, b := Transfers(write, func, sticky, data, len), BlockPart(len);
    if 0 < b < len {
      assert ts[1..] == [ts[1]];
      PayloadOne(ts[1]);
      assert data[..b] + data[b..] == data;
    } else if 0 < len {
      assert ts == [ts[0]] && ts[0].data == data;
      PayloadOne(ts[0]);
    }
  }

  // How every transfer of a packet is addressed and flagged: function 1 with increasing
  // addresses, any other function at address 0; blocks first, if there is a whole one.
  lemma TransferFlags(write: bool, func: nat, sticky: bool, data: seq<Byte>, len: nat, i: nat)
    requires |data| == RoundUp4(len) && i < |Transfers(write, func, sticky, data, len)|
    ensures var t := Transfers(write, func, sticky, data, len)[i];
            && t.write == write && t.func == func
            && (func != FUNC_WIFI ==> t.addr == 0 && !t.increment) && (func == FUNC_WIFI ==> t.increment)
            && (t.blockMode <==> i == 0 && BLOCK_SIZE <= len)
  {
    BlockPartAligned(len);
  }

  lemma PayloadOne(t: Cmd53)
    ensures Payload([t]) == t.data
  {
    assert [t][1..] == [];
  }

  // A small aligned packet is one byte-mode transfer that ends at the end address.
  lemma SmallPacket(write: bool, sticky: bool, data: seq<Byte>)
    requires 0 < |data| < BLOCK_SIZE && |data| % 4 == 0
    ensures RoundUp4(|data|) == |data|
    ensures Transfers(write, FUNC_WIFI, sticky, data, |data|) ==
            [Cmd53(write, FUNC_WIFI, CMD53_END_ADDR - |data|, false, true, data)]
  {
    RoundUp4Bounds(|data|);
    BlockPartAligned(|data|);
    assert data[0..] == data;
  }

  // Every transfer is one that CMD53 can express: whole blocks, at most 511 of
  // them, or 1 to 512 bytes, and a multiple of four bytes in either case.
  ghost predicate Expressible(t: Cmd53) {
    && |t.data| % 4 == 0
    && if t.blockMode then |t.data| % BLOCK_SIZE == 0 && 1 <= |t.data| / BLOCK_SIZE <= 511
       else 1 <= |t.data| <= 512
  }

  lemma TransfersExpressible(write: bool, func: nat, sticky: bool, data: seq<Byte>, len: nat)
    requires |data| == RoundUp4(len)
    ensures (forall t :: t in Transfers(write, func, sticky, data, len) ==> Expressible(t))
            <==> len < 512 * BLOCK_SIZE
  {
    var ts, b := Transfers(write, func, sticky, data, len), BlockPart(len);
    if b > 0 {
      HeadExpressible(write, func, data, len);
      assert ts[0] in ts;
    }
    if b < len {
      TailExpressible(data, len);
    }
  }

  lemma HeadExpressible(write: bool, func: nat, data: seq<Byte>, len: nat)
    requires |data| == RoundUp4(len) && BlockPart(len) > 0
    ensures Expressible(Head(write, func, data, len)[0]) <==> len < 512 * BLOCK_SIZE
  {
    BlockPartAligned(len);
  }

  lemma TailExpressible(data: seq<Byte>, len: nat)
    requires |data| == RoundUp4(len) && BlockPart(len) < len
    ensures |data[BlockPart(len)..]| % 4 == 0 && 1 <= |data[BlockPart(len)..]| <= 512
  {
    BlockPartAligned(len);
    RoundUp4Shift(len, BlockPart(len));
    RoundUp4Bounds(len - BlockPart(len));
  }

  // Each transfer of a function-1 packet starts where the bytes still to come would
  // end at the end address.
  ghost predicate WindowsExact(ts: seq<Cmd53>, len: nat) {
    forall i :: 0 <= i < |ts| ==>
      ts[i].addr == Wrap32(CMD53_END_ADDR - (len - |Payload(ts[..i])|))
  }

  lemma WrapSeparates(x: int, b: int)
    requires 0 < b < TWO32
    ensures Wrap32(x) != Wrap32(x + b)
  {
    var q := (x + b) / TWO32 - x / TWO32;
    assert Wrap32(x + b) == Wrap32(x) + b - TWO32 * q;
  }

  // The receive path always addresses exact windows; the send path does so exactly
  // for the lengths that need a single transfer.
  lemma WindowsExactIff(write: bool, sticky: bool, data: seq<Byte>, len: U32)
    requires |data| == RoundUp4(len)
    ensures WindowsExact(Transfers(write, FUNC_WIFI, sticky, data, len), len)
            <==> !sticky || len < BLOCK_SIZE || len % BLOCK_SIZE == 0
  {
    BlockPartAligned(len);
    RoundUp4Bounds(len);
    if 0 < BlockPart(len) < len {
      TwoWindows(write, sticky, data, len, BlockPart(len));
    } else {
      OneWindow(write, sticky, data, len);
    }
  }

  lemma OneWindow(write: bool, sticky: bool, data: seq<Byte>, len: U32)
    requires |data| == RoundUp4(len) && (BlockPart(len) == 0 || BlockPart(len) == len)
    ensures WindowsExact(Transfers(write, FUNC_WIFI, sticky, data, len), len)
  {
    var ts := Transfers(write, FUNC_WIFI, sticky, data, len);
    assert |ts| <= 1 && ts[..0] == [];
  }

  lemma TwoWindows(write: bool, sticky: bool, data: seq<Byte>, len: U32, b: nat)
    requires |data| == RoundUp4(len) && b == BlockPart(len) && 0 < b < len <= |data|
    ensures WindowsExact(Transfers(write, FUNC_WIFI, sticky, data, len), len) <==> !sticky
  {
    var ts := Transfers(write, FUNC_WIFI, sticky, data, len);
    assert |ts| == 2 && ts[..0] == [] && ts[..1] == [ts[0]];
    assert ts[0].addr == Wrap32(CMD53_END_ADDR - len);
    assert ts[1].addr == Wrap32(CMD53_END_ADDR - if sticky then len else len - b);
    PayloadOne(ts[0]);
    assert |Payload(ts[..1])| == b;
    WrapSeparates(CMD53_END_ADDR - len, b);
  }
}
