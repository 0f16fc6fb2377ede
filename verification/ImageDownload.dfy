/** Firmware download end to end: which images arrive whole, and the call that sends one. */
module ImageDownload {
  import opened Words
  import opened SdioTransfers
  import opened TargetRom
  import opened SipLayer
  import opened Firmware
  import opened FirmwareImage

  // Address `a` belongs to the data of the block, padding aside.
  predicate InData(b: Block, a: int) {
    b.addr <= a < b.addr + |b.data|
  }

  ghost predicate Supplies(fw: seq<Byte>, blocks: seq<Block>, j: nat, a: int, x: Byte)
    requires j < |blocks|
  {
    0 <= SourceOf(blocks, j, a) < |fw| && fw[SourceOf(blocks, j, a)] == x
  }

  // Byte `k` of block `i` is lost to block `j`: the last rounded range over its address is
  // that of `j`, and what `j` reads for it from the image is another byte.
  ghost predicate Overwrites(fw: seq<Byte>, blocks: seq<Block>, i: nat, j: nat, k: nat)
    requires i < j < |blocks| && k < |blocks[i].data|
  {
    var a := blocks[i].addr + k;
    InRange(blocks[j], a) && !Covered(blocks, j + 1, a) && !Supplies(fw, blocks, j, a, blocks[i].data[k])
  }

  // A condition on the image alone.
  ghost predicate Harmless(fw: seq<Byte>, blocks: seq<Block>) {
    forall i, j, k :: 0 <= i < j < |blocks| && 0 <= k < |blocks[i].data| ==> !Overwrites(fw, blocks, i, j, k)
  }

  // A byte of a block arrives exactly when the last range over its address reads that byte.
  lemma {:induction false} ByteLoadsIff(fw: seq<Byte>, blocks: seq<Block>, i: nat, j: nat, k: nat, before: Byte)
    requires IsImage(fw, blocks) && i < |blocks| && j < |blocks| && k < |blocks[i].data|
    requires InRange(blocks[j], blocks[i].addr + k) && !Covered(blocks, j + 1, blocks[i].addr + k)
    ensures Walkable(fw, |blocks|)
    ensures Loaded(Pieces(fw, |blocks|), blocks[i].addr + k, before) == blocks[i].data[k]
            <==> Supplies(fw, blocks, j, blocks[i].addr + k, blocks[i].data[k])
  {
    LastCoverDecides(fw, blocks, j, blocks[i].addr + k, before);
  }

  lemma {:induction false} LastCover(blocks: seq<Block>, i: nat, a: int) returns (j: nat)
    requires i < |blocks| && InRange(blocks[i], a)
    ensures i <= j < |blocks| && InRange(blocks[j], a) && !Covered(blocks, j + 1, a)
    decreases |blocks| - i
  {
    if Covered(blocks, i + 1, a) {
      var m :| i + 1 <= m < |blocks| && InRange(blocks[m], a);
      j := LastCover(blocks, m, a);
    } else {
      j := i;
    }
  }

  lemma {:induction false} ByteArrives(fw: seq<Byte>, blocks: seq<Block>, i: nat, k: nat, before: Byte)
    requires IsImage(fw, blocks) && Harmless(fw, blocks) && i < |blocks| && k < |blocks[i].data|
    ensures Walkable(fw, |blocks|)
    ensures Loaded(Pieces(fw, |blocks|), blocks[i].addr + k, before) == blocks[i].data[k]
  {
    var j := LastCover(blocks, i, blocks[i].addr + k);
    if j == i {
      BlockLoads(fw, blocks, i, k, blocks[i].addr + k, before);
    } else {
      assert !Overwrites(fw, blocks, i, j, k);
      ByteLoadsIff(fw, blocks, i, j, k, before);
    }
  }

  // ----- what the target holds

  // Byte `k` of the block is at its address, whatever was there before.
  ghost predicate ByteStored(log: seq<Cmd53>, b: Block, k: nat, before: Byte)
    requires k < |b.data|
  {
    Stored(log, b.addr + k, before) == b.data[k]
  }

  // Every byte of every block is at its address.
  ghost predicate InMemory(log: seq<Cmd53>, blocks: seq<Block>) {
    forall i, k, before: Byte :: 0 <= i < |blocks| && 0 <= k < |blocks[i].data| ==>
      ByteStored(log, blocks[i], k, before)
  }

  // Nothing outside the rounded ranges has changed.
  ghost predicate Untouched(log0: seq<Cmd53>, log: seq<Cmd53>, blocks: seq<Block>) {
    forall a: int, before: Byte :: !Covered(blocks, 0, a) ==> Stored(log, a, before) == Stored(log0, a, before)
  }

  ghost predicate AddressesFit(blocks: seq<Block>) {
    forall i :: 0 <= i < |blocks| ==> blocks[i].addr + RoundUp4(|blocks[i].data|) <= TWO32
  }

  lemma {:induction false} PiecesFit(fw: seq<Byte>, blocks: seq<Block>)
    requires IsImage(fw, blocks) && AddressesFit(blocks)
    ensures Walkable(fw, |blocks|) && AllFit(Pieces(fw, |blocks|))
  {
    ImageIsWalkable(fw, blocks);
    forall j | 0 <= j < |blocks|
      ensures FitsAddressSpace(Pieces(fw, |blocks|)[j])
    {
      PieceMatches(fw, blocks, j);
    }
  }

  // Image correctness: the image arrives whole if and only if no block loses a byte to a
  // later one, and nothing else changes in either case.
  lemma {:induction false} ImageArrivesIff(fw: seq<Byte>, blocks: seq<Block>, log0: seq<Cmd53>, log: seq<Cmd53>)
    requires IsImage(fw, blocks) && AddressesFit(blocks) && Walkable(fw, |blocks|)
    requires Loads(log0, log, Pieces(fw, |blocks|))
    ensures InMemory(log, blocks) <==> Harmless(fw, blocks)
    ensures Untouched(log0, log, blocks)
  {
    PiecesFit(fw, blocks);
    var ps := Pieces(fw, |blocks|);
    if Harmless(fw, blocks) {
      forall i, k, before: Byte | 0 <= i < |blocks| && 0 <= k < |blocks[i].data|
        ensures ByteStored(log, blocks[i], k, before)
      {
        assert Holds(log0, log, ps, blocks[i].addr + k, before);
        ByteArrives(fw, blocks, i, k, Stored(log0, blocks[i].addr + k, before));
      }
    } else {
      OverwrittenIsWrong(fw, blocks, log0, log);
    }
    forall a: int, before: Byte | !Covered(blocks, 0, a)
      ensures Stored(log, a, before) == Stored(log0, a, before)
    {
      assert Holds(log0, log, ps, a, before);
      OutsideUntouched(fw, blocks, a, Stored(log0, a, before));
    }
  }

  lemma {:induction false} OverwrittenIsWrong(fw: seq<Byte>, blocks: seq<Block>, log0: seq<Cmd53>, log: seq<Cmd53>)
    requires IsImage(fw, blocks) && Walkable(fw, |blocks|) && AllFit(Pieces(fw, |blocks|))
    requires Loads(log0, log, Pieces(fw, |blocks|)) && !Harmless(fw, blocks)
    ensures !InMemory(log, blocks)
  {
    var i, j, k :| 0 <= i < j < |blocks| && 0 <= k < |blocks[i].data| && Overwrites(fw, blocks, i, j, k);
    OneWrong(fw, blocks, i, j, k, log0, log);
    assert !ByteStored(log, blocks[i], k, 0);
  }

  lemma {:induction false} OneWrong(fw: seq<Byte>, blocks: seq<Block>, i: nat, j: nat, k: nat, log0: seq<Cmd53>,
                                    log: seq<Cmd53>)
    requires IsImage(fw, blocks) && i < j < |blocks| && k < |blocks[i].data| && Overwrites(fw, blocks, i, j, k)
    requires Walkable(fw, |blocks|) && AllFit(Pieces(fw, |blocks|)) && Loads(log0, log, Pieces(fw, |blocks|))
    ensures !ByteStored(log, blocks[i], k, 0)
  {
    assert Holds(log0, log, Pieces(fw, |blocks|), blocks[i].addr + k, 0);
    ByteLoadsIff(fw, blocks, i, j, k, Stored(log0, blocks[i].addr + k, 0));
  }

  // Only a later range that reaches into earlier data can do harm; the padding of a block
  // may run into the data of a later one.
  lemma LaterDataWins(fw: seq<Byte>, blocks: seq<Block>)
    requires forall i, j, a: int :: 0 <= i < j < |blocks| && InData(blocks[i], a) ==> !InRange(blocks[j], a)
    ensures Harmless(fw, blocks)
  {
    forall i, j, k | 0 <= i < j < |blocks| && 0 <= k < |blocks[i].data|
      ensures !Overwrites(fw, blocks, i, j, k)
    {
      assert InData(blocks[i], blocks[i].addr + k);
    }
  }

  ghost predicate RangesDisjoint(blocks: seq<Block>) {
    forall i, j, a: int :: 0 <= i < j < |blocks| && InRange(blocks[i], a) ==> !InRange(blocks[j], a)
  }

  lemma DisjointIsHarmless(fw: seq<Byte>, blocks: seq<Block>)
    requires RangesDisjoint(blocks)
    ensures Harmless(fw, blocks)
  {
    forall i, j, a: int | 0 <= i < j < |blocks| && InData(blocks[i], a)
      ensures !InRange(blocks[j], a)
    {
      assert InRange(blocks[i], a);
    }
    LaterDataWins(fw, blocks);
  }

  // Disjoint data is not enough: the padding of the second block overwrites the first, and
  // every successful download of this image leaves a wrong byte in memory.
  lemma FailingImage() returns (fw: seq<Byte>, blocks: seq<Block>)
    ensures 2 <= |fw| < TWO32 && fw[0] == MAGIC_HEADER && fw[1] == |blocks|
    ensures IsImage(fw, blocks) && AddressesFit(blocks) && Walkable(fw, |blocks|)
    ensures forall i, j, a: int :: 0 <= i < j < |blocks| && InData(blocks[i], a) ==> !InData(blocks[j], a)
    ensures !Harmless(fw, blocks)
    ensures forall log0, log :: Loads(log0, log, Pieces(fw, |blocks|)) ==> !InMemory(log, blocks)
  {
    blocks := [Block(101, [7]), Block(100, [1])];
    fw := [MAGIC_HEADER, 2] + seq(PREFIX_LEN - 2, _ => 0) + SerializeBlock(blocks[0]) + SerializeBlock(blocks[1]) +
      [0, 0, 0];
    TwoBlocks(fw, blocks);
    assert SourceOf(blocks, 1, 101) == 42 && fw[42] == 0;
    assert Overwrites(fw, blocks, 0, 1, 0);
    NeverArrives(fw, blocks);
  }

  lemma {:induction false} NeverArrives(fw: seq<Byte>, blocks: seq<Block>)
    requires IsImage(fw, blocks) && AddressesFit(blocks) && !Harmless(fw, blocks)
    ensures Walkable(fw, |blocks|)
    ensures forall log0, log :: Loads(log0, log, Pieces(fw, |blocks|)) ==> !InMemory(log, blocks)
  {
    ImageIsWalkable(fw, blocks);
    forall log0, log | Loads(log0, log, Pieces(fw, |blocks|))
      ensures !InMemory(log, blocks)
    {
      ImageArrivesIff(fw, blocks, log0, log);
    }
  }

  // The offsets of an image of two one-byte blocks.
  lemma {:induction false} TwoBlocks(fw: seq<Byte>, blocks: seq<Block>)
    requires |blocks| == 2 && |blocks[0].data| == 1 && |blocks[1].data| == 1 && |fw| == PREFIX_LEN + 9 + 9 + 3
    requires fw[PREFIX_LEN..PREFIX_LEN + 9] == SerializeBlock(blocks[0])
    requires fw[PREFIX_LEN + 9..PREFIX_LEN + 18] == SerializeBlock(blocks[1])
    ensures IsImage(fw, blocks) && BlockOffset(blocks, 1) == PREFIX_LEN + 9
  {
    var first := blocks[..1];
    assert first[..0] == [] && first[0] == blocks[0] && blocks[..2 - 1] == first;
    assert Serialize(first) == [] + SerializeBlock(blocks[0]);
    assert Serialize(blocks) == SerializeBlock(blocks[0]) + SerializeBlock(blocks[1]);
    assert fw[PREFIX_LEN..PREFIX_LEN + 18] == fw[PREFIX_LEN..PREFIX_LEN + 9] + fw[PREFIX_LEN + 9..PREFIX_LEN + 18];
    assert BlockOffset(blocks, 1) == BlockOffset(blocks, 0) + BLK_HDR_LEN + 1;
  }

  // ----- the call

  // The download of an image. On success it ends at 24 + the sum of (8 + data_len), every
  // block is in memory exactly when none loses a byte to a later one, in particular when
  // the rounded ranges are disjoint, and nothing outside those ranges has changed.
  method DownloadImage(sip: EspSip, fw: seq<Byte>, ghost blocks: seq<Block>, heapOk: bool)
    returns (err: Status, end: nat)
    requires sip.Valid() && 2 <= |fw| < TWO32 && fw[1] == |blocks|
    requires IsImage(fw, blocks) && AddressesFit(blocks)
    modifies sip`txseq, sip`rawbuf, sip.rawbuf
    modifies sip.host.card`produced, sip.host.card`granted, sip.host.card`failed, sip.host.card`log
    ensures sip.Valid() && OnlyWrites(old(sip.host.card.log), sip.host.card.log)
    ensures fw[0] != MAGIC_HEADER ==> err == FAIL && sip.host.card.log == old(sip.host.card.log)
    ensures fw[0] == MAGIC_HEADER ==> Accounted(err, heapOk, old(sip.host.card.failed), sip.host.card.failed)
    ensures err == OK ==> end == PREFIX_LEN + |Serialize(blocks)| == BlockOffset(blocks, |blocks|)
    ensures err == OK ==> (InMemory(sip.host.card.log, blocks) <==> Harmless(fw, blocks))
    ensures err == OK && RangesDisjoint(blocks) ==> InMemory(sip.host.card.log, blocks)
    ensures err == OK ==> Untouched(old(sip.host.card.log), sip.host.card.log, blocks)
  {
    ghost var log0 := sip.host.card.log;
    ImageIsWalkable(fw, blocks);
    err, end := FwDownload(sip, fw, heapOk);
    if err == OK {
      ImageArrivesIff(fw, blocks, log0, sip.host.card.log);
      if RangesDisjoint(blocks) {
        DisjointIsHarmless(fw, blocks);
      }
    }
  }
}
