/** Images as a tool would write them, and what a successful download leaves in memory. */
module FirmwareImage {
  import opened Words
  import opened Firmware

  datatype Block = Block(addr: U32, data: seq<Byte>)

  function SerializeBlock(b: Block): seq<Byte>
    requires |b.data| < TWO32
  {
    Le32(b.addr) + Le32(|b.data|) + b.data
  }

  ghost predicate Sized(blocks: seq<Block>) {
    forall i :: 0 <= i < |blocks| ==> |blocks[i].data| < TWO32
  }

  ghost function Serialize(blocks: seq<Block>): seq<Byte>
    requires Sized(blocks)
  {
    if blocks == [] then []
    else Serialize(blocks[..|blocks| - 1]) + SerializeBlock(blocks[|blocks| - 1])
  }

  // 24 + sum of (8 + data_len) over the first k blocks
  ghost function BlockOffset(blocks: seq<Block>, k: nat): nat
    requires k <= |blocks|
  {
    if k == 0 then PREFIX_LEN else BlockOffset(blocks, k - 1) + BLK_HDR_LEN + |blocks[k - 1].data|
  }

  /** `fw` holds the image: a 24-byte prefix, the blocks, and whatever the rounding of
      the last block reads beyond them. */
  ghost predicate IsImage(fw: seq<Byte>, blocks: seq<Block>)
  {
    && Sized(blocks)
    && PREFIX_LEN + |Serialize(blocks)| <= |fw|
    && fw[PREFIX_LEN..PREFIX_LEN + |Serialize(blocks)|] == Serialize(blocks)
    && (blocks != [] ==>
          var len := |blocks[|blocks| - 1].data|;
          PREFIX_LEN + |Serialize(blocks)| + (RoundUp4(len) - len) <= |fw|)
  }

  // Block `k` of an image sits at its offset.
  ghost predicate BlockAt(fw: seq<Byte>, blocks: seq<Block>, k: nat)
    requires k < |blocks|
  {
    var at, b := BlockOffset(blocks, k), blocks[k];
    && InBounds(fw, at)
    && PieceAt(fw, at).addr == b.addr && DataLen(fw, at) == |b.data|
    && |PieceAt(fw, at).data| == RoundUp4(|b.data|)
    && PieceAt(fw, at).data[..|b.data|] == b.data
  }

  lemma {:induction false} PrefixIsImage(fw: seq<Byte>, blocks: seq<Block>)
    requires IsImage(fw, blocks) && blocks != []
    ensures IsImage(fw, blocks[..|blocks| - 1])
  {
    var init, s, b := blocks[..|blocks| - 1], Serialize(blocks), blocks[|blocks| - 1];
    SliceOfSlice(fw, PREFIX_LEN, PREFIX_LEN + |s|, 0, |Serialize(init)|);
    assert s[0..|Serialize(init)|] == Serialize(init);
    assert |SerializeBlock(b)| >= 8;
  }

  lemma {:induction false} SerializeLength(blocks: seq<Block>)
    requires Sized(blocks)
    ensures PREFIX_LEN + |Serialize(blocks)| == BlockOffset(blocks, |blocks|)
  {
    if blocks != [] {
      var init := blocks[..|blocks| - 1];
      SerializeLength(init);
      OffsetPrefix(blocks, |init|, |init|);
    }
  }

  lemma {:induction false} OffsetPrefix(blocks: seq<Block>, n: nat, k: nat)
    requires k <= n <= |blocks|
    ensures BlockOffset(blocks[..n], k) == BlockOffset(blocks, k)
  {
    if k > 0 {
      OffsetPrefix(blocks, n, k - 1);
    }
  }

  lemma LastBlockAt(fw: seq<Byte>, blocks: seq<Block>)
    requires IsImage(fw, blocks) && blocks != []
    ensures BlockAt(fw, blocks, |blocks| - 1)
  {
    var n := |blocks| - 1;
    var init, s, b := blocks[..n], Serialize(blocks), blocks[n];
    SerializeLength(init);
    OffsetPrefix(blocks, n, n);
    var at := BlockOffset(blocks, n);
    assert at == PREFIX_LEN + |Serialize(init)|;
    assert s[|Serialize(init)|..|s|] == SerializeBlock(b);
    SliceOfSlice(fw, PREFIX_LEN, PREFIX_LEN + |s|, |Serialize(init)|, |s|);
    var t := fw[at..at + |SerializeBlock(b)|];
    assert t == SerializeBlock(b);
    BlockDecodes(fw, at, b);
  }

  lemma BlockDecodes(fw: seq<Byte>, at: nat, b: Block)
    requires |b.data| < TWO32 && at + 8 + |b.data| <= |fw| && at + 8 + RoundUp4(|b.data|) <= |fw|
    requires fw[at..at + 8 + |b.data|] == SerializeBlock(b)
    ensures InBounds(fw, at)
    ensures PieceAt(fw, at).addr == b.addr && DataLen(fw, at) == |b.data|
    ensures |PieceAt(fw, at).data| == RoundUp4(|b.data|) && PieceAt(fw, at).data[..|b.data|] == b.data
  {
    var n, t := |b.data|, SerializeBlock(b);
    SliceOfSlice(fw, at, at + 8 + n, 0, 4);
    SliceOfSlice(fw, at, at + 8 + n, 4, 8);
    SliceOfSlice(fw, at, at + 8 + n, 8, 8 + n);
    assert t[0..4] == Le32(b.addr) && t[4..8] == Le32(n) && t[8..8 + n] == b.data;
    Le32RoundTrip(b.addr, fw, at);
    Le32RoundTrip(n, fw, at + 4);
    SliceOfSlice(fw, at + 8, at + 8 + RoundUp4(n), 0, n);
  }

  // The walk finds every block of an image where it was put.
  lemma {:induction false} ImageWalks(fw: seq<Byte>, blocks: seq<Block>)
    requires IsImage(fw, blocks)
    ensures forall k :: 0 <= k < |blocks| ==> BlockAt(fw, blocks, k)
    ensures forall k :: 0 <= k <= |blocks| ==> OffsetAfter(fw, k) == BlockOffset(blocks, k)
  {
    if blocks != [] {
      var n := |blocks| - 1;
      var init := blocks[..n];
      PrefixIsImage(fw, blocks);
      ImageWalks(fw, init);
      LastBlockAt(fw, blocks);
      forall k | 0 <= k < |blocks|
        ensures BlockAt(fw, blocks, k) && OffsetAfter(fw, k) == BlockOffset(blocks, k)
      {
        OffsetPrefix(blocks, n, k);
        assert k < n ==> BlockAt(fw, init, k) && init[k] == blocks[k];
        assert OffsetAfter(fw, k) == BlockOffset(init, k);
      }
      assert OffsetAfter(fw, n + 1) == NextOffset(fw, OffsetAfter(fw, n));
    }
  }

  // Image correctness, part one: the image can be walked, and the download ends at
  // 24 plus the sum of (8 + data_len).
  lemma {:induction false} ImageIsWalkable(fw: seq<Byte>, blocks: seq<Block>)
    requires IsImage(fw, blocks)
    ensures Walkable(fw, |blocks|)
    ensures OffsetAfter(fw, |blocks|) == BlockOffset(blocks, |blocks|) == PREFIX_LEN + |Serialize(blocks)|
  {
    ImageWalks(fw, blocks);
    SerializeLength(blocks);
    AllWalkable(fw, blocks, |blocks|);
  }

  lemma {:induction false} AllWalkable(fw: seq<Byte>, blocks: seq<Block>, n: nat)
    requires n <= |blocks| && forall k :: 0 <= k < |blocks| ==> BlockAt(fw, blocks, k)
    requires forall k :: 0 <= k <= |blocks| ==> OffsetAfter(fw, k) == BlockOffset(blocks, k)
    ensures Walkable(fw, n)
  {
    if n > 0 {
      AllWalkable(fw, blocks, n - 1);
      assert BlockAt(fw, blocks, n - 1);
    }
  }

  lemma {:induction false} PieceIs(fw: seq<Byte>, n: nat, k: nat)
    requires Walkable(fw, n) && k < n
    ensures Walkable(fw, k + 1) && Pieces(fw, n)[k] == PieceAt(fw, OffsetAfter(fw, k))
  {
    if k < n - 1 {
      PieceIs(fw, n - 1, k);
    }
  }

  // The last piece that touches an address decides; an untouched address keeps its byte.
  lemma {:induction false} LastWriterWins(ps: seq<Piece>, a: int, before: Byte, i: nat)
    requires i <= |ps| && forall j :: i < j < |ps| ==> !Touches(ps[j], a)
    requires i < |ps| ==> Touches(ps[i], a)
    requires i == |ps| ==> forall j :: 0 <= j < |ps| ==> !Touches(ps[j], a)
    ensures Loaded(ps, a, before) == if i < |ps| then ps[i].data[a - ps[i].addr] else before
  {
    if ps != [] && !Touches(ps[|ps| - 1], a) {
      LastWriterWins(ps[..|ps| - 1], a, before, if i < |ps| then i else |ps| - 1);
    }
  }

  // The target range of a block, rounded up to four bytes.
  predicate InRange(b: Block, a: int) {
    b.addr <= a < b.addr + RoundUp4(|b.data|)
  }

  // Piece `j` of the walk is block `j` with its padding, and where that is in the image.
  lemma {:induction false} PieceMatches(fw: seq<Byte>, blocks: seq<Block>, j: nat)
    requires IsImage(fw, blocks) && j < |blocks|
    ensures Walkable(fw, |blocks|)
    ensures var p, b, at := Pieces(fw, |blocks|)[j], blocks[j], BlockOffset(blocks, j) + BLK_HDR_LEN;
            && p.addr == b.addr && |p.data| == RoundUp4(|b.data|) && p.data[..|b.data|] == b.data
            && at + |p.data| <= |fw| && p.data == fw[at..at + |p.data|]
  {
    ImageIsWalkable(fw, blocks);
    ImageWalks(fw, blocks);
    PieceIs(fw, |blocks|, j);
    assert BlockAt(fw, blocks, j);
  }

  // Where in the image block `j` takes the byte for address `a` from.
  ghost function SourceOf(blocks: seq<Block>, j: nat, a: int): int
    requires j < |blocks|
  {
    BlockOffset(blocks, j) + BLK_HDR_LEN + (a - blocks[j].addr)
  }

  ghost predicate Covered(blocks: seq<Block>, from: nat, a: int) {
    exists j :: from <= j < |blocks| && InRange(blocks[j], a)
  }

  // Image correctness, part two: an address holds what the last rounded range that covers
  // it reads from the image.
  lemma {:induction false} LastCoverDecides(fw: seq<Byte>, blocks: seq<Block>, j: nat, a: int, before: Byte)
    requires IsImage(fw, blocks) && j < |blocks| && InRange(blocks[j], a) && !Covered(blocks, j + 1, a)
    ensures Walkable(fw, |blocks|)
    ensures var at := SourceOf(blocks, j, a);
            0 <= at < |fw| && Loaded(Pieces(fw, |blocks|), a, before) == fw[at]
  {
    LastCoverPiece(fw, blocks, j, a, before);
    PieceMatches(fw, blocks, j);
  }

  lemma {:induction false} LastCoverPiece(fw: seq<Byte>, blocks: seq<Block>, j: nat, a: int, before: Byte)
    requires IsImage(fw, blocks) && j < |blocks| && InRange(blocks[j], a) && !Covered(blocks, j + 1, a)
    ensures Walkable(fw, |blocks|)
    ensures var p := Pieces(fw, |blocks|)[j];
            p.addr == blocks[j].addr && Touches(p, a) && Loaded(Pieces(fw, |blocks|), a, before) == p.data[a - p.addr]
  {
    LaterUntouched(fw, blocks, j + 1, a);
    PieceMatches(fw, blocks, j);
    LastWriterWins(Pieces(fw, |blocks|), a, before, j);
  }

  lemma {:induction false} LaterUntouched(fw: seq<Byte>, blocks: seq<Block>, from: nat, a: int)
    requires IsImage(fw, blocks) && !Covered(blocks, from, a)
    ensures Walkable(fw, |blocks|)
    ensures forall j :: from <= j < |blocks| ==> !Touches(Pieces(fw, |blocks|)[j], a)
  {
    ImageIsWalkable(fw, blocks);
    forall j | from <= j < |blocks|
      ensures !Touches(Pieces(fw, |blocks|)[j], a)
    {
      PieceMatches(fw, blocks, j);
      assert !InRange(blocks[j], a);
    }
  }

  lemma PieceByte(p: Piece, b: Block, k: nat, a: int)
    requires k < |b.data| <= |p.data| && p.data[..|b.data|] == b.data && p.addr == b.addr && a == b.addr + k
    ensures p.data[a - p.addr] == b.data[k]
  {
    assert p.data[..|b.data|][k] == p.data[k];
  }

  // In particular a byte of a block that no later rounded range covers is at its address.
  lemma {:induction false} BlockLoads(fw: seq<Byte>, blocks: seq<Block>, i: nat, k: nat, a: int, before: Byte)
    requires IsImage(fw, blocks) && i < |blocks| && k < |blocks[i].data| && a == blocks[i].addr + k
    requires !Covered(blocks, i + 1, a)
    ensures Walkable(fw, |blocks|)
    ensures Loaded(Pieces(fw, |blocks|), a, before) == blocks[i].data[k]
  {
    LastCoverPiece(fw, blocks, i, a, before);
    PieceMatches(fw, blocks, i);
    PieceByte(Pieces(fw, |blocks|)[i], blocks[i], k, a);
  }

  // Part three: an address outside all rounded ranges is untouched.
  lemma {:induction false} OutsideUntouched(fw: seq<Byte>, blocks: seq<Block>, a: int, before: Byte)
    requires IsImage(fw, blocks) && !Covered(blocks, 0, a)
    ensures Walkable(fw, |blocks|)
    ensures Loaded(Pieces(fw, |blocks|), a, before) == before
  {
    LaterUntouched(fw, blocks, 0, a);
    LastWriterWins(Pieces(fw, |blocks|), a, before, |blocks|);
  }
}
