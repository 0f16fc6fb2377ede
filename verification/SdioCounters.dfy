/**
 The two modular counters of the SDIO adapter. The target keeps unbounded totals
 (buffers granted, bytes produced) of which a register shows the low bits; the
 host keeps 32-bit counters. Nothing here touches the link.
 */
module SdioCounters {
  import opened Words

  const TX_BUFFER_MAX := 0x1000
  const RX_BYTE_MAX := 0x10_0000

  // total_tx += used; if (total_tx >= TX_BUFFER_MAX) total_tx -= TX_BUFFER_MAX;
  function TxAdvance(totalTx: U32, used: U32): U32 {
    var t := Wrap32(totalTx + used);
    if t >= TX_BUFFER_MAX then t - TX_BUFFER_MAX else t
  }

  // (length + 511) / 512 in 32-bit arithmetic
  function BuffersFor(length: U32): U32 {
    Wrap32(length + 511) / 512
  }

  // It is the number of 512-byte buffers the packet needs: the least that hold it.
  lemma BuffersCover(length: U32, n: nat)
    requires length <= TWO32 - 512
    ensures FitsBuffers(length, n) <==> BuffersFor(length) <= n
  {
    var b := BuffersFor(length);
    assert length + 511 == 512 * b + (length + 511) % 512;
  }

  function CreditsSeen(token: U32, totalTx: U32): U32 {
    Wrap32(token / 0x1_0000 % TX_BUFFER_MAX + TX_BUFFER_MAX - totalTx) % TX_BUFFER_MAX
  }

  function RxAvailable(pktLen: U32, totalRx: U32): U32 {
    Wrap32(pktLen % RX_BYTE_MAX + RX_BYTE_MAX - totalRx) % RX_BYTE_MAX
  }

  // The token register shows the low 12 bits of the grants from bit 16 up.
  predicate ShowsGrants(token: U32, granted: nat) {
    token / 0x1_0000 % TX_BUFFER_MAX == granted % TX_BUFFER_MAX
  }

  predicate ShowsProduced(pktLen: U32, produced: nat) {
    pktLen % RX_BYTE_MAX == produced % RX_BYTE_MAX
  }

  lemma Residue(x: int, q: int, r: int)
    requires x == TX_BUFFER_MAX * q + r && 0 <= r < TX_BUFFER_MAX
    ensures x % TX_BUFFER_MAX == r
  {
  }

  lemma RxResidue(x: int, q: int, r: int)
    requires x == RX_BYTE_MAX * q + r && 0 <= r < RX_BYTE_MAX
    ensures x % RX_BYTE_MAX == r
  {
  }

  // 2^32 is a multiple of both moduli, so wrapping does not disturb residues.
  lemma WrapKeepsResidues(x: int)
    ensures Wrap32(x) % TX_BUFFER_MAX == x % TX_BUFFER_MAX
    ensures Wrap32(x) % RX_BYTE_MAX == x % RX_BYTE_MAX
  {
    var q := x / TWO32;
    assert x == Wrap32(x) + TWO32 * q;
    assert TWO32 * q == TX_BUFFER_MAX * (0x10_0000 * q);
    assert TWO32 * q == RX_BYTE_MAX * (0x1000 * q);
  }

  function Sum(ns: seq<U32>): nat {
    if ns == [] then 0 else Sum(ns[..|ns| - 1]) + ns[|ns| - 1]
  }

  // The counter after sends that used `ns` buffers, from a fresh adapter.
  function TotalTx(ns: seq<U32>): U32 {
    if ns == [] then 0 else TxAdvance(TotalTx(ns[..|ns| - 1]), ns[|ns| - 1])
  }

  // Whatever the packet sizes, the counter never loses the true count modulo 4096.
  lemma {:induction false} TotalTxResidue(ns: seq<U32>)
    ensures TotalTx(ns) % TX_BUFFER_MAX == Sum(ns) % TX_BUFFER_MAX
  {
    if ns != [] {
      var t, n := TotalTx(ns[..|ns| - 1]), ns[|ns| - 1];
      TotalTxResidue(ns[..|ns| - 1]);
      AdvanceKeepsResidue(t, n);
      ResidueOfSum(t, Sum(ns[..|ns| - 1]), n);
    }
  }

  lemma AdvanceKeepsResidue(t: U32, n: U32)
    ensures TxAdvance(t, n) % TX_BUFFER_MAX == (t as int + n) % TX_BUFFER_MAX
  {
    WrapKeepsResidues(t as int + n);
  }

  lemma ResidueOfSum(a: int, b: int, n: int)
    requires a % TX_BUFFER_MAX == b % TX_BUFFER_MAX
    ensures (a + n) % TX_BUFFER_MAX == (b + n) % TX_BUFFER_MAX
  {
    var d := a / TX_BUFFER_MAX - b / TX_BUFFER_MAX;
    assert a == b + TX_BUFFER_MAX * d;
    Residue(a + n, (b + n) / TX_BUFFER_MAX + d, (b + n) % TX_BUFFER_MAX);
  }

  // One conditional subtraction restores the canonical residue exactly when the
  // sum stays below twice the modulus; a packet of at most 4096 buffers always does.
  lemma OneSubtractionSuffices(used: nat, n: U32)
    requires n < 0x100_0000
    ensures TxAdvance(used % TX_BUFFER_MAX, n) == (used + n) % TX_BUFFER_MAX
            <==> used % TX_BUFFER_MAX + n < 2 * TX_BUFFER_MAX
    ensures n <= TX_BUFFER_MAX ==> used % TX_BUFFER_MAX + n < 2 * TX_BUFFER_MAX
  {
    ResidueOfSum(used, used % TX_BUFFER_MAX, n);
  }

  lemma {:induction false} TotalTxCanonical(ns: seq<U32>)
    requires forall i :: 0 <= i < |ns| ==> ns[i] <= TX_BUFFER_MAX
    ensures TotalTx(ns) == Sum(ns) % TX_BUFFER_MAX
  {
    if ns != [] {
      TotalTxCanonical(ns[..|ns| - 1]);
      OneSubtractionSuffices(Sum(ns[..|ns| - 1]), ns[|ns| - 1]);
    }
  }

  // What get_buffer_size reports, and when that is the true credit.
  lemma CreditsExact(token: U32, totalTx: U32, granted: nat, used: nat)
    requires ShowsGrants(token, granted)
    requires totalTx % TX_BUFFER_MAX == used % TX_BUFFER_MAX
    ensures CreditsSeen(token, totalTx) == (granted - used) % TX_BUFFER_MAX
    ensures CreditsSeen(token, totalTx) == granted - used <==> 0 <= granted - used < TX_BUFFER_MAX
  {
    var x := token / 0x1_0000 % TX_BUFFER_MAX + TX_BUFFER_MAX - totalTx;
    WrapKeepsResidues(x);
    var d := granted / TX_BUFFER_MAX - used / TX_BUFFER_MAX + totalTx / TX_BUFFER_MAX - 1;
    assert totalTx - used == TX_BUFFER_MAX * (totalTx / TX_BUFFER_MAX - used / TX_BUFFER_MAX);
    assert granted - used == x + TX_BUFFER_MAX * d;
    Residue(granted - used, x / TX_BUFFER_MAX + d, x % TX_BUFFER_MAX);
  }

  // What get_rx_data_size reports; totalRx is only ever wrapped at 2^32.
  lemma RxExact(pktLen: U32, totalRx: U32, produced: nat, consumed: nat)
    requires ShowsProduced(pktLen, produced)
    requires totalRx == consumed % TWO32
    ensures RxAvailable(pktLen, totalRx) == (produced - consumed) % RX_BYTE_MAX
    ensures RxAvailable(pktLen, totalRx) == produced - consumed <==> 0 <= produced - consumed < RX_BYTE_MAX
  {
    var x := pktLen % RX_BYTE_MAX + RX_BYTE_MAX - totalRx;
    WrapKeepsResidues(x);
    var d := produced / RX_BYTE_MAX - 1 - 0x1000 * (consumed / TWO32);
    assert produced - consumed == x + RX_BYTE_MAX * d;
    RxResidue(produced - consumed, x / RX_BYTE_MAX + d, x % RX_BYTE_MAX);
  }

  // The credit check of the send task: it waits while num * 512 < send_len.
  predicate CheckPasses(seen: U32, length: nat) {
    !(Wrap32(seen * 512) < length)
  }

  predicate FitsBuffers(length: nat, buffers: int) {
    length <= 512 * buffers
  }

  // It passes exactly when the credit it saw, in bytes, covers the packet.
  lemma CheckPassesIff(seen: U32, length: nat)
    requires seen < TX_BUFFER_MAX
    ensures CheckPasses(seen, length) <==> FitsBuffers(length, seen)
  {
  }

  // Every packet that passes fits the credit in bytes.
  ghost predicate AllPassingFit(seen: U32, credit: int) {
    forall length: U32 :: 0 < length && CheckPasses(seen, length) ==> FitsBuffers(length, credit)
  }

  // The check is sound for every packet length exactly when the grants cover what
  // has been used, or the shortfall is a multiple of the modulus (then nothing passes).
  lemma CreditCheckSound(granted: nat, used: nat)
    ensures (forall length: U32 :: 0 < length
                && CheckPasses((granted - used) % TX_BUFFER_MAX, length)
                ==> used + BuffersFor(length) <= granted)
            <==> used <= granted || (used - granted) % TX_BUFFER_MAX == 0
    ensures AllPassingFit((granted - used) % TX_BUFFER_MAX, granted - used)
            <==> used <= granted || (used - granted) % TX_BUFFER_MAX == 0
  {
    var seen := (granted - used) % TX_BUFFER_MAX;
    var d := (granted - used) / TX_BUFFER_MAX;
    assert granted - used == seen + TX_BUFFER_MAX * d;
    if used > granted {
      if (used - granted) % TX_BUFFER_MAX == 0 {
        assert seen == 0 by {
          assert granted - used == TX_BUFFER_MAX * -((used - granted) / TX_BUFFER_MAX);
        }
      } else {
        assert seen != 0 by {
          assert seen == 0 ==> used - granted == TX_BUFFER_MAX * -d;
        }
        assert CheckPasses(seen, 1) && BuffersFor(1) == 1 && !FitsBuffers(1, granted - used);
      }
    } else {
      assert d >= 0;
    }
  }
}
