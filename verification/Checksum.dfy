/**
The Internet checksum as util.c computes it: native 16-bit words added into a 32-bit
accumulator, carries folded back, the result complemented. `le` is the host's byte order.
 */
module Checksum {
  import opened Words

  const ONES := 0xffff

  /** The word read from two consecutive bytes of memory. */
  function Word(le: bool, b0: Byte, b1: Byte): U16 {
    if le then b0 + 0x100 * b1 else 0x100 * b0 + b1
  }

  /** The two bytes a word is stored as. */
  function Store(le: bool, w: U16): seq<Byte> {
    if le then [w % 0x100, w / 0x100] else [w / 0x100, w % 0x100]
  }

  function Swap16(w: U16): U16 {
    w % 0x100 * 0x100 + w / 0x100
  }

  /** The sum of the buffer's words; a last odd byte is added as it is. */
  function Sum(le: bool, bs: seq<Byte>): nat {
    if bs == [] then 0
    else if |bs| == 1 then bs[0]
    else Word(le, bs[0], bs[1]) + Sum(le, bs[2..])
  }

  /** The end-around-carry value of a sum: its residue modulo 65535, with 65535 for positive multiples. */
  function Residue(n: nat): U16 {
    if n == 0 then 0 else (n - 1) % ONES + 1
  }

  function Cksum(le: bool, bs: seq<Byte>, init: U16): U16 {
    ONES - Residue(init + Sum(le, bs))
  }

  lemma FoldKeepsResidue(n: nat)
    requires n >= TWO_16
    ensures Residue(n % TWO_16 + n / TWO_16) == Residue(n)
  {
    var q, r := n / TWO_16, n % TWO_16;
    assert n - 1 == (q + r - 1) + q * ONES;
    ModMultiple(q + r - 1, q);
  }

  lemma {:induction false} ModMultiple(a: nat, k: nat)
    ensures (a + k * ONES) % ONES == a % ONES
  {
    if k > 0 {
      ModMultiple(a, k - 1);
    }
  }

  lemma ResidueMultiple(n: nat, k: nat)
    requires n > 0
    ensures Residue(n + k * ONES) == Residue(n)
  {
    ModMultiple(n - 1, k);
  }

  lemma SmallResidue(n: nat)
    requires n < TWO_16
    ensures Residue(n) == n
  {
  }

  lemma {:induction false} SumBound(le: bool, bs: seq<Byte>)
    ensures Sum(le, bs) <= |bs| / 2 * ONES + |bs| % 2 * 0xff
    decreases |bs|
  {
    if |bs| > 1 {
      SumBound(le, bs[2..]);
    }
  }

  /**
  cksum16. The accumulator is a uint32_t and never overflows for the lengths (a uint16_t)
  and seeds the program uses; the carry loop ends with the residue of the sum.
   */
  method Cksum16(le: bool, bs: seq<Byte>, init: U16) returns (c: U16)
    requires |bs| < TWO_16
    ensures c == Cksum(le, bs, init)
  {
    var sum: U32 := init;
    var i := 0;
    while |bs| - i > 1
      invariant 0 <= i <= |bs| && i % 2 == 0
      invariant sum + Sum(le, bs[i..]) == init + Sum(le, bs)
      invariant sum <= init + i / 2 * ONES
    {
      sum := sum + Word(le, bs[i], bs[i + 1]);
      assert bs[i..][2..] == bs[i + 2..];
      i := i + 2;
    }
    if |bs| - i > 0 {
      sum := sum + bs[i];
      assert bs[i..] == [bs[i]];
    } else {
      assert bs[i..] == [];
    }
    ghost var total := sum;
    while sum / TWO_16 != 0
      invariant Residue(sum) == Residue(total)
      decreases sum
    {
      FoldKeepsResidue(sum);
      sum := sum % TWO_16 + sum / TWO_16;
    }
    SmallResidue(sum);
    c := ONES - sum;
  }

  // ---- what a receiver accepts

  /** A buffer checks out exactly when its words sum to a positive multiple of 65535. */
  lemma AcceptedIff(le: bool, bs: seq<Byte>, init: U16)
    ensures Cksum(le, bs, init) == 0 <==> init + Sum(le, bs) > 0 && (init + Sum(le, bs)) % ONES == 0
  {
    FullResidueIff(init + Sum(le, bs));
  }

  lemma FullResidueIff(n: nat)
    ensures Residue(n) == ONES <==> n > 0 && n % ONES == 0
  {
    if n > 0 {
      var q, r := (n - 1) / ONES, (n - 1) % ONES;
      assert n == q * ONES + r + 1;
    }
  }

  lemma {:induction false} SumConcat(le: bool, a: seq<Byte>, b: seq<Byte>)
    requires |a| % 2 == 0
    ensures Sum(le, a + b) == Sum(le, a) + Sum(le, b)
    decreases |a|
  {
    if a == [] {
      assert a + b == b;
    } else {
      assert (a + b)[2..] == a[2..] + b;
      SumConcat(le, a[2..], b);
    }
  }

  /** The buffer with the word at byte offset `i` replaced. */
  function Patch(le: bool, bs: seq<Byte>, i: nat, w: U16): seq<Byte>
    requires i + 2 <= |bs|
  {
    bs[..i] + Store(le, w) + bs[i + 2..]
  }

  lemma SumStore(le: bool, w: U16)
    ensures |Store(le, w)| == 2 && Sum(le, Store(le, w)) == w
  {
    assert Store(le, w)[2..] == [];
  }

  lemma SumPatch(le: bool, bs: seq<Byte>, i: nat, w: U16)
    requires i % 2 == 0 && i + 2 <= |bs|
    ensures Sum(le, Patch(le, bs, i, w)) == Sum(le, bs[..i]) + w + Sum(le, bs[i + 2..])
  {
    SumStore(le, w);
    SumConcat(le, bs[..i] + Store(le, w), bs[i + 2..]);
    SumConcat(le, bs[..i], Store(le, w));
  }

  /**
  Storing the checksum of a buffer whose aligned sum field is zero makes the receiver's
  checksum of the whole buffer come out as zero, for every buffer, length and seed.
   */
  lemma StoredChecksumVerifies(le: bool, bs: seq<Byte>, i: nat, init: U16)
    requires i % 2 == 0 && i + 2 <= |bs|
    ensures Cksum(le, Patch(le, bs, i, Cksum(le, Patch(le, bs, i, 0), init)), init) == 0
  {
    var rest := Sum(le, bs[..i]) + Sum(le, bs[i + 2..]);
    var c := Cksum(le, Patch(le, bs, i, 0), init);
    SumPatch(le, bs, i, 0);
    SumPatch(le, bs, i, c);
    ComplementCompletes(init + rest);
  }

  lemma ComplementCompletes(n: nat)
    ensures Residue(n + (ONES - Residue(n))) == ONES
  {
    if n > 0 {
      var k := (n - 1) / ONES;
      assert n + (ONES - Residue(n)) == ONES + k * ONES;
      ResidueMultiple(ONES, k);
    }
  }

  /** Changing one aligned word of an accepted buffer is noticed, unless it swaps the two zeros. */
  lemma SingleWordChangeDetected(le: bool, bs: seq<Byte>, i: nat, init: U16, w: U16, w': U16)
    requires i % 2 == 0 && i + 2 <= |bs|
    requires Cksum(le, Patch(le, bs, i, w), init) == 0 && Cksum(le, Patch(le, bs, i, w'), init) == 0
    ensures w == w' || (w == 0 && w' == ONES) || (w == ONES && w' == 0)
  {
    SumPatch(le, bs, i, w);
    SumPatch(le, bs, i, w');
    AcceptedIff(le, Patch(le, bs, i, w), init);
    AcceptedIff(le, Patch(le, bs, i, w'), init);
    var rest := init + Sum(le, bs[..i]) + Sum(le, bs[i + 2..]);
    CloseMultiples(rest + w, rest + w');
  }

  lemma CloseMultiples(a: nat, b: nat)
    requires a % ONES == 0 && b % ONES == 0 && a - ONES <= b <= a + ONES
    ensures a == b || a == b + ONES || b == a + ONES
  {
    assert a == a / ONES * ONES && b == b / ONES * ONES;
  }

  // ---- seeding with another checksum

  lemma ResidueAbsorbs(a: nat, b: nat)
    ensures Residue(Residue(a) + b) == Residue(a + b)
  {
    if a > 0 {
      var k := (a - 1) / ONES;
      assert a == Residue(a) + k * ONES;
      ResidueMultiple(Residue(a) + b, k);
    }
  }

  /** Seeding with the complement of one checksum is checksumming both buffers as one. */
  lemma SeedIsConcatenation(le: bool, pseudo: seq<Byte>, bs: seq<Byte>)
    requires |pseudo| % 2 == 0
    ensures Cksum(le, bs, ONES - Cksum(le, pseudo, 0)) == Cksum(le, pseudo + bs, 0)
  {
    SumConcat(le, pseudo, bs);
    ResidueAbsorbs(Sum(le, pseudo), Sum(le, bs));
  }

  // ---- byte order

  /** The odd last byte, if there is one. */
  function Tail(bs: seq<Byte>): Byte {
    if |bs| % 2 == 1 then bs[|bs| - 1] else 0
  }

  /** On the other byte order every whole word counts 256 times as much, modulo 65535. */
  lemma {:induction false} SwappedSum(le: bool, bs: seq<Byte>) returns (k: int)
    ensures Sum(!le, bs) - Tail(bs) == 0x100 * (Sum(le, bs) - Tail(bs)) + k * ONES
    ensures Tail(bs) <= Sum(le, bs) && (Sum(le, bs) == 0 ==> Sum(!le, bs) == 0)
    decreases |bs|
  {
    if |bs| < 2 {
      k := 0;
    } else {
      k := SwappedSum(le, bs[2..]);
      var high := if le then bs[1] else bs[0];
      assert Word(!le, bs[0], bs[1]) == 0x100 * Word(le, bs[0], bs[1]) - high * ONES;
      k := k - high;
    }
  }

  lemma ResidueUnique(n: nat, r: nat, k: int)
    requires n > 0 && 0 < r <= ONES && n == r + k * ONES
    ensures Residue(n) == r
  {
    ResidueMultiple(r, k);
    SmallResidue(r);
  }

  lemma ResidueOf(n: nat) returns (k: nat)
    ensures n == Residue(n) + k * ONES
  {
    k := if n == 0 then 0 else (n - 1) / ONES;
  }

  /** Exchanging the bytes of a word multiplies it by 256, modulo 65535. */
  lemma SwapIsTimes256(w: U16) returns (k: int)
    ensures Swap16(w) == 0x100 * w - k * ONES && (w > 0 ==> Swap16(w) > 0)
  {
    k := w / 0x100;
  }

  lemma SwappedResidue(n: nat, m: nat, k: int)
    requires m == 0x100 * n + k * ONES && (n == 0 <==> m == 0)
    ensures Residue(m) == Swap16(Residue(n))
  {
    if n > 0 {
      var j := ResidueOf(n);
      var i := SwapIsTimes256(Residue(n));
      ResidueUnique(m, Swap16(Residue(n)), 0x100 * j + k + i);
    }
  }

  lemma SwapComplement(w: U16)
    ensures Swap16(ONES - w) == ONES - Swap16(w)
  {
  }

  lemma SwapStored(le: bool, w: U16, w': U16)
    ensures Store(!le, w') == Store(le, w) <==> w' == Swap16(w)
  {
    if Store(!le, w') == Store(le, w) {
      assert Store(!le, w')[0] == Store(le, w)[0] && Store(!le, w')[1] == Store(le, w)[1];
    }
  }

  lemma SwappedChecksumIff(le: bool, bs: seq<Byte>)
    ensures Cksum(!le, bs, 0) == Swap16(Cksum(le, bs, 0)) <==> Tail(bs) == 0
  {
    var n, m, b := Sum(le, bs), Sum(!le, bs), Tail(bs);
    SwapComplement(Residue(n));
    var k := SwappedSum(le, bs);
    var k' := SwappedSum(!le, bs);
    if b == 0 {
      SwappedResidue(n, m, k);
    } else {
      OddByteDiffers(n, m, b, k);
    }
  }

  /**
  A host of either byte order stores the same two checksum bytes, without converting
  them, exactly when the length is even or the odd last byte is zero.
   */
  lemma ByteOrderIndependentIff(le: bool, bs: seq<Byte>)
    ensures Store(!le, Cksum(!le, bs, 0)) == Store(le, Cksum(le, bs, 0)) <==> |bs| % 2 == 0 || bs[|bs| - 1] == 0
  {
    SwapStored(le, Cksum(le, bs, 0), Cksum(!le, bs, 0));
    SwappedChecksumIff(le, bs);
  }

  lemma OddByteDiffers(n: nat, m: nat, b: Byte, k: int)
    requires 0 < b <= n && m - b == 0x100 * (n - b) + k * ONES
    ensures Residue(m) != Swap16(Residue(n))
  {
    var i := ResidueOf(n);
    var j := ResidueOf(m);
    var s := SwapIsTimes256(Residue(n));
    if Residue(m) == Swap16(Residue(n)) {
      assert 0xff * b == (k + s + 0x100 * i - j) * ONES;
      NoSmallMultiple(0xff * b, k + s + 0x100 * i - j);
    }
  }

  lemma NoSmallMultiple(a: nat, k: int)
    requires a == k * ONES
    ensures a == 0 || a >= ONES
  {
  }
}
