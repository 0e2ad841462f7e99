/**
 A 64-bit address seen as a number and as a bit pattern.

 The allocator computes with addresses as numbers and the page tables take them
 apart as bit patterns.  `ToBits` is the change of view, one binary digit at a time.
 */
module AddressBits {
  import opened Pte

  const TWO_64: nat := 0x1_0000_0000_0000_0000
  type u64 = n: nat | n < TWO_64

  function ToBits(n: nat): bv64 {
    if n == 0 then 0
    else if n % 2 == 0 then ToBits(n / 2) << 1
    else (ToBits(n / 2) << 1) | 1
  }

  /** The bit pattern of a 64-bit number has that number as its value. */
  lemma {:induction false} ToBitsValue(n: u64)
    ensures ToBits(n) as nat == n
    decreases n
  {
    if n != 0 {
      ToBitsValue(n / 2);
      DigitValue(n, ToBits(n / 2));
    }
  }

  lemma DigitValue(n: u64, x: bv64)
    requires x as nat == n / 2
    ensures (if n % 2 == 0 then x << 1 else (x << 1) | 1) as nat == n
  {
    ValueBelowHalf(x);
    ShiftDoubles(x);
  }

  lemma ValueBelowHalf(x: bv64)
    requires x as nat < 0x8000_0000_0000_0000
    ensures x < 0x8000_0000_0000_0000
  {
  }

  lemma ShiftDoubles(x: bv64)
    requires x < 0x8000_0000_0000_0000
    ensures (x << 1) as nat == x as nat * 2
    ensures ((x << 1) | 1) as nat == x as nat * 2 + 1
  {
  }

  /** The value of a page number with a page offset. */
  lemma ValueOfPage(page: bv64, off: bv12)
    requires page < 0x10_0000_0000_0000
    ensures ((page << 12) | (off as bv64)) as nat == page as nat * 4096 + off as nat
  {
  }

  lemma SplitPage(x: bv64)
    ensures x == ((x >> 12) << 12) | (((x & 0xfff) as bv12) as bv64) && x >> 12 < 0x10_0000_0000_0000
  {
  }

  lemma ZeroOffset(off: bv12)
    ensures off as nat < 4096 && (off as nat == 0 ==> off == 0)
  {
  }

  lemma ValueBelow52(x: bv64)
    requires x as nat < 0x10_0000_0000_0000
    ensures x < 0x10_0000_0000_0000
  {
  }

  lemma FrameFromParts(x: bv64)
    requires x < 0x10_0000_0000_0000 && x & 0xfff == 0
    ensures IsFrame(x)
  {
  }

  /** A page-aligned number below 2^52 is a frame address. */
  lemma AlignedIsFrame(a: nat)
    requires a % 4096 == 0 && a < 0x10_0000_0000_0000
    ensures IsFrame(ToBits(a))
  {
    ToBitsValue(a);
    ValueIsFrame(ToBits(a), a);
  }

  lemma ValueIsFrame(x: bv64, a: nat)
    requires x as nat == a && a % 4096 == 0 && a < 0x10_0000_0000_0000
    ensures IsFrame(x)
  {
    ValueBelow52(x);
    assert x & 0xfff == 0 by {
      SplitPage(x);
      NoOffset(x >> 12, (x & 0xfff) as bv12, a);
      OffsetIsZero(x);
    }
    FrameFromParts(x);
  }

  lemma NoOffset(page: bv64, off: bv12, a: nat)
    requires page < 0x10_0000_0000_0000 && ((page << 12) | (off as bv64)) as nat == a && a % 4096 == 0
    ensures off == 0
  {
    ValueOfPage(page, off);
    ZeroOffset(off);
    NoRemainder(page as nat, off as nat);
  }

  lemma NoRemainder(q: nat, r: nat)
    requires r < 4096 && (q * 4096 + r) % 4096 == 0
    ensures r == 0
  {
  }

  lemma OffsetIsZero(x: bv64)
    requires (x & 0xfff) as bv12 == 0
    ensures x & 0xfff == 0
  {
  }
}
