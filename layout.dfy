/**
 * The two arithmetic macros of the translator and the YV12 plane layout it
 * derives from them. YV12 is planar YUV 4:2:0: a full-resolution luma (Y)
 * plane followed by a Cr (V) and a Cb (U) plane, each with half the luma
 * stride rounded up to a multiple of 16 bytes.
 */
module Layout {
  import opened CInt

  /**
   * `ALIGN(A, B)`, i.e. `((A) + (B)-1) & ~((B)-1)`, evaluated on `uint32_t`:
   * the sum wraps modulo 2^32 before the mask is applied.
   */
  function Align(a: u32, b: u32): (r: u32)
  {
    BitAnd((a + b - 1) % TWO_32, BitNot32((b - 1) % TWO_32))
  }

  /** `DIV_ROUND_UP(n, d)`, i.e. `((n) + (d)-1) / (d)`, evaluated on `uint32_t`. */
  function DivRoundUp(n: u32, d: u32): (r: u32)
    requires d != 0
  {
    ((n + d - 1) % TWO_32) / d
  }

  /** The stride of both chroma planes of a YV12 buffer with luma stride `stride`. */
  function ChromaPitch(stride: u32): (pitch: u32)
  {
    Align(DivRoundUp(stride, 2), 16)
  }

  /** The byte offset of the Cr plane: just past `height` luma rows. */
  function CrOffset(stride: u32, height: u32): (offset: u32)
  {
    Mul32(stride, height)
  }

  /** The byte offset of the Cb plane: past the Cr plane, whose size is half `height` chroma rows. */
  function CbOffset(stride: u32, height: u32): (offset: u32)
  {
    Add32(CrOffset(stride, height), DivRoundUp(Mul32(ChromaPitch(stride), height), 2))
  }

  /** None of the `uint32_t` operations behind the YV12 layout wraps around. */
  predicate Yv12NoWrap(stride: u32, height: u32)
  {
    stride < TWO_32 - 1 &&
    ChromaPitch(stride) * height < TWO_32 &&
    stride * height + ChromaPitch(stride) * height / 2 < TWO_32
  }

  /** Without wrap-around, `DIV_ROUND_UP(n, d)` is the ceiling of `n / d`. */
  lemma DivRoundUpIsCeiling(n: u32, d: u32)
    requires d != 0 && n + d - 1 < TWO_32
    ensures DivRoundUp(n, d) * d >= n
    ensures DivRoundUp(n, d) * d < n + d
  {
  }

  /**
   * Without wrap-around, `ALIGN(a, b)` for a power of two `b` is the least
   * multiple of `b` at or above `a`.
   */
  lemma AlignRoundsUp(a: u32, b: u32, k: nat)
    requires k < 32 && b == Pow2(k) && a + b - 1 < TWO_32
    ensures Align(a, b) % b == 0
    ensures a <= Align(a, b) < a + b
  {
    var x := a + b - 1;
    AlignClearsLowBits(a, b, k);
    RoundDown(x, b);
    assert Align(a, b) == x - x % b;
  }

  /** The mask `~(b - 1)` for `b = 2^k` clears the `k` low bits of the sum. */
  lemma AlignClearsLowBits(a: u32, b: u32, k: nat)
    requires k < 32 && b == Pow2(k) && a + b - 1 < TWO_32
    ensures Align(a, b) == (a + b - 1) - (a + b - 1) % b
  {
    Pow2Values();
    var x := a + b - 1;
    ModUnique(x, TWO_32, 0, x);
    ModUnique(b - 1, TWO_32, 0, b - 1);
    var mask := BitNot32(b - 1);
    assert Align(a, b) == BitAnd(x, mask);
    AndHighMask(x, 32, k, mask);
  }

  /** Subtracting the remainder rounds down to a multiple. */
  lemma RoundDown(x: nat, b: nat)
    requires b > 0
    ensures (x - x % b) % b == 0
    ensures x - b < x - x % b <= x
  {
    ModUnique(x - x % b, b, x / b, 0);
  }

  /**
   * The chroma pitch is a multiple of 16, at least half the luma stride
   * rounded up, and less than that plus 16. For the largest stride the
   * rounding up of `DIV_ROUND_UP` wraps (see `ChromaPitchOfLargestStride`).
   */
  lemma ChromaPitchBounds(stride: u32)
    requires stride < TWO_32 - 1
    ensures ChromaPitch(stride) % 16 == 0
    ensures (stride + 1) / 2 <= ChromaPitch(stride) < (stride + 1) / 2 + 16
  {
    var half := DivRoundUp(stride, 2);
    assert half == (stride + 1) / 2;
    Pow2Values();
    AlignRoundsUp(half, 16, 4);
  }

  /** A multiple of 16, the chroma pitch is even. */
  lemma ChromaPitchIsEven(stride: u32)
    requires stride < TWO_32 - 1
    ensures ChromaPitch(stride) % 2 == 0
  {
    var cp := ChromaPitch(stride);
    ChromaPitchBounds(stride);
    assert cp == 2 * (8 * (cp / 16));
  }

  /** At stride 2^32 - 1 the sum in `DIV_ROUND_UP` wraps to 0, and so does the chroma pitch. */
  lemma ChromaPitchOfLargestStride()
    ensures ChromaPitch(TWO_32 - 1) == 0
  {
    assert DivRoundUp(TWO_32 - 1, 2) == 0;
    Pow2Values();
    AlignRoundsUp(0, 16, 4);
  }

  /**
   * Without wrap-around the three planes follow one another: the Cr plane
   * starts where `height` luma rows end and the Cb plane `(pitch / 2) * height`
   * bytes later (exactly, for the chroma pitch is even). For an even height the
   * Cr plane of `height / 2` rows thus ends where the Cb plane begins.
   */
  lemma Yv12PlaneOffsets(stride: u32, height: u32)
    requires Yv12NoWrap(stride, height)
    ensures CrOffset(stride, height) == stride * height
    ensures CbOffset(stride, height) == stride * height + (ChromaPitch(stride) / 2) * height
    ensures 0 <= CrOffset(stride, height) <= CbOffset(stride, height)
    ensures height % 2 == 0 ==>
      CbOffset(stride, height) == CrOffset(stride, height) + ChromaPitch(stride) * (height / 2)
  {
    var cp := ChromaPitch(stride);
    ChromaPitchIsEven(stride);
    OffsetArithmetic(stride, height, cp);
    assert CbOffset(stride, height) == Add32(Mul32(stride, height), DivRoundUp(Mul32(cp, height), 2));
  }

  /** The offset arithmetic of the Cb plane for an even chroma pitch `cp`, when nothing wraps. */
  lemma OffsetArithmetic(stride: u32, height: u32, cp: u32)
    requires cp % 2 == 0 && cp * height < TWO_32 && stride * height + cp * height / 2 < TWO_32
    ensures Mul32(stride, height) == stride * height
    ensures Add32(Mul32(stride, height), DivRoundUp(Mul32(cp, height), 2)) == stride * height + (cp / 2) * height
    ensures Mul32(stride, height) <= Add32(Mul32(stride, height), DivRoundUp(Mul32(cp, height), 2))
    ensures height % 2 == 0 ==> (cp / 2) * height == cp * (height / 2)
  {
    HalfOfEvenProduct(cp, height);
    assert (cp / 2) * height >= 0;
  }

  /** Half of an even product that does not wrap, rounded up, is exact. */
  lemma HalfOfEvenProduct(cp: u32, height: u32)
    requires cp % 2 == 0 && cp * height < TWO_32
    ensures DivRoundUp(Mul32(cp, height), 2) == (cp / 2) * height
    ensures cp * height / 2 == (cp / 2) * height
    ensures height % 2 == 0 ==> cp * (height / 2) == (cp / 2) * height
  {
    var half := cp / 2;
    assert cp * height == 2 * (half * height) by {
      assert cp == 2 * half;
    }
    if height % 2 == 0 {
      assert cp * (height / 2) == half * height by {
        assert cp == 2 * half && height == 2 * (height / 2);
      }
    }
  }

  /**
   * The ordering of the planes needs the no-wrap hypothesis: with stride
   * 65536 and height 65535 the luma plane fits in 32 bits, but the Cb offset
   * wraps around to below the Cr offset.
   */
  lemma CbOffsetWrapsForLargeBuffers()
    ensures CbOffset(65536, 65535) < CrOffset(65536, 65535)
  {
    ChromaPitchBounds(65536);
    assert ChromaPitch(65536) == 32768;
    HalfOfEvenProduct(32768, 65535);
  }
}
