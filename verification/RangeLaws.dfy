/** How the 7z range coder divides an interval: which part is whose, and how far it is scaled. */
module RangeLaws {
  import opened Words
  import opened RangeSpec

  /**
    All shares of one total have the same width for each unit, the largest that fits; a share begins where those before
    it end, so equal totals make adjacent shares in ascending order.
   */
  lemma SharesAdjoin(iv: Interval, start: nat, size: nat, total: nat, more: nat) returns (width: nat)
    requires ValidStep(Symbol(start, size, total)) && 0x100_0000 <= iv.range
    ensures 0 < width && width * total <= iv.range < width * total + total
    ensures var share := Narrow(iv, Symbol(start, size, total));
            share.low == iv.low + width * start && share.range == width * size
    ensures 0 < more && start + size + more <= total ==>
              var share := Narrow(iv, Symbol(start, size, total));
              Narrow(iv, Symbol(start + size, more, total)).low == share.low + share.range
  {
    width := iv.range / total;
    PartBound(iv.range, total, start, size);
    Sandwich(iv.range, total);
    assert (start + size) * width == start * width + size * width;
  }

  lemma Sandwich(n: nat, d: nat)
    requires 0 < d
    ensures n / d * d <= n < n / d * d + d
  {
  }

  /** A zero bit takes the lower `size0` parts of 2^14, a one bit all the rest up to the end. */
  lemma BitsAdjoin(iv: Interval, size0: nat) returns (width: nat)
    requires 0 < size0 < 0x4000 && 0x100_0000 <= iv.range
    ensures 0x4000 * width <= iv.range < 0x4000 * width + 0x4000
    ensures var zero, one := Narrow(iv, Bit(size0, 0)), Narrow(iv, Bit(size0, 1));
            && zero.low == iv.low && zero.range == width * size0
            && one.low == zero.low + zero.range && one.low + one.range == iv.low + iv.range
  {
    width := iv.range / 0x4000;
    BitBound(iv.range, size0);
  }

  /** Normalising multiplies by the least power of 256 that brings the range to 2^24. */
  lemma {:induction false} ScaledLeast(iv: Interval) returns (k: nat)
    requires 0 < iv.range
    ensures Normalize(iv) == Interval(Pow256(k) * iv.low, Pow256(k) * iv.range, iv.shifts + k)
    ensures 0x100_0000 <= Pow256(k) * iv.range && (0 < k ==> Pow256(k - 1) * iv.range < 0x100_0000)
    decreases 0x100_0000 - iv.range
  {
    if iv.range < 0x100_0000 {
      var j := ScaledLeast(Interval(256 * iv.low, 256 * iv.range, iv.shifts + 1));
      k := j + 1;
      ScaleMore(j, iv.low);
      ScaleMore(j, iv.range);
      if 0 < j {
        ScaleMore(j - 1, iv.range);
      } else {
        assert Pow256(0) == 1;
      }
    } else {
      k := 0;
    }
  }

  lemma ScaleMore(k: nat, n: nat)
    ensures Pow256(k) * (256 * n) == Pow256(k + 1) * n
  {
    assert Pow256(k + 1) == 256 * Pow256(k);
    MulShift(n, Pow256(k));
  }
}
