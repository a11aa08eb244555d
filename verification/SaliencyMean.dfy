/** What the block decision says about the pixels of the block, and of no other. */
module SaliencyMean {
  import opened Options
  import opened Shapes
  import opened Tensors
  import opened SaliencyBlocks

  predicate AllAtLeast(mask: Tensor<real>, y: nat, x: nat, n: nat, m: nat, low: real)
    requires IsMask(mask) && y + m <= mask.shape[0] && x + n <= mask.shape[1]
  {
    forall r: nat, c: nat :: y <= r < y + m && x <= c < x + n ==> mask.At([r, c]) >= low
  }

  predicate AllBelow(mask: Tensor<real>, y: nat, x: nat, n: nat, m: nat, high: real)
    requires IsMask(mask) && y + m <= mask.shape[0] && x + n <= mask.shape[1]
  {
    forall r: nat, c: nat :: y <= r < y + m && x <= c < x + n ==> mask.At([r, c]) < high
  }

  function Area(low: real, n: nat): real {
    low * n as real
  }

  lemma AreaNext(low: real, n: nat)
    ensures Area(low, n + 1) == Area(low, n) + low
    ensures Area(low, 0) == 0.0
  {}

  lemma {:induction false} RowBounds(mask: Tensor<real>, y: nat, x: nat, n: nat, bound: real)
    requires IsMask(mask) && y < mask.shape[0] && x + n <= mask.shape[1]
    ensures (forall c: nat :: x <= c < x + n ==> mask.At([y, c]) >= bound) ==>
              PixelRowSum(mask, y, x, n) >= Area(bound, n)
    ensures (forall c: nat :: x <= c < x + n ==> mask.At([y, c]) < bound) && n > 0 ==>
              PixelRowSum(mask, y, x, n) < Area(bound, n)
  {
    if n == 0 {
      AreaNext(bound, 0);
    } else {
      RowBounds(mask, y, x, n - 1, bound);
      AreaNext(bound, n - 1);
      AreaNext(bound, 0);
      assert x <= x + n - 1 < x + n;
    }
  }

  lemma {:induction false} SumAtLeast(mask: Tensor<real>, y: nat, x: nat, n: nat, m: nat, low: real)
    requires IsMask(mask) && y + m <= mask.shape[0] && x + n <= mask.shape[1]
    requires AllAtLeast(mask, y, x, n, m, low)
    ensures PixelSum(mask, y, x, n, m) >= Area(Area(low, n), m)
  {
    if m == 0 {
      AreaNext(Area(low, n), 0);
    } else {
      SumAtLeast(mask, y, x, n, m - 1, low);
      AreaNext(Area(low, n), m - 1);
      RowBounds(mask, y + m - 1, x, n, low);
    }
  }

  lemma {:induction false} SumBelow(mask: Tensor<real>, y: nat, x: nat, n: nat, m: nat, high: real)
    requires IsMask(mask) && y + m <= mask.shape[0] && x + n <= mask.shape[1] && n > 0 && m > 0
    requires AllBelow(mask, y, x, n, m, high)
    ensures PixelSum(mask, y, x, n, m) < Area(Area(high, n), m)
  {
    RowBounds(mask, y + m - 1, x, n, high);
    AreaNext(Area(high, n), m - 1);
    if m == 1 {
      AreaNext(Area(high, n), 0);
    } else {
      SumBelow(mask, y, x, n, m - 1, high);
    }
  }

  /** A region of one value sums to the value times the number of pixels. */
  lemma {:induction false} SumOfUniform(mask: Tensor<real>, y: nat, x: nat, n: nat, m: nat, v: real)
    requires IsMask(mask) && y + m <= mask.shape[0] && x + n <= mask.shape[1]
    requires forall r: nat, c: nat :: y <= r < y + m && x <= c < x + n ==> mask.At([r, c]) == v
    ensures PixelSum(mask, y, x, n, m) == v * (n * m) as real
  {
    UniformRows(mask, y, x, n, m, v);
    AreaOfRegion(v, n, m);
  }

  lemma {:induction false} UniformRow(mask: Tensor<real>, y: nat, x: nat, n: nat, v: real)
    requires IsMask(mask) && y < mask.shape[0] && x + n <= mask.shape[1]
    requires forall c: nat :: x <= c < x + n ==> mask.At([y, c]) == v
    ensures PixelRowSum(mask, y, x, n) == Area(v, n)
  {
    if n == 0 {
      AreaNext(v, 0);
    } else {
      UniformRow(mask, y, x, n - 1, v);
      AreaNext(v, n - 1);
    }
  }

  lemma {:induction false} UniformRows(mask: Tensor<real>, y: nat, x: nat, n: nat, m: nat, v: real)
    requires IsMask(mask) && y + m <= mask.shape[0] && x + n <= mask.shape[1]
    requires forall r: nat, c: nat :: y <= r < y + m && x <= c < x + n ==> mask.At([r, c]) == v
    ensures PixelSum(mask, y, x, n, m) == Area(Area(v, n), m)
  {
    if m == 0 {
      AreaNext(Area(v, n), 0);
    } else {
      UniformRows(mask, y, x, n, m - 1, v);
      AreaNext(Area(v, n), m - 1);
      UniformRow(mask, y + m - 1, x, n, v);
    }
  }

  lemma AreaOfRegion(v: real, n: nat, m: nat)
    ensures Area(Area(v, n), m) == v * (n * m) as real
  {
    assert (n * m) as real == n as real * m as real;
  }

  lemma MeanReaches(sum: real, size: nat, threshold: real)
    requires size > 0
    ensures Mean(sum, size) >= threshold <==> sum >= threshold * (size * size) as real
  {
    StrictProductOrder(size, 0, size);
    QuotientReaches(sum, (size * size) as real, threshold);
  }

  lemma QuotientReaches(sum: real, area: real, threshold: real)
    requires area > 0.0
    ensures sum / area >= threshold <==> sum >= threshold * area
  {}

  /**
   A block is set exactly when its pixels add up to the threshold times their number; so it is
   when each of them reaches the threshold, and is not when none does.
   */
  lemma BlockFollowsPixels(mask: Tensor<real>, size: nat, threshold: real, p: nat, q: nat)
    requires IsMask(mask) && MaskToBlocks(mask, size, threshold).Ok? && size > 0
    requires p < mask.shape[0] / size && q < mask.shape[1] / size
    ensures Times(p, size) + size <= mask.shape[0] && Times(q, size) + size <= mask.shape[1]
    ensures var blocks, y, x := MaskToBlocks(mask, size, threshold).result, Times(p, size), Times(q, size);
            && blocks.WellFormed() && InShape([p, q], blocks.shape)
            && (blocks.At([p, q]) <==> PixelSum(mask, y, x, size, size) >= threshold * (size * size) as real)
            && (AllAtLeast(mask, y, x, size, size, threshold) ==> blocks.At([p, q]))
            && (AllBelow(mask, y, x, size, size, threshold) ==> !blocks.At([p, q]))
  {
    BlockIsMeanOfPixels(mask, size, threshold, p, q);
    var y, x := Times(p, size), Times(q, size);
    MeanReaches(PixelSum(mask, y, x, size, size), size, threshold);
    AreaOfRegion(threshold, size, size);
    if AllAtLeast(mask, y, x, size, size, threshold) {
      SumAtLeast(mask, y, x, size, size, threshold);
    }
    if AllBelow(mask, y, x, size, size, threshold) {
      SumBelow(mask, y, x, size, size, threshold);
    }
  }

  // ----- Every pixel of the region counts once, and no other

  /** The two masks differ at most in the pixel (r, c). */
  predicate DifferAt(mask: Tensor<real>, mask': Tensor<real>, r: nat, c: nat)
    requires IsMask(mask) && IsMask(mask') && mask.shape == mask'.shape
  {
    forall y: nat, x: nat :: y < mask.shape[0] && x < mask.shape[1] && (y != r || x != c) ==>
      mask.At([y, x]) == mask'.At([y, x])
  }

  function Change(mask: Tensor<real>, mask': Tensor<real>, r: nat, c: nat): real
    requires IsMask(mask) && IsMask(mask') && r < mask.shape[0] == mask'.shape[0] && c < mask.shape[1] == mask'.shape[1]
  {
    mask'.At([r, c]) - mask.At([r, c])
  }

  lemma {:induction false} RowChanges(mask: Tensor<real>, mask': Tensor<real>, y: nat, x: nat, n: nat, r: nat, c: nat)
    requires IsMask(mask) && IsMask(mask') && mask.shape == mask'.shape && DifferAt(mask, mask', r, c)
    requires y < mask.shape[0] && x + n <= mask.shape[1] && r < mask.shape[0] && c < mask.shape[1]
    ensures PixelRowSum(mask', y, x, n) ==
            PixelRowSum(mask, y, x, n) + if y == r && x <= c < x + n then Change(mask, mask', r, c) else 0.0
  {
    if n > 0 {
      RowChanges(mask, mask', y, x, n - 1, r, c);
    }
  }

  /** Changing one pixel changes the sum of a region by as much if the pixel is in it, and not at all otherwise. */
  lemma {:induction false} SumChanges(mask: Tensor<real>, mask': Tensor<real>, y: nat, x: nat, n: nat, m: nat,
                                      r: nat, c: nat)
    requires IsMask(mask) && IsMask(mask') && mask.shape == mask'.shape && DifferAt(mask, mask', r, c)
    requires y + m <= mask.shape[0] && x + n <= mask.shape[1] && r < mask.shape[0] && c < mask.shape[1]
    ensures PixelSum(mask', y, x, n, m) ==
            PixelSum(mask, y, x, n, m)
            + if y <= r < y + m && x <= c < x + n then mask'.At([r, c]) - mask.At([r, c]) else 0.0
  {
    if m > 0 {
      SumChanges(mask, mask', y, x, n, m - 1, r, c);
      RowChanges(mask, mask', y + m - 1, x, n, r, c);
    }
  }
}
