/** Reducing a saliency mask to boolean block decisions. */
module SaliencyBlocks {
  import opened Options
  import opened Shapes
  import opened Tensors

  predicate IsMask(mask: Tensor<real>) {
    mask.WellFormed() && |mask.shape| == 2
  }

  /** The top left rows x columns pixels. */
  function Crop(mask: Tensor<real>, rows: nat, columns: nat): Tensor<real>
    requires IsMask(mask) && rows <= mask.shape[0] && columns <= mask.shape[1]
  {
    Tensor([rows, columns], seq(Product([rows, columns]), k requires 0 <= k < Product([rows, columns]) =>
      mask.At(Unravel([rows, columns], k))))
  }

  /** A tensor of block rows, rows in a block, block columns and columns in a block. */
  predicate IsBlocked(t: Tensor<real>, bh: nat, size: nat, bw: nat) {
    t.WellFormed() && t.shape == [bh, size, bw, size]
  }

  function RowSum(t: Tensor<real>, bh: nat, size: nat, bw: nat, p: nat, i: nat, q: nat, n: nat): real
    requires IsBlocked(t, bh, size, bw) && p < bh && i < size && q < bw && n <= size
  {
    if n == 0 then 0.0
    else
      Ravel4(bh, size, bw, size, p, i, q, n - 1);
      RowSum(t, bh, size, bw, p, i, q, n - 1) + t.At([p, i, q, n - 1])
  }

  function BlockSum(t: Tensor<real>, bh: nat, size: nat, bw: nat, p: nat, q: nat, m: nat): real
    requires IsBlocked(t, bh, size, bw) && p < bh && q < bw && m <= size
  {
    if m == 0 then 0.0
    else BlockSum(t, bh, size, bw, p, q, m - 1) + RowSum(t, bh, size, bw, p, m - 1, q, size)
  }

  function Mean(sum: real, size: nat): real
    requires size > 0
  {
    StrictProductOrder(size, 0, size);
    sum / (size * size) as real
  }

  /** The mean over axes 1 and 3, thresholded. */
  function Decide(t: Tensor<real>, bh: nat, size: nat, bw: nat, threshold: real): Tensor<bool>
    requires IsBlocked(t, bh, size, bw) && size > 0
  {
    Tensor([bh, bw], seq(Product([bh, bw]), k requires 0 <= k < Product([bh, bw]) =>
      var at := Unravel([bh, bw], k);
      Mean(BlockSum(t, bh, size, bw, at[0], at[1], size), size) >= threshold))
  }

  function MaskToBlocks(mask: Tensor<real>, blockSize: int, threshold: real): Result<Tensor<bool>>
    requires mask.WellFormed()
  {
    if blockSize <= 0 then Raise("block_size must be positive")
    else if !(0.0 <= threshold <= 1.0) then Raise("threshold must be in [0, 1]")
    else if |mask.shape| != 2 then Raise("not two values to unpack")
    else
      var bh, bw := mask.shape[0] / blockSize, mask.shape[1] / blockSize;
      if bh == 0 || bw == 0 then Raise("mask smaller than block size")
      else
        CropFits(mask.shape[0], blockSize);
        CropFits(mask.shape[1], blockSize);
        SplitKeepsSize(bh, blockSize, bw);
        match Reshape(Crop(mask, Times(bh, blockSize), Times(bw, blockSize)), [bh, blockSize, bw, blockSize])
        case Raise(message) => Raise(message)
        case Ok(t) => Ok(Decide(t, bh, blockSize, bw, threshold))
  }

  lemma CropFits(n: nat, size: nat)
    requires size > 0
    ensures Times(n / size, size) <= n
  {}

  lemma SplitKeepsSize(bh: nat, size: nat, bw: nat)
    ensures Product([bh, size, bw, size]) == Product([Times(bh, size), Times(bw, size)])
  {
    Product4(bh, size, bw, size);
    Product2(Times(bh, size), Times(bw, size));
    Reassociate(Times(bh, size), bw, size);
  }

  lemma Reassociate(a: nat, b: nat, c: nat)
    ensures Times(Times(a, b), c) == Times(a, Times(b, c))
  {}

  // ----- The blocks of the reshaped crop are the blocks of the mask

  lemma CropAt(mask: Tensor<real>, rows: nat, columns: nat, y: nat, x: nat)
    requires IsMask(mask) && rows <= mask.shape[0] && columns <= mask.shape[1] && y < rows && x < columns
    ensures InShape([y, x], [rows, columns]) && InShape([y, x], mask.shape)
    ensures Crop(mask, rows, columns).WellFormed() && Crop(mask, rows, columns).At([y, x]) == mask.At([y, x])
  {
    UnravelOfRavel([rows, columns], [y, x]);
  }

  /** Element (p, i, q, j) of the reshaped crop is pixel (p size + i, q size + j). */
  lemma BlockedAt(mask: Tensor<real>, t: Tensor<real>, bh: nat, size: nat, bw: nat, p: nat, i: nat, q: nat, j: nat)
    requires IsMask(mask) && Times(bh, size) <= mask.shape[0] && Times(bw, size) <= mask.shape[1]
    requires IsBlocked(t, bh, size, bw) && t.data == Crop(mask, Times(bh, size), Times(bw, size)).data
    requires p < bh && i < size && q < bw && j < size
    ensures InShape([p, i, q, j], t.shape) && InShape([Step(p, size, i), Step(q, size, j)], mask.shape)
    ensures t.At([p, i, q, j]) == mask.At([Step(p, size, i), Step(q, size, j)])
  {
    var crop := Crop(mask, Times(bh, size), Times(bw, size));
    StepBound(p, bh, size, i);
    StepBound(q, bw, size, j);
    CropAt(mask, Times(bh, size), Times(bw, size), Step(p, size, i), Step(q, size, j));
    Ravel4(bh, size, bw, size, p, i, q, j);
    Ravel2(Times(bh, size), Times(bw, size), Step(p, size, i), Step(q, size, j));
    StepStep(Step(p, size, i), bw, size, q, j);
    SameStorage(t, [p, i, q, j], crop, [Step(p, size, i), Step(q, size, j)]);
  }

  // ----- Sums taken over the mask itself

  /** n pixels of row y from column x on. */
  function PixelRowSum(mask: Tensor<real>, y: nat, x: nat, n: nat): real
    requires IsMask(mask) && y < mask.shape[0] && x + n <= mask.shape[1]
  {
    if n == 0 then 0.0
    else
      PixelRowSum(mask, y, x, n - 1) + mask.At([y, x + n - 1])
  }

  /** m rows of n pixels from (y, x) on. */
  function PixelSum(mask: Tensor<real>, y: nat, x: nat, n: nat, m: nat): real
    requires IsMask(mask) && y + m <= mask.shape[0] && x + n <= mask.shape[1]
  {
    if m == 0 then 0.0 else PixelSum(mask, y, x, n, m - 1) + PixelRowSum(mask, y + m - 1, x, n)
  }

  lemma BlockInside(p: nat, bh: nat, size: nat, height: nat)
    requires p < bh && Times(bh, size) <= height
    ensures Times(p, size) + size <= height
  {
    StrictProductOrder(bh, p, size);
  }

  lemma {:induction false} RowSumIsPixels(mask: Tensor<real>, t: Tensor<real>, bh: nat, size: nat, bw: nat,
                                          p: nat, i: nat, q: nat, n: nat, y: nat, x: nat)
    requires IsMask(mask) && Times(bh, size) <= mask.shape[0] && Times(bw, size) <= mask.shape[1]
    requires IsBlocked(t, bh, size, bw) && t.data == Crop(mask, Times(bh, size), Times(bw, size)).data
    requires p < bh && i < size && q < bw && n <= size && y == Step(p, size, i) && x == Step(q, size, 0)
    requires y < mask.shape[0] && x + size <= mask.shape[1]
    ensures RowSum(t, bh, size, bw, p, i, q, n) == PixelRowSum(mask, y, x, n)
  {
    if n > 0 {
      RowSumIsPixels(mask, t, bh, size, bw, p, i, q, n - 1, y, x);
      BlockedAt(mask, t, bh, size, bw, p, i, q, n - 1);
      assert Step(q, size, n - 1) == x + n - 1;
    }
  }

  lemma {:induction false} BlockSumIsPixels(mask: Tensor<real>, t: Tensor<real>, bh: nat, size: nat, bw: nat,
                                            p: nat, q: nat, m: nat, y: nat, x: nat)
    requires IsMask(mask) && Times(bh, size) <= mask.shape[0] && Times(bw, size) <= mask.shape[1]
    requires IsBlocked(t, bh, size, bw) && t.data == Crop(mask, Times(bh, size), Times(bw, size)).data
    requires p < bh && q < bw && m <= size && y == Step(p, size, 0) && x == Step(q, size, 0)
    requires y + size <= mask.shape[0] && x + size <= mask.shape[1]
    ensures BlockSum(t, bh, size, bw, p, q, m) == PixelSum(mask, y, x, size, m)
  {
    if m > 0 {
      BlockSumIsPixels(mask, t, bh, size, bw, p, q, m - 1, y, x);
      assert Step(p, size, m - 1) == y + m - 1;
      RowSumIsPixels(mask, t, bh, size, bw, p, m - 1, q, size, y + m - 1, x);
    }
  }

  /** The decisions are taken on the reshaped crop, which the reshape leaves valid. */
  lemma DecidesOnCrop(mask: Tensor<real>, size: nat, threshold: real, bh: nat, bw: nat, t: Tensor<real>)
    requires IsMask(mask) && MaskToBlocks(mask, size, threshold).Ok? && size > 0
    requires bh == mask.shape[0] / size && bw == mask.shape[1] / size
    requires t.shape == [bh, size, bw, size]
    requires Times(bh, size) <= mask.shape[0] && Times(bw, size) <= mask.shape[1]
    requires t.data == Crop(mask, Times(bh, size), Times(bw, size)).data
    ensures IsBlocked(t, bh, size, bw) && MaskToBlocks(mask, size, threshold) == Ok(Decide(t, bh, size, bw, threshold))
  {}

  /** A block is set exactly when the mean of its own size x size pixels reaches the threshold. */
  lemma BlockIsMeanOfPixels(mask: Tensor<real>, size: nat, threshold: real, p: nat, q: nat)
    requires IsMask(mask) && MaskToBlocks(mask, size, threshold).Ok? && size > 0
    requires p < mask.shape[0] / size && q < mask.shape[1] / size
    ensures Times(p, size) + size <= mask.shape[0] && Times(q, size) + size <= mask.shape[1]
    ensures var blocks := MaskToBlocks(mask, size, threshold).result;
            blocks.WellFormed() && blocks.shape == [mask.shape[0] / size, mask.shape[1] / size] &&
            InShape([p, q], blocks.shape) &&
            (blocks.At([p, q]) <==>
             Mean(PixelSum(mask, Times(p, size), Times(q, size), size, size), size) >= threshold)
  {
    var bh, bw := mask.shape[0] / size, mask.shape[1] / size;
    CropFits(mask.shape[0], size);
    CropFits(mask.shape[1], size);
    BlockInside(p, bh, size, mask.shape[0]);
    BlockInside(q, bw, size, mask.shape[1]);
    var t := Crop(mask, Times(bh, size), Times(bw, size)).(shape := [bh, size, bw, size]);
    DecidesOnCrop(mask, size, threshold, bh, bw, t);
    BlockSumIsPixels(mask, t, bh, size, bw, p, q, size, Times(p, size), Times(q, size));
    DecideAt(t, bh, size, bw, threshold, p, q);
  }

  lemma DecideAt(t: Tensor<real>, bh: nat, size: nat, bw: nat, threshold: real, p: nat, q: nat)
    requires IsBlocked(t, bh, size, bw) && size > 0 && p < bh && q < bw
    ensures var blocks := Decide(t, bh, size, bw, threshold);
            blocks.WellFormed() && InShape([p, q], blocks.shape) &&
            (blocks.At([p, q]) <==> Mean(BlockSum(t, bh, size, bw, p, q, size), size) >= threshold)
  {
    UnravelOfRavel([bh, bw], [p, q]);
  }

  /** The crop always reshapes: only the arguments and a mask smaller than a block are refused. */
  lemma RefusesExactlyWhen(mask: Tensor<real>, size: int, threshold: real)
    requires IsMask(mask)
    ensures MaskToBlocks(mask, size, threshold).Ok? <==>
            size > 0 && 0.0 <= threshold <= 1.0 && size <= mask.shape[0] && size <= mask.shape[1]
  {
    if size > 0 {
      SplitKeepsSize(mask.shape[0] / size, size, mask.shape[1] / size);
      PositiveQuotient(mask.shape[0], size);
      PositiveQuotient(mask.shape[1], size);
    }
  }

  lemma PositiveQuotient(n: nat, size: nat)
    requires size > 0
    ensures n / size == 0 <==> n < size
  {}

  lemma CoordinateHasOneBlock(y: nat, size: nat, bh: nat)
    requires size > 0 && y < Times(bh, size)
    ensures y / size < bh && y == Step(y / size, size, y % size)
    ensures forall p: nat, i: nat :: i < size && y == Step(p, size, i) ==> p == y / size && i == y % size
  {
    QuotientBound(y, bh, size);
    StepOfDivMod(y, size);
    forall p: nat, i: nat | i < size && y == Step(p, size, i) ensures p == y / size && i == y % size {
      DivModOfStep(y, p, size, i);
    }
  }

  /** A pixel of the crop lies in exactly one block, at exactly one place. */
  lemma PixelHasOneBlock(y: nat, x: nat, size: nat, bh: nat, bw: nat)
    requires size > 0 && y < Times(bh, size) && x < Times(bw, size)
    ensures y / size < bh && y % size < size && x / size < bw && x % size < size
    ensures forall p: nat, i: nat, q: nat, j: nat :: p < bh && i < size && q < bw && j < size ==>
              (y == Step(p, size, i) && x == Step(q, size, j)
               <==> p == y / size && i == y % size && q == x / size && j == x % size)
  {
    CoordinateHasOneBlock(y, size, bh);
    CoordinateHasOneBlock(x, size, bw);
  }
}
