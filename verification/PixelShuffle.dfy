/**
 The export-safe replacement of PixelShuffle: reshape, permute, reshape over the
 flat storage of a tensor.
 */
module PixelShuffle {
  import opened Options
  import opened Shapes
  import opened Tensors

  /** The (0, 1, 4, 2, 5, 3) permutation of a six-fold index, and its inverse. */
  function Permuted(index: Index): Index
    requires |index| == 6
  {
    [index[0], index[1], index[4], index[2], index[5], index[3]]
  }

  function Unpermuted(index: Index): Index
    requires |index| == 6
  {
    [index[0], index[1], index[3], index[5], index[2], index[4]]
  }

  /** permute(0, 1, 4, 2, 5, 3) followed by a copy into contiguous storage. */
  function PermuteContiguous<T>(t: Tensor<T>): Tensor<T>
    requires |t.shape| == 6 && t.WellFormed()
  {
    var shape := Permuted(t.shape);
    Tensor(shape, seq(Product(shape), k requires 0 <= k < Product(shape) => t.At(Unpermuted(Unravel(shape, k)))))
  }

  /** The forward pass; r is the upscale factor. */
  function Forward<T>(x: Tensor<T>, r: nat): Result<Tensor<T>>
    requires x.WellFormed()
  {
    if |x.shape| != 4 then Raise("not enough values to unpack")
    else if r == 0 then Raise("integer division or modulo by zero")
    else
      PositiveSquare(r);
      var b, c, h, w := x.shape[0], x.shape[1] / Times(r, r), x.shape[2], x.shape[3];
      match Reshape(x, [b, c, r, r, h, w])
      case Raise(message) => Raise(message)
      case Ok(y) => Reshape(PermuteContiguous(y), [b, c, Times(h, r), Times(w, r)])
  }

  lemma PositiveSquare(r: nat)
    requires r > 0
    ensures Times(r, r) > 0
  {}

  // ----- Positions under shapes of four and of six axes

  function Flat6(n1: nat, n2: nat, n3: nat, n4: nat, n5: nat, i0: nat, i1: nat, i2: nat, i3: nat, i4: nat, i5: nat): nat
  {
    Step(Step(Flat4(n1, n2, n3, i0, i1, i2, i3), n4, i4), n5, i5)
  }

  lemma Ravel6(n0: nat, n1: nat, n2: nat, n3: nat, n4: nat, n5: nat,
               i0: nat, i1: nat, i2: nat, i3: nat, i4: nat, i5: nat)
    requires i0 < n0 && i1 < n1 && i2 < n2 && i3 < n3 && i4 < n4 && i5 < n5
    ensures InShape([i0, i1, i2, i3, i4, i5], [n0, n1, n2, n3, n4, n5])
    ensures Ravel([n0, n1, n2, n3, n4, n5], [i0, i1, i2, i3, i4, i5])
         == Flat6(n1, n2, n3, n4, n5, i0, i1, i2, i3, i4, i5)
  {
    Ravel4(n0, n1, n2, n3, i0, i1, i2, i3);
    RavelAppend([n0, n1, n2, n3], n4, [i0, i1, i2, i3], i4, [n0, n1, n2, n3, n4], [i0, i1, i2, i3, i4]);
    RavelAppend([n0, n1, n2, n3, n4], n5, [i0, i1, i2, i3, i4], i5,
                [n0, n1, n2, n3, n4, n5], [i0, i1, i2, i3, i4, i5]);
  }

  lemma Product6(n0: nat, n1: nat, n2: nat, n3: nat, n4: nat, n5: nat)
    ensures Product([n0, n1, n2, n3, n4, n5]) == Times(Times(Times(Times(Times(n0, n1), n2), n3), n4), n5)
  {
    Product4(n0, n1, n2, n3);
    ProductSnoc([n0, n1, n2, n3], n4);
    ProductSnoc([n0, n1, n2, n3, n4], n5);
    assert [n0, n1, n2, n3] + [n4] == [n0, n1, n2, n3, n4];
    assert [n0, n1, n2, n3, n4] + [n5] == [n0, n1, n2, n3, n4, n5];
  }

  lemma TimesAssociates(a: nat, b: nat, c: nat)
    ensures Times(a, Times(b, c)) == Times(Times(a, b), c)
  {}

  /** The first reshape leaves an element of block (i, j) where it was. */
  lemma SplitChannels(c: nat, r: nat, h: nat, w: nat, bi: nat, ci: nat, i: nat, j: nat, y: nat, x: nat)
    ensures Flat4(Times(Times(c, r), r), h, w, bi, Step(Step(ci, r, i), r, j), y, x)
         == Flat6(c, r, r, h, w, bi, ci, i, j, y, x)
  {
    StepStep(bi, Times(c, r), r, Step(ci, r, i), j);
    StepStep(bi, c, r, ci, i);
  }

  /** And the second leaves it where the permutation put it. */
  lemma MergeBlocks(c: nat, r: nat, h: nat, w: nat, bi: nat, ci: nat, y: nat, i: nat, x: nat, j: nat)
    ensures Flat4(c, Times(h, r), Times(w, r), bi, ci, Step(y, r, i), Step(x, r, j))
         == Flat6(c, h, r, w, r, bi, ci, y, i, x, j)
  {
    StepStep(Step(bi, c, ci), h, r, y, i);
    StepStep(Step(Step(Step(bi, c, ci), h, y), r, i), w, r, x, j);
  }

  lemma PermuteAt<T>(t: Tensor<T>, index: Index)
    requires |t.shape| == 6 && t.WellFormed() && InShape(index, Permuted(t.shape))
    ensures PermuteContiguous(t).WellFormed() && InShape(Unpermuted(index), t.shape)
    ensures PermuteContiguous(t).At(index) == t.At(Unpermuted(index))
  {
    UnravelOfRavel(Permuted(t.shape), index);
  }
}
