/** What the reshape, permute, reshape chain computes, and when it computes anything. */
module PixelShuffleMeaning {
  import opened Options
  import opened Shapes
  import opened Tensors
  import opened PixelShuffle

  // ----- When the two reshapes are valid

  lemma EqualFactors(a: nat, b: nat, m: nat)
    ensures Times(a, m) == Times(b, m) <==> a == b || m == 0
  {}

  lemma MoveFactors(b: nat, c: nat, h: nat, w: nat)
    ensures Times(Times(Times(b, c), h), w) == Times(c, Times(Times(b, h), w))
  {}

  lemma MoveSquare(b: nat, c: nat, r: nat, h: nat, w: nat)
    ensures Times(Times(Times(Times(Times(b, c), r), r), h), w)
         == Times(Times(c, Times(r, r)), Times(Times(b, h), w))
  {}

  lemma MoveScale(b: nat, c: nat, h: nat, w: nat, r: nat)
    ensures Times(Times(Times(Times(Times(b, c), h), r), w), r)
         == Times(Times(Times(b, c), Times(h, r)), Times(w, r))
  {}

  lemma DividesExactly(n: nat, d: nat)
    requires d > 0
    ensures Times(n / d, d) == n <==> n % d == 0
  {}

  /**
   The pass returns exactly on rank-4 tensors whose channel count is a multiple of
   r^2, or that hold no element for another reason; the result scales both axes.
   */
  lemma ReturnsExactlyWhen<T>(x: Tensor<T>, r: nat)
    requires x.WellFormed()
    ensures Forward(x, r).Ok? <==>
            |x.shape| == 4 && r > 0 &&
            (x.shape[1] % (r * r) == 0 || Times(Times(x.shape[0], x.shape[2]), x.shape[3]) == 0)
    ensures Forward(x, r).Ok? ==>
            r * r > 0 && Forward(x, r).result.WellFormed() &&
            Forward(x, r).result.shape ==
            [x.shape[0], x.shape[1] / (r * r), Times(x.shape[2], r), Times(x.shape[3], r)]
  {
    if |x.shape| == 4 && r > 0 {
      PositiveSquare(r);
      var b, c, h, w := x.shape[0], x.shape[1] / Times(r, r), x.shape[2], x.shape[3];
      assert x.shape == [b, x.shape[1], h, w];
      FirstReshape(b, x.shape[1], h, w, r, c);
      SecondReshape(b, c, h, w, r);
    }
  }

  lemma FirstReshape(b: nat, n: nat, h: nat, w: nat, r: nat, c: nat)
    requires Times(r, r) > 0 && c == n / Times(r, r)
    ensures Product([b, c, r, r, h, w]) == Product([b, n, h, w])
       <==> n % Times(r, r) == 0 || Times(Times(b, h), w) == 0
  {
    Product6(b, c, r, r, h, w);
    Product4(b, n, h, w);
    MoveSquare(b, c, r, h, w);
    MoveFactors(b, n, h, w);
    EqualFactors(Times(c, Times(r, r)), n, Times(Times(b, h), w));
    DividesExactly(n, Times(r, r));
  }

  lemma SecondReshape(b: nat, c: nat, h: nat, w: nat, r: nat)
    ensures Product([b, c, h, r, w, r]) == Product([b, c, Times(h, r), Times(w, r)])
  {
    Product6(b, c, h, r, w, r);
    Product4(b, c, Times(h, r), Times(w, r));
    MoveScale(b, c, h, w, r);
  }

  // ----- Which element goes where

  /** An element exists, so no axis is empty and r^2 divides the channels. */
  lemma ChannelsSplit<T>(x: Tensor<T>, r: nat, bi: nat, y: nat, xi: nat)
    requires x.WellFormed() && Forward(x, r).Ok?
    requires |x.shape| == 4 && bi < x.shape[0] && y < x.shape[2] && xi < x.shape[3]
    ensures r > 0 && Times(r, r) > 0
    ensures x.shape[1] == Times(Times(x.shape[1] / Times(r, r), r), r)
  {
    ReturnsExactlyWhen(x, r);
    PositiveSquare(r);
    PositiveProduct3(x.shape[0], x.shape[2], x.shape[3]);
    DividesExactly(x.shape[1], Times(r, r));
    TimesAssociates(x.shape[1] / Times(r, r), r, r);
  }

  lemma PositiveProduct3(a: nat, b: nat, c: nat)
    requires a > 0 && b > 0 && c > 0
    ensures Times(Times(a, b), c) > 0
  {}

  lemma FirstStage<T>(t: Tensor<T>, x: Tensor<T>, b: nat, n: nat, c: nat, r: nat, h: nat, w: nat,
                      bi: nat, ci: nat, i: nat, j: nat, y: nat, xi: nat, channel: nat)
    requires n == Times(Times(c, r), r) && x.shape == [b, n, h, w] && t.shape == [b, c, r, r, h, w]
    requires x.WellFormed() && t.WellFormed() && x.data == t.data
    requires bi < b && ci < c && i < r && j < r && y < h && xi < w && channel == Step(Step(ci, r, i), r, j)
    ensures InShape([bi, ci, i, j, y, xi], t.shape) && InShape([bi, channel, y, xi], x.shape)
    ensures t.At([bi, ci, i, j, y, xi]) == x.At([bi, channel, y, xi])
  {
    StepBound(ci, c, r, i);
    StepBound(Step(ci, r, i), Times(c, r), r, j);
    Ravel4(b, n, h, w, bi, channel, y, xi);
    Ravel6(b, c, r, r, h, w, bi, ci, i, j, y, xi);
    SplitChannels(c, r, h, w, bi, ci, i, j, y, xi);
    SameStorage(t, [bi, ci, i, j, y, xi], x, [bi, channel, y, xi]);
  }

  lemma LastStage<T>(t: Tensor<T>, x: Tensor<T>, b: nat, c: nat, r: nat, h: nat, w: nat,
                     bi: nat, ci: nat, i: nat, j: nat, y: nat, xi: nat, row: nat, column: nat)
    requires t.shape == [b, c, h, r, w, r] && x.shape == [b, c, Times(h, r), Times(w, r)]
    requires x.WellFormed() && t.WellFormed() && x.data == t.data
    requires bi < b && ci < c && i < r && j < r && y < h && xi < w
    requires row == Step(y, r, i) && column == Step(xi, r, j)
    ensures InShape([bi, ci, y, i, xi, j], t.shape) && InShape([bi, ci, row, column], x.shape)
    ensures x.At([bi, ci, row, column]) == t.At([bi, ci, y, i, xi, j])
  {
    StepBound(y, h, r, i);
    StepBound(xi, w, r, j);
    Ravel4(b, c, Times(h, r), Times(w, r), bi, ci, row, column);
    Ravel6(b, c, h, r, w, r, bi, ci, y, i, xi, j);
    MergeBlocks(c, r, h, w, bi, ci, y, i, xi, j);
    SameStorage(x, [bi, ci, row, column], t, [bi, ci, y, i, xi, j]);
  }

  lemma MiddleStage<T>(t: Tensor<T>, b: nat, c: nat, r: nat, h: nat, w: nat,
                       bi: nat, ci: nat, i: nat, j: nat, y: nat, xi: nat)
    requires t.WellFormed() && t.shape == [b, c, r, r, h, w]
    requires bi < b && ci < c && i < r && j < r && y < h && xi < w
    ensures PermuteContiguous(t).WellFormed() && PermuteContiguous(t).shape == [b, c, h, r, w, r]
    ensures InShape([bi, ci, y, i, xi, j], [b, c, h, r, w, r]) && InShape([bi, ci, i, j, y, xi], t.shape)
    ensures PermuteContiguous(t).At([bi, ci, y, i, xi, j]) == t.At([bi, ci, i, j, y, xi])
  {
    Ravel6(b, c, h, r, w, r, bi, ci, y, i, xi, j);
    assert Permuted(t.shape) == [b, c, h, r, w, r];
    PermuteAt(t, [bi, ci, y, i, xi, j]);
    assert Unpermuted([bi, ci, y, i, xi, j]) == [bi, ci, i, j, y, xi];
  }

  lemma ElementMoves<T>(x: Tensor<T>, r: nat, out: Tensor<T>,
                        bi: nat, ci: nat, i: nat, j: nat, y: nat, xi: nat, channel: nat, row: nat, column: nat)
    requires x.WellFormed() && Forward(x, r) == Ok(out) && |x.shape| == 4 && Times(r, r) > 0
    requires bi < x.shape[0] && ci < x.shape[1] / Times(r, r) && i < r && j < r && y < x.shape[2] && xi < x.shape[3]
    requires channel == Step(Step(ci, r, i), r, j) && row == Step(y, r, i) && column == Step(xi, r, j)
    ensures out.WellFormed() && InShape([bi, channel, y, xi], x.shape) && InShape([bi, ci, row, column], out.shape)
    ensures out.At([bi, ci, row, column]) == x.At([bi, channel, y, xi])
  {
    ChannelsSplit(x, r, bi, y, xi);
    var b, n, h, w := x.shape[0], x.shape[1], x.shape[2], x.shape[3];
    var c := n / Times(r, r);
    assert x.shape == [b, n, h, w];
    var t := x.(shape := [b, c, r, r, h, w]);
    FirstStage(t, x, b, n, c, r, h, w, bi, ci, i, j, y, xi, channel);
    MiddleStage(t, b, c, r, h, w, bi, ci, i, j, y, xi);
    LastStage(PermuteContiguous(t), out, b, c, r, h, w, bi, ci, i, j, y, xi, row, column);
  }

  lemma ChannelFormula(c: nat, i: nat, j: nat, r: nat)
    ensures Step(Step(c, r, i), r, j) == c * (r * r) + i * r + j
  {}

  /** out[b, c, y r + i, x r + j] == in[b, c r^2 + i r + j, y, x]. */
  lemma ShuffleMovesBlocks<T>(x: Tensor<T>, r: nat, out: Tensor<T>,
                              bi: nat, ci: nat, i: nat, j: nat, y: nat, xi: nat)
    requires x.WellFormed() && Forward(x, r) == Ok(out) && |x.shape| == 4 && r * r > 0
    requires bi < x.shape[0] && ci < x.shape[1] / (r * r) && i < r && j < r && y < x.shape[2] && xi < x.shape[3]
    ensures out.WellFormed()
    ensures InShape([bi, ci * (r * r) + i * r + j, y, xi], x.shape)
    ensures InShape([bi, ci, y * r + i, xi * r + j], out.shape)
    ensures out.At([bi, ci, y * r + i, xi * r + j]) == x.At([bi, ci * (r * r) + i * r + j, y, xi])
  {
    ChannelFormula(ci, i, j, r);
    ElementMoves(x, r, out, bi, ci, i, j, y, xi, ci * (r * r) + i * r + j, y * r + i, xi * r + j);
  }

  // ----- The index map is a bijection

  /** The input element read for an output element. */
  function Source(r: nat, o: Index): Index
    requires r > 0 && |o| == 4
  {
    [o[0], Step(Step(o[1], r, o[2] % r), r, o[3] % r), o[2] / r, o[3] / r]
  }

  /** The output element an input element lands on. */
  function Target(r: nat, s: Index): Index
    requires r > 0 && |s| == 4
  {
    [s[0], s[1] / r / r, Step(s[2], r, s[1] / r % r), Step(s[3], r, s[1] % r)]
  }

  lemma TargetOfSource(r: nat, o: Index)
    requires r > 0 && |o| == 4
    ensures Target(r, Source(r, o)) == o
  {
    var i, j := o[2] % r, o[3] % r;
    DivModOfStep(Source(r, o)[1], Step(o[1], r, i), r, j);
    DivModOfStep(Step(o[1], r, i), o[1], r, i);
    StepOfDivMod(o[2], r);
    StepOfDivMod(o[3], r);
  }

  lemma SourceOfTarget(r: nat, s: Index)
    requires r > 0 && |s| == 4
    ensures Source(r, Target(r, s)) == s
  {
    DivModOfStep(Target(r, s)[2], s[2], r, s[1] / r % r);
    DivModOfStep(Target(r, s)[3], s[3], r, s[1] % r);
    StepOfDivMod(s[1] / r, r);
    StepOfDivMod(s[1], r);
  }

  /** Every output element is one input element... */
  lemma OutputReadsSource<T>(x: Tensor<T>, r: nat, out: Tensor<T>, o: Index)
    requires x.WellFormed() && Forward(x, r) == Ok(out) && InShape(o, out.shape)
    ensures out.WellFormed() && r > 0 && |o| == 4
    ensures InShape(Source(r, o), x.shape) && out.At(o) == x.At(Source(r, o))
  {
    ReturnsExactlyWhen(x, r);
    QuotientBound(o[2], x.shape[2], r);
    QuotientBound(o[3], x.shape[3], r);
    StepOfDivMod(o[2], r);
    StepOfDivMod(o[3], r);
    ElementMoves(x, r, out, o[0], o[1], o[2] % r, o[3] % r, o[2] / r, o[3] / r, Source(r, o)[1], o[2], o[3]);
    assert o == [o[0], o[1], o[2], o[3]];
  }

  lemma TargetInShape<T>(x: Tensor<T>, r: nat, out: Tensor<T>, s: Index)
    requires x.WellFormed() && Forward(x, r) == Ok(out) && InShape(s, x.shape)
    ensures r > 0 && |s| == 4 && InShape(Target(r, s), out.shape)
  {
    ReturnsExactlyWhen(x, r);
    ChannelsSplit(x, r, s[0], s[2], s[3]);
    var c := x.shape[1] / Times(r, r);
    QuotientBound(s[1], Times(c, r), r);
    QuotientBound(s[1] / r, c, r);
    StepBound(s[2], x.shape[2], r, s[1] / r % r);
    StepBound(s[3], x.shape[3], r, s[1] % r);
  }

  /** ...and every input element is one output element, namely the one that reads it. */
  lemma InputReachesTarget<T>(x: Tensor<T>, r: nat, out: Tensor<T>, s: Index)
    requires x.WellFormed() && Forward(x, r) == Ok(out) && InShape(s, x.shape)
    ensures out.WellFormed() && r > 0 && |s| == 4
    ensures InShape(Target(r, s), out.shape) && x.At(s) == out.At(Target(r, s))
  {
    TargetInShape(x, r, out, s);
    OutputReadsSource(x, r, out, Target(r, s));
    SourceOfTarget(r, s);
  }
}
