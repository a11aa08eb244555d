/** Shapes of row-major tensors, and the flat position of a multi-index. */
module Shapes {
  import opened Collections

  type Shape = seq<nat>
  type Index = seq<nat>

  /** A product by name, so that equal factors give syntactically equal products. */
  function Times(a: nat, b: nat): nat {
    a * b
  }

  /** One more axis of size n, at coordinate i, behind a position p. */
  function Step(p: nat, n: nat, i: nat): nat {
    Times(p, n) + i
  }

  function Product(shape: Shape): nat {
    if shape == [] then 1 else Times(Product(Front(shape)), Last(shape))
  }

  predicate InShape(index: Index, shape: Shape) {
    |index| == |shape| && forall i :: 0 <= i < |shape| ==> index[i] < shape[i]
  }

  lemma ProductOrder(a: int, b: int, p: nat)
    requires a >= b
    ensures a * p >= b * p
  {}

  lemma StrictProductOrder(a: int, b: int, p: nat)
    requires a > b
    ensures a * p >= b * p + p
  {
    ProductOrder(a, b + 1, p);
    assert (b + 1) * p == b * p + p;
  }

  /** Merging two adjacent axes keeps the position. */
  lemma StepStep(p: nat, n: nat, m: nat, i: nat, j: nat)
    ensures Step(p, Times(n, m), Step(i, m, j)) == Step(Step(p, n, i), m, j)
  {}

  lemma StepBound(p: nat, q: nat, n: nat, i: nat)
    requires p < q && i < n
    ensures Step(p, n, i) < Times(q, n)
  {
    StrictProductOrder(q, p, n);
  }

  /** The position of an index in row-major storage, by Horner's scheme. */
  function Ravel(shape: Shape, index: Index): nat
    requires InShape(index, shape)
    decreases shape
  {
    if shape == [] then 0
    else Step(Ravel(Front(shape), Front(index)), Last(shape), Last(index))
  }

  lemma {:induction false} RavelBound(shape: Shape, index: Index)
    requires InShape(index, shape)
    ensures Ravel(shape, index) < Product(shape)
    decreases shape
  {
    if shape != [] {
      RavelBound(Front(shape), Front(index));
      StepBound(Ravel(Front(shape), Front(index)), Product(Front(shape)), Last(shape), Last(index));
    }
  }

  lemma QuotientIsUnique(p: int, q: int, p': int, q': int, n: nat)
    requires p * n + q == p' * n + q' && 0 <= q < n && 0 <= q' < n
    ensures p == p' && q == q'
  {
    if p > p' {
      StrictProductOrder(p, p', n);
    } else if p < p' {
      StrictProductOrder(p', p, n);
    }
  }

  lemma DivModOfStep(k: nat, p: nat, n: nat, q: nat)
    requires q < n && k == Step(p, n, q)
    ensures k / n == p && k % n == q
  {
    QuotientIsUnique(k / n, k % n, p, q, n);
  }

  lemma StepOfDivMod(k: nat, n: nat)
    requires n > 0
    ensures Step(k / n, n, k % n) == k
  {}

  lemma QuotientBound(k: nat, n: nat, p: nat)
    requires k < Times(n, p)
    ensures p > 0 && k / p < n && k % p < p
  {}

  /** The index stored at a position. */
  function Unravel(shape: Shape, k: nat): (index: Index)
    requires k < Product(shape)
    ensures InShape(index, shape)
    decreases shape
  {
    if shape == [] then []
    else
      QuotientBound(k, Product(Front(shape)), Last(shape));
      Unravel(Front(shape), k / Last(shape)) + [k % Last(shape)]
  }

  lemma UnravelStep(shape: Shape, k: nat, p: nat, i: nat)
    requires shape != [] && k < Product(shape) && i < Last(shape)
    requires p < Product(Front(shape)) && k == Step(p, Last(shape), i)
    ensures Unravel(shape, k) == Unravel(Front(shape), p) + [i]
  {
    DivModOfStep(k, p, Last(shape), i);
  }

  lemma {:induction false} UnravelOfRavel(shape: Shape, index: Index)
    requires InShape(index, shape)
    ensures Ravel(shape, index) < Product(shape) && Unravel(shape, Ravel(shape, index)) == index
    decreases shape
  {
    RavelBound(shape, index);
    if shape != [] {
      UnravelOfRavel(Front(shape), Front(index));
      UnravelStep(shape, Ravel(shape, index), Ravel(Front(shape), Front(index)), Last(index));
      assert index == Front(index) + [Last(index)];
    }
  }

  lemma RavelSnoc(shape: Shape, d: nat, index: Index, i: nat)
    requires InShape(index, shape) && i < d
    ensures InShape(index + [i], shape + [d])
    ensures Ravel(shape + [d], index + [i]) == Step(Ravel(shape, index), d, i)
  {}

  lemma ProductSnoc(shape: Shape, d: nat)
    ensures Product(shape + [d]) == Times(Product(shape), d)
  {}

  lemma RavelOfDigits(shape: Shape, front: Shape, n: nat, index: Index, k: nat)
    requires shape == front + [n] && n > 0 && InShape(index, front) && Ravel(front, index) == k / n
    ensures InShape(index + [k % n], shape) && Ravel(shape, index + [k % n]) == k
  {
    RavelSnoc(front, n, index, k % n);
    StepOfDivMod(k, n);
  }

  lemma UnravelDigits(shape: Shape, k: nat)
    requires shape != [] && k < Product(shape)
    ensures Last(shape) > 0 && k / Last(shape) < Product(Front(shape))
    ensures Unravel(shape, k) == Unravel(Front(shape), k / Last(shape)) + [k % Last(shape)]
  {
    QuotientBound(k, Product(Front(shape)), Last(shape));
  }

  lemma {:induction false} RavelOfUnravel(shape: Shape, k: nat)
    requires k < Product(shape)
    ensures Ravel(shape, Unravel(shape, k)) == k
    decreases shape
  {
    if shape != [] {
      UnravelDigits(shape, k);
      RavelOfUnravel(Front(shape), k / Last(shape));
      assert shape == Front(shape) + [Last(shape)];
      RavelOfDigits(shape, Front(shape), Last(shape), Unravel(Front(shape), k / Last(shape)), k);
    }
  }
}
