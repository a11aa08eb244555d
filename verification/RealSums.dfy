/** Sums and inner products of real vectors. */
module RealSums {
  type Vector = seq<real>

  function Sum(v: Vector): real {
    if v == [] then 0.0 else Sum(v[..|v| - 1]) + v[|v| - 1]
  }

  /** A product by name, so that equal factors give syntactically equal products. */
  function Mul(a: real, b: real): real {
    a * b
  }

  function Products(u: Vector, v: Vector): Vector
    requires |u| == |v|
  {
    seq(|u|, i requires 0 <= i < |u| => Mul(u[i], v[i]))
  }

  function Dot(u: Vector, v: Vector): real
    requires |u| == |v|
  {
    Sum(Products(u, v))
  }

  function Plus(u: Vector, v: Vector): Vector
    requires |u| == |v|
  {
    seq(|u|, i requires 0 <= i < |u| => u[i] + v[i])
  }

  function Minus(u: Vector, v: Vector): Vector
    requires |u| == |v|
  {
    seq(|u|, i requires 0 <= i < |u| => u[i] - v[i])
  }

  function Scale(v: Vector, p: real): Vector {
    seq(|v|, i requires 0 <= i < |v| => Mul(p, v[i]))
  }

  function Constant(n: nat, q: real): Vector {
    seq(n, _ => q)
  }

  /** The vector of p * x[i] + q. */
  function Line(x: Vector, p: real, q: real): Vector {
    Plus(Scale(x, p), Constant(|x|, q))
  }

  /** A vector with one non-zero entry sums to that entry. */
  lemma {:induction false} SumOfSpike(v: Vector, i: nat)
    requires i < |v| && forall k :: 0 <= k < |v| && k != i ==> v[k] == 0.0
    ensures Sum(v) == v[i]
  {
    var n := |v| - 1;
    if i < n {
      SumOfSpike(v[..n], i);
    } else {
      SumOfNone(v[..n]);
    }
  }

  lemma {:induction false} SumOfNone(v: Vector)
    requires forall k :: 0 <= k < |v| ==> v[k] == 0.0
    ensures Sum(v) == 0.0
  {
    if v != [] {
      SumOfNone(v[..|v| - 1]);
    }
  }

  // ----- Linearity

  lemma {:induction false} SumOfPlus(u: Vector, v: Vector)
    requires |u| == |v|
    ensures Sum(Plus(u, v)) == Sum(u) + Sum(v)
  {
    if u != [] {
      var n := |u| - 1;
      assert Plus(u, v)[..n] == Plus(u[..n], v[..n]);
      SumOfPlus(u[..n], v[..n]);
    }
  }

  lemma SumOfMinus(u: Vector, v: Vector)
    requires |u| == |v|
    ensures Sum(Minus(u, v)) == Sum(u) - Sum(v)
  {
    assert Plus(Minus(u, v), v) == u;
    SumOfPlus(Minus(u, v), v);
  }

  lemma {:induction false} SumOfScale(v: Vector, p: real)
    ensures Sum(Scale(v, p)) == Mul(p, Sum(v))
  {
    if v != [] {
      var n := |v| - 1;
      forall i | 0 <= i < n
        ensures Scale(v, p)[i] == Scale(v[..n], p)[i]
      {
      }
      assert Scale(v, p)[..n] == Scale(v[..n], p);
      SumOfScale(v[..n], p);
      Distribute(p, Sum(v[..n]), v[n]);
    }
  }

  /** The length of a vector as a real number. */
  function Size(x: Vector): (size: real)
    ensures if x == [] then size == 0.0 else size >= 1.0
  {
    if x == [] then 0.0 else Size(x[..|x| - 1]) + 1.0
  }

  lemma {:induction false} SizeIsLength(x: Vector)
    ensures Size(x) == |x| as real
  {
    if x != [] {
      SizeIsLength(x[..|x| - 1]);
    }
  }

  lemma {:induction false} SumOfConstant(x: Vector, q: real)
    ensures Sum(Constant(|x|, q)) == Mul(q, Size(x))
  {
    if x != [] {
      var n := |x| - 1;
      assert Constant(|x|, q)[..n] == Constant(n, q);
      SumOfConstant(x[..n], q);
      Distribute(q, Size(x[..n]), 1.0);
    }
  }

  lemma Distribute(p: real, a: real, b: real)
    ensures Mul(p, a + b) == Mul(p, a) + Mul(p, b)
  {}

  lemma Commute(a: real, b: real)
    ensures Mul(a, b) == Mul(b, a)
  {}

  lemma Associate(p: real, a: real, b: real)
    ensures Mul(p, Mul(a, b)) == Mul(a, Mul(p, b))
  {}

  lemma DotCommutes(u: Vector, v: Vector)
    requires |u| == |v|
    ensures Dot(u, v) == Dot(v, u)
  {
    forall i | 0 <= i < |u|
      ensures Products(u, v)[i] == Products(v, u)[i]
    {
      Commute(u[i], v[i]);
    }
    assert Products(u, v) == Products(v, u);
  }

  lemma DotOfPlus(w: Vector, u: Vector, v: Vector)
    requires |u| == |v| == |w|
    ensures Dot(w, Plus(u, v)) == Dot(w, u) + Dot(w, v)
  {
    forall i | 0 <= i < |w|
      ensures Products(w, Plus(u, v))[i] == Plus(Products(w, u), Products(w, v))[i]
    {
      Distribute(w[i], u[i], v[i]);
    }
    assert Products(w, Plus(u, v)) == Plus(Products(w, u), Products(w, v));
    SumOfPlus(Products(w, u), Products(w, v));
  }

  lemma DotOfMinus(w: Vector, u: Vector, v: Vector)
    requires |u| == |v| == |w|
    ensures Dot(w, Minus(u, v)) == Dot(w, u) - Dot(w, v)
  {
    assert Plus(Minus(u, v), v) == u;
    DotOfPlus(w, Minus(u, v), v);
  }

  lemma DotOfScale(w: Vector, v: Vector, p: real)
    requires |w| == |v|
    ensures Dot(w, Scale(v, p)) == Mul(p, Dot(w, v))
  {
    forall i | 0 <= i < |w|
      ensures Products(w, Scale(v, p))[i] == Scale(Products(w, v), p)[i]
    {
      Associate(w[i], p, v[i]);
    }
    assert Products(w, Scale(v, p)) == Scale(Products(w, v), p);
    SumOfScale(Products(w, v), p);
  }

  lemma DotOfConstant(w: Vector, q: real)
    ensures Dot(w, Constant(|w|, q)) == Mul(q, Sum(w))
  {
    ProductsOfConstant(w, q);
    SumOfScale(w, q);
  }

  lemma ProductsOfConstant(w: Vector, q: real)
    ensures Products(w, Constant(|w|, q)) == Scale(w, q)
  {
    forall i | 0 <= i < |w|
      ensures Products(w, Constant(|w|, q))[i] == Scale(w, q)[i]
    {
      Commute(w[i], q);
    }
    assert Products(w, Constant(|w|, q)) == Scale(w, q);
  }

  lemma SumOfLine(x: Vector, p: real, q: real)
    ensures Sum(Line(x, p, q)) == Mul(p, Sum(x)) + Mul(q, Size(x))
  {
    SumOfPlus(Scale(x, p), Constant(|x|, q));
    SumOfScale(x, p);
    SumOfConstant(x, q);
  }

  lemma DotOfLine(w: Vector, x: Vector, p: real, q: real)
    requires |w| == |x|
    ensures Dot(w, Line(x, p, q)) == Mul(p, Dot(w, x)) + Mul(q, Sum(w))
  {
    DotOfPlus(w, Scale(x, p), Constant(|x|, q));
    DotOfScale(w, x, p);
    DotOfConstant(w, q);
  }

  // ----- Squares

  lemma PositiveProduct(a: real, b: real)
    requires a > 0.0 && b > 0.0
    ensures Mul(a, b) > 0.0
  {}

  lemma NegateBoth(a: real, b: real)
    ensures Mul(-a, -b) == Mul(a, b)
  {}

  lemma SquareSign(z: real)
    ensures Mul(z, z) >= 0.0
    ensures z != 0.0 ==> Mul(z, z) > 0.0
  {
    if z > 0.0 {
      PositiveProduct(z, z);
    } else if z < 0.0 {
      PositiveProduct(-z, -z);
      NegateBoth(z, z);
    }
  }

  lemma {:induction false} SumOfNonNegatives(v: Vector)
    requires forall i :: 0 <= i < |v| ==> v[i] >= 0.0
    ensures Sum(v) >= 0.0
    ensures Sum(v) == 0.0 ==> forall i :: 0 <= i < |v| ==> v[i] == 0.0
  {
    if v != [] {
      var n := |v| - 1;
      SumOfNonNegatives(v[..n]);
      assert forall i :: 0 <= i < n ==> v[..n][i] == v[i];
    }
  }

  lemma SquaresAreNonNegative(v: Vector)
    ensures Dot(v, v) >= 0.0
    ensures Dot(v, v) == 0.0 ==> forall i :: 0 <= i < |v| ==> v[i] == 0.0
  {
    forall i | 0 <= i < |v|
      ensures Products(v, v)[i] >= 0.0 && (v[i] != 0.0 ==> Products(v, v)[i] > 0.0)
    {
      SquareSign(v[i]);
    }
    SumOfNonNegatives(Products(v, v));
  }

  /** |u - v|^2 = |u|^2 - 2 u.v + |v|^2 */
  lemma SquareOfMinus(u: Vector, v: Vector)
    requires |u| == |v|
    ensures Dot(Minus(u, v), Minus(u, v)) == Dot(u, u) - 2.0 * Dot(u, v) + Dot(v, v)
  {
    DotOfMinus(Minus(u, v), u, v);
    DotCommutes(Minus(u, v), u);
    DotCommutes(Minus(u, v), v);
    DotOfMinus(u, u, v);
    DotOfMinus(v, u, v);
    DotCommutes(u, v);
  }

  lemma DotOfZero(u: Vector, v: Vector)
    requires |u| == |v| && forall i :: 0 <= i < |u| ==> u[i] == 0.0
    ensures Dot(u, v) == 0.0
  {
    assert Products(u, v) == Scale(v, 0.0);
    SumOfScale(v, 0.0);
  }

  lemma DotOfScaled(u: Vector, v: Vector, p: real, q: real)
    requires |u| == |v|
    ensures Dot(Scale(u, p), Scale(v, q)) == Mul(q, Mul(p, Dot(u, v)))
  {
    DotOfScale(Scale(u, p), v, q);
    DotCommutes(Scale(u, p), v);
    DotOfScale(v, u, p);
    DotCommutes(u, v);
  }

  lemma SquareOfCombination(u: Vector, v: Vector, p: real, q: real)
    requires |u| == |v|
    ensures Dot(Minus(Scale(u, p), Scale(v, q)), Minus(Scale(u, p), Scale(v, q))) ==
            Mul(p, Mul(p, Dot(u, u))) - 2.0 * Mul(q, Mul(p, Dot(u, v))) + Mul(q, Mul(q, Dot(v, v)))
  {
    SquareOfMinus(Scale(u, p), Scale(v, q));
    DotOfScaled(u, u, p, p);
    DotOfScaled(u, v, p, q);
    DotOfScaled(v, v, q, q);
  }

  lemma CauchySchwarz(u: Vector, v: Vector)
    requires |u| == |v|
    ensures Mul(Dot(u, v), Dot(u, v)) <= Mul(Dot(u, u), Dot(v, v))
  {
    SquaresAreNonNegative(u);
    if Dot(u, u) == 0.0 {
      DotOfZero(u, v);
    } else {
      // With a = u.u, b = u.v, c = v.v, the square of  a v - b u  is  a (a c - b b).
      SquareOfCombination(v, u, Dot(u, u), Dot(u, v));
      SquaresAreNonNegative(Minus(Scale(v, Dot(u, u)), Scale(u, Dot(u, v))));
      DotCommutes(u, v);
      CauchySchwarzAlgebra(Dot(u, u), Dot(u, v), Dot(v, v));
    }
  }

  lemma CauchySchwarzAlgebra(a: real, b: real, c: real)
    requires a > 0.0 && Mul(a, Mul(a, c)) - 2.0 * Mul(b, Mul(a, b)) + Mul(b, Mul(b, a)) >= 0.0
    ensures Mul(b, b) <= Mul(a, c)
  {}
}
