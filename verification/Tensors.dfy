/** Tensors over flat row-major storage. */
module Tensors {
  import opened Options
  import opened Shapes

  datatype Tensor<T> = Tensor(shape: Shape, data: seq<T>)
  {
    predicate WellFormed() {
      |data| == Product(shape)
    }

    function At(index: Index): T
      requires WellFormed() && InShape(index, shape)
    {
      RavelBound(shape, index);
      data[Ravel(shape, index)]
    }
  }

  /** Reshape reinterprets the same storage. */
  function Reshape<T>(t: Tensor<T>, shape: Shape): Result<Tensor<T>> {
    if Product(shape) == |t.data| then Ok(t.(shape := shape)) else Raise("shape is invalid for input")
  }

  lemma SameStorage<T>(s: Tensor<T>, i: Index, t: Tensor<T>, j: Index)
    requires s.WellFormed() && t.WellFormed() && s.data == t.data
    requires InShape(i, s.shape) && InShape(j, t.shape) && Ravel(s.shape, i) == Ravel(t.shape, j)
    ensures s.At(i) == t.At(j)
  {}

  // ----- Positions under shapes of four axes

  function Flat4(n1: nat, n2: nat, n3: nat, i0: nat, i1: nat, i2: nat, i3: nat): nat {
    Step(Step(Step(i0, n1, i1), n2, i2), n3, i3)
  }

  /** The lemma on appending one axis, with the longer lists as parameters. */
  lemma RavelAppend(shape: Shape, d: nat, index: Index, i: nat, shape': Shape, index': Index)
    requires InShape(index, shape) && i < d && shape' == shape + [d] && index' == index + [i]
    ensures InShape(index', shape') && Ravel(shape', index') == Step(Ravel(shape, index), d, i)
  {}

  lemma Ravel2(n0: nat, n1: nat, i0: nat, i1: nat)
    requires i0 < n0 && i1 < n1
    ensures InShape([i0, i1], [n0, n1]) && Ravel([n0, n1], [i0, i1]) == Step(i0, n1, i1)
  {
    RavelAppend([], n0, [], i0, [n0], [i0]);
    assert Step(0, n0, i0) == i0;
    RavelAppend([n0], n1, [i0], i1, [n0, n1], [i0, i1]);
  }

  lemma Ravel4(n0: nat, n1: nat, n2: nat, n3: nat, i0: nat, i1: nat, i2: nat, i3: nat)
    requires i0 < n0 && i1 < n1 && i2 < n2 && i3 < n3
    ensures InShape([i0, i1, i2, i3], [n0, n1, n2, n3])
    ensures Ravel([n0, n1, n2, n3], [i0, i1, i2, i3]) == Flat4(n1, n2, n3, i0, i1, i2, i3)
  {
    Ravel2(n0, n1, i0, i1);
    RavelAppend([n0, n1], n2, [i0, i1], i2, [n0, n1, n2], [i0, i1, i2]);
    RavelAppend([n0, n1, n2], n3, [i0, i1, i2], i3, [n0, n1, n2, n3], [i0, i1, i2, i3]);
  }

  lemma Product4(n0: nat, n1: nat, n2: nat, n3: nat)
    ensures Product([n0, n1, n2, n3]) == Times(Times(Times(n0, n1), n2), n3)
  {
    ProductSnoc([], n0);
    ProductSnoc([n0], n1);
    ProductSnoc([n0, n1], n2);
    ProductSnoc([n0, n1, n2], n3);
    assert [] + [n0] == [n0] && [n0] + [n1] == [n0, n1] && [n0, n1] + [n2] == [n0, n1, n2];
    assert [n0, n1, n2] + [n3] == [n0, n1, n2, n3];
  }

  lemma Product2(n0: nat, n1: nat)
    ensures Product([n0, n1]) == Times(n0, n1)
  {
    ProductSnoc([], n0);
    ProductSnoc([n0], n1);
    assert [] + [n0] == [n0] && [n0] + [n1] == [n0, n1];
  }
}
