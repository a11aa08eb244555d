/**
 A small model of ONNX graphs: named tensors, nodes in execution order, and the
 operators the SegmentSum rewrite touches.  Every other operator is a kernel
 whose meaning is a parameter.
 */
module OnnxGraph {
  import opened Collections
  import opened Options
  import opened Shapes

  type Name = string

  datatype DType = Int32 | Int64 | OtherType

  datatype Tensor = Tensor(dtype: DType, shape: Shape, data: seq<int>)
  {
    predicate WellFormed() {
      |data| == Product(shape)
    }
  }

  datatype Op =
    | Reshape
    | CastToInt64
    | ConstantOfShape(fill: int)
    | ScatterNDAdd
    | SegmentSum
    | Kernel(id: nat)

  datatype Node = Node(op: Op, inputs: seq<Name>, outputs: seq<Name>)

  datatype Initializer = Initializer(name: Name, value: Tensor)

  datatype Graph = Graph(
    inputs: seq<Name>,
    outputs: seq<Name>,
    initializers: seq<Initializer>,
    nodes: seq<Node>)

  type Kernels = (nat, seq<Tensor>) -> Option<seq<Tensor>>

  type Env = map<Name, Tensor>

  // ----- Integer arithmetic of the element types

  const TWO_TO_THE_31 := 0x8000_0000
  const TWO_TO_THE_32 := 0x1_0000_0000

  /** Two's-complement wrap-around at 32 bits. */
  function Wrap32(v: int): int {
    (v + TWO_TO_THE_31) % TWO_TO_THE_32 - TWO_TO_THE_31
  }

  /** The one 32-bit integer congruent to v. */
  lemma WrapIsCongruent(v: int)
    ensures -TWO_TO_THE_31 <= Wrap32(v) < TWO_TO_THE_31
    ensures exists k: int :: v == Wrap32(v) + k * 0x1_0000_0000
  {
    var k := (v + TWO_TO_THE_31) / TWO_TO_THE_32;
    assert v == Wrap32(v) + k * 0x1_0000_0000;
  }

  lemma WrapOfSum(a: int, b: int)
    ensures Wrap32(Wrap32(a) + b) == Wrap32(a + b)
  {}

  // ----- Operators

  function Concretise(spec: seq<int>, shape: Shape): Option<seq<int>> {
    if forall i :: 0 <= i < |spec| ==> spec[i] >= -1 && (spec[i] == 0 ==> i < |shape|) then
      Some(seq(|spec|, i requires 0 <= i < |spec| => if spec[i] == 0 && i < |shape| then shape[i] else spec[i]))
    else None
  }

  function KnownProduct(spec: seq<int>): nat {
    if spec == [] then 1
    else (if spec[0] < 0 then 1 else spec[0]) * KnownProduct(spec[1..])
  }

  function Wildcards(spec: seq<int>): nat {
    if spec == [] then 0 else (if spec[0] < 0 then 1 else 0) + Wildcards(spec[1..])
  }

  /** Reshape: 0 copies a dimension, a single -1 is inferred. */
  function ReshapeTo(t: Tensor, spec: seq<int>): Option<Tensor> {
    match Concretise(spec, t.shape)
    case None => None
    case Some(dims) =>
      var known := KnownProduct(dims);
      if Wildcards(dims) == 0 && known == |t.data| then
        Some(t.(shape := seq(|dims|, i requires 0 <= i < |dims| => if dims[i] < 0 then 0 else dims[i])))
      else if Wildcards(dims) == 1 && known > 0 && |t.data| % known == 0 then
        Some(t.(shape := seq(|dims|, i requires 0 <= i < |dims| => if dims[i] < 0 then |t.data| / known else dims[i])))
      else None
  }

  /** ScatterND with reduction='add': updates are added one after the other, in order. */
  function Scatter(acc: seq<int>, indices: seq<int>, updates: seq<int>): Option<seq<int>>
    requires |indices| == |updates|
  {
    if indices == [] then Some(acc)
    else
      var n := |indices| - 1;
      match Scatter(acc, indices[..n], updates[..n])
      case None => None
      case Some(before) => ScatterOne(before, indices[n], updates[n])
  }

  /** A negative index counts from the end; any other index outside is an error. */
  function ScatterOne(acc: seq<int>, index: int, update: int): Option<seq<int>> {
    if -|acc| <= index < |acc| then
      var slot := if index < 0 then index + |acc| else index;
      Some(acc[slot := Wrap32(acc[slot] + update)])
    else None
  }

  /** The instance with rank-1 data and one index per update. */
  function ScatterNDRank1(data: Tensor, indices: Tensor, updates: Tensor): Option<Tensor> {
    if data.dtype.Int32? && updates.dtype.Int32? && indices.dtype.Int64?
       && data.shape == [|data.data|]
       && indices.shape == [|updates.data|, 1] && updates.shape == [|updates.data|]
       && |indices.data| == |updates.data|
    then
      match Scatter(data.data, indices.data, updates.data)
      case None => None
      case Some(out) => Some(data.(data := out))
    else None
  }

  /** The part of one row, up to column `cols`, that belongs to a segment. */
  function RowTotal(data: seq<int>, ids: seq<int>, width: nat, segment: int, row: nat, cols: nat): int
    requires |data| == |ids| && row * width + cols <= |data|
  {
    if cols == 0 then 0
    else
      RowTotal(data, ids, width, segment, row, cols - 1) +
      if ids[row * width + cols - 1] == segment then data[row * width + cols - 1] else 0
  }

  /** The sum of the elements of a matrix whose id is `segment`, row by row. */
  function SegmentTotal(data: seq<int>, ids: seq<int>, width: nat, segment: int, rows: nat): int
    requires |data| == |ids| && rows * width <= |data|
  {
    if rows == 0 then 0
    else
      assert (rows - 1) * width + width == rows * width;
      SegmentTotal(data, ids, width, segment, rows - 1) + RowTotal(data, ids, width, segment, rows - 1, width)
  }

  /**
   UnsortedSegmentSum of a matrix with one id per element: negative ids are
   dropped, an id of `count` or more is an error.
   */
  function SegmentSumRank2(data: Tensor, ids: Tensor, count: Tensor): Option<Tensor> {
    if data.dtype.Int32? && !ids.dtype.OtherType?
       && |data.shape| == 2 && ids.shape == data.shape
       && |data.data| == |ids.data| == data.shape[0] * data.shape[1]
       && |count.data| == 1 && count.data[0] >= 0
       && (forall t :: 0 <= t < |ids.data| ==> ids.data[t] < count.data[0])
    then
      Some(Tensor(Int32, [count.data[0]],
                  seq(count.data[0], k =>
                    Wrap32(SegmentTotal(data.data, ids.data, data.shape[1], k, data.shape[0])))))
    else None
  }

  function Apply(kernels: Kernels, op: Op, args: seq<Tensor>): Option<seq<Tensor>> {
    match op
    case Reshape =>
      if |args| == 2 then
        match ReshapeTo(args[0], args[1].data) case None => None case Some(t) => Some([t])
      else None
    case CastToInt64 => if |args| == 1 then Some([args[0].(dtype := Int64)]) else None
    case ConstantOfShape(fill) =>
      if |args| == 1 && |args[0].data| == 1 && args[0].data[0] >= 0 then
        Some([Tensor(Int32, [args[0].data[0]], seq(args[0].data[0], _ => fill))])
      else None
    case ScatterNDAdd =>
      if |args| == 3 then
        match ScatterNDRank1(args[0], args[1], args[2]) case None => None case Some(t) => Some([t])
      else None
    case SegmentSum =>
      if |args| == 3 then
        match SegmentSumRank2(args[0], args[1], args[2]) case None => None case Some(t) => Some([t])
      else None
    case Kernel(id) => kernels(id, args)
  }

  // ----- Running a node list

  function Fetch(env: Env, names: seq<Name>): seq<Tensor>
    requires forall name :: name in names ==> name in env
  {
    seq(|names|, i requires 0 <= i < |names| => env[names[i]])
  }

  function Bind(env: Env, names: seq<Name>, values: seq<Tensor>): Env
    requires |names| <= |values|
    decreases names
  {
    if names == [] then env else Bind(env[names[0] := values[0]], names[1..], values[1..])
  }

  function RunNode(kernels: Kernels, node: Node, env: Env): Option<Env> {
    if forall name :: name in node.inputs ==> name in env then
      match Apply(kernels, node.op, Fetch(env, node.inputs))
      case None => None
      case Some(values) =>
        if |node.outputs| <= |values| then Some(Bind(env, node.outputs, values)) else None
    else None
  }

  function Run(kernels: Kernels, nodes: seq<Node>, env: Env): Option<Env>
    decreases nodes
  {
    if nodes == [] then Some(env)
    else
      match RunNode(kernels, nodes[0], env)
      case None => None
      case Some(next) => Run(kernels, nodes[1..], next)
  }

  lemma {:induction false} RunAppend(kernels: Kernels, left: seq<Node>, right: seq<Node>, env: Env)
    ensures Run(kernels, left + right, env) ==
            match Run(kernels, left, env) case None => None case Some(mid) => Run(kernels, right, mid)
  {
    if left == [] {
      assert left + right == right;
    } else {
      assert (left + right)[1..] == left[1..] + right;
      match RunNode(kernels, left[0], env)
      case None =>
      case Some(next) => RunAppend(kernels, left[1..], right, next);
    }
  }

  function InitialEnv(initializers: seq<Initializer>): Env {
    map init | init in initializers :: init.name := Valued(initializers, init.name)
  }

  function Valued(initializers: seq<Initializer>, name: Name): Tensor
    requires exists init :: init in initializers && init.name == name
  {
    if initializers[0].name == name then initializers[0].value else Valued(initializers[1..], name)
  }

  // ----- Well-formed graphs

  function InitNames(initializers: seq<Initializer>): set<Name> {
    set init | init in initializers :: init.name
  }

  /** Inputs are known before a node runs, and no name is ever assigned twice. */
  predicate Ordered(nodes: seq<Node>, known: set<Name>) {
    nodes == [] ||
    (&& SetOf(nodes[0].inputs) <= known
     && SetOf(nodes[0].outputs) !! known
     && Distinct(nodes[0].outputs)
     && Ordered(nodes[1..], known + SetOf(nodes[0].outputs)))
  }

  function Outputs(nodes: seq<Node>): set<Name> {
    if nodes == [] then {} else SetOf(nodes[0].outputs) + Outputs(nodes[1..])
  }
}
