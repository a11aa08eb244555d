/**
 The export step that splices a SegmentSum node into a five-node ScatterND
 subgraph, and the proof that it preserves the meaning of the graph.
 */
module SegmentSumRewrite {
  import opened Options
  import opened OnnxGraph

  const PREFIX: Name := "fork_segmentsum_"
  const NUM_HISTOGRAM_BINS: nat := 51_200

  const NEG1: Name := PREFIX + "neg1"
  const NEG1_1: Name := PREFIX + "neg1_1"
  const ZEROS_SHAPE: Name := PREFIX + "zeros_shape"
  const FLAT_DATA: Name := PREFIX + "flat_data"
  const FLAT_IDS: Name := PREFIX + "flat_ids"
  const FLAT_IDS_I64: Name := PREFIX + "flat_ids_i64"
  const ZEROS: Name := PREFIX + "zeros"

  predicate HasPrefix(name: Name) {
    PREFIX <= name
  }

  function VectorI64(values: seq<int>): Tensor {
    Tensor(Int64, [|values|], values)
  }

  function ScatterInits(count: nat): seq<Initializer> {
    [Initializer(NEG1, VectorI64([-1])),
     Initializer(NEG1_1, VectorI64([-1, 1])),
     Initializer(ZEROS_SHAPE, VectorI64([count]))]
  }

  function ScatterNodes(data: Name, ids: Name, out: Name): seq<Node> {
    [Node(Reshape, [data, NEG1], [FLAT_DATA]),
     Node(Reshape, [ids, NEG1_1], [FLAT_IDS]),
     Node(CastToInt64, [FLAT_IDS], [FLAT_IDS_I64]),
     Node(ConstantOfShape(0), [ZEROS_SHAPE], [ZEROS]),
     Node(ScatterNDAdd, [ZEROS, FLAT_IDS_I64, FLAT_DATA], [out])]
  }

  /** The graph with node `at` replaced. */
  function Splice(g: Graph, at: nat, count: nat): Graph
    requires at < |g.nodes| && |g.nodes[at].inputs| == 3 && g.nodes[at].outputs != []
  {
    var node := g.nodes[at];
    g.(nodes := g.nodes[..at] + ScatterNodes(node.inputs[0], node.inputs[1], node.outputs[0]) + g.nodes[at + 1..],
       initializers := g.initializers + ScatterInits(count))
  }

  // ----- The rewrite itself

  method FindSegmentSumNode(nodes: seq<Node>) returns (found: Option<nat>)
    ensures found.None? ==> forall i :: 0 <= i < |nodes| ==> !nodes[i].op.SegmentSum?
    ensures found.Some? ==>
              && found.value < |nodes| && nodes[found.value].op.SegmentSum?
              && forall i :: 0 <= i < found.value ==> !nodes[i].op.SegmentSum?
  {
    for i := 0 to |nodes|
      invariant forall j :: 0 <= j < i ==> !nodes[j].op.SegmentSum?
    {
      if nodes[i].op.SegmentSum? {
        return Some(i);
      }
    }
    return None;
  }

  predicate IsFirstSegmentSum(g: Graph, at: nat) {
    && at < |g.nodes|
    && g.nodes[at].op.SegmentSum?
    && (forall i :: 0 <= i < at ==> !g.nodes[i].op.SegmentSum?)
  }

  /** Whether a node is the first SegmentSum of the graph, in a form the rewrite accepts. */
  predicate Rewritable(g: Graph, at: nat) {
    && IsFirstSegmentSum(g, at)
    && |g.nodes[at].inputs| == 3 && g.nodes[at].outputs != []
    && (exists init :: init in g.initializers && init.name == g.nodes[at].inputs[2])
    && Valued(g.initializers, g.nodes[at].inputs[2]).data == [100 * 512]
  }

  method ReplaceSegmentSum(g: Graph) returns (r: Result<Graph>)
    ensures (forall i :: 0 <= i < |g.nodes| ==> !g.nodes[i].op.SegmentSum?) ==> r == Ok(g)
    ensures forall at: nat | IsFirstSegmentSum(g, at) ::
              && (r.Ok? <==> Rewritable(g, at))
              && (r.Ok? ==> r.result == Splice(g, at, NUM_HISTOGRAM_BINS))
  {
    var found := FindSegmentSumNode(g.nodes);
    if found.None? {
      return Ok(g);
    }
    var at := found.value;
    var node := g.nodes[at];
    if |node.inputs| != 3 {
      return Raise("not enough values to unpack");
    }
    if node.outputs == [] {
      return Raise("list index out of range");
    }
    var count: Option<Tensor> := None;
    for i := 0 to |g.initializers|
      invariant count.None?
      invariant forall j :: 0 <= j < i ==> g.initializers[j].name != node.inputs[2]
    {
      if g.initializers[i].name == node.inputs[2] {
        count := Some(g.initializers[i].value);
        FirstIsValued(g.initializers, i);
        break;
      }
    }
    if count.None? {
      return Raise("num_segments not in initializers");
    }
    if |count.value.data| != 1 {
      return Raise("only length-1 arrays can be converted to Python scalars");
    }
    if count.value.data[0] != NUM_HISTOGRAM_BINS {
      return Raise("unexpected num_segments");
    }
    var finalNodes := g.nodes;
    finalNodes := finalNodes[..at] + finalNodes[at + 1..];
    finalNodes := finalNodes[..at] + ScatterNodes(node.inputs[0], node.inputs[1], node.outputs[0]) + finalNodes[at..];
    assert finalNodes == Splice(g, at, NUM_HISTOGRAM_BINS).nodes;
    return Ok(g.(nodes := finalNodes, initializers := g.initializers + ScatterInits(NUM_HISTOGRAM_BINS)));
  }

  lemma {:induction false} FirstIsValued(initializers: seq<Initializer>, i: nat)
    requires i < |initializers|
    requires forall j :: 0 <= j < i ==> initializers[j].name != initializers[i].name
    ensures Valued(initializers, initializers[i].name) == initializers[i].value
  {
    assert initializers[i] in initializers;
    if i > 0 {
      assert initializers[1..][i - 1] == initializers[i];
      FirstIsValued(initializers[1..], i - 1);
    }
  }

  // ----- Scatter-add computes segment sums

  /** The sum, in storage order, of the first `n` elements whose id is `segment`. */
  function FlatTotal(data: seq<int>, ids: seq<int>, segment: int, n: nat): int
    requires n <= |data| == |ids|
  {
    if n == 0 then 0
    else FlatTotal(data, ids, segment, n - 1) + if ids[n - 1] == segment then data[n - 1] else 0
  }

  lemma {:induction false} FlatTotalOfRow(data: seq<int>, ids: seq<int>, width: nat, segment: int, row: nat, cols: nat)
    requires |data| == |ids| && row * width + cols <= |data|
    ensures FlatTotal(data, ids, segment, row * width + cols) ==
            FlatTotal(data, ids, segment, row * width) + RowTotal(data, ids, width, segment, row, cols)
  {
    if cols > 0 {
      FlatTotalOfRow(data, ids, width, segment, row, cols - 1);
    }
  }

  /** Summing row by row is summing in storage order. */
  lemma {:induction false} FlatTotalIsSegmentTotal(data: seq<int>, ids: seq<int>, width: nat, segment: int, rows: nat)
    requires |data| == |ids| && rows * width <= |data|
    ensures FlatTotal(data, ids, segment, rows * width) == SegmentTotal(data, ids, width, segment, rows)
  {
    if rows > 0 {
      assert (rows - 1) * width + width == rows * width;
      FlatTotalIsSegmentTotal(data, ids, width, segment, rows - 1);
      FlatTotalOfRow(data, ids, width, segment, rows - 1, width);
    }
  }

  function Zeros(n: nat): seq<int> {
    seq(n, _ => 0)
  }

  predicate InRange(ids: seq<int>, count: nat) {
    forall t :: 0 <= t < |ids| ==> 0 <= ids[t] < count
  }

  lemma FlatTotalPrefix(data: seq<int>, ids: seq<int>, segment: int, n: nat, m: nat)
    requires n <= m <= |data| == |ids|
    ensures FlatTotal(data[..m], ids[..m], segment, n) == FlatTotal(data, ids, segment, n)
  {}

  lemma {:induction false} ScatterTotals(data: seq<int>, ids: seq<int>, count: nat)
    requires |data| == |ids| && InRange(ids, count)
    ensures Scatter(Zeros(count), ids, data).Some?
    ensures var out := Scatter(Zeros(count), ids, data).value;
            && |out| == count
            && forall k :: 0 <= k < count ==> out[k] == Wrap32(FlatTotal(data, ids, k, |data|))
  {
    if data != [] {
      var n := |data| - 1;
      ScatterTotals(data[..n], ids[..n], count);
      var before := Scatter(Zeros(count), ids[..n], data[..n]).value;
      forall k | 0 <= k < count
        ensures before[k] == Wrap32(FlatTotal(data, ids, k, n))
      {
        FlatTotalPrefix(data, ids, k, n, n);
      }
      WrapOfSum(FlatTotal(data, ids, ids[n], n), data[n]);
    }
  }

  /** What the five spliced nodes compute from the two tensors. */
  function Spliced(data: Tensor, ids: Tensor, count: nat): Option<Tensor> {
    match (ReshapeTo(data, [-1]), ReshapeTo(ids, [-1, 1]))
    case (Some(flatData), Some(flatIds)) =>
      ScatterNDRank1(Tensor(Int32, [count], Zeros(count)), flatIds.(dtype := Int64), flatData)
    case _ => None
  }

  lemma FlattenShapes(t: Tensor)
    ensures ReshapeTo(t, [-1]) == Some(t.(shape := [|t.data|]))
    ensures ReshapeTo(t, [-1, 1]) == Some(t.(shape := [|t.data|, 1]))
  {
    assert Concretise([-1], t.shape).value == [-1];
    assert Concretise([-1, 1], t.shape).value == [-1, 1];
    assert [-1, 1][1..] == [1] && [-1][1..] == [] && [1][1..] == [];
    assert KnownProduct([1]) == 1 && KnownProduct([-1]) == 1 && KnownProduct([-1, 1]) == 1;
    assert Wildcards([1]) == 0 && Wildcards([-1]) == 1 && Wildcards([-1, 1]) == 1;
    assert ReshapeTo(t, [-1]).value.shape == [|t.data|];
    assert ReshapeTo(t, [-1, 1]).value.shape == [|t.data|, 1];
  }

  lemma SplicedFlat(data: Tensor, ids: Tensor, count: nat)
    requires data.dtype.Int32? && |data.data| == |ids.data|
    ensures Spliced(data, ids, count) ==
            match Scatter(Zeros(count), ids.data, data.data)
            case None => None
            case Some(out) => Some(Tensor(Int32, [count], out))
  {
    FlattenShapes(data);
    FlattenShapes(ids);
  }

  /** With ids in range, the spliced subgraph equals the per-segment sum. */
  lemma SplicedIsSegmentSum(data: Tensor, ids: Tensor, count: Tensor)
    requires SegmentSumRank2(data, ids, count).Some? && InRange(ids.data, count.data[0])
    ensures Spliced(data, ids, count.data[0]) == SegmentSumRank2(data, ids, count)
  {
    var n: nat := count.data[0];
    SplicedFlat(data, ids, n);
    ScatterTotals(data.data, ids.data, n);
    forall k | 0 <= k < n
      ensures FlatTotal(data.data, ids.data, k, |data.data|) ==
              SegmentTotal(data.data, ids.data, data.shape[1], k, data.shape[0])
    {
      FlatTotalIsSegmentTotal(data.data, ids.data, data.shape[1], k, data.shape[0]);
    }
    assert Scatter(Zeros(n), ids.data, data.data).value == SegmentSumRank2(data, ids, count).value.data;
  }
}
