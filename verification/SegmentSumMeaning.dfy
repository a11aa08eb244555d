/** The spliced graph gives every original tensor name the value it had. */
module SegmentSumMeaning {
  import opened Collections
  import opened Options
  import opened OnnxGraph
  import opened SegmentSumRewrite

  // ----- Names outside the reserved prefix do not notice the new tensors

  predicate NodeAvoidsPrefix(node: Node) {
    forall name :: name in node.inputs + node.outputs ==> !HasPrefix(name)
  }

  predicate AvoidsPrefix(g: Graph) {
    && (forall node :: node in g.nodes ==> NodeAvoidsPrefix(node))
    && (forall name :: name in g.inputs ==> !HasPrefix(name))
    && (forall init :: init in g.initializers ==> !HasPrefix(init.name))
  }

  /** `extra` binds reserved names only, and `env` none of them. */
  ghost predicate Apart(env: Env, extra: Env) {
    && (forall name :: name in extra ==> HasPrefix(name))
    && (forall name :: name in env ==> !HasPrefix(name))
  }

  lemma {:induction false} BindApart(env: Env, extra: Env, names: seq<Name>, values: seq<Tensor>)
    requires Apart(env, extra) && |names| <= |values| && forall name :: name in names ==> !HasPrefix(name)
    ensures Bind(env + extra, names, values) == Bind(env, names, values) + extra
    ensures Apart(Bind(env, names, values), extra)
    decreases names
  {
    if names != [] {
      var next := env[names[0] := values[0]];
      assert (env + extra)[names[0] := values[0]] == next + extra;
      BindApart(next, extra, names[1..], values[1..]);
    }
  }

  lemma RunNodeApart(kernels: Kernels, node: Node, env: Env, extra: Env)
    requires Apart(env, extra) && NodeAvoidsPrefix(node)
    ensures match RunNode(kernels, node, env)
            case None => RunNode(kernels, node, env + extra).None?
            case Some(next) => RunNode(kernels, node, env + extra) == Some(next + extra) && Apart(next, extra)
  {
    if forall name :: name in node.inputs ==> name in env {
      assert Fetch(env, node.inputs) == Fetch(env + extra, node.inputs);
      var values := Apply(kernels, node.op, Fetch(env, node.inputs));
      if values.Some? && |node.outputs| <= |values.value| {
        BindApart(env, extra, node.outputs, values.value);
      }
    }
  }

  lemma {:induction false} RunApart(kernels: Kernels, nodes: seq<Node>, env: Env, extra: Env)
    requires Apart(env, extra) && forall node :: node in nodes ==> NodeAvoidsPrefix(node)
    ensures match Run(kernels, nodes, env)
            case None => Run(kernels, nodes, env + extra).None?
            case Some(last) => Run(kernels, nodes, env + extra) == Some(last + extra) && Apart(last, extra)
  {
    if nodes != [] {
      RunNodeApart(kernels, nodes[0], env, extra);
      match RunNode(kernels, nodes[0], env)
      case None =>
      case Some(next) => RunApart(kernels, nodes[1..], next, extra);
    }
  }

  // ----- Bound names keep their value

  lemma {:induction false} BindKeeps(env: Env, names: seq<Name>, values: seq<Tensor>)
    requires |names| <= |values|
    ensures Bind(env, names, values).Keys == env.Keys + SetOf(names)
    ensures forall name :: name in env && name !in names ==> Bind(env, names, values)[name] == env[name]
    decreases names
  {
    if names != [] {
      BindKeeps(env[names[0] := values[0]], names[1..], values[1..]);
    }
  }

  lemma {:induction false} RunKeeps(kernels: Kernels, nodes: seq<Node>, env: Env)
    requires Ordered(nodes, env.Keys) && Run(kernels, nodes, env).Some?
    ensures env.Keys <= Run(kernels, nodes, env).value.Keys
    ensures forall name :: name in env ==> Run(kernels, nodes, env).value[name] == env[name]
  {
    if nodes != [] {
      var values := Apply(kernels, nodes[0].op, Fetch(env, nodes[0].inputs)).value;
      BindKeeps(env, nodes[0].outputs, values);
      RunKeeps(kernels, nodes[1..], Bind(env, nodes[0].outputs, values));
    }
  }

  lemma {:induction false} OrderedAppend(left: seq<Node>, right: seq<Node>, known: set<Name>)
    ensures Ordered(left + right, known) <==> Ordered(left, known) && Ordered(right, known + Outputs(left))
  {
    if left == [] {
      assert left + right == right && known + Outputs(left) == known;
    } else {
      assert (left + right)[1..] == left[1..] + right;
      assert known + SetOf(left[0].outputs) + Outputs(left[1..]) == known + Outputs(left);
      OrderedAppend(left[1..], right, known + SetOf(left[0].outputs));
    }
  }

  lemma {:induction false} RunBinds(kernels: Kernels, nodes: seq<Node>, env: Env)
    requires Run(kernels, nodes, env).Some?
    ensures Run(kernels, nodes, env).value.Keys == env.Keys + Outputs(nodes)
  {
    if nodes != [] {
      var values := Apply(kernels, nodes[0].op, Fetch(env, nodes[0].inputs)).value;
      BindKeeps(env, nodes[0].outputs, values);
      RunBinds(kernels, nodes[1..], Bind(env, nodes[0].outputs, values));
    }
  }

  // ----- The reserved names are distinct

  lemma ReservedNames()
    ensures Distinct([NEG1, NEG1_1, ZEROS_SHAPE, FLAT_DATA, FLAT_IDS, FLAT_IDS_I64, ZEROS])
    ensures forall name :: name in [NEG1, NEG1_1, ZEROS_SHAPE, FLAT_DATA, FLAT_IDS, FLAT_IDS_I64, ZEROS] ==>
              HasPrefix(name)
  {}

  // ----- Topological order

  function Known(g: Graph): set<Name> {
    SetOf(g.inputs) + InitNames(g.initializers)
  }

  predicate WellFormed(g: Graph) {
    SetOf(g.inputs) !! InitNames(g.initializers) && Ordered(g.nodes, Known(g))
  }

  lemma {:induction false} OutputsAppend(left: seq<Node>, right: seq<Node>)
    ensures Outputs(left + right) == Outputs(left) + Outputs(right)
  {
    if left == [] {
      assert left + right == right;
    } else {
      assert (left + right)[1..] == left[1..] + right;
      OutputsAppend(left[1..], right);
    }
  }

  predicate Clear(nodes: seq<Node>, names: set<Name>) {
    Outputs(nodes) !! names
  }

  /** Knowing more names, none of them assigned, keeps a node list in order. */
  lemma {:induction false} OrderedWithMore(nodes: seq<Node>, known: set<Name>, more: set<Name>)
    requires Ordered(nodes, known) && Clear(nodes, more)
    ensures Ordered(nodes, known + more)
  {
    if nodes != [] {
      var outs := SetOf(nodes[0].outputs);
      OrderedWithMore(nodes[1..], known + outs, more);
      assert known + outs + more == known + more + outs;
    }
  }

  const RESERVED_INITS: set<Name> := {NEG1, NEG1_1, ZEROS_SHAPE}
  const RESERVED_VALUES: set<Name> := {FLAT_DATA, FLAT_IDS, FLAT_IDS_I64, ZEROS}

  lemma OrderedCons(node: Node, rest: seq<Node>, known: set<Name>, out: Name)
    requires SetOf(node.inputs) <= known && node.outputs == [out] && out !in known
    requires Ordered(rest, known + {out})
    ensures Ordered([node] + rest, known)
    ensures Outputs([node] + rest) == {out} + Outputs(rest)
  {
    assert ([node] + rest)[1..] == rest;
    assert SetOf(node.outputs) == {out};
  }

  lemma ScatterNodesOrdered(data: Name, ids: Name, out: Name, known: set<Name>)
    requires data in known && ids in known && out !in known && RESERVED_INITS <= known && RESERVED_VALUES !! known
    requires out !in RESERVED_VALUES
    ensures Ordered(ScatterNodes(data, ids, out), known)
    ensures Outputs(ScatterNodes(data, ids, out)) == RESERVED_VALUES + {out}
  {
    ReservedNames();
    var names := [NEG1, NEG1_1, ZEROS_SHAPE, FLAT_DATA, FLAT_IDS, FLAT_IDS_I64, ZEROS];
    assert names[3] != names[4] && names[3] != names[5] && names[3] != names[6];
    assert names[4] != names[5] && names[4] != names[6] && names[5] != names[6];
    FiveOrdered(data, ids, out, NEG1, NEG1_1, ZEROS_SHAPE, FLAT_DATA, FLAT_IDS, FLAT_IDS_I64, ZEROS, known);
  }

  /** Five such nodes are in order under any distinct names. */
  lemma FiveOrdered(data: Name, ids: Name, out: Name, i0: Name, i1: Name, i2: Name,
                    v0: Name, v1: Name, v2: Name, v3: Name, known: set<Name>)
    requires {data, ids, i0, i1, i2} <= known && {v0, v1, v2, v3, out} !! known
    requires v0 !in {v1, v2, v3, out} && v1 !in {v2, v3, out} && v2 !in {v3, out} && v3 != out
    ensures var nodes := [Node(Reshape, [data, i0], [v0]), Node(Reshape, [ids, i1], [v1]),
                          Node(CastToInt64, [v1], [v2]), Node(ConstantOfShape(0), [i2], [v3]),
                          Node(ScatterNDAdd, [v3, v2, v0], [out])];
            Ordered(nodes, known) && Outputs(nodes) == {v0, v1, v2, v3, out}
  {
    var n0, n1 := Node(Reshape, [data, i0], [v0]), Node(Reshape, [ids, i1], [v1]);
    var last := [Node(CastToInt64, [v1], [v2]), Node(ConstantOfShape(0), [i2], [v3]),
                 Node(ScatterNDAdd, [v3, v2, v0], [out])];
    ThreeOrdered(out, i2, v0, v1, v2, v3, known + {v0} + {v1});
    OrderedCons(n1, last, known + {v0}, v1);
    OrderedCons(n0, [n1] + last, known, v0);
    assert [n0] + ([n1] + last) == [n0, n1] + last;
  }

  lemma ThreeOrdered(out: Name, i2: Name, v0: Name, v1: Name, v2: Name, v3: Name, known: set<Name>)
    requires {i2, v0, v1} <= known && {v2, v3, out} !! known && v2 !in {v3, out} && v3 != out
    ensures var nodes := [Node(CastToInt64, [v1], [v2]), Node(ConstantOfShape(0), [i2], [v3]),
                          Node(ScatterNDAdd, [v3, v2, v0], [out])];
            Ordered(nodes, known) && Outputs(nodes) == {v2, v3, out}
  {
    var n2, n3 := Node(CastToInt64, [v1], [v2]), Node(ConstantOfShape(0), [i2], [v3]);
    var n4 := Node(ScatterNDAdd, [v3, v2, v0], [out]);
    OrderedCons(n4, [], known + {v2} + {v3}, out);
    OrderedCons(n3, [n4], known + {v2}, v3);
    OrderedCons(n2, [n3, n4], known, v2);
    assert [n4] + [] == [n4] && [n3] + [n4] == [n3, n4] && [n2] + [n3, n4] == [n2, n3, n4];
  }

  lemma {:induction false} OutputsAvoidPrefix(nodes: seq<Node>)
    requires forall node :: node in nodes ==> NodeAvoidsPrefix(node)
    ensures forall name :: name in Outputs(nodes) ==> !HasPrefix(name)
  {
    if nodes != [] {
      OutputsAvoidPrefix(nodes[1..]);
      assert NodeAvoidsPrefix(nodes[0]);
      assert forall name :: name in SetOf(nodes[0].outputs) ==> name in nodes[0].inputs + nodes[0].outputs;
    }
  }

  lemma KnownOfSplice(g: Graph, at: nat, count: nat)
    requires at < |g.nodes| && |g.nodes[at].inputs| == 3 && g.nodes[at].outputs != []
    ensures Known(Splice(g, at, count)) == Known(g) + RESERVED_INITS
  {}

  ghost predicate Spliceable(g: Graph, at: nat) {
    && WellFormed(g) && AvoidsPrefix(g)
    && at < |g.nodes| && |g.nodes[at].inputs| == 3 && |g.nodes[at].outputs| == 1
  }

  lemma SplitAt(g: Graph, at: nat)
    requires at < |g.nodes| && Ordered(g.nodes, Known(g))
    ensures var known := Known(g) + Outputs(g.nodes[..at]);
            && Ordered(g.nodes[..at], Known(g))
            && SetOf(g.nodes[at].inputs) <= known && SetOf(g.nodes[at].outputs) !! known
            && Ordered(g.nodes[at + 1..], known + SetOf(g.nodes[at].outputs))
  {
    assert g.nodes == g.nodes[..at] + g.nodes[at..];
    OrderedAppend(g.nodes[..at], g.nodes[at..], Known(g));
    assert g.nodes[at..][1..] == g.nodes[at + 1..];
  }

  lemma KnownAvoidsPrefix(g: Graph)
    requires AvoidsPrefix(g)
    ensures forall name :: name in Known(g) ==> !HasPrefix(name)
  {}

  /** The node before, the five nodes and the nodes after fit together. */
  lemma OrderedSplice(before: seq<Node>, five: seq<Node>, after: seq<Node>, known: set<Name>, out: Name)
    requires Ordered(before, known) && Clear(before, RESERVED_INITS)
    requires Ordered(five, known + RESERVED_INITS + Outputs(before)) && Outputs(five) == RESERVED_VALUES + {out}
    requires Ordered(after, known + Outputs(before) + {out}) && Clear(after, RESERVED_INITS + RESERVED_VALUES)
    ensures Ordered(before + five + after, known + RESERVED_INITS)
  {
    OrderedWithMore(before, known, RESERVED_INITS);
    OrderedAppend(before, five, known + RESERVED_INITS);
    OrderedWithMore(after, known + Outputs(before) + {out}, RESERVED_INITS + RESERVED_VALUES);
    OutputsAppend(before, five);
    assert known + RESERVED_INITS + Outputs(before + five) ==
           known + Outputs(before) + {out} + (RESERVED_INITS + RESERVED_VALUES);
    OrderedAppend(before + five, after, known + RESERVED_INITS);
  }

  lemma SpliceNames(g: Graph, at: nat)
    requires Spliceable(g, at)
    ensures !HasPrefix(g.nodes[at].inputs[0]) && !HasPrefix(g.nodes[at].inputs[1])
    ensures !HasPrefix(g.nodes[at].inputs[2]) && !HasPrefix(g.nodes[at].outputs[0])
    ensures forall name :: name in Known(g) + Outputs(g.nodes[..at]) + Outputs(g.nodes[at + 1..]) ==> !HasPrefix(name)
    ensures forall name :: name in RESERVED_INITS + RESERVED_VALUES ==> HasPrefix(name)
  {
    ReservedNames();
    KnownAvoidsPrefix(g);
    OutputsAvoidPrefix(g.nodes[..at]);
    OutputsAvoidPrefix(g.nodes[at + 1..]);
    var node := g.nodes[at];
    assert NodeAvoidsPrefix(node);
    assert node.inputs[0] in node.inputs + node.outputs && node.inputs[1] in node.inputs + node.outputs;
    assert node.inputs[2] in node.inputs + node.outputs && node.outputs[0] in node.inputs + node.outputs;
  }

  lemma FiveInOrder(g: Graph, at: nat)
    requires Spliceable(g, at)
    ensures var node := g.nodes[at];
            var five := ScatterNodes(node.inputs[0], node.inputs[1], node.outputs[0]);
            && Ordered(five, Known(g) + RESERVED_INITS + Outputs(g.nodes[..at]))
            && Outputs(five) == RESERVED_VALUES + {node.outputs[0]}
  {
    var node := g.nodes[at];
    SpliceNames(g, at);
    SplitAt(g, at);
    assert node.inputs[0] in SetOf(node.inputs) && node.inputs[1] in SetOf(node.inputs);
    assert node.outputs[0] in SetOf(node.outputs);
    ScatterNodesOrdered(node.inputs[0], node.inputs[1], node.outputs[0],
                        Known(g) + RESERVED_INITS + Outputs(g.nodes[..at]));
  }

  lemma RestIsClear(g: Graph, at: nat)
    requires Spliceable(g, at)
    ensures Clear(g.nodes[..at], RESERVED_INITS) && Clear(g.nodes[at + 1..], RESERVED_INITS + RESERVED_VALUES)
  {
    SpliceNames(g, at);
  }

  lemma RestInOrder(g: Graph, at: nat)
    requires Spliceable(g, at)
    ensures Ordered(g.nodes[..at], Known(g))
    ensures Ordered(g.nodes[at + 1..], Known(g) + Outputs(g.nodes[..at]) + {g.nodes[at].outputs[0]})
  {
    SplitAt(g, at);
    assert SetOf(g.nodes[at].outputs) == {g.nodes[at].outputs[0]};
  }

  /** The spliced node list is in topological order and assigns each name once. */
  lemma SpliceKeepsOrder(g: Graph, at: nat, count: nat)
    requires Spliceable(g, at)
    ensures WellFormed(Splice(g, at, count))
  {
    var node := g.nodes[at];
    KnownOfSplice(g, at, count);
    FiveInOrder(g, at);
    RestIsClear(g, at);
    RestInOrder(g, at);
    OrderedSplice(g.nodes[..at], ScatterNodes(node.inputs[0], node.inputs[1], node.outputs[0]),
                  g.nodes[at + 1..], Known(g), node.outputs[0]);
    InputsStayApart(g, count);
  }

  lemma InputsStayApart(g: Graph, count: nat)
    requires WellFormed(g) && AvoidsPrefix(g)
    ensures SetOf(g.inputs) !! InitNames(g.initializers + ScatterInits(count))
  {}

  // ----- Running the spliced nodes

  lemma RunSingle(kernels: Kernels, node: Node, rest: seq<Node>, env: Env, value: Tensor)
    requires forall name :: name in node.inputs ==> name in env
    requires Apply(kernels, node.op, Fetch(env, node.inputs)) == Some([value]) && |node.outputs| == 1
    ensures Run(kernels, [node] + rest, env) == Run(kernels, rest, env[node.outputs[0] := value])
  {
    assert ([node] + rest)[1..] == rest;
    assert Bind(env, node.outputs, [value]) == env[node.outputs[0] := value] by {
      assert node.outputs[1..] == [] && [value][1..] == [];
    }
  }

  /** The reserved names bound once the five nodes have run. */
  function Scratch(data: Tensor, ids: Tensor, count: nat): Env {
    map[NEG1 := VectorI64([-1]), NEG1_1 := VectorI64([-1, 1]), ZEROS_SHAPE := VectorI64([count]),
        FLAT_DATA := data.(shape := [|data.data|]), FLAT_IDS := ids.(shape := [|ids.data|, 1]),
        FLAT_IDS_I64 := ids.(dtype := Int64, shape := [|ids.data|, 1]),
        ZEROS := Tensor(Int32, [count], Zeros(count))]
  }

  ghost predicate Prepared(env: Env, data: Name, ids: Name, count: nat) {
    && data in env && ids in env
    && NEG1 in env && env[NEG1] == VectorI64([-1])
    && NEG1_1 in env && env[NEG1_1] == VectorI64([-1, 1])
    && ZEROS_SHAPE in env && env[ZEROS_SHAPE] == VectorI64([count])
    && !HasPrefix(data) && !HasPrefix(ids)
  }

  lemma RunScatterNodes(kernels: Kernels, env: Env, data: Name, ids: Name, out: Name, count: nat, value: Tensor)
    requires Prepared(env, data, ids, count) && !HasPrefix(out)
    requires Spliced(env[data], env[ids], count) == Some(value)
    ensures Run(kernels, ScatterNodes(data, ids, out), env) ==
            Some((env + Scratch(env[data], env[ids], count))[out := value])
  {
    var nodes, s := ScatterNodes(data, ids, out), Scratch(env[data], env[ids], count);
    var middle := Flattened(env, s);
    RunFlattening(kernels, env, data, ids, nodes[2..], count);
    RunScattering(kernels, middle, s, nodes[2..], out, count, value);
    assert nodes == [nodes[0], nodes[1]] + nodes[2..];
    ScratchAdds(env, env[data], env[ids], count);
  }

  /** The five bindings add up to the scratch environment. */
  lemma ScratchAdds(env: Env, data: Tensor, ids: Tensor, count: nat)
    requires NEG1 in env && env[NEG1] == VectorI64([-1])
    requires NEG1_1 in env && env[NEG1_1] == VectorI64([-1, 1])
    requires ZEROS_SHAPE in env && env[ZEROS_SHAPE] == VectorI64([count])
    ensures var s := Scratch(data, ids, count);
            Flattened(env, s)[FLAT_IDS_I64 := s[FLAT_IDS_I64]][ZEROS := s[ZEROS]] == env + s
  {
    ReservedNames();
  }

  function Flattened(env: Env, s: Env): Env
    requires FLAT_DATA in s && FLAT_IDS in s
  {
    env[FLAT_DATA := s[FLAT_DATA]][FLAT_IDS := s[FLAT_IDS]]
  }

  lemma RunFlattening(kernels: Kernels, env: Env, data: Name, ids: Name, rest: seq<Node>, count: nat)
    requires Prepared(env, data, ids, count)
    ensures Run(kernels, [Node(Reshape, [data, NEG1], [FLAT_DATA]),
                         Node(Reshape, [ids, NEG1_1], [FLAT_IDS])] + rest, env) ==
            Run(kernels, rest, Flattened(env, Scratch(env[data], env[ids], count)))
  {
    ReservedNames();
    FlattenShapes(env[data]);
    FlattenShapes(env[ids]);
    var n0, n1 := Node(Reshape, [data, NEG1], [FLAT_DATA]), Node(Reshape, [ids, NEG1_1], [FLAT_IDS]);
    var flatData, flatIds := env[data].(shape := [|env[data].data|]), env[ids].(shape := [|env[ids].data|, 1]);
    var e1 := env[FLAT_DATA := flatData];
    assert Fetch(env, n0.inputs) == [env[data], env[NEG1]];
    RunSingle(kernels, n0, [n1] + rest, env, flatData);
    assert Fetch(e1, n1.inputs) == [env[ids], env[NEG1_1]];
    RunSingle(kernels, n1, rest, e1, flatIds);
    assert [n0] + ([n1] + rest) == [n0, n1] + rest;
  }

  lemma RunScattering(kernels: Kernels, env: Env, s: Env, nodes: seq<Node>, out: Name, count: nat, value: Tensor)
    requires FLAT_DATA in env && FLAT_IDS in env && ZEROS_SHAPE in env && env[ZEROS_SHAPE] == VectorI64([count])
    requires FLAT_IDS_I64 in s && s[FLAT_IDS_I64] == env[FLAT_IDS].(dtype := Int64)
    requires ZEROS in s && s[ZEROS] == Tensor(Int32, [count], Zeros(count))
    requires nodes == [Node(CastToInt64, [FLAT_IDS], [FLAT_IDS_I64]),
                       Node(ConstantOfShape(0), [ZEROS_SHAPE], [ZEROS]),
                       Node(ScatterNDAdd, [ZEROS, FLAT_IDS_I64, FLAT_DATA], [out])]
    requires ScatterNDRank1(s[ZEROS], s[FLAT_IDS_I64], env[FLAT_DATA]) == Some(value)
    ensures Run(kernels, nodes, env) ==
            Some(env[FLAT_IDS_I64 := s[FLAT_IDS_I64]][ZEROS := s[ZEROS]][out := value])
  {
    ReservedNames();
    var e3 := env[FLAT_IDS_I64 := s[FLAT_IDS_I64]];
    var e4 := e3[ZEROS := s[ZEROS]];
    assert Fetch(env, nodes[0].inputs) == [env[FLAT_IDS]];
    RunSingle(kernels, nodes[0], nodes[1..], env, s[FLAT_IDS_I64]);
    assert Fetch(e3, nodes[1].inputs) == [env[ZEROS_SHAPE]];
    RunSingle(kernels, nodes[1], nodes[2..], e3, s[ZEROS]);
    RunScatter(kernels, e4, out, value);
    assert nodes == [nodes[0]] + nodes[1..] && nodes[1..] == [nodes[1]] + nodes[2..];
  }

  lemma RunScatter(kernels: Kernels, env: Env, out: Name, value: Tensor)
    requires ZEROS in env && FLAT_IDS_I64 in env && FLAT_DATA in env
    requires ScatterNDRank1(env[ZEROS], env[FLAT_IDS_I64], env[FLAT_DATA]) == Some(value)
    ensures Run(kernels, [Node(ScatterNDAdd, [ZEROS, FLAT_IDS_I64, FLAT_DATA], [out])], env) == Some(env[out := value])
  {
    var node := Node(ScatterNDAdd, [ZEROS, FLAT_IDS_I64, FLAT_DATA], [out]);
    assert Fetch(env, node.inputs) == [env[ZEROS], env[FLAT_IDS_I64], env[FLAT_DATA]];
    RunSingle(kernels, node, [], env, value);
    assert [node] + [] == [node];
  }

  // ----- The theorem

  function StartEnv(initializers: seq<Initializer>, feeds: Env): Env {
    InitialEnv(initializers) + feeds
  }

  lemma {:induction false} ValuedAppend(left: seq<Initializer>, right: seq<Initializer>, name: Name)
    requires exists init :: init in left + right && init.name == name
    ensures name in InitNames(left) ==> Valued(left + right, name) == Valued(left, name)
    ensures name !in InitNames(left) ==> name in InitNames(right) && Valued(left + right, name) == Valued(right, name)
  {
    if left == [] {
      assert left + right == right;
    } else {
      assert (left + right)[1..] == left[1..] + right;
      if left[0].name != name {
        ValuedAppend(left[1..], right, name);
        assert InitNames(left) == {left[0].name} + InitNames(left[1..]);
      }
    }
  }

  function ScatterEnv(count: nat): Env {
    map[NEG1 := VectorI64([-1]), NEG1_1 := VectorI64([-1, 1]), ZEROS_SHAPE := VectorI64([count])]
  }

  lemma InitialScatterEnv(count: nat)
    ensures InitialEnv(ScatterInits(count)) == ScatterEnv(count)
  {
    ReservedNames();
    var inits := ScatterInits(count);
    assert inits[0] in inits && inits[1] in inits && inits[2] in inits;
    FirstIsValued(inits, 0);
    FirstIsValued(inits, 1);
    FirstIsValued(inits, 2);
  }

  lemma InitialEnvAppend(left: seq<Initializer>, right: seq<Initializer>)
    requires InitNames(left) !! InitNames(right)
    ensures InitialEnv(left + right) == InitialEnv(left) + InitialEnv(right)
  {
    forall init | init in left + right
      ensures Valued(left + right, init.name) == (InitialEnv(left) + InitialEnv(right))[init.name]
    {
      ValuedAppend(left, right, init.name);
    }
  }

  lemma ScatterEnvIsReserved(g: Graph, count: nat, feeds: Env)
    requires AvoidsPrefix(g) && feeds.Keys == SetOf(g.inputs)
    ensures Apart(StartEnv(g.initializers, feeds), ScatterEnv(count))
    ensures Apart(feeds, ScatterEnv(count))
    ensures InitNames(g.initializers) !! InitNames(ScatterInits(count))
  {}

  lemma StartKnows(g: Graph, feeds: Env)
    requires feeds.Keys == SetOf(g.inputs)
    ensures StartEnv(g.initializers, feeds).Keys == Known(g)
  {}

  lemma StartOfSplice(initializers: seq<Initializer>, count: nat, feeds: Env)
    requires Apart(feeds, ScatterEnv(count)) && InitNames(initializers) !! InitNames(ScatterInits(count))
    ensures StartEnv(initializers + ScatterInits(count), feeds) == StartEnv(initializers, feeds) + ScatterEnv(count)
  {
    InitialScatterEnv(count);
    InitialEnvAppend(initializers, ScatterInits(count));
    DisjointUnions(InitialEnv(initializers), ScatterEnv(count), feeds);
  }

  lemma DisjointUnions(a: Env, b: Env, c: Env)
    requires b.Keys !! c.Keys
    ensures a + b + c == a + c + b
  {}

  /** A run over an ordered node list, seen around one of its nodes. */
  lemma RunThrough(kernels: Kernels, before: seq<Node>, node: Node, after: seq<Node>, env: Env)
    returns (mid: Env, next: Env)
    requires Ordered(before, env.Keys) && Ordered([node] + after, env.Keys + Outputs(before))
    requires Run(kernels, before + ([node] + after), env).Some?
    ensures Run(kernels, before, env) == Some(mid) && RunNode(kernels, node, mid) == Some(next)
    ensures Run(kernels, after, next) == Run(kernels, before + ([node] + after), env)
    ensures forall name :: name in env ==> name in mid && mid[name] == env[name]
    ensures var last := Run(kernels, after, next).value;
            forall name :: name in node.inputs ==> name in mid && name in last && last[name] == mid[name]
  {
    var rest := [node] + after;
    RunAppend(kernels, before, rest, env);
    mid := Run(kernels, before, env).value;
    assert rest[1..] == after;
    next := RunNode(kernels, node, mid).value;
    RunBinds(kernels, before, env);
    RunKeeps(kernels, before, env);
    RunKeeps(kernels, rest, mid);
  }

  lemma RunSegmentSum(kernels: Kernels, node: Node, mid: Env) returns (value: Tensor)
    requires node.op.SegmentSum? && |node.inputs| == 3 && |node.outputs| == 1 && RunNode(kernels, node, mid).Some?
    ensures forall name :: name in node.inputs ==> name in mid
    ensures SegmentSumRank2(mid[node.inputs[0]], mid[node.inputs[1]], mid[node.inputs[2]]) == Some(value)
    ensures RunNode(kernels, node, mid) == Some(mid[node.outputs[0] := value])
  {
    value := Apply(kernels, node.op, Fetch(mid, node.inputs)).value[0];
    assert Bind(mid, node.outputs, [value]) == mid[node.outputs[0] := value] by {
      assert node.outputs[1..] == [] && [value][1..] == [];
    }
  }

  /** What the original run computes at the replaced node. */
  lemma OriginalAtNode(kernels: Kernels, g: Graph, at: nat, start: Env, last: Env) returns (mid: Env, value: Tensor)
    requires WellFormed(g) && Rewritable(g, at) && |g.nodes[at].outputs| == 1
    requires start.Keys == Known(g) && Run(kernels, g.nodes, start) == Some(last)
    ensures var node := g.nodes[at];
            && Run(kernels, g.nodes[..at], start) == Some(mid)
            && (forall name :: name in node.inputs ==> name in mid && name in last && last[name] == mid[name])
            && SegmentSumRank2(mid[node.inputs[0]], mid[node.inputs[1]], mid[node.inputs[2]]) == Some(value)
            && Run(kernels, g.nodes[at + 1..], mid[node.outputs[0] := value]) == Some(last)
            && mid[node.inputs[2]] == start[node.inputs[2]]
  {
    var node, before, after := g.nodes[at], g.nodes[..at], g.nodes[at + 1..];
    assert g.nodes == before + ([node] + after);
    OrderedAppend(before, [node] + after, Known(g));
    var next: Env;
    mid, next := RunThrough(kernels, before, node, after, start);
    value := RunSegmentSum(kernels, node, mid);
    assert node.inputs[2] in InitNames(g.initializers);
  }

  lemma ScratchIsReserved(data: Tensor, ids: Tensor, count: nat)
    ensures forall name :: name in Scratch(data, ids, count) ==> HasPrefix(name)
    ensures ScatterEnv(count) + Scratch(data, ids, count) == Scratch(data, ids, count)
  {}

  /** The spliced part, started from the original environment and the new initializers. */
  lemma SplicedAtNode(kernels: Kernels, mid: Env, node: Node, value: Tensor)
    requires |node.inputs| == 3 && |node.outputs| == 1 && NodeAvoidsPrefix(node)
    requires forall name :: name in node.inputs ==> name in mid
    requires mid[node.inputs[2]].data == [NUM_HISTOGRAM_BINS]
    requires SegmentSumRank2(mid[node.inputs[0]], mid[node.inputs[1]], mid[node.inputs[2]]) == Some(value)
    requires InRange(mid[node.inputs[1]].data, NUM_HISTOGRAM_BINS)
    requires Apart(mid, ScatterEnv(NUM_HISTOGRAM_BINS))
    ensures var data, ids := mid[node.inputs[0]], mid[node.inputs[1]];
            Run(kernels, ScatterNodes(node.inputs[0], node.inputs[1], node.outputs[0]),
                mid + ScatterEnv(NUM_HISTOGRAM_BINS)) ==
            Some(mid[node.outputs[0] := value] + Scratch(data, ids, NUM_HISTOGRAM_BINS))
  {
    var n := NUM_HISTOGRAM_BINS;
    var data, ids := mid[node.inputs[0]], mid[node.inputs[1]];
    SplicedIsSegmentSum(data, ids, mid[node.inputs[2]]);
    ReservedNames();
    assert node.inputs[0] in node.inputs + node.outputs && node.inputs[1] in node.inputs + node.outputs;
    assert node.outputs[0] in node.inputs + node.outputs;
    RunScatterNodes(kernels, mid + ScatterEnv(n), node.inputs[0], node.inputs[1], node.outputs[0], n, value);
    ScratchIsReserved(data, ids, n);
    RebindApart(mid, ScatterEnv(n), Scratch(data, ids, n), node.outputs[0], value);
  }

  lemma RebindApart(mid: Env, inits: Env, s: Env, out: Name, value: Tensor)
    requires inits + s == s && out !in s
    ensures (mid + inits + s)[out := value] == mid[out := value] + s
  {
    assert mid + inits + s == mid + (inits + s);
  }

  lemma SpliceRuns(kernels: Kernels, g: Graph, at: nat, start: Env, last: Env) returns (extra: Env)
    requires WellFormed(g) && AvoidsPrefix(g) && Rewritable(g, at) && |g.nodes[at].outputs| == 1
    requires start.Keys == Known(g) && Apart(start, ScatterEnv(NUM_HISTOGRAM_BINS))
    requires g.nodes[at].inputs[2] in start && start[g.nodes[at].inputs[2]].data == [NUM_HISTOGRAM_BINS]
    requires Run(kernels, g.nodes, start) == Some(last)
    requires g.nodes[at].inputs[1] in last && InRange(last[g.nodes[at].inputs[1]].data, NUM_HISTOGRAM_BINS)
    ensures Apart(last, extra)
    ensures Run(kernels, Splice(g, at, NUM_HISTOGRAM_BINS).nodes, start + ScatterEnv(NUM_HISTOGRAM_BINS)) ==
            Some(last + extra)
  {
    var n, node := NUM_HISTOGRAM_BINS, g.nodes[at];
    var mid, value := OriginalAtNode(kernels, g, at, start, last);
    RunApart(kernels, g.nodes[..at], start, ScatterEnv(n));
    SplicedAtNode(kernels, mid, node, value);
    extra := Scratch(mid[node.inputs[0]], mid[node.inputs[1]], n);
    ScratchIsReserved(mid[node.inputs[0]], mid[node.inputs[1]], n);
    assert node.outputs[0] in node.inputs + node.outputs;
    RunApart(kernels, g.nodes[at + 1..], mid[node.outputs[0] := value], extra);
    RunSplice(kernels, g.nodes[..at], ScatterNodes(node.inputs[0], node.inputs[1], node.outputs[0]),
              g.nodes[at + 1..], start + ScatterEnv(n));
  }

  /**
   Running the spliced graph on the same inputs succeeds and gives each name of
   the original graph the value it had; the only other names are reserved ones.
   */
  lemma RewritePreservesMeaning(kernels: Kernels, g: Graph, at: nat, feeds: Env, last: Env)
    requires WellFormed(g) && AvoidsPrefix(g) && Rewritable(g, at) && |g.nodes[at].outputs| == 1
    requires feeds.Keys == SetOf(g.inputs)
    requires Run(kernels, g.nodes, StartEnv(g.initializers, feeds)) == Some(last)
    requires g.nodes[at].inputs[1] in last && InRange(last[g.nodes[at].inputs[1]].data, NUM_HISTOGRAM_BINS)
    ensures var g' := Splice(g, at, NUM_HISTOGRAM_BINS);
            && WellFormed(g') && g'.inputs == g.inputs && g'.outputs == g.outputs
            && exists extra ::
                 (Apart(last, extra) && Run(kernels, g'.nodes, StartEnv(g'.initializers, feeds)) == Some(last + extra))
  {
    SpliceKeepsOrder(g, at, NUM_HISTOGRAM_BINS);
    StartKnows(g, feeds);
    ScatterEnvIsReserved(g, NUM_HISTOGRAM_BINS, feeds);
    StartOfSplice(g.initializers, NUM_HISTOGRAM_BINS, feeds);
    CountIsInitializer(g, at, feeds);
    var extra := SpliceRuns(kernels, g, at, StartEnv(g.initializers, feeds), last);
  }

  lemma CountIsInitializer(g: Graph, at: nat, feeds: Env)
    requires WellFormed(g) && Rewritable(g, at) && feeds.Keys == SetOf(g.inputs)
    ensures var name := g.nodes[at].inputs[2];
            name in StartEnv(g.initializers, feeds) &&
            StartEnv(g.initializers, feeds)[name] == Valued(g.initializers, name)
  {}

  lemma RunSplice(kernels: Kernels, a: seq<Node>, b: seq<Node>, c: seq<Node>, env: Env)
    ensures Run(kernels, a + b + c, env) ==
            match Run(kernels, a, env)
            case None => None
            case Some(e1) => match Run(kernels, b, e1) case None => None case Some(e2) => Run(kernels, c, e2)
  {
    RunAppend(kernels, a + b, c, env);
    RunAppend(kernels, a, b, env);
  }
}
