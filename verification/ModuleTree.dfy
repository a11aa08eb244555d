/**
 Module trees: mutable module objects, a ghost plan of which object sits where, and
 the pure tree of kinds that a plan stands for.
 */
module ModuleTree {
  import opened Collections

  datatype Kind = PixelShuffle(upscaleFactor: int) | Safe(r: int) | Other(name: string)

  /** A torch module; the position of a child stands for its attribute name. */
  class Module {
    const kind: Kind
    var children: seq<Module>

    constructor (kind: Kind)
      ensures this.kind == kind && children == []
    {
      this.kind := kind;
      children := [];
    }
  }

  datatype Plan = Plan(obj: Module, kids: seq<Plan>)

  function Objs(ps: seq<Plan>): seq<Module> {
    seq(|ps|, i requires 0 <= i < |ps| => ps[i].obj)
  }

  ghost function Objects(p: Plan): set<Module> {
    {p.obj} + ObjectsAll(p.kids)
  }

  ghost function ObjectsAll(ps: seq<Plan>): set<Module> {
    if ps == [] then {} else ObjectsAll(Front(ps)) + Objects(Last(ps))
  }

  /** No object occurs twice. */
  ghost predicate Unshared(p: Plan) {
    p.obj !in ObjectsAll(p.kids) && UnsharedAll(p.kids)
  }

  ghost predicate UnsharedAll(ps: seq<Plan>) {
    ps == [] || (UnsharedAll(Front(ps)) && Unshared(Last(ps)) && ObjectsAll(Front(ps)) !! Objects(Last(ps)))
  }

  /** The heap links the objects as the plan says. */
  ghost predicate Holds(p: Plan)
    reads Objects(p)
  {
    p.obj.children == Objs(p.kids) && HoldsAll(p.kids)
  }

  ghost predicate HoldsAll(ps: seq<Plan>)
    reads ObjectsAll(ps)
  {
    ps == [] || (HoldsAll(Front(ps)) && Holds(Last(ps)))
  }

  // ----- Trees of kinds

  datatype Tree = Tree(kind: Kind, children: seq<Tree>)

  function Value(p: Plan): Tree {
    Tree(p.obj.kind, ValueAll(p.kids))
  }

  function ValueAll(ps: seq<Plan>): seq<Tree> {
    if ps == [] then [] else ValueAll(Front(ps)) + [Value(Last(ps))]
  }

  /** The rewrite: a PixelShuffle strictly below the root becomes a childless Safe. */
  function Swap(t: Tree): Tree
    decreases t, 0
  {
    Tree(t.kind, SwapAll(t.children))
  }

  function SwapChild(t: Tree): Tree
    decreases t, 1
  {
    if t.kind.PixelShuffle? then Tree(Safe(t.kind.upscaleFactor), []) else Swap(t)
  }

  function SwapAll(ts: seq<Tree>): seq<Tree>
    decreases ts, 0
  {
    if ts == [] then [] else SwapAll(Front(ts)) + [SwapChild(Last(ts))]
  }

  lemma SwapsSnoc(ts: seq<Tree>, t: Tree, ts': seq<Tree>)
    requires ts' == ts + [t]
    ensures SwapAll(ts') == SwapAll(ts) + [SwapChild(t)]
  {}

  /** How many modules the walk pops: the root, and everything not at or below a PixelShuffle. */
  function Visits(t: Tree): nat {
    1 + VisitsBelow(t.children)
  }

  function VisitsBelow(ts: seq<Tree>): nat {
    if ts == [] then 0
    else if Last(ts).kind.PixelShuffle? then VisitsBelow(Front(ts))
    else VisitsBelow(Front(ts)) + Visits(Last(ts))
  }

  /** How many module occurrences it meets: those it pops, and the PixelShuffles right below them. */
  function Met(t: Tree): nat {
    1 + MetBelow(t.children)
  }

  function MetBelow(ts: seq<Tree>): nat {
    if ts == [] then 0
    else MetBelow(Front(ts)) + if Last(ts).kind.PixelShuffle? then 1 else Met(Last(ts))
  }
}
