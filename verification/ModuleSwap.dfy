/** What the rewrite does to a module tree, path by path, and what the walk counts. */
module ModuleSwap {
  import opened Collections
  import opened Options
  import opened ModuleTree

  /** The kind of the module at a path of child positions. */
  function At(t: Tree, path: seq<nat>): Option<Kind> {
    if path == [] then Some(t.kind)
    else if path[0] < |t.children| then At(t.children[path[0]], path[1..])
    else None
  }

  /** The path goes through a PixelShuffle strictly between its two ends. */
  predicate ThroughShuffle(t: Tree, path: seq<nat>) {
    |path| >= 2 && path[0] < |t.children| &&
    (t.children[path[0]].kind.PixelShuffle? || ThroughShuffle(t.children[path[0]], path[1..]))
  }

  function Replacement(kind: Option<Kind>): Option<Kind> {
    if kind.Some? && kind.value.PixelShuffle? then Some(Safe(kind.value.upscaleFactor)) else kind
  }

  lemma {:induction false} SwapAllAt(ts: seq<Tree>, i: nat)
    requires i < |ts|
    ensures |SwapAll(ts)| == |ts| && SwapAll(ts)[i] == SwapChild(ts[i])
  {
    SwapAllLength(Front(ts));
    if i < |ts| - 1 {
      SwapAllAt(Front(ts), i);
    }
  }

  lemma {:induction false} SwapAllLength(ts: seq<Tree>)
    ensures |SwapAll(ts)| == |ts|
  {
    if ts != [] {
      SwapAllLength(Front(ts));
    }
  }

  /**
   Every PixelShuffle strictly below the root becomes a Safe of the same factor, what
   hung below one is gone, and nothing else changes.
   */
  lemma {:induction false} SwapAt(t: Tree, path: seq<nat>)
    ensures At(Swap(t), path) ==
            if ThroughShuffle(t, path) then None
            else if path == [] then Some(t.kind)
            else Replacement(At(t, path))
    ensures path != [] ==> Replacement(At(Swap(t), path)) == At(Swap(t), path)
    decreases |path|
  {
    SwapAllLength(t.children);
    if path != [] && path[0] < |t.children| {
      SwapAllAt(t.children, path[0]);
      SwapAt(t.children[path[0]], path[1..]);
    }
  }

  lemma {:induction false} SwapIsIdempotent(t: Tree)
    ensures Swap(Swap(t)) == Swap(t)
    decreases t, 1
  {
    SwapAllIsIdempotent(t.children);
  }

  lemma {:induction false} SwapAllIsIdempotent(ts: seq<Tree>)
    ensures SwapAll(SwapAll(ts)) == SwapAll(ts)
    decreases ts, 0
  {
    if ts != [] {
      SwapAllIsIdempotent(Front(ts));
      if !Last(ts).kind.PixelShuffle? {
        SwapIsIdempotent(Last(ts));
      }
      assert SwapAll([]) == [];
      assert SwapChild(SwapChild(Last(ts))) == SwapChild(Last(ts));
      SwapsSnoc(SwapAll(Front(ts)), SwapChild(Last(ts)), SwapAll(ts));
    }
  }

  // ----- The walk's bound in terms of module counts

  function Size(t: Tree): nat {
    1 + SizeAll(t.children)
  }

  function SizeAll(ts: seq<Tree>): nat {
    if ts == [] then 0 else SizeAll(Front(ts)) + Size(Last(ts))
  }

  /** How many PixelShuffles lie in a list of trees. */
  function Shuffles(ts: seq<Tree>): nat {
    if ts == [] then 0
    else Shuffles(Front(ts)) + (if Last(ts).kind.PixelShuffle? then 1 else 0) + Shuffles(Last(ts).children)
  }

  predicate ShufflesAreLeaves(ts: seq<Tree>) {
    ts == [] ||
    (ShufflesAreLeaves(Front(ts)) && ShufflesAreLeaves(Last(ts).children) &&
     (Last(ts).kind.PixelShuffle? ==> Last(ts).children == []))
  }

  /** With childless PixelShuffles the walk pops the root and every module that is not one. */
  lemma {:induction false} VisitsCountsOthers(t: Tree)
    requires ShufflesAreLeaves(t.children)
    ensures Visits(t) + Shuffles(t.children) == Size(t)
    decreases t, 1
  {
    VisitsBelowCountsOthers(t.children);
  }

  lemma {:induction false} VisitsBelowCountsOthers(ts: seq<Tree>)
    requires ShufflesAreLeaves(ts)
    ensures VisitsBelow(ts) + Shuffles(ts) == SizeAll(ts)
    decreases ts, 0
  {
    if ts != [] {
      VisitsBelowCountsOthers(Front(ts));
      if Last(ts).kind.PixelShuffle? {
        assert Size(Last(ts)) == 1 + SizeAll([]) == 1;
      } else {
        VisitsCountsOthers(Last(ts));
      }
    }
  }
}
