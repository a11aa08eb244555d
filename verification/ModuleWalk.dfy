/**
 The bounded worklist that swaps every PixelShuffle of a module graph in place.  An
 object registered below two modules is popped once for each of them; later visits
 find the replacements already made and pop those as well.
 */
module ModuleWalk {
  import opened Collections
  import opened Options
  import opened ModuleTree

  const BOUND: nat := 10_000

  /** The stack after pushing the children that are not replaced. */
  function PushAll(stack: seq<Plan>, kids: seq<Plan>): seq<Plan> {
    if kids == [] then stack
    else if Last(kids).obj.kind.PixelShuffle? then PushAll(stack, Front(kids))
    else PushAll(stack, Front(kids)) + [Last(kids)]
  }

  /** The subplans the walk pops. */
  ghost function Walked(p: Plan): set<Plan> {
    {p} + WalkedBelow(p.kids)
  }

  ghost function WalkedBelow(ps: seq<Plan>): set<Plan> {
    if ps == [] then {}
    else WalkedBelow(Front(ps)) + if Last(ps).obj.kind.PixelShuffle? then {} else Walked(Last(ps))
  }

  ghost function WalkedAll(ps: seq<Plan>): set<Plan> {
    if ps == [] then {} else WalkedAll(Front(ps)) + Walked(Last(ps))
  }

  ghost function WalkedObjects(p: Plan): set<Module> {
    set q | q in Walked(p) :: q.obj
  }

  lemma {:induction false} PushAllWalked(stack: seq<Plan>, kids: seq<Plan>)
    ensures WalkedAll(PushAll(stack, kids)) == WalkedAll(stack) + WalkedBelow(kids)
  {
    if kids != [] {
      PushAllWalked(stack, Front(kids));
      var s := PushAll(stack, Front(kids));
      assert Front(s + [Last(kids)]) == s;
    }
  }

  lemma {:induction false} PushAllFrom(stack: seq<Plan>, kids: seq<Plan>)
    ensures forall p :: p in PushAll(stack, kids) ==> p in stack || (p in kids && !p.obj.kind.PixelShuffle?)
  {
    if kids != [] {
      PushAllFrom(stack, Front(kids));
    }
  }

  /** The walk goes on below every plan it pops. */
  lemma {:induction false} WalkedKids(p: Plan, q: Plan, kid: Plan)
    requires q in Walked(p) && kid in q.kids && !kid.obj.kind.PixelShuffle?
    ensures kid in Walked(p)
    decreases p, 1
  {
    if q == p {
      KidIsWalked(p.kids, kid);
    } else {
      WalkedKidsBelow(p.kids, q, kid);
    }
  }

  lemma {:induction false} WalkedKidsBelow(ps: seq<Plan>, q: Plan, kid: Plan)
    requires q in WalkedBelow(ps) && kid in q.kids && !kid.obj.kind.PixelShuffle?
    ensures kid in WalkedBelow(ps)
    decreases ps, 0
  {
    if q in WalkedBelow(Front(ps)) {
      WalkedKidsBelow(Front(ps), q, kid);
    } else {
      WalkedKids(Last(ps), q, kid);
    }
  }

  lemma {:induction false} KidIsWalked(ps: seq<Plan>, kid: Plan)
    requires kid in ps && !kid.obj.kind.PixelShuffle?
    ensures kid in WalkedBelow(ps)
  {
    if kid != Last(ps) {
      KidIsWalked(Front(ps), kid);
    }
  }

  // ----- An object determines its plan

  lemma {:induction false} PlansAgree(p: Plan, q: Plan)
    requires Holds(p) && Holds(q) && p.obj == q.obj
    ensures p == q
    decreases p, 1
  {
    PlansAgreeAll(p.kids, q.kids);
  }

  lemma {:induction false} PlansAgreeAll(ps: seq<Plan>, qs: seq<Plan>)
    requires HoldsAll(ps) && HoldsAll(qs) && Objs(ps) == Objs(qs)
    ensures ps == qs
    decreases ps, 0
  {
    assert |ps| == |Objs(ps)| == |qs|;
    if ps != [] {
      LastObj(ps);
      LastObj(qs);
      PlansAgreeAll(Front(ps), Front(qs));
      PlansAgree(Last(ps), Last(qs));
      assert ps == Front(ps) + [Last(ps)] && qs == Front(qs) + [Last(qs)];
    }
  }

  lemma LastObj(ps: seq<Plan>)
    requires ps != []
    ensures Objs(ps) == Objs(Front(ps)) + [Last(ps).obj]
    ensures Front(Objs(ps)) == Objs(Front(ps)) && Last(Objs(ps)) == Last(ps).obj
  {}

  lemma {:induction false} WalkedHold(p: Plan)
    requires Holds(p)
    ensures forall q :: q in Walked(p) ==> Holds(q)
    decreases p, 1
  {
    WalkedHoldBelow(p.kids);
  }

  lemma {:induction false} WalkedHoldBelow(ps: seq<Plan>)
    requires HoldsAll(ps)
    ensures forall q :: q in WalkedBelow(ps) ==> Holds(q)
    decreases ps, 0
  {
    if ps != [] {
      WalkedHoldBelow(Front(ps));
      WalkedHold(Last(ps));
    }
  }

  ghost predicate OnePlanEach(plans: set<Plan>) {
    forall p, q :: p in plans && q in plans && p.obj == q.obj ==> p == q
  }

  lemma WalkedAreDistinct(p: Plan)
    requires Holds(p)
    ensures OnePlanEach(Walked(p))
    ensures forall q :: q in Walked(p) ==> q.obj.children == Objs(q.kids)
  {
    WalkedHold(p);
    forall q, q' | q in Walked(p) && q' in Walked(p) && q.obj == q'.obj ensures q == q' {
      PlansAgree(q, q');
    }
  }

  // ----- Counting

  function ShuffleKids(ps: seq<Plan>): nat {
    if ps == [] then 0 else ShuffleKids(Front(ps)) + if Last(ps).obj.kind.PixelShuffle? then 1 else 0
  }

  /** The links from some modules to a PixelShuffle child, by child position. */
  ghost function Links(plans: set<Plan>): set<(Plan, nat)> {
    set q, i: nat | q in plans && i < |q.kids| && q.kids[i].obj.kind.PixelShuffle? :: (q, i)
  }

  /** The links of one module from its first n children. */
  ghost function LinksBefore(q: Plan, n: nat): set<(Plan, nat)>
    requires n <= |q.kids|
  {
    set i: nat | i < n && q.kids[i].obj.kind.PixelShuffle? :: (q, i)
  }

  lemma LinksNext(q: Plan, n: nat)
    requires n < |q.kids|
    ensures LinksBefore(q, n + 1) ==
            if q.kids[n].obj.kind.PixelShuffle? then LinksBefore(q, n) + {(q, n)} else LinksBefore(q, n)
  {}

  lemma {:induction false} LinksOfPrefix(q: Plan, n: nat)
    requires n <= |q.kids|
    ensures |LinksBefore(q, n)| == ShuffleKids(q.kids[..n])
  {
    if n > 0 {
      LinksOfPrefix(q, n - 1);
      LinksNext(q, n - 1);
      assert Front(q.kids[..n]) == q.kids[..n - 1] && Last(q.kids[..n]) == q.kids[n - 1];
    }
  }

  lemma LinksOfOne(q: Plan)
    ensures |Links({q})| == ShuffleKids(q.kids)
  {
    LinksOfPrefix(q, |q.kids|);
    assert q.kids[..|q.kids|] == q.kids;
    assert Links({q}) == LinksBefore(q, |q.kids|);
  }

  lemma LinksAdd(plans: set<Plan>, q: Plan)
    requires q !in plans
    ensures |Links(plans + {q})| == |Links(plans)| + ShuffleKids(q.kids)
  {
    LinksOfOne(q);
    assert Links(plans + {q}) == Links(plans) + Links({q});
  }

  lemma LinksOfUnion(a: set<Plan>, b: set<Plan>)
    ensures |Links(a + b)| <= |Links(a)| + |Links(b)|
    ensures a !! b ==> |Links(a + b)| == |Links(a)| + |Links(b)|
  {
    assert Links(a + b) == Links(a) + Links(b);
    assert |Links(a) + Links(b)| == |Links(a)| + |Links(b)| - |Links(a) * Links(b)|;
    if a !! b {
      assert Links(a) * Links(b) == {};
    }
  }

  function MetAll(ps: seq<Plan>): nat {
    if ps == [] then 0 else MetAll(Front(ps)) + Met(Value(Last(ps)))
  }

  lemma {:induction false} PushAllMet(stack: seq<Plan>, kids: seq<Plan>)
    ensures MetAll(PushAll(stack, kids)) + ShuffleKids(kids) == MetAll(stack) + MetBelow(ValueAll(kids))
  {
    if kids != [] {
      PushAllMet(stack, Front(kids));
      assert Front(ValueAll(kids)) == ValueAll(Front(kids));
      var s := PushAll(stack, Front(kids));
      assert Front(s + [Last(kids)]) == s;
    }
  }

  /** Counting one more child. */
  lemma CountSnoc(ps: seq<Plan>, p: Plan, ps': seq<Plan>)
    requires ps' == ps + [p]
    ensures ShuffleKids(ps') == ShuffleKids(ps) + if p.obj.kind.PixelShuffle? then 1 else 0
    ensures MetBelow(ValueAll(ps')) ==
            MetBelow(ValueAll(ps)) + if p.obj.kind.PixelShuffle? then 1 else Met(Value(p))
    ensures VisitsBelow(ValueAll(ps')) ==
            VisitsBelow(ValueAll(ps)) + if p.obj.kind.PixelShuffle? then 0 else Visits(Value(p))
    ensures WalkedBelow(ps') == if p.obj.kind.PixelShuffle? then WalkedBelow(ps) else WalkedBelow(ps) + Walked(p)
  {
    assert Front(ps') == ps && Last(ps') == p;
    ValuesSnoc(ps, p, ps');
    assert Front(ValueAll(ps')) == ValueAll(ps);
  }

  /** The pops of the walk: the occurrences it meets, less one for each PixelShuffle link replaced. */
  ghost function Pops(p: Plan): int {
    Met(Value(p)) - |Links(Walked(p))|
  }

  /** Sharing can only add pops to those of the tree. */
  lemma {:induction false} SharingAddsPops(p: Plan)
    ensures Visits(Value(p)) <= Pops(p)
    decreases p, 1
  {
    SharingAddsPopsBelow(p.kids);
    LinksOfOne(p);
    LinksOfUnion({p}, WalkedBelow(p.kids));
  }

  lemma {:induction false} SharingAddsPopsBelow(ps: seq<Plan>)
    ensures |Links(WalkedBelow(ps))| + VisitsBelow(ValueAll(ps)) + ShuffleKids(ps) <= MetBelow(ValueAll(ps))
    decreases ps, 0
  {
    if ps == [] {
      assert Links({}) == {};
    } else {
      SharingAddsPopsBelow(Front(ps));
      CountSnoc(Front(ps), Last(ps), ps);
      if !Last(ps).obj.kind.PixelShuffle? {
        SharingAddsPops(Last(ps));
        LinksOfUnion(WalkedBelow(Front(ps)), Walked(Last(ps)));
      }
    }
  }

  /** Without sharing there are no others. */
  lemma {:induction false} UnsharedPops(p: Plan)
    requires Unshared(p)
    ensures Pops(p) == Visits(Value(p))
    decreases p, 1
  {
    UnsharedPopsBelow(p.kids);
    WalkedInside(p.kids);
    LinksOfOne(p);
    LinksOfUnion({p}, WalkedBelow(p.kids));
  }

  lemma {:induction false} UnsharedPopsBelow(ps: seq<Plan>)
    requires UnsharedAll(ps)
    ensures |Links(WalkedBelow(ps))| + VisitsBelow(ValueAll(ps)) + ShuffleKids(ps) == MetBelow(ValueAll(ps))
    decreases ps, 0
  {
    if ps == [] {
      assert Links({}) == {};
    } else {
      UnsharedPopsBelow(Front(ps));
      CountSnoc(Front(ps), Last(ps), ps);
      if !Last(ps).obj.kind.PixelShuffle? {
        UnsharedPops(Last(ps));
        WalkedInside(Front(ps));
        WalkedInside(Last(ps).kids);
        LinksOfUnion(WalkedBelow(Front(ps)), Walked(Last(ps)));
      }
    }
  }

  lemma {:induction false} WalkedInside(ps: seq<Plan>)
    ensures forall q :: q in WalkedBelow(ps) ==> q.obj in ObjectsAll(ps)
  {
    if ps != [] {
      WalkedInside(Front(ps));
      WalkedInside(Last(ps).kids);
    }
  }

  // ----- One visit

  /** The children of a visited module: replacements from safes, everything else in place. */
  ghost predicate Swapped(p: Plan, safes: set<Module>)
    reads p.obj
  {
    |p.obj.children| == |p.kids| && forall i :: 0 <= i < |p.kids| ==> SwappedAt(p.kids[i], p.obj.children[i], safes)
  }

  ghost predicate SwappedAt(kid: Plan, child: Module, safes: set<Module>) {
    if kid.obj.kind.PixelShuffle? then child in safes && child.kind == Safe(kid.obj.kind.upscaleFactor)
    else child == kid.obj
  }

  method VisitChildren(curr: Module, stack: seq<Module>, ghost plan: Plan, ghost pending: seq<Plan>)
    returns (stack': seq<Module>, ghost safes: set<Module>)
    requires curr == plan.obj && curr.children == Objs(plan.kids) && stack == Objs(pending)
    modifies curr
    ensures fresh(safes) && Swapped(plan, safes) && forall s :: s in safes ==> s.children == []
    ensures stack' == Objs(PushAll(pending, plan.kids))
  {
    ghost var kids := plan.kids;
    stack', safes := stack, {};
    var i := 0;
    while i < |curr.children|
      invariant 0 <= i <= |curr.children| == |kids|
      invariant fresh(safes) && forall s :: s in safes ==> s.children == []
      invariant forall k :: 0 <= k < i ==> SwappedAt(kids[k], curr.children[k], safes)
      invariant forall k :: i <= k < |kids| ==> curr.children[k] == kids[k].obj
      invariant stack' == Objs(PushAll(pending, kids[..i]))
    {
      PushNext(pending, kids, i);
      var child := curr.children[i];
      if child.kind.PixelShuffle? {
        var safe := new Module(Safe(child.kind.upscaleFactor));
        curr.children := curr.children[i := safe];
        safes := safes + {safe};
      } else {
        stack' := stack' + [child];
      }
      i := i + 1;
    }
    assert kids[..i] == kids;
  }

  lemma PushNext(pending: seq<Plan>, kids: seq<Plan>, i: nat)
    requires i < |kids|
    ensures Objs(PushAll(pending, kids[..i + 1])) ==
            Objs(PushAll(pending, kids[..i])) + if kids[i].obj.kind.PixelShuffle? then [] else [kids[i].obj]
  {
    assert Front(kids[..i + 1]) == kids[..i] && Last(kids[..i + 1]) == kids[i];
  }

  // ----- What a visited module has become

  ghost predicate SwappedKids(ps: seq<Plan>, children: seq<Module>, safes: set<Module>) {
    |children| == |ps| && forall i :: 0 <= i < |ps| ==> SwappedAt(ps[i], children[i], safes)
  }

  lemma SwappedFront(ps: seq<Plan>, children: seq<Module>, safes: set<Module>)
    requires SwappedKids(ps, children, safes) && ps != []
    ensures children != [] && SwappedKids(Front(ps), Front(children), safes)
    ensures SwappedAt(Last(ps), Last(children), safes)
  {}

  /** The children after a replacement: none is a PixelShuffle, and as many modules are met below. */
  ghost predicate Replaced(now: seq<Plan>, ps: seq<Plan>, safes: set<Module>) {
    && ShuffleKids(now) == 0 && MetBelow(ValueAll(now)) == MetBelow(ValueAll(ps))
    && (forall p :: p in now ==> (p in ps && !p.obj.kind.PixelShuffle?) || IsLeaf(p, safes))
    && WalkedBelow(ps) <= WalkedBelow(now)
  }

  ghost predicate IsLeaf(p: Plan, safes: set<Module>) {
    p.kids == [] && p.obj in safes && p.obj.kind.Safe?
  }

  lemma ReplacedKid(p: Plan, child: Module, safes: set<Module>) returns (now: Plan)
    requires SwappedAt(p, child, safes)
    ensures now.obj == child && if p.obj.kind.PixelShuffle? then IsLeaf(now, safes) else now == p
  {
    now := if p.obj.kind.PixelShuffle? then Plan(child, []) else p;
  }

  lemma NoKidsReplaced(safes: set<Module>)
    ensures Objs([]) == [] && Replaced([], [], safes)
  {}

  lemma {:induction false} ReplacedKids(ps: seq<Plan>, children: seq<Module>, safes: set<Module>)
    returns (now: seq<Plan>)
    requires SwappedKids(ps, children, safes)
    ensures Objs(now) == children && Replaced(now, ps, safes)
  {
    if ps == [] {
      now := [];
      NoKidsReplaced(safes);
    } else {
      SwappedFront(ps, children, safes);
      now := ReplacedKids(Front(ps), Front(children), safes);
      now := NextReplaced(ps, children, safes, now);
    }
  }

  lemma NextReplaced(ps: seq<Plan>, children: seq<Module>, safes: set<Module>, front: seq<Plan>)
    returns (now: seq<Plan>)
    requires ps != [] && children != [] && SwappedAt(Last(ps), Last(children), safes)
    requires Objs(front) == Front(children) && Replaced(front, Front(ps), safes)
    ensures Objs(now) == children && Replaced(now, ps, safes)
  {
    var last := ReplacedKid(Last(ps), Last(children), safes);
    now := front + [last];
    ObjsSnoc(front, last, now, Front(children), Last(children), children);
    ReplacedSnoc(front, Front(ps), last, Last(ps), now, ps, safes);
  }

  lemma ReplacedSnoc(front: seq<Plan>, before: seq<Plan>, last: Plan, p: Plan, now: seq<Plan>, ps: seq<Plan>,
                     safes: set<Module>)
    requires Replaced(front, before, safes) && now == front + [last] && ps == before + [p]
    requires if p.obj.kind.PixelShuffle? then IsLeaf(last, safes) else last == p
    ensures Replaced(now, ps, safes)
  {
    CountSnoc(front, last, now);
    CountSnoc(before, p, ps);
    if p.obj.kind.PixelShuffle? {
      LeafIsOne(last);
    }
  }

  lemma LeafIsOne(p: Plan)
    requires p.kids == []
    ensures Met(Value(p)) == 1
  {}

  // ----- The walk

  /** The walked modules are as they were until their first visit, and swapped from then on. */
  ghost predicate Linked(plans: set<Plan>, done: set<Plan>, safes: set<Module>)
    reads set q | q in plans :: q.obj
  {
    forall q :: q in plans ==> if q in done then Swapped(q, safes) else q.obj.children == Objs(q.kids)
  }

  ghost predicate Tops(pending: seq<Plan>, plans: set<Plan>, safes: set<Module>) {
    forall p :: p in pending ==> p in plans || IsLeaf(p, safes)
  }

  ghost predicate Childless(safes: set<Module>)
    reads safes
  {
    forall s :: s in safes ==> s.children == []
  }

  /** n pops are done; with those the stack stands for, and the links not replaced yet, they make up the walk. */
  ghost predicate Progress(n: nat, done: set<Plan>, pending: seq<Plan>, plan: Plan) {
    && done <= Walked(plan) <= done + WalkedAll(pending)
    && n + MetAll(pending) + |Links(done)| == Met(Value(plan))
  }

  ghost function VisitedAfter(done: set<Plan>, top: Plan, plans: set<Plan>): set<Plan> {
    if top in plans then done + {top} else done
  }

  /** `now` are the children of the module on top: its own, or what a first visit made of them. */
  ghost predicate IsNow(now: seq<Plan>, top: Plan, done: set<Plan>, plans: set<Plan>, safes: set<Module>) {
    if top in plans && top !in done then now == top.kids else Replaced(now, top.kids, safes)
  }

  lemma VisitWalked(pending: seq<Plan>, now: seq<Plan>)
    requires pending != [] && WalkedBelow(Last(pending).kids) <= WalkedBelow(now)
    ensures WalkedAll(pending) <= {Last(pending)} + WalkedAll(PushAll(Front(pending), now))
  {
    PushAllWalked(Front(pending), now);
  }

  /** A visit does one unit of the remaining work, however often its module is visited. */
  lemma VisitPending(n: nat, done: set<Plan>, pending: seq<Plan>, plan: Plan, now: seq<Plan>, safes: set<Module>)
    requires Progress(n, done, pending, plan) && pending != []
    requires IsNow(now, Last(pending), done, Walked(plan), safes)
    ensures Progress(n + 1, VisitedAfter(done, Last(pending), Walked(plan)), PushAll(Front(pending), now), plan)
  {
    var top := Last(pending);
    VisitWalked(pending, now);
    PushAllMet(Front(pending), now);
    if top in Walked(plan) && top !in done {
      LinksAdd(done, top);
    } else if top in done {
      assert done + {top} == done;
    }
  }

  lemma TopsPushed(pending: seq<Plan>, plan: Plan, now: seq<Plan>, done: set<Plan>, safes: set<Module>,
                   safes': set<Module>)
    requires safes <= safes'
    requires pending != [] && Tops(pending, Walked(plan), safes)
    requires IsNow(now, Last(pending), done, Walked(plan), safes)
    ensures Tops(PushAll(Front(pending), now), Walked(plan), safes')
  {
    var top := Last(pending);
    PushAllFrom(Front(pending), now);
    forall p | p in PushAll(Front(pending), now) ensures p in Walked(plan) || IsLeaf(p, safes') {
      if p !in Front(pending) && !IsLeaf(p, safes) {
        WalkedKids(plan, top, p);
      }
    }
  }

  /** What the module on top of the stack has for children. */
  lemma ChildrenNow(top: Plan, plans: set<Plan>, done: set<Plan>, safes: set<Module>) returns (now: seq<Plan>)
    requires top in plans || IsLeaf(top, safes)
    requires done <= plans && Linked(plans, done, safes) && Childless(safes)
    ensures top.obj.children == Objs(now) && IsNow(now, top, done, plans, safes)
  {
    if top in plans && top !in done {
      now := top.kids;
    } else if top in plans {
      assert Swapped(top, safes);
      now := ReplacedKids(top.kids, top.obj.children, safes);
    } else {
      now := [];
    }
  }

  lemma {:induction false} NoShuffles(ps: seq<Plan>, i: nat)
    requires ShuffleKids(ps) == 0 && i < |ps|
    ensures !ps[i].obj.kind.PixelShuffle?
  {
    if i < |ps| - 1 {
      NoShuffles(Front(ps), i);
    }
  }

  /** A visit without replacements leaves the children alone. */
  lemma NothingSwapped(p: Plan, safes: set<Module>)
    requires Swapped(p, safes) && ShuffleKids(p.kids) == 0
    ensures p.obj.children == Objs(p.kids)
  {
    forall i | 0 <= i < |p.kids| ensures p.obj.children[i] == p.kids[i].obj {
      NoShuffles(p.kids, i);
    }
  }

  lemma SwappedMore(p: Plan, safes: set<Module>, safes': set<Module>)
    requires Swapped(p, safes) && safes <= safes'
    ensures Swapped(p, safes')
  {}

  /** The children of the walked modules, as recorded before a visit. */
  ghost predicate WasLinked(was: map<Module, seq<Module>>, plans: set<Plan>, done: set<Plan>, safes: set<Module>) {
    forall q :: q in plans ==>
      q.obj in was && if q in done then SwappedKids(q.kids, was[q.obj], safes) else was[q.obj] == Objs(q.kids)
  }

  lemma Record(plans: set<Plan>, nodes: set<Module>, done: set<Plan>, safes: set<Module>)
    returns (was: map<Module, seq<Module>>)
    requires Linked(plans, done, safes) && nodes == (set q | q in plans :: q.obj)
    ensures WasLinked(was, plans, done, safes)
    ensures was.Keys == nodes && forall m :: m in nodes ==> was[m] == m.children
  {
    was := map m | m in nodes :: m.children;
  }

  /** After a visit every walked module is linked as it should be, whichever visit of its module it was. */
  lemma LinkedAfter(plans: set<Plan>, done: set<Plan>, top: Plan, now: seq<Plan>, safes: set<Module>,
                    more: set<Module>, was: map<Module, seq<Module>>)
    requires WasLinked(was, plans, done, safes) && OnePlanEach(plans) && done <= plans
    requires top in plans ==> was[top.obj] == Objs(now)
    requires IsNow(now, top, done, plans, safes) && Swapped(Plan(top.obj, now), more)
    requires forall m :: m in was && m != top.obj ==> m.children == was[m]
    requires top !in plans ==> top.obj !in was
    ensures Linked(plans, VisitedAfter(done, top, plans), safes + more)
    ensures top !in plans ==> top.obj.children == Objs(now)
  {
    if top in plans && top !in done {
      assert Plan(top.obj, now) == top;
    } else {
      NothingSwapped(Plan(top.obj, now), more);
    }
    forall q | q in plans
      ensures if q in VisitedAfter(done, top, plans) then Swapped(q, safes + more) else q.obj.children == Objs(q.kids)
    {
      if q in done {
        assert q.obj.children == was[q.obj];
        SwappedMore(q, safes, safes + more);
      } else if q == top {
        SwappedMore(q, more, safes + more);
      }
    }
  }

  /** One round: pop the top module, replace or push its children. */
  method VisitTop(stack: seq<Module>, ghost pending: seq<Plan>, ghost plan: Plan, ghost done: set<Plan>,
                  ghost safes: set<Module>, ghost nodes: set<Module>)
    returns (stack': seq<Module>, ghost now: seq<Plan>, ghost safes': set<Module>)
    requires pending != [] && stack == Objs(pending) && Tops(pending, Walked(plan), safes)
    requires done <= Walked(plan) && Linked(Walked(plan), done, safes) && OnePlanEach(Walked(plan))
    requires Childless(safes) && safes !! nodes && nodes == WalkedObjects(plan)
    modifies Last(pending).obj
    ensures IsNow(now, Last(pending), done, Walked(plan), safes)
    ensures stack' == Objs(PushAll(Front(pending), now))
    ensures safes <= safes' && fresh(safes' - safes) && Childless(safes') && safes' !! nodes
    ensures Linked(Walked(plan), VisitedAfter(done, Last(pending), Walked(plan)), safes')
  {
    ghost var top, rest, more := Last(pending), Front(pending), {};
    now := ChildrenNow(top, Walked(plan), done, safes);
    ghost var was := Record(Walked(plan), nodes, done, safes);
    LastObj(pending);
    stack', more := VisitChildren(stack[|stack| - 1], stack[..|stack| - 1], Plan(top.obj, now), rest);
    safes' := safes + more;
    LinkedAfter(Walked(plan), done, top, now, safes, more, was);
  }

  /** On failure a module is either done or as it was. */
  ghost predicate SwappedOrKept(q: Plan, safes: set<Module>)
    reads q.obj
  {
    Swapped(q, safes) || q.obj.children == Objs(q.kids)
  }

  /** The stack cannot stand for fewer occurrences than it has links to replace. */
  lemma {:induction false} LinksFit(pending: seq<Plan>)
    ensures |Links(WalkedAll(pending))| <= MetAll(pending)
  {
    if pending == [] {
      assert Links({}) == {};
    } else {
      LinksFit(Front(pending));
      SharingAddsPops(Last(pending));
      LinksOfUnion(WalkedAll(Front(pending)), Walked(Last(pending)));
    }
  }

  lemma OutOfRounds(n: nat, done: set<Plan>, pending: seq<Plan>, plan: Plan)
    requires Progress(n, done, pending, plan)
    ensures n <= Pops(plan)
    ensures pending == [] ==> n == Pops(plan) && done == Walked(plan)
  {
    if pending == [] {
      assert done + WalkedAll(pending) == done && done == Walked(plan);
    }
    LinksFit(pending);
    LinksOfUnion(done, WalkedAll(pending));
    SubsetSize(Links(Walked(plan)), Links(done + WalkedAll(pending)));
  }

  /**
   Returns exactly when at most 9,999 pops empty the stack; then the tree stands for the
   swapped tree, over the same objects wherever nothing was replaced.
   */
  method ReplacePixelShuffle(module_: Module, ghost plan: Plan)
    returns (outcome: Result<()>, ghost safes: set<Module>, ghost after: Plan)
    requires module_ == plan.obj && Holds(plan)
    modifies WalkedObjects(plan)
    ensures outcome.Ok? <==> Pops(plan) <= 9_999
    ensures fresh(safes)
    ensures outcome.Ok? ==> after.obj == module_ && Holds(after) && Value(after) == Swap(Value(plan))
    ensures outcome.Ok? ==> Settled(Walked(plan), safes)
    ensures outcome.Raise? ==> forall q :: q in Walked(plan) ==> SwappedOrKept(q, safes)
  {
    var stack := [module_];
    ghost var pending, done := [plan], {};
    ghost var nodes := WalkedObjects(plan);
    safes, after := {}, plan;
    WalkedAreDistinct(plan);
    Single(plan);
    for n := 0 to BOUND
      invariant stack == Objs(pending) && Tops(pending, Walked(plan), safes) && Progress(n, done, pending, plan)
      invariant fresh(safes) && safes !! nodes && Childless(safes) && Linked(Walked(plan), done, safes)
    {
      if stack == [] {
        OutOfRounds(n, done, pending, plan);
        after := FinalPlan(plan, safes);
        return Ok(()), safes, after;
      }
      ghost var now, before := [], safes;
      stack, now, safes := VisitTop(stack, pending, plan, done, safes, nodes);
      VisitPending(n, done, pending, plan, now, before);
      TopsPushed(pending, plan, now, done, before, safes);
      done := VisitedAfter(done, Last(pending), Walked(plan));
      pending := PushAll(Front(pending), now);
    }
    OutOfRounds(BOUND, done, pending, plan);
    return Raise("Module tree traversal exceeded iteration bound (HISS-02)"), safes, after;
  }

  lemma Single(plan: Plan)
    ensures Objs([plan]) == [plan.obj]
    ensures Progress(0, {}, [plan], plan)
  {
    assert Links({}) == {};
    assert Front([plan]) == [] && Last([plan]) == plan;
  }

  // ----- The plan of the rewritten tree

  /** Every one of these plans is swapped. */
  ghost predicate Settled(done: set<Plan>, safes: set<Module>)
    reads set q | q in done :: q.obj
  {
    forall q :: q in done ==> Swapped(q, safes)
  }

  lemma {:induction false} FinalPlan(p: Plan, safes: set<Module>) returns (p': Plan)
    requires Settled(Walked(p), safes) && forall s :: s in safes ==> s.children == []
    ensures p'.obj == p.obj && Holds(p') && Value(p') == Swap(Value(p))
    decreases p, 1
  {
    assert Swapped(p, safes);
    assert Settled(WalkedBelow(p.kids), safes);
    var kids := FinalKids(p.kids, p.obj.children, safes);
    p' := Plan(p.obj, kids);
  }

  lemma HoldsSnoc(ps: seq<Plan>, p: Plan, ps': seq<Plan>)
    requires HoldsAll(ps) && Holds(p) && ps' == ps + [p]
    ensures HoldsAll(ps')
  {}

  lemma {:induction false} FinalKids(ps: seq<Plan>, children: seq<Module>, safes: set<Module>) returns (ps': seq<Plan>)
    requires SwappedKids(ps, children, safes)
    requires Settled(WalkedBelow(ps), safes) && forall s :: s in safes ==> s.children == []
    ensures Objs(ps') == children && HoldsAll(ps') && ValueAll(ps') == SwapAll(ValueAll(ps))
    decreases ps, 0
  {
    if ps == [] {
      ps' := [];
    } else {
      SwappedFront(ps, children, safes);
      var front := FinalKids(Front(ps), Front(children), safes);
      var last := FinalChild(Last(ps), Last(children), safes);
      ps' := front + [last];
      HoldsSnoc(front, last, ps');
      FinalValues(ps, front, last, ps');
      FinalObjs(children, front, last, ps');
    }
  }

  lemma FinalObjs(children: seq<Module>, front: seq<Plan>, last: Plan, ps': seq<Plan>)
    requires children != [] && ps' == front + [last]
    requires Objs(front) == Front(children) && last.obj == Last(children)
    ensures Objs(ps') == children
  {
    ObjsSnoc(front, last, ps', Front(children), Last(children), children);
  }

  lemma FinalValues(ps: seq<Plan>, front: seq<Plan>, last: Plan, ps': seq<Plan>)
    requires ps != [] && ps' == front + [last]
    requires ValueAll(front) == SwapAll(ValueAll(Front(ps))) && Value(last) == SwapChild(Value(Last(ps)))
    ensures ValueAll(ps') == SwapAll(ValueAll(ps))
  {
    ValuesSnoc(front, last, ps');
    SwapsSnoc(ValueAll(Front(ps)), Value(Last(ps)), ValueAll(ps));
  }

  lemma FinalChild(p: Plan, child: Module, safes: set<Module>) returns (p': Plan)
    requires SwappedAt(p, child, safes) && forall s :: s in safes ==> s.children == []
    requires !p.obj.kind.PixelShuffle? ==> Settled(Walked(p), safes)
    ensures p'.obj == child && Holds(p') && Value(p') == SwapChild(Value(p))
    decreases p, 2
  {
    if p.obj.kind.PixelShuffle? {
      p' := Plan(child, []);
    } else {
      p' := FinalPlan(p, safes);
    }
  }

  lemma ValuesSnoc(ps: seq<Plan>, p: Plan, ps': seq<Plan>)
    requires ps' == ps + [p]
    ensures ValueAll(ps') == ValueAll(ps) + [Value(p)]
  {}

  lemma ObjsSnoc(ps: seq<Plan>, p: Plan, ps': seq<Plan>, ms: seq<Module>, m: Module, ms': seq<Module>)
    requires ps' == ps + [p] && ms' == ms + [m] && Objs(ps) == ms && p.obj == m
    ensures Objs(ps') == ms'
  {}
}
