/** In-place transitive reduction of the dependency graph. */
module Reduction {
  import opened Graph

  /** The dependencies of `b` that one of its other dependencies also has. */
  ghost function Shortcuts(g: Digraph, b: nat): set<nat> {
    set t | t in Succ(g, b) && exists d :: d in Succ(g, b) && t in Succ(g, d)
  }

  ghost predicate Unshortened(g: Digraph, b: nat) {
    forall d, t :: d in Succ(g, b) && t in Succ(g, b) ==> t !in Succ(g, d)
  }

  method FindShortcuts(g: Digraph, b: nat) returns (toRemove: set<nat>)
    ensures toRemove == Shortcuts(g, b)
  {
    toRemove := {};
    var deps := Succ(g, b);
    var rest := deps;
    while rest != {}
      invariant rest <= deps
      invariant forall t: nat :: t in toRemove <==> t in deps && exists d :: d in deps - rest && t in Succ(g, d)
    {
      var direct :| direct in rest;
      ghost var rest0 := rest;
      rest := rest - {direct};
      assert deps - rest == (deps - rest0) + {direct};
      if direct in g {
        toRemove := toRemove + (set t | t in g[direct] && t in deps);
      }
    }
  }

  /** Drops the shortcuts of one block. */
  function ReduceAt(g: Digraph, b: nat, toRemove: set<nat>): Digraph {
    g[b := Succ(g, b) - toRemove]
  }

  /** A dropped dependency is still reached: follow the kept dependency that has it, or what keeps reaching that one. */
  lemma DroppedStillReached(g: Digraph, h: Digraph, b: nat, t: nat)
    requires Acyclic(g) && h == ReduceAt(g, b, Shortcuts(g, b)) && t in Succ(g, b)
    ensures Reach(h, b, t)
    decreases Above(g, Succ(g, b), t)
  {
    if t in Shortcuts(g, b) {
      var d :| d in Succ(g, b) && t in Succ(g, d);
      assert d != b by {
        if d == b { ReachEdge(g, b, b); }
      }
      ReachEdge(g, d, t);
      AboveShrinks(g, Succ(g, b), d, t);
      DroppedStillReached(g, h, b, d);
      ReachEdge(h, d, t);
      ReachTrans(h, b, d, t);
    } else {
      ReachEdge(h, b, t);
    }
  }

  lemma ReduceAtKeepsReach(g: Digraph, h: Digraph, b: nat)
    requires Acyclic(g) && h == ReduceAt(g, b, Shortcuts(g, b))
    ensures SameReach(g, h)
  {
    forall x: nat, y: nat | y in Succ(g, x) ensures Reach(h, x, y) {
      if x == b {
        DroppedStillReached(g, h, b, y);
      } else {
        ReachEdge(h, x, y);
      }
    }
    ReachSimulated(g, h);
    forall x: nat, y: nat | y in Succ(h, x) ensures Reach(g, x, y) {
      ReachEdge(g, x, y);
    }
    ReachSimulated(h, g);
  }

  lemma SmallerStaysUnshortened(g: Digraph, h: Digraph, b: nat)
    requires Unshortened(g, b) && forall x: nat :: Succ(h, x) <= Succ(g, x)
    ensures Unshortened(h, b)
  {
    forall d, t | d in Succ(h, b) && t in Succ(h, b) ensures t !in Succ(h, d) {
      assert Succ(h, b) <= Succ(g, b) && Succ(h, d) <= Succ(g, d);
    }
  }

  lemma ReducedIsUnshortened(g: Digraph, h: Digraph, b: nat)
    requires Acyclic(g) && h == ReduceAt(g, b, Shortcuts(g, b))
    ensures Unshortened(h, b)
  {
    if b in Succ(g, b) {
      ReachEdge(g, b, b);
    }
    forall d, t | d in Succ(h, b) && t in Succ(h, b) ensures t !in Succ(h, d) {
      assert t !in Shortcuts(g, b);
    }
  }

  /** Reduces every block once, in any order, reading neighbours that may already be reduced. On an acyclic graph
      reachability is exactly preserved and no dependency is left that another dependency has directly. */
  method TransitiveReduction(g0: Digraph) returns (g: Digraph)
    requires Acyclic(g0)
    ensures g.Keys == g0.Keys && (forall b: nat :: Succ(g, b) <= Succ(g0, b))
    ensures SameReach(g0, g)
    ensures forall b: nat :: Unshortened(g, b)
  {
    g := g0;
    var rest := g0.Keys;
    while rest != {}
      invariant g.Keys == g0.Keys && rest <= g0.Keys && (forall b: nat :: Succ(g, b) <= Succ(g0, b))
      invariant SameReach(g0, g)
      invariant forall b: nat :: b !in rest ==> Unshortened(g, b)
    {
      var block :| block in rest;
      rest := rest - {block};
      var toRemove := FindShortcuts(g, block);
      ghost var before := g;
      g := ReduceAt(g, block, toRemove);
      assert Acyclic(before);
      ReduceAtKeepsReach(before, g, block);
      assert forall x: nat :: Succ(g, x) <= Succ(before, x);
      forall b: nat | b !in rest ensures Unshortened(g, b) {
        if b == block {
          ReducedIsUnshortened(before, g, block);
        } else {
          SmallerStaysUnshortened(before, g, b);
        }
      }
    }
  }

  /** Acyclicity is needed: a block that depends on itself loses every dependency. */
  lemma CyclicReductionLosesReach()
    ensures var g: Digraph := map[0 := {0, 1}, 1 := {}];
            !Acyclic(g) && Reach(g, 0, 1) && !Reach(ReduceAt(g, 0, Shortcuts(g, 0)), 0, 1)
  {
    var g: Digraph := map[0 := {0, 1}, 1 := {}];
    ReachEdge(g, 0, 0);
    ReachEdge(g, 0, 1);
    var h := ReduceAt(g, 0, Shortcuts(g, 0));
    assert 0 in Shortcuts(g, 0) && 1 in Shortcuts(g, 0);
    assert Succ(h, 0) == {};
    if Reach(h, 0, 1) {
      var x := ReachFirst(h, 0, 1);
    }
  }
}
