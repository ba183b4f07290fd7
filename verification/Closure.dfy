/** Transitive closure of a set of pairs, grown while it is being iterated over. */
module Closure {
  import opened Graph

  type Pairs = set<(nat, nat)>

  function Sources(ps: Pairs): set<nat> {
    set e | e in ps :: e.0
  }

  function TargetsOf(ps: Pairs, p: nat): set<nat> {
    set e | e in ps && e.0 == p :: e.1
  }

  function PairGraph(ps: Pairs): Digraph {
    map p | p in Sources(ps) :: TargetsOf(ps, p)
  }

  lemma PairEdges(ps: Pairs)
    ensures forall a: nat, b: nat {:trigger b in Succ(PairGraph(ps), a)} {:trigger (a, b) in ps} :: b in Succ(PairGraph(ps), a) <==> (a, b) in ps
  {
    forall a: nat, b: nat ensures b in Succ(PairGraph(ps), a) <==> (a, b) in ps {
      if (a, b) in ps {
        assert (a, b).0 == a && (a, b).1 == b;
      }
    }
  }

  ghost predicate Joined(ps: Pairs, p: (nat, nat)) {
    forall q :: q in ps && p.1 == q.0 ==> (p.0, q.1) in ps
  }

  ghost predicate AllReached(g: Digraph, ps: Pairs) {
    forall p :: p in ps ==> Reach(g, p.0, p.1)
  }

  lemma {:induction false} JoinedHoldsSteps(g: Digraph, ps: Pairs, a: nat, b: nat, n: nat)
    requires (forall p :: p in ps ==> Joined(ps, p)) && forall x: nat, y: nat :: y in Succ(g, x) ==> (x, y) in ps
    requires Steps(g, a, b, n)
    ensures (a, b) in ps
    decreases n
  {
    if n > 0 {
      var x: nat :| x in Succ(g, a) && Steps(g, x, b, n - 1);
      JoinedHoldsSteps(g, ps, x, b, n - 1);
      assert Joined(ps, (a, x));
      assert (a, x).1 == (x, b).0;
    }
  }

  /** All pairs of a first part in `froms` and a second part in `tos`. */
  ghost function Box(froms: set<nat>, tos: set<nat>): Pairs {
    set a, b | a in froms && b in tos :: (a, b)
  }

  lemma InBox(froms: set<nat>, tos: set<nat>)
    ensures forall a: nat, b: nat :: (a, b) in Box(froms, tos) <==> a in froms && b in tos
  {
  }

  /** Joins `p` with every pair; `again` are the added pairs that this round will still visit. */
  method JoinWith(ghost g: Digraph, ghost froms: set<nat>, ghost tos: set<nat>, clos0: Pairs, p: (nat, nat)) returns (clos: Pairs, again: Pairs)
    requires clos0 <= Box(froms, tos) && AllReached(g, clos0) && p in clos0
    ensures clos0 <= clos <= Box(froms, tos) && AllReached(g, clos) && again <= clos - clos0
    ensures clos == clos0 ==> Joined(clos, p)
  {
    clos, again := clos0, {};
    var seconds := clos;
    while seconds != {}
      invariant clos0 <= clos <= Box(froms, tos) && AllReached(g, clos) && seconds <= clos && again <= clos - clos0
      invariant clos == clos0 ==> forall q :: q in clos && q !in seconds && p.1 == q.0 ==> (p.0, q.1) in clos
      decreases Box(froms, tos) - clos, seconds
    {
      var q :| q in seconds;
      seconds := seconds - {q};
      if p.1 == q.0 && (p.0, q.1) !in clos {
        ReachTrans(g, p.0, p.1, q.1);
        InBox(froms, tos);
        assert (p.0, p.1) == p && (q.0, q.1) == q;
        clos := clos + {(p.0, q.1)};
        if * {
          again := again + {(p.0, q.1)};
        }
        if * {
          seconds := seconds + {(p.0, q.1)};
        }
      }
    }
  }

  ghost predicate Complete(g: Digraph, ps: Pairs) {
    forall a: nat, b: nat :: Reach(g, a, b) ==> (a, b) in ps
  }

  lemma JoinedHoldsWalks(g: Digraph, ps: Pairs)
    requires forall p :: p in ps ==> Joined(ps, p)
    requires forall x: nat, y: nat :: y in Succ(g, x) ==> (x, y) in ps
    ensures Complete(g, ps)
  {
    forall a: nat, b: nat | Reach(g, a, b) ensures (a, b) in ps {
      var n: nat :| Steps(g, a, b, n);
      JoinedHoldsSteps(g, ps, a, b, n);
    }
  }

  /** One round over all pairs; a round that adds nothing leaves every walk in the set. */
  method Round(ghost g: Digraph, ghost froms: set<nat>, ghost tos: set<nat>, clos0: Pairs) returns (clos: Pairs)
    requires clos0 <= Box(froms, tos) && AllReached(g, clos0)
    requires forall x: nat, y: nat :: y in Succ(g, x) ==> (x, y) in clos0
    ensures clos0 <= clos <= Box(froms, tos) && AllReached(g, clos)
    ensures clos == clos0 ==> Complete(g, clos)
  {
    clos := clos0;
    var firsts := clos;
    while firsts != {}
      invariant clos0 <= clos <= Box(froms, tos) && AllReached(g, clos) && firsts <= clos
      invariant clos == clos0 ==> forall p :: p in clos && p !in firsts ==> Joined(clos, p)
      decreases Box(froms, tos) - clos, firsts
    {
      var p :| p in firsts;
      var again;
      clos, again := JoinWith(g, froms, tos, clos, p);
      firsts := firsts - {p} + again;
    }
    if clos == clos0 {
      JoinedHoldsWalks(g, clos);
    }
  }

  lemma EdgesReached(edges: Pairs)
    ensures AllReached(PairGraph(edges), edges)
  {
    PairEdges(edges);
    forall p | p in edges ensures Reach(PairGraph(edges), p.0, p.1) {
      assert (p.0, p.1) == p;
      ReachEdge(PairGraph(edges), p.0, p.1);
    }
  }

  lemma ClosedIsReach(g: Digraph, clos: Pairs)
    requires AllReached(g, clos) && Complete(g, clos)
    ensures forall a: nat, b: nat :: (a, b) in clos <==> Reach(g, a, b)
  {
    forall a: nat, b: nat | (a, b) in clos ensures Reach(g, a, b) {
      assert Reach(g, (a, b).0, (a, b).1);
    }
  }

  lemma EdgesInBox(edges: Pairs) returns (froms: set<nat>, tos: set<nat>)
    ensures edges <= Box(froms, tos)
  {
    froms, tos := set e | e in edges :: e.0, set e | e in edges :: e.1;
    forall e | e in edges ensures e in Box(froms, tos) {
      assert e == (e.0, e.1) && e.0 in froms && e.1 in tos;
    }
  }

  lemma EdgesKept(edges: Pairs, clos: Pairs)
    requires edges <= clos
    ensures forall x: nat, y: nat :: y in Succ(PairGraph(edges), x) ==> (x, y) in clos
  {
    PairEdges(edges);
  }

  /** The closure loop: rounds over all pairs of pairs until a round adds nothing. A pair added during a round may
      or may not be visited in that round. The result is exactly the reachability relation. */
  method Close(edges: Pairs) returns (clos: Pairs)
    ensures forall a: nat, b: nat :: (a, b) in clos <==> Reach(PairGraph(edges), a, b)
  {
    ghost var g := PairGraph(edges);
    EdgesReached(edges);
    ghost var froms, tos := EdgesInBox(edges);
    clos := edges;
    var grown := true;
    while grown
      invariant edges <= clos <= Box(froms, tos) && AllReached(g, clos)
      invariant !grown ==> Complete(g, clos)
      decreases Box(froms, tos) - clos, grown
    {
      var before := clos;
      EdgesKept(edges, clos);
      clos := Round(g, froms, tos, clos);
      grown := clos != before;
    }
    ClosedIsReach(g, clos);
  }
}
