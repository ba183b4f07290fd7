/** Finite directed graphs over block numbers, reachability, and orders that follow it. */
module Graph {

  type Digraph = map<nat, set<nat>>

  /** The first `n` numbers. */
  function Below(n: nat): (below: set<nat>)
    ensures |below| == n && forall i: nat :: i in below <==> i < n
  {
    if n == 0 then {} else Below(n - 1) + {n - 1}
  }

  function Succ(g: Digraph, a: nat): set<nat> {
    if a in g then g[a] else {}
  }

  /** A walk of `n + 1` edges from `a` to `b`. */
  ghost predicate Steps(g: Digraph, a: nat, b: nat, n: nat)
    decreases n
  {
    if n == 0 then b in Succ(g, a)
    else exists m: nat :: m in Succ(g, a) && Steps(g, m, b, n - 1)
  }

  /** There is a nonempty walk from `a` to `b`. */
  ghost predicate Reach(g: Digraph, a: nat, b: nat) {
    exists n: nat :: Steps(g, a, b, n)
  }

  ghost predicate Acyclic(g: Digraph) {
    forall x: nat :: !Reach(g, x, x)
  }

  ghost predicate SameReach(g: Digraph, h: Digraph) {
    forall a: nat, b: nat :: Reach(g, a, b) <==> Reach(h, a, b)
  }

  lemma ReachEdge(g: Digraph, a: nat, b: nat)
    requires b in Succ(g, a)
    ensures Reach(g, a, b)
  {
    assert Steps(g, a, b, 0);
  }

  lemma {:induction false} StepsJoin(g: Digraph, a: nat, b: nat, c: nat, n: nat, m: nat)
    requires Steps(g, a, b, n) && Steps(g, b, c, m)
    ensures Steps(g, a, c, n + m + 1)
    decreases n
  {
    if n == 0 {
      assert b in Succ(g, a) && Steps(g, b, c, m);
    } else {
      var x: nat :| x in Succ(g, a) && Steps(g, x, b, n - 1);
      StepsJoin(g, x, b, c, n - 1, m);
    }
  }

  lemma ReachTrans(g: Digraph, a: nat, b: nat, c: nat)
    requires Reach(g, a, b) && Reach(g, b, c)
    ensures Reach(g, a, c)
  {
    var n: nat :| Steps(g, a, b, n);
    var m: nat :| Steps(g, b, c, m);
    StepsJoin(g, a, b, c, n, m);
  }

  /** A walk starts with an edge: it is that edge, or that edge followed by a walk. */
  lemma ReachFirst(g: Digraph, a: nat, b: nat) returns (x: nat)
    requires Reach(g, a, b)
    ensures x in Succ(g, a) && (x == b || Reach(g, x, b))
  {
    var n: nat :| Steps(g, a, b, n);
    if n == 0 {
      x := b;
    } else {
      x :| x in Succ(g, a) && Steps(g, x, b, n - 1);
    }
  }

  /** A set that holds the successors of `a` and is closed under successors holds all that `a` reaches. */
  lemma {:induction false} StepsStayIn(g: Digraph, s: set<nat>, a: nat, b: nat, n: nat)
    requires Succ(g, a) <= s
    requires forall x: nat :: x in s ==> Succ(g, x) <= s
    requires Steps(g, a, b, n)
    ensures b in s
    decreases n
  {
    if n > 0 {
      var x: nat :| x in Succ(g, a) && Steps(g, x, b, n - 1);
      StepsStayIn(g, s, x, b, n - 1);
    }
  }

  /** If every edge of `g` is a walk of `h`, every walk of `g` is one of `h`. */
  lemma {:induction false} StepsSimulated(g: Digraph, h: Digraph, a: nat, b: nat, n: nat)
    requires forall x: nat, y: nat :: y in Succ(g, x) ==> Reach(h, x, y)
    requires Steps(g, a, b, n)
    ensures Reach(h, a, b)
    decreases n
  {
    if n > 0 {
      var x: nat :| x in Succ(g, a) && Steps(g, x, b, n - 1);
      StepsSimulated(g, h, x, b, n - 1);
      ReachTrans(h, a, x, b);
    }
  }

  lemma ReachSimulated(g: Digraph, h: Digraph)
    requires forall x: nat, y: nat :: y in Succ(g, x) ==> Reach(h, x, y)
    ensures forall a: nat, b: nat :: Reach(g, a, b) ==> Reach(h, a, b)
  {
    forall a: nat, b: nat | Reach(g, a, b) ensures Reach(h, a, b) {
      var n: nat :| Steps(g, a, b, n);
      StepsSimulated(g, h, a, b, n);
    }
  }

  /** A ranking that falls along every edge rules cycles out. */
  lemma {:induction false} StepsFall(g: Digraph, rank: map<nat, nat>, a: nat, b: nat, n: nat)
    requires forall x: nat, y: nat {:trigger y in Succ(g, x)} :: y in Succ(g, x) ==> x in rank && y in rank && rank[y] < rank[x]
    requires Steps(g, a, b, n)
    ensures a in rank && b in rank && rank[b] < rank[a]
    decreases n
  {
    if n > 0 {
      var x: nat :| x in Succ(g, a) && Steps(g, x, b, n - 1);
      StepsFall(g, rank, x, b, n - 1);
    }
  }

  lemma RankedIsAcyclic(g: Digraph, rank: map<nat, nat>)
    requires forall x: nat, y: nat {:trigger y in Succ(g, x)} :: y in Succ(g, x) ==> x in rank && y in rank && rank[y] < rank[x]
    ensures Acyclic(g)
  {
    forall x: nat ensures !Reach(g, x, x) {
      if Reach(g, x, x) {
        var n: nat :| Steps(g, x, x, n);
        StepsFall(g, rank, x, x, n);
      }
    }
  }

  /** If along every edge the first node ends before the second begins, so it does along every walk. */
  lemma {:induction false} TimedWalk(g: Digraph, begins: nat -> int, ends: nat -> int, a: nat, b: nat, n: nat)
    requires forall x: nat, y: nat {:trigger y in Succ(g, x)} :: y in Succ(g, x) ==> ends(x) <= begins(y) <= ends(y)
    requires Steps(g, a, b, n)
    ensures ends(a) <= begins(b) <= ends(b)
    decreases n
  {
    if n > 0 {
      var x: nat :| x in Succ(g, a) && Steps(g, x, b, n - 1);
      TimedWalk(g, begins, ends, x, b, n - 1);
    }
  }

  /** The nodes of `s` that reach `x`. */
  ghost function Above(g: Digraph, s: set<nat>, x: nat): set<nat> {
    set y | y in s && Reach(g, y, x)
  }

  lemma AboveShrinks(g: Digraph, s: set<nat>, y: nat, x: nat)
    requires Acyclic(g) && y in s && Reach(g, y, x)
    ensures Above(g, s, y) < Above(g, s, x)
  {
    forall z | z in Above(g, s, y) ensures z in Above(g, s, x) {
      ReachTrans(g, z, y, x);
    }
    assert y in Above(g, s, x) && y !in Above(g, s, y);
  }

  // ---------- topological orders ----------

  ghost predicate Distinct(s: seq<nat>) {
    forall i, j :: 0 <= i < j < |s| ==> s[i] != s[j]
  }

  /** In `s`, every edge between listed nodes leads to a later place. */
  ghost predicate Follows(g: Digraph, s: seq<nat>) {
    forall i, j :: 0 <= i < |s| && 0 <= j < |s| && s[j] in Succ(g, s[i]) ==> i < j
  }

  /** Climbing predecessors inside a finite set of an acyclic graph ends at a source. */
  lemma FindSource(g: Digraph, nodes: set<nat>, x: nat) returns (s: nat)
    requires Acyclic(g) && x in nodes
    ensures s in nodes && forall p: nat :: p in nodes ==> s !in Succ(g, p)
    decreases Above(g, nodes, x)
  {
    if p: nat :| p in nodes && x in Succ(g, p) {
      ReachEdge(g, p, x);
      AboveShrinks(g, nodes, p, x);
      s := FindSource(g, nodes, p);
    } else {
      s := x;
    }
  }

  /** Every finite part of an acyclic graph can be listed along its edges. */
  lemma TopologicalOrder(g: Digraph, nodes: set<nat>) returns (order: seq<nat>)
    requires Acyclic(g)
    ensures Distinct(order) && Follows(g, order)
    ensures forall x: nat :: x in order <==> x in nodes
    decreases nodes
  {
    if nodes == {} {
      order := [];
    } else {
      var x :| x in nodes;
      var s := FindSource(g, nodes, x);
      var rest := TopologicalOrder(g, nodes - {s});
      order := [s] + rest;
      forall i, j | 0 <= i < |order| && 0 <= j < |order| && order[j] in Succ(g, order[i]) ensures i < j {
        assert order[i] in nodes && order[j] in nodes;
      }
    }
  }
}
