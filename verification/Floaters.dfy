/** Floater-to-branch propagation: blocks needed after a branch block are tied to it, and moved above it when
    everything they need already stands there. */
module Floaters {
  import opened Graph
  import opened BlockOrder
  import opened Precedences

  /** Block `d` is transitively needed by a block that stands after `c`. */
  ghost predicate NeededAfter(order: seq<nat>, deps: Digraph, c: nat, d: nat) {
    exists b: nat :: Before(order, c, b) && Reach(deps, b, d)
  }

  /** A block that may be tied to branch block `c`: it has no control-flow predecessors and is more than a lone branch.
      Without the online scheduler, blocks that call a request routine are exempt. */
  ghost predicate Eligible(f: Func, c: nat, online: bool, x: nat) {
    && x < |f| && x != c && f[x].preds == []
    && !(|f[x].ops| == 1 && f[x].ops[0].kind in {Branch, CondBranch})
    && (online || forall k :: 0 <= k < |f[x].ops| && f[x].ops[k].kind.Call? ==> !f[x].ops[k].kind.callee.isRequest)
  }

  /** Something the floater must follow stands at or after `c`. */
  ghost predicate Blocked(order: seq<nat>, deps: Digraph, prevComm: map<nat, nat>, prevEnt: map<nat, nat>, c: nat, x: nat) {
    || (exists d: nat :: d in Succ(deps, x) && !Before(order, d, c))
    || (x in prevComm && !Before(order, prevComm[x], c))
    || (x in prevEnt && !Before(order, prevEnt[x], c))
  }

  /** The floater is tied to `c` and stands above it, or cannot be moved there. */
  ghost predicate Settled(order: seq<nat>, deps: Digraph, prevComm: map<nat, nat>, prevEnt: map<nat, nat>, c: nat, x: nat) {
    || (Before(order, x, c) && x in Succ(deps, c))
    || (Before(order, c, x) && Blocked(order, deps, prevComm, prevEnt, c, x))
  }

  ghost function Targets(deps: Digraph): set<nat> {
    set b, d | b in deps && d in deps[b] :: d
  }

  lemma NeededOnward(order: seq<nat>, deps: Digraph, c: nat, x: nat, d: nat)
    requires NeededAfter(order, deps, c, x) && d in Succ(deps, x)
    ensures NeededAfter(order, deps, c, d)
  {
    var b: nat :| Before(order, c, b) && Reach(deps, b, x);
    ReachEdge(deps, x, d);
    ReachTrans(deps, b, x, d);
  }

  /** Adds the dependencies of a block to the needs, queueing the ones not seen before. */
  method AddAll(deps: Digraph, b: nat, needs0: set<nat>, worklist0: seq<nat>) returns (needs: set<nat>, worklist: seq<nat>)
    ensures needs == needs0 + Succ(deps, b)
    ensures forall x: nat :: x in worklist <==> x in worklist0 || (x in Succ(deps, b) && x !in needs0)
    ensures Succ(deps, b) <= needs0 ==> worklist == worklist0
  {
    needs, worklist := needs0, worklist0;
    var rest := Succ(deps, b);
    while rest != {}
      invariant rest <= Succ(deps, b) && needs == needs0 + (Succ(deps, b) - rest)
      invariant forall x: nat :: x in worklist <==> x in worklist0 || (x in Succ(deps, b) - rest && x !in needs0)
      invariant Succ(deps, b) <= needs0 ==> worklist == worklist0
    {
      var dep :| dep in rest;
      rest := rest - {dep};
      if dep !in needs {
        needs := needs + {dep};
        worklist := worklist + [dep];
      }
    }
  }

  ghost predicate AllNeeded(order: seq<nat>, deps: Digraph, c: nat, needs: set<nat>) {
    forall d: nat :: d in needs ==> NeededAfter(order, deps, c, d)
  }

  /** The direct dependencies of the blocks after `c`. */
  method SeedNeeds(order: seq<nat>, pos: map<nat, nat>, deps: Digraph, c: nat) returns (needs: set<nat>, worklist: seq<nat>)
    requires IsIndex(pos, order) && c in pos
    ensures forall b: nat :: b in pos && pos[b] > pos[c] ==> Succ(deps, b) <= needs
    ensures AllNeeded(order, deps, c, needs)
    ensures forall x: nat :: x in needs <==> x in worklist
  {
    needs, worklist := {}, [];
    for i := 0 to |order|
      invariant forall b: nat :: b in pos && pos[b] > pos[c] && pos[b] < i ==> Succ(deps, b) <= needs
      invariant AllNeeded(order, deps, c, needs)
      invariant forall x: nat :: x in needs <==> x in worklist
    {
      if i > pos[c] {
        assert Before(order, c, order[i]);
        forall d: nat | d in Succ(deps, order[i]) ensures NeededAfter(order, deps, c, d) {
          ReachEdge(deps, order[i], d);
        }
        needs, worklist := AddAll(deps, order[i], needs, worklist);
      }
    }
  }

  /** A need has its own dependencies among the needs, or waits in the worklist. */
  ghost predicate Queued(deps: Digraph, needs: set<nat>, worklist: seq<nat>) {
    && (forall x: nat :: x in needs && x !in worklist ==> Succ(deps, x) <= needs)
    && (forall x: nat :: x in worklist ==> x in needs)
  }

  /** Takes the last block of the worklist and adds its dependencies. */
  method VisitLast(order: seq<nat>, deps: Digraph, c: nat, needs0: set<nat>, worklist0: seq<nat>) returns (needs: set<nat>, worklist: seq<nat>)
    requires worklist0 != [] && AllNeeded(order, deps, c, needs0) && Queued(deps, needs0, worklist0)
    ensures AllNeeded(order, deps, c, needs) && Queued(deps, needs, worklist)
    ensures needs0 <= needs <= needs0 + Targets(deps) && (needs == needs0 ==> |worklist| < |worklist0|)
  {
    var cur := worklist0[|worklist0| - 1];
    var rest := worklist0[..|worklist0| - 1];
    assert forall x: nat :: x in worklist0 <==> x in rest || x == cur;
    forall d: nat | d in Succ(deps, cur) ensures NeededAfter(order, deps, c, d) {
      NeededOnward(order, deps, c, cur, d);
    }
    assert Succ(deps, cur) <= Targets(deps);
    needs, worklist := AddAll(deps, cur, needs0, rest);
  }

  /** The transitive dependencies of all blocks after `c`, by a worklist. */
  method TransitiveNeeds(order: seq<nat>, pos: map<nat, nat>, deps: Digraph, c: nat) returns (needs: set<nat>)
    requires IsIndex(pos, order) && c in pos
    ensures forall b: nat :: b in pos && pos[b] > pos[c] ==> Succ(deps, b) <= needs
    ensures forall x: nat :: x in needs ==> Succ(deps, x) <= needs
    ensures AllNeeded(order, deps, c, needs)
  {
    var worklist;
    needs, worklist := SeedNeeds(order, pos, deps, c);
    ghost var seeds := needs;
    ghost var all := needs + Targets(deps);
    while worklist != []
      invariant seeds <= needs <= all
      invariant AllNeeded(order, deps, c, needs) && Queued(deps, needs, worklist)
      decreases all - needs, |worklist|
    {
      needs, worklist := VisitLast(order, deps, c, needs, worklist);
    }
  }

  /** Whether every dependency and previous operation of `x` stands before `c`. */
  method CanMove(order: seq<nat>, pos: map<nat, nat>, deps: Digraph, prevComm: map<nat, nat>, prevEnt: map<nat, nat>, c: nat, x: nat) returns (ok: bool)
    requires IsIndex(pos, order) && c in pos
    requires forall d: nat :: d in Succ(deps, x) ==> d in pos
    requires x in prevComm ==> prevComm[x] in pos
    requires x in prevEnt ==> prevEnt[x] in pos
    ensures ok <==> !Blocked(order, deps, prevComm, prevEnt, c, x)
  {
    forall d: nat ensures Before(order, d, c) <==> d in pos && pos[d] < pos[c] {
      BeforeByIndex(order, pos, d, c);
    }
    var rest := Succ(deps, x);
    while rest != {}
      invariant rest <= Succ(deps, x)
      invariant forall d: nat :: d in Succ(deps, x) && d !in rest ==> Before(order, d, c)
    {
      var dep :| dep in rest;
      rest := rest - {dep};
      if pos[dep] >= pos[c] {
        return false;
      }
    }
    if x in prevComm && pos[prevComm[x]] >= pos[c] {
      return false;
    }
    if x in prevEnt && pos[prevEnt[x]] >= pos[c] {
      return false;
    }
    return true;
  }

  lemma TieKeepsSound(f: Func, order: seq<nat>, deps: Digraph, prevComm: map<nat, nat>, prevEnt: map<nat, nat>, c: nat, x: nat)
    requires Sound(f, order, deps, prevComm, prevEnt) && c < |f| && Before(order, x, c)
    ensures Sound(f, order, deps[c := deps[c] + {x}], prevComm, prevEnt)
  {
    GrowSucc(deps, c, {x});
  }

  lemma InFront(order: seq<nat>, j: nat, x: nat)
    requires Distinct(order) && j < |order| && Before(order, x, order[j])
    ensures exists k :: 0 <= k < j && order[k] == x
  {
    var p, q :| 0 <= p < q < |order| && order[p] == x && order[q] == order[j];
    assert q == j;
  }

  /** Moving an unblocked floater in front of the branch block breaks no precedence. */
  lemma MoveKeepsSound(f: Func, order: seq<nat>, deps: Digraph, prevComm: map<nat, nat>, prevEnt: map<nat, nat>, i: nat, j: nat)
    requires Sound(f, order, deps, prevComm, prevEnt) && j < i < |order|
    requires f[order[i]].preds == [] && !Blocked(order, deps, prevComm, prevEnt, order[j], order[i])
    ensures Sound(f, MoveBefore(order, i, j), deps, prevComm, prevEnt)
    ensures Before(MoveBefore(order, i, j), order[i], order[j]) && MoveBefore(order, i, j)[j + 1] == order[j]
  {
    var c, x := order[j], order[i];
    var r := MoveBefore(order, i, j);
    MovePlaces(order, i, j);
    MoveKeepsDistinct(order, i, j);
    forall must: Digraph | must in {deps, PredGraph(f), PrevGraph(prevComm), PrevGraph(prevEnt)} ensures Respects(r, must) {
      forall d: nat | d in Succ(must, x) ensures exists k :: 0 <= k < j && order[k] == d {
        assert Before(order, d, c);
        InFront(order, j, d);
      }
      MoveKeepsRespects(order, must, i, j);
    }
    assert r[Moved(i, i, j)] == x && r[Moved(j, i, j)] == c;
  }

  /** Only `c` gains dependencies, all of them eligible floaters. */
  ghost predicate Tied(f: Func, c: nat, online: bool, deps0: Digraph, deps: Digraph) {
    && (forall b: nat :: b != c ==> Succ(deps, b) == Succ(deps0, b))
    && Succ(deps0, c) <= Succ(deps, c)
    && (forall x: nat :: x in Succ(deps, c) && x !in Succ(deps0, c) ==> Eligible(f, c, online, x))
  }

  /** Blocks change sides only when the later one was moved: an eligible floater that is tied to `c` now. */
  ghost predicate OnlyMoved(f: Func, c: nat, online: bool, order0: seq<nat>, order: seq<nat>, deps: Digraph) {
    forall a: nat, b: nat :: Before(order0, a, b) && !Before(order, a, b) ==> Eligible(f, c, online, b) && b in Succ(deps, c)
  }

  lemma OnlyMovedOn(f: Func, c: nat, online: bool, order0: seq<nat>, order1: seq<nat>, order: seq<nat>, deps1: Digraph, deps: Digraph)
    requires OnlyMoved(f, c, online, order0, order1, deps1) && OnlyMoved(f, c, online, order1, order, deps)
    requires Succ(deps1, c) <= Succ(deps, c)
    ensures OnlyMoved(f, c, online, order0, order, deps)
  {
    forall a: nat, b: nat | Before(order0, a, b) && !Before(order, a, b) ensures Eligible(f, c, online, b) && b in Succ(deps, c) {
      assert Before(order1, a, b) || !Before(order1, a, b);
    }
  }

  lemma TieStep(f: Func, c: nat, online: bool, deps0: Digraph, deps: Digraph, x: nat)
    requires Tied(f, c, online, deps0, deps) && c in deps && Eligible(f, c, online, x)
    ensures Tied(f, c, online, deps0, deps[c := deps[c] + {x}])
    ensures Succ(deps[c := deps[c] + {x}], c) == Succ(deps, c) + {x}
  {
    GrowSucc(deps, c, {x});
  }

  lemma TargetsPlaced(f: Func, order: seq<nat>, pos: map<nat, nat>, deps: Digraph, prevComm: map<nat, nat>, prevEnt: map<nat, nat>, x: nat)
    requires Sound(f, order, deps, prevComm, prevEnt) && IsIndex(pos, order) && x < |f|
    ensures forall d: nat :: d in Succ(deps, x) ==> d in pos
    ensures (x in prevComm ==> prevComm[x] in pos) && (x in prevEnt ==> prevEnt[x] in pos)
  {
    forall d: nat | d in Succ(deps, x) ensures d in pos {
      assert Before(order, d, x);
    }
    if x in prevComm {
      assert prevComm[x] in Succ(PrevGraph(prevComm), x);
    }
    if x in prevEnt {
      assert prevEnt[x] in Succ(PrevGraph(prevEnt), x);
    }
  }

  /** Moves a floater that stands after `c` in front of it, unless it is blocked. */
  method TryMove(f: Func, c: nat, order0: seq<nat>, pos: map<nat, nat>, deps: Digraph,
                 prevComm: map<nat, nat>, prevEnt: map<nat, nat>, x: nat) returns (order: seq<nat>, moved: bool)
    requires Sound(f, order0, deps, prevComm, prevEnt) && IsIndex(pos, order0) && c < |f| && x < |f|
    requires Before(order0, c, x) && f[x].preds == []
    ensures Sound(f, order, deps, prevComm, prevEnt) && |order| == |order0|
    ensures moved <==> !Blocked(order0, deps, prevComm, prevEnt, c, x)
    ensures !moved ==> order == order0
    ensures moved ==> Before(order, x, c) && pos[c] + 1 < |order| && order[pos[c] + 1] == c
    ensures forall a: nat, b: nat :: Before(order0, a, b) && b != x ==> Before(order, a, b)
  {
    order := order0;
    BeforeByIndex(order, pos, c, x);
    TargetsPlaced(f, order, pos, deps, prevComm, prevEnt, x);
    moved := CanMove(order, pos, deps, prevComm, prevEnt, c, x);
    if moved {
      MoveKeepsSound(f, order, deps, prevComm, prevEnt, pos[x], pos[c]);
      MoveKeepsOthers(order, pos[x], pos[c]);
      order := MoveBefore(order, pos[x], pos[c]);
    }
  }

  lemma StillSettled(order: seq<nat>, deps1: Digraph, deps: Digraph, prevComm: map<nat, nat>, prevEnt: map<nat, nat>, c: nat)
    requires forall b: nat :: b != c ==> Succ(deps, b) == Succ(deps1, b)
    requires Succ(deps1, c) <= Succ(deps, c)
    ensures forall x: nat :: x != c && Settled(order, deps1, prevComm, prevEnt, c, x) ==> Settled(order, deps, prevComm, prevEnt, c, x)
  {
  }

  lemma TiedOn(f: Func, c: nat, online: bool, deps0: Digraph, deps1: Digraph, deps: Digraph)
    requires Tied(f, c, online, deps0, deps1) && Tied(f, c, online, deps1, deps)
    ensures Tied(f, c, online, deps0, deps)
  {
    forall b: nat | b != c ensures Succ(deps, b) == Succ(deps0, b) {
      assert Succ(deps, b) == Succ(deps1, b);
    }
  }

  /** Ties an eligible floater to `c` if it stands before it or can be moved there. */
  method TieOrMove(f: Func, c: nat, order0: seq<nat>, pos: map<nat, nat>, deps0: Digraph,
                   prevComm: map<nat, nat>, prevEnt: map<nat, nat>, online: bool, x: nat)
    returns (order: seq<nat>, deps: Digraph, moved: bool)
    requires Sound(f, order0, deps0, prevComm, prevEnt) && IsIndex(pos, order0) && c < |f| && Eligible(f, c, online, x)
    ensures Sound(f, order, deps, prevComm, prevEnt) && Tied(f, c, online, deps0, deps) && Succ(deps, c) <= Succ(deps0, c) + {x}
    ensures |order| == |order0| && OnlyMoved(f, c, online, order0, order, deps)
    ensures !moved ==> order == order0 && Settled(order, deps, prevComm, prevEnt, c, x)
    ensures moved ==> pos[c] + 1 < |order| && order[pos[c] + 1] == c
  {
    order, deps, moved := order0, deps0, false;
    assert c in order && x in order;
    BeforeByIndex(order, pos, x, c);
    BeforeByIndex(order, pos, c, x);
    if pos[x] < pos[c] {
      TieKeepsSound(f, order, deps, prevComm, prevEnt, c, x);
      TieStep(f, c, online, deps0, deps, x);
      deps := deps[c := deps[c] + {x}];
    } else {
      order, moved := TryMove(f, c, order, pos, deps, prevComm, prevEnt, x);
      if moved {
        TieKeepsSound(f, order, deps, prevComm, prevEnt, c, x);
        TieStep(f, c, online, deps0, deps, x);
        deps := deps[c := deps[c] + {x}];
      }
    }
  }

  /** Visits one needed block: skips it unless it is eligible. */
  method VisitNeed(f: Func, c: nat, order0: seq<nat>, pos: map<nat, nat>, deps0: Digraph,
                   prevComm: map<nat, nat>, prevEnt: map<nat, nat>, online: bool, x: nat)
    returns (order: seq<nat>, deps: Digraph, moved: bool)
    requires Sound(f, order0, deps0, prevComm, prevEnt) && IsIndex(pos, order0) && c < |f| && x < |f|
    ensures Sound(f, order, deps, prevComm, prevEnt) && Tied(f, c, online, deps0, deps) && Succ(deps, c) <= Succ(deps0, c) + {x}
    ensures |order| == |order0| && OnlyMoved(f, c, online, order0, order, deps)
    ensures !moved ==> order == order0 && (Eligible(f, c, online, x) ==> Settled(order, deps, prevComm, prevEnt, c, x))
    ensures moved ==> pos[c] + 1 < |order| && order[pos[c] + 1] == c
  {
    order, deps, moved := order0, deps0, false;
    if x == c || f[x].preds != [] || IsPureCfBridge(f[x]) {
      return;
    }
    if !online && CallsRequest(f[x]) {
      return;
    }
    order, deps, moved := TieOrMove(f, c, order, pos, deps, prevComm, prevEnt, online, x);
  }

  /** The eligible ones among the given blocks are settled. */
  ghost predicate SettledIn(f: Func, c: nat, online: bool, order: seq<nat>, deps: Digraph, prevComm: map<nat, nat>, prevEnt: map<nat, nat>, blocks: set<nat>) {
    forall x: nat :: x in blocks && Eligible(f, c, online, x) ==> Settled(order, deps, prevComm, prevEnt, c, x)
  }

  lemma SettledOneMore(f: Func, c: nat, online: bool, order: seq<nat>, deps1: Digraph, deps: Digraph, prevComm: map<nat, nat>, prevEnt: map<nat, nat>,
                       blocks: set<nat>, x: nat)
    requires SettledIn(f, c, online, order, deps1, prevComm, prevEnt, blocks) && Tied(f, c, online, deps1, deps)
    requires Eligible(f, c, online, x) ==> Settled(order, deps, prevComm, prevEnt, c, x)
    ensures SettledIn(f, c, online, order, deps, prevComm, prevEnt, blocks + {x})
  {
    StillSettled(order, deps1, deps, prevComm, prevEnt, c);
  }

  /** One round over the needed blocks, stopping at the first move. */
  method VisitNeeds(f: Func, c: nat, order0: seq<nat>, pos: map<nat, nat>, deps0: Digraph, needs: set<nat>,
                    prevComm: map<nat, nat>, prevEnt: map<nat, nat>, online: bool)
    returns (order: seq<nat>, deps: Digraph, moved: bool)
    requires Sound(f, order0, deps0, prevComm, prevEnt) && IsIndex(pos, order0) && c < |f|
    requires forall x: nat :: x in needs ==> x < |f|
    ensures Sound(f, order, deps, prevComm, prevEnt)
    ensures Tied(f, c, online, deps0, deps) && Succ(deps, c) <= Succ(deps0, c) + needs
    ensures |order| == |order0| && (!moved ==> order == order0) && OnlyMoved(f, c, online, order0, order, deps)
    ensures !moved ==> SettledIn(f, c, online, order, deps, prevComm, prevEnt, needs)
    ensures moved ==> pos[c] + 1 < |order| && order[pos[c] + 1] == c
  {
    order, deps, moved := order0, deps0, false;
    var rest := needs;
    while rest != {} && !moved
      invariant rest <= needs
      invariant Sound(f, order, deps, prevComm, prevEnt)
      invariant Tied(f, c, online, deps0, deps) && Succ(deps, c) <= Succ(deps0, c) + needs
      invariant |order| == |order0| && (!moved ==> order == order0) && OnlyMoved(f, c, online, order0, order, deps)
      invariant !moved ==> SettledIn(f, c, online, order, deps, prevComm, prevEnt, needs - rest)
      invariant moved ==> pos[c] + 1 < |order| && order[pos[c] + 1] == c
    {
      var x :| x in rest;
      ghost var deps1, visited := deps, needs - rest;
      order, deps, moved := VisitNeed(f, c, order, pos, deps, prevComm, prevEnt, online, x);
      TiedOn(f, c, online, deps0, deps1, deps);
      if !moved {
        SettledOneMore(f, c, online, order, deps1, deps, prevComm, prevEnt, visited, x);
      }
      rest := rest - {x};
      assert needs - rest == visited + {x};
    }
    assert !moved ==> needs - rest == needs;
  }

  /** Every eligible block needed after `c` is settled. */
  ghost predicate AllSettled(f: Func, c: nat, online: bool, order: seq<nat>, deps: Digraph, prevComm: map<nat, nat>, prevEnt: map<nat, nat>) {
    forall x: nat :: Eligible(f, c, online, x) && NeededAfter(order, deps, c, x) ==> Settled(order, deps, prevComm, prevEnt, c, x)
  }

  lemma ReachedAreBlocks(f: Func, order: seq<nat>, deps: Digraph, b: nat, x: nat)
    requires Lists(order, |f|) && ForBlocks(f, deps) && Respects(order, deps) && Reach(deps, b, x)
    ensures x < |f|
  {
    var blocks := set y | y in order;
    forall y: nat ensures Succ(deps, y) <= blocks {
      forall d | d in Succ(deps, y) ensures d in blocks {
        assert Before(order, d, y);
      }
    }
    var n: nat :| Steps(deps, b, x, n);
    StepsStayIn(deps, blocks, b, x, n);
  }

  lemma NeededAreBlocks(f: Func, order: seq<nat>, deps: Digraph, prevComm: map<nat, nat>, prevEnt: map<nat, nat>, c: nat, needs: set<nat>)
    requires Sound(f, order, deps, prevComm, prevEnt) && AllNeeded(order, deps, c, needs)
    ensures forall x: nat :: x in needs ==> x < |f|
  {
    forall x: nat | x in needs ensures x < |f| {
      assert NeededAfter(order, deps, c, x);
      var b: nat :| Before(order, c, b) && Reach(deps, b, x);
      ReachedAreBlocks(f, order, deps, b, x);
    }
  }

  /** The needs found stay complete when `c` gains dependencies out of them. */
  lemma NeedsAreClosed(order: seq<nat>, pos: map<nat, nat>, deps1: Digraph, deps: Digraph, c: nat, needs: set<nat>)
    requires IsIndex(pos, order) && c in pos
    requires forall b: nat :: b in pos && pos[b] > pos[c] ==> Succ(deps1, b) <= needs
    requires forall x: nat :: x in needs ==> Succ(deps1, x) <= needs
    requires forall b: nat :: b != c ==> Succ(deps, b) == Succ(deps1, b)
    requires Succ(deps, c) <= Succ(deps1, c) + needs
    ensures forall x: nat :: NeededAfter(order, deps, c, x) ==> x in needs
  {
    forall x: nat | NeededAfter(order, deps, c, x) ensures x in needs {
      var b: nat :| Before(order, c, b) && Reach(deps, b, x);
      BeforeByIndex(order, pos, c, b);
      assert forall y: nat :: y in needs ==> Succ(deps, y) <= needs;
      var n: nat :| Steps(deps, b, x, n);
      StepsStayIn(deps, needs, b, x, n);
    }
  }

  /** One round of the floater loop: what is needed after `c` is found and visited. It moves `c` on by one place, or leaves
      every eligible block needed after `c` settled. */
  method VisitRound(f: Func, c: nat, order0: seq<nat>, deps0: Digraph,
                    prevComm: map<nat, nat>, prevEnt: map<nat, nat>, online: bool, ghost at: nat)
    returns (order: seq<nat>, deps: Digraph, moved: bool)
    requires Sound(f, order0, deps0, prevComm, prevEnt) && c < |f| && at < |order0| && order0[at] == c
    ensures Sound(f, order, deps, prevComm, prevEnt) && Tied(f, c, online, deps0, deps) && |order| == |order0|
    ensures OnlyMoved(f, c, online, order0, order, deps)
    ensures moved ==> at + 1 < |order| && order[at + 1] == c
    ensures !moved ==> order == order0 && AllSettled(f, c, online, order, deps, prevComm, prevEnt)
  {
    var pos := IndexBlocks(order0);
    var needs := TransitiveNeeds(order0, pos, deps0, c);
    NeededAreBlocks(f, order0, deps0, prevComm, prevEnt, c, needs);
    order, deps, moved := VisitNeeds(f, c, order0, pos, deps0, needs, prevComm, prevEnt, online);
    if !moved {
      NeedsAreClosed(order, pos, deps0, deps, c, needs);
    }
  }

  /** The floater loop of branch block `c`. It ends because each move leaves one block fewer after `c`; then every
      eligible block needed after `c` is settled. */
  method PropagateFloaters(f: Func, c: nat, order0: seq<nat>, deps0: Digraph,
                           prevComm: map<nat, nat>, prevEnt: map<nat, nat>, online: bool)
    returns (order: seq<nat>, deps: Digraph)
    requires Sound(f, order0, deps0, prevComm, prevEnt) && c < |f|
    ensures Sound(f, order, deps, prevComm, prevEnt)
    ensures Tied(f, c, online, deps0, deps)
    ensures AllSettled(f, c, online, order, deps, prevComm, prevEnt) && OnlyMoved(f, c, online, order0, order, deps)
    ensures forall x: nat ::
              && x < |f| && x != c && f[x].preds == [] && !(|f[x].ops| == 1 && f[x].ops[0].kind in {Branch, CondBranch})
              && (online || forall k :: 0 <= k < |f[x].ops| && f[x].ops[k].kind.Call? ==> !f[x].ops[k].kind.callee.isRequest)
              && NeededAfter(order, deps, c, x)
              ==> Settled(order, deps, prevComm, prevEnt, c, x)
    ensures !online ==> forall x: nat :: x < |f| && x in Succ(deps, c) && x !in Succ(deps0, c) ==>
              forall k :: 0 <= k < |f[x].ops| && f[x].ops[k].kind.Call? ==> !f[x].ops[k].kind.callee.isRequest
  {
    order, deps := order0, deps0;
    assert c in order;
    ghost var at: nat :| at < |order| && order[at] == c;
    var moved := true;
    while moved
      invariant |order| == |order0|
      invariant Sound(f, order, deps, prevComm, prevEnt) && at < |order| && order[at] == c
      invariant Tied(f, c, online, deps0, deps) && OnlyMoved(f, c, online, order0, order, deps)
      invariant !moved ==> AllSettled(f, c, online, order, deps, prevComm, prevEnt)
      decreases |order| - at, moved
    {
      ghost var order1, deps1 := order, deps;
      order, deps, moved := VisitRound(f, c, order, deps, prevComm, prevEnt, online, at);
      TiedOn(f, c, online, deps0, deps1, deps);
      OnlyMovedOn(f, c, online, order0, order1, order, deps1, deps);
      if moved {
        at := at + 1;
      }
    }
  }
}
