/** The whole precedence pass: from the incoming block list to the `blk_meta` records of the final one. */
module AddPrecedences {
  import opened Wrappers
  import opened Graph
  import opened BlockOrder
  import opened QoalaHost
  import opened Precedences
  import opened Floaters
  import opened Reduction

  /** A control-flow predecessor is recorded unless the block is a quantum merge point that neither depends on the
      predecessor nor shares a written buffer with it. */
  predicate Kept(f: Func, deps: Digraph, b: nat, p: nat)
    requires b < |f|
  {
    |f[b].preds| < 2 || CallSite(f[b].ops).None? || p in Succ(deps, b) || Conflict(f, p, b)
  }

  function KeptOf(f: Func, deps: Digraph, b: nat, preds: seq<nat>): seq<nat>
    requires b < |f|
  {
    if preds == [] then []
    else KeptOf(f, deps, b, preds[..|preds| - 1]) + (if Kept(f, deps, b, preds[|preds| - 1]) then [preds[|preds| - 1]] else [])
  }

  lemma {:induction false} KeptAreListed(f: Func, deps: Digraph, b: nat, preds: seq<nat>)
    requires b < |f|
    ensures forall p: nat :: p in KeptOf(f, deps, b, preds) <==> p in preds && Kept(f, deps, b, p)
  {
    if preds != [] {
      var n := |preds| - 1;
      KeptAreListed(f, deps, b, preds[..n]);
      assert preds == preds[..n] + [preds[n]];
    }
  }

  /** The recorded predecessors; a bridge left with none records the block in front of it. */
  method EmitPredecessors(f: Func, deps: Digraph, order: seq<nat>, i: nat) returns (preds: seq<nat>)
    requires i < |order| && order[i] < |f|
    ensures var kept := KeptOf(f, deps, order[i], f[order[i]].preds);
            preds == if kept == [] && IsPureCfBridge(f[order[i]]) && i > 0 then [order[i - 1]] else kept
  {
    var b := order[i];
    preds := [];
    var all := f[b].preds;
    for k := 0 to |all|
      invariant preds == KeptOf(f, deps, b, all[..k])
    {
      assert all[..k + 1][..k] == all[..k];
      if Kept(f, deps, b, all[k]) {
        preds := preds + [all[k]];
      }
    }
    assert all[..|all|] == all;
    if preds == [] && IsPureCfBridge(f[b]) && i > 0 {
      preds := [order[i - 1]];
    }
  }

  method ListOf(s: set<nat>) returns (l: seq<nat>)
    ensures forall x: nat :: x in l <==> x in s
    ensures |l| == |s|
  {
    l := [];
    var rest := s;
    while rest != {}
      invariant rest <= s
      invariant forall x: nat :: x in l <==> x in s - rest
      invariant |l| + |rest| == |s|
    {
      var x :| x in rest;
      rest := rest - {x};
      l := l + [x];
    }
  }

  /** What the record of the block at place `i` holds. */
  ghost predicate Records(f: Func, deps: Digraph, order: seq<nat>, i: nat, m: BlkMeta)
    requires i < |order| && order[i] < |f|
  {
    var b := order[i];
    var kept := KeptOf(f, deps, b, f[b].preds);
    && m.blockId == b
    && m.predecessors == (if kept == [] && IsPureCfBridge(f[b]) && i > 0 then [order[i - 1]] else kept)
    && (forall x: nat :: x in m.dependencies <==> x in Succ(deps, b))
    && (forall p: nat :: m.prevComm == Some(p) <==> IsPrevious(CommBlocks(f), b, p))
    && (forall p: nat :: m.prevEnt == Some(p) <==> IsPrevious(RequestBlocks(f), b, p))
    && m.deadlines == []
  }

  /** The four conditions under which a control-flow predecessor `p` of block `b` is left out of its record: `b` has
      several predecessors, it calls a routine, it does not depend on `p`, and no effects of their routines clash. */
  ghost predicate LeftOut(f: Func, m: BlkMeta, b: nat, p: nat)
    requires b < |f|
  {
    && |f[b].preds| >= 2
    && (exists k :: 0 <= k < |f[b].ops| && f[b].ops[k].kind.Call?)
    && p !in m.dependencies
    && !(p < |f| && exists x, y :: CallsLast(f[p].ops, x) && CallsLast(f[b].ops, y) && ShareWritten(x, y))
  }

  /** Block `p` is the nearest one before `b` that communicates, and so does `b`. */
  ghost predicate CommunicatesBefore(f: Func, b: nat, p: nat) {
    p < b < |f| && HasComm(f[p]) && HasComm(f[b]) && forall q :: p < q < b ==> !HasComm(f[q])
  }

  /** Block `p` is the nearest one before `b` that calls a request routine, and so does `b`. */
  ghost predicate RequestsBefore(f: Func, b: nat, p: nat) {
    p < b < |f| && CallsRequest(f[p]) && CallsRequest(f[b]) && forall q :: p < q < b ==> !CallsRequest(f[q])
  }

  /** What the record of the block at place `i` says of the program. */
  ghost predicate Tells(f: Func, order: seq<nat>, i: nat, m: BlkMeta)
    requires i < |order| && order[i] < |f|
  {
    var b := order[i];
    var lone := |f[b].ops| == 1 && f[b].ops[0].kind in {Branch, CondBranch};
    && m.blockId == b
    && (forall p: nat :: p in f[b].preds ==> (p in m.predecessors <==> !LeftOut(f, m, b, p)))
    && (forall p: nat :: p in m.predecessors && p !in f[b].preds ==> f[b].preds == [] && lone && i > 0 && p == order[i - 1])
    && (f[b].preds == [] && lone && i > 0 ==> m.predecessors == [order[i - 1]])
    && (forall p: nat :: m.prevComm == Some(p) <==> CommunicatesBefore(f, b, p))
    && (forall p: nat :: m.prevEnt == Some(p) <==> RequestsBefore(f, b, p))
    && m.deadlines == []
  }

  lemma CommListed(f: Func, b: nat)
    ensures b in CommBlocks(f) <==> b < |f| && HasComm(f[b])
  {
    BlocksListed(f, (o: Op) => o.kind.Comm?, b);
  }

  lemma RequestListed(f: Func, b: nat)
    ensures b in RequestBlocks(f) <==> b < |f| && CallsRequest(f[b])
  {
    BlocksListed(f, (o: Op) => o.kind.Call? && o.kind.callee.isRequest, b);
  }

  lemma PreviousCommTells(f: Func, b: nat, p: nat)
    ensures IsPrevious(CommBlocks(f), b, p) <==> CommunicatesBefore(f, b, p)
  {
    PreviousIsNearest(CommBlocks(f), b, p);
    forall c: nat ensures c in CommBlocks(f) <==> c < |f| && HasComm(f[c]) {
      CommListed(f, c);
    }
  }

  lemma PreviousRequestTells(f: Func, b: nat, p: nat)
    ensures IsPrevious(RequestBlocks(f), b, p) <==> RequestsBefore(f, b, p)
  {
    PreviousIsNearest(RequestBlocks(f), b, p);
    forall c: nat ensures c in RequestBlocks(f) <==> c < |f| && CallsRequest(f[c]) {
      RequestListed(f, c);
    }
  }

  lemma KeptTells(f: Func, deps: Digraph, m: BlkMeta, b: nat, p: nat)
    requires b < |f| && forall x: nat :: x in m.dependencies <==> x in Succ(deps, b)
    ensures Kept(f, deps, b, p) <==> !LeftOut(f, m, b, p)
  {
    CallSiteIsLast(f[b].ops);
    SitesMean(f, b, p);
  }

  lemma RecordTells(f: Func, deps: Digraph, order: seq<nat>, i: nat, m: BlkMeta)
    requires i < |order| && order[i] < |f| && Records(f, deps, order, i, m)
    ensures Tells(f, order, i, m)
  {
    var b := order[i];
    KeptAreListed(f, deps, b, f[b].preds);
    forall p: nat ensures Kept(f, deps, b, p) <==> !LeftOut(f, m, b, p) {
      KeptTells(f, deps, m, b, p);
    }
    forall p: nat ensures (m.prevComm == Some(p) <==> CommunicatesBefore(f, b, p)) && (m.prevEnt == Some(p) <==> RequestsBefore(f, b, p)) {
      PreviousCommTells(f, b, p);
      PreviousRequestTells(f, b, p);
    }
    if IsPureCfBridge(f[b]) {
      assert forall p: nat :: !LeftOut(f, m, b, p);
      if f[b].preds != [] {
        assert f[b].preds[0] in KeptOf(f, deps, b, f[b].preds);
      }
    }
  }

  lemma AllTell(f: Func, deps: Digraph, order: seq<nat>, metas: seq<BlkMeta>)
    requires |metas| == |order| && forall i :: 0 <= i < |order| ==> order[i] < |f| && Records(f, deps, order, i, metas[i])
    ensures forall i :: 0 <= i < |order| ==> Tells(f, order, i, metas[i])
  {
    forall i | 0 <= i < |order| ensures Tells(f, order, i, metas[i]) {
      RecordTells(f, deps, order, i, metas[i]);
    }
  }

  /** The record of one block. */
  method EmitRecord(f: Func, deps: Digraph, order: seq<nat>, i: nat) returns (m: BlkMeta)
    requires i < |order| && order[i] < |f|
    ensures Records(f, deps, order, i, m)
  {
    var b := order[i];
    var dataDeps := ListOf(Succ(deps, b));
    var preds := EmitPredecessors(f, deps, order, i);
    var prevComm := PreviousOf(CommBlocks(f), b);
    var prevEnt := PreviousOf(RequestBlocks(f), b);
    m := BlkMeta(b, preds, dataDeps, prevComm, prevEnt, []);
  }

  method EmitMeta(f: Func, deps: Digraph, order: seq<nat>) returns (metas: seq<BlkMeta>)
    requires forall i :: 0 <= i < |order| ==> order[i] < |f|
    ensures |metas| == |order|
    ensures forall i :: 0 <= i < |order| ==> Records(f, deps, order, i, metas[i])
    ensures forall i :: 0 <= i < |order| ==> Tells(f, order, i, metas[i])
  {
    metas := [];
    for i := 0 to |order|
      invariant |metas| == i
      invariant forall k :: 0 <= k < i ==> Records(f, deps, order, k, metas[k])
    {
      var m := EmitRecord(f, deps, order, i);
      metas := metas + [m];
    }
    AllTell(f, deps, order, metas);
  }

  ghost predicate IsPreviousMap(s: seq<nat>, prev: map<nat, nat>) {
    forall b: nat, p: nat :: b in prev && prev[b] == p <==> IsPrevious(s, b, p)
  }

  lemma EarlierInPlace(order: seq<nat>, metas: seq<BlkMeta>, i: nat, x: nat)
    requires Distinct(order) && |metas| == |order| && i < |order|
    requires forall k :: 0 <= k < |order| ==> metas[k].blockId == order[k]
    requires Before(order, x, order[i])
    ensures Declares(metas[..i], x)
  {
    var p, q :| 0 <= p < q < |order| && order[p] == x && order[q] == order[i];
    assert q == i && metas[..i][p].blockId == x;
  }

  lemma NamedBefore(f: Func, order: seq<nat>, deps: Digraph, prevComm: map<nat, nat>, prevEnt: map<nat, nat>, i: nat, m: BlkMeta, x: nat)
    requires Sound(f, order, deps, prevComm, prevEnt) && i < |order| && Records(f, deps, order, i, m)
    requires IsPreviousMap(CommBlocks(f), prevComm) && IsPreviousMap(RequestBlocks(f), prevEnt)
    requires x in m.predecessors || x in m.dependencies || m.prevComm == Some(x) || m.prevEnt == Some(x)
    ensures Before(order, x, order[i])
  {
    var b := order[i];
    if x in m.predecessors {
      KeptAreListed(f, deps, b, f[b].preds);
      if x in f[b].preds {
        assert x in Succ(PredGraph(f), b);
      } else {
        assert order[i - 1] == x && order[i] == b;
      }
    } else if x in m.dependencies {
      assert x in Succ(deps, b);
    } else if m.prevComm == Some(x) {
      assert x in Succ(PrevGraph(prevComm), b);
    } else {
      assert x in Succ(PrevGraph(prevEnt), b);
    }
  }

  /** A sound block list whose records say what the pass computed is accepted by the verifier. */
  lemma EmittedIsDeclared(f: Func, order: seq<nat>, deps: Digraph, prevComm: map<nat, nat>, prevEnt: map<nat, nat>, metas: seq<BlkMeta>)
    requires Sound(f, order, deps, prevComm, prevEnt)
    requires IsPreviousMap(CommBlocks(f), prevComm) && IsPreviousMap(RequestBlocks(f), prevEnt)
    requires |metas| == |order| && forall i :: 0 <= i < |order| ==> Records(f, deps, order, i, metas[i])
    ensures DeclaredBeforeUse(metas)
  {
    forall i, x | 0 <= i < |metas| && x in References(metas[i]) ensures Declares(metas[..i], x) {
      assert Records(f, deps, order, i, metas[i]);
      NamedBefore(f, order, deps, prevComm, prevEnt, i, metas[i], x);
      EarlierInPlace(order, metas, i, x);
    }
  }

  lemma SourceListIsSound(f: Func, order: seq<nat>, deps: Digraph, prevComm: map<nat, nat>, prevEnt: map<nat, nat>)
    requires SourceOrder(f) && |order| == |f| && forall i :: 0 <= i < |f| ==> order[i] == i
    requires ForBlocks(f, deps) && forall b: nat, x: nat :: b < |f| && x in deps[b] ==> DataDep(f, b, x) || MemoryDep(f, b, x)
    requires IsPreviousMap(CommBlocks(f), prevComm) && IsPreviousMap(RequestBlocks(f), prevEnt)
    ensures Sound(f, order, deps, prevComm, prevEnt)
  {
    assert Lists(order, |f|) by {
      forall b: nat | b < |f| ensures b in order { assert order[b] == b; }
    }
    forall must: Digraph | must in {deps, PredGraph(f), PrevGraph(prevComm), PrevGraph(prevEnt)} ensures Respects(order, must) {
      forall b: nat, x: nat {:trigger x in Succ(must, b)} | b in order && x in Succ(must, b) ensures Before(order, x, b) {
        assert x < b by {
          if must == deps {
          } else if must == PredGraph(f) {
            var i :| 0 <= i < |f[b].preds| && f[b].preds[i] == x;
          } else if must == PrevGraph(prevComm) {
            assert IsPrevious(CommBlocks(f), b, x);
          } else {
            assert IsPrevious(RequestBlocks(f), b, x);
          }
        }
        assert order[x] == x && order[b] == b;
      }
    }
  }

  /** A block list with the dependencies found so far. */
  datatype Stage = Stage(order: seq<nat>, deps: Digraph)

  /** What the turn of block `c` does. A block that ends in a conditional branch has its floaters tied, moved and settled;
      any other leaves everything as it is. */
  ghost predicate Turn(f: Func, c: nat, online: bool, prevComm: map<nat, nat>, prevEnt: map<nat, nat>, before: Stage, after: Stage)
    requires c < |f|
  {
    var ops := f[c].ops;
    if ops != [] && ops[|ops| - 1].kind == CondBranch then
      && Tied(f, c, online, before.deps, after.deps) && OnlyMoved(f, c, online, before.order, after.order, after.deps)
      && AllSettled(f, c, online, after.order, after.deps, prevComm, prevEnt)
    else after == before
  }

  /** The list and dependencies before and after each of the first `n` turns. */
  ghost predicate Stages(f: Func, n: nat, online: bool, prevComm: map<nat, nat>, prevEnt: map<nat, nat>, stages: seq<Stage>) {
    && n <= |f| && |stages| == n + 1
    && (forall c :: 0 <= c <= n ==> Sound(f, stages[c].order, stages[c].deps, prevComm, prevEnt))
    && (forall c :: 0 <= c < n ==> Turn(f, c, online, prevComm, prevEnt, stages[c], stages[c + 1]))
  }

  lemma NextStage(f: Func, n: nat, online: bool, prevComm: map<nat, nat>, prevEnt: map<nat, nat>, stages: seq<Stage>, next: Stage)
    requires n < |f| && Stages(f, n, online, prevComm, prevEnt, stages)
    requires Sound(f, next.order, next.deps, prevComm, prevEnt) && Turn(f, n, online, prevComm, prevEnt, stages[n], next)
    ensures Stages(f, n + 1, online, prevComm, prevEnt, stages + [next])
  {
    var more := stages + [next];
    forall c | 0 <= c < n + 1 ensures Turn(f, c, online, prevComm, prevEnt, more[c], more[c + 1]) {
      if c < n {
        assert more[c] == stages[c] && more[c + 1] == stages[c + 1];
      }
    }
  }

  /** Dependencies only grow from turn to turn. */
  lemma {:induction false} StagesGrow(f: Func, n: nat, online: bool, prevComm: map<nat, nat>, prevEnt: map<nat, nat>, stages: seq<Stage>, c: nat, d: nat)
    requires Stages(f, n, online, prevComm, prevEnt, stages) && c <= d <= n
    ensures Extends(stages[d].deps, stages[c].deps)
    decreases d
  {
    if c < d {
      StagesGrow(f, n, online, prevComm, prevEnt, stages, c, d - 1);
      assert Turn(f, d - 1, online, prevComm, prevEnt, stages[d - 1], stages[d]);
      assert Extends(stages[d].deps, stages[d - 1].deps) by {
        forall b: nat ensures Succ(stages[d - 1].deps, b) <= Succ(stages[d].deps, b) {
        }
      }
      ExtendsTrans(stages[c].deps, stages[d - 1].deps, stages[d].deps);
    }
  }

  /** Runs the floater loop for every conditional branch block, in the incoming order. */
  method PropagateAllFloaters(f: Func, order0: seq<nat>, deps0: Digraph, prevComm: map<nat, nat>, prevEnt: map<nat, nat>, online: bool)
    returns (order: seq<nat>, deps: Digraph, ghost stages: seq<Stage>)
    requires Sound(f, order0, deps0, prevComm, prevEnt)
    ensures Sound(f, order, deps, prevComm, prevEnt)
    ensures Stages(f, |f|, online, prevComm, prevEnt, stages)
    ensures stages[0] == Stage(order0, deps0) && stages[|f|] == Stage(order, deps)
  {
    order, deps := order0, deps0;
    stages := [Stage(order, deps)];
    for c := 0 to |f|
      invariant Stages(f, c, online, prevComm, prevEnt, stages)
      invariant stages[0] == Stage(order0, deps0) && stages[c] == Stage(order, deps)
    {
      if EndsInCondBranch(f[c]) {
        order, deps := PropagateFloaters(f, c, order, deps, prevComm, prevEnt, online);
      }
      NextStage(f, c, online, prevComm, prevEnt, stages, Stage(order, deps));
      stages := stages + [Stage(order, deps)];
    }
  }

  lemma IndexOf(order: seq<nat>) returns (pos: map<nat, nat>)
    requires Distinct(order)
    ensures IsIndex(pos, order)
  {
    pos := map i | 0 <= i < |order| :: order[i] := i;
  }

  /** The dependencies at merge points: those of the program, those handed to predecessors, and no others. */
  ghost predicate Merged(f: Func, deps: Digraph) {
    && ForBlocks(f, deps)
    && (forall b: nat, x: nat :: DataDep(f, b, x) || MemoryDep(f, b, x) ==> x in Succ(deps, b))
    && (forall m: nat, p: nat, x: nat :: m < |f| && p in f[m].preds && x < p && (DataDep(f, m, x) || MemoryDep(f, m, x)) ==> x in Succ(deps, p))
    && (forall b: nat, x: nat :: x in Succ(deps, b) ==> DataDep(f, b, x) || MemoryDep(f, b, x) || FromMerge(f, deps, b, x))
  }

  lemma MergedIs(f: Func, order: seq<nat>, needed: Digraph, deps: Digraph)
    requires |order| == |f| && (forall i :: 0 <= i < |f| ==> order[i] == i) && ForBlocks(f, needed) && ForBlocks(f, deps)
    requires forall b: nat, x: nat :: b < |f| ==> (x in needed[b] <==> DataDep(f, b, x) || MemoryDep(f, b, x))
    requires forall b, i :: 0 <= b < |f| && 0 <= i < |f[b].preds| ==> f[b].preds[i] < |f|
    requires Extends(deps, needed) && OnlyFromMerges(f, needed, deps)
    requires forall m: nat, p: nat, d: nat :: m < |f| && p in f[m].preds && d in needed[m] && Before(order, d, p) ==> d in deps[p]
    ensures Merged(f, deps)
  {
    forall b: nat, x: nat | DataDep(f, b, x) || MemoryDep(f, b, x) ensures x in Succ(deps, b) {
      assert x in Succ(needed, b) && Succ(needed, b) <= Succ(deps, b);
    }
    forall m: nat, p: nat, x: nat | m < |f| && p in f[m].preds && x < p && (DataDep(f, m, x) || MemoryDep(f, m, x)) ensures x in Succ(deps, p) {
      assert p < |f| && order[x] == x && order[p] == p;
      assert x in needed[m] && Before(order, x, p);
    }
    forall b: nat, x: nat | x in Succ(deps, b) ensures DataDep(f, b, x) || MemoryDep(f, b, x) || FromMerge(f, deps, b, x) {
      if x in Succ(needed, b) {
        assert x in needed[b];
      }
    }
  }

  /** Everything up to the reduction: the first stage is the program order with the dependencies at merge points, and the
      last one is the result. */
  method BuildGraph(f: Func, prevComm: map<nat, nat>, prevEnt: map<nat, nat>, online: bool)
    returns (order: seq<nat>, deps: Digraph, ghost stages: seq<Stage>)
    requires SourceOrder(f)
    requires IsPreviousMap(CommBlocks(f), prevComm) && IsPreviousMap(RequestBlocks(f), prevEnt)
    ensures Sound(f, order, deps, prevComm, prevEnt)
    ensures Stages(f, |f|, online, prevComm, prevEnt, stages) && stages[|f|] == Stage(order, deps)
    ensures |stages[0].order| == |f| && (forall i :: 0 <= i < |f| ==> stages[0].order[i] == i) && Merged(f, stages[0].deps)
  {
    order := seq(|f|, i requires 0 <= i < |f| => i);
    deps := DataDependencies(f);
    deps := ResolveMemorySideEffects(f, deps);
    ghost var needed := deps;
    SourceListIsSound(f, order, deps, prevComm, prevEnt);
    deps := PropagateAtMerges(f, order, deps);
    MergedIs(f, order, needed, deps);
    order, deps, stages := PropagateAllFloaters(f, order, deps, prevComm, prevEnt, online);
  }

  lemma StageIsAcyclic(f: Func, order: seq<nat>, deps: Digraph, prevComm: map<nat, nat>, prevEnt: map<nat, nat>)
    requires Sound(f, order, deps, prevComm, prevEnt)
    ensures Acyclic(deps)
  {
    var pos := IndexOf(order);
    RespectedIsAcyclic(order, pos, deps);
  }

  lemma FewerRespected(order: seq<nat>, full: Digraph, deps: Digraph)
    requires Respects(order, full) && (forall b: nat :: Succ(deps, b) <= Succ(full, b)) && forall b :: b in deps <==> b in full
    ensures Respects(order, deps)
  {
    forall b: nat, x: nat {:trigger x in Succ(deps, b)} | b in order && x in Succ(deps, b) ensures Before(order, x, b) {
      assert x in Succ(full, b);
    }
  }

  lemma PreviousMapsTell(f: Func, prevComm: map<nat, nat>, prevEnt: map<nat, nat>)
    requires IsPreviousMap(CommBlocks(f), prevComm) && IsPreviousMap(RequestBlocks(f), prevEnt)
    ensures forall b: nat, p: nat :: b in prevComm && prevComm[b] == p <==> CommunicatesBefore(f, b, p)
    ensures forall b: nat, p: nat :: b in prevEnt && prevEnt[b] == p <==> RequestsBefore(f, b, p)
  {
    forall b: nat, p: nat ensures b in prevComm && prevComm[b] == p <==> CommunicatesBefore(f, b, p) {
      PreviousCommTells(f, b, p);
    }
    forall b: nat, p: nat ensures b in prevEnt && prevEnt[b] == p <==> RequestsBefore(f, b, p) {
      PreviousRequestTells(f, b, p);
    }
  }

  lemma ProgramIsReached(f: Func, online: bool, prevComm: map<nat, nat>, prevEnt: map<nat, nat>, stages: seq<Stage>, deps: Digraph)
    requires Stages(f, |f|, online, prevComm, prevEnt, stages) && Merged(f, stages[0].deps) && SameReach(stages[|f|].deps, deps)
    ensures forall b: nat, x: nat :: DataDep(f, b, x) || MemoryDep(f, b, x) ==> Reach(deps, b, x)
  {
    StagesGrow(f, |f|, online, prevComm, prevEnt, stages, 0, |f|);
    var full := stages[|f|].deps;
    forall b: nat, x: nat | DataDep(f, b, x) || MemoryDep(f, b, x) ensures Reach(deps, b, x) {
      assert x in Succ(stages[0].deps, b) && Succ(stages[0].deps, b) <= Succ(full, b);
      ReachEdge(full, b, x);
    }
  }

  /** The pass. If the incoming list places every data, memory and control-flow predecessor earlier, then the final
      list is a permutation of the blocks whose records the verifier accepts. The dependencies of the program are handed
      on at merge points, then every conditional branch block has its turn, and the recorded dependencies reach exactly
      what the ones found so reach, without shortcuts. */
  method Run(f: Func, online: bool)
    returns (order: seq<nat>, deps: Digraph, metas: seq<BlkMeta>, ghost prevComm: map<nat, nat>, ghost prevEnt: map<nat, nat>, ghost stages: seq<Stage>)
    requires SourceOrder(f)
    ensures Lists(order, |f|)
    ensures |metas| == |order| && forall i :: 0 <= i < |order| ==> Records(f, deps, order, i, metas[i])
    ensures forall i :: 0 <= i < |order| ==> Tells(f, order, i, metas[i])
    ensures DeclaredBeforeUse(metas)
    ensures forall b: nat, p: nat :: b in prevComm && prevComm[b] == p <==> CommunicatesBefore(f, b, p)
    ensures forall b: nat, p: nat :: b in prevEnt && prevEnt[b] == p <==> RequestsBefore(f, b, p)
    ensures Stages(f, |f|, online, prevComm, prevEnt, stages) && stages[|f|].order == order
    ensures |stages[0].order| == |f| && (forall i :: 0 <= i < |f| ==> stages[0].order[i] == i) && Merged(f, stages[0].deps)
    ensures SameReach(stages[|f|].deps, deps) && forall b: nat :: Succ(deps, b) <= Succ(stages[|f|].deps, b) && Unshortened(deps, b)
    ensures forall b: nat, x: nat :: DataDep(f, b, x) || MemoryDep(f, b, x) ==> Reach(deps, b, x)
  {
    var comm := PreviousMap(CommBlocks(f));
    var ent := PreviousMap(RequestBlocks(f));
    prevComm, prevEnt := comm, ent;
    order, deps, stages := BuildGraph(f, comm, ent, online);
    StageIsAcyclic(f, order, deps, prevComm, prevEnt);
    ghost var full := deps;
    deps := TransitiveReduction(deps);
    FewerRespected(order, full, deps);
    metas := EmitMeta(f, deps, order);
    EmittedIsDeclared(f, order, deps, prevComm, prevEnt, metas);
    PreviousMapsTell(f, prevComm, prevEnt);
    ProgramIsReached(f, online, prevComm, prevEnt, stages, deps);
  }
}
