/** Block precedences of the host main function: collecting dependencies, propagating them at merge points
    and branches, moving floaters, reducing the graph and emitting the `blk_meta` records. */
module Precedences {
  import opened Wrappers
  import opened Graph
  import opened BlockOrder

  /** A memory effect of a called routine, on the caller's value it resolves to. */
  datatype Effect = Effect(buffer: nat, isWrite: bool)

  /** `position` is the place of the routine in the module. */
  datatype Callee = Callee(position: nat, isRequest: bool, effects: seq<Effect>)

  datatype OpKind = Branch | CondBranch | Comm | Call(callee: Callee) | Plain

  /** An operation with, per operand, the block of its producer (none for a block argument). */
  datatype Op = Op(kind: OpKind, producers: seq<Option<nat>>)

  /** A block with its control-flow predecessors. A block is named by its place in the incoming list. */
  datatype Block = Block(ops: seq<Op>, preds: seq<nat>)

  type Func = seq<Block>

  predicate EndsInCondBranch(b: Block) {
    |b.ops| > 0 && b.ops[|b.ops| - 1].kind.CondBranch?
  }

  /** Nothing but a branch. */
  predicate IsPureCfBridge(b: Block) {
    |b.ops| == 1 && (b.ops[0].kind.Branch? || b.ops[0].kind.CondBranch?)
  }

  predicate HasComm(b: Block) {
    exists i :: 0 <= i < |b.ops| && b.ops[i].kind.Comm?
  }

  predicate CallsRequest(b: Block) {
    exists i :: 0 <= i < |b.ops| && b.ops[i].kind.Call? && b.ops[i].kind.callee.isRequest
  }

  /** The call whose effects a block is remembered for: a later call of the block replaces an earlier one. */
  function CallSite(ops: seq<Op>): Option<Callee> {
    if ops == [] then None
    else if ops[|ops| - 1].kind.Call? then Some(ops[|ops| - 1].kind.callee)
    else CallSite(ops[..|ops| - 1])
  }

  /** The last call among the operations is to `callee`. */
  ghost predicate CallsLast(ops: seq<Op>, callee: Callee) {
    exists k :: 0 <= k < |ops| && ops[k].kind == Call(callee) && forall l :: k < l < |ops| ==> !ops[l].kind.Call?
  }

  lemma {:induction false} CallSiteIsLast(ops: seq<Op>)
    ensures forall callee: Callee :: CallSite(ops) == Some(callee) <==> CallsLast(ops, callee)
    ensures CallSite(ops).None? <==> forall k :: 0 <= k < |ops| ==> !ops[k].kind.Call?
  {
    if ops != [] {
      var n := |ops| - 1;
      CallSiteIsLast(ops[..n]);
      if !ops[n].kind.Call? {
        forall callee: Callee ensures CallsLast(ops, callee) <==> CallsLast(ops[..n], callee) {
          if CallsLast(ops[..n], callee) {
            var k :| 0 <= k < n && ops[..n][k].kind == Call(callee) && forall l :: k < l < n ==> !ops[..n][l].kind.Call?;
            assert ops[k].kind == Call(callee) && forall l :: k < l < n ==> ops[l] == ops[..n][l];
          }
          if CallsLast(ops, callee) {
            var k :| 0 <= k < |ops| && ops[k].kind == Call(callee) && forall l :: k < l < |ops| ==> !ops[l].kind.Call?;
            assert ops[..n][k].kind == Call(callee);
          }
        }
        forall k | 0 <= k < n ensures ops[k] == ops[..n][k] {
        }
      } else {
        assert CallsLast(ops, ops[n].kind.callee);
      }
    }
  }

  function OpsOf(ops: seq<Op>, want: Op -> bool, b: nat): (s: seq<nat>)
    ensures forall i :: 0 <= i < |s| ==> s[i] == b
    ensures s != [] <==> exists k :: 0 <= k < |ops| && want(ops[k])
  {
    if ops == [] then []
    else (if want(ops[0]) then [b] else []) + OpsOf(ops[1..], want, b)
  }

  /** The block of every wanted operation, in program order. */
  function BlocksOf(f: Func, want: Op -> bool): (s: seq<nat>)
    ensures forall i :: 0 <= i < |s| ==> s[i] < |f|
    ensures forall i, j :: 0 <= i <= j < |s| ==> s[i] <= s[j]
  {
    if f == [] then []
    else BlocksOf(f[..|f| - 1], want) + OpsOf(f[|f| - 1].ops, want, |f| - 1)
  }

  ghost predicate HasOp(f: Func, want: Op -> bool, b: nat) {
    b < |f| && exists k :: 0 <= k < |f[b].ops| && want(f[b].ops[k])
  }

  /** Exactly the blocks with a wanted operation are listed. */
  lemma {:induction false} BlocksListed(f: Func, want: Op -> bool, b: nat)
    ensures b in BlocksOf(f, want) <==> HasOp(f, want, b)
  {
    if f != [] {
      var n: nat := |f| - 1;
      BlocksListed(f[..n], want, b);
      var more := OpsOf(f[n].ops, want, n);
      if b == n {
        assert b !in BlocksOf(f[..n], want);
        assert more != [] ==> more[0] == n;
      } else if b < n {
        assert f[..n][b] == f[b];
        assert HasOp(f[..n], want, b) <==> HasOp(f, want, b);
      }
    }
  }

  function CommBlocks(f: Func): seq<nat> {
    BlocksOf(f, (o: Op) => o.kind.Comm?)
  }

  function RequestBlocks(f: Func): seq<nat> {
    BlocksOf(f, (o: Op) => o.kind.Call? && o.kind.callee.isRequest)
  }

  // ---------- what must come before what ----------

  /** Block `b` uses a value made in block `p`, or communicates and so needs the remote references of block 0. */
  ghost predicate DataDep(f: Func, b: nat, p: nat) {
    b < |f| &&
    ((p != b && exists i :: 0 <= i < |f[b].ops| && Some(p) in f[b].ops[i].producers)
     || (p == 0 && HasComm(f[b])))
  }

  /** Both routines touch one buffer, and one of them writes it. */
  ghost predicate ShareWritten(x: Callee, y: Callee) {
    exists e, g :: e in x.effects && g in y.effects && e.buffer == g.buffer && (e.isWrite || g.isWrite)
  }

  /** The routines last called by `a` and `b` share a written buffer, and `a`'s is the earlier routine of the module. */
  ghost predicate MemoryDep(f: Func, b: nat, a: nat) {
    a != b && a < |f| && b < |f|
    && exists x, y :: CallsLast(f[a].ops, x) && CallsLast(f[b].ops, y) && ShareWritten(x, y) && x.position < y.position
  }

  predicate Clash(a: Effect, b: Effect) {
    a.buffer == b.buffer && (a.isWrite || b.isWrite)
  }

  predicate Conflicting(a: Callee, b: Callee) {
    exists i, j :: 0 <= i < |a.effects| && 0 <= j < |b.effects| && Clash(a.effects[i], b.effects[j])
  }

  predicate Conflict(f: Func, a: nat, b: nat) {
    a < |f| && b < |f| && CallSite(f[a].ops).Some? && CallSite(f[b].ops).Some?
    && Conflicting(CallSite(f[a].ops).value, CallSite(f[b].ops).value)
  }

  lemma ConflictingIsShared(x: Callee, y: Callee)
    ensures Conflicting(x, y) <==> ShareWritten(x, y)
  {
    if ShareWritten(x, y) {
      var e, g :| e in x.effects && g in y.effects && e.buffer == g.buffer && (e.isWrite || g.isWrite);
      var i :| 0 <= i < |x.effects| && x.effects[i] == e;
      var j :| 0 <= j < |y.effects| && y.effects[j] == g;
      assert Clash(x.effects[i], y.effects[j]);
    }
  }

  /** What the code compares for two call sites is the memory dependency. */
  lemma SitesMean(f: Func, b: nat, a: nat)
    ensures Conflict(f, a, b) <==>
              a < |f| && b < |f| && exists x, y :: CallsLast(f[a].ops, x) && CallsLast(f[b].ops, y) && ShareWritten(x, y)
    ensures MemoryDep(f, b, a) <==>
              a != b && Conflict(f, a, b) && CallSite(f[a].ops).value.position < CallSite(f[b].ops).value.position
  {
    if a < |f| && b < |f| {
      CallSiteIsLast(f[a].ops);
      CallSiteIsLast(f[b].ops);
      if CallSite(f[a].ops).Some? && CallSite(f[b].ops).Some? {
        ConflictingIsShared(CallSite(f[a].ops).value, CallSite(f[b].ops).value);
      }
    }
  }

  /** The incoming block list places every data, memory and control-flow predecessor earlier. */
  ghost predicate SourceOrder(f: Func) {
    && |f| > 0
    && (forall b: nat, p: nat :: DataDep(f, b, p) ==> p < b)
    && (forall b: nat, a: nat :: MemoryDep(f, b, a) ==> a < b)
    && (forall b, i :: 0 <= b < |f| && 0 <= i < |f[b].preds| ==> f[b].preds[i] < b)
  }

  function PredGraph(f: Func): Digraph {
    map b: nat | b < |f| :: set p | p in f[b].preds
  }

  function PrevGraph(prev: map<nat, nat>): Digraph {
    map b | b in prev :: {prev[b]}
  }

  ghost predicate ForBlocks(f: Func, deps: Digraph) {
    forall b: nat :: b in deps <==> b < |f|
  }

  /** The block list is a permutation of the blocks and honours every kind of precedence. */
  ghost predicate Sound(f: Func, order: seq<nat>, deps: Digraph, prevComm: map<nat, nat>, prevEnt: map<nat, nat>) {
    && Lists(order, |f|)
    && ForBlocks(f, deps)
    && Respects(order, deps) && Respects(order, PredGraph(f))
    && Respects(order, PrevGraph(prevComm)) && Respects(order, PrevGraph(prevEnt))
  }

  // ---------- collecting ----------

  method DataDependencies(f: Func) returns (deps: Digraph)
    ensures ForBlocks(f, deps)
    ensures forall b: nat, p: nat :: b < |f| ==> (p in deps[b] <==> DataDep(f, b, p))
  {
    deps := map[];
    for b := 0 to |f|
      invariant forall c: nat :: c in deps <==> c < b
      invariant forall c: nat, p: nat :: c < b ==> (p in deps[c] <==> DataDep(f, c, p))
    {
      var ops := f[b].ops;
      var found: set<nat> := {};
      for i := 0 to |ops|
        invariant forall p: nat :: p in found <==>
                                   || (p != b && exists k :: 0 <= k < i && Some(p) in ops[k].producers)
                                   || (p == 0 && exists k :: 0 <= k < i && ops[k].kind.Comm?)
      {
        var made := set o | o in ops[i].producers && o.Some? && o.value != b :: o.value;
        var front := if ops[i].kind.Comm? then {0} else {};
        found := found + made + front;
      }
      deps := deps[b := found];
    }
  }

  /** Orders the callers of conflicting routines as their routines are ordered in the module. */
  method ResolveMemorySideEffects(f: Func, deps0: Digraph) returns (deps: Digraph)
    requires ForBlocks(f, deps0)
    ensures ForBlocks(f, deps)
    ensures forall b: nat, a: nat :: b < |f| ==> (a in deps[b] <==> a in deps0[b] || MemoryDep(f, b, a))
  {
    deps := deps0;
    for a := 0 to |f|
      invariant ForBlocks(f, deps)
      invariant forall b: nat, x: nat :: b < |f| ==> (x in deps[b] <==> x in deps0[b] || (x < a && MemoryDep(f, b, x)))
    {
      var siteA := CallSite(f[a].ops);
      for b := 0 to |f|
        invariant ForBlocks(f, deps)
        invariant forall c: nat, x: nat :: c < |f| ==>
          (x in deps[c] <==> x in deps0[c] || ((x < a || (x == a && c < b)) && MemoryDep(f, c, x)))
      {
        var siteB := CallSite(f[b].ops);
        SitesMean(f, b, a);
        if a != b && siteA.Some? && siteB.Some? {
          var conflict := false;
          for i := 0 to |siteA.value.effects|
            invariant conflict <==> exists p, q :: 0 <= p < i && 0 <= q < |siteB.value.effects| && Clash(siteA.value.effects[p], siteB.value.effects[q])
          {
            for j := 0 to |siteB.value.effects|
              invariant conflict <==>
                        || (exists p, q :: 0 <= p < i && 0 <= q < |siteB.value.effects| && Clash(siteA.value.effects[p], siteB.value.effects[q]))
                        || (exists q :: 0 <= q < j && Clash(siteA.value.effects[i], siteB.value.effects[q]))
            {
              if Clash(siteA.value.effects[i], siteB.value.effects[j]) {
                conflict := true;
              }
            }
          }
          if conflict && siteA.value.position < siteB.value.position {
            deps := deps[b := deps[b] + {a}];
          }
        }
      }
    }
  }

  ghost predicate Sorted(s: seq<nat>) {
    forall i, j :: 0 <= i <= j < |s| ==> s[i] <= s[j]
  }

  /** Among the first `n` operations, block `p` holds the one listed just before one of `b`. */
  ghost predicate PreviousWithin(s: seq<nat>, n: nat, b: nat, p: nat) {
    exists i :: 1 <= i < n && i < |s| && s[i] == b && s[i - 1] == p && p != b
  }

  /** Block `p` holds the operation listed just before the first one of `b`. */
  ghost predicate IsPrevious(s: seq<nat>, b: nat, p: nat) {
    PreviousWithin(s, |s|, b, p)
  }

  /** In program order that is the nearest earlier block of the list, and `b` is in the list too. */
  lemma PreviousIsNearest(s: seq<nat>, b: nat, p: nat)
    requires Sorted(s)
    ensures IsPrevious(s, b, p) <==> p < b && p in s && b in s && forall q :: p < q < b ==> q !in s
  {
    if p < b && p in s && b in s && forall q :: p < q < b ==> q !in s {
      var j :| 0 <= j < |s| && s[j] == p;
      var i :| 0 <= i < |s| && s[i] == b;
      while s[i - 1] == b
        invariant j < i < |s| && s[i] == b
        decreases i
      {
        i := i - 1;
      }
      assert s[j] <= s[i - 1] <= s[i] && s[i - 1] in s;
      assert 1 <= i < |s|;
    }
  }

  lemma PreviousGrows(s: seq<nat>, i: nat)
    requires Sorted(s) && 1 <= i < |s|
    ensures forall b: nat, p: nat {:trigger PreviousWithin(s, i + 1, b, p)} ::
              PreviousWithin(s, i + 1, b, p) <==> PreviousWithin(s, i, b, p) || (s[i] == b && s[i - 1] == p && p != b)
    ensures s[i - 1] != s[i] ==> forall p: nat :: !PreviousWithin(s, i, s[i], p)
  {
    forall b: nat, p: nat ensures PreviousWithin(s, i + 1, b, p) <==> PreviousWithin(s, i, b, p) || (s[i] == b && s[i - 1] == p && p != b) {
      if PreviousWithin(s, i + 1, b, p) {
        var k :| 1 <= k < i + 1 && k < |s| && s[k] == b && s[k - 1] == p && p != b;
      }
    }
    assert forall k :: 1 <= k < i ==> s[k] <= s[i - 1] <= s[i];
  }

  method PreviousMap(s: seq<nat>) returns (prev: map<nat, nat>)
    requires Sorted(s)
    ensures forall b: nat, p: nat :: b in prev && prev[b] == p <==> IsPrevious(s, b, p)
  {
    prev := map[];
    var i := 1;
    while i < |s|
      invariant 1 <= i
      invariant forall b: nat :: b in prev ==> PreviousWithin(s, i, b, prev[b])
      invariant forall b: nat, p: nat :: PreviousWithin(s, i, b, p) ==> b in prev && prev[b] == p
    {
      PreviousGrows(s, i);
      if s[i - 1] != s[i] && s[i] !in prev {
        prev := prev[s[i] := s[i - 1]];
      }
      i := i + 1;
    }
    forall b: nat, p: nat ensures PreviousWithin(s, i, b, p) <==> IsPrevious(s, b, p) {
    }
  }

  /** What the emission looks up: only the first later operation of the block is considered. */
  method PreviousOf(s: seq<nat>, b: nat) returns (prev: Option<nat>)
    requires Sorted(s)
    ensures forall p: nat :: prev == Some(p) <==> IsPrevious(s, b, p)
  {
    var i := 1;
    while i < |s|
      invariant 1 <= i
      invariant forall k :: 1 <= k < i && k < |s| ==> s[k] != b
    {
      if s[i] == b {
        return if s[i - 1] != b then Some(s[i - 1]) else None;
      }
      i := i + 1;
    }
    return None;
  }

  /** Every edge leads to a block at a smaller position. */
  ghost predicate Ranked(deps: Digraph, pos: map<nat, nat>) {
    forall b: nat, d: nat {:trigger d in Succ(deps, b)} :: d in Succ(deps, b) ==> b in pos && d in pos && pos[d] < pos[b]
  }

  lemma RankedIffRespects(order: seq<nat>, pos: map<nat, nat>, deps: Digraph)
    requires IsIndex(pos, order) && forall b :: b in deps ==> b in pos
    ensures Ranked(deps, pos) <==> Respects(order, deps)
  {
    forall b: nat, d: nat {:trigger d in Succ(deps, b)} | d in Succ(deps, b)
      ensures (b in pos && d in pos && pos[d] < pos[b]) <==> Before(order, d, b)
    {
      BeforeByIndex(order, pos, d, b);
    }
    assert forall b :: b in deps ==> b in order;
  }

  lemma GrowSucc(deps: Digraph, p: nat, extra: set<nat>)
    requires p in deps
    ensures forall b: nat {:trigger Succ(deps[p := deps[p] + extra], b)} ::
              Succ(deps[p := deps[p] + extra], b) == Succ(deps, b) + (if b == p then extra else {})
  {
  }

  /** Each predecessor of `m` has the given dependencies of `m` that stand before it. */
  ghost predicate Handed(f: Func, pos: map<nat, nat>, given: Digraph, deps: Digraph, m: nat)
    requires m < |f|
  {
    forall p: nat, d: nat :: p in f[m].preds && d in Succ(given, m) && p in pos && d in pos && pos[d] < pos[p] ==> d in Succ(deps, p)
  }

  /** Block `d` is a dependency of a block that `p` precedes. */
  ghost predicate FromMerge(f: Func, deps: Digraph, p: nat, d: nat) {
    exists m: nat :: m < |f| && p in f[m].preds && d in Succ(deps, m)
  }

  ghost predicate OnlyFromMerges(f: Func, deps0: Digraph, deps: Digraph) {
    forall p: nat, d: nat {:trigger d in Succ(deps, p)} :: d in Succ(deps, p) && d !in Succ(deps0, p) ==> FromMerge(f, deps, p, d)
  }

  ghost predicate Extends(deps: Digraph, deps0: Digraph) {
    forall b: nat :: Succ(deps0, b) <= Succ(deps, b)
  }

  /** Hands the dependencies of block `m` to those of its predecessors that stand after them. */
  method PushToPredecessors(f: Func, pos: map<nat, nat>, deps0: Digraph, m: nat) returns (deps: Digraph)
    requires ForBlocks(f, deps0) && Ranked(deps0, pos) && m < |f|
    requires forall b: nat :: b in pos <==> b < |f|
    requires forall p: nat :: p in f[m].preds ==> p < |f|
    ensures ForBlocks(f, deps) && Ranked(deps, pos) && Extends(deps, deps0)
    ensures Handed(f, pos, deps0, deps, m)
    ensures forall p: nat, d: nat {:trigger d in Succ(deps, p)} :: d in Succ(deps, p) && d !in Succ(deps0, p) ==> p in f[m].preds && d in deps0[m]
  {
    deps := deps0;
    var preds := f[m].preds;
    for i := 0 to |preds|
      invariant ForBlocks(f, deps) && Ranked(deps, pos) && Extends(deps, deps0)
      invariant deps[m] == deps0[m]
      invariant forall j, d: nat :: 0 <= j < i && d in deps0[m] && d in pos && preds[j] in pos && pos[d] < pos[preds[j]] ==> d in Succ(deps, preds[j])
      invariant forall p: nat, d: nat {:trigger d in Succ(deps, p)} :: d in Succ(deps, p) && d !in Succ(deps0, p) ==> p in preds && d in deps0[m]
    {
      var p := preds[i];
      assert p in f[m].preds;
      assert forall d :: d in deps[m] ==> d in Succ(deps, m);
      var added := set d | d in deps[m] && d != p && pos[d] < pos[p];
      GrowSucc(deps, p, added);
      deps := deps[p := deps[p] + added];
    }
  }

  lemma ExtendsTrans(a: Digraph, b: Digraph, c: Digraph)
    requires Extends(b, a) && Extends(c, b)
    ensures Extends(c, a)
  {
    forall x: nat ensures Succ(a, x) <= Succ(c, x) {
      assert Succ(a, x) <= Succ(b, x) <= Succ(c, x);
    }
  }

  /** Handing on is kept when fewer dependencies are given or more are held. */
  lemma HandedGrows(f: Func, pos: map<nat, nat>, given: Digraph, given': Digraph, deps: Digraph, deps': Digraph, m: nat)
    requires m < |f| && Handed(f, pos, given, deps, m)
    requires Extends(given, given') && Extends(deps', deps)
    ensures Handed(f, pos, given', deps', m)
  {
    assert Succ(given', m) <= Succ(given, m);
    forall p: nat, d: nat | p in f[m].preds && d in Succ(given', m) && p in pos && d in pos && pos[d] < pos[p]
      ensures d in Succ(deps', p)
    {
      assert d in Succ(deps, p) && Succ(deps, p) <= Succ(deps', p);
    }
  }

  lemma FromMergesGrow(f: Func, deps0: Digraph, before: Digraph, deps: Digraph, m: nat)
    requires m < |f| && Extends(deps, before) && OnlyFromMerges(f, deps0, before)
    requires forall p: nat, d: nat {:trigger d in Succ(deps, p)} :: d in Succ(deps, p) && d !in Succ(before, p) ==> p in f[m].preds && d in Succ(before, m)
    ensures OnlyFromMerges(f, deps0, deps)
  {
    forall p: nat, d: nat | d in Succ(deps, p) && d !in Succ(deps0, p) ensures FromMerge(f, deps, p, d) {
      if d in Succ(before, p) {
        assert FromMerge(f, before, p, d);
        var n: nat :| n < |f| && p in f[n].preds && d in Succ(before, n);
        assert Succ(before, n) <= Succ(deps, n);
      } else {
        assert Succ(before, m) <= Succ(deps, m);
      }
    }
  }

  /** The blocks handled so far have handed their first dependencies on, and all that is new comes from a merge. */
  ghost predicate HandedSoFar(f: Func, order: seq<nat>, pos: map<nat, nat>, deps0: Digraph, deps: Digraph, k: nat)
    requires k <= |order| && forall l :: 0 <= l < |order| ==> order[l] < |f|
  {
    Extends(deps, deps0) && OnlyFromMerges(f, deps0, deps) && forall l :: 0 <= l < k ==> Handed(f, pos, deps0, deps, order[l])
  }

  lemma HandedOneMore(f: Func, order: seq<nat>, pos: map<nat, nat>, deps0: Digraph, before: Digraph, deps: Digraph, k: nat)
    requires k < |order| && forall l :: 0 <= l < |order| ==> order[l] < |f|
    requires HandedSoFar(f, order, pos, deps0, before, k) && Extends(deps, before) && Handed(f, pos, before, deps, order[k])
    requires forall p: nat, d: nat {:trigger d in Succ(deps, p)} ::
               d in Succ(deps, p) && d !in Succ(before, p) ==> p in f[order[k]].preds && d in Succ(before, order[k])
    ensures HandedSoFar(f, order, pos, deps0, deps, k + 1)
  {
    ExtendsTrans(deps0, before, deps);
    FromMergesGrow(f, deps0, before, deps, order[k]);
    forall l | 0 <= l < k ensures Handed(f, pos, deps0, deps, order[l]) {
      HandedGrows(f, pos, deps0, deps0, before, deps, order[l]);
    }
    HandedGrows(f, pos, before, deps0, deps, deps, order[k]);
  }

  /** Lets every block of the list hand its dependencies on. */
  method HandOnAll(f: Func, order: seq<nat>, pos: map<nat, nat>, deps0: Digraph) returns (deps: Digraph)
    requires ForBlocks(f, deps0) && Ranked(deps0, pos)
    requires (forall l :: 0 <= l < |order| ==> order[l] < |f|) && forall b: nat :: b in pos <==> b < |f|
    requires forall b, i :: 0 <= b < |f| && 0 <= i < |f[b].preds| ==> f[b].preds[i] < |f|
    ensures ForBlocks(f, deps) && Ranked(deps, pos) && HandedSoFar(f, order, pos, deps0, deps, |order|)
  {
    deps := deps0;
    for k := 0 to |order|
      invariant ForBlocks(f, deps) && Ranked(deps, pos) && HandedSoFar(f, order, pos, deps0, deps, k)
    {
      ghost var before := deps;
      deps := PushToPredecessors(f, pos, deps, order[k]);
      HandedOneMore(f, order, pos, deps0, before, deps, k);
    }
  }

  lemma HandedBefore(f: Func, order: seq<nat>, pos: map<nat, nat>, deps0: Digraph, deps: Digraph)
    requires Lists(order, |f|) && IsIndex(pos, order) && ForBlocks(f, deps0) && ForBlocks(f, deps)
    requires forall b, i :: 0 <= b < |f| && 0 <= i < |f[b].preds| ==> f[b].preds[i] < |f|
    requires forall l :: 0 <= l < |order| ==> Handed(f, pos, deps0, deps, order[l])
    ensures forall m: nat, p: nat, d: nat :: m < |f| && p in f[m].preds && d in deps0[m] && Before(order, d, p) ==> d in deps[p]
  {
    forall m: nat, p: nat, d: nat | m < |f| && p in f[m].preds && d in deps0[m] && Before(order, d, p) ensures d in deps[p] {
      BeforeByIndex(order, pos, d, p);
      assert m in order;
      assert Handed(f, pos, deps0, deps, order[pos[m]]);
      assert d in Succ(deps, p);
    }
  }

  /** Gives every predecessor of a block the block's own dependencies that stand before that predecessor. */
  method PropagateAtMerges(f: Func, order: seq<nat>, deps0: Digraph) returns (deps: Digraph)
    requires Lists(order, |f|)
    requires ForBlocks(f, deps0) && Respects(order, deps0)
    requires forall b, i :: 0 <= b < |f| && 0 <= i < |f[b].preds| ==> f[b].preds[i] < |f|
    ensures ForBlocks(f, deps) && Respects(order, deps) && Extends(deps, deps0)
    ensures forall m: nat, p: nat, d: nat :: m < |f| && p in f[m].preds && d in deps0[m] && Before(order, d, p) ==> d in deps[p]
    ensures OnlyFromMerges(f, deps0, deps)
  {
    var pos := IndexBlocks(order);
    RankedIffRespects(order, pos, deps0);
    deps := HandOnAll(f, order, pos, deps0);
    RankedIffRespects(order, pos, deps);
    HandedBefore(f, order, pos, deps0, deps);
  }
}
