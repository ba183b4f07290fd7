/** Erasing the gates that no measurement depends on. */
module DeadCode {
  import opened Graph

  /** `Gate` is a kind of operation that may be erased, and `Other` any kind that is left alone. */
  datatype Kind = Gate | Measure | Eprs | Other

  /** An argument of the function, or a result of the operation at a position. */
  datatype Value = Arg(arg: nat) | Result(def: nat, index: nat)

  datatype Op = Op(kind: Kind, code: nat, operands: seq<Value>)

  /** Operands are defined before their use; entanglement requests have no operands. */
  ghost predicate Valid(ops: seq<Op>) {
    forall i :: 0 <= i < |ops| ==> (forall v :: v in ops[i].operands && v.Result? ==> v.def < i) && (ops[i].kind == Eprs ==> ops[i].operands == [])
  }

  /** The operations that define the operands of `op`. */
  function ProducersOf(op: Op): set<nat> {
    set v | v in op.operands && v.Result? :: v.def
  }

  /** From each operation to the operations that define its operands. */
  function Producers(ops: seq<Op>): Digraph {
    map i | i in Below(|ops|) :: ProducersOf(ops[i])
  }

  ghost predicate FeedsMeasure(ops: seq<Op>, i: nat, m: nat) {
    m < |ops| && ops[m].kind == Measure && Reach(Producers(ops), m, i)
  }

  /** The operations that some measurement depends on, the measurements, and the entanglement requests. */
  ghost predicate InCone(ops: seq<Op>, i: nat) {
    i < |ops| && (ops[i].kind == Eprs || ops[i].kind == Measure || exists m: nat :: FeedsMeasure(ops, i, m))
  }

  // ---------- liveness ----------

  lemma ConeHasProducers(ops: seq<Op>, i: nat)
    requires Valid(ops) && InCone(ops, i)
    ensures forall d :: d in ProducersOf(ops[i]) ==> d < i && InCone(ops, d)
  {
    forall d | d in ProducersOf(ops[i]) ensures d < i && InCone(ops, d) {
      assert d in Succ(Producers(ops), i);
      ReachEdge(Producers(ops), i, d);
      if ops[i].kind == Measure {
        assert FeedsMeasure(ops, d, i);
      } else {
        var m: nat :| FeedsMeasure(ops, i, m);
        ReachTrans(Producers(ops), m, i, d);
        assert FeedsMeasure(ops, d, m);
      }
    }
  }

  /** A set with all measurements and requests that is closed under producers holds the whole cone. */
  lemma ClosedHoldsCone(ops: seq<Op>, live: set<nat>)
    requires forall i :: 0 <= i < |ops| && (ops[i].kind == Measure || ops[i].kind == Eprs) ==> i in live
    requires forall i :: i in live ==> i < |ops| && ProducersOf(ops[i]) <= live
    ensures forall i: nat :: InCone(ops, i) ==> i in live
  {
    forall i: nat | InCone(ops, i) ensures i in live {
      if ops[i].kind != Eprs && ops[i].kind != Measure {
        var m: nat :| FeedsMeasure(ops, i, m);
        var n: nat :| Steps(Producers(ops), m, i, n);
        StepsStayIn(Producers(ops), live, m, i, n);
      }
    }
  }

  /** Requests are live from the start; measurements start the backward search. */
  method Roots(ops: seq<Op>) returns (worklist: seq<nat>, live: set<nat>)
    ensures forall i :: i in worklist <==> 0 <= i < |ops| && ops[i].kind == Measure
    ensures forall i :: i in live <==> 0 <= i < |ops| && ops[i].kind == Eprs
  {
    worklist, live := [], {};
    for k := 0 to |ops|
      invariant forall i :: i in worklist <==> 0 <= i < k && ops[i].kind == Measure
      invariant forall i :: i in live <==> 0 <= i < k && ops[i].kind == Eprs
    {
      if ops[k].kind == Measure {
        worklist := worklist + [k];
      }
      if ops[k].kind == Eprs {
        live := live + {k};
      }
    }
  }

  function ProducerList(operands: seq<Value>): (defs: seq<nat>)
    ensures forall d :: d in defs <==> exists v :: v in operands && v.Result? && v.def == d
  {
    if operands == [] then [] else (if operands[0].Result? then [operands[0].def] else []) + ProducerList(operands[1..])
  }

  /** What the search keeps: all that is found is in the cone, and what is live has its producers live or waiting. */
  ghost predicate Searching(ops: seq<Op>, live: set<nat>, worklist: seq<nat>) {
    && (forall i :: i in live || i in worklist ==> InCone(ops, i))
    && (forall i :: 0 <= i < |ops| && ops[i].kind == Measure ==> i in live || i in worklist)
    && (forall i :: 0 <= i < |ops| && ops[i].kind == Eprs ==> i in live)
    && (forall i, d :: i in live && i < |ops| && d in ProducersOf(ops[i]) ==> d in live || d in worklist)
  }

  lemma SearchStep(ops: seq<Op>, live: set<nat>, worklist: seq<nat>, i: nat)
    requires Valid(ops) && Searching(ops, live, worklist) && worklist != [] && i == worklist[|worklist| - 1]
    ensures i in Below(|ops|)
    ensures var rest := worklist[..|worklist| - 1];
            if i in live then Searching(ops, live, rest) else Searching(ops, live + {i}, rest + ProducerList(ops[i].operands))
  {
    var rest := worklist[..|worklist| - 1];
    assert i in worklist && forall k :: k in worklist <==> k in rest || k == i;
    ConeHasProducers(ops, i);
  }

  /** The worklist ends with exactly the cone. */
  method Liveness(ops: seq<Op>) returns (live: set<nat>)
    requires Valid(ops)
    ensures forall i: nat :: i in live <==> InCone(ops, i)
  {
    var worklist;
    worklist, live := Roots(ops);
    ghost var all := Below(|ops|);
    while worklist != []
      invariant Searching(ops, live, worklist)
      decreases all - live, |worklist|
    {
      var i := worklist[|worklist| - 1];
      SearchStep(ops, live, worklist, i);
      worklist := worklist[..|worklist| - 1];
      if i !in live {
        live := live + {i};
        worklist := worklist + ProducerList(ops[i].operands);
      }
    }
    ClosedHoldsCone(ops, live);
  }

  // ---------- erasure ----------

  predicate UsesResult(op: Op, d: nat) {
    exists k :: 0 <= k < |op.operands| && op.operands[k].Result? && op.operands[k].def == d
  }

  ghost predicate Dead(ops: seq<Op>, i: nat) {
    i < |ops| && ops[i].kind == Gate && !InCone(ops, i)
  }

  /** No operation that stays, and feeds no measurement, uses a gate that feeds none. */
  ghost predicate SafeToErase(ops: seq<Op>) {
    forall i, d: nat :: 0 <= i < |ops| && ops[i].kind == Other && !InCone(ops, i) && UsesResult(ops[i], d) ==> !Dead(ops, d)
  }

  /** The operations other than gates take no results of gates: the bodies that the pass is meant for. */
  ghost predicate OnlyGatesTakeQubits(ops: seq<Op>) {
    forall i, d: nat :: 0 <= i < |ops| && ops[i].kind == Other && UsesResult(ops[i], d) && d < |ops| ==> ops[d].kind != Gate
  }

  lemma PlainIsSafe(ops: seq<Op>)
    requires OnlyGatesTakeQubits(ops)
    ensures SafeToErase(ops)
  {
  }

  /** No operation of the body uses a result of an operation that is not in it. */
  ghost predicate NoDangling(ops: seq<Op>, body: set<nat>) {
    forall i, d: nat :: i in body && i < |ops| && UsesResult(ops[i], d) && d < |ops| ==> d in body
  }

  /** The operations that stay. */
  ghost function Survivors(ops: seq<Op>): (s: set<nat>)
    ensures forall i: nat :: i in s <==> i < |ops| && !Dead(ops, i)
  {
    set i | i in Below(|ops|) && !Dead(ops, i)
  }

  lemma UserProduces(op: Op, d: nat)
    requires UsesResult(op, d)
    ensures d in ProducersOf(op)
  {
    var k :| 0 <= k < |op.operands| && op.operands[k].Result? && op.operands[k].def == d;
    assert op.operands[k] in op.operands;
  }

  /** What stays has no erased operand exactly when the body is safe to erase from. */
  lemma SafeIsNoDangling(ops: seq<Op>)
    requires Valid(ops)
    ensures NoDangling(ops, Survivors(ops)) <==> SafeToErase(ops)
  {
    if SafeToErase(ops) {
      forall i, d: nat | i in Survivors(ops) && UsesResult(ops[i], d) && d < |ops| ensures d in Survivors(ops) {
        if InCone(ops, i) {
          UserProduces(ops[i], d);
          ConeHasProducers(ops, i);
        }
      }
    }
    if NoDangling(ops, Survivors(ops)) {
      forall i, d: nat | 0 <= i < |ops| && ops[i].kind == Other && !InCone(ops, i) && UsesResult(ops[i], d) ensures !Dead(ops, d) {
        assert i in Survivors(ops);
      }
    }
  }

  method CollectDead(ops: seq<Op>, live: set<nat>) returns (toErase: seq<nat>)
    requires forall i: nat :: i in live <==> InCone(ops, i)
    ensures forall i: nat :: i in toErase <==> Dead(ops, i)
    ensures forall a, b :: 0 <= a < b < |toErase| ==> toErase[a] < toErase[b]
  {
    toErase := [];
    for k := 0 to |ops|
      invariant forall i: nat :: i in toErase <==> i < k && Dead(ops, i)
      invariant forall a, b :: 0 <= a < b < |toErase| ==> toErase[a] < toErase[b]
    {
      if ops[k].kind == Gate && k !in live {
        assert forall a :: 0 <= a < |toErase| ==> toErase[a] in toErase;
        toErase := toErase + [k];
      }
    }
  }

  /** Erases an operation, unless an operation of the body still uses it. */
  method Erase(ops: seq<Op>, body: set<nat>, x: nat) returns (ok: bool, body': set<nat>)
    requires forall i :: i in body ==> i < |ops|
    ensures ok <==> forall i :: i in body ==> !UsesResult(ops[i], x)
    ensures body' == if ok then body - {x} else body
  {
    ok := forall i :: i in body ==> !UsesResult(ops[i], x);
    body' := if ok then body - {x} else body;
  }

  /** The body from which the listed operations have been erased. */
  ghost predicate Without(ops: seq<Op>, body: set<nat>, gone: seq<nat>) {
    forall i: nat :: i in body <==> i < |ops| && i !in gone
  }

  lemma WithoutOneMore(ops: seq<Op>, body: set<nat>, list: seq<nat>, k: nat)
    requires k < |list| && Without(ops, body, list[k + 1..])
    ensures Without(ops, body - {list[k]}, list[k..])
  {
    assert list[k..] == [list[k]] + list[k + 1..];
  }

  ghost predicate NoSurvivorUses(ops: seq<Op>, x: nat) {
    forall i :: i in Survivors(ops) ==> !UsesResult(ops[i], x)
  }

  lemma LaterInList(list: seq<nat>, k: nat, i: nat)
    requires k < |list| && list[k] < i && forall a, b :: 0 <= a < b < |list| ==> list[a] < list[b]
    ensures i in list <==> i in list[k + 1..]
  {
    if i in list {
      var a :| 0 <= a < |list| && list[a] == i;
      assert list[k + 1..][a - k - 1] == i;
    }
  }

  /** The users of a dead gate in the body, once the later dead gates are gone, are the survivors that use it. */
  lemma UsersBefore(ops: seq<Op>, toErase: seq<nat>, k: nat, body: set<nat>)
    requires Valid(ops) && k < |toErase| && (forall i: nat :: i in toErase <==> Dead(ops, i))
    requires forall a, b :: 0 <= a < b < |toErase| ==> toErase[a] < toErase[b]
    requires Without(ops, body, toErase[k + 1..])
    ensures (forall i :: i in body ==> !UsesResult(ops[i], toErase[k])) <==> NoSurvivorUses(ops, toErase[k])
  {
    var x := toErase[k];
    assert forall i :: i in toErase[k + 1..] ==> i in toErase;
    forall i | i in body && UsesResult(ops[i], x) ensures i in Survivors(ops) {
      UserProduces(ops[i], x);
      LaterInList(toErase, k, i);
    }
  }

  /** Erases the dead gates, last one first. */
  method EraseAll(ops: seq<Op>, toErase: seq<nat>) returns (ok: bool, body: set<nat>)
    requires Valid(ops) && forall i: nat :: i in toErase <==> Dead(ops, i)
    requires forall a, b :: 0 <= a < b < |toErase| ==> toErase[a] < toErase[b]
    ensures ok <==> forall a :: 0 <= a < |toErase| ==> NoSurvivorUses(ops, toErase[a])
    ensures ok ==> Without(ops, body, toErase)
  {
    body := Below(|ops|);
    var k := |toErase|;
    while k > 0
      invariant 0 <= k <= |toErase| && Without(ops, body, toErase[k..])
      invariant forall a :: k <= a < |toErase| ==> NoSurvivorUses(ops, toErase[a])
    {
      k := k - 1;
      UsersBefore(ops, toErase, k, body);
      WithoutOneMore(ops, body, toErase, k);
      ok, body := Erase(ops, body, toErase[k]);
      if !ok {
        return;
      }
    }
    assert toErase[0..] == toErase;
    ok := true;
  }

  /** No dead gate is used by what stays exactly when the body is safe to erase from. */
  lemma AllUnused(ops: seq<Op>, toErase: seq<nat>)
    requires Valid(ops) && forall i: nat :: i in toErase <==> Dead(ops, i)
    ensures (forall a :: 0 <= a < |toErase| ==> NoSurvivorUses(ops, toErase[a])) <==> SafeToErase(ops)
  {
    SafeIsNoDangling(ops);
    if forall a :: 0 <= a < |toErase| ==> NoSurvivorUses(ops, toErase[a]) {
      forall d: nat | Dead(ops, d) ensures NoSurvivorUses(ops, d) {
        var a :| 0 <= a < |toErase| && toErase[a] == d;
      }
    }
    if SafeToErase(ops) {
      forall a | 0 <= a < |toErase| ensures NoSurvivorUses(ops, toErase[a]) {
        assert toErase[a] in toErase;
      }
    }
  }

  /** Computes what is live and erases the dead gates. Every erased operation has no users left exactly when the body
      is safe to erase from; otherwise an erasure meets a user and the pass fails. */
  method RunOnOperation(ops: seq<Op>) returns (ok: bool, body: set<nat>)
    requires Valid(ops)
    ensures ok <==> SafeToErase(ops)
    ensures OnlyGatesTakeQubits(ops) ==> ok
    ensures ok ==> body == Survivors(ops) && NoDangling(ops, body)
  {
    var live := Liveness(ops);
    var toErase := CollectDead(ops, live);
    ok, body := EraseAll(ops, toErase);
    AllUnused(ops, toErase);
    SafeIsNoDangling(ops);
    if OnlyGatesTakeQubits(ops) {
      PlainIsSafe(ops);
    }
  }

  // ---------- what a measurement depends on ----------

  /** The def-use tree of a value in a body. */
  datatype Tree = Leaf(arg: nat) | Missing | Node(kind: Kind, code: nat, index: nat, children: seq<Tree>)

  ghost function TreeOf(ops: seq<Op>, body: set<nat>, v: Value): Tree
    requires Valid(ops)
    decreases if v.Result? then v.def + 1 else 0
  {
    if v.Arg? then Leaf(v.arg)
    else if v.def >= |ops| || v.def !in body then Missing
    else
      var operands := ops[v.def].operands;
      Node(ops[v.def].kind, ops[v.def].code, v.index,
           seq(|operands|, k requires 0 <= k < |operands| => (assert operands[k] in operands; TreeOf(ops, body, operands[k]))))
  }

  lemma {:induction false} ConeTreesStay(ops: seq<Op>, body: set<nat>, all: set<nat>, v: Value)
    requires Valid(ops) && (forall i: nat :: InCone(ops, i) ==> i in body) && all == Below(|ops|)
    requires v.Result? ==> InCone(ops, v.def)
    ensures TreeOf(ops, body, v) == TreeOf(ops, all, v)
    decreases if v.Result? then v.def + 1 else 0
  {
    if v.Result? {
      var operands := ops[v.def].operands;
      ConeHasProducers(ops, v.def);
      forall k | 0 <= k < |operands| ensures TreeOf(ops, body, operands[k]) == TreeOf(ops, all, operands[k]) {
        assert operands[k] in operands;
        assert operands[k].Result? ==> operands[k].def in ProducersOf(ops[v.def]);
        ConeTreesStay(ops, body, all, operands[k]);
      }
    }
  }

  /** Erasure leaves the whole def-use tree of every measurement, and no part of it missing. */
  lemma {:induction false} MeasurementsKeepTrees(ops: seq<Op>, m: nat, index: nat)
    requires Valid(ops) && m < |ops| && ops[m].kind == Measure
    ensures TreeOf(ops, Survivors(ops), Result(m, index)) == TreeOf(ops, Below(|ops|), Result(m, index))
  {
    ConeTreesStay(ops, Survivors(ops), Below(|ops|), Result(m, index));
  }

  // ---------- a body the pass fails on ----------

  /** A new qubit that only an integer rotation takes: the rotation is no candidate for erasure and keeps using it. */
  const ROTATED := [Op(Gate, 0, []), Op(Other, 1, [Result(0, 0)])]

  lemma RotatedIsUnsafe()
    ensures Valid(ROTATED) && !SafeToErase(ROTATED)
  {
    forall i: nat ensures !InCone(ROTATED, i) {
    }
    assert ROTATED[1].operands[0] == Result(0, 0);
    assert UsesResult(ROTATED[1], 0);
    assert Dead(ROTATED, 0);
  }
}
