/** Outlining a group of operations: the function that holds their clones, and the body that calls it instead. */
module Functionize {
  import opened Outlining

  function IdsOf(group: seq<Op>): set<nat> {
    set i | 0 <= i < |group| :: group[i].id
  }

  predicate External(v: Value, ids: set<nat>) {
    v.Arg? || v.op !in ids
  }

  ghost predicate NoDuplicates(vs: seq<Value>) {
    forall i, j :: 0 <= i < j < |vs| ==> vs[i] != vs[j]
  }

  /** A result is returned when nothing uses it, or something outside the group does. */
  predicate MustReturn(body: seq<Item>, ids: set<nat>, v: Value) {
    (forall j :: 0 <= j < |body| ==> v !in OperandsOf(body[j]))
    || exists j :: 0 <= j < |body| && !InGroup(body[j], ids) && v in OperandsOf(body[j])
  }

  ghost predicate UsedNowhere(body: seq<Item>, v: Value) {
    forall x :: x in body ==> v !in OperandsOf(x)
  }

  /** Some item that is no operation of the group uses the value. */
  ghost predicate UsedOutside(body: seq<Item>, ids: set<nat>, v: Value) {
    exists x :: x in body && !(x.Plain? && x.op.id in ids) && v in OperandsOf(x)
  }

  lemma MustReturnMeans(body: seq<Item>, ids: set<nat>, v: Value)
    ensures MustReturn(body, ids, v) <==> UsedNowhere(body, v) || UsedOutside(body, ids, v)
  {
    if UsedOutside(body, ids, v) {
      var x :| x in body && !(x.Plain? && x.op.id in ids) && v in OperandsOf(x);
      var j :| 0 <= j < |body| && body[j] == x;
    }
    if MustReturn(body, ids, v) && !UsedOutside(body, ids, v) {
      forall x | x in body ensures v !in OperandsOf(x) {
        var j :| 0 <= j < |body| && body[j] == x;
      }
    }
  }

  /** All operands of the group, in order. */
  function AllOperands(group: seq<Op>): (r: seq<Value>)
    ensures forall v :: v in r <==> exists j :: 0 <= j < |group| && v in group[j].operands
  {
    if group == [] then []
    else
      var front := group[..|group| - 1];
      assert forall j :: 0 <= j < |front| ==> front[j] == group[j];
      AllOperands(front) + group[|group| - 1].operands
  }

  /** The arguments are the external ones among the operands, each once. */
  ghost predicate AreArguments(args: seq<Value>, operands: seq<Value>, ids: set<nat>) {
    NoDuplicates(args) && forall v :: v in args <==> v in operands && External(v, ids)
  }

  /** The results of one operation from index `k` on that must be returned, in order. */
  function ReturnedFrom(body: seq<Item>, ids: set<nat>, op: Op, k: nat): seq<Value>
    requires k <= op.width
    decreases op.width - k
  {
    if k == op.width then []
    else (if MustReturn(body, ids, Result(op.id, k)) then [Result(op.id, k)] else []) + ReturnedFrom(body, ids, op, k + 1)
  }

  /** All results that the group must return, in program order. */
  function ReturnedOf(body: seq<Item>, ids: set<nat>, group: seq<Op>): seq<Value> {
    if group == [] then []
    else ReturnedOf(body, ids, group[..|group| - 1]) + ReturnedFrom(body, ids, group[|group| - 1], 0)
  }

  lemma {:induction false} ReturnedFromOnce(body: seq<Item>, ids: set<nat>, op: Op, k: nat)
    requires k <= op.width
    ensures forall v :: v in ReturnedFrom(body, ids, op, k) <==>
              v.Result? && v.op == op.id && k <= v.index < op.width && MustReturn(body, ids, v)
    ensures NoDuplicates(ReturnedFrom(body, ids, op, k))
    decreases op.width - k
  {
    if k < op.width {
      ReturnedFromOnce(body, ids, op, k + 1);
    }
  }

  ghost predicate DistinctIds(group: seq<Op>) {
    forall i, j :: 0 <= i < j < |group| ==> group[i].id != group[j].id
  }

  /** `v` is a result of one of the first `n` operations. */
  ghost predicate ResultOf(v: Value, group: seq<Op>, n: nat)
    requires n <= |group|
  {
    v.Result? && exists j :: 0 <= j < n && group[j].id == v.op && v.index < group[j].width
  }

  /** The returned values are the results of the group that nothing uses or something outside uses, each once. */
  lemma {:induction false} ReturnedOnce(body: seq<Item>, ids: set<nat>, group: seq<Op>)
    requires DistinctIds(group)
    ensures NoDuplicates(ReturnedOf(body, ids, group))
    ensures forall v :: v in ReturnedOf(body, ids, group) <==> ResultOf(v, group, |group|) && MustReturn(body, ids, v)
  {
    if group != [] {
      var n := |group| - 1;
      var front := group[..n];
      assert forall j :: 0 <= j < n ==> front[j] == group[j];
      ReturnedOnce(body, ids, front);
      ReturnedFromOnce(body, ids, group[n], 0);
      assert forall v :: ResultOf(v, group, |group|) <==> ResultOf(v, front, n) || (v.Result? && v.op == group[n].id && v.index < group[n].width);
      var a, b := ReturnedOf(body, ids, front), ReturnedFrom(body, ids, group[n], 0);
      forall i, j | 0 <= i < j < |a + b| ensures (a + b)[i] != (a + b)[j] {
        if i < |a| <= j {
          assert a[i] in a && b[j - |a|] in b;
        }
      }
    }
  }

  /** The map gives each argument its position. */
  ghost predicate Positions(argIndex: map<Value, nat>, args: seq<Value>) {
    && (forall v :: v in argIndex <==> v in args)
    && (forall v :: v in argIndex ==> argIndex[v] < |args| && args[argIndex[v]] == v)
  }

  /** Adds the operands of one operation that are external and not yet known. */
  method AddArguments(operands: seq<Value>, ids: set<nat>, args0: seq<Value>, argIndex0: map<Value, nat>, ghost before: seq<Value>)
    returns (args: seq<Value>, argIndex: map<Value, nat>)
    requires AreArguments(args0, before, ids) && Positions(argIndex0, args0)
    ensures AreArguments(args, before + operands, ids) && Positions(argIndex, args)
  {
    args, argIndex := args0, argIndex0;
    for k := 0 to |operands|
      invariant AreArguments(args, before + operands[..k], ids) && Positions(argIndex, args)
    {
      var v := operands[k];
      if External(v, ids) && v !in args {
        argIndex := argIndex[v := |args|];
        args := args + [v];
      }
    }
    assert operands[..|operands|] == operands;
  }

  lemma ReturnedStep(body: seq<Item>, ids: set<nat>, op: Op, k: nat, before: seq<Value>)
    requires k < op.width
    ensures before + ReturnedFrom(body, ids, op, k) ==
              (if MustReturn(body, ids, Result(op.id, k)) then before + [Result(op.id, k)] else before) + ReturnedFrom(body, ids, op, k + 1)
  {
    var v, rest := Result(op.id, k), ReturnedFrom(body, ids, op, k + 1);
    assert before + ([v] + rest) == before + [v] + rest && before + ([] + rest) == before + rest;
  }

  method ReturnedByOp(body: seq<Item>, ids: set<nat>, op: Op) returns (returned: seq<Value>)
    ensures returned == ReturnedFrom(body, ids, op, 0)
  {
    returned := [];
    for k := 0 to op.width
      invariant ReturnedFrom(body, ids, op, 0) == returned + ReturnedFrom(body, ids, op, k)
    {
      ReturnedStep(body, ids, op, k, returned);
      if MustReturn(body, ids, Result(op.id, k)) {
        returned := returned + [Result(op.id, k)];
      }
    }
  }

  /** Collects the arguments with their positions, and the results to return. */
  method ComputeArgTypesAndReturns(body: seq<Item>, group: seq<Op>, ids: set<nat>)
    returns (args: seq<Value>, argIndex: map<Value, nat>, results: seq<Value>)
    ensures AreArguments(args, AllOperands(group), ids) && Positions(argIndex, args)
    ensures results == ReturnedOf(body, ids, group)
    ensures DistinctIds(group) ==> NoDuplicates(results) && forall v :: v in results <==>
              ResultOf(v, group, |group|) && (UsedNowhere(body, v) || UsedOutside(body, ids, v))
  {
    if DistinctIds(group) {
      ReturnedOnce(body, ids, group);
      forall v ensures MustReturn(body, ids, v) <==> UsedNowhere(body, v) || UsedOutside(body, ids, v) {
        MustReturnMeans(body, ids, v);
      }
    }
    args, argIndex, results := [], map[], [];
    for i := 0 to |group|
      invariant AreArguments(args, AllOperands(group[..i]), ids) && Positions(argIndex, args)
      invariant results == ReturnedOf(body, ids, group[..i])
    {
      args, argIndex := AddArguments(group[i].operands, ids, args, argIndex, AllOperands(group[..i]));
      var returned := ReturnedByOp(body, ids, group[i]);
      results := results + returned;
      assert group[..i + 1][..i] == group[..i];
    }
    assert group[..|group|] == group;
  }

  // ---------- the new function ----------

  /** In the function, an external value is an argument, and a result of the group is the same result of its clone. */
  ghost predicate Stands(v: Value, clone: Value, args: seq<Value>, group: seq<Op>) {
    if External(v, IdsOf(group)) then clone.Arg? && clone.arg < |args| && args[clone.arg] == v
    else clone.Result? && clone.op < |group| && group[clone.op].id == v.op && clone.index == v.index
  }

  ghost predicate StandAll(vs: seq<Value>, clones: seq<Value>, args: seq<Value>, group: seq<Op>) {
    |clones| == |vs| && forall i :: 0 <= i < |vs| ==> Stands(vs[i], clones[i], args, group)
  }

  /** The clone of the operation at `i` has the same code and shape, on operands that stand for the original ones. */
  ghost predicate IsClone(op: Op, i: nat, clone: Op, args: seq<Value>, group: seq<Op>) {
    clone.id == i && clone.code == op.code && clone.width == op.width && StandAll(op.operands, clone.operands, args, group)
  }

  ghost predicate IsFunction(f: Func, args: seq<Value>, results: seq<Value>, group: seq<Op>) {
    && f.arity == |args| && |f.body| == |group|
    && (forall i :: 0 <= i < |group| ==> IsClone(group[i], i, f.body[i], args, group))
    && StandAll(results, f.returned, args, group)
  }

  /** Operands within the group are results of earlier operations of it. */
  ghost predicate Ordered(group: seq<Op>) {
    && DistinctIds(group)
    && forall i, v :: 0 <= i < |group| && v in group[i].operands && !External(v, IdsOf(group)) ==>
         exists j :: 0 <= j < i && group[j].id == v.op && v.index < group[j].width
  }

  ghost predicate ClonedResult(v: Value, clone: Value, group: seq<Op>, n: nat)
    requires n <= |group|
  {
    v.Result? && clone.Result? && clone.op < n && group[clone.op].id == v.op && clone.index == v.index
  }

  /** The results of the first `n` operations, with the clones that stand for them. */
  ghost predicate Internal(internalMap: map<Value, Value>, group: seq<Op>, n: nat)
    requires n <= |group|
  {
    && (forall v :: v in internalMap <==> ResultOf(v, group, n))
    && (forall v :: v in internalMap ==> ClonedResult(v, internalMap[v], group, n))
  }

  method MapOperands(operands: seq<Value>, argIndex: map<Value, nat>, internalMap: map<Value, Value>, ghost args: seq<Value>, ghost group: seq<Op>, ghost n: nat)
    returns (clones: seq<Value>)
    requires n <= |group| && Positions(argIndex, args) && Internal(internalMap, group, n)
    requires forall v :: v in operands ==> if External(v, IdsOf(group)) then v in args else v in internalMap
    requires forall v :: v in args ==> External(v, IdsOf(group))
    ensures StandAll(operands, clones, args, group)
  {
    clones := [];
    for k := 0 to |operands|
      invariant StandAll(operands[..k], clones, args, group)
    {
      var v := operands[k];
      if v in argIndex {
        clones := clones + [Arg(argIndex[v])];
      } else {
        clones := clones + [internalMap[v]];
      }
    }
    assert operands[..|operands|] == operands;
  }

  predicate IsResultBelow(v: Value, op: Op, k: nat) {
    v.Result? && v.op == op.id && v.index < k
  }

  method MapResults(op: Op, clone: Op, internalMap: map<Value, Value>, ghost group: seq<Op>, ghost n: nat) returns (more: map<Value, Value>)
    requires n < |group| && group[n] == op && clone.id == n && Internal(internalMap, group, n)
    ensures Internal(more, group, n + 1)
  {
    more := internalMap;
    for k := 0 to op.width
      invariant forall v :: v in more <==> v in internalMap || IsResultBelow(v, op, k)
      invariant forall v :: v in more ==> more[v] == if IsResultBelow(v, op, k) then Result(clone.id, v.index) else internalMap[v]
    {
      more := more[Result(op.id, k) := Result(clone.id, k)];
    }
    forall v ensures ResultOf(v, group, n + 1) <==> ResultOf(v, group, n) || IsResultBelow(v, op, op.width) {
    }
  }

  lemma OperandsKnown(group: seq<Op>, args: seq<Value>, internalMap: map<Value, Value>, n: nat)
    requires Ordered(group) && n < |group| && AreArguments(args, AllOperands(group), IdsOf(group)) && Internal(internalMap, group, n)
    ensures forall v :: v in group[n].operands ==> if External(v, IdsOf(group)) then v in args else v in internalMap
    ensures forall v :: v in args ==> External(v, IdsOf(group))
  {
  }

  /** Clones the operations one by one, on the operands that stand for theirs. */
  method CloneOps(group: seq<Op>, args: seq<Value>, argIndex: map<Value, nat>) returns (clones: seq<Op>, internalMap: map<Value, Value>)
    requires Ordered(group) && AreArguments(args, AllOperands(group), IdsOf(group)) && Positions(argIndex, args)
    ensures |clones| == |group| && forall i :: 0 <= i < |group| ==> IsClone(group[i], i, clones[i], args, group)
    ensures Internal(internalMap, group, |group|)
  {
    clones, internalMap := [], map[];
    for i := 0 to |group|
      invariant |clones| == i && Internal(internalMap, group, i)
      invariant forall j :: 0 <= j < i ==> IsClone(group[j], j, clones[j], args, group)
    {
      OperandsKnown(group, args, internalMap, i);
      var operands := MapOperands(group[i].operands, argIndex, internalMap, args, group, i);
      var clone := Op(i, group[i].code, operands, group[i].width);
      internalMap := MapResults(group[i], clone, internalMap, group, i);
      clones := clones + [clone];
    }
  }

  /** The clones to return, and the position at which each original result is returned. */
  method ReturnClones(results: seq<Value>, internalMap: map<Value, Value>, ghost args: seq<Value>, ghost group: seq<Op>)
    returns (returned: seq<Value>, replacement: map<Value, nat>)
    requires Internal(internalMap, group, |group|) && NoDuplicates(results) && forall v :: v in results ==> v in internalMap
    ensures StandAll(results, returned, args, group) && Positions(replacement, results)
  {
    returned, replacement := [], map[];
    for k := 0 to |results|
      invariant StandAll(results[..k], returned, args, group) && Positions(replacement, results[..k])
    {
      var v := results[k];
      assert v in internalMap && ClonedResult(v, internalMap[v], group, |group|);
      assert Stands(v, internalMap[v], args, group);
      replacement := replacement[v := |returned|];
      returned := returned + [internalMap[v]];
    }
    assert results[..|results|] == results;
  }

  /** Builds the function, the arguments of its call, and the call result that replaces each returned value. */
  method CreateNewFunction(body: seq<Item>, group: seq<Op>) returns (f: Func, args: seq<Value>, replacement: map<Value, nat>)
    requires Ordered(group)
    ensures AreArguments(args, AllOperands(group), IdsOf(group))
    ensures IsFunction(f, args, ReturnedOf(body, IdsOf(group), group), group)
    ensures Positions(replacement, ReturnedOf(body, IdsOf(group), group))
  {
    var argIndex, results;
    args, argIndex, results := ComputeArgTypesAndReturns(body, group, IdsOf(group));
    var clones, internalMap := CloneOps(group, args, argIndex);
    ReturnedOnce(body, IdsOf(group), group);
    var returned;
    returned, replacement := ReturnClones(results, internalMap, args, group);
    f := Func(|args|, clones, returned);
  }
}
