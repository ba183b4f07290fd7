/** Building the constraints of the block-order model. */
module MilpConstraints {
  import opened Wrappers
  import opened Graph
  import opened Closure
  import opened MilpModel
  import opened MilpOrder
  import opened MilpSchedule

  /** The summed duration of some operations, in 32-bit arithmetic. */
  method SumMachine(start: int, ops: seq<Operation>) returns (total: int)
    requires start == U32(start)
    ensures total == U32(start + SumDurations(ops))
  {
    total := start;
    for k := 0 to |ops|
      invariant total == U32(start + SumDurations(ops[..k]))
    {
      SumPrefix(ops, k);
      U32Add(start + SumDurations(ops[..k]), ops[k].duration);
      total := U32(total + ops[k].duration);
    }
    assert ops[..|ops|] == ops;
  }

  /** The 32-bit big-M of the model: twice the summed durations. */
  method ComputeBigM(blocks: seq<MilpBlock>) returns (m: int)
    ensures m == U32(2 * TotalDuration(blocks))
  {
    var total := 0;
    for i := 0 to |blocks|
      invariant total == U32(TotalDuration(blocks[..i]))
    {
      assert blocks[..i + 1][..i] == blocks[..i];
      U32Add(TotalDuration(blocks[..i]), Duration(blocks[i]));
      assert total == U32(total);
      total := SumMachine(total, blocks[i].ops);
    }
    assert blocks[..|blocks|] == blocks;
    U32Add(TotalDuration(blocks), U32(TotalDuration(blocks)));
    U32Add(TotalDuration(blocks), TotalDuration(blocks));
    m := U32(total + total);
  }

  method HorizonConstraints(blocks: seq<MilpBlock>, m: int) returns (cs: seq<Linear>)
    ensures forall a: Assignment :: Satisfies(a, cs) <==> InHorizon(blocks, m, a)
  {
    cs := [];
    for i := 0 to |blocks|
      invariant forall a: Assignment :: Satisfies(a, cs) <==> InHorizon(blocks[..i], m, a)
    {
      var ops := blocks[i].ops;
      for k := 0 to |ops|
        invariant forall a: Assignment :: Satisfies(a, cs) <==>
          InHorizon(blocks[..i], m, a) && forall l :: 0 <= l < k ==> 0 <= Begin(ops[l], a) <= m
      {
        var c := Linear([(1, StartOf(ops[k]))], Some(0), Some(m));
        SatisfiesOne(cs, c);
        forall a: Assignment ensures Value(c.terms, a) == Begin(ops[k], a) {
          ValueOne(1, StartOf(ops[k]), a);
        }
        cs := cs + [c];
      }
      forall a: Assignment
        ensures InHorizon(blocks[..i + 1], m, a) <==>
                InHorizon(blocks[..i], m, a) && forall l :: 0 <= l < |ops| ==> 0 <= Begin(ops[l], a) <= m
      {
        assert blocks[..i + 1] == blocks[..i] + [blocks[i]];
      }
    }
    assert blocks[..|blocks|] == blocks;
  }

  lemma ChainOneMore(ops: seq<Operation>, j: nat, a: Assignment)
    requires j + 1 < |ops|
    ensures ChainedOps(ops[..j + 2], a) <==> ChainedOps(ops[..j + 1], a) && Begin(ops[j + 1], a) - Begin(ops[j], a) == ops[j].duration
  {
    var s, t := ops[..j + 1], ops[..j + 2];
    assert t[j] == ops[j] && t[j + 1] == ops[j + 1];
    if ChainedOps(t, a) {
      forall i: nat | i + 1 < |s| ensures Begin(s[i + 1], a) - Begin(s[i], a) == s[i].duration {
        assert t[i + 1] == s[i + 1];
      }
    }
    if ChainedOps(s, a) && Begin(ops[j + 1], a) - Begin(ops[j], a) == ops[j].duration {
      forall i: nat | i + 1 < |t| ensures Begin(t[i + 1], a) - Begin(t[i], a) == t[i].duration {
        if i < j {
          assert s[i + 1] == t[i + 1] && s[i] == t[i];
        }
      }
    }
  }

  method ChainConstraints(ops: seq<Operation>) returns (cs: seq<Linear>)
    ensures forall a: Assignment :: Satisfies(a, cs) <==> ChainedOps(ops, a)
  {
    cs := [];
    var j := 0;
    while j + 1 < |ops|
      invariant 0 <= j && (ops != [] ==> j + 1 <= |ops|)
      invariant forall a: Assignment :: Satisfies(a, cs) <==> ChainedOps(ops[..if ops == [] then 0 else j + 1], a)
    {
      var c := Apart(ops[j], ops[j + 1], ops[j].duration, true);
      SatisfiesOne(cs, c);
      ApartMeans(ops[j], ops[j + 1], ops[j].duration, true);
      forall a: Assignment ensures ChainedOps(ops[..j + 2], a) <==> ChainedOps(ops[..j + 1], a) && Begin(ops[j + 1], a) - Begin(ops[j], a) == ops[j].duration {
        ChainOneMore(ops, j, a);
      }
      cs := cs + [c];
      j := j + 1;
    }
    if ops != [] {
      assert ops[..j + 1] == ops;
    }
  }

  method IntraTaskConstraints(blocks: seq<MilpBlock>) returns (cs: seq<Linear>)
    ensures forall a: Assignment :: Satisfies(a, cs) <==> IntraTask(blocks, a)
  {
    cs := [];
    for i := 0 to |blocks|
      invariant forall a: Assignment :: Satisfies(a, cs) <==> IntraTask(blocks[..i], a)
    {
      var tasks := blocks[i].tasks;
      for t := 0 to |tasks|
        invariant forall a: Assignment :: Satisfies(a, cs) <==>
          IntraTask(blocks[..i], a) && forall u :: 0 <= u < t ==> ChainedOps(tasks[u].ops, a)
      {
        var ds := ChainConstraints(tasks[t].ops);
        forall a: Assignment ensures Satisfies(a, cs + ds) <==> Satisfies(a, cs) && Satisfies(a, ds) {
          SatisfiesBoth(a, cs, ds);
        }
        cs := cs + ds;
      }
      assert blocks[..i + 1] == blocks[..i] + [blocks[i]];
    }
    assert blocks[..|blocks|] == blocks;
  }

  method PrecedenceConstraints(precs: seq<Precedence>) returns (cs: seq<Linear>)
    ensures forall a: Assignment :: Satisfies(a, cs) <==> InPrecedence(precs, a)
  {
    cs := [];
    for i := 0 to |precs|
      invariant forall a: Assignment :: Satisfies(a, cs) <==> InPrecedence(precs[..i], a)
    {
      var p := precs[i];
      assert precs[..i + 1] == precs[..i] + [p];
      if NonEmpty(p) {
        var predLast, succFirst := p.0.ops[|p.0.ops| - 1], p.1.ops[0];
        var c := Apart(predLast, succFirst, predLast.duration, false);
        SatisfiesOne(cs, c);
        ApartMeans(predLast, succFirst, predLast.duration, false);
        cs := cs + [c];
      }
    }
    assert precs[..|precs|] == precs;
  }

  lemma TaskWithinBlock(b: MilpBlock, t: nat)
    requires WellFormed(b) && t < |b.tasks|
    ensures SumDurations(b.tasks[t].ops) <= Duration(b)
  {
    var n := |b.ops|;
    if !b.kind.CL? {
      assert b.ops == [b.ops[0]] + b.ops[1..n - 1] + [b.ops[n - 1]];
      SumSplit([b.ops[0]] + b.ops[1..n - 1], [b.ops[n - 1]]);
      SumSplit([b.ops[0]], b.ops[1..n - 1]);
    }
  }

  /** The duration of a task as the builder computes it, exact when durations fit. */
  method TaskDuration(ghost blocks: seq<MilpBlock>, ghost i: nat, b: MilpBlock, t: nat) returns (dur: int)
    requires i < |blocks| && blocks[i] == b && WellFormed(b) && t < |b.tasks| && Fits(blocks)
    ensures dur == SumDurations(b.tasks[t].ops) && dur < 0x4000_0000
  {
    dur := SumMachine(0, b.tasks[t].ops);
    TaskWithinBlock(b, t);
    BlockWithinTotal(blocks, i);
    MachineExact(SumDurations(b.tasks[t].ops));
  }

  method SequenceConstraints(ghost blocks: seq<MilpBlock>, ghost i: nat, b: MilpBlock) returns (cs: seq<Linear>)
    requires i < |blocks| && blocks[i] == b && WellFormed(b) && Fits(blocks)
    ensures forall a: Assignment :: Satisfies(a, cs) <==> (HasSequence(b) ==> Sequenced(b, a))
  {
    cs := [];
    if HasSequence(b) {
      var first1, first2, first3 := b.tasks[0].ops[0], b.tasks[1].ops[0], b.tasks[2].ops[0];
      var dur1 := TaskDuration(blocks, i, b, 0);
      var dur2 := TaskDuration(blocks, i, b, 1);
      var c := Apart(first1, first2, dur1, true);
      var d := Apart(first2, first3, dur2, true);
      ApartMeans(first1, first2, dur1, true);
      ApartMeans(first2, first3, dur2, true);
      SatisfiesOne([c], d);
      SatisfiesOne([], c);
      cs := [c] + [d];
      assert [c] == [] + [c];
    }
  }

  method IntraBlockConstraints(blocks: seq<MilpBlock>) returns (cs: seq<Linear>)
    requires WellFormedBlocks(blocks) && Fits(blocks)
    ensures forall a: Assignment :: Satisfies(a, cs) <==> IntraBlock(blocks, a)
  {
    cs := [];
    for i := 0 to |blocks|
      invariant forall a: Assignment :: Satisfies(a, cs) <==> IntraBlock(blocks[..i], a)
    {
      var ds := SequenceConstraints(blocks, i, blocks[i]);
      forall a: Assignment ensures Satisfies(a, cs + ds) <==> Satisfies(a, cs) && Satisfies(a, ds) {
        SatisfiesBoth(a, cs, ds);
      }
      cs := cs + ds;
      assert blocks[..i + 1] == blocks[..i] + [blocks[i]];
    }
    assert blocks[..|blocks|] == blocks;
  }

  /** later - earlier + coefficient * z >= bound. */
  function Selected(earlier: Operation, later: Operation, coefficient: int, z: Var, bound: int): Linear {
    Linear([(1, StartOf(later)), (-1, StartOf(earlier)), (coefficient, z)], Some(bound), None)
  }

  lemma SelectedMeans(earlier: Operation, later: Operation, coefficient: int, z: Var, bound: int)
    ensures forall a: Assignment :: Holds(Selected(earlier, later, coefficient, z, bound), a) <==>
              Begin(later, a) - Begin(earlier, a) + coefficient * a(z) >= bound
  {
    forall a: Assignment ensures Value(Selected(earlier, later, coefficient, z, bound).terms, a) == Begin(later, a) - Begin(earlier, a) + coefficient * a(z) {
      ValueThree(1, StartOf(later), -1, StartOf(earlier), coefficient, z, a);
    }
  }

  lemma Negated(m: int, z: int)
    ensures (-m) * z == -(m * z)
  {
  }

  /** The two inequalities of task slot `k` with the selector of the pair. */
  method SlotConstraints(ghost blocks: seq<MilpBlock>, ghost i: nat, ghost j: nat, b1: MilpBlock, b2: MilpBlock, k: nat, m: int)
    returns (cs: seq<Linear>)
    requires i < |blocks| && j < |blocks| && blocks[i] == b1 && blocks[j] == b2
    requires WellFormed(b1) && WellFormed(b2) && Fits(blocks) && m == BigM(blocks)
    requires k < |b1.tasks| && k < |b2.tasks| && b1.tasks[k].ops != [] && b2.tasks[k].ops != []
    ensures forall a: Assignment :: Satisfies(a, cs) <==>
              SlotBefore(b1, b2, k, m - m * a(Select(b1.id, b2.id)), a) && SlotBefore(b2, b1, k, m * a(Select(b1.id, b2.id)), a)
  {
    var o1, o2 := b1.tasks[k].ops[0], b2.tasks[k].ops[0];
    var dur1 := TaskDuration(blocks, i, b1, k);
    var dur2 := TaskDuration(blocks, j, b2, k);
    var z := Select(b1.id, b2.id);
    var lhs1, lhs2 := I32(U32(dur1 + 1 - m)), U32(dur2 + 1);
    assert lhs1 == dur1 + 1 - m && lhs2 == dur2 + 1 by {
      MachineExact(dur1 + 1 - m);
      MachineExact(dur2 + 1);
    }
    var c, d := Selected(o1, o2, -m, z, lhs1), Selected(o2, o1, m, z, lhs2);
    SelectedMeans(o1, o2, -m, z, lhs1);
    SelectedMeans(o2, o1, m, z, lhs2);
    SatisfiesOne([c], d);
    SatisfiesOne([], c);
    assert [c] == [] + [c];
    cs := [c] + [d];
    forall a: Assignment
      ensures Satisfies(a, cs) <==> SlotBefore(b1, b2, k, m - m * a(z), a) && SlotBefore(b2, b1, k, m * a(z), a)
    {
      Negated(m, a(z));
    }
  }

  lemma SlotsGrow(b1: MilpBlock, b2: MilpBlock, slots: seq<nat>, s: nat, m: int, z: int, a: Assignment)
    requires TaskBearing(b1) && TaskBearing(b2) && s < |slots| && slots[s] < |b1.tasks| && slots[s] < |b2.tasks|
    ensures SlotsExclusive(b1, b2, slots[..s + 1], m, z, a) <==>
              && SlotsExclusive(b1, b2, slots[..s], m, z, a)
              && SlotBefore(b1, b2, slots[s], m - m * z, a) && SlotBefore(b2, b1, slots[s], m * z, a)
  {
    var t := slots[..s + 1];
    assert t[s] == slots[s] && forall r :: 0 <= r < s ==> t[r] == slots[..s][r];
  }

  method ExclusionConstraints(ghost blocks: seq<MilpBlock>, ghost i: nat, ghost j: nat, b1: MilpBlock, b2: MilpBlock, m: int)
    returns (cs: seq<Linear>)
    requires i < |blocks| && j < |blocks| && blocks[i] == b1 && blocks[j] == b2
    requires WellFormed(b1) && WellFormed(b2) && TaskBearing(b1) && TaskBearing(b2) && Fits(blocks) && m == BigM(blocks)
    ensures forall a: Assignment :: Satisfies(a, cs) <==> Exclusive(b1, b2, m, a)
  {
    var z := Select(b1.id, b2.id);
    var binary := Linear([(1, z)], Some(0), Some(1));
    cs := [] + [binary];
    SatisfiesOne([], binary);
    forall a: Assignment ensures Value(binary.terms, a) == a(z) {
      ValueOne(1, z, a);
    }
    var slots := Slots(b1, b2);
    for s := 0 to |slots|
      invariant forall a: Assignment :: Satisfies(a, cs) <==> 0 <= a(z) <= 1 && SlotsExclusive(b1, b2, slots[..s], m, a(z), a)
    {
      var ds := SlotConstraints(blocks, i, j, b1, b2, slots[s], m);
      forall a: Assignment ensures Satisfies(a, cs + ds) <==> 0 <= a(z) <= 1 && SlotsExclusive(b1, b2, slots[..s + 1], m, a(z), a) {
        SatisfiesBoth(a, cs, ds);
        SlotsGrow(b1, b2, slots, s, m, a(z), a);
      }
      cs := cs + ds;
    }
    assert slots[..|slots|] == slots;
  }

  method Append(cs: seq<Linear>, ds: seq<Linear>) returns (both: seq<Linear>)
    ensures forall a: Assignment :: Satisfies(a, both) <==> Satisfies(a, cs) && Satisfies(a, ds)
  {
    both := cs + ds;
    forall a: Assignment ensures Satisfies(a, both) <==> Satisfies(a, cs) && Satisfies(a, ds) {
      SatisfiesBoth(a, cs, ds);
    }
  }

  /** The pairs before `(i, j)` are exclusive. */
  ghost predicate FcfsUpTo(blocks: seq<MilpBlock>, g: Digraph, m: int, i: nat, j: nat, a: Assignment) {
    forall p, q :: 0 <= p < q < |blocks| && (p < i || (p == i && q < j)) && Competing(g, blocks[p], blocks[q]) ==>
      Exclusive(blocks[p], blocks[q], m, a)
  }

  /** The constraints so far say that the pairs before `(i, j)` are exclusive. */
  ghost predicate MeansFcfs(cs: seq<Linear>, blocks: seq<MilpBlock>, g: Digraph, m: int, i: nat, j: nat) {
    forall a: Assignment :: Satisfies(a, cs) <==> FcfsUpTo(blocks, g, m, i, j, a)
  }

  lemma FcfsRow(cs: seq<Linear>, blocks: seq<MilpBlock>, g: Digraph, m: int, i: nat)
    requires MeansFcfs(cs, blocks, g, m, i, 0)
    ensures MeansFcfs(cs, blocks, g, m, i, i + 1)
  {
    forall a: Assignment ensures FcfsUpTo(blocks, g, m, i, 0, a) <==> FcfsUpTo(blocks, g, m, i, i + 1, a) {
    }
  }

  lemma FcfsRowEnd(cs: seq<Linear>, blocks: seq<MilpBlock>, g: Digraph, m: int, i: nat)
    requires i < |blocks| && MeansFcfs(cs, blocks, g, m, i, |blocks|)
    ensures MeansFcfs(cs, blocks, g, m, i + 1, 0)
  {
    forall a: Assignment ensures FcfsUpTo(blocks, g, m, i, |blocks|, a) <==> FcfsUpTo(blocks, g, m, i + 1, 0, a) {
    }
  }

  lemma FcfsNext(before: seq<Linear>, cs: seq<Linear>, blocks: seq<MilpBlock>, g: Digraph, m: int, i: nat, j: nat)
    requires i < j < |blocks| && MeansFcfs(before, blocks, g, m, i, j)
    requires forall a: Assignment :: Satisfies(a, cs) <==>
               Satisfies(a, before) && (Competing(g, blocks[i], blocks[j]) ==> Exclusive(blocks[i], blocks[j], m, a))
    ensures MeansFcfs(cs, blocks, g, m, i, j + 1)
  {
    forall a: Assignment ensures Satisfies(a, cs) <==> FcfsUpTo(blocks, g, m, i, j + 1, a) {
      assert Satisfies(a, before) <==> FcfsUpTo(blocks, g, m, i, j, a);
    }
  }

  /** Selector constraints for every pair of blocks that the precedences leave unordered. */
  method FcfsConstraints(blocks: seq<MilpBlock>, precs: seq<Precedence>, m: int) returns (cs: seq<Linear>)
    requires WellFormedBlocks(blocks) && Fits(blocks) && m == BigM(blocks)
    ensures forall a: Assignment :: Satisfies(a, cs) <==> Fcfs(blocks, PairGraph(EdgesOf(precs)), m, a)
  {
    ghost var g := PairGraph(EdgesOf(precs));
    var clos := Close(EdgesOf(precs));
    cs := [];
    for i := 0 to |blocks|
      invariant MeansFcfs(cs, blocks, g, m, i, 0)
    {
      FcfsRow(cs, blocks, g, m, i);
      for j := i + 1 to |blocks|
        invariant MeansFcfs(cs, blocks, g, m, i, j)
      {
        ghost var before := cs;
        var b1, b2 := blocks[i], blocks[j];
        if (b1.id, b2.id) !in clos && (b2.id, b1.id) !in clos && TaskBearing(b1) && TaskBearing(b2)
           && b1.tasks[0].group == b2.tasks[0].group {
          var ds := ExclusionConstraints(blocks, i, j, b1, b2, m);
          cs := Append(cs, ds);
        }
        FcfsNext(before, cs, blocks, g, m, i, j);
      }
      FcfsRowEnd(cs, blocks, g, m, i);
    }
  }

  lemma AllFeasibleExactly(blocks: seq<MilpBlock>, precs: seq<Precedence>)
    requires WellFormedBlocks(blocks) && PrecedencesWithin(blocks, precs)
    ensures forall a: Assignment :: Feasible(blocks, precs, a) <==> Schedules(blocks, precs, a)
  {
    forall a: Assignment ensures Feasible(blocks, precs, a) <==> Schedules(blocks, precs, a) {
      FeasibleExactly(blocks, precs, a);
    }
  }

  /** All constraints of the block-order model: their solutions are exactly the schedules of the program. */
  method BuildOrderModel(blocks: seq<MilpBlock>, precs: seq<Precedence>) returns (cs: seq<Linear>)
    requires WellFormedBlocks(blocks) && Fits(blocks)
    ensures forall a: Assignment :: Satisfies(a, cs) <==> Feasible(blocks, precs, a)
    ensures PrecedencesWithin(blocks, precs) ==> forall a: Assignment :: Satisfies(a, cs) <==> Schedules(blocks, precs, a)
  {
    if PrecedencesWithin(blocks, precs) {
      AllFeasibleExactly(blocks, precs);
    }
    var m := ComputeBigM(blocks);
    MachineExact(BigM(blocks));
    var bounds := HorizonConstraints(blocks, m);
    var tasks := IntraTaskConstraints(blocks);
    var order := PrecedenceConstraints(precs);
    var fcfs := FcfsConstraints(blocks, precs, m);
    var sequence := IntraBlockConstraints(blocks);
    cs := bounds + tasks + order + fcfs + sequence;
    forall a: Assignment ensures Satisfies(a, cs) <==> Feasible(blocks, precs, a) {
      SatisfiesBoth(a, bounds, tasks);
      SatisfiesBoth(a, bounds + tasks, order);
      SatisfiesBoth(a, bounds + tasks + order, fcfs);
      SatisfiesBoth(a, bounds + tasks + order + fcfs, sequence);
    }
  }
}
