/** Building the constraints of the deadline model of a chain of blocks. */
module MilpDeadlineConstraints {
  import opened Wrappers
  import opened MilpModel
  import opened MilpOrder
  import opened MilpConstraints
  import opened MilpSchedule
  import opened MilpDeadlines

  /** The lower bound 0 of a variable. */
  function AtLeastZero(v: Var): Linear {
    Linear([(1, v)], Some(0), None)
  }

  lemma AtLeastZeroMeans(v: Var)
    ensures forall a: Assignment :: Holds(AtLeastZero(v), a) <==> 0 <= a(v)
  {
    forall a: Assignment ensures Value(AtLeastZero(v).terms, a) == a(v) {
      ValueOne(1, v, a);
    }
  }

  method BoundVariable(v: Var) returns (cs: seq<Linear>)
    ensures forall a: Assignment :: Satisfies(a, cs) <==> 0 <= a(v)
  {
    AtLeastZeroMeans(v);
    SatisfiesOne([], AtLeastZero(v));
    cs := [] + [AtLeastZero(v)];
  }

  /** Lower bounds for the variables of a list. */
  method BoundVariables(vars: seq<Var>) returns (cs: seq<Linear>)
    ensures forall a: Assignment :: Satisfies(a, cs) <==> forall k :: 0 <= k < |vars| ==> 0 <= a(vars[k])
  {
    cs := [];
    for k := 0 to |vars|
      invariant forall a: Assignment :: Satisfies(a, cs) <==> forall l :: 0 <= l < k ==> 0 <= a(vars[l])
    {
      AtLeastZeroMeans(vars[k]);
      SatisfiesOne(cs, AtLeastZero(vars[k]));
      cs := cs + [AtLeastZero(vars[k])];
    }
  }

  function StartsOf(b: MilpBlock): (vars: seq<Var>)
    ensures |vars| == |b.ops| && forall k :: 0 <= k < |vars| ==> vars[k] == StartOf(b.ops[k])
  {
    seq(|b.ops|, k requires 0 <= k < |b.ops| => StartOf(b.ops[k]))
  }

  /** Start times are nonnegative. */
  ghost predicate StartsBounded(blocks: seq<MilpBlock>, a: Assignment) {
    forall i, k :: 0 <= i < |blocks| && 0 <= k < |blocks[i].ops| ==> 0 <= Begin(blocks[i].ops[k], a)
  }

  lemma StartsOneMore(blocks: seq<MilpBlock>, i: nat, a: Assignment)
    requires i < |blocks|
    ensures StartsBounded(blocks[..i + 1], a) <==>
            StartsBounded(blocks[..i], a) && forall k :: 0 <= k < |StartsOf(blocks[i])| ==> 0 <= a(StartsOf(blocks[i])[k])
  {
    assert blocks[..i + 1] == blocks[..i] + [blocks[i]];
    if StartsBounded(blocks[..i], a) && forall k :: 0 <= k < |StartsOf(blocks[i])| ==> 0 <= a(StartsOf(blocks[i])[k]) {
      forall k | 0 <= k < |blocks[i].ops| ensures 0 <= Begin(blocks[i].ops[k], a) {
        assert StartsOf(blocks[i])[k] == StartOf(blocks[i].ops[k]);
      }
    }
    if StartsBounded(blocks[..i + 1], a) {
      forall k | 0 <= k < |StartsOf(blocks[i])| ensures 0 <= a(StartsOf(blocks[i])[k]) {
        assert blocks[..i + 1][i] == blocks[i];
        assert 0 <= Begin(blocks[i].ops[k], a);
      }
    }
  }

  method StartBounds(blocks: seq<MilpBlock>) returns (cs: seq<Linear>)
    ensures forall a: Assignment :: Satisfies(a, cs) <==> StartsBounded(blocks, a)
  {
    cs := [];
    for i := 0 to |blocks|
      invariant forall a: Assignment :: Satisfies(a, cs) <==> StartsBounded(blocks[..i], a)
    {
      var ds := BoundVariables(StartsOf(blocks[i]));
      cs := Append(cs, ds);
      forall a: Assignment
        ensures StartsBounded(blocks[..i + 1], a) <==>
                StartsBounded(blocks[..i], a) && forall k :: 0 <= k < |StartsOf(blocks[i])| ==> 0 <= a(StartsOf(blocks[i])[k])
      {
        StartsOneMore(blocks, i, a);
      }
    }
    assert blocks[..|blocks|] == blocks;
  }

  ghost predicate TasksChainedTo(b: MilpBlock, n: nat, a: Assignment) {
    forall t: nat :: t < n && t + 1 < |b.tasks| && b.tasks[t].ops != [] && b.tasks[t + 1].ops != [] ==>
      Begin(b.tasks[t + 1].ops[0], a) - Begin(b.tasks[t].ops[|b.tasks[t].ops| - 1], a) == b.tasks[t].ops[|b.tasks[t].ops| - 1].duration
  }

  /** Consecutive tasks of the block run back to back. */
  method TaskChain(b: MilpBlock) returns (cs: seq<Linear>)
    requires forall t :: 0 <= t < |b.tasks| ==> b.tasks[t].ops != []
    ensures forall a: Assignment :: Satisfies(a, cs) <==> TasksChained(b, a)
  {
    cs := [];
    var t := 0;
    while t + 1 < |b.tasks|
      invariant 0 <= t
      invariant forall a: Assignment :: Satisfies(a, cs) <==> TasksChainedTo(b, t, a)
    {
      var last1, first2 := b.tasks[t].ops[|b.tasks[t].ops| - 1], b.tasks[t + 1].ops[0];
      var c := Apart(last1, first2, last1.duration, true);
      ApartMeans(last1, first2, last1.duration, true);
      SatisfiesOne(cs, c);
      cs := cs + [c];
      t := t + 1;
    }
  }

  ghost predicate AllChained(blocks: seq<MilpBlock>, a: Assignment) {
    forall i :: 0 <= i < |blocks| ==> TasksChained(blocks[i], a)
  }

  lemma NonEmptyTasks(b: MilpBlock)
    requires WellFormed(b)
    ensures forall t :: 0 <= t < |b.tasks| ==> b.tasks[t].ops != []
  {
  }

  method TaskChains(blocks: seq<MilpBlock>) returns (cs: seq<Linear>)
    requires WellFormedBlocks(blocks)
    ensures forall a: Assignment :: Satisfies(a, cs) <==> AllChained(blocks, a)
  {
    cs := [];
    for i := 0 to |blocks|
      invariant forall a: Assignment :: Satisfies(a, cs) <==> AllChained(blocks[..i], a)
    {
      NonEmptyTasks(blocks[i]);
      var ds := TaskChain(blocks[i]);
      cs := Append(cs, ds);
      assert blocks[..i + 1] == blocks[..i] + [blocks[i]];
    }
    assert blocks[..|blocks|] == blocks;
  }

  // ---------- the constraints of one consecutive pair ----------

  /** gap - start(first of the later) + start(last of the earlier) == -duration, and gap >= least gap. */
  method GapConstraints(p: Precedence) returns (cs: seq<Linear>)
    requires NonEmpty(p)
    ensures forall a: Assignment :: Satisfies(a, cs) <==> GapDefined(p, a)
  {
    var lastPred, firstSucc := p.0.ops[|p.0.ops| - 1], p.1.ops[0];
    var gap := Gap(p.0.id, p.1.id);
    var idle: int := -(lastPred.duration as int);
    var definition := Linear([(1, gap), (-1, StartOf(firstSucc)), (1, StartOf(lastPred))], Some(idle), Some(idle));
    var floor := Linear([(1, gap), (-1, MinGap)], Some(0), None);
    SatisfiesOne([], definition);
    SatisfiesOne([definition], floor);
    assert [] + [definition] == [definition];
    cs := [definition] + [floor];
    forall a: Assignment ensures Value(definition.terms, a) == a(gap) - Begin(firstSucc, a) + Begin(lastPred, a) {
      ValueThree(1, gap, -1, StartOf(firstSucc), 1, StartOf(lastPred), a);
    }
    forall a: Assignment ensures Value(floor.terms, a) == a(gap) - a(MinGap) {
      ValueTwo(1, gap, -1, MinGap, a);
    }
  }

  ghost predicate FcfsTo(p: Precedence, n: nat, a: Assignment) {
    forall r :: 0 <= r < |Slots(p.0, p.1)| && r < n ==>
      var k := Slots(p.0, p.1)[r];
      k < |p.0.tasks| && k < |p.1.tasks| && p.0.tasks[k].ops != [] && p.1.tasks[k].ops != [] ==>
      SlotBefore(p.0, p.1, k, 1, a)
  }

  /** Equal slots of the two blocks, in chain order. */
  method FcfsConsistency(ghost blocks: seq<MilpBlock>, ghost i: nat, p: Precedence) returns (cs: seq<Linear>)
    requires i < |blocks| && blocks[i] == p.0 && WellFormed(p.0) && WellFormed(p.1) && Fits(blocks)
    ensures forall a: Assignment :: Satisfies(a, cs) <==> FcfsConsistent(p, a)
  {
    NonEmptyTasks(p.0);
    NonEmptyTasks(p.1);
    cs := [];
    var slots := Slots(p.0, p.1);
    for r := 0 to |slots|
      invariant forall a: Assignment :: Satisfies(a, cs) <==> FcfsTo(p, r, a)
    {
      var k := slots[r];
      if k < |p.0.tasks| && k < |p.1.tasks| {
        var o1, o2 := p.0.tasks[k].ops[0], p.1.tasks[k].ops[0];
        var dur := TaskDuration(blocks, i, p.0, k);
        var c := Apart(o1, o2, dur, false);
        ApartMeans(o1, o2, dur, false);
        SatisfiesOne(cs, c);
        cs := cs + [c];
      }
    }
  }

  /** What the constraints of the pair at `i` say: its gap is nonnegative and defined, and its slots are in order. */
  ghost predicate PairHolds(chain: seq<MilpBlock>, i: nat, a: Assignment)
    requires i + 1 < |chain|
  {
    var p := (chain[i], chain[i + 1]);
    0 <= GapAfter(chain, a, i) && FcfsConsistent(p, a) && (NonEmpty(p) ==> GapDefined(p, a))
  }

  method PairConstraints(chain: seq<MilpBlock>, i: nat) returns (cs: seq<Linear>)
    requires WellFormedBlocks(chain) && Fits(chain) && i + 1 < |chain|
    ensures forall a: Assignment :: Satisfies(a, cs) <==> PairHolds(chain, i, a)
  {
    var p := (chain[i], chain[i + 1]);
    var gap := Gap(chain[i].id, chain[i + 1].id);
    cs := BoundVariable(gap);
    var slots := FcfsConsistency(chain, i, p);
    cs := Append(cs, slots);
    assert WellFormed(chain[i]) && WellFormed(chain[i + 1]);
    var gaps := GapConstraints(p);
    cs := Append(cs, gaps);
  }

  ghost predicate PairsHold(chain: seq<MilpBlock>, n: nat, a: Assignment) {
    forall i: nat :: i < n && i + 1 < |chain| ==> PairHolds(chain, i, a)
  }

  method AllPairs(chain: seq<MilpBlock>) returns (cs: seq<Linear>)
    requires WellFormedBlocks(chain) && Fits(chain)
    ensures forall a: Assignment :: Satisfies(a, cs) <==> PairsHold(chain, |chain|, a)
  {
    cs := [];
    var i := 0;
    while i + 1 < |chain|
      invariant 0 <= i
      invariant forall a: Assignment :: Satisfies(a, cs) <==> PairsHold(chain, i, a)
    {
      var ds := PairConstraints(chain, i);
      cs := Append(cs, ds);
      i := i + 1;
    }
  }

  /** The last block ends within the horizon. */
  method HorizonConstraint(chain: seq<MilpBlock>, h: int) returns (cs: seq<Linear>)
    requires chain != [] && chain[|chain| - 1].ops != []
    ensures forall a: Assignment :: Satisfies(a, cs) <==> End(chain[|chain| - 1], a) <= h
  {
    var tail := chain[|chain| - 1];
    var lastOp := tail.ops[|tail.ops| - 1];
    var c := Linear([(1, StartOf(lastOp))], None, Some(h - lastOp.duration));
    SatisfiesOne([], c);
    cs := [] + [c];
    forall a: Assignment ensures Value(c.terms, a) == Begin(lastOp, a) {
      ValueOne(1, StartOf(lastOp), a);
    }
  }

  // ---------- how long qubits live ----------

  /** A qubit, with the operation that allocates it and the one that measures it, if any. */
  datatype Qubit = Qubit(alloc: Operation, meas: Option<Operation>)

  /** What a signed 64-bit integer keeps of a number. */
  function Signed64(x: int): int {
    (x + 0x8000_0000_0000_0000) % 0x1_0000_0000_0000_0000 - 0x8000_0000_0000_0000
  }

  function LifetimeBound(alloc: Operation, meas: Operation, lmax: nat): int {
    lmax - meas.duration + alloc.duration
  }

  /** The measurement starts no later after the allocation than the bound in 64-bit arithmetic allows. */
  ghost predicate WithinLifetime(q: Qubit, lmax: nat, a: Assignment) {
    q.meas.Some? ==> Begin(q.meas.value, a) - Begin(q.alloc, a) <= Signed64(LifetimeBound(q.alloc, q.meas.value, lmax))
  }

  ghost predicate WithinLifetimes(qubits: seq<Qubit>, lmax: nat, a: Assignment) {
    forall k :: 0 <= k < |qubits| ==> WithinLifetime(qubits[k], lmax, a)
  }

  /** A qubit lives from the end of its allocation to the end of its measurement. */
  function Lifetime(alloc: Operation, meas: Operation, a: Assignment): int {
    Begin(meas, a) + meas.duration - (Begin(alloc, a) + alloc.duration)
  }

  ghost predicate BoundsLifetime(q: Qubit, lmax: nat)
    requires q.meas.Some?
  {
    forall a: Assignment :: WithinLifetime(q, lmax, a) <==> Lifetime(q.alloc, q.meas.value, a) <= lmax
  }

  /** The constraint says that the qubit lives at most `lmax` exactly when the bound fits a signed 64-bit integer. */
  lemma LifetimeExactly(q: Qubit, lmax: nat)
    requires q.meas.Some? && StartOf(q.meas.value) != StartOf(q.alloc)
    ensures BoundsLifetime(q, lmax) <==>
            -0x8000_0000_0000_0000 <= LifetimeBound(q.alloc, q.meas.value, lmax) < 0x8000_0000_0000_0000
  {
    var meas, bound := q.meas.value, LifetimeBound(q.alloc, q.meas.value, lmax);
    if Signed64(bound) != bound {
      var between := if bound < Signed64(bound) then Signed64(bound) else bound;
      var a: Assignment := v => if v == StartOf(meas) then between else 0;
      assert Begin(meas, a) == between && Begin(q.alloc, a) == 0;
      assert !(WithinLifetime(q, lmax, a) <==> Lifetime(q.alloc, meas, a) <= lmax);
    }
  }

  lemma LifetimesOneMore(qubits: seq<Qubit>, q: Qubit, lmax: nat)
    ensures forall a: Assignment :: WithinLifetimes(qubits + [q], lmax, a) <==> WithinLifetimes(qubits, lmax, a) && WithinLifetime(q, lmax, a)
  {
    forall a: Assignment
      ensures WithinLifetimes(qubits + [q], lmax, a) <==> WithinLifetimes(qubits, lmax, a) && WithinLifetime(q, lmax, a)
    {
      var more := qubits + [q];
      assert more[|qubits|] == q && forall k :: 0 <= k < |qubits| ==> more[k] == qubits[k];
    }
  }

  method LifetimeConstraints(qubits: seq<Qubit>, lmax: nat) returns (cs: seq<Linear>)
    ensures forall a: Assignment :: Satisfies(a, cs) <==> WithinLifetimes(qubits, lmax, a)
  {
    cs := [];
    for k := 0 to |qubits|
      invariant forall a: Assignment :: Satisfies(a, cs) <==> WithinLifetimes(qubits[..k], lmax, a)
    {
      assert qubits[..k + 1] == qubits[..k] + [qubits[k]];
      var alloc, meas := qubits[k].alloc, qubits[k].meas;
      if meas.Some? {
        var c := Linear([(1, StartOf(meas.value)), (-1, StartOf(alloc))], None, Some(Signed64(LifetimeBound(alloc, meas.value, lmax))));
        forall a: Assignment ensures Holds(c, a) <==> WithinLifetime(qubits[k], lmax, a) {
          ValueTwo(1, StartOf(meas.value), -1, StartOf(alloc), a);
        }
        SatisfiesOne(cs, c);
        cs := cs + [c];
      }
      LifetimesOneMore(qubits[..k], qubits[k], lmax);
    }
    assert qubits[..|qubits|] == qubits;
  }

  lemma DeadlinedParts(chain: seq<MilpBlock>, h: int, a: Assignment)
    requires |chain| >= 2 && chain[|chain| - 1].ops != []
    ensures Deadlined(chain, h, a) <==>
            StartsBounded(chain, a) && 0 <= a(MinGap) && IntraTask(chain, a) && AllChained(chain, a)
            && InPrecedence(ChainOf(chain), a) && PairsHold(chain, |chain|, a) && End(chain[|chain| - 1], a) <= h
  {
    var precs := ChainOf(chain);
    assert forall i :: 0 <= i < |precs| ==> precs[i] == (chain[i], chain[i + 1]);
    if Deadlined(chain, h, a) {
      forall i: nat | i + 1 < |chain| ensures PairHolds(chain, i, a) {
        assert FcfsConsistent(precs[i], a);
      }
    }
    if PairsHold(chain, |chain|, a) {
      forall i: nat | i + 1 < |chain| ensures PairHolds(chain, i, a) && 0 <= GapAfter(chain, a, i) {
      }
      forall i | 0 <= i < |precs| ensures FcfsConsistent(precs[i], a) && (NonEmpty(precs[i]) ==> GapDefined(precs[i], a)) {
        assert PairHolds(chain, i, a);
      }
    }
  }

  /** The constraints that are about the chain alone. */
  method ChainConstraints(chain: seq<MilpBlock>, h: int) returns (cs: seq<Linear>)
    requires WellFormedBlocks(chain) && Fits(chain) && |chain| >= 2
    ensures forall a: Assignment :: Satisfies(a, cs) <==> Deadlined(chain, h, a)
  {
    assert WellFormed(chain[|chain| - 1]);
    var starts := StartBounds(chain);
    var least := BoundVariable(MinGap);
    var inTask := IntraTaskConstraints(chain);
    var inBlock := TaskChains(chain);
    var order := PrecedenceConstraints(ChainOf(chain));
    var pairs := AllPairs(chain);
    var horizon := HorizonConstraint(chain, h);
    cs := Append(starts, least);
    cs := Append(cs, inTask);
    cs := Append(cs, inBlock);
    cs := Append(cs, order);
    cs := Append(cs, pairs);
    cs := Append(cs, horizon);
    forall a: Assignment
      ensures Deadlined(chain, h, a) <==>
              StartsBounded(chain, a) && 0 <= a(MinGap) && IntraTask(chain, a) && AllChained(chain, a)
              && InPrecedence(ChainOf(chain), a) && PairsHold(chain, |chain|, a) && End(chain[|chain| - 1], a) <= h
    {
      DeadlinedParts(chain, h, a);
    }
  }

  lemma AllDeadlinedExactly(chain: seq<MilpBlock>, h: int)
    requires WellFormedBlocks(chain) && |chain| >= 2
    ensures forall i :: 0 <= i < |chain| ==> chain[i].ops != []
    ensures forall a: Assignment :: Deadlined(chain, h, a) <==> Spaced(chain, h, a)
  {
    forall i | 0 <= i < |chain| ensures chain[i].ops != [] {
      assert WellFormed(chain[i]);
    }
    forall a: Assignment ensures Deadlined(chain, h, a) <==> Spaced(chain, h, a) {
      DeadlinedExactly(chain, h, a);
    }
  }

  /** All constraints of the deadline model: their solutions are exactly the assignments that meet it and keep the qubits
      within their lifetime. */
  method BuildDeadlineModel(chain: seq<MilpBlock>, qubits: seq<Qubit>, lmax: nat, h: int) returns (cs: seq<Linear>)
    requires WellFormedBlocks(chain) && Fits(chain) && |chain| >= 2
    ensures forall a: Assignment :: Satisfies(a, cs) <==> Deadlined(chain, h, a) && WithinLifetimes(qubits, lmax, a)
    ensures forall i :: 0 <= i < |chain| ==> chain[i].ops != []
    ensures forall a: Assignment :: Satisfies(a, cs) <==> Spaced(chain, h, a) && WithinLifetimes(qubits, lmax, a)
  {
    AllDeadlinedExactly(chain, h);
    cs := ChainConstraints(chain, h);
    var lifetimes := LifetimeConstraints(qubits, lmax);
    cs := Append(cs, lifetimes);
  }
}
