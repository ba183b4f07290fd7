/** The deadline model: gaps between the blocks of a fixed chain, and the deadlines read off its solutions. */
module MilpDeadlines {
  import opened Wrappers
  import opened Graph
  import opened MilpModel
  import opened MilpOrder
  import opened MilpSchedule
  import opened MilpSerial

  // ---------- the chain ----------

  /** Two consecutive ids, both known. */
  ghost predicate KnownPair(ids: seq<nat>, known: map<nat, MilpBlock>, i: nat) {
    i + 1 < |ids| && ids[i] in known && ids[i + 1] in known
  }

  /** The consecutive pairs of the ordered blocks; a pair with an unknown id is skipped. */
  method ChainPrecedences(ids: seq<nat>, known: map<nat, MilpBlock>) returns (precs: seq<Precedence>)
    ensures forall p :: p in precs <==> exists i: nat :: KnownPair(ids, known, i) && p == (known[ids[i]], known[ids[i + 1]])
    ensures (forall i :: 0 <= i < |ids| ==> ids[i] in known) ==>
              && |precs| == (if ids == [] then 0 else |ids| - 1)
              && forall i :: 0 <= i < |precs| ==> precs[i] == (known[ids[i]], known[ids[i + 1]])
  {
    precs := [];
    var i := 0;
    while i + 1 < |ids|
      invariant 0 <= i && (if ids == [] then i == 0 else i < |ids|)
      invariant forall p :: p in precs <==> exists k: nat :: k < i && KnownPair(ids, known, k) && p == (known[ids[k]], known[ids[k + 1]])
      invariant (forall k :: 0 <= k < |ids| ==> ids[k] in known) ==>
                  |precs| == i && forall k :: 0 <= k < i && k + 1 < |ids| ==> precs[k] == (known[ids[k]], known[ids[k + 1]])
    {
      if ids[i] in known && ids[i + 1] in known {
        assert KnownPair(ids, known, i);
        precs := precs + [(known[ids[i]], known[ids[i + 1]])];
      }
      i := i + 1;
    }
  }

  function ChainOf(chain: seq<MilpBlock>): (precs: seq<Precedence>)
    ensures |precs| == if chain == [] then 0 else |chain| - 1
  {
    seq(if chain == [] then 0 else |chain| - 1, i requires 0 <= i < (if chain == [] then 0 else |chain| - 1) => (chain[i], chain[i + 1]))
  }

  // ---------- what the constraints mean ----------

  /** Consecutive tasks of a block run back to back. */
  ghost predicate TasksChained(b: MilpBlock, a: Assignment) {
    forall t: nat :: t + 1 < |b.tasks| && b.tasks[t].ops != [] && b.tasks[t + 1].ops != [] ==>
      Begin(b.tasks[t + 1].ops[0], a) - Begin(b.tasks[t].ops[|b.tasks[t].ops| - 1], a) == b.tasks[t].ops[|b.tasks[t].ops| - 1].duration
  }

  /** Equal task slots of consecutive blocks are served in chain order. */
  ghost predicate FcfsConsistent(p: Precedence, a: Assignment) {
    forall r :: 0 <= r < |Slots(p.0, p.1)| ==>
      var k := Slots(p.0, p.1)[r];
      k < |p.0.tasks| && k < |p.1.tasks| && p.0.tasks[k].ops != [] && p.1.tasks[k].ops != [] ==>
      SlotBefore(p.0, p.1, k, 1, a)
  }

  function GapOf(p: Precedence, a: Assignment): int {
    a(Gap(p.0.id, p.1.id))
  }

  /** The gap variable is the idle time between the two blocks, and is at least the least gap. */
  predicate GapDefined(p: Precedence, a: Assignment)
    requires NonEmpty(p)
  {
    GapOf(p, a) == First(p.1, a) - End(p.0, a) && GapOf(p, a) >= a(MinGap)
  }

  /** The idle time before block `i + 1` of the chain. */
  function GapAfter(chain: seq<MilpBlock>, a: Assignment, i: nat): int
    requires i + 1 < |chain|
  {
    a(Gap(chain[i].id, chain[i + 1].id))
  }

  /** All variables are nonnegative, and operations and tasks run back to back. */
  ghost predicate Timings(chain: seq<MilpBlock>, a: Assignment) {
    && (forall i, k :: 0 <= i < |chain| && 0 <= k < |chain[i].ops| ==> 0 <= Begin(chain[i].ops[k], a))
    && (forall i: nat :: i + 1 < |chain| ==> 0 <= GapAfter(chain, a, i)) && 0 <= a(MinGap)
    && IntraTask(chain, a)
    && (forall i :: 0 <= i < |chain| ==> TasksChained(chain[i], a))
  }

  /** A solution of the deadline model of a chain, within horizon `h`. */
  ghost predicate Deadlined(chain: seq<MilpBlock>, h: int, a: Assignment)
    requires |chain| >= 2
  {
    var precs := ChainOf(chain);
    && Timings(chain, a)
    && InPrecedence(precs, a)
    && (forall i :: 0 <= i < |precs| ==> FcfsConsistent(precs[i], a))
    && (forall i :: 0 <= i < |precs| && NonEmpty(precs[i]) ==> GapDefined(precs[i], a))
    && (chain[|chain| - 1].ops != [] ==> End(chain[|chain| - 1], a) <= h)
  }

  /** Twice the summed durations, unless the user gives a horizon that is not too small. */
  function ProgramHorizon(blocks: seq<MilpBlock>, user: nat): (h: int)
    ensures h >= TotalDuration(blocks)
    ensures 0 < user && TotalDuration(blocks) <= user ==> h == user
    ensures user == 0 || user < TotalDuration(blocks) ==> h == 2 * TotalDuration(blocks)
  {
    if user > 0 then if user < TotalDuration(blocks) then 2 * TotalDuration(blocks) else user
    else 2 * TotalDuration(blocks)
  }

  // ---------- what every solution gives ----------

  lemma TasksChainedRuns(b: MilpBlock, a: Assignment)
    requires WellFormed(b) && TasksChained(b, a)
    requires forall t :: 0 <= t < |b.tasks| ==> ChainedOps(b.tasks[t].ops, a)
    ensures Runs(b, a)
  {
    if HasSequence(b) {
      var n := |b.ops|;
      QuantumParts(b, n - 1);
      var head, middle := b.tasks[0].ops, b.tasks[1].ops;
      assert Begin(b.tasks[0 + 1].ops[0], a) - Begin(head[0], a) == head[0].duration;
      assert SumDurations(head) == head[0].duration by { assert head[..0] == []; }
      assert Begin(b.tasks[1 + 1].ops[0], a) - Begin(middle[|middle| - 1], a) == middle[|middle| - 1].duration;
      ChainStart(middle, a, |middle| - 1);
      SumPrefix(middle, |middle| - 1);
      assert middle[..|middle|] == middle;
    }
  }

  lemma ChainRunsThrough(chain: seq<MilpBlock>, a: Assignment, i: nat)
    requires WellFormedBlocks(chain) && i < |chain| && Timings(chain, a)
    ensures chain[i].ops != [] && Runs(chain[i], a) && End(chain[i], a) == First(chain[i], a) + Duration(chain[i])
  {
    TasksChainedRuns(chain[i], a);
    BlockLasts(chain[i], a);
  }

  /** Block `i + 1` starts one gap after block `i` ends. */
  ghost predicate LinkAt(chain: seq<MilpBlock>, a: Assignment, i: nat)
    requires i + 1 < |chain|
  {
    && chain[i].ops != [] && chain[i + 1].ops != []
    && First(chain[i + 1], a) == End(chain[i], a) + GapAfter(chain, a, i)
    && GapAfter(chain, a, i) >= a(MinGap) >= 0
  }

  ghost predicate Linked(chain: seq<MilpBlock>, a: Assignment) {
    && (forall i :: 0 <= i < |chain| ==> chain[i].ops != [] && End(chain[i], a) == First(chain[i], a) + Duration(chain[i]))
    && (forall i: nat :: i < |chain| - 1 ==> LinkAt(chain, a, i))
  }

  lemma SolutionIsLinked(chain: seq<MilpBlock>, h: int, a: Assignment)
    requires WellFormedBlocks(chain) && |chain| >= 2 && Deadlined(chain, h, a)
    ensures Linked(chain, a)
  {
    forall i | 0 <= i < |chain| ensures chain[i].ops != [] && End(chain[i], a) == First(chain[i], a) + Duration(chain[i]) {
      ChainRunsThrough(chain, a, i);
    }
    var precs := ChainOf(chain);
    forall i: nat | i < |chain| - 1 ensures LinkAt(chain, a, i) {
      assert precs[i] == (chain[i], chain[i + 1]) && NonEmpty(precs[i]) && GapDefined(precs[i], a);
    }
  }

  /** The durations of the blocks strictly between the reference block and block `i`, with all gaps up to `i`. */
  function Elapsed(chain: seq<MilpBlock>, a: Assignment, i: nat): int
    requires 1 <= i < |chain|
  {
    if i == 1 then GapAfter(chain, a, 0)
    else Elapsed(chain, a, i - 1) + Duration(chain[i - 1]) + GapAfter(chain, a, i - 1)
  }

  lemma {:induction false} StartFromReference(chain: seq<MilpBlock>, a: Assignment, i: nat)
    requires Linked(chain, a) && 1 <= i < |chain|
    ensures First(chain[i], a) - End(chain[0], a) == Elapsed(chain, a, i) >= 0
  {
    assert LinkAt(chain, a, i - 1);
    if i > 1 {
      StartFromReference(chain, a, i - 1);
    }
  }

  lemma {:induction false} StartsIncrease(chain: seq<MilpBlock>, a: Assignment, i: nat, j: nat)
    requires Linked(chain, a) && i < j < |chain| && forall b :: b in chain ==> Duration(b) >= 1
    ensures End(chain[i], a) <= First(chain[j], a) && First(chain[i], a) < First(chain[j], a)
    decreases j
  {
    assert chain[i] in chain && chain[j - 1] in chain;
    assert LinkAt(chain, a, j - 1);
    if i < j - 1 {
      StartsIncrease(chain, a, i, j - 1);
    }
  }

  lemma EndsWithin(chain: seq<MilpBlock>, h: int, a: Assignment, i: nat)
    requires |chain| >= 2 && Deadlined(chain, h, a) && Linked(chain, a) && i < |chain|
    requires forall b :: b in chain ==> Duration(b) >= 1
    ensures 0 <= First(chain[i], a) <= End(chain[i], a) <= h
  {
    assert 0 <= Begin(chain[i].ops[0], a);
    if i < |chain| - 1 {
      StartsIncrease(chain, a, i, |chain| - 1);
    }
  }

  /** Increasing places below the length are the places themselves. */
  lemma IncreasingIsIdentity(at: seq<nat>)
    requires forall k :: 0 <= k < |at| ==> at[k] < |at|
    requires forall k, l :: 0 <= k < l < |at| ==> at[k] < at[l]
    ensures forall k :: 0 <= k < |at| ==> at[k] == k
  {
    for k := 0 to |at|
      invariant forall l :: 0 <= l < k ==> at[l] >= l
    {
      if k > 0 {
        assert at[k - 1] < at[k];
      }
    }
    var k := |at|;
    while k > 0
      invariant 0 <= k <= |at|
      invariant forall l :: k <= l < |at| ==> at[l] <= l
    {
      k := k - 1;
      if k + 1 < |at| {
        assert at[k] < at[k + 1];
      }
    }
  }

  /** Where the sorted ids stand in the chain. */
  ghost predicate StandsAt(chain: seq<MilpBlock>, ids: seq<nat>, at: seq<nat>) {
    |at| == |ids| && forall k :: 0 <= k < |ids| ==> at[k] < |chain| && chain[at[k]].id == ids[k]
  }

  lemma PlacesInChain(chain: seq<MilpBlock>, ids: seq<nat>) returns (at: seq<nat>)
    requires forall k :: 0 <= k < |ids| ==> exists i :: 0 <= i < |chain| && chain[i].id == ids[k]
    ensures StandsAt(chain, ids, at)
  {
    at := [];
    for k := 0 to |ids|
      invariant |at| == k && forall l :: 0 <= l < k ==> at[l] < |chain| && chain[at[l]].id == ids[l]
    {
      var i :| 0 <= i < |chain| && chain[i].id == ids[k];
      at := at + [i];
    }
  }

  lemma LaterStartsLater(chain: seq<MilpBlock>, a: Assignment, i: nat, j: nat)
    requires WellFormedBlocks(chain) && Linked(chain, a) && i < |chain| && j < |chain| && i != j
    requires forall b :: b in chain ==> Duration(b) >= 1
    requires FirstOf(chain, a, chain[i].id) <= FirstOf(chain, a, chain[j].id)
    ensures i < j
  {
    TimesOf(chain, a, chain[i]);
    TimesOf(chain, a, chain[j]);
    if j < i {
      StartsIncrease(chain, a, j, i);
    }
  }

  /** Sorting the blocks of a solution by start time gives back the chain. */
  lemma SortedIsChain(chain: seq<MilpBlock>, h: int, a: Assignment, ids: seq<nat>)
    requires WellFormedBlocks(chain) && |chain| >= 2 && Deadlined(chain, h, a)
    requires forall b :: b in chain ==> Duration(b) >= 1
    requires |ids| == |chain| && Distinct(ids) && forall k :: 0 <= k < |ids| ==> exists i :: 0 <= i < |chain| && chain[i].id == ids[k]
    requires forall k, l :: 0 <= k < l < |ids| ==> FirstOf(chain, a, ids[k]) <= FirstOf(chain, a, ids[l])
    ensures forall k :: 0 <= k < |ids| ==> ids[k] == chain[k].id
  {
    var at := PlacesInChain(chain, ids);
    SolutionIsLinked(chain, h, a);
    forall k, l | 0 <= k < l < |at| ensures at[k] < at[l] {
      assert ids[k] != ids[l];
      LaterStartsLater(chain, a, at[k], at[l]);
    }
    IncreasingIsIdentity(at);
  }

  lemma PairFcfs(p: Precedence, a: Assignment)
    requires WellFormed(p.0) && WellFormed(p.1) && Runs(p.0, a) && Runs(p.1, a) && NonEmpty(p) && After(p, a)
    ensures FcfsConsistent(p, a)
  {
    forall k: nat | k < |p.0.tasks| && k < |p.1.tasks| && p.0.tasks[k].ops != [] && p.1.tasks[k].ops != []
      ensures SlotBefore(p.0, p.1, k, 1, a)
    {
      TaskSpan(p.0, a, k);
      TaskSpan(p.1, a, k);
    }
  }

  lemma PairAfter(chain: seq<MilpBlock>, a: Assignment, p: Precedence, i: nat)
    requires WellFormedBlocks(chain) && i + 1 < |chain| && InPrecedence(ChainOf(chain), a) && p == ChainOf(chain)[i]
    ensures p == (chain[i], chain[i + 1]) && WellFormed(p.0) && WellFormed(p.1) && NonEmpty(p) && After(p, a)
  {
    assert p in ChainOf(chain);
    assert WellFormed(chain[i]) && WellFormed(chain[i + 1]);
  }

  /** The first-come-first-served constraints follow from the others. */
  lemma FcfsIsImplied(chain: seq<MilpBlock>, a: Assignment, i: nat)
    requires WellFormedBlocks(chain) && i + 1 < |chain| && Timings(chain, a) && InPrecedence(ChainOf(chain), a)
    ensures FcfsConsistent(ChainOf(chain)[i], a)
  {
    var p := ChainOf(chain)[i];
    ChainRunsThrough(chain, a, i);
    ChainRunsThrough(chain, a, i + 1);
    PairAfter(chain, a, p, i);
    PairFcfs(p, a);
  }

  // ---------- the model in start times ----------

  /** Block `i + 1` starts one gap after block `i` ends, and the gap is at least the least gap. */
  ghost predicate GapHolds(chain: seq<MilpBlock>, i: nat, a: Assignment)
    requires i + 1 < |chain| && chain[i].ops != []
  {
    var gap, last := a(Gap(chain[i].id, chain[i + 1].id)), |chain[i].ops| - 1;
    && a(Start(chain[i + 1].id, 0)) == a(Start(chain[i].id, last)) + chain[i].ops[last].duration + gap
    && gap >= a(MinGap)
  }

  /** Starts and the least gap are nonnegative, blocks run through, gaps separate them, and the last one ends in time. */
  ghost predicate Spaced(chain: seq<MilpBlock>, h: int, a: Assignment)
    requires chain != [] && forall i :: 0 <= i < |chain| ==> chain[i].ops != []
  {
    var tail := chain[|chain| - 1];
    && 0 <= a(MinGap)
    && (forall i, k: nat :: 0 <= i < |chain| && k < |chain[i].ops| ==> 0 <= a(Start(chain[i].id, k)))
    && (forall i :: 0 <= i < |chain| ==> BackToBack(chain[i], a))
    && (forall i: nat :: i + 1 < |chain| ==> GapHolds(chain, i, a))
    && a(Start(tail.id, |tail.ops| - 1)) + tail.ops[|tail.ops| - 1].duration <= h
  }

  lemma OpsStart(chain: seq<MilpBlock>, a: Assignment)
    requires WellFormedBlocks(chain)
    ensures forall i :: 0 <= i < |chain| ==> chain[i].ops != []
    ensures forall i, k: nat :: 0 <= i < |chain| && k < |chain[i].ops| ==> Begin(chain[i].ops[k], a) == a(Start(chain[i].id, k))
  {
    forall i | 0 <= i < |chain| ensures chain[i].ops != [] {
      assert WellFormed(chain[i]);
    }
    forall i, k: nat | 0 <= i < |chain| && k < |chain[i].ops| ensures Begin(chain[i].ops[k], a) == a(Start(chain[i].id, k)) {
      assert WellFormed(chain[i]);
    }
  }

  lemma RunsChainTasks(b: MilpBlock, a: Assignment)
    requires WellFormed(b) && ChainedOps(b.ops, a)
    ensures TasksChained(b, a)
  {
    if HasSequence(b) {
      var n := |b.ops|;
      QuantumParts(b, n - 2);
      QuantumParts(b, n - 1);
      assert Begin(b.ops[0 + 1], a) - Begin(b.ops[0], a) == b.ops[0].duration;
      assert Begin(b.ops[(n - 2) + 1], a) - Begin(b.ops[n - 2], a) == b.ops[n - 2].duration;
    }
  }

  lemma TimingsMean(chain: seq<MilpBlock>, a: Assignment, i: nat)
    requires WellFormedBlocks(chain) && i < |chain|
    ensures BackToBack(chain[i], a) <==>
              TasksChained(chain[i], a) && forall t :: 0 <= t < |chain[i].tasks| ==> ChainedOps(chain[i].tasks[t].ops, a)
  {
    var b := chain[i];
    BackToBackChains(b, a);
    if TasksChained(b, a) && forall t :: 0 <= t < |b.tasks| ==> ChainedOps(b.tasks[t].ops, a) {
      TasksChainedRuns(b, a);
      RunsChained(b, a);
    }
    if BackToBack(b, a) {
      ChainedRuns(b, a);
      RunsChainTasks(b, a);
    }
  }

  lemma SpacedGaps(chain: seq<MilpBlock>, a: Assignment, i: nat, p: Precedence)
    requires i + 1 < |chain| && chain[i].ops != [] && chain[i + 1].ops != [] && GapHolds(chain, i, a) && 0 <= a(MinGap)
    requires forall j, k: nat :: 0 <= j < |chain| && k < |chain[j].ops| ==> Begin(chain[j].ops[k], a) == a(Start(chain[j].id, k))
    requires p == (chain[i], chain[i + 1])
    ensures NonEmpty(p) && After(p, a) && GapDefined(p, a) && 0 <= GapAfter(chain, a, i)
  {
  }

  lemma SpacedIsDeadlined(chain: seq<MilpBlock>, h: int, a: Assignment)
    requires WellFormedBlocks(chain) && |chain| >= 2 && (forall i :: 0 <= i < |chain| ==> chain[i].ops != []) && Spaced(chain, h, a)
    ensures Deadlined(chain, h, a)
  {
    OpsStart(chain, a);
    forall i | 0 <= i < |chain|
      ensures TasksChained(chain[i], a) && forall t :: 0 <= t < |chain[i].tasks| ==> ChainedOps(chain[i].tasks[t].ops, a)
    {
      TimingsMean(chain, a, i);
    }
    var precs := ChainOf(chain);
    forall i: nat | i + 1 < |chain|
      ensures precs[i] == (chain[i], chain[i + 1]) && NonEmpty(precs[i]) && After(precs[i], a) && GapDefined(precs[i], a)
      ensures 0 <= GapAfter(chain, a, i)
    {
      SpacedGaps(chain, a, i, precs[i]);
    }
    forall i | 0 <= i < |precs| ensures FcfsConsistent(precs[i], a) {
      FcfsIsImplied(chain, a, i);
    }
  }

  lemma DeadlinedIsSpaced(chain: seq<MilpBlock>, h: int, a: Assignment)
    requires WellFormedBlocks(chain) && |chain| >= 2 && (forall i :: 0 <= i < |chain| ==> chain[i].ops != []) && Deadlined(chain, h, a)
    ensures Spaced(chain, h, a)
  {
    OpsStart(chain, a);
    SolutionIsLinked(chain, h, a);
    forall i | 0 <= i < |chain| ensures BackToBack(chain[i], a) {
      TimingsMean(chain, a, i);
    }
    forall i: nat | i + 1 < |chain| ensures GapHolds(chain, i, a) {
      assert LinkAt(chain, a, i);
    }
    forall i, k: nat | 0 <= i < |chain| && k < |chain[i].ops| ensures 0 <= a(Start(chain[i].id, k)) {
      assert 0 <= Begin(chain[i].ops[k], a);
    }
  }

  /** The solutions of the deadline model are exactly the assignments that space the chain. */
  lemma DeadlinedExactly(chain: seq<MilpBlock>, h: int, a: Assignment)
    requires WellFormedBlocks(chain) && |chain| >= 2
    ensures forall i :: 0 <= i < |chain| ==> chain[i].ops != []
    ensures Deadlined(chain, h, a) <==> Spaced(chain, h, a)
  {
    OpsStart(chain, a);
    if Spaced(chain, h, a) {
      SpacedIsDeadlined(chain, h, a);
    }
    if Deadlined(chain, h, a) {
      DeadlinedIsSpaced(chain, h, a);
    }
  }

  // ---------- reading the deadlines ----------

  ghost predicate Plain(blocks: seq<MilpBlock>) {
    && (forall i, j :: 0 <= i < j < |blocks| ==> blocks[i].id != blocks[j].id)
    && (forall i :: 0 <= i < |blocks| ==> blocks[i].ops != [])
  }

  /** The distance from the end of the first block, in 32-bit arithmetic; a negative one becomes the deadline before plus one. */
  ghost predicate DeadlineAt(ordered: seq<MilpBlock>, a: Assignment, deadlines: map<nat, int>, i: nat)
    requires i < |ordered| && Plain(ordered)
  {
    var distance := I32(First(ordered[i], a) - End(ordered[0], a));
    && ordered[i].id in deadlines && (i > 0 ==> ordered[i - 1].id in deadlines)
    && deadlines[ordered[i].id] == if distance >= 0 then distance else U32(1 + if i > 0 then deadlines[ordered[i - 1].id] else 0)
  }

  lemma WrapsBack(x: int)
    ensures U32(I32(U32(x))) == U32(x) && (I32(x) >= 0 ==> U32(I32(x)) == I32(x))
  {
  }

  /** Deadlines relative to the end of the first block. */
  method ComputeDeadlines(ordered: seq<MilpBlock>, a: Assignment) returns (deadlines: map<nat, int>, ref: Option<nat>)
    ensures ordered == [] || ordered[0].ops == [] ==> deadlines == map[] && ref == None
    ensures ordered != [] && Plain(ordered) ==> ref == Some(ordered[0].id)
    ensures ordered != [] && Plain(ordered) ==> forall i :: 0 <= i < |ordered| ==> DeadlineAt(ordered, a, deadlines, i)
    ensures forall id :: id in deadlines ==> exists i :: 0 <= i < |ordered| && ordered[i].id == id
  {
    deadlines, ref := map[], None;
    if ordered == [] || ordered[0].ops == [] {
      return;
    }
    ref := Some(ordered[0].id);
    var refEnd := End(ordered[0], a);
    var lastValid := 0;
    for k := 0 to |ordered|
      invariant Plain(ordered) ==> forall i :: 0 <= i < k ==> DeadlineAt(ordered, a, deadlines, i)
      invariant k == 0 ==> lastValid == 0
      invariant k > 0 && Plain(ordered) ==> ordered[k - 1].id in deadlines && lastValid == deadlines[ordered[k - 1].id]
      invariant forall id :: id in deadlines ==> exists i :: 0 <= i < k && ordered[i].id == id
    {
      if ordered[k].ops != [] {
        var deadline := I32(First(ordered[k], a) - refEnd);
        WrapsBack(First(ordered[k], a) - refEnd);
        if deadline < 0 {
          WrapsBack(lastValid + 1);
          deadline := I32(U32(lastValid + 1));
        }
        ghost var before := deadlines;
        deadlines := deadlines[ordered[k].id := U32(deadline)];
        if Plain(ordered) {
          assert k > 0 ==> DeadlineAt(ordered, a, before, k - 1);
          forall i | 0 <= i < k ensures DeadlineAt(ordered, a, deadlines, i) {
            assert DeadlineAt(ordered, a, before, i) && ordered[i].id != ordered[k].id;
            assert i > 0 ==> ordered[i - 1].id != ordered[k].id;
          }
          assert DeadlineAt(ordered, a, deadlines, k);
        }
        lastValid := U32(deadline);
      }
    }
  }

  /** A deadline that fits 32 bits is the distance itself, and that of the reference block is 1. */
  lemma DeadlineIs(chain: seq<MilpBlock>, a: Assignment, deadlines: map<nat, int>, i: nat)
    requires i < |chain| && Plain(chain) && DeadlineAt(chain, a, deadlines, i)
    requires -0x8000_0000 <= First(chain[i], a) - End(chain[0], a) < 0x8000_0000
    ensures First(chain[i], a) >= End(chain[0], a) ==> deadlines[chain[i].id] == First(chain[i], a) - End(chain[0], a)
    ensures i == 0 && First(chain[0], a) < End(chain[0], a) ==> deadlines[chain[0].id] == 1
  {
    MachineExact(First(chain[i], a) - End(chain[0], a));
    MachineExact(1);
  }

  lemma DistancesFit(chain: seq<MilpBlock>, h: int, a: Assignment)
    requires |chain| >= 2 && Deadlined(chain, h, a) && Linked(chain, a) && h < 0x8000_0000
    requires forall b :: b in chain ==> Duration(b) >= 1
    ensures -0x8000_0000 <= First(chain[0], a) - End(chain[0], a) < 0
    ensures forall i :: 1 <= i < |chain| ==> 0 <= First(chain[i], a) - End(chain[0], a) == Elapsed(chain, a, i) < 0x8000_0000
  {
    assert chain[0] in chain;
    EndsWithin(chain, h, a, 0);
    forall i | 1 <= i < |chain| ensures 0 <= First(chain[i], a) - End(chain[0], a) == Elapsed(chain, a, i) < 0x8000_0000 {
      StartFromReference(chain, a, i);
      EndsWithin(chain, h, a, i);
    }
  }

  lemma ElapsedGrows(chain: seq<MilpBlock>, a: Assignment, i: nat)
    requires Linked(chain, a) && 1 <= i && i + 1 < |chain|
    ensures Elapsed(chain, a, i + 1) >= Elapsed(chain, a, i) + Duration(chain[i]) + a(MinGap)
  {
    assert LinkAt(chain, a, i);
  }

  /** The reference block has deadline 1, and every later one the summed gaps and durations since the reference block. */
  ghost predicate SumsUp(chain: seq<MilpBlock>, a: Assignment, deadlines: map<nat, int>)
    requires chain != []
  {
    && (forall i :: 0 <= i < |chain| ==> chain[i].id in deadlines)
    && deadlines[chain[0].id] == 1
    && forall i :: 1 <= i < |chain| ==> deadlines[chain[i].id] == Elapsed(chain, a, i) >= 0
  }

  lemma DeadlinesSumUp(chain: seq<MilpBlock>, a: Assignment, deadlines: map<nat, int>)
    requires chain != [] && Plain(chain) && forall i :: 0 <= i < |chain| ==> DeadlineAt(chain, a, deadlines, i)
    requires -0x8000_0000 <= First(chain[0], a) - End(chain[0], a) < 0
    requires forall i :: 1 <= i < |chain| ==> 0 <= First(chain[i], a) - End(chain[0], a) == Elapsed(chain, a, i) < 0x8000_0000
    ensures SumsUp(chain, a, deadlines)
  {
    DeadlineIs(chain, a, deadlines, 0);
    forall i | 0 <= i < |chain| ensures chain[i].id in deadlines && (i > 0 ==> deadlines[chain[i].id] == Elapsed(chain, a, i) >= 0) {
      assert DeadlineAt(chain, a, deadlines, i);
      if i > 0 {
        DeadlineIs(chain, a, deadlines, i);
      }
    }
  }

  /** For any solution of the deadline model: the reference block alone is fixed up; every later deadline is the sum
      of the gaps and durations since the reference block; and deadlines grow by at least a duration and the least gap. */
  method DeadlinesOfSolution(chain: seq<MilpBlock>, ghost h: int, a: Assignment) returns (deadlines: map<nat, int>, ref: Option<nat>)
    requires WellFormedBlocks(chain) && |chain| >= 2 && Deadlined(chain, h, a) && h < 0x8000_0000
    requires forall b :: b in chain ==> Duration(b) >= 1
    ensures ref == Some(chain[0].id) && SumsUp(chain, a, deadlines)
    ensures forall id :: id in deadlines ==> exists i :: 0 <= i < |chain| && chain[i].id == id
    ensures forall i :: 1 <= i && i + 1 < |chain| ==> deadlines[chain[i + 1].id] >= deadlines[chain[i].id] + Duration(chain[i]) + a(MinGap)
  {
    SolutionIsLinked(chain, h, a);
    deadlines, ref := ComputeDeadlines(chain, a);
    DistancesFit(chain, h, a);
    DeadlinesSumUp(chain, a, deadlines);
    forall i | 1 <= i && i + 1 < |chain| ensures deadlines[chain[i + 1].id] >= deadlines[chain[i].id] + Duration(chain[i]) + a(MinGap) {
      ElapsedGrows(chain, a, i);
    }
  }
}
