/** What every feasible assignment of the block-order model guarantees, and that there always is one. */
module MilpSchedule {
  import opened Wrappers
  import opened Graph
  import opened Closure
  import opened MilpModel
  import opened MilpOrder

  function First(b: MilpBlock, a: Assignment): int
    requires b.ops != []
  {
    Begin(b.ops[0], a)
  }

  function End(b: MilpBlock, a: Assignment): int
    requires b.ops != []
  {
    Begin(b.ops[|b.ops| - 1], a) + b.ops[|b.ops| - 1].duration
  }

  /** The precedences relate blocks of the model. */
  ghost predicate PrecedencesWithin(blocks: seq<MilpBlock>, precs: seq<Precedence>) {
    forall p :: p in precs ==> p.0 in blocks && p.1 in blocks
  }

  lemma {:induction false} ChainStart(ops: seq<Operation>, a: Assignment, k: nat)
    requires ChainedOps(ops, a) && k < |ops|
    ensures Begin(ops[k], a) == Begin(ops[0], a) + SumDurations(ops[..k])
  {
    if k > 0 {
      ChainStart(ops, a, k - 1);
      SumPrefix(ops, k - 1);
      assert Begin(ops[(k - 1) + 1], a) - Begin(ops[k - 1], a) == ops[k - 1].duration;
    }
  }

  /** The tasks of the block run back to back inside and between one another. */
  ghost predicate Runs(b: MilpBlock, a: Assignment) {
    && (forall t :: 0 <= t < |b.tasks| ==> ChainedOps(b.tasks[t].ops, a))
    && (HasSequence(b) ==> Sequenced(b, a))
  }

  lemma QuantumParts(b: MilpBlock, k: nat)
    requires WellFormed(b) && HasSequence(b) && 0 < k < |b.ops|
    ensures |b.tasks[1].ops| == |b.ops| - 2 && b.tasks[0].ops == [b.ops[0]] && b.tasks[2].ops == [b.ops[|b.ops| - 1]]
    ensures k - 1 <= |b.tasks[1].ops| && (k < |b.ops| - 1 ==> b.tasks[1].ops[k - 1] == b.ops[k])
    ensures b.tasks[1].ops[0] == b.ops[1]
    ensures SumDurations(b.ops[..k]) == SumDurations(b.tasks[0].ops) + SumDurations(b.tasks[1].ops[..k - 1])
  {
    var head, middle := [b.ops[0]], b.tasks[1].ops;
    assert b.ops[..k] == head + middle[..k - 1];
    SumSplit(head, middle[..k - 1]);
  }

  lemma QuantumRunsThrough(b: MilpBlock, a: Assignment, k: nat)
    requires WellFormed(b) && Runs(b, a) && HasSequence(b) && 0 < k < |b.ops|
    ensures First(b, a) + SumDurations(b.ops[..k]) == Begin(b.ops[k], a)
  {
    QuantumParts(b, k);
    var middle := b.tasks[1].ops;
    if k < |b.ops| - 1 {
      assert ChainedOps(b.tasks[1].ops, a);
      ChainStart(middle, a, k - 1);
    } else {
      assert middle[..k - 1] == middle;
    }
  }

  /** A block runs without a gap: every operation starts at the block's start plus the durations before it. */
  lemma RunsThrough(b: MilpBlock, a: Assignment, k: nat)
    requires WellFormed(b) && Runs(b, a) && k < |b.ops|
    ensures First(b, a) + SumDurations(b.ops[..k]) == Begin(b.ops[k], a)
  {
    match b.kind {
      case CC =>
      case CL =>
        assert ChainedOps(b.tasks[0].ops, a);
        ChainStart(b.ops, a, k);
      case _ =>
        if k > 0 {
          QuantumRunsThrough(b, a, k);
        }
    }
  }

  lemma BlockLasts(b: MilpBlock, a: Assignment)
    requires WellFormed(b) && Runs(b, a)
    ensures End(b, a) == First(b, a) + Duration(b)
  {
    var n := |b.ops| - 1;
    RunsThrough(b, a, n);
    SumPrefix(b.ops, n);
    assert b.ops[..n + 1] == b.ops;
  }

  lemma FeasibleRuns(blocks: seq<MilpBlock>, precs: seq<Precedence>, a: Assignment, b: MilpBlock)
    requires Feasible(blocks, precs, a) && b in blocks
    ensures Runs(b, a)
  {
    var i :| 0 <= i < |blocks| && blocks[i] == b;
  }

  lemma SameBlock(blocks: seq<MilpBlock>, x: MilpBlock, y: MilpBlock)
    requires WellFormedBlocks(blocks) && x in blocks && y in blocks && x.id == y.id
    ensures x == y
  {
    var i :| 0 <= i < |blocks| && blocks[i] == x;
    var j :| 0 <= j < |blocks| && blocks[j] == y;
  }

  /** The block with the given id, if there is one. */
  ghost function BlockWith(blocks: seq<MilpBlock>, id: nat): Option<MilpBlock> {
    if b :| b in blocks && b.id == id then Some(b) else None
  }

  ghost function FirstOf(blocks: seq<MilpBlock>, a: Assignment, id: nat): int {
    var b := BlockWith(blocks, id);
    if b.Some? && b.value.ops != [] then First(b.value, a) else 0
  }

  ghost function EndOf(blocks: seq<MilpBlock>, a: Assignment, id: nat): int {
    var b := BlockWith(blocks, id);
    if b.Some? && b.value.ops != [] then End(b.value, a) else 0
  }

  lemma TimesOf(blocks: seq<MilpBlock>, a: Assignment, b: MilpBlock)
    requires WellFormedBlocks(blocks) && b in blocks
    ensures b.ops != [] && FirstOf(blocks, a, b.id) == First(b, a) && EndOf(blocks, a, b.id) == End(b, a)
  {
    assert WellFormed(b);
    SameBlock(blocks, BlockWith(blocks, b.id).value, b);
  }

  lemma EdgeEndsBefore(blocks: seq<MilpBlock>, a: Assignment, e: Precedence)
    requires WellFormedBlocks(blocks) && e.0 in blocks && e.1 in blocks
    requires (NonEmpty(e) ==> After(e, a)) && Runs(e.1, a)
    ensures EndOf(blocks, a, e.0.id) <= FirstOf(blocks, a, e.1.id) <= EndOf(blocks, a, e.1.id)
  {
    TimesOf(blocks, a, e.0);
    TimesOf(blocks, a, e.1);
    assert WellFormed(e.1);
    BlockLasts(e.1, a);
  }

  ghost predicate Timed(blocks: seq<MilpBlock>, g: Digraph, a: Assignment) {
    forall x: nat, y: nat {:trigger y in Succ(g, x)} :: y in Succ(g, x) ==> EndOf(blocks, a, x) <= FirstOf(blocks, a, y) <= EndOf(blocks, a, y)
  }

  lemma EdgeOf(precs: seq<Precedence>, x: nat, y: nat) returns (e: Precedence)
    requires y in Succ(PairGraph(EdgesOf(precs)), x)
    ensures e in precs && e.0.id == x && e.1.id == y
  {
    PairEdges(EdgesOf(precs));
    e :| e in precs && (e.0.id, e.1.id) == (x, y);
  }

  ghost predicate AllRun(blocks: seq<MilpBlock>, a: Assignment) {
    forall b :: b in blocks ==> Runs(b, a)
  }

  lemma EdgeTimed(blocks: seq<MilpBlock>, precs: seq<Precedence>, a: Assignment, x: nat, y: nat)
    requires WellFormedBlocks(blocks) && PrecedencesWithin(blocks, precs) && InPrecedence(precs, a) && AllRun(blocks, a)
    requires y in Succ(PairGraph(EdgesOf(precs)), x)
    ensures EndOf(blocks, a, x) <= FirstOf(blocks, a, y) <= EndOf(blocks, a, y)
  {
    var e := EdgeOf(precs, x, y);
    EdgeEndsBefore(blocks, a, e);
  }

  lemma PrecedencesTimed(blocks: seq<MilpBlock>, precs: seq<Precedence>, a: Assignment, g: Digraph)
    requires WellFormedBlocks(blocks) && PrecedencesWithin(blocks, precs) && InPrecedence(precs, a) && AllRun(blocks, a)
    requires g == PairGraph(EdgesOf(precs))
    ensures Timed(blocks, g, a)
  {
    forall x: nat, y: nat {:trigger y in Succ(g, x)} | y in Succ(g, x)
      ensures EndOf(blocks, a, x) <= FirstOf(blocks, a, y) <= EndOf(blocks, a, y)
    {
      EdgeTimed(blocks, precs, a, x, y);
    }
  }

  lemma ReachTimed(blocks: seq<MilpBlock>, g: Digraph, a: Assignment, x: nat, y: nat)
    requires Timed(blocks, g, a) && Reach(g, x, y)
    ensures EndOf(blocks, a, x) <= FirstOf(blocks, a, y)
  {
    var begins, ends := (id: nat) => FirstOf(blocks, a, id), (id: nat) => EndOf(blocks, a, id);
    var n: nat :| Steps(g, x, y, n);
    TimedWalk(g, begins, ends, x, y, n);
  }

  /** A block that reaches another by precedences has ended when the other starts. */
  lemma ReachEndsBefore(blocks: seq<MilpBlock>, precs: seq<Precedence>, a: Assignment, p: MilpBlock, q: MilpBlock)
    requires WellFormedBlocks(blocks) && PrecedencesWithin(blocks, precs) && Feasible(blocks, precs, a)
    requires p in blocks && q in blocks && Reach(PairGraph(EdgesOf(precs)), p.id, q.id)
    ensures p.ops != [] && q.ops != [] && End(p, a) <= First(q, a)
  {
    forall b | b in blocks ensures Runs(b, a) {
      FeasibleRuns(blocks, precs, a, b);
    }
    PrecedencesTimed(blocks, precs, a, PairGraph(EdgesOf(precs)));
    ReachTimed(blocks, PairGraph(EdgesOf(precs)), a, p.id, q.id);
    TimesOf(blocks, a, p);
    TimesOf(blocks, a, q);
  }

  /** Every task slot the pair is compared on is won by `b1`. */
  ghost predicate Wins(b1: MilpBlock, b2: MilpBlock, a: Assignment)
    requires TaskBearing(b1) && TaskBearing(b2)
  {
    forall r :: 0 <= r < |Slots(b1, b2)| ==> SlotBefore(b1, b2, Slots(b1, b2)[r], 0, a)
  }

  /** Two blocks left unordered have one winner in all compared slots. */
  lemma OneWinner(blocks: seq<MilpBlock>, precs: seq<Precedence>, a: Assignment, i: nat, j: nat)
    requires Feasible(blocks, precs, a) && i < j < |blocks|
    requires Competing(PairGraph(EdgesOf(precs)), blocks[i], blocks[j])
    ensures Wins(blocks[i], blocks[j], a) || Wins(blocks[j], blocks[i], a)
    ensures a(Select(blocks[i].id, blocks[j].id)) == 1 <==> Wins(blocks[i], blocks[j], a)
    ensures a(Select(blocks[i].id, blocks[j].id)) == 0 <==> Wins(blocks[j], blocks[i], a)
  {
    var b1, b2 := blocks[i], blocks[j];
    var z := a(Select(b1.id, b2.id));
    assert Exclusive(b1, b2, BigM(blocks), a);
    var m := BigM(blocks);
    assert z == 1 ==> m - m * z == 0;
    assert z == 0 ==> m * z == 0;
    assert Slots(b1, b2) == Slots(b2, b1);
    assert Slots(b1, b2)[0] == 0;
    if z == 1 {
      forall r | 0 <= r < |Slots(b1, b2)| ensures SlotBefore(b1, b2, Slots(b1, b2)[r], 0, a) {}
    } else {
      forall r | 0 <= r < |Slots(b1, b2)| ensures SlotBefore(b2, b1, Slots(b1, b2)[r], 0, a) {}
    }
  }

  predicate Disjoint(t1: Task, t2: Task, a: Assignment)
    requires t1.ops != [] && t2.ops != []
  {
    || Begin(t1.ops[0], a) + SumDurations(t1.ops) <= Begin(t2.ops[0], a)
    || Begin(t2.ops[0], a) + SumDurations(t2.ops) <= Begin(t1.ops[0], a)
  }

  lemma FirstTask(b: MilpBlock, a: Assignment)
    requires WellFormed(b) && Runs(b, a) && b.tasks != []
    ensures TaskBearing(b) && b.tasks[0].group == C && b.tasks[0].ops[0] == b.ops[0]
    ensures First(b, a) + SumDurations(b.tasks[0].ops) <= End(b, a)
  {
    BlockLasts(b, a);
    if !b.kind.CL? {
      SumPrefix(b.ops, 0);
      assert b.tasks[0].ops[..0] == [];
    }
  }

  /** In every feasible schedule the host runs the first tasks of any two blocks one after the other. */
  lemma HostTasksDisjoint(blocks: seq<MilpBlock>, precs: seq<Precedence>, a: Assignment, i: nat, j: nat)
    requires WellFormedBlocks(blocks) && PrecedencesWithin(blocks, precs) && Feasible(blocks, precs, a)
    requires i < j < |blocks| && blocks[i].tasks != [] && blocks[j].tasks != []
    ensures TaskBearing(blocks[i]) && TaskBearing(blocks[j]) && Disjoint(blocks[i].tasks[0], blocks[j].tasks[0], a)
  {
    var b1, b2 := blocks[i], blocks[j];
    var g := PairGraph(EdgesOf(precs));
    FeasibleRuns(blocks, precs, a, b1);
    FeasibleRuns(blocks, precs, a, b2);
    FirstTask(b1, a);
    FirstTask(b2, a);
    assert b1 in blocks && b2 in blocks;
    if Reach(g, b1.id, b2.id) {
      ReachEndsBefore(blocks, precs, a, b1, b2);
    } else if Reach(g, b2.id, b1.id) {
      ReachEndsBefore(blocks, precs, a, b2, b1);
    } else {
      OneWinner(blocks, precs, a, i, j);
      assert Slots(b1, b2)[0] == 0 && Slots(b2, b1)[0] == 0;
      if Wins(b1, b2, a) {
        assert SlotBefore(b1, b2, 0, 0, a);
      } else {
        assert SlotBefore(b2, b1, 0, 0, a);
      }
    }
  }

  // ---------- all tasks of quantum blocks ----------

  lemma OneSum(op: Operation)
    ensures SumDurations([op]) == op.duration
  {
    assert [op][..0] == [];
  }

  /** Task `k` of a quantum block ends by the end of the block. */
  lemma QuantumTaskEnds(b: MilpBlock, a: Assignment, k: nat)
    requires WellFormed(b) && Runs(b, a) && |b.tasks| == 3 && k < 3
    ensures TaskBearing(b) && First(b, a) <= Begin(b.tasks[k].ops[0], a)
    ensures Begin(b.tasks[k].ops[0], a) + SumDurations(b.tasks[k].ops) <= End(b, a)
  {
    var n := |b.ops|;
    QuantumParts(b, n - 1);
    RunsThrough(b, a, 1);
    RunsThrough(b, a, n - 1);
    assert b.ops[..1] == [b.ops[0]];
    OneSum(b.ops[0]);
    OneSum(b.ops[n - 1]);
    assert b.tasks[1].ops[..n - 2] == b.tasks[1].ops;
  }

  /** In every feasible schedule the calls, the routines and the returns of any two quantum blocks run one after the other. */
  lemma QuantumTasksDisjoint(blocks: seq<MilpBlock>, precs: seq<Precedence>, a: Assignment, i: nat, j: nat, k: nat)
    requires WellFormedBlocks(blocks) && PrecedencesWithin(blocks, precs) && Feasible(blocks, precs, a)
    requires i < j < |blocks| && |blocks[i].tasks| == 3 && |blocks[j].tasks| == 3 && k < 3
    ensures TaskBearing(blocks[i]) && TaskBearing(blocks[j]) && Disjoint(blocks[i].tasks[k], blocks[j].tasks[k], a)
  {
    var b1, b2 := blocks[i], blocks[j];
    var g := PairGraph(EdgesOf(precs));
    FeasibleRuns(blocks, precs, a, b1);
    FeasibleRuns(blocks, precs, a, b2);
    QuantumTaskEnds(b1, a, k);
    QuantumTaskEnds(b2, a, k);
    assert b1 in blocks && b2 in blocks;
    if Reach(g, b1.id, b2.id) {
      ReachEndsBefore(blocks, precs, a, b1, b2);
    } else if Reach(g, b2.id, b1.id) {
      ReachEndsBefore(blocks, precs, a, b2, b1);
    } else {
      OneWinner(blocks, precs, a, i, j);
      assert Slots(b1, b2)[k] == k && Slots(b2, b1)[k] == k;
      if Wins(b1, b2, a) {
        assert SlotBefore(b1, b2, k, 0, a);
      } else {
        assert SlotBefore(b2, b1, k, 0, a);
      }
    }
  }

  // ---------- the model in start times ----------

  /** The operations of a block start one duration apart. */
  ghost predicate BackToBack(b: MilpBlock, a: Assignment) {
    forall k: nat :: k + 1 < |b.ops| ==> a(Start(b.id, k + 1)) == a(Start(b.id, k)) + b.ops[k].duration
  }

  /** The tasks at `k` are compared: the first ones always, the others when both blocks have all three. */
  ghost predicate Compared(b1: MilpBlock, b2: MilpBlock, k: nat) {
    k == 0 || (k < 3 && |b1.tasks| == 3 && |b2.tasks| == 3)
  }

  /** With selector 1, each compared task of `b1` ends a unit before that of `b2` starts, and with selector 0 the other
      way round; the order not chosen is slackened by `m`. */
  ghost predicate OneFirst(b1: MilpBlock, b2: MilpBlock, m: int, a: Assignment)
    requires b1.tasks != [] && b2.tasks != []
  {
    var z := a(Select(b1.id, b2.id));
    && (z == 0 || z == 1)
    && forall k: nat :: Compared(b1, b2, k) && b1.tasks[k].ops != [] && b2.tasks[k].ops != [] ==>
         var s1, s2 := a(StartOf(b1.tasks[k].ops[0])), a(StartOf(b2.tasks[k].ops[0]));
         && s2 - s1 - m * z >= SumDurations(b1.tasks[k].ops) + 1 - m
         && s1 - s2 + m * z >= SumDurations(b2.tasks[k].ops) + 1
  }

  /** Both blocks have tasks, and neither must follow the other. */
  ghost predicate Unordered(g: Digraph, b1: MilpBlock, b2: MilpBlock) {
    b1.tasks != [] && b2.tasks != [] && !Reach(g, b1.id, b2.id) && !Reach(g, b2.id, b1.id)
  }

  /** A schedule of the program: starts within twice the summed durations, blocks that run through, blocks that start
      after the blocks they must follow have ended, and unordered blocks with tasks one of which goes first. */
  ghost predicate Schedules(blocks: seq<MilpBlock>, precs: seq<Precedence>, a: Assignment) {
    var m := 2 * TotalDuration(blocks);
    && (forall b, k: nat :: b in blocks && k < |b.ops| ==> 0 <= a(Start(b.id, k)) <= m)
    && (forall b :: b in blocks ==> BackToBack(b, a))
    && (forall e :: e in precs && e.0.ops != [] ==>
          a(Start(e.1.id, 0)) >= a(Start(e.0.id, |e.0.ops| - 1)) + e.0.ops[|e.0.ops| - 1].duration)
    && (forall i, j :: 0 <= i < j < |blocks| && Unordered(PairGraph(EdgesOf(precs)), blocks[i], blocks[j]) ==>
          OneFirst(blocks[i], blocks[j], m, a))
  }

  lemma BackToBackChains(b: MilpBlock, a: Assignment)
    requires WellFormed(b)
    ensures BackToBack(b, a) <==> ChainedOps(b.ops, a)
  {
    forall k: nat | k < |b.ops| ensures Begin(b.ops[k], a) == a(Start(b.id, k)) {
    }
    if ChainedOps(b.ops, a) {
      forall k: nat | k + 1 < |b.ops| ensures a(Start(b.id, k + 1)) == a(Start(b.id, k)) + b.ops[k].duration {
        assert Begin(b.ops[k + 1], a) - Begin(b.ops[k], a) == b.ops[k].duration;
      }
    }
    if BackToBack(b, a) {
      forall k: nat | k + 1 < |b.ops| ensures Begin(b.ops[k + 1], a) - Begin(b.ops[k], a) == b.ops[k].duration {
        assert a(Start(b.id, k + 1)) == a(Start(b.id, k)) + b.ops[k].duration;
      }
    }
  }

  lemma RunsChained(b: MilpBlock, a: Assignment)
    requires WellFormed(b) && Runs(b, a)
    ensures ChainedOps(b.ops, a)
  {
    forall k: nat | k + 1 < |b.ops| ensures Begin(b.ops[k + 1], a) - Begin(b.ops[k], a) == b.ops[k].duration {
      RunsThrough(b, a, k);
      RunsThrough(b, a, k + 1);
      SumPrefix(b.ops, k);
    }
  }

  lemma ChainedRuns(b: MilpBlock, a: Assignment)
    requires WellFormed(b) && ChainedOps(b.ops, a)
    ensures Runs(b, a)
  {
    if HasSequence(b) {
      var n, middle := |b.ops|, b.tasks[1].ops;
      QuantumParts(b, n - 1);
      forall k: nat | k + 1 < |middle| ensures Begin(middle[k + 1], a) - Begin(middle[k], a) == middle[k].duration {
        assert Begin(b.ops[(k + 1) + 1], a) - Begin(b.ops[k + 1], a) == b.ops[k + 1].duration;
      }
      ChainStart(b.ops, a, 1);
      ChainStart(b.ops, a, n - 1);
      assert b.ops[..1] == [b.ops[0]] && middle[..n - 2] == middle;
    }
  }

  lemma ComparedIsSlot(b1: MilpBlock, b2: MilpBlock, k: nat)
    requires TaskBearing(b1) && TaskBearing(b2) && k < |b1.tasks| && k < |b2.tasks|
    ensures Compared(b1, b2, k) <==> k in Slots(b1, b2)
  {
    assert Slots(b1, b2)[0] == 0;
    if |b1.tasks| == 3 && |b2.tasks| == 3 {
      assert Slots(b1, b2)[1] == 1 && Slots(b1, b2)[2] == 2;
    }
  }

  lemma ExclusiveMeans(b1: MilpBlock, b2: MilpBlock, m: int, a: Assignment)
    requires TaskBearing(b1) && TaskBearing(b2)
    ensures Exclusive(b1, b2, m, a) <==> OneFirst(b1, b2, m, a)
  {
    forall k: nat | k < |b1.tasks| && k < |b2.tasks| ensures Compared(b1, b2, k) <==> k in Slots(b1, b2) {
      ComparedIsSlot(b1, b2, k);
    }
    var z := a(Select(b1.id, b2.id));
    if Exclusive(b1, b2, m, a) {
      forall k: nat | Compared(b1, b2, k) ensures SlotBefore(b1, b2, k, m - m * z, a) && SlotBefore(b2, b1, k, m * z, a) {
        var r :| 0 <= r < |Slots(b1, b2)| && Slots(b1, b2)[r] == k;
      }
    }
    if OneFirst(b1, b2, m, a) {
      forall r | 0 <= r < |Slots(b1, b2)| && Slots(b1, b2)[r] < |b1.tasks| && Slots(b1, b2)[r] < |b2.tasks|
        ensures SlotBefore(b1, b2, Slots(b1, b2)[r], m - m * z, a) && SlotBefore(b2, b1, Slots(b1, b2)[r], m * z, a)
      {
        assert Slots(b1, b2)[r] in Slots(b1, b2);
      }
    }
  }

  lemma CompetingMeans(g: Digraph, b1: MilpBlock, b2: MilpBlock)
    requires WellFormed(b1) && WellFormed(b2)
    ensures Competing(g, b1, b2) <==> Unordered(g, b1, b2)
    ensures b1.tasks != [] ==> TaskBearing(b1)
    ensures b2.tasks != [] ==> TaskBearing(b2)
  {
  }

  ghost predicate AllRuns(blocks: seq<MilpBlock>, a: Assignment) {
    forall i :: 0 <= i < |blocks| ==> Runs(blocks[i], a)
  }

  lemma TasksMean(blocks: seq<MilpBlock>, a: Assignment)
    requires WellFormedBlocks(blocks)
    ensures IntraTask(blocks, a) && IntraBlock(blocks, a) <==> forall b :: b in blocks ==> BackToBack(b, a)
  {
    assert IntraTask(blocks, a) && IntraBlock(blocks, a) <==> AllRuns(blocks, a);
    forall i | 0 <= i < |blocks| ensures Runs(blocks[i], a) <==> BackToBack(blocks[i], a) {
      BackToBackChains(blocks[i], a);
      if Runs(blocks[i], a) {
        RunsChained(blocks[i], a);
      }
      if ChainedOps(blocks[i].ops, a) {
        ChainedRuns(blocks[i], a);
      }
    }
    if AllRuns(blocks, a) {
      forall b | b in blocks ensures BackToBack(b, a) {
        var i :| 0 <= i < |blocks| && blocks[i] == b;
      }
    }
    if forall b :: b in blocks ==> BackToBack(b, a) {
      forall i | 0 <= i < |blocks| ensures Runs(blocks[i], a) {
        assert blocks[i] in blocks;
      }
    }
  }

  lemma FcfsMeans(blocks: seq<MilpBlock>, g: Digraph, m: int, a: Assignment)
    requires WellFormedBlocks(blocks)
    ensures Fcfs(blocks, g, m, a) <==>
            forall i, j :: 0 <= i < j < |blocks| && Unordered(g, blocks[i], blocks[j]) ==> OneFirst(blocks[i], blocks[j], m, a)
  {
    forall i, j | 0 <= i < j < |blocks|
      ensures Competing(g, blocks[i], blocks[j]) <==> Unordered(g, blocks[i], blocks[j])
      ensures Competing(g, blocks[i], blocks[j]) ==> (Exclusive(blocks[i], blocks[j], m, a) <==> OneFirst(blocks[i], blocks[j], m, a))
    {
      CompetingMeans(g, blocks[i], blocks[j]);
      if Competing(g, blocks[i], blocks[j]) {
        ExclusiveMeans(blocks[i], blocks[j], m, a);
      }
    }
  }

  lemma HorizonMeans(blocks: seq<MilpBlock>, m: int, a: Assignment)
    requires WellFormedBlocks(blocks)
    ensures InHorizon(blocks, m, a) <==> forall b, k: nat :: b in blocks && k < |b.ops| ==> 0 <= a(Start(b.id, k)) <= m
  {
    forall i, k | 0 <= i < |blocks| && 0 <= k < |blocks[i].ops| ensures Begin(blocks[i].ops[k], a) == a(Start(blocks[i].id, k)) {
      assert WellFormed(blocks[i]);
    }
    if InHorizon(blocks, m, a) {
      forall b, k: nat | b in blocks && k < |b.ops| ensures 0 <= a(Start(b.id, k)) <= m {
        var i :| 0 <= i < |blocks| && blocks[i] == b;
        assert 0 <= Begin(blocks[i].ops[k], a) <= m;
      }
    }
    if forall b, k: nat :: b in blocks && k < |b.ops| ==> 0 <= a(Start(b.id, k)) <= m {
      forall i, k: nat | 0 <= i < |blocks| && k < |blocks[i].ops| ensures 0 <= Begin(blocks[i].ops[k], a) <= m {
        assert blocks[i] in blocks;
      }
    }
  }

  lemma PrecedenceMeans(blocks: seq<MilpBlock>, precs: seq<Precedence>, a: Assignment)
    requires WellFormedBlocks(blocks) && PrecedencesWithin(blocks, precs)
    ensures InPrecedence(precs, a) <==> forall e :: e in precs && e.0.ops != [] ==>
              a(Start(e.1.id, 0)) >= a(Start(e.0.id, |e.0.ops| - 1)) + e.0.ops[|e.0.ops| - 1].duration
  {
    forall e | e in precs
      ensures NonEmpty(e)
      ensures After(e, a) <==> a(Start(e.1.id, 0)) >= a(Start(e.0.id, |e.0.ops| - 1)) + e.0.ops[|e.0.ops| - 1].duration
    {
      var i :| 0 <= i < |blocks| && blocks[i] == e.0;
      var j :| 0 <= j < |blocks| && blocks[j] == e.1;
      assert WellFormed(blocks[i]) && WellFormed(blocks[j]);
    }
  }

  /** The feasible assignments of the model are exactly the schedules of the program. */
  lemma FeasibleExactly(blocks: seq<MilpBlock>, precs: seq<Precedence>, a: Assignment)
    requires WellFormedBlocks(blocks) && PrecedencesWithin(blocks, precs)
    ensures Feasible(blocks, precs, a) <==> Schedules(blocks, precs, a)
  {
    HorizonMeans(blocks, BigM(blocks), a);
    TasksMean(blocks, a);
    PrecedenceMeans(blocks, precs, a);
    FcfsMeans(blocks, PairGraph(EdgesOf(precs)), BigM(blocks), a);
  }
}
