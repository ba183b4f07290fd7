/** The horizon never makes the block-order model infeasible: running the blocks one after the other along the
    precedences, with a unit gap, solves it. */
module MilpSerial {
  import opened Graph
  import opened Closure
  import opened MilpModel
  import opened MilpOrder
  import opened MilpSchedule

  lemma {:induction false} TotalSplit(s: seq<MilpBlock>, t: seq<MilpBlock>)
    ensures TotalDuration(s + t) == TotalDuration(s) + TotalDuration(t)
  {
    if t == [] {
      assert s + t == s;
    } else {
      var n := |t| - 1;
      assert (s + t)[..|s + t| - 1] == s + t[..n];
      TotalSplit(s, t[..n]);
    }
  }

  lemma TotalOne(b: MilpBlock)
    ensures TotalDuration([b]) == Duration(b)
  {
    assert [b][..0] == [];
  }

  ghost predicate DistinctIds(blocks: seq<MilpBlock>) {
    forall i, j :: 0 <= i < j < |blocks| ==> blocks[i].id != blocks[j].id
  }

  /** Along the line every edge leads to a later block. */
  ghost predicate InLine(g: Digraph, line: seq<MilpBlock>) {
    forall i, j :: 0 <= i < |line| && 0 <= j < |line| && line[j].id in Succ(g, line[i].id) ==> i < j
  }

  lemma TotalThree(head: seq<MilpBlock>, x: MilpBlock, tail: seq<MilpBlock>)
    ensures TotalDuration(head + [x] + tail) == TotalDuration(head) + Duration(x) + TotalDuration(tail)
  {
    TotalSplit(head + [x], tail);
    assert (head + [x])[..|head|] == head;
  }

  lemma TakeOutTotal(head: seq<MilpBlock>, x: MilpBlock, tail: seq<MilpBlock>)
    ensures TotalDuration(head + [x] + tail) == Duration(x) + TotalDuration(head + tail)
  {
    TotalThree(head, x, tail);
    TotalSplit(head, tail);
  }

  lemma TakeOut(blocks: seq<MilpBlock>, i: nat)
    requires DistinctIds(blocks) && i < |blocks|
    ensures DistinctIds(blocks[..i] + blocks[i + 1..])
    ensures forall b :: b in blocks[..i] + blocks[i + 1..] <==> b in blocks && b != blocks[i]
  {
    var rest := blocks[..i] + blocks[i + 1..];
    assert forall k :: 0 <= k < |rest| ==> rest[k] == blocks[if k < i then k else k + 1];
    forall b | b in blocks && b != blocks[i] ensures b in rest {
      var k :| 0 <= k < |blocks| && blocks[k] == b;
      assert rest[if k < i then k else k - 1] == b;
    }
  }

  lemma PutInFront(g: Digraph, x: MilpBlock, rest: seq<MilpBlock>)
    requires DistinctIds(rest) && InLine(g, rest)
    requires forall b :: b in rest ==> b.id != x.id && x.id !in Succ(g, b.id)
    requires x.id !in Succ(g, x.id)
    ensures DistinctIds([x] + rest) && InLine(g, [x] + rest)
    ensures TotalDuration([x] + rest) == Duration(x) + TotalDuration(rest)
  {
    var line := [x] + rest;
    forall q | 0 < q < |line| ensures line[q] in rest {
      assert line[q] == rest[q - 1];
    }
    forall p, q | 0 <= p < |line| && 0 <= q < |line| && line[q].id in Succ(g, line[p].id) ensures p < q {
      if p > 0 && q > 0 {
        assert line[p] == rest[p - 1] && line[q] == rest[q - 1];
      }
    }
    TotalOne(x);
    TotalSplit([x], rest);
  }

  lemma SourceBlock(g: Digraph, blocks: seq<MilpBlock>) returns (i: nat)
    requires Acyclic(g) && blocks != []
    ensures i < |blocks| && forall b :: b in blocks ==> blocks[i].id !in Succ(g, b.id)
  {
    var ids := set b | b in blocks :: b.id;
    assert blocks[0] in blocks && blocks[0].id in ids;
    var s := FindSource(g, ids, blocks[0].id);
    i :| 0 <= i < |blocks| && blocks[i].id == s;
  }

  /** The blocks of an acyclic precedence graph can be put in line. */
  lemma PutInLine(g: Digraph, blocks: seq<MilpBlock>) returns (line: seq<MilpBlock>)
    requires Acyclic(g) && DistinctIds(blocks)
    ensures |line| == |blocks| && DistinctIds(line) && InLine(g, line)
    ensures forall b :: b in line <==> b in blocks
    ensures TotalDuration(line) == TotalDuration(blocks)
    decreases |blocks|
  {
    if blocks == [] {
      line := [];
    } else {
      var i := SourceBlock(g, blocks);
      TakeOut(blocks, i);
      TakeOutTotal(blocks[..i], blocks[i], blocks[i + 1..]);
      assert blocks == blocks[..i] + [blocks[i]] + blocks[i + 1..];
      var rest := PutInLine(g, blocks[..i] + blocks[i + 1..]);
      assert blocks[i] in blocks;
      forall b | b in rest ensures b.id != blocks[i].id && blocks[i].id !in Succ(g, b.id) {
        var j :| 0 <= j < |blocks| && blocks[j] == b;
      }
      PutInFront(g, blocks[i], rest);
      line := [blocks[i]] + rest;
    }
  }

  /** When the block at place `i` of the line starts. */
  function Offset(line: seq<MilpBlock>, i: nat): int
    requires i <= |line|
  {
    TotalDuration(line[..i]) + i
  }

  lemma {:induction false} OffsetGrows(line: seq<MilpBlock>, i: nat, j: nat)
    requires i < j <= |line|
    ensures Offset(line, i) + Duration(line[i]) + 1 <= Offset(line, j)
    decreases j
  {
    assert line[..j][..j - 1] == line[..j - 1];
    if i < j - 1 {
      OffsetGrows(line, i, j - 1);
    }
  }

  lemma OffsetBound(line: seq<MilpBlock>, i: nat)
    requires i < |line|
    ensures 0 <= Offset(line, i) && Offset(line, i) + Duration(line[i]) + 1 <= TotalDuration(line) + |line|
  {
    OffsetGrows(line, i, |line|);
    assert line[..|line|] == line;
  }

  ghost function PlaceOf(line: seq<MilpBlock>, id: nat): int {
    if i :| 0 <= i < |line| && line[i].id == id then i else -1
  }

  ghost function Serial(line: seq<MilpBlock>, v: Var): int {
    match v
    case Start(id, k) =>
      var i := PlaceOf(line, id);
      if 0 <= i < |line| && k <= |line[i].ops| then Offset(line, i) + SumDurations(line[i].ops[..k]) else 0
    case Select(x, y) =>
      if PlaceOf(line, x) < PlaceOf(line, y) then 1 else 0
    case _ => 0
  }

  ghost function SerialAssignment(line: seq<MilpBlock>): Assignment {
    (v: Var) => Serial(line, v)
  }

  lemma SerialBegins(line: seq<MilpBlock>, i: nat, k: nat)
    requires DistinctIds(line) && i < |line| && WellFormed(line[i]) && k < |line[i].ops|
    ensures PlaceOf(line, line[i].id) == i
    ensures Begin(line[i].ops[k], SerialAssignment(line)) == Offset(line, i) + SumDurations(line[i].ops[..k])
    ensures Begin(line[i].ops[k], SerialAssignment(line)) + line[i].ops[k].duration <= Offset(line, i) + Duration(line[i])
  {
    SumPrefix(line[i].ops, k);
  }

  lemma SerialChains(line: seq<MilpBlock>, i: nat)
    requires DistinctIds(line) && i < |line| && WellFormed(line[i])
    ensures ChainedOps(line[i].ops, SerialAssignment(line))
  {
    var ops := line[i].ops;
    forall k: nat | k + 1 < |ops|
      ensures Begin(ops[k + 1], SerialAssignment(line)) - Begin(ops[k], SerialAssignment(line)) == ops[k].duration
    {
      SerialBegins(line, i, k);
      SerialBegins(line, i, k + 1);
      SumPrefix(ops, k);
    }
  }

  lemma MiddleChained(b: MilpBlock, a: Assignment)
    requires WellFormed(b) && HasSequence(b) && ChainedOps(b.ops, a)
    ensures ChainedOps(b.tasks[1].ops, a)
  {
    var middle := b.tasks[1].ops;
    forall k: nat | k + 1 < |middle| ensures Begin(middle[k + 1], a) - Begin(middle[k], a) == middle[k].duration {
      QuantumParts(b, k + 1);
      QuantumParts(b, k + 2);
      assert Begin(b.ops[(k + 1) + 1], a) - Begin(b.ops[k + 1], a) == b.ops[k + 1].duration;
    }
  }

  lemma ChainSequenced(b: MilpBlock, a: Assignment)
    requires WellFormed(b) && HasSequence(b) && ChainedOps(b.ops, a)
    ensures Sequenced(b, a)
  {
    var n := |b.ops| - 1;
    QuantumParts(b, n);
    ChainStart(b.ops, a, 1);
    ChainStart(b.ops, a, n);
    assert b.ops[..1] == b.tasks[0].ops;
    assert b.tasks[1].ops[..n - 1] == b.tasks[1].ops;
  }

  /** A block whose operations run back to back has its tasks run back to back too. */
  lemma ChainRuns(b: MilpBlock, a: Assignment)
    requires WellFormed(b) && ChainedOps(b.ops, a)
    ensures Runs(b, a)
  {
    if HasSequence(b) {
      MiddleChained(b, a);
      ChainSequenced(b, a);
    }
  }

  /** Every task lies within its block. */
  lemma TaskSpan(b: MilpBlock, a: Assignment, t: nat)
    requires WellFormed(b) && Runs(b, a) && t < |b.tasks| && b.tasks[t].ops != []
    ensures First(b, a) <= Begin(b.tasks[t].ops[0], a)
    ensures Begin(b.tasks[t].ops[0], a) + SumDurations(b.tasks[t].ops) <= End(b, a)
  {
    BlockLasts(b, a);
    if HasSequence(b) {
      var n := |b.ops|;
      QuantumParts(b, n - 1);
      assert Sequenced(b, a);
      assert SumDurations([b.ops[n - 1]]) == b.ops[n - 1].duration by { assert [b.ops[n - 1]][..0] == []; }
    }
  }

  lemma SerialBlock(line: seq<MilpBlock>, i: nat)
    requires DistinctIds(line) && i < |line| && WellFormed(line[i])
    ensures line[i].ops != [] && Runs(line[i], SerialAssignment(line))
    ensures First(line[i], SerialAssignment(line)) == Offset(line, i)
    ensures End(line[i], SerialAssignment(line)) == Offset(line, i) + Duration(line[i])
  {
    SerialChains(line, i);
    ChainRuns(line[i], SerialAssignment(line));
    SerialBegins(line, i, 0);
    BlockLasts(line[i], SerialAssignment(line));
  }

  /** An earlier block of the line wins every slot, and the reverse order is slackened enough by the horizon. */
  lemma SerialSlot(line: seq<MilpBlock>, i: nat, j: nat, k: nat, m: int)
    requires DistinctIds(line) && i < j < |line| && WellFormed(line[i]) && WellFormed(line[j])
    requires k < |line[i].tasks| && k < |line[j].tasks| && line[i].tasks[k].ops != [] && line[j].tasks[k].ops != []
    requires TotalDuration(line) + |line| <= m
    ensures SlotBefore(line[i], line[j], k, 0, SerialAssignment(line))
    ensures SlotBefore(line[j], line[i], k, m, SerialAssignment(line))
  {
    var a := SerialAssignment(line);
    SerialBlock(line, i);
    SerialBlock(line, j);
    TaskSpan(line[i], a, k);
    TaskSpan(line[j], a, k);
    OffsetGrows(line, i, j);
    OffsetBound(line, i);
    OffsetBound(line, j);
  }

  /** One slot in both orders, with the selector that tells which block comes first. */
  lemma SerialSlotEither(line: seq<MilpBlock>, i: nat, j: nat, k: nat, m: int, z: int)
    requires DistinctIds(line) && i < |line| && j < |line| && i != j && WellFormed(line[i]) && WellFormed(line[j])
    requires k < |line[i].tasks| && k < |line[j].tasks| && line[i].tasks[k].ops != [] && line[j].tasks[k].ops != []
    requires TotalDuration(line) + |line| <= m && z == (if i < j then 1 else 0)
    ensures SlotBefore(line[i], line[j], k, m - m * z, SerialAssignment(line))
    ensures SlotBefore(line[j], line[i], k, m * z, SerialAssignment(line))
  {
    if i < j {
      SerialSlot(line, i, j, k, m);
    } else {
      SerialSlot(line, j, i, k, m);
    }
  }

  lemma SerialSlots(line: seq<MilpBlock>, i: nat, j: nat, slots: seq<nat>, m: int, z: int)
    requires DistinctIds(line) && i < |line| && j < |line| && i != j && WellFormed(line[i]) && WellFormed(line[j])
    requires TaskBearing(line[i]) && TaskBearing(line[j]) && TotalDuration(line) + |line| <= m && z == (if i < j then 1 else 0)
    ensures SlotsExclusive(line[i], line[j], slots, m, z, SerialAssignment(line))
  {
    var a := SerialAssignment(line);
    forall r | 0 <= r < |slots| && slots[r] < |line[i].tasks| && slots[r] < |line[j].tasks|
      ensures SlotBefore(line[i], line[j], slots[r], m - m * z, a) && SlotBefore(line[j], line[i], slots[r], m * z, a)
    {
      SerialSlotEither(line, i, j, slots[r], m, z);
    }
  }

  lemma SerialExclusive(line: seq<MilpBlock>, i: nat, j: nat, m: int)
    requires DistinctIds(line) && i < |line| && j < |line| && i != j && WellFormed(line[i]) && WellFormed(line[j])
    requires TaskBearing(line[i]) && TaskBearing(line[j]) && TotalDuration(line) + |line| <= m
    ensures Exclusive(line[i], line[j], m, SerialAssignment(line))
  {
    SerialBegins(line, i, 0);
    SerialBegins(line, j, 0);
    var z := SerialAssignment(line)(Select(line[i].id, line[j].id));
    SerialSlots(line, i, j, Slots(line[i], line[j]), m, z);
  }

  lemma SerialInHorizon(line: seq<MilpBlock>, i: nat, k: nat, m: int)
    requires DistinctIds(line) && i < |line| && WellFormed(line[i]) && k < |line[i].ops| && TotalDuration(line) + |line| <= m
    ensures 0 <= Begin(line[i].ops[k], SerialAssignment(line)) <= m
  {
    SerialBegins(line, i, k);
    OffsetBound(line, i);
  }

  lemma SerialPrecedence(line: seq<MilpBlock>, precs: seq<Precedence>, e: Precedence)
    requires DistinctIds(line) && InLine(PairGraph(EdgesOf(precs)), line) && e in precs
    requires e.0 in line && e.1 in line && WellFormed(e.0) && WellFormed(e.1)
    ensures NonEmpty(e) && After(e, SerialAssignment(line))
  {
    var i :| 0 <= i < |line| && line[i] == e.0;
    var j :| 0 <= j < |line| && line[j] == e.1;
    PairEdges(EdgesOf(precs));
    assert (line[i].id, line[j].id) in EdgesOf(precs);
    SerialBlock(line, i);
    SerialBlock(line, j);
    OffsetGrows(line, i, j);
  }

  lemma Placed(blocks: seq<MilpBlock>, line: seq<MilpBlock>, i: nat) returns (l: nat)
    requires i < |blocks| && WellFormedBlocks(blocks) && forall b :: b in line <==> b in blocks
    ensures l < |line| && line[l] == blocks[i] && WellFormed(line[l])
  {
    assert blocks[i] in line;
    l :| 0 <= l < |line| && line[l] == blocks[i];
  }

  /** For every acyclic precedence list whose blocks last at least one unit each on average, the model is solvable
      within its own horizon. */
  lemma OrderModelIsFeasible(blocks: seq<MilpBlock>, precs: seq<Precedence>) returns (a: Assignment)
    requires WellFormedBlocks(blocks) && PrecedencesWithin(blocks, precs)
    requires Acyclic(PairGraph(EdgesOf(precs))) && |blocks| <= TotalDuration(blocks)
    ensures Feasible(blocks, precs, a)
  {
    var g := PairGraph(EdgesOf(precs));
    var line := PutInLine(g, blocks);
    a := SerialAssignment(line);
    var m := BigM(blocks);
    forall b | b in blocks ensures exists i :: 0 <= i < |line| && line[i] == b && WellFormed(line[i]) {
      assert b in line;
    }
    assert IntraTask(blocks, a) && IntraBlock(blocks, a) by {
      forall i | 0 <= i < |blocks| ensures Runs(blocks[i], a) {
        var l := Placed(blocks, line, i);
        SerialBlock(line, l);
      }
    }
    assert InHorizon(blocks, m, a) by {
      forall i, k | 0 <= i < |blocks| && 0 <= k < |blocks[i].ops| ensures 0 <= Begin(blocks[i].ops[k], a) <= m {
        var l := Placed(blocks, line, i);
        SerialInHorizon(line, l, k, m);
      }
    }
    assert InPrecedence(precs, a) by {
      forall e | e in precs && NonEmpty(e) ensures After(e, a) {
        SerialPrecedence(line, precs, e);
      }
    }
    assert Fcfs(blocks, g, m, a) by {
      forall i, j | 0 <= i < j < |blocks| && Competing(g, blocks[i], blocks[j]) ensures Exclusive(blocks[i], blocks[j], m, a) {
        var k := Placed(blocks, line, i);
        var l := Placed(blocks, line, j);
        SerialExclusive(line, k, l, m);
      }
    }
  }
}
