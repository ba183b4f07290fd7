/** The block-order model: the constraint families it adds, and what they say about every solution. */
module MilpOrder {
  import opened Graph
  import opened Closure
  import opened MilpModel

  // ---------- what the families mean ----------

  function Begin(o: Operation, a: Assignment): int {
    a(StartOf(o))
  }

  ghost predicate ChainedOps(ops: seq<Operation>, a: Assignment) {
    forall j: nat :: j + 1 < |ops| ==> Begin(ops[j + 1], a) - Begin(ops[j], a) == ops[j].duration
  }

  /** Operations of one task run back to back. */
  ghost predicate IntraTask(blocks: seq<MilpBlock>, a: Assignment) {
    forall i, t :: 0 <= i < |blocks| && 0 <= t < |blocks[i].tasks| ==> ChainedOps(blocks[i].tasks[t].ops, a)
  }

  predicate NonEmpty(p: Precedence) {
    p.0.ops != [] && p.1.ops != []
  }

  predicate After(p: Precedence, a: Assignment)
    requires NonEmpty(p)
  {
    Begin(p.1.ops[0], a) - Begin(p.0.ops[|p.0.ops| - 1], a) >= p.0.ops[|p.0.ops| - 1].duration
  }

  /** A block starts only when the blocks it must follow have ended. */
  ghost predicate InPrecedence(precs: seq<Precedence>, a: Assignment) {
    forall p :: p in precs && NonEmpty(p) ==> After(p, a)
  }

  predicate HasSequence(b: MilpBlock) {
    (b.kind.QL? || b.kind.QC?) && |b.tasks| == 3 && forall t :: 0 <= t < 3 ==> b.tasks[t].ops != []
  }

  predicate Sequenced(b: MilpBlock, a: Assignment)
    requires HasSequence(b)
  {
    && Begin(b.tasks[1].ops[0], a) - Begin(b.tasks[0].ops[0], a) == SumDurations(b.tasks[0].ops)
    && Begin(b.tasks[2].ops[0], a) - Begin(b.tasks[1].ops[0], a) == SumDurations(b.tasks[1].ops)
  }

  /** The three tasks of a quantum block run back to back. */
  ghost predicate IntraBlock(blocks: seq<MilpBlock>, a: Assignment) {
    forall i :: 0 <= i < |blocks| && HasSequence(blocks[i]) ==> Sequenced(blocks[i], a)
  }

  function Slots(b1: MilpBlock, b2: MilpBlock): seq<nat> {
    if |b1.tasks| == 3 && |b2.tasks| == 3 then [0, 1, 2] else [0]
  }

  predicate TaskBearing(b: MilpBlock) {
    |b.tasks| > 0 && forall t :: 0 <= t < |b.tasks| ==> b.tasks[t].ops != []
  }

  /** Task `k` of `b1` has ended, with one unit to spare, when task `k` of `b2` starts. */
  predicate SlotBefore(b1: MilpBlock, b2: MilpBlock, k: nat, slack: int, a: Assignment)
    requires k < |b1.tasks| && k < |b2.tasks| && b1.tasks[k].ops != [] && b2.tasks[k].ops != []
  {
    Begin(b2.tasks[k].ops[0], a) - Begin(b1.tasks[k].ops[0], a) >= SumDurations(b1.tasks[k].ops) + 1 - slack
  }

  /** Both orders of every listed slot, each slackened by its share of `m`. */
  ghost predicate SlotsExclusive(b1: MilpBlock, b2: MilpBlock, slots: seq<nat>, m: int, z: int, a: Assignment)
    requires TaskBearing(b1) && TaskBearing(b2)
  {
    forall r :: 0 <= r < |slots| && slots[r] < |b1.tasks| && slots[r] < |b2.tasks| ==>
      SlotBefore(b1, b2, slots[r], m - m * z, a) && SlotBefore(b2, b1, slots[r], m * z, a)
  }

  /** Selector 1 puts `b1` first and selector 0 puts `b2` first; the other order is slackened by `m`. */
  ghost predicate Exclusive(b1: MilpBlock, b2: MilpBlock, m: int, a: Assignment)
    requires TaskBearing(b1) && TaskBearing(b2)
  {
    var z := a(Select(b1.id, b2.id));
    && 0 <= z <= 1
    && SlotsExclusive(b1, b2, Slots(b1, b2), m, z, a)
  }

  /** The pair gets a selector: neither reaches the other, and both start with a task of the same group. */
  ghost predicate Competing(g: Digraph, b1: MilpBlock, b2: MilpBlock) {
    && !Reach(g, b1.id, b2.id) && !Reach(g, b2.id, b1.id)
    && TaskBearing(b1) && TaskBearing(b2) && b1.tasks[0].group == b2.tasks[0].group
  }

  ghost predicate Fcfs(blocks: seq<MilpBlock>, g: Digraph, m: int, a: Assignment) {
    forall i, j :: 0 <= i < j < |blocks| && Competing(g, blocks[i], blocks[j]) ==> Exclusive(blocks[i], blocks[j], m, a)
  }

  ghost predicate InHorizon(blocks: seq<MilpBlock>, m: int, a: Assignment) {
    forall i, k :: 0 <= i < |blocks| && 0 <= k < |blocks[i].ops| ==> 0 <= Begin(blocks[i].ops[k], a) <= m
  }

  function EdgesOf(precs: seq<Precedence>): Pairs {
    set p | p in precs :: (p.0.id, p.1.id)
  }

  function BigM(blocks: seq<MilpBlock>): int {
    2 * TotalDuration(blocks)
  }

  /** A start assignment that the solver may return. */
  ghost predicate Feasible(blocks: seq<MilpBlock>, precs: seq<Precedence>, a: Assignment) {
    && InHorizon(blocks, BigM(blocks), a)
    && IntraTask(blocks, a)
    && InPrecedence(precs, a)
    && Fcfs(blocks, PairGraph(EdgesOf(precs)), BigM(blocks), a)
    && IntraBlock(blocks, a)
  }

  /** The durations fit the 32-bit arithmetic of the constraint builder. */
  ghost predicate Fits(blocks: seq<MilpBlock>) {
    BigM(blocks) < 0x8000_0000
  }
}
