/** Blocks, tasks and operations of the scheduling model, and the linear constraints over their start times. */
module MilpModel {
  import opened Wrappers

  datatype BlockType = CL | CC | QL | QC

  datatype TaskGroup = C | Q

  /** The operation `block::index`. */
  datatype Operation = Operation(block: nat, index: nat, duration: nat)

  datatype Task = Task(group: TaskGroup, ops: seq<Operation>)

  datatype MilpBlock = MilpBlock(id: nat, kind: BlockType, ops: seq<Operation>, tasks: seq<Task>)

  /** `(A, B)`: A must finish before B starts. */
  type Precedence = (MilpBlock, MilpBlock)

  datatype TaskError = NoOperations | NotOneCommOperation | TooFewOperations

  /** The tasks of a block: none for communication, one for a classical block, and call, routine and return for a
      quantum block. */
  function CreateTasks(kind: BlockType, ops: seq<Operation>): Result<seq<Task>, TaskError> {
    if ops == [] then Err(NoOperations)
    else match kind
      case CC => if |ops| != 1 then Err(NotOneCommOperation) else Ok([])
      case CL => Ok([Task(C, ops)])
      case _ =>
        if |ops| < 3 then Err(TooFewOperations)
        else Ok([Task(C, [ops[0]]), Task(Q, ops[1..|ops| - 1]), Task(C, [ops[|ops| - 1]])])
  }

  ghost predicate WellFormed(b: MilpBlock) {
    && CreateTasks(b.kind, b.ops) == Ok(b.tasks)
    && forall k :: 0 <= k < |b.ops| ==> b.ops[k].block == b.id && b.ops[k].index == k
  }

  ghost predicate WellFormedBlocks(blocks: seq<MilpBlock>) {
    && (forall i :: 0 <= i < |blocks| ==> WellFormed(blocks[i]))
    && (forall i, j :: 0 <= i < j < |blocks| ==> blocks[i].id != blocks[j].id)
  }

  function SumDurations(ops: seq<Operation>): nat {
    if ops == [] then 0 else SumDurations(ops[..|ops| - 1]) + ops[|ops| - 1].duration
  }

  function Duration(b: MilpBlock): nat {
    SumDurations(b.ops)
  }

  function TotalDuration(blocks: seq<MilpBlock>): nat {
    if blocks == [] then 0 else TotalDuration(blocks[..|blocks| - 1]) + Duration(blocks[|blocks| - 1])
  }

  lemma {:induction false} SumSplit(s: seq<Operation>, t: seq<Operation>)
    ensures SumDurations(s + t) == SumDurations(s) + SumDurations(t)
  {
    if t == [] {
      assert s + t == s;
    } else {
      var n := |t| - 1;
      assert (s + t)[..|s + t| - 1] == s + t[..n];
      SumSplit(s, t[..n]);
    }
  }

  lemma SumPrefix(ops: seq<Operation>, k: nat)
    requires k < |ops|
    ensures SumDurations(ops[..k]) + ops[k].duration == SumDurations(ops[..k + 1])
    ensures SumDurations(ops[..k]) + ops[k].duration <= SumDurations(ops)
  {
    assert ops[..k + 1][..k] == ops[..k];
    assert ops == ops[..k + 1] + ops[k + 1..];
    SumSplit(ops[..k + 1], ops[k + 1..]);
  }

  lemma {:induction false} BlockWithinTotal(blocks: seq<MilpBlock>, i: nat)
    requires i < |blocks|
    ensures Duration(blocks[i]) <= TotalDuration(blocks)
  {
    if i < |blocks| - 1 {
      BlockWithinTotal(blocks[..|blocks| - 1], i);
    }
  }

  // ---------- linear constraints ----------

  /** A start time of an operation, the binary selector of a pair of blocks, the gap between two consecutive blocks,
      or the least of these gaps. */
  datatype Var = Start(block: nat, index: nat) | Select(first: nat, second: nat) | Gap(before: nat, after: nat) | MinGap

  type Assignment = Var -> int

  function StartOf(o: Operation): Var {
    Start(o.block, o.index)
  }

  /** The constraint lower <= sum of coefficient times variable <= upper. */
  datatype Linear = Linear(terms: seq<(int, Var)>, lower: Option<int>, upper: Option<int>)

  function Value(terms: seq<(int, Var)>, a: Assignment): int {
    if terms == [] then 0 else terms[0].0 * a(terms[0].1) + Value(terms[1..], a)
  }

  predicate Holds(c: Linear, a: Assignment) {
    && (c.lower.Some? ==> c.lower.value <= Value(c.terms, a))
    && (c.upper.Some? ==> Value(c.terms, a) <= c.upper.value)
  }

  predicate Satisfies(a: Assignment, cs: seq<Linear>) {
    forall c :: c in cs ==> Holds(c, a)
  }

  lemma SatisfiesBoth(a: Assignment, cs: seq<Linear>, ds: seq<Linear>)
    ensures Satisfies(a, cs + ds) <==> Satisfies(a, cs) && Satisfies(a, ds)
  {
    if Satisfies(a, cs + ds) {
      assert forall c :: c in cs ==> c in cs + ds;
      assert forall c :: c in ds ==> c in cs + ds;
    }
  }

  lemma SatisfiesOne(cs: seq<Linear>, c: Linear)
    ensures forall a: Assignment :: Satisfies(a, cs + [c]) <==> Satisfies(a, cs) && Holds(c, a)
  {
    forall a: Assignment ensures Satisfies(a, cs + [c]) <==> Satisfies(a, cs) && Holds(c, a) {
      SatisfiesBoth(a, cs, [c]);
      assert c in [c];
    }
  }

  /** second - first >= gap, or == gap when exact. */
  function Apart(first: Operation, second: Operation, gap: int, exact: bool): Linear {
    Linear([(1, StartOf(second)), (-1, StartOf(first))], Some(gap), if exact then Some(gap) else None)
  }

  lemma ValueOne(p: int, v: Var, a: Assignment)
    ensures Value([(p, v)], a) == p * a(v)
  {
    assert [(p, v)][1..] == [];
  }

  lemma ValueTwo(p: int, v: Var, q: int, w: Var, a: Assignment)
    ensures Value([(p, v), (q, w)], a) == p * a(v) + q * a(w)
  {
    ValueOne(q, w, a);
    assert [(p, v), (q, w)][1..] == [(q, w)];
  }

  lemma ApartMeans(first: Operation, second: Operation, gap: int, exact: bool)
    ensures forall a: Assignment :: Holds(Apart(first, second, gap, exact), a) <==>
              (if exact then a(StartOf(second)) - a(StartOf(first)) == gap else a(StartOf(second)) - a(StartOf(first)) >= gap)
  {
    forall a: Assignment ensures Value(Apart(first, second, gap, exact).terms, a) == a(StartOf(second)) - a(StartOf(first)) {
      ValueTwo(1, StartOf(second), -1, StartOf(first), a);
    }
  }

  lemma ValueThree(p: int, v: Var, q: int, w: Var, r: int, u: Var, a: Assignment)
    ensures Value([(p, v), (q, w), (r, u)], a) == p * a(v) + q * a(w) + r * a(u)
  {
    ValueTwo(q, w, r, u, a);
    assert [(p, v), (q, w), (r, u)][1..] == [(q, w), (r, u)];
  }

  // ---------- machine integers ----------

  function U32(x: int): int {
    x % 0x1_0000_0000
  }

  function I32(x: int): int {
    if U32(x) < 0x8000_0000 then U32(x) else U32(x) - 0x1_0000_0000
  }

  lemma U32Add(x: int, y: int)
    ensures U32(U32(x) + y) == U32(x + y)
  {
    var q := x / 0x1_0000_0000;
    assert x + y == U32(x) + y + q * 0x1_0000_0000;
  }

  lemma MachineExact(x: int)
    ensures 0 <= x < 0x1_0000_0000 ==> U32(x) == x
    ensures -0x8000_0000 <= x < 0x8000_0000 ==> I32(x) == x && I32(U32(x)) == x
  {
  }
}
