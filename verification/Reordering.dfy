/** The objects that collect the operations and tasks of a block, and the pass that fills in the tasks. */
module Reordering {
  import opened Wrappers
  import opened MilpModel

  const DURATION_RANGE := 0x1_0000_0000_0000_0000

  lemma AddsWrapping(x: nat, y: nat)
    ensures (x % DURATION_RANGE + y) % DURATION_RANGE == (x + y) % DURATION_RANGE
  {
    var q := x / DURATION_RANGE;
    assert x + y == x % DURATION_RANGE + y + q * DURATION_RANGE;
  }

  class TaskObject {
    const group: TaskGroup
    var operations: seq<Operation>

    constructor (group: TaskGroup)
      ensures this.group == group && operations == []
    {
      this.group := group;
      operations := [];
    }

    ghost function Contents(): Task
      reads this
    {
      Task(group, operations)
    }

    method AddOperation(op: Operation)
      modifies this
      ensures operations == old(operations) + [op]
    {
      operations := operations + [op];
    }

    /** The summed durations, in wrapping 64-bit arithmetic. */
    method GetDuration() returns (dur: nat)
      ensures dur == SumDurations(operations) % 0x1_0000_0000_0000_0000
    {
      dur := 0;
      for i := 0 to |operations|
        invariant dur == SumDurations(operations[..i]) % DURATION_RANGE
      {
        assert operations[..i + 1][..i] == operations[..i];
        AddsWrapping(SumDurations(operations[..i]), operations[i].duration);
        dur := (dur + operations[i].duration) % DURATION_RANGE;
      }
      assert operations[..|operations|] == operations;
    }
  }

  ghost function ContentsOf(tasks: seq<TaskObject>): (values: seq<Task>)
    reads tasks
    ensures |values| == |tasks| && forall i :: 0 <= i < |tasks| ==> values[i] == tasks[i].Contents()
  {
    seq(|tasks|, i requires 0 <= i < |tasks| reads tasks => tasks[i].Contents())
  }

  class BlockObject {
    const id: nat
    const kind: BlockType
    var operations: seq<Operation>
    var tasks: seq<TaskObject>

    constructor (id: nat, kind: BlockType)
      ensures this.id == id && this.kind == kind && operations == [] && tasks == []
    {
      this.id, this.kind := id, kind;
      operations, tasks := [], [];
    }

    /** The block as a value. */
    ghost function Contents(): MilpBlock
      reads this, tasks
    {
      MilpBlock(id, kind, operations, ContentsOf(tasks))
    }

    method AddOperation(op: Operation)
      modifies this`operations
      ensures operations == old(operations) + [op]
    {
      operations := operations + [op];
    }

    method AddTask(t: TaskObject)
      modifies this`tasks
      ensures tasks == old(tasks) + [t]
    {
      tasks := tasks + [t];
    }
  }

  /** A task with the given operations, added one by one. */
  method TaskOf(group: TaskGroup, ops: seq<Operation>) returns (t: TaskObject)
    ensures fresh(t) && t.Contents() == Task(group, ops)
  {
    t := new TaskObject(group);
    for i := 0 to |ops|
      invariant fresh(t) && t.group == group && t.operations == ops[..i]
    {
      t.AddOperation(ops[i]);
    }
    assert ops[..|ops|] == ops;
  }

  lemma ThreeContents(tasks: seq<TaskObject>, t0: TaskObject, t1: TaskObject, t2: TaskObject)
    requires tasks == [t0, t1, t2]
    ensures ContentsOf(tasks) == [t0.Contents(), t1.Contents(), t2.Contents()]
  {
  }

  /** Call, routine and return of a quantum block. */
  method AddQuantumTasks(blk: BlockObject)
    requires blk.tasks == [] && |blk.operations| >= 3
    modifies blk`tasks
    ensures var ops := blk.operations;
            ContentsOf(blk.tasks) == [Task(C, [ops[0]]), Task(Q, ops[1..|ops| - 1]), Task(C, [ops[|ops| - 1]])]
  {
    var ops := blk.operations;
    var t0 := TaskOf(C, [ops[0]]);
    var t1 := TaskOf(Q, ops[1..|ops| - 1]);
    var t2 := TaskOf(C, [ops[|ops| - 1]]);
    blk.AddTask(t0);
    blk.AddTask(t1);
    blk.AddTask(t2);
    ThreeContents(blk.tasks, t0, t1, t2);
  }

  /** Gives the block the tasks of its kind, or fails on a wrong number of operations. */
  method CreateTasksForBlock(blk: BlockObject) returns (r: Result<bool, TaskError>)
    requires blk.tasks == []
    modifies blk`tasks
    ensures match CreateTasks(blk.kind, blk.operations)
            case Ok(tasks) => r.Ok? && blk.Contents() == MilpBlock(blk.id, blk.kind, blk.operations, tasks)
            case Err(e) => r == Err(e) && blk.tasks == []
  {
    var ops := blk.operations;
    if ops == [] {
      return Err(NoOperations);
    }
    match blk.kind {
      case CC =>
        if |ops| != 1 {
          return Err(NotOneCommOperation);
        }
      case CL =>
        var t := TaskOf(C, ops);
        blk.AddTask(t);
      case _ =>
        if |ops| < 3 {
          return Err(TooFewOperations);
        }
        AddQuantumTasks(blk);
    }
    return Ok(true);
  }
}
