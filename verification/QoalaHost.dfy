/** The `blk_meta` record of a host block and the rule that every block it names is declared earlier. */
module QoalaHost {
  import opened Wrappers

  /** A block is named by its number; an absent previous block is the empty string of the source. */
  datatype BlkMeta = BlkMeta(
    blockId: nat,
    predecessors: seq<nat>,
    dependencies: seq<nat>,
    prevComm: Option<nat>,
    prevEnt: Option<nat>,
    deadlines: seq<nat>)

  function Named(o: Option<nat>): seq<nat> {
    match o case None => [] case Some(b) => [b]
  }

  /** All the blocks the record names, in the order the verifier looks at them. */
  function References(m: BlkMeta): seq<nat> {
    m.predecessors + m.dependencies + Named(m.prevComm) + Named(m.prevEnt) + m.deadlines
  }

  predicate Declares(metas: seq<BlkMeta>, x: nat) {
    exists k :: 0 <= k < |metas| && metas[k].blockId == x
  }

  ghost predicate DeclaredBeforeUse(metas: seq<BlkMeta>) {
    forall i :: 0 <= i < |metas| ==> forall x :: x in References(metas[i]) ==> Declares(metas[..i], x)
  }

  /** An operation of a block: its record or another one. */
  datatype BlockOp = Record(meta: BlkMeta) | Plain

  function RecordsOf(ops: seq<BlockOp>): seq<BlkMeta> {
    if ops == [] then []
    else RecordsOf(ops[..|ops| - 1]) + (if ops[|ops| - 1].Record? then [ops[|ops| - 1].meta] else [])
  }

  /** The block has exactly one record, and it comes first. */
  predicate OneRecordFirst(ops: seq<BlockOp>) {
    |RecordsOf(ops)| == 1 && ops != [] && ops[0].Record?
  }

  ghost predicate WellRecorded(blocks: seq<seq<BlockOp>>) {
    forall i :: 0 <= i < |blocks| ==> OneRecordFirst(blocks[i])
  }

  function MetasOf(blocks: seq<seq<BlockOp>>): (metas: seq<BlkMeta>)
    requires WellRecorded(blocks)
  {
    seq(|blocks|, i requires 0 <= i < |blocks| && OneRecordFirst(blocks[i]) => blocks[i][0].meta)
  }

  datatype Attribute = Predecessor | Dependency | PreviousComm | PreviousEnt | Deadline

  datatype Verdict =
    | Accepted
    | NoRecord(at: nat)
    | SeveralRecords(at: nat)
    | RecordNotFirst(at: nat)
    | Undeclared(at: nat, attribute: Attribute, id: nat)

  function AttributeNames(m: BlkMeta, a: Attribute): seq<nat> {
    match a
    case Predecessor => m.predecessors
    case Dependency => m.dependencies
    case PreviousComm => Named(m.prevComm)
    case PreviousEnt => Named(m.prevEnt)
    case Deadline => m.deadlines
  }

  /** The first name of `names` that is not among the ids seen so far. */
  method FirstUnseen(names: seq<nat>, seen: set<nat>) returns (r: Option<nat>)
    ensures r.None? <==> forall x :: x in names ==> x in seen
    ensures r.Some? ==> r.value in names && r.value !in seen
  {
    for i := 0 to |names|
      invariant forall k :: 0 <= k < i ==> names[k] in seen
    {
      if names[i] !in seen {
        return Some(names[i]);
      }
    }
    return None;
  }

  /** The first name of a record that is not among the ids seen so far, attribute by attribute. */
  method FirstUndeclared(m: BlkMeta, seen: set<nat>) returns (bad: Option<(Attribute, nat)>)
    ensures bad.None? <==> forall x :: x in References(m) ==> x in seen
    ensures bad.Some? ==> bad.value.1 in AttributeNames(m, bad.value.0) && bad.value.1 !in seen
  {
    var attributes := [Predecessor, Dependency, PreviousComm, PreviousEnt, Deadline];
    for a := 0 to |attributes|
      invariant forall b :: 0 <= b < a ==> forall x :: x in AttributeNames(m, attributes[b]) ==> x in seen
    {
      var unseen := FirstUnseen(AttributeNames(m, attributes[a]), seen);
      if unseen.Some? {
        assert unseen.value in References(m);
        return Some((attributes[a], unseen.value));
      }
    }
    assert attributes[0] == Predecessor && attributes[1] == Dependency && attributes[2] == PreviousComm;
    assert attributes[3] == PreviousEnt && attributes[4] == Deadline;
    return None;
  }

  /** The records of a block. */
  method CollectRecords(ops: seq<BlockOp>) returns (records: seq<BlkMeta>)
    ensures records == RecordsOf(ops)
  {
    records := [];
    for k := 0 to |ops|
      invariant records == RecordsOf(ops[..k])
    {
      assert ops[..k + 1][..k] == ops[..k];
      if ops[k].Record? {
        records := records + [ops[k].meta];
      }
    }
    assert ops[..|ops|] == ops;
  }

  lemma {:induction false} RecordListed(ops: seq<BlockOp>, k: nat)
    requires k < |ops| && ops[k].Record?
    ensures ops[k].meta in RecordsOf(ops)
  {
    if k < |ops| - 1 {
      RecordListed(ops[..|ops| - 1], k);
    }
  }

  lemma SingleRecord(ops: seq<BlockOp>)
    requires OneRecordFirst(ops)
    ensures RecordsOf(ops) == [ops[0].meta]
  {
    RecordListed(ops, 0);
  }

  /** The blocks before `at` pass all rules, and what is reported is wrong with block `at`. */
  ghost predicate Blames(blocks: seq<seq<BlockOp>>, v: Verdict)
    requires !v.Accepted?
  {
    && v.at < |blocks| && WellRecorded(blocks[..v.at]) && DeclaredBeforeUse(MetasOf(blocks[..v.at]))
    && match v
       case NoRecord(at) => RecordsOf(blocks[at]) == []
       case SeveralRecords(at) => |RecordsOf(blocks[at])| > 1
       case RecordNotFirst(at) => |RecordsOf(blocks[at])| == 1 && !blocks[at][0].Record?
       case Undeclared(at, a, id) =>
         OneRecordFirst(blocks[at]) && id in AttributeNames(blocks[at][0].meta, a) && !Declares(MetasOf(blocks[..at]), id)
  }

  lemma NotRecorded(blocks: seq<seq<BlockOp>>, i: nat)
    requires i < |blocks| && !OneRecordFirst(blocks[i])
    ensures !WellRecorded(blocks)
  {
  }

  ghost predicate AllDeclared(metas: seq<BlkMeta>, m: BlkMeta) {
    forall x :: x in References(m) ==> Declares(metas, x)
  }

  lemma DeclaredOneMore(metas: seq<BlkMeta>, m: BlkMeta)
    requires DeclaredBeforeUse(metas) && AllDeclared(metas, m)
    ensures DeclaredBeforeUse(metas + [m])
  {
    var more := metas + [m];
    forall i | 0 <= i < |more| ensures forall x :: x in References(more[i]) ==> Declares(more[..i], x) {
      assert more[..i] == metas[..i];
      if i == |metas| {
        assert more[..i] == metas;
      }
    }
  }

  lemma DeclareOne(metas: seq<BlkMeta>, m: BlkMeta)
    ensures forall x :: Declares(metas + [m], x) <==> Declares(metas, x) || x == m.blockId
  {
    forall x ensures Declares(metas + [m], x) <==> Declares(metas, x) || x == m.blockId {
      if Declares(metas, x) {
        var k :| 0 <= k < |metas| && metas[k].blockId == x;
        assert (metas + [m])[k].blockId == x;
      }
      if x == m.blockId {
        assert (metas + [m])[|metas|].blockId == x;
      }
    }
  }

  /** One more block with a record: its names must be declared by the blocks so far, and its id is declared from now on. */
  lemma OneMoreBlock(blocks: seq<seq<BlockOp>>, i: nat)
    requires i < |blocks| && WellRecorded(blocks[..i]) && OneRecordFirst(blocks[i])
    ensures WellRecorded(blocks[..i + 1])
    ensures MetasOf(blocks[..i + 1]) == MetasOf(blocks[..i]) + [blocks[i][0].meta]
    ensures DeclaredBeforeUse(MetasOf(blocks[..i])) && AllDeclared(MetasOf(blocks[..i]), blocks[i][0].meta) ==>
              DeclaredBeforeUse(MetasOf(blocks[..i + 1]))
    ensures forall x :: Declares(MetasOf(blocks[..i + 1]), x) <==> Declares(MetasOf(blocks[..i]), x) || x == blocks[i][0].meta.blockId
  {
    assert blocks[..i + 1] == blocks[..i] + [blocks[i]];
    var metas, m := MetasOf(blocks[..i]), blocks[i][0].meta;
    assert MetasOf(blocks[..i + 1]) == metas + [m];
    if DeclaredBeforeUse(metas) && AllDeclared(metas, m) {
      DeclaredOneMore(metas, m);
    }
    DeclareOne(metas, m);
  }

  lemma NotDeclared(blocks: seq<seq<BlockOp>>, i: nat, a: Attribute, id: nat)
    requires i < |blocks| && WellRecorded(blocks[..i]) && OneRecordFirst(blocks[i])
    requires id in AttributeNames(blocks[i][0].meta, a) && !Declares(MetasOf(blocks[..i]), id)
    ensures WellRecorded(blocks) ==> !DeclaredBeforeUse(MetasOf(blocks))
  {
    if WellRecorded(blocks) {
      assert MetasOf(blocks)[..i] == MetasOf(blocks[..i]);
      assert id in References(MetasOf(blocks)[i]);
    }
  }

  /** The region verifier accepts exactly the functions in which every block has one record, which comes first, and every
      named block is declared earlier; otherwise it reports what is wrong with the first bad block. */
  method VerifyRegions(blocks: seq<seq<BlockOp>>) returns (v: Verdict)
    ensures v.Accepted? <==> WellRecorded(blocks) && DeclaredBeforeUse(MetasOf(blocks))
    ensures !v.Accepted? ==> Blames(blocks, v)
  {
    var blkIds: set<nat> := {};
    for i := 0 to |blocks|
      invariant WellRecorded(blocks[..i]) && DeclaredBeforeUse(MetasOf(blocks[..i]))
      invariant forall x :: x in blkIds <==> Declares(MetasOf(blocks[..i]), x)
    {
      var records := CollectRecords(blocks[i]);
      if records == [] {
        NotRecorded(blocks, i);
        return NoRecord(i);
      }
      if |records| > 1 {
        NotRecorded(blocks, i);
        return SeveralRecords(i);
      }
      if !blocks[i][0].Record? {
        NotRecorded(blocks, i);
        return RecordNotFirst(i);
      }
      SingleRecord(blocks[i]);
      OneMoreBlock(blocks, i);
      var bad := FirstUndeclared(records[0], blkIds);
      if bad.Some? {
        NotDeclared(blocks, i, bad.value.0, bad.value.1);
        return Undeclared(i, bad.value.0, bad.value.1);
      }
      blkIds := blkIds + {records[0].blockId};
    }
    assert blocks[..|blocks|] == blocks;
    return Accepted;
  }
}
