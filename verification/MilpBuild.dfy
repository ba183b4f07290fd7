/** From the `blk_meta` records of the host function to the blocks and precedences of the scheduling model. */
module MilpBuild {
  import opened Wrappers
  import opened QoalaHost
  import opened MilpModel
  import opened MilpOrder

  datatype HostOp = MetaOp | ReturnOp | OtherOp

  /** A host block: its record, its operations, and the durations its operations and inlined callee contribute. */
  datatype HostBlock = HostBlock(meta: BlkMeta, body: seq<HostOp>, kind: BlockType, durations: seq<nat>)

  function Id(h: HostBlock): nat {
    h.meta.blockId
  }

  datatype Model = Model(blocks: seq<MilpBlock>, precs: seq<Precedence>)

  datatype BuildError = BadTasks(id: nat, error: TaskError) | UnresolvedEdges(edges: seq<(nat, nat)>)

  /** The blocks a record orders its block after. */
  function Refs(m: BlkMeta): seq<nat> {
    m.predecessors + m.dependencies + Named(m.prevEnt) + Named(m.prevComm)
  }

  predicate Isolated(host: seq<HostBlock>, h: HostBlock) {
    Refs(h.meta) == [] && forall g :: g in host ==> Id(h) !in Refs(g.meta)
  }

  /** Blocks that return and empty blocks nobody refers to stay out of the model. */
  predicate Modelled(host: seq<HostBlock>, h: HostBlock) {
    ReturnOp !in h.body && !(h.durations == [] && Isolated(host, h))
  }

  function OperationsOf(h: HostBlock): (ops: seq<Operation>)
    ensures |ops| == |h.durations|
    ensures forall k :: 0 <= k < |ops| ==> ops[k] == Operation(Id(h), k, h.durations[k])
  {
    seq(|h.durations|, k requires 0 <= k < |h.durations| => Operation(Id(h), k, h.durations[k]))
  }

  function MakeBlock(h: HostBlock): MilpBlock {
    var tasks := CreateTasks(h.kind, OperationsOf(h));
    MilpBlock(Id(h), h.kind, OperationsOf(h), if tasks.Ok? then tasks.value else [])
  }

  /** The modelled blocks of a prefix, in block order. */
  function Built(host: seq<HostBlock>, prefix: seq<HostBlock>): seq<MilpBlock> {
    if prefix == [] then []
    else Built(host, prefix[..|prefix| - 1])
         + (if Modelled(host, prefix[|prefix| - 1]) then [MakeBlock(prefix[|prefix| - 1])] else [])
  }

  ghost predicate DistinctHost(host: seq<HostBlock>) {
    forall i, j :: 0 <= i < j < |host| ==> Id(host[i]) != Id(host[j])
  }

  /** Block `x` is named by the record of a modelled block `y` of the prefix. */
  ghost predicate NamedBy(host: seq<HostBlock>, prefix: seq<HostBlock>, x: nat, y: nat) {
    exists h :: h in prefix && Modelled(host, h) && Id(h) == y && x in Refs(h.meta)
  }

  lemma {:induction false} BuiltFrom(host: seq<HostBlock>, prefix: seq<HostBlock>)
    ensures forall b :: b in Built(host, prefix) <==> exists h :: h in prefix && Modelled(host, h) && b == MakeBlock(h)
  {
    if prefix != [] {
      var n := |prefix| - 1;
      BuiltFrom(host, prefix[..n]);
      assert prefix == prefix[..n] + [prefix[n]];
    }
  }

  lemma {:induction false} BuiltDistinct(host: seq<HostBlock>, prefix: seq<HostBlock>)
    requires DistinctHost(prefix)
    ensures forall i, j :: 0 <= i < j < |Built(host, prefix)| ==> Built(host, prefix)[i].id != Built(host, prefix)[j].id
  {
    if prefix != [] {
      var n := |prefix| - 1;
      BuiltDistinct(host, prefix[..n]);
      BuiltFrom(host, prefix[..n]);
      var s := Built(host, prefix[..n]);
      forall i | 0 <= i < |s| ensures s[i].id != Id(prefix[n]) {
        assert s[i] in s;
      }
    }
  }

  /** The precedences of the known names, in order. */
  function Resolved(names: seq<nat>, known: map<nat, MilpBlock>, blk: MilpBlock): seq<Precedence> {
    if names == [] then []
    else
      var n := |names| - 1;
      Resolved(names[..n], known, blk) + (if names[n] in known then [(known[names[n]], blk)] else [])
  }

  /** The pairs of the unknown names, in order. */
  function Unresolved(names: seq<nat>, known: map<nat, MilpBlock>, id: nat): seq<(nat, nat)> {
    if names == [] then []
    else
      var n := |names| - 1;
      Unresolved(names[..n], known, id) + (if names[n] in known then [] else [(names[n], id)])
  }

  lemma {:induction false} ResolvedAre(names: seq<nat>, known: map<nat, MilpBlock>, blk: MilpBlock)
    ensures forall e :: e in Resolved(names, known, blk) <==> exists x :: x in names && x in known && e == (known[x], blk)
  {
    if names != [] {
      var n := |names| - 1;
      ResolvedAre(names[..n], known, blk);
      assert names == names[..n] + [names[n]];
    }
  }

  lemma {:induction false} UnresolvedAre(names: seq<nat>, known: map<nat, MilpBlock>, id: nat)
    ensures forall x: nat, y: nat :: (x, y) in Unresolved(names, known, id) <==> y == id && x in names && x !in known
  {
    if names != [] {
      var n := |names| - 1;
      UnresolvedAre(names[..n], known, id);
      assert names == names[..n] + [names[n]];
      forall x: nat, y: nat ensures (x, y) in Unresolved(names, known, id) <==> y == id && x in names && x !in known {
        assert (x, y) in Unresolved(names[..n], known, id) <==> y == id && x in names[..n] && x !in known;
      }
    }
  }

  /** Resolves the names of one record against the blocks seen so far: each known name gives a precedence, and each
      unknown one an unresolved pair, in order. */
  method RecordEdges(names: seq<nat>, known: map<nat, MilpBlock>, blk: MilpBlock) returns (edges: seq<Precedence>, unresolved: seq<(nat, nat)>)
    ensures edges == Resolved(names, known, blk) && unresolved == Unresolved(names, known, blk.id)
    ensures forall e :: e in edges <==> exists x :: x in names && x in known && e == (known[x], blk)
    ensures forall x: nat, y: nat :: (x, y) in unresolved <==> y == blk.id && x in names && x !in known
  {
    edges, unresolved := [], [];
    for i := 0 to |names|
      invariant edges == Resolved(names[..i], known, blk) && unresolved == Unresolved(names[..i], known, blk.id)
    {
      assert names[..i + 1][..i] == names[..i];
      if names[i] in known {
        edges := edges + [(known[names[i]], blk)];
      } else {
        unresolved := unresolved + [(names[i], blk.id)];
      }
    }
    assert names[..|names|] == names;
    ResolvedAre(names, known, blk);
    UnresolvedAre(names, known, blk.id);
  }

  ghost predicate HasEdge(precs: seq<Precedence>, x: nat, y: nat) {
    exists e :: e in precs && e.0.id == x && e.1.id == y
  }

  ghost predicate EdgesSound(host: seq<HostBlock>, prefix: seq<HostBlock>, blocks: seq<MilpBlock>, precs: seq<Precedence>) {
    forall e :: e in precs ==> e.0 in blocks && e.1 in blocks && NamedBy(host, prefix, e.0.id, e.1.id)
  }

  ghost predicate EdgesComplete(host: seq<HostBlock>, prefix: seq<HostBlock>, precs: seq<Precedence>) {
    forall x: nat, y: nat :: NamedBy(host, prefix, x, y) ==> HasEdge(precs, x, y)
  }

  lemma NextPrefix(host: seq<HostBlock>, i: nat)
    requires i < |host|
    ensures host[..i + 1][..|host[..i + 1]| - 1] == host[..i] && host[..i + 1][i] == host[i]
    ensures forall x: nat, y: nat :: NamedBy(host, host[..i + 1], x, y) <==>
              NamedBy(host, host[..i], x, y) || (Modelled(host, host[i]) && Id(host[i]) == y && x in Refs(host[i].meta))
  {
    assert host[..i + 1] == host[..i] + [host[i]];
    forall x: nat, y: nat
      ensures NamedBy(host, host[..i + 1], x, y) <==>
              NamedBy(host, host[..i], x, y) || (Modelled(host, host[i]) && Id(host[i]) == y && x in Refs(host[i].meta))
    {
      if NamedBy(host, host[..i], x, y) {
        var h :| h in host[..i] && Modelled(host, h) && Id(h) == y && x in Refs(h.meta);
        assert h in host[..i + 1];
      }
      if Modelled(host, host[i]) && Id(host[i]) == y && x in Refs(host[i].meta) {
        assert host[i] in host[..i + 1];
      }
    }
  }

  lemma EdgesStaySound(host: seq<HostBlock>, i: nat, blocks: seq<MilpBlock>, precs: seq<Precedence>, known: map<nat, MilpBlock>)
    requires i < |host| && Modelled(host, host[i]) && EdgesSound(host, host[..i], blocks, precs)
    requires forall x :: x in known ==> known[x].id == x && known[x] in blocks + [MakeBlock(host[i])]
    ensures EdgesSound(host, host[..i + 1], blocks + [MakeBlock(host[i])], precs + Resolved(Refs(host[i].meta), known, MakeBlock(host[i])))
  {
    var blk := MakeBlock(host[i]);
    var edges := Resolved(Refs(host[i].meta), known, blk);
    NextPrefix(host, i);
    ResolvedAre(Refs(host[i].meta), known, blk);
    forall e | e in precs + edges ensures e.0 in blocks + [blk] && e.1 in blocks + [blk] && NamedBy(host, host[..i + 1], e.0.id, e.1.id) {
      if e in precs {
        assert NamedBy(host, host[..i], e.0.id, e.1.id);
      }
    }
  }

  lemma EdgesStayComplete(host: seq<HostBlock>, i: nat, precs: seq<Precedence>, known: map<nat, MilpBlock>)
    requires i < |host| && Modelled(host, host[i]) && EdgesComplete(host, host[..i], precs)
    requires forall x :: x in known ==> known[x].id == x
    requires forall x :: x in Refs(host[i].meta) ==> x in known
    ensures EdgesComplete(host, host[..i + 1], precs + Resolved(Refs(host[i].meta), known, MakeBlock(host[i])))
  {
    var blk := MakeBlock(host[i]);
    var edges := Resolved(Refs(host[i].meta), known, blk);
    NextPrefix(host, i);
    ResolvedAre(Refs(host[i].meta), known, blk);
    forall x: nat, y: nat | NamedBy(host, host[..i + 1], x, y) ensures HasEdge(precs + edges, x, y) {
      if NamedBy(host, host[..i], x, y) {
        assert HasEdge(precs, x, y);
        var e :| e in precs && e.0.id == x && e.1.id == y;
        assert e in precs + edges;
      } else {
        assert (known[x], blk) in precs + edges;
      }
    }
  }

  lemma EdgesListed(precs: seq<Precedence>, x: nat, y: nat)
    ensures (x, y) in EdgesOf(precs) <==> HasEdge(precs, x, y)
  {
    if HasEdge(precs, x, y) {
      var e :| e in precs && e.0.id == x && e.1.id == y;
      assert (e.0.id, e.1.id) in EdgesOf(precs);
    }
  }

  // ---------- when building succeeds ----------

  /** Block `x` is modelled and stands among the first `i`. */
  ghost predicate Seen(host: seq<HostBlock>, i: nat, x: nat)
    requires i <= |host|
  {
    exists j :: 0 <= j < i && Id(host[j]) == x && Modelled(host, host[j])
  }

  /** One of the first `i` blocks, modelled and with id `y`, names `x`, which is no modelled block up to it. */
  ghost predicate NamesUnseen(host: seq<HostBlock>, i: nat, x: nat, y: nat)
    requires i <= |host|
  {
    exists k :: 0 <= k < i && Modelled(host, host[k]) && Id(host[k]) == y && x in Refs(host[k].meta) && !Seen(host, k + 1, x)
  }

  predicate HasTasks(h: HostBlock) {
    CreateTasks(h.kind, OperationsOf(h)).Ok?
  }

  ghost predicate AllHaveTasks(host: seq<HostBlock>, i: nat)
    requires i <= |host|
  {
    forall k :: 0 <= k < i && Modelled(host, host[k]) ==> HasTasks(host[k])
  }

  /** Every modelled block has a right number of operations and names only modelled blocks that are not later. */
  ghost predicate Buildable(host: seq<HostBlock>) {
    AllHaveTasks(host, |host|) && forall x: nat, y: nat :: !NamesUnseen(host, |host|, x, y)
  }

  /** The map holds exactly the modelled blocks among the first `i`. */
  ghost predicate Knows(host: seq<HostBlock>, i: nat, known: map<nat, MilpBlock>, blocks: seq<MilpBlock>)
    requires i <= |host|
  {
    && (forall x :: x in known <==> Seen(host, i, x))
    && (forall x :: x in known ==> known[x].id == x && known[x] in blocks)
  }

  ghost predicate ListsUnresolved(host: seq<HostBlock>, i: nat, unresolved: seq<(nat, nat)>)
    requires i <= |host|
  {
    forall x: nat, y: nat :: (x, y) in unresolved <==> NamesUnseen(host, i, x, y)
  }

  lemma SeenNext(host: seq<HostBlock>, i: nat, x: nat)
    requires i < |host|
    ensures Seen(host, i + 1, x) <==> Seen(host, i, x) || (Id(host[i]) == x && Modelled(host, host[i]))
  {
  }

  lemma UnseenNext(host: seq<HostBlock>, i: nat, x: nat, y: nat)
    requires i < |host|
    ensures NamesUnseen(host, i + 1, x, y) <==>
              NamesUnseen(host, i, x, y) || (Modelled(host, host[i]) && Id(host[i]) == y && x in Refs(host[i].meta) && !Seen(host, i + 1, x))
  {
  }

  lemma KnowsNext(host: seq<HostBlock>, i: nat, known: map<nat, MilpBlock>, blocks: seq<MilpBlock>)
    requires i < |host| && Knows(host, i, known, blocks) && Modelled(host, host[i])
    ensures Knows(host, i + 1, known[Id(host[i]) := MakeBlock(host[i])], blocks + [MakeBlock(host[i])])
  {
    forall x: nat ensures Seen(host, i + 1, x) <==> Seen(host, i, x) || Id(host[i]) == x {
      SeenNext(host, i, x);
    }
  }

  lemma ListsNext(host: seq<HostBlock>, i: nat, known: map<nat, MilpBlock>, blocks: seq<MilpBlock>, unresolved: seq<(nat, nat)>)
    requires i < |host| && Modelled(host, host[i]) && Knows(host, i + 1, known, blocks) && ListsUnresolved(host, i, unresolved)
    ensures ListsUnresolved(host, i + 1, unresolved + Unresolved(Refs(host[i].meta), known, Id(host[i])))
  {
    var more := Unresolved(Refs(host[i].meta), known, Id(host[i]));
    UnresolvedAre(Refs(host[i].meta), known, Id(host[i]));
    forall x: nat, y: nat ensures (x, y) in unresolved + more <==> NamesUnseen(host, i + 1, x, y) {
      UnseenNext(host, i, x, y);
    }
  }

  lemma SkippedNext(host: seq<HostBlock>, i: nat, known: map<nat, MilpBlock>, blocks: seq<MilpBlock>, unresolved: seq<(nat, nat)>)
    requires i < |host| && !Modelled(host, host[i]) && Knows(host, i, known, blocks) && ListsUnresolved(host, i, unresolved)
    ensures Knows(host, i + 1, known, blocks) && ListsUnresolved(host, i + 1, unresolved)
  {
    forall x: nat ensures Seen(host, i + 1, x) <==> Seen(host, i, x) {
      SeenNext(host, i, x);
    }
    forall x: nat, y: nat ensures NamesUnseen(host, i + 1, x, y) <==> NamesUnseen(host, i, x, y) {
      UnseenNext(host, i, x, y);
    }
  }

  /** What a successful build returns. */
  ghost predicate IsModel(host: seq<HostBlock>, m: Model) {
    && m.blocks == Built(host, host)
    && WellFormedBlocks(m.blocks)
    && (forall e :: e in m.precs ==> e.0 in m.blocks && e.1 in m.blocks)
    && (forall x: nat, y: nat :: (x, y) in EdgesOf(m.precs) <==> NamedBy(host, host, x, y))
  }

  /** The error names the first modelled block with a wrong number of operations, or else all unresolved names. */
  ghost predicate Explains(host: seq<HostBlock>, error: BuildError) {
    match error
    case BadTasks(id, e) =>
      exists i :: 0 <= i < |host| && AllHaveTasks(host, i) && Modelled(host, host[i]) && Id(host[i]) == id
                  && CreateTasks(host[i].kind, OperationsOf(host[i])) == Err(e)
    case UnresolvedEdges(pairs) => pairs != [] && AllHaveTasks(host, |host|) && ListsUnresolved(host, |host|, pairs)
  }

  /** The state of the walk before block `i`. */
  ghost predicate Building(host: seq<HostBlock>, i: nat, known: map<nat, MilpBlock>, blocks: seq<MilpBlock>, precs: seq<Precedence>,
                           unresolved: seq<(nat, nat)>)
    requires i <= |host|
  {
    && blocks == Built(host, host[..i])
    && (forall b :: b in blocks ==> WellFormed(b))
    && AllHaveTasks(host, i) && Knows(host, i, known, blocks) && ListsUnresolved(host, i, unresolved)
    && EdgesSound(host, host[..i], blocks, precs)
    && (unresolved == [] ==> EdgesComplete(host, host[..i], precs))
  }

  lemma NothingMissing(names: seq<nat>, known: map<nat, MilpBlock>, id: nat)
    requires Unresolved(names, known, id) == []
    ensures forall x :: x in names ==> x in known
  {
    UnresolvedAre(names, known, id);
    forall x | x in names ensures x in known {
      assert (x, id) !in Unresolved(names, known, id);
    }
  }

  lemma BlockAdded(host: seq<HostBlock>, i: nat, known: map<nat, MilpBlock>, blocks: seq<MilpBlock>, precs: seq<Precedence>,
                   unresolved: seq<(nat, nat)>)
    requires i < |host| && Building(host, i, known, blocks, precs, unresolved)
    requires Modelled(host, host[i]) && HasTasks(host[i])
    ensures var blk, names := MakeBlock(host[i]), Refs(host[i].meta);
            var known' := known[Id(host[i]) := blk];
            Building(host, i + 1, known', blocks + [blk], precs + Resolved(names, known', blk), unresolved + Unresolved(names, known', blk.id))
  {
    var blk, names := MakeBlock(host[i]), Refs(host[i].meta);
    var known' := known[Id(host[i]) := blk];
    NextPrefix(host, i);
    KnowsNext(host, i, known, blocks);
    ListsNext(host, i, known', blocks + [blk], unresolved);
    EdgesStaySound(host, i, blocks, precs, known');
    if unresolved + Unresolved(names, known', blk.id) == [] {
      NothingMissing(names, known', blk.id);
      EdgesStayComplete(host, i, precs, known');
    }
  }

  lemma SkipBlock(host: seq<HostBlock>, i: nat, known: map<nat, MilpBlock>, blocks: seq<MilpBlock>, precs: seq<Precedence>,
                  unresolved: seq<(nat, nat)>)
    requires i < |host| && Building(host, i, known, blocks, precs, unresolved) && !Modelled(host, host[i])
    ensures Building(host, i + 1, known, blocks, precs, unresolved)
  {
    NextPrefix(host, i);
    SkippedNext(host, i, known, blocks, unresolved);
  }

  lemma BuiltIsModel(host: seq<HostBlock>, known: map<nat, MilpBlock>, blocks: seq<MilpBlock>, precs: seq<Precedence>)
    requires DistinctHost(host) && Building(host, |host|, known, blocks, precs, [])
    ensures IsModel(host, Model(blocks, precs)) && Buildable(host)
  {
    assert host[..|host|] == host;
    BuiltDistinct(host, host);
    forall x: nat, y: nat ensures (x, y) in EdgesOf(precs) <==> NamedBy(host, host, x, y) {
      EdgesListed(precs, x, y);
      if HasEdge(precs, x, y) {
        var e :| e in precs && e.0.id == x && e.1.id == y;
      }
    }
    forall x: nat, y: nat ensures !NamesUnseen(host, |host|, x, y) {
      assert (x, y) !in [];
    }
  }

  // ---------- the model and the program ----------

  ghost predicate NamesBlock(m: BlkMeta, x: nat) {
    x in m.predecessors || x in m.dependencies || m.prevEnt == Some(x) || m.prevComm == Some(x)
  }

  /** The block returns, or it is empty, names nobody and is named by nobody. */
  ghost predicate StaysOut(host: seq<HostBlock>, h: HostBlock) {
    || ReturnOp in h.body
    || (&& h.durations == []
        && h.meta.predecessors == [] && h.meta.dependencies == [] && h.meta.prevEnt == None && h.meta.prevComm == None
        && forall g :: g in host ==> !NamesBlock(g.meta, h.meta.blockId))
  }

  ghost predicate RightCount(h: HostBlock) {
    match h.kind
    case CC => |h.durations| == 1
    case CL => |h.durations| >= 1
    case QL => |h.durations| >= 3
    case QC => |h.durations| >= 3
  }

  /** The block of the model has the id, kind and durations of the host block. A communication has no tasks, a classical
      block one, and a quantum block a call and a return on the host around its routine. */
  ghost predicate StandsFor(b: MilpBlock, h: HostBlock) {
    var n := |h.durations|;
    && b.id == h.meta.blockId && b.kind == h.kind
    && |b.ops| == n && (forall k :: 0 <= k < n ==> b.ops[k] == Operation(h.meta.blockId, k, h.durations[k]))
    && match h.kind
       case CC => n == 1 && b.tasks == []
       case CL => n >= 1 && b.tasks == [Task(C, b.ops)]
       case QL => n >= 3 && b.tasks == [Task(C, [b.ops[0]]), Task(Q, b.ops[1..n - 1]), Task(C, [b.ops[n - 1]])]
       case QC => n >= 3 && b.tasks == [Task(C, [b.ops[0]]), Task(Q, b.ops[1..n - 1]), Task(C, [b.ops[n - 1]])]
  }

  /** The blocks of the model stand, in order, for the host blocks at `places`, which are all those that do not stay out. */
  ghost predicate StandInOrder(host: seq<HostBlock>, n: nat, blocks: seq<MilpBlock>, places: seq<nat>)
    requires n <= |host|
  {
    && |places| == |blocks| && (forall k, l :: 0 <= k < l < |places| ==> places[k] < places[l])
    && (forall k :: 0 <= k < |places| ==> places[k] < n && StandsFor(blocks[k], host[places[k]]))
    && (forall i: nat :: i < n ==> (i in places <==> !StaysOut(host, host[i])))
  }

  ghost predicate Ordered(precs: seq<Precedence>, x: nat, y: nat) {
    exists e :: e in precs && e.0.id == x && e.1.id == y
  }

  /** The model describes the program: its blocks stand for the host blocks, and its precedences for their names. */
  ghost predicate Describes(host: seq<HostBlock>, m: Model) {
    && (exists places :: StandInOrder(host, |host|, m.blocks, places))
    && (forall x: nat, y: nat :: Ordered(m.precs, x, y) <==>
          exists h :: h in host && !StaysOut(host, h) && h.meta.blockId == y && NamesBlock(h.meta, x))
  }

  /** Block `i` can be built: it has a right number of operations, and all it names are blocks up to it that do not stay out. */
  ghost predicate CanBuild(host: seq<HostBlock>, i: nat)
    requires i < |host|
  {
    RightCount(host[i])
    && forall x: nat :: NamesBlock(host[i].meta, x) ==> exists j :: 0 <= j <= i && host[j].meta.blockId == x && !StaysOut(host, host[j])
  }

  lemma NamedInRefs(m: BlkMeta, x: nat)
    ensures x in Refs(m) <==> NamesBlock(m, x)
  {
  }

  lemma ModelledMeans(host: seq<HostBlock>, h: HostBlock)
    requires h in host
    ensures Modelled(host, h) <==> !StaysOut(host, h)
  {
    forall g | g in host ensures Id(h) in Refs(g.meta) <==> NamesBlock(g.meta, Id(h)) {
      NamedInRefs(g.meta, Id(h));
    }
    assert |Refs(h.meta)| == |h.meta.predecessors| + |h.meta.dependencies| + |Named(h.meta.prevEnt)| + |Named(h.meta.prevComm)|;
  }

  lemma MadeStands(h: HostBlock)
    ensures HasTasks(h) <==> RightCount(h)
    ensures HasTasks(h) ==> StandsFor(MakeBlock(h), h)
  {
  }

  lemma StandOneMore(host: seq<HostBlock>, n: nat, blocks: seq<MilpBlock>, places: seq<nat>, b: MilpBlock)
    requires n < |host| && StandInOrder(host, n, blocks, places) && StandsFor(b, host[n]) && !StaysOut(host, host[n])
    ensures StandInOrder(host, n + 1, blocks + [b], places + [n])
  {
    var more := places + [n];
    forall i: nat | i < n + 1 ensures i in more <==> !StaysOut(host, host[i]) {
      assert i in more <==> i in places || i == n;
    }
  }

  lemma StandNoMore(host: seq<HostBlock>, n: nat, blocks: seq<MilpBlock>, places: seq<nat>)
    requires n < |host| && StandInOrder(host, n, blocks, places) && StaysOut(host, host[n])
    ensures StandInOrder(host, n + 1, blocks, places)
  {
    assert n !in places;
  }

  lemma BuiltNext(host: seq<HostBlock>, n: nat)
    requires n < |host|
    ensures Built(host, host[..n + 1]) == Built(host, host[..n]) + (if Modelled(host, host[n]) then [MakeBlock(host[n])] else [])
  {
    assert host[..n + 1][..n] == host[..n];
  }

  lemma {:induction false} BuiltStands(host: seq<HostBlock>, n: nat) returns (places: seq<nat>)
    requires n <= |host| && AllHaveTasks(host, n)
    ensures StandInOrder(host, n, Built(host, host[..n]), places)
  {
    if n == 0 {
      return [];
    }
    var before := BuiltStands(host, n - 1);
    var blocks := Built(host, host[..n - 1]);
    BuiltNext(host, n - 1);
    ModelledMeans(host, host[n - 1]);
    if Modelled(host, host[n - 1]) {
      MadeStands(host[n - 1]);
      StandOneMore(host, n - 1, blocks, before, MakeBlock(host[n - 1]));
      places := before + [n - 1];
    } else {
      StandNoMore(host, n - 1, blocks, before);
      places := before;
    }
  }

  lemma NamedMeans(host: seq<HostBlock>, x: nat, y: nat)
    ensures NamedBy(host, host, x, y) <==> exists h :: h in host && !StaysOut(host, h) && h.meta.blockId == y && NamesBlock(h.meta, x)
  {
    forall h | h in host ensures (Modelled(host, h) <==> !StaysOut(host, h)) && (x in Refs(h.meta) <==> NamesBlock(h.meta, x)) {
      ModelledMeans(host, h);
      NamedInRefs(h.meta, x);
    }
  }

  /** A model that was built describes the program. */
  lemma ModelDescribes(host: seq<HostBlock>, m: Model)
    requires IsModel(host, m) && AllHaveTasks(host, |host|)
    ensures Describes(host, m)
  {
    var places := BuiltStands(host, |host|);
    assert host[..|host|] == host;
    forall x: nat, y: nat
      ensures Ordered(m.precs, x, y) <==> exists h :: h in host && !StaysOut(host, h) && h.meta.blockId == y && NamesBlock(h.meta, x)
    {
      EdgesListed(m.precs, x, y);
      NamedMeans(host, x, y);
    }
  }

  lemma BuildableMeans(host: seq<HostBlock>)
    ensures Buildable(host) <==> forall i :: 0 <= i < |host| && !StaysOut(host, host[i]) ==> CanBuild(host, i)
  {
    forall i | 0 <= i < |host|
      ensures (Modelled(host, host[i]) <==> !StaysOut(host, host[i])) && (HasTasks(host[i]) <==> RightCount(host[i]))
    {
      ModelledMeans(host, host[i]);
      MadeStands(host[i]);
    }
    forall i, x: nat | 0 <= i < |host| ensures x in Refs(host[i].meta) <==> NamesBlock(host[i].meta, x) {
      NamedInRefs(host[i].meta, x);
    }
    if forall i :: 0 <= i < |host| && !StaysOut(host, host[i]) ==> CanBuild(host, i) {
      forall x: nat, y: nat ensures !NamesUnseen(host, |host|, x, y) {
      }
    }
    if Buildable(host) {
      forall i | 0 <= i < |host| && !StaysOut(host, host[i]) ensures CanBuild(host, i) {
        forall x: nat | NamesBlock(host[i].meta, x) ensures Seen(host, i + 1, x) {
          assert !NamesUnseen(host, |host|, x, Id(host[i]));
        }
      }
    }
  }

  /** Builds the model. It succeeds exactly when every modelled block has a right number of operations and names only
      modelled blocks that are not later. Then the blocks are the modelled ones in block order, and there is a precedence
      exactly where the record of a modelled block names a block. */
  method BuildMilp(host: seq<HostBlock>) returns (r: Result<Model, BuildError>)
    requires DistinctHost(host)
    ensures r.Ok? <==> Buildable(host)
    ensures r.Ok? <==> forall i :: 0 <= i < |host| && !StaysOut(host, host[i]) ==> CanBuild(host, i)
    ensures r.Ok? ==> IsModel(host, r.value) && Describes(host, r.value)
    ensures r.Err? ==> Explains(host, r.error)
  {
    BuildableMeans(host);
    var blocks: seq<MilpBlock>, precs: seq<Precedence>, unresolved: seq<(nat, nat)> := [], [], [];
    var known: map<nat, MilpBlock> := map[];
    for i := 0 to |host|
      invariant Building(host, i, known, blocks, precs, unresolved)
    {
      if Modelled(host, host[i]) {
        var tasks := CreateTasks(host[i].kind, OperationsOf(host[i]));
        if tasks.Err? {
          assert !HasTasks(host[i]);
          return Err(BadTasks(Id(host[i]), tasks.error));
        }
        BlockAdded(host, i, known, blocks, precs, unresolved);
        var blk := MakeBlock(host[i]);
        known := known[Id(host[i]) := blk];
        var edges, missing := RecordEdges(Refs(host[i].meta), known, blk);
        blocks, precs, unresolved := blocks + [blk], precs + edges, unresolved + missing;
      } else {
        SkipBlock(host, i, known, blocks, precs, unresolved);
      }
    }
    if unresolved != [] {
      assert (unresolved[0].0, unresolved[0].1) in unresolved;
      return Err(UnresolvedEdges(unresolved));
    }
    BuiltIsModel(host, known, blocks, precs);
    ModelDescribes(host, Model(blocks, precs));
    return Ok(Model(blocks, precs));
  }
}
