/** The reordering pass as a whole: a verified function is always schedulable, and splicing it by any feasible
    schedule gives a verified function again. */
module MilpTheorems {
  import opened Wrappers
  import opened Graph
  import opened Closure
  import opened QoalaHost
  import opened MilpModel
  import opened MilpOrder
  import opened MilpSchedule
  import opened MilpSerial
  import opened MilpBuild
  import opened MilpReorder

  /** A function the verifier accepts, before any deadline is attached. */
  ghost predicate Verified(host: seq<HostBlock>) {
    DistinctHost(host) && DeclaredBeforeUse(Metas(host)) && forall h :: h in host ==> h.meta.deadlines == []
  }

  /** The ids of the model's blocks, sorted by start time; ties in any order. */
  ghost predicate StartOrder(blocks: seq<MilpBlock>, a: Assignment, ids: seq<nat>) {
    && Distinct(ids)
    && (forall id: nat :: id in ids <==> exists b :: b in blocks && b.id == id)
    && (forall i, j :: 0 <= i < j < |ids| ==> FirstOf(blocks, a, ids[i]) <= FirstOf(blocks, a, ids[j]))
  }

  /** Blocks with their start times, sorted. */
  ghost predicate SortedTimes(times: seq<(nat, int)>) {
    && (forall i, j :: 0 <= i < j < |times| ==> times[i].0 != times[j].0 && times[i].1 <= times[j].1)
  }

  lemma InsertedMembers(times: seq<(nat, int)>, k: nat, e: (nat, int))
    requires k <= |times|
    ensures forall d :: d in times[..k] + [e] + times[k..] <==> d in times || d == e
  {
    assert times == times[..k] + times[k..];
  }

  lemma InsertedAt(times: seq<(nat, int)>, k: nat, e: (nat, int), more: seq<(nat, int)>)
    requires SortedTimes(times) && k <= |times| && more == times[..k] + [e] + times[k..]
    requires (forall i :: 0 <= i < k ==> times[i].1 <= e.1) && (k < |times| ==> e.1 <= times[k].1)
    requires forall i :: 0 <= i < |times| ==> times[i].0 != e.0
    ensures SortedTimes(more)
  {
    forall i, j | 0 <= i < j < |more| ensures more[i].0 != more[j].0 && more[i].1 <= more[j].1 {
      var d := if i < k then times[i] else if i == k then e else times[i - 1];
      var f := if j < k then times[j] else if j == k then e else times[j - 1];
      assert more[i] == d && more[j] == f;
      if j > k {
        assert times[k].1 <= f.1;
      }
    }
  }

  /** Puts a block with a new id behind those that start no later. */
  method InsertByStart(times: seq<(nat, int)>, id: nat, start: int) returns (more: seq<(nat, int)>)
    requires SortedTimes(times) && forall e :: e in times ==> e.0 != id
    ensures SortedTimes(more) && forall e :: e in more <==> e in times || e == (id, start)
  {
    var k := 0;
    while k < |times| && times[k].1 <= start
      invariant 0 <= k <= |times| && forall i :: 0 <= i < k ==> times[i].1 <= start
    {
      k := k + 1;
    }
    more := times[..k] + [(id, start)] + times[k..];
    assert forall i :: 0 <= i < |times| ==> times[i] in times;
    InsertedAt(times, k, (id, start), more);
    InsertedMembers(times, k, (id, start));
  }

  function StartTime(b: MilpBlock, a: Assignment): int {
    if b.ops == [] then 0 else First(b, a)
  }

  lemma TimesAreStarts(blocks: seq<MilpBlock>, a: Assignment, times: seq<(nat, int)>, ids: seq<nat>)
    requires WellFormedBlocks(blocks) && SortedTimes(times)
    requires forall e :: e in times <==> exists k :: 0 <= k < |blocks| && e == (blocks[k].id, StartTime(blocks[k], a))
    requires |ids| == |times| && forall k :: 0 <= k < |ids| ==> ids[k] == times[k].0
    ensures StartOrder(blocks, a, ids)
  {
    forall i | 0 <= i < |times| ensures FirstOf(blocks, a, ids[i]) == times[i].1 {
      assert times[i] in times;
      var k :| 0 <= k < |blocks| && times[i] == (blocks[k].id, StartTime(blocks[k], a));
      TimesOf(blocks, a, blocks[k]);
    }
    forall id: nat ensures id in ids <==> exists b :: b in blocks && b.id == id {
      if id in ids {
        var i :| 0 <= i < |ids| && ids[i] == id;
        assert times[i] in times;
        var k :| 0 <= k < |blocks| && times[i] == (blocks[k].id, StartTime(blocks[k], a));
        assert blocks[k] in blocks;
      }
      if b :| b in blocks && b.id == id {
        var k :| 0 <= k < |blocks| && blocks[k] == b;
        assert (blocks[k].id, StartTime(blocks[k], a)) in times;
        var i :| 0 <= i < |times| && times[i] == (blocks[k].id, StartTime(blocks[k], a));
        assert ids[i] == id;
      }
    }
  }

  /** The ids of the blocks, sorted by the start times of a solution. */
  method GetOrderedBlocks(blocks: seq<MilpBlock>, a: Assignment) returns (ids: seq<nat>)
    requires WellFormedBlocks(blocks)
    ensures StartOrder(blocks, a, ids)
  {
    var times: seq<(nat, int)> := [];
    for i := 0 to |blocks|
      invariant SortedTimes(times)
      invariant forall e :: e in times <==> exists k :: 0 <= k < i && e == (blocks[k].id, StartTime(blocks[k], a))
    {
      assert WellFormed(blocks[i]);
      if blocks[i].ops != [] {
        times := InsertByStart(times, blocks[i].id, First(blocks[i], a));
      }
    }
    ids := [];
    for i := 0 to |times|
      invariant |ids| == i && forall k :: 0 <= k < i ==> ids[k] == times[k].0
    {
      ids := ids + [times[i].0];
    }
    TimesAreStarts(blocks, a, times, ids);
  }

  lemma NamedIsEarlier(host: seq<HostBlock>, x: nat, y: nat) returns (i: nat, j: nat)
    requires Verified(host) && NamedBy(host, host, x, y)
    ensures i < j < |host| && Id(host[i]) == x && Id(host[j]) == y
  {
    var h :| h in host && Modelled(host, h) && Id(h) == y && x in Refs(h.meta);
    j :| 0 <= j < |host| && host[j] == h;
    assert x in References(Metas(host)[j]);
    i :| 0 <= i < j && Metas(host)[..j][i].blockId == x;
  }

  /** Blocks ranked from the last to the first. */
  lemma RankHost(host: seq<HostBlock>) returns (rank: map<nat, nat>)
    requires DistinctHost(host)
    ensures forall i :: 0 <= i < |host| ==> Id(host[i]) in rank && rank[Id(host[i])] == |host| - i
  {
    rank := map[];
    for k := 0 to |host|
      invariant forall i :: 0 <= i < k ==> Id(host[i]) in rank && rank[Id(host[i])] == |host| - i
    {
      rank := rank[Id(host[k]) := (|host| - k) as nat];
    }
  }

  lemma EdgeIsNamed(host: seq<HostBlock>, m: Model, x: nat, y: nat)
    requires IsModel(host, m) && y in Succ(PairGraph(EdgesOf(m.precs)), x)
    ensures NamedBy(host, host, x, y)
  {
    PairEdges(EdgesOf(m.precs));
  }

  lemma VerifiedIsAcyclic(host: seq<HostBlock>, m: Model)
    requires Verified(host) && IsModel(host, m)
    ensures Acyclic(PairGraph(EdgesOf(m.precs)))
  {
    var g := PairGraph(EdgesOf(m.precs));
    var rank := RankHost(host);
    forall x: nat, y: nat {:trigger y in Succ(g, x)} | y in Succ(g, x) ensures x in rank && y in rank && rank[y] < rank[x] {
      EdgeIsNamed(host, m, x, y);
      var i, j := NamedIsEarlier(host, x, y);
    }
    RankedIsAcyclic(g, rank);
  }

  /** Every verified function whose blocks last at least one unit has a feasible schedule within the horizon. */
  lemma VerifiedIsSchedulable(host: seq<HostBlock>, m: Model) returns (a: Assignment)
    requires Verified(host) && IsModel(host, m) && |m.blocks| <= TotalDuration(m.blocks)
    ensures Feasible(m.blocks, m.precs, a)
  {
    VerifiedIsAcyclic(host, m);
    a := OrderModelIsFeasible(m.blocks, m.precs);
  }

  lemma SameHost(host: seq<HostBlock>, g: HostBlock, h: HostBlock)
    requires DistinctHost(host) && g in host && h in host && Id(g) == Id(h)
    ensures g == h
  {
    var i :| 0 <= i < |host| && host[i] == g;
    var j :| 0 <= j < |host| && host[j] == h;
  }

  lemma ModelledOf(host: seq<HostBlock>, m: Model, h: HostBlock)
    requires DistinctHost(host) && IsModel(host, m) && h in host && exists b :: b in m.blocks && b.id == Id(h)
    ensures Modelled(host, h)
  {
    var b :| b in m.blocks && b.id == Id(h);
    BuiltFrom(host, host);
    var g :| g in host && Modelled(host, g) && b == MakeBlock(g);
    SameHost(host, g, h);
  }

  /** A block that a modelled block names starts strictly earlier. */
  lemma NamedStartsEarlier(host: seq<HostBlock>, m: Model, a: Assignment, x: nat, y: nat)
    requires IsModel(host, m) && Feasible(m.blocks, m.precs, a) && NamedBy(host, host, x, y)
    requires forall b :: b in m.blocks ==> Duration(b) >= 1
    ensures FirstOf(m.blocks, a, x) < FirstOf(m.blocks, a, y)
    ensures exists b :: b in m.blocks && b.id == x
  {
    EdgesListed(m.precs, x, y);
    var e :| e in m.precs && e.0.id == x && e.1.id == y;
    FeasibleRuns(m.blocks, m.precs, a, e.0);
    FeasibleRuns(m.blocks, m.precs, a, e.1);
    assert WellFormed(e.0) && WellFormed(e.1);
    EdgeEndsBefore(m.blocks, a, e);
    TimesOf(m.blocks, a, e.0);
    BlockLasts(e.0, a);
  }

  /** Some block before place `k` has id `x`. */
  ghost predicate DeclaredAt(host: seq<HostBlock>, k: nat, x: nat) {
    exists j :: 0 <= j < k && j < |host| && Id(host[j]) == x
  }

  lemma EarlierInSorted(ids: seq<nat>, picked: seq<HostBlock>, first: nat -> int, i: nat, x: nat)
    requires |picked| == |ids| && forall k :: 0 <= k < |ids| ==> Id(picked[k]) == ids[k]
    requires forall k, l :: 0 <= k < l < |ids| ==> first(ids[k]) <= first(ids[l])
    requires i < |ids| && x in ids && first(x) < first(ids[i])
    ensures DeclaredAt(picked, i, x)
  {
    var j :| 0 <= j < |ids| && ids[j] == x;
    assert j < i && Id(picked[j]) == x;
  }

  /** A name in the record of a sorted block is the id of a modelled block that starts strictly earlier. */
  lemma SortedNames(host: seq<HostBlock>, m: Model, a: Assignment, ids: seq<nat>, h: HostBlock, x: nat)
    requires Verified(host) && IsModel(host, m) && Feasible(m.blocks, m.precs, a)
    requires forall b :: b in m.blocks ==> Duration(b) >= 1
    requires forall id: nat :: id in ids <==> exists b :: b in m.blocks && b.id == id
    requires h in host && Id(h) in ids && x in References(h.meta)
    ensures x in ids && FirstOf(m.blocks, a, x) < FirstOf(m.blocks, a, Id(h))
  {
    ModelledOf(host, m, h);
    assert x in Refs(h.meta) by {
      assert h.meta.deadlines == [];
    }
    assert NamedBy(host, host, x, Id(h));
    NamedStartsEarlier(host, m, a, x, Id(h));
  }

  /** In the sorted part, a named block is declared earlier because it starts earlier. */
  lemma SortedDeclares(host: seq<HostBlock>, m: Model, a: Assignment, ids: seq<nat>, picked: seq<HostBlock>, i: nat, x: nat)
    requires Verified(host) && IsModel(host, m) && Feasible(m.blocks, m.precs, a)
    requires forall b :: b in m.blocks ==> Duration(b) >= 1
    requires StartOrder(m.blocks, a, ids) && Picked(host, ids, picked)
    requires i < |picked| && x in References(picked[i].meta)
    ensures DeclaredAt(picked, i, x)
  {
    assert ids[i] in ids && picked[i] in host;
    SortedNames(host, m, a, ids, picked[i], x);
    EarlierInSorted(ids, picked, (id: nat) => FirstOf(m.blocks, a, id), i, x);
  }

  /** A block that stands before another in the function and outside the list stands before it in the remainder. */
  lemma RemainderKeepsOrder(host: seq<HostBlock>, ids: seq<nat>, q: nat, p: nat, p': nat) returns (j: nat)
    requires DistinctHost(host) && q < |Without(host, ids)|
    requires p' < p < |host| && host[p] == Without(host, ids)[q] && Id(host[p']) !in ids
    ensures j < q && Without(host, ids)[j] == host[p']
  {
    var rest, front := Without(host, ids), Without(host[..p], ids);
    assert host == host[..p] + [host[p]] + host[p + 1..];
    WithoutMembers(host, ids);
    assert rest[q] in rest;
    WithoutAround(host[..p], host[p], host[p + 1..], ids);
    WithoutDistinct(host, ids);
    assert rest[|front|] == host[p];
    assert q == |front|;
    WithoutMembers(host[..p], ids);
    assert host[p'] in host[..p];
    j :| 0 <= j < |front| && front[j] == host[p'];
  }

  lemma DeclaredWhere(host: seq<HostBlock>, h: HostBlock, x: nat) returns (p: nat, p': nat)
    requires DeclaredBeforeUse(Metas(host)) && h in host && x in References(h.meta)
    ensures p' < p < |host| && host[p] == h && Id(host[p']) == x
  {
    p :| 0 <= p < |host| && host[p] == h;
    assert x in References(Metas(host)[p]);
    p' :| 0 <= p' < p && Metas(host)[..p][p'].blockId == x;
  }

  /** In the remainder, a named block is listed or stands earlier in the remainder. */
  lemma RemainderDeclares(host: seq<HostBlock>, ids: seq<nat>, q: nat, x: nat)
    requires DistinctHost(host) && DeclaredBeforeUse(Metas(host))
    requires q < |Without(host, ids)| && x in References(Without(host, ids)[q].meta) && x !in ids
    ensures DeclaredAt(Without(host, ids), q, x)
  {
    WithoutMembers(host, ids);
    var h := Without(host, ids)[q];
    assert h in Without(host, ids);
    var p, p' := DeclaredWhere(host, h, x);
    var j := RemainderKeepsOrder(host, ids, q, p, p');
  }

  lemma GlueSorted(picked: seq<HostBlock>, rest: seq<HostBlock>, k: nat, x: nat)
    requires k <= |picked| && DeclaredAt(picked, k, x)
    ensures DeclaredAt(picked + rest, k, x)
  {
    var j :| 0 <= j < k && j < |picked| && Id(picked[j]) == x;
    assert Id((picked + rest)[j]) == x;
  }

  lemma GlueRemainder(picked: seq<HostBlock>, rest: seq<HostBlock>, q: nat, x: nat)
    requires DeclaredAt(rest, q, x) || DeclaredAt(picked, |picked|, x)
    ensures DeclaredAt(picked + rest, |picked| + q, x)
  {
    if DeclaredAt(rest, q, x) {
      var j :| 0 <= j < q && j < |rest| && Id(rest[j]) == x;
      assert Id((picked + rest)[|picked| + j]) == x;
    } else {
      var j :| 0 <= j < |picked| && j < |picked| && Id(picked[j]) == x;
      assert Id((picked + rest)[j]) == x;
    }
  }

  lemma RemainderPlace(host: seq<HostBlock>, ids: seq<nat>, picked: seq<HostBlock>, q: nat, x: nat)
    requires DistinctHost(host) && DeclaredBeforeUse(Metas(host)) && |picked| == |ids|
    requires forall i :: 0 <= i < |ids| ==> Id(picked[i]) == ids[i]
    requires q < |Without(host, ids)| && x in References(Without(host, ids)[q].meta)
    ensures DeclaredAt(picked + Without(host, ids), |picked| + q, x)
  {
    if x in ids {
      var j :| 0 <= j < |ids| && ids[j] == x;
      assert Id(picked[j]) == x;
      assert DeclaredAt(picked, |picked|, x);
    } else {
      RemainderDeclares(host, ids, q, x);
    }
    GlueRemainder(picked, Without(host, ids), q, x);
  }

  lemma DeclaredByPlaces(result: seq<HostBlock>)
    requires forall k, x :: 0 <= k < |result| && x in References(result[k].meta) ==> DeclaredAt(result, k, x)
    ensures DeclaredBeforeUse(Metas(result))
  {
    var ms := Metas(result);
    forall k, x | 0 <= k < |ms| && x in References(ms[k]) ensures Declares(ms[..k], x) {
      assert DeclaredAt(result, k, x);
      var j :| 0 <= j < k && j < |result| && Id(result[j]) == x;
      assert ms[..k][j].blockId == x;
    }
  }

  lemma DeclaredInParts(picked: seq<HostBlock>, rest: seq<HostBlock>)
    requires forall k, x :: 0 <= k < |picked| && x in References(picked[k].meta) ==> DeclaredAt(picked, k, x)
    requires forall q: nat, x :: q < |rest| && x in References(rest[q].meta) ==> DeclaredAt(picked + rest, |picked| + q, x)
    ensures DeclaredBeforeUse(Metas(picked + rest))
  {
    forall k, x | 0 <= k < |picked + rest| && x in References((picked + rest)[k].meta) ensures DeclaredAt(picked + rest, k, x) {
      if k < |picked| {
        assert DeclaredAt(picked, k, x);
        GlueSorted(picked, rest, k, x);
      } else {
        assert (picked + rest)[k] == rest[k - |picked|];
        assert DeclaredAt(picked + rest, |picked| + (k - |picked|), x);
      }
    }
    DeclaredByPlaces(picked + rest);
  }

  lemma SplicedMembers(host: seq<HostBlock>, m: Model, a: Assignment, ids: seq<nat>, picked: seq<HostBlock>)
    requires DistinctHost(host) && IsModel(host, m) && StartOrder(m.blocks, a, ids) && Picked(host, ids, picked)
    ensures DistinctHost(picked + Without(host, ids))
    ensures forall h :: h in picked + Without(host, ids) <==> h in host
  {
    var rest := Without(host, ids);
    WithoutMembers(host, ids);
    WithoutDistinct(host, ids);
    forall h | h in host ensures h in picked + rest {
      if Id(h) in ids {
        var j :| 0 <= j < |ids| && ids[j] == Id(h);
        SameHost(host, h, picked[j]);
      }
    }
    forall h | h in picked + rest ensures h in host {
      if h in picked {
        var j :| 0 <= j < |picked| && picked[j] == h;
      }
    }
    var result := picked + rest;
    forall i, j | 0 <= i < j < |result| ensures Id(result[i]) != Id(result[j]) {
      if i < |picked| && j >= |picked| {
        assert result[j] in rest && Id(result[i]) == ids[i] && ids[i] in ids;
      }
    }
  }

  /** For every feasible schedule of a verified function whose modelled blocks last at least one unit, sorting by
      start time and splicing gives a function the verifier accepts, for modelled and unmodelled blocks alike. */
  lemma ReorderedIsVerified(host: seq<HostBlock>, m: Model, a: Assignment, ids: seq<nat>, picked: seq<HostBlock>)
    requires Verified(host) && IsModel(host, m) && Feasible(m.blocks, m.precs, a)
    requires forall b :: b in m.blocks ==> Duration(b) >= 1
    requires StartOrder(m.blocks, a, ids) && Picked(host, ids, picked)
    ensures Verified(picked + Without(host, ids))
    ensures forall h :: h in picked + Without(host, ids) <==> h in host
  {
    SplicedMembers(host, m, a, ids, picked);
    forall k, x | 0 <= k < |picked| && x in References(picked[k].meta) ensures DeclaredAt(picked, k, x) {
      SortedDeclares(host, m, a, ids, picked, k, x);
    }
    forall q: nat, x | q < |Without(host, ids)| && x in References(Without(host, ids)[q].meta)
      ensures DeclaredAt(picked + Without(host, ids), |picked| + q, x)
    {
      RemainderPlace(host, ids, picked, q, x);
    }
    DeclaredInParts(picked, Without(host, ids));
  }

  lemma ListedIsHosted(host: seq<HostBlock>, m: Model, id: nat)
    requires IsModel(host, m) && exists b :: b in m.blocks && b.id == id
    ensures Has(host, id)
  {
    var b :| b in m.blocks && b.id == id;
    BuiltFrom(host, host);
    var g :| g in host && Modelled(host, g) && b == MakeBlock(g);
    assert g in host && Id(g) == id;
  }

  // ---------- where the return block ends up ----------

  /** A block outside the list ends the splice exactly when every block after it is listed. */
  lemma {:induction false} LastOfRemainder(host: seq<HostBlock>, ids: seq<nat>, p: nat)
    requires DistinctHost(host) && p < |host| && Id(host[p]) !in ids
    ensures Without(host, ids) != []
    ensures Without(host, ids)[|Without(host, ids)| - 1] == host[p] <==> forall q :: p < q < |host| ==> Id(host[q]) in ids
  {
    var n := |host| - 1;
    if Id(host[n]) in ids {
      LastOfRemainder(host[..n], ids, p);
    } else if p < n {
      assert Id(host[p]) != Id(host[n]);
    }
  }

  lemma ListedIffModelled(host: seq<HostBlock>, m: Model, a: Assignment, ids: seq<nat>, h: HostBlock)
    requires DistinctHost(host) && IsModel(host, m) && StartOrder(m.blocks, a, ids) && h in host
    ensures Id(h) in ids <==> Modelled(host, h)
  {
    BuiltFrom(host, host);
    if Id(h) in ids {
      var b :| b in m.blocks && b.id == Id(h);
      var g :| g in host && Modelled(host, g) && b == MakeBlock(g);
      SameHost(host, g, h);
    }
    if Modelled(host, h) {
      assert MakeBlock(h) in m.blocks;
    }
  }

  /** After the splice a block that returns is the last one exactly when no unmodelled block stands after it in the
      function; the search that should move it there finds nothing when records come first. */
  lemma ReturnBlockIsLast(host: seq<HostBlock>, m: Model, a: Assignment, ids: seq<nat>, picked: seq<HostBlock>, p: nat)
    requires DistinctHost(host) && IsModel(host, m) && StartOrder(m.blocks, a, ids) && Picked(host, ids, picked)
    requires p < |host| && ReturnOp in host[p].body
    ensures var order := picked + Without(host, ids);
            order != [] && (order[|order| - 1] == host[p] <==> forall q :: p < q < |host| ==> Modelled(host, host[q]))
  {
    forall q | 0 <= q < |host| ensures Id(host[q]) in ids <==> Modelled(host, host[q]) {
      ListedIffModelled(host, m, a, ids, host[q]);
    }
    LastOfRemainder(host, ids, p);
  }

  /** A block that returns ends the order exactly when only modelled blocks stood after it in the function. */
  ghost predicate ReturnsPlaced(host: seq<HostBlock>, order: seq<HostBlock>) {
    forall p :: 0 <= p < |host| && ReturnOp in host[p].body ==>
      order != [] && (order[|order| - 1] == host[p] <==> forall q :: p < q < |host| ==> Modelled(host, host[q]))
  }

  lemma AllReturnsPlaced(host: seq<HostBlock>, m: Model, a: Assignment, ids: seq<nat>, picked: seq<HostBlock>)
    requires DistinctHost(host) && IsModel(host, m) && StartOrder(m.blocks, a, ids) && Picked(host, ids, picked)
    ensures ReturnsPlaced(host, picked + Without(host, ids))
  {
    forall p | 0 <= p < |host| && ReturnOp in host[p].body
      ensures var order := picked + Without(host, ids);
              order != [] && (order[|order| - 1] == host[p] <==> forall q :: p < q < |host| ==> Modelled(host, host[q]))
    {
      ReturnBlockIsLast(host, m, a, ids, picked, p);
    }
  }

  /** A block that returns, followed by an empty one that nobody names. */
  const RETURN_THEN_EMPTY := [
    HostBlock(BlkMeta(0, [], [], None, None, []), [MetaOp, ReturnOp], CL, []),
    HostBlock(BlkMeta(1, [], [], None, None, []), [MetaOp], CL, [])]

  lemma {:induction false} BuiltNothing(host: seq<HostBlock>, prefix: seq<HostBlock>)
    requires forall h :: h in prefix ==> !Modelled(host, h)
    ensures Built(host, prefix) == []
  {
    if prefix != [] {
      BuiltNothing(host, prefix[..|prefix| - 1]);
    }
  }

  lemma NothingNamedIsVerified(host: seq<HostBlock>)
    requires DistinctHost(host) && forall h :: h in host ==> References(h.meta) == []
    ensures Verified(host)
  {
    assert forall i :: 0 <= i < |host| ==> References(Metas(host)[i]) == References(host[i].meta);
    forall h | h in host ensures h.meta.deadlines == [] {
      assert |References(h.meta)| >= |h.meta.deadlines|;
    }
  }

  lemma NothingModelledHasEmptyModel(host: seq<HostBlock>)
    requires forall h :: h in host ==> !Modelled(host, h)
    ensures IsModel(host, Model([], []))
  {
    BuiltNothing(host, host);
    assert EdgesOf([]) == {};
    forall x: nat, y: nat ensures !NamedBy(host, host, x, y) {
    }
  }

  lemma NothingIsFeasible(a: Assignment)
    ensures Feasible([], [], a) && StartOrder([], a, [])
  {
  }

  lemma ReturnThenEmptyIsIdle(host: seq<HostBlock>)
    requires host == RETURN_THEN_EMPTY
    ensures DistinctHost(host) && MetaFirst(host) && ReturnOp in host[0].body
    ensures forall h :: h in host ==> References(h.meta) == [] && !Modelled(host, h)
  {
    forall h | h in host ensures References(h.meta) == [] && !Modelled(host, h) {
      assert h == host[0] || h == host[1];
      assert Refs(host[0].meta) == [] && Refs(host[1].meta) == [];
      assert host[0].body[1] == ReturnOp;
    }
  }

  /** The function is verified and its model, which is empty, is feasible; yet the splice leaves the return block in front
      of the empty one. */
  lemma ReturnBlockLeftInFront(host: seq<HostBlock>, a: Assignment)
    requires host == RETURN_THEN_EMPTY
    ensures Verified(host) && MetaFirst(host) && ReturnOp in host[0].body
    ensures IsModel(host, Model([], [])) && Feasible([], [], a) && StartOrder([], a, []) && Picked(host, [], [])
    ensures var order := [] + Without(host, []); order == host && order[|order| - 1] != host[0]
  {
    ReturnThenEmptyIsIdle(host);
    NothingNamedIsVerified(host);
    NothingModelledHasEmptyModel(host);
    NothingIsFeasible(a);
    WithoutNothing(host);
  }

  // ---------- when a verified function gets a model ----------

  /** A modelled block names a block that returns, which the model leaves out. */
  ghost predicate NamesReturning(host: seq<HostBlock>) {
    exists h, g :: h in host && g in host && Modelled(host, h) && ReturnOp in g.body && Id(g) in Refs(h.meta)
  }

  lemma NamedIsSeen(host: seq<HostBlock>, k: nat, x: nat)
    requires Verified(host) && !NamesReturning(host) && k < |host| && Modelled(host, host[k]) && x in Refs(host[k].meta)
    ensures Seen(host, k + 1, x)
  {
    assert x in References(Metas(host)[k]);
    var j :| 0 <= j < k && Metas(host)[..k][j].blockId == x;
    assert host[j] in host && host[k] in host;
    assert !Isolated(host, host[j]);
  }

  /** With right operation counts, building the model of a verified function fails exactly when a modelled block names a
      block that returns. */
  lemma VerifiedIsBuildable(host: seq<HostBlock>)
    requires Verified(host) && forall h :: h in host && Modelled(host, h) ==> HasTasks(h)
    ensures Buildable(host) <==> !NamesReturning(host)
  {
    if NamesReturning(host) {
      var h, g :| h in host && g in host && Modelled(host, h) && ReturnOp in g.body && Id(g) in Refs(h.meta);
      var k :| 0 <= k < |host| && host[k] == h;
      forall j | 0 <= j <= k && Id(host[j]) == Id(g) ensures !Modelled(host, host[j]) {
        SameHost(host, host[j], g);
      }
      assert NamesUnseen(host, |host|, Id(g), Id(h));
    } else {
      forall k, x | 0 <= k < |host| && Modelled(host, host[k]) && x in Refs(host[k].meta) ensures Seen(host, k + 1, x) {
        NamedIsSeen(host, k, x);
      }
    }
  }

  // ---------- the end of the pass ----------

  lemma ListedAreRemembered(host: seq<HostBlock>, m: Model, a: Assignment, ids: seq<nat>)
    requires MetaFirst(host) && IsModel(host, m) && StartOrder(m.blocks, a, ids)
    ensures AllRemembered(host, ids)
  {
    forall id | id in ids ensures Remembers(host, id) {
      ListedIsHosted(host, m, id);
      var h :| h in host && Id(h) == id;
      assert Registered(h);
    }
  }

  /** Splicing a verified function by the start order of any feasible schedule succeeds; the verifier accepts the result,
      which has the same blocks; and a block that returns ends it exactly when only modelled blocks stood after it. */
  method ReorderVerified(host: seq<HostBlock>, ids: seq<nat>, ghost m: Model, ghost a: Assignment) returns (r: Result<seq<HostBlock>, nat>)
    requires Verified(host) && MetaFirst(host) && IsModel(host, m) && Feasible(m.blocks, m.precs, a)
    requires forall b :: b in m.blocks ==> Duration(b) >= 1
    requires StartOrder(m.blocks, a, ids)
    ensures r.Ok? && Verified(r.value) && forall h :: h in r.value <==> h in host
    ensures ReturnsPlaced(host, r.value)
  {
    r := ReorderBlocks(host, ids);
    ListedAreRemembered(host, m, a, ids);
    ghost var picked :| Picked(host, ids, picked) && r.value == picked + Without(host, ids);
    ReorderedIsVerified(host, m, a, ids, picked);
    AllReturnsPlaced(host, m, a, ids, picked);
  }
}
