/** Attaching the deadlines to the records of the spliced function. */
module MilpAnnotate {
  import opened QoalaHost
  import opened MilpModel
  import opened MilpOrder
  import opened MilpBuild
  import opened MilpReorder
  import opened MilpTheorems
  import opened MilpDeadlines

  /** A record with a deadline, other than the reference block's, names the reference block instead of what it named. */
  function Annotated(h: HostBlock, deadlines: map<nat, int>, ref: nat): HostBlock {
    if Id(h) == ref || Id(h) !in deadlines then h else h.(meta := h.meta.(deadlines := [ref]))
  }

  ghost predicate AnnotatedAs(host: seq<HostBlock>, deadlines: map<nat, int>, ref: nat, result: seq<HostBlock>) {
    |result| == |host| && forall i :: 0 <= i < |host| ==> result[i] == Annotated(host[i], deadlines, ref)
  }

  method AnnotateBlockDeadlines(host: seq<HostBlock>, deadlines: map<nat, int>, ref: nat) returns (result: seq<HostBlock>)
    ensures AnnotatedAs(host, deadlines, ref, result)
  {
    result := [];
    for i := 0 to |host|
      invariant |result| == i && forall k :: 0 <= k < i ==> result[k] == Annotated(host[k], deadlines, ref)
    {
      var h := host[i];
      if Id(h) != ref && Id(h) in deadlines {
        h := h.(meta := h.meta.(deadlines := [ref]));
      }
      result := result + [h];
    }
  }

  /** Every block that gets a deadline stands after the reference block. */
  ghost predicate AfterReference(host: seq<HostBlock>, deadlines: map<nat, int>, ref: nat) {
    forall i :: 0 <= i < |host| && Id(host[i]) in deadlines && Id(host[i]) != ref ==> DeclaredAt(host, i, ref)
  }

  /** Attaching deadlines keeps a function acceptable exactly when all blocks that get one stand after the reference block. */
  lemma AnnotatedIsDeclared(host: seq<HostBlock>, deadlines: map<nat, int>, ref: nat, result: seq<HostBlock>)
    requires DeclaredBeforeUse(Metas(host))
    requires AnnotatedAs(host, deadlines, ref, result)
    ensures DeclaredBeforeUse(Metas(result)) <==> AfterReference(host, deadlines, ref)
  {
    if AfterReference(host, deadlines, ref) {
      forall i, x | 0 <= i < |result| && x in References(result[i].meta) ensures DeclaredAt(result, i, x) {
        if x in References(host[i].meta) {
          assert x in References(Metas(host)[i]);
          var j :| 0 <= j < i && Metas(host)[..i][j].blockId == x;
          assert Id(result[j]) == x;
        } else {
          var j :| 0 <= j < i && j < |host| && Id(host[j]) == ref;
          assert Id(result[j]) == x;
        }
      }
      DeclaredByPlaces(result);
    }
    if DeclaredBeforeUse(Metas(result)) {
      forall i | 0 <= i < |host| && Id(host[i]) in deadlines && Id(host[i]) != ref ensures DeclaredAt(host, i, ref) {
        assert ref in References(Metas(result)[i]);
        var j :| 0 <= j < i && Metas(result)[..i][j].blockId == ref;
        assert Id(host[j]) == ref;
      }
    }
  }

  lemma SplicedAfterReference(host: seq<HostBlock>, ids: seq<nat>, picked: seq<HostBlock>, deadlines: map<nat, int>)
    requires Picked(host, ids, picked) && ids != [] && forall id :: id in deadlines ==> id in ids
    ensures AfterReference(picked + Without(host, ids), deadlines, ids[0])
  {
    var order := picked + Without(host, ids);
    forall i | 0 <= i < |order| && Id(order[i]) in deadlines && Id(order[i]) != ids[0] ensures DeclaredAt(order, i, ids[0]) {
      assert Id(order[0]) == ids[0];
    }
  }

  /** The deadlines of a solution concern the sorted blocks only, and the reference block is the first of them. */
  method DeadlinesOfSorted(ids: seq<nat>, chain: seq<MilpBlock>, ghost h: int, a: Assignment) returns (deadlines: map<nat, int>)
    requires WellFormedBlocks(chain) && |chain| >= 2 && Deadlined(chain, h, a) && h < 0x8000_0000
    requires forall b :: b in chain ==> Duration(b) >= 1
    requires |chain| == |ids| && forall i :: 0 <= i < |ids| ==> chain[i].id == ids[i]
    ensures SumsUp(chain, a, deadlines) && forall id :: id in deadlines ==> id in ids
  {
    var ref;
    deadlines, ref := DeadlinesOfSolution(chain, h, a);
  }

  /** The end of the pass on an accepted splice: attaching the deadlines of any solution of the deadline model of the
      sorted blocks leaves a function that the verifier accepts. */
  method AttachDeadlines(host: seq<HostBlock>, ids: seq<nat>, picked: seq<HostBlock>, chain: seq<MilpBlock>, ghost h: int,
                         a: Assignment)
    returns (deadlines: map<nat, int>, result: seq<HostBlock>)
    requires DeclaredBeforeUse(Metas(picked + Without(host, ids))) && Picked(host, ids, picked)
    requires WellFormedBlocks(chain) && |chain| >= 2 && Deadlined(chain, h, a) && h < 0x8000_0000
    requires forall b :: b in chain ==> Duration(b) >= 1
    requires |chain| == |ids| && forall i :: 0 <= i < |ids| ==> chain[i].id == ids[i]
    ensures SumsUp(chain, a, deadlines) && DeclaredBeforeUse(Metas(result))
    ensures AnnotatedAs(picked + Without(host, ids), deadlines, ids[0], result)
  {
    deadlines := DeadlinesOfSorted(ids, chain, h, a);
    result := AnnotateBlockDeadlines(picked + Without(host, ids), deadlines, ids[0]);
    SplicedAfterReference(host, ids, picked, deadlines);
    AnnotatedIsDeclared(picked + Without(host, ids), deadlines, ids[0], result);
  }

  /** A verified function spliced by any feasible schedule is accepted with any deadlines of its sorted blocks. */
  lemma DeadlinesKeepVerified(host: seq<HostBlock>, m: Model, start: Assignment, ids: seq<nat>, picked: seq<HostBlock>,
                              deadlines: map<nat, int>, result: seq<HostBlock>)
    requires Verified(host) && IsModel(host, m) && Feasible(m.blocks, m.precs, start)
    requires forall b :: b in m.blocks ==> Duration(b) >= 1
    requires StartOrder(m.blocks, start, ids) && Picked(host, ids, picked)
    requires ids != [] && forall id :: id in deadlines ==> id in ids
    requires AnnotatedAs(picked + Without(host, ids), deadlines, ids[0], result)
    ensures DeclaredBeforeUse(Metas(result))
  {
    ReorderedIsVerified(host, m, start, ids, picked);
    SplicedAfterReference(host, ids, picked, deadlines);
    AnnotatedIsDeclared(picked + Without(host, ids), deadlines, ids[0], result);
  }
}
