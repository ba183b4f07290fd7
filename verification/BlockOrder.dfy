/** The block list of a function: positions, precedence in the list, and moving a block up. */
module BlockOrder {
  import opened Graph

  /** Block `a` is declared before block `b`. */
  ghost predicate Before(order: seq<nat>, a: nat, b: nat) {
    exists i, j :: 0 <= i < j < |order| && order[i] == a && order[j] == b
  }

  /** Every block stands after all the blocks `must` lists for it. */
  ghost predicate Respects(order: seq<nat>, must: Digraph) {
    forall b: nat, x: nat {:trigger x in Succ(must, b)} :: b in order && x in Succ(must, b) ==> Before(order, x, b)
  }

  /** `pos` is the position index of the list. */
  ghost predicate IsIndex(pos: map<nat, nat>, order: seq<nat>) {
    && (forall i :: 0 <= i < |order| ==> order[i] in pos && pos[order[i]] == i)
    && (forall b :: b in pos ==> pos[b] < |order| && order[pos[b]] == b)
  }

  /** The list holds each of the blocks `0..n` exactly once. */
  ghost predicate Lists(order: seq<nat>, n: nat) {
    && Distinct(order)
    && (forall i :: 0 <= i < |order| ==> order[i] < n)
    && (forall b: nat :: b < n ==> b in order)
  }

  method IndexBlocks(order: seq<nat>) returns (pos: map<nat, nat>)
    requires Distinct(order)
    ensures IsIndex(pos, order) && forall b: nat :: b in pos <==> b in order
  {
    pos := map[];
    for i := 0 to |order|
      invariant forall k :: 0 <= k < i ==> order[k] in pos && pos[order[k]] == k
      invariant forall b :: b in pos ==> pos[b] < i && order[pos[b]] == b
    {
      pos := pos[order[i] := i];
    }
  }

  lemma BeforeByIndex(order: seq<nat>, pos: map<nat, nat>, a: nat, b: nat)
    requires IsIndex(pos, order)
    ensures Before(order, a, b) <==> a in pos && b in pos && pos[a] < pos[b]
  {
    if a in pos && b in pos && pos[a] < pos[b] {
      assert order[pos[a]] == a && order[pos[b]] == b;
    }
  }

  /** A list that respects `must` shows `must` to have no cycle among the listed blocks. */
  lemma RespectedIsAcyclic(order: seq<nat>, pos: map<nat, nat>, must: Digraph)
    requires IsIndex(pos, order) && Respects(order, must)
    requires forall b :: b in must ==> b in order
    ensures Acyclic(must)
  {
    forall x: nat, y: nat {:trigger y in Succ(must, x)} | y in Succ(must, x)
      ensures x in pos && y in pos && pos[y] < pos[x]
    {
      assert Before(order, y, x);
      BeforeByIndex(order, pos, y, x);
    }
    RankedIsAcyclic(must, pos);
  }

  /** Takes the block at `i` out and puts it back in front of the block at `j`. */
  function MoveBefore<T>(order: seq<T>, i: nat, j: nat): (r: seq<T>)
    requires j <= i < |order|
    ensures |r| == |order|
  {
    order[..j] + [order[i]] + order[j..i] + order[i + 1..]
  }

  /** Where the block at `k` stands after the move. */
  function Moved(k: nat, i: nat, j: nat): nat {
    if k == i then j else if j <= k < i then k + 1 else k
  }

  lemma MovePlaces(order: seq<nat>, i: nat, j: nat)
    requires j <= i < |order|
    ensures forall k: nat :: k < |order| ==> Moved(k, i, j) < |order| && MoveBefore(order, i, j)[Moved(k, i, j)] == order[k]
    ensures forall x: nat :: x in order <==> x in MoveBefore(order, i, j)
  {
    var r := MoveBefore(order, i, j);
    forall k: nat | k < |order| ensures Moved(k, i, j) < |order| && r[Moved(k, i, j)] == order[k] {}
    forall x: nat ensures x in order <==> x in r {
      if x in order {
        var k :| 0 <= k < |order| && order[k] == x;
        assert r[Moved(k, i, j)] == x;
      }
    }
  }

  lemma MoveKeepsDistinct(order: seq<nat>, i: nat, j: nat)
    requires j <= i < |order| && Distinct(order)
    ensures Distinct(MoveBefore(order, i, j))
  {
  }

  lemma MovedBefore(order: seq<nat>, i: nat, j: nat, p: nat, q: nat)
    requires j <= i < |order| && p < q < |order| && (q == i ==> p < j)
    ensures Before(MoveBefore(order, i, j), order[p], order[q])
  {
    var r := MoveBefore(order, i, j);
    assert r[Moved(p, i, j)] == order[p] && r[Moved(q, i, j)] == order[q];
  }

  /** Only the moved block changes sides. */
  lemma MoveKeepsOthers(order: seq<nat>, i: nat, j: nat)
    requires j <= i < |order|
    ensures forall a: nat, b: nat :: Before(order, a, b) && b != order[i] ==> Before(MoveBefore(order, i, j), a, b)
  {
    forall a: nat, b: nat | Before(order, a, b) && b != order[i] ensures Before(MoveBefore(order, i, j), a, b) {
      var p, q :| 0 <= p < q < |order| && order[p] == a && order[q] == b;
      MovedBefore(order, i, j, p, q);
    }
  }

  /** Moving a block up keeps a respected relation when all the block needs already stands above its new place. */
  lemma MoveKeepsRespects(order: seq<nat>, must: Digraph, i: nat, j: nat)
    requires j <= i < |order| && Distinct(order) && Respects(order, must)
    requires forall x: nat :: x in Succ(must, order[i]) ==> exists k :: 0 <= k < j && order[k] == x
    ensures Respects(MoveBefore(order, i, j), must)
  {
    var r := MoveBefore(order, i, j);
    MovePlaces(order, i, j);
    forall b: nat, x: nat {:trigger x in Succ(must, b)} | b in r && x in Succ(must, b) ensures Before(r, x, b) {
      assert Before(order, x, b);
      var p, q :| 0 <= p < q < |order| && order[p] == x && order[q] == b;
      if q == i {
        var k :| 0 <= k < j && order[k] == x;
        assert p == k;
      }
      MovedBefore(order, i, j, p, q);
    }
  }
}
