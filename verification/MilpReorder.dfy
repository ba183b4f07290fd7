/** Sorting the blocks by start time and splicing the host function into that order. */
module MilpReorder {
  import opened Wrappers
  import opened Graph
  import opened BlockOrder
  import opened QoalaHost
  import opened MilpBuild

  function Metas(host: seq<HostBlock>): (ms: seq<BlkMeta>)
    ensures |ms| == |host| && forall i :: 0 <= i < |host| ==> ms[i] == host[i].meta
  {
    seq(|host|, i requires 0 <= i < |host| => host[i].meta)
  }

  /** The record is the first operation of every block. */
  predicate MetaFirst(host: seq<HostBlock>) {
    forall h :: h in host ==> h.body != [] && h.body[0] == MetaOp
  }

  /** The blocks whose id is not listed, in their order. */
  function Without(host: seq<HostBlock>, ids: seq<nat>): seq<HostBlock> {
    if host == [] then []
    else Without(host[..|host| - 1], ids) + (if Id(host[|host| - 1]) in ids then [] else [host[|host| - 1]])
  }

  predicate Has(host: seq<HostBlock>, id: nat) {
    exists h :: h in host && Id(h) == id
  }

  /** `picked` are the blocks with the listed ids, in the order of the list. */
  ghost predicate Picked(host: seq<HostBlock>, ids: seq<nat>, picked: seq<HostBlock>) {
    |picked| == |ids| && forall i :: 0 <= i < |ids| ==> picked[i] in host && Id(picked[i]) == ids[i]
  }

  lemma {:induction false} WithoutMembers(host: seq<HostBlock>, ids: seq<nat>)
    ensures forall h :: h in Without(host, ids) <==> h in host && Id(h) !in ids
  {
    if host != [] {
      var n := |host| - 1;
      WithoutMembers(host[..n], ids);
      assert host == host[..n] + [host[n]];
    }
  }

  lemma {:induction false} WithoutNothing(host: seq<HostBlock>)
    ensures Without(host, []) == host
  {
    if host != [] {
      WithoutNothing(host[..|host| - 1]);
    }
  }

  lemma {:induction false} WithoutAbsent(host: seq<HostBlock>, ids: seq<nat>, id: nat)
    requires forall h :: h in host ==> Id(h) != id
    ensures Without(host, ids + [id]) == Without(host, ids)
  {
    if host != [] {
      var n := |host| - 1;
      WithoutAbsent(host[..n], ids, id);
      assert host[n] in host;
    }
  }

  lemma {:induction false} WithoutConcat(s: seq<HostBlock>, t: seq<HostBlock>, ids: seq<nat>)
    ensures Without(s + t, ids) == Without(s, ids) + Without(t, ids)
  {
    if t == [] {
      assert s + t == s;
    } else {
      var n := |t| - 1;
      assert (s + t)[..|s + t| - 1] == s + t[..n];
      WithoutConcat(s, t[..n], ids);
    }
  }

  lemma WithoutOne(h: HostBlock, ids: seq<nat>)
    ensures Without([h], ids) == if Id(h) in ids then [] else [h]
  {
    assert [h][..0] == [];
  }

  lemma WithoutAround(a: seq<HostBlock>, h: HostBlock, b: seq<HostBlock>, ids: seq<nat>)
    ensures Without(a + [h] + b, ids) == Without(a, ids) + (if Id(h) in ids then [] else [h]) + Without(b, ids)
  {
    WithoutConcat(a + [h], b, ids);
    WithoutConcat(a, [h], ids);
    WithoutOne(h, ids);
  }

  lemma WithoutMiddle(front: seq<HostBlock>, h: HostBlock, back: seq<HostBlock>, ids: seq<nat>, id: nat)
    requires Id(h) == id && id !in ids && forall x :: x in front || x in back ==> Id(x) != id
    ensures Without(front + [h] + back, ids) == Without(front, ids) + [h] + Without(back, ids)
    ensures Without(front + [h] + back, ids + [id]) == Without(front, ids) + Without(back, ids)
  {
    WithoutAround(front, h, back, ids);
    WithoutAround(front, h, back, ids + [id]);
    WithoutAbsent(front, ids, id);
    WithoutAbsent(back, ids, id);
  }

  /** Taking one more id out removes exactly its block. */
  lemma WithoutOneMore(host: seq<HostBlock>, ids: seq<nat>, id: nat) returns (a: seq<HostBlock>, h: HostBlock, b: seq<HostBlock>)
    requires DistinctHost(host) && Has(host, id) && id !in ids
    ensures h in host && Id(h) == id
    ensures Without(host, ids) == a + [h] + b && Without(host, ids + [id]) == a + b
  {
    h :| h in host && Id(h) == id;
    var p :| 0 <= p < |host| && host[p] == h;
    var front, back := host[..p], host[p + 1..];
    assert host == front + [h] + back;
    assert forall x :: x in front || x in back ==> Id(x) != id;
    a, b := Without(front, ids), Without(back, ids);
    WithoutMiddle(front, h, back, ids, id);
  }

  lemma {:induction false} WithoutDistinct(host: seq<HostBlock>, ids: seq<nat>)
    requires DistinctHost(host)
    ensures DistinctHost(Without(host, ids))
  {
    if host != [] {
      var n := |host| - 1;
      WithoutDistinct(host[..n], ids);
      WithoutMembers(host[..n], ids);
      var w := Without(host[..n], ids);
      forall i | 0 <= i < |w| ensures Id(w[i]) != Id(host[n]) {
        assert w[i] in host[..n];
      }
    }
  }

  /** The operation stands in the block before any other return or record. */
  ghost predicate StandsFirst(h: HostBlock, op: HostOp) {
    exists k :: 0 <= k < |h.body| && h.body[k] == op && forall l :: 0 <= l < k ==> h.body[l] == OtherOp
  }

  /** A return stands in the block before any record. */
  ghost predicate ReturnsFirst(h: HostBlock) {
    StandsFirst(h, ReturnOp)
  }

  /** A record stands in the block before any return, so the scan remembers the block's id. */
  ghost predicate Registered(h: HostBlock) {
    StandsFirst(h, MetaOp)
  }

  /** The first return or record of a block, if there is one. */
  method ScanBlock(h: HostBlock) returns (op: HostOp)
    ensures op == ReturnOp <==> ReturnsFirst(h)
    ensures op == MetaOp <==> Registered(h)
  {
    op := OtherOp;
    for k := 0 to |h.body|
      invariant op == OtherOp && forall l :: 0 <= l < k ==> h.body[l] == OtherOp
    {
      if h.body[k] != OtherOp {
        op := h.body[k];
        assert StandsFirst(h, op);
        return;
      }
    }
  }

  /** Among the first `n` blocks, the last one with a return before any record. */
  ghost predicate IsReturnAmong(host: seq<HostBlock>, n: nat, found: Option<HostBlock>)
    requires n <= |host|
  {
    match found
    case None => forall i :: 0 <= i < n ==> !ReturnsFirst(host[i])
    case Some(h) => exists i :: 0 <= i < n && host[i] == h && ReturnsFirst(h) && forall j :: i < j < n ==> !ReturnsFirst(host[j])
  }

  ghost predicate IsReturnBlock(host: seq<HostBlock>, found: Option<HostBlock>) {
    IsReturnAmong(host, |host|, found)
  }

  /** The scan has remembered a block with the id. */
  ghost predicate Remembers(host: seq<HostBlock>, id: nat) {
    exists h :: h in host && Id(h) == id && Registered(h)
  }

  lemma RemembersNext(host: seq<HostBlock>, i: nat, id: nat)
    requires i < |host|
    ensures Remembers(host[..i + 1], id) <==> Remembers(host[..i], id) || (Id(host[i]) == id && Registered(host[i]))
  {
    assert host[..i + 1] == host[..i] + [host[i]];
  }

  lemma NoneReturnsFirst(host: seq<HostBlock>)
    requires MetaFirst(host)
    ensures forall i :: 0 <= i < |host| ==> !ReturnsFirst(host[i])
  {
    forall i | 0 <= i < |host| ensures !ReturnsFirst(host[i]) {
      assert host[i] in host;
    }
  }

  /** The scan marks the last block with a return before any record, and remembers the ids of those with a record first. */
  method FindReturnBlock(host: seq<HostBlock>) returns (found: Option<HostBlock>, known: set<nat>)
    ensures IsReturnBlock(host, found)
    ensures found.Some? <==> exists h :: h in host && ReturnsFirst(h)
    ensures MetaFirst(host) ==> found == None
    ensures forall id :: id in known <==> Remembers(host, id)
  {
    found, known := None, {};
    for i := 0 to |host|
      invariant IsReturnAmong(host, i, found)
      invariant forall id :: id in known <==> Remembers(host[..i], id)
    {
      var op := ScanBlock(host[i]);
      if op == ReturnOp {
        found := Some(host[i]);
      } else if op == MetaOp {
        known := known + {Id(host[i])};
      }
      forall id: nat ensures Remembers(host[..i + 1], id) <==> Remembers(host[..i], id) || (Id(host[i]) == id && Registered(host[i])) {
        RemembersNext(host, i, id);
      }
    }
    assert host[..|host|] == host;
    if found.Some? {
      assert found.value in host;
    }
    if MetaFirst(host) {
      NoneReturnsFirst(host);
    }
  }

  /** The place of the block with an id, from a place on. */
  method FindFrom(order: seq<HostBlock>, start: nat, id: nat) returns (i: nat)
    requires start <= |order| && exists k :: start <= k < |order| && Id(order[k]) == id
    ensures start <= i < |order| && Id(order[i]) == id
  {
    i := start;
    while Id(order[i]) != id
      invariant start <= i < |order|
      invariant exists k :: i <= k < |order| && Id(order[k]) == id
      decreases |order| - i
    {
      i := i + 1;
    }
  }

  /** One step of the splice: the block goes from the remainder to the end of the moved prefix. */
  method MoveOne(host: seq<HostBlock>, ids: seq<nat>, order0: seq<HostBlock>, k: nat, id: nat) returns (order: seq<HostBlock>, moved: HostBlock)
    requires DistinctHost(host) && Has(host, id) && id !in ids
    requires k <= |order0| && order0[k..] == Without(host, ids)
    ensures moved in host && Id(moved) == id
    ensures order == order0[..k] + [moved] + Without(host, ids + [id])
  {
    ghost var a, h, b := WithoutOneMore(host, ids, id);
    WithoutDistinct(host, ids);
    ghost var rest := Without(host, ids);
    assert order0 == order0[..k] + rest && rest[|a|] == h;
    assert order0[k + |a|] == h;
    var i := FindFrom(order0, k, id);
    assert order0[i] == rest[i - k];
    assert i - k == |a|;
    moved := order0[i];
    order := MoveBefore(order0, i, k);
    assert order0[k..i] == a && order0[i + 1..] == b;
  }

  ghost predicate PickedFirst(host: seq<HostBlock>, ids: seq<nat>, order: seq<HostBlock>) {
    exists picked :: Picked(host, ids, picked) && order == picked + Without(host, ids)
  }

  /** One more block after the picked ones. */
  method PickNext(host: seq<HostBlock>, ids: seq<nat>, order0: seq<HostBlock>, id: nat) returns (order: seq<HostBlock>)
    requires DistinctHost(host) && Has(host, id) && id !in ids && PickedFirst(host, ids, order0)
    ensures PickedFirst(host, ids + [id], order)
  {
    ghost var picked :| Picked(host, ids, picked) && order0 == picked + Without(host, ids);
    var moved;
    order, moved := MoveOne(host, ids, order0, |ids|, id);
    assert Picked(host, ids + [id], picked + [moved]);
  }

  ghost predicate AllRemembered(host: seq<HostBlock>, ids: seq<nat>) {
    forall id :: id in ids ==> Remembers(host, id)
  }

  lemma NextListed(host: seq<HostBlock>, ids: seq<nat>, k: nat)
    requires k < |ids| && Distinct(ids)
    ensures ids[..k + 1] == ids[..k] + [ids[k]] && ids[k] !in ids[..k] && ids[k] in ids
    ensures Remembers(host, ids[k]) ==> Has(host, ids[k])
    ensures AllRemembered(host, ids[..k]) && Remembers(host, ids[k]) ==> AllRemembered(host, ids[..k + 1])
    ensures !Remembers(host, ids[k]) ==> !AllRemembered(host, ids)
  {
  }

  lemma NothingPicked(host: seq<HostBlock>)
    ensures PickedFirst(host, [], host)
  {
    WithoutNothing(host);
    assert Picked(host, [], []) && host == [] + Without(host, []);
  }

  method MoveAll(host: seq<HostBlock>, known: set<nat>, ids: seq<nat>) returns (r: Result<seq<HostBlock>, nat>)
    requires DistinctHost(host) && Distinct(ids) && forall id :: id in known <==> Remembers(host, id)
    ensures r.Ok? <==> AllRemembered(host, ids)
    ensures r.Ok? ==> PickedFirst(host, ids, r.value)
    ensures r.Err? ==> r.error in ids && !Remembers(host, r.error)
  {
    var order := host;
    NothingPicked(host);
    for k := 0 to |ids|
      invariant PickedFirst(host, ids[..k], order) && AllRemembered(host, ids[..k])
    {
      NextListed(host, ids, k);
      if ids[k] !in known {
        return Err(ids[k]);
      }
      order := PickNext(host, ids[..k], order, ids[k]);
    }
    assert ids[..|ids|] == ids;
    return Ok(order);
  }

  function LastOf(order: seq<HostBlock>, h: HostBlock): seq<HostBlock> {
    Without(order, [Id(h)]) + [h]
  }

  /** The listed blocks in the listed order, then the others in their old order, but a found return block at the end. */
  ghost predicate Spliced(host: seq<HostBlock>, ids: seq<nat>, order: seq<HostBlock>) {
    exists picked, found :: Picked(host, ids, picked) && IsReturnBlock(host, found)
      && order == match found case None => picked + Without(host, ids) case Some(h) => LastOf(picked + Without(host, ids), h)
  }

  /** Moves the listed blocks, one by one, in front of a moving insertion point, and a found return block to the end. */
  method ReorderBlocks(host: seq<HostBlock>, ids: seq<nat>) returns (r: Result<seq<HostBlock>, nat>)
    requires DistinctHost(host) && Distinct(ids)
    ensures r.Ok? <==> AllRemembered(host, ids)
    ensures r.Ok? ==> Spliced(host, ids, r.value)
    ensures r.Ok? && MetaFirst(host) ==> PickedFirst(host, ids, r.value)
    ensures r.Err? ==> r.error in ids && !Remembers(host, r.error)
  {
    var returnBlock, known := FindReturnBlock(host);
    r := MoveAll(host, known, ids);
    if r.Ok? {
      ghost var picked :| Picked(host, ids, picked) && r.value == picked + Without(host, ids);
      if returnBlock.Some? {
        r := Ok(LastOf(r.value, returnBlock.value));
      }
      assert Spliced(host, ids, r.value) by {
        assert Picked(host, ids, picked) && IsReturnBlock(host, returnBlock);
      }
    }
  }
}
