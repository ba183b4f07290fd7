/** Outlining all groups of a body, one after the other. */
module FunctionizeModule {
  import opened Wrappers
  import opened Outlining
  import opened Functionize
  import opened FunctionizeMeaning

  // ---------- what the groups of a body must meet ----------

  /** The two can be exchanged, whichever comes first. */
  ghost predicate Exchange<D(!new), W(!new)>(m: Interpretation<D, W>, a: Item, b: Item) {
    Commutes(m, a, b) && Commutes(m, b, a)
  }

  /** Each group operation can be exchanged with what stays between it and a later operation of its group. */
  ghost predicate Separable<D(!new), W(!new)>(m: Interpretation<D, W>, body: seq<Item>, ids: set<nat>) {
    forall i, j, l :: 0 <= i < j < l < |body| && InGroup(body[i], ids) && !InGroup(body[j], ids) && InGroup(body[l], ids) ==>
      Exchange(m, body[i], body[j])
  }

  /** What stays before an operation of the group does not use the group's results. */
  ghost predicate UsedAfter(body: seq<Item>, ids: set<nat>) {
    forall j, l :: 0 <= j < l < |body| && !InGroup(body[j], ids) && InGroup(body[l], ids) ==> !Uses(body[j], ids)
  }

  ghost predicate Has(body: seq<Item>, id: nat) {
    exists j :: 0 <= j < |body| && body[j].Plain? && body[j].op.id == id
  }

  /** The group's operations are there, and there is at least one. */
  ghost predicate Whole(body: seq<Item>, ids: set<nat>) {
    ids != {} && forall id :: id in ids ==> Has(body, id)
  }

  ghost predicate CanOutline<D(!new), W(!new)>(m: Interpretation<D, W>, body: seq<Item>, ids: set<nat>) {
    Whole(body, ids) && Separable(m, body, ids) && UsedAfter(body, ids)
  }

  // ---------- where the items of an outlined body come from ----------

  ghost predicate Increasing(at: seq<nat>) {
    forall k, l :: 0 <= k < l < |at| ==> at[k] < at[l]
  }

  function Later(at: seq<nat>): (later: seq<nat>)
    ensures |later| == |at| && forall k :: 0 <= k < |at| ==> later[k] == at[k] + 1
    ensures forall e: nat :: e in at ==> e + 1 in later
  {
    var later := seq(|at|, k requires 0 <= k < |at| => at[k] + 1);
    assert forall k :: 0 <= k < |at| ==> later[k] == at[k] + 1;
    later
  }

  ghost predicate Stays(items: seq<Item>, ids: set<nat>, at: seq<nat>, kept: seq<Item>) {
    && |at| == |kept| && Increasing(at)
    && (forall k :: 0 <= k < |at| ==> at[k] < |items| && kept[k] == items[at[k]] && !InGroup(items[at[k]], ids))
    && (forall e: nat :: e < |items| && !InGroup(items[e], ids) ==> e in at)
  }

  lemma LaterPlaces(items: seq<Item>, ids: set<nat>, at: seq<nat>, kept: seq<Item>)
    requires items != [] && Stays(items[1..], ids, at, kept)
    ensures forall k :: 0 <= k < |at| ==> Later(at)[k] < |items| && kept[k] == items[Later(at)[k]] && !InGroup(items[Later(at)[k]], ids)
    ensures forall e: nat :: 0 < e < |items| && !InGroup(items[e], ids) ==> e in Later(at)
    ensures Increasing(Later(at))
  {
    forall e: nat | 0 < e < |items| && !InGroup(items[e], ids) ensures e in Later(at) {
      assert items[1..][e - 1] == items[e];
      var d: nat := e - 1;
      assert d in at;
    }
  }

  lemma FrontIncreases(at: seq<nat>)
    requires Increasing(at)
    ensures Increasing([0] + Later(at)) && forall e: nat :: e == 0 || e in Later(at) ==> e in [0] + Later(at)
  {
  }

  lemma FirstStays(items: seq<Item>, ids: set<nat>, at: seq<nat>, later: seq<nat>, kept: seq<Item>)
    requires items != [] && |later| == |kept| && !InGroup(items[0], ids) && Increasing([0] + later)
    requires forall k :: 0 <= k < |later| ==> later[k] < |items| && kept[k] == items[later[k]] && !InGroup(items[later[k]], ids)
    requires forall e: nat :: 0 < e < |items| && !InGroup(items[e], ids) ==> e in later
    requires at == [0] + later
    ensures Stays(items, ids, at, [items[0]] + kept)
  {
    var all := [items[0]] + kept;
    forall k | 0 <= k < |at| ensures at[k] < |items| && all[k] == items[at[k]] && !InGroup(items[at[k]], ids) {
      if k > 0 {
        assert at[k] == later[k - 1] && all[k] == kept[k - 1];
      }
    }
    forall e: nat | e < |items| && !InGroup(items[e], ids) ensures e in at {
      assert e == 0 || e in later;
    }
  }

  lemma ErasedFirst(items: seq<Item>, ids: set<nat>, rest: seq<Item>)
    requires items != [] && rest == Erased(items[1..], ids)
    ensures Erased(items, ids) == if InGroup(items[0], ids) then rest else [items[0]] + rest
  {
  }

  lemma StaysLater(items: seq<Item>, ids: set<nat>, at: seq<nat>, rest: seq<Item>)
    requires items != [] && Stays(items[1..], ids, at, rest) && InGroup(items[0], ids)
    ensures Stays(items, ids, Later(at), rest)
  {
    LaterPlaces(items, ids, at, rest);
  }

  lemma StaysFirst(items: seq<Item>, ids: set<nat>, at: seq<nat>, rest: seq<Item>)
    requires items != [] && Stays(items[1..], ids, at, rest) && !InGroup(items[0], ids)
    ensures Stays(items, ids, [0] + Later(at), [items[0]] + rest)
  {
    LaterPlaces(items, ids, at, rest);
    FrontIncreases(at);
    FirstStays(items, ids, [0] + Later(at), Later(at), rest);
  }

  lemma {:induction false} ErasedAt(items: seq<Item>, ids: set<nat>) returns (at: seq<nat>)
    ensures Stays(items, ids, at, Erased(items, ids))
  {
    if items == [] {
      return [];
    }
    var before := ErasedAt(items[1..], ids);
    var rest := Erased(items[1..], ids);
    ErasedFirst(items, ids, rest);
    if InGroup(items[0], ids) {
      StaysLater(items, ids, before, rest);
      at := Later(before);
    } else {
      StaysFirst(items, ids, before, rest);
      at := [0] + Later(before);
    }
  }

  /** The places of some items, in order. */
  ghost predicate Places(items: seq<Item>, some: seq<Item>, at: seq<nat>) {
    && |at| == |some| && Increasing(at)
    && forall k :: 0 <= k < |at| ==> at[k] < |items| && some[k] == items[at[k]]
  }

  lemma PlacesLater(items: seq<Item>, some: seq<Item>, at: seq<nat>)
    requires items != [] && Places(items[1..], some, at)
    ensures Places(items, some, Later(at))
  {
  }

  lemma PlacesFront(items: seq<Item>, some: seq<Item>, later: seq<nat>, at: seq<nat>)
    requires items != [] && Places(items, some, later) && Increasing(at) && at == [0] + later
    ensures Places(items, [items[0]] + some, at)
  {
    var all := [items[0]] + some;
    forall k | 0 <= k < |at| ensures at[k] < |items| && all[k] == items[at[k]] {
      if k > 0 {
        assert at[k] == later[k - 1] && all[k] == some[k - 1];
      }
    }
  }

  lemma {:induction false} MembersAt(items: seq<Item>, ids: set<nat>) returns (at: seq<nat>)
    ensures Places(items, Members(items, ids), at)
  {
    at := [];
    if items != [] {
      at := MembersAt(items[1..], ids);
      var later := Later(at);
      PlacesLater(items, Members(items[1..], ids), at);
      if InGroup(items[0], ids) {
        FrontIncreases(at);
        at := [0] + later;
        PlacesFront(items, Members(items[1..], ids), later, at);
      } else {
        at := later;
        assert Members(items, ids) == Members(items[1..], ids);
      }
    }
  }

  function Extended(body: seq<Item>, last: nat, call: Item): (ext: seq<Item>)
    requires last < |body|
    ensures |ext| == |body| + 1 && ext[last + 1] == call
    ensures forall e :: 0 <= e <= last ==> ext[e] == body[e]
    ensures forall e :: last + 1 < e < |ext| ==> ext[e] == body[e - 1]
  {
    body[..last + 1] + [call] + body[last + 1..]
  }

  /** The items of the outlined body are, in order, what stays of the body and of the call, renamed. */
  ghost predicate From(ext: seq<Item>, ids: set<nat>, callId: nat, replacement: map<Value, nat>, body': seq<Item>, at: seq<nat>) {
    && |at| == |body'| && Increasing(at)
    && (forall k :: 0 <= k < |at| ==>
          at[k] < |ext| && body'[k] == RenameItem(ext[at[k]], callId, replacement) && !InGroup(ext[at[k]], ids))
    && (forall e: nat :: e < |ext| && !InGroup(ext[e], ids) ==> e in at)
  }

  lemma OutlinedFrom(body: seq<Item>, last: nat, ids: set<nat>, call: Item, replacement: map<Value, nat>) returns (at: seq<nat>)
    requires last < |body| && call.Call?
    ensures From(Extended(body, last, call), ids, call.callId, replacement, Outlined(body, last, ids, call, replacement), at)
  {
    var ext := Extended(body, last, call);
    var renamed := RenameItems(ext, call.callId, replacement);
    at := ErasedAt(renamed, ids);
    forall e: nat | e < |ext| && !InGroup(ext[e], ids) ensures e in at {
      assert !InGroup(renamed[e], ids);
    }
  }

  /** The place in the body of an item that is not the call. */
  function Place(e: nat, last: nat): nat {
    if e <= last then e else if e == last + 1 then last else e - 1
  }

  // ---------- exchanging with a call ----------

  lemma CommutesRenamed<D(!new), W(!new)>(m: Interpretation<D, W>, a: Item, b: Item, a': Item, b': Item)
    requires Commutes(m, a, b)
    requires forall x: seq<D>, w: W :: Behave(m, a', x, w) == Behave(m, a, x, w)
    requires forall x: seq<D>, w: W :: Behave(m, b', x, w) == Behave(m, b, x, w)
    ensures Commutes(m, a', b')
  {
    forall x: seq<D>, y: seq<D>, w: W | Behave(m, a', x, w).Some? && Behave(m, b', y, Behave(m, a', x, w).value.1).Some?
      ensures CommutesOn(m, a', b', x, y, w)
    {
      assert CommutesOn(m, a, b, x, y, w);
    }
  }

  /** The two do the same on any operands. */
  predicate SameWork(a: Item, b: Item) {
    match a
    case Plain(op) => b.Plain? && b.op.code == op.code && b.op.width == op.width
    case Call(_, f, _) => b.Call? && b.func == f
  }

  lemma ExchangeRenamed<D(!new), W(!new)>(m: Interpretation<D, W>, a: Item, b: Item, a': Item, b': Item)
    requires Exchange(m, a, b) && SameWork(a, a') && SameWork(b, b')
    ensures Exchange(m, a', b')
  {
    forall x: seq<D>, w: W ensures Behave(m, a', x, w) == Behave(m, a, x, w) && Behave(m, b', x, w) == Behave(m, b, x, w) {
    }
    CommutesRenamed(m, a, b, a', b');
    CommutesRenamed(m, b, a, b', a');
  }

  ghost predicate ExchangesAll<D(!new), W(!new)>(m: Interpretation<D, W>, x: Item, ops: seq<Op>) {
    forall k :: 0 <= k < |ops| ==> Exchange(m, x, Plain(ops[k]))
  }

  /** Doing `x` first and then the operations is doing the operations first and then `x`. */
  lemma {:induction false} PushBehind<D(!new), W(!new)>(m: Interpretation<D, W>, x: Item, args: seq<D>, ops: seq<Op>, w: W, s: State<D, W>)
    requires ExchangesAll(m, x, ops) && Behave(m, x, args, w).Some? && s.world == Behave(m, x, args, w).value.1
    requires RunOps(m, ops, s).Some?
    ensures RunOps(m, ops, s.(world := w)).Some?
    ensures var t, u := RunOps(m, ops, s).value, RunOps(m, ops, s.(world := w)).value;
            u.env == t.env && u.args == t.args && Behave(m, x, args, u.world) == Some((Behave(m, x, args, w).value.0, t.world))
  {
    if ops != [] {
      var op, xs := ops[0], FetchAll(ops[0].operands, s);
      assert Exchange(m, x, Plain(op));
      assert Behave(m, Plain(op), xs, s.world) == Perform(m, op, xs, s.world);
      assert CommutesOn(m, x, Plain(op), args, xs, w);
      assert FetchAll(op.operands, s.(world := w)) == xs;
      var w' := Perform(m, op, xs, w).value.1;
      var s1 := ExecOp(m, op, s).value;
      assert ExecOp(m, op, s.(world := w)) == Some(s1.(world := w'));
      assert forall k :: 0 <= k < |ops[1..]| ==> ops[1..][k] == ops[k + 1];
      PushBehind(m, x, args, ops[1..], w', s1);
    }
  }

  /** Doing the operations first and then `x` is doing `x` first. */
  lemma {:induction false} PullAhead<D(!new), W(!new)>(m: Interpretation<D, W>, x: Item, args: seq<D>, ops: seq<Op>, s: State<D, W>)
    requires ExchangesAll(m, x, ops) && RunOps(m, ops, s).Some? && Behave(m, x, args, RunOps(m, ops, s).value.world).Some?
    ensures Behave(m, x, args, s.world).Some?
    ensures var t, r := RunOps(m, ops, s).value, Behave(m, x, args, s.world).value;
            var after := Behave(m, x, args, t.world).value;
            r.0 == after.0 && RunOps(m, ops, s.(world := r.1)) == Some(t.(world := after.1))
  {
    if ops == [] {
      assert s.(world := s.world) == s;
    } else {
      var op, xs := ops[0], FetchAll(ops[0].operands, s);
      var s1 := ExecOp(m, op, s).value;
      assert forall k :: 0 <= k < |ops[1..]| ==> ops[1..][k] == ops[k + 1];
      PullAhead(m, x, args, ops[1..], s1);
      assert Exchange(m, x, Plain(op));
      assert Behave(m, Plain(op), xs, s.world) == Perform(m, op, xs, s.world);
      assert CommutesOn(m, Plain(op), x, xs, args, s.world);
      var w1 := Behave(m, x, args, s.world).value.1;
      assert FetchAll(op.operands, s.(world := w1)) == xs;
      assert Perform(m, op, xs, w1) == Behave(m, Plain(op), xs, w1);
      assert ExecOp(m, op, s.(world := w1)) == Some(s1.(world := Behave(m, x, args, s1.world).value.1));
    }
  }

  lemma FetchWorld<D, W>(vs: seq<Value>, t: State<D, W>, u: State<D, W>)
    requires u.env == t.env && u.args == t.args
    ensures AllDefined(vs, t) <==> AllDefined(vs, u)
    ensures AllDefined(vs, t) ==> FetchAll(vs, u) == FetchAll(vs, t)
  {
    if AllDefined(vs, t) {
      assert FetchAll(vs, u) == FetchAll(vs, t);
    }
  }

  lemma ExchangeBefore<D(!new), W(!new)>(m: Interpretation<D, W>, x: Item, call: Item, xs: seq<D>, ys: seq<D>, w: W)
    requires call.Call? && ExchangesAll(m, x, call.func.body)
    requires Behave(m, x, xs, w).Some? && Behave(m, call, ys, Behave(m, x, xs, w).value.1).Some?
    ensures CommutesOn(m, x, call, xs, ys, w)
  {
    var f, s := call.func, State(map[], ys, Behave(m, x, xs, w).value.1);
    PushBehind(m, x, xs, f.body, w, s);
    assert s.(world := w) == State(map[], ys, w);
    FetchWorld(f.returned, RunOps(m, f.body, s).value, RunOps(m, f.body, s.(world := w)).value);
  }

  lemma ExchangeAfter<D(!new), W(!new)>(m: Interpretation<D, W>, x: Item, call: Item, xs: seq<D>, ys: seq<D>, w: W)
    requires call.Call? && ExchangesAll(m, x, call.func.body)
    requires Behave(m, call, ys, w).Some? && Behave(m, x, xs, Behave(m, call, ys, w).value.1).Some?
    ensures CommutesOn(m, call, x, ys, xs, w)
  {
    var f, s: State<D, W> := call.func, State(map[], ys, w);
    PullAhead(m, x, xs, f.body, s);
    var w1 := Behave(m, x, xs, w).value.1;
    assert s.(world := w1) == State(map[], ys, w1);
    FetchWorld(f.returned, RunOps(m, f.body, s).value, RunOps(m, f.body, s.(world := w1)).value);
  }

  /** What can be exchanged with every operation of a function can be exchanged with a call to it. */
  lemma ExchangesCall<D(!new), W(!new)>(m: Interpretation<D, W>, x: Item, call: Item)
    requires call.Call? && ExchangesAll(m, x, call.func.body)
    ensures Exchange(m, x, call)
  {
    forall xs: seq<D>, ys: seq<D>, w: W | Behave(m, x, xs, w).Some? && Behave(m, call, ys, Behave(m, x, xs, w).value.1).Some?
      ensures CommutesOn(m, x, call, xs, ys, w)
    {
      ExchangeBefore(m, x, call, xs, ys, w);
    }
    forall ys: seq<D>, xs: seq<D>, w: W | Behave(m, call, ys, w).Some? && Behave(m, x, xs, Behave(m, call, ys, w).value.1).Some?
      ensures CommutesOn(m, call, x, ys, xs, w)
    {
      ExchangeAfter(m, x, call, xs, ys, w);
    }
  }

  // ---------- what an outlined group leaves of the others ----------

  /** The group outlined in this round, and the call that stands for it. */
  ghost predicate Round<D(!new), W(!new)>(m: Interpretation<D, W>, body: seq<Item>, last: nat, group: seq<Op>, call: Item) {
    && call.Call? && IsGroup(body, last, group) && CanOutline(m, body, IdsOf(group)) && FreshCall(body, call.callId)
    && AreArguments(call.actuals, AllOperands(group), IdsOf(group)) && |call.func.body| == |group|
    && (forall i :: 0 <= i < |group| ==> SameWork(Plain(group[i]), Plain(call.func.body[i])))
  }

  lemma GroupMember(body: seq<Item>, last: nat, group: seq<Op>, i: nat) returns (p: nat)
    requires IsGroup(body, last, group) && i < |group|
    ensures p <= last && body[p] == Plain(group[i]) && InGroup(body[p], IdsOf(group))
  {
    MembersAre(body[..last + 1], IdsOf(group));
    assert Plains(group)[i] in Members(body[..last + 1], IdsOf(group));
    var q :| 0 <= q <= last && body[..last + 1][q] == Plain(group[i]);
    p := q;
  }

  /** An operation of another group that stands before the call can be exchanged with it, if its group goes on after it. */
  lemma CallExchanges<D(!new), W(!new)>(m: Interpretation<D, W>, body: seq<Item>, last: nat, group: seq<Op>, call: Item,
                                        ids: set<nat>, i: nat, l: nat)
    requires Round(m, body, last, group, call) && CanOutline(m, body, ids) && ids !! IdsOf(group)
    requires i < last < l < |body| && InGroup(body[i], ids) && InGroup(body[l], ids)
    ensures Exchange(m, body[i], call)
  {
    forall k | 0 <= k < |call.func.body| ensures Exchange(m, body[i], Plain(call.func.body[k])) {
      var p := GroupMember(body, last, group, k);
      assert p != i;
      if p < i {
        assert Exchange(m, body[p], body[i]);
      } else {
        assert !InGroup(body[p], ids);
        assert Exchange(m, body[i], body[p]);
      }
      ExchangeRenamed(m, body[i], body[p], body[i], Plain(call.func.body[k]));
    }
    ExchangesCall(m, body[i], call);
  }

  lemma RenamedIsSame(x: Item, callId: nat, replacement: map<Value, nat>)
    ensures SameWork(x, RenameItem(x, callId, replacement)) && IdOf(RenameItem(x, callId, replacement)) == IdOf(x)
    ensures forall ids :: InGroup(RenameItem(x, callId, replacement), ids) <==> InGroup(x, ids)
  {
  }

  lemma PlacedAt(body: seq<Item>, last: nat, call: Item, ids: set<nat>, x: nat)
    requires last < |body| && x <= |body| && call.Call? && InGroup(Extended(body, last, call)[x], ids) && !InGroup(body[last], ids)
    ensures x != last && x != last + 1 && body[Place(x, last)] == Extended(body, last, call)[x]
  {
  }

  lemma ExtendedExchanges<D(!new), W(!new)>(m: Interpretation<D, W>, body: seq<Item>, last: nat, group: seq<Op>, call: Item, ids: set<nat>,
                                            x: nat, y: nat, z: nat)
    requires Round(m, body, last, group, call) && CanOutline(m, body, ids) && ids !! IdsOf(group)
    requires x < y < z <= |body|
    requires var ext := Extended(body, last, call);
             InGroup(ext[x], ids) && !InGroup(ext[y], ids) && InGroup(ext[z], ids)
    ensures Exchange(m, Extended(body, last, call)[x], Extended(body, last, call)[y])
  {
    PlacedAt(body, last, call, ids, x);
    PlacedAt(body, last, call, ids, z);
    var p, r := Place(x, last), Place(z, last);
    if y == last + 1 {
      CallExchanges(m, body, last, group, call, ids, p, r);
    } else {
      assert Separable(m, body, ids) && body[Place(y, last)] == Extended(body, last, call)[y];
    }
  }

  lemma SeparableKept<D(!new), W(!new)>(m: Interpretation<D, W>, body: seq<Item>, last: nat, group: seq<Op>, call: Item, replacement: map<Value, nat>,
                                        ids: set<nat>, body': seq<Item>, at: seq<nat>)
    requires Round(m, body, last, group, call) && CanOutline(m, body, ids) && ids !! IdsOf(group)
    requires From(Extended(body, last, call), IdsOf(group), call.callId, replacement, body', at)
    ensures Separable(m, body', ids)
  {
    var ext := Extended(body, last, call);
    forall i, j, l | 0 <= i < j < l < |body'| && InGroup(body'[i], ids) && !InGroup(body'[j], ids) && InGroup(body'[l], ids)
      ensures Exchange(m, body'[i], body'[j])
    {
      RenamedIsSame(ext[at[i]], call.callId, replacement);
      RenamedIsSame(ext[at[j]], call.callId, replacement);
      RenamedIsSame(ext[at[l]], call.callId, replacement);
      ExtendedExchanges(m, body, last, group, call, ids, at[i], at[j], at[l]);
      ExchangeRenamed(m, ext[at[i]], ext[at[j]], body'[i], body'[j]);
    }
  }

  /** Renaming by another call adds no use of the group, and the call uses only what its group used. */
  lemma RenamedUses(x: Item, callId: nat, replacement: map<Value, nat>, ids: set<nat>)
    requires !Uses(x, ids) && callId !in ids
    ensures !Uses(RenameItem(x, callId, replacement), ids)
  {
    var x' := RenameItem(x, callId, replacement);
    forall k | 0 <= k < |OperandsOf(x')| && OperandsOf(x')[k].Result? ensures OperandsOf(x')[k].op !in ids {
      assert OperandsOf(x')[k] == Renamed(OperandsOf(x)[k], callId, replacement);
    }
  }

  lemma CallUses<D(!new), W(!new)>(m: Interpretation<D, W>, body: seq<Item>, last: nat, group: seq<Op>, call: Item, ids: set<nat>, l: nat)
    requires Round(m, body, last, group, call) && CanOutline(m, body, ids) && ids !! IdsOf(group)
    requires last < l < |body| && InGroup(body[l], ids)
    ensures !Uses(call, ids)
  {
    forall k | 0 <= k < |call.actuals| && call.actuals[k].Result? ensures call.actuals[k].op !in ids {
      var v := call.actuals[k];
      assert v in call.actuals;
      var g :| 0 <= g < |group| && v in group[g].operands;
      var p := GroupMember(body, last, group, g);
      assert !Uses(body[p], ids);
      var o :| 0 <= o < |group[g].operands| && group[g].operands[o] == v;
      assert OperandsOf(body[p])[o] == v;
    }
  }

  lemma UsedAfterKept<D(!new), W(!new)>(m: Interpretation<D, W>, body: seq<Item>, last: nat, group: seq<Op>, call: Item, replacement: map<Value, nat>,
                                        ids: set<nat>, body': seq<Item>, at: seq<nat>)
    requires Round(m, body, last, group, call) && CanOutline(m, body, ids) && ids !! IdsOf(group) && call.callId !in ids
    requires From(Extended(body, last, call), IdsOf(group), call.callId, replacement, body', at)
    ensures UsedAfter(body', ids)
  {
    var ext := Extended(body, last, call);
    forall j, l | 0 <= j < l < |body'| && !InGroup(body'[j], ids) && InGroup(body'[l], ids) ensures !Uses(body'[j], ids) {
      RenamedIsSame(ext[at[j]], call.callId, replacement);
      RenamedIsSame(ext[at[l]], call.callId, replacement);
      var q, r := Place(at[j], last), Place(at[l], last);
      assert body[r] == ext[at[l]] && at[j] < at[l];
      if at[j] == last + 1 {
        assert r != last;
        CallUses(m, body, last, group, call, ids, r);
      } else {
        assert body[q] == ext[at[j]] && q < r;
      }
      RenamedUses(ext[at[j]], call.callId, replacement, ids);
    }
  }

  lemma WholeKept(body: seq<Item>, last: nat, call: Item, replacement: map<Value, nat>, gone: set<nat>, ids: set<nat>, body': seq<Item>, at: seq<nat>)
    requires last < |body| && Whole(body, ids) && ids !! gone
    requires From(Extended(body, last, call), gone, IdOf(call), replacement, body', at)
    ensures Whole(body', ids)
  {
    var ext := Extended(body, last, call);
    forall id | id in ids ensures Has(body', id) {
      assert Has(body, id);
      var j :| 0 <= j < |body| && body[j].Plain? && body[j].op.id == id;
      var e := if j <= last then j else j + 1;
      assert ext[e] == body[j] && !InGroup(ext[e], gone);
      var k :| 0 <= k < |at| && at[k] == e;
      assert body'[k].Plain? && body'[k].op.id == id;
    }
  }

  /** The other groups can still be outlined. */
  lemma CanStillOutline<D(!new), W(!new)>(m: Interpretation<D, W>, body: seq<Item>, last: nat, group: seq<Op>, call: Item, replacement: map<Value, nat>,
                                          ids: set<nat>, body': seq<Item>, at: seq<nat>)
    requires Round(m, body, last, group, call) && CanOutline(m, body, ids) && ids !! IdsOf(group) && call.callId !in ids
    requires From(Extended(body, last, call), IdsOf(group), call.callId, replacement, body', at)
    ensures CanOutline(m, body', ids)
  {
    SeparableKept(m, body, last, group, call, replacement, ids, body', at);
    UsedAfterKept(m, body, last, group, call, replacement, ids, body', at);
    WholeKept(body, last, call, replacement, IdsOf(group), ids, body', at);
  }

  // ---------- names stay single ----------

  /** Names are distinct and outside `defined`. */
  lemma {:induction false} DistinctIsSingle(items: seq<Item>, defined: set<nat>)
    requires forall i :: 0 <= i < |items| ==> IdOf(items[i]) !in defined
    requires forall i, j :: 0 <= i < j < |items| ==> IdOf(items[i]) != IdOf(items[j])
    ensures Single(items, defined)
    decreases |items|
  {
    if items != [] {
      assert forall i :: 0 <= i < |items[1..]| ==> items[1..][i] == items[i + 1];
      DistinctIsSingle(items[1..], defined + {IdOf(items[0])});
    }
  }

  lemma SingleKept(body: seq<Item>, last: nat, call: Item, replacement: map<Value, nat>, gone: set<nat>, defined: set<nat>, body': seq<Item>, at: seq<nat>)
    requires last < |body| && Single(body, defined) && FreshCall(body, IdOf(call)) && IdOf(call) !in defined
    requires From(Extended(body, last, call), gone, IdOf(call), replacement, body', at)
    ensures Single(body', defined)
  {
    var ext := Extended(body, last, call);
    SingleDistinct(body, defined);
    forall k | 0 <= k < |body'| ensures IdOf(body'[k]) == IdOf(ext[at[k]]) && IdOf(body'[k]) !in defined {
      RenamedIsSame(ext[at[k]], IdOf(call), replacement);
      assert at[k] != last + 1 ==> ext[at[k]] == body[Place(at[k], last)];
    }
    forall k, l | 0 <= k < l < |body'| ensures IdOf(body'[k]) != IdOf(body'[l]) {
      var x, y := at[k], at[l];
      assert x != last + 1 ==> ext[x] == body[Place(x, last)];
      assert y != last + 1 ==> ext[y] == body[Place(y, last)];
    }
    DistinctIsSingle(body', defined);
  }

  lemma CallIsFresh<D(!new), W(!new)>(m: Interpretation<D, W>, body: seq<Item>, last: nat, group: seq<Op>, call: Item, other: nat)
    requires Round(m, body, last, group, call) && FreshCall(body, other) && other != call.callId
    ensures IdOf(call) != other && forall v :: v in OperandsOf(call) && v.Result? ==> v.op != other
  {
    forall v | v in OperandsOf(call) && v.Result? ensures v.op != other {
      assert v in call.actuals;
      var g :| 0 <= g < |group| && v in group[g].operands;
      var p := GroupMember(body, last, group, g);
    }
  }

  lemma RenamedFresh(x: Item, callId: nat, replacement: map<Value, nat>, other: nat)
    requires IdOf(x) != other && callId != other && forall v :: v in OperandsOf(x) && v.Result? ==> v.op != other
    ensures IdOf(RenameItem(x, callId, replacement)) != other
    ensures forall v :: v in OperandsOf(RenameItem(x, callId, replacement)) && v.Result? ==> v.op != other
  {
    var x' := RenameItem(x, callId, replacement);
    forall v | v in OperandsOf(x') && v.Result? ensures v.op != other {
      var k :| 0 <= k < |OperandsOf(x')| && OperandsOf(x')[k] == v;
      assert v == Renamed(OperandsOf(x)[k], callId, replacement) && OperandsOf(x)[k] in OperandsOf(x);
    }
  }

  /** Another new name stays new. */
  lemma FreshKept<D(!new), W(!new)>(m: Interpretation<D, W>, body: seq<Item>, last: nat, group: seq<Op>, call: Item, replacement: map<Value, nat>,
                                    other: nat, body': seq<Item>, at: seq<nat>)
    requires Round(m, body, last, group, call) && FreshCall(body, other) && other != call.callId
    requires From(Extended(body, last, call), IdsOf(group), call.callId, replacement, body', at)
    ensures FreshCall(body', other)
  {
    var ext := Extended(body, last, call);
    forall k | 0 <= k < |body'| ensures IdOf(body'[k]) != other && forall v :: v in OperandsOf(body'[k]) && v.Result? ==> v.op != other {
      if at[k] == last + 1 {
        CallIsFresh(m, body, last, group, call, other);
      } else {
        assert ext[at[k]] == body[Place(at[k], last)];
      }
      RenamedFresh(ext[at[k]], call.callId, replacement, other);
    }
  }

  // ---------- finding the group ----------

  lemma GroupIds(body: seq<Item>, last: nat, group: seq<Op>, ids: set<nat>)
    requires Whole(body, ids) && last < |body| && Plains(group) == Members(body[..last + 1], ids)
    requires forall j :: last < j < |body| ==> !InGroup(body[j], ids)
    ensures IdsOf(group) == ids
  {
    MembersAre(body[..last + 1], ids);
    forall id | id in ids ensures id in IdsOf(group) {
      assert Has(body, id);
      var j :| 0 <= j < |body| && body[j].Plain? && body[j].op.id == id;
      assert body[..last + 1][j] in Members(body[..last + 1], ids);
      var k :| 0 <= k < |Plains(group)| && Plains(group)[k] == body[j];
      assert group[k].id == id;
    }
    forall k | 0 <= k < |group| ensures group[k].id in ids {
      assert Plains(group)[k] in Members(body[..last + 1], ids);
    }
  }

  /** The operations of the group as they are in the body by now, and the place of the last one. */
  method GroupAt(body: seq<Item>, ids: set<nat>, ghost defined: set<nat>) returns (last: nat, group: seq<Op>)
    requires Whole(body, ids) && Single(body, defined)
    ensures IsGroup(body, last, group) && IdsOf(group) == ids
  {
    ghost var id :| id in ids;
    assert Has(body, id);
    last := |body|;
    while last > 0 && !InGroup(body[last - 1], ids)
      invariant 0 <= last <= |body| && forall j :: last <= j < |body| ==> !InGroup(body[j], ids)
    {
      last := last - 1;
    }
    last := last - 1;
    var members := Members(body[..last + 1], ids);
    MembersAre(body[..last + 1], ids);
    assert forall i :: 0 <= i < |members| ==> members[i] in members;
    group := OpsOf(members);
    assert Plains(group) == members;
    GroupIds(body, last, group, ids);
  }

  // ---------- a body that runs is ordered ----------

  lemma {:induction false} RunKeeps<D, W>(m: Interpretation<D, W>, items: seq<Item>, s: State<D, W>, id: nat)
    requires Run(m, items, s).Some? && Single(items, s.env.Keys) && id in s.env
    ensures id in Run(m, items, s).value.env && Run(m, items, s).value.env[id] == s.env[id]
  {
    if items != [] {
      var s1 := Exec(m, items[0], s).value;
      assert s1.env.Keys == s.env.Keys + {IdOf(items[0])};
      RunKeeps(m, items[1..], s1, id);
    }
  }

  /** What is defined after a run was defined before it or by an operation of it, with as many results as that one has. */
  lemma {:induction false} RunDefines<D, W>(m: Interpretation<D, W>, items: seq<Item>, s: State<D, W>, id: nat)
    requires Run(m, items, s).Some? && Single(items, s.env.Keys) && id in Run(m, items, s).value.env && id !in s.env
    ensures exists q :: 0 <= q < |items| && IdOf(items[q]) == id && (items[q].Plain? ==> |Run(m, items, s).value.env[id]| == items[q].op.width)
  {
    if items != [] {
      var s1 := Exec(m, items[0], s).value;
      assert s1.env.Keys == s.env.Keys + {IdOf(items[0])};
      if id == IdOf(items[0]) {
        RunKeeps(m, items[1..], s1, id);
        assert IdOf(items[0]) == id;
      } else {
        RunDefines(m, items[1..], s1, id);
        var q :| 0 <= q < |items[1..]| && IdOf(items[1..][q]) == id && (items[1..][q].Plain? ==> |Run(m, items, s).value.env[id]| == items[1..][q].op.width);
        assert items[q + 1] == items[1..][q];
      }
    }
  }

  lemma DefinedInFront<D, W>(m: Interpretation<D, W>, pre: seq<Item>, post: seq<Item>, s: State<D, W>, v: Value) returns (q: nat)
    requires Run(m, pre + post, s).Some? && Single(pre + post, s.env.Keys) && post != []
    requires v in OperandsOf(post[0]) && v.Result? && v.op !in s.env
    ensures q < |pre| && IdOf(pre[q]) == v.op && (pre[q].Plain? ==> v.index < pre[q].op.width)
  {
    RunJoin(m, pre, post, s);
    SinglePrefix(pre, post, s.env.Keys);
    var t := Run(m, pre, s).value;
    var k :| 0 <= k < |OperandsOf(post[0])| && OperandsOf(post[0])[k] == v;
    assert Defined(OperandsOf(post[0])[k], t);
    RunDefines(m, pre, s, v.op);
    q :| 0 <= q < |pre| && IdOf(pre[q]) == v.op && (pre[q].Plain? ==> |t.env[v.op]| == pre[q].op.width);
  }

  /** The operands of an item of a body that runs are results of earlier items, or defined before. */
  lemma OperandsAreEarlier<D, W>(m: Interpretation<D, W>, body: seq<Item>, s: State<D, W>, p: nat, v: Value)
    requires Run(m, body, s).Some? && Single(body, s.env.Keys) && p < |body|
    requires v in OperandsOf(body[p]) && v.Result? && v.op !in s.env
    ensures exists q :: 0 <= q < p && IdOf(body[q]) == v.op && (body[q].Plain? ==> v.index < body[q].op.width)
  {
    assert body == body[..p] + body[p..];
    var q := DefinedInFront(m, body[..p], body[p..], s, v);
  }

  /** The value is a result of an earlier operation of the group. */
  ghost predicate EarlierResult(group: seq<Op>, i: nat, v: Value) {
    v.Result? && exists j :: 0 <= j < i && j < |group| && group[j].id == v.op && v.index < group[j].width
  }

  lemma PlacedBefore(body: seq<Item>, group: seq<Op>, at: seq<nat>, i: nat, j: nat, q: nat)
    requires Places(body, Plains(group), at) && i < |group| && j < |group| && q < at[i] && IdOf(body[q]) == group[j].id
    requires forall x, y :: 0 <= x < y < |body| ==> IdOf(body[x]) != IdOf(body[y])
    ensures j < i && body[q] == Plain(group[j])
  {
    assert body[at[j]] == Plain(group[j]);
    assert q == at[j];
  }

  lemma OperandIsOrdered<D, W>(m: Interpretation<D, W>, body: seq<Item>, group: seq<Op>, at: seq<nat>, s: State<D, W>, i: nat, v: Value)
    requires Run(m, body, s).Some? && Single(body, s.env.Keys) && Places(body, Plains(group), at)
    requires i < |group| && v in group[i].operands && !External(v, IdsOf(group))
    ensures EarlierResult(group, i, v)
  {
    SingleDistinct(body, s.env.Keys);
    var j :| 0 <= j < |group| && group[j].id == v.op;
    assert body[at[i]] == Plain(group[i]) && body[at[j]] == Plain(group[j]);
    OperandsAreEarlier(m, body, s, at[i], v);
    var q :| 0 <= q < at[i] && IdOf(body[q]) == v.op && (body[q].Plain? ==> v.index < body[q].op.width);
    PlacedBefore(body, group, at, i, j, q);
  }

  lemma PlacedOnce(body: seq<Item>, group: seq<Op>, at: seq<nat>, defined: set<nat>)
    requires Single(body, defined) && Places(body, Plains(group), at)
    ensures DistinctIds(group)
  {
    SingleDistinct(body, defined);
    forall i, j | 0 <= i < j < |group| ensures group[i].id != group[j].id {
      assert body[at[i]] == Plain(group[i]) && body[at[j]] == Plain(group[j]);
    }
  }

  lemma PlacesWider(pre: seq<Item>, body: seq<Item>, some: seq<Item>, at: seq<nat>)
    requires pre <= body && Places(pre, some, at)
    ensures Places(body, some, at)
  {
  }

  ghost predicate AllEarlier(group: seq<Op>) {
    forall i, v :: 0 <= i < |group| && v in group[i].operands && !External(v, IdsOf(group)) ==> EarlierResult(group, i, v)
  }

  lemma EarlierIsOrdered(group: seq<Op>)
    requires DistinctIds(group) && AllEarlier(group)
    ensures Ordered(group)
  {
    forall i, v | 0 <= i < |group| && v in group[i].operands && !External(v, IdsOf(group))
      ensures exists j :: 0 <= j < i && group[j].id == v.op && v.index < group[j].width
    {
      assert EarlierResult(group, i, v);
    }
  }

  lemma PlacedIsOrdered<D, W>(m: Interpretation<D, W>, body: seq<Item>, group: seq<Op>, at: seq<nat>, s: State<D, W>)
    requires Run(m, body, s).Some? && Single(body, s.env.Keys) && Places(body, Plains(group), at)
    ensures Ordered(group)
  {
    PlacedOnce(body, group, at, s.env.Keys);
    forall i, v | 0 <= i < |group| && v in group[i].operands && !External(v, IdsOf(group)) ensures EarlierResult(group, i, v) {
      OperandIsOrdered(m, body, group, at, s, i, v);
    }
    EarlierIsOrdered(group);
  }

  lemma RunIsOrdered<D, W>(m: Interpretation<D, W>, body: seq<Item>, last: nat, group: seq<Op>, s: State<D, W>)
    requires IsGroup(body, last, group) && Run(m, body, s).Some? && Single(body, s.env.Keys)
    ensures Ordered(group)
  {
    var pre := body[..last + 1];
    var at := MembersAt(pre, IdsOf(group));
    PlacesWider(pre, body, Plains(group), at);
    PlacedIsOrdered(m, body, group, at, s);
  }

  // ---------- one round ----------

  lemma NoMemberIsCall(body: seq<Item>, ids: set<nat>, callId: nat)
    requires Whole(body, ids) && FreshCall(body, callId)
    ensures callId !in ids
  {
    forall id | id in ids ensures id != callId {
      assert Has(body, id);
    }
  }

  lemma GroupIsOutlinable<D(!new), W(!new)>(m: Interpretation<D, W>, body: seq<Item>, last: nat, group: seq<Op>)
    requires IsGroup(body, last, group) && CanOutline(m, body, IdsOf(group))
    ensures NoneUses(body[..last + 1], IdsOf(group)) && GroupCommutes(m, body[..last + 1], IdsOf(group))
  {
    var ids, pre := IdsOf(group), body[..last + 1];
    forall j | 0 <= j < |pre| && !InGroup(pre[j], ids) ensures !Uses(pre[j], ids) {
      assert j < last;
    }
    forall i, j | 0 <= i < j < |pre| && InGroup(pre[i], ids) && !InGroup(pre[j], ids) ensures Commutes(m, pre[i], pre[j]) {
      assert j < last && Exchange(m, body[i], body[j]);
    }
  }

  /** The body after the round, the call of the new function, and the values it stands for. */
  method OutlineRound<D(!new), W(!new)>(body: seq<Item>, ids: set<nat>, callId: nat, ghost m: Interpretation<D, W>, ghost s: State<D, W>)
    returns (body': seq<Item>, ghost last: nat, ghost group: seq<Op>, ghost call: Item, ghost replacement: map<Value, nat>, ghost at: seq<nat>)
    requires Run(m, body, s).Some? && Single(body, s.env.Keys) && CanOutline(m, body, ids) && FreshCall(body, callId)
    ensures IdsOf(group) == ids && Round(m, body, last, group, call) && call.callId == callId
    ensures From(Extended(body, last, call), ids, callId, replacement, body', at)
    ensures Run(m, body', s).Some?
    ensures Beside(group, ReturnedOf(body, ids, group), callId, Run(m, body, s).value, Run(m, body', s).value)
    ensures forall v :: v in ReturnedOf(body, ids, group) ==> v.Result? && v.op in ids
  {
    var place, members := GroupAt(body, ids, s.env.Keys);
    last, group := place, members;
    RunIsOrdered(m, body, last, group, s);
    var f, args, renaming;
    body', f, args, renaming := FunctionizeGroup(body, place, members, callId);
    call, replacement := Call(callId, f, args), renaming;
    ReturnedOnce(body, ids, group);
    GroupIsOutlinable(m, body, last, group);
    OutlinedKeepsMeaning(m, body, last, group, f, args, replacement, callId, s);
    at := OutlinedFrom(body, last, ids, call, replacement);
  }

  // ---------- all groups ----------

  /** Groups share no operation, and calls no name. */
  ghost predicate Apart(groups: seq<set<nat>>, calls: seq<nat>) {
    && |calls| == |groups|
    && (forall r, q :: 0 <= r < q < |groups| ==> groups[r] !! groups[q])
    && (forall r, q :: 0 <= r < q < |calls| ==> calls[r] != calls[q])
    && (forall r, q :: 0 <= r < |calls| && 0 <= q < |groups| ==> calls[r] !in groups[q])
  }

  /** The body runs, and the groups from the `k`-th on can be outlined under new names. */
  ghost predicate Pending<D(!new), W(!new)>(m: Interpretation<D, W>, body: seq<Item>, groups: seq<set<nat>>, calls: seq<nat>, k: nat, s: State<D, W>)
    requires |calls| == |groups|
  {
    && Run(m, body, s).Some? && Single(body, s.env.Keys)
    && forall r :: k <= r < |groups| ==> CanOutline(m, body, groups[r]) && FreshCall(body, calls[r])
  }

  ghost predicate Touched(groups: seq<set<nat>>, calls: seq<nat>, k: nat, id: nat)
    requires k <= |groups| == |calls|
  {
    exists r :: 0 <= r < k && (id in groups[r] || id == calls[r])
  }

  ghost predicate HoldsAll<D, W>(t: State<D, W>, values: seq<D>, ids: set<nat>, results: seq<Value>) {
    |results| == |values| && forall i :: 0 <= i < |results| ==>
      results[i].Result? && results[i].op in ids && Defined(results[i], t) && values[i] == Fetch(results[i], t)
  }

  /** The call has the values of results of the group. */
  ghost predicate CallHolds<D, W>(t: State<D, W>, t': State<D, W>, ids: set<nat>, callId: nat) {
    callId in t'.env && exists results: seq<Value> :: HoldsAll(t, t'.env[callId], ids, results)
  }

  /** The same world, the same results of all operations outside the first `k` groups, and calls that hold results of
      their groups. */
  ghost predicate Matches<D, W>(t: State<D, W>, t': State<D, W>, groups: seq<set<nat>>, calls: seq<nat>, k: nat)
    requires k <= |groups| == |calls|
  {
    && t'.args == t.args && t'.world == t.world
    && (forall id: nat :: !Touched(groups, calls, k, id) ==> (id in t'.env <==> id in t.env) && (id in t.env ==> t'.env[id] == t.env[id]))
    && (forall r :: 0 <= r < k ==> CallHolds(t, t', groups[r], calls[r]))
  }

  ghost predicate HasCall(body: seq<Item>, callId: nat) {
    exists j :: 0 <= j < |body| && body[j].Call? && body[j].callId == callId
  }

  /** None of the first `k` groups is left, and their calls are there. */
  ghost predicate Replaced(body: seq<Item>, groups: seq<set<nat>>, calls: seq<nat>, k: nat)
    requires k <= |groups| == |calls|
  {
    forall r :: 0 <= r < k ==> (forall j :: 0 <= j < |body| ==> !InGroup(body[j], groups[r])) && HasCall(body, calls[r])
  }

  lemma PendingKept<D(!new), W(!new)>(m: Interpretation<D, W>, body: seq<Item>, groups: seq<set<nat>>, calls: seq<nat>, k: nat, s: State<D, W>,
                                      last: nat, group: seq<Op>, call: Item, replacement: map<Value, nat>, body': seq<Item>, at: seq<nat>)
    requires Apart(groups, calls) && k < |groups| && Pending(m, body, groups, calls, k, s) && calls[k] !in s.env
    requires IdsOf(group) == groups[k] && Round(m, body, last, group, call) && call.callId == calls[k]
    requires From(Extended(body, last, call), groups[k], calls[k], replacement, body', at) && Run(m, body', s).Some?
    ensures Pending(m, body', groups, calls, k + 1, s)
  {
    SingleKept(body, last, call, replacement, groups[k], s.env.Keys, body', at);
    forall r | k + 1 <= r < |groups| ensures CanOutline(m, body', groups[r]) && FreshCall(body', calls[r]) {
      CanStillOutline(m, body, last, group, call, replacement, groups[r], body', at);
      FreshKept(m, body, last, group, call, replacement, calls[r], body', at);
    }
  }

  lemma CallPlaced(body: seq<Item>, last: nat, call: Item, replacement: map<Value, nat>, gone: set<nat>, body': seq<Item>, at: seq<nat>, callId: nat)
    requires last < |body| && call.Call? && From(Extended(body, last, call), gone, call.callId, replacement, body', at)
    requires callId == call.callId || HasCall(body, callId)
    ensures HasCall(body', callId)
  {
    var ext := Extended(body, last, call);
    var e: nat;
    if callId == call.callId {
      e := last + 1;
    } else {
      var j :| 0 <= j < |body| && body[j].Call? && body[j].callId == callId;
      e := if j <= last then j else j + 1;
    }
    assert ext[e].Call? && ext[e].callId == callId && !InGroup(ext[e], gone);
    var k :| 0 <= k < |at| && at[k] == e;
    assert body'[k].Call? && body'[k].callId == callId;
  }

  lemma ReplacedOneMore(body: seq<Item>, last: nat, call: Item, replacement: map<Value, nat>, body': seq<Item>, at: seq<nat>,
                        groups: seq<set<nat>>, calls: seq<nat>, k: nat)
    requires k < |groups| == |calls| && Replaced(body, groups, calls, k) && last < |body| && call.Call? && call.callId == calls[k]
    requires From(Extended(body, last, call), groups[k], calls[k], replacement, body', at)
    ensures Replaced(body', groups, calls, k + 1)
  {
    var ext := Extended(body, last, call);
    forall r | 0 <= r < k + 1 ensures (forall j :: 0 <= j < |body'| ==> !InGroup(body'[j], groups[r])) && HasCall(body', calls[r]) {
      CallPlaced(body, last, call, replacement, groups[k], body', at, calls[r]);
      forall j | 0 <= j < |body'| ensures !InGroup(body'[j], groups[r]) {
        RenamedIsSame(ext[at[j]], calls[k], replacement);
        assert at[j] != last + 1 ==> ext[at[j]] == body[Place(at[j], last)];
      }
    }
  }

  lemma UntouchedMembers(groups: seq<set<nat>>, calls: seq<nat>, k: nat, id: nat)
    requires Apart(groups, calls) && k < |groups| && id in groups[k]
    ensures !Touched(groups, calls, k, id)
  {
    forall r | 0 <= r < k ensures id !in groups[r] && id != calls[r] {
      assert groups[r] !! groups[k];
    }
  }

  lemma TouchedOn(groups: seq<set<nat>>, calls: seq<nat>, k: nat, id: nat)
    requires k < |groups| == |calls|
    ensures Touched(groups, calls, k + 1, id) <==> Touched(groups, calls, k, id) || id in groups[k] || id == calls[k]
  {
    if Touched(groups, calls, k, id) {
      var r :| 0 <= r < k && (id in groups[r] || id == calls[r]);
      assert r < k + 1;
    }
    if id in groups[k] || id == calls[k] {
      assert k < k + 1;
    }
  }

  /** The new call holds the results of its group, as they are in the first body. */
  lemma NewCallHolds<D, W>(t: State<D, W>, u: State<D, W>, u': State<D, W>, groups: seq<set<nat>>, calls: seq<nat>, k: nat, group: seq<Op>, results: seq<Value>)
    requires Apart(groups, calls) && k < |groups| && Matches(t, u, groups, calls, k) && IdsOf(group) == groups[k]
    requires Beside(group, results, calls[k], u, u') && forall v :: v in results ==> v.Result? && v.op in groups[k]
    ensures CallHolds(t, u', groups[k], calls[k])
  {
    forall i | 0 <= i < |results|
      ensures results[i].Result? && results[i].op in groups[k] && Defined(results[i], t) && u'.env[calls[k]][i] == Fetch(results[i], t)
    {
      assert results[i] in results;
      UntouchedMembers(groups, calls, k, results[i].op);
    }
    assert HoldsAll(t, u'.env[calls[k]], groups[k], results);
  }

  /** An earlier call still holds what it held. */
  lemma OldCallHolds<D, W>(t: State<D, W>, u: State<D, W>, u': State<D, W>, groups: seq<set<nat>>, calls: seq<nat>, k: nat, group: seq<Op>,
                           results: seq<Value>, r: nat)
    requires Apart(groups, calls) && r < k < |groups| && CallHolds(t, u, groups[r], calls[r]) && IdsOf(group) == groups[k]
    requires Beside(group, results, calls[k], u, u')
    ensures CallHolds(t, u', groups[r], calls[r])
  {
    assert u'.env[calls[r]] == u.env[calls[r]];
  }

  lemma UntouchedSame<D, W>(t: State<D, W>, u: State<D, W>, u': State<D, W>, groups: seq<set<nat>>, calls: seq<nat>, k: nat, group: seq<Op>,
                            results: seq<Value>, id: nat)
    requires k < |groups| == |calls| && Matches(t, u, groups, calls, k) && IdsOf(group) == groups[k]
    requires Beside(group, results, calls[k], u, u') && !Touched(groups, calls, k + 1, id)
    ensures (id in u'.env <==> id in t.env) && (id in t.env ==> u'.env[id] == t.env[id])
  {
    TouchedOn(groups, calls, k, id);
  }

  /** What holds of the first `k` rounds is kept, with what the next one adds. */
  lemma JoinMatches<D, W>(t: State<D, W>, u': State<D, W>, groups: seq<set<nat>>, calls: seq<nat>, k: nat)
    requires k < |groups| == |calls| && u'.args == t.args && u'.world == t.world
    requires forall id: nat :: !Touched(groups, calls, k + 1, id) ==> (id in u'.env <==> id in t.env) && (id in t.env ==> u'.env[id] == t.env[id])
    requires (forall r :: 0 <= r < k ==> CallHolds(t, u', groups[r], calls[r])) && CallHolds(t, u', groups[k], calls[k])
    ensures Matches(t, u', groups, calls, k + 1)
  {
  }

  lemma MatchesOneMore<D, W>(t: State<D, W>, u: State<D, W>, u': State<D, W>, groups: seq<set<nat>>, calls: seq<nat>, k: nat, group: seq<Op>, results: seq<Value>)
    requires Apart(groups, calls) && k < |groups| && Matches(t, u, groups, calls, k) && IdsOf(group) == groups[k]
    requires Beside(group, results, calls[k], u, u') && forall v :: v in results ==> v.Result? && v.op in groups[k]
    ensures Matches(t, u', groups, calls, k + 1)
  {
    NewCallHolds(t, u, u', groups, calls, k, group, results);
    forall id: nat | !Touched(groups, calls, k + 1, id) ensures (id in u'.env <==> id in t.env) && (id in t.env ==> u'.env[id] == t.env[id]) {
      UntouchedSame(t, u, u', groups, calls, k, group, results, id);
    }
    forall r | 0 <= r < k ensures CallHolds(t, u', groups[r], calls[r]) {
      OldCallHolds(t, u, u', groups, calls, k, group, results, r);
    }
    JoinMatches(t, u', groups, calls, k);
  }

  lemma CallsAreNoMembers<D(!new), W(!new)>(m: Interpretation<D, W>, body: seq<Item>, groups: seq<set<nat>>, calls: seq<nat>, s: State<D, W>)
    requires |calls| == |groups| && Pending(m, body, groups, calls, 0, s)
    ensures forall r, q :: 0 <= r < |calls| && 0 <= q < |groups| ==> calls[r] !in groups[q]
  {
    forall r, q | 0 <= r < |calls| && 0 <= q < |groups| ensures calls[r] !in groups[q] {
      NoMemberIsCall(body, groups[q], calls[r]);
    }
  }

  /** Outlines the groups one after the other. If in the given body the results of every group are used only after its
      last operation and its operations can be exchanged with those that stay between them, then the last body has the
      calls in place of all groups and means what the given one does. */
  method FunctionizeModule<D(!new), W(!new)>(body: seq<Item>, groups: seq<set<nat>>, calls: seq<nat>, ghost m: Interpretation<D, W>, ghost s: State<D, W>)
    returns (result: seq<Item>)
    requires |calls| == |groups| && Pending(m, body, groups, calls, 0, s)
    requires forall r, q :: 0 <= r < q < |groups| ==> groups[r] !! groups[q]
    requires forall r, q :: 0 <= r < q < |calls| ==> calls[r] != calls[q]
    requires forall r :: 0 <= r < |calls| ==> calls[r] !in s.env
    ensures Replaced(result, groups, calls, |groups|)
    ensures Run(m, result, s).Some? && Matches(Run(m, body, s).value, Run(m, result, s).value, groups, calls, |groups|)
  {
    CallsAreNoMembers(m, body, groups, calls, s);
    result := body;
    for k := 0 to |groups|
      invariant Apart(groups, calls) && Pending(m, result, groups, calls, k, s) && Replaced(result, groups, calls, k)
      invariant Matches(Run(m, body, s).value, Run(m, result, s).value, groups, calls, k)
    {
      ghost var before := result;
      ghost var last, group, call, replacement, at;
      result, last, group, call, replacement, at := OutlineRound(result, groups[k], calls[k], m, s);
      PendingKept(m, before, groups, calls, k, s, last, group, call, replacement, result, at);
      ReplacedOneMore(before, last, call, replacement, result, at, groups, calls, k);
      MatchesOneMore(Run(m, body, s).value, Run(m, before, s).value, Run(m, result, s).value, groups, calls, k, group,
                     ReturnedOf(before, groups[k], group));
    }
  }
}
