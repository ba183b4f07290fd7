/** The body that calls the new function means what the original body means. */
module FunctionizeMeaning {
  import opened Wrappers
  import opened Outlining
  import opened Functionize

  function Plains(group: seq<Op>): (items: seq<Item>)
    ensures |items| == |group| && forall i :: 0 <= i < |group| ==> items[i] == Plain(group[i])
  {
    seq(|group|, i requires 0 <= i < |group| => Plain(group[i]))
  }

  /** `t` differs from `s` at most in the results of the group. */
  ghost predicate AgreeOutside<D, W>(s: State<D, W>, t: State<D, W>, ids: set<nat>) {
    t.args == s.args && forall k :: k !in ids ==> (k in t.env <==> k in s.env) && (k in s.env ==> t.env[k] == s.env[k])
  }

  lemma ExternalAgrees<D, W>(s: State<D, W>, t: State<D, W>, ids: set<nat>, v: Value)
    requires AgreeOutside(s, t, ids) && External(v, ids)
    ensures Defined(v, s) <==> Defined(v, t)
    ensures Defined(v, s) ==> Fetch(v, s) == Fetch(v, t)
  {
  }

  /** The clone of the group's first `i` operations has their results. */
  ghost predicate Mirrors<D, W>(group: seq<Op>, i: nat, t: State<D, W>, u: State<D, W>)
    requires i <= |group|
  {
    t.world == u.world && forall j :: 0 <= j < i ==> group[j].id in t.env && j in u.env && u.env[j] == t.env[group[j].id] && |u.env[j]| == group[j].width
  }

  /** A value of the group and the clone that stands for it have the same datum. */
  lemma StandsForSame<D, W>(group: seq<Op>, args: seq<Value>, i: nat, s: State<D, W>, t: State<D, W>, u: State<D, W>, v: Value, clone: Value)
    requires i <= |group| && AgreeOutside(s, t, IdsOf(group)) && Mirrors(group, i, t, u)
    requires AllDefined(args, s) && u.args == FetchAll(args, s)
    requires Stands(v, clone, args, group) && Defined(v, t) && (External(v, IdsOf(group)) || clone.op < i)
    ensures Defined(clone, u) && Fetch(clone, u) == Fetch(v, t)
  {
    if External(v, IdsOf(group)) {
      ExternalAgrees(s, t, IdsOf(group), v);
    }
  }

  /** One operation and its clone. */
  lemma CloneMirrors<D, W>(m: Interpretation<D, W>, group: seq<Op>, args: seq<Value>, clone: Op, i: nat, s: State<D, W>, t: State<D, W>, u: State<D, W>)
    requires i < |group| && Ordered(group) && IsClone(group[i], i, clone, args, group)
    requires AgreeOutside(s, t, IdsOf(group)) && Mirrors(group, i, t, u)
    requires AllDefined(args, s) && u.args == FetchAll(args, s)
    requires ExecOp(m, group[i], t).Some?
    ensures ExecOp(m, clone, u).Some? && ExecOp(m, clone, u).value.args == u.args
    ensures AgreeOutside(s, ExecOp(m, group[i], t).value, IdsOf(group))
    ensures Mirrors(group, i + 1, ExecOp(m, group[i], t).value, ExecOp(m, clone, u).value)
  {
    var op := group[i];
    forall k | 0 <= k < |op.operands| ensures Defined(clone.operands[k], u) && Fetch(clone.operands[k], u) == Fetch(op.operands[k], t) {
      var v := op.operands[k];
      assert Stands(v, clone.operands[k], args, group);
      if !External(v, IdsOf(group)) {
        assert v in op.operands;
        var j :| 0 <= j < i && group[j].id == v.op;
      }
      StandsForSame(group, args, i, s, t, u, v, clone.operands[k]);
    }
    assert FetchAll(clone.operands, u) == FetchAll(op.operands, t);
    assert op.id in IdsOf(group);
  }

  lemma {:induction false} ClonesMirror<D, W>(m: Interpretation<D, W>, group: seq<Op>, args: seq<Value>, clones: seq<Op>, i: nat, s: State<D, W>, t: State<D, W>, u: State<D, W>)
    requires i <= |group| && Ordered(group) && |clones| == |group|
    requires forall j :: 0 <= j < |group| ==> IsClone(group[j], j, clones[j], args, group)
    requires AgreeOutside(s, t, IdsOf(group)) && Mirrors(group, i, t, u)
    requires AllDefined(args, s) && u.args == FetchAll(args, s)
    requires RunOps(m, group[i..], t).Some?
    ensures RunOps(m, clones[i..], u).Some? && RunOps(m, clones[i..], u).value.args == u.args
    ensures AgreeOutside(s, RunOps(m, group[i..], t).value, IdsOf(group))
    ensures Mirrors(group, |group|, RunOps(m, group[i..], t).value, RunOps(m, clones[i..], u).value)
    decreases |group| - i
  {
    if i < |group| {
      assert group[i..][1..] == group[i + 1..] && clones[i..][1..] == clones[i + 1..];
      CloneMirrors(m, group, args, clones[i], i, s, t, u);
      ClonesMirror(m, group, args, clones, i + 1, s, ExecOp(m, group[i], t).value, ExecOp(m, clones[i], u).value);
    }
  }

  /** The external operands of a group that runs are defined before it. */
  lemma {:induction false} ArgumentsDefined<D, W>(m: Interpretation<D, W>, group: seq<Op>, i: nat, s: State<D, W>, t: State<D, W>)
    requires i <= |group| && AgreeOutside(s, t, IdsOf(group)) && RunOps(m, group[i..], t).Some?
    ensures forall j, v :: i <= j < |group| && v in group[j].operands && External(v, IdsOf(group)) ==> Defined(v, s)
    decreases |group| - i
  {
    if i < |group| {
      assert group[i..][1..] == group[i + 1..] && group[i..][0] == group[i];
      assert group[i].id in IdsOf(group);
      ArgumentsDefined(m, group, i + 1, s, ExecOp(m, group[i], t).value);
      forall v | v in group[i].operands && External(v, IdsOf(group)) ensures Defined(v, s) {
        ExternalAgrees(s, t, IdsOf(group), v);
      }
    }
  }

  lemma {:induction false} PlainsRun<D, W>(m: Interpretation<D, W>, group: seq<Op>, s: State<D, W>)
    ensures Run(m, Plains(group), s) == RunOps(m, group, s)
  {
    if group != [] {
      assert Plains(group)[1..] == Plains(group[1..]);
      assert Exec(m, Plains(group)[0], s) == ExecOp(m, group[0], s);
      if ExecOp(m, group[0], s).Some? {
        PlainsRun(m, group[1..], ExecOp(m, group[0], s).value);
      }
    }
  }

  lemma ReturnsStand<D, W>(group: seq<Op>, args: seq<Value>, results: seq<Value>, returned: seq<Value>, s: State<D, W>, t: State<D, W>, u: State<D, W>)
    requires AgreeOutside(s, t, IdsOf(group)) && Mirrors(group, |group|, t, u)
    requires AllDefined(args, s) && u.args == FetchAll(args, s) && StandAll(results, returned, args, group)
    requires forall v :: v in results ==> ResultOf(v, group, |group|)
    ensures AllDefined(results, t) && AllDefined(returned, u) && FetchAll(returned, u) == FetchAll(results, t)
  {
    forall i | 0 <= i < |results| ensures Defined(results[i], t) && Defined(returned[i], u) && Fetch(returned[i], u) == Fetch(results[i], t) {
      var v := results[i];
      assert ResultOf(v, group, |group|) && Stands(v, returned[i], args, group);
      var j :| 0 <= j < |group| && group[j].id == v.op && v.index < group[j].width;
      assert v.op in IdsOf(group);
      StandsForSame(group, args, |group|, s, t, u, v, returned[i]);
    }
  }

  /** Every operation of the group has left as many results as it declares. */
  ghost predicate Shaped<D, W>(group: seq<Op>, t: State<D, W>) {
    forall j :: 0 <= j < |group| ==> group[j].id in t.env && |t.env[group[j].id]| == group[j].width
  }

  /** The new function, called with the collected arguments, yields at each index the result that is returned there,
      and leaves the world as the group does. */
  lemma InvokeIsGroup<D, W>(m: Interpretation<D, W>, group: seq<Op>, f: Func, args: seq<Value>, results: seq<Value>, s: State<D, W>)
    requires Ordered(group) && AreArguments(args, AllOperands(group), IdsOf(group)) && IsFunction(f, args, results, group)
    requires forall v :: v in results ==> ResultOf(v, group, |group|)
    requires RunOps(m, group, s).Some?
    ensures AllDefined(args, s) && AgreeOutside(s, RunOps(m, group, s).value, IdsOf(group))
    ensures Shaped(group, RunOps(m, group, s).value)
    ensures var t := RunOps(m, group, s).value;
            AllDefined(results, t) && Invoke(m, f, FetchAll(args, s), s.world) == Some((FetchAll(results, t), t.world))
  {
    assert group[0..] == group && f.body[0..] == f.body;
    ArgumentsDefined(m, group, 0, s, s);
    forall i | 0 <= i < |args| ensures Defined(args[i], s) {
      assert args[i] in AllOperands(group);
    }
    var u: State<D, W> := State(map[], FetchAll(args, s), s.world);
    ClonesMirror(m, group, args, f.body, 0, s, s, u);
    ReturnsStand(group, args, results, f.returned, s, RunOps(m, group, s).value, RunOps(m, f.body, u).value);
  }

  // ---------- the rest of the body ----------

  function Renamed(v: Value, callId: nat, replacement: map<Value, nat>): Value {
    if v in replacement then Result(callId, replacement[v]) else v
  }

  function RenamedAll(vs: seq<Value>, callId: nat, replacement: map<Value, nat>): (r: seq<Value>)
    ensures |r| == |vs| && forall i :: 0 <= i < |vs| ==> r[i] == Renamed(vs[i], callId, replacement)
  {
    seq(|vs|, i requires 0 <= i < |vs| => Renamed(vs[i], callId, replacement))
  }

  function RenameItem(x: Item, callId: nat, replacement: map<Value, nat>): Item {
    match x
    case Plain(op) => Plain(op.(operands := RenamedAll(op.operands, callId, replacement)))
    case Call(id, f, actuals) => Call(id, f, RenamedAll(actuals, callId, replacement))
  }

  function RenameItems(items: seq<Item>, callId: nat, replacement: map<Value, nat>): (r: seq<Item>)
    ensures |r| == |items| && forall i :: 0 <= i < |items| ==> r[i] == RenameItem(items[i], callId, replacement)
  {
    seq(|items|, i requires 0 <= i < |items| => RenameItem(items[i], callId, replacement))
  }

  /** The state of the rewritten body beside that of the original one, after the group. */
  ghost predicate Beside<D, W>(group: seq<Op>, results: seq<Value>, callId: nat, t: State<D, W>, t': State<D, W>) {
    && t'.args == t.args && t'.world == t.world && Shaped(group, t)
    && (forall k :: k !in IdsOf(group) && k != callId ==> (k in t'.env <==> k in t.env) && (k in t.env ==> t'.env[k] == t.env[k]))
    && callId in t'.env && |t'.env[callId]| == |results|
    && (forall i :: 0 <= i < |results| ==> Defined(results[i], t) && t'.env[callId][i] == Fetch(results[i], t))
  }

  /** The values that later operations take from the group are all returned, and none is named after the call yet. */
  ghost predicate TakesReturned(x: Item, group: seq<Op>, results: seq<Value>, callId: nat) {
    && IdOf(x) !in IdsOf(group) && IdOf(x) != callId
    && (forall v :: v in OperandsOf(x) && v.Result? ==> v.op != callId)
    && (forall v :: v in OperandsOf(x) && ResultOf(v, group, |group|) ==> v in results)
  }

  lemma DefinedIsResult<D, W>(group: seq<Op>, t: State<D, W>, v: Value)
    requires Shaped(group, t) && Defined(v, t)
    ensures !External(v, IdsOf(group)) ==> ResultOf(v, group, |group|)
  {
  }

  lemma RenamedSame<D, W>(group: seq<Op>, results: seq<Value>, callId: nat, replacement: map<Value, nat>, t: State<D, W>, t': State<D, W>, v: Value)
    requires Beside(group, results, callId, t, t') && Positions(replacement, results)
    requires (forall r :: r in results ==> ResultOf(r, group, |group|)) && Defined(v, t) && (v.Result? ==> v.op != callId)
    requires ResultOf(v, group, |group|) ==> v in results
    ensures Defined(Renamed(v, callId, replacement), t') && Fetch(Renamed(v, callId, replacement), t') == Fetch(v, t)
  {
    DefinedIsResult(group, t, v);
  }

  lemma StillBeside<D, W>(group: seq<Op>, results: seq<Value>, callId: nat, t: State<D, W>, t': State<D, W>, id: nat, r: (seq<D>, W))
    requires Beside(group, results, callId, t, t') && id !in IdsOf(group) && id != callId
    requires forall v :: v in results ==> ResultOf(v, group, |group|)
    ensures Beside(group, results, callId, t.(env := t.env[id := r.0], world := r.1), t'.(env := t'.env[id := r.0], world := r.1))
  {
    var u := t.(env := t.env[id := r.0], world := r.1);
    forall j | 0 <= j < |group| ensures group[j].id in u.env && u.env[group[j].id] == t.env[group[j].id] {
      assert group[j].id in IdsOf(group);
    }
    forall i | 0 <= i < |results| ensures Defined(results[i], u) && Fetch(results[i], u) == Fetch(results[i], t) {
      assert ResultOf(results[i], group, |group|);
    }
  }

  lemma ItemBeside<D, W>(m: Interpretation<D, W>, group: seq<Op>, results: seq<Value>, callId: nat, replacement: map<Value, nat>,
                         x: Item, t: State<D, W>, t': State<D, W>)
    requires Beside(group, results, callId, t, t') && Positions(replacement, results)
    requires (forall r :: r in results ==> ResultOf(r, group, |group|)) && TakesReturned(x, group, results, callId)
    requires Exec(m, x, t).Some?
    ensures var x' := RenameItem(x, callId, replacement);
            Exec(m, x', t').Some? && Beside(group, results, callId, Exec(m, x, t).value, Exec(m, x', t').value)
  {
    var vs, x' := OperandsOf(x), RenameItem(x, callId, replacement);
    forall i | 0 <= i < |vs| ensures Defined(OperandsOf(x')[i], t') && Fetch(OperandsOf(x')[i], t') == Fetch(vs[i], t) {
      RenamedSame(group, results, callId, replacement, t, t', vs[i]);
    }
    assert FetchAll(OperandsOf(x'), t') == FetchAll(vs, t);
    var args := FetchAll(vs, t);
    assert Behave(m, x', args, t.world) == Behave(m, x, args, t.world);
    StillBeside(group, results, callId, t, t', IdOf(x), Behave(m, x, args, t.world).value);
  }

  lemma {:induction false} RestBeside<D, W>(m: Interpretation<D, W>, group: seq<Op>, results: seq<Value>, callId: nat, replacement: map<Value, nat>,
                                            rest: seq<Item>, t: State<D, W>, t': State<D, W>)
    requires Beside(group, results, callId, t, t') && Positions(replacement, results)
    requires forall r :: r in results ==> ResultOf(r, group, |group|)
    requires forall j :: 0 <= j < |rest| ==> TakesReturned(rest[j], group, results, callId)
    requires Run(m, rest, t).Some?
    ensures Run(m, RenameItems(rest, callId, replacement), t').Some?
    ensures Beside(group, results, callId, Run(m, rest, t).value, Run(m, RenameItems(rest, callId, replacement), t').value)
  {
    if rest != [] {
      ItemBeside(m, group, results, callId, replacement, rest[0], t, t');
      assert RenameItems(rest, callId, replacement)[1..] == RenameItems(rest[1..], callId, replacement);
      RestBeside(m, group, results, callId, replacement, rest[1..], Exec(m, rest[0], t).value,
                 Exec(m, RenameItem(rest[0], callId, replacement), t').value);
    }
  }

  // ---------- the rewritten body ----------

  function OpsOf(items: seq<Item>): (ops: seq<Op>)
    requires forall i :: 0 <= i < |items| ==> items[i].Plain?
    ensures |ops| == |items| && forall i :: 0 <= i < |items| ==> items[i] == Plain(ops[i])
  {
    seq(|items|, i requires 0 <= i < |items| => items[i].op)
  }

  lemma {:induction false} MembersAre(items: seq<Item>, ids: set<nat>)
    ensures forall x :: x in Members(items, ids) <==> x in items && InGroup(x, ids)
  {
    if items != [] {
      MembersAre(items[1..], ids);
    }
  }

  /** The group of a body: the operations with the given identities, the last of them at `last`. */
  ghost predicate IsGroup(body: seq<Item>, last: nat, group: seq<Op>) {
    && last < |body| && Plains(group) == Members(body[..last + 1], IdsOf(group)) && InGroup(body[last], IdsOf(group))
    && forall j :: last < j < |body| ==> !InGroup(body[j], IdsOf(group))
  }

  /** The call replaces the group at its last operation, and its results replace the returned values. */
  function Outlined(body: seq<Item>, last: nat, ids: set<nat>, call: Item, replacement: map<Value, nat>): seq<Item>
    requires last < |body|
  {
    Erased(RenameItems(body[..last + 1] + [call] + body[last + 1..], IdOf(call), replacement), ids)
  }

  lemma {:induction false} ErasedJoin(a: seq<Item>, b: seq<Item>, ids: set<nat>)
    ensures Erased(a + b, ids) == Erased(a, ids) + Erased(b, ids)
  {
    if a == [] {
      assert a + b == b;
    } else {
      assert (a + b)[1..] == a[1..] + b;
      ErasedJoin(a[1..], b, ids);
    }
  }

  lemma {:induction false} NothingErased(items: seq<Item>, ids: set<nat>)
    requires forall j :: 0 <= j < |items| ==> !InGroup(items[j], ids)
    ensures Erased(items, ids) == items
  {
    if items != [] {
      NothingErased(items[1..], ids);
    }
  }

  lemma RenameUnused(x: Item, callId: nat, replacement: map<Value, nat>)
    requires forall v :: v in OperandsOf(x) ==> v !in replacement
    ensures RenameItem(x, callId, replacement) == x
  {
    assert RenamedAll(OperandsOf(x), callId, replacement) == OperandsOf(x);
  }

  lemma {:induction false} RenamedThenErased(items: seq<Item>, ids: set<nat>, callId: nat, replacement: map<Value, nat>)
    requires NoneUses(items, ids) && forall v :: v in replacement ==> v.Result? && v.op in ids
    ensures Erased(RenameItems(items, callId, replacement), ids) == Erased(items, ids)
  {
    if items != [] {
      var x, rest := items[0], items[1..];
      assert RenameItems(items, callId, replacement)[1..] == RenameItems(rest, callId, replacement);
      assert forall j :: 0 <= j < |rest| ==> rest[j] == items[j + 1];
      RenamedThenErased(rest, ids, callId, replacement);
      if !InGroup(x, ids) {
        assert !Uses(items[0], ids);
        forall v | v in OperandsOf(x) ensures v !in replacement {
          var i :| 0 <= i < |OperandsOf(x)| && OperandsOf(x)[i] == v;
        }
        RenameUnused(x, callId, replacement);
      }
    }
  }

  /** What the outlined body consists of. */
  lemma OutlinedParts(body: seq<Item>, last: nat, ids: set<nat>, call: Item, replacement: map<Value, nat>)
    requires last < |body| && call.Call? && NoneUses(body[..last + 1], ids)
    requires forall v :: v in replacement ==> v.Result? && v.op in ids
    requires forall v :: v in call.actuals ==> External(v, ids)
    requires forall j :: last < j < |body| ==> !InGroup(body[j], ids)
    ensures Outlined(body, last, ids, call, replacement)
         == Erased(body[..last + 1], ids) + ([call] + RenameItems(body[last + 1..], call.callId, replacement))
  {
    var pre, post, id := body[..last + 1], body[last + 1..], call.callId;
    assert RenameItems(pre + [call] + post, id, replacement)
        == RenameItems(pre, id, replacement) + ([RenameItem(call, id, replacement)] + RenameItems(post, id, replacement));
    ErasedJoin(RenameItems(pre, id, replacement), [RenameItem(call, id, replacement)] + RenameItems(post, id, replacement), ids);
    RenamedThenErased(pre, ids, id, replacement);
    RenameUnused(call, id, replacement);
    var rest := [call] + RenameItems(post, id, replacement);
    forall j | 0 <= j < |rest| ensures !InGroup(rest[j], ids) {
      if j > 0 {
        assert rest[j] == RenameItem(post[j - 1], id, replacement) && post[j - 1] == body[last + j];
      }
    }
    NothingErased(rest, ids);
  }

  lemma {:induction false} SingleDistinct(items: seq<Item>, defined: set<nat>)
    requires Single(items, defined)
    ensures forall i :: 0 <= i < |items| ==> IdOf(items[i]) !in defined
    ensures forall i, j :: 0 <= i < j < |items| ==> IdOf(items[i]) != IdOf(items[j])
    decreases |items|
  {
    if items != [] {
      SingleDistinct(items[1..], defined + {IdOf(items[0])});
    }
  }

  /** The name of the call is new. */
  ghost predicate FreshCall(body: seq<Item>, callId: nat) {
    forall j :: 0 <= j < |body| ==> IdOf(body[j]) != callId && forall v :: v in OperandsOf(body[j]) && v.Result? ==> v.op != callId
  }

  lemma LaterTakesReturned(body: seq<Item>, last: nat, group: seq<Op>, callId: nat, defined: set<nat>, j: nat)
    requires IsGroup(body, last, group) && Ordered(group) && Single(body, defined) && FreshCall(body, callId) && last < j < |body|
    ensures TakesReturned(body[j], group, ReturnedOf(body, IdsOf(group), group), callId)
  {
    var ids, x := IdsOf(group), body[j];
    ReturnedOnce(body, ids, group);
    SingleDistinct(body, defined);
    MembersAre(body[..last + 1], ids);
    forall i | 0 <= i < |group| ensures group[i].id != IdOf(x) {
      assert Plains(group)[i] in Members(body[..last + 1], ids);
      var k :| 0 <= k <= last && body[k] == Plain(group[i]);
    }
  }

  /** After the call, the rewritten body stands beside the original one after its group. */
  lemma CallBeside<D, W>(m: Interpretation<D, W>, group: seq<Op>, f: Func, args: seq<Value>, results: seq<Value>, callId: nat, s: State<D, W>)
    requires Ordered(group) && AreArguments(args, AllOperands(group), IdsOf(group)) && IsFunction(f, args, results, group)
    requires forall v :: v in results ==> ResultOf(v, group, |group|)
    requires RunOps(m, group, s).Some?
    ensures Exec(m, Call(callId, f, args), s).Some?
    ensures Beside(group, results, callId, RunOps(m, group, s).value, Exec(m, Call(callId, f, args), s).value)
  {
    InvokeIsGroup(m, group, f, args, results, s);
  }

  /** The part up to the last group operation runs as what stays, and then the group. */
  lemma PrefixIsGathered<D(!new), W(!new)>(m: Interpretation<D, W>, pre: seq<Item>, group: seq<Op>, ids: set<nat>, s: State<D, W>) returns (s0: State<D, W>)
    requires Plains(group) == Members(pre, ids) && Single(pre, s.env.Keys) && Run(m, pre, s).Some?
    requires NoneUses(pre, ids) && GroupCommutes(m, pre, ids)
    ensures Run(m, Erased(pre, ids), s) == Some(s0) && RunOps(m, group, s0) == Run(m, pre, s)
  {
    Gather(m, pre, ids, s);
    RunJoin(m, Erased(pre, ids), Members(pre, ids), s);
    s0 := Run(m, Erased(pre, ids), s).value;
    PlainsRun(m, group, s0);
  }

  lemma {:induction false} SinglePrefix(a: seq<Item>, b: seq<Item>, defined: set<nat>)
    requires Single(a + b, defined)
    ensures Single(a, defined)
    decreases |a|
  {
    if a != [] {
      assert (a + b)[1..] == a[1..] + b;
      SinglePrefix(a[1..], b, defined + {IdOf(a[0])});
    }
  }

  /** The body runs as what stays before the call, then the group, then the rest. */
  lemma BodyIsGathered<D(!new), W(!new)>(m: Interpretation<D, W>, pre: seq<Item>, post: seq<Item>, group: seq<Op>, ids: set<nat>, s: State<D, W>)
    returns (s0: State<D, W>)
    requires Plains(group) == Members(pre, ids) && Single(pre + post, s.env.Keys) && Run(m, pre + post, s).Some?
    requires NoneUses(pre, ids) && GroupCommutes(m, pre, ids)
    ensures Run(m, Erased(pre, ids), s) == Some(s0) && RunOps(m, group, s0).Some?
    ensures Run(m, post, RunOps(m, group, s0).value) == Run(m, pre + post, s)
  {
    RunJoin(m, pre, post, s);
    SinglePrefix(pre, post, s.env.Keys);
    s0 := PrefixIsGathered(m, pre, group, ids, s);
  }

  /** From the call on, the rewritten body stands beside the original one. */
  lemma CallAndRest<D, W>(m: Interpretation<D, W>, group: seq<Op>, f: Func, args: seq<Value>, results: seq<Value>,
                          replacement: map<Value, nat>, callId: nat, post: seq<Item>, s: State<D, W>)
    requires Ordered(group) && AreArguments(args, AllOperands(group), IdsOf(group)) && IsFunction(f, args, results, group)
    requires Positions(replacement, results) && forall v :: v in results ==> ResultOf(v, group, |group|)
    requires forall j :: 0 <= j < |post| ==> TakesReturned(post[j], group, results, callId)
    requires RunOps(m, group, s).Some? && Run(m, post, RunOps(m, group, s).value).Some?
    ensures var rest := [Call(callId, f, args)] + RenameItems(post, callId, replacement);
            && Run(m, rest, s).Some?
            && Beside(group, results, callId, Run(m, post, RunOps(m, group, s).value).value, Run(m, rest, s).value)
  {
    var call := Call(callId, f, args);
    CallBeside(m, group, f, args, results, callId, s);
    RestBeside(m, group, results, callId, replacement, post, RunOps(m, group, s).value, Exec(m, call, s).value);
    RunFront(m, call, RenameItems(post, callId, replacement), s);
  }

  lemma PartsKeepMeaning<D(!new), W(!new)>(m: Interpretation<D, W>, pre: seq<Item>, post: seq<Item>, group: seq<Op>, f: Func, args: seq<Value>,
                                           results: seq<Value>, replacement: map<Value, nat>, callId: nat, s: State<D, W>)
    requires Plains(group) == Members(pre, IdsOf(group)) && Single(pre + post, s.env.Keys) && Run(m, pre + post, s).Some?
    requires NoneUses(pre, IdsOf(group)) && GroupCommutes(m, pre, IdsOf(group))
    requires Ordered(group) && AreArguments(args, AllOperands(group), IdsOf(group)) && IsFunction(f, args, results, group)
    requires Positions(replacement, results) && forall v :: v in results ==> ResultOf(v, group, |group|)
    requires forall j :: 0 <= j < |post| ==> TakesReturned(post[j], group, results, callId)
    ensures var body' := Erased(pre, IdsOf(group)) + ([Call(callId, f, args)] + RenameItems(post, callId, replacement));
            && Run(m, body', s).Some?
            && Beside(group, results, callId, Run(m, pre + post, s).value, Run(m, body', s).value)
  {
    var s0 := BodyIsGathered(m, pre, post, group, IdsOf(group), s);
    CallAndRest(m, group, f, args, results, replacement, callId, post, s0);
    RunJoin(m, Erased(pre, IdsOf(group)), [Call(callId, f, args)] + RenameItems(post, callId, replacement), s);
  }

  lemma RestTakesReturned(body: seq<Item>, last: nat, group: seq<Op>, callId: nat, defined: set<nat>, post: seq<Item>)
    requires IsGroup(body, last, group) && Ordered(group) && Single(body, defined) && FreshCall(body, callId) && post == body[last + 1..]
    ensures forall j :: 0 <= j < |post| ==> TakesReturned(post[j], group, ReturnedOf(body, IdsOf(group), group), callId)
  {
    forall j | 0 <= j < |post| ensures TakesReturned(post[j], group, ReturnedOf(body, IdsOf(group), group), callId) {
      LaterTakesReturned(body, last, group, callId, defined, last + 1 + j);
    }
  }

  lemma ReplacedAreOfGroup(group: seq<Op>, results: seq<Value>, replacement: map<Value, nat>)
    requires Positions(replacement, results) && forall v :: v in results ==> ResultOf(v, group, |group|)
    ensures forall v :: v in replacement ==> v.Result? && v.op in IdsOf(group)
  {
  }

  /** Outlining preserves meaning. When the results of the group are used only after its last operation, and the group's
      operations commute with those that stay between them, the rewritten body ends in the same world, every operation
      outside the group has the same results, and the call has, at each index, the result it replaces. */
  lemma OutlinedKeepsMeaning<D(!new), W(!new)>(m: Interpretation<D, W>, body: seq<Item>, last: nat, group: seq<Op>, f: Func, args: seq<Value>,
                                               replacement: map<Value, nat>, callId: nat, s: State<D, W>)
    requires IsGroup(body, last, group) && Ordered(group) && Single(body, s.env.Keys) && FreshCall(body, callId)
    requires NoneUses(body[..last + 1], IdsOf(group)) && GroupCommutes(m, body[..last + 1], IdsOf(group))
    requires AreArguments(args, AllOperands(group), IdsOf(group))
    requires IsFunction(f, args, ReturnedOf(body, IdsOf(group), group), group)
    requires Positions(replacement, ReturnedOf(body, IdsOf(group), group))
    requires Run(m, body, s).Some?
    ensures var body' := Outlined(body, last, IdsOf(group), Call(callId, f, args), replacement);
            && Run(m, body', s).Some?
            && Beside(group, ReturnedOf(body, IdsOf(group), group), callId, Run(m, body, s).value, Run(m, body', s).value)
  {
    var results, pre, post := ReturnedOf(body, IdsOf(group), group), body[..last + 1], body[last + 1..];
    ReturnedOnce(body, IdsOf(group), group);
    RestTakesReturned(body, last, group, callId, s.env.Keys, post);
    assert body == pre + post;
    PartsKeepMeaning(m, pre, post, group, f, args, results, replacement, callId, s);
    ReplacedAreOfGroup(group, results, replacement);
    OutlinedParts(body, last, IdsOf(group), Call(callId, f, args), replacement);
  }

  // ---------- the rewriting, step by step ----------

  lemma RenameOneMore(items: seq<Item>, callId: nat, done: map<Value, nat>, v: Value, k: nat)
    requires v !in done && !(v.Result? && v.op == callId)
    ensures RenameItems(RenameItems(items, callId, done), callId, map[v := k]) == RenameItems(items, callId, done[v := k])
  {
    forall i | 0 <= i < |items| ensures RenameItem(RenameItem(items[i], callId, done), callId, map[v := k]) == RenameItem(items[i], callId, done[v := k]) {
      assert RenamedAll(RenamedAll(OperandsOf(items[i]), callId, done), callId, map[v := k]) == RenamedAll(OperandsOf(items[i]), callId, done[v := k]);
    }
  }

  lemma {:induction false} EraseOneMore(items: seq<Item>, ids: set<nat>, id: nat)
    ensures Erased(Erased(items, ids), {id}) == Erased(items, ids + {id})
  {
    if items != [] {
      EraseOneMore(items[1..], ids, id);
      ErasedJoin(if InGroup(items[0], ids) then [] else [items[0]], Erased(items[1..], ids), {id});
    }
  }

  lemma {:induction false} RenamedNothing(items: seq<Item>, callId: nat)
    ensures RenameItems(items, callId, map[]) == items
  {
    forall i | 0 <= i < |items| ensures RenameItem(items[i], callId, map[]) == items[i] {
      RenameUnused(items[i], callId, map[]);
    }
  }

  /** Replaces the uses of the returned values one by one, in any order. */
  method ReplaceAllUses(items: seq<Item>, callId: nat, replacement: map<Value, nat>) returns (renamed: seq<Item>)
    requires forall v :: v in replacement ==> !(v.Result? && v.op == callId)
    ensures renamed == RenameItems(items, callId, replacement)
  {
    renamed := items;
    var done: map<Value, nat> := map[];
    var todo := replacement.Keys;
    RenamedNothing(items, callId);
    while todo != {}
      invariant todo <= replacement.Keys && done.Keys == replacement.Keys - todo
      invariant forall v :: v in done ==> done[v] == replacement[v]
      invariant renamed == RenameItems(items, callId, done)
      decreases |todo|
    {
      var v :| v in todo;
      RenameOneMore(items, callId, done, v, replacement[v]);
      renamed := RenameItems(renamed, callId, map[v := replacement[v]]);
      done := done[v := replacement[v]];
      todo := todo - {v};
    }
    assert done == replacement;
  }

  /** Erases the group's operations, last one first. */
  method EraseGroup(items: seq<Item>, group: seq<Op>) returns (erased: seq<Item>)
    ensures erased == Erased(items, IdsOf(group))
  {
    erased := items;
    var i := |group|;
    NothingErased(items, {});
    assert IdsOf(group[i..]) == {};
    while i > 0
      invariant 0 <= i <= |group| && erased == Erased(items, IdsOf(group[i..]))
    {
      i := i - 1;
      EraseOneMore(items, IdsOf(group[i + 1..]), group[i].id);
      assert IdsOf(group[i..]) == IdsOf(group[i + 1..]) + {group[i].id} by {
        assert group[i..] == [group[i]] + group[i + 1..];
      }
      erased := Erased(erased, {group[i].id});
    }
    assert group[0..] == group;
  }

  lemma CallIsNoMember(body: seq<Item>, last: nat, group: seq<Op>, callId: nat)
    requires IsGroup(body, last, group) && FreshCall(body, callId)
    ensures callId !in IdsOf(group)
  {
    MembersAre(body[..last + 1], IdsOf(group));
    forall i | 0 <= i < |group| ensures group[i].id != callId {
      assert Plains(group)[i] in Members(body[..last + 1], IdsOf(group));
      var k :| 0 <= k <= last && body[k] == Plain(group[i]);
    }
  }

  /** Outlines one group: builds its function, puts the call behind its last operation, renames and erases. */
  method FunctionizeGroup(body: seq<Item>, last: nat, group: seq<Op>, callId: nat)
    returns (body': seq<Item>, f: Func, args: seq<Value>, replacement: map<Value, nat>)
    requires IsGroup(body, last, group) && Ordered(group) && FreshCall(body, callId)
    ensures AreArguments(args, AllOperands(group), IdsOf(group))
    ensures IsFunction(f, args, ReturnedOf(body, IdsOf(group), group), group)
    ensures Positions(replacement, ReturnedOf(body, IdsOf(group), group))
    ensures body' == Outlined(body, last, IdsOf(group), Call(callId, f, args), replacement)
  {
    f, args, replacement := CreateNewFunction(body, group);
    body' := body[..last + 1] + [Call(callId, f, args)] + body[last + 1..];
    ReturnedOnce(body, IdsOf(group), group);
    CallIsNoMember(body, last, group, callId);
    body' := ReplaceAllUses(body', callId, replacement);
    body' := EraseGroup(body', group);
  }
}
