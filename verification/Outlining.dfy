/** Straight-line bodies whose operations name the values they use, and moving operations of a body into a function. */
module Outlining {
  import opened Wrappers

  /** An argument of the enclosing function, or one of the results of an operation. */
  datatype Value = Arg(arg: nat) | Result(op: nat, index: nat)

  datatype Op = Op(id: nat, code: nat, operands: seq<Value>, width: nat)

  datatype Func = Func(arity: nat, body: seq<Op>, returned: seq<Value>)

  datatype Item = Plain(op: Op) | Call(callId: nat, func: Func, actuals: seq<Value>)

  function IdOf(x: Item): nat {
    match x
    case Plain(op) => op.id
    case Call(id, _, _) => id
  }

  function OperandsOf(x: Item): seq<Value> {
    match x
    case Plain(op) => op.operands
    case Call(_, _, actuals) => actuals
  }

  // ---------- meaning ----------

  /** What an operation code yields for its operands and the world: its results, and the world after it. */
  datatype Interpretation<!D, !W> = Interpretation(exec: (nat, seq<D>, W) -> (seq<D>, W))

  datatype State<D, W> = State(env: map<nat, seq<D>>, args: seq<D>, world: W)

  predicate Defined<D, W>(v: Value, s: State<D, W>) {
    match v
    case Arg(i) => i < |s.args|
    case Result(op, k) => op in s.env && k < |s.env[op]|
  }

  function Fetch<D, W>(v: Value, s: State<D, W>): D
    requires Defined(v, s)
  {
    match v
    case Arg(i) => s.args[i]
    case Result(op, k) => s.env[op][k]
  }

  predicate AllDefined<D, W>(vs: seq<Value>, s: State<D, W>) {
    forall i :: 0 <= i < |vs| ==> Defined(vs[i], s)
  }

  function FetchAll<D, W>(vs: seq<Value>, s: State<D, W>): (r: seq<D>)
    requires AllDefined(vs, s)
    ensures |r| == |vs| && forall i :: 0 <= i < |vs| ==> r[i] == Fetch(vs[i], s)
  {
    seq(|vs|, i requires 0 <= i < |vs| => Fetch(vs[i], s))
  }

  /** An operation on given operand values; `None` when the number of results is wrong. */
  function Perform<D, W>(m: Interpretation<D, W>, op: Op, args: seq<D>, w: W): Option<(seq<D>, W)> {
    var r := m.exec(op.code, args, w);
    if |r.0| == op.width then Some(r) else None
  }

  function ExecOp<D, W>(m: Interpretation<D, W>, op: Op, s: State<D, W>): Option<State<D, W>> {
    if !AllDefined(op.operands, s) then None
    else match Perform(m, op, FetchAll(op.operands, s), s.world)
         case None => None
         case Some(r) => Some(s.(env := s.env[op.id := r.0], world := r.1))
  }

  function RunOps<D, W>(m: Interpretation<D, W>, ops: seq<Op>, s: State<D, W>): Option<State<D, W>> {
    if ops == [] then Some(s)
    else match ExecOp(m, ops[0], s)
         case None => None
         case Some(t) => RunOps(m, ops[1..], t)
  }

  /** A call runs the function on its arguments, in an environment of its own. */
  function Invoke<D, W>(m: Interpretation<D, W>, f: Func, args: seq<D>, w: W): Option<(seq<D>, W)> {
    if |args| != f.arity then None
    else match RunOps(m, f.body, State(map[], args, w))
         case None => None
         case Some(t) => if AllDefined(f.returned, t) then Some((FetchAll(f.returned, t), t.world)) else None
  }

  function Behave<D, W>(m: Interpretation<D, W>, x: Item, args: seq<D>, w: W): Option<(seq<D>, W)> {
    match x
    case Plain(op) => Perform(m, op, args, w)
    case Call(_, f, _) => Invoke(m, f, args, w)
  }

  function Exec<D, W>(m: Interpretation<D, W>, x: Item, s: State<D, W>): Option<State<D, W>> {
    if !AllDefined(OperandsOf(x), s) then None
    else match Behave(m, x, FetchAll(OperandsOf(x), s), s.world)
         case None => None
         case Some(r) => Some(s.(env := s.env[IdOf(x) := r.0], world := r.1))
  }

  function Run<D, W>(m: Interpretation<D, W>, items: seq<Item>, s: State<D, W>): Option<State<D, W>> {
    if items == [] then Some(s)
    else match Exec(m, items[0], s)
         case None => None
         case Some(t) => Run(m, items[1..], t)
  }

  lemma {:induction false} RunJoin<D, W>(m: Interpretation<D, W>, a: seq<Item>, b: seq<Item>, s: State<D, W>)
    ensures Run(m, a + b, s) == match Run(m, a, s) case None => None case Some(t) => Run(m, b, t)
  {
    if a == [] {
      assert a + b == b;
    } else {
      assert (a + b)[1..] == a[1..] + b;
      if Exec(m, a[0], s).Some? {
        RunJoin(m, a[1..], b, Exec(m, a[0], s).value);
      }
    }
  }

  // ---------- single assignment ----------

  /** Every operation has an identity of its own, outside `defined`. */
  predicate Single(items: seq<Item>, defined: set<nat>) {
    items == [] || (IdOf(items[0]) !in defined && Single(items[1..], defined + {IdOf(items[0])}))
  }

  /** Whether `x` uses a result of an operation in `ids`. */
  predicate Uses(x: Item, ids: set<nat>) {
    exists i :: 0 <= i < |OperandsOf(x)| && OperandsOf(x)[i].Result? && OperandsOf(x)[i].op in ids
  }

  predicate InGroup(x: Item, ids: set<nat>) {
    x.Plain? && x.op.id in ids
  }

  /** Without the group's operations. */
  function Erased(items: seq<Item>, ids: set<nat>): seq<Item> {
    if items == [] then []
    else (if InGroup(items[0], ids) then [] else [items[0]]) + Erased(items[1..], ids)
  }

  /** The group's operations, in order. */
  function Members(items: seq<Item>, ids: set<nat>): seq<Item> {
    if items == [] then []
    else (if InGroup(items[0], ids) then [items[0]] else []) + Members(items[1..], ids)
  }

  // ---------- gathering the group at its last operation ----------

  ghost predicate CommutesOn<D, W>(m: Interpretation<D, W>, a: Item, b: Item, x: seq<D>, y: seq<D>, w: W)
    requires Behave(m, a, x, w).Some? && Behave(m, b, y, Behave(m, a, x, w).value.1).Some?
  {
    var first := Behave(m, a, x, w).value;
    var second := Behave(m, b, y, first.1).value;
    && Behave(m, b, y, w).Some? && Behave(m, b, y, w).value.0 == second.0
    && Behave(m, a, x, Behave(m, b, y, w).value.1) == Some((first.0, second.1))
  }

  /** Doing `b` first and `a` second gives both the same results, and the same world in the end. */
  ghost predicate Commutes<D(!new), W(!new)>(m: Interpretation<D, W>, a: Item, b: Item) {
    forall x: seq<D>, y: seq<D>, w: W ::
      Behave(m, a, x, w).Some? && Behave(m, b, y, Behave(m, a, x, w).value.1).Some? ==>
        CommutesOn(m, a, b, x, y, w)
  }

  /** Each group operation commutes with the later operations that stay. */
  ghost predicate GroupCommutes<D(!new), W(!new)>(m: Interpretation<D, W>, items: seq<Item>, ids: set<nat>) {
    forall i, j :: 0 <= i < j < |items| && InGroup(items[i], ids) && !InGroup(items[j], ids) ==> Commutes(m, items[i], items[j])
  }

  ghost predicate NoneUses(items: seq<Item>, ids: set<nat>) {
    forall j :: 0 <= j < |items| && !InGroup(items[j], ids) ==> !Uses(items[j], ids)
  }

  lemma FetchElsewhere<D, W>(vs: seq<Value>, s: State<D, W>, t: State<D, W>, id: nat)
    requires t.args == s.args && forall k :: k != id ==> (k in t.env <==> k in s.env) && (k in s.env ==> t.env[k] == s.env[k])
    requires forall i :: 0 <= i < |vs| && vs[i].Result? ==> vs[i].op != id
    ensures AllDefined(vs, s) <==> AllDefined(vs, t)
    ensures AllDefined(vs, s) ==> FetchAll(vs, s) == FetchAll(vs, t)
  {
    forall i | 0 <= i < |vs| ensures Defined(vs[i], s) <==> Defined(vs[i], t)
      ensures Defined(vs[i], s) ==> Fetch(vs[i], s) == Fetch(vs[i], t)
    {
    }
  }

  /** Two neighbours that commute, and do not use each other's results, can be exchanged. */
  lemma SwapNeighbours<D(!new), W(!new)>(m: Interpretation<D, W>, a: Item, b: Item, s: State<D, W>)
    requires IdOf(a) != IdOf(b) && IdOf(b) !in s.env && !Uses(b, {IdOf(a)}) && Commutes(m, a, b)
    requires Exec(m, a, s).Some? && Exec(m, b, Exec(m, a, s).value).Some?
    ensures Exec(m, b, s).Some? && Exec(m, a, Exec(m, b, s).value) == Exec(m, b, Exec(m, a, s).value)
  {
    var s1 := Exec(m, a, s).value;
    FetchElsewhere(OperandsOf(b), s, s1, IdOf(a));
    var x, y := FetchAll(OperandsOf(a), s), FetchAll(OperandsOf(b), s);
    assert CommutesOn(m, a, b, x, y, s.world);
    var s2 := Exec(m, b, s).value;
    FetchElsewhere(OperandsOf(a), s, s2, IdOf(b));
    var e1 := s1.env[IdOf(b) := Behave(m, b, y, s1.world).value.0];
    var e2 := s2.env[IdOf(a) := Behave(m, a, x, s2.world).value.0];
    assert e1 == e2;
  }

  lemma ExecDefines<D, W>(m: Interpretation<D, W>, x: Item, s: State<D, W>)
    requires Exec(m, x, s).Some?
    ensures Exec(m, x, s).value.env.Keys == s.env.Keys + {IdOf(x)} && Exec(m, x, s).value.args == s.args
  {
  }

  lemma SingleWithout(a: Item, b: Item, rest: seq<Item>, defined: set<nat>)
    requires Single([a] + ([b] + rest), defined)
    ensures Single([a] + rest, defined + {IdOf(b)})
  {
    assert ([a] + ([b] + rest))[1..] == [b] + rest && ([b] + rest)[1..] == rest && ([a] + rest)[1..] == rest;
    assert defined + {IdOf(a)} + {IdOf(b)} == defined + {IdOf(b)} + {IdOf(a)};
  }

  /** An operation moves behind operations that commute with it and do not use its results. */
  lemma {:induction false} MovesBehind<D(!new), W(!new)>(m: Interpretation<D, W>, a: Item, others: seq<Item>, s: State<D, W>)
    requires Run(m, [a] + others, s).Some? && Single([a] + others, s.env.Keys)
    requires forall j :: 0 <= j < |others| ==> Commutes(m, a, others[j]) && !Uses(others[j], {IdOf(a)})
    ensures Run(m, others + [a], s) == Run(m, [a] + others, s)
    decreases |others|
  {
    if others == [] {
      assert others + [a] == [a] + others;
    } else {
      var b, rest := others[0], others[1..];
      assert ([a] + others)[1..] == others;
      SwapNeighbours(m, a, b, s);
      var s2 := Exec(m, b, s).value;
      ExecDefines(m, a, s);
      ExecDefines(m, b, s);
      assert ([a] + rest)[1..] == rest;
      assert Run(m, [a] + rest, s2) == Run(m, rest, Exec(m, a, s2).value);
      SingleWithout(a, b, rest, s.env.Keys);
      MovesBehind(m, a, rest, s2);
      assert (others + [a])[1..] == rest + [a];
    }
  }

  lemma {:induction false} SingleSmaller(items: seq<Item>, small: set<nat>, large: set<nat>)
    requires small <= large && Single(items, large)
    ensures Single(items, small)
    decreases |items|
  {
    if items != [] {
      SingleSmaller(items[1..], small + {IdOf(items[0])}, large + {IdOf(items[0])});
    }
  }

  lemma {:induction false} ErasedItems(items: seq<Item>, ids: set<nat>, defined: set<nat>)
    ensures forall x :: x in Erased(items, ids) <==> x in items && !InGroup(x, ids)
    ensures Single(items, defined) ==> Single(Erased(items, ids), defined)
    decreases |items|
  {
    if items != [] {
      ErasedItems(items[1..], ids, defined + {IdOf(items[0])});
      if Single(items, defined) {
        if InGroup(items[0], ids) {
          assert Erased(items, ids) == Erased(items[1..], ids);
          SingleSmaller(Erased(items[1..], ids), defined, defined + {IdOf(items[0])});
        } else {
          assert Erased(items, ids)[1..] == Erased(items[1..], ids);
        }
      }
    }
  }

  /** Two fronts that lead to the same state can be exchanged. */
  lemma ExchangeFront<D, W>(m: Interpretation<D, W>, front: seq<Item>, s: State<D, W>, front': seq<Item>, s': State<D, W>, rest: seq<Item>)
    requires Run(m, front, s) == Run(m, front', s')
    ensures Run(m, front + rest, s) == Run(m, front' + rest, s')
  {
    RunJoin(m, front, rest, s);
    RunJoin(m, front', rest, s');
  }

  lemma RunFront<D, W>(m: Interpretation<D, W>, a: Item, rest: seq<Item>, s: State<D, W>)
    requires Exec(m, a, s).Some?
    ensures Run(m, [a] + rest, s) == Run(m, rest, Exec(m, a, s).value)
  {
    assert ([a] + rest)[1..] == rest;
  }

  /** The step for a group operation `a`: once the rest is gathered, `a` joins the group in front. */
  lemma GatherMember<D(!new), W(!new)>(m: Interpretation<D, W>, a: Item, stay: seq<Item>, group: seq<Item>, s: State<D, W>)
    requires Exec(m, a, s).Some? && Run(m, stay, Exec(m, a, s).value).Some? && Single([a] + stay, s.env.Keys)
    requires forall j :: 0 <= j < |stay| ==> Commutes(m, a, stay[j]) && !Uses(stay[j], {IdOf(a)})
    ensures Run(m, (stay + [a]) + group, s) == Run(m, stay + group, Exec(m, a, s).value)
  {
    RunFront(m, a, stay, s);
    MovesBehind(m, a, stay, s);
    ExchangeFront(m, stay + [a], s, stay, Exec(m, a, s).value, group);
  }

  lemma StayIsSingle(items: seq<Item>, ids: set<nat>, defined: set<nat>)
    requires items != [] && Single(items, defined)
    ensures Single([items[0]] + Erased(items[1..], ids), defined)
  {
    ErasedItems(items[1..], ids, defined + {IdOf(items[0])});
    assert ([items[0]] + Erased(items[1..], ids))[1..] == Erased(items[1..], ids);
  }

  lemma StaysCommutes<D(!new), W(!new)>(m: Interpretation<D, W>, items: seq<Item>, ids: set<nat>, x: Item)
    requires items != [] && InGroup(items[0], ids) && x in items[1..] && !InGroup(x, ids)
    requires NoneUses(items, ids) && GroupCommutes(m, items, ids)
    ensures Commutes(m, items[0], x) && !Uses(x, {IdOf(items[0])})
  {
    var j :| 0 <= j < |items[1..]| && items[1..][j] == x;
    assert items[j + 1] == x;
    assert !Uses(items[j + 1], ids);
  }

  lemma StayCommutes<D(!new), W(!new)>(m: Interpretation<D, W>, items: seq<Item>, ids: set<nat>)
    requires items != [] && InGroup(items[0], ids) && NoneUses(items, ids) && GroupCommutes(m, items, ids)
    ensures forall j :: 0 <= j < |Erased(items[1..], ids)| ==>
              Commutes(m, items[0], Erased(items[1..], ids)[j]) && !Uses(Erased(items[1..], ids)[j], {IdOf(items[0])})
  {
    var stay := Erased(items[1..], ids);
    ErasedItems(items[1..], ids, {});
    forall j | 0 <= j < |stay| ensures Commutes(m, items[0], stay[j]) && !Uses(stay[j], {IdOf(items[0])}) {
      StaysCommutes(m, items, ids, stay[j]);
    }
  }

  lemma FirstGathered(items: seq<Item>, ids: set<nat>)
    requires items != []
    ensures Erased(items, ids) + Members(items, ids)
         == if InGroup(items[0], ids) then (Erased(items[1..], ids) + [items[0]]) + Members(items[1..], ids)
            else [items[0]] + (Erased(items[1..], ids) + Members(items[1..], ids))
  {
  }

  lemma GatherFirst<D(!new), W(!new)>(m: Interpretation<D, W>, items: seq<Item>, ids: set<nat>, s: State<D, W>)
    requires items != [] && InGroup(items[0], ids) && Exec(m, items[0], s).Some? && Single(items, s.env.Keys)
    requires Run(m, Erased(items[1..], ids), Exec(m, items[0], s).value).Some?
    requires NoneUses(items, ids) && GroupCommutes(m, items, ids)
    ensures Run(m, Erased(items, ids) + Members(items, ids), s)
         == Run(m, Erased(items[1..], ids) + Members(items[1..], ids), Exec(m, items[0], s).value)
  {
    var a, stay, group := items[0], Erased(items[1..], ids), Members(items[1..], ids);
    StayIsSingle(items, ids, s.env.Keys);
    StayCommutes(m, items, ids);
    GatherMember(m, a, stay, group, s);
    FirstGathered(items, ids);
  }

  lemma StayFirst<D, W>(m: Interpretation<D, W>, items: seq<Item>, ids: set<nat>, s: State<D, W>)
    requires items != [] && !InGroup(items[0], ids) && Exec(m, items[0], s).Some?
    ensures Run(m, Erased(items, ids) + Members(items, ids), s)
         == Run(m, Erased(items[1..], ids) + Members(items[1..], ids), Exec(m, items[0], s).value)
  {
    FirstGathered(items, ids);
    RunFront(m, items[0], Erased(items[1..], ids) + Members(items[1..], ids), s);
  }

  lemma LaterKeep<D(!new), W(!new)>(m: Interpretation<D, W>, items: seq<Item>, ids: set<nat>)
    requires items != [] && NoneUses(items, ids) && GroupCommutes(m, items, ids)
    ensures NoneUses(items[1..], ids) && GroupCommutes(m, items[1..], ids)
  {
    var rest := items[1..];
    assert forall j :: 0 <= j < |rest| ==> rest[j] == items[j + 1];
  }

  /** Running a body is running what stays first and the group after it, when no operation that stays uses the group's results. */
  lemma {:induction false} Gather<D(!new), W(!new)>(m: Interpretation<D, W>, items: seq<Item>, ids: set<nat>, s: State<D, W>)
    requires Run(m, items, s).Some? && Single(items, s.env.Keys)
    requires NoneUses(items, ids) && GroupCommutes(m, items, ids)
    ensures Run(m, Erased(items, ids) + Members(items, ids), s) == Run(m, items, s)
    decreases |items|
  {
    if items == [] {
      assert Erased(items, ids) + Members(items, ids) == [];
    } else {
      var rest := items[1..];
      var t := Exec(m, items[0], s).value;
      ExecDefines(m, items[0], s);
      LaterKeep(m, items, ids);
      Gather(m, rest, ids, t);
      RunJoin(m, Erased(rest, ids), Members(rest, ids), t);
      if InGroup(items[0], ids) {
        GatherFirst(m, items, ids, s);
      } else {
        StayFirst(m, items, ids, s);
      }
    }
  }
}
