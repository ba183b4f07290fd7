/** Grouping the quantum operations of a program by the qubits they use, in program order. */
module Grouper {
  import opened Wrappers

  /** An operation and the block it is in; a qubit is named by the position of its allocation.
      `Barrier` is a receive, `Foreign` an operation that stays in the body. */
  datatype Op =
    | Foreign(block: nat)
    | Barrier(block: nat)
    | QAlloc(block: nat)
    | Define(block: nat, entangles: bool, qalloc: nat)
    | Gate(block: nat, qubits: seq<nat>)

  /** Positions of operations in the program. */
  type Group = seq<nat>

  /** A group as a list of groups: an empty one counts for none. */
  function Listed(g: Group): seq<Group> {
    if g == [] then [] else [g]
  }

  class PerQubitGrouper {
    const maxOpsPerGroup: nat
    var qubitIds: map<nat, nat>
    var committedGroups: seq<Group>
    var activeGroupId: seq<nat>
    var activeGroup: Option<Group>
    var declaredQubits: set<nat>

    /** Numbers of qubits are distinct and consecutive; the active group has a name made of such numbers. */
    ghost predicate Valid()
      reads this
    {
      && (forall q :: q in qubitIds ==> qubitIds[q] < |qubitIds|)
      && (forall q, r :: q in qubitIds && r in qubitIds && qubitIds[q] == qubitIds[r] ==> q == r)
      && (activeGroup.Some? <==> activeGroupId != [])
      && (forall id :: id in activeGroupId ==> id < |qubitIds|)
    }

    /** The operations of the active group. */
    ghost function Active(): Group
      reads this
    {
      if activeGroup.Some? then activeGroup.value else []
    }

    constructor (maxOps: nat)
      ensures Valid() && maxOpsPerGroup == maxOps
      ensures qubitIds == map[] && committedGroups == [] && activeGroup == None && declaredQubits == {}
    {
      maxOpsPerGroup := maxOps;
      qubitIds, committedGroups, activeGroupId, activeGroup, declaredQubits := map[], [], [], None, {};
    }

    method RegisterQallocOp(q: nat)
      requires Valid() && q !in declaredQubits
      modifies this`declaredQubits
      ensures Valid() && declaredQubits == old(declaredQubits) + {q}
    {
      declaredQubits := declaredQubits + {q};
    }

    method CommitCurrentGroup()
      requires Valid()
      modifies this`committedGroups, this`activeGroupId, this`activeGroup
      ensures Valid() && activeGroup == None && activeGroupId == []
      ensures committedGroups == old(committedGroups) + Listed(old(Active()))
    {
      if activeGroup.Some? {
        if activeGroup.value != [] {
          committedGroups := committedGroups + [activeGroup.value];
        }
        activeGroupId := [];
        activeGroup := None;
      }
    }

    ghost predicate Named(qubits: seq<nat>, name: seq<nat>)
      reads this
    {
      |name| == |qubits| && forall i :: 0 <= i < |qubits| ==> qubits[i] in qubitIds && name[i] == qubitIds[qubits[i]]
    }

    /** The name of the group for a list of qubits. */
    method GroupName(qubits: seq<nat>) returns (name: seq<nat>)
      requires Valid() && forall q :: q in qubits ==> q in qubitIds
      ensures Named(qubits, name)
    {
      name := [];
      for i := 0 to |qubits|
        invariant |name| == i && forall k :: 0 <= k < i ==> name[k] == qubitIds[qubits[k]]
      {
        name := name + [qubitIds[qubits[i]]];
      }
    }

    /** Makes the group of the qubits active: the current one when it has their name, and otherwise a new one. */
    method GetGroupForQubits(qubits: seq<nat>)
      requires Valid() && qubits != [] && forall q :: q in qubits ==> q in qubitIds
      modifies this`committedGroups, this`activeGroupId, this`activeGroup
      ensures Valid() && activeGroup.Some? && Named(qubits, activeGroupId)
      ensures if old(Named(qubits, activeGroupId)) then activeGroup == old(activeGroup) && committedGroups == old(committedGroups)
              else activeGroup == Some([]) && committedGroups == old(committedGroups) + Listed(old(Active()))
    {
      var name := GroupName(qubits);
      if activeGroupId != name {
        CommitCurrentGroup();
        activeGroupId := name;
        activeGroup := Some([]);
      }
    }

    /** Adds an operation to the group of its qubits, or to a new group when there is none or it is full. */
    method AddOperationToGroup(op: nat, qubits: seq<nat>)
      requires Valid() && qubits != [] && forall q :: q in qubits ==> q in qubitIds
      modifies this`committedGroups, this`activeGroupId, this`activeGroup
      ensures Valid() && Named(qubits, activeGroupId)
      ensures if old(Named(qubits, activeGroupId)) && !(0 < maxOpsPerGroup <= |old(Active())|)
              then activeGroup == Some(old(Active()) + [op]) && committedGroups == old(committedGroups)
              else activeGroup == Some([op]) && committedGroups == old(committedGroups) + Listed(old(Active()))
    {
      GetGroupForQubits(qubits);
      if maxOpsPerGroup > 0 && |activeGroup.value| >= maxOpsPerGroup {
        CommitCurrentGroup();
        GetGroupForQubits(qubits);
      }
      assert [] + [op] == [op];
      activeGroup := Some(activeGroup.value + [op]);
    }

    method AssignQubitId(q: nat) returns (id: nat)
      requires Valid() && q !in qubitIds
      modifies this`qubitIds
      ensures Valid() && qubitIds == old(qubitIds)[q := id] && id == old(|qubitIds|) && id !in activeGroupId
    {
      id := |qubitIds|;
      assert qubitIds[q := id].Keys == qubitIds.Keys + {q};
      assert |qubitIds[q := id].Keys| == |qubitIds[q := id]| && |qubitIds.Keys| == |qubitIds|;
      qubitIds := qubitIds[q := id];
    }

    /** Starts the group of a new qubit with its allocation. */
    method AddNewGroupForQalloc(q: nat, id: nat)
      requires Valid() && q in qubitIds && qubitIds[q] == id && id !in activeGroupId
      modifies this`committedGroups, this`activeGroupId, this`activeGroup
      ensures Valid() && activeGroup == Some([q]) && activeGroupId == [id]
      ensures committedGroups == old(committedGroups) + Listed(old(Active()))
    {
      assert activeGroupId != [id];
      CommitCurrentGroup();
      activeGroupId := [id];
      activeGroup := Some([q]);
    }

    /** Gives the qubit the next number, and starts its group with its allocation and its definition. */
    method GroupDefinitionWithQAlloc(op: nat, q: nat)
      requires Valid() && q in declaredQubits && q !in qubitIds
      modifies this`committedGroups, this`activeGroupId, this`activeGroup, this`qubitIds, this`declaredQubits
      ensures Valid() && qubitIds.Keys == old(qubitIds.Keys) + {q} && declaredQubits == old(declaredQubits) - {q}
      ensures activeGroup == Some([q, op]) && Named([q], activeGroupId)
      ensures committedGroups == old(committedGroups) + Listed(old(Active()))
    {
      var id := AssignQubitId(q);
      AddNewGroupForQalloc(q, id);
      assert [q] + [op] == [q, op];
      activeGroup := Some(activeGroup.value + [op]);
      declaredQubits := declaredQubits - {q};
    }
  }

  // ---------- what a grouping is ----------

  predicate IsQuantum(op: Op) {
    op.Define? || op.Gate?
  }

  /** The positions of the definitions and gates below `n`, in order. */
  function Quantum(prog: seq<Op>, n: nat): Group
    requires n <= |prog|
  {
    if n == 0 then [] else Quantum(prog, n - 1) + (if IsQuantum(prog[n - 1]) then [n - 1] else [])
  }

  predicate InProgram(prog: seq<Op>, g: Group) {
    forall i :: 0 <= i < |g| ==> g[i] < |prog|
  }

  predicate BeginsWithQAlloc(prog: seq<Op>, g: Group) {
    g != [] && g[0] < |prog| && prog[g[0]].QAlloc?
  }

  /** The group without its allocation. */
  function Work(prog: seq<Op>, g: Group): Group {
    if BeginsWithQAlloc(prog, g) then g[1..] else g
  }

  function WorkAll(prog: seq<Op>, groups: seq<Group>): Group {
    if groups == [] then [] else WorkAll(prog, groups[..|groups| - 1]) + Work(prog, groups[|groups| - 1])
  }

  function QubitsAt(prog: seq<Op>, i: nat): seq<nat>
    requires i < |prog|
  {
    match prog[i]
    case Define(_, _, q) => [q]
    case Gate(_, qubits) => qubits
    case _ => [i]
  }

  /** No receive and no change of block from `i` up to but not including `j`. */
  ghost predicate Unbroken(prog: seq<Op>, i: nat, j: nat) {
    forall k :: i <= k < j && k < |prog| ==> !prog[k].Barrier? && prog[k].block == prog[i].block
  }

  /** A receive, or a first operation of another block, after `i` and before `j`. */
  ghost predicate Broken(prog: seq<Op>, i: nat, j: nat) {
    exists k :: i < k < j && k < |prog| && (prog[k].Barrier? || prog[k].block != prog[k - 1].block)
  }

  predicate Entangling(prog: seq<Op>, g: Group)
    requires InProgram(prog, g)
  {
    |g| >= 2 && prog[g[1]].Define? && prog[g[1]].entangles
  }

  /** A group is an allocation with its definition, or a gate, followed by gates on the same qubits in the same order, with
      no receive and no change of block among them; an entanglement request ends its group. */
  ghost predicate IsGroup(prog: seq<Op>, g: Group) {
    && g != [] && InProgram(prog, g)
    && (if prog[g[0]].QAlloc? then |g| >= 2 && prog[g[1]].Define? && prog[g[1]].qalloc == g[0] else prog[g[0]].Gate?)
    && (forall i :: (if prog[g[0]].QAlloc? then 2 else 1) <= i < |g| ==> prog[g[i]].Gate?)
    && (forall i :: 0 <= i < |g| ==> QubitsAt(prog, g[i]) == QubitsAt(prog, g[0]))
    && Unbroken(prog, Work(prog, g)[0], g[|g| - 1] + 1)
    && (Entangling(prog, g) ==> |g| == 2)
  }

  predicate Fits(g: Group, maxOps: nat) {
    maxOps > 0 ==> |g| <= if maxOps >= 2 then maxOps else 2
  }

  function Last<T>(s: seq<T>): T
    requires s != []
  {
    s[|s| - 1]
  }

  /** Why `b` is not part of `a`, the group before it. */
  ghost predicate Separate(prog: seq<Op>, a: Group, b: Group, maxOps: nat) {
    && a != [] && b != [] && InProgram(prog, a) && InProgram(prog, b)
    && (|| prog[b[0]].QAlloc?
        || QubitsAt(prog, b[0]) != QubitsAt(prog, a[0])
        || 0 < maxOps <= |a|
        || Entangling(prog, a)
        || Broken(prog, Last(a), b[0] + 1))
  }

  /** All are groups of at most the allowed size, and each is separate from the one before for a reason. */
  ghost predicate AreGroups(prog: seq<Op>, groups: seq<Group>, maxOps: nat) {
    groups == [] ||
      (var front, g := groups[..|groups| - 1], Last(groups);
       AreGroups(prog, front, maxOps) && IsGroup(prog, g) && Fits(g, maxOps) && (front != [] ==> Separate(prog, Last(front), g, maxOps)))
  }

  /** The groups hold exactly the definitions and gates below `n`, in order. */
  ghost predicate Grouped(prog: seq<Op>, n: nat, groups: seq<Group>, maxOps: nat)
    requires n <= |prog|
  {
    AreGroups(prog, groups, maxOps) && WorkAll(prog, groups) == Quantum(prog, n)
  }

  /** The active group can still grow. */
  ghost predicate Open(prog: seq<Op>, n: nat, g: Group) {
    g != [] && Work(prog, g) != [] && InProgram(prog, g) && Work(prog, g)[0] <= Last(g) < n && Unbroken(prog, Work(prog, g)[0], n) && !Entangling(prog, g)
  }

  /** The last group has been closed for a reason. */
  ghost predicate Closed(prog: seq<Op>, n: nat, g: Group) {
    g != [] && InProgram(prog, g) && (Entangling(prog, g) || Broken(prog, Last(g), n + 1))
  }

  ghost predicate Progress(prog: seq<Op>, n: nat, committed: seq<Group>, active: Group, maxOps: nat) {
    && n <= |prog| && Grouped(prog, n, committed + Listed(active), maxOps)
    && (if active != [] then Open(prog, n, active) else committed != [] ==> Closed(prog, n, Last(committed)))
  }

  // ---------- the steps keep it ----------

  lemma AreGroupsOneMore(prog: seq<Op>, groups: seq<Group>, g: Group, maxOps: nat)
    ensures AreGroups(prog, groups + [g], maxOps) <==>
              AreGroups(prog, groups, maxOps) && IsGroup(prog, g) && Fits(g, maxOps)
              && (groups != [] ==> Separate(prog, Last(groups), g, maxOps))
    ensures WorkAll(prog, groups + [g]) == WorkAll(prog, groups) + Work(prog, g)
  {
    assert (groups + [g])[..|groups|] == groups;
  }

  lemma ListedOne(groups: seq<Group>, g: Group)
    ensures g != [] ==> groups + Listed(g) == groups + [g]
    ensures g == [] ==> groups + Listed(g) == groups
  {
  }

  /** A closed tail: a new block starts at `n`, or a receive stands there. */
  lemma CloseStep(prog: seq<Op>, n: nat, committed: seq<Group>, active: Group, maxOps: nat)
    requires Progress(prog, n, committed, active, maxOps) && n < |prog|
    requires prog[n].Barrier? || (n > 0 && prog[n].block != prog[n - 1].block)
    ensures Progress(prog, n, committed + Listed(active), [], maxOps)
  {
    ListedOne(committed, active);
    ListedOne(committed + Listed(active), []);
  }

  lemma OpenLater(prog: seq<Op>, n: nat, g: Group)
    requires n < |prog| && Open(prog, n, g) && !prog[n].Barrier? && prog[n].block == prog[Work(prog, g)[0]].block
    ensures Open(prog, n + 1, g)
  {
  }

  lemma ClosedLater(prog: seq<Op>, n: nat, g: Group)
    requires Closed(prog, n, g)
    ensures Closed(prog, n + 1, g)
  {
  }

  lemma SkipStep(prog: seq<Op>, n: nat, committed: seq<Group>, active: Group, maxOps: nat)
    requires Progress(prog, n, committed, active, maxOps) && n < |prog| && !IsQuantum(prog[n])
    requires active != [] ==> !prog[n].Barrier? && prog[n].block == prog[Work(prog, active)[0]].block
    ensures Progress(prog, n + 1, committed, active, maxOps)
  {
    assert Quantum(prog, n + 1) == Quantum(prog, n);
    if active != [] {
      OpenLater(prog, n, active);
    } else if committed != [] {
      ClosedLater(prog, n, Last(committed));
    }
  }

  /** The groups so far, with a new last group `g` for the operation at `n`, when there is a reason to begin one. */
  lemma NewGroup(prog: seq<Op>, n: nat, committed: seq<Group>, active: Group, g: Group, maxOps: nat)
    requires Progress(prog, n, committed, active, maxOps) && n < |prog| && IsQuantum(prog[n])
    requires IsGroup(prog, g) && Fits(g, maxOps) && Work(prog, g) == [n]
    requires prog[g[0]].QAlloc? || g[0] == n
    requires active != [] ==> Separate(prog, active, g, maxOps)
    ensures Grouped(prog, n + 1, committed + Listed(active) + [g], maxOps)
  {
    ListedOne(committed, active);
    AreGroupsOneMore(prog, committed + Listed(active), g, maxOps);
  }

  /** A new last group either stays open, or is closed at once by its entanglement request. */
  lemma OpenOrClosed(prog: seq<Op>, n: nat, groups: seq<Group>, g: Group, maxOps: nat)
    requires n < |prog| && Grouped(prog, n + 1, groups + [g], maxOps) && g != [] && InProgram(prog, g) && Work(prog, g) == [n] && Last(g) == n
    ensures !Entangling(prog, g) ==> Progress(prog, n + 1, groups, g, maxOps)
    ensures Entangling(prog, g) ==> Progress(prog, n + 1, groups + [g], [], maxOps)
  {
    ListedOne(groups, g);
    ListedOne(groups + [g], []);
    AreGroupsOneMore(prog, groups, g, maxOps);
  }

  lemma DefinedIsGroup(prog: seq<Op>, n: nat, maxOps: nat)
    requires n < |prog| && prog[n].Define? && prog[n].qalloc < |prog| && prog[prog[n].qalloc].QAlloc?
    ensures var g := [prog[n].qalloc, n];
            IsGroup(prog, g) && Fits(g, maxOps) && Work(prog, g) == [n] && Entangling(prog, g) == prog[n].entangles
  {
  }

  lemma GateIsGroup(prog: seq<Op>, n: nat, maxOps: nat)
    requires n < |prog| && prog[n].Gate?
    ensures IsGroup(prog, [n]) && Fits([n], maxOps) && Work(prog, [n]) == [n] && !Entangling(prog, [n])
    ensures QubitsAt(prog, [n][0]) == prog[n].qubits
  {
  }

  lemma DefineStep(prog: seq<Op>, n: nat, committed: seq<Group>, active: Group, maxOps: nat)
    requires Progress(prog, n, committed, active, maxOps) && n < |prog| && prog[n].Define?
    requires prog[n].qalloc < |prog| && prog[prog[n].qalloc].QAlloc?
    ensures prog[n].entangles ==> Progress(prog, n + 1, committed + Listed(active) + [[prog[n].qalloc, n]], [], maxOps)
    ensures !prog[n].entangles ==> Progress(prog, n + 1, committed + Listed(active), [prog[n].qalloc, n], maxOps)
  {
    DefinedIsGroup(prog, n, maxOps);
    NewGroup(prog, n, committed, active, [prog[n].qalloc, n], maxOps);
    OpenOrClosed(prog, n, committed + Listed(active), [prog[n].qalloc, n], maxOps);
  }

  lemma NewStep(prog: seq<Op>, n: nat, committed: seq<Group>, active: Group, maxOps: nat)
    requires Progress(prog, n, committed, active, maxOps) && n < |prog| && prog[n].Gate?
    requires active != [] ==> prog[n].qubits != QubitsAt(prog, active[0]) || 0 < maxOps <= |active|
    ensures Progress(prog, n + 1, committed + Listed(active), [n], maxOps)
  {
    GateIsGroup(prog, n, maxOps);
    NewGroup(prog, n, committed, active, [n], maxOps);
    OpenOrClosed(prog, n, committed + Listed(active), [n], maxOps);
  }

  lemma JoinedShape(prog: seq<Op>, n: nat, active: Group)
    requires n < |prog| && prog[n].Gate? && IsGroup(prog, active) && !Entangling(prog, active)
    requires prog[n].qubits == QubitsAt(prog, active[0]) && Unbroken(prog, Work(prog, active)[0], n + 1)
    requires Work(prog, active + [n])[0] == Work(prog, active)[0] && !Entangling(prog, active + [n])
    ensures IsGroup(prog, active + [n])
  {
    var g := active + [n];
    assert forall i :: 0 <= i < |g| ==> g[i] == if i < |active| then active[i] else n;
  }

  lemma JoinedWork(prog: seq<Op>, n: nat, active: Group)
    requires n < |prog| && prog[n].Gate? && active != [] && InProgram(prog, active) && Work(prog, active) != [] && !Entangling(prog, active)
    ensures Work(prog, active + [n]) == Work(prog, active) + [n] && Work(prog, active + [n])[0] == Work(prog, active)[0]
    ensures InProgram(prog, active + [n]) && !Entangling(prog, active + [n])
  {
    var g := active + [n];
    assert g[0] == active[0];
    assert |active| >= 2 ==> g[1] == active[1];
  }

  lemma JoinedGroup(prog: seq<Op>, n: nat, active: Group, maxOps: nat)
    requires n < |prog| && prog[n].Gate? && active != [] && IsGroup(prog, active) && Open(prog, n, active)
    requires prog[n].qubits == QubitsAt(prog, active[0]) && !(0 < maxOps <= |active|)
    requires prog[n].block == prog[Work(prog, active)[0]].block
    ensures IsGroup(prog, active + [n]) && Fits(active + [n], maxOps) && Work(prog, active + [n]) == Work(prog, active) + [n]
    ensures Open(prog, n + 1, active + [n])
  {
    JoinedWork(prog, n, active);
    assert Unbroken(prog, Work(prog, active)[0], n + 1);
    JoinedShape(prog, n, active);
  }

  lemma StillSeparate(prog: seq<Op>, a: Group, b: Group, n: nat, maxOps: nat)
    requires Separate(prog, a, b, maxOps) && n < |prog|
    ensures Separate(prog, a, b + [n], maxOps)
  {
    assert (b + [n])[0] == b[0];
  }

  lemma JoinedGroups(prog: seq<Op>, n: nat, committed: seq<Group>, active: Group, maxOps: nat)
    requires n < |prog| && active != [] && AreGroups(prog, committed + [active], maxOps)
    requires IsGroup(prog, active + [n]) && Fits(active + [n], maxOps)
    ensures AreGroups(prog, committed + [active + [n]], maxOps)
  {
    AreGroupsOneMore(prog, committed, active, maxOps);
    AreGroupsOneMore(prog, committed, active + [n], maxOps);
    if committed != [] {
      StillSeparate(prog, Last(committed), active, n, maxOps);
    }
  }

  lemma WorkAllOneMore(prog: seq<Op>, groups: seq<Group>, g: Group)
    ensures WorkAll(prog, groups + [g]) == WorkAll(prog, groups) + Work(prog, g)
  {
    assert (groups + [g])[..|groups|] == groups;
  }

  lemma JoinStep(prog: seq<Op>, n: nat, committed: seq<Group>, active: Group, maxOps: nat)
    requires Progress(prog, n, committed, active, maxOps) && n < |prog| && prog[n].Gate? && active != []
    requires prog[n].qubits == QubitsAt(prog, active[0]) && !(0 < maxOps <= |active|)
    requires prog[n].block == prog[Work(prog, active)[0]].block
    ensures Progress(prog, n + 1, committed, active + [n], maxOps)
  {
    ListedOne(committed, active);
    ListedOne(committed, active + [n]);
    AreGroupsOneMore(prog, committed, active, maxOps);
    JoinedGroup(prog, n, active, maxOps);
    JoinedGroups(prog, n, committed, active, maxOps);
    WorkAllOneMore(prog, committed, active);
    WorkAllOneMore(prog, committed, active + [n]);
  }

  // ---------- the classifier ----------

  /** The allocations that are defined below `n`. */
  function DefinedBelow(prog: seq<Op>, n: nat): set<nat>
    requires n <= |prog|
  {
    set k | 0 <= k < n && prog[k].Define? :: prog[k].qalloc
  }

  /** What the grouper asserts of a program: a definition names an allocation that no other definition names, and the
      qubits of a gate have been defined before it. */
  ghost predicate WellFormed(prog: seq<Op>) {
    && (forall n :: 0 <= n < |prog| && prog[n].Define? ==> prog[n].qalloc < |prog| && prog[prog[n].qalloc].QAlloc?)
    && (forall n, k :: 0 <= k < n < |prog| && prog[n].Define? && prog[k].Define? ==> prog[n].qalloc != prog[k].qalloc)
    && (forall n :: 0 <= n < |prog| && prog[n].Gate? ==> prog[n].qubits != [] && forall q :: q in prog[n].qubits ==> q in DefinedBelow(prog, n))
  }

  function Allocations(prog: seq<Op>): set<nat> {
    set k | 0 <= k < |prog| && prog[k].QAlloc?
  }

  /** The closed groups and the active one. */
  datatype Groups = Groups(committed: seq<Group>, active: Group)

  function Close(s: Groups): Groups {
    Groups(s.committed + Listed(s.active), [])
  }

  /** A new group of an allocation and its definition; an entanglement request closes it at once. */
  function Defined(s: Groups, q: nat, n: nat, entangles: bool): Groups {
    var begun := Groups(Close(s).committed, [q, n]);
    if entangles then Close(begun) else begun
  }

  /** What one operation does to the groups. */
  function Classify(prog: seq<Op>, n: nat, s: Groups, maxOps: nat): Groups
    requires n < |prog|
  {
    match prog[n]
    case Barrier(_) => Close(s)
    case Define(_, entangles, q) => Defined(s, q, n, entangles)
    case Gate(_, qubits) =>
      if s.active != [] && s.active[0] < |prog| && qubits == QubitsAt(prog, s.active[0]) && !(0 < maxOps <= |s.active|) then Groups(s.committed, s.active + [n])
      else Groups(Close(s).committed, [n])
    case _ => s
  }

  function Enter(prog: seq<Op>, n: nat, s: Groups): Groups
    requires n < |prog|
  {
    if n > 0 && prog[n].block != prog[n - 1].block then Close(s) else s
  }

  /** The active group is in the block of the operation before. */
  lemma OpenBlock(prog: seq<Op>, n: nat, g: Group)
    requires n <= |prog| && Open(prog, n, g)
    ensures n > 0 && prog[n - 1].block == prog[Work(prog, g)[0]].block
  {
  }

  lemma EnterStep(prog: seq<Op>, n: nat, s: Groups, maxOps: nat)
    requires n < |prog| && Progress(prog, n, s.committed, s.active, maxOps)
    ensures var t := Enter(prog, n, s); Progress(prog, n, t.committed, t.active, maxOps)
    ensures var t := Enter(prog, n, s); t.active != [] ==> Open(prog, n, t.active) && prog[n].block == prog[Work(prog, t.active)[0]].block
  {
    if n > 0 && prog[n].block != prog[n - 1].block {
      CloseStep(prog, n, s.committed, s.active, maxOps);
    } else if s.active != [] {
      OpenBlock(prog, n, s.active);
    }
  }

  /** What the grouper asserts of the operation at `n`. */
  ghost predicate Acceptable(prog: seq<Op>, n: nat)
    requires n < |prog|
  {
    match prog[n]
    case Define(_, _, q) => q < |prog| && prog[q].QAlloc? && q in Allocations(prog) && q !in DefinedBelow(prog, n)
    case Gate(_, qubits) => qubits != [] && forall q :: q in qubits ==> q in DefinedBelow(prog, n)
    case _ => true
  }

  lemma ClassifyStep(prog: seq<Op>, n: nat, s: Groups, maxOps: nat)
    requires n < |prog| && Acceptable(prog, n) && Progress(prog, n, s.committed, s.active, maxOps) && InProgram(prog, s.active)
    requires s.active != [] ==> prog[n].block == prog[Work(prog, s.active)[0]].block
    ensures var t := Classify(prog, n, s, maxOps); Progress(prog, n + 1, t.committed, t.active, maxOps)
  {
    match prog[n]
    case Barrier(_) =>
      CloseStep(prog, n, s.committed, s.active, maxOps);
      SkipStep(prog, n, Close(s).committed, [], maxOps);
    case Define(_, _, _) =>
      DefineStep(prog, n, s.committed, s.active, maxOps);
    case Gate(_, qubits) =>
      if s.active != [] && qubits == QubitsAt(prog, s.active[0]) && !(0 < maxOps <= |s.active|) {
        JoinStep(prog, n, s.committed, s.active, maxOps);
      } else {
        NewStep(prog, n, s.committed, s.active, maxOps);
      }
    case _ =>
      SkipStep(prog, n, s.committed, s.active, maxOps);
  }

  // ---------- the classifier's methods ----------

  ghost function Now(grouper: PerQubitGrouper): Groups
    reads grouper
  {
    Groups(grouper.committedGroups, grouper.Active())
  }

  /** The qubits defined below `n` have numbers, and the active group is named after its own. */
  ghost predicate Ready(grouper: PerQubitGrouper, prog: seq<Op>, n: nat)
    requires n <= |prog|
    reads grouper
  {
    && grouper.Valid()
    && (grouper.activeGroup.Some? ==> grouper.Active() != [] && InProgram(prog, grouper.Active())
                                      && grouper.Named(QubitsAt(prog, grouper.Active()[0]), grouper.activeGroupId))
    && grouper.qubitIds.Keys == DefinedBelow(prog, n)
    && grouper.declaredQubits == Allocations(prog) - DefinedBelow(prog, n)
  }

  lemma NamedOnce(grouper: PerQubitGrouper, qubits: seq<nat>, others: seq<nat>, name: seq<nat>)
    requires grouper.Valid() && grouper.Named(qubits, name) && grouper.Named(others, name)
    ensures qubits == others
  {
  }

  /** Groups a definition with its allocation; an entanglement request closes the group. */
  method GroupDefinition(grouper: PerQubitGrouper, n: nat, q: nat, entangles: bool)
    requires grouper.Valid() && q in grouper.declaredQubits && q !in grouper.qubitIds
    modifies grouper
    ensures grouper.Valid() && grouper.qubitIds.Keys == old(grouper.qubitIds.Keys) + {q}
    ensures grouper.declaredQubits == old(grouper.declaredQubits) - {q}
    ensures Now(grouper) == Defined(old(Now(grouper)), q, n, entangles)
    ensures !entangles ==> grouper.activeGroup.Some? && grouper.Named([q], grouper.activeGroupId)
    ensures entangles ==> grouper.activeGroup.None?
  {
    grouper.GroupDefinitionWithQAlloc(n, q);
    if entangles {
      grouper.CommitCurrentGroup();
    }
  }

  lemma DefinedOneMore(prog: seq<Op>, n: nat)
    requires n < |prog|
    ensures DefinedBelow(prog, n + 1) == DefinedBelow(prog, n) + if prog[n].Define? then {prog[n].qalloc} else {}
  {
  }

  ghost predicate AllAcceptable(prog: seq<Op>) {
    forall n :: 0 <= n < |prog| ==> Acceptable(prog, n)
  }

  lemma WellFormedAccepts(prog: seq<Op>)
    requires WellFormed(prog)
    ensures AllAcceptable(prog)
  {
  }

  /** The grouper is ready for the next operation after a definition. */
  lemma DefinitionReady(grouper: PerQubitGrouper, prog: seq<Op>, n: nat)
    requires n < |prog| && prog[n].Define? && Acceptable(prog, n) && grouper.Valid()
    requires grouper.qubitIds.Keys == DefinedBelow(prog, n) + {prog[n].qalloc}
    requires grouper.declaredQubits == Allocations(prog) - DefinedBelow(prog, n) - {prog[n].qalloc}
    requires grouper.activeGroup.Some? ==> grouper.Active() == [prog[n].qalloc, n] && grouper.Named([prog[n].qalloc], grouper.activeGroupId)
    ensures Ready(grouper, prog, n + 1)
  {
    DefinedOneMore(prog, n);
  }

  /** The grouper is ready for the next operation after a gate. */
  lemma GateReady(grouper: PerQubitGrouper, prog: seq<Op>, n: nat, g: Group)
    requires n < |prog| && prog[n].Gate? && grouper.Valid()
    requires grouper.qubitIds.Keys == DefinedBelow(prog, n) && grouper.declaredQubits == Allocations(prog) - DefinedBelow(prog, n)
    requires grouper.activeGroup == Some(g + [n]) && grouper.Named(prog[n].qubits, grouper.activeGroupId)
    requires g != [] ==> InProgram(prog, g) && QubitsAt(prog, g[0]) == prog[n].qubits
    ensures Ready(grouper, prog, n + 1)
  {
    DefinedOneMore(prog, n);
    assert (g + [n])[0] == if g == [] then n else g[0];
  }

  method ClassifyDefinition(grouper: PerQubitGrouper, prog: seq<Op>, n: nat)
    requires n < |prog| && prog[n].Define? && Acceptable(prog, n) && Ready(grouper, prog, n)
    modifies grouper
    ensures Ready(grouper, prog, n + 1) && Now(grouper) == Classify(prog, n, old(Now(grouper)), grouper.maxOpsPerGroup)
  {
    GroupDefinition(grouper, n, prog[n].qalloc, prog[n].entangles);
    DefinitionReady(grouper, prog, n);
  }

  method ClassifyGate(grouper: PerQubitGrouper, prog: seq<Op>, n: nat)
    requires n < |prog| && prog[n].Gate? && Acceptable(prog, n) && Ready(grouper, prog, n)
    modifies grouper
    ensures Ready(grouper, prog, n + 1) && Now(grouper) == Classify(prog, n, old(Now(grouper)), grouper.maxOpsPerGroup)
  {
    ghost var named, before := grouper.Named(prog[n].qubits, grouper.activeGroupId), grouper.Active();
    if grouper.activeGroup.Some? && named {
      NamedOnce(grouper, prog[n].qubits, QubitsAt(prog, grouper.Active()[0]), grouper.activeGroupId);
    }
    grouper.AddOperationToGroup(n, prog[n].qubits);
    ghost var joins := named && !(0 < grouper.maxOpsPerGroup <= |before|);
    assert [] + [n] == [n];
    GateReady(grouper, prog, n, if joins then before else []);
  }

  method ClassifyOp(grouper: PerQubitGrouper, prog: seq<Op>, n: nat)
    requires n < |prog| && Acceptable(prog, n) && Ready(grouper, prog, n)
    modifies grouper
    ensures Ready(grouper, prog, n + 1) && Now(grouper) == Classify(prog, n, old(Now(grouper)), grouper.maxOpsPerGroup)
  {
    match prog[n]
    case Barrier(_) =>
      DefinedOneMore(prog, n);
      grouper.CommitCurrentGroup();
    case Define(_, _, _) =>
      ClassifyDefinition(grouper, prog, n);
    case Gate(_, _) =>
      ClassifyGate(grouper, prog, n);
    case _ =>
      DefinedOneMore(prog, n);
  }

  method RegisterAllocations(prog: seq<Op>, maxOps: nat) returns (grouper: PerQubitGrouper)
    ensures fresh(grouper) && grouper.maxOpsPerGroup == maxOps && Ready(grouper, prog, 0) && Now(grouper) == Groups([], [])
  {
    grouper := new PerQubitGrouper(maxOps);
    for i := 0 to |prog|
      invariant grouper.Valid() && grouper.maxOpsPerGroup == maxOps
      invariant grouper.qubitIds == map[] && grouper.committedGroups == [] && grouper.activeGroup == None
      invariant grouper.declaredQubits == set k | 0 <= k < i && prog[k].QAlloc?
    {
      if prog[i].QAlloc? {
        grouper.RegisterQallocOp(i);
      }
    }
  }

  /** The groups after the operations below `n`. */
  function GroupsBelow(prog: seq<Op>, n: nat, maxOps: nat): Groups
    requires n <= |prog|
  {
    if n == 0 then Groups([], []) else Classify(prog, n - 1, Enter(prog, n - 1, GroupsBelow(prog, n - 1, maxOps)), maxOps)
  }

  lemma OpStep(prog: seq<Op>, n: nat, s: Groups, maxOps: nat, t: Groups)
    requires n < |prog| && Acceptable(prog, n) && Progress(prog, n, s.committed, s.active, maxOps)
    requires t == Classify(prog, n, Enter(prog, n, s), maxOps)
    ensures Progress(prog, n + 1, t.committed, t.active, maxOps)
  {
    EnterStep(prog, n, s, maxOps);
    ClassifyStep(prog, n, Enter(prog, n, s), maxOps);
  }

  ghost predicate IsProgress(prog: seq<Op>, n: nat, s: Groups, maxOps: nat) {
    Progress(prog, n, s.committed, s.active, maxOps)
  }

  lemma NoProgressYet(prog: seq<Op>, maxOps: nat)
    ensures IsProgress(prog, 0, GroupsBelow(prog, 0, maxOps), maxOps)
  {
  }

  lemma NextProgress(prog: seq<Op>, n: nat, maxOps: nat)
    requires n < |prog| && Acceptable(prog, n) && IsProgress(prog, n, GroupsBelow(prog, n, maxOps), maxOps)
    ensures IsProgress(prog, n + 1, GroupsBelow(prog, n + 1, maxOps), maxOps)
  {
    var s := GroupsBelow(prog, n, maxOps);
    OpStep(prog, n, s, maxOps, Classify(prog, n, Enter(prog, n, s), maxOps));
  }

  lemma {:induction false} BelowIsProgress(prog: seq<Op>, n: nat, maxOps: nat)
    requires AllAcceptable(prog) && n <= |prog|
    ensures IsProgress(prog, n, GroupsBelow(prog, n, maxOps), maxOps)
  {
    if n == 0 {
      NoProgressYet(prog, maxOps);
    } else {
      BelowIsProgress(prog, n - 1, maxOps);
      NextProgress(prog, n - 1, maxOps);
    }
  }

  /** Enters the block of an operation: a new one closes the active group. */
  method EnterBlock(grouper: PerQubitGrouper, prog: seq<Op>, n: nat, currentBlock: Option<nat>) returns (block: Option<nat>)
    requires n < |prog| && Ready(grouper, prog, n) && currentBlock == if n == 0 then None else Some(prog[n - 1].block)
    modifies grouper
    ensures Ready(grouper, prog, n) && Now(grouper) == Enter(prog, n, old(Now(grouper))) && block == Some(prog[n].block)
  {
    block := currentBlock;
    if block != Some(prog[n].block) {
      if block.Some? {
        grouper.CommitCurrentGroup();
      }
      block := Some(prog[n].block);
    }
  }

  lemma BelowIsGrouped(prog: seq<Op>, maxOps: nat)
    requires WellFormed(prog)
    ensures var s := GroupsBelow(prog, |prog|, maxOps); Grouped(prog, |prog|, s.committed + Listed(s.active), maxOps)
  {
    BelowIsProgress(prog, |prog|, maxOps);
  }

  /** Groups the operations of a program: in order, closing the active group at block boundaries and receives. */
  method FunctionizeOpClassifier(prog: seq<Op>, maxOps: nat) returns (groups: seq<Group>)
    requires WellFormed(prog)
    ensures Grouped(prog, |prog|, groups, maxOps)
  {
    var grouper := RegisterAllocations(prog, maxOps);
    var currentBlock: Option<nat> := None;
    WellFormedAccepts(prog);
    for n := 0 to |prog|
      invariant fresh(grouper) && Ready(grouper, prog, n) && grouper.maxOpsPerGroup == maxOps
      invariant Now(grouper) == GroupsBelow(prog, n, maxOps)
      invariant currentBlock == if n == 0 then None else Some(prog[n - 1].block)
    {
      currentBlock := EnterBlock(grouper, prog, n, currentBlock);
      ClassifyOp(grouper, prog, n);
    }
    BelowIsGrouped(prog, maxOps);
    grouper.CommitCurrentGroup();
    groups := grouper.committedGroups;
  }

  // ---------- what the grouping says of each operation ----------

  lemma {:induction false} GroupIsGroup(prog: seq<Op>, groups: seq<Group>, maxOps: nat, i: nat)
    requires AreGroups(prog, groups, maxOps) && i < |groups|
    ensures IsGroup(prog, groups[i]) && Fits(groups[i], maxOps)
    ensures i > 0 ==> Separate(prog, groups[i - 1], groups[i], maxOps)
  {
    if i < |groups| - 1 {
      GroupIsGroup(prog, groups[..|groups| - 1], maxOps, i);
    }
  }

  lemma {:induction false} QuantumRises(prog: seq<Op>, n: nat)
    requires n <= |prog|
    ensures forall i, j :: 0 <= i < j < |Quantum(prog, n)| ==> Quantum(prog, n)[i] < Quantum(prog, n)[j]
    ensures forall k: nat :: k in Quantum(prog, n) <==> k < n && IsQuantum(prog[k])
  {
    if n > 0 {
      var before := Quantum(prog, n - 1);
      QuantumRises(prog, n - 1);
      assert forall i :: 0 <= i < |before| ==> before[i] in before;
    }
  }

  lemma {:induction false} WorkOfGroup(prog: seq<Op>, groups: seq<Group>, a: nat, x: nat)
    requires a < |groups| && x in Work(prog, groups[a])
    ensures x in WorkAll(prog, groups)
  {
    if a < |groups| - 1 {
      WorkOfGroup(prog, groups[..|groups| - 1], a, x);
    }
  }

  /** The work of a later group comes later. */
  lemma {:induction false} LaterGroupsLater(prog: seq<Op>, groups: seq<Group>, a: nat, b: nat, x: nat, y: nat)
    requires forall i, j :: 0 <= i < j < |WorkAll(prog, groups)| ==> WorkAll(prog, groups)[i] < WorkAll(prog, groups)[j]
    requires a < b < |groups| && x in Work(prog, groups[a]) && y in Work(prog, groups[b])
    ensures x < y
  {
    var front := groups[..|groups| - 1];
    var work, last := WorkAll(prog, front), Work(prog, groups[|groups| - 1]);
    assert WorkAll(prog, groups) == work + last;
    if b < |front| {
      assert forall i :: 0 <= i < |work| ==> (work + last)[i] == work[i];
      LaterGroupsLater(prog, front, a, b, x, y);
    } else {
      WorkOfGroup(prog, front, a, x);
      var i :| 0 <= i < |work| && work[i] == x;
      var j :| 0 <= j < |last| && last[j] == y;
      assert (work + last)[i] == x && (work + last)[|work| + j] == y;
    }
  }

  lemma {:induction false} SomeGroup(prog: seq<Op>, groups: seq<Group>, x: nat) returns (a: nat)
    requires x in WorkAll(prog, groups)
    ensures a < |groups| && x in Work(prog, groups[a])
  {
    if x in Work(prog, groups[|groups| - 1]) {
      a := |groups| - 1;
    } else {
      a := SomeGroup(prog, groups[..|groups| - 1], x);
    }
  }

  /** Each definition and each gate is in exactly one group, and no operation of another kind but allocations is in any. */
  lemma EachInOneGroup(prog: seq<Op>, groups: seq<Group>, maxOps: nat, x: nat)
    requires Grouped(prog, |prog|, groups, maxOps) && x < |prog|
    ensures IsQuantum(prog[x]) <==> exists a :: 0 <= a < |groups| && x in Work(prog, groups[a])
    ensures forall a, b :: 0 <= a < b < |groups| && x in Work(prog, groups[a]) ==> x !in Work(prog, groups[b])
  {
    QuantumRises(prog, |prog|);
    if IsQuantum(prog[x]) {
      var a := SomeGroup(prog, groups, x);
    }
    forall a | 0 <= a < |groups| && x in Work(prog, groups[a]) ensures IsQuantum(prog[x]) {
      WorkOfGroup(prog, groups, a, x);
    }
    forall a, b | 0 <= a < b < |groups| && x in Work(prog, groups[a]) ensures x !in Work(prog, groups[b]) {
      if x in Work(prog, groups[b]) {
        LaterGroupsLater(prog, groups, a, b, x, x);
      }
    }
  }

  /** An allocation begins at most one group, the one of its definition. */
  lemma AllocationsOnce(prog: seq<Op>, groups: seq<Group>, maxOps: nat, a: nat, b: nat)
    requires WellFormed(prog) && Grouped(prog, |prog|, groups, maxOps) && a < b < |groups|
    requires BeginsWithQAlloc(prog, groups[a]) && BeginsWithQAlloc(prog, groups[b])
    ensures groups[a][0] != groups[b][0]
  {
    GroupIsGroup(prog, groups, maxOps, a);
    GroupIsGroup(prog, groups, maxOps, b);
    QuantumRises(prog, |prog|);
    assert groups[a][1] in Work(prog, groups[a]) by { assert Work(prog, groups[a])[0] == groups[a][1]; }
    assert groups[b][1] in Work(prog, groups[b]) by { assert Work(prog, groups[b])[0] == groups[b][1]; }
    LaterGroupsLater(prog, groups, a, b, groups[a][1], groups[b][1]);
  }

  /** Every definition brings its allocation into its group, right before it. */
  lemma DefinitionJoined(prog: seq<Op>, groups: seq<Group>, maxOps: nat, a: nat, i: nat)
    requires Grouped(prog, |prog|, groups, maxOps) && a < |groups| && i < |groups[a]| && groups[a][i] < |prog| && prog[groups[a][i]].Define?
    ensures i == 1 && groups[a][0] == prog[groups[a][1]].qalloc
  {
    GroupIsGroup(prog, groups, maxOps, a);
  }
}
