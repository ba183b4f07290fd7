/** The simulation of host (CPU) and quantum (QPU) tasks running side by side, in 64-bit time. */
module Scheduler {
  import opened Wrappers
  import opened Graph

  const TIME_RANGE := 0x1_0000_0000_0000_0000

  /** 64-bit unsigned wrap-around. */
  function W(x: int): (r: nat)
    ensures r < TIME_RANGE
  {
    x % TIME_RANGE
  }

  datatype Task = Task(name: nat, time: nat)

  type Dependences = map<nat, seq<nat>>

  /** A scheduled task with its resource and the time it ended. */
  datatype Event = Event(task: Task, onQpu: bool, finish: nat)

  /** One resource: its waiting tasks and its clock. */
  datatype Resource = Resource(tasks: seq<Task>, clock: nat)

  datatype Sim = Sim(cpu: Resource, qpu: Resource, deps: Dependences, global: nat, log: seq<Event>)

  /** A task is available when it waits and none of its dependences does. */
  predicate IsTaskAvailable(name: nat, deps: Dependences) {
    name in deps && forall d :: d in deps[name] ==> d !in deps
  }

  /** `next` is the first available task of the list. */
  ghost predicate IsNext(tasks: seq<Task>, deps: Dependences, next: Option<nat>) {
    match next
    case None => forall i :: 0 <= i < |tasks| ==> !IsTaskAvailable(tasks[i].name, deps)
    case Some(n) => n < |tasks| && IsTaskAvailable(tasks[n].name, deps)
                    && forall i :: 0 <= i < n ==> !IsTaskAvailable(tasks[i].name, deps)
  }

  function NextFrom(tasks: seq<Task>, deps: Dependences, i: nat): (next: Option<nat>)
    requires i <= |tasks|
    requires forall k :: 0 <= k < i ==> !IsTaskAvailable(tasks[k].name, deps)
    ensures IsNext(tasks, deps, next)
    decreases |tasks| - i
  {
    if i == |tasks| then None
    else if IsTaskAvailable(tasks[i].name, deps) then Some(i)
    else NextFrom(tasks, deps, i + 1)
  }

  function NextAvailable(tasks: seq<Task>, deps: Dependences): (next: Option<nat>)
    ensures IsNext(tasks, deps, next)
  {
    NextFrom(tasks, deps, 0)
  }

  method FindNextAvailableTask(tasks: seq<Task>, deps: Dependences) returns (next: Option<nat>)
    ensures next == NextAvailable(tasks, deps)
  {
    for i := 0 to |tasks|
      invariant forall k :: 0 <= k < i ==> !IsTaskAvailable(tasks[k].name, deps)
    {
      if IsTaskAvailable(tasks[i].name, deps) {
        return Some(i);
      }
    }
    return None;
  }

  /** How much global time is missing until task `i` has run for its time, in wrapping arithmetic. */
  function Missing(r: Resource, i: nat, global: nat): nat
    requires i < |r.tasks|
  {
    W(r.tasks[i].time - W(global - r.clock))
  }

  function NextTimeIncrement(cpu: Resource, qpu: Resource, c: Option<nat>, q: Option<nat>, global: nat): nat
    requires c.Some? ==> c.value < |cpu.tasks|
    requires q.Some? ==> q.value < |qpu.tasks|
  {
    if c.None? && q.None? then 0
    else if c.None? then Missing(qpu, q.value, global)
    else if q.None? then Missing(cpu, c.value, global)
    else if Missing(cpu, c.value, global) <= Missing(qpu, q.value, global) then Missing(cpu, c.value, global)
    else Missing(qpu, q.value, global)
  }

  function On(s: Sim, onQpu: bool): Resource {
    if onQpu then s.qpu else s.cpu
  }

  function With(s: Sim, onQpu: bool, r: Resource): Sim {
    if onQpu then s.(qpu := r) else s.(cpu := r)
  }

  function RemoveAt<T>(l: seq<T>, i: nat): seq<T>
    requires i < |l|
  {
    l[..i] + l[i + 1..]
  }

  /** An idle resource follows the global clock; a timed task whose time has passed is removed and logged. */
  function ScheduleIfReady(s: Sim, onQpu: bool, next: Option<nat>): Sim
    requires next.Some? ==> next.value < |On(s, onQpu).tasks|
  {
    var r := On(s, onQpu);
    if next.None? then With(s, onQpu, r.(clock := s.global))
    else
      var task := r.tasks[next.value];
      if W(s.global - r.clock) < task.time then s
      else With(s, onQpu, Resource(RemoveAt(r.tasks, next.value), s.global)).(deps := s.deps - {task.name}, log := s.log + [Event(task, onQpu, s.global)])
  }

  /** The state after the clock has advanced. */
  function Advance(s: Sim): Sim {
    var q := NextAvailable(s.qpu.tasks, s.deps);
    var c := NextAvailable(s.cpu.tasks, s.deps);
    s.(global := W(s.global + NextTimeIncrement(s.cpu, s.qpu, c, q, s.global)))
  }

  /** One iteration: the next task of each list is chosen first; then the clock advances and the two are served. */
  function Step(s: Sim): Sim {
    var q := NextAvailable(s.qpu.tasks, s.deps);
    var c := NextAvailable(s.cpu.tasks, s.deps);
    ScheduleIfReady(ScheduleIfReady(Advance(s), true, q), false, c)
  }

  function Waiting(s: Sim): nat {
    |s.cpu.tasks| + |s.qpu.tasks|
  }

  function NamesOf(tasks: seq<Task>): (names: seq<nat>)
    ensures |names| == |tasks| && forall i :: 0 <= i < |tasks| ==> names[i] == tasks[i].name
  {
    seq(|tasks|, i requires 0 <= i < |tasks| => tasks[i].name)
  }

  /** The names of all waiting tasks, host tasks first. */
  function Names(s: Sim): seq<nat> {
    NamesOf(s.cpu.tasks) + NamesOf(s.qpu.tasks)
  }

  /** From a task to the tasks that depend on it. */
  function Releases(deps: Dependences): Digraph {
    map d | d in deps :: set n | n in deps && d in deps[n]
  }

  /** Names are unique and are exactly the keys of the map, which is what is left of `deps0`. */
  ghost predicate Keyed(s: Sim, deps0: Dependences) {
    && Distinct(Names(s)) && (forall n: nat :: n in Names(s) <==> n in s.deps)
    && (forall n :: n in s.deps ==> n in deps0 && deps0[n] == s.deps[n])
  }

  ghost predicate TimesFit(s: Sim) {
    && (forall i :: 0 <= i < |s.cpu.tasks| ==> s.cpu.tasks[i].time < TIME_RANGE)
    && (forall i :: 0 <= i < |s.qpu.tasks| ==> s.qpu.tasks[i].time < TIME_RANGE)
  }

  /** Names and keys agree, the dependences have no cycle, times are 64-bit values. */
  ghost predicate WellFormed(s: Sim, deps0: Dependences) {
    Keyed(s, deps0) && Acyclic(Releases(deps0)) && TimesFit(s)
  }

  // ---------- progress ----------

  lemma WSame(x: int, y: int, k: int)
    requires x == y + k * TIME_RANGE
    ensures W(x) == W(y)
  {
  }

  /** Adding the missing time lands exactly on the task's end, whatever has wrapped. */
  lemma MissingLands(clock: nat, global: nat, t: nat)
    requires t < TIME_RANGE
    ensures W(W(global + W(t - W(global - clock))) - clock) == t
  {
    var elapsed := W(global - clock);
    var k1 := (global - clock) / TIME_RANGE;
    assert global - clock == k1 * TIME_RANGE + elapsed;
    var missing := W(t - elapsed);
    var k2 := (t - elapsed) / TIME_RANGE;
    assert t - elapsed == k2 * TIME_RANGE + missing;
    var k3 := (global + missing) / TIME_RANGE;
    assert global + missing == k3 * TIME_RANGE + W(global + missing);
    assert W(global + missing) - clock == t + (k1 - k2 - k3) * TIME_RANGE;
    WSame(W(global + missing) - clock, t, k1 - k2 - k3);
  }

  /** Some waiting task is available: one whose dependences no longer wait. */
  lemma SomeAvailable(s: Sim, deps0: Dependences)
    requires WellFormed(s, deps0) && Waiting(s) > 0
    ensures NextAvailable(s.cpu.tasks, s.deps).Some? || NextAvailable(s.qpu.tasks, s.deps).Some?
  {
    assert Names(s)[0] in s.deps;
    var n := FindSource(Releases(deps0), s.deps.Keys, Names(s)[0]);
    assert IsTaskAvailable(n, s.deps) by {
      forall d | d in s.deps[n] ensures d !in s.deps {
        assert d in s.deps.Keys ==> n !in Succ(Releases(deps0), d);
      }
    }
    assert n in Names(s);
    var i :| 0 <= i < |Names(s)| && Names(s)[i] == n;
    if i < |s.cpu.tasks| {
      assert IsTaskAvailable(s.cpu.tasks[i].name, s.deps);
    } else {
      assert IsTaskAvailable(s.qpu.tasks[i - |s.cpu.tasks|].name, s.deps);
    }
  }

  /** The resource whose missing time was added schedules its task. */
  lemma Fires(s: Sim, t: Sim, onQpu: bool, n: nat)
    requires n < |On(s, onQpu).tasks| && On(s, onQpu).tasks[n].time < TIME_RANGE
    requires On(t, onQpu) == On(s, onQpu) && t.global == W(s.global + Missing(On(s, onQpu), n, s.global))
    ensures |On(ScheduleIfReady(t, onQpu, Some(n)), onQpu).tasks| == |On(t, onQpu).tasks| - 1
  {
    MissingLands(On(s, onQpu).clock, s.global, On(s, onQpu).tasks[n].time);
  }

  lemma ServesOne(s: Sim, onQpu: bool, next: Option<nat>)
    requires next.Some? ==> next.value < |On(s, onQpu).tasks|
    ensures On(ScheduleIfReady(s, onQpu, next), !onQpu) == On(s, !onQpu)
    ensures |On(ScheduleIfReady(s, onQpu, next), onQpu).tasks| <= |On(s, onQpu).tasks|
    ensures ScheduleIfReady(s, onQpu, next).global == s.global
  {
  }

  lemma AvailableRemoved(s: Sim)
    requires NextAvailable(s.cpu.tasks, s.deps).Some? || NextAvailable(s.qpu.tasks, s.deps).Some?
    requires TimesFit(s)
    ensures Waiting(Step(s)) < Waiting(s)
  {
    var q := NextAvailable(s.qpu.tasks, s.deps);
    var c := NextAvailable(s.cpu.tasks, s.deps);
    var inc := NextTimeIncrement(s.cpu, s.qpu, c, q, s.global);
    var t := Advance(s);
    var u := ScheduleIfReady(t, true, q);
    ServesOne(t, true, q);
    ServesOne(u, false, c);
    if q.Some? && inc == Missing(s.qpu, q.value, s.global) {
      Fires(s, t, true, q.value);
    } else {
      assert c.Some? && inc == Missing(s.cpu, c.value, s.global);
      Fires(s, u, false, c.value);
    }
  }

  /** Every iteration removes at least one task, even when the times wrap. */
  lemma StepRemoves(s: Sim, deps0: Dependences)
    requires WellFormed(s, deps0) && Waiting(s) > 0
    ensures Waiting(Step(s)) < Waiting(s)
  {
    SomeAvailable(s, deps0);
    AvailableRemoved(s);
  }

  // ---------- what every iteration keeps ----------

  function LogNames(log: seq<Event>): (names: seq<nat>)
    ensures |names| == |log| && forall i :: 0 <= i < |log| ==> names[i] == log[i].task.name
  {
    seq(|log|, i requires 0 <= i < |log| => log[i].task.name)
  }

  /** Each task of the map is either waiting or logged once, and was logged after all its dependences. */
  ghost predicate Linear(s: Sim, deps0: Dependences) {
    && Distinct(LogNames(s.log))
    && (forall n: nat :: n in deps0 <==> n in s.deps || n in LogNames(s.log))
    && (forall n :: n in s.deps ==> n !in LogNames(s.log))
    && (forall i, d :: 0 <= i < |s.log| && s.log[i].task.name in deps0 && d in deps0[s.log[i].task.name] && d in deps0 ==>
          d in LogNames(s.log[..i]))
  }

  lemma RemoveAtDistinct(l: seq<nat>, i: nat)
    requires Distinct(l) && i < |l|
    ensures Distinct(RemoveAt(l, i)) && forall x: nat :: x in RemoveAt(l, i) <==> x in l && x != l[i]
  {
    var r := RemoveAt(l, i);
    assert forall k :: 0 <= k < |r| ==> r[k] == l[if k < i then k else k + 1];
    forall x: nat | x in l && x != l[i] ensures x in r {
      var k :| 0 <= k < |l| && l[k] == x;
      assert r[if k < i then k else k - 1] == x;
    }
  }

  lemma RemovedName(s: Sim, onQpu: bool, n: nat)
    requires n < |On(s, onQpu).tasks|
    ensures Names(With(s, onQpu, Resource(RemoveAt(On(s, onQpu).tasks, n), s.global)))
         == RemoveAt(Names(s), if onQpu then |s.cpu.tasks| + n else n)
    ensures Names(s)[if onQpu then |s.cpu.tasks| + n else n] == On(s, onQpu).tasks[n].name
  {
  }

  lemma ServedStaysKeyed(s: Sim, deps0: Dependences, onQpu: bool, n: nat)
    requires Keyed(s, deps0) && n < |On(s, onQpu).tasks|
    ensures Keyed(ScheduleIfReady(s, onQpu, Some(n)), deps0)
  {
    var t := ScheduleIfReady(s, onQpu, Some(n));
    if t != s {
      var k := if onQpu then |s.cpu.tasks| + n else n;
      RemovedName(s, onQpu, n);
      assert Names(t) == RemoveAt(Names(s), k);
      RemoveAtDistinct(Names(s), k);
    }
  }

  lemma ServedStaysFit(s: Sim, onQpu: bool, n: nat)
    requires TimesFit(s) && n < |On(s, onQpu).tasks|
    ensures TimesFit(ScheduleIfReady(s, onQpu, Some(n)))
  {
  }

  /** Logging an available task keeps the order linear. */
  lemma ServedStaysLinear(s: Sim, deps0: Dependences, onQpu: bool, n: nat)
    requires WellFormed(s, deps0) && Linear(s, deps0) && n < |On(s, onQpu).tasks|
    requires IsTaskAvailable(On(s, onQpu).tasks[n].name, s.deps)
    ensures Linear(ScheduleIfReady(s, onQpu, Some(n)), deps0)
  {
    var t := ScheduleIfReady(s, onQpu, Some(n));
    if t.log != s.log {
      var task := On(s, onQpu).tasks[n];
      assert LogNames(t.log) == LogNames(s.log) + [task.name];
      forall i, d | 0 <= i < |t.log| && t.log[i].task.name in deps0 && d in deps0[t.log[i].task.name] && d in deps0
        ensures d in LogNames(t.log[..i])
      {
        assert t.log[..i] == s.log[..i];
        if i == |s.log| {
          assert d !in s.deps;
          assert s.log[..i] == s.log;
        } else {
          assert t.log[i] == s.log[i];
        }
      }
    }
  }

  lemma WaitingIsKnown(s: Sim, onQpu: bool, n: nat)
    requires n < |On(s, onQpu).tasks|
    ensures On(s, onQpu).tasks[n].name in Names(s)
  {
    RemovedName(s, onQpu, n);
    assert Names(s)[if onQpu then |s.cpu.tasks| + n else n] in Names(s);
  }

  lemma ServedKeeps(s: Sim, deps0: Dependences, onQpu: bool, next: Option<nat>)
    requires WellFormed(s, deps0) && Linear(s, deps0)
    requires next.Some? ==> next.value < |On(s, onQpu).tasks| && IsTaskAvailable(On(s, onQpu).tasks[next.value].name, s.deps)
    ensures WellFormed(ScheduleIfReady(s, onQpu, next), deps0) && Linear(ScheduleIfReady(s, onQpu, next), deps0)
  {
    if next.Some? {
      ServedStaysKeyed(s, deps0, onQpu, next.value);
      ServedStaysFit(s, onQpu, next.value);
      ServedStaysLinear(s, deps0, onQpu, next.value);
    } else {
      assert Names(ScheduleIfReady(s, onQpu, next)) == Names(s);
    }
  }

  /** The task chosen for the host is still available after the quantum side has been served. */
  lemma StillAvailable(s: Sim, deps0: Dependences, q: Option<nat>, c: nat)
    requires WellFormed(s, deps0) && c < |s.cpu.tasks|
    requires q.Some? ==> q.value < |s.qpu.tasks|
    requires IsTaskAvailable(s.cpu.tasks[c].name, s.deps)
    ensures ScheduleIfReady(s, true, q).cpu == s.cpu
    ensures IsTaskAvailable(s.cpu.tasks[c].name, ScheduleIfReady(s, true, q).deps)
  {
    if q.Some? {
      assert Names(s)[c] == s.cpu.tasks[c].name && Names(s)[|s.cpu.tasks| + q.value] == s.qpu.tasks[q.value].name;
    }
  }

  lemma StepKeeps(s: Sim, deps0: Dependences)
    requires WellFormed(s, deps0) && Linear(s, deps0)
    ensures WellFormed(Step(s), deps0) && Linear(Step(s), deps0)
  {
    var q := NextAvailable(s.qpu.tasks, s.deps);
    var c := NextAvailable(s.cpu.tasks, s.deps);
    var t := Advance(s);
    assert Names(t) == Names(s);
    ServedKeeps(t, deps0, true, q);
    if c.Some? {
      StillAvailable(t, deps0, q, c.value);
    }
    ServedKeeps(ScheduleIfReady(t, true, q), deps0, false, c);
  }

  // ---------- whole runs ----------

  ghost predicate Sane(s: Sim, deps0: Dependences) {
    WellFormed(s, deps0) && Linear(s, deps0)
  }

  ghost function Run(s: Sim, deps0: Dependences): Sim
    requires Sane(s, deps0)
    decreases Waiting(s)
  {
    if Waiting(s) == 0 then s
    else
      StepRemoves(s, deps0);
      StepKeeps(s, deps0);
      Run(Step(s), deps0)
  }

  ghost function Rounds(s: Sim, deps0: Dependences): nat
    requires Sane(s, deps0)
    decreases Waiting(s)
  {
    if Waiting(s) == 0 then 0
    else
      StepRemoves(s, deps0);
      StepKeeps(s, deps0);
      1 + Rounds(Step(s), deps0)
  }

  lemma NextRound(s: Sim, deps0: Dependences)
    requires Sane(s, deps0) && Waiting(s) > 0
    ensures Sane(Step(s), deps0) && Run(s, deps0) == Run(Step(s), deps0) && Waiting(Step(s)) < Waiting(s)
  {
    StepRemoves(s, deps0);
    StepKeeps(s, deps0);
  }

  /** Every task is scheduled exactly once, after all the tasks it depends on, in at most one round per task. */
  lemma {:induction false} RunIsLinear(s: Sim, deps0: Dependences)
    requires Sane(s, deps0)
    ensures Rounds(s, deps0) <= Waiting(s)
    ensures Distinct(LogNames(Run(s, deps0).log))
    ensures forall n: nat :: n in deps0 <==> n in LogNames(Run(s, deps0).log)
    ensures forall i, d :: 0 <= i < |Run(s, deps0).log| && d in deps0 && d in deps0[Run(s, deps0).log[i].task.name] ==>
              d in LogNames(Run(s, deps0).log[..i])
    decreases Waiting(s)
  {
    if Waiting(s) == 0 {
      assert Names(s) == [];
      assert forall i :: 0 <= i < |s.log| ==> LogNames(s.log)[i] in LogNames(s.log);
    } else {
      StepRemoves(s, deps0);
      StepKeeps(s, deps0);
      RunIsLinear(Step(s), deps0);
    }
  }

  function Start(cpu: seq<Task>, qpu: seq<Task>, deps: Dependences): Sim {
    Sim(Resource(cpu, 0), Resource(qpu, 0), deps, 0, [])
  }

  /** The task lists and the keys of the map agree, names are unique, and no task waits for itself. */
  ghost predicate Accepted(cpu: seq<Task>, qpu: seq<Task>, deps: Dependences) {
    && Distinct(NamesOf(cpu) + NamesOf(qpu))
    && (forall n: nat :: n in NamesOf(cpu) + NamesOf(qpu) <==> n in deps)
    && Acyclic(Releases(deps))
    && TimesFit(Start(cpu, qpu, deps))
  }

  lemma AcceptedStart(cpu: seq<Task>, qpu: seq<Task>, deps: Dependences)
    requires Accepted(cpu, qpu, deps)
    ensures Sane(Start(cpu, qpu, deps), deps)
  {
  }

  /** Waiting and logged tasks are tasks of the list of their resource. */
  ghost predicate FromLists(s: Sim, cpu: seq<Task>, qpu: seq<Task>) {
    && (forall t :: t in s.cpu.tasks ==> t in cpu) && (forall t :: t in s.qpu.tasks ==> t in qpu)
    && (forall i :: 0 <= i < |s.log| ==> s.log[i].task in if s.log[i].onQpu then qpu else cpu)
  }

  lemma ServedFromLists(s: Sim, onQpu: bool, next: Option<nat>, cpu: seq<Task>, qpu: seq<Task>)
    requires FromLists(s, cpu, qpu) && (next.Some? ==> next.value < |On(s, onQpu).tasks|)
    ensures FromLists(ScheduleIfReady(s, onQpu, next), cpu, qpu)
  {
  }

  lemma {:induction false} RunLogsListed(s: Sim, deps0: Dependences, cpu: seq<Task>, qpu: seq<Task>)
    requires Sane(s, deps0) && FromLists(s, cpu, qpu)
    ensures FromLists(Run(s, deps0), cpu, qpu)
    decreases Waiting(s)
  {
    if Waiting(s) > 0 {
      var q := NextAvailable(s.qpu.tasks, s.deps);
      var c := NextAvailable(s.cpu.tasks, s.deps);
      NextRound(s, deps0);
      ServedFromLists(Advance(s), true, q, cpu, qpu);
      ServedFromLists(ScheduleIfReady(Advance(s), true, q), false, c, cpu, qpu);
      RunLogsListed(Step(s), deps0, cpu, qpu);
    }
  }

  // ---------- qubit lifetimes ----------

  /** The first initialisation of a qubit stores its end; a measurement turns the stored time into the time since. */
  function UpdateQubitLifetime(name: nat, now: nat, inits: map<nat, nat>, meas: map<nat, nat>, life: map<nat, nat>): map<nat, nat> {
    var begun := if name in inits && inits[name] !in life then life[inits[name] := now] else life;
    if name in meas && meas[name] in begun then begun[meas[name] := W(now - begun[meas[name]])] else begun
  }

  function LifetimesOf(log: seq<Event>, inits: map<nat, nat>, meas: map<nat, nat>): map<nat, nat> {
    if log == [] then map[]
    else UpdateQubitLifetime(log[|log| - 1].task.name, log[|log| - 1].finish, inits, meas, LifetimesOf(log[..|log| - 1], inits, meas))
  }

  lemma LifetimesOneMore(log: seq<Event>, e: Event, inits: map<nat, nat>, meas: map<nat, nat>)
    ensures LifetimesOf(log + [e], inits, meas) == UpdateQubitLifetime(e.task.name, e.finish, inits, meas, LifetimesOf(log, inits, meas))
  {
    assert (log + [e])[..|log + [e]| - 1] == log;
  }

  /** Event `i` is the only one in `log` that `roles` links to qubit `q`. */
  ghost predicate OnlyRole(log: seq<Event>, roles: map<nat, nat>, q: nat, i: nat) {
    forall j :: 0 <= j < |log| ==> ((log[j].task.name in roles && roles[log[j].task.name] == q) <==> j == i)
  }

  lemma {:induction false} LifetimeNotBegun(log: seq<Event>, inits: map<nat, nat>, meas: map<nat, nat>, q: nat)
    requires forall j :: 0 <= j < |log| ==> !(log[j].task.name in inits && inits[log[j].task.name] == q)
    ensures q !in LifetimesOf(log, inits, meas)
  {
    if log != [] {
      LifetimeNotBegun(log[..|log| - 1], inits, meas, q);
    }
  }

  /** A qubit initialised once and measured once, later, gets the time from the end of the first to the end of the second. */
  lemma {:induction false} LifetimeIsMeasured(log: seq<Event>, inits: map<nat, nat>, meas: map<nat, nat>, q: nat, i: nat, m: nat)
    requires i < m && i < |log| && OnlyRole(log, inits, q, i) && OnlyRole(log, meas, q, m)
    ensures q in LifetimesOf(log, inits, meas)
    ensures LifetimesOf(log, inits, meas)[q] == if m < |log| then W(log[m].finish - log[i].finish) else log[i].finish
  {
    var front := log[..|log| - 1];
    if i < |front| {
      LifetimeIsMeasured(front, inits, meas, q, i, m);
    } else {
      LifetimeNotBegun(front, inits, meas, q);
    }
  }

  // ---------- the scheduler itself ----------

  method ScheduleTaskIfReady(tasks: seq<Task>, index: Option<nat>, clock: nat, global: nat, deps: Dependences,
                             inits: map<nat, nat>, meas: map<nat, nat>, life: map<nat, nat>, ghost s: Sim, ghost onQpu: bool)
    returns (tasks': seq<Task>, clock': nat, deps': Dependences, life': map<nat, nat>)
    requires index.Some? ==> index.value < |tasks|
    requires On(s, onQpu) == Resource(tasks, clock) && s.global == global && s.deps == deps
    requires life == LifetimesOf(s.log, inits, meas)
    ensures var t := ScheduleIfReady(s, onQpu, index);
            On(t, onQpu) == Resource(tasks', clock') && On(t, !onQpu) == On(s, !onQpu) && t.deps == deps' && t.global == global
            && life' == LifetimesOf(t.log, inits, meas)
  {
    tasks', clock', deps', life' := tasks, clock, deps, life;
    if index.None? {
      clock' := global;
      return;
    }
    var task := tasks[index.value];
    if W(global - clock) < task.time {
      return;
    }
    LifetimesOneMore(s.log, Event(task, onQpu, global), inits, meas);
    life' := UpdateQubitLifetime(task.name, global, inits, meas, life);
    clock' := global;
    deps' := deps - {task.name};
    tasks' := RemoveAt(tasks, index.value);
  }

  /** One iteration of the scheduling loop, on the variables that mirror `s`. */
  method Round(cpu: seq<Task>, qpu: seq<Task>, cpuTime: nat, qpuTime: nat, deps: Dependences, global: nat,
               inits: map<nat, nat>, meas: map<nat, nat>, life: map<nat, nat>, ghost s: Sim)
    returns (cpu': seq<Task>, qpu': seq<Task>, cpuTime': nat, qpuTime': nat, deps': Dependences, global': nat, life': map<nat, nat>)
    requires s == Sim(Resource(cpu, cpuTime), Resource(qpu, qpuTime), deps, global, s.log)
    requires life == LifetimesOf(s.log, inits, meas)
    ensures Step(s) == Sim(Resource(cpu', cpuTime'), Resource(qpu', qpuTime'), deps', global', Step(s).log)
    ensures life' == LifetimesOf(Step(s).log, inits, meas)
  {
    var q := FindNextAvailableTask(qpu, deps);
    var c := FindNextAvailableTask(cpu, deps);
    global' := W(global + NextTimeIncrement(Resource(cpu, cpuTime), Resource(qpu, qpuTime), c, q, global));
    ghost var t := Advance(s);
    qpu', qpuTime', deps', life' := ScheduleTaskIfReady(qpu, q, qpuTime, global', deps, inits, meas, life, t, true);
    ghost var u := ScheduleIfReady(t, true, q);
    cpu', cpuTime', deps', life' := ScheduleTaskIfReady(cpu, c, cpuTime, global', deps', inits, meas, life', u, false);
  }

  method RunScheduler(cpuTasks: seq<Task>, qpuTasks: seq<Task>, dependences: Dependences, inits: map<nat, nat>, meas: map<nat, nat>)
    returns (life: map<nat, nat>, total: nat)
    requires Accepted(cpuTasks, qpuTasks, dependences)
    ensures Sane(Start(cpuTasks, qpuTasks, dependences), dependences)
    ensures var end := Run(Start(cpuTasks, qpuTasks, dependences), dependences);
            total == end.global && life == LifetimesOf(end.log, inits, meas)
  {
    AcceptedStart(cpuTasks, qpuTasks, dependences);
    var cpu, qpu, deps := cpuTasks, qpuTasks, dependences;
    var cpuTime, qpuTime, global := 0, 0, 0;
    life := map[];
    ghost var s := Start(cpu, qpu, deps);
    while |cpu| > 0 || |qpu| > 0
      invariant s == Sim(Resource(cpu, cpuTime), Resource(qpu, qpuTime), deps, global, s.log)
      invariant life == LifetimesOf(s.log, inits, meas)
      invariant Sane(s, dependences)
      invariant Run(s, dependences) == Run(Start(cpuTasks, qpuTasks, dependences), dependences)
      decreases |cpu| + |qpu|
    {
      NextRound(s, dependences);
      cpu, qpu, cpuTime, qpuTime, deps, global, life := Round(cpu, qpu, cpuTime, qpuTime, deps, global, inits, meas, life, s);
      s := Step(s);
    }
    total := global;
  }
}
